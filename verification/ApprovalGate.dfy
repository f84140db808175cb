/** Identifiers, approval grants and their validation against the operation being attempted. */
module ApprovalGate {
  import opened JsText
  import opened JsSplit
  import opened Options

  // ---------------------------------------------------------------- identifiers

  const SLASH: Unit := 47
  const DOT: Unit := 46

  predicate IsNamespace(s: Str) {
    s == Ascii("tvoe-vremya") || s == Ascii("ai-my-time") || s == Ascii("personal")
    || s == Ascii("shared-public") || s == Ascii("security-restricted")
  }

  predicate IsEffect(s: Str) {
    s == Ascii("write") || s == Ascii("delete") || s == Ascii("execute") || s == Ascii("external-send")
    || s == Ascii("privilege-change") || s == Ascii("memory-write") || s == Ascii("integration-write")
    || s == Ascii("exec") || s == Ascii("schedule-write") || s == Ascii("notifications-send")
    || s == Ascii("secrets-read")
  }

  const PENDING: Str := Ascii("pending")
  const CONSUMED: Str := Ascii("consumed")
  const REVOKED: Str := Ascii("revoked")
  const WRITE: Str := Ascii("write")
  const MEMORY: Str := Ascii("memory")

  predicate IsAlnum(c: Unit) { IsDigit(c) || 65 <= c <= 90 || 97 <= c <= 122 }

  /** [A-Za-z0-9._:@+-] */
  predicate IsIdUnit(c: Unit) {
    IsAlnum(c) || c == DOT || c == 95 || c == 58 || c == 64 || c == 43 || c == 45
  }

  /** parseOwnerId, parseActorId, parseApprovalId and parseApprovalNonce accept exactly these. */
  predicate IsId(s: Str) {
    1 <= |s| <= 128 && IsAlnum(s[0]) && forall i | 0 <= i < |s| :: IsIdUnit(s[i])
  }

  /** parseMemoryRecordId: an identifier without "..". */
  predicate IsRecordId(s: Str) {
    IsId(s) && forall i | 0 <= i < |s| - 1 :: !(s[i] == DOT && s[i + 1] == DOT)
  }

  /** Digits, the letters of either case and the six marks; the first unit is no mark. */
  lemma IdExactly(s: Str)
    ensures IsId(s) <==>
      1 <= |s| <= 128 && s[0] !in Ascii("._:@+-")
      && forall i | 0 <= i < |s| ::
        Ascii("0")[0] <= s[i] <= Ascii("9")[0] || Ascii("A")[0] <= s[i] <= Ascii("Z")[0] || Ascii("a")[0] <= s[i] <= Ascii("z")[0]
        || s[i] in Ascii("._:@+-")
  {
    var marks := Ascii("._:@+-");
    assert marks == [46, 95, 58, 64, 43, 45];
    assert forall c: Unit :: c in marks <==> IsIdUnit(c) && !IsAlnum(c);
  }

  /** No two dots in a row, wherever the identifier is cut. */
  lemma RecordIdExactly(s: Str)
    ensures IsRecordId(s) <==> IsId(s) && forall before: Str, after: Str :: s != before + Ascii("..") + after
  {
    assert Ascii("..") == [46, 46];
    if IsId(s) && !IsRecordId(s) {
      var i :| 0 <= i < |s| - 1 && s[i] == DOT && s[i + 1] == DOT;
      assert s == s[..i] + Ascii("..") + s[i + 2..];
    }
    forall before: Str, after: Str | s == before + Ascii("..") + after ensures !IsRecordId(s) {
      assert s[|before|] == DOT && s[|before| + 1] == DOT;
    }
  }

  /** parseResourceRef: memory/<namespace>/<recordId>. */
  predicate IsResourceRef(s: Str) {
    var parts := Split(s, SLASH);
    |parts| == 3 && parts[0] == MEMORY && IsNamespace(parts[1]) && IsRecordId(parts[2])
  }

  /** parsePayloadDigest: lowercase hex of a controlled length. */
  predicate IsDigest(s: Str) {
    32 <= |s| <= 128 && forall i | 0 <= i < |s| :: IsDigit(s[i]) || 97 <= s[i] <= 102
  }

  lemma DigestExactly(s: Str)
    ensures IsDigest(s) <==> 32 <= |s| <= 128 && forall i | 0 <= i < |s| :: s[i] in Ascii("0123456789abcdef")
  {
    var hex := Ascii("0123456789abcdef");
    assert hex == [48, 49, 50, 51, 52, 53, 54, 55, 56, 57, 97, 98, 99, 100, 101, 102];
    assert forall c: Unit :: c in hex <==> IsDigit(c) || 97 <= c <= 102;
  }

  function MemoryTarget(namespace: Str, recordId: Str): Str {
    Join([MEMORY, namespace, recordId], SLASH)
  }

  lemma NamespacesHaveNoSlash(namespace: Str)
    requires IsNamespace(namespace)
    ensures SLASH !in namespace
  {
  }

  /** The operation's own target always parses, so memoryWriteTarget never throws. */
  lemma MemoryTargetParses(namespace: Str, recordId: Str)
    requires IsNamespace(namespace) && IsRecordId(recordId)
    ensures IsResourceRef(MemoryTarget(namespace, recordId))
  {
    hide IsRecordId;
    TargetParts(namespace, recordId);
  }

  lemma TargetParts(namespace: Str, recordId: Str)
    requires IsNamespace(namespace) && IsRecordId(recordId)
    ensures Split(MemoryTarget(namespace, recordId), SLASH) == [MEMORY, namespace, recordId]
  {
    NamespacesHaveNoSlash(namespace);
    assert SLASH !in recordId;
    SplitJoin([MEMORY, namespace, recordId], SLASH);
  }

  /** A target names one namespace and one record. */
  lemma MemoryTargetIdentifies(n: Str, r: Str, n': Str, r': Str)
    requires IsNamespace(n) && IsRecordId(r) && IsNamespace(n') && IsRecordId(r')
    requires MemoryTarget(n, r) == MemoryTarget(n', r')
    ensures n == n' && r == r'
  {
    hide IsRecordId;
    TargetParts(n, r);
    TargetParts(n', r');
    assert [MEMORY, n, r][1] == n && [MEMORY, n, r][2] == r;
  }

  // ---------------------------------------------------------------- grants

  datatype Scope = Scope(primary: Str, permitted: seq<Str>, crossProjectPermitted: bool)

  /** What a memory write puts before the owner. */
  datatype Payload = Payload(
    content: Str, metadata: map<Str, Str>, namespace: Str, target: Str, recordId: Str, scope: Scope)

  /** Timestamps are instants; None is text parseISO8601 rejects. */
  datatype Grant = Grant(
    approvalId: Str, ownerId: Str, actorId: Str, effect: Str, target: Str, namespace: Str, scope: Scope,
    payloadDigest: Str, issuedAt: Option<int>, expiresAt: Option<int>, nonce: Str, status: Str)

  datatype Demand = Demand(
    ownerId: Str, actorId: Str, effect: Str, target: Str, namespace: Str, scope: Scope, payloadDigest: Str)

  datatype Approval = Approval(approvalId: Str, effect: Str, target: Str, nonce: Str)

  datatype Refusal =
    | MISSING_GRANT | UNKNOWN_EFFECT | OWNER_MISMATCH | ACTOR_MISMATCH | EFFECT_MISMATCH | TARGET_MISMATCH
    | NAMESPACE_MISMATCH | PROJECT_SCOPE_MISMATCH | PAYLOAD_DIGEST_MISMATCH | INVALID_TIMESTAMP | EXPIRED
    | ALREADY_CONSUMED | REVOKED_GRANT | MALFORMED_GRANT

  datatype Validation = Valid(approval: Approval) | Refused(code: Refusal)

  /** exactPlainObservation: no string over 2048 units and no list over 128 entries. */
  predicate Observable(g: Grant) {
    |g.approvalId| <= 2048 && |g.ownerId| <= 2048 && |g.actorId| <= 2048 && |g.effect| <= 2048
    && |g.target| <= 2048 && |g.namespace| <= 2048 && |g.payloadDigest| <= 2048 && |g.nonce| <= 2048
    && |g.status| <= 2048 && |g.scope.primary| <= 2048 && |g.scope.permitted| <= 128
    && forall i | 0 <= i < |g.scope.permitted| :: |g.scope.permitted[i]| <= 2048
  }

  predicate DistinctNamespaces(s: seq<Str>) {
    s != [] && (forall i | 0 <= i < |s| :: IsNamespace(s[i])) && forall i, j | 0 <= i < j < |s| :: s[i] != s[j]
  }

  predicate Structured(g: Grant) {
    IsId(g.approvalId) && IsId(g.ownerId) && IsId(g.actorId) && IsResourceRef(g.target) && IsDigest(g.payloadDigest)
    && IsId(g.nonce) && IsNamespace(g.scope.primary) && DistinctNamespaces(g.scope.permitted)
    && IsNamespace(g.namespace)
  }

  /** projectScopesEqual: the permitted lists are compared after sorting. */
  predicate ScopesEqual(a: Scope, b: Scope) {
    a.primary == b.primary && a.crossProjectPermitted == b.crossProjectPermitted
    && |a.permitted| == |b.permitted| && Sort(a.permitted) == Sort(b.permitted)
  }

  function ValidateApproval(grant: Option<Grant>, demand: Demand, now: int): Validation {
    if grant.None? then Refused(MISSING_GRANT) else
    var g := grant.value;
    if !Observable(g) then Refused(MALFORMED_GRANT)
    else if !Structured(g) then Refused(MALFORMED_GRANT)
    else if g.issuedAt.None? || g.expiresAt.None? then Refused(INVALID_TIMESTAMP)
    else if !IsEffect(g.effect) || !IsEffect(demand.effect) then Refused(UNKNOWN_EFFECT)
    else if g.expiresAt.value <= g.issuedAt.value then Refused(INVALID_TIMESTAMP)
    else if g.status !in {PENDING, CONSUMED, REVOKED} then Refused(REVOKED_GRANT)
    else if g.status == REVOKED then Refused(REVOKED_GRANT)
    else if g.status == CONSUMED then Refused(ALREADY_CONSUMED)
    else if now >= g.expiresAt.value then Refused(EXPIRED)
    else if now < g.issuedAt.value then Refused(INVALID_TIMESTAMP)
    else if g.ownerId != demand.ownerId then Refused(OWNER_MISMATCH)
    else if g.actorId != demand.actorId then Refused(ACTOR_MISMATCH)
    else if g.effect != demand.effect then Refused(EFFECT_MISMATCH)
    else if g.target != demand.target then Refused(TARGET_MISMATCH)
    else if g.namespace != demand.namespace then Refused(NAMESPACE_MISMATCH)
    else if !ScopesEqual(g.scope, demand.scope) then Refused(PROJECT_SCOPE_MISMATCH)
    else if g.payloadDigest != demand.payloadDigest then Refused(PAYLOAD_DIGEST_MISMATCH)
    else Valid(Approval(g.approvalId, g.effect, g.target, g.nonce))
  }

  /** What the owner approved is this very operation, now. */
  ghost predicate Covers(g: Grant, d: Demand, now: int) {
    g.ownerId == d.ownerId && g.actorId == d.actorId && g.effect == d.effect && g.target == d.target
    && g.namespace == d.namespace && g.payloadDigest == d.payloadDigest
    && g.scope.primary == d.scope.primary && g.scope.crossProjectPermitted == d.scope.crossProjectPermitted
    && multiset(g.scope.permitted) == multiset(d.scope.permitted)
    && g.status == PENDING && g.issuedAt.Some? && g.expiresAt.Some? && g.issuedAt.value <= now < g.expiresAt.value
  }

  /** A grant is accepted exactly when it is well formed, covers the demand and names an approvable effect. */
  lemma ValidationAcceptsExactly(g: Grant, d: Demand, now: int)
    ensures ValidateApproval(Some(g), d, now).Valid?
       <==> Observable(g) && Structured(g) && IsEffect(g.effect) && Covers(g, d, now)
    ensures ValidateApproval(Some(g), d, now).Valid?
        ==> ValidateApproval(Some(g), d, now).approval == Approval(g.approvalId, g.effect, g.target, g.nonce)
  {
    hide Structured, Observable, IsEffect, Sort;
    SortDecidesPermutation(g.scope.permitted, d.scope.permitted);
    SamePermittedLength(g.scope, d.scope);
    assert PENDING != CONSUMED && PENDING != REVOKED by { assert PENDING[0] != CONSUMED[0] && PENDING[0] != REVOKED[0]; }
  }

  lemma SamePermittedLength(a: Scope, b: Scope)
    ensures multiset(a.permitted) == multiset(b.permitted) ==> |a.permitted| == |b.permitted|
  {
    assert |multiset(a.permitted)| == |a.permitted| && |multiset(b.permitted)| == |b.permitted|;
  }

  // ---------------------------------------------------------------- why a grant is refused

  predicate WellFormedGrant(g: Grant) { Observable(g) && Structured(g) }

  predicate Dated(g: Grant) { g.issuedAt.Some? && g.expiresAt.Some? }

  /** Well formed, dated, for a known effect and with a validity that is not empty. */
  predicate Usable(g: Grant, d: Demand) {
    WellFormedGrant(g) && Dated(g) && IsEffect(g.effect) && IsEffect(d.effect) && g.issuedAt.value < g.expiresAt.value
  }

  /** Usable, pending and within its time window. */
  predicate Live(g: Grant, d: Demand, now: int) {
    Usable(g, d) && g.status == Ascii("pending") && g.issuedAt.value <= now < g.expiresAt.value
  }

  predicate SameScope(a: Scope, b: Scope) {
    a.primary == b.primary && a.crossProjectPermitted == b.crossProjectPermitted && multiset(a.permitted) == multiset(b.permitted)
  }

  /** The refusals that concern the grant alone, each with exactly the grants it is given for. */
  lemma GrantRefusedExactly(g: Grant, d: Demand, now: int)
    ensures var r := ValidateApproval(Some(g), d, now);
      (r == Refused(MALFORMED_GRANT) <==> !WellFormedGrant(g))
      && (r == Refused(UNKNOWN_EFFECT) <==> WellFormedGrant(g) && Dated(g) && !(IsEffect(g.effect) && IsEffect(d.effect)))
      && (r == Refused(INVALID_TIMESTAMP) <==>
            WellFormedGrant(g)
            && (!Dated(g)
                || (IsEffect(g.effect) && IsEffect(d.effect)
                    && (g.expiresAt.value <= g.issuedAt.value || (g.status == Ascii("pending") && now < g.issuedAt.value)))))
      && (r == Refused(ALREADY_CONSUMED) <==> Usable(g, d) && g.status == Ascii("consumed"))
      && (r == Refused(REVOKED_GRANT) <==> Usable(g, d) && g.status != Ascii("pending") && g.status != Ascii("consumed"))
      && (r == Refused(EXPIRED) <==> Usable(g, d) && g.status == Ascii("pending") && g.expiresAt.value <= now)
      && r != Refused(MISSING_GRANT) && ValidateApproval(None, d, now) == Refused(MISSING_GRANT)
  {
    hide Structured, Observable, IsEffect, ScopesEqual;
    StatusesDiffer();
    hide PENDING, CONSUMED, REVOKED, Ascii;
  }

  lemma StatusesDiffer()
    ensures PENDING == Ascii("pending") && CONSUMED == Ascii("consumed") && REVOKED == Ascii("revoked")
    ensures PENDING != CONSUMED && PENDING != REVOKED && CONSUMED != REVOKED
  {
    assert PENDING[0] != CONSUMED[0] && PENDING[0] != REVOKED[0] && CONSUMED[0] != REVOKED[0];
  }

  /** A live grant is refused for the first point, in this order, in which it differs from the demand. */
  lemma MismatchRefusedExactly(g: Grant, d: Demand, now: int)
    ensures var r := ValidateApproval(Some(g), d, now);
      var owner := Live(g, d, now) && g.ownerId == d.ownerId;
      var actor := owner && g.actorId == d.actorId;
      var effect := actor && g.effect == d.effect;
      var target := effect && g.target == d.target;
      var namespace := target && g.namespace == d.namespace;
      var scope := namespace && SameScope(g.scope, d.scope);
      (r == Refused(OWNER_MISMATCH) <==> Live(g, d, now) && !owner) && (r == Refused(ACTOR_MISMATCH) <==> owner && !actor)
      && (r == Refused(EFFECT_MISMATCH) <==> actor && !effect) && (r == Refused(TARGET_MISMATCH) <==> effect && !target)
      && (r == Refused(NAMESPACE_MISMATCH) <==> target && !namespace)
      && (r == Refused(PROJECT_SCOPE_MISMATCH) <==> namespace && !scope)
      && (r == Refused(PAYLOAD_DIGEST_MISMATCH) <==> scope && g.payloadDigest != d.payloadDigest)
  {
    hide Structured, Observable, IsEffect, Sort;
    SortDecidesPermutation(g.scope.permitted, d.scope.permitted);
    SamePermittedLength(g.scope, d.scope);
    StatusesDiffer();
    hide PENDING, CONSUMED, REVOKED, Ascii;
  }
}
