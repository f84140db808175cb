/** The process-local store of approval grants and its single-use consumption. */
module ApprovalStore {
  import opened JsText
  import opened ApprovalGate
  import opened Options

  const NUL: Unit := 0

  /** Key under which a consumption is remembered. */
  function ConsumeKey(approvalId: Str, nonce: Str): Str { approvalId + [NUL] + nonce }

  /** The nonce of one pair continues its id to the id of the other, over a NUL. */
  ghost predicate Shifted(a: Str, n: Str, b: Str, m: Str) { exists x :: b == a + [NUL] + x && n == x + [NUL] + m }

  lemma ShorterIdShifts(a: Str, n: Str, b: Str, m: Str)
    requires |a| < |b| && ConsumeKey(a, n) == ConsumeKey(b, m)
    ensures Shifted(a, n, b, m)
  {
    var s, x := ConsumeKey(a, n), b[|a| + 1..];
    assert s[..|a|] == a && s[|a|] == NUL && s[|a| + 1..] == n;
    assert s[..|b|] == b && s[|b|] == NUL && s[|b| + 1..] == m;
    assert b == b[..|a|] + [b[|a|]] + x;
    assert n == n[..|x|] + [n[|x|]] + n[|x| + 1..];
  }

  /** Exactly which pairs share a key. */
  lemma KeysEqualExactly(a: Str, n: Str, b: Str, m: Str)
    ensures ConsumeKey(a, n) == ConsumeKey(b, m) <==> (a == b && n == m) || Shifted(a, n, b, m) || Shifted(b, m, a, n)
  {
    if ConsumeKey(a, n) == ConsumeKey(b, m) {
      if |a| == |b| {
        EqualLengthsAgree(a + [NUL], b + [NUL], n, m);
        EqualLengthsAgree(a, b, [NUL], [NUL]);
      } else if |a| < |b| {
        ShorterIdShifts(a, n, b, m);
      } else {
        ShorterIdShifts(b, m, a, n);
      }
    }
    if Shifted(a, n, b, m) { ShiftedAgree(a, n, b, m); }
    if Shifted(b, m, a, n) { ShiftedAgree(b, m, a, n); }
  }

  lemma ShiftedAgree(a: Str, n: Str, b: Str, m: Str)
    requires Shifted(a, n, b, m)
    ensures ConsumeKey(a, n) == ConsumeKey(b, m)
  {
    var x :| b == a + [NUL] + x && n == x + [NUL] + m;
    assert a + [NUL] + (x + [NUL] + m) == (a + [NUL] + x) + [NUL] + m;
  }

  lemma ShiftedHasNul(a: Str, n: Str, b: Str, m: Str)
    requires Shifted(a, n, b, m)
    ensures NUL in b && NUL in n
  {
    assert b[|a|] == NUL;
  }

  /** A pair whose id carries no NUL shares its key with no other pair, unless its own nonce and the other id both carry one. */
  lemma ConsumeKeyInjective(a: Str, n: Str, b: Str, m: Str)
    requires NUL !in a && (NUL !in n || NUL !in b) && ConsumeKey(a, n) == ConsumeKey(b, m)
    ensures a == b && n == m
  {
    KeysEqualExactly(a, n, b, m);
    if Shifted(a, n, b, m) { ShiftedHasNul(a, n, b, m); }
    if Shifted(b, m, a, n) { ShiftedHasNul(b, m, a, n); }
  }

  /** Cutting a text at a NUL gives a pair with that text as its key. */
  lemma KeyCut(s: Str, k: nat)
    requires k < |s| && s[k] == NUL
    ensures ConsumeKey(s[..k], s[k + 1..]) == s
  {
    assert s == s[..k] + [s[k]] + s[k + 1..];
  }

  /** A pair shares its key with another pair exactly when there is a NUL in its id or in its nonce. */
  lemma KeySharedExactly(a: Str, n: Str)
    ensures (exists b, m :: (b, m) != (a, n) && ConsumeKey(a, n) == ConsumeKey(b, m)) <==> NUL in a || NUL in n
  {
    if NUL in a {
      var k :| 0 <= k < |a| && a[k] == NUL;
      KeyCut(ConsumeKey(a, n), k);
      assert |ConsumeKey(a, n)[..k]| == k;
    } else if NUL in n {
      var k :| 0 <= k < |n| && n[k] == NUL;
      KeyCut(ConsumeKey(a, n), |a| + 1 + k);
      assert |ConsumeKey(a, n)[..|a| + 1 + k]| == |a| + 1 + k;
    } else {
      forall b, m | ConsumeKey(a, n) == ConsumeKey(b, m) ensures (b, m) == (a, n) { ConsumeKeyInjective(a, n, b, m); }
    }
  }

  /** The ids and nonces a grant must have to be validated never contain NUL. */
  lemma IdsHaveNoNul(s: Str)
    requires IsId(s)
    ensures NUL !in s
  {
  }

  /** What the store remembers between calls. */
  datatype Contents = Contents(grants: map<Str, Grant>, consumed: set<Str>)

  function Seeded(c: Contents, g: Grant): Contents { c.(grants := c.grants[g.approvalId := g]) }

  function LookedUp(c: Contents, approvalId: Str): Option<Grant> {
    if approvalId in c.grants then Some(c.grants[approvalId]) else None
  }

  predicate Consumable(c: Contents, approvalId: Str, nonce: Str) {
    ConsumeKey(approvalId, nonce) !in c.consumed
    && approvalId in c.grants && c.grants[approvalId].nonce == nonce
    && c.grants[approvalId].status != CONSUMED && c.grants[approvalId].status != REVOKED
  }

  function AfterConsume(c: Contents, approvalId: Str, nonce: Str): Contents {
    if !Consumable(c, approvalId, nonce) then c else
    Contents(c.grants[approvalId := c.grants[approvalId].(status := CONSUMED)],
             c.consumed + {ConsumeKey(approvalId, nonce)})
  }

  /** Consuming a pair blocks every other pair with its key, although that pair was never consumed and its grant is untouched. */
  lemma SharedKeyBlocks(c: Contents, a: Str, n: Str, b: Str, m: Str)
    requires Consumable(c, a, n) && Consumable(c, b, m) && (a, n) != (b, m) && ConsumeKey(a, n) == ConsumeKey(b, m)
    ensures var d := AfterConsume(c, a, n);
      !Consumable(d, b, m) && LookedUp(d, b) == LookedUp(c, b)
  {
    if a == b { EqualLengthsAgree(a + [NUL], b + [NUL], n, m); }
  }

  /** Two seeded grants of which only one can ever be used: the other, still pending, is refused. */
  lemma ConsumeKeyCollides(g: Grant)
    requires g.status == PENDING
    ensures var (one, two) := (g.(approvalId := [1, NUL, 2], nonce := [3]), g.(approvalId := [1], nonce := [2, NUL, 3]));
      var c := Seeded(Seeded(Contents(map[], {}), one), two);
      var d := AfterConsume(c, one.approvalId, one.nonce);
      Consumable(c, one.approvalId, one.nonce) && Consumable(c, two.approvalId, two.nonce)
      && !Consumable(d, two.approvalId, two.nonce) && LookedUp(d, two.approvalId) == Some(two)
  {
    assert PENDING != CONSUMED && PENDING != REVOKED by { assert PENDING[0] != CONSUMED[0] && PENDING[0] != REVOKED[0]; }
    var one, two := g.(approvalId := [1, NUL, 2], nonce := [3]), g.(approvalId := [1], nonce := [2, NUL, 3]);
    assert one.approvalId[..1] == [1] && |one.approvalId| != |two.approvalId|;
    SharedKeyBlocks(Seeded(Seeded(Contents(map[], {}), one), two), one.approvalId, one.nonce, two.approvalId, two.nonce);
  }

  class InMemoryApprovalStore {
    var grants: map<Str, Grant>
    var consumed: set<Str>
    var inFlight: set<Str>

    /** Claims never outlive the call that makes them. */
    ghost predicate Valid() reads this { inFlight == {} }

    ghost function State(): Contents reads this { Contents(grants, consumed) }

    constructor ()
      ensures Valid() && State() == Contents(map[], {})
    {
      grants, consumed, inFlight := map[], {}, {};
    }

    method Seed(g: Grant)
      requires Valid()
      modifies this
      ensures Valid() && State() == Seeded(old(State()), g)
    {
      grants := grants[g.approvalId := g];
    }

    method Lookup(approvalId: Str) returns (grant: Option<Grant>)
      requires Valid()
      ensures grant == LookedUp(State(), approvalId)
    {
      grant := if approvalId in grants then Some(grants[approvalId]) else None;
    }

    method Consume(approvalId: Str, nonce: Str) returns (ok: bool)
      requires Valid()
      modifies this
      ensures Valid()
      ensures ok == Consumable(old(State()), approvalId, nonce)
      ensures State() == AfterConsume(old(State()), approvalId, nonce)
    {
      var key := ConsumeKey(approvalId, nonce);
      if key in consumed || key in inFlight { return false; }
      inFlight := inFlight + {key};
      ok := Commit(approvalId, nonce, key);
      inFlight := inFlight - {key};
    }

    /** The part of `consume` between claiming the key and releasing it. */
    method Commit(approvalId: Str, nonce: Str, key: Str) returns (ok: bool)
      requires key == ConsumeKey(approvalId, nonce) && key !in consumed
      modifies this
      ensures inFlight == old(inFlight)
      ensures ok == Consumable(old(State()), approvalId, nonce)
      ensures State() == AfterConsume(old(State()), approvalId, nonce)
    {
      if approvalId !in grants || grants[approvalId].nonce != nonce { return false; }
      var stored := grants[approvalId];
      if stored.status == CONSUMED || stored.status == REVOKED { return false; }
      if key in consumed { return false; }
      consumed := consumed + {key};
      grants := grants[approvalId := stored.(status := CONSUMED)];
      return true;
    }
  }

  // ---------------------------------------------------------------- runs of the store

  datatype Call = SeedCall(grant: Grant) | ConsumeCall(approvalId: Str, nonce: Str)

  function AfterCall(c: Contents, call: Call): Contents {
    match call
    case SeedCall(g) => Seeded(c, g)
    case ConsumeCall(id, nonce) => AfterConsume(c, id, nonce)
  }

  function AfterCalls(c: Contents, calls: seq<Call>): Contents
    decreases |calls|
  {
    if calls == [] then c else AfterCalls(AfterCall(c, calls[0]), calls[1..])
  }

  lemma {:induction false} ConsumedStaysConsumed(c: Contents, calls: seq<Call>)
    ensures c.consumed <= AfterCalls(c, calls).consumed
    decreases |calls|
  {
    if calls != [] { ConsumedStaysConsumed(AfterCall(c, calls[0]), calls[1..]); }
  }

  /** What a successful consumption leaves behind: the grant, marked consumed and otherwise as it was, so it validates no more. */
  lemma ConsumedGrantIsRefused(c: Contents, approvalId: Str, nonce: Str, d: Demand, now: int)
    requires Consumable(c, approvalId, nonce)
    ensures var after := LookedUp(AfterConsume(c, approvalId, nonce), approvalId);
      after == Some(LookedUp(c, approvalId).value.(status := Ascii("consumed"))) && ValidateApproval(after, d, now).Refused?
      && (Usable(after.value, d) ==> ValidateApproval(after, d, now) == Refused(ALREADY_CONSUMED))
    ensures forall id | id != approvalId :: LookedUp(AfterConsume(c, approvalId, nonce), id) == LookedUp(c, id)
  {
    var g := c.grants[approvalId].(status := CONSUMED);
    GrantRefusedExactly(g, d, now);
    ValidationAcceptsExactly(g, d, now);
    StatusesDiffer();
    hide ValidateApproval, Usable, Structured, Observable, IsEffect, ConsumeKey, PENDING, CONSUMED;
  }

  /** A successful consumption is the last one of its pair, whatever is seeded or re-seeded afterwards. */
  lemma ConsumedOnce(c: Contents, approvalId: Str, nonce: Str, later: seq<Call>)
    requires Consumable(c, approvalId, nonce)
    ensures !Consumable(AfterCalls(AfterConsume(c, approvalId, nonce), later), approvalId, nonce)
  {
    hide ConsumeKey;
    ConsumedStaysConsumed(AfterConsume(c, approvalId, nonce), later);
    assert ConsumeKey(approvalId, nonce) in AfterConsume(c, approvalId, nonce).consumed;
  }
}
