/** What a writer was told decides what it answers and what it writes: every exit of executeMemoryWrite, over every run. */
module MemoryWriteTranscript {
  import opened JsText
  import opened JsSplit
  import opened ApprovalGate
  import opened MemoryAccess
  import opened Sealing
  import opened MemoryWriteProtocol
  import opened MemoryWriteSafety
  import opened MemoryWriteConsumption
  import opened Options
  import Store = ApprovalStore

  /** An event that moved the writer, and the store as it was then. */
  datatype Turn = Turn(event: Event, store: Store.Contents)

  /** Everything a writer was told in a run, in order: the events at which its phase changed. */
  ghost function Heard(digest: Payload -> Str, s: World, events: seq<Event>, w: nat): seq<Turn>
    decreases |events|
  {
    if events == [] then []
    else
      var t := Step(digest, s, events[0]);
      TurnOf(s, t, events[0], w) + Heard(digest, t, events[1..], w)
  }

  ghost function TurnOf(s: World, t: World, e: Event, w: nat): seq<Turn> {
    if w < |s.writers| && w < |t.writers| && s.writers[w].phase != t.writers[w].phase then [Turn(e, s.store)] else []
  }

  // ---------------------------------------------------------------- how far a transcript lets the writer come

  /** The call is in order: authenticated, live, a record id, content of a sensible size without secrets. */
  ghost predicate Accepted(a: Access, c: Command, h: seq<Turn>) {
    |h| >= 1 && h[0].event.Begin? && a.authenticated && h[0].event.live && IsRecordId(c.recordId)
    && Trim(h[0].event.normalized) != [] && |h[0].event.normalized| <= 65536 && h[0].event.secretFree
  }

  ghost predicate TextScanned(a: Access, c: Command, h: seq<Turn>) {
    Accepted(a, c, h) && |h| >= 2 && h[1].event.TextAnswer? && h[1].event.text.Some?
  }

  /** Both scanners have answered. */
  ghost predicate Scanned(a: Access, c: Command, h: seq<Turn>) {
    TextScanned(a, c, h) && |h| >= 3 && h[2].event.MetadataAnswer? && h[2].event.meta.Some?
  }

  /** And neither found a secret. */
  ghost predicate Clear(a: Access, c: Command, h: seq<Turn>) {
    Scanned(a, c, h) && h[1].event.text.value.verdict != Secret && h[2].event.meta.value.verdict != Secret
  }

  ghost predicate Plain(a: Access, c: Command, h: seq<Turn>) { Clear(a, c, h) && h[2].event.meta.value.entries.Some? }

  ghost function AuthorizedAs(a: Access, c: Command, h: seq<Turn>): Authorization
    requires Plain(a, c, h)
  {
    Authorize(a, h[2].event.live, WriteOp, a.ownerId, c.targetNamespace)
  }

  ghost predicate Ready(a: Access, c: Command, h: seq<Turn>) { Plain(a, c, h) && AuthorizedAs(a, c, h) == Allowed }

  /** The policy port has answered with that decision. */
  ghost predicate Ruled(a: Access, c: Command, h: seq<Turn>, policy: Option<Policy>) {
    Ready(a, c, h) && |h| >= 4 && h[3].event.PolicyAnswer? && h[3].event.policy == policy
  }

  /** Approval is required, an id was given, and the lookup has come back. */
  ghost predicate LookedFor(a: Access, c: Command, h: seq<Turn>) {
    Ruled(a, c, h, Some(PolicyApprovalRequired)) && c.approvalId.Some? && |h| >= 5 && h[4].event.Resume?
  }

  /** What the store held under the command's approval id when it was looked up. */
  ghost function Found(a: Access, c: Command, h: seq<Turn>): Option<Grant>
    requires Ruled(a, c, h, Some(PolicyApprovalRequired)) && c.approvalId.Some?
  {
    if c.approvalId.value in h[3].store.grants then Some(h[3].store.grants[c.approvalId.value]) else None
  }

  ghost function Validated(digest: Payload -> Str, a: Access, c: Command, h: seq<Turn>): Validation
    requires LookedFor(a, c, h)
  {
    ValidateApproval(Found(a, c, h),
                     DemandOf(digest, a, c, h[1].event.text.value.redacted, h[2].event.meta.value.entries.value),
                     h[0].event.now)
  }

  ghost predicate Approved(digest: Payload -> Str, a: Access, c: Command, h: seq<Turn>) {
    LookedFor(a, c, h) && Found(a, c, h).Some? && Validated(digest, a, c, h).Valid?
  }

  ghost predicate ConsumesIt(digest: Payload -> Str, a: Access, c: Command, h: seq<Turn>)
    requires Approved(digest, a, c, h)
  {
    Store.Consumable(h[4].store, Validated(digest, a, c, h).approval.approvalId, Validated(digest, a, c, h).approval.nonce)
  }

  /** The store has answered the consumption. */
  ghost predicate Answered(digest: Payload -> Str, a: Access, c: Command, h: seq<Turn>) {
    Approved(digest, a, c, h) && |h| >= 6 && h[5].event.Resume?
  }

  /** The writer has called memory.write, after this many turns. */
  ghost predicate WroteAfter(digest: Payload -> Str, a: Access, c: Command, h: seq<Turn>, n: nat) {
    |h| >= n
    && ((n == 4 && Ruled(a, c, h, Some(PolicyAllow))) || (n == 6 && Answered(digest, a, c, h) && ConsumesIt(digest, a, c, h)))
  }

  ghost function WriteTurn(a: Access, c: Command, h: seq<Turn>): nat { if Ruled(a, c, h, Some(PolicyAllow)) then 4 else 6 }

  /** What happened to the write that was made: the answers of the memory and the audit port. */
  ghost predicate MemorySaid(h: seq<Turn>, n: nat, ok: bool) { |h| >= n + 1 && h[n].event.MemoryAnswer? && h[n].event.ok == ok }
  ghost predicate AuditSaid(h: seq<Turn>, n: nat, ok: bool) { |h| >= n + 2 && h[n + 1].event.AuditAnswer? && h[n + 1].event.ok == ok }

  // ---------------------------------------------------------------- the answer belonging to a transcript

  /** The transcript, of a writer that has answered so, is exactly this. */
  ghost predicate Explains(digest: Payload -> Str, a: Access, c: Command, h: seq<Turn>, outcome: Outcome) {
    match outcome
    case Failed(INVALID_OPERATION_CONTEXT) => |h| == 1 && h[0].event.Begin? && !(a.authenticated && h[0].event.live)
    case Failed(INVALID_IDENTITY) =>
      |h| == 1 && h[0].event.Begin? && a.authenticated && h[0].event.live && !IsRecordId(c.recordId)
    case Failed(INVALID_CONTENT) =>
      |h| == 1 && h[0].event.Begin? && a.authenticated && h[0].event.live && IsRecordId(c.recordId)
      && (Trim(h[0].event.normalized) == [] || |h[0].event.normalized| > 65536)
    case Failed(SECRET_CLASS_DENIED) =>
      |h| == 1 && h[0].event.Begin? && a.authenticated && h[0].event.live && IsRecordId(c.recordId)
      && Trim(h[0].event.normalized) != [] && |h[0].event.normalized| <= 65536 && !h[0].event.secretFree
    case Failed(SCANNER_UNAVAILABLE) =>
      (|h| == 2 && Accepted(a, c, h) && h[1].event.TextAnswer? && h[1].event.text.None?)
      || (|h| == 3 && TextScanned(a, c, h) && h[2].event.MetadataAnswer? && h[2].event.meta.None?)
    case Failed(SCAN_DENIED) => |h| == 3 && Scanned(a, c, h) && !Clear(a, c, h)
    case Threw => |h| == 3 && Clear(a, c, h) && !Plain(a, c, h)
    case Failed(AUTHORIZATION_DENIED(code)) => |h| == 3 && Plain(a, c, h) && AuthorizedAs(a, c, h) == Denied(code)
    case Failed(POLICY_UNAVAILABLE) => |h| == 4 && Ruled(a, c, h, None)
    case Failed(POLICY_DENIED) => |h| == 4 && Ruled(a, c, h, Some(PolicyDeny))
    case Failed(APPROVAL_REQUIRED) => |h| == 4 && Ruled(a, c, h, Some(PolicyApprovalRequired)) && c.approvalId.None?
    case Failed(APPROVAL_UNAVAILABLE) => |h| == 5 && LookedFor(a, c, h) && Found(a, c, h).None?
    case Failed(APPROVAL_INVALID(code)) =>
      |h| == 5 && LookedFor(a, c, h) && Found(a, c, h).Some? && Validated(digest, a, c, h) == Refused(code)
    case Failed(CONSUMPTION_FAILED) => |h| == 6 && Answered(digest, a, c, h) && !ConsumesIt(digest, a, c, h)
    case Failed(MEMORY_UNAVAILABLE) =>
      var n := WriteTurn(a, c, h); |h| == n + 1 && WroteAfter(digest, a, c, h, n) && MemorySaid(h, n, false)
    case Failed(AUDIT_FAILED) =>
      var n := WriteTurn(a, c, h);
      |h| == n + 2 && WroteAfter(digest, a, c, h, n) && MemorySaid(h, n, true) && AuditSaid(h, n, false)
    case Failed(DIGEST_FAILED) => false
    case Written(approvalId) =>
      var n := WriteTurn(a, c, h);
      |h| == n + 2 && WroteAfter(digest, a, c, h, n) && MemorySaid(h, n, true) && AuditSaid(h, n, true)
      && approvalId == if n == 6 then c.approvalId else None
  }

  /** The transcript of a writer that is still under way. */
  ghost predicate UnderWay(digest: Payload -> Str, a: Access, c: Command, h: seq<Turn>, p: Phase) {
    match p
    case Idle => h == []
    case AwaitText(now) => |h| == 1 && Accepted(a, c, h) && now == h[0].event.now
    case AwaitMetadata(now, scan) => |h| == 2 && TextScanned(a, c, h) && now == h[0].event.now && scan == h[1].event.text.value
    case AwaitPolicy(prep) => |h| == 3 && Ready(a, c, h) && PrepTold(c, h, prep)
    case AwaitLookup(prep, found) =>
      |h| == 4 && Ruled(a, c, h, Some(PolicyApprovalRequired)) && c.approvalId.Some? && found == Found(a, c, h) && PrepTold(c, h, prep)
      && (found.Some? ==> Some(found.value.approvalId) == c.approvalId)
    case AwaitConsume(prep, g, consumed) =>
      |h| == 5 && Approved(digest, a, c, h) && Found(a, c, h) == Some(g) && consumed == ConsumesIt(digest, a, c, h)
      && PrepTold(c, h, prep) && Some(g.approvalId) == c.approvalId
    case AwaitMemory(approvalId) =>
      var n := WriteTurn(a, c, h); |h| == n && WroteAfter(digest, a, c, h, n) && approvalId == if n == 6 then c.approvalId else None
    case AwaitAudit(approvalId) =>
      var n := WriteTurn(a, c, h);
      |h| == n + 1 && WroteAfter(digest, a, c, h, n) && MemorySaid(h, n, true) && approvalId == if n == 6 then c.approvalId else None
    case Finished(_) => false
  }

  /** What the writer has prepared is what the scanners and the clock gave it. */
  ghost predicate PrepTold(c: Command, h: seq<Turn>, prep: Prepared) {
    |h| >= 3 && h[0].event.Begin? && prep.now == h[0].event.now
    && h[1].event.TextAnswer? && h[1].event.text.Some? && prep.text == h[1].event.text.value.redacted
    && h[2].event.MetadataAnswer? && h[2].event.meta.Some? && Some(prep.entries) == h[2].event.meta.value.entries
  }

  ghost predicate Told(digest: Payload -> Str, wr: Writer, h: seq<Turn>) {
    if wr.phase.Finished? then Explains(digest, wr.access, wr.command, h, wr.phase.outcome)
    else UnderWay(digest, wr.access, wr.command, h, wr.phase)
  }

  // ---------------------------------------------------------------- one turn

  lemma BeginTold(digest: Payload -> Str, s: World, e: Event, h: seq<Turn>)
    requires e.Begin? && e.w < |s.writers| && s.writers[e.w].phase.Idle? && Told(digest, s.writers[e.w], h)
    ensures Told(digest, AfterBegin(s, e).writers[e.w], h + [Turn(e, s.store)])
  {
    hide IsRecordId, Trim;
    assert h + [Turn(e, s.store)] == [Turn(e, s.store)];
  }

  lemma TextTold(digest: Payload -> Str, s: World, e: Event, h: seq<Turn>)
    requires e.TextAnswer? && e.w < |s.writers| && s.writers[e.w].phase.AwaitText? && Told(digest, s.writers[e.w], h)
    ensures Told(digest, AfterText(s, e).writers[e.w], h + [Turn(e, s.store)])
  {
    hide IsRecordId, Trim;
  }

  lemma MetadataTold(digest: Payload -> Str, s: World, e: Event, h: seq<Turn>)
    requires e.MetadataAnswer? && e.w < |s.writers| && s.writers[e.w].phase.AwaitMetadata? && Told(digest, s.writers[e.w], h)
    ensures Told(digest, AfterMetadata(s, e).writers[e.w], h + [Turn(e, s.store)])
  {
    hide IsRecordId, Trim, Authorize, ClassificationFor, TrustFor, ProvenanceOf, WithText, WithMetadata, SafeDecision;
  }

  lemma WriteTold(digest: Payload -> Str, s: World, w: nat, prep: Prepared, grant: Option<Grant>, h: seq<Turn>)
    requires w < |s.writers| && PreparedOk(s.registry, s.writers[w].access, s.writers[w].command, prep)
    requires var n := if grant.Some? then 6 else 4;
      |h| == n && WroteAfter(digest, s.writers[w].access, s.writers[w].command, h, n)
    requires grant.Some? ==> s.writers[w].command.approvalId == Some(grant.value.approvalId)
    ensures Told(digest, SealAndWrite(s, w, prep, grant.Some?, grant).writers[w], h)
  {
    SealAndWriteIs(s, w, prep, grant.Some?, grant);
    hide SealAndWrite, PreparedOk, Ready, Found, Validated, ConsumesIt, Approved;
  }

  lemma PolicyTold(digest: Payload -> Str, s: World, e: Event, h: seq<Turn>)
    requires Inv(digest, s) && Keyed(s.store)
    requires e.PolicyAnswer? && e.w < |s.writers| && s.writers[e.w].phase.AwaitPolicy? && Told(digest, s.writers[e.w], h)
    ensures Told(digest, AfterPolicy(s, e).writers[e.w], h + [Turn(e, s.store)])
  {
    PhaseAt(digest, s, e.w);
    hide Inv, PreparedOk, SealAndWrite, Ready;
    var prep, more := s.writers[e.w].phase.prep, h + [Turn(e, s.store)];
    assert Ready(s.writers[e.w].access, s.writers[e.w].command, more) by { ReadyStays(s.writers[e.w].access, s.writers[e.w].command, h, Turn(e, s.store)); }
    if e.policy == Some(PolicyAllow) { WriteTold(digest, s, e.w, prep, None, more); }
  }

  lemma ReadyStays(a: Access, c: Command, h: seq<Turn>, turn: Turn)
    requires Ready(a, c, h)
    ensures Ready(a, c, h + [turn])
  {
    hide IsRecordId, Trim, Authorize;
  }

  lemma LookupTold(digest: Payload -> Str, s: World, w: nat, h: seq<Turn>)
    requires w < |s.writers| && s.writers[w].phase.AwaitLookup? && Told(digest, s.writers[w], h)
    ensures Told(digest, AfterLookup(digest, s, w).writers[w], h + [Turn(Resume(w), s.store)])
  {
    var wr, more := s.writers[w], h + [Turn(Resume(w), s.store)];
    LookedForNow(digest, s, w, h);
    hide LookedFor, Found, DemandOf, Store.Consumable, Store.AfterConsume, ValidateApproval, Told;
    LookupPhase(digest, s, w);
    LookupExplained(digest, wr, more, s.store, AfterLookup(digest, s, w).writers[w].phase);
  }

  /** The lookup has come back, and with it everything validation needs. */
  lemma LookedForNow(digest: Payload -> Str, s: World, w: nat, h: seq<Turn>)
    requires w < |s.writers| && s.writers[w].phase.AwaitLookup? && Told(digest, s.writers[w], h)
    ensures var wr, more := s.writers[w], h + [Turn(Resume(w), s.store)];
      |more| == 5 && more[4].store == s.store && LookedFor(wr.access, wr.command, more)
      && Found(wr.access, wr.command, more) == wr.phase.found
      && (wr.phase.found.Some? ==> Some(wr.phase.found.value.approvalId) == wr.command.approvalId)
      && PrepTold(wr.command, more, wr.phase.prep)
  {
    ReadyStays(s.writers[w].access, s.writers[w].command, h, Turn(Resume(w), s.store));
    hide Ready;
  }

  /** Where the answer of the lookup leads. */
  ghost predicate LookupLeads(digest: Payload -> Str, wr: Writer, store: Store.Contents, p: Phase)
    requires wr.phase.AwaitLookup?
  {
    var prep, found := wr.phase.prep, wr.phase.found;
    var v := ValidateApproval(found, DemandOf(digest, wr.access, wr.command, prep.text, prep.entries), prep.now);
    if found.None? then p == Finished(Failed(APPROVAL_UNAVAILABLE))
    else if v.Refused? then p == Finished(Failed(APPROVAL_INVALID(v.code)))
    else p == AwaitConsume(prep, found.value, Store.Consumable(store, v.approval.approvalId, v.approval.nonce))
  }

  lemma LookupPhase(digest: Payload -> Str, s: World, w: nat)
    requires w < |s.writers| && s.writers[w].phase.AwaitLookup?
    ensures var t := AfterLookup(digest, s, w);
      w < |t.writers| && t.writers[w] == s.writers[w].(phase := t.writers[w].phase)
      && LookupLeads(digest, s.writers[w], s.store, t.writers[w].phase)
  {
    hide DemandOf, Store.Consumable, Store.AfterConsume, ValidateApproval;
  }

  lemma LookupExplained(digest: Payload -> Str, wr: Writer, h: seq<Turn>, store: Store.Contents, p: Phase)
    requires wr.phase.AwaitLookup? && LookupLeads(digest, wr, store, p)
    requires |h| == 5 && h[4].store == store && LookedFor(wr.access, wr.command, h)
    requires Found(wr.access, wr.command, h) == wr.phase.found && PrepTold(wr.command, h, wr.phase.prep)
    requires wr.phase.found.Some? ==> Some(wr.phase.found.value.approvalId) == wr.command.approvalId
    ensures Told(digest, wr.(phase := p), h)
  {
    hide Ready, Found, DemandOf, Store.Consumable, ValidateApproval;
  }

  lemma ConsumeTold(digest: Payload -> Str, s: World, w: nat, h: seq<Turn>)
    requires Inv(digest, s)
    requires w < |s.writers| && s.writers[w].phase.AwaitConsume? && Told(digest, s.writers[w], h)
    ensures Told(digest, AfterConsumption(s, w).writers[w], h + [Turn(Resume(w), s.store)])
  {
    PhaseAt(digest, s, w);
    var wr, more := s.writers[w], h + [Turn(Resume(w), s.store)];
    AwaitsConsume(digest, wr, h);
    ConsumeAnswered(digest, wr.access, wr.command, h, Turn(Resume(w), s.store));
    hide Inv, PreparedOk, GrantOk, SealAndWrite, Answered, Approved, ConsumesIt, Told;
    if wr.phase.consumed {
      WriteTold(digest, s, w, wr.phase.prep, Some(wr.phase.grant), more);
    } else {
      FailureTold(digest, wr, more);
    }
  }

  lemma AwaitsConsume(digest: Payload -> Str, wr: Writer, h: seq<Turn>)
    requires wr.phase.AwaitConsume? && Told(digest, wr, h)
    ensures |h| == 5 && Approved(digest, wr.access, wr.command, h) && Some(wr.phase.grant.approvalId) == wr.command.approvalId
    ensures wr.phase.consumed == ConsumesIt(digest, wr.access, wr.command, h)
  {
    hide Approved, ConsumesIt, PrepTold;
  }

  lemma ConsumeAnswered(digest: Payload -> Str, a: Access, c: Command, h: seq<Turn>, turn: Turn)
    requires |h| == 5 && Approved(digest, a, c, h) && turn.event.Resume?
    ensures Answered(digest, a, c, h + [turn]) && ConsumesIt(digest, a, c, h + [turn]) == ConsumesIt(digest, a, c, h)
    ensures ConsumesIt(digest, a, c, h) ==> WroteAfter(digest, a, c, h + [turn], 6)
  {
    ApprovedStays(digest, a, c, h, turn);
    hide Approved, ConsumesIt;
  }

  lemma FailureTold(digest: Payload -> Str, wr: Writer, h: seq<Turn>)
    requires |h| == 6 && Answered(digest, wr.access, wr.command, h) && !ConsumesIt(digest, wr.access, wr.command, h)
    ensures Told(digest, wr.(phase := Finished(Failed(CONSUMPTION_FAILED))), h)
  {
    hide Answered, ConsumesIt;
  }

  lemma ApprovedStays(digest: Payload -> Str, a: Access, c: Command, h: seq<Turn>, turn: Turn)
    requires Approved(digest, a, c, h)
    ensures Approved(digest, a, c, h + [turn]) && Found(a, c, h + [turn]) == Found(a, c, h)
    ensures ConsumesIt(digest, a, c, h + [turn]) == ConsumesIt(digest, a, c, h)
    ensures Validated(digest, a, c, h + [turn]) == Validated(digest, a, c, h)
  {
    ReadyStays(a, c, h, turn);
    hide DemandOf, ValidateApproval, Store.Consumable, Ready;
  }

  lemma WroteStays(digest: Payload -> Str, a: Access, c: Command, h: seq<Turn>, n: nat, turn: Turn)
    requires WroteAfter(digest, a, c, h, n) && n == WriteTurn(a, c, h)
    ensures WroteAfter(digest, a, c, h + [turn], n) && WriteTurn(a, c, h + [turn]) == n
  {
    if n == 6 {
      ApprovedStays(digest, a, c, h, turn);
      hide Approved, ConsumesIt, Ready;
      assert (h + [turn])[3] == h[3];
    } else {
      ReadyStays(a, c, h, turn);
      hide Approved, ConsumesIt, Ready;
    }
  }

  lemma PortsTold(digest: Payload -> Str, s: World, e: Event, h: seq<Turn>)
    requires e.MemoryAnswer? || e.AuditAnswer?
    requires e.w < |s.writers| && (if e.MemoryAnswer? then s.writers[e.w].phase.AwaitMemory? else s.writers[e.w].phase.AwaitAudit?)
    requires Told(digest, s.writers[e.w], h)
    ensures Told(digest, Step(digest, s, e).writers[e.w], h + [Turn(e, s.store)])
  {
    var wr := s.writers[e.w];
    AwaitsPort(digest, wr, h);
    WroteStays(digest, wr.access, wr.command, h, WriteTurn(wr.access, wr.command, h), Turn(e, s.store));
    hide WroteAfter, WriteTurn, Told;
    if e.MemoryAnswer? {
      MemoryTold(digest, wr, h, Turn(e, s.store));
    } else {
      AuditTold(digest, wr, h, Turn(e, s.store));
    }
  }

  lemma AwaitsPort(digest: Payload -> Str, wr: Writer, h: seq<Turn>)
    requires (wr.phase.AwaitMemory? || wr.phase.AwaitAudit?) && Told(digest, wr, h)
    ensures WroteAfter(digest, wr.access, wr.command, h, WriteTurn(wr.access, wr.command, h))
  {
    hide WroteAfter, WriteTurn;
  }

  lemma MemoryTold(digest: Payload -> Str, wr: Writer, h: seq<Turn>, turn: Turn)
    requires turn.event.MemoryAnswer? && wr.phase.AwaitMemory? && Told(digest, wr, h)
    requires var n := WriteTurn(wr.access, wr.command, h);
      WroteAfter(digest, wr.access, wr.command, h + [turn], n) && WriteTurn(wr.access, wr.command, h + [turn]) == n
    ensures Told(digest,
      wr.(phase := if turn.event.ok then AwaitAudit(wr.phase.approvalId) else Finished(Failed(MEMORY_UNAVAILABLE))), h + [turn])
  {
    hide WroteAfter, WriteTurn;
  }

  lemma AuditTold(digest: Payload -> Str, wr: Writer, h: seq<Turn>, turn: Turn)
    requires turn.event.AuditAnswer? && wr.phase.AwaitAudit? && Told(digest, wr, h)
    requires var n := WriteTurn(wr.access, wr.command, h);
      WroteAfter(digest, wr.access, wr.command, h + [turn], n) && WriteTurn(wr.access, wr.command, h + [turn]) == n
    ensures Told(digest,
      wr.(phase := Finished(if turn.event.ok then Written(wr.phase.approvalId) else Failed(AUDIT_FAILED))), h + [turn])
  {
    hide WroteAfter, WriteTurn;
  }

  lemma TurnTold(digest: Payload -> Str, s: World, e: Event, w: nat, h: seq<Turn>)
    requires Inv(digest, s) && Keyed(s.store) && w < |s.writers| && Told(digest, s.writers[w], h)
    ensures var t := Step(digest, s, e);
      w < |t.writers| && Told(digest, t.writers[w], h + TurnOf(s, t, e, w))
  {
    var t := Step(digest, s, e);
    StepPhases(digest, s, e, w);
    StepKeepsIdentities(digest, s, e);
    if t.writers[w].phase == s.writers[w].phase {
      assert h + [] == h;
      hide Step, Told, Inv;
    } else {
      hide AfterBegin, AfterText, AfterMetadata, AfterPolicy, AfterLookup, AfterConsumption, Told, Inv, Keyed;
      match e
      case Begin(_, _, _, _, _) => BeginTold(digest, s, e, h);
      case TextAnswer(_, _) => TextTold(digest, s, e, h);
      case MetadataAnswer(_, _, _) => MetadataTold(digest, s, e, h);
      case PolicyAnswer(_, _) => PolicyTold(digest, s, e, h);
      case Resume(_) => if s.writers[w].phase.AwaitLookup? { LookupTold(digest, s, w, h); } else { ConsumeTold(digest, s, w, h); }
      case _ => if e.MemoryAnswer? || e.AuditAnswer? { PortsTold(digest, s, e, h); }
    }
  }

  lemma {:induction false} RunTold(digest: Payload -> Str, s: World, events: seq<Event>, w: nat, h: seq<Turn>)
    requires Inv(digest, s) && Keyed(s.store) && w < |s.writers| && Told(digest, s.writers[w], h)
    ensures var t := Run(digest, s, events);
      w < |t.writers| && Told(digest, t.writers[w], h + Heard(digest, s, events, w))
    decreases |events|
  {
    if events == [] {
      assert h + [] == h;
    } else {
      var t := Step(digest, s, events[0]);
      TurnTold(digest, s, events[0], w, h);
      StepKeepsInv(digest, s, events[0]);
      StepGrants(digest, s, events[0]);
      hide Step, Told, Inv, Keyed, TurnOf;
      RunTold(digest, t, events[1..], w, h + TurnOf(s, t, events[0], w));
      Associative(h, TurnOf(s, t, events[0], w), Heard(digest, t, events[1..], w));
    }
  }

  // ---------------------------------------------------------------- over every run

  /** Every writer, in every interleaving: its transcript explains its answer, or how far it has come. */
  lemma TranscriptTold(digest: Payload -> Str, s0: World, events: seq<Event>, w: nat)
    requires Initial(s0) && w < |s0.writers|
    ensures var s := Run(digest, s0, events);
      w < |s.writers| && s.writers[w].access == s0.writers[w].access && s.writers[w].command == s0.writers[w].command
      && Told(digest, s.writers[w], Heard(digest, s0, events, w))
  {
    InitialInv(digest, s0);
    assert Keyed(s0.store) && Told(digest, s0.writers[w], []);
    hide Run, Told, Inv, Initial;
    RunTold(digest, s0, events, w, []);
    RunKeepsIdentities(digest, s0, events);
    assert [] + Heard(digest, s0, events, w) == Heard(digest, s0, events, w);
  }

  /** The decision of the policy port, if it has come so far. */
  ghost function PolicyOf(h: seq<Turn>): Option<Policy> {
    if |h| >= 4 && h[3].event.PolicyAnswer? then h[3].event.policy else None
  }

  lemma AllowedTurn(a: Access, c: Command, h: seq<Turn>)
    ensures Ruled(a, c, h, Some(PolicyAllow)) ==> PolicyOf(h) == Some(PolicyAllow) && WriteTurn(a, c, h) == 4
    ensures PolicyOf(h) != Some(PolicyAllow) ==> WriteTurn(a, c, h) == 6
  {
    hide Ready;
  }

  /** One transcript explains one answer only. */
  lemma ExplainsOnce(digest: Payload -> Str, a: Access, c: Command, h: seq<Turn>, o: Outcome, p: Outcome)
    requires Explains(digest, a, c, h, o) && Explains(digest, a, c, h, p)
    ensures o == p
  {
    AllowedTurn(a, c, h);
    hide IsRecordId, Trim, Authorize, DemandOf, ValidateApproval, Store.Consumable, WriteTurn;
  }

  /** And no answer while the writer is under way. */
  lemma UnderWayExplainsNone(digest: Payload -> Str, a: Access, c: Command, h: seq<Turn>, o: Outcome, p: Phase)
    requires UnderWay(digest, a, c, h, p)
    ensures !Explains(digest, a, c, h, o)
  {
    AllowedTurn(a, c, h);
    hide IsRecordId, Trim, Authorize, DemandOf, ValidateApproval, Store.Consumable, WriteTurn, PrepTold;
  }

  /** A writer has given an answer if and only if its transcript explains that answer. */
  lemma AnsweredExactly(digest: Payload -> Str, s0: World, events: seq<Event>, w: nat, outcome: Outcome)
    requires Initial(s0) && w < |s0.writers|
    ensures var s := Run(digest, s0, events);
      w < |s.writers|
      && (s.writers[w].phase == Finished(outcome)
          <==> Explains(digest, s0.writers[w].access, s0.writers[w].command, Heard(digest, s0, events, w), outcome))
  {
    TranscriptTold(digest, s0, events, w);
    hide Initial, Run, Explains, UnderWay;
    var a, c, h := s0.writers[w].access, s0.writers[w].command, Heard(digest, s0, events, w);
    var p := Run(digest, s0, events).writers[w].phase;
    if Explains(digest, a, c, h, outcome) {
      if p.Finished? { ExplainsOnce(digest, a, c, h, outcome, p.outcome); } else { UnderWayExplainsNone(digest, a, c, h, outcome, p); }
    }
  }

  // ---------------------------------------------------------------- what is written

  ghost function SealOf(v: ScanVerdict): Decision { if v == Redacted then Redact else Allow }

  /** The grant a write is backed by, told from the transcript: none if the policy allowed it outright. */
  ghost function Backing(a: Access, c: Command, h: seq<Turn>): Option<Grant> {
    if Ruled(a, c, h, Some(PolicyApprovalRequired)) && c.approvalId.Some? then Found(a, c, h) else None
  }

  /** Under these handles the registry holds what the scanners returned. */
  ghost predicate SealsTold(r: Registry, h: seq<Turn>, content: nat, metadata: nat) {
    |h| >= 3 && h[1].event.TextAnswer? && h[1].event.text.Some? && h[2].event.MetadataAnswer? && h[2].event.meta.Some?
    && h[2].event.meta.value.entries.Some?
    && content < |r.texts| && metadata < |r.metadata|
    && r.texts[content] == Sealing.Text(h[1].event.text.value.redacted, SealOf(h[1].event.text.value.verdict))
    && r.metadata[metadata] == Metadata(h[2].event.meta.value.entries.value, SealOf(h[2].event.meta.value.verdict))
  }

  ghost predicate EntryTold(digest: Payload -> Str, r: Registry, a: Access, c: Command, h: seq<Turn>, e: Sealed) {
    WroteAfter(digest, a, c, h, WriteTurn(a, c, h)) && e.grant == Backing(a, c, h) && e.prep.now == h[0].event.now
    && SealsTold(r, h, e.prep.content, e.prep.metadata)
  }

  /** The handles a writer carries, until it has written. */
  ghost predicate HandlesTold(r: Registry, h: seq<Turn>, p: Phase) {
    p.AwaitPolicy? || p.AwaitLookup? || p.AwaitConsume? ==> SealsTold(r, h, p.prep.content, p.prep.metadata)
  }

  ghost predicate LogTold(digest: Payload -> Str, s: World, w: nat, h: seq<Turn>) {
    w < |s.writers| && HandlesTold(s.registry, h, s.writers[w].phase)
    && forall i | 0 <= i < |s.log| && s.log[i].writer == w ::
         EntryTold(digest, s.registry, s.writers[w].access, s.writers[w].command, h, s.log[i])
  }

  lemma SealsStay(r: Registry, q: Registry, h: seq<Turn>, more: seq<Turn>, content: nat, metadata: nat)
    requires SealsTold(r, h, content, metadata) && Extends(r, q)
    ensures SealsTold(q, h + more, content, metadata)
  {
    assert |h| >= 3 && (h + more)[1] == h[1] && (h + more)[2] == h[2];
  }

  lemma BackingStays(digest: Payload -> Str, a: Access, c: Command, h: seq<Turn>, turn: Turn)
    requires WroteAfter(digest, a, c, h, WriteTurn(a, c, h))
    ensures WroteAfter(digest, a, c, h + [turn], WriteTurn(a, c, h + [turn])) && Backing(a, c, h + [turn]) == Backing(a, c, h)
    ensures |h| >= 1 && (h + [turn])[0] == h[0]
  {
    WroteStays(digest, a, c, h, WriteTurn(a, c, h), turn);
    if Ready(a, c, h) { ReadyStays(a, c, h, turn); }
    AllowedTurn(a, c, h);
    hide IsRecordId, Trim, Authorize, ValidateApproval, DemandOf, Store.Consumable;
  }

  lemma EntryStays(digest: Payload -> Str, r: Registry, q: Registry, a: Access, c: Command, h: seq<Turn>, more: seq<Turn>, e: Sealed)
    requires EntryTold(digest, r, a, c, h, e) && Extends(r, q) && |more| <= 1
    ensures EntryTold(digest, q, a, c, h + more, e)
  {
    SealsStay(r, q, h, more, e.prep.content, e.prep.metadata);
    if more == [] {
      assert h + more == h;
    } else {
      assert more == [more[0]];
      BackingStays(digest, a, c, h, more[0]);
    }
    hide WroteAfter, WriteTurn, Backing, SealsTold, Extends;
  }

  lemma SealExtends(s: World, w: nat, prep: Prepared, required: bool, grant: Option<Grant>)
    requires w < |s.writers|
    ensures Extends(s.registry, SealAndWrite(s, w, prep, required, grant).registry)
  {
    var approvalId := if grant.Some? then Some(grant.value.approvalId) else None;
    var write := BindingOf(s.writers[w].access, s.writers[w].command, prep, approvalId);
    ExtendsItself(s.registry);
    CallsExtend(s.registry, [IssueCall(write), SealCall(write, |s.registry.clearances|)]);
    var calls := [IssueCall(write), SealCall(write, |s.registry.clearances|)];
    CallExtends(s.registry, calls[0]);
    CallExtends(AfterCall(s.registry, calls[0]), calls[1]);
    ExtendsTwice(s.registry, WithClearance(s.registry, write),
                 AfterSeal(WithClearance(s.registry, write), write, |s.registry.clearances|));
    hide BindingOf, Sanitized, Sealable, WithClearance, AfterSeal, Extends;
  }

  lemma ExtendsTwice(r: Registry, p: Registry, q: Registry)
    requires Extends(r, p) && Extends(p, q)
    ensures Extends(r, q)
  {
  }

  lemma StepExtends(digest: Payload -> Str, s: World, e: Event)
    ensures Extends(s.registry, Step(digest, s, e).registry)
  {
    ExtendsItself(s.registry);
    if e.PolicyAnswer? && e.w < |s.writers| && s.writers[e.w].phase.AwaitPolicy? {
      SealExtends(s, e.w, s.writers[e.w].phase.prep, false, None);
      hide SealAndWrite, Extends, Store.LookedUp;
    } else if e.Resume? && e.w < |s.writers| && s.writers[e.w].phase.AwaitConsume? {
      SealExtends(s, e.w, s.writers[e.w].phase.prep, true, Some(s.writers[e.w].phase.grant));
      hide SealAndWrite, Extends;
    } else if e.MetadataAnswer? {
      hide Authorize, ClassificationFor, TrustFor, ProvenanceOf, SafeDecision, IsRecordId, Trim;
    } else {
      hide Extends, Authorize, IsRecordId, Trim, ValidateApproval, DemandOf, Store.AfterConsume, Store.Consumable, SealAndWrite;
    }
  }

  lemma MetadataSeals(digest: Payload -> Str, s: World, e: Event, h: seq<Turn>)
    requires e.MetadataAnswer? && e.w < |s.writers| && s.writers[e.w].phase.AwaitMetadata? && Told(digest, s.writers[e.w], h)
    ensures var t := AfterMetadata(s, e); HandlesTold(t.registry, h + [Turn(e, s.store)], t.writers[e.w].phase) && t.log == s.log
  {
    hide IsRecordId, Trim, Authorize, ClassificationFor, TrustFor, ProvenanceOf;
  }

  /** The entry a writer adds is backed as its transcript says. */
  lemma NewEntryTold(digest: Payload -> Str, s: World, w: nat, prep: Prepared, grant: Option<Grant>, h: seq<Turn>)
    requires w < |s.writers| && PreparedOk(s.registry, s.writers[w].access, s.writers[w].command, prep)
    requires WroteAfter(digest, s.writers[w].access, s.writers[w].command, h, WriteTurn(s.writers[w].access, s.writers[w].command, h))
    requires grant == Backing(s.writers[w].access, s.writers[w].command, h) && |h| >= 1 && h[0].event.Begin? && prep.now == h[0].event.now
    requires SealsTold(s.registry, h, prep.content, prep.metadata)
    ensures var t := SealAndWrite(s, w, prep, grant.Some?, grant);
      t.writers[w].phase.AwaitMemory? && |t.log| == |s.log| + 1 && s.log <= t.log && t.log[|s.log|].writer == w
      && EntryTold(digest, t.registry, s.writers[w].access, s.writers[w].command, h, t.log[|s.log|])
  {
    SealAndWriteIs(s, w, prep, grant.Some?, grant);
    SealExtends(s, w, prep, grant.Some?, grant);
    var t := SealAndWrite(s, w, prep, grant.Some?, grant);
    SealsStay(s.registry, t.registry, h, [], prep.content, prep.metadata);
    assert h + [] == h;
    hide SealAndWrite, PreparedOk, WroteAfter, WriteTurn, Backing, SealsTold, Extends, BindingOf;
  }

  /** Only the writer whose turn it is adds to the log, and only by writing. */
  lemma LogGrows(digest: Payload -> Str, s: World, e: Event)
    ensures var t := Step(digest, s, e);
      t.log == s.log
      || (!e.Seed? && !e.OtherConsume? && |t.log| == |s.log| + 1 && s.log <= t.log && t.log[|s.log|].writer == e.w
          && e.w < |s.writers| && (s.writers[e.w].phase.AwaitPolicy? || s.writers[e.w].phase.AwaitConsume?))
  {
    if e.PolicyAnswer? && e.w < |s.writers| && s.writers[e.w].phase.AwaitPolicy? {
      SealLogs(s, e.w, s.writers[e.w].phase.prep, false, None);
      hide SealAndWrite, Store.LookedUp;
    } else if e.Resume? && e.w < |s.writers| && s.writers[e.w].phase.AwaitConsume? {
      SealLogs(s, e.w, s.writers[e.w].phase.prep, true, Some(s.writers[e.w].phase.grant));
      hide SealAndWrite;
    } else {
      hide Authorize, IsRecordId, Trim, ValidateApproval, DemandOf, Store.AfterConsume, Store.Consumable, SealAndWrite,
           ProvenanceOf, TrustFor, ClassificationFor, WithText, WithMetadata;
    }
  }

  lemma SealLogs(s: World, w: nat, prep: Prepared, required: bool, grant: Option<Grant>)
    requires w < |s.writers|
    ensures var t := SealAndWrite(s, w, prep, required, grant);
      t.log == s.log || (|t.log| == |s.log| + 1 && s.log <= t.log && t.log[|s.log|].writer == w)
  {
    hide BindingOf, Sanitized, Sealable, WithClearance, AfterSeal;
  }

  lemma PolicyLogs(digest: Payload -> Str, s: World, e: Event, h: seq<Turn>)
    requires Inv(digest, s) && e.PolicyAnswer? && e.w < |s.writers| && s.writers[e.w].phase.AwaitPolicy?
    requires Told(digest, s.writers[e.w], h) && HandlesTold(s.registry, h, s.writers[e.w].phase)
    ensures var t, more := AfterPolicy(s, e), h + [Turn(e, s.store)];
      HandlesTold(t.registry, more, t.writers[e.w].phase)
      && (t.log == s.log
          || (|t.log| == |s.log| + 1 && s.log <= t.log
              && EntryTold(digest, t.registry, s.writers[e.w].access, s.writers[e.w].command, more, t.log[|s.log|])))
  {
    PhaseAt(digest, s, e.w);
    var wr, more := s.writers[e.w], h + [Turn(e, s.store)];
    ExtendsItself(s.registry);
    SealsStay(s.registry, s.registry, h, [Turn(e, s.store)], wr.phase.prep.content, wr.phase.prep.metadata);
    ReadyStays(wr.access, wr.command, h, Turn(e, s.store));
    AllowedTurn(wr.access, wr.command, more);
    hide Inv, PreparedOk, SealAndWrite, Ready, SealsTold, Extends, EntryTold, WriteTurn, Found;
    if e.policy == Some(PolicyAllow) { NewEntryTold(digest, s, e.w, wr.phase.prep, None, more); }
  }

  lemma ConsumeLogs(digest: Payload -> Str, s: World, w: nat, h: seq<Turn>)
    requires Inv(digest, s) && w < |s.writers| && s.writers[w].phase.AwaitConsume?
    requires Told(digest, s.writers[w], h) && HandlesTold(s.registry, h, s.writers[w].phase)
    ensures var t, more := AfterConsumption(s, w), h + [Turn(Resume(w), s.store)];
      HandlesTold(t.registry, more, t.writers[w].phase)
      && (t.log == s.log
          || (|t.log| == |s.log| + 1 && s.log <= t.log
              && EntryTold(digest, t.registry, s.writers[w].access, s.writers[w].command, more, t.log[|s.log|])))
  {
    PhaseAt(digest, s, w);
    var wr, turn := s.writers[w], Turn(Resume(w), s.store);
    AwaitsConsume(digest, wr, h);
    ConsumeBacking(digest, wr, h, turn);
    ConsumeAnswered(digest, wr.access, wr.command, h, turn);
    ExtendsItself(s.registry);
    SealsStay(s.registry, s.registry, h, [turn], wr.phase.prep.content, wr.phase.prep.metadata);
    hide Inv, PreparedOk, GrantOk, SealAndWrite, SealsTold, Extends, EntryTold, WriteTurn, Backing, Approved, ConsumesIt, Told, WroteAfter, Answered;
    if wr.phase.consumed { NewEntryTold(digest, s, w, wr.phase.prep, Some(wr.phase.grant), h + [turn]); }
  }

  lemma ConsumeBacking(digest: Payload -> Str, wr: Writer, h: seq<Turn>, turn: Turn)
    requires wr.phase.AwaitConsume? && Told(digest, wr, h)
    ensures Backing(wr.access, wr.command, h + [turn]) == Some(wr.phase.grant) && WriteTurn(wr.access, wr.command, h + [turn]) == 6
    ensures |h| >= 1 && (h + [turn])[0] == h[0] && h[0].event.Begin? && wr.phase.prep.now == h[0].event.now
  {
    ApprovedStays(digest, wr.access, wr.command, h, turn);
    AllowedTurn(wr.access, wr.command, h + [turn]);
    hide Ready, ConsumesIt, DemandOf, ValidateApproval;
  }

  lemma TurnLogs(digest: Payload -> Str, s: World, e: Event, w: nat, h: seq<Turn>)
    requires Inv(digest, s) && w < |s.writers| && Told(digest, s.writers[w], h) && LogTold(digest, s, w, h)
    requires !e.Seed? && !e.OtherConsume? && e.w == w && w < |Step(digest, s, e).writers|
    requires s.writers[w].phase != Step(digest, s, e).writers[w].phase
    ensures var t, more := Step(digest, s, e), h + [Turn(e, s.store)];
      HandlesTold(t.registry, more, t.writers[w].phase)
      && (t.log == s.log
          || (|t.log| == |s.log| + 1 && s.log <= t.log
              && EntryTold(digest, t.registry, s.writers[w].access, s.writers[w].command, more, t.log[|s.log|])))
  {
    hide Inv, Told, EntryTold, LogTold;
    HandlesOf(digest, s, w, h);
    match e
    case MetadataAnswer(_, _, _) =>
      hide AfterPolicy, AfterConsumption, AfterLookup;
      MetadataSeals(digest, s, e, h);
    case PolicyAnswer(_, _) =>
      hide AfterPolicy, HandlesTold;
      PolicyLogs(digest, s, e, h);
    case Resume(_) =>
      if s.writers[w].phase.AwaitConsume? {
        hide AfterConsumption, HandlesTold;
        ConsumeLogs(digest, s, w, h);
      } else {
        LookupHandles(digest, s, w, h);
        hide AfterLookup, HandlesTold;
      }
    case _ => hide AfterPolicy, AfterConsumption, AfterLookup, AfterMetadata;
  }

  lemma HandlesOf(digest: Payload -> Str, s: World, w: nat, h: seq<Turn>)
    requires LogTold(digest, s, w, h)
    ensures HandlesTold(s.registry, h, s.writers[w].phase)
  {
    hide HandlesTold, EntryTold;
  }

  lemma LookupHandles(digest: Payload -> Str, s: World, w: nat, h: seq<Turn>)
    requires w < |s.writers| && HandlesTold(s.registry, h, s.writers[w].phase)
    ensures s.writers[w].phase.AwaitLookup? ==>
      var t := AfterLookup(digest, s, w);
      HandlesTold(t.registry, h + [Turn(Resume(w), s.store)], t.writers[w].phase) && t.log == s.log
  {
    ExtendsItself(s.registry);
    if s.writers[w].phase.AwaitLookup? {
      SealsStay(s.registry, s.registry, h, [Turn(Resume(w), s.store)], s.writers[w].phase.prep.content, s.writers[w].phase.prep.metadata);
    }
    hide SealsTold, Extends, ValidateApproval, DemandOf, Store.Consumable, Store.AfterConsume;
  }

  lemma StepLogTold(digest: Payload -> Str, s: World, e: Event, w: nat, h: seq<Turn>)
    requires Inv(digest, s) && w < |s.writers| && Told(digest, s.writers[w], h) && LogTold(digest, s, w, h)
    ensures var t := Step(digest, s, e); LogTold(digest, t, w, h + TurnOf(s, t, e, w))
  {
    var t := Step(digest, s, e);
    StepKeepsIdentities(digest, s, e);
    StepExtends(digest, s, e);
    StepPhases(digest, s, e, w);
    LogGrows(digest, s, e);
    HandlesOf(digest, s, w, h);
    WriterMoves(digest, s, e);
    var moved := s.writers[w].phase != t.writers[w].phase;
    if moved { TurnLogs(digest, s, e, w, h); } else { HandlesStay(s.registry, t.registry, h, s.writers[w].phase); }
    hide Step, Inv, Told, EntryTold, HandlesTold, Extends, LogTold;
    var more := TurnOf(s, t, e, w);
    assert more == if moved then [Turn(e, s.store)] else [];
    assert !moved ==> h + more == h;
    LogExtended(digest, s, t, w, h, more);
  }

  /** Old entries stay told, and a new one of this writer is told by its latest turn. */
  lemma LogExtended(digest: Payload -> Str, s: World, t: World, w: nat, h: seq<Turn>, more: seq<Turn>)
    requires LogTold(digest, s, w, h) && w < |t.writers| && Extends(s.registry, t.registry) && |more| <= 1
    requires t.writers[w].access == s.writers[w].access && t.writers[w].command == s.writers[w].command
    requires HandlesTold(t.registry, h + more, t.writers[w].phase)
    requires t.log == s.log
      || (|t.log| == |s.log| + 1 && s.log <= t.log
          && (t.log[|s.log|].writer == w ==>
                EntryTold(digest, t.registry, s.writers[w].access, s.writers[w].command, h + more, t.log[|s.log|])))
    ensures LogTold(digest, t, w, h + more)
  {
    hide EntryTold, HandlesTold, Extends;
    forall i | 0 <= i < |t.log| && t.log[i].writer == w
      ensures EntryTold(digest, t.registry, t.writers[w].access, t.writers[w].command, h + more, t.log[i])
    {
      if i < |s.log| {
        assert t.log[i] == s.log[i];
        EntryStays(digest, s.registry, t.registry, s.writers[w].access, s.writers[w].command, h, more, s.log[i]);
      }
    }
  }

  lemma HandlesStay(r: Registry, q: Registry, h: seq<Turn>, p: Phase)
    requires HandlesTold(r, h, p) && Extends(r, q)
    ensures HandlesTold(q, h, p)
  {
    if p.AwaitPolicy? || p.AwaitLookup? || p.AwaitConsume? { SealsStay(r, q, h, [], p.prep.content, p.prep.metadata); }
    assert h + [] == h;
    hide SealsTold, Extends;
  }

  /** Writing is a turn: the phase changes with it. */
  lemma WriterMoves(digest: Payload -> Str, s: World, e: Event)
    ensures var t := Step(digest, s, e);
      (t.log != s.log && !e.Seed? && !e.OtherConsume? && e.w < |s.writers| && e.w < |t.writers| ==>
         t.writers[e.w].phase != s.writers[e.w].phase)
  {
    if e.PolicyAnswer? && e.w < |s.writers| && s.writers[e.w].phase.AwaitPolicy? {
      SealPhases(s, e.w, s.writers[e.w].phase, false, None);
      SealMoves(s, e.w, s.writers[e.w].phase.prep, false, None);
      hide SealAndWrite, Store.LookedUp;
    } else if e.Resume? && e.w < |s.writers| && s.writers[e.w].phase.AwaitConsume? {
      SealMoves(s, e.w, s.writers[e.w].phase.prep, true, Some(s.writers[e.w].phase.grant));
      hide SealAndWrite;
    } else {
      LogGrows(digest, s, e);
      hide Step;
    }
  }

  lemma SealMoves(s: World, w: nat, prep: Prepared, required: bool, grant: Option<Grant>)
    requires w < |s.writers|
    ensures var t := SealAndWrite(s, w, prep, required, grant);
      w < |t.writers| && (t.writers[w].phase.AwaitMemory? || t.writers[w].phase.Finished?)
  {
    hide BindingOf, Sanitized, Sealable, WithClearance, AfterSeal;
  }

  lemma {:induction false} RunLogTold(digest: Payload -> Str, s: World, events: seq<Event>, w: nat, h: seq<Turn>)
    requires Inv(digest, s) && Keyed(s.store) && w < |s.writers| && Told(digest, s.writers[w], h) && LogTold(digest, s, w, h)
    ensures LogTold(digest, Run(digest, s, events), w, h + Heard(digest, s, events, w))
    decreases |events|
  {
    if events == [] {
      assert h + [] == h;
    } else {
      var t := Step(digest, s, events[0]);
      TurnTold(digest, s, events[0], w, h);
      StepLogTold(digest, s, events[0], w, h);
      StepKeepsInv(digest, s, events[0]);
      StepGrants(digest, s, events[0]);
      hide Step, Told, LogTold, Inv, Keyed, TurnOf;
      RunLogTold(digest, t, events[1..], w, h + TurnOf(s, t, events[0], w));
      Associative(h, TurnOf(s, t, events[0], w), Heard(digest, t, events[1..], w));
    }
  }

  /**
   * Every write, told from its writer's transcript: both scanners answered and found no secret, the writer was authorized, and
   * the policy either allowed the write, which then names no grant, or required approval, and then the grant looked up under the
   * command's approval id was valid and could be consumed. What is written is what the scanners returned, as the command,
   * the access and the clock have it.
   */
  lemma WritesAsTold(digest: Payload -> Str, s0: World, events: seq<Event>, i: nat)
    requires Initial(s0) && i < |Run(digest, s0, events).log|
    ensures var s := Run(digest, s0, events);
      var e := s.log[i];
      e.writer < |s0.writers|
      && var a, c, h := s0.writers[e.writer].access, s0.writers[e.writer].command, Heard(digest, s0, events, e.writer);
         Ready(a, c, h) && SealsTold(s.registry, h, e.write.content, e.write.metadata)
         && (PolicyOf(h) == Some(PolicyAllow) || PolicyOf(h) == Some(PolicyApprovalRequired))
         && (PolicyOf(h) == Some(PolicyAllow) ==> e.grant.None? && e.write.approvalId.None?)
         && (PolicyOf(h) == Some(PolicyApprovalRequired) ==>
               Approved(digest, a, c, h) && ConsumesIt(digest, a, c, h) && e.grant == Found(a, c, h) && e.grant.Some?
               && e.write.approvalId == c.approvalId)
         && e.write.recordId == c.recordId && e.write.ownerId == a.ownerId && e.write.namespace == c.targetNamespace
         && e.write.source == c.source && e.write.retention == c.retention
         && e.write.createdAt == e.write.updatedAt == h[0].event.now
         && e.write.trust == (if c.source.kind == Owner then OwnerStated else if c.source.kind == Monitor then SystemDerived
                              else UntrustedSummary)
         && e.write.privacy == (if c.targetNamespace == Ascii("security-restricted") then PrivateSecurity
                                else if c.source.kind == Owner then PrivateOwner
                                else if c.targetNamespace == Ascii("shared-public") then PublicData else BusinessData)
         && e.write.provenance == Provenance(h[0].event.now, a.ownerId,
              if c.source.kind == Owner then OwnerStatedText else UntrustedSourceSummary,
              PolicyOf(h) == Some(PolicyApprovalRequired), c.targetNamespace != a.activeNamespace)
  {
    var s := Run(digest, s0, events);
    var e := s.log[i];
    assert SealedOk(digest, s, e) && SameIdentities(s0, s) && EntryTraced(SeedsOf(events), s, e) by {
      hide Initial, Run, SealedOk, PhaseOk;
      AfterRun(digest, s0, events);
    }
    var w := e.writer;
    var a, c, h := s0.writers[w].access, s0.writers[w].command, Heard(digest, s0, events, w);
    assert EntryTold(digest, s.registry, a, c, h, e) by { EntryOfRun(digest, s0, events, i); }
    hide Initial, Run, Heard, PreparedOk, GrantOk, SeedsOf;
    EntryMeans(digest, s.registry, a, c, h, e);
    assert PreparedOk(s.registry, a, c, e.prep);
    PreparedMeans(s.registry, a, c, e.prep);
    hide EntryTold, SealsTold, Ready, Approved, ConsumesIt, Found;
  }

  lemma EntryOfRun(digest: Payload -> Str, s0: World, events: seq<Event>, i: nat)
    requires Initial(s0) && i < |Run(digest, s0, events).log| && Run(digest, s0, events).log[i].writer < |s0.writers|
    ensures var s := Run(digest, s0, events);
      var w := s.log[i].writer;
      EntryTold(digest, s.registry, s0.writers[w].access, s0.writers[w].command, Heard(digest, s0, events, w), s.log[i])
  {
    var w := Run(digest, s0, events).log[i].writer;
    InitialInv(digest, s0);
    assert Keyed(s0.store) && Told(digest, s0.writers[w], []) && LogTold(digest, s0, w, []);
    RunKeepsIdentities(digest, s0, events);
    hide Run, Told, Inv, Initial, EntryTold;
    RunLogTold(digest, s0, events, w, []);
    assert [] + Heard(digest, s0, events, w) == Heard(digest, s0, events, w);
  }

  lemma EntryMeans(digest: Payload -> Str, r: Registry, a: Access, c: Command, h: seq<Turn>, e: Sealed)
    requires EntryTold(digest, r, a, c, h, e)
    ensures Ready(a, c, h) && e.prep.now == h[0].event.now && SealsTold(r, h, e.prep.content, e.prep.metadata)
    ensures PolicyOf(h) == Some(PolicyAllow) || PolicyOf(h) == Some(PolicyApprovalRequired)
    ensures PolicyOf(h) == Some(PolicyAllow) ==> e.grant.None?
    ensures PolicyOf(h) == Some(PolicyApprovalRequired) ==>
      Approved(digest, a, c, h) && ConsumesIt(digest, a, c, h) && e.grant == Found(a, c, h) && e.grant.Some?
  {
    hide IsRecordId, Trim, Authorize, DemandOf, ValidateApproval, Store.Consumable, SealsTold;
  }

  lemma PreparedMeans(r: Registry, a: Access, c: Command, prep: Prepared)
    requires PreparedOk(r, a, c, prep)
    ensures prep.trust == if c.source.kind == Owner then OwnerStated else if c.source.kind == Monitor then SystemDerived
                          else UntrustedSummary
    ensures prep.privacy == if c.targetNamespace == Ascii("security-restricted") then PrivateSecurity
                            else if c.source.kind == Owner then PrivateOwner
                            else if c.targetNamespace == Ascii("shared-public") then PublicData else BusinessData
    ensures prep.provenance == Provenance(prep.now, a.ownerId,
      if c.source.kind == Owner then OwnerStatedText else UntrustedSourceSummary, false, c.targetNamespace != a.activeNamespace)
  {
    assert RESTRICTED == Ascii("security-restricted");
    hide IsRecordId, IsNamespace, Ascii;
  }
}
