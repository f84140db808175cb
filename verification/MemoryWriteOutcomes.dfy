/** What the answer of executeMemoryWrite says about the write that was, or was not, made. */
module MemoryWriteOutcomes {
  import opened JsText
  import opened ApprovalGate
  import opened MemoryAccess
  import opened Sealing
  import opened MemoryWriteProtocol
  import opened MemoryWriteSafety
  import opened Options
  import Store = ApprovalStore

  /** The writer has called memory.write. */
  predicate Past(p: Phase) {
    p.AwaitMemory? || p.AwaitAudit?
    || (p.Finished?
        && (p.outcome.Written? || p.outcome == Failed(MEMORY_UNAVAILABLE) || p.outcome == Failed(AUDIT_FAILED)))
  }

  /** The approval a writer is about to report, or has reported. */
  function Reported(p: Phase): Option<Option<Str>> {
    match p
    case AwaitMemory(a) => Some(a)
    case AwaitAudit(a) => Some(a)
    case Finished(outcome) => if outcome.Written? then Some(outcome.approvalId) else None
    case _ => None
  }

  ghost predicate Logged(s: World, w: nat) { exists i :: 0 <= i < |s.log| && s.log[i].writer == w }

  ghost predicate PastExactly(s: World, w: nat)
    requires w < |s.writers|
  {
    Past(s.writers[w].phase) <==> Logged(s, w)
  }

  ghost predicate ReportOk(s: World, e: Sealed) {
    e.writer < |s.writers|
    && (Reported(s.writers[e.writer].phase).Some? ==> Reported(s.writers[e.writer].phase) == Some(e.write.approvalId))
  }

  ghost predicate OutcomesOk(s: World) {
    (forall w: nat | w < |s.writers| :: PastExactly(s, w))
    && (forall i | 0 <= i < |s.log| :: ReportOk(s, s.log[i]))
    && forall i, j | 0 <= i < j < |s.log| :: s.log[i].writer != s.log[j].writer
  }

  /** A step that logs nothing and leaves the writer on the same side of its write. */
  lemma QuietOutcome(s: World, t: World, w: nat)
    requires OutcomesOk(s) && t.log == s.log && |t.writers| == |s.writers| && w < |s.writers|
    requires forall v | 0 <= v < |s.writers| && v != w :: t.writers[v] == s.writers[v]
    requires Past(t.writers[w].phase) == Past(s.writers[w].phase)
    requires Reported(t.writers[w].phase).Some? ==> Reported(t.writers[w].phase) == Reported(s.writers[w].phase)
    ensures OutcomesOk(t)
  {
    forall v: nat | v < |t.writers| ensures PastExactly(t, v) {
      assert PastExactly(s, v);
      assert Logged(t, v) <==> Logged(s, v);
    }
    forall i | 0 <= i < |t.log| ensures ReportOk(t, t.log[i]) { assert ReportOk(s, s.log[i]); }
  }

  lemma SealOutcome(digest: Payload -> Str, s: World, w: nat, prep: Prepared, required: bool, grant: Option<Grant>)
    requires OutcomesOk(s) && w < |s.writers| && !Past(s.writers[w].phase)
    requires PreparedOk(s.registry, s.writers[w].access, s.writers[w].command, prep)
    ensures OutcomesOk(SealAndWrite(s, w, prep, required, grant))
  {
    SealAndWriteIs(s, w, prep, required, grant);
    hide SealAndWrite, PreparedOk;
    var t := SealAndWrite(s, w, prep, required, grant);
    assert PastExactly(s, w);
    forall v: nat | v < |t.writers| ensures PastExactly(t, v) {
      assert PastExactly(s, v);
      if v == w { assert t.log[|s.log|].writer == v; }
      if Logged(s, v) {
        var i :| 0 <= i < |s.log| && s.log[i].writer == v;
        assert t.log[i].writer == v;
      }
    }
    forall i | 0 <= i < |t.log| ensures ReportOk(t, t.log[i]) {
      if i < |s.log| {
        assert ReportOk(s, s.log[i]);
        assert s.log[i].writer != w;
      }
    }
  }

  lemma PlainOutcome(digest: Payload -> Str, s: World, e: Event, w: nat)
    requires OutcomesOk(s) && w < |s.writers|
    requires e.Begin? || e.TextAnswer? || e.MetadataAnswer? || e.MemoryAnswer? || e.AuditAnswer?
    requires w == e.w
    ensures OutcomesOk(Step(digest, s, e))
  {
    hide OutcomesOk, Authorize, IsRecordId, ProvenanceOf, TrustFor, ClassificationFor, WithText, WithMetadata;
    QuietOutcome(s, Step(digest, s, e), w);
  }

  lemma PolicyOutcome(digest: Payload -> Str, s: World, e: Event, w: nat)
    requires Inv(digest, s) && OutcomesOk(s) && w < |s.writers| && e.PolicyAnswer? && e.w == w
      && s.writers[w].phase.AwaitPolicy?
    ensures OutcomesOk(AfterPolicy(s, e))
  {
    PhaseAt(digest, s, w);
    hide OutcomesOk, SealAndWrite, PreparedOk, Inv, Store.LookedUp;
    if e.policy == Some(PolicyAllow) {
      SealOutcome(digest, s, w, s.writers[w].phase.prep, false, None);
    } else {
      QuietOutcome(s, AfterPolicy(s, e), w);
    }
  }

  lemma LookupOutcome(digest: Payload -> Str, s: World, w: nat)
    requires OutcomesOk(s) && w < |s.writers| && s.writers[w].phase.AwaitLookup?
    ensures OutcomesOk(AfterLookup(digest, s, w))
  {
    hide OutcomesOk, ValidateApproval, DemandOf, Store.AfterConsume, Store.Consumable;
    QuietOutcome(s, AfterLookup(digest, s, w), w);
  }

  lemma ConsumptionOutcome(digest: Payload -> Str, s: World, w: nat)
    requires Inv(digest, s) && OutcomesOk(s) && w < |s.writers| && s.writers[w].phase.AwaitConsume?
    ensures OutcomesOk(AfterConsumption(s, w))
  {
    PhaseAt(digest, s, w);
    hide OutcomesOk, SealAndWrite, PreparedOk, Inv, GrantOk;
    var phase := s.writers[w].phase;
    if phase.consumed {
      SealOutcome(digest, s, w, phase.prep, true, Some(phase.grant));
    } else {
      QuietOutcome(s, AfterConsumption(s, w), w);
    }
  }

  lemma StepKeepsOutcomes(digest: Payload -> Str, s: World, e: Event)
    requires Inv(digest, s) && OutcomesOk(s)
    ensures OutcomesOk(Step(digest, s, e))
  {
    hide OutcomesOk, Inv, AfterBegin, AfterText, AfterMetadata, AfterPolicy, AfterLookup, AfterConsumption;
    match e
    case Seed(_) => StoreOutcome(s, Step(digest, s, e));
    case OtherConsume(_, _) => StoreOutcome(s, Step(digest, s, e));
    case PolicyAnswer(w, _) => if w < |s.writers| && s.writers[w].phase.AwaitPolicy? { PolicyOutcome(digest, s, e, w); }
    case Resume(w) =>
      if w < |s.writers| && s.writers[w].phase.AwaitLookup? { LookupOutcome(digest, s, w); }
      else if w < |s.writers| && s.writers[w].phase.AwaitConsume? { ConsumptionOutcome(digest, s, w); }
    case _ => if e.w < |s.writers| { PlainOutcome(digest, s, e, e.w); }
  }

  lemma StoreOutcome(s: World, t: World)
    requires OutcomesOk(s) && t.writers == s.writers && t.log == s.log
    ensures OutcomesOk(t)
  {
    forall v: nat | v < |t.writers| ensures PastExactly(t, v) {
      assert PastExactly(s, v);
      assert Logged(t, v) <==> Logged(s, v);
    }
    forall i | 0 <= i < |t.log| ensures ReportOk(t, t.log[i]) { assert ReportOk(s, s.log[i]); }
  }

  lemma {:induction false} RunKeepsOutcomes(digest: Payload -> Str, s: World, events: seq<Event>)
    requires Inv(digest, s) && OutcomesOk(s)
    ensures OutcomesOk(Run(digest, s, events))
    decreases |events|
  {
    hide Inv, Step, OutcomesOk;
    if events != [] {
      StepKeepsInv(digest, s, events[0]);
      StepKeepsOutcomes(digest, s, events[0]);
      RunKeepsOutcomes(digest, Step(digest, s, events[0]), events[1..]);
    }
  }

  /**
   * Every writer writes at most once; it reports success only for a write it made, under the approval that write carries; and
   * every failure other than a memory or audit failure means nothing was written.
   */
  lemma AnswersTellTheTruth(digest: Payload -> Str, s0: World, events: seq<Event>, w: nat)
    requires Initial(s0) && w < |Run(digest, s0, events).writers|
    ensures var s := Run(digest, s0, events);
      (Past(s.writers[w].phase) <==> Logged(s, w))
      && (forall i, j | 0 <= i < j < |s.log| :: s.log[i].writer != s.log[j].writer)
      && forall i | 0 <= i < |s.log| && s.log[i].writer == w && Reported(s.writers[w].phase).Some? ::
           Reported(s.writers[w].phase) == Some(s.log[i].write.approvalId)
  {
    assert OutcomesOk(s0);
    InitialInv(digest, s0);
    hide Initial, Run, Inv;
    RunKeepsOutcomes(digest, s0, events);
    var s := Run(digest, s0, events);
    assert PastExactly(s, w);
    forall i | 0 <= i < |s.log| ensures ReportOk(s, s.log[i]) {}
  }
}
