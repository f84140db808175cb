/** When the store refuses to consume an approval that has just been validated. */
module MemoryWriteConsumption {
  import opened JsText
  import opened JsSplit
  import opened ApprovalGate
  import opened MemoryAccess
  import opened Sealing
  import opened MemoryWriteProtocol
  import opened MemoryWriteSafety
  import opened Options
  import Store = ApprovalStore

  /** The pair a writer is about to consume: that of the grant it looked up, if the grant validates. */
  ghost function Attempt(digest: Payload -> Str, wr: Writer): Option<Pair>
    requires wr.phase.AwaitLookup?
  {
    var prep, found := wr.phase.prep, wr.phase.found;
    var validation := ValidateApproval(found, DemandOf(digest, wr.access, wr.command, prep.text, prep.entries), prep.now);
    if found.Some? && validation.Valid? then Some((validation.approval.approvalId, validation.approval.nonce)) else None
  }

  /** The pair a step consumes successfully, if any. */
  ghost function Consumes(digest: Payload -> Str, s: World, e: Event): Option<Pair> {
    var pair :=
      if e.OtherConsume? then Some((e.approvalId, e.nonce))
      else if e.Resume? && e.w < |s.writers| && s.writers[e.w].phase.AwaitLookup? then Attempt(digest, s.writers[e.w])
      else None;
    if pair.Some? && Store.Consumable(s.store, pair.value.0, pair.value.1) then pair else None
  }

  /** Some step of the run has consumed the pair. */
  ghost predicate ConsumedDuring(digest: Payload -> Str, s: World, events: seq<Event>, pair: Pair)
    decreases |events|
  {
    events != []
    && (Consumes(digest, s, events[0]) == Some(pair) || ConsumedDuring(digest, Step(digest, s, events[0]), events[1..], pair))
  }

  // ---------------------------------------------------------------- consumed keys tell consumed pairs

  lemma LookupStore(digest: Payload -> Str, s: World, w: nat)
    requires w < |s.writers| && s.writers[w].phase.AwaitLookup?
    ensures var a := Attempt(digest, s.writers[w]);
      var t := AfterLookup(digest, s, w);
      if a.None? then t.store == s.store
      else
        t.store == Store.AfterConsume(s.store, a.value.0, a.value.1)
        && t.writers[w].phase.AwaitConsume? && t.writers[w].phase.consumed == Store.Consumable(s.store, a.value.0, a.value.1)
  {
    hide ValidateApproval, DemandOf, Store.AfterConsume, Store.Consumable;
  }

  lemma SealKeepsStore(s: World, w: nat, prep: Prepared, required: bool, grant: Option<Grant>)
    requires w < |s.writers|
    ensures SealAndWrite(s, w, prep, required, grant).store == s.store
  {
    hide BindingOf, Sanitized, Sealable, WithClearance, AfterSeal;
  }

  /** Only seeding and consuming touch the store. */
  lemma StepStore(digest: Payload -> Str, s: World, e: Event)
    ensures var t := Step(digest, s, e).store;
      if e.Seed? then t == Store.Seeded(s.store, e.grant)
      else if Consumes(digest, s, e).None? then t == s.store
      else t == Store.AfterConsume(s.store, Consumes(digest, s, e).value.0, Consumes(digest, s, e).value.1)
  {
    hide SealAndWrite, ValidateApproval, DemandOf, Attempt, AfterLookup, Store.ConsumeKey, Authorize, IsRecordId, Trim,
         ProvenanceOf, TrustFor, ClassificationFor, WithText, WithMetadata, Store.LookedUp;
    if e.Resume? && e.w < |s.writers| {
      var wr := s.writers[e.w];
      if wr.phase.AwaitLookup? {
        LookupStore(digest, s, e.w);
      } else if wr.phase.AwaitConsume? {
        SealKeepsStore(s, e.w, wr.phase.prep, true, Some(wr.phase.grant));
      }
    } else if e.PolicyAnswer? && e.w < |s.writers| && s.writers[e.w].phase.AwaitPolicy? {
      SealKeepsStore(s, e.w, s.writers[e.w].phase.prep, false, None);
    }
  }

  lemma StepConsumes(digest: Payload -> Str, s: World, e: Event, a: Str, n: Str)
    requires Store.NUL !in a && Store.NUL !in n
    ensures Store.ConsumeKey(a, n) in Step(digest, s, e).store.consumed
       <==> Store.ConsumeKey(a, n) in s.store.consumed || Consumes(digest, s, e) == Some((a, n))
  {
    StepStore(digest, s, e);
    var pair := Consumes(digest, s, e);
    hide Step, Consumes, Store.ConsumeKey;
    if pair.Some? && Store.ConsumeKey(a, n) == Store.ConsumeKey(pair.value.0, pair.value.1) {
      Store.ConsumeKeyInjective(a, n, pair.value.0, pair.value.1);
    }
    ConsumesConsumable(digest, s, e);
  }

  lemma ConsumesConsumable(digest: Payload -> Str, s: World, e: Event)
    ensures var pair := Consumes(digest, s, e);
      pair.Some? ==> !e.Seed? && Store.Consumable(s.store, pair.value.0, pair.value.1)
  {
  }

  /** Whatever else goes on in the store, the key of a pair without NUL is remembered exactly if that pair was consumed. */
  lemma {:induction false} KeyConsumedExactly(digest: Payload -> Str, s: World, events: seq<Event>, a: Str, n: Str)
    requires Store.NUL !in a && Store.NUL !in n
    ensures Store.ConsumeKey(a, n) in Run(digest, s, events).store.consumed
       <==> Store.ConsumeKey(a, n) in s.store.consumed || ConsumedDuring(digest, s, events, (a, n))
    decreases |events|
  {
    if events != [] {
      StepConsumes(digest, s, events[0], a, n);
      KeyConsumedExactly(digest, Step(digest, s, events[0]), events[1..], a, n);
      hide Step, Consumes, Store.ConsumeKey;
    }
  }

  // ---------------------------------------------------------------- a grant once looked up stays in the store

  ghost predicate Keyed(store: Store.Contents) { forall id | id in store.grants :: store.grants[id].approvalId == id }

  ghost predicate FoundIn(store: Store.Contents, p: Phase) {
    p.AwaitLookup? && p.found.Some? ==> p.found.value.approvalId in store.grants
  }

  ghost predicate Present(s: World) { Keyed(s.store) && forall w | 0 <= w < |s.writers| :: FoundIn(s.store, s.writers[w].phase) }

  lemma StepGrants(digest: Payload -> Str, s: World, e: Event)
    requires Keyed(s.store)
    ensures Keyed(Step(digest, s, e).store) && s.store.grants.Keys <= Step(digest, s, e).store.grants.Keys
  {
    StepStore(digest, s, e);
    hide Step, Consumes, Store.ConsumeKey;
  }

  /** A step changes at most the writer it names; a lookup answers what the store holds. */
  ghost predicate PhaseMoves(s: World, t: World, e: Event, w: nat)
    requires w < |s.writers|
  {
    w < |t.writers|
    && (t.writers[w].phase == s.writers[w].phase
        || (!e.Seed? && !e.OtherConsume? && e.w == w
            && (t.writers[w].phase.AwaitLookup? ==> exists id :: t.writers[w].phase.found == Store.LookedUp(s.store, id))))
  }

  lemma PolicyPhases(digest: Payload -> Str, s: World, e: Event, w: nat)
    requires w < |s.writers| && e.PolicyAnswer?
    ensures PhaseMoves(s, Step(digest, s, e), e, w)
  {
    hide SealAndWrite, Store.LookedUp;
    if e.w < |s.writers| { SealPhases(s, e.w, s.writers[e.w].phase, false, None); }
  }

  lemma ResumePhases(digest: Payload -> Str, s: World, e: Event, w: nat)
    requires w < |s.writers| && e.Resume?
    ensures PhaseMoves(s, Step(digest, s, e), e, w)
  {
    hide SealAndWrite, ValidateApproval, DemandOf, Store.AfterConsume, Store.Consumable;
    if e.w < |s.writers| && s.writers[e.w].phase.AwaitConsume? {
      SealPhases(s, e.w, s.writers[e.w].phase, true, Some(s.writers[e.w].phase.grant));
    }
  }

  lemma StepPhases(digest: Payload -> Str, s: World, e: Event, w: nat)
    requires w < |s.writers|
    ensures PhaseMoves(s, Step(digest, s, e), e, w)
  {
    if e.PolicyAnswer? {
      PolicyPhases(digest, s, e, w);
    } else if e.Resume? {
      ResumePhases(digest, s, e, w);
    } else {
      hide Authorize, IsRecordId, Trim, ProvenanceOf, TrustFor, ClassificationFor, Store.AfterConsume, Store.Seeded;
    }
  }

  lemma SealPhases(s: World, w: nat, p: Phase, required: bool, grant: Option<Grant>)
    requires w < |s.writers|
    ensures p.AwaitPolicy? || p.AwaitConsume? ==>
      var t := SealAndWrite(s, w, p.prep, required, grant);
      |t.writers| == |s.writers| && (forall v | 0 <= v < |s.writers| && v != w :: t.writers[v] == s.writers[v])
      && !t.writers[w].phase.AwaitLookup?
  {
    hide BindingOf, Sanitized, Sealable, WithClearance, AfterSeal;
  }

  lemma StepKeepsPresent(digest: Payload -> Str, s: World, e: Event)
    requires Present(s)
    ensures Present(Step(digest, s, e))
  {
    StepGrants(digest, s, e);
    StepKeepsIdentities(digest, s, e);
    var t := Step(digest, s, e);
    hide Step;
    forall w: nat | w < |t.writers| ensures FoundIn(t.store, t.writers[w].phase) {
      StepPhases(digest, s, e, w);
      assert FoundIn(s.store, s.writers[w].phase);
    }
  }

  lemma {:induction false} RunKeepsPresent(digest: Payload -> Str, s: World, events: seq<Event>)
    requires Present(s)
    ensures Present(Run(digest, s, events))
    decreases |events|
  {
    if events != [] {
      hide Step, Present;
      StepKeepsPresent(digest, s, events[0]);
      RunKeepsPresent(digest, Step(digest, s, events[0]), events[1..]);
    }
  }

  // ---------------------------------------------------------------- waiting for the store's answer

  lemma {:induction false} RunConcat(digest: Payload -> Str, s: World, a: seq<Event>, b: seq<Event>)
    ensures Run(digest, s, a + b) == Run(digest, Run(digest, s, a), b)
    decreases |a|
  {
    if a == [] {
      assert a + b == b;
    } else {
      hide Step;
      assert (a + b)[1..] == a[1..] + b;
      RunConcat(digest, Step(digest, s, a[0]), a[1..], b);
    }
  }

  /** Only its own next step moves a writer that waits for the consumption. */
  lemma {:induction false} WaitsForAnswer(digest: Payload -> Str, s: World, events: seq<Event>, w: nat)
    requires w < |s.writers| && s.writers[w].phase.AwaitConsume? && Resume(w) !in events
    ensures w < |Run(digest, s, events).writers| && Run(digest, s, events).writers[w].phase == s.writers[w].phase
    decreases |events|
  {
    if events != [] {
      OthersWait(digest, s, events[0], w);
      hide Step;
      WaitsForAnswer(digest, Step(digest, s, events[0]), events[1..], w);
    }
  }

  lemma OthersWait(digest: Payload -> Str, s: World, e: Event, w: nat)
    requires w < |s.writers| && s.writers[w].phase.AwaitConsume? && e != Resume(w)
    ensures w < |Step(digest, s, e).writers| && Step(digest, s, e).writers[w].phase == s.writers[w].phase
  {
    StepPhases(digest, s, e, w);
    hide AfterBegin, AfterText, AfterMetadata, AfterPolicy, AfterLookup, AfterConsumption;
  }

  lemma AttemptNames(digest: Payload -> Str, wr: Writer)
    requires wr.phase.AwaitLookup? && Attempt(digest, wr).Some?
    ensures var (id, nonce) := Attempt(digest, wr).value;
      wr.phase.found.Some? && id == wr.phase.found.value.approvalId && Store.NUL !in id && Store.NUL !in nonce
  {
    var g := wr.phase.found.value;
    var prep := wr.phase.prep;
    ValidationAcceptsExactly(g, DemandOf(digest, wr.access, wr.command, prep.text, prep.entries), prep.now);
    hide Observable, IsEffect, Covers, DemandOf, ValidateApproval;
    Store.IdsHaveNoNul(g.approvalId);
    Store.IdsHaveNoNul(g.nonce);
  }

  lemma AnswerOf(digest: Payload -> Str, s: World, w: nat)
    requires w < |s.writers| && s.writers[w].phase.AwaitConsume?
    ensures w < |Step(digest, s, Resume(w)).writers|
    ensures Step(digest, s, Resume(w)).writers[w].phase == Finished(Failed(CONSUMPTION_FAILED)) <==> !s.writers[w].phase.consumed
  {
    hide BindingOf, Sanitized, Sealable, WithClearance, AfterSeal;
  }

  /**
   * A writer whose grant has been validated goes on to consume it, while the others go on as they like. It answers
   * CONSUMPTION_FAILED if and only if the same pair had been consumed before, or by then another grant stands under the id:
   * one with another nonce, or one marked consumed or revoked.
   */
  lemma ConsumptionFailsExactly(digest: Payload -> Str, s0: World, before: seq<Event>, between: seq<Event>, w: nat)
    requires Initial(s0) && Resume(w) !in between
    requires var s := Run(digest, s0, before);
      w < |s.writers| && s.writers[w].phase.AwaitLookup? && Attempt(digest, s.writers[w]).Some?
    ensures var s := Run(digest, s0, before);
      var (id, nonce) := Attempt(digest, s.writers[w]).value;
      var end := Run(digest, s0, before + [Resume(w)] + between + [Resume(w)]);
      w < |end.writers| && id in s.store.grants
      && (end.writers[w].phase == Finished(Failed(CONSUMPTION_FAILED))
          <==> ConsumedDuring(digest, s0, before, (id, nonce)) || s.store.grants[id].nonce != nonce
               || s.store.grants[id].status == CONSUMED || s.store.grants[id].status == REVOKED)
  {
    hide Initial, Attempt, ConsumedDuring, Store.ConsumeKey, Store.Consumable, Run, Step, AfterLookup;
    var s := Run(digest, s0, before);
    var (id, nonce) := Attempt(digest, s.writers[w]).value;
    ConsumableExactly(digest, s0, before, w);
    var t := Step(digest, s, Resume(w));
    LookupStep(digest, s, w);
    RunAround(digest, s0, before, between, w);
    WaitsForAnswer(digest, t, between, w);
    AnswerOf(digest, Run(digest, t, between), w);
  }

  lemma LookupStep(digest: Payload -> Str, s: World, w: nat)
    requires w < |s.writers| && s.writers[w].phase.AwaitLookup? && Attempt(digest, s.writers[w]).Some?
    ensures var (id, nonce) := Attempt(digest, s.writers[w]).value;
      var t := Step(digest, s, Resume(w));
      w < |t.writers| && t.writers[w].phase.AwaitConsume?
      && t.writers[w].phase.consumed == Store.Consumable(s.store, id, nonce)
  {
    hide Attempt, AfterLookup, Store.Consumable, Store.AfterConsume;
    assert Step(digest, s, Resume(w)) == AfterLookup(digest, s, w);
    StepKeepsIdentities(digest, s, Resume(w));
    hide Step;
    LookupStore(digest, s, w);
  }

  /** What the store will say to a writer about to consume, told from the run so far. */
  lemma ConsumableExactly(digest: Payload -> Str, s0: World, before: seq<Event>, w: nat)
    requires Initial(s0)
    requires var s := Run(digest, s0, before);
      w < |s.writers| && s.writers[w].phase.AwaitLookup? && Attempt(digest, s.writers[w]).Some?
    ensures var s := Run(digest, s0, before);
      var (id, nonce) := Attempt(digest, s.writers[w]).value;
      id in s.store.grants
      && (Store.Consumable(s.store, id, nonce)
          <==> !ConsumedDuring(digest, s0, before, (id, nonce)) && s.store.grants[id].nonce == nonce
               && s.store.grants[id].status != CONSUMED && s.store.grants[id].status != REVOKED)
  {
    assert Present(s0) && s0.store.consumed == {};
    hide Initial, Attempt, ConsumedDuring, Store.ConsumeKey, Run;
    var s := Run(digest, s0, before);
    var (id, nonce) := Attempt(digest, s.writers[w]).value;
    RunKeepsPresent(digest, s0, before);
    AttemptNames(digest, s.writers[w]);
    assert FoundIn(s.store, s.writers[w].phase);
    KeyConsumedExactly(digest, s0, before, id, nonce);
  }

  lemma RunAround(digest: Payload -> Str, s0: World, before: seq<Event>, between: seq<Event>, w: nat)
    ensures Run(digest, s0, before + [Resume(w)] + between + [Resume(w)])
         == Step(digest, Run(digest, Step(digest, Run(digest, s0, before), Resume(w)), between), Resume(w))
  {
    RunOne(digest, s0, before, Resume(w));
    RunConcat(digest, s0, before + [Resume(w)], between);
    RunOne(digest, s0, before + [Resume(w)] + between, Resume(w));
    hide Run, Step;
  }

  lemma RunOne(digest: Payload -> Str, s: World, events: seq<Event>, e: Event)
    ensures Run(digest, s, events + [e]) == Step(digest, Run(digest, s, events), e)
  {
    hide Step;
    RunConcat(digest, s, events, [e]);
    assert [e][1..] == [];
  }
}
