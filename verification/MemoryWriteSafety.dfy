/** What holds after every run of concurrent memory writers. */
module MemoryWriteSafety {
  import opened JsText
  import opened JsSplit
  import opened ApprovalGate
  import opened MemoryAccess
  import opened Sealing
  import opened MemoryWriteProtocol
  import opened Options
  import Store = ApprovalStore

  type Pair = (Str, Str)

  // ---------------------------------------------------------------- invariant, piece by piece

  /** The prepared operation is the one the writer was authorized for, under handles it really sealed. */
  ghost predicate PreparedOk(r: Registry, a: Access, c: Command, prep: Prepared) {
    prep.content < |r.texts| && r.texts[prep.content].value == prep.text
    && prep.metadata < |r.metadata| && r.metadata[prep.metadata].entries == prep.entries
    && c.targetNamespace == a.activeNamespace && IsNamespace(c.targetNamespace) && IsRecordId(c.recordId)
    && prep.provenance == ProvenanceOf(a, c, prep.now) && prep.trust == TrustFor(c.source)
    && prep.privacy == ClassificationFor(c.targetNamespace, c.source)
  }

  /** The grant was looked up, validated against this writer's own demand, and its pair is spent. */
  ghost predicate GrantOk(digest: Payload -> Str, consumed: set<Str>, a: Access, c: Command, prep: Prepared, g: Grant) {
    IsId(g.approvalId) && Covers(g, DemandOf(digest, a, c, prep.text, prep.entries), prep.now)
    && Store.ConsumeKey(g.approvalId, g.nonce) in consumed
  }

  ghost predicate PhaseOk(digest: Payload -> Str, s: World, wr: Writer) {
    match wr.phase
    case AwaitText(_) => IsRecordId(wr.command.recordId)
    case AwaitMetadata(_, _) => IsRecordId(wr.command.recordId)
    case AwaitPolicy(prep) => PreparedOk(s.registry, wr.access, wr.command, prep)
    case AwaitLookup(prep, _) => PreparedOk(s.registry, wr.access, wr.command, prep)
    case AwaitConsume(prep, g, ok) =>
      PreparedOk(s.registry, wr.access, wr.command, prep) && (ok ==> GrantOk(digest, s.store.consumed, wr.access, wr.command, prep, g))
    case Finished(outcome) => outcome != Failed(DIGEST_FAILED)
    case _ => true
  }

  ghost predicate SealedOk(digest: Payload -> Str, s: World, e: Sealed) {
    e.writer < |s.writers|
    && (var wr := s.writers[e.writer];
        PreparedOk(s.registry, wr.access, wr.command, e.prep)
        && e.write == BindingOf(wr.access, wr.command, e.prep, if e.grant.Some? then Some(e.grant.value.approvalId) else None)
        && (e.required <==> e.grant.Some?)
        && (e.grant.Some? ==> GrantOk(digest, s.store.consumed, wr.access, wr.command, e.prep, e.grant.value)))
    && e.clearance < |s.registry.clearances| && s.registry.clearances[e.clearance] == Clearance(e.write, true)
  }

  /** The (approvalId, nonce) pair a writer has consumed and not yet used, or a write has used. */
  ghost function Claim(p: Phase): Option<Pair> {
    if p.AwaitConsume? && p.consumed then Some((p.grant.approvalId, p.grant.nonce)) else None
  }

  ghost function Spent(e: Sealed): Option<Pair> {
    if e.grant.Some? then Some((e.grant.value.approvalId, e.grant.value.nonce)) else None
  }

  ghost function ClaimAt(s: World, w: int): Option<Pair>
    requires 0 <= w < |s.writers|
  {
    Claim(s.writers[w].phase)
  }

  ghost predicate ClaimsDistinct(s: World) {
    (forall v, w | 0 <= v < w < |s.writers| && ClaimAt(s, v).Some? :: ClaimAt(s, v) != ClaimAt(s, w))
    && (forall w, i | 0 <= w < |s.writers| && 0 <= i < |s.log| && ClaimAt(s, w).Some? :: ClaimAt(s, w) != Spent(s.log[i]))
    && (forall i, j | 0 <= i < j < |s.log| && Spent(s.log[i]).Some? :: Spent(s.log[i]) != Spent(s.log[j]))
  }

  ghost predicate ClearancesDistinct(s: World) {
    forall i, j | 0 <= i < j < |s.log| :: s.log[i].clearance != s.log[j].clearance
  }

  ghost predicate Inv(digest: Payload -> Str, s: World) {
    (forall w | 0 <= w < |s.writers| :: PhaseOk(digest, s, s.writers[w]))
    && (forall i | 0 <= i < |s.log| :: SealedOk(digest, s, s.log[i]))
    && ClaimsDistinct(s) && ClearancesDistinct(s)
  }

  // ---------------------------------------------------------------- what a step leaves alone

  /** Registries and spent keys only grow; writers keep their access and command. */
  ghost predicate Grows(s: World, t: World) {
    Extends(s.registry, t.registry) && s.store.consumed <= t.store.consumed && |s.writers| == |t.writers|
    && forall w | 0 <= w < |s.writers| ::
         t.writers[w].access == s.writers[w].access && t.writers[w].command == s.writers[w].command
  }

  lemma PreparedStays(r: Registry, q: Registry, a: Access, c: Command, prep: Prepared)
    requires PreparedOk(r, a, c, prep) && Extends(r, q)
    ensures PreparedOk(q, a, c, prep)
  {
    hide IsNamespace, IsRecordId;
  }

  lemma PhaseStays(digest: Payload -> Str, s: World, t: World, wr: Writer)
    requires PhaseOk(digest, s, wr) && Grows(s, t)
    ensures PhaseOk(digest, t, wr)
  {
    hide PreparedOk, Covers, Extends;
    match wr.phase
    case AwaitPolicy(prep) => PreparedStays(s.registry, t.registry, wr.access, wr.command, prep);
    case AwaitLookup(prep, _) => PreparedStays(s.registry, t.registry, wr.access, wr.command, prep);
    case AwaitConsume(prep, _, _) => PreparedStays(s.registry, t.registry, wr.access, wr.command, prep);
    case _ =>
  }

  lemma SealedStays(digest: Payload -> Str, s: World, t: World, e: Sealed)
    requires SealedOk(digest, s, e) && Grows(s, t)
    ensures SealedOk(digest, t, e)
  {
    hide PreparedOk, Covers;
    PreparedStays(s.registry, t.registry, s.writers[e.writer].access, s.writers[e.writer].command, e.prep);
    assert t.registry.clearances[e.clearance].binding == s.registry.clearances[e.clearance].binding;
  }

  /** A step of writer w that logs nothing keeps the invariant if its own phase and claim are in order. */
  lemma QuietStep(digest: Payload -> Str, s: World, t: World, w: nat)
    requires Inv(digest, s) && Grows(s, t) && t.log == s.log && w < |s.writers|
    requires forall v | 0 <= v < |s.writers| && v != w :: t.writers[v] == s.writers[v]
    requires PhaseOk(digest, t, t.writers[w]) && Claim(t.writers[w].phase).None?
    ensures Inv(digest, t)
  {
    hide PhaseOk, SealedOk;
    forall v | 0 <= v < |t.writers| ensures PhaseOk(digest, t, t.writers[v]) {
      if v != w { PhaseStays(digest, s, t, s.writers[v]); }
    }
    forall i | 0 <= i < |t.log| ensures SealedOk(digest, t, t.log[i]) {
      SealedStays(digest, s, t, s.log[i]);
    }
    assert forall v | 0 <= v < |t.writers| && v != w :: ClaimAt(t, v) == ClaimAt(s, v);
    assert ClaimAt(t, w).None?;
  }

  /** Seeding, or consumption by anyone else, is invisible to the writers' invariant. */
  lemma StoreStep(digest: Payload -> Str, s: World, store: Store.Contents)
    requires Inv(digest, s) && s.store.consumed <= store.consumed
    ensures Inv(digest, s.(store := store))
  {
    hide PhaseOk, SealedOk, Extends;
    var t := s.(store := store);
    assert Grows(s, t) by { ExtendsItself(s.registry); }
    forall v | 0 <= v < |t.writers| ensures PhaseOk(digest, t, t.writers[v]) {
      PhaseStays(digest, s, t, s.writers[v]);
    }
    forall i | 0 <= i < |t.log| ensures SealedOk(digest, t, t.log[i]) {
      SealedStays(digest, s, t, s.log[i]);
    }
    assert forall v | 0 <= v < |t.writers| :: ClaimAt(t, v) == ClaimAt(s, v);
  }

  lemma ExtendsItself(r: Registry)
    ensures Extends(r, r)
  {
  }

  /** Moving one writer to a phase without claim keeps the invariant. */
  lemma MoveStep(digest: Payload -> Str, s: World, w: nat, phase: Phase)
    requires Inv(digest, s) && w < |s.writers| && Claim(phase).None?
    requires PhaseOk(digest, s, s.writers[w].(phase := phase))
    ensures Inv(digest, At(s, w, phase))
  {
    hide PhaseOk, SealedOk, Extends;
    var t := At(s, w, phase);
    ExtendsItself(s.registry);
    assert PhaseOk(digest, t, t.writers[w]) by { PhaseStays(digest, s, t, s.writers[w].(phase := phase)); }
    QuietStep(digest, s, t, w);
  }

  // ---------------------------------------------------------------- the two steps that matter

  /** Whoever holds or has used a pair, its key is among the consumed ones. */
  lemma ClaimsAreConsumed(digest: Payload -> Str, s: World, id: Str, nonce: Str)
    requires Inv(digest, s) && IsId(id) && Store.ConsumeKey(id, nonce) !in s.store.consumed
    ensures forall w | 0 <= w < |s.writers| :: ClaimAt(s, w) != Some((id, nonce))
    ensures forall i | 0 <= i < |s.log| :: Spent(s.log[i]) != Some((id, nonce))
  {
    hide PreparedOk, Covers, IsId, Structured;
    forall w | 0 <= w < |s.writers| ensures ClaimAt(s, w) != Some((id, nonce)) {
      assert PhaseOk(digest, s, s.writers[w]);
    }
    forall i | 0 <= i < |s.log| ensures Spent(s.log[i]) != Some((id, nonce)) {
      assert SealedOk(digest, s, s.log[i]);
    }
  }

  /** A writer acquires a claim: its key was free, so nobody else holds or has used the pair. */
  lemma ClaimStep(digest: Payload -> Str, s: World, w: nat, prep: Prepared, g: Grant, ok: bool)
    requires Inv(digest, s) && w < |s.writers| && PreparedOk(s.registry, s.writers[w].access, s.writers[w].command, prep)
    requires IsId(g.approvalId) && ok == Store.Consumable(s.store, g.approvalId, g.nonce)
    requires var t := s.(store := Store.AfterConsume(s.store, g.approvalId, g.nonce));
      ok ==> GrantOk(digest, t.store.consumed, s.writers[w].access, s.writers[w].command, prep, g)
    ensures Inv(digest, At(s.(store := Store.AfterConsume(s.store, g.approvalId, g.nonce)), w, AwaitConsume(prep, g, ok)))
  {
    hide PreparedOk, SealedOk, GrantOk, PhaseOk, Extends, Store.ConsumeKey;
    var t := s.(store := Store.AfterConsume(s.store, g.approvalId, g.nonce));
    StoreStep(digest, s, t.store);
    if !ok {
      WaitingPhaseOk(digest, t, w, prep, g);
      MoveStep(digest, t, w, AwaitConsume(prep, g, ok));
    } else {
      var u := At(t, w, AwaitConsume(prep, g, ok));
      ClaimsAreConsumed(digest, s, g.approvalId, g.nonce);
      ExtendsItself(t.registry);
      forall v | 0 <= v < |u.writers| ensures PhaseOk(digest, u, u.writers[v]) {
        if v != w { PhaseStays(digest, t, u, t.writers[v]); } else { ClaimPhaseOk(digest, u, w, prep, g); }
      }
      forall i | 0 <= i < |u.log| ensures SealedOk(digest, u, u.log[i]) {
        SealedStays(digest, t, u, t.log[i]);
      }
      assert forall v | 0 <= v < |u.writers| && v != w :: ClaimAt(u, v) == ClaimAt(s, v);
      assert ClaimAt(u, w) == Some((g.approvalId, g.nonce));
    }
  }

  lemma WaitingPhaseOk(digest: Payload -> Str, t: World, w: nat, prep: Prepared, g: Grant)
    requires w < |t.writers| && PreparedOk(t.registry, t.writers[w].access, t.writers[w].command, prep)
    ensures PhaseOk(digest, t, t.writers[w].(phase := AwaitConsume(prep, g, false)))
  {
  }

  lemma ClaimPhaseOk(digest: Payload -> Str, u: World, w: nat, prep: Prepared, g: Grant)
    requires w < |u.writers| && u.writers[w].phase == AwaitConsume(prep, g, true)
    requires PreparedOk(u.registry, u.writers[w].access, u.writers[w].command, prep)
    requires GrantOk(digest, u.store.consumed, u.writers[w].access, u.writers[w].command, prep, g)
    ensures PhaseOk(digest, u, u.writers[w])
  {
  }

  /** Sealing cannot fail, and the pair moves from the writer to the log. */
  lemma SealStep(digest: Payload -> Str, s: World, w: nat, prep: Prepared, required: bool, grant: Option<Grant>)
    requires Inv(digest, s) && w < |s.writers|
    requires PreparedOk(s.registry, s.writers[w].access, s.writers[w].command, prep)
    requires required <==> grant.Some?
    requires grant.Some? ==> GrantOk(digest, s.store.consumed, s.writers[w].access, s.writers[w].command, prep, grant.value)
    requires ClaimAt(s, w) == if grant.Some? then Some((grant.value.approvalId, grant.value.nonce)) else None
    ensures Inv(digest, SealAndWrite(s, w, prep, required, grant))
  {
    hide PhaseOk, GrantOk, SealedOk, PreparedOk, SealAndWrite, BindingOf;
    SealAndWriteIs(s, w, prep, required, grant);
    var t := SealAndWrite(s, w, prep, required, grant);
    var e := t.log[|s.log|];
    SealedEntryOk(digest, s, t, e);
    MemoryPhaseOk(digest, t, w);
    assert forall v | 0 <= v < |t.writers| && v != w :: ClaimAt(t, v) == ClaimAt(s, v);
    ClaimMoves(s, t, w, e);
    SealKeepsOthers(digest, s, t, w);
  }

  lemma SealKeepsOthers(digest: Payload -> Str, s: World, t: World, w: nat)
    requires Inv(digest, s) && Grows(s, t) && ClaimsDistinct(t) && w < |s.writers| && |t.log| == |s.log| + 1
      && s.log <= t.log
    requires forall v | 0 <= v < |s.writers| && v != w :: t.writers[v] == s.writers[v]
    requires PhaseOk(digest, t, t.writers[w]) && SealedOk(digest, t, t.log[|s.log|])
    requires t.log[|s.log|].clearance == |s.registry.clearances|
    ensures Inv(digest, t)
  {
    hide PhaseOk, SealedOk, ClaimsDistinct;
    forall v | 0 <= v < |t.writers| ensures PhaseOk(digest, t, t.writers[v]) {
      if v != w { PhaseStays(digest, s, t, s.writers[v]); }
    }
    forall i | 0 <= i < |s.log| ensures SealedOk(digest, t, t.log[i]) && t.log[i].clearance < |s.registry.clearances| {
      SealedStays(digest, s, t, s.log[i]);
      EarlierClearance(digest, s, s.log[i]);
    }
  }

  lemma EarlierClearance(digest: Payload -> Str, s: World, e: Sealed)
    requires SealedOk(digest, s, e)
    ensures e.clearance < |s.registry.clearances|
  {
  }

  lemma MemoryPhaseOk(digest: Payload -> Str, t: World, w: nat)
    requires w < |t.writers| && t.writers[w].phase.AwaitMemory?
    ensures PhaseOk(digest, t, t.writers[w])
  {
  }

  lemma SealAndWriteIs(s: World, w: nat, prep: Prepared, required: bool, grant: Option<Grant>)
    requires w < |s.writers| && PreparedOk(s.registry, s.writers[w].access, s.writers[w].command, prep)
    ensures var t := SealAndWrite(s, w, prep, required, grant);
      var approvalId := if grant.Some? then Some(grant.value.approvalId) else None;
      var write := BindingOf(s.writers[w].access, s.writers[w].command, prep, approvalId);
      t == World(s.store,
                 s.registry.(clearances := s.registry.clearances + [Clearance(write, true)]),
                 s.writers[w := s.writers[w].(phase := AwaitMemory(approvalId))],
                 s.log + [Sealed(w, write, |s.registry.clearances|, prep, required, grant)])
  {
    var approvalId := if grant.Some? then Some(grant.value.approvalId) else None;
    var write := BindingOf(s.writers[w].access, s.writers[w].command, prep, approvalId);
    FreshClearanceSeals(s.registry, write);
    var cs := s.registry.clearances;
    assert (cs + [Clearance(write, false)])[|cs| := Clearance(write, true)] == cs + [Clearance(write, true)];
  }

  lemma SealedEntryOk(digest: Payload -> Str, s: World, t: World, e: Sealed)
    requires Grows(s, t) && e.writer < |s.writers|
      && PreparedOk(s.registry, s.writers[e.writer].access, s.writers[e.writer].command, e.prep)
    requires e.write == BindingOf(s.writers[e.writer].access, s.writers[e.writer].command, e.prep, if e.grant.Some? then Some(e.grant.value.approvalId) else None)
    requires e.required <==> e.grant.Some?
    requires e.grant.Some? ==> GrantOk(digest, s.store.consumed, s.writers[e.writer].access, s.writers[e.writer].command, e.prep, e.grant.value)
    requires e.clearance < |t.registry.clearances| && t.registry.clearances[e.clearance] == Clearance(e.write, true)
    ensures SealedOk(digest, t, e)
  {
    hide PreparedOk, Covers;
    PreparedStays(s.registry, t.registry, s.writers[e.writer].access, s.writers[e.writer].command, e.prep);
  }

  lemma ClaimMoves(s: World, t: World, w: nat, e: Sealed)
    requires ClaimsDistinct(s) && w < |s.writers| == |t.writers| && t.log == s.log + [e]
    requires forall v | 0 <= v < |t.writers| && v != w :: ClaimAt(t, v) == ClaimAt(s, v)
    requires ClaimAt(t, w).None? && Spent(e) == ClaimAt(s, w)
    ensures ClaimsDistinct(t)
  {
  }

  // ---------------------------------------------------------------- every step, every run

  lemma TextStep(digest: Payload -> Str, s: World, e: Event)
    requires Inv(digest, s) && e.TextAnswer? && e.w < |s.writers| && s.writers[e.w].phase.AwaitText?
    ensures Inv(digest, AfterText(s, e))
  {
    hide PreparedOk, SealedOk, Inv, IsRecordId;
    assert PhaseOk(digest, s, s.writers[e.w]) by { PhaseAt(digest, s, e.w); }
    MoveStep(digest, s, e.w, AfterText(s, e).writers[e.w].phase);
  }

  lemma PhaseAt(digest: Payload -> Str, s: World, w: nat)
    requires Inv(digest, s) && w < |s.writers|
    ensures PhaseOk(digest, s, s.writers[w])
  {
  }

  lemma BeginStep(digest: Payload -> Str, s: World, e: Event)
    requires Inv(digest, s) && e.Begin? && e.w < |s.writers|
    ensures Inv(digest, AfterBegin(s, e))
  {
    hide PreparedOk, SealedOk, Inv, IsRecordId, Trim;
    MoveStep(digest, s, e.w, AfterBegin(s, e).writers[e.w].phase);
  }

  /** Growing the registry by sealed content disturbs nobody. */
  lemma RegistryStep(digest: Payload -> Str, s: World, r: Registry)
    requires Inv(digest, s) && Extends(s.registry, r)
    ensures Inv(digest, s.(registry := r))
  {
    hide PhaseOk, SealedOk, Extends;
    var t := s.(registry := r);
    forall v | 0 <= v < |t.writers| ensures PhaseOk(digest, t, t.writers[v]) {
      PhaseStays(digest, s, t, s.writers[v]);
    }
    forall i | 0 <= i < |t.log| ensures SealedOk(digest, t, t.log[i]) {
      SealedStays(digest, s, t, s.log[i]);
    }
    assert forall v | 0 <= v < |t.writers| :: ClaimAt(t, v) == ClaimAt(s, v);
  }

  /** What the writer carries out of the metadata answer is what it was authorized for. */
  lemma MetadataPrepares(s: World, e: Event)
    requires e.MetadataAnswer? && e.w < |s.writers| && s.writers[e.w].phase.AwaitMetadata?
    requires IsRecordId(s.writers[e.w].command.recordId)
    ensures var t, wr := AfterMetadata(s, e), s.writers[e.w];
      Extends(s.registry, t.registry) && t == At(s.(registry := t.registry), e.w, t.writers[e.w].phase)
      && if t.writers[e.w].phase.AwaitPolicy? then PreparedOk(t.registry, wr.access, wr.command, t.writers[e.w].phase.prep)
         else t.writers[e.w].phase.Finished? && t.writers[e.w].phase.outcome != Failed(DIGEST_FAILED)
  {
    hide IsNamespace, IsRecordId;
    var wr := s.writers[e.w];
    MutationAllowedExactly(wr.access, e.live, WriteOp, wr.access.ownerId, wr.command.targetNamespace);
    hide Authorize;
  }

  lemma MetadataStep(digest: Payload -> Str, s: World, e: Event)
    requires Inv(digest, s) && e.MetadataAnswer? && e.w < |s.writers| && s.writers[e.w].phase.AwaitMetadata?
    ensures Inv(digest, AfterMetadata(s, e))
  {
    PhaseAt(digest, s, e.w);
    hide AfterMetadata, PreparedOk, Inv, IsRecordId, Extends;
    MetadataPrepares(s, e);
    var t := AfterMetadata(s, e);
    RegistryStep(digest, s, t.registry);
    MoveStep(digest, s.(registry := t.registry), e.w, t.writers[e.w].phase);
  }

  lemma PolicyStep(digest: Payload -> Str, s: World, e: Event)
    requires Inv(digest, s) && e.PolicyAnswer? && e.w < |s.writers| && s.writers[e.w].phase.AwaitPolicy?
    ensures Inv(digest, AfterPolicy(s, e))
  {
    PhaseAt(digest, s, e.w);
    hide SealAndWrite, PreparedOk, Inv, GrantOk;
    var prep := s.writers[e.w].phase.prep;
    if e.policy == Some(PolicyAllow) {
      SealStep(digest, s, e.w, prep, false, None);
    } else {
      MoveStep(digest, s, e.w, AfterPolicy(s, e).writers[e.w].phase);
    }
  }

  lemma LookupStep(digest: Payload -> Str, s: World, w: nat)
    requires Inv(digest, s) && w < |s.writers| && s.writers[w].phase.AwaitLookup?
    ensures Inv(digest, AfterLookup(digest, s, w))
  {
    PhaseAt(digest, s, w);
    var wr := s.writers[w];
    var prep, found := wr.phase.prep, wr.phase.found;
    hide PreparedOk, Inv, ValidateApproval, DemandOf, Store.ConsumeKey, Structured, Observable, IsId, IsEffect, Covers;
    var demand := DemandOf(digest, wr.access, wr.command, prep.text, prep.entries);
    if found.Some? && ValidateApproval(found, demand, prep.now).Valid? {
      var g := found.value;
      ValidationAcceptsExactly(g, demand, prep.now);
      assert IsId(g.approvalId) by { StructuredId(g); }
      ClaimStep(digest, s, w, prep, g, Store.Consumable(s.store, g.approvalId, g.nonce));
    } else {
      MoveStep(digest, s, w, AfterLookup(digest, s, w).writers[w].phase);
    }
  }

  lemma StructuredId(g: Grant)
    requires Structured(g)
    ensures IsId(g.approvalId)
  {
  }

  lemma ConsumptionStep(digest: Payload -> Str, s: World, w: nat)
    requires Inv(digest, s) && w < |s.writers| && s.writers[w].phase.AwaitConsume?
    ensures Inv(digest, AfterConsumption(s, w))
  {
    PhaseAt(digest, s, w);
    hide SealAndWrite, PreparedOk, Inv, GrantOk;
    var phase := s.writers[w].phase;
    if phase.consumed {
      SealStep(digest, s, w, phase.prep, true, Some(phase.grant));
    } else {
      MoveStep(digest, s, w, AfterConsumption(s, w).writers[w].phase);
    }
  }

  lemma StepKeepsInv(digest: Payload -> Str, s: World, e: Event)
    requires Inv(digest, s)
    ensures Inv(digest, Step(digest, s, e))
  {
    hide Inv, AfterBegin, AfterText, AfterMetadata, AfterPolicy, AfterLookup, AfterConsumption, PreparedOk;
    match e
    case Seed(g) => StoreStep(digest, s, Store.Seeded(s.store, g));
    case OtherConsume(id, nonce) => StoreStep(digest, s, Store.AfterConsume(s.store, id, nonce));
    case Begin(w, _, _, _, _) => if w < |s.writers| { BeginStep(digest, s, e); }
    case TextAnswer(w, _) => if w < |s.writers| && s.writers[w].phase.AwaitText? { TextStep(digest, s, e); }
    case MetadataAnswer(w, _, _) => if w < |s.writers| && s.writers[w].phase.AwaitMetadata? { MetadataStep(digest, s, e); }
    case PolicyAnswer(w, _) => if w < |s.writers| && s.writers[w].phase.AwaitPolicy? { PolicyStep(digest, s, e); }
    case Resume(w) =>
      if w < |s.writers| && s.writers[w].phase.AwaitLookup? { LookupStep(digest, s, w); }
      else if w < |s.writers| && s.writers[w].phase.AwaitConsume? { ConsumptionStep(digest, s, w); }
    case MemoryAnswer(w, ok) =>
      if w < |s.writers| && s.writers[w].phase.AwaitMemory? { MoveStep(digest, s, w, Step(digest, s, e).writers[w].phase); }
    case AuditAnswer(w, ok) =>
      if w < |s.writers| && s.writers[w].phase.AwaitAudit? { MoveStep(digest, s, w, Step(digest, s, e).writers[w].phase); }
  }

  lemma {:induction false} RunKeepsInv(digest: Payload -> Str, s: World, events: seq<Event>)
    requires Inv(digest, s)
    ensures Inv(digest, Run(digest, s, events))
    decreases |events|
  {
    if events != [] {
      hide Inv, Step;
      StepKeepsInv(digest, s, events[0]);
      RunKeepsInv(digest, Step(digest, s, events[0]), events[1..]);
    }
  }

  lemma InitialInv(digest: Payload -> Str, s: World)
    requires Initial(s)
    ensures Inv(digest, s)
  {
  }

  ghost predicate SameIdentities(s: World, t: World) {
    |s.writers| == |t.writers| && forall w | 0 <= w < |s.writers| ::
      t.writers[w].access == s.writers[w].access && t.writers[w].command == s.writers[w].command
  }

  lemma StepKeepsIdentities(digest: Payload -> Str, s: World, e: Event)
    ensures SameIdentities(s, Step(digest, s, e))
  {
    if e.PolicyAnswer? {
      PolicyKeepsIdentities(digest, s, e);
    } else if e.Resume? {
      ResumeKeepsIdentities(digest, s, e);
    } else {
      hide Authorize, IsRecordId, Trim, ProvenanceOf, TrustFor, ClassificationFor, Store.AfterConsume, Store.Seeded;
    }
  }

  lemma PolicyKeepsIdentities(digest: Payload -> Str, s: World, e: Event)
    requires e.PolicyAnswer?
    ensures SameIdentities(s, Step(digest, s, e))
  {
    hide BindingOf, Sanitized, Sealable, WithClearance, AfterSeal, Store.LookedUp;
  }

  lemma ResumeKeepsIdentities(digest: Payload -> Str, s: World, e: Event)
    requires e.Resume?
    ensures SameIdentities(s, Step(digest, s, e))
  {
    hide ValidateApproval, BindingOf, DemandOf, Sanitized, Sealable, WithClearance, AfterSeal, Store.AfterConsume, Store.Consumable;
  }

  lemma {:induction false} RunKeepsIdentities(digest: Payload -> Str, s: World, events: seq<Event>)
    ensures SameIdentities(s, Run(digest, s, events))
    decreases |events|
  {
    if events != [] {
      hide Step;
      StepKeepsIdentities(digest, s, events[0]);
      RunKeepsIdentities(digest, Step(digest, s, events[0]), events[1..]);
    }
  }

  // ---------------------------------------------------------------- where grants come from

  /** The grant was seeded as it stands, or the store itself has marked it consumed since. */
  ghost predicate Known(seeds: set<Grant>, g: Grant) { g in seeds || g.status == CONSUMED }

  ghost predicate Named(seeds: set<Grant>, c: Command, g: Grant) {
    Known(seeds, g) && c.approvalId == Some(g.approvalId)
  }

  ghost predicate StoreTraced(seeds: set<Grant>, store: Store.Contents) {
    forall id | id in store.grants :: Known(seeds, store.grants[id]) && store.grants[id].approvalId == id
  }

  ghost predicate PhaseTraced(seeds: set<Grant>, wr: Writer) {
    match wr.phase
    case AwaitLookup(_, found) => found.Some? ==> Named(seeds, wr.command, found.value)
    case AwaitConsume(_, g, _) => Named(seeds, wr.command, g)
    case _ => true
  }

  ghost predicate EntryTraced(seeds: set<Grant>, s: World, e: Sealed) {
    e.writer < |s.writers| && (e.grant.Some? ==> Named(seeds, s.writers[e.writer].command, e.grant.value))
  }

  ghost predicate Traced(seeds: set<Grant>, s: World) {
    StoreTraced(seeds, s.store)
    && (forall w | 0 <= w < |s.writers| :: PhaseTraced(seeds, s.writers[w]))
    && forall i | 0 <= i < |s.log| :: EntryTraced(seeds, s, s.log[i])
  }

  ghost function SeedsOf(events: seq<Event>): set<Grant> { set k | 0 <= k < |events| && events[k].Seed? :: events[k].grant }

  ghost function SeedOf(e: Event): set<Grant> { if e.Seed? then {e.grant} else {} }

  lemma SeedsSplit(events: seq<Event>)
    requires events != []
    ensures SeedsOf(events) == SeedOf(events[0]) + SeedsOf(events[1..])
  {
    forall g | g in SeedsOf(events) ensures g in SeedOf(events[0]) + SeedsOf(events[1..]) {
      var k :| 0 <= k < |events| && events[k].Seed? && events[k].grant == g;
      if k > 0 { assert events[1..][k - 1] == events[k]; }
    }
    forall g | g in SeedsOf(events[1..]) ensures g in SeedsOf(events) {
      var k :| 0 <= k < |events| - 1 && events[1..][k].Seed? && events[1..][k].grant == g;
      assert events[k + 1] == events[1..][k];
    }
  }

  lemma TracedMove(seeds: set<Grant>, s: World, t: World, w: nat)
    requires Traced(seeds, s) && StoreTraced(seeds, t.store) && |t.writers| == |s.writers| && w < |s.writers|
    requires forall v | 0 <= v < |s.writers| && v != w :: t.writers[v] == s.writers[v]
    requires t.writers[w].command == s.writers[w].command && PhaseTraced(seeds, t.writers[w])
    requires t.log == s.log || (|t.log| == |s.log| + 1 && s.log <= t.log && EntryTraced(seeds, t, t.log[|s.log|]))
    ensures Traced(seeds, t)
  {
    hide Known, StoreTraced;
    forall i | 0 <= i < |s.log| ensures EntryTraced(seeds, t, t.log[i]) { assert EntryTraced(seeds, s, s.log[i]); }
  }

  lemma SeedTraced(seeds: set<Grant>, s: World, g: Grant)
    requires Traced(seeds, s)
    ensures Traced(seeds + {g}, s.(store := Store.Seeded(s.store, g)))
  {
    var t := s.(store := Store.Seeded(s.store, g));
    forall w | 0 <= w < |s.writers| ensures PhaseTraced(seeds + {g}, t.writers[w]) { assert PhaseTraced(seeds, s.writers[w]); }
    forall i | 0 <= i < |s.log| ensures EntryTraced(seeds + {g}, t, t.log[i]) { assert EntryTraced(seeds, s, s.log[i]); }
  }

  lemma ConsumeTraced(seeds: set<Grant>, store: Store.Contents, id: Str, nonce: Str)
    requires StoreTraced(seeds, store)
    ensures StoreTraced(seeds, Store.AfterConsume(store, id, nonce))
  {
  }

  lemma SealTraced(seeds: set<Grant>, s: World, w: nat, prep: Prepared, required: bool, grant: Option<Grant>)
    requires Traced(seeds, s) && w < |s.writers|
    requires grant.Some? ==> Named(seeds, s.writers[w].command, grant.value)
    ensures Traced(seeds, SealAndWrite(s, w, prep, required, grant))
  {
    hide Named, Traced, StoreTraced, BindingOf, Sanitized, Sealable, WithClearance, AfterSeal;
    assert StoreTraced(seeds, s.store) by { TracedStore(seeds, s); }
    TracedMove(seeds, s, SealAndWrite(s, w, prep, required, grant), w);
  }

  lemma TracedStore(seeds: set<Grant>, s: World)
    requires Traced(seeds, s)
    ensures StoreTraced(seeds, s.store)
    ensures forall w | 0 <= w < |s.writers| :: PhaseTraced(seeds, s.writers[w])
  {
  }

  /** Scanner, memory and audit answers touch neither the store nor the log. */
  lemma PlainStepTraced(digest: Payload -> Str, s: World, e: Event, w: nat, seeds: set<Grant>)
    requires Traced(seeds, s) && w < |s.writers|
    requires e.Begin? || e.TextAnswer? || e.MetadataAnswer? || e.MemoryAnswer? || e.AuditAnswer?
    requires w == e.w
    ensures Traced(seeds, Step(digest, s, e))
  {
    TracedStore(seeds, s);
    hide Traced, StoreTraced, Named, Authorize, IsRecordId, Trim, ProvenanceOf, TrustFor, ClassificationFor, WithText, WithMetadata;
    TracedMove(seeds, s, Step(digest, s, e), w);
  }

  lemma PolicyTraced(s: World, e: Event, w: nat, seeds: set<Grant>)
    requires Traced(seeds, s) && w < |s.writers| && e.PolicyAnswer? && e.w == w && s.writers[w].phase.AwaitPolicy?
    ensures Traced(seeds, AfterPolicy(s, e))
  {
    TracedStore(seeds, s);
    hide Traced, Known, StoreTraced, SealAndWrite;
    if e.policy == Some(PolicyAllow) {
      SealTraced(seeds, s, w, s.writers[w].phase.prep, false, None);
    } else {
      if s.writers[w].command.approvalId.Some? { LookupTraced(seeds, s.store, s.writers[w].command.approvalId.value); }
      TracedMove(seeds, s, AfterPolicy(s, e), w);
    }
  }

  lemma ConsumptionTraced(s: World, w: nat, seeds: set<Grant>)
    requires Traced(seeds, s) && w < |s.writers| && s.writers[w].phase.AwaitConsume?
    ensures Traced(seeds, AfterConsumption(s, w))
  {
    TracedStore(seeds, s);
    assert PhaseTraced(seeds, s.writers[w]);
    hide Traced, Known, StoreTraced, SealAndWrite;
    if s.writers[w].phase.consumed {
      SealTraced(seeds, s, w, s.writers[w].phase.prep, true, Some(s.writers[w].phase.grant));
    } else {
      TracedMove(seeds, s, AfterConsumption(s, w), w);
    }
  }

  lemma StepKeepsTraced(digest: Payload -> Str, s: World, e: Event, seeds: set<Grant>)
    requires Traced(seeds, s)
    ensures Traced(seeds + SeedOf(e), Step(digest, s, e))
  {
    TracedStore(seeds, s);
    assert !e.Seed? ==> seeds + SeedOf(e) == seeds;
    hide Traced, StoreTraced, PhaseTraced, AfterBegin, AfterText, AfterMetadata, AfterPolicy, AfterLookup, AfterConsumption;
    match e
    case Seed(g) => SeedTraced(seeds, s, g);
    case OtherConsume(id, nonce) =>
      ConsumeTraced(seeds, s.store, id, nonce);
      StoreTracedOnly(seeds, s, Store.AfterConsume(s.store, id, nonce));
    case PolicyAnswer(w, _) => if w < |s.writers| && s.writers[w].phase.AwaitPolicy? { PolicyTraced(s, e, w, seeds); }
    case Resume(w) =>
      if w < |s.writers| && s.writers[w].phase.AwaitLookup? { AfterLookupTraced(digest, seeds, s, w); }
      else if w < |s.writers| && s.writers[w].phase.AwaitConsume? { ConsumptionTraced(s, w, seeds); }
    case _ => if e.w < |s.writers| { PlainStepTraced(digest, s, e, e.w, seeds); }
  }

  lemma StoreTracedOnly(seeds: set<Grant>, s: World, store: Store.Contents)
    requires Traced(seeds, s) && StoreTraced(seeds, store)
    ensures Traced(seeds, s.(store := store))
  {
    var t := s.(store := store);
    forall i | 0 <= i < |s.log| ensures EntryTraced(seeds, t, t.log[i]) { assert EntryTraced(seeds, s, s.log[i]); }
  }

  lemma LookupTraced(seeds: set<Grant>, store: Store.Contents, id: Str)
    requires StoreTraced(seeds, store)
    ensures var found := Store.LookedUp(store, id);
      found.Some? ==> Known(seeds, found.value) && found.value.approvalId == id
  {
  }

  lemma AfterLookupTraced(digest: Payload -> Str, seeds: set<Grant>, s: World, w: nat)
    requires Traced(seeds, s) && w < |s.writers| && s.writers[w].phase.AwaitLookup?
    ensures Traced(seeds, AfterLookup(digest, s, w))
  {
    TracedStore(seeds, s);
    hide Traced, Known, StoreTraced, DemandOf, Store.AfterConsume, Store.Consumable, Structured, Observable, ScopesEqual,
         ValidateApproval;
    var prep, found := s.writers[w].phase.prep, s.writers[w].phase.found;
    var d := DemandOf(digest, s.writers[w].access, s.writers[w].command, prep.text, prep.entries);
    if found.Some? && ValidateApproval(found, d, prep.now).Valid? {
      ValidationAcceptsExactly(found.value, d, prep.now);
      ConsumeTraced(seeds, s.store, found.value.approvalId, found.value.nonce);
    }
    TracedMove(seeds, s, AfterLookup(digest, s, w), w);
  }

  lemma {:induction false} RunKeepsTraced(digest: Payload -> Str, s: World, events: seq<Event>, seeds: set<Grant>)
    requires Traced(seeds, s)
    ensures Traced(seeds + SeedsOf(events), Run(digest, s, events))
    decreases |events|
  {
    if events == [] {
      assert SeedsOf(events) == {};
    } else {
      hide Step, Traced;
      StepKeepsTraced(digest, s, events[0], seeds);
      RunKeepsTraced(digest, Step(digest, s, events[0]), events[1..], seeds + SeedOf(events[0]));
      SeedsSplit(events);
      assert seeds + SeedOf(events[0]) + SeedsOf(events[1..]) == seeds + SeedsOf(events);
    }
  }

  // ---------------------------------------------------------------- over every run

  /** The state and the log of a run, whatever the interleaving. */
  lemma AfterRun(digest: Payload -> Str, s0: World, events: seq<Event>)
    requires Initial(s0)
    ensures var s := Run(digest, s0, events);
      Inv(digest, s) && SameIdentities(s0, s) && Traced(SeedsOf(events), s)
  {
    hide Inv, Traced;
    InitialInv(digest, s0);
    RunKeepsInv(digest, s0, events);
    RunKeepsIdentities(digest, s0, events);
    assert Traced({}, s0) by { NothingToTrace(s0); }
    RunKeepsTraced(digest, s0, events, {});
    assert {} + SeedsOf(events) == SeedsOf(events);
  }

  lemma NothingToTrace(s0: World)
    requires Initial(s0)
    ensures Traced({}, s0)
  {
  }

  /** No (approvalId, nonce) pair ever backs two memory writes. */
  lemma OneWritePerApproval(digest: Payload -> Str, s0: World, events: seq<Event>, i: nat, j: nat)
    requires Initial(s0) && i < j < |Run(digest, s0, events).log|
    requires var log := Run(digest, s0, events).log; log[i].grant.Some? && log[j].grant.Some?
    ensures var log := Run(digest, s0, events).log;
      (log[i].grant.value.approvalId, log[i].grant.value.nonce) != (log[j].grant.value.approvalId, log[j].grant.value.nonce)
  {
    hide Initial, Run, SealedOk, PhaseOk, Traced;
    AfterRun(digest, s0, events);
  }

  /** The demand of the operation actually written, read off the sealed write and its writer. */
  ghost function WrittenDemand(digest: Payload -> Str, a: Access, e: Sealed, text: Str, entries: map<Str, Str>): Demand {
    var target := MemoryTarget(e.write.namespace, e.write.recordId);
    Demand(a.ownerId, a.actorId, WRITE, target, e.write.namespace, a.scope,
           digest(Payload(text, entries, e.write.namespace, target, e.write.recordId, a.scope)))
  }

  /**
   * A write that needed approval carries one: a grant somebody seeded, under the id its command named, that covers, at the
   * operation's trusted timestamp, exactly the content, metadata, record and scope that were sealed.
   */
  lemma WritesMatchGrants(digest: Payload -> Str, s0: World, events: seq<Event>, i: nat)
    requires Initial(s0) && i < |Run(digest, s0, events).log|
    ensures var s := Run(digest, s0, events);
      var e := s.log[i];
      (e.required <==> e.grant.Some?) && (e.write.approvalId.Some? <==> e.required)
      && (e.required ==>
            var g, wr, texts, entries := e.grant.value, s0.writers, s.registry.texts, s.registry.metadata;
            e.writer < |wr| && e.write.content < |texts| && e.write.metadata < |entries|
            && g in SeedsOf(events) && wr[e.writer].command.approvalId == e.write.approvalId == Some(g.approvalId)
            && Covers(g, WrittenDemand(digest, wr[e.writer].access, e, texts[e.write.content].value, entries[e.write.metadata].entries),
                      e.write.createdAt)
            && e.write.ownerId == g.ownerId)
  {
    var s := Run(digest, s0, events);
    var e := s.log[i];
    assert SealedOk(digest, s, e) && SameIdentities(s0, s) && EntryTraced(SeedsOf(events), s, e) by {
      hide Initial, Run, SealedOk, PhaseOk;
      AfterRun(digest, s0, events);
    }
    hide Run, Initial, Covers, IsRecordId, IsNamespace, Structured, IsEffect, SeedsOf, ProvenanceOf;
    if e.required {
      assert e.grant.value.status == PENDING by { CoveredIsPending(digest, s, e); }
      assert PENDING != CONSUMED by { assert PENDING[0] != CONSUMED[0]; }
    }
  }

  lemma CoveredIsPending(digest: Payload -> Str, s: World, e: Sealed)
    requires SealedOk(digest, s, e) && e.grant.Some?
    ensures e.grant.value.status == PENDING
  {
    hide IsRecordId, IsNamespace, Structured, IsEffect, ProvenanceOf;
  }

  /** A write lands in its writer's active namespace, so it never counts as cross-project access. */
  lemma WritesStayInNamespace(digest: Payload -> Str, s0: World, events: seq<Event>, i: nat)
    requires Initial(s0) && i < |Run(digest, s0, events).log|
    ensures var e := Run(digest, s0, events).log[i];
      e.writer < |s0.writers| && e.write.namespace == s0.writers[e.writer].access.activeNamespace
      && e.write.recordId == s0.writers[e.writer].command.recordId && e.write.ownerId == s0.writers[e.writer].access.ownerId
      && !e.write.provenance.crossProjectAccess && (e.write.provenance.ownerApproved <==> e.required)
  {
    var s := Run(digest, s0, events);
    assert SealedOk(digest, s, s.log[i]) && SameIdentities(s0, s) by {
      hide Initial, Run, SealedOk, PhaseOk;
      AfterRun(digest, s0, events);
    }
    hide Run, Initial, Covers, IsRecordId, IsNamespace, Structured, IsEffect;
  }

  /** Both DIGEST_FAILED exits are dead code. */
  lemma DigestNeverFails(digest: Payload -> Str, s0: World, events: seq<Event>, w: nat)
    requires Initial(s0) && w < |Run(digest, s0, events).writers|
    ensures Run(digest, s0, events).writers[w].phase != Finished(Failed(DIGEST_FAILED))
  {
    var s := Run(digest, s0, events);
    assert PhaseOk(digest, s, s.writers[w]) by {
      hide Initial, Run, SealedOk, PhaseOk;
      AfterRun(digest, s0, events);
    }
    hide Run, Initial, PreparedOk, GrantOk;
  }

  /** Every write used up a clearance of its own, issued for that very write. */
  lemma ClearancesSingleUse(digest: Payload -> Str, s0: World, events: seq<Event>, i: nat, j: nat)
    requires Initial(s0) && i <= j < |Run(digest, s0, events).log|
    ensures var s := Run(digest, s0, events);
      (i < j ==> s.log[i].clearance != s.log[j].clearance)
      && s.log[i].clearance < |s.registry.clearances|
      && s.registry.clearances[s.log[i].clearance] == Clearance(s.log[i].write, true)
  {
    var s := Run(digest, s0, events);
    assert SealedOk(digest, s, s.log[i]) && (i < j ==> s.log[i].clearance != s.log[j].clearance) by {
      hide Initial, Run, SealedOk, PhaseOk;
      AfterRun(digest, s0, events);
    }
    hide Run, Initial, PreparedOk, GrantOk, BindingOf;
  }
}
