/**
 * executeMemoryWrite run by any number of writers at once. Each step is the code between two awaits;
 * scanner, policy, memory and audit answers, the clock and other users of the store are free inputs.
 */
module MemoryWriteProtocol {
  import opened JsText
  import opened JsSplit
  import opened ApprovalGate
  import opened MemoryAccess
  import opened Sealing
  import opened Options
  import Store = ApprovalStore

  const MAX_CONTENT_LENGTH: int := 65536

  datatype Failure =
    | INVALID_OPERATION_CONTEXT | INVALID_IDENTITY | INVALID_CONTENT | SCANNER_UNAVAILABLE | SCAN_DENIED
    | SECRET_CLASS_DENIED | AUTHORIZATION_DENIED(reason: Denial) | POLICY_UNAVAILABLE | POLICY_DENIED
    | APPROVAL_REQUIRED | APPROVAL_UNAVAILABLE | APPROVAL_INVALID(code: Refusal) | CONSUMPTION_FAILED
    | MEMORY_UNAVAILABLE | AUDIT_FAILED | DIGEST_FAILED

  datatype Outcome = Written(approvalId: Option<Str>) | Failed(failure: Failure) | Threw

  datatype Command = Command(
    recordId: Str, targetNamespace: Str, source: Source, retention: Retention, approvalId: Option<Str>)

  datatype ScanVerdict = Clean | Redacted | Secret
  datatype TextScan = TextScan(verdict: ScanVerdict, redacted: Str)
  /** `entries` is None when the port returns something that is no plain record of strings. */
  datatype MetadataScan = MetadataScan(verdict: ScanVerdict, entries: Option<map<Str, Str>>)
  datatype Policy = PolicyAllow | PolicyDeny | PolicyApprovalRequired

  /** The operation once scanned, sealed and authorized. */
  datatype Prepared = Prepared(
    now: int, text: Str, entries: map<Str, Str>, content: nat, metadata: nat, privacy: Privacy, trust: Trust,
    provenance: Provenance)

  datatype Phase =
    | Idle
    | AwaitText(now: int)
    | AwaitMetadata(now: int, scan: TextScan)
    | AwaitPolicy(prep: Prepared)
    | AwaitLookup(prep: Prepared, found: Option<Grant>)
    | AwaitConsume(prep: Prepared, grant: Grant, consumed: bool)
    | AwaitMemory(approvalId: Option<Str>)
    | AwaitAudit(approvalId: Option<Str>)
    | Finished(outcome: Outcome)

  datatype Writer = Writer(access: Access, command: Command, phase: Phase)

  /** One call of memory.write: what was written, under which clearance, and on which grant. */
  datatype Sealed = Sealed(
    writer: nat, write: Binding, clearance: nat, prep: Prepared, required: bool, grant: Option<Grant>)

  datatype World = World(store: Store.Contents, registry: Registry, writers: seq<Writer>, log: seq<Sealed>)

  datatype Event =
    | Seed(grant: Grant)
    | OtherConsume(approvalId: Str, nonce: Str)
    | Begin(w: nat, now: int, live: bool, normalized: Str, secretFree: bool)
    | TextAnswer(w: nat, text: Option<TextScan>)
    | MetadataAnswer(w: nat, meta: Option<MetadataScan>, live: bool)
    | PolicyAnswer(w: nat, policy: Option<Policy>)
    | Resume(w: nat)
    | MemoryAnswer(w: nat, ok: bool)
    | AuditAnswer(w: nat, ok: bool)

  // ---------------------------------------------------------------- pure helpers of the service

  function TrustFor(s: Source): Trust {
    if s.kind == Owner then OwnerStated else if s.kind == Monitor then SystemDerived else UntrustedSummary
  }

  function ClassificationFor(namespace: Str, s: Source): Privacy {
    if namespace == RESTRICTED then PrivateSecurity
    else if s.kind == Owner then PrivateOwner
    else if namespace == Ascii("shared-public") then PublicData
    else BusinessData
  }

  function SafeDecision(v: ScanVerdict): Decision { if v == Redacted then Redact else Allow }

  /** deriveMemoryWriteApprovalDemand; `digest` stands for computePayloadDigest. */
  ghost function DemandOf(digest: Payload -> Str, a: Access, c: Command, text: Str, entries: map<Str, Str>): Demand {
    var target := MemoryTarget(c.targetNamespace, c.recordId);
    var payload := Payload(text, entries, c.targetNamespace, target, c.recordId, a.scope);
    Demand(a.ownerId, a.actorId, WRITE, target, c.targetNamespace, a.scope, digest(payload))
  }

  // ---------------------------------------------------------------- steps

  function At(s: World, w: nat, phase: Phase): World
    requires w < |s.writers|
  {
    s.(writers := s.writers[w := s.writers[w].(phase := phase)])
  }

  function Fail(s: World, w: nat, f: Failure): World
    requires w < |s.writers|
  {
    At(s, w, Finished(Failed(f)))
  }

  function AfterBegin(s: World, e: Event): World
    requires e.Begin? && e.w < |s.writers|
  {
    var wr := s.writers[e.w];
    if !wr.access.authenticated || !e.live then Fail(s, e.w, Failure.INVALID_OPERATION_CONTEXT)
    else if !IsRecordId(wr.command.recordId) then Fail(s, e.w, INVALID_IDENTITY)
    else if Trim(e.normalized) == [] || |e.normalized| > MAX_CONTENT_LENGTH then Fail(s, e.w, INVALID_CONTENT)
    else if !e.secretFree then Fail(s, e.w, SECRET_CLASS_DENIED)
    else At(s, e.w, AwaitText(e.now))
  }

  function AfterText(s: World, e: Event): World
    requires e.TextAnswer? && e.w < |s.writers| && s.writers[e.w].phase.AwaitText?
  {
    if e.text.None? then Fail(s, e.w, SCANNER_UNAVAILABLE)
    else At(s, e.w, AwaitMetadata(s.writers[e.w].phase.now, e.text.value))
  }

  function ProvenanceOf(a: Access, c: Command, now: int): Provenance {
    Provenance(now, a.ownerId,
               if TrustFor(c.source) == OwnerStated then OwnerStatedText else UntrustedSourceSummary,
               false, c.targetNamespace != a.activeNamespace)
  }

  function AfterMetadata(s: World, e: Event): World
    requires e.MetadataAnswer? && e.w < |s.writers| && s.writers[e.w].phase.AwaitMetadata?
  {
    var wr := s.writers[e.w];
    var scan := wr.phase.scan;
    if e.meta.None? then Fail(s, e.w, SCANNER_UNAVAILABLE)
    else if scan.verdict == Secret || e.meta.value.verdict == Secret then Fail(s, e.w, SCAN_DENIED)
    else if e.meta.value.entries.None? then
      At(s.(registry := WithText(s.registry, Sealing.Text(scan.redacted, SafeDecision(scan.verdict)))), e.w, Finished(Threw))
    else
      var entries := e.meta.value.entries.value;
      var r1 := WithText(s.registry, Sealing.Text(scan.redacted, SafeDecision(scan.verdict)));
      var r2 := WithMetadata(r1, Metadata(entries, SafeDecision(e.meta.value.verdict)));
      var sealed := s.(registry := r2);
      var verdict := Authorize(wr.access, e.live, WriteOp, wr.access.ownerId, wr.command.targetNamespace);
      if verdict.Denied? then Fail(sealed, e.w, AUTHORIZATION_DENIED(verdict.code))
      else At(sealed, e.w, AwaitPolicy(Prepared(
        wr.phase.now, scan.redacted, entries, |s.registry.texts|, |s.registry.metadata|,
        ClassificationFor(wr.command.targetNamespace, wr.command.source), TrustFor(wr.command.source),
        ProvenanceOf(wr.access, wr.command, wr.phase.now))))
  }

  function BindingOf(a: Access, c: Command, prep: Prepared, approvalId: Option<Str>): Binding {
    Binding(c.recordId, a.ownerId, c.targetNamespace, prep.content, prep.metadata,
            c.source, prep.provenance.(ownerApproved := approvalId.Some?), prep.privacy, prep.trust,
            c.retention, approvalId, prep.now, prep.now)
  }

  /** Clearance, seal and the call of memory.write, with no await in between. */
  function SealAndWrite(s: World, w: nat, prep: Prepared, required: bool, grant: Option<Grant>): World
    requires w < |s.writers|
  {
    var approvalId := if grant.Some? then Some(grant.value.approvalId) else None;
    var write := BindingOf(s.writers[w].access, s.writers[w].command, prep, approvalId);
    var clearance := |s.registry.clearances|;
    if !Sanitized(s.registry, write) then Fail(s, w, DIGEST_FAILED) else
    var issued := s.(registry := WithClearance(s.registry, write));
    if !Sealable(issued.registry, write, clearance) then Fail(issued, w, DIGEST_FAILED) else
    At(issued.(registry := AfterSeal(issued.registry, write, clearance),
               log := s.log + [Sealed(w, write, clearance, prep, required, grant)]),
       w, AwaitMemory(approvalId))
  }

  function AfterPolicy(s: World, e: Event): World
    requires e.PolicyAnswer? && e.w < |s.writers| && s.writers[e.w].phase.AwaitPolicy?
  {
    var wr := s.writers[e.w];
    var prep := wr.phase.prep;
    if e.policy.None? then Fail(s, e.w, POLICY_UNAVAILABLE)
    else if e.policy.value == PolicyDeny then Fail(s, e.w, POLICY_DENIED)
    else if e.policy.value == PolicyAllow then SealAndWrite(s, e.w, prep, false, None)
    else if wr.command.approvalId.None? then Fail(s, e.w, APPROVAL_REQUIRED)
    else At(s, e.w, AwaitLookup(prep, Store.LookedUp(s.store, wr.command.approvalId.value)))
  }

  ghost function AfterLookup(digest: Payload -> Str, s: World, w: nat): World
    requires w < |s.writers| && s.writers[w].phase.AwaitLookup?
  {
    var wr := s.writers[w];
    var prep, found := wr.phase.prep, wr.phase.found;
    if found.None? then Fail(s, w, APPROVAL_UNAVAILABLE) else
    var validation := ValidateApproval(found, DemandOf(digest, wr.access, wr.command, prep.text, prep.entries), prep.now);
    if validation.Refused? then Fail(s, w, APPROVAL_INVALID(validation.code)) else
    var id, nonce := validation.approval.approvalId, validation.approval.nonce;
    At(s.(store := Store.AfterConsume(s.store, id, nonce)), w,
       AwaitConsume(prep, found.value, Store.Consumable(s.store, id, nonce)))
  }

  function AfterConsumption(s: World, w: nat): World
    requires w < |s.writers| && s.writers[w].phase.AwaitConsume?
  {
    var phase := s.writers[w].phase;
    if !phase.consumed then Fail(s, w, CONSUMPTION_FAILED)
    else SealAndWrite(s, w, phase.prep, true, Some(phase.grant))
  }

  /** One step of the whole system; an event that is not enabled changes nothing. */
  ghost function Step(digest: Payload -> Str, s: World, e: Event): World {
    match e
    case Seed(g) => s.(store := Store.Seeded(s.store, g))
    case OtherConsume(id, nonce) => s.(store := Store.AfterConsume(s.store, id, nonce))
    case Begin(w, _, _, _, _) => if w < |s.writers| && s.writers[w].phase.Idle? then AfterBegin(s, e) else s
    case TextAnswer(w, _) => if w < |s.writers| && s.writers[w].phase.AwaitText? then AfterText(s, e) else s
    case MetadataAnswer(w, _, _) => if w < |s.writers| && s.writers[w].phase.AwaitMetadata? then AfterMetadata(s, e) else s
    case PolicyAnswer(w, _) => if w < |s.writers| && s.writers[w].phase.AwaitPolicy? then AfterPolicy(s, e) else s
    case Resume(w) =>
      if w < |s.writers| && s.writers[w].phase.AwaitLookup? then AfterLookup(digest, s, w)
      else if w < |s.writers| && s.writers[w].phase.AwaitConsume? then AfterConsumption(s, w)
      else s
    case MemoryAnswer(w, ok) =>
      if w < |s.writers| && s.writers[w].phase.AwaitMemory? then
        if ok then At(s, w, AwaitAudit(s.writers[w].phase.approvalId)) else Fail(s, w, MEMORY_UNAVAILABLE)
      else s
    case AuditAnswer(w, ok) =>
      if w < |s.writers| && s.writers[w].phase.AwaitAudit? then
        if ok then At(s, w, Finished(Written(s.writers[w].phase.approvalId))) else Fail(s, w, AUDIT_FAILED)
      else s
  }

  ghost function Run(digest: Payload -> Str, s: World, events: seq<Event>): World
    decreases |events|
  {
    if events == [] then s else Run(digest, Step(digest, s, events[0]), events[1..])
  }

  /** Any writers, about to start, over an empty store. */
  ghost predicate Initial(s: World) {
    s.store == Store.Contents(map[], {}) && s.registry == Registry([], [], []) && s.log == []
    && forall w | 0 <= w < |s.writers| :: s.writers[w].phase.Idle?
  }
}
