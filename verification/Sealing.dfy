/** Seals on scanned content, and the single-use clearance every memory write must spend. */
module Sealing {
  import opened JsText
  import opened Options

  datatype Decision = Allow | Redact
  datatype SourceKind = Owner | Crm | Website | Document | Transcript | Video | ExternalChat | Monitor
  datatype Source = Source(kind: SourceKind, reference: Str, observedAt: int)
  datatype Retention = Retention(expiresAt: int, reviewAt: int)
  datatype Trust = OwnerStated | SystemDerived | UntrustedSummary
  datatype Privacy = PrivateSecurity | PrivateOwner | PublicData | BusinessData
  datatype Transformation = OwnerStatedText | UntrustedSourceSummary
  datatype Provenance = Provenance(
    capturedAt: int, initiatedBy: Str, transformation: Transformation, ownerApproved: bool, crossProjectAccess: bool)

  /** Sealed text and metadata are compared by identity, so the binding holds their registry handles. */
  datatype Binding = Binding(
    recordId: Str, ownerId: Str, namespace: Str, content: nat, metadata: nat, source: Source, provenance: Provenance,
    privacy: Privacy, trust: Trust, retention: Retention, approvalId: Option<Str>, createdAt: int, updatedAt: int)

  predicate SourcesEqual(a: Source, b: Source) {
    a.kind == b.kind && a.reference == b.reference && a.observedAt == b.observedAt
  }

  predicate ProvenancesEqual(a: Provenance, b: Provenance) {
    a.capturedAt == b.capturedAt && a.initiatedBy == b.initiatedBy && a.transformation == b.transformation
    && a.ownerApproved == b.ownerApproved && a.crossProjectAccess == b.crossProjectAccess
  }

  predicate RetentionsEqual(a: Retention, b: Retention) { a.expiresAt == b.expiresAt && a.reviewAt == b.reviewAt }

  predicate BindingsMatch(binding: Binding, write: Binding) {
    binding.content == write.content && binding.metadata == write.metadata && binding.recordId == write.recordId
    && binding.ownerId == write.ownerId && binding.namespace == write.namespace && binding.privacy == write.privacy
    && binding.trust == write.trust && binding.approvalId == write.approvalId && binding.createdAt == write.createdAt
    && binding.updatedAt == write.updatedAt && SourcesEqual(binding.source, write.source)
    && ProvenancesEqual(binding.provenance, write.provenance) && RetentionsEqual(binding.retention, write.retention)
  }

  datatype Text = Text(value: Str, decision: Decision)
  datatype Metadata = Metadata(entries: map<Str, Str>, decision: Decision)
  datatype Clearance = Clearance(binding: Binding, consumed: bool)

  /** The module's registries; an object's handle is the position at which it was registered. */
  datatype Registry = Registry(texts: seq<Text>, metadata: seq<Metadata>, clearances: seq<Clearance>)

  predicate Sanitized(r: Registry, b: Binding) { b.content < |r.texts| && b.metadata < |r.metadata| }

  function WithText(r: Registry, t: Text): Registry { r.(texts := r.texts + [t]) }
  function WithMetadata(r: Registry, m: Metadata): Registry { r.(metadata := r.metadata + [m]) }

  function WithClearance(r: Registry, b: Binding): Registry {
    if Sanitized(r, b) then r.(clearances := r.clearances + [Clearance(b, false)]) else r
  }

  /** sealVerifiedMemoryWrite returns a write rather than null. */
  predicate Sealable(r: Registry, write: Binding, clearance: nat) {
    clearance < |r.clearances| && !r.clearances[clearance].consumed && Sanitized(r, write)
    && BindingsMatch(r.clearances[clearance].binding, write)
  }

  function AfterSeal(r: Registry, write: Binding, clearance: nat): Registry {
    if Sealable(r, write, clearance)
    then r.(clearances := r.clearances[clearance := r.clearances[clearance].(consumed := true)])
    else r
  }

  class SealRegistry {
    var texts: seq<Text>
    var metadata: seq<Metadata>
    var clearances: seq<Clearance>

    ghost function State(): Registry reads this { Registry(texts, metadata, clearances) }

    constructor ()
      ensures State() == Registry([], [], [])
    {
      texts, metadata, clearances := [], [], [];
    }

    method SealSanitizedText(t: Text) returns (handle: nat)
      modifies this
      ensures handle == |old(texts)| && State() == WithText(old(State()), t)
    {
      handle := |texts|;
      texts := texts + [t];
    }

    method SealSanitizedMetadata(m: Metadata) returns (handle: nat)
      modifies this
      ensures handle == |old(metadata)| && State() == WithMetadata(old(State()), m)
    {
      handle := |metadata|;
      metadata := metadata + [m];
    }

    method IssueClearance(b: Binding) returns (clearance: Option<nat>)
      modifies this
      ensures State() == WithClearance(old(State()), b)
      ensures clearance == if Sanitized(old(State()), b) then Some(|old(clearances)|) else None
    {
      if b.content >= |texts| || b.metadata >= |metadata| { return None; }
      clearances := clearances + [Clearance(b, false)];
      return Some(|clearances| - 1);
    }

    method SealVerifiedWrite(write: Binding, clearance: nat) returns (ok: bool)
      modifies this
      ensures ok == Sealable(old(State()), write, clearance)
      ensures State() == AfterSeal(old(State()), write, clearance)
    {
      if clearance >= |clearances| { return false; }
      var state := clearances[clearance];
      if state.consumed { return false; }
      if write.content >= |texts| || write.metadata >= |metadata| { return false; }
      if !BindingsMatch(state.binding, write) { return false; }
      clearances := clearances[clearance := state.(consumed := true)];
      return true;
    }
  }

  // ---------------------------------------------------------------- what a clearance is worth

  datatype Call =
    | TextCall(text: Text)
    | MetadataCall(meta: Metadata)
    | IssueCall(binding: Binding)
    | SealCall(write: Binding, clearance: nat)

  function AfterCall(r: Registry, call: Call): Registry {
    match call
    case TextCall(t) => WithText(r, t)
    case MetadataCall(m) => WithMetadata(r, m)
    case IssueCall(b) => WithClearance(r, b)
    case SealCall(w, c) => AfterSeal(r, w, c)
  }

  function AfterCalls(r: Registry, calls: seq<Call>): Registry
    decreases |calls|
  {
    if calls == [] then r else AfterCalls(AfterCall(r, calls[0]), calls[1..])
  }

  /** Registered bindings never change and spent clearances stay spent. */
  ghost predicate Extends(r: Registry, s: Registry) {
    r.texts <= s.texts && r.metadata <= s.metadata && |r.clearances| <= |s.clearances|
    && forall c | 0 <= c < |r.clearances| ::
         s.clearances[c].binding == r.clearances[c].binding && (r.clearances[c].consumed ==> s.clearances[c].consumed)
  }

  lemma CallExtends(r: Registry, call: Call)
    ensures Extends(r, AfterCall(r, call))
  {
    hide BindingsMatch;
  }

  lemma {:induction false} CallsExtend(r: Registry, calls: seq<Call>)
    ensures Extends(r, AfterCalls(r, calls))
    decreases |calls|
  {
    if calls != [] {
      hide AfterCall;
      CallExtends(r, calls[0]);
      CallsExtend(AfterCall(r, calls[0]), calls[1..]);
    }
  }

  /** A clearance seals only the exact write it was issued for. */
  lemma SealsOnlyItsBinding(r: Registry, write: Binding, clearance: nat)
    requires Sealable(r, write, clearance)
    ensures write == r.clearances[clearance].binding
  {
    var b := r.clearances[clearance].binding;
    assert b.source == write.source && b.provenance == write.provenance && b.retention == write.retention;
  }

  /** Once spent, a clearance seals nothing again, whatever happens in between. */
  lemma ClearanceSealsOnce(r: Registry, write: Binding, clearance: nat, between: seq<Call>, again: Binding)
    requires Sealable(r, write, clearance)
    ensures !Sealable(AfterCalls(AfterSeal(r, write, clearance), between), again, clearance)
  {
    hide BindingsMatch;
    CallsExtend(AfterSeal(r, write, clearance), between);
  }

  /** A fresh clearance always seals the write it was issued for. */
  lemma FreshClearanceSeals(r: Registry, b: Binding)
    requires Sanitized(r, b)
    ensures Sealable(WithClearance(r, b), b, |r.clearances|)
  {
  }
}
