/** What the owner's digest pins down: the content that is written is the content that was approved. */
module MemoryWriteApproval {
  import opened JsText
  import opened ApprovalGate
  import opened ApprovalPayload
  import opened MemoryWriteProtocol
  import opened MemoryWriteSafety

  /** computePayloadDigest, with `sha` for SHA-256 in hex. */
  ghost predicate IsDigestOf(digest: Payload -> Str, sha: Bytes -> Str) { forall p :: digest(p) == sha(ApprovedBytes(p)) }

  /** Two different inputs of the hash function with the same hash. */
  predicate Collision(sha: Bytes -> Str, a: Bytes, b: Bytes) { a != b && sha(a) == sha(b) }

  /** Digests agree for the same payload, or because of a collision between two byte strings one can name. */
  lemma EqualDigests(digest: Payload -> Str, sha: Bytes -> Str, p: Payload, q: Payload)
    requires IsDigestOf(digest, sha)
    ensures digest(p) == digest(q) <==> SamePayload(p, q) || Collision(sha, ApprovedBytes(p), ApprovedBytes(q))
  {
    ApprovedBytesIdentify(p, q);
    assert digest(p) == sha(ApprovedBytes(p)) && digest(q) == sha(ApprovedBytes(q));
    hide ApprovedBytes, SamePayload;
  }

  /** The payload of the operation actually written, read off the sealed write and its writer. */
  ghost function WrittenPayload(s0: World, s: World, e: Sealed): Payload
    requires e.writer < |s0.writers|
    requires e.write.content < |s.registry.texts| && e.write.metadata < |s.registry.metadata|
  {
    Payload(s.registry.texts[e.write.content].value, s.registry.metadata[e.write.metadata].entries, e.write.namespace,
            MemoryTarget(e.write.namespace, e.write.recordId), e.write.recordId, s0.writers[e.writer].access.scope)
  }

  /**
   * Whatever payload the owner's digest was computed from is what was written: same content, metadata, namespace, target,
   * record and scope. Otherwise the two payloads are an explicit collision of the hash function.
   */
  lemma ApprovedContentIsWritten(
      digest: Payload -> Str, sha: Bytes -> Str, s0: World, events: seq<Event>, i: nat, p: Payload)
    requires IsDigestOf(digest, sha)
    requires Initial(s0) && i < |Run(digest, s0, events).log|
    requires var e := Run(digest, s0, events).log[i];
      e.grant.Some? && e.grant.value.payloadDigest == digest(p)
    ensures var s := Run(digest, s0, events);
      var e := s.log[i];
      e.writer < |s0.writers| && e.write.content < |s.registry.texts| && e.write.metadata < |s.registry.metadata|
      && var written := WrittenPayload(s0, s, e);
         SamePayload(p, written) || Collision(sha, ApprovedBytes(p), ApprovedBytes(written))
  {
    WritesMatchGrants(digest, s0, events, i);
    hide Run, Initial, SeedsOf, ApprovedBytes, IsDigestOf, SamePayload, Collision;
    var s := Run(digest, s0, events);
    EqualDigests(digest, sha, p, WrittenPayload(s0, s, s.log[i]));
  }
}
