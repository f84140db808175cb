/** The payload an owner approves for a memory write, and what its canonical text pins down. */
module ApprovalPayload {
  import opened JsText
  import opened PayloadDigest
  import opened PayloadDigestLaws
  import opened PayloadBytes
  import Gate = ApprovalGate

  type Payload = Gate.Payload

  const EFFECT: Str := Ascii("effect")
  const CONTENT: Str := Ascii("content")
  const METADATA: Str := Ascii("metadata")
  const NAMESPACE: Str := Ascii("namespace")
  const TARGET: Str := Ascii("target")
  const RECORD_ID: Str := Ascii("recordId")
  const PROJECT_SCOPE: Str := Ascii("projectScope")
  const PRIMARY: Str := Ascii("primary")
  const PERMITTED: Str := Ascii("permitted")
  const CROSS: Str := Ascii("crossProjectPermitted")

  /** Some enumeration of a record's keys; the text does not depend on which. */
  ghost function Enumeration(keys: set<Str>): (s: seq<Str>)
    ensures (forall k :: k in s <==> k in keys) && forall i, j | 0 <= i < j < |s| :: s[i] != s[j]
  {
    if keys == {} then [] else
    var k :| k in keys;
    var rest := Enumeration(keys - {k});
    [k] + rest
  }

  ghost function Record(props: map<Str, Value>): Object { Rec(Enumeration(props.Keys), props) }

  ghost function RootProps(p: Payload): map<Str, Value> {
    map[EFFECT := Text(Gate.WRITE), CONTENT := Text(p.content), METADATA := Ref(1), NAMESPACE := Text(p.namespace),
        TARGET := Text(p.target), RECORD_ID := Text(p.recordId), PROJECT_SCOPE := Ref(2)]
  }

  ghost function MetadataProps(p: Payload): map<Str, Value> { map k | k in p.metadata :: Text(p.metadata[k]) }

  ghost function ScopeProps(p: Payload): map<Str, Value> {
    map[PRIMARY := Text(p.scope.primary), PERMITTED := Ref(3), CROSS := Bool(p.scope.crossProjectPermitted)]
  }

  function PermittedSlots(permitted: seq<Str>): seq<Slot> {
    seq(|permitted|, i requires 0 <= i < |permitted| => Item(Text(permitted[i])))
  }

  /** The object literal deriveMemoryWriteApprovalDemand hashes; the permitted list is sorted first. */
  ghost function PayloadHeap(p: Payload): Heap {
    map[0 := Record(RootProps(p)), 1 := Record(MetadataProps(p)), 2 := Record(ScopeProps(p)),
        3 := Arr(PermittedSlots(Sort(p.scope.permitted)))]
  }

  lemma HeapClosed(p: Payload)
    ensures Closed(PayloadHeap(p))
  {
    hide Enumeration, RootProps, ScopeProps;
    var h := PayloadHeap(p);
    assert KnownProps(h, RootProps(p)) by { RootPropsKnown(p, h); }
    assert KnownProps(h, ScopeProps(p)) by { ScopePropsKnown(p, h); }
  }

  lemma RootPropsKnown(p: Payload, h: Heap)
    requires 1 in h && 2 in h
    ensures KnownProps(h, RootProps(p))
  {
  }

  lemma ScopePropsKnown(p: Payload, h: Heap)
    requires 3 in h
    ensures KnownProps(h, ScopeProps(p))
  {
  }

  lemma KeysDiffer()
    ensures EFFECT != CONTENT && EFFECT != METADATA && EFFECT != NAMESPACE && EFFECT != TARGET
    ensures EFFECT != RECORD_ID && EFFECT != PROJECT_SCOPE && CONTENT != METADATA && CONTENT != NAMESPACE
    ensures CONTENT != TARGET && CONTENT != RECORD_ID && CONTENT != PROJECT_SCOPE && METADATA != NAMESPACE
    ensures METADATA != TARGET && METADATA != RECORD_ID && METADATA != PROJECT_SCOPE && NAMESPACE != TARGET
    ensures NAMESPACE != RECORD_ID && NAMESPACE != PROJECT_SCOPE && TARGET != RECORD_ID && TARGET != PROJECT_SCOPE
    ensures RECORD_ID != PROJECT_SCOPE && PRIMARY != PERMITTED && PRIMARY != CROSS && PERMITTED != CROSS
  {
    assert EFFECT[0] != TARGET[0] && METADATA[0] != RECORD_ID[0] && PERMITTED[0] == PRIMARY[0];
  }

  lemma RootLookup(p: Payload)
    ensures var props := RootProps(p);
      props.Keys == {EFFECT, CONTENT, METADATA, NAMESPACE, TARGET, RECORD_ID, PROJECT_SCOPE}
      && props[CONTENT] == Text(p.content) && props[METADATA] == Ref(1) && props[NAMESPACE] == Text(p.namespace)
      && props[TARGET] == Text(p.target) && props[RECORD_ID] == Text(p.recordId) && props[PROJECT_SCOPE] == Ref(2)
      && forall k | k in props :: props[k].Text? || props[k] == Ref(1) || props[k] == Ref(2)
  {
    KeysDiffer();
  }

  lemma ScopeLookup(p: Payload)
    ensures var props := ScopeProps(p);
      props.Keys == {PRIMARY, PERMITTED, CROSS} && props[PRIMARY] == Text(p.scope.primary)
      && props[PERMITTED] == Ref(3) && props[CROSS] == Bool(p.scope.crossProjectPermitted)
  {
    KeysDiffer();
  }

  lemma TextFits(h: Heap, s: Str, n: int)
    requires Closed(h) && n >= 0
    ensures Fits(h, Text(s), n) && Denote(h, Text(s), n) == JText(s)
  {
  }

  /** A record all of whose values fit one level further down fits. */
  lemma RecordFits(h: Heap, id: nat, n: int)
    requires Closed(h) && id in h && h[id].Rec? && n >= 1
    requires forall k | k in h[id].props :: Known(h, h[id].props[k]) && Fits(h, h[id].props[k], n - 1)
    ensures Fits(h, Ref(id), n)
  {
  }

  lemma HeapShape(p: Payload)
    ensures var h := PayloadHeap(p);
      h.Keys == {0, 1, 2, 3} && Closed(h) && h[0].Rec? && h[0].props == RootProps(p)
      && h[1].Rec? && h[1].props == MetadataProps(p) && h[2].Rec? && h[2].props == ScopeProps(p)
      && h[3] == Arr(PermittedSlots(Sort(p.scope.permitted)))
  {
    hide Closed, RootProps, ScopeProps, MetadataProps, Enumeration, Sort;
    HeapClosed(p);
  }

  /** A record of texts reads as the map of those texts. */
  lemma TextRecordFits(h: Heap, id: nat, m: map<Str, Str>, n: int)
    requires Closed(h) && id in h && h[id].Rec? && n >= 1
    requires h[id].props.Keys == m.Keys && forall k | k in m :: h[id].props[k] == Text(m[k])
    ensures Fits(h, Ref(id), n)
    ensures Denote(h, Ref(id), n) == JRecord(map k | k in m :: JText(m[k]))
  {
    hide Fits, Denote, Closed;
    forall k | k in m ensures Fits(h, Text(m[k]), n - 1) && Denote(h, Text(m[k]), n - 1) == JText(m[k]) {
      TextFits(h, m[k], n - 1);
    }
    RecordFits(h, id, n);
    DenoteRecord(h, id, n);
    assert Denote(h, Ref(id), n).fields == map k | k in m :: JText(m[k]);
  }

  lemma MetadataFits(p: Payload, n: int)
    requires n >= 1
    ensures Closed(PayloadHeap(p)) && Fits(PayloadHeap(p), Ref(1), n)
    ensures Denote(PayloadHeap(p), Ref(1), n) == JRecord(map k | k in p.metadata :: JText(p.metadata[k]))
  {
    hide Fits, Denote, Closed, PayloadHeap, RootProps, ScopeProps;
    HeapShape(p);
    TextRecordFits(PayloadHeap(p), 1, p.metadata, n);
  }

  ghost function Texts(s: seq<Str>): seq<Json> { seq(|s|, i requires 0 <= i < |s| => JText(s[i])) }

  lemma PermittedFits(p: Payload, n: int)
    requires n >= 1
    ensures Closed(PayloadHeap(p)) && Fits(PayloadHeap(p), Ref(3), n)
    ensures Denote(PayloadHeap(p), Ref(3), n) == JList(Texts(Sort(p.scope.permitted)))
  {
    hide Closed, PayloadHeap, RootProps, ScopeProps, MetadataProps, Sort;
    var h, permitted := PayloadHeap(p), Sort(p.scope.permitted);
    var slots := PermittedSlots(permitted);
    HeapShape(p);
    forall i | 0 <= i < |slots| ensures Fits(h, slots[i].v, n - 1) && SlotJson(h, slots[i], n - 1) == JText(permitted[i]) {
      TextFits(h, permitted[i], n - 1);
    }
    assert seq(|slots|, i requires 0 <= i < |slots| => SlotJson(h, slots[i], n - 1)) == Texts(permitted);
    assert Texts(permitted) != [JHole] by {
      if |permitted| == 1 { assert Texts(permitted)[0] == JText(permitted[0]); }
    }
  }

  ghost predicate ScopeData(s: Gate.Scope, j: Json) {
    j.JRecord? && {PRIMARY, PERMITTED, CROSS} <= j.fields.Keys
    && j.fields[PRIMARY] == JText(s.primary) && j.fields[CROSS] == JBool(s.crossProjectPermitted)
    && j.fields[PERMITTED] == JList(Texts(Sort(s.permitted)))
  }

  lemma ScopeFits(p: Payload, n: int)
    requires n >= 2
    ensures Closed(PayloadHeap(p)) && Fits(PayloadHeap(p), Ref(2), n)
    ensures ScopeData(p.scope, Denote(PayloadHeap(p), Ref(2), n))
  {
    hide Fits, Denote, Closed, PayloadHeap, RootProps, ScopeProps, Sort, Texts, MetadataProps;
    var h := PayloadHeap(p);
    HeapShape(p);
    ScopeLookup(p);
    TextFits(h, p.scope.primary, n - 1);
    BoolFits(h, p.scope.crossProjectPermitted, n - 1);
    PermittedFits(p, n - 1);
    RecordFits(h, 2, n);
    DenoteField(h, 2, n, PRIMARY);
    DenoteField(h, 2, n, PERMITTED);
    DenoteField(h, 2, n, CROSS);
  }

  lemma BoolFits(h: Heap, b: bool, n: int)
    requires Closed(h) && n >= 0
    ensures Fits(h, Bool(b), n) && Denote(h, Bool(b), n) == JBool(b)
  {
  }

  ghost predicate RootData(p: Payload, j: Json) {
    j.JRecord? && {CONTENT, METADATA, NAMESPACE, TARGET, RECORD_ID, PROJECT_SCOPE} <= j.fields.Keys
    && j.fields[CONTENT] == JText(p.content) && j.fields[NAMESPACE] == JText(p.namespace)
    && j.fields[TARGET] == JText(p.target) && j.fields[RECORD_ID] == JText(p.recordId)
    && j.fields[METADATA] == JRecord(map k | k in p.metadata :: JText(p.metadata[k]))
    && ScopeData(p.scope, j.fields[PROJECT_SCOPE])
  }

  lemma PayloadFits(p: Payload, n: int)
    requires n >= 3
    ensures Closed(PayloadHeap(p)) && Fits(PayloadHeap(p), Ref(0), n)
    ensures RootData(p, Denote(PayloadHeap(p), Ref(0), n))
  {
    hide Fits, Denote, Closed, PayloadHeap, RootProps, ScopeProps, Sort, MetadataProps, ScopeData;
    var h := PayloadHeap(p);
    HeapShape(p);
    RootLookup(p);
    MetadataFits(p, n - 1);
    ScopeFits(p, n - 1);
    forall k | k in RootProps(p) ensures Known(h, RootProps(p)[k]) && Fits(h, RootProps(p)[k], n - 1) {
      RootValueFits(p, k, n - 1);
    }
    RecordFits(h, 0, n);
    DenoteField(h, 0, n, CONTENT);
    DenoteField(h, 0, n, METADATA);
    DenoteField(h, 0, n, NAMESPACE);
    DenoteField(h, 0, n, TARGET);
    DenoteField(h, 0, n, RECORD_ID);
    DenoteField(h, 0, n, PROJECT_SCOPE);
    TextFits(h, p.content, n - 1);
    TextFits(h, p.namespace, n - 1);
    TextFits(h, p.target, n - 1);
    TextFits(h, p.recordId, n - 1);
  }

  lemma RootValueFits(p: Payload, k: Str, n: int)
    requires n >= 2 && k in RootProps(p)
    ensures Closed(PayloadHeap(p)) && Known(PayloadHeap(p), RootProps(p)[k])
    ensures Fits(PayloadHeap(p), RootProps(p)[k], n)
  {
    hide Fits, Denote, Closed, PayloadHeap, RootProps, ScopeProps, Sort, MetadataProps, ScopeData;
    HeapShape(p);
    RootLookup(p);
    MetadataFits(p, n);
    ScopeFits(p, n);
    if RootProps(p)[k].Text? { TextFits(PayloadHeap(p), RootProps(p)[k].s, n); }
  }

  lemma PayloadAnswers(p: Payload)
    ensures Closed(PayloadHeap(p)) && PayloadText(PayloadHeap(p), Ref(0)).Ok?
    ensures Fits(PayloadHeap(p), Ref(0), MAX_PAYLOAD_DEPTH)
    ensures RootData(p, Denote(PayloadHeap(p), Ref(0), MAX_PAYLOAD_DEPTH))
  {
    hide Fits, Denote, Canonical, PayloadHeap, Closed, RootData;
    HeapShape(p);
    PayloadFits(p, MAX_PAYLOAD_DEPTH);
    PayloadTextAnswers(PayloadHeap(p), Ref(0));
  }

  /** The text hashed into the approval demand; the encoder accepts every such payload. */
  ghost function ApprovedText(p: Payload): Str {
    PayloadAnswers(p);
    PayloadText(PayloadHeap(p), Ref(0)).text
  }

  ghost predicate SamePayload(p: Payload, q: Payload) {
    p.content == q.content && p.metadata == q.metadata && p.namespace == q.namespace && p.target == q.target
    && p.recordId == q.recordId && p.scope.primary == q.scope.primary
    && p.scope.crossProjectPermitted == q.scope.crossProjectPermitted
    && multiset(p.scope.permitted) == multiset(q.scope.permitted)
  }

  lemma RootDataDetermines(p: Payload, q: Payload, j: Json)
    requires RootData(p, j) && RootData(q, j)
    ensures SamePayload(p, q)
  {
    hide Sort;
    var m := map k | k in p.metadata :: JText(p.metadata[k]);
    var n := map k | k in q.metadata :: JText(q.metadata[k]);
    assert m == n && m.Keys == p.metadata.Keys && n.Keys == q.metadata.Keys;
    forall k | k in p.metadata ensures p.metadata[k] == q.metadata[k] { assert m[k] == n[k]; }
    var s, t := Sort(p.scope.permitted), Sort(q.scope.permitted);
    assert Texts(s) == Texts(t) && |s| == |Texts(s)| && |t| == |Texts(t)|;
    forall i | 0 <= i < |s| ensures s[i] == t[i] { assert Texts(s)[i] == Texts(t)[i]; }
    SortDecidesPermutation(p.scope.permitted, q.scope.permitted);
  }

  /** Two operations present the same text for approval exactly when nothing the owner sees differs. */
  lemma ApprovedTextIdentifies(p: Payload, q: Payload)
    ensures ApprovedText(p) == ApprovedText(q) <==> SamePayload(p, q)
  {
    hide Fits, Denote, Canonical, RootData, Closed;
    PayloadAnswers(p);
    PayloadAnswers(q);
    if ApprovedText(p) == ApprovedText(q) {
      hide PayloadHeap;
      PayloadTextIdentifies(PayloadHeap(p), Ref(0), PayloadHeap(q), Ref(0));
      RootDataDetermines(p, q, Denote(PayloadHeap(p), Ref(0), MAX_PAYLOAD_DEPTH));
    }
    if SamePayload(p, q) {
      SortDecidesPermutation(p.scope.permitted, q.scope.permitted);
      assert PayloadHeap(p) == PayloadHeap(q);
    }
  }

  /** What is hashed for approval. */
  ghost function ApprovedBytes(p: Payload): Bytes { Utf8(ApprovedText(p)) }

  /** The same holds of the bytes that are hashed, lone surrogates in the content included. */
  lemma ApprovedBytesIdentify(p: Payload, q: Payload)
    ensures ApprovedBytes(p) == ApprovedBytes(q) <==> SamePayload(p, q)
  {
    hide SamePayload, Utf8, WellFormed, PayloadHeap, PayloadText, Fits, Denote, RootData, Closed;
    ApprovedTextIdentifies(p, q);
    ApprovedTextWellFormed(p);
    ApprovedTextWellFormed(q);
    Utf8Decides(ApprovedText(p), ApprovedText(q));
  }

  lemma ApprovedTextWellFormed(p: Payload)
    ensures WellFormed(ApprovedText(p))
  {
    hide WellFormed, PayloadHeap, Fits, Denote, RootData, Closed;
    HeapShape(p);
    PayloadAnswers(p);
    PayloadTextWellFormed(PayloadHeap(p), Ref(0));
  }
}
