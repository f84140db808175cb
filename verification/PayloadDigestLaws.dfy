/** When the payload encoder answers, and what equality of its answers means. */
module PayloadDigestLaws {
  import opened JsText
  import opened JsNumber
  import opened JsonQuote
  import opened JsSplit
  import opened PayloadDigest

  // ---------------------------------------------------------------- which graphs get a text

  ghost predicate Child(h: Heap, id: nat, v: Value) {
    id in h && match h[id]
      case Arr(slots) => Item(v) in slots
      case Rec(keys, props) => v != Undefined && exists k :: k in props && props[k] == v
  }

  /** `path` leads from its first object down to v, one reference at a time. */
  ghost predicate Chain(h: Heap, path: seq<nat>, v: Value) {
    path == [] ||
    (Child(h, path[|path| - 1], v) && Chain(h, path[..|path| - 1], Ref(path[|path| - 1])))
  }

  lemma ChildFits(h: Heap, id: nat, v: Value, n: int)
    requires Closed(h) && Child(h, id, v) && Fits(h, Ref(id), n)
    ensures Known(h, v) && Fits(h, v, n - 1)
  {
    match h[id]
    case Arr(slots) =>
      var i :| 0 <= i < |slots| && slots[i] == Item(v);
    case Rec(keys, props) =>
      var k :| k in props && props[k] == v;
  }

  lemma {:induction false} ChainFits(h: Heap, path: seq<nat>, v: Value, n: int)
    requires Closed(h) && path != [] && path[0] in h && Chain(h, path, v) && Fits(h, Ref(path[0]), n)
    ensures Known(h, v) && Fits(h, v, n - |path|)
  {
    var last := |path| - 1;
    if last > 0 {
      ChainFits(h, path[..last], Ref(path[last]), n);
    }
    ChildFits(h, path[last], v, n - last);
  }

  lemma {:induction false} ChainSuffix(h: Heap, path: seq<nat>, v: Value, i: nat)
    requires Chain(h, path, v) && i <= |path|
    ensures Chain(h, path[i..], v)
  {
    var last := |path| - 1;
    if i < |path| {
      ChainSuffix(h, path[..last], Ref(path[last]), i);
      assert path[i..][..last - i] == path[..last][i..];
    }
  }

  /** No depth bound is large enough for an object below itself. */
  lemma {:induction false} CycleNeverFits(h: Heap, path: seq<nat>, n: int)
    requires Closed(h) && path != [] && path[0] in h && Chain(h, path, Ref(path[0]))
    ensures !Fits(h, Ref(path[0]), n)
    decreases if n >= 0 then n + 1 else 0
  {
    if Fits(h, Ref(path[0]), n) {
      ChainFits(h, path, Ref(path[0]), n);
      CycleNeverFits(h, path, n - |path|);
    }
  }

  ghost function Members(path: seq<nat>): set<nat> { set x | x in path }

  lemma {:induction false} ItemsAnswer(h: Heap, slots: seq<Slot>, depth: nat, seen: set<nat>)
    requires Closed(h) && KnownSlots(h, slots)
    ensures ItemsText(h, slots, depth, seen).Ok?
       <==> forall i | 0 <= i < |slots| && slots[i].Item? :: Canonical(h, slots[i].v, depth, seen).Ok?
  {
    if slots != [] {
      ItemsAnswer(h, slots[1..], depth, seen);
      assert forall i | 1 <= i < |slots| :: slots[i] == slots[1..][i - 1];
      assert SlotText(h, slots[0], depth, seen).Ok?
        <==> (slots[0].Item? ==> Canonical(h, slots[0].v, depth, seen).Ok?);
    }
  }

  lemma {:induction false} EntriesAnswer(h: Heap, keys: seq<Str>, props: map<Str, Value>, depth: nat, seen: set<nat>)
    requires Closed(h) && KnownProps(h, props) && forall k | k in keys :: k in props
    ensures EntriesText(h, keys, props, depth, seen).Ok?
       <==> forall k | k in keys :: Canonical(h, props[k], depth, seen).Ok?
  {
    if keys != [] {
      EntriesAnswer(h, keys[1..], props, depth, seen);
      assert forall k :: k in keys <==> k == keys[0] || k in keys[1..];
    }
  }

  /** Below any chain of ancestors the encoder answers exactly on what fits the remaining depth. */
  lemma {:induction false} AnswersBelow(h: Heap, v: Value, depth: nat, path: seq<nat>)
    requires Closed(h) && Known(h, v) && Chain(h, path, v) && forall id | id in path :: id in h
    ensures Canonical(h, v, depth, Members(path)).Ok? <==> Fits(h, v, MAX_PAYLOAD_DEPTH - depth)
    decreases Levels(depth), 1
  {
    if depth <= MAX_PAYLOAD_DEPTH && v.Ref? {
      if v.id in path {
        var i :| 0 <= i < |path| && path[i] == v.id;
        ChainSuffix(h, path, v, i);
        CycleNeverFits(h, path[i..], MAX_PAYLOAD_DEPTH - depth);
      } else {
        match h[v.id]
        case Arr(_) => AnswersList(h, v.id, depth, path);
        case Rec(_, _) => AnswersRecord(h, v.id, depth, path);
      }
    }
  }

  lemma MembersGrow(path: seq<nat>, id: nat)
    ensures Members(path + [id]) == Members(path) + {id} && (path + [id])[..|path|] == path
  {
  }

  lemma AnswersList(h: Heap, id: nat, depth: nat, path: seq<nat>)
    requires Closed(h) && id in h && h[id].Arr? && id !in path && depth <= MAX_PAYLOAD_DEPTH
    requires Chain(h, path, Ref(id)) && forall id | id in path :: id in h
    ensures Canonical(h, Ref(id), depth, Members(path)).Ok? <==> Fits(h, Ref(id), MAX_PAYLOAD_DEPTH - depth)
    decreases Levels(depth), 0
  {
    hide ItemsText, EntriesText, OrderedKeys;
    var longer, slots := path + [id], h[id].slots;
    MembersGrow(path, id);
    ItemsAnswer(h, slots, depth + 1, Members(longer));
    forall i | 0 <= i < |slots| && slots[i].Item?
      ensures Canonical(h, slots[i].v, depth + 1, Members(longer)).Ok? <==> Fits(h, slots[i].v, MAX_PAYLOAD_DEPTH - depth - 1)
    {
      assert slots[i] == Item(slots[i].v);
      AnswersBelow(h, slots[i].v, depth + 1, longer);
    }
    var body := ItemsText(h, slots, depth + 1, Members(longer));
    assert Canonical(h, Ref(id), depth, Members(path)) == Wrap(OPEN_LIST, body, CLOSE_LIST);
  }

  lemma AnswersRecord(h: Heap, id: nat, depth: nat, path: seq<nat>)
    requires Closed(h) && id in h && h[id].Rec? && id !in path && depth <= MAX_PAYLOAD_DEPTH
    requires Chain(h, path, Ref(id)) && forall id | id in path :: id in h
    ensures Canonical(h, Ref(id), depth, Members(path)).Ok? <==> Fits(h, Ref(id), MAX_PAYLOAD_DEPTH - depth)
    decreases Levels(depth), 0
  {
    hide ItemsText, EntriesText, OrderedKeys;
    var longer, props := path + [id], h[id].props;
    MembersGrow(path, id);
    var keys := OrderedKeys(h[id].keys, props);
    EntriesAnswer(h, keys, props, depth + 1, Members(longer));
    forall k | k in props && props[k] != Undefined
      ensures Canonical(h, props[k], depth + 1, Members(longer)).Ok? <==> Fits(h, props[k], MAX_PAYLOAD_DEPTH - depth - 1)
    {
      AnswersBelow(h, props[k], depth + 1, longer);
    }
    var body := EntriesText(h, keys, props, depth + 1, Members(longer));
    assert Canonical(h, Ref(id), depth, Members(path)) == Wrap(OPEN_RECORD, body, CLOSE_RECORD);
  }

  /** The encoder answers exactly on payloads nested at most sixteen deep, so never on a cyclic one. */
  lemma PayloadTextAnswers(h: Heap, v: Value)
    requires Closed(h) && Known(h, v)
    ensures PayloadText(h, v).Ok? <==> Fits(h, v, 16)
  {
    hide Canonical, Fits;
    assert Members([]) == {};
    AnswersBelow(h, v, 0, []);
  }

  // ---------------------------------------------------------------- equal texts, equal data

  ghost predicate Ends(x: Str) { x == [] || x[0] == COMMA || x[0] == CLOSE_LIST || x[0] == CLOSE_RECORD }

  ghost predicate Leaf(j: Json) {
    j.JNull? || j.JBool? || j.JText? || (j.JNum? && (j.n.digits == [] ==> !j.n.negative))
  }

  ghost function LeafText(j: Json): Str
    requires Leaf(j)
  {
    match j
    case JNull => NULL_TEXT
    case JBool(b) => if b then TRUE_TEXT else FALSE_TEXT
    case JNum(n) => NumberText(n)
    case JText(s) => Quote(s)
  }

  lemma PrimitiveLeaf(v: Value)
    requires !v.Ref?
    ensures Leaf(PrimitiveJson(v)) && PrimitiveText(v) == LeafText(PrimitiveJson(v))
  {
    hide Quote, NumberText;
    if v.Num? {
      var n: Finite := if v.n.digits == [] then Decimal(false, [], 0) else v.n;
      NumberTextIdentifies(v.n, n);
    }
  }

  lemma LeafStart(j: Json)
    requires Leaf(j)
    ensures LeafText(j) != []
    ensures var c := LeafText(j)[0];
      if j.JNull? then c == 110 else if j.JBool? then c == (if j.b then 116 else 102)
      else if j.JText? then c == QUOTE else IsDigit(c) || c == MINUS
  {
    hide Escape, MagnitudeText, NumberText;
    if j.JNum? { NumberTextUnits(j.n); }
  }

  lemma LeafCut(j: Json, k: Json, x: Str, y: Str)
    requires Leaf(j) && Leaf(k) && Ends(x) && Ends(y)
    requires LeafText(j) + x == LeafText(k) + y
    ensures j == k && x == y
  {
    hide Quote, NumberText;
    LeafStart(j);
    LeafStart(k);
    assert LeafText(j)[0] == (LeafText(j) + x)[0] == LeafText(k)[0];
    if j.JText? {
      QuoteCut(j.s, k.s, x, y);
    } else if j.JNum? {
      NumberTextUnits(j.n);
      NumberTextUnits(k.n);
      RunsAgree(NumberUnit, NumberText(j.n), NumberText(k.n), x, y);
      NumberTextIdentifies(j.n, k.n);
    } else {
      EqualLengthsAgree(LeafText(j), LeafText(k), x, y);
    }
  }

  ghost predicate Answered(h: Heap, v: Value, depth: nat, seen: set<nat>)
    requires Closed(h) && Known(h, v)
  {
    Canonical(h, v, depth, seen).Ok? && Fits(h, v, MAX_PAYLOAD_DEPTH - depth)
  }

  lemma ValueStart(h: Heap, v: Value, depth: nat, seen: set<nat>)
    requires Closed(h) && Known(h, v) && Answered(h, v, depth, seen)
    ensures var t := Canonical(h, v, depth, seen).text;
      t != [] && !Ends(t) && (t[0] == OPEN_LIST <==> v.Ref? && h[v.id].Arr?)
                          && (t[0] == OPEN_RECORD <==> v.Ref? && h[v.id].Rec?)
  {
    hide LeafText, ItemsText, EntriesText, Fits;
    if !v.Ref? {
      PrimitiveLeaf(v);
      LeafStart(PrimitiveJson(v));
    }
  }

  /** Where a value is being encoded: its heap, its depth and its ancestors. */
  datatype Site = Site(h: Heap, depth: nat, seen: set<nat>)

  ghost predicate Ready(at: Site, v: Value) {
    Closed(at.h) && Known(at.h, v) && Answered(at.h, v, at.depth, at.seen)
  }

  ghost function TextAt(at: Site, v: Value): Str
    requires Ready(at, v)
  {
    Canonical(at.h, v, at.depth, at.seen).text
  }

  ghost function DataAt(at: Site, v: Value): Json
    requires Ready(at, v)
  {
    Denote(at.h, v, MAX_PAYLOAD_DEPTH - at.depth)
  }

  ghost predicate ReadySlot(at: Site, slot: Slot) { Closed(at.h) && (slot.Item? ==> Ready(at, slot.v)) }

  ghost predicate ReadySlots(at: Site, slots: seq<Slot>) {
    Closed(at.h) && forall i | 0 <= i < |slots| :: ReadySlot(at, slots[i])
  }

  ghost function SlotData(at: Site, slot: Slot): Json
    requires ReadySlot(at, slot)
  {
    SlotJson(at.h, slot, MAX_PAYLOAD_DEPTH - at.depth)
  }

  ghost function SlotTextAt(at: Site, slot: Slot): Str
    requires ReadySlot(at, slot)
  {
    if slot.Hole? then [] else TextAt(at, slot.v)
  }

  /** The comma-joined items, without the error plumbing. */
  ghost function Joined(at: Site, slots: seq<Slot>): Str
    requires ReadySlots(at, slots)
  {
    if slots == [] then []
    else SlotTextAt(at, slots[0]) + if |slots| == 1 then [] else [COMMA] + Joined(at, slots[1..])
  }

  lemma {:induction false} ItemsJoin(at: Site, slots: seq<Slot>)
    requires ReadySlots(at, slots)
    ensures KnownSlots(at.h, slots) && ItemsText(at.h, slots, at.depth, at.seen) == Ok(Joined(at, slots))
  {
    if slots != [] {
      assert ReadySlot(at, slots[0]);
      ItemsJoin(at, slots[1..]);
      assert SlotText(at.h, slots[0], at.depth, at.seen) == Ok(SlotTextAt(at, slots[0]));
    }
  }

  ghost predicate ReadyProps(at: Site, keys: seq<Str>, props: map<Str, Value>) {
    Closed(at.h) && KnownProps(at.h, props) && forall k | k in keys :: k in props && Ready(at, props[k])
  }

  ghost function JoinedEntries(at: Site, keys: seq<Str>, props: map<Str, Value>): Str
    requires ReadyProps(at, keys, props)
  {
    if keys == [] then []
    else Quote(keys[0]) + [COLON] + TextAt(at, props[keys[0]])
         + if |keys| == 1 then [] else [COMMA] + JoinedEntries(at, keys[1..], props)
  }

  lemma {:induction false} EntriesJoin(at: Site, keys: seq<Str>, props: map<Str, Value>)
    requires ReadyProps(at, keys, props)
    ensures EntriesText(at.h, keys, props, at.depth, at.seen) == Ok(JoinedEntries(at, keys, props))
  {
    hide Quote;
    if keys != [] {
      assert keys[0] in keys;
      EntriesJoin(at, keys[1..], props);
    }
  }

  ghost function Below(at: Site, id: nat): Site { Site(at.h, at.depth + 1, at.seen + {id}) }

  ghost function Keys(at: Site, id: nat): seq<Str>
    requires Closed(at.h) && id in at.h && at.h[id].Rec?
  {
    assert ValidObject(at.h, at.h[id]);
    OrderedKeys(at.h[id].keys, at.h[id].props)
  }

  lemma ListReady(at: Site, id: nat)
    requires Ready(at, Ref(id)) && at.h[id].Arr?
    ensures ReadySlots(Below(at, id), at.h[id].slots) && at.depth <= MAX_PAYLOAD_DEPTH
  {
    hide ItemsText;
    assert ValidObject(at.h, at.h[id]);
    ItemsAnswer(at.h, at.h[id].slots, at.depth + 1, at.seen + {id});
  }

  lemma ListText(at: Site, id: nat)
    requires Ready(at, Ref(id)) && at.h[id].Arr?
    ensures ReadySlots(Below(at, id), at.h[id].slots)
    ensures TextAt(at, Ref(id)) == [OPEN_LIST] + Joined(Below(at, id), at.h[id].slots) + [CLOSE_LIST]
  {
    hide ItemsText, Fits, Joined;
    ListReady(at, id);
    ItemsJoin(Below(at, id), at.h[id].slots);
  }

  ghost function SlotsData(at: Site, slots: seq<Slot>): seq<Json>
    requires ReadySlots(at, slots)
  {
    seq(|slots|, i requires 0 <= i < |slots| => SlotData(at, slots[i]))
  }

  lemma ListData(at: Site, id: nat)
    requires Ready(at, Ref(id)) && at.h[id].Arr?
    ensures ReadySlots(Below(at, id), at.h[id].slots)
    ensures DataAt(at, Ref(id)) == ListJson(SlotsData(Below(at, id), at.h[id].slots))
  {
    hide Canonical, ListJson, SlotJson;
    ListReady(at, id);
    var slots := at.h[id].slots;
    var levels := MAX_PAYLOAD_DEPTH - at.depth - 1;
    assert SlotsData(Below(at, id), slots)
      == seq(|slots|, i requires 0 <= i < |slots| => SlotJson(at.h, slots[i], levels));
  }

  lemma RecordReady(at: Site, id: nat)
    requires Ready(at, Ref(id)) && at.h[id].Rec?
    ensures ReadyProps(Below(at, id), Keys(at, id), at.h[id].props) && at.depth <= MAX_PAYLOAD_DEPTH
  {
    hide EntriesText, OrderedKeys;
    assert ValidObject(at.h, at.h[id]);
    EntriesAnswer(at.h, Keys(at, id), at.h[id].props, at.depth + 1, at.seen + {id});
  }

  lemma RecordText(at: Site, id: nat)
    requires Ready(at, Ref(id)) && at.h[id].Rec?
    ensures ReadyProps(Below(at, id), Keys(at, id), at.h[id].props)
    ensures TextAt(at, Ref(id))
         == [OPEN_RECORD] + JoinedEntries(Below(at, id), Keys(at, id), at.h[id].props) + [CLOSE_RECORD]
  {
    hide EntriesText, OrderedKeys, Fits, JoinedEntries;
    RecordReady(at, id);
    EntriesJoin(Below(at, id), Keys(at, id), at.h[id].props);
  }

  ghost function PropsData(at: Site, keys: seq<Str>, props: map<Str, Value>): map<Str, Json>
    requires ReadyProps(at, keys, props)
  {
    map k | k in keys :: DataAt(at, props[k])
  }

  lemma RecordKeys(at: Site, id: nat)
    requires Ready(at, Ref(id)) && at.h[id].Rec?
    ensures DataAt(at, Ref(id)).JRecord?
    ensures forall k :: k in DataAt(at, Ref(id)).fields <==> k in Keys(at, id)
    ensures forall k | k in Keys(at, id) :: k in at.h[id].props && at.h[id].props[k] != Undefined
  {
    hide Canonical, Denote, Fits, Keys, Closed;
    DenoteRecord(at.h, id, MAX_PAYLOAD_DEPTH - at.depth);
    KeysAreDefined(at, id);
  }

  lemma RecordField(at: Site, id: nat, k: Str)
    requires Ready(at, Ref(id)) && at.h[id].Rec? && DataAt(at, Ref(id)).JRecord?
    requires k in DataAt(at, Ref(id)).fields && k in at.h[id].props && at.h[id].props[k] != Undefined
    requires Ready(Below(at, id), at.h[id].props[k])
    ensures DataAt(at, Ref(id)).fields[k] == DataAt(Below(at, id), at.h[id].props[k])
  {
    hide Canonical, Denote, Fits, Closed;
    DenoteField(at.h, id, MAX_PAYLOAD_DEPTH - at.depth, k);
  }

  lemma DenoteField(h: Heap, id: nat, levels: int, k: Str)
    requires Closed(h) && id in h && h[id].Rec? && Fits(h, Ref(id), levels)
    requires k in h[id].props && h[id].props[k] != Undefined
    ensures var j := Denote(h, Ref(id), levels);
      j.JRecord? && k in j.fields && Known(h, h[id].props[k]) && Fits(h, h[id].props[k], levels - 1)
      && j.fields[k] == Denote(h, h[id].props[k], levels - 1)
  {
    hide Denote, Fits, Closed;
    DenoteRecord(h, id, levels);
  }

  lemma KeysAreDefined(at: Site, id: nat)
    requires Closed(at.h) && id in at.h && at.h[id].Rec?
    ensures forall k :: k in Keys(at, id) <==> k in at.h[id].props && at.h[id].props[k] != Undefined
  {
    hide OrderedKeys;
    assert Enumerates(at.h[id].keys, at.h[id].props) by { assert ValidObject(at.h, at.h[id]); }
  }

  lemma DenoteRecord(h: Heap, id: nat, levels: int)
    requires Closed(h) && id in h && h[id].Rec? && Fits(h, Ref(id), levels)
    ensures var props, j := h[id].props, Denote(h, Ref(id), levels);
      j.JRecord?
      && (forall k :: k in j.fields <==> k in props && props[k] != Undefined)
      && (forall k | k in j.fields :: Known(h, props[k]) && Fits(h, props[k], levels - 1)
                                      && j.fields[k] == Denote(h, props[k], levels - 1))
  {
    assert ValidObject(h, h[id]);
  }

  lemma RecordData(at: Site, id: nat)
    requires Ready(at, Ref(id)) && at.h[id].Rec?
    ensures ReadyProps(Below(at, id), Keys(at, id), at.h[id].props)
    ensures DataAt(at, Ref(id)) == JRecord(PropsData(Below(at, id), Keys(at, id), at.h[id].props))
  {
    assert id in at.h && Closed(at.h);
    hide DataAt, Ready, Keys, Closed, ReadyProps;
    RecordReady(at, id);
    RecordKeys(at, id);
    var data, fields := PropsData(Below(at, id), Keys(at, id), at.h[id].props), DataAt(at, Ref(id)).fields;
    assert data.Keys == fields.Keys;
    forall k | k in fields ensures data[k] == fields[k] {
      ReadyProp(Below(at, id), Keys(at, id), at.h[id].props, k);
      RecordField(at, id, k);
    }
  }

  // ---------------------------------------------------------------- cutting encoded values apart

  lemma {:induction false} ValueCut(p: Site, v: Value, q: Site, w: Value, x: Str, y: Str)
    requires Ready(p, v) && Ready(q, w) && Ends(x) && Ends(y)
    requires TextAt(p, v) + x == TextAt(q, w) + y
    ensures DataAt(p, v) == DataAt(q, w) && x == y
    decreases Levels(p.depth), 3
  {
    hide TextAt, DataAt, Fits;
    assert TextAt(p, v)[0] == TextAt(q, w)[0] && TextStarts(p, v) && TextStarts(q, w) by {
      TextStart(p, v);
      TextStart(q, w);
      assert (TextAt(p, v) + x)[0] == TextAt(p, v)[0];
      assert (TextAt(q, w) + y)[0] == TextAt(q, w)[0];
    }
    if v.Ref? && p.h[v.id].Arr? {
      ListCut(p, v.id, q, w.id, x, y);
    } else if v.Ref? {
      RecordCut(p, v.id, q, w.id, x, y);
    } else {
      PrimitiveAt(p, v);
      PrimitiveAt(q, w);
      LeafCut(DataAt(p, v), DataAt(q, w), x, y);
    }
  }

  ghost predicate TextStarts(at: Site, v: Value)
    requires Ready(at, v)
  {
    var t := TextAt(at, v);
    t != [] && !Ends(t) && (t[0] == OPEN_LIST <==> v.Ref? && at.h[v.id].Arr?)
                        && (t[0] == OPEN_RECORD <==> v.Ref? && at.h[v.id].Rec?)
  }

  lemma TextStart(at: Site, v: Value)
    requires Ready(at, v)
    ensures TextStarts(at, v)
  {
    ValueStart(at.h, v, at.depth, at.seen);
  }

  lemma PrimitiveAt(at: Site, v: Value)
    requires Ready(at, v) && !v.Ref?
    ensures Leaf(DataAt(at, v)) && TextAt(at, v) == LeafText(DataAt(at, v))
  {
    hide LeafText, PrimitiveText;
    PrimitiveLeaf(v);
  }

  lemma {:induction false} SlotCut(p: Site, a: Slot, q: Site, b: Slot, x: Str, y: Str)
    requires ReadySlot(p, a) && ReadySlot(q, b) && x != [] && y != [] && Ends(x) && Ends(y)
    requires SlotTextAt(p, a) + x == SlotTextAt(q, b) + y
    ensures SlotData(p, a) == SlotData(q, b) && x == y
    decreases Levels(p.depth), 4
  {
    hide TextAt, Answered;
    if a.Item? && b.Item? {
      ValueCut(p, a.v, q, b.v, x, y);
    } else {
      SlotStart(p, a, x);
      SlotStart(q, b, y);
      EqualLengthsAgree([], [], x, y);
      assert [] + x == x && [] + y == y;
    }
  }

  /** A hole is the only slot whose text is empty, and no item starts like a delimiter. */
  lemma SlotStart(at: Site, slot: Slot, x: Str)
    requires ReadySlot(at, slot) && x != [] && Ends(x)
    ensures Ends(SlotTextAt(at, slot) + x) <==> slot.Hole?
  {
    hide TextAt, Answered;
    if slot.Item? {
      TextStart(at, slot.v);
      assert (TextAt(at, slot.v) + x)[0] == TextAt(at, slot.v)[0];
    } else {
      assert [] + x == x;
    }
  }

  /** What follows the first slot's text, up to and including the closing bracket and beyond. */
  ghost function AfterFirst(at: Site, slots: seq<Slot>, x: Str): Str
    requires slots != [] && ReadySlots(at, slots)
  {
    if |slots| == 1 then [CLOSE_LIST] + x else [COMMA] + (Joined(at, slots[1..]) + [CLOSE_LIST] + x)
  }

  lemma JoinedSplits(at: Site, slots: seq<Slot>, x: Str)
    requires slots != [] && ReadySlots(at, slots)
    ensures ReadySlot(at, slots[0])
    ensures Joined(at, slots) + [CLOSE_LIST] + x == SlotTextAt(at, slots[0]) + AfterFirst(at, slots, x)
  {
    hide SlotTextAt, ReadySlot;
    var first := SlotTextAt(at, slots[0]);
    if |slots| > 1 {
      var rest := Joined(at, slots[1..]);
      assert first + ([COMMA] + rest) + [CLOSE_LIST] + x == first + ([COMMA] + (rest + [CLOSE_LIST] + x));
    } else {
      assert first + [] + [CLOSE_LIST] + x == first + ([CLOSE_LIST] + x);
    }
  }

  lemma {:induction false} ItemsCut(p: Site, a: seq<Slot>, q: Site, b: seq<Slot>, x: Str, y: Str)
    requires ReadySlots(p, a) && ReadySlots(q, b) && a != [] && b != []
    requires Joined(p, a) + [CLOSE_LIST] + x == Joined(q, b) + [CLOSE_LIST] + y
    ensures SlotsData(p, a) == SlotsData(q, b) && x == y
    decreases Levels(p.depth), 5, |a|
  {
    hide SlotTextAt, ReadySlot, SlotData, Joined;
    var u, v := AfterFirst(p, a, x), AfterFirst(q, b, y);
    JoinedSplits(p, a, x);
    JoinedSplits(q, b, y);
    SlotCut(p, a[0], q, b[0], u, v);
    assert u[0] == v[0];
    if |a| == 1 {
      EqualLengthsAgree([CLOSE_LIST], [CLOSE_LIST], x, y);
    } else {
      var s, t := Joined(p, a[1..]) + [CLOSE_LIST] + x, Joined(q, b[1..]) + [CLOSE_LIST] + y;
      EqualLengthsAgree([COMMA], [COMMA], s, t);
      ItemsCut(p, a[1..], q, b[1..], x, y);
      assert SlotsData(p, a)[1..] == SlotsData(p, a[1..]) && SlotsData(q, b)[1..] == SlotsData(q, b[1..]);
    }
    assert SlotsData(p, a) == [SlotData(p, a[0])] + SlotsData(p, a)[1..];
    assert SlotsData(q, b) == [SlotData(q, b[0])] + SlotsData(q, b)[1..];
  }

  /** Only a lone hole prints like an empty array. */
  lemma EmptyListCut(q: Site, b: seq<Slot>, x: Str, y: Str)
    requires ReadySlots(q, b)
    requires [CLOSE_LIST] + x == Joined(q, b) + [CLOSE_LIST] + y
    ensures ListJson(SlotsData(q, b)) == JList([]) && x == y
  {
    if b == [] {
      assert [] + [CLOSE_LIST] + y == [CLOSE_LIST] + y;
      EqualLengthsAgree([CLOSE_LIST], [CLOSE_LIST], x, y);
    } else {
      hide SlotTextAt;
      JoinedSplits(q, b, y);
      var v := AfterFirst(q, b, y);
      SlotStart(q, b[0], v);
      assert SlotTextAt(q, b[0]) + v == v by { assert SlotTextAt(q, Hole) == [] && [] + v == v; }
      assert v[0] == CLOSE_LIST;
      EqualLengthsAgree([CLOSE_LIST], [CLOSE_LIST], x, y);
      assert SlotsData(q, b) == [JHole];
    }
  }

  lemma {:induction false} ListCut(p: Site, i: nat, q: Site, j: nat, x: Str, y: Str)
    requires Ready(p, Ref(i)) && Ready(q, Ref(j)) && p.h[i].Arr? && q.h[j].Arr?
    requires TextAt(p, Ref(i)) + x == TextAt(q, Ref(j)) + y
    ensures DataAt(p, Ref(i)) == DataAt(q, Ref(j)) && x == y
    decreases Levels(p.depth), 2
  {
    hide TextAt, DataAt, Joined, ReadySlots, Fits, Answered, SlotsData, ListJson;
    ListReady(p, i);
    ListText(p, i);
    ListText(q, j);
    ListData(p, i);
    ListData(q, j);
    var pb, qb, a, b := Below(p, i), Below(q, j), p.h[i].slots, q.h[j].slots;
    var u, v := Joined(pb, a) + [CLOSE_LIST] + x, Joined(qb, b) + [CLOSE_LIST] + y;
    assert TextAt(p, Ref(i)) + x == [OPEN_LIST] + u && TextAt(q, Ref(j)) + y == [OPEN_LIST] + v;
    EqualLengthsAgree([OPEN_LIST], [OPEN_LIST], u, v);
    if a != [] && b != [] {
      ItemsCut(pb, a, qb, b, x, y);
    } else if a == [] {
      EmptyJoined(pb, x);
      EmptyListCut(qb, b, x, y);
    } else {
      EmptyJoined(qb, y);
      EmptyListCut(pb, a, y, x);
    }
  }

  lemma EmptyJoined(at: Site, x: Str)
    requires Closed(at.h)
    ensures ReadySlots(at, []) && Joined(at, []) + [CLOSE_LIST] + x == [CLOSE_LIST] + x
    ensures ListJson(SlotsData(at, [])) == JList([])
  {
    assert [] + [CLOSE_LIST] + x == [CLOSE_LIST] + x;
  }

  ghost function AfterEntry(at: Site, keys: seq<Str>, props: map<Str, Value>, x: Str): Str
    requires keys != [] && ReadyProps(at, keys, props)
  {
    if |keys| == 1 then [CLOSE_RECORD] + x
    else [COMMA] + (JoinedEntries(at, keys[1..], props) + [CLOSE_RECORD] + x)
  }

  lemma EntriesSplit(at: Site, keys: seq<Str>, props: map<Str, Value>, x: Str)
    requires keys != [] && ReadyProps(at, keys, props)
    ensures Ready(at, props[keys[0]])
    ensures JoinedEntries(at, keys, props) + [CLOSE_RECORD] + x
         == Quote(keys[0]) + ([COLON] + (TextAt(at, props[keys[0]]) + AfterEntry(at, keys, props, x)))
  {
    hide TextAt, Ready, Quote;
    assert keys[0] in keys;
    var tail := if |keys| == 1 then [] else [COMMA] + JoinedEntries(at, keys[1..], props);
    Regroup(Quote(keys[0]), [COLON], TextAt(at, props[keys[0]]), tail, [CLOSE_RECORD], x);
    assert AfterEntry(at, keys, props, x) == tail + [CLOSE_RECORD] + x by {
      if |keys| > 1 { Regroup([], [], [COMMA], JoinedEntries(at, keys[1..], props), [CLOSE_RECORD], x); }
    }
  }

  lemma Regroup(a: Str, b: Str, c: Str, d: Str, e: Str, f: Str)
    ensures a + b + c + d + e + f == a + (b + (c + (d + e + f)))
    ensures c + d + e + f == c + (d + e + f)
  {
    var tail := d + e + f;
    Associative(d, e, f);
    Associative(c, d, e);
    Associative(c, d + e, f);
    Associative(a + b + c, d, e);
    Associative(a + b + c, d + e, f);
    Associative(a, b, c);
    Associative(a, b + c, tail);
    Associative(b, c, tail);
  }

  lemma {:induction false} EntriesCut(p: Site, ks: seq<Str>, a: map<Str, Value>, q: Site, ls: seq<Str>, b: map<Str, Value>,
                                      x: Str, y: Str)
    requires ReadyProps(p, ks, a) && ReadyProps(q, ls, b)
    requires JoinedEntries(p, ks, a) + [CLOSE_RECORD] + x == JoinedEntries(q, ls, b) + [CLOSE_RECORD] + y
    ensures ks == ls && x == y
    ensures forall k | k in ks :: DataAt(p, a[k]) == DataAt(q, b[k])
    decreases Levels(p.depth), 5, |ks|, 1
  {
    hide TextAt, DataAt, Ready, JoinedEntries, Quote;
    EntriesStart(p, ks, a, x);
    EntriesStart(q, ls, b, y);
    if ks == [] {
      EqualLengthsAgree([CLOSE_RECORD], [CLOSE_RECORD], x, y);
    } else {
      EntriesSplit(p, ks, a, x);
      EntriesSplit(q, ls, b, y);
      var u, v := AfterEntry(p, ks, a, x), AfterEntry(q, ls, b, y);
      QuoteCut(ks[0], ls[0], [COLON] + (TextAt(p, a[ks[0]]) + u), [COLON] + (TextAt(q, b[ls[0]]) + v));
      EqualLengthsAgree([COLON], [COLON], TextAt(p, a[ks[0]]) + u, TextAt(q, b[ls[0]]) + v);
      ValueCut(p, a[ks[0]], q, b[ls[0]], u, v);
      EntriesCutTail(p, ks, a, q, ls, b, x, y);
      assert forall k | k in ks :: k == ks[0] || k in ks[1..];
    }
  }

  lemma EntriesStart(at: Site, keys: seq<Str>, props: map<Str, Value>, x: Str)
    requires ReadyProps(at, keys, props)
    ensures (JoinedEntries(at, keys, props) + [CLOSE_RECORD] + x)[0] == CLOSE_RECORD <==> keys == []
    ensures keys == [] ==> JoinedEntries(at, keys, props) + [CLOSE_RECORD] + x == [CLOSE_RECORD] + x
  {
    hide TextAt, Escape;
    if keys == [] {
      assert [] + [CLOSE_RECORD] + x == [CLOSE_RECORD] + x;
    } else {
      EntriesSplit(at, keys, props, x);
      assert Quote(keys[0])[0] == QUOTE;
    }
  }

  lemma {:induction false} EntriesCutTail(p: Site, ks: seq<Str>, a: map<Str, Value>, q: Site, ls: seq<Str>, b: map<Str, Value>,
                                          x: Str, y: Str)
    requires ReadyProps(p, ks, a) && ReadyProps(q, ls, b) && ks != [] && ls != [] && ks[0] == ls[0]
    requires AfterEntry(p, ks, a, x) == AfterEntry(q, ls, b, y)
    ensures ks == ls && x == y
    ensures forall k | k in ks[1..] :: DataAt(p, a[k]) == DataAt(q, b[k])
    decreases Levels(p.depth), 5, |ks|, 0
  {
    hide TextAt, DataAt, Ready, JoinedEntries;
    var u, v := AfterEntry(p, ks, a, x), AfterEntry(q, ls, b, y);
    assert u[0] == v[0];
    if |ks| == 1 {
      EqualLengthsAgree([CLOSE_RECORD], [CLOSE_RECORD], x, y);
    } else {
      var s := JoinedEntries(p, ks[1..], a) + [CLOSE_RECORD] + x;
      var t := JoinedEntries(q, ls[1..], b) + [CLOSE_RECORD] + y;
      EqualLengthsAgree([COMMA], [COMMA], s, t);
      EntriesCut(p, ks[1..], a, q, ls[1..], b, x, y);
      assert ks == [ks[0]] + ks[1..] && ls == [ls[0]] + ls[1..];
    }
  }

  lemma {:induction false} RecordCut(p: Site, i: nat, q: Site, j: nat, x: Str, y: Str)
    requires Ready(p, Ref(i)) && Ready(q, Ref(j)) && p.h[i].Rec? && q.h[j].Rec?
    requires TextAt(p, Ref(i)) + x == TextAt(q, Ref(j)) + y
    ensures DataAt(p, Ref(i)) == DataAt(q, Ref(j)) && x == y
    decreases Levels(p.depth), 2
  {
    hide TextAt, DataAt, JoinedEntries, ReadyProps, Fits, Answered, Keys;
    RecordReady(p, i);
    RecordText(p, i);
    RecordText(q, j);
    RecordData(p, i);
    RecordData(q, j);
    var pb, qb, a, b := Below(p, i), Below(q, j), p.h[i].props, q.h[j].props;
    var u := JoinedEntries(pb, Keys(p, i), a) + [CLOSE_RECORD] + x;
    var v := JoinedEntries(qb, Keys(q, j), b) + [CLOSE_RECORD] + y;
    assert TextAt(p, Ref(i)) + x == [OPEN_RECORD] + u && TextAt(q, Ref(j)) + y == [OPEN_RECORD] + v;
    EqualLengthsAgree([OPEN_RECORD], [OPEN_RECORD], u, v);
    EntriesCut(pb, Keys(p, i), a, qb, Keys(q, j), b, x, y);
    assert PropsData(pb, Keys(p, i), a) == PropsData(qb, Keys(q, j), b);
  }

  // ---------------------------------------------------------------- equal data, equal texts

  lemma DataIsNoHole(at: Site, v: Value)
    requires Ready(at, v)
    ensures DataAt(at, v) != JHole
    ensures DataAt(at, v).JList? <==> v.Ref? && at.h[v.id].Arr?
    ensures DataAt(at, v).JRecord? <==> v.Ref? && at.h[v.id].Rec?
  {
    hide Canonical, NumberText, Escape;
  }

  lemma {:induction false} SameDataSameText(p: Site, v: Value, q: Site, w: Value)
    requires Ready(p, v) && Ready(q, w) && DataAt(p, v) == DataAt(q, w)
    ensures TextAt(p, v) == TextAt(q, w)
    decreases Levels(p.depth), 1
  {
    hide TextAt, DataAt, Fits, Answered;
    DataIsNoHole(p, v);
    DataIsNoHole(q, w);
    if !v.Ref? {
      PrimitiveAt(p, v);
      PrimitiveAt(q, w);
    } else if p.h[v.id].Arr? {
      SameList(p, v.id, q, w.id);
    } else {
      SameRecord(p, v.id, q, w.id);
    }
  }

  lemma {:induction false} SameJoined(p: Site, a: seq<Slot>, q: Site, b: seq<Slot>)
    requires ReadySlots(p, a) && ReadySlots(q, b) && |a| == |b|
    requires forall i | 0 <= i < |a| :: SlotTextAt(p, a[i]) == SlotTextAt(q, b[i])
    ensures Joined(p, a) == Joined(q, b)
  {
    hide SlotTextAt, ReadySlot;
    if a != [] {
      assert SlotTextAt(p, a[0]) == SlotTextAt(q, b[0]);
      assert forall i | 0 <= i < |a| - 1 :: a[1..][i] == a[i + 1] && b[1..][i] == b[i + 1];
      SameJoined(p, a[1..], q, b[1..]);
    }
  }

  lemma {:induction false} SameSlot(p: Site, a: Slot, q: Site, b: Slot)
    requires ReadySlot(p, a) && ReadySlot(q, b) && SlotData(p, a) == SlotData(q, b)
    ensures SlotTextAt(p, a) == SlotTextAt(q, b)
    decreases Levels(p.depth), 2
  {
    hide TextAt, Ready, Fits, Answered, Denote;
    if a.Item? { DataIsNoHole(p, a.v); }
    if b.Item? { DataIsNoHole(q, b.v); }
    if a.Item? && b.Item? {
      SameDataSameText(p, a.v, q, b.v);
    }
  }

  /** Item lists that read alike join alike: either slot by slot, or both empty or a lone hole. */
  lemma ListJsonCases(a: seq<Json>, b: seq<Json>)
    requires ListJson(a) == ListJson(b)
    ensures a == b || ((a == [] || a == [JHole]) && (b == [] || b == [JHole]))
  {
  }

  lemma HoleJoins(at: Site, slots: seq<Slot>)
    requires ReadySlots(at, slots) && (SlotsData(at, slots) == [] || SlotsData(at, slots) == [JHole])
    ensures Joined(at, slots) == []
  {
    if slots != [] {
      assert SlotsData(at, slots)[0] == JHole;
      if slots[0].Item? { DataIsNoHole(at, slots[0].v); }
    }
  }

  lemma {:induction false} SameList(p: Site, i: nat, q: Site, j: nat)
    requires Ready(p, Ref(i)) && Ready(q, Ref(j)) && p.h[i].Arr? && q.h[j].Arr?
    requires DataAt(p, Ref(i)) == DataAt(q, Ref(j))
    ensures TextAt(p, Ref(i)) == TextAt(q, Ref(j))
    decreases Levels(p.depth), 0
  {
    hide TextAt, DataAt, Joined, ReadySlots, SlotsData, Fits, Answered;
    ListReady(p, i);
    ListText(p, i);
    ListText(q, j);
    ListData(p, i);
    ListData(q, j);
    SameSlots(Below(p, i), p.h[i].slots, Below(q, j), q.h[j].slots);
  }

  lemma {:induction false} SameSlots(p: Site, a: seq<Slot>, q: Site, b: seq<Slot>)
    requires ReadySlots(p, a) && ReadySlots(q, b) && ListJson(SlotsData(p, a)) == ListJson(SlotsData(q, b))
    ensures Joined(p, a) == Joined(q, b)
    decreases Levels(p.depth), 3
  {
    hide Joined, ListJson, SlotData, SlotTextAt, ReadySlot;
    var s, t := SlotsData(p, a), SlotsData(q, b);
    ListJsonCases(s, t);
    if s == t {
      forall k | 0 <= k < |a| ensures SlotTextAt(p, a[k]) == SlotTextAt(q, b[k]) {
        assert s[k] == t[k];
        SameSlot(p, a[k], q, b[k]);
      }
      SameJoined(p, a, q, b);
    } else {
      HoleJoins(p, a);
      HoleJoins(q, b);
    }
  }

  lemma {:induction false} SameEntries(p: Site, keys: seq<Str>, a: map<Str, Value>, q: Site, b: map<Str, Value>)
    requires ReadyProps(p, keys, a) && ReadyProps(q, keys, b)
    requires forall k | k in keys :: TextAt(p, a[k]) == TextAt(q, b[k])
    ensures JoinedEntries(p, keys, a) == JoinedEntries(q, keys, b)
  {
    hide TextAt, Ready, Quote;
    if keys != [] {
      assert keys[0] in keys;
      SameEntries(p, keys[1..], a, q, b);
    }
  }

  ghost predicate Distinct(s: seq<Str>) { forall i, j | 0 <= i < j < |s| :: s[i] != s[j] }

  lemma {:induction false} DistinctCounts(s: seq<Str>)
    requires Distinct(s)
    ensures forall x :: multiset(s)[x] == if x in s then 1 else 0
  {
    if s != [] {
      DistinctCounts(s[1..]);
      assert s == [s[0]] + s[1..];
      assert multiset(s) == multiset{s[0]} + multiset(s[1..]);
    }
  }

  lemma {:induction false} DefinedKeysDistinct(keys: seq<Str>, props: map<Str, Value>)
    requires Distinct(keys) && forall k | k in keys :: k in props
    ensures Distinct(DefinedKeys(keys, props))
  {
    if keys != [] {
      DefinedKeysDistinct(keys[1..], props);
    }
  }

  /** The visiting order depends only on which keys are defined, never on insertion order. */
  lemma OrderedKeysDetermined(keys: seq<Str>, props: map<Str, Value>, keys': seq<Str>, props': map<Str, Value>)
    requires Enumerates(keys, props) && Enumerates(keys', props')
    requires forall k :: k in props && props[k] != Undefined <==> k in props' && props'[k] != Undefined
    ensures OrderedKeys(keys, props) == OrderedKeys(keys', props')
  {
    hide DefinedKeys, Sort;
    var s, t := DefinedKeys(keys, props), DefinedKeys(keys', props');
    DefinedKeysDistinct(keys, props);
    DefinedKeysDistinct(keys', props');
    DistinctCounts(s);
    DistinctCounts(t);
    assert multiset(s) == multiset(t);
    SortDecidesPermutation(s, t);
  }

  lemma {:induction false} SameRecord(p: Site, i: nat, q: Site, j: nat)
    requires Ready(p, Ref(i)) && Ready(q, Ref(j)) && p.h[i].Rec? && q.h[j].Rec?
    requires DataAt(p, Ref(i)) == DataAt(q, Ref(j))
    ensures TextAt(p, Ref(i)) == TextAt(q, Ref(j))
    decreases Levels(p.depth), 0
  {
    hide TextAt, DataAt, JoinedEntries, ReadyProps, Fits, Answered;
    RecordReady(p, i);
    RecordText(p, i);
    RecordText(q, j);
    RecordData(p, i);
    RecordData(q, j);
    SameKeys(p, i, q, j);
    var pb, qb, a, b, keys := Below(p, i), Below(q, j), p.h[i].props, q.h[j].props, Keys(p, i);
    forall k | k in keys ensures Ready(pb, a[k]) && Ready(qb, b[k]) && TextAt(pb, a[k]) == TextAt(qb, b[k]) {
      ReadyProp(pb, keys, a, k);
      ReadyProp(qb, keys, b, k);
      assert PropsData(pb, keys, a)[k] == PropsData(qb, keys, b)[k];
      SameDataSameText(pb, a[k], qb, b[k]);
    }
    SameEntries(pb, keys, a, qb, b);
  }

  lemma ReadyProp(at: Site, keys: seq<Str>, props: map<Str, Value>, k: Str)
    requires ReadyProps(at, keys, props) && k in keys
    ensures k in props && Ready(at, props[k])
  {
  }

  lemma SameKeys(p: Site, i: nat, q: Site, j: nat)
    requires Ready(p, Ref(i)) && Ready(q, Ref(j)) && p.h[i].Rec? && q.h[j].Rec?
    requires DataAt(p, Ref(i)) == DataAt(q, Ref(j))
    ensures Keys(p, i) == Keys(q, j)
  {
    hide TextAt, DataAt, ReadyProps, Fits, Answered, OrderedKeys;
    RecordData(p, i);
    RecordData(q, j);
    assert ValidObject(p.h, p.h[i]) && ValidObject(q.h, q.h[j]);
    var s := PropsData(Below(p, i), Keys(p, i), p.h[i].props);
    var t := PropsData(Below(q, j), Keys(q, j), q.h[j].props);
    assert forall k :: k in s <==> k in Keys(p, i);
    assert forall k :: k in t <==> k in Keys(q, j);
    OrderedKeysDetermined(p.h[i].keys, p.h[i].props, q.h[j].keys, q.h[j].props);
  }

  // ---------------------------------------------------------------- the order of members

  ghost predicate Ascending(keys: seq<Str>) { forall i, j | 0 <= i < j < |keys| :: Precedes(keys[i], keys[j]) }

  lemma KeysAscend(at: Site, id: nat)
    requires Closed(at.h) && id in at.h && at.h[id].Rec?
    ensures Ascending(Keys(at, id))
  {
    assert ValidObject(at.h, at.h[id]);
    var defined := DefinedKeys(at.h[id].keys, at.h[id].props);
    DefinedKeysDistinct(at.h[id].keys, at.h[id].props);
    DistinctCounts(defined);
    var keys := Keys(at, id);
    assert keys == Sort(defined);
    hide DefinedKeys, Sort, Keys, Precedes;
    forall i, j | 0 <= i < j < |keys| ensures Precedes(keys[i], keys[j]) {
      SortAscends(defined, i, j);
      if keys[i] == keys[j] { TwiceCounts(keys, i, j); }
    }
  }

  lemma TwiceCounts(s: seq<Str>, i: nat, j: nat)
    requires i < j < |s| && s[i] == s[j]
    ensures multiset(s)[s[i]] >= 2
  {
    assert s == s[..j] + s[j..] && s[..j][i] == s[i] && s[j..][0] == s[i];
    assert multiset(s) == multiset(s[..j]) + multiset(s[j..]);
  }

  ghost function ItemTexts(at: Site, slots: seq<Slot>): seq<Str>
    requires ReadySlots(at, slots)
  {
    seq(|slots|, i requires 0 <= i < |slots| => SlotTextAt(at, slots[i]))
  }

  lemma {:induction false} JoinedItems(at: Site, slots: seq<Slot>)
    requires ReadySlots(at, slots)
    ensures Joined(at, slots) == Join(ItemTexts(at, slots), 44)
  {
    hide SlotTextAt;
    if slots != [] {
      JoinedItems(at, slots[1..]);
      assert ItemTexts(at, slots)[1..] == ItemTexts(at, slots[1..]);
    }
  }

  /** A list is written in brackets, the texts of its items in order with commas between, nothing for a hole. */
  lemma ListReads(at: Site, id: nat)
    requires Ready(at, Ref(id)) && at.h[id].Arr?
    ensures ReadySlots(Below(at, id), at.h[id].slots)
    ensures TextAt(at, Ref(id)) == Ascii("[") + Join(ItemTexts(Below(at, id), at.h[id].slots), 44) + Ascii("]")
  {
    ListReady(at, id);
    ListText(at, id);
    JoinedItems(Below(at, id), at.h[id].slots);
    hide TextAt, Joined, Join, ItemTexts;
  }

  ghost function MemberTexts(at: Site, keys: seq<Str>, props: map<Str, Value>): seq<Str>
    requires ReadyProps(at, keys, props)
  {
    seq(|keys|, i requires 0 <= i < |keys| => assert keys[i] in keys; Quote(keys[i]) + Ascii(":") + TextAt(at, props[keys[i]]))
  }

  lemma {:induction false} JoinedMembers(at: Site, keys: seq<Str>, props: map<Str, Value>)
    requires ReadyProps(at, keys, props)
    ensures JoinedEntries(at, keys, props) == Join(MemberTexts(at, keys, props), 44)
  {
    hide Quote, TextAt, Ready;
    if keys != [] {
      assert keys[0] in keys;
      JoinedMembers(at, keys[1..], props);
      assert MemberTexts(at, keys, props)[1..] == MemberTexts(at, keys[1..], props);
    }
  }

  /**
   * A record is written in braces as its defined members, in ascending order of their keys by code unit: each key quoted and
   * followed by a colon and its value's text, with commas between.
   */
  lemma RecordReads(at: Site, id: nat) returns (keys: seq<Str>)
    requires Ready(at, Ref(id)) && at.h[id].Rec?
    ensures Ascending(keys) && forall k :: k in keys <==> k in at.h[id].props && at.h[id].props[k] != Undefined
    ensures ReadyProps(Below(at, id), keys, at.h[id].props)
    ensures TextAt(at, Ref(id)) == Ascii("{") + Join(MemberTexts(Below(at, id), keys, at.h[id].props), 44) + Ascii("}")
  {
    keys := Keys(at, id);
    assert ValidObject(at.h, at.h[id]);
    KeysAscend(at, id);
    RecordText(at, id);
    JoinedMembers(Below(at, id), keys, at.h[id].props);
    hide TextAt, JoinedEntries, Join, MemberTexts, Sort, DefinedKeys;
  }

  /** Everything that is no object: bigints are quoted decimals, what JSON lacks is null. */
  lemma PrimitivesRead(v: Value)
    requires !v.Ref?
    ensures v.Bool? ==> PrimitiveText(v) == if v.b then Ascii("true") else Ascii("false")
    ensures v.BigInt? ==>
      PrimitiveText(v) == Ascii("\"") + (if v.negative && v.magnitude > 0 then Ascii("-") else []) + Dec(v.magnitude) + Ascii("\"")
    ensures NullLike(v) ==> PrimitiveText(v) == Ascii("null")
  {
    hide NumberText;
    if v.Text? { hide Escape; }
    if v.BigInt? { BigIntReads(v.negative, v.magnitude); }
  }

  lemma BigIntReads(negative: bool, n: nat)
    ensures Quote(BigIntText(negative, n)) == Ascii("\"") + (if negative && n > 0 then Ascii("-") else []) + Dec(n) + Ascii("\"")
  {
    PlainEscapes(BigIntText(negative, n));
  }

  lemma {:induction false} PlainEscapes(s: Str)
    requires forall i | 0 <= i < |s| :: IsDigit(s[i]) || s[i] == MINUS
    ensures Escape(s) == s
  {
    if s != [] { PlainEscapes(s[1..]); }
  }

  // ---------------------------------------------------------------- main results

  /** Payloads the encoder accepts have the same text exactly when they are the same JSON data. */
  lemma PayloadTextIdentifies(h: Heap, v: Value, h': Heap, v': Value)
    requires Closed(h) && Known(h, v) && PayloadText(h, v).Ok?
    requires Closed(h') && Known(h', v') && PayloadText(h', v').Ok?
    ensures Fits(h, v, MAX_PAYLOAD_DEPTH) && Fits(h', v', MAX_PAYLOAD_DEPTH)
    ensures PayloadText(h, v) == PayloadText(h', v')
       <==> Denote(h, v, MAX_PAYLOAD_DEPTH) == Denote(h', v', MAX_PAYLOAD_DEPTH)
  {
    hide Canonical, Fits, Denote;
    PayloadTextAnswers(h, v);
    PayloadTextAnswers(h', v');
    var p, q := Site(h, 0, {}), Site(h', 0, {});
    if PayloadText(h, v) == PayloadText(h', v') {
      assert TextAt(p, v) + [] == TextAt(q, v') + [];
      ValueCut(p, v, q, v', [], []);
    }
    if DataAt(p, v) == DataAt(q, v') {
      SameDataSameText(p, v, q, v');
    }
  }

  /** Heaps that differ at most in the order their records enumerate keys. */
  ghost predicate SameUpToKeyOrder(h: Heap, h': Heap) {
    h.Keys == h'.Keys && forall id | id in h ::
      if h[id].Arr? then h'[id] == h[id] else h'[id].Rec? && h'[id].props == h[id].props
  }

  lemma {:induction false} ReorderingKeepsData(h: Heap, h': Heap, v: Value, levels: int)
    requires Closed(h) && Closed(h') && SameUpToKeyOrder(h, h') && Known(h, v)
    ensures Fits(h, v, levels) <==> Fits(h', v, levels)
    ensures Fits(h, v, levels) ==> Denote(h, v, levels) == Denote(h', v, levels)
    decreases if levels >= 0 then levels + 1 else 0, 0
  {
    if levels >= 0 && v.Ref? {
      assert ValidObject(h, h[v.id]);
      match h[v.id]
      case Arr(slots) => ReorderingKeepsList(h, h', v.id, levels);
      case Rec(_, props) => ReorderingKeepsRecord(h, h', v.id, levels);
    }
  }

  lemma ReorderingKeepsList(h: Heap, h': Heap, id: nat, levels: int)
    requires Closed(h) && Closed(h') && SameUpToKeyOrder(h, h') && id in h && h[id].Arr? && levels >= 0
    ensures Fits(h, Ref(id), levels) <==> Fits(h', Ref(id), levels)
    ensures Fits(h, Ref(id), levels) ==> Denote(h, Ref(id), levels) == Denote(h', Ref(id), levels)
    decreases levels, 1
  {
    var slots := h[id].slots;
    assert ValidObject(h, h[id]) && h'[id] == h[id];
    forall i | 0 <= i < |slots| && slots[i].Item?
      ensures Fits(h, slots[i].v, levels - 1) <==> Fits(h', slots[i].v, levels - 1)
      ensures Fits(h, slots[i].v, levels - 1) ==> SlotJson(h, slots[i], levels - 1) == SlotJson(h', slots[i], levels - 1)
    {
      ReorderingKeepsData(h, h', slots[i].v, levels - 1);
    }
    if Fits(h, Ref(id), levels) {
      hide ListJson, SlotJson;
      assert seq(|slots|, i requires 0 <= i < |slots| => SlotJson(h, slots[i], levels - 1))
          == seq(|slots|, i requires 0 <= i < |slots| => SlotJson(h', slots[i], levels - 1));
    }
  }

  lemma ReorderingKeepsRecord(h: Heap, h': Heap, id: nat, levels: int)
    requires Closed(h) && Closed(h') && SameUpToKeyOrder(h, h') && id in h && h[id].Rec? && levels >= 0
    ensures Fits(h, Ref(id), levels) <==> Fits(h', Ref(id), levels)
    ensures Fits(h, Ref(id), levels) ==> Denote(h, Ref(id), levels) == Denote(h', Ref(id), levels)
    decreases levels, 1
  {
    var props := h[id].props;
    assert ValidObject(h, h[id]) && h'[id].props == props;
    forall k | k in props && props[k] != Undefined
      ensures Fits(h, props[k], levels - 1) <==> Fits(h', props[k], levels - 1)
      ensures Fits(h, props[k], levels - 1) ==> Denote(h, props[k], levels - 1) == Denote(h', props[k], levels - 1)
    {
      ReorderingKeepsData(h, h', props[k], levels - 1);
    }
    if Fits(h, Ref(id), levels) {
      SameRecordData(h, h', id, levels);
    }
  }

  lemma SameRecordData(h: Heap, h': Heap, id: nat, levels: int)
    requires Closed(h) && Closed(h') && id in h && id in h' && h[id].Rec? && h'[id].Rec? && h[id].props == h'[id].props
    requires Fits(h, Ref(id), levels) && Fits(h', Ref(id), levels)
    requires forall k | k in h[id].props && h[id].props[k] != Undefined ::
      Known(h, h[id].props[k]) && Known(h', h[id].props[k]) &&
      (Fits(h, h[id].props[k], levels - 1) && Fits(h', h[id].props[k], levels - 1) ==>
       Denote(h, h[id].props[k], levels - 1) == Denote(h', h[id].props[k], levels - 1))
    ensures Denote(h, Ref(id), levels) == Denote(h', Ref(id), levels)
  {
    DenoteRecord(h, id, levels);
    DenoteRecord(h', id, levels);
    hide Denote, Fits;
    var f, g := Denote(h, Ref(id), levels).fields, Denote(h', Ref(id), levels).fields;
    assert f.Keys == g.Keys;
    assert f == g;
  }

  /** Permuting the entries of any objects in the payload never changes its text. */
  lemma KeyOrderNeverMatters(h: Heap, h': Heap, v: Value)
    requires Closed(h) && Closed(h') && SameUpToKeyOrder(h, h') && Known(h, v)
    ensures PayloadText(h, v).Ok? <==> PayloadText(h', v).Ok?
    ensures PayloadText(h, v).Ok? ==> PayloadText(h, v) == PayloadText(h', v)
  {
    hide Canonical, Fits, Denote;
    PayloadTextAnswers(h, v);
    PayloadTextAnswers(h', v);
    ReorderingKeepsData(h, h', v, MAX_PAYLOAD_DEPTH);
    if PayloadText(h, v).Ok? { PayloadTextIdentifies(h, v, h', v); }
  }

  /** Undefined, functions, symbols, null and the non-finite numbers are all written as null. */
  predicate NullLike(v: Value) { v.Undefined? || v.Callable? || v.Null? || v.NonFinite? }

  predicate Zero(v: Value) { v.Num? && v.n.digits == [] }

  /** The string a string or a bigint is quoted as. */
  function Spelled(v: Value): Str
    requires v.Text? || v.BigInt?
  {
    if v.Text? then v.s else BigIntText(v.negative, v.magnitude)
  }

  predicate Alike(u: Value, v: Value) {
    u == v || (NullLike(u) && NullLike(v)) || (Zero(u) && Zero(v))
    || ((u.Text? || u.BigInt?) && (v.Text? || v.BigInt?) && Spelled(u) == Spelled(v))
  }

  /** Exactly which primitive values share a text: the encoder is injective on data, not on JavaScript values. */
  lemma SharedTexts(u: Value, v: Value)
    requires !u.Ref? && !v.Ref?
    ensures PrimitiveText(u) == PrimitiveText(v) <==> Alike(u, v)
  {
    hide PrimitiveText, LeafText, BigIntText, Leaf;
    PrimitiveLeaf(u);
    PrimitiveLeaf(v);
    if PrimitiveText(u) == PrimitiveText(v) { LeafCut(PrimitiveJson(u), PrimitiveJson(v), [], []); }
    assert PrimitiveText(u) == PrimitiveText(v) <==> PrimitiveJson(u) == PrimitiveJson(v);
  }

  /** In a list one such value can stand for the other: nothing around it changes. */
  lemma {:induction false} SharedInList(h: Heap, slots: seq<Slot>, i: nat, v: Value, depth: nat, seen: set<nat>)
    requires Closed(h) && KnownSlots(h, slots) && i < |slots| && slots[i].Item?
    requires !slots[i].v.Ref? && !v.Ref? && Alike(slots[i].v, v)
    ensures KnownSlots(h, slots[i := Item(v)])
    ensures ItemsText(h, slots[i := Item(v)], depth, seen) == ItemsText(h, slots, depth, seen)
    decreases i
  {
    SharedTexts(slots[i].v, v);
    var changed := slots[i := Item(v)];
    hide PrimitiveText, Alike;
    assert SlotText(h, changed[0], depth, seen) == SlotText(h, slots[0], depth, seen);
    if i == 0 {
      assert changed[1..] == slots[1..];
    } else {
      assert changed[1..] == slots[1..][i - 1 := Item(v)];
      SharedInList(h, slots[1..], i - 1, v, depth, seen);
    }
  }

  lemma {:induction false} EntriesShared(
      h: Heap, keys: seq<Str>, props: map<Str, Value>, key: Str, v: Value, depth: nat, seen: set<nat>)
    requires Closed(h) && KnownProps(h, props) && key in props && forall k | k in keys :: k in props
    requires !props[key].Ref? && !v.Ref? && Alike(props[key], v)
    ensures KnownProps(h, props[key := v])
    ensures EntriesText(h, keys, props[key := v], depth, seen) == EntriesText(h, keys, props, depth, seen)
    decreases |keys|
  {
    SharedTexts(props[key], v);
    hide PrimitiveText, Alike, Quote;
    if keys != [] {
      assert Canonical(h, props[key := v][keys[0]], depth, seen) == Canonical(h, props[keys[0]], depth, seen);
      EntriesShared(h, keys[1..], props, key, v, depth, seen);
    }
  }

  lemma {:induction false} DefinedKeysStay(keys: seq<Str>, props: map<Str, Value>, key: Str, v: Value)
    requires key in props && (props[key] == Undefined <==> v == Undefined) && forall k | k in keys :: k in props
    ensures DefinedKeys(keys, props[key := v]) == DefinedKeys(keys, props)
  {
    if keys != [] { DefinedKeysStay(keys[1..], props, key, v); }
  }

  /** In a record too, unless one of the two is undefined and the other is not: an undefined entry is left out, key and all. */
  lemma SharedInRecord(h: Heap, keys: seq<Str>, props: map<Str, Value>, key: Str, v: Value, depth: nat, seen: set<nat>)
    requires Closed(h) && KnownProps(h, props) && key in props && forall k | k in keys :: k in props
    requires !props[key].Ref? && !v.Ref? && Alike(props[key], v) && (props[key] == Undefined <==> v == Undefined)
    ensures KnownProps(h, props[key := v])
    ensures EntriesText(h, OrderedKeys(keys, props[key := v]), props[key := v], depth, seen)
         == EntriesText(h, OrderedKeys(keys, props), props, depth, seen)
  {
    DefinedKeysStay(keys, props, key, v);
    EntriesShared(h, OrderedKeys(keys, props), props, key, v, depth, seen);
    hide EntriesText, Alike, Sort;
  }
}
