/** The canonical text of an approval payload: what computePayloadDigest hashes. */
module PayloadDigest {
  import opened JsText
  import opened JsNumber
  import opened JsonQuote

  const MAX_PAYLOAD_DEPTH: int := 16

  /** A JavaScript value; objects live in a heap and may be shared or cyclic. */
  datatype Value =
    | Undefined
    | Callable // functions and symbols
    | Null
    | Bool(b: bool)
    | NonFinite // NaN and the infinities
    | Num(n: Finite)
    | Text(s: Str)
    | BigInt(negative: bool, magnitude: nat)
    | Ref(id: nat)

  datatype Slot = Hole | Item(v: Value)

  /** `keys` is the enumeration order of the own enumerable properties. */
  datatype Object = Arr(slots: seq<Slot>) | Rec(keys: seq<Str>, props: map<Str, Value>)

  type Heap = map<nat, Object>

  ghost predicate Known(h: Heap, v: Value) { v.Ref? ==> v.id in h }

  ghost predicate KnownSlots(h: Heap, slots: seq<Slot>) {
    forall i | 0 <= i < |slots| && slots[i].Item? :: Known(h, slots[i].v)
  }

  ghost predicate KnownProps(h: Heap, props: map<Str, Value>) { forall k | k in props :: Known(h, props[k]) }

  ghost predicate Enumerates(keys: seq<Str>, props: map<Str, Value>) {
    (forall k :: k in keys <==> k in props) && forall i, j | 0 <= i < j < |keys| :: keys[i] != keys[j]
  }

  ghost predicate ValidObject(h: Heap, o: Object) {
    match o
    case Arr(slots) => KnownSlots(h, slots)
    case Rec(keys, props) => Enumerates(keys, props) && KnownProps(h, props)
  }

  ghost predicate Closed(h: Heap) { forall id | id in h :: ValidObject(h, h[id]) }

  // ---------------------------------------------------------------- the encoder

  datatype Outcome = Ok(text: Str) | TooDeep | Cyclic

  const COMMA: Unit := 44
  const COLON: Unit := 58
  const OPEN_LIST: Unit := 91
  const CLOSE_LIST: Unit := 93
  const OPEN_RECORD: Unit := 123
  const CLOSE_RECORD: Unit := 125
  const NULL_TEXT: Str := [110, 117, 108, 108]
  const TRUE_TEXT: Str := [116, 114, 117, 101]
  const FALSE_TEXT: Str := [102, 97, 108, 115, 101]

  function BigIntText(negative: bool, magnitude: nat): Str {
    (if negative && magnitude > 0 then [MINUS] else []) + Dec(magnitude)
  }

  function PrimitiveText(v: Value): Str
    requires !v.Ref?
  {
    match v
    case Bool(b) => if b then TRUE_TEXT else FALSE_TEXT
    case Num(n) => NumberText(n)
    case Text(s) => Quote(s)
    case BigInt(negative, magnitude) => Quote(BigIntText(negative, magnitude))
    case _ => NULL_TEXT
  }

  function DefinedKeys(keys: seq<Str>, props: map<Str, Value>): (r: seq<Str>)
    requires forall k | k in keys :: k in props
    ensures forall k :: k in r <==> k in keys && props[k] != Undefined
  {
    if keys == [] then []
    else
      assert keys == [keys[0]] + keys[1..];
      (if props[keys[0]] != Undefined then [keys[0]] else []) + DefinedKeys(keys[1..], props)
  }

  /** Keys in the order the encoder visits them. */
  function OrderedKeys(keys: seq<Str>, props: map<Str, Value>): (r: seq<Str>)
    requires forall k | k in keys :: k in props
    ensures forall k :: k in r <==> k in keys && props[k] != Undefined
  {
    var r := Sort(DefinedKeys(keys, props));
    assert forall k :: k in r <==> k in multiset(r);
    assert forall k :: k in DefinedKeys(keys, props) <==> k in multiset(DefinedKeys(keys, props));
    r
  }

  function Wrap(open: Unit, body: Outcome, close: Unit): Outcome {
    if body.Ok? then Ok([open] + body.text + [close]) else body
  }

  function Levels(depth: nat): nat { if depth <= MAX_PAYLOAD_DEPTH then MAX_PAYLOAD_DEPTH + 1 - depth else 0 }

  function Canonical(h: Heap, v: Value, depth: nat, seen: set<nat>): Outcome
    requires Closed(h) && Known(h, v)
    decreases Levels(depth), 0
  {
    if depth > MAX_PAYLOAD_DEPTH then TooDeep
    else if !v.Ref? then Ok(PrimitiveText(v))
    else if v.id in seen then Cyclic
    else match h[v.id]
      case Arr(slots) => Wrap(OPEN_LIST, ItemsText(h, slots, depth + 1, seen + {v.id}), CLOSE_LIST)
      case Rec(keys, props) =>
        Wrap(OPEN_RECORD, EntriesText(h, OrderedKeys(keys, props), props, depth + 1, seen + {v.id}), CLOSE_RECORD)
  }

  function SlotText(h: Heap, slot: Slot, depth: nat, seen: set<nat>): Outcome
    requires Closed(h) && KnownSlots(h, [slot])
    decreases Levels(depth), 1
  {
    if slot.Hole? then Ok([]) else
      assert [slot][0] == slot;
      Canonical(h, slot.v, depth, seen)
  }

  /** Items joined by commas, failing as the first failing item does. */
  function ItemsText(h: Heap, slots: seq<Slot>, depth: nat, seen: set<nat>): Outcome
    requires Closed(h) && KnownSlots(h, slots)
    decreases Levels(depth), 2, |slots|
  {
    if slots == [] then Ok([]) else
    var first := SlotText(h, slots[0], depth, seen);
    if !first.Ok? || |slots| == 1 then first else
    var rest := ItemsText(h, slots[1..], depth, seen);
    if rest.Ok? then Ok(first.text + [COMMA] + rest.text) else rest
  }

  function EntryText(h: Heap, key: Str, v: Value, depth: nat, seen: set<nat>): Outcome
    requires Closed(h) && Known(h, v)
    decreases Levels(depth), 1
  {
    var value := Canonical(h, v, depth, seen);
    if value.Ok? then Ok(Quote(key) + [COLON] + value.text) else value
  }

  function EntriesText(h: Heap, keys: seq<Str>, props: map<Str, Value>, depth: nat, seen: set<nat>): Outcome
    requires Closed(h) && KnownProps(h, props) && forall k | k in keys :: k in props
    decreases Levels(depth), 2, |keys|
  {
    if keys == [] then Ok([]) else
    var first := EntryText(h, keys[0], props[keys[0]], depth, seen);
    if !first.Ok? || |keys| == 1 then first else
    var rest := EntriesText(h, keys[1..], props, depth, seen);
    if rest.Ok? then Ok(first.text + [COMMA] + rest.text) else rest
  }

  /** The text computePayloadDigest feeds to SHA-256. */
  function PayloadText(h: Heap, v: Value): Outcome
    requires Closed(h) && Known(h, v)
  {
    Canonical(h, v, 0, {})
  }

  // ---------------------------------------------------------------- what a payload means

  /** JSON data: objects are maps, so key order is gone; zeros, null-likes and bigints are identified. */
  datatype Json =
    | JNull
    | JHole
    | JBool(b: bool)
    | JNum(n: Finite)
    | JText(s: Str)
    | JList(items: seq<Json>)
    | JRecord(fields: map<Str, Json>)

  /** Every chain of references below v is at most `levels` long. */
  ghost predicate Fits(h: Heap, v: Value, levels: int)
    requires Closed(h) && Known(h, v)
    decreases if levels >= 0 then levels + 1 else 0
  {
    levels >= 0 && (v.Ref? ==>
      match h[v.id]
      case Arr(slots) => forall i | 0 <= i < |slots| && slots[i].Item? :: Fits(h, slots[i].v, levels - 1)
      case Rec(keys, props) => forall k | k in props && props[k] != Undefined :: Fits(h, props[k], levels - 1))
  }

  ghost function PrimitiveJson(v: Value): Json
    requires !v.Ref?
  {
    match v
    case Bool(b) => JBool(b)
    case Num(n) => JNum(if n.digits == [] then Decimal(false, [], 0) else n)
    case Text(s) => JText(s)
    case BigInt(negative, magnitude) => JText(BigIntText(negative, magnitude))
    case _ => JNull
  }

  ghost function SlotJson(h: Heap, slot: Slot, levels: int): Json
    requires Closed(h) && (slot.Item? ==> Known(h, slot.v) && Fits(h, slot.v, levels))
    decreases if levels >= 0 then levels + 1 else 0, 1
  {
    if slot.Hole? then JHole else Denote(h, slot.v, levels)
  }

  /** An array of one hole reads as an empty array; every other hole keeps its place. */
  ghost function ListJson(items: seq<Json>): Json { JList(if items == [JHole] then [] else items) }

  ghost function Denote(h: Heap, v: Value, levels: int): Json
    requires Closed(h) && Known(h, v) && Fits(h, v, levels)
    decreases if levels >= 0 then levels + 1 else 0, 0
  {
    if !v.Ref? then PrimitiveJson(v)
    else match h[v.id]
      case Arr(slots) => ListJson(seq(|slots|, i requires 0 <= i < |slots| => SlotJson(h, slots[i], levels - 1)))
      case Rec(keys, props) => JRecord(map k | k in props && props[k] != Undefined :: Denote(h, props[k], levels - 1))
  }
}
