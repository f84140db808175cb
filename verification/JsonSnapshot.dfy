/** snapshotPlainJsonDto: the copy of an untrusted node graph into plain JSON data. */
module JsonSnapshot {
  import opened JsText
  import opened JsNumber
  import opened ObjectPaths
  import opened Options

  /** NonFinite is NaN or an infinity; Unsupported is undefined, a bigint or a symbol. */
  datatype Primitive = Null | Bool(b: bool) | Number(n: Finite) | NonFinite | Text(s: Str) | Unsupported | Function

  type Value = Item<Primitive>

  /** An own property as getOwnPropertyDescriptor shows it. */
  datatype Property = Data(value: Value, enumerable: bool) | Accessor

  datatype Slot = Hole | Elem(property: Property)

  /** Host is any other node: a Date, a Map, a class instance and the like. */
  datatype Object =
    | Proxy
    | Host
    | Array(slots: seq<Slot>, customNames: nat, symbols: nat)
    | Record(keys: seq<Str>, props: map<Str, Property>, symbols: nat)

  type Heap = map<nat, Object>

  datatype Limits = Limits(
    maxNodes: int, maxDepth: int, maxObjectKeys: int, maxArrayLength: int, maxStringLength: int, maxKeyLength: int)

  datatype Failure =
    | UNSUPPORTED_VALUE | ACCESSOR | PROXY | CYCLE | SYMBOL_KEY | SPARSE_ARRAY | NON_PLAIN | FUNCTION | TOO_COMPLEX

  datatype Json = Plain(primitive: Primitive) | JsonList(items: seq<Json>) | JsonRecord(keys: seq<Str>, items: seq<Json>)

  datatype Result = Snapshot(value: Json) | Failed(code: Failure)

  // ---------------------------------------------------------------- the graph behind a heap

  function PropertyValue(p: Property): Value { if p.Data? then p.value else Leaf(Unsupported) }

  function SlotValue(s: Slot): Value { if s.Elem? then PropertyValue(s.property) else Leaf(Unsupported) }

  function ChildValues(o: Object): seq<Value>
    requires o.Record? ==> forall i | 0 <= i < |o.keys| :: o.keys[i] in o.props
  {
    match o
    case Array(slots, _, _) => seq(|slots|, i requires 0 <= i < |slots| => SlotValue(slots[i]))
    case Record(keys, props, _) =>
      seq(|keys|, i requires 0 <= i < |keys| && forall k | 0 <= k < |keys| :: keys[k] in props => PropertyValue(props[keys[i]]))
    case _ => []
  }

  ghost predicate Known(h: Heap, v: Value) { v.Ref? ==> v.id in h }

  /** Own keys are listed once each, and values refer to existing objects. */
  ghost predicate ValidObject(h: Heap, o: Object) {
    (o.Record? ==> Distinct(o.keys) && forall i | 0 <= i < |o.keys| :: o.keys[i] in o.props)
    && forall i | 0 <= i < |ChildValues(o)| :: Known(h, ChildValues(o)[i])
  }

  ghost predicate ValidHeap(h: Heap) { forall id | id in h :: ValidObject(h, h[id]) }

  ghost function GraphOf(h: Heap): Graph<Primitive>
    requires ValidHeap(h)
  {
    map id | id in h :: (assert ValidObject(h, h[id]); ChildValues(h[id]))
  }

  // ---------------------------------------------------------------- what is admitted

  predicate PlainProperty(p: Property) { p.Data? && p.enumerable }

  predicate PlainObject(lim: Limits, o: Object) {
    match o
    case Array(slots, customNames, symbols) =>
      |slots| <= lim.maxArrayLength && symbols == 0 && customNames == 0
      && forall i | 0 <= i < |slots| :: slots[i].Elem? && slots[i].property.Data?
    case Record(keys, props, symbols) =>
      |keys| <= lim.maxObjectKeys && symbols == 0
      && forall i | 0 <= i < |keys| :: 0 < |keys[i]| <= lim.maxKeyLength && keys[i] in props && PlainProperty(props[keys[i]])
    case _ => false
  }

  predicate PlainPrimitive(lim: Limits, p: Primitive) {
    p.Null? || p.Bool? || p.Number? || (p.Text? && |p.s| <= lim.maxStringLength)
  }

  ghost function Admissible(h: Heap, lim: Limits): Value -> bool {
    (v: Value) => if v.Leaf? then PlainPrimitive(lim, v.leaf) else v.id in h && PlainObject(lim, h[v.id])
  }

  ghost predicate Unseen(seen: set<nat>, objects: seq<nat>) {
    Distinct(objects) && forall i | 0 <= i < |objects| :: objects[i] !in seen
  }

  /** The node budget; a value without objects needs none. */
  ghost predicate Room(lim: Limits, nodes: int, objects: seq<nat>) { objects != [] ==> nodes + |objects| <= lim.maxNodes }

  ghost predicate Admitted(h: Heap, lim: Limits, v: Value, levels: int, seen: set<nat>, nodes: int)
    requires ValidHeap(h)
  {
    var g := GraphOf(h);
    Fits(g, Admissible(h, lim), v, levels) && Unseen(seen, Objects(g, v, levels)) && Room(lim, nodes, Objects(g, v, levels))
  }

  ghost predicate AllAdmitted(h: Heap, lim: Limits, vs: seq<Value>, levels: int, seen: set<nat>, nodes: int)
    requires ValidHeap(h)
  {
    var g := GraphOf(h);
    (forall i | 0 <= i < |vs| :: Fits(g, Admissible(h, lim), vs[i], levels))
    && Unseen(seen, ObjectsOf(g, vs, levels)) && Room(lim, nodes, ObjectsOf(g, vs, levels))
  }

  lemma UnseenConcat(seen: set<nat>, a: seq<nat>, b: seq<nat>)
    ensures Unseen(seen, a + b) <==> Unseen(seen, a) && Unseen(seen + Members(a), b)
  {
    if Unseen(seen, a + b) {
      assert forall i | 0 <= i < |a| :: (a + b)[i] == a[i];
      assert forall i | 0 <= i < |b| :: (a + b)[|a| + i] == b[i];
    }
    if Unseen(seen, a) && Unseen(seen + Members(a), b) {
      forall i, j | 0 <= i < j < |a + b| ensures (a + b)[i] != (a + b)[j] {
        if i < |a| <= j { assert a[i] in Members(a) && b[j - |a|] !in Members(a); }
      }
    }
  }

  /** Admission of a list, one element at a time. */
  lemma AdmittedUpTo(h: Heap, lim: Limits, vs: seq<Value>, k: nat, levels: int, seen: set<nat>, nodes: int)
    requires ValidHeap(h) && k < |vs|
    ensures var before := ObjectsOf(GraphOf(h), vs[..k], levels);
      var here := Objects(GraphOf(h), vs[k], levels);
      ObjectsOf(GraphOf(h), vs[..k + 1], levels) == before + here
      && (AllAdmitted(h, lim, vs[..k + 1], levels, seen, nodes)
          <==> AllAdmitted(h, lim, vs[..k], levels, seen, nodes)
               && Admitted(h, lim, vs[k], levels, seen + Members(before), nodes + |before|))
  {
    var g := GraphOf(h);
    var before, here := ObjectsOf(g, vs[..k], levels), Objects(g, vs[k], levels);
    assert ObjectsOf(g, [vs[k]], levels) == here by {
      assert [vs[k]][1..] == [] && ObjectsOf(g, [vs[k]][1..], levels) == [];
    }
    assert vs[..k + 1] == vs[..k] + [vs[k]];
    ObjectsOfConcat(g, vs[..k], [vs[k]], levels);
    UnseenConcat(seen, before, here);
    hide Objects, ObjectsOf, Fits, Unseen, GraphOf, Admissible;
    assert forall i | 0 <= i < k :: vs[..k + 1][i] == vs[..k][i];
    assert vs[..k + 1][k] == vs[k];
  }

  /** If a prefix is not admitted, nothing longer is. */
  lemma PrefixAdmitted(h: Heap, lim: Limits, vs: seq<Value>, k: nat, levels: int, seen: set<nat>, nodes: int)
    requires ValidHeap(h) && k <= |vs| && AllAdmitted(h, lim, vs, levels, seen, nodes)
    ensures AllAdmitted(h, lim, vs[..k], levels, seen, nodes)
  {
    var g := GraphOf(h);
    assert vs == vs[..k] + vs[k..];
    ObjectsOfConcat(g, vs[..k], vs[k..], levels);
    UnseenConcat(seen, ObjectsOf(g, vs[..k], levels), ObjectsOf(g, vs[k..], levels));
    hide ObjectsOf, Fits, Unseen, GraphOf, Admissible;
  }

  lemma ObjectAdmitted(h: Heap, lim: Limits, id: nat, levels: int, seen: set<nat>, nodes: int)
    requires ValidHeap(h) && id in h
    ensures var rest := ObjectsOf(GraphOf(h), ChildValues(h[id]), levels - 1);
      (levels >= 0 ==> Objects(GraphOf(h), Ref(id), levels) == [id] + rest)
      && (Admitted(h, lim, Ref(id), levels, seen, nodes)
          <==> levels >= 0 && PlainObject(lim, h[id]) && id !in seen && nodes < lim.maxNodes
               && AllAdmitted(h, lim, ChildValues(h[id]), levels - 1, seen + {id}, nodes + 1))
  {
    var g := GraphOf(h);
    assert Children(g, Ref(id)) == ChildValues(h[id]);
    var rest := ObjectsOf(g, ChildValues(h[id]), levels - 1);
    if levels >= 0 {
      assert Objects(g, Ref(id), levels) == [id] + rest;
      UnseenConcat(seen, [id], rest);
      assert Members([id]) == {id};
      hide ObjectsOf, GraphOf, Objects;
    }
  }

  lemma LeafAdmitted(h: Heap, lim: Limits, p: Primitive, levels: int, seen: set<nat>, nodes: int)
    requires ValidHeap(h)
    ensures Objects(GraphOf(h), Leaf(p), levels) == []
    ensures Admitted(h, lim, Leaf(p), levels, seen, nodes) <==> levels >= 0 && PlainPrimitive(lim, p)
  {
    hide GraphOf;
  }

  // ---------------------------------------------------------------- what is copied

  ghost function Copy(h: Heap, v: Value, levels: int): Json
    requires ValidHeap(h)
    decreases levels, 1
  {
    if v.Leaf? then Plain(v.leaf)
    else if levels < 0 || v.id !in h then Plain(Null)
    else
      var items := CopyAll(h, ChildValues(h[v.id]), levels - 1);
      if h[v.id].Record? then JsonRecord(h[v.id].keys, items) else JsonList(items)
  }

  ghost function CopyAll(h: Heap, vs: seq<Value>, levels: int): (r: seq<Json>)
    requires ValidHeap(h)
    ensures |r| == |vs| && forall i | 0 <= i < |vs| :: r[i] == Copy(h, vs[i], levels)
    decreases levels, 2
  {
    seq(|vs|, i requires 0 <= i < |vs| => Copy(h, vs[i], levels))
  }

  function Filled(slots: seq<Slot>): nat {
    if slots == [] then 0 else Filled(slots[1..]) + if slots[0].Hole? then 0 else 1
  }

  lemma {:induction false} FilledExactly(slots: seq<Slot>)
    ensures Filled(slots) <= |slots|
    ensures Filled(slots) == |slots| <==> forall i | 0 <= i < |slots| :: slots[i].Elem?
  {
    if slots != [] {
      FilledExactly(slots[1..]);
      assert forall i | 0 < i < |slots| :: slots[i] == slots[1..][i - 1];
    }
  }

  // ---------------------------------------------------------------- the walk

  class Walker {
    const h: Heap
    const limits: Limits
    var nodes: int
    var seen: set<nat>

    constructor (h: Heap, limits: Limits)
      ensures this.h == h && this.limits == limits && nodes == 0 && seen == {}
    {
      this.h, this.limits, nodes, seen := h, limits, 0, {};
    }

    method Walk(value: Value, depth: int) returns (r: Result)
      requires ValidHeap(h) && Known(h, value)
      modifies this
      ensures r.Snapshot? <==> Admitted(h, limits, value, limits.maxDepth - depth, old(seen), old(nodes))
      ensures var objects := Objects(GraphOf(h), value, limits.maxDepth - depth);
        r.Snapshot? ==> r.value == Copy(h, value, limits.maxDepth - depth)
                        && seen == old(seen) + Members(objects) && nodes == old(nodes) + |objects|
      decreases limits.maxDepth - depth, 2
    {
      ghost var levels := limits.maxDepth - depth;
      if value.Leaf? {
        LeafAdmitted(h, limits, value.leaf, levels, seen, nodes);
        hide Admitted, GraphOf, Objects;
        if depth > limits.maxDepth { return Failed(TOO_COMPLEX); }
        match value.leaf {
          case Null => return Snapshot(Plain(Null));
          case Bool(_) => return Snapshot(Plain(value.leaf));
          case Number(_) => return Snapshot(Plain(value.leaf));
          case NonFinite => return Failed(UNSUPPORTED_VALUE);
          case Text(s) =>
            if |s| <= limits.maxStringLength { return Snapshot(Plain(value.leaf)); }
            return Failed(TOO_COMPLEX);
          case Unsupported => return Failed(UNSUPPORTED_VALUE);
          case Function => return Failed(FUNCTION);
        }
      }
      ObjectAdmitted(h, limits, value.id, levels, seen, nodes);
      hide Admitted, AllAdmitted, GraphOf, Objects, ObjectsOf, PlainObject;
      if depth > limits.maxDepth { return Failed(TOO_COMPLEX); }
      var node := h[value.id];
      if node.Proxy? {
        assert !PlainObject(limits, node) by { OnlyRecordsAndArrays(limits, node); }
        return Failed(PROXY);
      }
      if value.id in seen { return Failed(CYCLE); }
      seen := seen + {value.id};
      if nodes >= limits.maxNodes { return Failed(TOO_COMPLEX); }
      nodes := nodes + 1;
      if node.Array? {
        r := WalkArray(node, depth);
      } else if node.Host? {
        assert !PlainObject(limits, node) by { OnlyRecordsAndArrays(limits, node); }
        return Failed(NON_PLAIN);
      } else {
        r := WalkRecord(node, depth);
      }
      assert Members([value.id] + ObjectsOf(GraphOf(h), ChildValues(node), levels - 1))
          == {value.id} + Members(ObjectsOf(GraphOf(h), ChildValues(node), levels - 1));
    }

    method WalkArray(node: Object, depth: int) returns (r: Result)
      requires ValidHeap(h) && ValidObject(h, node) && node.Array? && depth <= limits.maxDepth
      modifies this
      ensures var vs, levels := ChildValues(node), limits.maxDepth - depth - 1;
        r.Snapshot? <==> PlainObject(limits, node) && AllAdmitted(h, limits, vs, levels, old(seen), old(nodes))
      ensures var vs, levels := ChildValues(node), limits.maxDepth - depth - 1;
        var objects := ObjectsOf(GraphOf(h), vs, levels);
        r.Snapshot? ==> r.value == JsonList(CopyAll(h, vs, levels))
                        && seen == old(seen) + Members(objects) && nodes == old(nodes) + |objects|
      decreases limits.maxDepth - depth, 1
    {
      hide AllAdmitted, Admitted, GraphOf, Objects, ObjectsOf, Copy;
      ghost var vs, levels := ChildValues(node), limits.maxDepth - depth - 1;
      var slots := node.slots;
      FilledExactly(slots);
      if |slots| > limits.maxArrayLength { return Failed(TOO_COMPLEX); }
      if node.symbols > 0 { return Failed(SYMBOL_KEY); }
      if Filled(slots) + 1 + node.customNames != |slots| + 1 { return Failed(NON_PLAIN); }
      var copy: seq<Json> := [];
      var index := 0;
      NothingAdmitted(h, limits, vs, levels, seen, nodes);
      while index < |slots|
        invariant 0 <= index <= |slots| == |vs|
        invariant forall i | 0 <= i < index :: slots[i].Elem? && slots[i].property.Data?
        invariant AllAdmitted(h, limits, vs[..index], levels, old(seen), old(nodes))
        invariant seen == old(seen) + Members(ObjectsOf(GraphOf(h), vs[..index], levels))
        invariant nodes == old(nodes) + |ObjectsOf(GraphOf(h), vs[..index], levels)|
        invariant copy == CopyAll(h, vs[..index], levels)
      {
        if slots[index].Hole? { return Failed(SPARSE_ARRAY); }
        var property := slots[index].property;
        if property.Accessor? { return Failed(ACCESSOR); }
        ghost var before := ObjectsOf(GraphOf(h), vs[..index], levels);
        AdmittedUpTo(h, limits, vs, index, levels, old(seen), old(nodes));
        if property.value == Leaf(Function) {
          FunctionRefused(h, limits, levels, seen, nodes);
          NotAdmittedFurther(h, limits, vs, index, levels, old(seen), old(nodes));
          return Failed(FUNCTION);
        }
        var nested := Walk(property.value, depth + 1);
        if nested.Failed? {
          NotAdmittedFurther(h, limits, vs, index, levels, old(seen), old(nodes));
          return nested;
        }
        MembersConcat(before, Objects(GraphOf(h), vs[index], levels));
        copy := copy + [nested.value];
        index := index + 1;
      }
      assert vs[..|vs|] == vs;
      return Snapshot(JsonList(copy));
    }

    method WalkRecord(node: Object, depth: int) returns (r: Result)
      requires ValidHeap(h) && ValidObject(h, node) && node.Record? && depth <= limits.maxDepth
      modifies this
      ensures var vs, levels := ChildValues(node), limits.maxDepth - depth - 1;
        r.Snapshot? <==> PlainObject(limits, node) && AllAdmitted(h, limits, vs, levels, old(seen), old(nodes))
      ensures var vs, levels := ChildValues(node), limits.maxDepth - depth - 1;
        var objects := ObjectsOf(GraphOf(h), vs, levels);
        r.Snapshot? ==> r.value == JsonRecord(node.keys, CopyAll(h, vs, levels))
                        && seen == old(seen) + Members(objects) && nodes == old(nodes) + |objects|
      decreases limits.maxDepth - depth, 1
    {
      hide AllAdmitted, Admitted, GraphOf, Objects, ObjectsOf, Copy;
      ghost var vs, levels := ChildValues(node), limits.maxDepth - depth - 1;
      var names := node.keys;
      if node.symbols > 0 { return Failed(SYMBOL_KEY); }
      if |names| > limits.maxObjectKeys { return Failed(TOO_COMPLEX); }
      var keys: seq<Str>, items: seq<Json> := [], [];
      var index := 0;
      NothingAdmitted(h, limits, vs, levels, seen, nodes);
      while index < |names|
        invariant 0 <= index <= |names| == |vs|
        invariant forall i | 0 <= i < index ::
          0 < |names[i]| <= limits.maxKeyLength && PlainProperty(node.props[names[i]])
        invariant AllAdmitted(h, limits, vs[..index], levels, old(seen), old(nodes))
        invariant seen == old(seen) + Members(ObjectsOf(GraphOf(h), vs[..index], levels))
        invariant nodes == old(nodes) + |ObjectsOf(GraphOf(h), vs[..index], levels)|
        invariant items == CopyAll(h, vs[..index], levels) && keys == names[..index]
      {
        var key := names[index];
        if |key| == 0 || |key| > limits.maxKeyLength { return Failed(TOO_COMPLEX); }
        var property := node.props[key];
        if property.Accessor? { return Failed(ACCESSOR); }
        ghost var before := ObjectsOf(GraphOf(h), vs[..index], levels);
        AdmittedUpTo(h, limits, vs, index, levels, old(seen), old(nodes));
        if property.value == Leaf(Function) {
          FunctionRefused(h, limits, levels, seen, nodes);
          NotAdmittedFurther(h, limits, vs, index, levels, old(seen), old(nodes));
          return Failed(FUNCTION);
        }
        if !property.enumerable { return Failed(NON_PLAIN); }
        var nested := Walk(property.value, depth + 1);
        if nested.Failed? {
          NotAdmittedFurther(h, limits, vs, index, levels, old(seen), old(nodes));
          return nested;
        }
        MembersConcat(before, Objects(GraphOf(h), vs[index], levels));
        keys, items := keys + [key], items + [nested.value];
        index := index + 1;
      }
      assert vs[..|vs|] == vs && names[..|names|] == names;
      return Snapshot(JsonRecord(keys, items));
    }
  }

  lemma OnlyRecordsAndArrays(lim: Limits, o: Object)
    requires o.Proxy? || o.Host?
    ensures !PlainObject(lim, o)
  {
  }

  lemma NothingAdmitted(h: Heap, lim: Limits, vs: seq<Value>, levels: int, seen: set<nat>, nodes: int)
    requires ValidHeap(h)
    ensures ObjectsOf(GraphOf(h), vs[..0], levels) == [] && Members(ObjectsOf(GraphOf(h), vs[..0], levels)) == {}
    ensures AllAdmitted(h, lim, vs[..0], levels, seen, nodes) && CopyAll(h, vs[..0], levels) == []
  {
  }

  lemma FunctionRefused(h: Heap, lim: Limits, levels: int, seen: set<nat>, nodes: int)
    requires ValidHeap(h)
    ensures !Admitted(h, lim, Leaf(Function), levels, seen, nodes)
  {
    LeafAdmitted(h, lim, Function, levels, seen, nodes);
  }

  lemma NotAdmittedFurther(h: Heap, lim: Limits, vs: seq<Value>, k: nat, levels: int, seen: set<nat>, nodes: int)
    requires ValidHeap(h) && k < |vs|
    requires var before := ObjectsOf(GraphOf(h), vs[..k], levels);
      !Admitted(h, lim, vs[k], levels, seen + Members(before), nodes + |before|)
    ensures !AllAdmitted(h, lim, vs, levels, seen, nodes)
  {
    AdmittedUpTo(h, lim, vs, k, levels, seen, nodes);
    if AllAdmitted(h, lim, vs, levels, seen, nodes) { PrefixAdmitted(h, lim, vs, k + 1, levels, seen, nodes); }
  }

  lemma MembersConcat(a: seq<nat>, b: seq<nat>)
    ensures Members(a + b) == Members(a) + Members(b)
  {
  }

  // ---------------------------------------------------------------- the result, path by path

  /** Everything reachable is plain and within limits, nothing is reached twice, and there is not too much of it. */
  ghost predicate PlainTree(h: Heap, lim: Limits, v: Value)
    requires ValidHeap(h)
  {
    var g := GraphOf(h);
    AllPathsOk(g, Admissible(h, lim), v, lim.maxDepth) && IsTree(g, v)
    && (v.Ref? ==> exists s: set<nat> :: IsReached(g, v, s) && |s| <= lim.maxNodes)
  }

  lemma AdmittedExactly(h: Heap, lim: Limits, v: Value)
    requires ValidHeap(h)
    ensures Admitted(h, lim, v, lim.maxDepth, {}, 0) <==> PlainTree(h, lim, v)
  {
    var g, levels := GraphOf(h), lim.maxDepth;
    FitsExactly(g, Admissible(h, lim), v, levels);
    if AllPathsOk(g, Admissible(h, lim), v, levels) {
      assert levels >= 0;
      var objects := Objects(g, v, levels);
      assert v.Ref? <==> objects != [];
      assert AllPathsWithin(g, v, levels);
      TreeExactly(g, v, levels);
      ReachedExactly(g, v, levels);
      hide Fits, Objects, GraphOf, IsTree, AllPathsOk;
      if Distinct(objects) {
        DistinctSize(objects);
        forall s | IsReached(g, v, s) ensures s == Members(objects) { SameReached(g, v, s, Members(objects)); }
      }
    }
  }

  lemma SameReached(g: Graph<Primitive>, v: Value, s: set<nat>, t: set<nat>)
    requires IsReached(g, v, s) && IsReached(g, v, t)
    ensures s == t
  {
    hide At;
    forall id: nat ensures id in s <==> id in t {}
  }

  function JsonAt(j: Json, path: Path): Option<Json>
    decreases |path|
  {
    if path == [] then Some(j)
    else if !j.Plain? && path[0] < |j.items| then JsonAt(j.items[path[0]], path[1..])
    else None
  }

  /** The same primitive, a list of the same length, or a record with the same keys in the same order. */
  ghost predicate SameNode(h: Heap, v: Value, j: Json) {
    if v.Leaf? then j == Plain(v.leaf)
    else v.id in h && (match h[v.id]
      case Array(slots, _, _) => j.JsonList? && |j.items| == |slots|
      case Record(keys, _, _) => j.JsonRecord? && j.keys == keys && |j.items| == |keys|
      case _ => false)
  }

  /** Whatever a path leads to in the input, it leads to the same in the copy. */
  ghost predicate Mirrors(h: Heap, v: Value, j: Json)
    requires ValidHeap(h)
  {
    forall p: Path :: MirrorsAt(h, v, j, p)
  }

  ghost predicate MirrorsAt(h: Heap, v: Value, j: Json, p: Path)
    requires ValidHeap(h)
  {
    var here, there := At(GraphOf(h), v, p), JsonAt(j, p);
    (here.Some? <==> there.Some?) && (here.Some? ==> SameNode(h, here.value, there.value))
  }

  lemma {:induction false} CopyMirrors(h: Heap, lim: Limits, v: Value, levels: int, p: Path)
    requires ValidHeap(h) && Fits(GraphOf(h), Admissible(h, lim), v, levels)
    ensures MirrorsAt(h, v, Copy(h, v, levels), p)
    decreases |p|
  {
    var g, j := GraphOf(h), Copy(h, v, levels);
    if v.Ref? {
      assert Children(g, v) == ChildValues(h[v.id]) && |j.items| == |Children(g, v)|;
      if p != [] && p[0] < |j.items| {
        CopyMirrors(h, lim, Children(g, v)[p[0]], levels - 1, p[1..]);
        assert j.items[p[0]] == Copy(h, Children(g, v)[p[0]], levels - 1);
        hide Fits, Copy, GraphOf, SameNode;
      }
    }
  }

  /** A JsonDto: plain data all the way down. */
  predicate IsDto(j: Json) {
    match j
    case Plain(p) => p.Null? || p.Bool? || p.Number? || p.Text?
    case JsonList(items) => forall i | 0 <= i < |items| :: IsDto(items[i])
    case JsonRecord(keys, items) => |keys| == |items| && forall i | 0 <= i < |items| :: IsDto(items[i])
  }

  lemma {:induction false} CopyIsDto(h: Heap, lim: Limits, v: Value, levels: int)
    requires ValidHeap(h) && Fits(GraphOf(h), Admissible(h, lim), v, levels)
    ensures IsDto(Copy(h, v, levels))
    decreases levels
  {
    if v.Ref? {
      var vs := ChildValues(h[v.id]);
      assert Children(GraphOf(h), v) == vs;
      forall i | 0 <= i < |vs| ensures IsDto(Copy(h, vs[i], levels - 1)) { CopyIsDto(h, lim, vs[i], levels - 1); }
      hide Fits, GraphOf;
    }
  }

  lemma AdmittedMirrors(h: Heap, lim: Limits, v: Value)
    requires ValidHeap(h) && Admitted(h, lim, v, lim.maxDepth, {}, 0)
    ensures Mirrors(h, v, Copy(h, v, lim.maxDepth)) && IsDto(Copy(h, v, lim.maxDepth))
  {
    CopyIsDto(h, lim, v, lim.maxDepth);
    forall p: Path ensures MirrorsAt(h, v, Copy(h, v, lim.maxDepth), p) { CopyMirrors(h, lim, v, lim.maxDepth, p); }
  }

  /** Succeeds exactly on plain trees within the limits, whatever the graph, and then returns the same data. */
  method SnapshotPlainJsonDto(h: Heap, input: Value, limits: Limits) returns (r: Result)
    requires ValidHeap(h) && Known(h, input)
    ensures r.Snapshot? <==> PlainTree(h, limits, input)
    ensures r.Snapshot? ==> IsDto(r.value) && Mirrors(h, input, r.value)
  {
    hide Admitted, PlainTree, Mirrors, IsDto, Copy, Objects, GraphOf, ValidHeap, Members;
    var walker := new Walker(h, limits);
    r := walker.Walk(input, 0);
    AdmittedExactly(h, limits, input);
    if r.Snapshot? { AdmittedMirrors(h, limits, input); }
  }

  /** An object that some path leads back to is refused, at any limits. */
  lemma CycleRefused(h: Heap, lim: Limits, id: nat, loop: Path)
    requires ValidHeap(h) && loop != [] && At(GraphOf(h), Ref(id), loop) == Some(Ref(id))
    ensures !PlainTree(h, lim, Ref(id))
  {
    assert At(GraphOf(h), Ref(id), []) == At(GraphOf(h), Ref(id), loop);
  }

  /** One object under two items: nothing is cyclic, and every path is short and leads to plain data. */
  const SHARED: Heap :=
    map[0 := Array([Elem(Data(Ref(1), true)), Elem(Data(Ref(1), true))], 0, 0), 1 := Record([], map[], 0)]

  lemma SharedIsValid()
    ensures ValidHeap(SHARED) && Children(GraphOf(SHARED), Ref(0)) == [Ref(1), Ref(1)]
      && Children(GraphOf(SHARED), Ref(1)) == []
  {
  }

  /** At limits that allow two items in an array and one level of nesting, every path is short and leads to plain data. */
  lemma SharedFits(lim: Limits)
    requires ValidHeap(SHARED) && lim.maxDepth >= 1 && lim.maxArrayLength >= 2 && lim.maxObjectKeys >= 0
    ensures AllPathsOk(GraphOf(SHARED), Admissible(SHARED, lim), Ref(0), lim.maxDepth)
  {
    SharedIsValid();
    var g, root, inner: Value := GraphOf(SHARED), Ref(0), Ref(1);
    assert Fits(g, Admissible(SHARED, lim), inner, lim.maxDepth - 1);
    FitsExactly(g, Admissible(SHARED, lim), root, lim.maxDepth);
  }

  lemma SharedIsAcyclic(v: Value, loop: Path)
    requires loop != []
    ensures ValidHeap(SHARED) && At(GraphOf(SHARED), v, loop) != Some(v)
  {
    SharedIsValid();
    var g := GraphOf(SHARED);
    if loop[0] < |Children(g, v)| {
      assert v == Ref(0) && Children(g, v)[loop[0]] == Ref(1);
      assert At(g, Ref(1), loop[1..]) != Some(Ref(0));
    }
  }

  lemma SharedReaches(v: Value, p: Path)
    requires v == Ref(0) || v == Ref(1)
    ensures ValidHeap(SHARED) && (At(GraphOf(SHARED), v, p).Some? ==> At(GraphOf(SHARED), v, p).value in {v, Ref(1)})
  {
    SharedIsValid();
    var g := GraphOf(SHARED);
    if p != [] && p[0] < |Children(g, v)| { assert Children(g, v)[p[0]] == Ref(1) && Children(g, Ref(1)) == []; }
  }

  /**
   * Sharing is refused as well, although the failure it gets is named after cycles: this graph has no cycle, and all it
   * lacks is that each object is reached once.
   */
  lemma SharingRefused(lim: Limits)
    ensures ValidHeap(SHARED) && !PlainTree(SHARED, lim, Ref(0))
    ensures lim.maxDepth >= 1 && lim.maxArrayLength >= 2 && lim.maxObjectKeys >= 0
        ==> AllPathsOk(GraphOf(SHARED), Admissible(SHARED, lim), Ref(0), lim.maxDepth)
    ensures IsReached(GraphOf(SHARED), Ref(0), {0, 1})
    ensures Acyclic(GraphOf(SHARED), Ref(0))
  {
    SharedIsValid();
    if lim.maxDepth >= 1 && lim.maxArrayLength >= 2 && lim.maxObjectKeys >= 0 { SharedFits(lim); }
    forall v, loop | loop != [] ensures At(GraphOf(SHARED), v, loop) != Some(v) { SharedIsAcyclic(v, loop); }
    var g, root: Value := GraphOf(SHARED), Ref(0);
    AtChild(g, root, 0, []);
    AtChild(g, root, 1, []);
    assert [0] + [] == [0] && [1] + [] == [1];
    assert At(g, root, []) == Some(Ref(0)) && At(g, root, [0]) == At(g, root, [1]) == Some(Ref(1));
    forall p: Path | At(g, root, p).Some? ensures At(g, root, p).value in {root, Ref(1)} { SharedReaches(root, p); }
    assert [0] != [1] by { assert [0][0] != [1][0]; }
  }
}
