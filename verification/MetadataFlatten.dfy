/** flattenMetadata: the bounded walk that turns scanned metadata into path and text pairs. */
module MetadataFlatten {
  import opened JsText
  import opened JsNumber
  import opened JsonSnapshot

  const MAX_METADATA_NODES: int := 256
  const MAX_METADATA_DEPTH: int := 5
  const MAX_METADATA_TOTAL_KEY_LENGTH: int := 4096

  const DOT: Unit := 46
  const BRACKET: Unit := 91
  const UNBRACKET: Unit := 93

  datatype Leaf = Leaf(path: Str, text: Str)

  /** String(value); null is written as the empty text. */
  function PrimitiveString(p: Primitive): Str {
    match p
    case Text(s) => s
    case Bool(b) => if b then Ascii("true") else Ascii("false")
    case Number(n) => NumberText(n)
    case _ => []
  }

  function ItemPath(path: Str, index: nat): Str { path + [BRACKET] + Dec(index) + [UNBRACKET] }

  function KeyPath(path: Str, key: Str): Str { if path == [] then key else path + [DOT] + key }

  function ChildPath(j: Json, path: Str, i: nat): Str
    requires j.JsonRecord? ==> i < |j.keys|
  {
    if j.JsonRecord? then KeyPath(path, j.keys[i]) else ItemPath(path, i)
  }

  // ---------------------------------------------------------------- what the walk measures and collects

  /** Number of values below j, at any depth. */
  ghost function Descendants(j: Json): nat { if j.Plain? then 0 else DescendantsOf(j.items) }

  ghost function DescendantsOf(js: seq<Json>): nat {
    if js == [] then 0 else 1 + Descendants(js[0]) + DescendantsOf(js[1..])
  }

  ghost predicate DepthWithin(j: Json, levels: int) {
    levels >= 0 && (j.Plain? || forall i | 0 <= i < |j.items| :: DepthWithin(j.items[i], levels - 1))
  }

  ghost function LengthOf(keys: seq<Str>): nat { if keys == [] then 0 else LengthOf(keys[..|keys| - 1]) + |keys[|keys| - 1]| }

  /** Every key below j, in the order of the walk. */
  ghost function KeyNames(j: Json): seq<Str> {
    if j.Plain? then [] else KeyNamesUpTo(j, |j.items|)
  }

  ghost function KeyNamesUpTo(j: Json, n: nat): seq<Str>
    requires !j.Plain? && n <= |j.items|
    decreases j, 0, n
  {
    if n == 0 then []
    else
      KeyNamesUpTo(j, n - 1) + (if j.JsonRecord? && n <= |j.keys| then [j.keys[n - 1]] else []) + KeyNames(j.items[n - 1])
  }

  /** The leaves below j with their paths, in order. */
  ghost function Leaves(j: Json, path: Str): seq<Leaf>
    decreases j
  {
    if j.Plain? then [Leaf(path, PrimitiveString(j.primitive))] else LeavesUpTo(j, path, |j.items|)
  }

  ghost function LeavesUpTo(j: Json, path: Str, n: nat): seq<Leaf>
    requires !j.Plain? && n <= |j.items|
    decreases j, 0, n
  {
    if n == 0 || (j.JsonRecord? && n > |j.keys|) then []
    else LeavesUpTo(j, path, n - 1) + Leaves(j.items[n - 1], ChildPath(j, path, n - 1))
  }

  function Stored(sink: map<Str, Str>, leaves: seq<Leaf>): map<Str, Str> {
    if leaves == [] then sink
    else
      var last := leaves[|leaves| - 1];
      Stored(sink, leaves[..|leaves| - 1])[last.path := last.text]
  }

  lemma {:induction false} StoredConcat(sink: map<Str, Str>, a: seq<Leaf>, b: seq<Leaf>)
    ensures Stored(sink, a + b) == Stored(Stored(sink, a), b)
  {
    if b == [] {
      assert a + b == a;
    } else {
      StoredConcat(sink, a, b[..|b| - 1]);
      assert (a + b)[..|a + b| - 1] == a + b[..|b| - 1];
    }
  }

  lemma {:induction false} LengthConcat(a: seq<Str>, b: seq<Str>)
    ensures LengthOf(a + b) == LengthOf(a) + LengthOf(b)
  {
    if b == [] {
      assert a + b == a;
    } else {
      LengthConcat(a, b[..|b| - 1]);
      assert (a + b)[..|a + b| - 1] == a + b[..|b| - 1];
    }
  }

  lemma {:induction false} DescendantsUpTo(js: seq<Json>, n: nat)
    requires n < |js|
    ensures DescendantsOf(js[..n + 1]) == DescendantsOf(js[..n]) + 1 + Descendants(js[n])
    ensures DescendantsOf(js[..n + 1]) <= DescendantsOf(js)
    decreases n
  {
    if n > 0 {
      DescendantsUpTo(js[1..], n - 1);
      assert js[..n + 1][1..] == js[1..][..n] && js[..n][1..] == js[1..][..n - 1];
    } else {
      assert js[..1][1..] == [];
    }
  }

  // ---------------------------------------------------------------- the walk

  /** The budget, the keys and the sink, as they stand. */
  datatype Tally = Tally(nodes: int, keyChars: int, keys: seq<Str>, sink: map<Str, Str>)

  predicate WithinBudget(t: Tally) { t.nodes <= MAX_METADATA_NODES && t.keyChars <= MAX_METADATA_TOTAL_KEY_LENGTH }

  /** After walking all of j, itself counted or not. */
  ghost function Whole(t: Tally, j: Json, path: Str, charge: nat): Tally {
    Tally(t.nodes + charge + Descendants(j), t.keyChars + LengthOf(KeyNames(j)), t.keys + KeyNames(j), Stored(t.sink, Leaves(j, path)))
  }

  /** After walking the first n children of j. */
  ghost function Walked(t: Tally, j: Json, path: Str, n: nat): Tally
    requires !j.Plain? && n <= |j.items|
  {
    Tally(t.nodes + DescendantsOf(j.items[..n]), t.keyChars + LengthOf(KeyNamesUpTo(j, n)),
          t.keys + KeyNamesUpTo(j, n), Stored(t.sink, LeavesUpTo(j, path, n)))
  }

  ghost function KeyAt(j: Json, n: nat): seq<Str> {
    if j.JsonRecord? && n < |j.keys| then [j.keys[n]] else []
  }

  /** With the key of child n charged, if there is one. */
  ghost function Keyed(t: Tally, j: Json, n: nat): Tally {
    t.(keyChars := t.keyChars + LengthOf(KeyAt(j, n)), keys := t.keys + KeyAt(j, n))
  }

  lemma KeyedIs(t: Tally, j: Json, n: nat)
    requires Shaped(j) && n < |j.items|
    ensures Keyed(t, j, n)
         == if j.JsonRecord? then t.(keyChars := t.keyChars + |j.keys[n]|, keys := t.keys + [j.keys[n]]) else t
  {
    if j.JsonList? { assert t.keys + [] == t.keys; }
    assert j.JsonRecord? ==> LengthOf([j.keys[n]]) == LengthOf([j.keys[n]][..0]) + |j.keys[n]|;
  }

  /** All three limits hold below j. */
  ghost predicate Affordable(t: Tally, j: Json, depth: int, charge: nat) {
    DepthWithin(j, MAX_METADATA_DEPTH - depth) && WithinBudget(Whole(t, j, [], charge))
  }

  ghost predicate AffordableUpTo(t: Tally, j: Json, n: nat, depth: int)
    requires !j.Plain? && n <= |j.items|
  {
    (forall i | 0 <= i < n :: DepthWithin(j.items[i], MAX_METADATA_DEPTH - depth - 1)) && WithinBudget(Walked(t, j, [], n))
  }

  ghost predicate Shaped(j: Json) { !j.Plain? && (j.JsonRecord? ==> |j.keys| == |j.items|) }

  lemma KeysOneMore(j: Json, n: nat, keys: seq<Str>)
    requires Shaped(j) && n < |j.items|
    ensures keys + KeyNamesUpTo(j, n + 1) == keys + KeyNamesUpTo(j, n) + KeyAt(j, n) + KeyNames(j.items[n])
    ensures LengthOf(KeyNamesUpTo(j, n + 1)) == LengthOf(KeyNamesUpTo(j, n)) + LengthOf(KeyAt(j, n)) + LengthOf(KeyNames(j.items[n]))
  {
    var a, b, c := KeyNamesUpTo(j, n), KeyAt(j, n), KeyNames(j.items[n]);
    assert KeyNamesUpTo(j, n + 1) == a + b + c;
    LengthConcat(a + b, c);
    LengthConcat(a, b);
    Associative(keys, a + b, c);
    Associative(keys, a, b);
    hide KeyNames, KeyNamesUpTo, KeyAt, LengthOf;
  }

  lemma LeavesOneMore(j: Json, path: Str, n: nat, sink: map<Str, Str>)
    requires Shaped(j) && n < |j.items|
    ensures Stored(sink, LeavesUpTo(j, path, n + 1))
         == Stored(Stored(sink, LeavesUpTo(j, path, n)), Leaves(j.items[n], ChildPath(j, path, n)))
  {
    StoredConcat(sink, LeavesUpTo(j, path, n), Leaves(j.items[n], ChildPath(j, path, n)));
    hide Stored, Leaves, ChildPath;
  }

  lemma OneMore(t: Tally, j: Json, path: Str, n: nat)
    requires Shaped(j) && n < |j.items|
    ensures Walked(t, j, path, n + 1) == Whole(Keyed(Walked(t, j, path, n), j, n), j.items[n], ChildPath(j, path, n), 1)
  {
    hide LengthOf, Descendants, DescendantsOf, KeyNames, KeyNamesUpTo, KeyAt, Leaves, LeavesUpTo, Stored, ChildPath;
    DescendantsUpTo(j.items, n);
    KeysOneMore(j, n, t.keys);
    LeavesOneMore(j, path, n, t.sink);
  }

  lemma OnlyGrows(t: Tally, j: Json, path: Str, charge: nat, k: Json, n: nat)
    ensures WithinBudget(Whole(Keyed(t, k, n), j, path, charge)) ==> WithinBudget(Keyed(t, k, n)) && WithinBudget(t)
  {
  }

  /** Storing does not cost anything, so where leaves go does not matter to the budget. */
  lemma PathsAreFree(t: Tally, j: Json, path: Str, charge: nat, n: nat)
    ensures WithinBudget(Whole(t, j, path, charge)) <==> WithinBudget(Whole(t, j, [], charge))
    ensures !j.Plain? && n <= |j.items| ==> (WithinBudget(Walked(t, j, path, n)) <==> WithinBudget(Walked(t, j, [], n)))
  {
  }

  lemma AffordOneMore(t: Tally, j: Json, path: Str, n: nat, depth: int)
    requires Shaped(j) && n < |j.items| && AffordableUpTo(t, j, n, depth)
    ensures var keyed := Keyed(Walked(t, j, path, n), j, n);
      AffordableUpTo(t, j, n + 1, depth) <==> WithinBudget(keyed) && Affordable(keyed, j.items[n], depth + 1, 1)
  {
    OneMore(t, j, path, n);
    var keyed := Keyed(Walked(t, j, path, n), j, n);
    PathsAreFree(t, j, path, 1, n + 1);
    PathsAreFree(t, j, path, 1, n);
    PathsAreFree(keyed, j.items[n], ChildPath(j, path, n), 1, 0);
    OnlyGrows(Walked(t, j, path, n), j.items[n], [], 1, j, n);
    hide Walked, Whole, DepthWithin, Keyed;
  }

  lemma WalkShrinks(t: Tally, j: Json, m: nat)
    requires Shaped(j) && m < |j.items|
    ensures WithinBudget(Walked(t, j, [], m + 1)) ==> WithinBudget(Walked(t, j, [], m))
  {
    OneMore(t, j, [], m);
    OnlyGrows(Walked(t, j, [], m), j.items[m], ChildPath(j, [], m), 1, j, m);
    hide Walked, Whole, WithinBudget, Keyed, ChildPath;
  }

  lemma AffordShrinks(t: Tally, j: Json, m: nat, depth: int)
    requires Shaped(j) && m < |j.items| && AffordableUpTo(t, j, m + 1, depth)
    ensures AffordableUpTo(t, j, m, depth)
  {
    WalkShrinks(t, j, m);
    hide Walked, WithinBudget, DepthWithin;
  }

  lemma {:induction false} NotAffordableFurther(t: Tally, j: Json, n: nat, m: nat, depth: int)
    requires Shaped(j) && n <= m <= |j.items| && !AffordableUpTo(t, j, n, depth)
    ensures !AffordableUpTo(t, j, m, depth)
    decreases m
  {
    hide AffordableUpTo;
    if n < m {
      NotAffordableFurther(t, j, n, m - 1, depth);
      if AffordableUpTo(t, j, m, depth) { AffordShrinks(t, j, m - 1, depth); }
    }
  }

  lemma WholeWalk(t: Tally, j: Json, path: Str, depth: int, charge: nat)
    requires !j.Plain?
    ensures var counted := t.(nodes := t.nodes + charge);
      Whole(t, j, path, charge) == Walked(counted, j, path, |j.items|)
      && (Affordable(t, j, depth, charge) <==> depth <= MAX_METADATA_DEPTH && AffordableUpTo(counted, j, |j.items|, depth))
  {
    assert j.items[..|j.items|] == j.items;
  }

  lemma NothingWalked(t: Tally, j: Json, path: Str, depth: int)
    requires !j.Plain? && WithinBudget(t)
    ensures AffordableUpTo(t, j, 0, depth) && Walked(t, j, path, 0) == t
  {
  }

  class Flattening {
    var nodes: int
    var keyChars: int
    var keys: seq<Str>
    var sink: map<Str, Str>

    constructor ()
      ensures Now() == Tally(0, 0, [], map[])
    {
      nodes, keyChars, keys, sink := 0, 0, [], map[];
    }

    ghost function Now(): Tally reads this { Tally(nodes, keyChars, keys, sink) }

    method Flatten(value: Json, path: Str, depth: int, chargeNode: bool) returns (done: bool)
      requires IsDto(value) && WithinBudget(Now())
      modifies this
      ensures WithinBudget(Now())
      ensures var charge := if chargeNode then 1 else 0;
        (done <==> Affordable(old(Now()), value, depth, charge)) && (done ==> Now() == Whole(old(Now()), value, path, charge))
      decreases value, 1
    {
      ghost var charge := if chargeNode then 1 else 0;
      if depth > MAX_METADATA_DEPTH { return false; }
      if chargeNode {
        if nodes >= MAX_METADATA_NODES { return false; }
        nodes := nodes + 1;
      }
      if value.Plain? {
        sink := sink[path := PrimitiveString(value.primitive)];
        PrimitiveWalk(old(Now()), value, path, depth, charge);
        return true;
      }
      WholeWalk(old(Now()), value, path, depth, charge);
      hide Affordable, AffordableUpTo, Whole, Walked;
      if value.JsonList? {
        done := FlattenItems(value, path, depth);
      } else {
        done := FlattenRecord(value, path, depth);
      }
    }

    method FlattenItems(value: Json, path: Str, depth: int) returns (done: bool)
      requires IsDto(value) && value.JsonList? && WithinBudget(Now())
      modifies this
      ensures WithinBudget(Now())
      ensures done <==> AffordableUpTo(old(Now()), value, |value.items|, depth)
      ensures done ==> Now() == Walked(old(Now()), value, path, |value.items|)
      decreases value, 0
    {
      hide Affordable, AffordableUpTo, Whole, Walked, Keyed;
      ghost var start := Now();
      NothingWalked(start, value, path, depth);
      var index := 0;
      while index < |value.items|
        invariant 0 <= index <= |value.items| && WithinBudget(Now())
        invariant AffordableUpTo(start, value, index, depth) && Now() == Walked(start, value, path, index)
      {
        OneMore(start, value, path, index);
        AffordOneMore(start, value, path, index, depth);
        KeyedIs(Now(), value, index);
        var flattened := Flatten(value.items[index], ItemPath(path, index), depth + 1, true);
        if !flattened {
          NotAffordableFurther(start, value, index + 1, |value.items|, depth);
          return false;
        }
        index := index + 1;
      }
      return true;
    }

    method FlattenRecord(value: Json, path: Str, depth: int) returns (done: bool)
      requires IsDto(value) && value.JsonRecord? && WithinBudget(Now())
      modifies this
      ensures WithinBudget(Now())
      ensures done <==> AffordableUpTo(old(Now()), value, |value.items|, depth)
      ensures done ==> Now() == Walked(old(Now()), value, path, |value.items|)
      decreases value, 0
    {
      hide Affordable, AffordableUpTo, Whole, Walked, Keyed;
      ghost var start := Now();
      NothingWalked(start, value, path, depth);
      var index := 0;
      while index < |value.keys|
        invariant 0 <= index <= |value.keys| && WithinBudget(Now())
        invariant AffordableUpTo(start, value, index, depth) && Now() == Walked(start, value, path, index)
      {
        OneMore(start, value, path, index);
        AffordOneMore(start, value, path, index, depth);
        KeyedIs(Now(), value, index);
        var key := value.keys[index];
        if keyChars + |key| > MAX_METADATA_TOTAL_KEY_LENGTH {
          NotAffordableFurther(start, value, index + 1, |value.items|, depth);
          return false;
        }
        keyChars := keyChars + |key|;
        keys := keys + [key];
        var flattened := Flatten(value.items[index], KeyPath(path, key), depth + 1, true);
        if !flattened {
          NotAffordableFurther(start, value, index + 1, |value.items|, depth);
          return false;
        }
        index := index + 1;
      }
      return true;
    }
  }

  lemma PrimitiveWalk(t: Tally, j: Json, path: Str, depth: int, charge: nat)
    requires j.Plain? && depth <= MAX_METADATA_DEPTH && t.nodes + charge <= MAX_METADATA_NODES
      && t.keyChars <= MAX_METADATA_TOTAL_KEY_LENGTH
    ensures Affordable(t, j, depth, charge)
    ensures Whole(t, j, path, charge) == t.(nodes := t.nodes + charge, sink := t.sink[path := PrimitiveString(j.primitive)])
  {
    var only := [Leaf(path, PrimitiveString(j.primitive))];
    assert only[..0] == [];
    assert Stored(t.sink, only) == Stored(t.sink, only[..0])[path := PrimitiveString(j.primitive)];
    assert t.keys + [] == t.keys && KeyNames(j) == [] && LengthOf([]) == 0;
  }

  // ---------------------------------------------------------------- what is stored

  ghost predicate DistinctPaths(leaves: seq<Leaf>) {
    forall i, k | 0 <= i < k < |leaves| :: leaves[i].path != leaves[k].path
  }

  ghost function PathsOf(leaves: seq<Leaf>): (s: set<Str>)
    ensures forall i | 0 <= i < |leaves| :: leaves[i].path in s
  {
    set i | 0 <= i < |leaves| :: leaves[i].path
  }

  lemma {:induction false} StoredKeys(leaves: seq<Leaf>)
    ensures Stored(map[], leaves).Keys == PathsOf(leaves)
  {
    if leaves != [] {
      var init, last := leaves[..|leaves| - 1], leaves[|leaves| - 1];
      StoredKeys(init);
      assert forall i | 0 <= i < |init| :: init[i] == leaves[i];
      assert PathsOf(leaves) == PathsOf(init) + {last.path};
    }
  }

  lemma {:induction false} DistinctLeavesKept(leaves: seq<Leaf>)
    requires DistinctPaths(leaves)
    ensures |Stored(map[], leaves)| == |leaves|
    ensures forall i | 0 <= i < |leaves| ::
      leaves[i].path in Stored(map[], leaves) && Stored(map[], leaves)[leaves[i].path] == leaves[i].text
  {
    if leaves != [] {
      var init, last := leaves[..|leaves| - 1], leaves[|leaves| - 1];
      var before := Stored(map[], init);
      DistinctLeavesKept(init);
      StoredKeys(init);
      assert Stored(map[], leaves) == before[last.path := last.text];
      hide Stored, PathsOf;
      assert last.path !in PathsOf(init) by { LastIsNew(leaves); }
      assert before[last.path := last.text].Keys == before.Keys + {last.path};
      assert |before[last.path := last.text]| == |before[last.path := last.text].Keys|;
      forall i | 0 <= i < |leaves|
        ensures leaves[i].path in before[last.path := last.text]
          && before[last.path := last.text][leaves[i].path] == leaves[i].text
      {
        if i < |init| { assert init[i] == leaves[i]; }
      }
    }
  }

  lemma LastIsNew(leaves: seq<Leaf>)
    requires DistinctPaths(leaves) && leaves != []
    ensures leaves[|leaves| - 1].path !in PathsOf(leaves[..|leaves| - 1])
  {
  }

  /** Leaves with one path are stored as one entry. */
  lemma {:induction false} StoredNoMore(leaves: seq<Leaf>)
    ensures |Stored(map[], leaves)| <= |leaves|
    ensures |Stored(map[], leaves)| == |leaves| ==> DistinctPaths(leaves)
  {
    if leaves != [] {
      var init, last := leaves[..|leaves| - 1], leaves[|leaves| - 1];
      StoredNoMore(init);
      StoredKeys(init);
      assert leaves == init + [last];
      hide Stored, PathsOf, DistinctPaths;
      CountAfter(Stored(map[], init), last.path, last.text);
      if DistinctPaths(init) && last.path !in PathsOf(init) { NewAtTheEnd(init, last); }
    }
  }

  lemma CountAfter(m: map<Str, Str>, k: Str, v: Str)
    ensures |m[k := v]| == if k in m then |m| else |m| + 1
  {
    assert m[k := v].Keys == m.Keys + {k};
    assert |m.Keys| == |m| && |m[k := v].Keys| == |m[k := v]|;
  }

  lemma NewAtTheEnd(init: seq<Leaf>, last: Leaf)
    requires DistinctPaths(init) && last.path !in PathsOf(init)
    ensures DistinctPaths(init + [last])
  {
  }

  /** Zero budgets: exact limits, every leaf under its path, and none lost exactly when no two share a path. */
  method FlattenMetadata(value: Json) returns (done: bool, keys: seq<Str>, sink: map<Str, Str>)
    requires IsDto(value)
    ensures done <==> Descendants(value) <= 256 && DepthWithin(value, 5) && LengthOf(KeyNames(value)) <= 4096
    ensures done ==> keys == KeyNames(value) && sink == Stored(map[], Leaves(value, []))
    ensures done ==> (|sink| == |Leaves(value, [])| <==> DistinctPaths(Leaves(value, [])))
    ensures done && DistinctPaths(Leaves(value, [])) ==>
      forall i | 0 <= i < |Leaves(value, [])| ::
        Leaves(value, [])[i].path in sink && sink[Leaves(value, [])[i].path] == Leaves(value, [])[i].text
  {
    var walk := new Flattening();
    done := walk.Flatten(value, [], 0, false);
    keys, sink := walk.keys, walk.sink;
    assert [] + KeyNames(value) == KeyNames(value);
    StoredNoMore(Leaves(value, []));
    if DistinctPaths(Leaves(value, [])) { DistinctLeavesKept(Leaves(value, [])); }
    hide Leaves, Stored, KeyNames, LengthOf, Descendants, DepthWithin, DistinctPaths;
  }
}
