/** Which keys keep the leaves of flattened metadata apart. */
module MetadataPaths {
  import opened JsText
  import opened JsNumber
  import opened JsonSnapshot
  import opened MetadataFlatten

  // ---------------------------------------------------------------- what can follow a path

  function IndexStep(n: nat): Str { [BRACKET] + Dec(n) + [UNBRACKET] }

  /** What the paths below a path add to it: index steps up to the first dot, then, keys being any text, anything. */
  ghost predicate Extension(s: Str)
    decreases |s|
  {
    s == [] || s[0] == DOT || exists n: nat, rest: Str :: s == IndexStep(n) + rest && Extension(rest)
  }

  /** A leaf below `path` can have the path `q`; below the empty path a leaf can have any. */
  ghost predicate Continues(path: Str, q: Str) { path <= q && (path == [] || Extension(q[|path|..])) }

  /** If a leaf can be below both of two paths, one of them is below the other. */
  lemma CommonLeaf(p: Str, q: Str, leaf: Str)
    requires Continues(p, leaf) && Continues(q, leaf) && |p| <= |q|
    ensures Continues(p, q)
  {
    var r, c := q[|p|..], leaf[|q|..];
    assert p == leaf[..|p|] && q == leaf[..|q|];
    assert q[..|p|] == p;
    if p != [] {
      assert leaf[|p|..] == r + c;
      ExtensionSplits(r, c);
    }
  }

  lemma {:induction false} ExtensionSplits(r: Str, c: Str)
    requires Extension(r + c) && Extension(c)
    ensures Extension(r)
    decreases |r|
  {
    if r != [] && r[0] != DOT {
      assert (r + c)[0] == r[0];
      var n, rest := FirstStep(r + c);
      var step := IndexStep(n);
      StepUncut(n, rest, r, c);
      StepWhole(step, rest, r, c);
      ExtensionSplits(r[|step|..], c);
      ExtensionLonger(n, r[|step|..]);
    }
  }

  lemma FirstStep(e: Str) returns (n: nat, rest: Str)
    requires Extension(e) && e != [] && e[0] != DOT
    ensures e == IndexStep(n) + rest && Extension(rest)
  {
    n, rest :| e == IndexStep(n) + rest && Extension(rest);
  }

  lemma ExtensionLonger(n: nat, rest: Str)
    requires Extension(rest)
    ensures Extension(IndexStep(n) + rest)
  {
  }

  /** No extension starts inside a step. */
  lemma StepUncut(n: nat, rest: Str, r: Str, c: Str)
    requires r != [] && r + c == IndexStep(n) + rest && Extension(c)
    ensures |IndexStep(n)| <= |r|
  {
    if c != [] { ExtensionStarts(c); }
    if |r| < |IndexStep(n)| {
      assert IndexStep(n)[|r|] == (r + c)[|r|] == c[0];
      StepInside(n, |r|);
    }
  }

  lemma StepWhole(step: Str, rest: Str, r: Str, c: Str)
    requires |step| <= |r| && r + c == step + rest
    ensures rest == r[|step|..] + c && r == step + r[|step|..]
  {
    var s := r + c;
    assert step == s[..|step|] == r[..|step|];
    assert rest == s[|step|..] == r[|step|..] + c;
  }

  lemma ExtensionStarts(s: Str)
    requires Extension(s) && s != []
    ensures s[0] == DOT || s[0] == BRACKET
  {
  }

  lemma StepInside(n: nat, i: nat)
    requires 0 < i < |IndexStep(n)|
    ensures IndexStep(n)[i] != DOT && IndexStep(n)[i] != BRACKET
  {
    assert i < |IndexStep(n)| - 1 ==> IndexStep(n)[i] == Dec(n)[i - 1];
  }

  // ---------------------------------------------------------------- leaves continue the paths above them

  lemma Further(path: Str, child: Str, step: Str, leaf: Str)
    requires child == path + step && Continues(child, leaf) && child != []
    requires step != [] && (step[0] == DOT || exists n :: step == IndexStep(n))
    ensures Continues(path, leaf)
  {
    var e := leaf[|child|..];
    assert leaf == child + e && leaf[|path|..] == step + e;
    assert leaf[..|path|] == path;
    assert (step + e)[0] == step[0];
    if step[0] != DOT {
      var n :| step == IndexStep(n);
      assert Extension(IndexStep(n) + e);
    }
  }

  lemma ItemPathIs(path: Str, n: nat)
    ensures ItemPath(path, n) == path + IndexStep(n)
  {
    Associative(path, [BRACKET] + Dec(n), [UNBRACKET]);
    Associative(path, [BRACKET], Dec(n));
  }

  /** A leaf that can be below a child can be below its parent. */
  lemma ChildContinues(j: Json, path: Str, i: nat, leaf: Str)
    requires Shaped(j) && i < |j.items| && Continues(ChildPath(j, path, i), leaf)
    ensures Continues(path, leaf)
  {
    var child := ChildPath(j, path, i);
    if path == [] {
    } else if j.JsonRecord? {
      Associative(path, [DOT], j.keys[i]);
      Further(path, child, [DOT] + j.keys[i], leaf);
    } else {
      ItemPathIs(path, i);
      Further(path, child, IndexStep(i), leaf);
    }
  }

  ghost predicate AllBelow(path: Str, leaves: seq<Leaf>) { forall i | 0 <= i < |leaves| :: Continues(path, leaves[i].path) }

  lemma {:induction false} LeavesBelow(j: Json, path: Str)
    requires IsDto(j)
    ensures AllBelow(path, Leaves(j, path))
    decreases j
  {
    if !j.Plain? { LeavesUpToBelow(j, path, |j.items|); }
  }

  lemma {:induction false} LeavesUpToBelow(j: Json, path: Str, n: nat)
    requires IsDto(j) && !j.Plain? && n <= |j.items|
    ensures AllBelow(path, LeavesUpTo(j, path, n))
    decreases j, 0, n
  {
    if n > 0 {
      LeavesUpToBelow(j, path, n - 1);
      var child := ChildPath(j, path, n - 1);
      LeavesBelow(j.items[n - 1], child);
      var below := Leaves(j.items[n - 1], child);
      hide Leaves, ChildPath, Continues, IsDto;
      forall i | 0 <= i < |below| ensures Continues(path, below[i].path) {
        ChildContinues(j, path, n - 1, below[i].path);
      }
    }
  }

  // ---------------------------------------------------------------- siblings that stay apart

  /** In a record at `path`, the path of no key could also be that of a leaf below another key. */
  ghost predicate KeysApart(path: Str, keys: seq<Str>) {
    forall i, k | 0 <= i < |keys| && 0 <= k < |keys| && i != k :: !Continues(KeyPath(path, keys[i]), KeyPath(path, keys[k]))
  }

  lemma IndicesApart(path: Str, a: nat, b: nat)
    requires a != b
    ensures !Continues(ItemPath(path, a), ItemPath(path, b))
  {
    if ItemPath(path, a) <= ItemPath(path, b) {
      var rest := ItemPath(path, b)[|ItemPath(path, a)|..];
      ItemPathIs(path, a);
      ItemPathIs(path, b);
      assert path + IndexStep(a) + rest == path + IndexStep(b);
      Associative(path, IndexStep(a), rest);
      EqualLengthsAgree(path, path, IndexStep(a) + rest, IndexStep(b));
      Associative([BRACKET] + Dec(a), [UNBRACKET], rest);
      Associative([BRACKET], Dec(a), [UNBRACKET] + rest);
      Associative([BRACKET], Dec(b), [UNBRACKET]);
      EqualLengthsAgree([BRACKET], [BRACKET], Dec(a) + ([UNBRACKET] + rest), Dec(b) + [UNBRACKET]);
      RunsAgree((c: Unit) => IsDigit(c), Dec(a), Dec(b), [UNBRACKET] + rest, [UNBRACKET]);
      DecInjective(a, b);
    }
  }

  lemma SiblingsApart(j: Json, path: Str, a: nat, b: nat)
    requires Shaped(j) && a < |j.items| && b < |j.items| && a != b && (j.JsonRecord? ==> KeysApart(path, j.keys))
    ensures !Continues(ChildPath(j, path, a), ChildPath(j, path, b))
  {
    hide Continues;
    if j.JsonList? { IndicesApart(path, a, b); }
  }

  /** Leaves below different children differ in their paths. */
  lemma SiblingLeavesDiffer(j: Json, path: Str, a: nat, b: nat, leaf: Str)
    requires Shaped(j) && a < |j.items| && b < |j.items| && a != b && (j.JsonRecord? ==> KeysApart(path, j.keys))
    ensures !(Continues(ChildPath(j, path, a), leaf) && Continues(ChildPath(j, path, b), leaf))
  {
    var p, q := ChildPath(j, path, a), ChildPath(j, path, b);
    SiblingsApart(j, path, a, b);
    SiblingsApart(j, path, b, a);
    hide ChildPath, Continues;
    if Continues(p, leaf) && Continues(q, leaf) {
      if |p| <= |q| { CommonLeaf(p, q, leaf); } else { CommonLeaf(q, p, leaf); }
    }
  }

  ghost predicate ChildrenDistinct(j: Json, path: Str)
    requires Shaped(j)
  {
    forall i | 0 <= i < |j.items| :: DistinctPaths(Leaves(j.items[i], ChildPath(j, path, i)))
  }

  ghost predicate FromChildren(j: Json, path: Str, n: nat, leaf: Leaf)
    requires Shaped(j) && n <= |j.items|
  {
    exists a: nat :: a < n && Continues(ChildPath(j, path, a), leaf.path)
  }

  /** Children whose own leaves are distinct, under keys that stay apart. */
  lemma {:induction false} DistinctUpTo(j: Json, path: Str, n: nat)
    requires IsDto(j) && Shaped(j) && ChildrenDistinct(j, path) && (j.JsonRecord? ==> KeysApart(path, j.keys)) && n <= |j.items|
    ensures DistinctPaths(LeavesUpTo(j, path, n))
    ensures forall i | 0 <= i < |LeavesUpTo(j, path, n)| :: FromChildren(j, path, n, LeavesUpTo(j, path, n)[i])
    decreases n
  {
    if n > 0 {
      hide KeysApart, DistinctPaths, FromChildren, AllBelow;
      DistinctUpTo(j, path, n - 1);
      LeavesBelow(j.items[n - 1], ChildPath(j, path, n - 1));
      OneMoreDistinct(j, path, n, LeavesUpTo(j, path, n - 1), Leaves(j.items[n - 1], ChildPath(j, path, n - 1)));
    }
  }

  lemma OneMoreDistinct(j: Json, path: Str, n: nat, before: seq<Leaf>, here: seq<Leaf>)
    requires Shaped(j) && (j.JsonRecord? ==> KeysApart(path, j.keys)) && 0 < n <= |j.items|
    requires DistinctPaths(before) && forall i | 0 <= i < |before| :: FromChildren(j, path, n - 1, before[i])
    requires DistinctPaths(here) && AllBelow(ChildPath(j, path, n - 1), here)
    ensures DistinctPaths(before + here)
    ensures forall i | 0 <= i < |before + here| :: FromChildren(j, path, n, (before + here)[i])
  {
    hide Continues, ChildPath, KeysApart;
    forall i, k | 0 <= i < |before| && 0 <= k < |here| ensures before[i].path != here[k].path {
      assert FromChildren(j, path, n - 1, before[i]);
      var a: nat :| a < n - 1 && Continues(ChildPath(j, path, a), before[i].path);
      SiblingLeavesDiffer(j, path, a, n - 1, before[i].path);
    }
    JoinDistinct(before, here);
    FromMore(j, path, n, before, here);
  }

  lemma JoinDistinct(a: seq<Leaf>, b: seq<Leaf>)
    requires DistinctPaths(a) && DistinctPaths(b)
    requires forall i, k | 0 <= i < |a| && 0 <= k < |b| :: a[i].path != b[k].path
    ensures DistinctPaths(a + b)
  {
  }

  lemma FromMore(j: Json, path: Str, n: nat, before: seq<Leaf>, here: seq<Leaf>)
    requires Shaped(j) && 0 < n <= |j.items|
    requires forall i | 0 <= i < |before| :: FromChildren(j, path, n - 1, before[i])
    requires AllBelow(ChildPath(j, path, n - 1), here)
    ensures forall i | 0 <= i < |before + here| :: FromChildren(j, path, n, (before + here)[i])
  {
    hide Continues, ChildPath;
    forall i | 0 <= i < |before + here| ensures FromChildren(j, path, n, (before + here)[i]) {
      if i < |before| {
        assert (before + here)[i] == before[i] && FromChildren(j, path, n - 1, before[i]);
        var a: nat :| a < n - 1 && Continues(ChildPath(j, path, a), before[i].path);
      } else {
        assert Continues(ChildPath(j, path, n - 1), here[i - |before|].path);
      }
    }
  }

  /** Every record in j, where it stands, has keys that stay apart. */
  ghost predicate AllKeysApart(j: Json, path: Str)
    decreases j
  {
    j.Plain?
    || (Shaped(j) && (j.JsonRecord? ==> KeysApart(path, j.keys))
        && forall i | 0 <= i < |j.items| :: AllKeysApart(j.items[i], ChildPath(j, path, i)))
  }

  /** Then no two leaves are stored under one path. */
  lemma {:induction false} LeafPathsDistinct(j: Json, path: Str)
    requires IsDto(j) && AllKeysApart(j, path)
    ensures DistinctPaths(Leaves(j, path))
    decreases j
  {
    if !j.Plain? {
      forall i | 0 <= i < |j.items| ensures DistinctPaths(Leaves(j.items[i], ChildPath(j, path, i))) {
        LeafPathsDistinct(j.items[i], ChildPath(j, path, i));
      }
      DistinctUpTo(j, path, |j.items|);
    }
  }

  // ---------------------------------------------------------------- siblings that do not

  const EMPTY: Json := JsonList([])
  const NOTHING: Json := Plain(Null)

  /** A list of nothing but one value at the end. */
  ghost function Lifted(n: nat, w: Json): Json { JsonList(seq(n + 1, i => if i == n then w else EMPTY)) }

  lemma {:induction false} OnlyEmpty(j: Json, path: Str, n: nat)
    requires Shaped(j) && n <= |j.items| && forall i | 0 <= i < n :: j.items[i] == EMPTY
    ensures LeavesUpTo(j, path, n) == []
  {
    if n > 0 {
      hide Leaves, LeavesUpTo, ChildPath;
      OnlyEmpty(j, path, n - 1);
      EmptyHasNone(ChildPath(j, path, n - 1));
      OneMoreChild(j, path, n);
    }
  }

  lemma EmptyHasNone(path: Str)
    ensures Leaves(EMPTY, path) == []
  {
  }

  lemma SingleLeaf(path: Str, key: Str)
    ensures IsDto(JsonRecord([key], [NOTHING])) && Leaves(JsonRecord([key], [NOTHING]), path) == [Leaf(KeyPath(path, key), [])]
  {
    var w := JsonRecord([key], [NOTHING]);
    assert LeavesUpTo(w, path, 1) == LeavesUpTo(w, path, 0) + Leaves(NOTHING, KeyPath(path, key));
  }

  /** Whatever can continue a path is the path of the only leaf of some value there. */
  lemma {:induction false} SomeLeafAt(path: Str, q: Str) returns (w: Json)
    requires Continues(path, q)
    ensures IsDto(w) && Leaves(w, path) == [Leaf(q, [])]
    decreases |q| - |path|
  {
    var e := q[|path|..];
    assert q == path + e;
    if path == [] {
      w := JsonRecord([q], [NOTHING]);
      SingleLeaf(path, q);
    } else if e == [] {
      w := NOTHING;
      assert q == path;
    } else if e[0] == DOT {
      w := JsonRecord([e[1..]], [NOTHING]);
      SingleLeaf(path, e[1..]);
      assert KeyPath(path, e[1..]) == q by { assert e == [e[0]] + e[1..]; }
    } else {
      hide Extension;
      var n, rest := FirstStep(e);
      ItemPathIs(path, n);
      var child := ItemPath(path, n);
      assert q == child + rest && q[|child|..] == rest;
      hide IndexStep;
      var v := SomeLeafAt(child, q);
      w := Lifted(n, v);
      LiftedLeaves(path, n, v);
    }
  }

  lemma LiftedIs(n: nat, v: Json)
    requires IsDto(v)
    ensures var w := Lifted(n, v);
      IsDto(w) && |w.items| == n + 1 && w.items[n] == v && forall i | 0 <= i < n :: w.items[i] == EMPTY
  {
  }

  lemma LiftedLeaves(path: Str, n: nat, v: Json)
    requires IsDto(v)
    ensures IsDto(Lifted(n, v)) && Leaves(Lifted(n, v), path) == Leaves(v, ItemPath(path, n))
  {
    LiftedIs(n, v);
    assert Lifted(n, v).JsonList?;
    hide IsDto, Lifted, Leaves, LeavesUpTo, ItemPath;
    OnlyEmpty(Lifted(n, v), path, n);
    LastLeaves(Lifted(n, v), path, n);
  }

  lemma LastLeaves(w: Json, path: Str, n: nat)
    requires w.JsonList? && |w.items| == n + 1 && LeavesUpTo(w, path, n) == []
    ensures Leaves(w, path) == Leaves(w.items[n], ItemPath(path, n))
  {
    OneMoreChild(w, path, n + 1);
    AllLeaves(w, path);
    hide Leaves, LeavesUpTo;
    var here := Leaves(w.items[n], ItemPath(path, n));
    assert [] + here == here;
  }

  lemma OneMoreChild(j: Json, path: Str, n: nat)
    requires Shaped(j) && 0 < n <= |j.items|
    ensures LeavesUpTo(j, path, n) == LeavesUpTo(j, path, n - 1) + Leaves(j.items[n - 1], ChildPath(j, path, n - 1))
  {
    hide Leaves, ChildPath;
  }

  lemma AllLeaves(j: Json, path: Str)
    requires Shaped(j)
    ensures Leaves(j, path) == LeavesUpTo(j, path, |j.items|)
  {
    hide LeavesUpTo;
  }

  lemma InEither(a: seq<Leaf>, b: seq<Leaf>, leaf: Leaf)
    ensures leaf in a || leaf in b ==> leaf in a + b
  {
  }

  /** The first n children together have every leaf that one of them has. */
  lemma {:induction false} LeafOfChild(j: Json, path: Str, n: nat, a: nat, leaf: Leaf)
    requires Shaped(j) && a < n <= |j.items| && Leaves(j.items[a], ChildPath(j, path, a)) == [leaf]
    ensures leaf in LeavesUpTo(j, path, n)
    decreases n
  {
    hide Leaves, LeavesUpTo, ChildPath;
    if a < n - 1 { LeafOfChild(j, path, n - 1, a, leaf); }
    OneMoreChild(j, path, n);
    InEither(LeavesUpTo(j, path, n - 1), Leaves(j.items[n - 1], ChildPath(j, path, n - 1)), leaf);
  }

  lemma {:induction false} ClashStays(j: Json, path: Str, m: nat, n: nat)
    requires Shaped(j) && m <= n <= |j.items| && !DistinctPaths(LeavesUpTo(j, path, m))
    ensures !DistinctPaths(LeavesUpTo(j, path, n))
    decreases n
  {
    hide Leaves, LeavesUpTo, ChildPath, DistinctPaths;
    if m < n {
      ClashStays(j, path, m, n - 1);
      var before, here := LeavesUpTo(j, path, n - 1), Leaves(j.items[n - 1], ChildPath(j, path, n - 1));
      OneMoreChild(j, path, n);
      if DistinctPaths(before + here) { PrefixDistinct(before, here); }
    }
  }

  lemma PrefixDistinct(a: seq<Leaf>, b: seq<Leaf>)
    requires DistinctPaths(a + b)
    ensures DistinctPaths(a)
  {
    forall i, k | 0 <= i < k < |a| ensures a[i].path != a[k].path {
      assert (a + b)[i] == a[i] && (a + b)[k] == a[k];
    }
  }

  lemma TwiceIn(before: seq<Leaf>, leaf: Leaf)
    requires leaf in before
    ensures !DistinctPaths(before + [leaf])
  {
    var i :| 0 <= i < |before| && before[i] == leaf;
    assert (before + [leaf])[i].path == (before + [leaf])[|before|].path;
  }

  lemma LeavesClash(j: Json, path: Str, a: nat, b: nat, q: Str)
    requires Shaped(j) && a < b < |j.items|
    requires Leaves(j.items[a], ChildPath(j, path, a)) == Leaves(j.items[b], ChildPath(j, path, b)) == [Leaf(q, [])]
    ensures !DistinctPaths(Leaves(j, path))
  {
    hide Leaves, LeavesUpTo, ChildPath, DistinctPaths;
    LeafOfChild(j, path, b, a, Leaf(q, []));
    OneMoreChild(j, path, b + 1);
    TwiceIn(LeavesUpTo(j, path, b), Leaf(q, []));
    ClashStays(j, path, b + 1, |j.items|);
    AllLeaves(j, path);
  }

  /** These values under these keys, each keeping its own leaves apart. */
  ghost predicate Fillable(path: Str, keys: seq<Str>, items: seq<Json>) {
    |items| == |keys| && IsDto(JsonRecord(keys, items)) && ChildrenDistinct(JsonRecord(keys, items), path)
  }

  /** A value with the leaf q under key i, a leaf under key k, nothing elsewhere. */
  ghost function Clash(n: nat, i: nat, k: nat, w: Json): (items: seq<Json>)
    ensures |items| == n
  {
    seq(n, m => if m == i then w else if m == k then NOTHING else EMPTY)
  }

  lemma ClashLeaves(path: Str, keys: seq<Str>, i: nat, k: nat, w: Json, m: nat)
    requires i < |keys| && k < |keys| && i != k && m < |keys|
    requires IsDto(w) && Leaves(w, KeyPath(path, keys[i])) == [Leaf(KeyPath(path, keys[k]), [])]
    ensures var leaves := Leaves(Clash(|keys|, i, k, w)[m], KeyPath(path, keys[m]));
      IsDto(Clash(|keys|, i, k, w)[m])
      && leaves == if m == i || m == k then [Leaf(KeyPath(path, keys[k]), [])] else []
  {
    if m == i { hide IsDto, Leaves; }
  }

  lemma ClashingFill(path: Str, keys: seq<Str>, i: nat, k: nat) returns (items: seq<Json>)
    requires i < |keys| && k < |keys| && i != k && Continues(KeyPath(path, keys[i]), KeyPath(path, keys[k]))
    ensures Fillable(path, keys, items) && !DistinctPaths(Leaves(JsonRecord(keys, items), path))
  {
    hide Continues, Leaves, LeavesUpTo, KeyPath;
    var w := SomeLeafAt(KeyPath(path, keys[i]), KeyPath(path, keys[k]));
    items := Clash(|keys|, i, k, w);
    forall m | 0 <= m < |keys|
      ensures IsDto(items[m]) && DistinctPaths(Leaves(items[m], KeyPath(path, keys[m])))
    {
      ClashLeaves(path, keys, i, k, w, m);
    }
    ClashLeaves(path, keys, i, k, w, i);
    ClashLeaves(path, keys, i, k, w, k);
    hide Clash, IsDto;
    LeavesClash(JsonRecord(keys, items), path, if i < k then i else k, if i < k then k else i, KeyPath(path, keys[k]));
  }

  /**
   * The keys of a record are safe, whatever values stand under them, if and only if the path of no key continues the path of
   * another: by a dot and anything, or by index steps, or, for the empty key at the root, by anything at all.
   */
  lemma KeysSafeExactly(path: Str, keys: seq<Str>)
    ensures KeysApart(path, keys)
       <==> forall items | Fillable(path, keys, items) :: DistinctPaths(Leaves(JsonRecord(keys, items), path))
  {
    hide Continues, IsDto, Leaves, LeavesUpTo;
    if KeysApart(path, keys) {
      forall items | Fillable(path, keys, items) ensures DistinctPaths(Leaves(JsonRecord(keys, items), path)) {
        DistinctUpTo(JsonRecord(keys, items), path, |keys|);
        AllLeaves(JsonRecord(keys, items), path);
      }
    } else {
      var i, k :| 0 <= i < |keys| && 0 <= k < |keys| && i != k && Continues(KeyPath(path, keys[i]), KeyPath(path, keys[k]));
      var items := ClashingFill(path, keys, i, k);
    }
  }

  /** At the root an empty key leaves the path as it is, so it is safe only alone. */
  lemma EmptyKeyAtRoot(keys: seq<Str>)
    requires [] in keys
    ensures KeysApart([], keys) <==> |keys| == 1
  {
    var e :| 0 <= e < |keys| && keys[e] == [];
    if |keys| > 1 {
      var k := if e == 0 then 1 else 0;
      assert Continues(KeyPath([], keys[e]), KeyPath([], keys[k]));
    }
  }

  /** Everywhere else: no key is another followed by index steps, or by a dot and anything, or by both. */
  lemma KeysApartMeans(path: Str, keys: seq<Str>)
    requires path != [] || [] !in keys
    ensures KeysApart(path, keys)
       <==> forall i, k | 0 <= i < |keys| && 0 <= k < |keys| && i != k ::
              !(keys[i] <= keys[k] && Extension(keys[k][|keys[i]|..]))
  {
    hide Extension;
    forall i, k | 0 <= i < |keys| && 0 <= k < |keys|
      ensures Continues(KeyPath(path, keys[i]), KeyPath(path, keys[k]))
         <==> keys[i] <= keys[k] && Extension(keys[k][|keys[i]|..])
    {
      var lead := if path == [] then [] else path + [DOT];
      assert KeyPath(path, keys[i]) == lead + keys[i] && KeyPath(path, keys[k]) == lead + keys[k];
      SamePrefix(lead, keys[i], keys[k]);
      assert keys[i] in keys;
    }
  }

  lemma SamePrefix(lead: Str, a: Str, b: Str)
    ensures lead + a <= lead + b <==> a <= b
    ensures a <= b ==> (lead + b)[|lead + a|..] == b[|a|..]
  {
    if lead + a <= lead + b {
      assert (lead + b)[..|lead + a|] == lead + a;
      assert a == (lead + a)[|lead|..] && b[..|a|] == (lead + b)[|lead|..|lead + a|];
    }
  }

  /** How a leaf is written: text as it is, null as nothing, the rest as String prints it. */
  lemma LeafTexts(p: Primitive)
    ensures p.Text? ==> PrimitiveString(p) == p.s
    ensures p.Null? ==> PrimitiveString(p) == []
    ensures p.Bool? ==> PrimitiveString(p) == if p.b then Ascii("true") else Ascii("false")
    ensures p.Number? ==> PrimitiveString(p) == NumberText(p.n)
  {
    hide NumberText, Ascii;
  }

  /** {"a": [true, null], "b": {"c": "x"}} has the leaves a[0], a[1] and b.c. */
  lemma LeafPathsExample()
    ensures var list := JsonList([Plain(Bool(true)), Plain(Null)]);
      var inner := JsonRecord([Ascii("c")], [Plain(Text(Ascii("x")))]);
      Leaves(JsonRecord([Ascii("a"), Ascii("b")], [list, inner]), [])
        == [Leaf(Ascii("a[0]"), Ascii("true")), Leaf(Ascii("a[1]"), []), Leaf(Ascii("b.c"), Ascii("x"))]
  {
    var list := JsonList([Plain(Bool(true)), Plain(Null)]);
    var inner := JsonRecord([Ascii("c")], [Plain(Text(Ascii("x")))]);
    var j := JsonRecord([Ascii("a"), Ascii("b")], [list, inner]);
    assert ItemPath(Ascii("a"), 0) == Ascii("a[0]") && ItemPath(Ascii("a"), 1) == Ascii("a[1]");
    assert KeyPath(Ascii("b"), Ascii("c")) == Ascii("b.c");
    OneMoreChild(list, Ascii("a"), 1);
    OneMoreChild(list, Ascii("a"), 2);
    OneMoreChild(inner, Ascii("b"), 1);
    OneMoreChild(j, [], 1);
    OneMoreChild(j, [], 2);
    assert LeavesUpTo(list, Ascii("a"), 0) == LeavesUpTo(inner, Ascii("b"), 0) == LeavesUpTo(j, [], 0) == [];
  }

  /** A dotted key can hide a leaf: {"a.b": "x", "a": {"b": "y"}} is within all limits and has two leaves under one path. */
  lemma DottedKeysCollide()
    ensures var x, y := Plain(Text(Ascii("x"))), Plain(Text(Ascii("y")));
      var j := JsonRecord([Ascii("a.b"), Ascii("a")], [x, JsonRecord([Ascii("b")], [y])]);
      IsDto(j) && Leaves(j, []) == [Leaf(Ascii("a.b"), Ascii("x")), Leaf(Ascii("a.b"), Ascii("y"))]
      && Descendants(j) == 3 && DepthWithin(j, 2) && LengthOf(KeyNames(j)) == 5
  {
    var x, y := Plain(Text(Ascii("x"))), Plain(Text(Ascii("y")));
    var inner := JsonRecord([Ascii("b")], [y]);
    var j := JsonRecord([Ascii("a.b"), Ascii("a")], [x, inner]);
    assert KeyPath(Ascii("a"), Ascii("b")) == Ascii("a.b");
    assert Leaves(inner, Ascii("a")) == LeavesUpTo(inner, Ascii("a"), 0) + Leaves(y, Ascii("a.b"));
    assert LeavesUpTo(j, [], 1) == LeavesUpTo(j, [], 0) + Leaves(x, Ascii("a.b"));
    assert Leaves(j, []) == LeavesUpTo(j, [], 1) + Leaves(inner, Ascii("a"));
    DottedKeysCost(x, y);
  }

  lemma DottedKeysCost(x: Json, y: Json)
    requires x.Plain? && y.Plain?
    ensures var j := JsonRecord([Ascii("a.b"), Ascii("a")], [x, JsonRecord([Ascii("b")], [y])]);
      Descendants(j) == 3 && DepthWithin(j, 2) && LengthOf(KeyNames(j)) == 5
  {
    var inner := JsonRecord([Ascii("b")], [y]);
    var j := JsonRecord([Ascii("a.b"), Ascii("a")], [x, inner]);
    assert DepthWithin(j, 2) by { assert DepthWithin(x, 1) && DepthWithin(inner, 1) by { assert DepthWithin(y, 0); } }
    assert [x, inner][1..] == [inner] && [inner][1..] == [] && [y][1..] == [];
    assert Descendants(inner) == DescendantsOf([y]) == 1;
    assert DescendantsOf([inner]) == 1 + Descendants(inner) + DescendantsOf([inner][1..]);
    assert DescendantsOf([x, inner]) == 1 + Descendants(x) + DescendantsOf([x, inner][1..]);
    KeyCost(x, y, inner, j);
  }

  lemma KeyCost(x: Json, y: Json, inner: Json, j: Json)
    requires x.Plain? && y.Plain? && inner == JsonRecord([Ascii("b")], [y])
    requires j == JsonRecord([Ascii("a.b"), Ascii("a")], [x, inner])
    ensures LengthOf(KeyNames(j)) == 5
  {
    var a, b, c := Ascii("a.b"), Ascii("a"), Ascii("b");
    hide Ascii, LengthOf;
    assert KeyNamesUpTo(inner, 1) == KeyNamesUpTo(inner, 0) + [c] + KeyNames(y);
    assert KeyNames(inner) == [c];
    assert KeyNamesUpTo(j, 1) == KeyNamesUpTo(j, 0) + [a] + KeyNames(x);
    assert KeyNames(j) == KeyNamesUpTo(j, 1) + [b] + KeyNames(inner);
    assert KeyNames(j) == [a] + [b] + [c];
    hide KeyNames, KeyNamesUpTo;
    LengthConcat([a] + [b], [c]);
    LengthConcat([a], [b]);
    OneLength(a);
    OneLength(b);
    OneLength(c);
  }

  lemma OneLength(key: Str)
    ensures LengthOf([key]) == |key|
  {
    assert [key][..0] == [];
  }
}
