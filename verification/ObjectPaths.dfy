/** Graphs of objects that may share children and contain cycles, and the paths that lead through them. */
module ObjectPaths {
  import opened Options

  datatype Item<+T> = Leaf(leaf: T) | Ref(id: nat)

  type Graph<+T> = map<nat, seq<Item<T>>>

  type Path = seq<nat>

  function Children<T>(g: Graph<T>, v: Item<T>): seq<Item<T>> { if v.Ref? && v.id in g then g[v.id] else [] }

  /** What a path of child positions leads to. */
  function At<T>(g: Graph<T>, v: Item<T>, path: Path): Option<Item<T>>
    decreases |path|
  {
    if path == [] then Some(v)
    else if path[0] < |Children(g, v)| then At(g, Children(g, v)[path[0]], path[1..])
    else None
  }

  /** Everything reachable satisfies `ok` and no path is longer than `levels`. */
  ghost predicate Fits<T>(g: Graph<T>, ok: Item<T> -> bool, v: Item<T>, levels: int)
    decreases levels
  {
    levels >= 0 && ok(v) && forall i | 0 <= i < |Children(g, v)| :: Fits(g, ok, Children(g, v)[i], levels - 1)
  }

  /** The objects met by a depth-first walk that never stops early, in order, one entry per path. */
  ghost function Objects<T>(g: Graph<T>, v: Item<T>, levels: int): seq<nat>
    decreases levels, 1, 0
  {
    if v.Leaf? || levels < 0 then [] else [v.id] + ObjectsOf(g, Children(g, v), levels - 1)
  }

  ghost function ObjectsOf<T>(g: Graph<T>, vs: seq<Item<T>>, levels: int): seq<nat>
    decreases levels, 2, |vs|
  {
    if vs == [] then [] else Objects(g, vs[0], levels) + ObjectsOf(g, vs[1..], levels)
  }

  lemma {:induction false} ObjectsOfConcat<T>(g: Graph<T>, us: seq<Item<T>>, vs: seq<Item<T>>, levels: int)
    ensures ObjectsOf(g, us + vs, levels) == ObjectsOf(g, us, levels) + ObjectsOf(g, vs, levels)
    decreases |us|
  {
    if us == [] {
      assert us + vs == vs;
    } else {
      ObjectsOfConcat(g, us[1..], vs, levels);
      assert (us + vs)[0] == us[0] && (us + vs)[1..] == us[1..] + vs;
    }
  }

  ghost predicate AllPathsOk<T>(g: Graph<T>, ok: Item<T> -> bool, v: Item<T>, levels: int) {
    forall p: Path | At(g, v, p).Some? :: |p| <= levels && ok(At(g, v, p).value)
  }

  /** Nothing reachable lies on a cycle. */
  ghost predicate Acyclic<T>(g: Graph<T>, v: Item<T>) {
    forall p: Path, loop: Path | At(g, v, p).Some? && At(g, v, p).value.Ref? && loop != [] ::
      At(g, At(g, v, p).value, loop) != At(g, v, p)
  }

  lemma AtChild<T>(g: Graph<T>, v: Item<T>, i: nat, p: Path)
    requires i < |Children(g, v)|
    ensures At(g, v, [i] + p) == At(g, Children(g, v)[i], p)
  {
    assert ([i] + p)[1..] == p;
  }

  /** Fitting is a statement about all paths. */
  lemma {:induction false} FitsExactly<T>(g: Graph<T>, ok: Item<T> -> bool, v: Item<T>, levels: int)
    ensures Fits(g, ok, v, levels) <==> AllPathsOk(g, ok, v, levels)
    decreases levels
  {
    if Fits(g, ok, v, levels) { FitsOnPaths(g, ok, v, levels); }
    if AllPathsOk(g, ok, v, levels) { FitsFromPaths(g, ok, v, levels); }
  }

  lemma {:induction false} FitsOnPaths<T>(g: Graph<T>, ok: Item<T> -> bool, v: Item<T>, levels: int)
    requires Fits(g, ok, v, levels)
    ensures AllPathsOk(g, ok, v, levels)
    decreases levels
  {
    forall p: Path | At(g, v, p).Some? ensures |p| <= levels && ok(At(g, v, p).value) {
      if p != [] {
        FitsOnPaths(g, ok, Children(g, v)[p[0]], levels - 1);
        assert |p[1..]| <= levels - 1;
      }
    }
  }

  lemma {:induction false} FitsFromPaths<T>(g: Graph<T>, ok: Item<T> -> bool, v: Item<T>, levels: int)
    requires AllPathsOk(g, ok, v, levels)
    ensures Fits(g, ok, v, levels)
    decreases levels
  {
    assert At(g, v, []) == Some(v);
    forall i | 0 <= i < |Children(g, v)| ensures Fits(g, ok, Children(g, v)[i], levels - 1) {
      ChildPathsOk(g, ok, v, levels, i);
      FitsFromPaths(g, ok, Children(g, v)[i], levels - 1);
    }
  }

  lemma ChildPathsOk<T>(g: Graph<T>, ok: Item<T> -> bool, v: Item<T>, levels: int, i: nat)
    requires AllPathsOk(g, ok, v, levels) && i < |Children(g, v)|
    ensures levels >= 1 && AllPathsOk(g, ok, Children(g, v)[i], levels - 1)
  {
    var c := Children(g, v)[i];
    AtChild(g, v, i, []);
    assert At(g, c, []) == Some(c);
    hide At, Children;
    forall p: Path | At(g, c, p).Some? ensures |p| <= levels - 1 && ok(At(g, c, p).value) {
      AtChild(g, v, i, p);
      assert |[i] + p| <= levels;
    }
  }

  // ---------------------------------------------------------------- one visit per path

  datatype Visit = Visit(path: Path, id: nat)

  ghost function Prefixed(k: nat, ws: seq<Visit>): (r: seq<Visit>)
    ensures |r| == |ws| && forall i | 0 <= i < |ws| :: r[i] == Visit([k] + ws[i].path, ws[i].id)
  {
    seq(|ws|, i requires 0 <= i < |ws| => Visit([k] + ws[i].path, ws[i].id))
  }

  ghost function Visits<T>(g: Graph<T>, v: Item<T>, levels: int): seq<Visit>
    decreases levels, 1, 0
  {
    if v.Leaf? || levels < 0 then [] else [Visit([], v.id)] + VisitsOf(g, Children(g, v), 0, levels - 1)
  }

  ghost function VisitsOf<T>(g: Graph<T>, vs: seq<Item<T>>, base: nat, levels: int): seq<Visit>
    decreases levels, 2, |vs|
  {
    if vs == [] then [] else Prefixed(base, Visits(g, vs[0], levels)) + VisitsOf(g, vs[1..], base + 1, levels)
  }

  ghost function Ids(ws: seq<Visit>): (r: seq<nat>)
    ensures |r| == |ws| && forall i | 0 <= i < |ws| :: r[i] == ws[i].id
  {
    seq(|ws|, i requires 0 <= i < |ws| => ws[i].id)
  }

  predicate Distinct<T(==)>(s: seq<T>) { forall i, j | 0 <= i < j < |s| :: s[i] != s[j] }

  ghost predicate DistinctPaths(ws: seq<Visit>) { forall i, j | 0 <= i < j < |ws| :: ws[i].path != ws[j].path }

  lemma {:induction false} IdsAreObjects<T>(g: Graph<T>, v: Item<T>, levels: int)
    ensures Ids(Visits(g, v, levels)) == Objects(g, v, levels)
    decreases levels, 1, 0
  {
    if v.Ref? && levels >= 0 { IdsAreObjectsOf(g, Children(g, v), 0, levels - 1); }
  }

  lemma {:induction false} IdsAreObjectsOf<T>(g: Graph<T>, vs: seq<Item<T>>, base: nat, levels: int)
    ensures Ids(VisitsOf(g, vs, base, levels)) == ObjectsOf(g, vs, levels)
    decreases levels, 2, |vs|
  {
    if vs != [] {
      IdsAreObjects(g, vs[0], levels);
      IdsAreObjectsOf(g, vs[1..], base + 1, levels);
      assert Ids(Prefixed(base, Visits(g, vs[0], levels))) == Ids(Visits(g, vs[0], levels));
    }
  }

  /** Visits are sound and their paths are distinct. */
  lemma {:induction false} VisitsSound<T>(g: Graph<T>, v: Item<T>, levels: int)
    ensures var ws := Visits(g, v, levels);
      DistinctPaths(ws) && forall i | 0 <= i < |ws| :: At(g, v, ws[i].path) == Some(Ref(ws[i].id))
    decreases levels, 1, 0
  {
    if v.Ref? && levels >= 0 { VisitsOfSound(g, Children(g, v), 0, levels - 1); }
  }

  ghost predicate Located<T>(g: Graph<T>, vs: seq<Item<T>>, base: nat, w: Visit) {
    var p := w.path;
    p != [] && base <= p[0] < base + |vs| && At(g, vs[p[0] - base], p[1..]) == Some(Ref(w.id))
  }

  lemma {:induction false} VisitsOfSound<T>(g: Graph<T>, vs: seq<Item<T>>, base: nat, levels: int)
    ensures var ws := VisitsOf(g, vs, base, levels);
      DistinctPaths(ws) && forall i | 0 <= i < |ws| :: Located(g, vs, base, ws[i])
    decreases levels, 2, |vs|
  {
    if vs != [] {
      VisitsSound(g, vs[0], levels);
      VisitsOfSound(g, vs[1..], base + 1, levels);
      var first, rest := Visits(g, vs[0], levels), VisitsOf(g, vs[1..], base + 1, levels);
      hide Visits, At;
      PrefixedDistinct(base, first);
      forall i | 0 <= i < |first| ensures Located(g, vs, base, Prefixed(base, first)[i]) {
        assert ([base] + first[i].path)[1..] == first[i].path;
      }
      forall i | 0 <= i < |rest| ensures Located(g, vs, base, rest[i]) && rest[i].path[0] > base {
        assert Located(g, vs[1..], base + 1, rest[i]);
      }
      DistinctJoin(base, Prefixed(base, first), rest);
    }
  }

  lemma DistinctJoin(base: nat, a: seq<Visit>, b: seq<Visit>)
    requires DistinctPaths(a) && DistinctPaths(b)
    requires forall i | 0 <= i < |a| :: a[i].path != [] && a[i].path[0] == base
    requires forall i | 0 <= i < |b| :: b[i].path != [] && b[i].path[0] > base
    ensures DistinctPaths(a + b)
  {
    forall i, j | 0 <= i < j < |a + b| ensures (a + b)[i].path != (a + b)[j].path {
      if i < |a| <= j { assert (a + b)[i].path[0] == base && (a + b)[j].path[0] > base; }
    }
  }

  lemma PrefixedDistinct(k: nat, ws: seq<Visit>)
    requires DistinctPaths(ws)
    ensures DistinctPaths(Prefixed(k, ws))
  {
    forall i, j | 0 <= i < j < |ws| ensures [k] + ws[i].path != [k] + ws[j].path {
      assert ([k] + ws[i].path)[1..] == ws[i].path && ([k] + ws[j].path)[1..] == ws[j].path;
    }
  }

  /** Visits are complete for paths within the levels. */
  lemma {:induction false} VisitsComplete<T>(g: Graph<T>, v: Item<T>, levels: int, p: Path)
    requires At(g, v, p).Some? && At(g, v, p).value.Ref? && |p| <= levels
    ensures Visit(p, At(g, v, p).value.id) in Visits(g, v, levels)
    decreases levels, 1, 0
  {
    if p != [] {
      var cs := Children(g, v);
      VisitsOfComplete(g, cs, 0, levels - 1, p[0], p[1..]);
      assert [p[0]] + p[1..] == p;
    }
  }

  lemma {:induction false} VisitsOfComplete<T>(g: Graph<T>, vs: seq<Item<T>>, base: nat, levels: int, k: nat, p: Path)
    requires k < |vs| && At(g, vs[k], p).Some? && At(g, vs[k], p).value.Ref? && |p| <= levels
    ensures Visit([base + k] + p, At(g, vs[k], p).value.id) in VisitsOf(g, vs, base, levels)
    decreases levels, 2, |vs|
  {
    var id := At(g, vs[k], p).value.id;
    if k == 0 {
      VisitsComplete(g, vs[0], levels, p);
      var ws := Visits(g, vs[0], levels);
      var i :| 0 <= i < |ws| && ws[i] == Visit(p, id);
      assert Prefixed(base, ws)[i] == Visit([base] + p, id);
    } else {
      VisitsOfComplete(g, vs[1..], base + 1, levels, k - 1, p);
    }
  }

  // ---------------------------------------------------------------- trees and counts

  /** No object is reached by two paths. */
  ghost predicate IsTree<T>(g: Graph<T>, v: Item<T>) {
    forall p: Path, q: Path | At(g, v, p).Some? && At(g, v, p) == At(g, v, q) && At(g, v, p).value.Ref? :: p == q
  }

  ghost predicate AllPathsWithin<T>(g: Graph<T>, v: Item<T>, levels: int) {
    forall p: Path | At(g, v, p).Some? :: |p| <= levels
  }

  /** A walk meets no object twice exactly when the object graph is a tree. */
  lemma TreeExactly<T>(g: Graph<T>, v: Item<T>, levels: int)
    requires AllPathsWithin(g, v, levels)
    ensures Distinct(Objects(g, v, levels)) <==> IsTree(g, v)
  {
    var ws := Visits(g, v, levels);
    VisitsSound(g, v, levels);
    IdsAreObjects(g, v, levels);
    hide Visits, Objects;
    if Distinct(Ids(ws)) {
      forall p: Path, q: Path | At(g, v, p).Some? && At(g, v, p) == At(g, v, q) && At(g, v, p).value.Ref? ensures p == q {
        VisitsComplete(g, v, levels, p);
        VisitsComplete(g, v, levels, q);
        OneVisit(ws, p, q, At(g, v, p).value.id);
      }
    }
    if IsTree(g, v) {
      forall i, j | 0 <= i < j < |ws| ensures Ids(ws)[i] != Ids(ws)[j] {
        assert At(g, v, ws[i].path) == Some(Ref(ws[i].id)) && At(g, v, ws[j].path) == Some(Ref(ws[j].id));
      }
    }
  }

  lemma OneVisit(ws: seq<Visit>, p: Path, q: Path, id: nat)
    requires Distinct(Ids(ws)) && Visit(p, id) in ws && Visit(q, id) in ws
    ensures p == q
  {
    var i :| 0 <= i < |ws| && ws[i] == Visit(p, id);
    var j :| 0 <= j < |ws| && ws[j] == Visit(q, id);
    assert Ids(ws)[i] == Ids(ws)[j];
  }

  function PathList(ws: seq<Visit>): (r: seq<Path>)
    ensures |r| == |ws| && forall i | 0 <= i < |ws| :: r[i] == ws[i].path
  {
    seq(|ws|, i requires 0 <= i < |ws| => ws[i].path)
  }

  /** The walk meets at most n objects exactly when some n paths are all the paths to objects. */
  lemma CountExactly<T>(g: Graph<T>, v: Item<T>, levels: int, n: nat)
    requires AllPathsWithin(g, v, levels)
    ensures |Objects(g, v, levels)| <= n <==> FewObjectPaths(g, v, n)
  {
    var ws := Visits(g, v, levels);
    VisitsSound(g, v, levels);
    IdsAreObjects(g, v, levels);
    DistinctSize(PathList(ws));
    hide Visits, Objects;
    var mine := Members(PathList(ws));
    forall p: Path | At(g, v, p).Some? && At(g, v, p).value.Ref? ensures p in mine {
      VisitsComplete(g, v, levels, p);
      var i :| 0 <= i < |ws| && ws[i] == Visit(p, At(g, v, p).value.id);
      assert PathList(ws)[i] == p;
    }
    if FewObjectPaths(g, v, n) {
      var s: set<Path> :| |s| <= n && Covers(g, v, s);
      assert mine <= s;
      SubsetSize(mine, s);
    }
    if |ws| <= n { assert Covers(g, v, mine); }
  }

  ghost predicate Covers<T>(g: Graph<T>, v: Item<T>, s: set<Path>) {
    forall p: Path | At(g, v, p).Some? && At(g, v, p).value.Ref? :: p in s
  }

  ghost predicate FewObjectPaths<T>(g: Graph<T>, v: Item<T>, n: nat) {
    exists s: set<Path> :: |s| <= n && Covers(g, v, s)
  }

  lemma {:induction false} SubsetSize<T>(a: set<T>, b: set<T>)
    requires a <= b
    ensures |a| <= |b|
  {
    if a != {} {
      var x :| x in a;
      SubsetSize(a - {x}, b - {x});
    }
  }

  /** The objects some path leads to. */
  ghost predicate IsReached<T>(g: Graph<T>, v: Item<T>, s: set<nat>) {
    forall id: nat :: id in s <==> exists p: Path :: At(g, v, p) == Some(Ref(id))
  }

  lemma ReachedExactly<T>(g: Graph<T>, v: Item<T>, levels: int)
    requires AllPathsWithin(g, v, levels)
    ensures IsReached(g, v, Members(Objects(g, v, levels)))
  {
    var ws := Visits(g, v, levels);
    VisitsSound(g, v, levels);
    IdsAreObjects(g, v, levels);
    hide Visits, Objects;
    var s := Members(Ids(ws));
    forall id: nat | id in s ensures exists p: Path :: At(g, v, p) == Some(Ref(id)) {
      var i :| 0 <= i < |ws| && Ids(ws)[i] == id;
      assert At(g, v, ws[i].path) == Some(Ref(id));
    }
    forall id: nat, p: Path | At(g, v, p) == Some(Ref(id)) ensures id in s {
      VisitsComplete(g, v, levels, p);
      var i :| 0 <= i < |ws| && ws[i] == Visit(p, id);
      assert Ids(ws)[i] == id;
    }
  }

  function Members<T(==)>(s: seq<T>): set<T> { set x | x in s }

  lemma {:induction false} DistinctSize<T>(s: seq<T>)
    requires Distinct(s)
    ensures |Members(s)| == |s|
  {
    if s != [] {
      var init, last := s[..|s| - 1], s[|s| - 1];
      DistinctSize(init);
      assert s == init + [last];
      assert Members(s) == Members(init) + {last};
      assert last !in init;
    }
  }
}
