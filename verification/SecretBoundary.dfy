/** memory-secret-boundary: no sealed secret may hide anywhere inside the metadata of a memory write. */
module SecretBoundary {
  import opened ObjectPaths
  import opened Options

  /** Primitives are all alike here. */
  datatype Primitive = Primitive

  type Value = Item<Primitive>

  /** Array items and enumerable properties of each object, and the objects the two secret registries hold. */
  datatype World = World(children: Graph<Primitive>, secretData: set<nat>, secretReferences: set<nat>)

  datatype Sensitivity = Unstated | Ordinary | SecretClass

  const MAX_TRAVERSAL_NODES: int := 64

  predicate IsSecretData(w: World, v: Value) { v.Ref? && v.id in w.secretData }
  predicate IsSecretReference(w: World, v: Value) { v.Ref? && v.id in w.secretReferences }

  predicate Exists(w: World, v: Value) { v.Ref? ==> v.id in w.children }

  predicate Closed(w: World) {
    forall id | id in w.children :: forall i | 0 <= i < |w.children[id]| :: Exists(w, w.children[id][i])
  }

  ghost function Harmless(w: World): Value -> bool { (v: Value) => v.Ref? ==> v.id !in w.secretData && v.id !in w.secretReferences }

  /** No secret, and few enough objects that the budget is not spent, below v. */
  ghost predicate Clean(w: World, v: Value, levels: int, nodes: int) {
    Fits(w.children, Harmless(w), v, levels) && nodes + |Objects(w.children, v, levels)| <= MAX_TRAVERSAL_NODES
  }

  ghost predicate AllClean(w: World, vs: seq<Value>, levels: int, nodes: int) {
    (forall i | 0 <= i < |vs| :: Fits(w.children, Harmless(w), vs[i], levels))
    && nodes + |ObjectsOf(w.children, vs, levels)| <= MAX_TRAVERSAL_NODES
  }

  lemma CleanUpTo(w: World, vs: seq<Value>, k: nat, levels: int, nodes: int)
    requires k < |vs|
    ensures var before := |ObjectsOf(w.children, vs[..k], levels)|;
      |ObjectsOf(w.children, vs[..k + 1], levels)| == before + |Objects(w.children, vs[k], levels)|
      && (AllClean(w, vs[..k], levels, nodes) ==>
            (AllClean(w, vs[..k + 1], levels, nodes) <==> Clean(w, vs[k], levels, nodes + before)))
  {
    var g := w.children;
    assert ObjectsOf(g, [vs[k]], levels) == Objects(g, vs[k], levels) by {
      assert [vs[k]][1..] == [] && ObjectsOf(g, [vs[k]][1..], levels) == [];
    }
    assert vs[..k + 1] == vs[..k] + [vs[k]];
    ObjectsOfConcat(g, vs[..k], [vs[k]], levels);
    hide Objects, ObjectsOf, Fits, Harmless;
    assert forall i | 0 <= i < k :: vs[..k + 1][i] == vs[..k][i];
    assert vs[..k + 1][k] == vs[k];
  }

  lemma NotCleanFurther(w: World, vs: seq<Value>, k: nat, levels: int, nodes: int)
    requires k <= |vs| && !AllClean(w, vs[..k], levels, nodes)
    ensures !AllClean(w, vs, levels, nodes)
  {
    assert vs == vs[..k] + vs[k..];
    ObjectsOfConcat(w.children, vs[..k], vs[k..], levels);
    hide ObjectsOf, Fits, Harmless;
    assert forall i | 0 <= i < k :: vs[..k][i] == vs[i];
  }

  lemma ObjectClean(w: World, v: Value, levels: int, nodes: int)
    requires v.Ref? && v.id in w.children && levels >= 0 && Harmless(w)(v)
    ensures |Objects(w.children, v, levels)| == 1 + |ObjectsOf(w.children, w.children[v.id], levels - 1)|
    ensures Clean(w, v, levels, nodes) <==> AllClean(w, w.children[v.id], levels - 1, nodes + 1)
  {
    assert Children(w.children, v) == w.children[v.id];
  }

  class Traversal {
    const w: World
    var nodes: int

    constructor (w: World)
      ensures this.w == w && nodes == 0
    {
      this.w, nodes := w, 0;
    }

    /** The shared budget makes this terminate on cyclic graphs too. */
    method ContainsSecretMaterial(value: Value, ghost levels: int) returns (found: bool)
      requires Closed(w) && Exists(w, value) && nodes <= MAX_TRAVERSAL_NODES && levels >= MAX_TRAVERSAL_NODES - nodes
      modifies this
      ensures !found <==> Clean(w, value, levels, old(nodes))
      ensures old(nodes) <= nodes <= MAX_TRAVERSAL_NODES
      ensures !found ==> nodes == old(nodes) + |Objects(w.children, value, levels)|
      decreases MAX_TRAVERSAL_NODES - nodes
    {
      if IsSecretData(w, value) || IsSecretReference(w, value) { return true; }
      if value.Leaf? { return false; }
      ghost var vs := w.children[value.id];
      ObjectClean(w, value, levels, nodes);
      hide Clean, AllClean, Objects, ObjectsOf, Fits;
      if nodes >= MAX_TRAVERSAL_NODES {
        assert !AllClean(w, vs, levels - 1, nodes + 1) by { BudgetSpent(w, vs, levels - 1, nodes + 1); }
        return true;
      }
      nodes := nodes + 1;
      ghost var start := nodes;
      var items := w.children[value.id];
      var index := 0;
      assert AllClean(w, vs[..0], levels - 1, start) && ObjectsOf(w.children, vs[..0], levels - 1) == [] by {
        NothingBelow(w, vs, levels - 1, start);
      }
      while index < |items|
        invariant 0 <= index <= |items|
        invariant start <= nodes <= MAX_TRAVERSAL_NODES
        invariant AllClean(w, vs[..index], levels - 1, start)
        invariant nodes == start + |ObjectsOf(w.children, vs[..index], levels - 1)|
      {
        CleanUpTo(w, vs, index, levels - 1, start);
        var inside := ContainsSecretMaterial(items[index], levels - 1);
        if inside {
          NotCleanFurther(w, vs, index + 1, levels - 1, start);
          return true;
        }
        index := index + 1;
      }
      assert vs[..|vs|] == vs;
      return false;
    }
  }

  lemma BudgetSpent(w: World, vs: seq<Value>, levels: int, nodes: int)
    requires nodes > MAX_TRAVERSAL_NODES
    ensures !AllClean(w, vs, levels, nodes)
  {
  }

  lemma NothingBelow(w: World, vs: seq<Value>, levels: int, nodes: int)
    requires nodes <= MAX_TRAVERSAL_NODES
    ensures AllClean(w, vs[..0], levels, nodes) && ObjectsOf(w.children, vs[..0], levels) == []
  {
  }

  // ---------------------------------------------------------------- in terms of paths

  ghost predicate NoSecretReachable(w: World, v: Value) {
    forall p: Path | At(w.children, v, p).Some? :: Harmless(w)(At(w.children, v, p).value)
  }

  /** Every proper prefix of a path ends at an object. */
  lemma {:induction false} PrefixesAreObjects<T>(g: Graph<T>, v: Item<T>, p: Path, k: nat)
    requires At(g, v, p).Some? && k < |p|
    ensures At(g, v, p[..k]).Some? && At(g, v, p[..k]).value.Ref?
    decreases k
  {
    if k > 0 {
      PrefixesAreObjects(g, Children(g, v)[p[0]], p[1..], k - 1);
      assert p[..k][1..] == p[1..][..k - 1];
    }
  }

  function Prefixes(p: Path): (s: seq<Path>)
    ensures |s| == |p| && Distinct(s) && forall k | 0 <= k < |p| :: s[k] == p[..k]
  {
    var s := seq(|p|, k requires 0 <= k < |p| => p[..k]);
    assert forall k | 0 <= k < |p| :: |s[k]| == k;
    s
  }

  lemma FewObjectsShortPaths<T>(g: Graph<T>, v: Item<T>, n: nat)
    requires FewObjectPaths(g, v, n)
    ensures AllPathsWithin(g, v, n)
  {
    var s: set<Path> :| |s| <= n && Covers(g, v, s);
    forall p: Path | At(g, v, p).Some? ensures |p| <= n {
      forall q | q in Members(Prefixes(p)) ensures q in s {
        var k :| 0 <= k < |p| && q == Prefixes(p)[k];
        PrefixesAreObjects(g, v, p, k);
      }
      DistinctSize(Prefixes(p));
      SubsetSize(Members(Prefixes(p)), s);
    }
  }

  lemma CleanExactly(w: World, v: Value)
    ensures Clean(w, v, MAX_TRAVERSAL_NODES, 0)
       <==> NoSecretReachable(w, v) && FewObjectPaths(w.children, v, MAX_TRAVERSAL_NODES)
  {
    var g := w.children;
    FitsExactly(g, Harmless(w), v, MAX_TRAVERSAL_NODES);
    if FewObjectPaths(g, v, MAX_TRAVERSAL_NODES) { FewObjectsShortPaths(g, v, MAX_TRAVERSAL_NODES); }
    hide Fits, Objects, FewObjectPaths, At;
    if AllPathsWithin(g, v, MAX_TRAVERSAL_NODES) { CountExactly(g, v, MAX_TRAVERSAL_NODES, MAX_TRAVERSAL_NODES); }
  }

  lemma {:induction false} AtJoin<T>(g: Graph<T>, v: Item<T>, p: Path, q: Path)
    requires At(g, v, p).Some?
    ensures At(g, v, p + q) == At(g, At(g, v, p).value, q)
    decreases |p|
  {
    if p == [] {
      assert p + q == q;
    } else {
      AtJoin(g, Children(g, v)[p[0]], p[1..], q);
      assert (p + q)[1..] == p[1..] + q;
    }
  }

  function Repeated(p: Path, n: nat): (r: Path)
    ensures |r| == n * |p|
  {
    if n == 0 then [] else p + Repeated(p, n - 1)
  }

  lemma {:induction false} LoopsForever<T>(g: Graph<T>, id: nat, loop: Path, n: nat)
    requires At(g, Ref(id), loop) == Some(Ref(id))
    ensures At(g, Ref(id), Repeated(loop, n)) == Some(Ref(id))
  {
    if n > 0 {
      LoopsForever(g, id, loop, n - 1);
      AtJoin(g, Ref(id), loop, Repeated(loop, n - 1));
    }
  }

  lemma FewObjectsAcyclic<T>(g: Graph<T>, v: Item<T>, n: nat)
    requires FewObjectPaths(g, v, n)
    ensures Acyclic(g, v)
  {
    FewObjectsShortPaths(g, v, n);
    hide FewObjectPaths, Repeated, At;
    forall p: Path, loop: Path | At(g, v, p).Some? && At(g, v, p).value.Ref? && loop != []
      ensures At(g, At(g, v, p).value, loop) != At(g, v, p)
    {
      if At(g, At(g, v, p).value, loop) == At(g, v, p) {
        LoopsForever(g, At(g, v, p).value.id, loop, n + 1);
        AtJoin(g, v, p, Repeated(loop, n + 1));
        Longer(loop, n + 1);
      }
    }
  }

  lemma Longer(p: Path, n: nat)
    requires p != []
    ensures |Repeated(p, n)| >= n
  {
    assert n * |p| >= n;
  }

  // ---------------------------------------------------------------- the boundary

  /**
   * Metadata passes exactly when no path leads to a secret and at most 64 paths lead to objects; then nothing in it is
   * cyclic either.
   */
  method EvaluateMemorySecretBoundary(w: World, contentSensitivity: Sensitivity, rawContent: Value, rawMetadata: Value)
    returns (allowed: bool)
    requires Closed(w) && Exists(w, rawContent) && Exists(w, rawMetadata)
    ensures allowed <==>
      contentSensitivity != SecretClass && (rawContent.Ref? ==> rawContent.id !in w.secretData)
      && NoSecretReachable(w, rawMetadata) && FewObjectPaths(w.children, rawMetadata, MAX_TRAVERSAL_NODES)
    ensures allowed ==> Acyclic(w.children, rawMetadata)
  {
    if contentSensitivity == SecretClass { return false; }
    if IsSecretData(w, rawContent) { return false; }
    var traversal := new Traversal(w);
    var found := traversal.ContainsSecretMaterial(rawMetadata, MAX_TRAVERSAL_NODES);
    CleanExactly(w, rawMetadata);
    if !found { FewObjectsAcyclic(w.children, rawMetadata, MAX_TRAVERSAL_NODES); }
    return !found;
  }
}
