/** normalizePosixAbsolutePath: resolving the segments of an absolute path on a stack. */
module PathNormalization {
  import opened JsText
  import opened JsSplit
  import opened Options

  const SLASH: Unit := 47
  const DOT: Str := Ascii(".")
  const DOTS: Str := Ascii("..")
  const ROOT: Str := [47]

  // ---------------------------------------------------------------- the stack machine

  predicate Skipped(seg: Str) { seg == [] || seg == DOT }

  /** A segment that names something. */
  predicate IsName(seg: Str) { seg != [] && seg != DOT && seg != DOTS && SLASH !in seg }

  function Resolve(segments: seq<Str>, stack: seq<Str>): Option<seq<Str>> {
    if segments == [] then Some(stack)
    else if Skipped(segments[0]) then Resolve(segments[1..], stack)
    else if segments[0] == DOTS then (if stack == [] then None else Resolve(segments[1..], stack[..|stack| - 1]))
    else Resolve(segments[1..], stack + [segments[0]])
  }

  function Printed(stack: seq<Str>): Str { if stack == [] then ROOT else ROOT + Join(stack, SLASH) }

  function Normalized(path: Str): Option<Str> {
    if path == [] || path[0] != SLASH then None
    else match Resolve(Split(path, SLASH), [])
      case None => None
      case Some(stack) => Some(Printed(stack))
  }

  method NormalizePosixAbsolutePath(targetPath: Str) returns (r: Option<Str>)
    ensures r == Normalized(targetPath)
  {
    if targetPath == [] || targetPath[0] != SLASH { return None; }
    if targetPath == ROOT {
      RootResolves();
      return Some(ROOT);
    }
    var parts := Split(targetPath, SLASH);
    var segments: seq<Str> := [];
    var i := 0;
    while i < |parts|
      invariant 0 <= i <= |parts|
      invariant Resolve(parts[i..], segments) == Resolve(parts, [])
    {
      var segment := parts[i];
      hide Split, Join, DOT, DOTS;
      assert parts[i..][1..] == parts[i + 1..];
      i := i + 1;
      if |segment| == 0 || segment == DOT { continue; }
      if segment == DOTS {
        if |segments| == 0 { return None; }
        segments := segments[..|segments| - 1];
        continue;
      }
      segments := segments + [segment];
    }
    return Some(if |segments| == 0 then ROOT else ROOT + Join(segments, SLASH));
  }

  lemma RootResolves()
    ensures Resolve(Split(ROOT, SLASH), []) == Some([])
  {
    var parts: seq<Str> := [[], []];
    assert Join(parts, SLASH) == ROOT by { assert parts[1..] == [[]]; }
    SplitJoin(parts, SLASH);
    assert parts[1..][1..] == [];
    hide Split;
    assert Resolve(parts, []) == Resolve(parts[1..], []) == Resolve(parts[1..][1..], []);
  }

  // ---------------------------------------------------------------- what comes out

  predicate AllNames(stack: seq<Str>) { forall i | 0 <= i < |stack| :: IsName(stack[i]) }

  lemma {:induction false} ResolveNames(segments: seq<Str>, stack: seq<Str>)
    requires AllNames(stack) && forall i | 0 <= i < |segments| :: SLASH !in segments[i]
    ensures Resolve(segments, stack).Some? ==> AllNames(Resolve(segments, stack).value)
  {
    hide DOT, DOTS;
    if segments != [] {
      if Skipped(segments[0]) {
        ResolveNames(segments[1..], stack);
      } else if segments[0] == DOTS {
        if stack != [] { ResolveNames(segments[1..], stack[..|stack| - 1]); }
      } else {
        ResolveNames(segments[1..], stack + [segments[0]]);
      }
    }
  }

  /** Names alone are stacked as they are. */
  lemma {:induction false} NamesResolve(names: seq<Str>, stack: seq<Str>)
    requires AllNames(names)
    ensures Resolve(names, stack) == Some(stack + names)
  {
    hide DOT, DOTS;
    if names == [] {
      assert stack + names == stack;
    } else {
      assert IsName(names[0]);
      NamesResolve(names[1..], stack + [names[0]]);
      assert stack + [names[0]] + names[1..] == stack + names;
    }
  }

  lemma PrintedResolves(stack: seq<Str>)
    requires AllNames(stack)
    ensures Printed(stack) != [] && Printed(stack)[0] == SLASH
      && Resolve(Split(Printed(stack), SLASH), []) == Some(stack)
  {
    if stack == [] {
      RootResolves();
    } else {
      var parts: seq<Str> := [[]] + stack;
      assert forall i | 0 <= i < |stack| :: IsName(stack[i]);
      assert parts[1..] == stack && [] + ROOT == ROOT;
      assert Join(parts, SLASH) == Printed(stack);
      SplitJoin(parts, SLASH);
      hide Split, Join;
      NamesResolve(stack, []);
      assert [] + stack == stack;
    }
  }

  /** The result names segments only, is its own normal form, and tells exactly which stack was reached. */
  lemma NormalizedIsNormal(path: Str)
    requires Normalized(path).Some?
    ensures var r := Normalized(path).value;
      Normalized(r) == Some(r)
      && exists stack: seq<Str> :: AllNames(stack) && r == Printed(stack) && Resolve(Split(path, SLASH), []) == Some(stack)
  {
    var stack := Resolve(Split(path, SLASH), []).value;
    ResolveNames(Split(path, SLASH), []);
    PrintedResolves(stack);
    hide Resolve, Split, Printed;
  }

  /** Two paths normalise alike exactly when they resolve to the same names. */
  lemma NormalizedIdentifies(p: Str, q: Str)
    requires Normalized(p).Some? && Normalized(q).Some?
    ensures Normalized(p) == Normalized(q) <==> Resolve(Split(p, SLASH), []) == Resolve(Split(q, SLASH), [])
  {
    var s, t := Resolve(Split(p, SLASH), []).value, Resolve(Split(q, SLASH), []).value;
    ResolveNames(Split(p, SLASH), []);
    ResolveNames(Split(q, SLASH), []);
    PrintedResolves(s);
    PrintedResolves(t);
    hide Resolve, Split, Printed;
  }

  // ---------------------------------------------------------------- what resolution means

  lemma {:induction false} ResolveConcat(a: seq<Str>, b: seq<Str>, stack: seq<Str>)
    ensures Resolve(a + b, stack)
         == if Resolve(a, stack).None? then None else Resolve(b, Resolve(a, stack).value)
    decreases |a|
  {
    hide DOT, DOTS;
    if a == [] {
      assert a + b == b;
    } else {
      assert (a + b)[0] == a[0] && (a + b)[1..] == a[1..] + b;
      if Skipped(a[0]) {
        ResolveConcat(a[1..], b, stack);
      } else if a[0] == DOTS {
        if stack != [] { ResolveConcat(a[1..], b, stack[..|stack| - 1]); }
      } else {
        ResolveConcat(a[1..], b, stack + [a[0]]);
      }
    }
  }

  /** Going down into a name and up again changes nothing, wherever it happens. */
  lemma DownAndUp(a: seq<Str>, name: Str, b: seq<Str>)
    requires IsName(name)
    ensures Resolve(a + [name, DOTS] + b, []) == Resolve(a + b, [])
  {
    ResolveConcat(a + [name, DOTS], b, []);
    ResolveConcat(a, [name, DOTS], []);
    ResolveConcat(a, b, []);
    if Resolve(a, []).Some? {
      var stack := Resolve(a, []).value;
      hide Resolve, DOT, DOTS;
      UpAgain(stack, name);
    }
  }

  lemma UpAgain(stack: seq<Str>, name: Str)
    requires IsName(name)
    ensures Resolve([name, DOTS], stack) == Some(stack)
  {
    assert !Skipped(DOTS) by { assert |DOTS| == 2 && |DOT| == 1; }
    hide DOT, DOTS;
    assert [name, DOTS][1..] == [DOTS] && [DOTS][1..] == [];
    assert (stack + [name])[..|stack|] == stack;
    assert Resolve([DOTS], stack + [name]) == Resolve([], stack);
  }

  /** How far below the root the first n segments lead. */
  function Level(segments: seq<Str>): int {
    if segments == [] then 0
    else
      var last := segments[|segments| - 1];
      Level(segments[..|segments| - 1]) + if Skipped(last) then 0 else if last == DOTS then -1 else 1
  }

  lemma {:induction false} LevelConcat(a: seq<Str>, b: seq<Str>)
    ensures Level(a + b) == Level(a) + Level(b)
    decreases |b|
  {
    hide DOT, DOTS;
    if b == [] {
      assert a + b == a;
    } else {
      LevelConcat(a, b[..|b| - 1]);
      assert (a + b)[..|a + b| - 1] == a + b[..|b| - 1];
    }
  }

  /** A path is refused exactly when some prefix of it climbs above the root. */
  lemma {:induction false} RefusedExactly(segments: seq<Str>, stack: seq<Str>)
    ensures Resolve(segments, stack).None? <==> exists n :: 0 <= n <= |segments| && |stack| + Level(segments[..n]) < 0
    ensures Resolve(segments, stack).Some? ==> |Resolve(segments, stack).value| == |stack| + Level(segments)
    decreases |segments|
  {
    hide DOT, DOTS;
    if segments != [] {
      var first, rest := segments[0], segments[1..];
      var step := if Skipped(first) then 0 else if first == DOTS then -1 else 1;
      forall n | 0 <= n < |segments| ensures Level(segments[..n + 1]) == step + Level(rest[..n]) { FirstLevel(segments, n); }
      assert segments[..|segments|] == segments && rest[..|rest|] == rest;
      assert segments[..0] == [];
      if first == DOTS && !Skipped(first) && stack == [] {
        assert rest[..0] == [] && |stack| + Level(segments[..1]) < 0;
      } else {
        var next := if Skipped(first) then stack else if first == DOTS then stack[..|stack| - 1] else stack + [first];
        RefusedExactly(rest, next);
        PrefixShift(segments, stack, step);
        assert |next| == |stack| + step;
      }
    }
  }

  lemma FirstLevel(segments: seq<Str>, n: nat)
    requires n < |segments|
    ensures var first := segments[0];
      Level(segments[..n + 1]) == (if Skipped(first) then 0 else if first == DOTS then -1 else 1) + Level(segments[1..][..n])
  {
    LevelConcat([segments[0]], segments[1..][..n]);
    assert segments[..n + 1] == [segments[0]] + segments[1..][..n];
    hide DOT, DOTS;
    var one := [segments[0]];
    assert one[..0] == [];
    assert Level(one) == Level(one[..0]) + if Skipped(segments[0]) then 0 else if segments[0] == DOTS then -1 else 1;
  }

  lemma PrefixShift(segments: seq<Str>, stack: seq<Str>, step: int)
    requires segments != [] && |stack| + step >= 0
    requires forall n | 0 <= n < |segments| :: Level(segments[..n + 1]) == step + Level(segments[1..][..n])
    ensures (exists n :: 0 <= n <= |segments| && |stack| + Level(segments[..n]) < 0)
       <==> exists n :: 0 <= n <= |segments| - 1 && |stack| + step + Level(segments[1..][..n]) < 0
  {
    var rest := segments[1..];
    assert segments[..0] == [];
    hide Skipped;
    if n :| 0 <= n <= |segments| && |stack| + Level(segments[..n]) < 0 {
      assert n > 0;
      assert |stack| + step + Level(rest[..n - 1]) < 0;
    }
    if n :| 0 <= n <= |rest| && |stack| + step + Level(rest[..n]) < 0 {
      assert |stack| + Level(segments[..n + 1]) < 0;
    }
  }

  ghost predicate ClimbsOut(segments: seq<Str>) { exists n :: 0 <= n <= |segments| && Level(segments[..n]) < 0 }

  lemma PathRefusedExactly(path: Str)
    ensures Normalized(path).None? <==> path == [] || path[0] != SLASH || ClimbsOut(Split(path, SLASH))
  {
    var segments := Split(path, SLASH);
    RefusedExactly(segments, []);
    hide Resolve, Level, Split;
    assert ClimbsOut(segments) <==> Resolve(segments, []).None? by {
      if Resolve(segments, []).None? {
        var n :| 0 <= n <= |segments| && 0 + Level(segments[..n]) < 0;
        assert Level(segments[..n]) < 0;
      }
      if ClimbsOut(segments) {
        var n :| 0 <= n <= |segments| && Level(segments[..n]) < 0;
        assert 0 + Level(segments[..n]) < 0;
      }
    }
  }
}
