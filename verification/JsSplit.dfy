/** String.prototype.split, Array.prototype.join and String.prototype.trim. */
module JsSplit {
  import opened JsText

  function Split(s: Str, sep: Unit): (parts: seq<Str>)
    ensures parts != [] && forall i | 0 <= i < |parts| :: sep !in parts[i]
    decreases |s|
  {
    var i := IndexOf(s, sep);
    if i == |s| then [s] else [s[..i]] + Split(s[i + 1..], sep)
  }

  function Join(parts: seq<Str>, sep: Unit): Str {
    if parts == [] then []
    else if |parts| == 1 then parts[0]
    else parts[0] + [sep] + Join(parts[1..], sep)
  }

  lemma {:induction false} JoinSplit(s: Str, sep: Unit)
    ensures Join(Split(s, sep), sep) == s
    decreases |s|
  {
    var i := IndexOf(s, sep);
    if i < |s| {
      JoinSplit(s[i + 1..], sep);
      assert Split(s, sep)[1..] == Split(s[i + 1..], sep);
      assert s == s[..i] + [sep] + s[i + 1..];
    } else {
      assert s[..i] == s;
    }
  }

  lemma {:induction false} SplitJoin(parts: seq<Str>, sep: Unit)
    requires parts != [] && forall i | 0 <= i < |parts| :: sep !in parts[i]
    ensures Split(Join(parts, sep), sep) == parts
  {
    var s := Join(parts, sep);
    var rest := if |parts| == 1 then [] else [sep] + Join(parts[1..], sep);
    assert s == parts[0] + rest;
    IndexOfAfter(parts[0], sep, rest);
    if |parts| > 1 {
      SplitJoin(parts[1..], sep);
      assert s[|parts[0]| + 1..] == Join(parts[1..], sep) && s[..|parts[0]|] == parts[0];
    }
  }

  /** WhiteSpace and LineTerminator of ECMA-262. */
  predicate IsSpace(c: Unit) {
    9 <= c <= 13 || c == 32 || c == 0xA0 || c == 0x1680 || 0x2000 <= c <= 0x200A
    || c == 0x2028 || c == 0x2029 || c == 0x202F || c == 0x205F || c == 0x3000 || c == 0xFEFF
  }

  function TrimStart(s: Str): Str {
    if s != [] && IsSpace(s[0]) then TrimStart(s[1..]) else s
  }

  function TrimEnd(s: Str): Str {
    if s != [] && IsSpace(s[|s| - 1]) then TrimEnd(s[..|s| - 1]) else s
  }

  function Trim(s: Str): Str { TrimEnd(TrimStart(s)) }

  /** How many units TrimStart drops, and where TrimEnd cuts. */
  function TrimmedBefore(s: Str): (k: nat)
    ensures k <= |s|
  {
    if s != [] && IsSpace(s[0]) then 1 + TrimmedBefore(s[1..]) else 0
  }

  function TrimmedFrom(s: Str): (k: nat)
    ensures k <= |s|
  {
    if s != [] && IsSpace(s[|s| - 1]) then TrimmedFrom(s[..|s| - 1]) else |s|
  }

  lemma {:induction false} TrimStartKeeps(s: Str)
    ensures var k := TrimmedBefore(s);
      TrimStart(s) == s[k..] && (forall i | 0 <= i < k :: IsSpace(s[i])) && (k < |s| ==> !IsSpace(s[k]))
  {
    hide IsSpace;
    if s != [] && IsSpace(s[0]) {
      TrimStartKeeps(s[1..]);
      assert forall i | 1 <= i < |s| :: s[i] == s[1..][i - 1];
    }
  }

  lemma {:induction false} TrimEndKeeps(s: Str)
    ensures var k := TrimmedFrom(s);
      TrimEnd(s) == s[..k] && (forall i | k <= i < |s| :: IsSpace(s[i])) && (k > 0 ==> !IsSpace(s[k - 1]))
  {
    hide IsSpace;
    if s != [] && IsSpace(s[|s| - 1]) { TrimEndKeeps(s[..|s| - 1]); }
  }

  /** s is white space before i and from j on, and nothing more of it can be cut off there. */
  predicate Margins(s: Str, i: nat, j: nat)
    requires i <= j <= |s|
  {
    (forall k | 0 <= k < i :: IsSpace(s[k])) && (forall k | j <= k < |s| :: IsSpace(s[k]))
    && (i < j ==> !IsSpace(s[i]) && !IsSpace(s[j - 1]))
  }

  /** Trimming cuts white space, all of it, off both ends and nothing else. */
  lemma TrimCuts(s: Str) returns (i: nat, j: nat)
    ensures i <= j <= |s| && Trim(s) == s[i..j] && Margins(s, i, j)
  {
    i := TrimmedBefore(s);
    TrimStartKeeps(s);
    var t := s[i..];
    TrimEndKeeps(t);
    j := i + TrimmedFrom(t);
    hide IsSpace, TrimStart, TrimEnd, TrimmedBefore, TrimmedFrom;
    assert forall k | i <= k < |s| :: s[k] == t[k - i];
  }

  /** Trimming leaves nothing exactly of white space. */
  lemma TrimEmptyExactly(s: Str)
    ensures Trim(s) == [] <==> forall i | 0 <= i < |s| :: IsSpace(s[i])
  {
    hide IsSpace, Trim;
    var i, j := TrimCuts(s);
  }

  lemma NothingToTrim(s: Str)
    requires s != [] && !IsSpace(s[0]) && !IsSpace(s[|s| - 1])
    ensures Trim(s) == s
  {
    hide IsSpace;
  }

  lemma SplitWhole(a: Str, sep: Unit)
    requires sep !in a
    ensures Split(a, sep) == [a]
  {
    assert a + [] == a;
    IndexOfAfter(a, sep, []);
  }

  /** Splitting at the first separator. */
  lemma SplitFirst(a: Str, sep: Unit, rest: Str)
    requires sep !in a
    ensures Split(a + [sep] + rest, sep) == [a] + Split(rest, sep)
  {
    var s := a + [sep] + rest;
    Associative(a, [sep], rest);
    IndexOfAfter(a, sep, [sep] + rest);
    assert s[..|a|] == a && s[|a| + 1..] == rest && s[|a|] == sep;
    hide IndexOf;
  }
}
