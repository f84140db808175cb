/** JavaScript text: strings as UTF-16 code units, their order, decimal printing and UTF-8. */
module JsText {

  /** One UTF-16 code unit. Lone surrogates are ordinary values of this type. */
  type Unit = c: int | 0 <= c < 0x1_0000
  type Str = seq<Unit>
  type Byte = b: int | 0 <= b < 0x100
  type Bytes = seq<Byte>

  /** The code units of an ASCII literal. */
  function Ascii(s: string): (r: Str)
    requires forall i | 0 <= i < |s| :: s[i] < '\U{80}'
    ensures |r| == |s| && forall i | 0 <= i < |r| :: r[i] == s[i] as int < 0x80
  {
    seq(|s|, i requires 0 <= i < |s| => s[i] as int)
  }

  predicate IsDigit(c: Unit) { 48 <= c <= 57 }

  // ---------------------------------------------------------------- cutting texts apart

  /** Two runs over one alphabet, each ended by a foreign symbol or the end, are cut at the same place. */
  lemma RunsAgree<T>(inside: T -> bool, a: seq<T>, b: seq<T>, x: seq<T>, y: seq<T>)
    requires forall i | 0 <= i < |a| :: inside(a[i])
    requires forall i | 0 <= i < |b| :: inside(b[i])
    requires x == [] || !inside(x[0])
    requires y == [] || !inside(y[0])
    requires a + x == b + y
    ensures a == b && x == y
  {
    var s := a + x;
    assert |a| < |s| ==> s[|a|] == x[0];
    assert |b| < |s| ==> s[|b|] == y[0];
    assert forall i | 0 <= i < |a| :: s[i] == a[i];
    assert forall i | 0 <= i < |b| :: s[i] == b[i];
    EqualLengthsAgree(a, b, x, y);
  }

  /** Texts of equal length in front of equal wholes are equal, and so is what follows them. */
  lemma EqualLengthsAgree<T>(a: seq<T>, b: seq<T>, x: seq<T>, y: seq<T>)
    requires |a| == |b| && a + x == b + y
    ensures a == b && x == y
  {
    assert a == (a + x)[..|a|] && b == (b + y)[..|b|];
    assert x == (a + x)[|a|..] && y == (b + y)[|b|..];
  }

  lemma Associative<T>(a: seq<T>, b: seq<T>, c: seq<T>)
    ensures (a + b) + c == a + (b + c)
  {
  }

  /** Position of the first `c`, or the length when there is none. */
  function IndexOf(s: Str, c: Unit): (i: nat)
    ensures i <= |s| && c !in s[..i] && (i < |s| ==> s[i] == c)
  {
    if s == [] || s[0] == c then 0 else 1 + IndexOf(s[1..], c)
  }

  lemma IndexOfAfter(a: Str, c: Unit, rest: Str)
    requires c !in a
    requires rest == [] || rest[0] == c
    ensures IndexOf(a + rest, c) == |a|
  {
    var s, i := a + rest, IndexOf(a + rest, c);
    assert forall k | 0 <= k < |a| :: s[k] in a;
    assert |a| < |s| ==> s[|a|] == c;
    assert forall k | 0 <= k < i :: s[k] in s[..i];
  }

  // ---------------------------------------------------------------- decimal integers

  /** Decimal digits of a natural number, as String(n) and toString(10) give them. */
  function Dec(n: nat): (s: Str)
    ensures s != [] && forall i | 0 <= i < |s| :: IsDigit(s[i])
  {
    if n < 10 then [48 + n] else Dec(n / 10) + [48 + n % 10]
  }

  function DecValue(s: Str): nat
    requires forall i | 0 <= i < |s| :: IsDigit(s[i])
  {
    if s == [] then 0 else
      assert IsDigit(s[|s| - 1]);
      var last: int := s[|s| - 1];
      10 * DecValue(s[..|s| - 1]) + (last - 48)
  }

  lemma {:induction false} DecRoundTrip(n: nat)
    ensures DecValue(Dec(n)) == n
  {
    if n >= 10 {
      DecRoundTrip(n / 10);
      assert Dec(n)[..|Dec(n)| - 1] == Dec(n / 10);
    } else {
      assert Dec(n)[..0] == [];
      assert DecValue(Dec(n)[..0]) == 0;
    }
  }

  lemma DecInjective(m: nat, n: nat)
    requires Dec(m) == Dec(n)
    ensures m == n
  {
    DecRoundTrip(m);
    DecRoundTrip(n);
  }

  // ---------------------------------------------------------------- order and sorting

  /** The `<` of JavaScript on strings: lexicographic by code unit. */
  predicate Less(a: Str, b: Str) {
    b != [] && (a == [] || a[0] < b[0] || (a[0] == b[0] && Less(a[1..], b[1..])))
  }

  lemma {:induction false} LessTotal(a: Str, b: Str)
    ensures a == b || Less(a, b) || Less(b, a)
    ensures !(Less(a, b) && Less(b, a)) && !Less(a, a)
  {
    if a != [] && b != [] {
      LessTotal(a[1..], b[1..]);
      LessTotal(a[1..], a[1..]);
      if a[0] == b[0] && a[1..] == b[1..] {
        assert a == [a[0]] + a[1..] && b == [b[0]] + b[1..];
      }
    } else if a != [] {
      LessTotal(a[1..], a[1..]);
    }
  }

  lemma {:induction false} LessTransitive(a: Str, b: Str, c: Str)
    requires Less(a, b) && Less(b, c)
    ensures Less(a, c)
  {
    if a != [] && a[0] == b[0] == c[0] {
      LessTransitive(a[1..], b[1..], c[1..]);
    }
  }

  /** Code-unit order told position by position: alike up to n, where the first text ends or has the smaller unit. */
  predicate PrecedesAt(a: Str, b: Str, n: nat) {
    n <= |a| && n < |b| && a[..n] == b[..n] && (n < |a| ==> a[n] < b[n])
  }

  ghost predicate Precedes(a: Str, b: Str) { exists n: nat :: PrecedesAt(a, b, n) }

  lemma {:induction false} LessIsLexicographic(a: Str, b: Str)
    ensures Less(a, b) <==> Precedes(a, b)
  {
    if b == [] || a == [] || a[0] != b[0] {
      assert b != [] && (a == [] || a[0] < b[0]) ==> PrecedesAt(a, b, 0);
    } else {
      LessIsLexicographic(a[1..], b[1..]);
      if n: nat :| PrecedesAt(a, b, n) {
        assert a[1..][..n - 1] == a[..n][1..] && b[1..][..n - 1] == b[..n][1..];
        assert PrecedesAt(a[1..], b[1..], n - 1);
      }
      if n: nat :| PrecedesAt(a[1..], b[1..], n) {
        assert a[..n + 1] == [a[0]] + a[1..][..n] && b[..n + 1] == [b[0]] + b[1..][..n];
        assert PrecedesAt(a, b, n + 1);
      }
    }
  }

  /** Sorting puts the texts in ascending code-unit order. */
  lemma SortAscends(s: seq<Str>, i: nat, j: nat)
    requires i < j < |Sort(s)|
    ensures Sort(s)[i] == Sort(s)[j] || Precedes(Sort(s)[i], Sort(s)[j])
  {
    SortSorted(s);
    LessTotal(Sort(s)[i], Sort(s)[j]);
    LessIsLexicographic(Sort(s)[i], Sort(s)[j]);
    hide Less, Precedes;
  }

  ghost predicate Sorted(s: seq<Str>) {
    forall i, j | 0 <= i < j < |s| :: !Less(s[j], s[i])
  }

  /** Array.prototype.sort on strings, as stable insertion. */
  function Sort(s: seq<Str>): (r: seq<Str>)
    ensures multiset(r) == multiset(s)
  {
    if s == [] then [] else
      assert s == [s[0]] + s[1..];
      Insert(s[0], Sort(s[1..]))
  }

  function Insert(x: Str, s: seq<Str>): (r: seq<Str>)
    ensures multiset(r) == multiset{x} + multiset(s)
  {
    if s == [] || !Less(s[0], x) then [x] + s else
      assert s == [s[0]] + s[1..];
      [s[0]] + Insert(x, s[1..])
  }

  lemma {:induction false} InsertSorted(x: Str, s: seq<Str>)
    requires Sorted(s)
    ensures Sorted(Insert(x, s))
  {
    hide Less;
    if s != [] {
      LessTotal(s[0], x);
      if Less(s[0], x) {
        InsertSorted(x, s[1..]);
        var t := Insert(x, s[1..]);
        forall j | 0 <= j < |t| ensures !Less(t[j], s[0]) {
          assert t[j] in multiset(t);
        }
      } else {
        HeadIsLeast(x, s);
      }
    }
  }

  lemma HeadIsLeast(x: Str, s: seq<Str>)
    requires Sorted(s) && s != [] && !Less(s[0], x)
    ensures forall j | 0 <= j < |s| :: !Less(s[j], x)
  {
    hide Less;
    forall j | 0 <= j < |s| ensures !Less(s[j], x) {
      LessTotal(s[0], s[j]);
      if Less(s[j], x) && Less(s[0], s[j]) { LessTransitive(s[0], s[j], x); }
    }
  }

  lemma {:induction false} SortSorted(s: seq<Str>)
    ensures Sorted(Sort(s))
  {
    if s != [] {
      SortSorted(s[1..]);
      InsertSorted(s[0], Sort(s[1..]));
    }
  }

  lemma SameHead(s: seq<Str>, t: seq<Str>)
    requires Sorted(s) && Sorted(t) && multiset(s) == multiset(t)
    requires s != [] && t != []
    ensures s[0] == t[0]
  {
    assert s[0] in multiset(t) && t[0] in multiset(s);
    var i :| 0 <= i < |t| && t[i] == s[0];
    var j :| 0 <= j < |s| && s[j] == t[0];
    LessTotal(s[0], t[0]);
  }

  /** A sorted list is determined by what it contains, so sorting forgets the original order. */
  lemma {:induction false} SortedUnique(s: seq<Str>, t: seq<Str>)
    requires Sorted(s) && Sorted(t) && multiset(s) == multiset(t)
    ensures s == t
  {
    assert |s| == |multiset(s)| == |multiset(t)| == |t|;
    if s != [] {
      SameHead(s, t);
      assert s == [s[0]] + s[1..] && t == [t[0]] + t[1..];
      assert multiset(s[1..]) == multiset(s) - multiset{s[0]};
      assert multiset(t[1..]) == multiset(t) - multiset{t[0]};
      SortedUnique(s[1..], t[1..]);
    }
  }

  /** Two lists sort to the same list exactly when they hold the same strings equally often. */
  lemma SortDecidesPermutation(s: seq<Str>, t: seq<Str>)
    ensures Sort(s) == Sort(t) <==> multiset(s) == multiset(t)
  {
    SortSorted(s);
    SortSorted(t);
    if multiset(s) == multiset(t) { SortedUnique(Sort(s), Sort(t)); }
  }

  // ---------------------------------------------------------------- UTF-8

  type Scalar = c: int | 0 <= c < 0xD800 || 0xE000 <= c < 0x11_0000
  const REPLACEMENT: Scalar := 0xFFFD

  predicate IsLead(c: Unit) { 0xD800 <= c < 0xDC00 }
  predicate IsTrail(c: Unit) { 0xDC00 <= c < 0xE000 }
  predicate StartsWithPair(s: Str) { |s| >= 2 && IsLead(s[0]) && IsTrail(s[1]) }
  predicate StartsLone(s: Str) { s != [] && (IsLead(s[0]) || IsTrail(s[0])) && !StartsWithPair(s) }

  /** Code units taken by the first character. */
  function Width(s: Str): nat requires s != [] { if StartsWithPair(s) then 2 else 1 }

  /** The first character as TextEncoder sees it: a lone surrogate is replaced by U+FFFD. */
  function FirstScalar(s: Str): Scalar
    requires s != []
  {
    if StartsWithPair(s) then 0x1_0000 + (s[0] - 0xD800) * 0x400 + (s[1] - 0xDC00)
    else if StartsLone(s) then REPLACEMENT
    else s[0]
  }

  function Scalars(s: Str): seq<Scalar> {
    if s == [] then [] else [FirstScalar(s)] + Scalars(s[Width(s)..])
  }

  /** Bytes announced by a lead byte, and the number the bytes spell. */
  function SizeFromLead(b: Byte): nat {
    if b < 0x80 then 1 else if b < 0xE0 then 2 else if b < 0xF0 then 3 else 4
  }

  function SpelledBy(b: Bytes): int
    requires 1 <= |b| <= 4
  {
    var b0: int := b[0];
    if |b| == 1 then b0 else
    var b1: int := b[1];
    if |b| == 2 then (b0 - 0xC0) * 0x40 + (b1 - 0x80) else
    var b2: int := b[2];
    if |b| == 3 then ((b0 - 0xE0) * 0x40 + (b1 - 0x80)) * 0x40 + (b2 - 0x80) else
    var b3: int := b[3];
    (((b0 - 0xF0) * 0x40 + (b1 - 0x80)) * 0x40 + (b2 - 0x80)) * 0x40 + (b3 - 0x80)
  }

  function ScalarBytes(c: Scalar): (b: Bytes)
    ensures 1 <= |b| <= 4
    ensures |b| == SizeFromLead(b[0]) && SpelledBy(b) == c
  {
    var q := c / 0x40;
    var r := q / 0x40;
    if c < 0x80 then [c]
    else if c < 0x800 then [0xC0 + q, 0x80 + c % 0x40]
    else if c < 0x1_0000 then [0xE0 + r, 0x80 + q % 0x40, 0x80 + c % 0x40]
    else [0xF0 + r / 0x40, 0x80 + r % 0x40, 0x80 + q % 0x40, 0x80 + c % 0x40]
  }

  function ScalarsBytes(cs: seq<Scalar>): (b: Bytes)
    ensures |cs| <= |b|
  {
    if cs == [] then [] else ScalarBytes(cs[0]) + ScalarsBytes(cs[1..])
  }

  /** TextEncoder.encode and Buffer.from(s, 'utf8'). */
  function Utf8(s: Str): Bytes { ScalarsBytes(Scalars(s)) }

  /** No lone surrogate: String.prototype.isWellFormed. */
  predicate WellFormed(s: Str) {
    s == [] || (!StartsLone(s) && WellFormed(s[Width(s)..]))
  }

  /** Cutting between a lead and its trail is the only cut that changes the bytes. */
  predicate CleanCut(a: Str, b: Str) {
    a == [] || b == [] || !IsLead(a[|a| - 1]) || !IsTrail(b[0])
  }

  lemma FirstScalarLocal(a: Str, b: Str)
    requires a != [] && CleanCut(a, b)
    ensures Width(a + b) == Width(a) && FirstScalar(a + b) == FirstScalar(a)
  {
  }

  lemma {:induction false} ScalarsConcat(a: Str, b: Str)
    requires CleanCut(a, b)
    ensures Scalars(a + b) == Scalars(a) + Scalars(b)
  {
    hide FirstScalar;
    if a == [] {
      assert a + b == b;
    } else {
      var w := Width(a);
      assert (a + b)[w..] == a[w..] + b;
      assert a[w..] == [] || a[w..][|a| - w - 1] == a[|a| - 1];
      ScalarsConcat(a[w..], b);
      FirstScalarLocal(a, b);
    }
  }

  lemma {:induction false} ScalarsBytesConcat(p: seq<Scalar>, q: seq<Scalar>)
    ensures ScalarsBytes(p + q) == ScalarsBytes(p) + ScalarsBytes(q)
  {
    hide ScalarBytes;
    if p == [] {
      assert p + q == q;
    } else {
      ScalarsBytesConcat(p[1..], q);
      assert (p + q)[1..] == p[1..] + q;
      Associative(ScalarBytes(p[0]), ScalarsBytes(p[1..]), ScalarsBytes(q));
    }
  }

  lemma Utf8Concat(a: Str, b: Str)
    requires CleanCut(a, b)
    ensures Utf8(a + b) == Utf8(a) + Utf8(b)
  {
    ScalarsConcat(a, b);
    ScalarsBytesConcat(Scalars(a), Scalars(b));
  }

  lemma {:induction false} Utf8Ascii(s: Str)
    requires forall i | 0 <= i < |s| :: s[i] < 0x80
    ensures Utf8(s) == s
  {
    if s != [] { Utf8Ascii(s[1..]); }
  }

  lemma ScalarBytesCut(c: Scalar, d: Scalar, x: Bytes, y: Bytes)
    requires ScalarBytes(c) + x == ScalarBytes(d) + y
    ensures c == d && x == y
  {
    hide ScalarBytes, SpelledBy, SizeFromLead;
    var s := ScalarBytes(c) + x;
    assert s[0] == ScalarBytes(c)[0] == ScalarBytes(d)[0];
    EqualLengthsAgree(ScalarBytes(c), ScalarBytes(d), x, y);
  }

  lemma {:induction false} ScalarsBytesInjective(p: seq<Scalar>, q: seq<Scalar>)
    requires ScalarsBytes(p) == ScalarsBytes(q)
    ensures p == q
  {
    if p != [] && q != [] {
      ScalarBytesCut(p[0], q[0], ScalarsBytes(p[1..]), ScalarsBytes(q[1..]));
      ScalarsBytesInjective(p[1..], q[1..]);
    }
  }

  lemma {:induction false} ScalarsInjective(s: Str, t: Str)
    requires WellFormed(s) && WellFormed(t) && Scalars(s) == Scalars(t)
    ensures s == t
  {
    if s != [] && t != [] {
      assert Scalars(s)[0] == FirstScalar(s) && Scalars(t)[0] == FirstScalar(t);
      assert Scalars(s)[1..] == Scalars(s[Width(s)..]) && Scalars(t)[1..] == Scalars(t[Width(t)..]);
      ScalarsInjective(s[Width(s)..], t[Width(t)..]);
      assert Width(s) == Width(t) && s[..Width(s)] == t[..Width(t)];
      assert s == s[..Width(s)] + s[Width(s)..] && t == t[..Width(t)] + t[Width(t)..];
    }
  }

  /** Two strings encode to the same bytes exactly when they agree after lone surrogates are replaced. */
  lemma Utf8Decides(s: Str, t: Str)
    ensures Utf8(s) == Utf8(t) <==> Scalars(s) == Scalars(t)
    ensures WellFormed(s) && WellFormed(t) ==> (Utf8(s) == Utf8(t) <==> s == t)
  {
    if Utf8(s) == Utf8(t) { ScalarsBytesInjective(Scalars(s), Scalars(t)); }
    if WellFormed(s) && WellFormed(t) && Scalars(s) == Scalars(t) { ScalarsInjective(s, t); }
  }

  lemma {:induction false} WellFormedConcat(a: Str, b: Str)
    requires WellFormed(a) && WellFormed(b)
    ensures WellFormed(a + b)
  {
    if a == [] {
      assert a + b == b;
    } else {
      assert (a + b)[Width(a)..] == a[Width(a)..] + b;
      WellFormedConcat(a[Width(a)..], b);
    }
  }

  lemma {:induction false} NoSurrogateWellFormed(s: Str)
    requires forall i | 0 <= i < |s| :: !IsLead(s[i]) && !IsTrail(s[i])
    ensures WellFormed(s)
  {
    if s != [] { NoSurrogateWellFormed(s[1..]); }
  }

  /** One, two, three and four bytes, and a lone surrogate replaced. */
  lemma Utf8Examples()
    ensures Utf8([0x41]) == [0x41] && Utf8([0xE9]) == [0xC3, 0xA9] && Utf8([0x20AC]) == [0xE2, 0x82, 0xAC]
    ensures Utf8([0xD83D, 0xDE00]) == [0xF0, 0x9F, 0x98, 0x80] && Utf8([0xD83D]) == Utf8([0xDE00]) == [0xEF, 0xBF, 0xBD]
  {
    BytesExamples();
    hide ScalarBytes;
    OneScalar([0x41], 0x41);
    OneScalar([0xE9], 0xE9);
    OneScalar([0x20AC], 0x20AC);
    OneScalar([0xD83D, 0xDE00], 0x1F600);
    OneScalar([0xD83D], 0xFFFD);
    OneScalar([0xDE00], 0xFFFD);
  }

  lemma BytesExamples()
    ensures ScalarBytes(0x41) == [0x41] && ScalarBytes(0xE9) == [0xC3, 0xA9] && ScalarBytes(0x20AC) == [0xE2, 0x82, 0xAC]
    ensures ScalarBytes(0x1F600) == [0xF0, 0x9F, 0x98, 0x80] && ScalarBytes(0xFFFD) == [0xEF, 0xBF, 0xBD]
  {
  }

  lemma OneScalar(s: Str, c: Scalar)
    requires s != [] && Width(s) == |s| && FirstScalar(s) == c
    ensures Utf8(s) == ScalarBytes(c)
  {
    hide ScalarBytes, FirstScalar;
    assert s[|s|..] == [];
    assert Scalars(s) == [c];
    assert ScalarsBytes([c]) == ScalarBytes(c) + ScalarsBytes([]);
  }
}
