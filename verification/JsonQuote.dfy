/** JSON.stringify on strings (RFC 8259, section 7; lone surrogates escaped as in ECMA-262, 25.5.2.2). */
module JsonQuote {
  import opened JsText
  import opened Options

  const QUOTE: Unit := 34
  const BACKSLASH: Unit := 92

  function HexDigit(n: int): Unit
    requires 0 <= n < 16
  {
    if n < 10 then 48 + n else 87 + n
  }

  function HexEscape(c: Unit): Str {
    var high := c / 0x100;
    var low := c % 0x100;
    [BACKSLASH, 117, HexDigit(high / 16), HexDigit(high % 16), HexDigit(low / 16), HexDigit(low % 16)]
  }

  predicate IsSurrogate(c: Unit) { IsLead(c) || IsTrail(c) }

  /** The letter of the two-character escapes, or 0. */
  function ShortEscape(c: Unit): Unit {
    if c == 34 || c == 92 then c
    else if c == 8 then 98
    else if c == 9 then 116
    else if c == 10 then 110
    else if c == 12 then 102
    else if c == 13 then 114
    else 0
  }

  /** Text of one code unit that is not half of a surrogate pair. */
  function EscapeUnit(c: Unit): (r: Str)
    ensures r != [] && r[0] != QUOTE && !IsSurrogate(r[0])
  {
    if ShortEscape(c) != 0 then [BACKSLASH, ShortEscape(c)]
    else if c < 0x20 || IsSurrogate(c) then HexEscape(c)
    else [c]
  }

  function Escape(s: Str): Str {
    if s == [] then []
    else if StartsWithPair(s) then s[..2] + Escape(s[2..])
    else EscapeUnit(s[0]) + Escape(s[1..])
  }

  function Quote(s: Str): Str { [QUOTE] + Escape(s) + [QUOTE] }

  lemma HexEscapeCut(c: Unit, d: Unit)
    requires HexEscape(c) == HexEscape(d)
    ensures c == d
  {
    var p, q := HexEscape(c), HexEscape(d);
    assert p[2] == q[2] && p[3] == q[3] && p[4] == q[4] && p[5] == q[5];
  }

  lemma ShortEscapeCut(c: Unit, d: Unit)
    requires ShortEscape(c) == ShortEscape(d) != 0
    ensures c == d
  {
  }

  /** The first two symbols of an escaped unit announce its length and its form. */
  lemma EscapeUnitShape(c: Unit)
    ensures var r := EscapeUnit(c);
      if r[0] != BACKSLASH then r == [c]
      else |r| >= 2 && if r[1] == 117 then |r| == 6 && r == HexEscape(c)
                       else r == [BACKSLASH, ShortEscape(c)] && ShortEscape(c) != 0
  {
  }

  lemma EscapeUnitCut(c: Unit, d: Unit, x: Str, y: Str)
    requires EscapeUnit(c) + x == EscapeUnit(d) + y
    ensures c == d && x == y
  {
    hide EscapeUnit, HexEscape, ShortEscape;
    EscapeUnitShape(c);
    EscapeUnitShape(d);
    var p, q := EscapeUnit(c), EscapeUnit(d);
    var s := p + x;
    assert s[0] == p[0] == q[0];
    assert |p| >= 2 ==> s[1] == p[1];
    assert |q| >= 2 ==> s[1] == q[1];
    EqualLengthsAgree(p, q, x, y);
    if p[0] != BACKSLASH {
    } else if p[1] == 117 {
      HexEscapeCut(c, d);
    } else {
      ShortEscapeCut(c, d);
    }
  }

  /** An escaped body is delimited by the first bare quote, and determines its source. */
  lemma {:induction false} EscapeCut(s: Str, t: Str, x: Str, y: Str)
    requires Escape(s) + [QUOTE] + x == Escape(t) + [QUOTE] + y
    ensures s == t && x == y
    decreases |s| + |t|
  {
    hide EscapeUnit;
    EscapeStart(s, x);
    EscapeStart(t, y);
    if s == [] {
      assert t == [];
      assert x == (Escape(s) + [QUOTE] + x)[1..] && y == (Escape(t) + [QUOTE] + y)[1..];
    } else if StartsWithPair(s) {
      var u, v := Escape(s[2..]) + [QUOTE] + x, Escape(t[2..]) + [QUOTE] + y;
      assert Escape(s) + [QUOTE] + x == s[..2] + u && Escape(t) + [QUOTE] + y == t[..2] + v;
      EqualLengthsAgree(s[..2], t[..2], u, v);
      EscapeCut(s[2..], t[2..], x, y);
      assert s == s[..2] + s[2..] && t == t[..2] + t[2..];
    } else {
      var u, v := Escape(s[1..]) + [QUOTE] + x, Escape(t[1..]) + [QUOTE] + y;
      assert Escape(s) + [QUOTE] + x == EscapeUnit(s[0]) + u && Escape(t) + [QUOTE] + y == EscapeUnit(t[0]) + v;
      EscapeUnitCut(s[0], t[0], u, v);
      EscapeCut(s[1..], t[1..], x, y);
      assert s == [s[0]] + s[1..] && t == [t[0]] + t[1..];
    }
  }

  lemma EscapeStart(s: Str, x: Str)
    ensures (Escape(s) + [QUOTE] + x)[0] == QUOTE <==> s == []
    ensures IsSurrogate((Escape(s) + [QUOTE] + x)[0]) <==> StartsWithPair(s)
  {
  }

  /** Quoting is self-delimiting and injective on every string, well-formed or not. */
  lemma QuoteCut(s: Str, t: Str, x: Str, y: Str)
    requires Quote(s) + x == Quote(t) + y
    ensures s == t && x == y
  {
    var u, v := Escape(s) + [QUOTE] + x, Escape(t) + [QUOTE] + y;
    assert Quote(s) + x == [QUOTE] + u && Quote(t) + y == [QUOTE] + v;
    EqualLengthsAgree([QUOTE], [QUOTE], u, v);
    EscapeCut(s, t, x, y);
  }

  /** Lone surrogates are escaped, so a quoted string never carries one. */
  lemma {:induction false} EscapeWellFormed(s: Str)
    ensures WellFormed(Escape(s))
  {
    if s == [] {
    } else if StartsWithPair(s) {
      EscapeWellFormed(s[2..]);
      assert WellFormed(s[..2]) by { assert s[..2][2..] == []; }
      WellFormedConcat(s[..2], Escape(s[2..]));
    } else {
      EscapeWellFormed(s[1..]);
      NoSurrogateWellFormed(EscapeUnit(s[0]));
      WellFormedConcat(EscapeUnit(s[0]), Escape(s[1..]));
    }
  }

  lemma QuoteWellFormed(s: Str)
    ensures WellFormed(Quote(s))
  {
    hide Escape;
    EscapeWellFormed(s);
    NoSurrogateWellFormed([QUOTE]);
    WellFormedConcat([QUOTE], Escape(s));
    WellFormedConcat([QUOTE] + Escape(s), [QUOTE]);
  }

  // ---------------------------------------------------------------- reading a quoted string

  /** What the letter after a backslash stands for: the table of RFC 8259. */
  function EscapeMeans(letter: Unit): Option<Unit> {
    if letter == 34 || letter == 47 || letter == 92 then Some(letter)
    else if letter == 98 then Some(8)
    else if letter == 102 then Some(12)
    else if letter == 110 then Some(10)
    else if letter == 114 then Some(13)
    else if letter == 116 then Some(9)
    else None
  }

  /** Digits and letters of either case; sixteen and more is no hexadecimal digit. */
  function HexValue(c: Unit): nat {
    if 48 <= c <= 57 then c - 48 else if 97 <= c <= 102 then c - 87 else if 65 <= c <= 70 then c - 55 else 16
  }

  predicate StartsHex(s: Str) {
    |s| >= 6 && s[0] == BACKSLASH && s[1] == 117 && forall i | 2 <= i < 6 :: HexValue(s[i]) < 16
  }

  /** The string up to the closing quote and what follows it. Control characters do not stand for themselves. */
  function ReadBody(s: Str): Option<(Str, Str)>
    decreases |s|
  {
    if s == [] then None
    else if s[0] == QUOTE then Some(([], s[1..]))
    else if StartsHex(s) then
      After(HexValue(s[2]) * 0x1000 + HexValue(s[3]) * 0x100 + HexValue(s[4]) * 0x10 + HexValue(s[5]), ReadBody(s[6..]))
    else if s[0] == BACKSLASH then
      if |s| < 2 || EscapeMeans(s[1]).None? then None else After(EscapeMeans(s[1]).value, ReadBody(s[2..]))
    else if s[0] < 0x20 then None
    else After(s[0], ReadBody(s[1..]))
  }

  function After(c: Unit, rest: Option<(Str, Str)>): Option<(Str, Str)> {
    if rest.None? then None else Some(([c] + rest.value.0, rest.value.1))
  }

  function ReadQuoted(s: Str): Option<(Str, Str)> {
    if s == [] || s[0] != QUOTE then None else ReadBody(s[1..])
  }

  lemma HexDigitReads(n: int)
    requires 0 <= n < 16
    ensures HexValue(HexDigit(n)) == n
  {
  }

  lemma UnitReads(c: Unit, rest: Str)
    ensures ReadBody(EscapeUnit(c) + rest) == After(c, ReadBody(rest))
  {
    var e := EscapeUnit(c);
    var s := e + rest;
    assert s[..|e|] == e && s[|e|..] == rest;
    if ShortEscape(c) != 0 {
      assert s[0] == e[0] && s[1] == e[1] && !StartsHex(s);
      assert EscapeMeans(s[1]) == Some(c);
    } else if c < 0x20 || IsSurrogate(c) {
      HexReads(c, rest);
    } else {
      assert s[0] == c && !StartsHex(s);
    }
  }

  lemma HexReads(c: Unit, rest: Str)
    ensures ReadBody(HexEscape(c) + rest) == After(c, ReadBody(rest))
  {
    var e := HexEscape(c);
    var s := e + rest;
    var high, low := c / 0x100, c % 0x100;
    HexDigitReads(high / 16);
    HexDigitReads(high % 16);
    HexDigitReads(low / 16);
    HexDigitReads(low % 16);
    assert s[..6] == e && s[6..] == rest;
    assert s[0] == e[0] && s[1] == e[1] && s[2] == e[2] && s[3] == e[3] && s[4] == e[4] && s[5] == e[5];
    hide HexDigit, HexValue, ReadBody;
    HexStep(s, c);
  }

  lemma HexStep(s: Str, c: Unit)
    requires StartsHex(s)
    requires c == HexValue(s[2]) * 0x1000 + HexValue(s[3]) * 0x100 + HexValue(s[4]) * 0x10 + HexValue(s[5])
    ensures ReadBody(s) == After(c, ReadBody(s[6..]))
  {
    hide HexValue;
  }

  lemma PlainReads(c: Unit, rest: Str)
    requires c >= 0x20 && c != QUOTE && c != BACKSLASH
    ensures ReadBody([c] + rest) == After(c, ReadBody(rest))
  {
    assert ([c] + rest)[1..] == rest;
  }

  /** A quoted string reads back as the string, whatever follows. */
  lemma {:induction false} BodyReads(s: Str, x: Str)
    ensures ReadBody(Escape(s) + [QUOTE] + x) == Some((s, x))
    decreases |s|
  {
    hide EscapeUnit, HexValue;
    if s == [] {
      assert ([] + [QUOTE] + x)[1..] == x;
    } else if StartsWithPair(s) {
      var rest := Escape(s[2..]) + [QUOTE] + x;
      BodyReads(s[2..], x);
      assert Escape(s) + [QUOTE] + x == [s[0]] + ([s[1]] + rest);
      PlainReads(s[1], rest);
      PlainReads(s[0], [s[1]] + rest);
      hide ReadBody;
      assert s == [s[0]] + ([s[1]] + s[2..]);
    } else {
      var rest := Escape(s[1..]) + [QUOTE] + x;
      BodyReads(s[1..], x);
      assert Escape(s) + [QUOTE] + x == EscapeUnit(s[0]) + rest;
      UnitReads(s[0], rest);
      hide ReadBody;
      assert s == [s[0]] + s[1..];
    }
  }

  lemma QuoteReads(s: Str, x: Str)
    ensures ReadQuoted(Quote(s) + x) == Some((s, x))
  {
    BodyReads(s, x);
    assert Quote(s) + x == [QUOTE] + (Escape(s) + [QUOTE] + x);
    assert (Quote(s) + x)[1..] == Escape(s) + [QUOTE] + x;
  }

  /** Exactly seven units have an escape of two units; every other control character and lone surrogate takes six. */
  lemma EscapeUnitExactly(c: Unit)
    ensures EscapeUnit(c) ==
      if c == 34 || c == 92 then [92, c]
      else if c in {8, 9, 10, 12, 13}
      then [92, if c == 8 then 98 else if c == 9 then 116 else if c == 10 then 110 else if c == 12 then 102 else 114]
      else if c < 32 || 0xD800 <= c < 0xE000 then HexEscape(c) else [c]
  {
    hide HexEscape;
  }

  /** Control characters and lone surrogates in lower-case hexadecimal, the slash and U+007F unescaped. */
  lemma QuoteExamples()
    ensures Quote([0x1F]) == Ascii("\"\\u001f\"") && Quote([0xDABC]) == Ascii("\"\\udabc\"")
    ensures Quote([47, 0x7F]) == [34, 47, 0x7F, 34] && Quote([10, 34]) == Ascii("\"\\n\\\"\"")
  {
    EscapeOne(0x1F);
    EscapeOne(0xDABC);
    EscapeTwo(47, 0x7F);
    EscapeTwo(10, 34);
  }

  lemma EscapeOne(c: Unit)
    ensures Escape([c]) == EscapeUnit(c)
  {
    hide EscapeUnit;
    assert [c][1..] == [];
    assert Escape([c]) == EscapeUnit(c) + Escape([]);
  }

  lemma EscapeTwo(c: Unit, d: Unit)
    requires !IsLead(c)
    ensures Escape([c, d]) == EscapeUnit(c) + EscapeUnit(d)
  {
    hide EscapeUnit;
    assert [c, d][1..] == [d];
    EscapeOne(d);
  }
}
