/**
 * Finite JavaScript numbers as their shortest decimal, and the text Number::toString prints
 * (ECMA-262, section 6.1.6.1.20).
 */
module JsNumber {
  import opened JsText

  const ZERO: Unit := 48
  const POINT: Unit := 46
  const MINUS: Unit := 45
  const PLUS: Unit := 43
  const EXP: Unit := 101

  ghost predicate AllDigits(s: Str) { forall i | 0 <= i < |s| :: IsDigit(s[i]) }

  /** Shortest digits have no zero at either end; zero has no digits at all. */
  ghost predicate Shortest(digits: Str, point: int) {
    AllDigits(digits) &&
    if digits == [] then point == 0 else digits[0] != ZERO && digits[|digits| - 1] != ZERO
  }

  /** The number (+/-) 0.d1d2... * 10^point. Empty digits are the two zeros. */
  datatype Decimal = Decimal(negative: bool, digits: Str, point: int)
  type Finite = d: Decimal | Shortest(d.digits, d.point) witness Decimal(false, [], 0)

  function Zeros(n: nat): (z: Str)
    ensures |z| == n && forall i | 0 <= i < n :: z[i] == ZERO
  {
    seq(n, _ => ZERO)
  }

  function ExponentText(e: int): Str {
    [EXP] + (if e > 0 then [PLUS] + Dec(e) else [MINUS] + Dec(-e))
  }

  function Fraction(f: Str): Str { if f == [] then [] else [POINT] + f }
  function Scale(e: int): Str { if e == 0 then [] else ExponentText(e) }

  function MagnitudeText(digits: Str, point: int): Str
    requires Shortest(digits, point)
  {
    if digits == [] then [ZERO]
    else if |digits| <= point <= 21 then digits + Zeros(point - |digits|)
    else if 0 < point <= 21 then digits[..point] + [POINT] + digits[point..]
    else if -6 < point <= 0 then [ZERO, POINT] + Zeros(-point) + digits
    else digits[..1] + Fraction(digits[1..]) + Scale(point - 1)
  }

  function NumberText(n: Finite): Str {
    (if n.negative && n.digits != [] then [MINUS] else []) + MagnitudeText(n.digits, n.point)
  }

  // ---------------------------------------------------------------- reading the value back

  function StripLeading(raw: Str, point: int): (Str, int) {
    if raw != [] && raw[0] == ZERO then StripLeading(raw[1..], point - 1) else (raw, point)
  }

  function StripTrailing(raw: Str): Str {
    if raw != [] && raw[|raw| - 1] == ZERO then StripTrailing(raw[..|raw| - 1]) else raw
  }

  function Normalize(raw: Str, point: int): (Str, int) {
    var (digits, p) := StripLeading(raw, point);
    (StripTrailing(digits), p)
  }

  function ReadExponent(t: Str): int {
    if t == [] || exists i | 1 <= i < |t| :: !IsDigit(t[i]) then 0
    else
      var tail := t[1..];
      assert forall i | 0 <= i < |tail| :: tail[i] == t[i + 1];
      var size: int := DecValue(tail);
      if t[0] == PLUS then size else -size
  }

  function SplitExponent(t: Str): (Str, int) {
    var e := IndexOf(t, EXP);
    (t[..e], if e == |t| then 0 else ReadExponent(t[e + 1..]))
  }

  function SplitPoint(m: Str): (Str, Str) {
    var p := IndexOf(m, POINT);
    (m[..p], if p == |m| then [] else m[p + 1..])
  }

  /** Digits and decimal position denoted by a printed magnitude. */
  function ReadMagnitude(t: Str): (Str, int) {
    var (mantissa, exponent) := SplitExponent(t);
    var (whole, fraction) := SplitPoint(mantissa);
    Normalize(whole + fraction, |whole| + exponent)
  }

  lemma {:induction false} StripLeadingZeros(n: nat, rest: Str, point: int)
    requires rest == [] || rest[0] != ZERO
    ensures StripLeading(Zeros(n) + rest, point) == (rest, point - n)
  {
    var s := Zeros(n) + rest;
    if n > 0 {
      assert s[1..] == Zeros(n - 1) + rest;
      StripLeadingZeros(n - 1, rest, point - 1);
    } else {
      assert s == rest;
    }
  }

  lemma {:induction false} StripTrailingZeros(digits: Str, n: nat)
    requires digits == [] || digits[|digits| - 1] != ZERO
    ensures StripTrailing(digits + Zeros(n)) == digits
  {
    var s := digits + Zeros(n);
    if n > 0 {
      assert s[..|s| - 1] == digits + Zeros(n - 1);
      StripTrailingZeros(digits, n - 1);
    } else {
      assert s == digits;
    }
  }

  lemma NormalizePadded(a: nat, digits: Str, b: nat, point: int)
    requires digits != [] && Shortest(digits, point - a)
    ensures Normalize(Zeros(a) + digits + Zeros(b), point) == (digits, point - a)
  {
    assert Zeros(a) + digits + Zeros(b) == Zeros(a) + (digits + Zeros(b));
    StripLeadingZeros(a, digits + Zeros(b), point);
    StripTrailingZeros(digits, b);
  }

  lemma ExponentReads(e: int)
    requires e != 0
    ensures ReadExponent(ExponentText(e)[1..]) == e
  {
    var t := ExponentText(e)[1..];
    var d := Dec(if e > 0 then e else -e);
    assert t[1..] == d;
    assert forall i | 1 <= i < |t| :: t[i] == d[i - 1];
    DecRoundTrip(if e > 0 then e else -e);
  }

  lemma ScaleSplits(mantissa: Str, e: int)
    requires EXP !in mantissa
    ensures SplitExponent(mantissa + Scale(e)) == (mantissa, e)
  {
    var t := mantissa + Scale(e);
    IndexOfAfter(mantissa, EXP, Scale(e));
    assert t[..|mantissa|] == mantissa;
    if e != 0 {
      ExponentReads(e);
      assert t[|mantissa| + 1..] == ExponentText(e)[1..];
    }
  }

  lemma FractionSplits(whole: Str, fraction: Str)
    requires POINT !in whole
    ensures SplitPoint(whole + Fraction(fraction)) == (whole, fraction)
  {
    var m := whole + Fraction(fraction);
    IndexOfAfter(whole, POINT, Fraction(fraction));
    assert m[..|whole|] == whole;
    assert fraction != [] ==> m[|whole| + 1..] == fraction;
  }

  /** Any printed shape whole[.fraction][e+-exponent] reads as its digits at the right position. */
  lemma ShapeReads(whole: Str, fraction: Str, e: int)
    requires AllDigits(whole) && AllDigits(fraction)
    ensures ReadMagnitude(whole + Fraction(fraction) + Scale(e)) == Normalize(whole + fraction, |whole| + e)
  {
    hide SplitExponent, SplitPoint, Normalize, Scale;
    FractionSplits(whole, fraction);
    ScaleSplits(whole + Fraction(fraction), e);
  }

  lemma IntegerReads(digits: Str, point: int)
    requires Shortest(digits, point) && digits != [] && |digits| <= point
    ensures ReadMagnitude(digits + Zeros(point - |digits|)) == (digits, point)
  {
    hide ReadMagnitude, Normalize;
    var z := Zeros(point - |digits|);
    ShapeReads(digits + z, [], 0);
    assert digits + z + Fraction([]) + Scale(0) == digits + z;
    assert digits + z + [] == Zeros(0) + digits + z;
    NormalizePadded(0, digits, point - |digits|, point);
  }

  lemma MixedReads(digits: Str, point: int)
    requires Shortest(digits, point) && 0 < point < |digits|
    ensures ReadMagnitude(digits[..point] + [POINT] + digits[point..]) == (digits, point)
  {
    hide ReadMagnitude, Normalize;
    ShapeReads(digits[..point], digits[point..], 0);
    assert digits[..point] + Fraction(digits[point..]) + Scale(0) == digits[..point] + [POINT] + digits[point..];
    assert digits[..point] + digits[point..] == Zeros(0) + digits + Zeros(0);
    NormalizePadded(0, digits, 0, point);
  }

  lemma SmallReads(digits: Str, point: int)
    requires Shortest(digits, point) && digits != [] && point <= 0
    ensures ReadMagnitude([ZERO, POINT] + Zeros(-point) + digits) == (digits, point)
  {
    hide ReadMagnitude, Normalize;
    var fraction := Zeros(-point) + digits;
    ShapeReads([ZERO], fraction, 0);
    assert [ZERO] + Fraction(fraction) + Scale(0) == [ZERO, POINT] + Zeros(-point) + digits;
    assert [ZERO] + fraction == Zeros(1 - point) + digits + Zeros(0);
    NormalizePadded(1 - point, digits, 0, 1);
  }

  lemma ScientificReads(digits: Str, point: int)
    requires Shortest(digits, point) && digits != []
    ensures ReadMagnitude(digits[..1] + Fraction(digits[1..]) + Scale(point - 1)) == (digits, point)
  {
    hide ReadMagnitude, Normalize, Scale, Fraction;
    ShapeReads(digits[..1], digits[1..], point - 1);
    assert digits[..1] + digits[1..] == Zeros(0) + digits + Zeros(0);
    NormalizePadded(0, digits, 0, point);
  }

  /** The printed magnitude denotes exactly the digits and position it was printed from. */
  lemma MagnitudeReads(digits: Str, point: int)
    requires Shortest(digits, point) && digits != []
    ensures ReadMagnitude(MagnitudeText(digits, point)) == (digits, point)
  {
    hide ReadMagnitude, Fraction, Scale;
    if |digits| <= point <= 21 {
      IntegerReads(digits, point);
    } else if 0 < point <= 21 {
      MixedReads(digits, point);
    } else if -6 < point <= 0 {
      SmallReads(digits, point);
    } else {
      ScientificReads(digits, point);
    }
  }

  predicate NumberUnit(c: Unit) { IsDigit(c) || c == POINT || c == MINUS || c == PLUS || c == EXP }

  ghost predicate NumberUnits(s: Str) { forall i | 0 <= i < |s| :: NumberUnit(s[i]) }

  lemma NumberUnitsJoin(a: Str, b: Str)
    requires NumberUnits(a) && NumberUnits(b)
    ensures NumberUnits(a + b)
  {
  }

  lemma PiecesAreNumberUnits(digits: Str, point: int)
    requires AllDigits(digits)
    ensures NumberUnits(digits) && NumberUnits([POINT]) && NumberUnits([ZERO]) && NumberUnits([ZERO, POINT])
    ensures NumberUnits(Scale(point)) && NumberUnits(Fraction(digits))
    ensures forall n: nat :: NumberUnits(Zeros(n))
  {
  }

  lemma MagnitudeTextUnits(digits: Str, point: int)
    requires Shortest(digits, point)
    ensures NumberUnits(MagnitudeText(digits, point))
  {
    hide NumberUnits, Scale, Fraction, Zeros;
    PiecesAreNumberUnits(digits, point - 1);
    if |digits| <= point <= 21 {
      NumberUnitsJoin(digits, Zeros(point - |digits|));
    } else if 0 < point <= 21 {
      PiecesAreNumberUnits(digits[..point], 0);
      PiecesAreNumberUnits(digits[point..], 0);
      NumberUnitsJoin(digits[..point], [POINT]);
      NumberUnitsJoin(digits[..point] + [POINT], digits[point..]);
    } else if -6 < point <= 0 {
      NumberUnitsJoin([ZERO, POINT], Zeros(-point));
      NumberUnitsJoin([ZERO, POINT] + Zeros(-point), digits);
    } else if digits != [] {
      PiecesAreNumberUnits(digits[..1], 0);
      PiecesAreNumberUnits(digits[1..], 0);
      NumberUnitsJoin(digits[..1], Fraction(digits[1..]));
      NumberUnitsJoin(digits[..1] + Fraction(digits[1..]), Scale(point - 1));
    }
  }

  lemma MagnitudeTextStart(digits: Str, point: int)
    requires Shortest(digits, point)
    ensures MagnitudeText(digits, point) != [] && IsDigit(MagnitudeText(digits, point)[0])
    ensures MagnitudeText(digits, point) == [ZERO] <==> digits == []
  {
    hide Scale;
  }

  lemma NumberTextUnits(n: Finite)
    ensures NumberText(n) != [] && NumberUnits(NumberText(n))
    ensures NumberText(n)[0] == MINUS <==> n.negative && n.digits != []
    ensures NumberText(n)[0] != MINUS ==> IsDigit(NumberText(n)[0])
  {
    hide MagnitudeText;
    MagnitudeTextUnits(n.digits, n.point);
    MagnitudeTextStart(n.digits, n.point);
  }

  /** Printing separates all finite numbers except the two zeros. */
  lemma NumberTextIdentifies(m: Finite, n: Finite)
    ensures NumberText(m) == NumberText(n) <==> m == n || m.digits == n.digits == []
  {
    hide MagnitudeText, ReadMagnitude;
    NumberTextUnits(m);
    NumberTextUnits(n);
    MagnitudeTextStart(m.digits, m.point);
    MagnitudeTextStart(n.digits, n.point);
    if NumberText(m) == NumberText(n) {
      var a, b := MagnitudeText(m.digits, m.point), MagnitudeText(n.digits, n.point);
      var sign: Str := if m.negative && m.digits != [] then [MINUS] else [];
      EqualLengthsAgree(sign, sign, a, b);
      if m.digits != [] && n.digits != [] {
        MagnitudeReads(m.digits, m.point);
        MagnitudeReads(n.digits, n.point);
      }
    }
  }

  // ---------------------------------------------------------------- which form is used

  /** Exponents appear exactly above 21 integer digits and from seven places after the point on. */
  lemma ExponentExactly(digits: Str, point: int)
    requires Shortest(digits, point)
    ensures 101 in MagnitudeText(digits, point) <==> digits != [] && (point > 21 || point <= -6)
    ensures 46 in MagnitudeText(digits, point)
       <==> digits != [] && if point > 21 || point <= -6 then |digits| > 1 else |digits| > point
  {
    DigitsPlain(digits);
    DigitsPlain(Zeros(if point > |digits| then point - |digits| else 0));
    if digits != [] && (point > 21 || point <= -6) {
      DigitsPlain(digits[..1]);
      DigitsPlain(digits[1..]);
      DigitsPlain(Dec(if point > 1 then point - 1 else 1 - point));
    } else if point <= 0 {
      DigitsPlain(Zeros(-point));
    } else if point < |digits| {
      DigitsPlain(digits[..point]);
      DigitsPlain(digits[point..]);
    }
    hide Zeros, Dec;
  }

  lemma DigitsPlain(s: Str)
    requires AllDigits(s)
    ensures 101 !in s && 46 !in s
  {
  }

  /** 100, 12.5, -0.000001, 1e+21 and 1.5e-7. */
  lemma NumberExamples()
    ensures NumberText(Decimal(false, Ascii("1"), 3)) == Ascii("100")
    ensures NumberText(Decimal(false, Ascii("125"), 2)) == Ascii("12.5")
    ensures NumberText(Decimal(true, Ascii("1"), -5)) == Ascii("-0.000001")
    ensures NumberText(Decimal(false, Ascii("1"), 22)) == Ascii("1e+21")
    ensures NumberText(Decimal(true, Ascii("15"), -6)) == Ascii("-1.5e-7")
    ensures NumberText(Decimal(true, [], 0)) == Ascii("0")
  {
    assert Dec(2) == [50] && Dec(21) == Dec(2) + [49];
  }
}
