/** The bytes a webhook sender signs: fourteen named fields framed by byte lengths. */
module WebhookFraming {
  import opened JsText
  import opened Options

  datatype Envelope = Envelope(
    envelopeVersion: Str, sourceId: Str, eventId: Str, eventType: Str, occurredAt: Str,
    idempotencyKey: Str, nonce: Str, payloadDigest: Str, contentType: Str, contentLength: int,
    correlationId: Str, privacyClassification: Str, algorithm: Str, keyReference: Str)

  const MAX_SAFE_INTEGER: int := 0x1F_FFFF_FFFF_FFFF
  const COLON: Unit := 58
  const EQUALS: Unit := 61
  const NEWLINE: Unit := 10

  type Pair<T> = (T, T)

  predicate Presentable(e: Envelope) { 0 <= e.contentLength <= MAX_SAFE_INTEGER }

  const NAMES: seq<Str> := [
    Ascii("envelopeVersion"), Ascii("sourceId"), Ascii("eventId"), Ascii("eventType"),
    Ascii("occurredAt"), Ascii("idempotencyKey"), Ascii("nonce"), Ascii("payloadDigest"),
    Ascii("contentType"), Ascii("contentLength"), Ascii("correlationId"),
    Ascii("privacyClassification"), Ascii("signatureAlgorithm"), Ascii("keyReference")]

  function Values(e: Envelope): seq<Str>
    requires Presentable(e)
  {
    [ e.envelopeVersion, e.sourceId, e.eventId, e.eventType,
      e.occurredAt, e.idempotencyKey, e.nonce, e.payloadDigest,
      e.contentType, Dec(e.contentLength), e.correlationId,
      e.privacyClassification, e.algorithm, e.keyReference ]
  }

  function Zip(names: seq<Str>, values: seq<Str>): seq<Pair<Str>>
    requires |names| == |values|
  {
    seq(|names|, i requires 0 <= i < |names| => (names[i], values[i]))
  }

  function Fields(e: Envelope): (fs: seq<Pair<Str>>)
    requires Presentable(e)
  {
    Zip(NAMES, Values(e))
  }

  function LengthPrefix(value: Str): Str { Dec(|Utf8(value)|) + [COLON] + value }

  function FieldText(f: Pair<Str>): Str { LengthPrefix(f.0) + [EQUALS] + LengthPrefix(f.1) }

  function JoinLines(fs: seq<Pair<Str>>): Str {
    if fs == [] then []
    else if |fs| == 1 then FieldText(fs[0])
    else FieldText(fs[0]) + [NEWLINE] + JoinLines(fs[1..])
  }

  /** canonicalWebhookSignedBytes; None is its TypeError. */
  function SignedBytes(e: Envelope): Option<Bytes> {
    if Presentable(e) then Some(Utf8(JoinLines(Fields(e)))) else None
  }

  // ---------------------------------------------------------------- the same framing on bytes

  function PrefixedBytes(b: Bytes): Bytes { Dec(|b|) + [COLON] + b }
  function FieldBytes(f: Pair<Bytes>): Bytes { PrefixedBytes(f.0) + [EQUALS] + PrefixedBytes(f.1) }

  function Framed(fs: seq<Pair<Bytes>>): Bytes {
    if fs == [] then []
    else if |fs| == 1 then FieldBytes(fs[0])
    else FieldBytes(fs[0]) + [NEWLINE] + Framed(fs[1..])
  }

  function Encoded(fs: seq<Pair<Str>>): seq<Pair<Bytes>> {
    seq(|fs|, i requires 0 <= i < |fs| => (Utf8(fs[i].0), Utf8(fs[i].1)))
  }

  lemma PrefixEncodes(value: Str)
    ensures Utf8(LengthPrefix(value)) == PrefixedBytes(Utf8(value))
    ensures LengthPrefix(value)[0] < 0x80
  {
    var head := Dec(|Utf8(value)|) + [COLON];
    assert IsDigit(Dec(|Utf8(value)|)[0]) && head[0] == Dec(|Utf8(value)|)[0];
    assert forall i | 0 <= i < |head| :: i < |head| - 1 ==> IsDigit(head[i]);
    Utf8Ascii(head);
    Utf8Concat(head, value);
  }

  lemma FieldEncodes(f: Pair<Str>)
    ensures Utf8(FieldText(f)) == FieldBytes((Utf8(f.0), Utf8(f.1)))
    ensures FieldText(f) != []
  {
    PrefixEncodes(f.0);
    PrefixEncodes(f.1);
    Utf8Ascii([EQUALS]);
    Utf8Concat(LengthPrefix(f.0), [EQUALS]);
    Utf8Concat(LengthPrefix(f.0) + [EQUALS], LengthPrefix(f.1));
  }

  /** Encoding the joined text equals framing the encoded fields: no surrogate pair spans a seam. */
  lemma {:induction false} LinesEncode(fs: seq<Pair<Str>>)
    ensures Utf8(JoinLines(fs)) == Framed(Encoded(fs))
  {
    hide FieldText, FieldBytes;
    if fs != [] {
      FieldEncodes(fs[0]);
      assert Encoded(fs)[1..] == Encoded(fs[1..]);
      hide Utf8, Encoded;
      if |fs| > 1 {
        LinesEncode(fs[1..]);
        Utf8Ascii([NEWLINE]);
        Utf8Concat(FieldText(fs[0]), [NEWLINE]);
        Utf8Concat(FieldText(fs[0]) + [NEWLINE], JoinLines(fs[1..]));
      }
    }
  }

  // ---------------------------------------------------------------- decoder

  /** Reads `<length>:<bytes>` and returns the bytes and what follows. */
  function ReadPrefixed(b: Bytes): (r: Option<(Bytes, Bytes)>)
    ensures r.Some? ==> |r.value.1| < |b|
  {
    var i := IndexOf(b, COLON);
    if i == |b| || exists k | 0 <= k < i :: !IsDigit(b[k]) then None else
    var n := DecValue(b[..i]);
    if i + 1 + n > |b| then None else Some((b[i + 1..i + 1 + n], b[i + 1 + n..]))
  }

  function ReadSymbol(b: Bytes, c: Byte): Option<Bytes> {
    if b != [] && b[0] == c then Some(b[1..]) else None
  }

  function ReadField(b: Bytes): (r: Option<(Pair<Bytes>, Bytes)>)
    ensures r.Some? ==> |r.value.1| < |b|
  {
    var name := ReadPrefixed(b);
    if name.None? then None else
    var equals := ReadSymbol(name.value.1, EQUALS);
    if equals.None? then None else
    var value := ReadPrefixed(equals.value);
    if value.None? then None else Some(((name.value.0, value.value.0), value.value.1))
  }

  function ReadFields(b: Bytes): Option<seq<Pair<Bytes>>>
    decreases |b|
  {
    var field := ReadField(b);
    if field.None? then None
    else if field.value.1 == [] then Some([field.value.0])
    else
      var rest := ReadSymbol(field.value.1, NEWLINE);
      if rest.None? then None else
      var more := ReadFields(rest.value);
      if more.None? then None else Some([field.value.0] + more.value)
  }

  lemma PrefixReads(p: Bytes, rest: Bytes)
    ensures ReadPrefixed(PrefixedBytes(p) + rest) == Some((p, rest))
  {
    var d := Dec(|p|);
    var b := PrefixedBytes(p) + rest;
    assert b == d + ([COLON] + p + rest);
    IndexOfAfter(d, COLON, [COLON] + p + rest);
    assert b[..|d|] == d;
    DecRoundTrip(|p|);
    assert b[|d| + 1..|d| + 1 + |p|] == p && b[|d| + 1 + |p|..] == rest;
  }

  lemma FieldReads(f: Pair<Bytes>, rest: Bytes)
    ensures ReadField(FieldBytes(f) + rest) == Some((f, rest))
  {
    hide PrefixedBytes, ReadPrefixed;
    var b := FieldBytes(f) + rest;
    assert b == PrefixedBytes(f.0) + ([EQUALS] + (PrefixedBytes(f.1) + rest));
    PrefixReads(f.0, [EQUALS] + (PrefixedBytes(f.1) + rest));
    assert ([EQUALS] + (PrefixedBytes(f.1) + rest))[1..] == PrefixedBytes(f.1) + rest;
    PrefixReads(f.1, rest);
  }

  lemma ReadFieldsStep(b: Bytes, f: Pair<Bytes>, rest: Bytes, more: seq<Pair<Bytes>>)
    requires ReadField(b) == Some((f, rest))
    requires if rest == [] then more == [] else rest[0] == NEWLINE && ReadFields(rest[1..]) == Some(more)
    ensures ReadFields(b) == Some([f] + more)
  {
    assert more == [] ==> [f] + more == [f];
  }

  /** The framing has a left inverse. */
  lemma {:induction false} FramingReads(fs: seq<Pair<Bytes>>)
    requires fs != []
    ensures ReadFields(Framed(fs)) == Some(fs)
  {
    hide ReadField, FieldBytes;
    var rest := if |fs| == 1 then [] else [NEWLINE] + Framed(fs[1..]);
    assert Framed(fs) == FieldBytes(fs[0]) + rest;
    FieldReads(fs[0], rest);
    if |fs| > 1 {
      FramingReads(fs[1..]);
      assert rest[1..] == Framed(fs[1..]);
    }
    ReadFieldsStep(Framed(fs), fs[0], rest, fs[1..]);
    assert [fs[0]] + fs[1..] == fs;
  }

  // ---------------------------------------------------------------- main results

  /** A receiver can recover all fourteen names and values from the signed bytes alone. */
  lemma SignedBytesDecode(e: Envelope)
    requires Presentable(e)
    ensures ReadFields(SignedBytes(e).value) == Some(Encoded(Fields(e)))
  {
    LinesEncode(Fields(e));
    FramingReads(Encoded(Fields(e)));
  }

  /** Only a content length that is no safe non-negative integer is refused. */
  lemma RefusedExactly(e: Envelope)
    ensures SignedBytes(e).None? <==> e.contentLength < 0 || e.contentLength > 9007199254740991
  {
    hide Utf8, JoinLines, Fields;
  }

  /** Which field is signed under which name, in order. */
  lemma NamedFields(e: Envelope)
    requires Presentable(e)
    ensures Fields(e) == [
      (Ascii("envelopeVersion"), e.envelopeVersion), (Ascii("sourceId"), e.sourceId), (Ascii("eventId"), e.eventId),
      (Ascii("eventType"), e.eventType), (Ascii("occurredAt"), e.occurredAt), (Ascii("idempotencyKey"), e.idempotencyKey),
      (Ascii("nonce"), e.nonce), (Ascii("payloadDigest"), e.payloadDigest), (Ascii("contentType"), e.contentType),
      (Ascii("contentLength"), Dec(e.contentLength)), (Ascii("correlationId"), e.correlationId),
      (Ascii("privacyClassification"), e.privacyClassification), (Ascii("signatureAlgorithm"), e.algorithm),
      (Ascii("keyReference"), e.keyReference)]
  {
    hide Ascii, Dec;
  }

  /** Two field lists under the same names frame alike exactly when their values encode alike. */
  lemma FramingIdentifies(names: seq<Str>, vs: seq<Str>, ws: seq<Str>)
    requires |names| == |vs| == |ws| > 0
    ensures Utf8(JoinLines(Zip(names, vs))) == Utf8(JoinLines(Zip(names, ws)))
       <==> forall i | 0 <= i < |vs| :: Scalars(vs[i]) == Scalars(ws[i])
  {
    var fs, gs := Zip(names, vs), Zip(names, ws);
    LinesEncode(fs);
    LinesEncode(gs);
    FramingReads(Encoded(fs));
    FramingReads(Encoded(gs));
    assert Framed(Encoded(fs)) == Framed(Encoded(gs)) <==> Encoded(fs) == Encoded(gs);
    forall i | 0 <= i < |vs| ensures Encoded(fs)[i] == Encoded(gs)[i] <==> Scalars(vs[i]) == Scalars(ws[i]) {
      Utf8Decides(vs[i], ws[i]);
    }
  }

  ghost predicate SameAfterReplacement(a: Envelope, b: Envelope)
    requires Presentable(a) && Presentable(b)
  {
    forall i | 0 <= i < 14 :: Scalars(Values(a)[i]) == Scalars(Values(b)[i])
  }

  ghost predicate WellFormedFields(e: Envelope)
    requires Presentable(e)
  {
    forall i | 0 <= i < 14 :: WellFormed(Values(e)[i])
  }

  /** The signed bytes identify the envelope up to replacement of lone surrogates, and no further. */
  lemma SignedBytesIdentify(a: Envelope, b: Envelope)
    requires Presentable(a) && Presentable(b)
    ensures SignedBytes(a) == SignedBytes(b) <==> SameAfterReplacement(a, b)
  {
    FramingIdentifies(NAMES, Values(a), Values(b));
  }

  lemma ValuesDetermine(a: Envelope, b: Envelope)
    requires Presentable(a) && Presentable(b) && Values(a) == Values(b)
    ensures a == b
  {
    var v, w := Values(a), Values(b);
    assert v[0] == w[0] && v[1] == w[1] && v[2] == w[2] && v[3] == w[3] && v[4] == w[4];
    assert v[5] == w[5] && v[6] == w[6] && v[7] == w[7] && v[8] == w[8] && v[9] == w[9];
    assert v[10] == w[10] && v[11] == w[11] && v[12] == w[12] && v[13] == w[13];
    DecInjective(a.contentLength, b.contentLength);
  }

  /** On well-formed text the framing is injective on whole envelopes. */
  lemma SignedBytesInjective(a: Envelope, b: Envelope)
    requires Presentable(a) && Presentable(b) && WellFormedFields(a) && WellFormedFields(b)
    requires SignedBytes(a) == SignedBytes(b)
    ensures a == b
  {
    SignedBytesIdentify(a, b);
    var v, w := Values(a), Values(b);
    forall i | 0 <= i < 14 ensures v[i] == w[i] {
      ScalarsInjective(v[i], w[i]);
    }
    ValuesDetermine(a, b);
  }

  lemma LoneScalars()
    ensures Scalars([0xD800]) == [REPLACEMENT] == Scalars([0xFFFD])
  {
    assert Scalars([0xD800][1..]) == [] == Scalars([0xFFFD][1..]);
  }

  /** Without well-formedness it is not: a lone surrogate and U+FFFD sign alike. */
  lemma LoneSurrogateCollides(e: Envelope)
    requires Presentable(e)
    ensures SignedBytes(e.(nonce := [0xD800])) == SignedBytes(e.(nonce := [0xFFFD]))
    ensures e.(nonce := [0xD800]) != e.(nonce := [0xFFFD])
  {
    hide SignedBytes, Scalars;
    var a, b := e.(nonce := [0xD800]), e.(nonce := [0xFFFD]);
    LoneScalars();
    assert Values(b) == Values(a)[6 := b.nonce];
    SignedBytesIdentify(a, b);
    assert a.nonce[0] != b.nonce[0];
  }
}
