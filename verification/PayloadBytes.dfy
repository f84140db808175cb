/** The bytes computePayloadDigest hashes: the canonical text in UTF-8, which loses nothing of it. */
module PayloadBytes {
  import opened JsText
  import opened JsNumber
  import opened JsonQuote
  import opened PayloadDigest
  import opened PayloadDigestLaws

  lemma PrimitiveWellFormed(v: Value)
    requires !v.Ref?
    ensures WellFormed(PrimitiveText(v))
  {
    hide NumberText, Quote, WellFormed;
    if v.Num? {
      NumberTextUnits(v.n);
      NoSurrogateWellFormed(NumberText(v.n));
    } else if v.Text? {
      QuoteWellFormed(v.s);
    } else if v.BigInt? {
      QuoteWellFormed(BigIntText(v.negative, v.magnitude));
    } else {
      NoSurrogateWellFormed(PrimitiveText(v));
    }
  }

  lemma {:induction false} CanonicalWellFormed(h: Heap, v: Value, depth: nat, seen: set<nat>)
    requires Closed(h) && Known(h, v) && Canonical(h, v, depth, seen).Ok?
    ensures WellFormed(Canonical(h, v, depth, seen).text)
    decreases Levels(depth), 0
  {
    hide WellFormed, PrimitiveText, OrderedKeys, ItemsText, EntriesText;
    if !v.Ref? {
      PrimitiveWellFormed(v);
    } else {
      assert ValidObject(h, h[v.id]);
      match h[v.id]
      case Arr(slots) =>
        ItemsWellFormed(h, slots, depth + 1, seen + {v.id});
        WrapWellFormed(OPEN_LIST, ItemsText(h, slots, depth + 1, seen + {v.id}), CLOSE_LIST);
      case Rec(keys, props) =>
        var ordered := OrderedKeys(keys, props);
        EntriesWellFormed(h, ordered, props, depth + 1, seen + {v.id});
        WrapWellFormed(OPEN_RECORD, EntriesText(h, ordered, props, depth + 1, seen + {v.id}), CLOSE_RECORD);
    }
  }

  lemma WrapWellFormed(open: Unit, body: Outcome, close: Unit)
    requires body.Ok? && WellFormed(body.text) && open < 0xD800 && close < 0xD800
    ensures WellFormed(Wrap(open, body, close).text)
  {
    hide WellFormed;
    NoSurrogateWellFormed([open]);
    NoSurrogateWellFormed([close]);
    WellFormedConcat([open], body.text);
    WellFormedConcat([open] + body.text, [close]);
  }

  lemma CommaWellFormed(a: Str, b: Str)
    requires WellFormed(a) && WellFormed(b)
    ensures WellFormed(a + [COMMA] + b)
  {
    hide WellFormed;
    NoSurrogateWellFormed([COMMA]);
    WellFormedConcat(a, [COMMA]);
    WellFormedConcat(a + [COMMA], b);
  }

  lemma {:induction false} ItemsWellFormed(h: Heap, slots: seq<Slot>, depth: nat, seen: set<nat>)
    requires Closed(h) && KnownSlots(h, slots)
    ensures var r := ItemsText(h, slots, depth, seen); r.Ok? ==> WellFormed(r.text)
    decreases Levels(depth), 2, |slots|
  {
    if slots == [] || !ItemsText(h, slots, depth, seen).Ok? {
    } else {
      assert SlotText(h, slots[0], depth, seen).Ok?;
      if slots[0].Item? { CanonicalWellFormed(h, slots[0].v, depth, seen); }
      ItemsWellFormed(h, slots[1..], depth, seen);
      hide Canonical;
      if |slots| > 1 {
        CommaWellFormed(SlotText(h, slots[0], depth, seen).text, ItemsText(h, slots[1..], depth, seen).text);
      }
    }
  }

  lemma EntryWellFormed(key: Str, value: Str)
    requires WellFormed(value)
    ensures WellFormed(Quote(key) + [COLON] + value)
  {
    hide WellFormed, Quote;
    QuoteWellFormed(key);
    NoSurrogateWellFormed([COLON]);
    WellFormedConcat(Quote(key), [COLON]);
    WellFormedConcat(Quote(key) + [COLON], value);
  }

  lemma {:induction false} EntriesWellFormed(h: Heap, keys: seq<Str>, props: map<Str, Value>, depth: nat, seen: set<nat>)
    requires Closed(h) && KnownProps(h, props) && forall k | k in keys :: k in props
    ensures var r := EntriesText(h, keys, props, depth, seen); r.Ok? ==> WellFormed(r.text)
    decreases Levels(depth), 2, |keys|
  {
    hide Quote;
    if keys == [] || !EntriesText(h, keys, props, depth, seen).Ok? {
    } else {
      assert EntryText(h, keys[0], props[keys[0]], depth, seen).Ok?;
      CanonicalWellFormed(h, props[keys[0]], depth, seen);
      hide Canonical;
      EntryWellFormed(keys[0], Canonical(h, props[keys[0]], depth, seen).text);
      EntriesWellFormed(h, keys[1..], props, depth, seen);
      if |keys| > 1 {
        CommaWellFormed(EntryText(h, keys[0], props[keys[0]], depth, seen).text, EntriesText(h, keys[1..], props, depth, seen).text);
      }
    }
  }

  /** Every canonical text is well formed, so encoding it replaces nothing. */
  lemma PayloadTextWellFormed(h: Heap, v: Value)
    requires Closed(h) && Known(h, v) && PayloadText(h, v).Ok?
    ensures WellFormed(PayloadText(h, v).text)
  {
    CanonicalWellFormed(h, v, 0, {});
  }

  /** What is hashed identifies the data: equal bytes exactly for equal data, with no condition on the strings inside. */
  lemma PayloadBytesIdentify(h: Heap, v: Value, h': Heap, v': Value)
    requires Closed(h) && Known(h, v) && PayloadText(h, v).Ok?
    requires Closed(h') && Known(h', v') && PayloadText(h', v').Ok?
    ensures Fits(h, v, MAX_PAYLOAD_DEPTH) && Fits(h', v', MAX_PAYLOAD_DEPTH)
    ensures Utf8(PayloadText(h, v).text) == Utf8(PayloadText(h', v').text)
       <==> Denote(h, v, MAX_PAYLOAD_DEPTH) == Denote(h', v', MAX_PAYLOAD_DEPTH)
  {
    hide PayloadText, Fits, Denote, Utf8, WellFormed;
    PayloadTextIdentifies(h, v, h', v');
    PayloadTextWellFormed(h, v);
    PayloadTextWellFormed(h', v');
    Utf8Decides(PayloadText(h, v).text, PayloadText(h', v').text);
  }
}
