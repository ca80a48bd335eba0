/** The bytes of canonical texts, which the digests of a canonical form cover, and the parser that accepts no others. */
module CanonicalBytes {
  import opened Outcomes
  import opened TextOrder
  import opened Utf8
  import opened Members
  import opened JsonText
  import opened CanonicalForm

  /** What canonicalManifestBytes returns. */
  function BytesOf(form: Form, v: Json): seq<Byte> {
    Bytes(CanonicalText(form, v))
  }

  // ---------- no printed text holds a lone surrogate ----------

  lemma {:induction false} PlainIsWellFormed(s: JsString)
    requires forall i | 0 <= i < |s| :: !IsHigh(s[i]) && !IsLow(s[i])
    ensures IsWellFormed(s)
  {
  }

  lemma {:induction false} EscapeWellFormed(s: JsString)
    ensures IsWellFormed(Escape(s))
  {
    hide IsWellFormed;
    if s == [] {
      PlainIsWellFormed([]);
    } else if StartsWithPair(s) {
      PairIsWellFormed(s[..2]);
      EscapeWellFormed(s[2..]);
      ConcatWellFormed(s[..2], Escape(s[2..]));
    } else {
      EscapedUnitIsPlain(s[0]);
      PlainIsWellFormed(EscapeUnit(s[0]));
      EscapeWellFormed(s[1..]);
      ConcatWellFormed(EscapeUnit(s[0]), Escape(s[1..]));
    }
  }

  lemma PairIsWellFormed(s: JsString)
    requires StartsWithPair(s) && |s| == 2
    ensures IsWellFormed(s)
  {
  }

  lemma EscapedUnitIsPlain(u: CodeUnit)
    ensures forall i | 0 <= i < |EscapeUnit(u)| :: !IsHigh(EscapeUnit(u)[i]) && !IsLow(EscapeUnit(u)[i])
  {
  }

  lemma QuoteWellFormed(s: JsString)
    ensures IsWellFormed(Quote(s))
  {
    hide IsWellFormed, Escape;
    PlainIsWellFormed([QUOTE]);
    EscapeWellFormed(s);
    ConcatWellFormed([QUOTE], Escape(s));
    ConcatWellFormed([QUOTE] + Escape(s), [QUOTE]);
  }

  /** The text of a value is well-formed, whatever its strings hold: a lone surrogate is printed as an escape. */
  lemma {:induction false} PrintWellFormed(v: Json)
    requires NumbersValid(v)
    ensures IsWellFormed(Print(v))
    decreases v, 0
  {
    hide IsWellFormed, PrintItems, PrintMembers;
    match v
    case JString(s) =>
      QuoteWellFormed(s);
    case JArray(items) =>
      ItemsWellFormed(items);
      Bracketed(OPEN_ARRAY, PrintItems(items), CLOSE_ARRAY);
    case JObject(members) =>
      MembersWellFormed(members);
      Bracketed(OPEN_OBJECT, PrintMembers(members), CLOSE_OBJECT);
    case _ =>
      PlainIsWellFormed(Print(v));
  }

  lemma Bracketed(first: CodeUnit, s: JsString, last: CodeUnit)
    requires IsWellFormed(s) && first < 0x80 && last < 0x80
    ensures IsWellFormed([first] + s + [last])
  {
    hide IsWellFormed;
    PlainIsWellFormed([first]);
    PlainIsWellFormed([last]);
    ConcatWellFormed([first], s);
    ConcatWellFormed([first] + s, [last]);
  }

  /** Texts joined by a comma or a colon. */
  lemma Separated(a: JsString, separator: CodeUnit, b: JsString)
    requires IsWellFormed(a) && separator < 0x80 && IsWellFormed(b)
    ensures IsWellFormed(a + ([separator] + b))
  {
    hide IsWellFormed;
    PlainIsWellFormed([separator]);
    ConcatWellFormed([separator], b);
    ConcatWellFormed(a, [separator] + b);
  }

  lemma {:induction false} ItemsWellFormed(items: seq<Json>)
    requires forall i | 0 <= i < |items| :: NumbersValid(items[i])
    ensures IsWellFormed(PrintItems(items))
    decreases items, 1
  {
    hide IsWellFormed, Print;
    if items == [] {
      PlainIsWellFormed([]);
    } else {
      PrintWellFormed(items[0]);
      ItemsWellFormed(items[1..]);
      Separated(Print(items[0]), COMMA, PrintItems(items[1..]));
      assert Print(items[0]) + [] == Print(items[0]);
    }
  }

  lemma {:induction false} MembersWellFormed(members: seq<Member<Json>>)
    requires forall i | 0 <= i < |members| :: NumbersValid(members[i].value)
    ensures IsWellFormed(PrintMembers(members))
    decreases members, 1
  {
    hide IsWellFormed, Print, Quote;
    if members == [] {
      PlainIsWellFormed([]);
    } else {
      var key, value := Quote(members[0].key), Print(members[0].value);
      QuoteWellFormed(members[0].key);
      PrintWellFormed(members[0].value);
      MembersWellFormed(members[1..]);
      Separated(key, COLON, value);
      assert key + ([COLON] + value) == key + [COLON] + value;
      Separated(key + [COLON] + value, COMMA, PrintMembers(members[1..]));
      assert key + [COLON] + value + [] == key + [COLON] + value;
    }
  }

  lemma {:induction false} CanonicalTextWellFormed(form: Form, v: Json)
    requires WellKeyed(v) && NumbersValid(v)
    ensures IsWellFormed(CanonicalText(form, v))
  {
    NormalFormValid(form, v);
    PrintWellFormed(Normalize(form, v));
  }

  // ---------- the bytes are faithful ----------

  /** One value, one byte sequence; different values, different byte sequences. */
  lemma {:induction false} CanonicalBytesFaithful(form: Form, a: Json, b: Json)
    requires WellKeyed(a) && WellKeyed(b) && NumbersValid(a) && NumbersValid(b)
    ensures BytesOf(form, a) == BytesOf(form, b) <==> Equivalent(a, b)
  {
    CanonicalTextWellFormed(form, a);
    CanonicalTextWellFormed(form, b);
    BytesInjective(CanonicalText(form, a), CanonicalText(form, b));
    CanonicalTextFaithful(form, a, b);
  }

  // ---------- the parser of untrusted bytes ----------

  /** Decodes well-formed UTF-8 as it must be; what it makes of other bytes is open. */
  ghost predicate IsDecoder(decode: seq<Byte> -> JsString) {
    forall bytes | DecodeScalars(bytes).Some? ::
      DecodesExactly(bytes, DecodeScalars(bytes).value);
      decode(bytes) == Encode(DecodeScalars(bytes).value)
  }

  lemma {:induction false} DecodesBack(decode: seq<Byte> -> JsString, s: JsString)
    requires IsDecoder(decode) && IsWellFormed(s)
    ensures decode(Bytes(s)) == s
  {
    DecodesExactly(Bytes(s), Scalars(s));
    WellFormedScalars(s);
    EncodeCodePoints(s);
  }

  predicate AcceptsBytes(form: Form, number: JsString -> Json, decode: seq<Byte> -> JsString, bytes: seq<Byte>) {
    var parsed := Parsed(number, decode(bytes));
    parsed.Some? && BytesOf(form, parsed.value) == bytes
  }

  /** The canonical bytes of values are all accepted, and no others: ill-formed UTF-8 least of all. */
  lemma {:induction false} AcceptsExactlyCanonicalBytes(
    form: Form, number: JsString -> Json, decode: seq<Byte> -> JsString, bytes: seq<Byte>)
    requires IsRewriting(number) && IsDecoder(decode)
    ensures AcceptsBytes(form, number, decode, bytes)
       <==> exists v :: WellKeyed(v) && NumbersWritten(number, v) && bytes == BytesOf(form, v)
  {
    hide Parsed, WellKeyed, NumbersValid, NumbersWritten, IsRewriting, IsDecoder, Normalize, Print;
    if AcceptsBytes(form, number, decode, bytes) {
      ParsedIsValue(number, decode(bytes));
    }
    if v :| WellKeyed(v) && NumbersWritten(number, v) && bytes == BytesOf(form, v) {
      ParsesCanonicalText(form, number, v);
      CanonicalTextWellFormed(form, v);
      DecodesBack(decode, CanonicalText(form, v));
      NormalizeIdempotent(form, v);
    }
  }

  /** Two accepted byte sequences are equal exactly when the values they hold are equivalent. */
  lemma {:induction false} AcceptedBytesDecide(
    form: Form, number: JsString -> Json, decode: seq<Byte> -> JsString, x: seq<Byte>, y: seq<Byte>)
    requires IsRewriting(number) && AcceptsBytes(form, number, decode, x) && AcceptsBytes(form, number, decode, y)
    ensures x == y <==> Equivalent(Parsed(number, decode(x)).value, Parsed(number, decode(y)).value)
  {
    hide Parsed, WellKeyed, NumbersValid, NumbersWritten, IsRewriting, Normalize, Print, Equivalent;
    ParsedIsValue(number, decode(x));
    ParsedIsValue(number, decode(y));
    CanonicalBytesFaithful(form, Parsed(number, decode(x)).value, Parsed(number, decode(y)).value);
  }
}
