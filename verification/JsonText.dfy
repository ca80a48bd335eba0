/**
  JSON values as trees, their compact text, and a reader for that text following
  the grammar of RFC 8259, sections 3 to 7, without insignificant white space.
 */
module JsonText {
  import opened Outcomes
  import opened Sequences
  import opened TextOrder
  import opened Members

  /** Members are in the order the object lists them. A number is its JSON text. */
  datatype Json =
    | JNull
    | JBool(b: bool)
    | JString(s: JsString)
    | JNumber(token: JsString)
    | JArray(items: seq<Json>)
    | JObject(members: seq<Member<Json>>)

  const QUOTE: CodeUnit := 0x22
  const COMMA: CodeUnit := 0x2C
  const COLON: CodeUnit := 0x3A
  const BACKSLASH: CodeUnit := 0x5C
  const OPEN_ARRAY: CodeUnit := 0x5B
  const CLOSE_ARRAY: CodeUnit := 0x5D
  const OPEN_OBJECT: CodeUnit := 0x7B
  const CLOSE_OBJECT: CodeUnit := 0x7D
  const NULL: JsString := [0x6E, 0x75, 0x6C, 0x6C]
  const TRUE: JsString := [0x74, 0x72, 0x75, 0x65]
  const FALSE: JsString := [0x66, 0x61, 0x6C, 0x73, 0x65]

  // ---------- printing ----------

  function HexDigit(n: int): CodeUnit
    requires 0 <= n < 16
  {
    if n < 10 then 0x30 + n else 0x61 + n - 10
  }

  function UnicodeEscape(u: CodeUnit): JsString {
    [BACKSLASH, 0x75, HexDigit(u / 0x1000), HexDigit(u / 0x100 % 0x10), HexDigit(u / 0x10 % 0x10), HexDigit(u % 0x10)]
  }

  function EscapeUnit(u: CodeUnit): JsString {
    if u == QUOTE then [BACKSLASH, QUOTE]
    else if u == BACKSLASH then [BACKSLASH, BACKSLASH]
    else if u == 0x08 then [BACKSLASH, 0x62]
    else if u == 0x09 then [BACKSLASH, 0x74]
    else if u == 0x0A then [BACKSLASH, 0x6E]
    else if u == 0x0C then [BACKSLASH, 0x66]
    else if u == 0x0D then [BACKSLASH, 0x72]
    else if u < 0x20 || IsHigh(u) || IsLow(u) then UnicodeEscape(u)
    else [u]
  }

  /** Surrogate pairs stay as they are; lone surrogates are escaped. */
  function Escape(s: JsString): JsString {
    if s == [] then []
    else if StartsWithPair(s) then s[..2] + Escape(s[2..])
    else EscapeUnit(s[0]) + Escape(s[1..])
  }

  function Quote(s: JsString): JsString {
    [QUOTE] + Escape(s) + [QUOTE]
  }

  function Print(v: Json): JsString {
    match v
    case JNull => NULL
    case JBool(b) => if b then TRUE else FALSE
    case JString(s) => Quote(s)
    case JNumber(token) => token
    case JArray(items) => [OPEN_ARRAY] + PrintItems(items) + [CLOSE_ARRAY]
    case JObject(members) => [OPEN_OBJECT] + PrintMembers(members) + [CLOSE_OBJECT]
  }

  function PrintItems(items: seq<Json>): JsString {
    if items == [] then []
    else Print(items[0]) + if |items| == 1 then [] else [COMMA] + PrintItems(items[1..])
  }

  function PrintMembers(members: seq<Member<Json>>): JsString {
    if members == [] then []
    else
      Quote(members[0].key) + [COLON] + Print(members[0].value)
      + if |members| == 1 then [] else [COMMA] + PrintMembers(members[1..])
  }

  // ---------- reading ----------

  predicate IsNumberUnit(u: int) {
    IsDigit(u) || u in {0x2D, 0x2B, 0x2E, 0x65, 0x45}
  }

  /** How many digits the text starts with. */
  function DigitRun(t: JsString): (n: nat)
    ensures n <= |t|
  {
    if t != [] && IsDigit(t[0]) then 1 + DigitRun(t[1..]) else 0
  }

  predicate IsDigits(t: JsString) {
    t != [] && DigitRun(t) == |t|
  }

  /** Nothing, or e or E, an optional sign and digits. */
  predicate IsExponent(t: JsString) {
    || t == []
    || (t[0] in {0x65, 0x45}
        && if |t| > 1 && t[1] in {0x2B, 0x2D} then IsDigits(t[2..]) else IsDigits(t[1..]))
  }

  /** An optional point with digits, then an optional exponent. */
  predicate IsFraction(t: JsString) {
    if t != [] && t[0] == 0x2E then DigitRun(t[1..]) > 0 && IsExponent(t[1 + DigitRun(t[1..])..]) else IsExponent(t)
  }

  /** Digits without a leading zero, then the rest. */
  predicate IsUnsigned(t: JsString) {
    t != [] && IsDigit(t[0]) && IsFraction(t[if t[0] == 0x30 then 1 else DigitRun(t)..])
  }

  /** A number of section 6 of RFC 8259. That it has number characters only is said as well, to have it at hand. */
  predicate IsNumberToken(t: JsString) {
    && t != [] && (IsDigit(t[0]) || t[0] == 0x2D) && (forall i :: 0 <= i < |t| ==> IsNumberUnit(t[i]))
    && if t[0] == 0x2D then IsUnsigned(t[1..]) else IsUnsigned(t)
  }

  function HexValue(u: int): (r: Option<int>)
    ensures r.Some? ==> 0 <= r.value < 16
  {
    if IsDigit(u) then Some(u - 0x30)
    else if 0x61 <= u <= 0x66 then Some(u - 0x61 + 10)
    else if 0x41 <= u <= 0x46 then Some(u - 0x41 + 10)
    else None
  }

  function SimpleEscape(u: CodeUnit): Option<CodeUnit> {
    if u in {QUOTE, BACKSLASH, 0x2F} then Some(u)
    else if u == 0x62 then Some(0x08)
    else if u == 0x66 then Some(0x0C)
    else if u == 0x6E then Some(0x0A)
    else if u == 0x72 then Some(0x0D)
    else if u == 0x74 then Some(0x09)
    else None
  }

  function ReadHex4(t: JsString): Option<CodeUnit>
    requires |t| >= 4
  {
    var a, b, c, d := HexValue(t[0]), HexValue(t[1]), HexValue(t[2]), HexValue(t[3]);
    if a.None? || b.None? || c.None? || d.None? then None
    else Some(a.value * 0x1000 + b.value * 0x100 + c.value * 0x10 + d.value)
  }

  datatype Read<T> = Read(value: T, rest: JsString)

  function Prepend(u: CodeUnit, r: Option<Read<JsString>>): Option<Read<JsString>> {
    if r.None? then None else Some(Read([u] + r.value.value, r.value.rest))
  }

  /** Reads string characters up to and including the closing quotation mark. */
  function ReadChars(t: JsString): (r: Option<Read<JsString>>)
    ensures r.Some? ==> |r.value.rest| < |t|
  {
    if t == [] then None
    else if t[0] == QUOTE then Some(Read([], t[1..]))
    else if t[0] < 0x20 then None
    else if t[0] != BACKSLASH then Prepend(t[0], ReadChars(t[1..]))
    else if |t| >= 2 && SimpleEscape(t[1]).Some? then Prepend(SimpleEscape(t[1]).value, ReadChars(t[2..]))
    else if |t| >= 6 && t[1] == 0x75 && ReadHex4(t[2..]).Some? then
      Prepend(ReadHex4(t[2..]).value, ReadChars(t[6..]))
    else None
  }

  function ReadString(t: JsString): (r: Option<Read<JsString>>)
    ensures r.Some? ==> |r.value.rest| < |t|
  {
    if t != [] && t[0] == QUOTE then ReadChars(t[1..]) else None
  }

  function NumberLength(t: JsString): (n: nat)
    ensures n <= |t|
  {
    if t != [] && IsNumberUnit(t[0]) then 1 + NumberLength(t[1..]) else 0
  }

  function ReadValue(t: JsString): (r: Option<Read<Json>>)
    ensures r.Some? ==> |r.value.rest| < |t|
    decreases |t|, 0
  {
    if t == [] then None
    else if NULL <= t then Some(Read(JNull, t[4..]))
    else if TRUE <= t then Some(Read(JBool(true), t[4..]))
    else if FALSE <= t then Some(Read(JBool(false), t[5..]))
    else if t[0] == QUOTE then
      var s := ReadString(t);
      if s.None? then None else Some(Read(JString(s.value.value), s.value.rest))
    else if t[0] == OPEN_ARRAY then
      if |t| >= 2 && t[1] == CLOSE_ARRAY then Some(Read(JArray([]), t[2..]))
      else
        var items := ReadItems(t[1..]);
        if items.None? then None else Some(Read(JArray(items.value.value), items.value.rest))
    else if t[0] == OPEN_OBJECT then
      if |t| >= 2 && t[1] == CLOSE_OBJECT then Some(Read(JObject([]), t[2..]))
      else
        var members := ReadMembers(t[1..]);
        if members.None? then None else Some(Read(JObject(members.value.value), members.value.rest))
    else if IsNumberToken(t[..NumberLength(t)]) then
      Some(Read(JNumber(t[..NumberLength(t)]), t[NumberLength(t)..]))
    else None
  }

  /** One or more items, separated by commas, and the closing bracket. */
  function ReadItems(t: JsString): (r: Option<Read<seq<Json>>>)
    ensures r.Some? ==> |r.value.rest| < |t|
    decreases |t|, 1
  {
    var first := ReadValue(t);
    if first.None? || first.value.rest == [] then None
    else if first.value.rest[0] == CLOSE_ARRAY then Some(Read([first.value.value], first.value.rest[1..]))
    else if first.value.rest[0] != COMMA then None
    else
      var others := ReadItems(first.value.rest[1..]);
      if others.None? then None
      else Some(Read([first.value.value] + others.value.value, others.value.rest))
  }

  function ReadMember(t: JsString): (r: Option<Read<Member<Json>>>)
    ensures r.Some? ==> |r.value.rest| < |t|
    decreases |t|, 1
  {
    var key := ReadString(t);
    if key.None? || key.value.rest == [] || key.value.rest[0] != COLON then None
    else
      var value := ReadValue(key.value.rest[1..]);
      if value.None? then None else Some(Read(Member(key.value.value, value.value.value), value.value.rest))
  }

  function ReadMembers(t: JsString): (r: Option<Read<seq<Member<Json>>>>)
    ensures r.Some? ==> |r.value.rest| < |t|
    decreases |t|, 2
  {
    var first := ReadMember(t);
    if first.None? || first.value.rest == [] then None
    else if first.value.rest[0] == CLOSE_OBJECT then Some(Read([first.value.value], first.value.rest[1..]))
    else if first.value.rest[0] != COMMA then None
    else
      var others := ReadMembers(first.value.rest[1..]);
      if others.None? then None
      else Some(Read([first.value.value] + others.value.value, others.value.rest))
  }

  // ---------- the round trip ----------

  /** Every number in the tree has the text of a number. */
  predicate NumbersValid(v: Json) {
    match v
    case JNumber(token) => IsNumberToken(token)
    case JArray(items) => forall i | 0 <= i < |items| :: NumbersValid(items[i])
    case JObject(members) => forall i | 0 <= i < |members| :: NumbersValid(members[i].value)
    case _ => true
  }

  /** What may follow a value so that a number is known to end there. */
  predicate Delimited(rest: JsString) {
    rest == [] || !IsNumberUnit(rest[0])
  }

  lemma HexRoundTrip(n: int)
    requires 0 <= n < 16
    ensures HexValue(HexDigit(n)) == Some(n)
  {
  }

  lemma ShiftTwice(n: nat)
    ensures n / 0x100 == n / 0x10 / 0x10
  {
  }

  lemma HexDigitsSum(u: CodeUnit)
    ensures u == u / 0x1000 * 0x1000 + u / 0x100 % 0x10 * 0x100 + u / 0x10 % 0x10 * 0x10 + u % 0x10
  {
    var a := u / 0x10;
    var b := a / 0x10;
    ShiftTwice(u);
    ShiftTwice(a);
    assert u / 0x1000 == b / 0x10;
    assert u == a * 0x10 + u % 0x10 && a == b * 0x10 + a % 0x10 && b == b / 0x10 * 0x10 + b % 0x10;
  }

  lemma {:induction false} ReadHexEscape(u: CodeUnit, rest: JsString)
    ensures ReadHex4(UnicodeEscape(u)[2..] + rest) == Some(u)
  {
    var t := UnicodeEscape(u)[2..] + rest;
    assert t[0] == HexDigit(u / 0x1000) && t[1] == HexDigit(u / 0x100 % 0x10);
    assert t[2] == HexDigit(u / 0x10 % 0x10) && t[3] == HexDigit(u % 0x10);
    HexRoundTrip(u / 0x1000);
    HexRoundTrip(u / 0x100 % 0x10);
    HexRoundTrip(u / 0x10 % 0x10);
    HexRoundTrip(u % 0x10);
    HexDigitsSum(u);
    hide HexValue, HexDigit;
  }

  lemma {:induction false} ReadEscapedUnit(u: CodeUnit, rest: JsString)
    ensures ReadChars(EscapeUnit(u) + rest) == Prepend(u, ReadChars(rest))
  {
    hide ReadHex4, HexDigit;
    var e := EscapeUnit(u);
    assert (e + rest)[|e|..] == rest;
    if e == UnicodeEscape(u) {
      ReadUnicodeEscape(u, rest);
    }
  }

  lemma {:induction false} ReadUnicodeEscape(u: CodeUnit, rest: JsString)
    ensures ReadChars(UnicodeEscape(u) + rest) == Prepend(u, ReadChars(rest))
  {
    hide ReadHex4, HexDigit;
    var e := UnicodeEscape(u);
    ReadHexEscape(u, rest);
    assert (e + rest)[2..] == e[2..] + rest && (e + rest)[6..] == rest;
  }

  lemma {:induction false} ReadPassedUnit(u: CodeUnit, rest: JsString)
    requires u >= 0x20 && u != QUOTE && u != BACKSLASH
    ensures ReadChars([u] + rest) == Prepend(u, ReadChars(rest))
  {
    assert ([u] + rest)[1..] == rest;
  }

  lemma {:induction false} ReadPassedPair(s: JsString, after: JsString, rest: JsString)
    requires StartsWithPair(s) && ReadChars(after) == Some(Read(s[2..], rest))
    ensures ReadChars(s[..2] + after) == Some(Read(s, rest))
  {
    hide ReadChars;
    assert s[..2] + after == [s[0]] + ([s[1]] + after);
    ReadPassedUnit(s[0], [s[1]] + after);
    ReadPassedUnit(s[1], after);
    assert s == [s[0]] + ([s[1]] + s[2..]);
  }

  lemma {:induction false} ReadEscaped(s: JsString, tail: JsString)
    requires tail != [] && tail[0] == QUOTE
    ensures ReadChars(Escape(s) + tail) == Some(Read(s, tail[1..]))
  {
    hide ReadChars, EscapeUnit;
    if s == [] {
      assert Escape(s) + tail == tail;
      ReadClosingQuote(tail);
    } else if StartsWithPair(s) {
      ReadEscaped(s[2..], tail);
      ReadPassedPair(s, Escape(s[2..]) + tail, tail[1..]);
      Reassociate(s[..2], Escape(s[2..]), tail);
    } else {
      ReadEscaped(s[1..], tail);
      ReadEscapedUnit(s[0], Escape(s[1..]) + tail);
      Reassociate(EscapeUnit(s[0]), Escape(s[1..]), tail);
      assert s == [s[0]] + s[1..];
    }
  }

  lemma {:induction false} ReadClosingQuote(t: JsString)
    requires t != [] && t[0] == QUOTE
    ensures ReadChars(t) == Some(Read([], t[1..]))
  {
  }

  lemma {:induction false} ReadQuoted(s: JsString, rest: JsString)
    ensures ReadString(Quote(s) + rest) == Some(Read(s, rest))
  {
    ReadEscaped(s, [QUOTE] + rest);
    var e := Escape(s);
    hide Escape, ReadChars;
    Reassociate([QUOTE] + e, [QUOTE], rest);
    Reassociate([QUOTE], e, [QUOTE] + rest);
    assert (Quote(s) + rest)[1..] == e + ([QUOTE] + rest);
    assert ([QUOTE] + rest)[1..] == rest;
  }

  lemma {:induction false} NumberEnds(token: JsString, rest: JsString)
    requires (forall i :: 0 <= i < |token| ==> IsNumberUnit(token[i])) && Delimited(rest)
    ensures NumberLength(token + rest) == |token|
  {
    if token == [] {
      assert token + rest == rest;
    } else {
      assert (token + rest)[1..] == token[1..] + rest;
      NumberEnds(token[1..], rest);
    }
  }

  /** The first unit of a value's text tells what kind of value it is. */
  lemma {:induction false} PrintHead(v: Json)
    requires NumbersValid(v)
    ensures Print(v) != [] && Print(v)[0] !in {COMMA, COLON, CLOSE_ARRAY, CLOSE_OBJECT}
  {
  }

  lemma {:induction false} ReadLiteral(v: Json, rest: JsString)
    requires v.JNull? || v.JBool?
    ensures ReadValue(Print(v) + rest) == Some(Read(v, rest))
  {
    var t := Print(v) + rest;
    assert t[|Print(v)|..] == rest && Print(v) <= t && t[0] == Print(v)[0];
  }

  lemma {:induction false} ReadNumber(token: JsString, rest: JsString)
    requires IsNumberToken(token) && Delimited(rest)
    ensures ReadValue(token + rest) == Some(Read(JNumber(token), rest))
  {
    var t := token + rest;
    NumberEnds(token, rest);
    assert t[0] == token[0] && t[..|token|] == token && t[|token|..] == rest;
  }

  lemma {:induction false} ReadStringValue(s: JsString, rest: JsString)
    ensures ReadValue(Quote(s) + rest) == Some(Read(JString(s), rest))
  {
    hide Escape, ReadChars;
    ReadQuoted(s, rest);
    assert (Quote(s) + rest)[0] == QUOTE;
  }

  lemma {:induction false} ReadArray(items: seq<Json>, t: JsString, rest: JsString)
    requires t != [] && t[0] == OPEN_ARRAY
    requires if items == [] then t[1..] == [CLOSE_ARRAY] + rest
             else |t| >= 2 && t[1] != CLOSE_ARRAY && ReadItems(t[1..]) == Some(Read(items, rest))
    ensures ReadValue(t) == Some(Read(JArray(items), rest))
  {
    hide ReadItems, ReadMembers, ReadString, NumberLength;
    if items == [] {
      assert t[1] == t[1..][0] && t[2..] == t[1..][1..];
    }
  }

  lemma {:induction false} ReadObject(members: seq<Member<Json>>, t: JsString, rest: JsString)
    requires t != [] && t[0] == OPEN_OBJECT
    requires if members == [] then t[1..] == [CLOSE_OBJECT] + rest
             else |t| >= 2 && t[1] != CLOSE_OBJECT && ReadMembers(t[1..]) == Some(Read(members, rest))
    ensures ReadValue(t) == Some(Read(JObject(members), rest))
  {
    hide ReadItems, ReadMembers, ReadString, NumberLength;
    if members == [] {
      assert t[1] == t[1..][0] && t[2..] == t[1..][1..];
    }
  }

  lemma {:induction false} ReadItemsStep(first: Json, others: seq<Json>, t: JsString, after: JsString, rest: JsString)
    requires ReadValue(t) == Some(Read(first, after)) && after != []
    requires if others == [] then after == [CLOSE_ARRAY] + rest
             else after[0] == COMMA && ReadItems(after[1..]) == Some(Read(others, rest))
    ensures ReadItems(t) == Some(Read([first] + others, rest))
  {
    hide ReadValue;
    assert others == [] ==> after[1..] == rest && [first] + others == [first];
  }

  lemma {:induction false} ReadMembersStep(
      first: Member<Json>, others: seq<Member<Json>>, t: JsString, after: JsString, rest: JsString)
    requires ReadMember(t) == Some(Read(first, after)) && after != []
    requires if others == [] then after == [CLOSE_OBJECT] + rest
             else after[0] == COMMA && ReadMembers(after[1..]) == Some(Read(others, rest))
    ensures ReadMembers(t) == Some(Read([first] + others, rest))
  {
    hide ReadMember;
    assert others == [] ==> after[1..] == rest && [first] + others == [first];
  }

  /** Reading back the text of any value, whatever follows it, yields the value and what follows. */
  lemma {:induction false} ReadPrinted(v: Json, rest: JsString)
    requires NumbersValid(v) && Delimited(rest)
    ensures ReadValue(Print(v) + rest) == Some(Read(v, rest))
    decreases v, 0
  {
    hide ReadValue, ReadItems, ReadMembers, Quote, PrintItems, PrintMembers;
    var t := Print(v) + rest;
    match v
    case JNull => ReadLiteral(v, rest);
    case JBool(b) => ReadLiteral(v, rest);
    case JString(s) => ReadStringValue(s, rest);
    case JNumber(token) => ReadNumber(token, rest);
    case JArray(items) =>
      assert t[1..] == PrintItems(items) + [CLOSE_ARRAY] + rest;
      if items == [] {
        assert PrintItems(items) == [] by { PrintEmpty(); }
      } else {
        ReadPrintedItems(items, rest);
        PrintItemsHead(items);
        assert t[1] == PrintItems(items)[0];
      }
      ReadArray(items, t, rest);
    case JObject(members) =>
      assert t[1..] == PrintMembers(members) + [CLOSE_OBJECT] + rest;
      if members == [] {
        assert PrintMembers(members) == [] by { PrintEmpty(); }
      } else {
        ReadPrintedMembers(members, rest);
        PrintMembersHead(members);
        assert t[1] == PrintMembers(members)[0];
      }
      ReadObject(members, t, rest);
  }

  lemma PrintEmpty()
    ensures PrintItems([]) == [] && PrintMembers([]) == []
  {
  }

  lemma {:induction false} PrintItemsHead(items: seq<Json>)
    requires items != [] && NumbersValid(items[0])
    ensures PrintItems(items) != [] && PrintItems(items)[0] != CLOSE_ARRAY
  {
    PrintHead(items[0]);
  }

  lemma {:induction false} PrintMembersHead(members: seq<Member<Json>>)
    requires members != []
    ensures PrintMembers(members) != [] && PrintMembers(members)[0] == QUOTE
  {
  }

  lemma {:induction false} ReadPrintedItems(items: seq<Json>, rest: JsString)
    requires items != [] && forall i | 0 <= i < |items| :: NumbersValid(items[i])
    ensures ReadItems(PrintItems(items) + [CLOSE_ARRAY] + rest) == Some(Read(items, rest))
    decreases items, 1
  {
    hide ReadValue, ReadItems, Print;
    var t := PrintItems(items) + [CLOSE_ARRAY] + rest;
    var others := items[1..];
    var closing := PrintItems(others) + [CLOSE_ARRAY] + rest;
    var after := if others == [] then [CLOSE_ARRAY] + rest else [COMMA] + closing;
    if others != [] {
      ReadPrintedItems(others, rest);
      assert after[1..] == closing;
    }
    assert t == Print(items[0]) + after;
    ReadPrinted(items[0], after);
    ReadItemsStep(items[0], others, t, after, rest);
    assert items == [items[0]] + others;
  }

  lemma {:induction false} ReadPrintedMember(m: Member<Json>, rest: JsString)
    requires NumbersValid(m.value) && Delimited(rest)
    ensures ReadMember(Quote(m.key) + [COLON] + Print(m.value) + rest) == Some(Read(m, rest))
    decreases m, 1
  {
    hide ReadValue, ReadString, Print, Quote;
    var after := [COLON] + (Print(m.value) + rest);
    ReadQuoted(m.key, after);
    assert Quote(m.key) + [COLON] + Print(m.value) + rest == Quote(m.key) + after;
    assert after[1..] == Print(m.value) + rest;
    ReadPrinted(m.value, rest);
  }

  lemma {:induction false} ReadPrintedMembers(members: seq<Member<Json>>, rest: JsString)
    requires members != [] && forall i | 0 <= i < |members| :: NumbersValid(members[i].value)
    ensures ReadMembers(PrintMembers(members) + [CLOSE_OBJECT] + rest) == Some(Read(members, rest))
    decreases members, 2
  {
    hide ReadMember, ReadMembers, Print, Quote;
    var t := PrintMembers(members) + [CLOSE_OBJECT] + rest;
    var m, others := members[0], members[1..];
    var closing := PrintMembers(others) + [CLOSE_OBJECT] + rest;
    var after := if others == [] then [CLOSE_OBJECT] + rest else [COMMA] + closing;
    if others != [] {
      ReadPrintedMembers(others, rest);
      assert after[1..] == closing;
    }
    assert t == Quote(m.key) + [COLON] + Print(m.value) + after;
    ReadPrintedMember(m, after);
    ReadMembersStep(m, others, t, after, rest);
    assert members == [m] + others;
  }

  /** Different trees have different texts. */
  lemma {:induction false} PrintInjective(a: Json, b: Json)
    requires NumbersValid(a) && NumbersValid(b) && Print(a) == Print(b)
    ensures a == b
  {
    ReadPrinted(a, []);
    ReadPrinted(b, []);
    assert Print(a) + [] == Print(a) && Print(b) + [] == Print(b);
  }

  // ---------- whatever is read could have been printed ----------

  /** The reader lets only numbers of the grammar pass. */
  lemma {:induction false} ReadIsValid(t: JsString)
    ensures ReadValue(t).Some? ==> NumbersValid(ReadValue(t).value.value)
    decreases |t|, 0
  {
    hide ReadItems, ReadMembers, ReadString, NumberLength, IsNumberToken;
    if t != [] && t[0] == OPEN_ARRAY && ReadItems(t[1..]).Some? {
      ReadItemsAreValid(t[1..]);
    } else if t != [] && t[0] == OPEN_OBJECT && ReadMembers(t[1..]).Some? {
      ReadMembersAreValid(t[1..]);
    }
  }

  lemma {:induction false} ReadItemsAreValid(t: JsString)
    requires ReadItems(t).Some?
    ensures forall i | 0 <= i < |ReadItems(t).value.value| :: NumbersValid(ReadItems(t).value.value[i])
    decreases |t|, 1
  {
    hide ReadValue, NumbersValid;
    ReadIsValid(t);
    var rest := ReadValue(t).value.rest;
    if rest[0] == COMMA {
      ReadItemsAreValid(rest[1..]);
    }
  }

  lemma {:induction false} ReadMembersAreValid(t: JsString)
    requires ReadMembers(t).Some?
    ensures forall i | 0 <= i < |ReadMembers(t).value.value| :: NumbersValid(ReadMembers(t).value.value[i].value)
    decreases |t|, 1
  {
    hide ReadValue, NumbersValid, ReadString;
    ReadIsValid(ReadString(t).value.rest[1..]);
    var rest := ReadMember(t).value.rest;
    if rest[0] == COMMA {
      ReadMembersAreValid(rest[1..]);
    }
  }
}
