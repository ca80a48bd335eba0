/**
  What a JSON text is, said without the printer: the text of a string is the shortest
  one that reads back as it, and the texts of literals, arrays and objects are spelled out.
 */
module ShortestText {
  import opened Outcomes
  import opened TextOrder
  import opened Utf8
  import opened Members
  import opened JsonText
  import opened CanonicalBytes

  // ---------- strings ----------

  /** A text without lone surrogates that is one quoted string and reads as s. */
  ghost predicate Writes(t: JsString, s: JsString) {
    IsWellFormed(t) && ReadString(t) == Some(Read(s, []))
  }

  /** No hexadecimal escape uses an upper-case digit. */
  predicate LowerHex(t: JsString) {
    if |t| < 2 then true
    else if t[0] != 0x5C then LowerHex(t[1..])
    else (t[1] == 0x75 ==> forall j | 2 <= j < 6 && j < |t| :: !(0x41 <= t[j] <= 0x46)) && LowerHex(t[2..])
  }

  /** No text that writes s is shorter, and of those as short this one has lower-case digits. */
  ghost predicate IsShortest(t: JsString, s: JsString) {
    Writes(t, s) && LowerHex(t) && forall u | Writes(u, s) :: |t| <= |u|
  }

  lemma WellFormedDrop(t: JsString, n: nat)
    requires IsWellFormed(t) && n <= |t|
    requires (n == 2 && StartsWithPair(t)) || forall k | 0 <= k < n :: !IsHigh(t[k]) && !IsLow(t[k])
    ensures IsWellFormed(t[n..])
  {
    forall k: nat | k < |t[n..]| && (IsHigh(t[n..][k]) || IsLow(t[n..][k])) ensures IsPaired(t[n..], k) {
      assert t[n..][k] == t[k + n] && IsPaired(t, k + n);
    }
  }

  /** What one more unit adds to the escaped text, at most; exactly its own escape unless it begins a pair. */
  lemma EscapeGrows(u: CodeUnit, s: JsString)
    ensures if StartsWithPair([u] + s) then |Escape([u] + s)| < |EscapeUnit(u)| + |Escape(s)|
            else Escape([u] + s) == EscapeUnit(u) + Escape(s)
  {
    assert ([u] + s)[1..] == s;
    if StartsWithPair([u] + s) {
      assert ([u] + s)[2..] == s[1..];
    }
  }

  lemma EscapePair(s: JsString, rest: JsString)
    requires |s| == 2 && StartsWithPair(s)
    ensures Escape(s + rest) == s + Escape(rest)
  {
    assert (s + rest)[..2] == s && (s + rest)[2..] == rest;
  }

  lemma {:induction false} LowerHexInjective(x: CodeUnit, n: int)
    requires HexValue(x) == Some(n) && !(0x41 <= x <= 0x46)
    ensures x == HexDigit(n)
  {
  }

  lemma {:induction false} LowerEscapeIsOurs(t: JsString, u: CodeUnit)
    requires |t| == 6 && t[0] == BACKSLASH && t[1] == 0x75 && ReadHex4(t[2..]) == Some(u)
    requires forall j | 2 <= j < 6 :: !(0x41 <= t[j] <= 0x46)
    ensures t == UnicodeEscape(u)
  {
    var a, b, c, d := HexValue(t[2]).value, HexValue(t[3]).value, HexValue(t[4]).value, HexValue(t[5]).value;
    assert t[2..][0] == t[2] && t[2..][1] == t[3] && t[2..][2] == t[4] && t[2..][3] == t[5];
    LowerHexInjective(t[2], a);
    LowerHexInjective(t[3], b);
    LowerHexInjective(t[4], c);
    LowerHexInjective(t[5], d);
    hide HexValue, HexDigit;
    FourDigits(a, b, c, d);
  }

  lemma LastHexDigit(high: nat, low: nat)
    requires low < 0x10
    ensures (high * 0x10 + low) / 0x10 == high && (high * 0x10 + low) % 0x10 == low
  {
  }

  lemma FourDigits(a: nat, b: nat, c: nat, d: nat)
    requires a < 0x10 && b < 0x10 && c < 0x10 && d < 0x10
    ensures var u := a * 0x1000 + b * 0x100 + c * 0x10 + d;
            u / 0x1000 == a && u / 0x100 % 0x10 == b && u / 0x10 % 0x10 == c && u % 0x10 == d
  {
    var u := a * 0x1000 + b * 0x100 + c * 0x10 + d;
    LastHexDigit(a * 0x100 + b * 0x10 + c, d);
    LastHexDigit(a * 0x10 + b, c);
    LastHexDigit(a, b);
    ShiftTwice(u);
    ShiftTwice(u / 0x10);
    assert u / 0x1000 == u / 0x10 / 0x100;
  }

  /** How a text of string characters begins. */
  datatype Lead = Closing | Plain | Pair | Short | Hex | Wrong

  function LeadOf(t: JsString): Lead {
    if t == [] then Wrong
    else if t[0] == QUOTE then Closing
    else if t[0] < 0x20 then Wrong
    else if t[0] != BACKSLASH then if IsHigh(t[0]) || IsLow(t[0]) then Pair else Plain
    else if |t| >= 2 && SimpleEscape(t[1]).Some? then Short
    else if |t| >= 6 && t[1] == 0x75 && ReadHex4(t[2..]).Some? then Hex
    else Wrong
  }

  lemma {:induction false} CharsShortest(t: JsString, s: JsString)
    requires IsWellFormed(t) && ReadChars(t) == Some(Read(s, []))
    ensures |Escape(s)| + 1 <= |t|
    ensures |Escape(s)| + 1 == |t| && LowerHex(t) ==> t == Escape(s) + [QUOTE]
    decreases |t|
  {
    match LeadOf(t)
    case Closing =>
      assert t[1..] == [];
    case Plain =>
      PlainShortest(t, s);
    case Pair =>
      PairShortest(t, s);
    case Short =>
      ShortShortest(t, s);
    case Hex =>
      HexShortest(t, s);
    case Wrong =>
  }

  lemma {:induction false} PlainShortest(t: JsString, s: JsString)
    requires IsWellFormed(t) && ReadChars(t) == Some(Read(s, [])) && LeadOf(t) == Plain
    ensures |Escape(s)| + 1 <= |t|
    ensures |Escape(s)| + 1 == |t| && LowerHex(t) ==> t == Escape(s) + [QUOTE]
    decreases |t|, 0
  {
    var s' := ReadChars(t[1..]).value.value;
    WellFormedDrop(t, 1);
    CharsShortest(t[1..], s');
    EscapeGrows(t[0], s');
    hide Escape, ReadChars, IsWellFormed;
    assert t == [t[0]] + t[1..];
  }

  lemma {:induction false} PairShortest(t: JsString, s: JsString)
    requires IsWellFormed(t) && ReadChars(t) == Some(Read(s, [])) && LeadOf(t) == Pair
    ensures |Escape(s)| + 1 <= |t|
    ensures |Escape(s)| + 1 == |t| && LowerHex(t) ==> t == Escape(s) + [QUOTE]
    decreases |t|, 0
  {
    assert IsPaired(t, 0) && StartsWithPair(t);
    var s' := ReadChars(t[2..]).value.value;
    assert t[1..][0] == t[1] && t[1..][1..] == t[2..];
    assert s == t[..2] + s';
    WellFormedDrop(t, 2);
    CharsShortest(t[2..], s');
    EscapePair(t[..2], s');
    hide Escape, ReadChars, IsWellFormed;
    assert t == t[..2] + t[2..];
    assert LowerHex(t) ==> LowerHex(t[1..]);
  }

  lemma {:induction false} ShortShortest(t: JsString, s: JsString)
    requires IsWellFormed(t) && ReadChars(t) == Some(Read(s, [])) && LeadOf(t) == Short
    ensures |Escape(s)| + 1 <= |t|
    ensures |Escape(s)| + 1 == |t| && LowerHex(t) ==> t == Escape(s) + [QUOTE]
    decreases |t|, 0
  {
    hide SimpleEscape, EscapeUnit, Escape, HexValue;
    var u, s' := SimpleEscape(t[1]).value, ReadChars(t[2..]).value.value;
    ShortEscapeIsOurs(t[1], u);
    WellFormedDrop(t, 2);
    CharsShortest(t[2..], s');
    EscapeGrows(u, s');
    assert t == [BACKSLASH, t[1]] + t[2..];
  }

  lemma ShortEscapeIsOurs(c: CodeUnit, u: CodeUnit)
    requires SimpleEscape(c) == Some(u)
    ensures !IsHigh(c) && !IsLow(c) && !IsHigh(u) && |EscapeUnit(u)| <= 2
    ensures |EscapeUnit(u)| == 2 ==> EscapeUnit(u) == [BACKSLASH, c]
  {
  }

  lemma {:induction false} HexShortest(t: JsString, s: JsString)
    requires IsWellFormed(t) && ReadChars(t) == Some(Read(s, [])) && LeadOf(t) == Hex
    ensures |Escape(s)| + 1 <= |t|
    ensures |Escape(s)| + 1 == |t| && LowerHex(t) ==> t == Escape(s) + [QUOTE]
    decreases |t|, 0
  {
    var u, s' := ReadHex4(t[2..]).value, ReadChars(t[6..]).value.value;
    HexUnitsArePlain(t);
    WellFormedDrop(t, 6);
    CharsShortest(t[6..], s');
    EscapeGrows(u, s');
    hide Escape, ReadChars, IsWellFormed;
    assert |EscapeUnit(u)| <= 6 && (|EscapeUnit(u)| == 6 ==> EscapeUnit(u) == UnicodeEscape(u));
    assert t == t[..6] + t[6..];
    if LowerHex(t) {
      assert t[..6][2..] == t[2..6];
      SameHex4(t);
      LowerEscapeIsOurs(t[..6], u);
      LowerHexAfterHex(t);
    }
  }

  lemma SameHex4(t: JsString)
    requires |t| >= 6
    ensures ReadHex4(t[..6][2..]) == ReadHex4(t[2..])
  {
    assert t[..6][2..][0] == t[2..][0] && t[..6][2..][1] == t[2..][1];
    assert t[..6][2..][2] == t[2..][2] && t[..6][2..][3] == t[2..][3];
  }

  lemma HexUnitsArePlain(t: JsString)
    requires LeadOf(t) == Hex
    ensures forall k | 0 <= k < 6 :: !IsHigh(t[k]) && !IsLow(t[k]) && (k >= 2 ==> t[k] != BACKSLASH)
  {
    assert t[2..][0] == t[2] && t[2..][1] == t[3] && t[2..][2] == t[4] && t[2..][3] == t[5];
  }

  lemma LowerHexAfterHex(t: JsString)
    requires LeadOf(t) == Hex && LowerHex(t)
    ensures LowerHex(t[6..])
  {
    HexUnitsArePlain(t);
    hide ReadHex4, SimpleEscape;
    assert t[2..][1..] == t[3..] && t[3..][1..] == t[4..] && t[4..][1..] == t[5..] && t[5..][1..] == t[6..];
    assert LowerHex(t[2..]);
    assert LowerHex(t[3..]);
    assert LowerHex(t[4..]);
    assert LowerHex(t[5..]);
  }

  lemma {:induction false} EscapeLower(s: JsString, tail: JsString)
    requires LowerHex(tail)
    ensures LowerHex(Escape(s) + tail)
  {
    hide LowerHex, EscapeUnit;
    if s == [] {
      assert Escape(s) + tail == tail;
    } else if StartsWithPair(s) {
      EscapeLower(s[2..], tail);
      UnitsLower(s[..2], Escape(s[2..]) + tail);
      assert Escape(s) + tail == s[..2] + (Escape(s[2..]) + tail);
    } else {
      EscapeLower(s[1..], tail);
      UnitLower(s[0], Escape(s[1..]) + tail);
      assert Escape(s) + tail == EscapeUnit(s[0]) + (Escape(s[1..]) + tail);
    }
  }

  lemma UnitsLower(p: JsString, tail: JsString)
    requires |p| == 2 && StartsWithPair(p) && LowerHex(tail)
    ensures LowerHex(p + tail)
  {
    assert (p + tail)[1..][1..] == tail;
    assert (p + tail)[1..][0] == p[1];
  }

  lemma UnitLower(u: CodeUnit, tail: JsString)
    requires LowerHex(tail)
    ensures LowerHex(EscapeUnit(u) + tail)
  {
    var e := EscapeUnit(u);
    var t := e + tail;
    if |e| == 1 {
      assert t[1..] == tail;
    } else if |e| == 2 {
      assert t[2..] == tail;
    } else {
      assert t[2..][1..] == t[3..] && t[3..][1..] == t[4..] && t[4..][1..] == t[5..] && t[5..][1..] == tail;
      assert LowerHex(t[5..]);
      assert LowerHex(t[4..]);
      assert LowerHex(t[3..]);
      assert LowerHex(t[2..]);
    }
  }

  lemma QuoteWrites(s: JsString)
    ensures Writes(Quote(s), s) && LowerHex(Quote(s))
  {
    QuoteWellFormed(s);
    ReadQuoted(s, []);
    assert Quote(s) + [] == Quote(s);
    EscapeLower(s, [QUOTE]);
    assert Quote(s)[1..] == Escape(s) + [QUOTE];
  }

  /** The quoted string is the shortest text that reads as the string, and the only such one in lower case. */
  lemma {:induction false} QuoteExactly(s: JsString, t: JsString)
    ensures t == Quote(s) <==> IsShortest(t, s)
  {
    QuoteWrites(s);
    forall u | Writes(u, s)
      ensures |Quote(s)| <= |u| && (|u| == |Quote(s)| && LowerHex(u) ==> u == Quote(s))
    {
      WellFormedDrop(u, 1);
      CharsShortest(u[1..], s);
      hide ReadChars, Escape, IsWellFormed;
      assert u == [QUOTE] + u[1..];
      assert LowerHex(u) && |u| >= 2 ==> LowerHex(u[1..]);
    }
  }

  /** Without quotes, backslashes, control characters and lone surrogates nothing is escaped. */
  lemma {:induction false} PlainStaysPlain(s: JsString)
    requires IsWellFormed(s) && forall i | 0 <= i < |s| :: s[i] >= 0x20 && s[i] != 0x22 && s[i] != 0x5C
    ensures Quote(s) == [0x22] + s + [0x22]
  {
    PlainEscape(s);
  }

  lemma {:induction false} PlainEscape(s: JsString)
    requires IsWellFormed(s) && forall i | 0 <= i < |s| :: s[i] >= 0x20 && s[i] != 0x22 && s[i] != 0x5C
    ensures Escape(s) == s
  {
    if s != [] {
      WellFormedTail(s);
      var n := if StartsWithPair(s) then 2 else 1;
      PlainEscape(s[n..]);
      assert s == s[..n] + s[n..];
    }
  }

  // ---------- the other texts ----------

  function Unit(c: char): CodeUnit {
    if c < '\U{80}' then c as int else 0
  }

  /** The units of an ASCII text. */
  function Chars(s: string): JsString {
    seq(|s|, i requires 0 <= i < |s| => Unit(s[i]))
  }

  /** The texts of the literals, of the empty array and object, and of a number. */
  lemma LiteralTexts(token: JsString)
    ensures Print(JNull) == Chars("null")
    ensures Print(JBool(true)) == Chars("true") && Print(JBool(false)) == Chars("false")
    ensures Print(JArray([])) == Chars("[]") && Print(JObject([])) == Chars("{}") && Print(JNumber(token)) == token
  {
  }

  /** An array's text grows by a comma and the text of one more item. */
  lemma {:induction false} ArrayText(xs: seq<Json>, y: Json) returns (front: JsString)
    ensures xs == [] ==> Print(JArray(xs + [y])) == Chars("[") + Print(y) + Chars("]")
    ensures xs != [] ==>
      && Print(JArray(xs)) == front + Chars("]")
      && Print(JArray(xs + [y])) == front + Chars(",") + Print(y) + Chars("]")
  {
    front := [OPEN_ARRAY] + PrintItems(xs);
    if xs == [] {
      assert xs + [y] == [y];
    } else {
      ItemsGrow(xs, y);
      assert Chars("]") == [CLOSE_ARRAY] && Chars(",") == [COMMA];
    }
  }

  lemma {:induction false} ItemsGrow(xs: seq<Json>, y: Json)
    requires xs != []
    ensures PrintItems(xs + [y]) == PrintItems(xs) + [COMMA] + Print(y)
  {
    hide Print;
    var all := xs + [y];
    if |xs| == 1 {
      assert all[1..] == [y];
    } else {
      ItemsGrow(xs[1..], y);
      assert all[1..] == xs[1..] + [y];
    }
  }

  /** An object's text grows by a comma and one more key, colon and value. */
  lemma {:induction false} ObjectText(ms: seq<Member<Json>>, m: Member<Json>) returns (front: JsString)
    ensures ms == [] ==>
      Print(JObject(ms + [m])) == Chars("{") + Quote(m.key) + Chars(":") + Print(m.value) + Chars("}")
    ensures ms != [] ==>
      && Print(JObject(ms)) == front + Chars("}")
      && Print(JObject(ms + [m])) == front + Chars(",") + Quote(m.key) + Chars(":") + Print(m.value) + Chars("}")
  {
    hide Quote;
    front := [OPEN_OBJECT] + PrintMembers(ms);
    if ms == [] {
      assert ms + [m] == [m];
    } else {
      MembersGrow(ms, m);
      assert Chars("}") == [CLOSE_OBJECT] && Chars(",") == [COMMA] && Chars(":") == [COLON];
    }
  }

  lemma {:induction false} MembersGrow(ms: seq<Member<Json>>, m: Member<Json>)
    requires ms != []
    ensures PrintMembers(ms + [m]) == PrintMembers(ms) + [COMMA] + (Quote(m.key) + [COLON] + Print(m.value))
  {
    hide Quote, Print;
    var all := ms + [m];
    if |ms| == 1 {
      assert all[1..] == [m];
    } else {
      MembersGrow(ms[1..], m);
      assert all[1..] == ms[1..] + [m];
    }
  }

  // ---------- what the reader takes for numbers and escapes ----------

  ghost predicate AreDigits(d: JsString) {
    d != [] && forall i | 0 <= i < |d| :: 0x30 <= d[i] <= 0x39
  }

  /** An optional minus, digits without a leading zero, and optionally a point and an exponent, both with digits. */
  ghost predicate SpellsNumber(t: JsString, minus: JsString, whole: JsString, fraction: JsString, exponent: JsString) {
    && t == minus + whole + fraction + exponent
    && minus in {[], [0x2D]}
    && AreDigits(whole) && (whole[0] == 0x30 ==> |whole| == 1)
    && (fraction == [] || (fraction[0] == 0x2E && AreDigits(fraction[1..])))
    && IsExponentText(exponent)
  }

  ghost predicate IsExponentText(e: JsString) {
    || e == []
    || (|e| > 1 && e[0] in {0x45, 0x65} && AreDigits(e[if e[1] in {0x2B, 0x2D} then 2 else 1..]))
  }

  lemma {:induction false} DigitRunMeaning(t: JsString)
    ensures var n := DigitRun(t); (forall i | 0 <= i < n :: IsDigit(t[i])) && (n < |t| ==> !IsDigit(t[n]))
  {
    if t != [] && IsDigit(t[0]) {
      DigitRunMeaning(t[1..]);
    }
  }

  lemma {:induction false} DigitRunOf(d: JsString, rest: JsString)
    requires (forall i | 0 <= i < |d| :: IsDigit(d[i])) && (rest != [] ==> !IsDigit(rest[0]))
    ensures DigitRun(d + rest) == |d|
  {
    if d == [] {
      assert d + rest == rest;
    } else {
      assert (d + rest)[1..] == d[1..] + rest;
      DigitRunOf(d[1..], rest);
    }
  }

  lemma DigitsExactly(d: JsString)
    ensures IsDigits(d) <==> AreDigits(d)
  {
    DigitRunMeaning(d);
    if AreDigits(d) {
      DigitRunOf(d, []);
      assert d + [] == d;
    }
  }

  lemma ExponentExactly(e: JsString)
    ensures IsExponent(e) <==> IsExponentText(e)
  {
    if |e| > 1 {
      DigitsExactly(e[1..]);
      DigitsExactly(e[2..]);
    }
    hide IsDigits;
    assert !AreDigits([]);
  }

  lemma {:induction false} FractionSplits(t: JsString) returns (fraction: JsString, exponent: JsString)
    requires IsFraction(t)
    ensures t == fraction + exponent && IsExponentText(exponent)
    ensures fraction == [] || (fraction[0] == 0x2E && AreDigits(fraction[1..]))
  {
    if t != [] && t[0] == 0x2E {
      var n := DigitRun(t[1..]);
      DigitRunMeaning(t[1..]);
      fraction, exponent := t[..1 + n], t[1 + n..];
      assert fraction[1..] == t[1..][..n];
    } else {
      fraction, exponent := [], t;
    }
    ExponentExactly(exponent);
  }

  lemma {:induction false} FractionJoins(fraction: JsString, exponent: JsString)
    requires fraction == [] || (fraction[0] == 0x2E && AreDigits(fraction[1..]))
    requires IsExponentText(exponent)
    ensures IsFraction(fraction + exponent)
    ensures fraction + exponent != [] ==> !IsDigit((fraction + exponent)[0])
  {
    var t := fraction + exponent;
    ExponentExactly(exponent);
    if fraction == [] {
      assert t == exponent;
    } else {
      DigitRunOf(fraction[1..], exponent);
      assert t[1..] == fraction[1..] + exponent;
      assert t[1 + DigitRun(t[1..])..] == exponent;
    }
  }

  /** The reader's numbers are those of the grammar, part by part. */
  lemma {:induction false} NumberTokenExactly(t: JsString)
    ensures IsNumberToken(t)
       <==> exists minus, whole, fraction, exponent :: SpellsNumber(t, minus, whole, fraction, exponent)
  {
    hide IsNumberToken, SpellsNumber;
    if IsNumberToken(t) {
      var minus, whole, fraction, exponent := NumberSplits(t);
    }
    if minus, whole, fraction, exponent :| SpellsNumber(t, minus, whole, fraction, exponent) {
      NumberJoins(t, minus, whole, fraction, exponent);
    }
  }

  lemma {:induction false} NumberSplits(t: JsString)
    returns (minus: JsString, whole: JsString, fraction: JsString, exponent: JsString)
    requires IsNumberToken(t)
    ensures SpellsNumber(t, minus, whole, fraction, exponent)
  {
    hide IsUnsigned, IsExponentText, IsNumberUnit, AreDigits;
    minus := if t[0] == 0x2D then t[..1] else [];
    var u := t[|minus|..];
    whole, fraction, exponent := UnsignedSplits(u);
    assert t == minus + u && (minus == [] || minus == [0x2D]);
    Reassociate3(minus, whole, fraction, exponent);
  }

  lemma Reassociate3(a: JsString, b: JsString, c: JsString, d: JsString)
    ensures a + b + c + d == a + (b + (c + d))
  {
  }

  lemma {:induction false} NumberJoins(
    t: JsString, minus: JsString, whole: JsString, fraction: JsString, exponent: JsString)
    requires SpellsNumber(t, minus, whole, fraction, exponent)
    ensures IsNumberToken(t)
  {
    UnitsOfNumber(minus, whole, fraction, exponent);
    assert IsDigit(whole[0]);
    hide IsUnsigned, IsExponentText, IsNumberUnit, AreDigits;
    UnsignedJoins(whole, fraction, exponent);
    var u := whole + (fraction + exponent);
    Reassociate3(minus, whole, fraction, exponent);
    assert t == minus + u && t[|minus|..] == u && u[0] == whole[0];
  }

  lemma {:induction false} UnsignedSplits(u: JsString)
    returns (whole: JsString, fraction: JsString, exponent: JsString)
    requires IsUnsigned(u)
    ensures u == whole + (fraction + exponent)
    ensures AreDigits(whole) && (whole[0] == 0x30 ==> |whole| == 1) && IsExponentText(exponent)
    ensures fraction == [] || (fraction[0] == 0x2E && AreDigits(fraction[1..]))
  {
    hide IsFraction, IsExponentText;
    var n := if u[0] == 0x30 then 1 else DigitRun(u);
    DigitRunMeaning(u);
    whole := u[..n];
    fraction, exponent := FractionSplits(u[n..]);
  }

  lemma {:induction false} UnsignedJoins(whole: JsString, fraction: JsString, exponent: JsString)
    requires AreDigits(whole) && (whole[0] == 0x30 ==> |whole| == 1) && IsExponentText(exponent)
    requires fraction == [] || (fraction[0] == 0x2E && AreDigits(fraction[1..]))
    ensures IsUnsigned(whole + (fraction + exponent))
  {
    FractionJoins(fraction, exponent);
    hide IsFraction, IsExponentText;
    var rest := fraction + exponent;
    DigitRunOf(whole, rest);
    var u := whole + rest;
    assert u[0] == whole[0] && u[|whole|..] == rest;
  }

  lemma UnitsOfNumber(minus: JsString, whole: JsString, fraction: JsString, exponent: JsString)
    requires SpellsNumber(minus + whole + fraction + exponent, minus, whole, fraction, exponent)
    ensures forall u | u in minus + whole + fraction + exponent :: IsNumberUnit(u)
  {
    forall u | u in fraction ensures IsNumberUnit(u) {
      var i :| 0 <= i < |fraction| && fraction[i] == u;
      assert i > 0 ==> fraction[1..][i - 1] == u;
    }
    forall u | u in exponent ensures IsNumberUnit(u) {
      var i :| 0 <= i < |exponent| && exponent[i] == u;
      assert i > 0 ==> exponent[1..][i - 1] == u;
      assert i > 1 ==> exponent[2..][i - 2] == u;
    }
  }

  /** The digits and short escapes that the reader knows. */
  lemma KnownEscapes(u: CodeUnit, n: int)
    ensures HexValue(u) == Some(n)
       <==> 0 <= n < 16 && (Chars("0123456789abcdef")[n] == u || Chars("0123456789ABCDEF")[n] == u)
    ensures forall c :: SimpleEscape(u) == Some(c) <==> (u, c) in {
              (0x22, 0x22), (0x5C, 0x5C), (0x2F, 0x2F), (0x62, 8), (0x66, 12), (0x6E, 10), (0x72, 13), (0x74, 9)}
  {
  }
}
