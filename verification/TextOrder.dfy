/**
  JavaScript strings as UTF-16 code units, and the orders the serialisers sort by:
  by code point, by code unit, and the order in which an object lists its own keys.
 */
module TextOrder {
  type CodeUnit = u: int | 0 <= u < 0x1_0000

  type JsString = seq<CodeUnit>

  predicate IsHigh(u: int) {
    0xD800 <= u < 0xDC00
  }

  predicate IsLow(u: int) {
    0xDC00 <= u < 0xE000
  }

  predicate StartsWithPair(s: JsString) {
    |s| >= 2 && IsHigh(s[0]) && IsLow(s[1])
  }

  /** Iterating a string: a surrogate pair is one code point, a lone surrogate stands for itself. */
  function CodePoints(s: JsString): seq<int> {
    if s == [] then []
    else if StartsWithPair(s) then
      [0x1_0000 + (s[0] - 0xD800) * 0x400 + (s[1] - 0xDC00)] + CodePoints(s[2..])
    else [s[0] as int] + CodePoints(s[1..])
  }

  function EncodePoint(p: int): JsString
    requires 0 <= p < 0x11_0000
  {
    if p < 0x1_0000 then [p]
    else [0xD800 + (p - 0x1_0000) / 0x400, 0xDC00 + (p - 0x1_0000) % 0x400]
  }

  function Encode(ps: seq<int>): JsString
    requires forall i :: 0 <= i < |ps| ==> 0 <= ps[i] < 0x11_0000
  {
    if ps == [] then [] else EncodePoint(ps[0]) + Encode(ps[1..])
  }

  lemma {:induction false} EncodeCodePoints(s: JsString)
    ensures forall i :: 0 <= i < |CodePoints(s)| ==> 0 <= CodePoints(s)[i] < 0x11_0000
    ensures Encode(CodePoints(s)) == s
  {
    if s == [] {
    } else if StartsWithPair(s) {
      EncodeCodePoints(s[2..]);
      var p := CodePoints(s)[0];
      assert CodePoints(s)[1..] == CodePoints(s[2..]);
      assert EncodePoint(p) == s[..2];
      assert s == s[..2] + s[2..];
    } else {
      EncodeCodePoints(s[1..]);
      assert CodePoints(s)[1..] == CodePoints(s[1..]);
      assert EncodePoint(s[0]) == [s[0]];
      assert s == [s[0]] + s[1..];
    }
  }

  // ---------- lexicographic comparison ----------

  /** The sign orders the two sequences; zero exactly when they are equal. */
  function Difference(a: seq<int>, b: seq<int>): int {
    if a == [] || b == [] then |a| - |b|
    else if a[0] != b[0] then a[0] - b[0]
    else Difference(a[1..], b[1..])
  }

  lemma {:induction false} DifferenceAntisymmetric(a: seq<int>, b: seq<int>)
    ensures Difference(a, b) == -Difference(b, a)
  {
    if a != [] && b != [] && a[0] == b[0] {
      DifferenceAntisymmetric(a[1..], b[1..]);
    }
  }

  lemma {:induction false} DifferenceZero(a: seq<int>, b: seq<int>)
    ensures Difference(a, b) == 0 <==> a == b
  {
    if a != [] && b != [] && a[0] == b[0] {
      DifferenceZero(a[1..], b[1..]);
      assert a == [a[0]] + a[1..] && b == [b[0]] + b[1..];
    }
  }

  lemma {:induction false} DifferenceTransitive(a: seq<int>, b: seq<int>, c: seq<int>)
    requires Difference(a, b) < 0 && Difference(b, c) < 0
    ensures Difference(a, c) < 0
  {
    if a != [] && b != [] && c != [] && a[0] == b[0] == c[0] {
      DifferenceTransitive(a[1..], b[1..], c[1..]);
    }
  }

  /** The loop of compareCodePointOrder. */
  method CompareCodePointOrder(left: JsString, right: JsString) returns (r: int)
    ensures r == Difference(CodePoints(left), CodePoints(right))
  {
    var leftPoints, rightPoints := CodePoints(left), CodePoints(right);
    var length := if |leftPoints| < |rightPoints| then |leftPoints| else |rightPoints|;
    var index := 0;
    while index < length
      invariant 0 <= index <= length
      invariant Difference(leftPoints, rightPoints) == Difference(leftPoints[index..], rightPoints[index..])
    {
      var difference := leftPoints[index] - rightPoints[index];
      if difference != 0 {
        return difference;
      }
      index := index + 1;
    }
    return |leftPoints| - |rightPoints|;
  }

  // ---------- the key orders ----------

  /**
    ByCodePoint is compareCodePointOrder, ByCodeUnit is the built-in `<` on
    strings. ByOwnKey is the order in which an object built from unit-sorted
    entries lists its keys: array indices first, by value.
   */
  datatype Order = ByCodePoint | ByCodeUnit | ByOwnKey

  predicate IsDigit(u: int) {
    0x30 <= u <= 0x39
  }

  function DecimalValue(s: JsString): int {
    if s == [] then 0 else DecimalValue(s[..|s| - 1]) * 10 + (s[|s| - 1] as int - 0x30)
  }

  /** A canonical array index: no leading zero, below 2^32 - 1. */
  predicate IsIndex(s: JsString) {
    && s != [] && (forall i :: 0 <= i < |s| ==> IsDigit(s[i]))
    && (s[0] == 0x30 ==> |s| == 1)
    && DecimalValue(s) < 0xFFFF_FFFF
  }

  function Rank(ord: Order, s: JsString): seq<int> {
    match ord
    case ByCodePoint => CodePoints(s)
    case ByCodeUnit => s
    case ByOwnKey => if IsIndex(s) then [0, DecimalValue(s)] else [1] + s
  }

  predicate Less(ord: Order, a: JsString, b: JsString) {
    Difference(Rank(ord, a), Rank(ord, b)) < 0
  }

  lemma {:induction false} DecimalValueSize(s: JsString)
    requires s != [] && forall i :: 0 <= i < |s| ==> IsDigit(s[i])
    ensures 0 <= DecimalValue(s)
    ensures |s| > 1 && s[0] != 0x30 ==> DecimalValue(s) >= 10
    ensures |s| == 1 ==> DecimalValue(s) == s[0] as int - 0x30
  {
    var front := s[..|s| - 1];
    if front != [] {
      DecimalValueSize(front);
    }
  }

  /** Two canonical indices of equal value are one key. */
  lemma {:induction false} IndexValueInjective(a: JsString, b: JsString)
    requires a != [] && (forall i :: 0 <= i < |a| ==> IsDigit(a[i]))
    requires b != [] && (forall i :: 0 <= i < |b| ==> IsDigit(b[i]))
    requires (a[0] == 0x30 ==> |a| == 1) && (b[0] == 0x30 ==> |b| == 1)
    requires DecimalValue(a) == DecimalValue(b)
    ensures a == b
  {
    DecimalValueSize(a);
    DecimalValueSize(b);
    var af, bf := a[..|a| - 1], b[..|b| - 1];
    assert a == af + [a[|a| - 1]] && b == bf + [b[|b| - 1]];
    if |a| > 1 && |b| > 1 {
      DecimalValueSize(af);
      DecimalValueSize(bf);
      assert DecimalValue(af) == DecimalValue(bf) && a[|a| - 1] == b[|b| - 1];
      IndexValueInjective(af, bf);
    }
  }

  /** The decimal text of a number. */
  function DecimalText(n: nat): JsString {
    if n < 10 then [0x30 + n] else DecimalText(n / 10) + [0x30 + n % 10]
  }

  lemma {:induction false} DecimalTextMeaning(n: nat)
    ensures var s := DecimalText(n);
      && s != [] && (forall i :: 0 <= i < |s| ==> IsDigit(s[i]))
      && (s[0] == 0x30 ==> n == 0 && |s| == 1) && DecimalValue(s) == n
  {
    if n >= 10 {
      var s := DecimalText(n);
      DecimalTextMeaning(n / 10);
      assert s[..|s| - 1] == DecimalText(n / 10) && s[|s| - 1] == 0x30 + n % 10;
    } else {
      assert DecimalText(n)[..0] == [];
    }
  }

  /** An array index is the decimal text of a number below 2^32 - 1; keys that are one are ranked by that number. */
  lemma {:induction false} IndexExactly(s: JsString, n: nat)
    ensures IsIndex(s) && Rank(ByOwnKey, s) == [0, n] <==> n < 4_294_967_295 && s == DecimalText(n)
  {
    DecimalTextMeaning(n);
    if IsIndex(s) && DecimalValue(s) == n {
      IndexValueInjective(s, DecimalText(n));
    }
    assert IsIndex(s) ==> Rank(ByOwnKey, s)[1] == DecimalValue(s);
  }

  lemma {:induction false} RankInjective(ord: Order, a: JsString, b: JsString)
    requires Rank(ord, a) == Rank(ord, b)
    ensures a == b
  {
    match ord
    case ByCodePoint =>
      EncodeCodePoints(a);
      EncodeCodePoints(b);
    case ByCodeUnit =>
    case ByOwnKey =>
      if IsIndex(a) && IsIndex(b) {
        assert Rank(ord, a)[1] == Rank(ord, b)[1];
        IndexValueInjective(a, b);
      } else {
        assert Rank(ord, a)[0] == Rank(ord, b)[0];
        assert a == Rank(ord, a)[1..] == Rank(ord, b)[1..] == b;
      }
  }

  /** Each order is a strict total order: exactly one of less, equal, greater, and transitive. */
  lemma {:induction false} StrictTotalOrder(ord: Order, a: JsString, b: JsString, c: JsString)
    ensures !Less(ord, a, a)
    ensures a != b ==> Less(ord, a, b) != Less(ord, b, a)
    ensures Less(ord, a, b) && Less(ord, b, c) ==> Less(ord, a, c)
    ensures Difference(Rank(ord, a), Rank(ord, b)) == 0 <==> a == b
  {
    var ra, rb, rc := Rank(ord, a), Rank(ord, b), Rank(ord, c);
    DifferenceZero(ra, ra);
    DifferenceZero(ra, rb);
    DifferenceAntisymmetric(ra, rb);
    if ra == rb {
      RankInjective(ord, a, b);
    }
    if Less(ord, a, b) && Less(ord, b, c) {
      DifferenceTransitive(ra, rb, rc);
    }
  }

  // ---------- where the two string orders differ ----------

  /** The unit at this position is half of a surrogate pair of its string. */
  predicate IsPaired(s: JsString, k: nat)
    requires k < |s|
  {
    || (IsHigh(s[k]) && k + 1 < |s| && IsLow(s[k + 1]))
    || (k > 0 && IsHigh(s[k - 1]) && IsLow(s[k]))
  }

  /** How many leading units the two strings share. */
  function Common(a: JsString, b: JsString): (n: nat)
    ensures n <= |a| && n <= |b|
    ensures n < |a| && n < |b| ==> a[n] != b[n]
  {
    if a == [] || b == [] || a[0] != b[0] then 0 else 1 + Common(a[1..], b[1..])
  }

  /** At the first differing unit exactly one of the two is half of a pair, and that one is the smaller unit. */
  predicate PairHidden(a: JsString, b: JsString) {
    var k := Common(a, b);
    && k < |a| && k < |b|
    && IsPaired(a, k) != IsPaired(b, k)
    && if IsPaired(a, k) then a[k] < b[k] else b[k] < a[k]
  }

  /** Code-point order and code-unit order disagree on two strings exactly when that happens. */
  lemma {:induction false} OrdersDifferExactly(a: JsString, b: JsString)
    ensures Less(ByCodePoint, a, b) != Less(ByCodeUnit, a, b) <==> PairHidden(a, b)
  {
    if a == [] || b == [] {
    } else if a[0] != b[0] {
      FirstUnitDecides(a, b);
    } else if StartsWithPair(a) && StartsWithPair(b) && a[1] == b[1] {
      OrdersDifferExactly(a[2..], b[2..]);
      SharedPair(a, b);
    } else if !StartsWithPair(a) && !StartsWithPair(b) {
      OrdersDifferExactly(a[1..], b[1..]);
      Strip(a, b, 1);
      assert CodePoints(a)[1..] == CodePoints(a[1..]) && CodePoints(b)[1..] == CodePoints(b[1..]);
    } else {
      SecondUnitDecides(a, b);
    }
  }

  lemma SharedPair(a: JsString, b: JsString)
    requires StartsWithPair(a) && StartsWithPair(b) && a[0] == b[0] && a[1] == b[1]
    ensures forall ord | ord == ByCodePoint || ord == ByCodeUnit :: Less(ord, a, b) == Less(ord, a[2..], b[2..])
    ensures PairHidden(a, b) <==> PairHidden(a[2..], b[2..])
  {
    Strip(a, b, 2);
    assert CodePoints(a)[1..] == CodePoints(a[2..]) && CodePoints(b)[1..] == CodePoints(b[2..]);
    assert a[1..][1..] == a[2..] && b[1..][1..] == b[2..];
    assert Difference(a, b) == Difference(a[1..], b[1..]) == Difference(a[2..], b[2..]);
  }

  /** Shared leading units that do not cut a pair change neither where the strings differ nor what is paired there. */
  lemma Strip(a: JsString, b: JsString, n: nat)
    requires n <= |a| && n <= |b| && a[..n] == b[..n] && (n == 1 || n == 2)
    requires if n == 2 then StartsWithPair(a) else !StartsWithPair(a) && !StartsWithPair(b)
    ensures PairHidden(a, b) <==> PairHidden(a[n..], b[n..])
  {
    assert a[0] == a[..n][0] == b[..n][0] == b[0];
    if n == 2 {
      assert a[1] == a[..n][1] == b[..n][1] == b[1];
      assert a[1..][1..] == a[2..] && b[1..][1..] == b[2..];
    }
    assert Common(a, b) == n + Common(a[n..], b[n..]);
    var k := Common(a[n..], b[n..]);
    if n + k < |a| && n + k < |b| {
      assert a[n..][k] == a[n + k] && b[n..][k] == b[n + k];
      assert IsPaired(a, n + k) == IsPaired(a[n..], k) && IsPaired(b, n + k) == IsPaired(b[n..], k);
    }
  }

  lemma FirstUnitDecides(a: JsString, b: JsString)
    requires a != [] && b != [] && a[0] != b[0]
    ensures Less(ByCodePoint, a, b) != Less(ByCodeUnit, a, b) <==> PairHidden(a, b)
  {
    assert Common(a, b) == 0;
    assert IsPaired(a, 0) == StartsWithPair(a) && IsPaired(b, 0) == StartsWithPair(b);
    if StartsWithPair(a) && StartsWithPair(b) {
      var p, q := CodePoints(a)[0], CodePoints(b)[0];
      assert p - q == (a[0] as int - b[0] as int) * 0x400 + (a[1] as int - b[1] as int);
    }
  }

  /** The first units are equal high surrogates, and not both strings go on with the same low one. */
  lemma SecondUnitDecides(a: JsString, b: JsString)
    requires a != [] && b != [] && a[0] == b[0] && (StartsWithPair(a) || StartsWithPair(b))
    requires StartsWithPair(a) && StartsWithPair(b) ==> a[1] != b[1]
    ensures Less(ByCodePoint, a, b) != Less(ByCodeUnit, a, b) <==> PairHidden(a, b)
  {
    assert Common(a, b) == 1 + Common(a[1..], b[1..]);
    assert Common(a[1..], b[1..]) == 0;
    assert Difference(a, b) == Difference(a[1..], b[1..]);
    assert |a| > 1 ==> a[1..][0] == a[1];
    assert |b| > 1 ==> b[1..][0] == b[1];
    assert |a| > 1 && IsHigh(a[1]) ==> !IsLow(a[1]);
  }

  /** On strings without surrogates, code-point order is the built-in order. */
  lemma {:induction false} OrdersAgreeWithoutSurrogates(a: JsString, b: JsString)
    requires forall u :: u in a || u in b ==> !IsHigh(u) && !IsLow(u)
    ensures Less(ByCodePoint, a, b) == Less(ByCodeUnit, a, b)
  {
    OrdersDifferExactly(a, b);
    var k := Common(a, b);
    if k < |a| && k < |b| {
      assert a[k] in a && b[k] in b;
    }
  }

  /** Every astral character sorts before every unit above the surrogates in one order, and after it in the other. */
  lemma {:induction false} OrdersDisagreeOnSurrogates(high: CodeUnit, low: CodeUnit, unit: CodeUnit)
    requires IsHigh(high) && IsLow(low) && unit >= 0xE000
    ensures Less(ByCodePoint, [unit], [high, low]) && Less(ByCodeUnit, [high, low], [unit])
  {
    OrdersDifferExactly([unit], [high, low]);
    assert Common([unit], [high, low]) == 0;
    assert Difference([unit], [high, low]) == unit as int - high as int;
    StrictTotalOrder(ByCodeUnit, [unit], [high, low], [unit]);
  }
}
