/**
  The bytes of a text: UTF-8 as section 3 of RFC 3629 defines it, and the encoding
  of JavaScript strings, in which a lone surrogate becomes the replacement character.
 */
module Utf8 {
  import opened Outcomes
  import opened TextOrder

  type Byte = b: int | 0 <= b < 0x100

  const REPLACEMENT := 0xFFFD

  /** A code point that UTF-8 can write: any but the surrogates. */
  predicate IsScalar(p: int) {
    0 <= p < 0xD800 || 0xE000 <= p < 0x11_0000
  }

  predicate AllScalars(ps: seq<int>) {
    forall i | 0 <= i < |ps| :: IsScalar(ps[i])
  }

  lemma ScalarExactly(p: int)
    ensures IsScalar(p) <==> 0 <= p <= 0x10_FFFF && !IsHigh(p) && !IsLow(p)
  {
  }

  function EncodeScalar(p: int): (r: seq<Byte>)
    requires IsScalar(p)
    ensures r != []
  {
    if p < 0x80 then [p]
    else if p < 0x800 then [0xC0 + p / 0x40, 0x80 + p % 0x40]
    else if p < 0x1_0000 then [0xE0 + p / 0x1000, 0x80 + p / 0x40 % 0x40, 0x80 + p % 0x40]
    else [0xF0 + p / 0x4_0000, 0x80 + p / 0x1000 % 0x40, 0x80 + p / 0x40 % 0x40, 0x80 + p % 0x40]
  }

  function EncodeScalars(ps: seq<int>): seq<Byte>
    requires AllScalars(ps)
  {
    if ps == [] then [] else EncodeScalar(ps[0]) + EncodeScalars(ps[1..])
  }

  predicate IsTail(b: Byte) {
    0x80 <= b < 0xC0
  }

  /** How many bytes a sequence takes by its first one; zero: none starts so. */
  function SequenceLength(lead: Byte): (n: nat)
    ensures n <= 4
  {
    if lead < 0x80 then 1
    else if 0xC0 <= lead < 0xE0 then 2
    else if 0xE0 <= lead < 0xF0 then 3
    else if 0xF0 <= lead < 0xF8 then 4
    else 0
  }

  /** The least code point that needs so many bytes. */
  function Least(n: nat): int {
    if n <= 1 then 0 else if n == 2 then 0x80 else if n == 3 then 0x800 else 0x1_0000
  }

  function LeadBits(n: nat, lead: Byte): int {
    if n <= 1 then lead else if n == 2 then lead - 0xC0 else if n == 3 then lead - 0xE0 else lead - 0xF0
  }

  /** The six bits a continuation byte carries. */
  function Low(b: Byte): int {
    b as int - 0x80
  }

  /** Six bits from each continuation byte. */
  function Accumulate(high: int, tail: seq<Byte>): int
    decreases |tail|
  {
    if tail == [] then high else Accumulate(high * 0x40 + Low(tail[0]), tail[1..])
  }

  /** The code point that a whole sequence writes, if it is well-formed: no stray byte, no longer than needed. */
  function DecodeSequence(s: seq<Byte>): Option<int> {
    if s == [] || |s| != SequenceLength(s[0]) || exists i | 1 <= i < |s| :: !IsTail(s[i]) then None
    else
      var p := Accumulate(LeadBits(|s|, s[0]), s[1..]);
      if IsScalar(p) && p >= Least(|s|) then Some(p) else None
  }

  /** The strict decoder: None on any ill-formed sequence. */
  function DecodeScalars(bytes: seq<Byte>): Option<seq<int>> {
    if bytes == [] then Some([])
    else
      var n := SequenceLength(bytes[0]);
      if n == 0 || n > |bytes| then None
      else
        var first, others := DecodeSequence(bytes[..n]), DecodeScalars(bytes[n..]);
        if first.None? || others.None? then None else Some([first.value] + others.value)
  }

  // ---------- scalar sequences and their bytes ----------

  lemma Accumulated(high: int, tail: seq<Byte>)
    requires |tail| <= 3
    ensures |tail| == 0 ==> Accumulate(high, tail) == high
    ensures |tail| == 1 ==> Accumulate(high, tail) == high * 0x40 + Low(tail[0])
    ensures |tail| == 2 ==> Accumulate(high, tail) == high * 0x1000 + Low(tail[0]) * 0x40 + Low(tail[1])
    ensures |tail| == 3 ==>
      Accumulate(high, tail) == high * 0x4_0000 + Low(tail[0]) * 0x1000 + Low(tail[1]) * 0x40 + Low(tail[2])
    decreases |tail|
  {
    if tail != [] {
      Accumulated(high * 0x40 + Low(tail[0]), tail[1..]);
    }
  }

  lemma SixBitDigits(p: nat)
    ensures p == p / 0x40 * 0x40 + p % 0x40
    ensures p / 0x1000 == p / 0x40 / 0x40 && p / 0x4_0000 == p / 0x1000 / 0x40
  {
  }

  lemma {:induction false} EncodedSequence(p: int)
    requires IsScalar(p)
    ensures |EncodeScalar(p)| == SequenceLength(EncodeScalar(p)[0])
    ensures DecodeSequence(EncodeScalar(p)) == Some(p)
  {
    hide Accumulate;
    var s := EncodeScalar(p);
    SixBitDigits(p);
    SixBitDigits(p / 0x40);
    SixBitDigits(p / 0x1000);
    Accumulated(LeadBits(|s|, s[0]), s[1..]);
  }

  lemma {:induction false} DecodedSequence(s: seq<Byte>)
    requires DecodeSequence(s).Some?
    ensures IsScalar(DecodeSequence(s).value) && EncodeScalar(DecodeSequence(s).value) == s
  {
    hide Accumulate;
    var n, lead, p := |s|, LeadBits(|s|, s[0]), DecodeSequence(s).value;
    Accumulated(lead, s[1..]);
    assert forall i | 1 <= i < n :: s[1..][i - 1] == s[i] && IsTail(s[i]);
    SixBitDigits(p);
    if n >= 2 {
      var two := lead * 0x40 + Low(s[1]);
      LastDigit(lead, Low(s[1]));
      if n >= 3 {
        var three := two * 0x40 + Low(s[2]);
        LastDigit(two, Low(s[2]));
        if n >= 4 {
          LastDigit(three, Low(s[3]));
        }
      }
    }
  }

  lemma LastDigit(high: nat, low: int)
    requires 0 <= low < 0x40
    ensures (high * 0x40 + low) / 0x40 == high && (high * 0x40 + low) % 0x40 == low
  {
  }

  /** The decoder accepts exactly the bytes of scalar sequences, and gives the sequence back. */
  lemma {:induction false} DecodesExactly(bytes: seq<Byte>, ps: seq<int>)
    ensures DecodeScalars(bytes) == Some(ps) <==> AllScalars(ps) && EncodeScalars(ps) == bytes
  {
    hide EncodeScalar, DecodeSequence, IsScalar, SequenceLength;
    if DecodeScalars(bytes) == Some(ps) && bytes != [] {
      var n := SequenceLength(bytes[0]);
      DecodedSequence(bytes[..n]);
      DecodesExactly(bytes[n..], ps[1..]);
      assert bytes == bytes[..n] + bytes[n..];
    }
    if AllScalars(ps) && EncodeScalars(ps) == bytes && ps != [] {
      var first, rest := EncodeScalar(ps[0]), EncodeScalars(ps[1..]);
      EncodedSequence(ps[0]);
      DecodesExactly(rest, ps[1..]);
      assert bytes[0] == first[0] && bytes[..|first|] == first && bytes[|first|..] == rest;
      assert ps == [ps[0]] + ps[1..];
    }
  }

  // ---------- strings and their bytes ----------

  function Scalar(p: int): int {
    if IsScalar(p) then p else REPLACEMENT
  }

  /** The scalars a string is written as. */
  function Scalars(s: JsString): (r: seq<int>)
    ensures |r| == |CodePoints(s)| && AllScalars(r)
  {
    seq(|CodePoints(s)|, i requires 0 <= i < |CodePoints(s)| => Scalar(CodePoints(s)[i]))
  }

  function Bytes(s: JsString): seq<Byte> {
    EncodeScalars(Scalars(s))
  }

  /** A lone surrogate is written as the replacement character. */
  lemma LoneSurrogateBytes(u: CodeUnit)
    requires IsHigh(u) || IsLow(u)
    ensures Bytes([u]) == [0xEF, 0xBF, 0xBD]
  {
    assert [u][1..] == [];
    assert CodePoints([u]) == [u as int];
    assert Scalars([u]) == [0xFFFD];
    assert [0xFFFD][1..] == [];
    assert EncodeScalars([0xFFFD]) == EncodeScalar(0xFFFD) + EncodeScalars([]);
  }

  /** Every surrogate of the string is half of a pair. */
  predicate IsWellFormed(s: JsString) {
    forall k: nat | k < |s| && (IsHigh(s[k]) || IsLow(s[k])) :: IsPaired(s, k)
  }

  /** Two strings have the same bytes exactly when they differ at most in which lone surrogates they have where. */
  lemma {:induction false} SameBytes(a: JsString, b: JsString)
    ensures Bytes(a) == Bytes(b) <==> Scalars(a) == Scalars(b)
  {
    DecodesExactly(Bytes(a), Scalars(a));
    DecodesExactly(Bytes(b), Scalars(b));
  }

  lemma {:induction false} WellFormedTail(s: JsString)
    requires s != [] && IsWellFormed(s)
    ensures IsWellFormed(s[if StartsWithPair(s) then 2 else 1..])
    ensures !StartsWithPair(s) ==> IsScalar(s[0])
  {
    var n := if StartsWithPair(s) then 2 else 1;
    assert IsHigh(s[0]) || IsLow(s[0]) ==> IsPaired(s, 0);
    forall k: nat | k < |s[n..]| && (IsHigh(s[n..][k]) || IsLow(s[n..][k])) ensures IsPaired(s[n..], k) {
      assert s[n..][k] == s[k + n] && IsPaired(s, k + n);
    }
  }

  lemma {:induction false} WellFormedPoints(s: JsString)
    requires IsWellFormed(s)
    ensures AllScalars(CodePoints(s))
  {
    hide IsWellFormed;
    if s != [] {
      WellFormedTail(s);
      WellFormedPoints(s[if StartsWithPair(s) then 2 else 1..]);
    }
  }

  /** A well-formed string is written as its own code points. */
  lemma WellFormedScalars(s: JsString)
    requires IsWellFormed(s)
    ensures Scalars(s) == CodePoints(s)
  {
    WellFormedPoints(s);
  }

  /** On well-formed strings the bytes determine the string. */
  lemma {:induction false} BytesInjective(a: JsString, b: JsString)
    requires IsWellFormed(a) && IsWellFormed(b)
    ensures Bytes(a) == Bytes(b) <==> a == b
  {
    SameBytes(a, b);
    WellFormedScalars(a);
    WellFormedScalars(b);
    EncodeCodePoints(a);
    EncodeCodePoints(b);
  }

  lemma {:induction false} ConcatWellFormed(a: JsString, b: JsString)
    requires IsWellFormed(a) && IsWellFormed(b)
    ensures IsWellFormed(a + b)
  {
    var s := a + b;
    forall k: nat | k < |s| && (IsHigh(s[k]) || IsLow(s[k])) ensures IsPaired(s, k) {
      assert if k < |a| then IsPaired(a, k) else IsPaired(b, k - |a|);
    }
  }
}
