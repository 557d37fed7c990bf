/** Decimal and lower-case hexadecimal text, with readers that invert it. */
module Numerals {
  import opened Outcomes
  import opened Bytes

  const I64_MIN: int := -0x8000_0000_0000_0000
  const I64_MAX: int := 0x7FFF_FFFF_FFFF_FFFF

  type i64 = x: int | -0x8000_0000_0000_0000 <= x <= 0x7FFF_FFFF_FFFF_FFFF

  predicate IsDigit(b: byte) { DIGIT_0 <= b <= DIGIT_9 }

  /** No leading zeros: only zero itself starts with one. */
  function DecimalNat(n: nat): (s: bytes)
    ensures |s| >= 1
    ensures s[0] == DIGIT_0 <==> n == 0
    ensures n < 10 ==> |s| == 1
    ensures forall i :: 0 <= i < |s| ==> IsDigit(s[i])
  {
    (if n < 10 then [] else DecimalNat(n / 10)) + [DIGIT_0 + (n % 10) as byte]
  }

  function Decimal(n: int): (s: bytes)
    ensures |s| >= 1
    ensures IsDigit(s[|s| - 1])
    ensures s[0] == MINUS || IsDigit(s[0])
    ensures forall i :: 0 <= i < |s| ==> s[i] == MINUS || IsDigit(s[i])
  {
    if n < 0 then [MINUS] + DecimalNat(-n) else DecimalNat(n)
  }

  function ReadNat(s: bytes): Option<nat> {
    if s == [] || !IsDigit(s[|s| - 1]) then None
    else
      var digit := (s[|s| - 1] - DIGIT_0) as nat;
      if |s| == 1 then Some(digit)
      else
        match ReadNat(s[..|s| - 1])
        case None => None
        case Some(high) => Some(10 * high + digit)
  }

  function ReadDecimal(s: bytes): Option<int> {
    if s != [] && s[0] == MINUS then
      match ReadNat(s[1..])
      case None => None
      case Some(n) => var m: int := n; Some(-m)
    else
      match ReadNat(s)
      case None => None
      case Some(n) => Some(n)
  }

  lemma {:induction false} NatRoundTrip(n: nat)
    ensures ReadNat(DecimalNat(n)) == Some(n)
  {
    var s := DecimalNat(n);
    if n >= 10 {
      NatRoundTrip(n / 10);
      assert s[..|s| - 1] == DecimalNat(n / 10);
    }
  }

  lemma ReadMinus(s: bytes, n: nat)
    requires ReadNat(s) == Some(n)
    ensures ReadDecimal([MINUS] + s) == Some(0 - n)
  {
    DropHead(MINUS, s);
  }

  lemma ReadPlain(s: bytes, n: nat)
    requires ReadNat(s) == Some(n) && s != [] && IsDigit(s[0])
    ensures ReadDecimal(s) == Some(n)
  {
  }

  lemma DecimalRoundTrip(n: int)
    ensures ReadDecimal(Decimal(n)) == Some(n)
  {
    if n < 0 {
      NatRoundTrip(-n);
      ReadMinus(DecimalNat(-n), -n);
    } else {
      NatRoundTrip(n);
      ReadPlain(DecimalNat(n), n);
    }
  }

  function HexDigit(v: byte): byte
    requires v < 16
  {
    if v < 10 then DIGIT_0 + v else LETTER_A + (v - 10)
  }

  function HexValue(b: byte): Option<byte> {
    if IsDigit(b) then Some(b - DIGIT_0)
    else if LETTER_A <= b <= LETTER_F then Some(b - LETTER_A + 10)
    else None
  }

  function Hex(v: bytes): (s: bytes)
    ensures |s| == 2 * |v|
    ensures forall i :: 0 <= i < |s| ==> IsDigit(s[i]) || LETTER_A <= s[i] <= LETTER_F
  {
    if v == [] then [] else [HexDigit(v[0] / 16), HexDigit(v[0] % 16)] + Hex(v[1..])
  }

  function ReadHex(s: bytes): Option<bytes> {
    if s == [] then Some([])
    else if |s| == 1 then None
    else
      match (HexValue(s[0]), HexValue(s[1]), ReadHex(s[2..]))
      case (Some(high), Some(low), Some(rest)) => Some([high * 16 + low] + rest)
      case _ => None
  }

  lemma {:induction false} HexRoundTrip(v: bytes)
    ensures ReadHex(Hex(v)) == Some(v)
  {
    if v != [] {
      HexRoundTrip(v[1..]);
      assert Hex(v)[2..] == Hex(v[1..]);
      assert [v[0]] + v[1..] == v;
    }
  }
}
