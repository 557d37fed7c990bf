/**
  Well-formed UTF-8 as in section 4 of RFC 3629, in two forms: a one-pass
  scanner, which the proofs about appending use, and the grammar of the RFC.
 */
module Utf8 {
  import opened Bytes

  /** What the scanner still needs before it stands on a character boundary. */
  datatype Scanner =
    | Boundary
    | Tail1 | Tail2 | Tail3
    | AfterE0 | AfterED | AfterF0 | AfterF4
    | Malformed

  predicate IsTail(b: byte) { 0x80 <= b <= 0xBF }

  function Next(st: Scanner, b: byte): Scanner {
    match st
    case Boundary =>
      if b <= 0x7F then Boundary
      else if 0xC2 <= b <= 0xDF then Tail1
      else if b == 0xE0 then AfterE0
      else if b == 0xED then AfterED
      else if 0xE1 <= b <= 0xEF then Tail2
      else if b == 0xF0 then AfterF0
      else if 0xF1 <= b <= 0xF3 then Tail3
      else if b == 0xF4 then AfterF4
      else Malformed
    case Tail1 => if IsTail(b) then Boundary else Malformed
    case Tail2 => if IsTail(b) then Tail1 else Malformed
    case Tail3 => if IsTail(b) then Tail2 else Malformed
    case AfterE0 => if 0xA0 <= b <= 0xBF then Tail1 else Malformed
    case AfterED => if 0x80 <= b <= 0x9F then Tail1 else Malformed
    case AfterF0 => if 0x90 <= b <= 0xBF then Tail2 else Malformed
    case AfterF4 => if 0x80 <= b <= 0x8F then Tail2 else Malformed
    case Malformed => Malformed
  }

  function Scan(st: Scanner, s: bytes): Scanner
    decreases |s|
  {
    if s == [] then st else Scan(Next(st, s[0]), s[1..])
  }

  predicate ValidUtf8(s: bytes) { Scan(Boundary, s) == Boundary }

  /** The contents of a Rust `str`. */
  type str = s: bytes | ValidUtf8(s) witness []

  lemma {:induction false} ScanConcat(st: Scanner, s: bytes, t: bytes)
    ensures Scan(st, s + t) == Scan(Scan(st, s), t)
    decreases |s|
  {
    if s == [] {
      assert s + t == t;
    } else {
      assert (s + t)[1..] == s[1..] + t;
      ScanConcat(Next(st, s[0]), s[1..], t);
    }
  }

  lemma ValidConcat(s: bytes, t: bytes)
    requires ValidUtf8(s) && ValidUtf8(t)
    ensures ValidUtf8(s + t)
  {
    ScanConcat(Boundary, s, t);
  }

  lemma {:induction false} ScanMalformed(s: bytes)
    ensures Scan(Malformed, s) == Malformed
  {
    if s != [] {
      ScanMalformed(s[1..]);
    }
  }

  lemma {:induction false} AsciiIsValid(s: bytes)
    requires forall i :: 0 <= i < |s| ==> s[i] <= 0x7F
    ensures ValidUtf8(s)
  {
    if s != [] {
      AsciiIsValid(s[1..]);
    }
  }

  /** `str::is_char_boundary`: the ends, or any octet that does not continue a character. */
  predicate IsCharBoundary(s: bytes, k: nat) {
    k == 0 || k == |s| || (k < |s| && !IsTail(s[k]))
  }

  /** In valid text the char boundaries are exactly the positions that cut it into valid text. */
  lemma BoundaryCutsValidText(s: bytes, k: nat)
    requires ValidUtf8(s) && k <= |s|
    ensures IsCharBoundary(s, k) <==> ValidUtf8(s[..k])
  {
    ScanConcat(Boundary, s[..k], s[k..]);
    assert s[..k] + s[k..] == s;
    if 0 < k < |s| {
      var st := Scan(Boundary, s[..k]);
      assert Scan(st, s[k..]) == Scan(Next(st, s[k]), s[k + 1..]);
      ScanMalformed(s[k + 1..]);
    } else if k == |s| {
      assert s[..k] == s;
    }
  }

  // ----- The grammar of RFC 3629 -----

  /** One `UTF8-char`. */
  predicate IsUtf8Char(s: bytes) {
    || (|s| == 1 && s[0] <= 0x7F)
    || (|s| == 2 && 0xC2 <= s[0] <= 0xDF && IsTail(s[1]))
    || (|s| == 3 && IsTail(s[2])
        && ((s[0] == 0xE0 && 0xA0 <= s[1] <= 0xBF)
            || (0xE1 <= s[0] <= 0xEC && IsTail(s[1]))
            || (s[0] == 0xED && 0x80 <= s[1] <= 0x9F)
            || (0xEE <= s[0] <= 0xEF && IsTail(s[1]))))
    || (|s| == 4 && IsTail(s[2]) && IsTail(s[3])
        && ((s[0] == 0xF0 && 0x90 <= s[1] <= 0xBF)
            || (0xF1 <= s[0] <= 0xF3 && IsTail(s[1]))
            || (s[0] == 0xF4 && 0x80 <= s[1] <= 0x8F)))
  }

  /** `UTF8-octets`: any number of `UTF8-char`. */
  predicate IsUtf8Octets(s: bytes)
    decreases |s|
  {
    || s == []
    || (exists n :: 1 <= n <= 4 && n <= |s| && IsUtf8Char(s[..n]) && IsUtf8Octets(s[n..]))
  }

  lemma CharScansToBoundary(s: bytes, n: nat)
    requires 1 <= n <= 4 && n <= |s|
    requires IsUtf8Char(s[..n])
    ensures Scan(Boundary, s) == Scan(Boundary, s[n..])
  {
    var c := s[..n];
    assert forall i :: 0 <= i < n ==> c[i] == s[i];
    var st1 := Next(Boundary, s[0]);
    assert Scan(Boundary, s) == Scan(st1, s[1..]);
    if n > 1 {
      ScanStep(st1, s, 1);
    }
    if n > 2 {
      ScanStep(Next(st1, s[1]), s, 2);
    }
    if n > 3 {
      ScanStep(Next(Next(st1, s[1]), s[2]), s, 3);
    }
  }

  lemma ScanStep(st: Scanner, s: bytes, k: nat)
    requires k <= |s|
    ensures Scan(st, s[k..]) == if k == |s| then st else Scan(Next(st, s[k]), s[k + 1..])
  {
    if k < |s| {
      assert s[k..][1..] == s[k + 1..];
    }
  }

  /** The scanner accepts exactly the strings of the RFC's grammar. */
  lemma {:induction false} ScannerIsGrammar(s: bytes)
    ensures ValidUtf8(s) <==> IsUtf8Octets(s)
    decreases |s|
  {
    if s != [] {
      forall n | 1 <= n <= 4 && n <= |s| && IsUtf8Char(s[..n])
        ensures ValidUtf8(s) <==> IsUtf8Octets(s[n..])
      {
        CharScansToBoundary(s, n);
        ScannerIsGrammar(s[n..]);
      }
      if ValidUtf8(s) {
        var n := FirstChar(s);
      }
    }
  }

  lemma FirstChar(s: bytes) returns (n: nat)
    requires s != [] && ValidUtf8(s)
    ensures 1 <= n <= 4 && n <= |s| && IsUtf8Char(s[..n])
  {
    var st := Next(Boundary, s[0]);
    n := 1;
    ScanMalformed(s[1..]);
    while !st.Boundary?
      invariant 1 <= n <= |s| && n <= 4
      invariant Scan(st, s[n..]) == Boundary
      invariant !st.Malformed?
      invariant n == 1 ==> st == Next(Boundary, s[0])
      invariant n >= 2 ==> !Next(Boundary, s[0]).Boundary?
      invariant n >= 3 ==> !Next(Next(Boundary, s[0]), s[1]).Boundary?
      invariant n == 2 ==> st == Next(Next(Boundary, s[0]), s[1]) && (st.Boundary? || st.Tail1? || st.Tail2?)
      invariant n == 3 ==> st == Next(Next(Next(Boundary, s[0]), s[1]), s[2]) && (st.Boundary? || st.Tail1?)
      invariant n == 4 ==> st.Boundary? && IsTail(s[3]) && Next(Next(Next(Boundary, s[0]), s[1]), s[2]).Tail1?
      decreases |s| - n
    {
      ScanStep(st, s, n);
      ScanMalformed(s[n + 1..]);
      st, n := Next(st, s[n]), n + 1;
    }
    var c := s[..n];
    assert c[0] == s[0];
    if n == 2 {
      assert c[1] == s[1];
    } else if n == 3 {
      assert c[1] == s[1] && c[2] == s[2];
      assert Next(Next(Boundary, s[0]), s[1]).Tail1?;
    } else if n == 4 {
      assert c[1] == s[1] && c[2] == s[2] && c[3] == s[3];
      assert Next(Next(Boundary, s[0]), s[1]).Tail2?;
    }
  }
}
