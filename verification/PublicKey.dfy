/** The uncompressed encoding of a public key's coordinates, as in section 2.3.3 of SEC 1. */
module PublicKey {
  import opened Outcomes
  import opened Bytes

  function Zeros(n: nat): (s: bytes)
    ensures |s| == n
  {
    seq(n, _ => 0)
  }

  /** `Vec::resize` with zeros: cuts when `n` is smaller, fills when it is larger. */
  function Resized(s: bytes, n: nat): bytes {
    if n <= |s| then s[..n] else s + Zeros(n - |s|)
  }

  /** The number whose big-endian octets are `s`. */
  function BigEndian(s: bytes): nat {
    if s == [] then 0 else 256 * BigEndian(s[..|s| - 1]) + s[|s| - 1] as nat
  }

  lemma {:induction false} LeadingZerosAreWorthless(n: nat, s: bytes)
    ensures BigEndian(Zeros(n) + s) == BigEndian(s)
    decreases n + |s|
  {
    var padded := Zeros(n) + s;
    if s != [] {
      assert padded[..|padded| - 1] == Zeros(n) + s[..|s| - 1];
      LeadingZerosAreWorthless(n, s[..|s| - 1]);
    } else if n > 0 {
      assert padded[..|padded| - 1] == Zeros(n - 1) + s;
      LeadingZerosAreWorthless(n - 1, s);
    }
  }

  /** The 65 octets of a point: 0x04, then each coordinate in 32 octets. */
  predicate EncodesPoint(encoded: bytes, x: bytes, y: bytes) {
    && |encoded| == 65
    && encoded[0] == 4
    && BigEndian(encoded[1..33]) == BigEndian(x)
    && BigEndian(encoded[33..]) == BigEndian(y)
  }

  /**
    `parse_public_key`, given the outcome of decoding each coordinate. It fails
    exactly when a decoding failed or a coordinate is longer than 32 octets.
   */
  method ParsePublicKey(x: Option<bytes>, y: Option<bytes>) returns (r: Result<bytes, ErrorCode>)
    ensures r.Ok? <==> x.Some? && y.Some? && |x.value| <= 32 && |y.value| <= 32
    ensures r.Ok? ==> EncodesPoint(r.value, x.value, y.value)
    ensures r.Ok? ==> x.value == r.value[33 - |x.value|..33] && y.value == r.value[65 - |y.value|..]
    ensures r.Err? ==> r.error == AuthError
  {
    if x.None? || y.None? {
      return Err(AuthError);
    }
    var pubKeyX, pubKeyY := x.value, y.value;
    var encoded: bytes := [4];
    if |pubKeyX| > 32 {
      return Err(AuthError);
    }
    if |pubKeyY| > 32 {
      return Err(AuthError);
    }
    var padX, padY := 32 - |pubKeyX|, 32 - |pubKeyY|;
    assert |encoded| <= padX + 1;  // the first resize drops nothing
    encoded := Resized(encoded, padX + 1);
    encoded := encoded + pubKeyX;
    assert encoded == [4] + (Zeros(padX) + pubKeyX);
    assert |encoded| <= padY + 1 + 32;  // nor does the second
    encoded := Resized(encoded, padY + 1 + 32);
    encoded := encoded + pubKeyY;
    assert encoded == [4] + (Zeros(padX) + pubKeyX) + (Zeros(padY) + pubKeyY);
    assert encoded[1..33] == Zeros(padX) + pubKeyX;
    assert encoded[33..] == Zeros(padY) + pubKeyY;
    LeadingZerosAreWorthless(padX, pubKeyX);
    LeadingZerosAreWorthless(padY, pubKeyY);
    return Ok(encoded);
  }
}
