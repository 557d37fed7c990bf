/** The numbers of a configuration string, and the parser that reads them. */
module ConfigNumbers {
  import opened Outcomes

  const U64_LIMIT: nat := 0x1_0000_0000_0000_0000

  function Digits(s: string): Option<nat> {
    if s == "" || !('0' <= s[|s| - 1] <= '9') then None
    else
      var digit := s[|s| - 1] as int - '0' as int;
      if |s| == 1 then Some(digit)
      else
        match Digits(s[..|s| - 1])
        case None => None
        case Some(high) => Some(10 * high + digit)
  }

  /** Rust's parser for unsigned 64-bit numbers: an optional plus, digits, no overflow. */
  function ParseNumber(s: string): Result<nat, ErrorCode> {
    match Digits(if s != "" && s[0] == '+' then s[1..] else s)
    case None => Err(ConfigError)
    case Some(n) => if n < U64_LIMIT then Ok(n) else Err(ConfigError)
  }

  /** The decimal text of a number, without leading zeros. */
  function DecimalText(n: nat): string {
    (if n < 10 then "" else DecimalText(n / 10)) + [('0' as int + n % 10) as char]
  }

  function ZeroText(k: nat): string { seq(k, _ => '0') }

  /** The text is the number's decimal text, perhaps with zeros in front. */
  ghost predicate IsNumeral(s: string, n: nat) { exists k: nat :: s == ZeroText(k) + DecimalText(n) }

  lemma NumeralOneMore(s: string, n: nat, digit: nat)
    requires IsNumeral(s, n) && digit < 10
    ensures IsNumeral(s + [('0' as int + digit) as char], 10 * n + digit)
  {
    var d := [('0' as int + digit) as char];
    var k: nat :| s == ZeroText(k) + DecimalText(n);
    if n == 0 {
      assert ZeroText(k + 1) == ZeroText(k) + "0";
      assert DecimalText(0) == "0" && DecimalText(digit) == d;
      assert s + d == ZeroText(k + 1) + DecimalText(digit);
    } else {
      assert DecimalText(10 * n + digit) == DecimalText(n) + d;
      assert s + d == ZeroText(k) + DecimalText(10 * n + digit);
    }
  }

  lemma {:induction false} DigitsAreNumeral(s: string)
    ensures Digits(s).Some? ==> IsNumeral(s, Digits(s).value)
  {
    if Digits(s).Some? {
      var digit := s[|s| - 1] as int - '0' as int;
      var high := s[..|s| - 1];
      assert s == high + [('0' as int + digit) as char];
      if high == "" {
        assert s == ZeroText(0) + DecimalText(digit);
      } else {
        DigitsAreNumeral(high);
        NumeralOneMore(high, Digits(high).value, digit);
      }
    }
  }

  lemma {:induction false} DigitsOfDecimal(n: nat)
    ensures Digits(DecimalText(n)) == Some(n)
  {
    var s := DecimalText(n);
    if n >= 10 {
      DigitsOfDecimal(n / 10);
      assert s[..|s| - 1] == DecimalText(n / 10);
    }
  }

  lemma {:induction false} DigitsOfPadded(k: nat, s: string)
    requires Digits(s).Some?
    ensures Digits(ZeroText(k) + s) == Digits(s)
    decreases k + |s|
  {
    var padded := ZeroText(k) + s;
    if k == 0 {
      assert padded == s;
    } else if |s| > 1 {
      assert padded[..|padded| - 1] == ZeroText(k) + s[..|s| - 1];
      DigitsOfPadded(k, s[..|s| - 1]);
    } else {
      assert padded[..|padded| - 1] == ZeroText(k - 1) + "0";
      DigitsOfPadded(k - 1, "0");
    }
  }

  lemma NumeralsParse(s: string, n: nat)
    ensures Digits(s) == Some(n) <==> IsNumeral(s, n)
  {
    DigitsAreNumeral(s);
    if IsNumeral(s, n) {
      var k: nat :| s == ZeroText(k) + DecimalText(n);
      DigitsOfDecimal(n);
      DigitsOfPadded(k, DecimalText(n));
    }
  }

  /** A number as it may be written in a configuration string: a numeral below 2^64, perhaps after a plus. */
  ghost predicate Writes(s: string, n: nat) {
    n < 0x1_0000_0000_0000_0000 && (IsNumeral(s, n) || (s != "" && s[0] == '+' && IsNumeral(s[1..], n)))
  }

  lemma {:induction false} NumeralsStartWithDigits(s: string, n: nat)
    requires IsNumeral(s, n)
    ensures s != "" && s[0] != '+'
  {
    var k: nat :| s == ZeroText(k) + DecimalText(n);
    if k > 0 {
      assert s[0] == '0';
    } else {
      DecimalStartsWithDigit(n);
      assert s == DecimalText(n);
    }
  }

  lemma {:induction false} DecimalStartsWithDigit(n: nat)
    ensures '0' <= DecimalText(n)[0] <= '9'
  {
    if n >= 10 {
      DecimalStartsWithDigit(n / 10);
    }
  }

  /** The parser reads exactly the numbers that are written so, each text as one number. */
  lemma NumbersParse(s: string, n: nat)
    ensures ParseNumber(s) == Ok(n) <==> Writes(s, n)
  {
    NumeralsParse(s, n);
    if IsNumeral(s, n) {
      NumeralsStartWithDigits(s, n);
    }
    if s != "" && s[0] == '+' {
      NumeralsParse(s[1..], n);
    }
  }
}
