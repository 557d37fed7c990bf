/**
  The escaping of names and string values, as a function of the text, with
  its inverse. `OutputVec.WriteEscaped` is the in-place code proved against it.
 */
module Escaping {
  import opened Bytes
  import opened Utf8

  /** Names and symbol values are written bare, string values between quotes. */
  datatype Quoting = Unquoted | Quoted

  predicate MustEscape(q: Quoting, b: byte) {
    match q
    case Unquoted =>
      b == SPACE || b == COMMA || b == EQUALS || b == NEWLINE || b == CARRIAGE_RETURN || b == BACKSLASH
    case Quoted =>
      b == NEWLINE || b == CARRIAGE_RETURN || b == QUOTE || b == BACKSLASH
  }

  function EscapeByte(q: Quoting, b: byte): bytes {
    if MustEscape(q, b) then [BACKSLASH, b] else [b]
  }

  function Escape(q: Quoting, s: bytes): bytes {
    if s == [] then [] else EscapeByte(q, s[0]) + Escape(q, s[1..])
  }

  function QuoteMark(q: Quoting): bytes {
    match q
    case Unquoted => []
    case Quoted => [QUOTE]
  }

  /** What the escaper appends for the text `s`. */
  function Written(q: Quoting, s: bytes): bytes {
    QuoteMark(q) + Escape(q, s) + QuoteMark(q)
  }

  function CountEscapes(q: Quoting, s: bytes): nat {
    if s == [] then 0 else (if MustEscape(q, s[0]) then 1 else 0) + CountEscapes(q, s[1..])
  }

  lemma {:induction false} EscapeConcat(q: Quoting, s: bytes, t: bytes)
    ensures Escape(q, s + t) == Escape(q, s) + Escape(q, t)
    ensures CountEscapes(q, s + t) == CountEscapes(q, s) + CountEscapes(q, t)
  {
    if s == [] {
      assert s + t == t;
    } else {
      assert (s + t)[1..] == s[1..] + t;
      EscapeConcat(q, s[1..], t);
    }
  }

  /** One octet more: the step the counting and filling loops take. */
  lemma EscapeOneMore(q: Quoting, s: bytes, i: nat)
    requires i < |s|
    ensures Escape(q, s[..i + 1]) == Escape(q, s[..i]) + EscapeByte(q, s[i])
    ensures CountEscapes(q, s[..i + 1]) == CountEscapes(q, s[..i]) + if MustEscape(q, s[i]) then 1 else 0
  {
    assert s[..i + 1] == s[..i] + [s[i]];
    EscapeConcat(q, s[..i], [s[i]]);
  }

  /** The room the counting pass computes is exactly the room the text needs. */
  lemma {:induction false} EscapeLength(q: Quoting, s: bytes)
    ensures |Escape(q, s)| == |s| + CountEscapes(q, s)
    ensures CountEscapes(q, s) == 0 ==> Escape(q, s) == s
  {
    if s != [] {
      EscapeLength(q, s[1..]);
    }
  }

  lemma {:induction false} NoEscapes(q: Quoting, s: bytes)
    ensures CountEscapes(q, s) == 0 <==> forall i :: 0 <= i < |s| ==> !MustEscape(q, s[i])
  {
    if s != [] {
      NoEscapes(q, s[1..]);
      assert (forall i :: 0 <= i < |s| ==> !MustEscape(q, s[i])) <==>
        !MustEscape(q, s[0]) && forall i :: 0 <= i < |s[1..]| ==> !MustEscape(q, s[1..][i]) by {
        assert forall i :: 0 < i < |s| ==> s[i] == s[1..][i - 1];
        assert forall i :: 0 <= i < |s[1..]| ==> s[1..][i] == s[i + 1];
      }
    }
  }

  /** A name or symbol is written as it is exactly if it has no space, comma, `=`, line ending or backslash. */
  lemma BareTextIsCopied(s: bytes)
    ensures Written(Unquoted, s) == s <==> forall i :: 0 <= i < |s| ==> s[i] !in {32, 44, 61, 10, 13, 92}
  {
    EscapeLength(Unquoted, s);
    NoEscapes(Unquoted, s);
  }

  /** A string is written as it is between its quotes exactly if it has no line ending, quote or backslash. */
  lemma QuotedTextIsCopied(s: bytes)
    ensures Written(Quoted, s) == [34] + s + [34] <==> forall i :: 0 <= i < |s| ==> s[i] !in {10, 13, 34, 92}
  {
    EscapeLength(Quoted, s);
    NoEscapes(Quoted, s);
    assert |Written(Quoted, s)| == |s| + CountEscapes(Quoted, s) + 2;
  }

  /** Escaping commutes with the UTF-8 scanner: it only ever inserts ASCII before ASCII. */
  lemma {:induction false} EscapeScans(q: Quoting, st: Scanner, s: bytes)
    ensures Scan(st, Escape(q, s)) == Scan(st, s)
    decreases |s|
  {
    if s != [] {
      var b := s[0];
      ScanConcat(st, EscapeByte(q, b), Escape(q, s[1..]));
      assert [BACKSLASH, b][1..] == [b] && [b][1..] == [];
      assert Scan(st, [b]) == Next(st, b);
      assert Scan(Next(st, BACKSLASH), [b]) == Next(Next(st, BACKSLASH), b);
      EscapeScans(q, Next(st, b), s[1..]);
    }
  }

  lemma WrittenIsValidUtf8(q: Quoting, s: str)
    ensures ValidUtf8(Written(q, s))
  {
    EscapeScans(q, Boundary, s);
    AsciiIsValid(QuoteMark(q));
    ValidConcat(QuoteMark(q), Escape(q, s));
    ValidConcat(QuoteMark(q) + Escape(q, s), QuoteMark(q));
  }

  // ----- Reading escaped text back -----

  /** The delimiters that end a text when they are not escaped. */
  predicate Ends(q: Quoting, b: byte) {
    match q
    case Unquoted => b == SPACE || b == COMMA || b == EQUALS || b == NEWLINE
    case Quoted => b == QUOTE
  }

  /** Reads up to the first unescaped delimiter; returns the text without its escapes, and the rest. */
  function ReadText(q: Quoting, s: bytes): (r: (bytes, bytes))
    ensures |r.0| + |r.1| <= |s|
    ensures r.1 != [] ==> Ends(q, r.1[0])
    decreases |s|
  {
    if s == [] || Ends(q, s[0]) then ([], s)
    else if s[0] == BACKSLASH && |s| > 1 then
      var (text, rest) := ReadText(q, s[2..]);
      ([s[1]] + text, rest)
    else
      var (text, rest) := ReadText(q, s[1..]);
      ([s[0]] + text, rest)
  }

  lemma ReadOneByte(q: Quoting, b: byte, tail: bytes)
    ensures
      var (text, rest) := ReadText(q, tail);
      ReadText(q, EscapeByte(q, b) + tail) == ([b] + text, rest)
  {
    var all := EscapeByte(q, b) + tail;
    if MustEscape(q, b) {
      assert all[2..] == tail;
    } else {
      assert all[1..] == tail;
    }
  }

  /** Reading undoes escaping, for any text and whatever delimiter follows. */
  lemma {:induction false} ReadEscaped(q: Quoting, s: bytes, rest: bytes)
    requires rest == [] || Ends(q, rest[0])
    ensures ReadText(q, Escape(q, s) + rest) == (s, rest)
  {
    if s == [] {
      assert Escape(q, s) + rest == rest;
    } else {
      Assoc(EscapeByte(q, s[0]), Escape(q, s[1..]), rest);
      ReadEscaped(q, s[1..], rest);
      ReadOneByte(q, s[0], Escape(q, s[1..]) + rest);
      assert [s[0]] + s[1..] == s;
    }
  }

  /** Escaping loses nothing: different texts are written differently. */
  lemma EscapeInjective(q: Quoting, s: bytes, t: bytes)
    requires Escape(q, s) == Escape(q, t)
    ensures s == t
  {
    ReadEscaped(q, s, []);
    ReadEscaped(q, t, []);
  }
}
