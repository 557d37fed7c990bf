/**
  Row framing as seen by a reader that knows nothing of the row grammar: it
  only skips the octet after a backslash and counts the line terminators left.
 */
module Framing {
  import opened Outcomes
  import opened Bytes
  import opened Escaping
  import opened Rows

  /** Whether the octet after `s` is escaped, when `escaped` says whether the first one is. */
  function EndsEscaped(escaped: bool, s: bytes): bool
    decreases |s|
  {
    if s == [] then escaped else EndsEscaped(!escaped && s[0] == BACKSLASH, s[1..])
  }

  /** How often the octet `mark` occurs without an escape. */
  function CountFrom(mark: byte, escaped: bool, s: bytes): nat
    decreases |s|
  {
    if s == [] then 0
    else (if s[0] == mark && !escaped then 1 else 0) + CountFrom(mark, !escaped && s[0] == BACKSLASH, s[1..])
  }

  /** The number of unescaped line terminators. */
  function CountTerminators(s: bytes): nat { CountFrom(NEWLINE, false, s) }

  function CountReturns(s: bytes): nat { CountFrom(CARRIAGE_RETURN, false, s) }

  /** Holds no unescaped line ending of either kind and leaves what follows unescaped. */
  predicate Quiet(s: bytes) { CountTerminators(s) == 0 && CountReturns(s) == 0 && !EndsEscaped(false, s) }

  lemma {:induction false} CountConcat(mark: byte, escaped: bool, s: bytes, t: bytes)
    ensures CountFrom(mark, escaped, s + t) == CountFrom(mark, escaped, s) + CountFrom(mark, EndsEscaped(escaped, s), t)
    ensures EndsEscaped(escaped, s + t) == EndsEscaped(EndsEscaped(escaped, s), t)
    decreases |s|
  {
    if s == [] {
      assert s + t == t;
    } else {
      assert (s + t)[1..] == s[1..] + t;
      CountConcat(mark, !escaped && s[0] == BACKSLASH, s[1..], t);
    }
  }

  lemma QuietConcat(s: bytes, t: bytes)
    requires Quiet(s) && Quiet(t)
    ensures Quiet(s + t)
  {
    CountConcat(NEWLINE, false, s, t);
    CountConcat(CARRIAGE_RETURN, false, s, t);
  }

  lemma {:induction false} PlainIsQuiet(s: bytes)
    requires forall i :: 0 <= i < |s| ==> s[i] != BACKSLASH && s[i] != NEWLINE && s[i] != CARRIAGE_RETURN
    ensures Quiet(s)
  {
    if s != [] {
      PlainIsQuiet(s[1..]);
    }
  }

  lemma OneByte(mark: byte, escaped: bool, b: byte)
    ensures CountFrom(mark, escaped, [b]) == if b == mark && !escaped then 1 else 0
    ensures EndsEscaped(escaped, [b]) == (!escaped && b == BACKSLASH)
  {
    assert [b][1..] == [];
  }

  lemma ByteIsQuiet(q: Quoting, b: byte)
    ensures Quiet(EscapeByte(q, b))
  {
    if MustEscape(q, b) {
      assert [BACKSLASH] + [b] == EscapeByte(q, b);
      forall mark | mark == NEWLINE || mark == CARRIAGE_RETURN
        ensures CountFrom(mark, false, EscapeByte(q, b)) == 0 && !EndsEscaped(false, EscapeByte(q, b))
      {
        OneByte(mark, false, BACKSLASH);
        OneByte(mark, true, b);
        CountConcat(mark, false, [BACKSLASH], [b]);
      }
    } else {
      OneByte(NEWLINE, false, b);
      OneByte(CARRIAGE_RETURN, false, b);
    }
  }

  lemma {:induction false} EscapedIsQuiet(q: Quoting, s: bytes)
    ensures Quiet(Escape(q, s))
  {
    if s != [] {
      ByteIsQuiet(q, s[0]);
      EscapedIsQuiet(q, s[1..]);
      QuietConcat(EscapeByte(q, s[0]), Escape(q, s[1..]));
    }
  }

  lemma TextIsQuiet(chars: bytes)
    ensures Quiet(Written(Quoted, chars))
  {
    EscapedIsQuiet(Quoted, chars);
    PlainIsQuiet([QUOTE]);
    QuietConcat([QUOTE], Escape(Quoted, chars));
    QuietConcat([QUOTE] + Escape(Quoted, chars), [QUOTE]);
  }

  lemma ValueIsQuiet(v: Value)
    ensures Quiet(PrintValue(v))
  {
    if v.Text? {
      TextIsQuiet(v.chars);
    } else {
      UnquotedIsToken(v);
      PlainIsQuiet(PrintValue(v));
    }
  }

  lemma PairIsQuiet(name: bytes, value: bytes)
    requires Quiet(value)
    ensures Quiet(Escape(Unquoted, name) + ([EQUALS] + value))
  {
    EscapedIsQuiet(Unquoted, name);
    PlainIsQuiet([EQUALS]);
    QuietConcat([EQUALS], value);
    QuietConcat(Escape(Unquoted, name), [EQUALS] + value);
  }

  lemma {:induction false} SymbolsAreQuiet(ss: seq<Symbol>)
    ensures Quiet(PrintSymbols(ss))
  {
    if ss != [] {
      EscapedIsQuiet(Unquoted, ss[0].value);
      PairIsQuiet(ss[0].name, Escape(Unquoted, ss[0].value));
      PlainIsQuiet([COMMA]);
      QuietConcat([COMMA], Escape(Unquoted, ss[0].name) + ([EQUALS] + Escape(Unquoted, ss[0].value)));
      SymbolsAreQuiet(ss[1..]);
      QuietConcat(PrintSymbol(ss[0]), PrintSymbols(ss[1..]));
    }
  }

  lemma {:induction false} ColumnsAreQuiet(first: bool, cs: seq<Column>)
    ensures Quiet(PrintColumns(first, cs))
  {
    if cs != [] {
      ValueIsQuiet(cs[0].value);
      PairIsQuiet(cs[0].name, PrintValue(cs[0].value));
      PlainIsQuiet([Separator(first)]);
      QuietConcat([Separator(first)], PrintField(cs[0]));
      ColumnsAreQuiet(false, cs[1..]);
      QuietConcat([Separator(first)] + PrintField(cs[0]), PrintColumns(false, cs[1..]));
    }
  }

  lemma LineIsQuiet(l: Line)
    ensures Quiet(PrintLine(l))
  {
    EscapedIsQuiet(Unquoted, l.table);
    SymbolsAreQuiet(l.symbols);
    ColumnsAreQuiet(true, l.columns);
    QuietConcat(Escape(Unquoted, l.table), PrintSymbols(l.symbols));
    QuietConcat(Escape(Unquoted, l.table) + PrintSymbols(l.symbols), PrintColumns(true, l.columns));
  }

  /** One row is one line: its only unescaped terminator is the one that ends it. */
  lemma RowIsOneLine(r: Row)
    ensures CountTerminators(PrintRow(r)) == 1 && CountReturns(PrintRow(r)) == 0
    ensures !EndsEscaped(false, PrintRow(r))
  {
    LineIsQuiet(r.line);
    PlainIsQuiet(PrintStamp(r.at));
    QuietConcat(PrintLine(r.line), PrintStamp(r.at));
    CountConcat(NEWLINE, false, PrintLine(r.line) + PrintStamp(r.at), [NEWLINE]);
    CountConcat(CARRIAGE_RETURN, false, PrintLine(r.line) + PrintStamp(r.at), [NEWLINE]);
  }

  /**
    Counting terminators counts the finished rows, whatever names and strings
    they hold; no carriage return is bare.
   */
  lemma {:induction false} TerminatorsAreRows(rows: seq<Row>, partial: Option<Line>)
    ensures CountTerminators(PrintRows(rows) + PrintPartial(partial)) == |rows|
    ensures CountReturns(PrintRows(rows) + PrintPartial(partial)) == 0
    ensures !EndsEscaped(false, PrintRows(rows) + PrintPartial(partial))
  {
    if rows == [] {
      assert PrintRows(rows) + PrintPartial(partial) == PrintPartial(partial);
      if partial.Some? {
        LineIsQuiet(partial.value);
      }
    } else {
      var row, rest := PrintRow(rows[0]), PrintRows(rows[1..]) + PrintPartial(partial);
      Assoc(row, PrintRows(rows[1..]), PrintPartial(partial));
      RowIsOneLine(rows[0]);
      TerminatorsAreRows(rows[1..], partial);
      CountConcat(NEWLINE, false, row, rest);
      CountConcat(CARRIAGE_RETURN, false, row, rest);
    }
  }
}
