/**
  An escape-aware reader of the line protocol, written without reference to
  the code that prints it, and the proof that it recovers what was written.
 */
module RowParser {
  import opened Outcomes
  import opened Bytes
  import opened Escaping
  import opened Numerals
  import opened Rows

  predicate StartsWith(s: bytes, b: byte) { s != [] && s[0] == b }

  /** What ends a value that is not quoted. */
  predicate EndsToken(b: byte) { b == SPACE || b == COMMA || b == NEWLINE }

  function ReadToken(s: bytes): (r: (bytes, bytes))
    ensures |r.0| + |r.1| == |s|
  {
    if s == [] || EndsToken(s[0]) then ([], s)
    else
      var (token, rest) := ReadToken(s[1..]);
      ([s[0]] + token, rest)
  }

  function ReadI64(s: bytes): Option<i64> {
    match ReadDecimal(s)
    case None => None
    case Some(n) => if I64_MIN <= n <= I64_MAX then Some(n) else None
  }

  /**
    Tells the unquoted values apart. A lone `t` is a boolean but digits and `t`
    are a timestamp; `0x`, digits and `i` are a long256 but digits and `i` are
    an integer.
   */
  function ClassifyToken(t: bytes): Option<Value> {
    if t == [] then Some(Missing)
    else if t == [LETTER_T] then Some(Boolean(true))
    else if t == [LETTER_F] then Some(Boolean(false))
    else
      var body := t[..|t| - 1];
      if t[|t| - 1] == LETTER_I then
        if |body| >= 2 && body[0] == DIGIT_0 && body[1] == LETTER_X then
          match ReadHex(body[2..])
          case None => None
          case Some(v) => if |v| == 32 then Some(Long256(v)) else None
        else
          match ReadI64(body)
          case None => None
          case Some(n) => Some(Integer(n))
      else if t[|t| - 1] == LETTER_T then
        match ReadI64(body)
        case None => None
        case Some(n) => Some(Time(n))
      else if IsFloatText(t) then Some(Float(t))
      else None
  }

  function ReadValue(s: bytes): (r: Option<(Value, bytes)>)
    ensures r.Some? ==> |r.value.1| <= |s|
  {
    if StartsWith(s, QUOTE) then
      var (chars, rest) := ReadText(Quoted, s[1..]);
      if StartsWith(rest, QUOTE) then Some((Text(chars), rest[1..])) else None
    else
      var (token, rest) := ReadToken(s);
      match ClassifyToken(token)
      case None => None
      case Some(v) => Some((v, rest))
  }

  function ReadField(s: bytes): (r: Option<(Column, bytes)>)
    ensures r.Some? ==> |r.value.1| < |s|
  {
    var (name, rest) := ReadText(Unquoted, s);
    if !StartsWith(rest, EQUALS) then None
    else
      match ReadValue(rest[1..])
      case None => None
      case Some((v, after)) => Some((Column(name, v), after))
  }

  function ReadSymbols(s: bytes): (r: Option<(seq<Symbol>, bytes)>)
    ensures r.Some? ==> |r.value.1| <= |s|
    decreases |s|
  {
    if !StartsWith(s, COMMA) then Some(([], s))
    else
      var (name, r1) := ReadText(Unquoted, s[1..]);
      if !StartsWith(r1, EQUALS) then None
      else
        var (value, r2) := ReadText(Unquoted, r1[1..]);
        match ReadSymbols(r2)
        case None => None
        case Some((more, rest)) => Some(([Symbol(name, value)] + more, rest))
  }

  /** Columns as long as the separator for the next one follows. */
  function ReadColumns(first: bool, s: bytes): (r: Option<(seq<Column>, bytes)>)
    ensures r.Some? ==> |r.value.1| <= |s|
    decreases |s|
  {
    if !StartsWith(s, Separator(first)) then Some(([], s))
    else
      match ReadField(s[1..])
      case None => None
      case Some((c, r1)) =>
        match ReadColumns(false, r1)
        case None => None
        case Some((more, rest)) => Some(([c] + more, rest))
  }

  function ReadStamp(s: bytes): (r: Option<(Option<i64>, bytes)>)
    ensures r.Some? ==> |r.value.1| <= |s|
  {
    if !StartsWith(s, SPACE) then Some((None, s))
    else
      var (token, rest) := ReadToken(s[1..]);
      match ReadI64(token)
      case None => None
      case Some(n) => Some((Some(n), rest))
  }

  /** A space opens the columns if an unescaped `=` follows the next word, and the timestamp if not. */
  predicate OpensColumns(s: bytes) {
    StartsWith(s, SPACE) && StartsWith(ReadText(Unquoted, s[1..]).1, EQUALS)
  }

  function ReadLine(s: bytes): (r: Option<(Line, Option<i64>, bytes)>)
    ensures r.Some? ==> |r.value.2| <= |s|
  {
    var (table, r0) := ReadText(Unquoted, s);
    match ReadSymbols(r0)
    case None => None
    case Some((symbols, r1)) =>
      match if OpensColumns(r1) then ReadColumns(true, r1) else Some(([], r1))
      case None => None
      case Some((columns, r2)) =>
        match ReadStamp(r2)
        case None => None
        case Some((at, rest)) => Some((Line(table, symbols, columns), at, rest))
  }

  /** All finished rows, and the unfinished one at the end if there is any text after the last row. */
  function ReadRows(s: bytes): Option<(seq<Row>, Option<Line>)>
    decreases |s|
  {
    if s == [] then Some(([], None))
    else
      match ReadLine(s)
      case None => None
      case Some((line, at, rest)) =>
        if rest == [] then
          if at.None? then Some(([], Some(line))) else None
        else if rest[0] == NEWLINE then
          match ReadRows(rest[1..])
          case None => None
          case Some((rows, partial)) => Some(([Row(line, at)] + rows, partial))
        else
          None
  }

  // ----- Reading back what was printed -----

  lemma {:induction false} ReadPlainToken(t: bytes, rest: bytes)
    requires forall i :: 0 <= i < |t| ==> !EndsToken(t[i])
    requires rest == [] || EndsToken(rest[0])
    ensures ReadToken(t + rest) == (t, rest)
  {
    if t == [] {
      assert t + rest == rest;
    } else {
      assert (t + rest)[1..] == t[1..] + rest;
      ReadPlainToken(t[1..], rest);
      assert [t[0]] + t[1..] == t;
    }
  }

  lemma DropSuffix(body: bytes, suffix: byte)
    ensures (body + [suffix])[..|body + [suffix]| - 1] == body
    ensures (body + [suffix])[|body + [suffix]| - 1] == suffix
  {
  }

  lemma ClassifyInteger(n: i64)
    ensures ClassifyToken(Decimal(n) + [LETTER_I]) == Some(Integer(n))
  {
    DropSuffix(Decimal(n), LETTER_I);
    DecimalRoundTrip(n);
  }

  lemma ClassifyTime(n: i64)
    ensures ClassifyToken(Decimal(n) + [LETTER_T]) == Some(Time(n))
  {
    DropSuffix(Decimal(n), LETTER_T);
    DecimalRoundTrip(n);
  }

  lemma ClassifyLong256(v: Octets32)
    ensures ClassifyToken([DIGIT_0, LETTER_X] + Hex(v) + [LETTER_I]) == Some(Long256(v))
  {
    DropSuffix([DIGIT_0, LETTER_X] + Hex(v), LETTER_I);
    assert ([DIGIT_0, LETTER_X] + Hex(v))[2..] == Hex(v);
    HexRoundTrip(v);
  }

  /** Each unquoted value is printed so that no other value could have been meant. */
  lemma ClassifyPrinted(v: Value)
    requires !v.Text?
    ensures ClassifyToken(PrintValue(v)) == Some(v)
  {
    match v
    case Integer(n) => ClassifyInteger(n);
    case Time(micros) => ClassifyTime(micros);
    case Long256(octets) => ClassifyLong256(octets);
    case _ =>
  }

  lemma ReadPrintedText(chars: bytes, rest: bytes)
    ensures ReadValue(Written(Quoted, chars) + rest) == Some((Text(chars), rest))
  {
    var e := Escape(Quoted, chars);
    Assoc([QUOTE] + e, [QUOTE], rest);
    Assoc([QUOTE], e, [QUOTE] + rest);
    DropHead(QUOTE, e + ([QUOTE] + rest));
    DropHead(QUOTE, rest);
    ReadEscaped(Quoted, chars, [QUOTE] + rest);
  }

  lemma ReadPrintedValue(v: Value, rest: bytes)
    requires rest == [] || EndsToken(rest[0])
    ensures ReadValue(PrintValue(v) + rest) == Some((v, rest))
  {
    if v.Text? {
      ReadPrintedText(v.chars, rest);
    } else {
      UnquotedIsToken(v);
      ReadUnquoted(v, PrintValue(v), rest);
    }
  }

  lemma ReadUnquoted(v: Value, token: bytes, rest: bytes)
    requires !v.Text? && token == PrintValue(v)
    requires IsToken(token)
    requires rest == [] || EndsToken(rest[0])
    ensures ReadValue(token + rest) == Some((v, rest))
  {
    ReadPlainToken(token, rest);
    ClassifyPrinted(v);
    if token == [] {
      assert token + rest == rest;
    }
  }

  /** A printed key, with the text that follows its `=`. */
  lemma ReadKey(name: bytes, after: bytes)
    ensures ReadText(Unquoted, Escape(Unquoted, name) + ([EQUALS] + after)) == (name, [EQUALS] + after)
    ensures ([EQUALS] + after)[1..] == after
  {
    ReadEscaped(Unquoted, name, [EQUALS] + after);
  }

  lemma ReadPrintedField(c: Column, rest: bytes)
    requires rest == [] || EndsToken(rest[0])
    ensures ReadField(PrintField(c) + rest) == Some((c, rest))
  {
    var key, value := Escape(Unquoted, c.name), PrintValue(c.value);
    Assoc(key, [EQUALS] + value, rest);
    Assoc([EQUALS], value, rest);
    ReadKey(c.name, value + rest);
    ReadPrintedValue(c.value, rest);
  }

  lemma ReadPrintedSymbol(s: Symbol, more: bytes)
    requires more == [] || Ends(Unquoted, more[0])
    ensures StartsWith(PrintSymbol(s) + more, COMMA)
    ensures
      var (name, r1) := ReadText(Unquoted, (PrintSymbol(s) + more)[1..]);
      && name == s.name
      && StartsWith(r1, EQUALS)
      && ReadText(Unquoted, r1[1..]) == (s.value, more)
  {
    var key, value := Escape(Unquoted, s.name), Escape(Unquoted, s.value);
    Assoc([COMMA], key + ([EQUALS] + value), more);
    Assoc(key, [EQUALS] + value, more);
    Assoc([EQUALS], value, more);
    DropHead(COMMA, key + ([EQUALS] + (value + more)));
    ReadKey(s.name, value + more);
    ReadEscaped(Unquoted, s.value, more);
  }

  lemma {:induction false} ReadPrintedSymbols(ss: seq<Symbol>, rest: bytes)
    requires rest == [] || rest[0] == SPACE || rest[0] == NEWLINE
    ensures ReadSymbols(PrintSymbols(ss) + rest) == Some((ss, rest))
  {
    if ss == [] {
      assert PrintSymbols(ss) + rest == rest;
    } else {
      var more := PrintSymbols(ss[1..]) + rest;
      SymbolsStart(ss[1..], rest);
      Assoc(PrintSymbol(ss[0]), PrintSymbols(ss[1..]), rest);
      ReadPrintedSymbol(ss[0], more);
      ReadPrintedSymbols(ss[1..], rest);
      assert [Symbol(ss[0].name, ss[0].value)] + ss[1..] == ss;
    }
  }

  lemma SymbolsStart(ss: seq<Symbol>, rest: bytes)
    requires rest == [] || rest[0] == SPACE || rest[0] == NEWLINE
    ensures var s := PrintSymbols(ss) + rest;
            s == [] || s[0] == COMMA || s[0] == SPACE || s[0] == NEWLINE
  {
    if ss == [] {
      assert PrintSymbols(ss) + rest == rest;
    }
  }

  lemma ColumnsStart(first: bool, cs: seq<Column>, rest: bytes)
    requires rest == [] || rest[0] == SPACE || rest[0] == NEWLINE
    ensures var s := PrintColumns(first, cs) + rest;
            s == [] || s[0] == Separator(first) || s[0] == SPACE || s[0] == NEWLINE
  {
    if cs == [] {
      assert PrintColumns(first, cs) + rest == rest;
    }
  }

  /** A separator and a field at the start: the field is read, and then what follows. */
  lemma ReadOneColumn(first: bool, c: Column, cs: seq<Column>, more: bytes, rest: bytes)
    requires ReadField(PrintField(c) + more) == Some((c, more))
    requires ReadColumns(false, more) == Some((cs, rest))
    ensures ReadColumns(first, [Separator(first)] + (PrintField(c) + more)) == Some(([c] + cs, rest))
  {
    DropHead(Separator(first), PrintField(c) + more);
  }

  lemma {:induction false} ReadPrintedColumns(first: bool, cs: seq<Column>, rest: bytes)
    requires rest == [] || rest[0] == SPACE || rest[0] == NEWLINE
    requires first ==> cs != []
    ensures ReadColumns(first, PrintColumns(first, cs) + rest) == Some((cs, rest))
  {
    if cs == [] {
      assert PrintColumns(first, cs) + rest == rest;
    } else {
      var field, more := PrintField(cs[0]), PrintColumns(false, cs[1..]) + rest;
      ColumnsStart(false, cs[1..], rest);
      Assoc([Separator(first)] + field, PrintColumns(false, cs[1..]), rest);
      Assoc([Separator(first)], field, more);
      ReadPrintedField(cs[0], more);
      ReadPrintedColumns(false, cs[1..], rest);
      ReadOneColumn(first, cs[0], cs[1..], more, rest);
      assert [cs[0]] + cs[1..] == cs;
    }
  }

  lemma ReadPrintedStamp(at: Option<i64>, rest: bytes)
    requires rest == [] || rest[0] == NEWLINE
    ensures ReadStamp(PrintStamp(at) + rest) == Some((at, rest))
  {
    match at
    case None => assert PrintStamp(at) + rest == rest;
    case Some(n) =>
      assert (PrintStamp(at) + rest)[1..] == Decimal(n) + rest;
      ReadPlainToken(Decimal(n), rest);
      DecimalRoundTrip(n);
  }

  lemma {:induction false} PlainNeedsNoEscape(s: bytes)
    requires forall i :: 0 <= i < |s| ==> !MustEscape(Unquoted, s[i])
    ensures Escape(Unquoted, s) == s
  {
    if s != [] {
      PlainNeedsNoEscape(s[1..]);
      assert [s[0]] + s[1..] == s;
    }
  }

  lemma LookaheadAtColumns(cs: seq<Column>, tail: bytes)
    requires cs != []
    ensures OpensColumns(PrintColumns(true, cs) + tail)
  {
    var key, value := Escape(Unquoted, cs[0].name), PrintValue(cs[0].value);
    var more := PrintColumns(false, cs[1..]) + tail;
    Assoc([SPACE] + PrintField(cs[0]), PrintColumns(false, cs[1..]), tail);
    Assoc([SPACE], PrintField(cs[0]), more);
    Assoc(key, [EQUALS] + value, more);
    Assoc([EQUALS], value, more);
    DropHead(SPACE, key + ([EQUALS] + (value + more)));
    ReadKey(cs[0].name, value + more);
  }

  lemma LookaheadAtStamp(at: Option<i64>, rest: bytes)
    requires rest == [] || rest[0] == NEWLINE
    ensures !OpensColumns(PrintStamp(at) + rest)
  {
    match at
    case None => assert PrintStamp(at) + rest == rest;
    case Some(n) =>
      Assoc([SPACE], Decimal(n), rest);
      DropHead(SPACE, Decimal(n) + rest);
      PlainNeedsNoEscape(Decimal(n));
      ReadEscaped(Unquoted, Decimal(n), rest);
  }

  lemma ReadPrintedLine(l: Line, at: Option<i64>, rest: bytes)
    requires rest == [] || rest[0] == NEWLINE
    ensures ReadLine((PrintLine(l) + PrintStamp(at)) + rest) == Some((l, at, rest))
  {
    var table, symbols, columns := Escape(Unquoted, l.table), PrintSymbols(l.symbols), PrintColumns(true, l.columns);
    var tail := PrintStamp(at) + rest;
    Assoc((table + symbols) + columns, PrintStamp(at), rest);
    Assoc(table + symbols, columns, tail);
    Assoc(table, symbols, columns + tail);
    StampStart(at, rest);
    ColumnsStart(true, l.columns, tail);
    SymbolsStart(l.symbols, columns + tail);
    ReadEscaped(Unquoted, l.table, symbols + (columns + tail));
    ReadPrintedSymbols(l.symbols, columns + tail);
    if l.columns == [] {
      assert columns + tail == tail;
      LookaheadAtStamp(at, rest);
    } else {
      LookaheadAtColumns(l.columns, tail);
      ReadPrintedColumns(true, l.columns, tail);
    }
    ReadPrintedStamp(at, rest);
  }

  lemma StampStart(at: Option<i64>, rest: bytes)
    requires rest == [] || rest[0] == NEWLINE
    ensures var s := PrintStamp(at) + rest;
            s == [] || s[0] == SPACE || s[0] == NEWLINE
  {
    if at.None? {
      assert PrintStamp(at) + rest == rest;
    }
  }

  /** The unfinished line that leaves no text: an unchecked empty table name and nothing else. */
  predicate IsInvisible(partial: Option<Line>) { partial == Some(Line([], [], [])) }

  function Visible(partial: Option<Line>): Option<Line> {
    if IsInvisible(partial) then None else partial
  }

  /**
    Round trip. Reading the text of any rows, with any unfinished line after
    them, gives back those rows and that line. Only an unfinished line that has
    written no octet at all cannot be seen.
   */
  lemma {:induction false} ReadPrintedRows(rows: seq<Row>, partial: Option<Line>)
    ensures ReadRows(PrintRows(rows) + PrintPartial(partial)) == Some((rows, Visible(partial)))
  {
    if rows == [] {
      ReadPrintedPartial(partial);
      assert PrintRows(rows) + PrintPartial(partial) == PrintPartial(partial);
    } else {
      var r, rest := rows[0], PrintRows(rows[1..]) + PrintPartial(partial);
      var row := PrintLine(r.line) + PrintStamp(r.at);
      Assoc(row + [NEWLINE], PrintRows(rows[1..]), PrintPartial(partial));
      Assoc(row, [NEWLINE], rest);
      DropHead(NEWLINE, rest);
      ReadPrintedLine(r.line, r.at, [NEWLINE] + rest);
      ReadPrintedRows(rows[1..], partial);
      assert [Row(r.line, r.at)] + rows[1..] == rows;
    }
  }

  lemma ReadPrintedPartial(partial: Option<Line>)
    ensures ReadRows(PrintPartial(partial)) == Some(([], Visible(partial)))
  {
    if partial.Some? {
      var l := partial.value;
      assert (PrintLine(l) + PrintStamp(None)) + [] == PrintLine(l);
      ReadPrintedLine(l, None, []);
      NoTextNoLine(l);
    }
  }

  lemma NoTextNoLine(l: Line)
    ensures PrintLine(l) == [] <==> l == Line([], [], [])
  {
    EscapeLength(Unquoted, l.table);
  }
}
