/** Rows of the line protocol as a syntax tree, and their text. */
module Rows {
  import opened Outcomes
  import opened Bytes
  import opened Utf8
  import opened Escaping
  import opened Numerals

  const NAN_TEXT: bytes := [78, 97, 78]
  const INFINITY_TEXT: bytes := [73, 110, 102, 105, 110, 105, 116, 121]

  predicate IsFloatDigit(b: byte) { IsDigit(b) || b == DOT || b == MINUS || b == LETTER_E }

  /** The text of a float: one of the non-finite names, or a numeral that ends in a digit. */
  predicate IsFloatText(t: bytes) {
    || t == NAN_TEXT
    || t == INFINITY_TEXT
    || t == [MINUS] + INFINITY_TEXT
    || (t != [] && IsDigit(t[|t| - 1]) && forall i :: 0 <= i < |t| ==> IsFloatDigit(t[i]))
  }

  type FloatText = t: bytes | IsFloatText(t) witness NAN_TEXT

  type Octets32 = v: bytes | |v| == 32 witness seq(32, _ => 0)

  /**
    A column's value. `Missing` is what a `column_ts` call leaves behind when
    the conversion of its argument fails after the key was written.
   */
  datatype Value =
    | Boolean(flag: bool)
    | Integer(n: i64)
    | Float(text: FloatText)
    | Text(chars: bytes)
    | Time(micros: i64)
    | Long256(octets: Octets32)
    | Missing

  datatype Symbol = Symbol(name: bytes, value: bytes)

  datatype Column = Column(name: bytes, value: Value)

  datatype Line = Line(table: bytes, symbols: seq<Symbol>, columns: seq<Column>)

  datatype Row = Row(line: Line, at: Option<i64>)

  function PrintValue(v: Value): bytes {
    match v
    case Boolean(flag) => [if flag then LETTER_T else LETTER_F]
    case Integer(n) => Decimal(n) + [LETTER_I]
    case Float(text) => text
    case Text(chars) => Written(Quoted, chars)
    case Time(micros) => Decimal(micros) + [LETTER_T]
    case Long256(octets) => [DIGIT_0, LETTER_X] + Hex(octets) + [LETTER_I]
    case Missing => []
  }

  function PrintSymbol(s: Symbol): bytes {
    [COMMA] + (Escape(Unquoted, s.name) + ([EQUALS] + Escape(Unquoted, s.value)))
  }

  function PrintField(c: Column): bytes {
    Escape(Unquoted, c.name) + ([EQUALS] + PrintValue(c.value))
  }

  function PrintSymbols(ss: seq<Symbol>): bytes {
    if ss == [] then [] else PrintSymbol(ss[0]) + PrintSymbols(ss[1..])
  }

  function Separator(first: bool): byte { if first then SPACE else COMMA }

  /** The first column follows a space, the others a comma. */
  function PrintColumns(first: bool, cs: seq<Column>): bytes {
    if cs == [] then [] else ([Separator(first)] + PrintField(cs[0])) + PrintColumns(false, cs[1..])
  }

  function PrintLine(l: Line): bytes {
    (Escape(Unquoted, l.table) + PrintSymbols(l.symbols)) + PrintColumns(true, l.columns)
  }

  function PrintStamp(at: Option<i64>): bytes {
    match at
    case None => []
    case Some(nanos) => [SPACE] + Decimal(nanos)
  }

  function PrintRow(r: Row): bytes {
    (PrintLine(r.line) + PrintStamp(r.at)) + [NEWLINE]
  }

  function PrintRows(rows: seq<Row>): bytes {
    if rows == [] then [] else PrintRow(rows[0]) + PrintRows(rows[1..])
  }

  function PrintPartial(partial: Option<Line>): bytes {
    match partial
    case None => []
    case Some(l) => PrintLine(l)
  }

  // ----- Appending -----

  lemma {:induction false} PrintRowsConcat(a: seq<Row>, b: seq<Row>)
    ensures PrintRows(a + b) == PrintRows(a) + PrintRows(b)
  {
    if a == [] {
      assert a + b == b;
    } else {
      assert (a + b)[1..] == a[1..] + b;
      PrintRowsConcat(a[1..], b);
    }
  }

  lemma PrintRowsAppend(rows: seq<Row>, r: Row)
    ensures PrintRows(rows + [r]) == PrintRows(rows) + PrintRow(r)
  {
    PrintRowsConcat(rows, [r]);
    assert PrintRows([r]) == PrintRow(r) + PrintRows([]);
  }

  lemma {:induction false} PrintSymbolsAppend(ss: seq<Symbol>, s: Symbol)
    ensures PrintSymbols(ss + [s]) == PrintSymbols(ss) + PrintSymbol(s)
  {
    if ss == [] {
      assert (ss + [s])[1..] == [];
    } else {
      assert (ss + [s])[1..] == ss[1..] + [s];
      PrintSymbolsAppend(ss[1..], s);
    }
  }

  lemma {:induction false} PrintColumnsAppend(first: bool, cs: seq<Column>, c: Column)
    ensures PrintColumns(first, cs + [c])
         == PrintColumns(first, cs) + ([Separator(first && cs == [])] + PrintField(c))
  {
    if cs == [] {
      assert (cs + [c])[1..] == [];
    } else {
      assert (cs + [c])[1..] == cs[1..] + [c];
      PrintColumnsAppend(false, cs[1..], c);
    }
  }

  // ----- Unquoted values -----

  /** Octets with no meaning to the grammar: no delimiter, quote or backslash. */
  predicate IsTokenByte(b: byte) {
    !MustEscape(Unquoted, b) && b != QUOTE
  }

  predicate IsToken(s: bytes) { forall i :: 0 <= i < |s| ==> IsTokenByte(s[i]) }

  lemma TokenConcat(s: bytes, t: bytes)
    requires IsToken(s) && IsToken(t)
    ensures IsToken(s + t)
  {
  }

  lemma DecimalIsToken(n: int)
    ensures IsToken(Decimal(n))
  {
  }

  lemma FloatIsToken(text: FloatText)
    ensures IsToken(text)
  {
  }

  lemma UnquotedIsToken(v: Value)
    requires !v.Text?
    ensures IsToken(PrintValue(v))
  {
    match v
    case Boolean(flag) =>
    case Integer(n) =>
      DecimalIsToken(n);
      TokenConcat(Decimal(n), [LETTER_I]);
    case Float(text) => FloatIsToken(text);
    case Time(micros) =>
      DecimalIsToken(micros);
      TokenConcat(Decimal(micros), [LETTER_T]);
    case Long256(octets) =>
      TokenConcat([DIGIT_0, LETTER_X], Hex(octets));
      TokenConcat([DIGIT_0, LETTER_X] + Hex(octets), [LETTER_I]);
    case Missing =>
  }

  // ----- Text in, text out -----

  predicate ValueIsText(v: Value) { v.Text? ==> ValidUtf8(v.chars) }

  /** Every name and every string in the line is valid text, as Rust's `&str` guarantees. */
  predicate LineIsText(l: Line) {
    && ValidUtf8(l.table)
    && (forall i :: 0 <= i < |l.symbols| ==> ValidUtf8(l.symbols[i].name) && ValidUtf8(l.symbols[i].value))
    && (forall i :: 0 <= i < |l.columns| ==> ValidUtf8(l.columns[i].name) && ValueIsText(l.columns[i].value))
  }

  lemma EscapedIsValid(s: str)
    ensures ValidUtf8(Escape(Unquoted, s))
  {
    EscapeScans(Unquoted, Boundary, s);
  }

  lemma ValueIsValid(v: Value)
    requires ValueIsText(v)
    ensures ValidUtf8(PrintValue(v))
  {
    match v
    case Text(chars) => WrittenIsValidUtf8(Quoted, chars);
    case _ => AsciiIsValid(PrintValue(v));
  }

  lemma FieldIsValid(c: Column)
    requires ValidUtf8(c.name) && ValueIsText(c.value)
    ensures ValidUtf8(PrintField(c))
  {
    EscapedIsValid(c.name);
    AsciiIsValid([EQUALS]);
    ValueIsValid(c.value);
    ValidConcat([EQUALS], PrintValue(c.value));
    ValidConcat(Escape(Unquoted, c.name), [EQUALS] + PrintValue(c.value));
  }

  lemma {:induction false} SymbolsAreValid(ss: seq<Symbol>)
    requires forall i :: 0 <= i < |ss| ==> ValidUtf8(ss[i].name) && ValidUtf8(ss[i].value)
    ensures ValidUtf8(PrintSymbols(ss))
  {
    if ss != [] {
      var s := ss[0];
      EscapedIsValid(s.name);
      EscapedIsValid(s.value);
      AsciiIsValid([COMMA]);
      AsciiIsValid([EQUALS]);
      ValidConcat([EQUALS], Escape(Unquoted, s.value));
      ValidConcat(Escape(Unquoted, s.name), [EQUALS] + Escape(Unquoted, s.value));
      ValidConcat([COMMA], Escape(Unquoted, s.name) + ([EQUALS] + Escape(Unquoted, s.value)));
      SymbolsAreValid(ss[1..]);
      ValidConcat(PrintSymbol(s), PrintSymbols(ss[1..]));
    }
  }

  lemma {:induction false} ColumnsAreValid(first: bool, cs: seq<Column>)
    requires forall i :: 0 <= i < |cs| ==> ValidUtf8(cs[i].name) && ValueIsText(cs[i].value)
    ensures ValidUtf8(PrintColumns(first, cs))
  {
    if cs != [] {
      AsciiIsValid([Separator(first)]);
      FieldIsValid(cs[0]);
      ValidConcat([Separator(first)], PrintField(cs[0]));
      ColumnsAreValid(false, cs[1..]);
      ValidConcat([Separator(first)] + PrintField(cs[0]), PrintColumns(false, cs[1..]));
    }
  }

  lemma LineIsValid(l: Line)
    requires LineIsText(l)
    ensures ValidUtf8(PrintLine(l))
  {
    EscapedIsValid(l.table);
    SymbolsAreValid(l.symbols);
    ColumnsAreValid(true, l.columns);
    ValidConcat(Escape(Unquoted, l.table), PrintSymbols(l.symbols));
    ValidConcat(Escape(Unquoted, l.table) + PrintSymbols(l.symbols), PrintColumns(true, l.columns));
  }

  lemma {:induction false} RowsAreValid(rows: seq<Row>)
    requires forall i :: 0 <= i < |rows| ==> LineIsText(rows[i].line)
    ensures ValidUtf8(PrintRows(rows))
  {
    if rows != [] {
      var r := rows[0];
      LineIsValid(r.line);
      AsciiIsValid(PrintStamp(r.at));
      AsciiIsValid([NEWLINE]);
      ValidConcat(PrintLine(r.line), PrintStamp(r.at));
      ValidConcat(PrintLine(r.line) + PrintStamp(r.at), [NEWLINE]);
      RowsAreValid(rows[1..]);
      ValidConcat(PrintRow(r), PrintRows(rows[1..]));
    }
  }

  /** Whatever has been written, finished rows or an unfinished one, is valid UTF-8. */
  lemma PrintIsValidUtf8(rows: seq<Row>, partial: Option<Line>)
    requires forall i :: 0 <= i < |rows| ==> LineIsText(rows[i].line)
    requires partial.Some? ==> LineIsText(partial.value)
    ensures ValidUtf8(PrintRows(rows) + PrintPartial(partial))
  {
    RowsAreValid(rows);
    match partial
    case None => assert PrintRows(rows) + PrintPartial(partial) == PrintRows(rows);
    case Some(l) =>
      LineIsValid(l);
      ValidConcat(PrintRows(rows), PrintLine(l));
  }

  // ----- The octets of the protocol -----

  /** How each type of value shows in ASCII: `t`, `f`, `..i`, `..t`, `0x..i`, quotes, or the digits alone. */
  lemma ValuesInAscii(v: Value)
    ensures
      var s := PrintValue(v);
      match v
      case Boolean(flag) => s == [if flag then 116 else 102]
      case Integer(n) => s == Decimal(n) + [105]
      case Float(text) => s == text
      case Text(_) => |s| >= 2 && s[0] == 34 && s[|s| - 1] == 34
      case Time(n) => s == Decimal(n) + [116]
      case Long256(_) => |s| == 67 && s[0] == 48 && s[1] == 120 && s[66] == 105
      case Missing => s == []
  {
  }

  /** Commas before symbols, a space before the first column and commas before the others. */
  lemma FieldsInAscii(s: Symbol, c: Column, first: bool, cs: seq<Column>)
    ensures PrintSymbol(s)[0] == 44 && PrintSymbol(s)[|Escape(Unquoted, s.name)| + 1] == 61
    ensures PrintField(c)[|Escape(Unquoted, c.name)|] == 61
    ensures cs != [] ==> PrintColumns(first, cs)[0] == if first then 32 else 44
  {
  }

  /** A space before the timestamp and a newline at the end. */
  lemma RowInAscii(r: Row)
    ensures PrintRow(r)[|PrintRow(r)| - 1] == 10
    ensures r.at.Some? ==> PrintStamp(r.at) == [32] + Decimal(r.at.value)
    ensures r.at.None? ==> PrintStamp(r.at) == []
  {
  }
}
