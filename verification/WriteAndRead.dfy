/** Any rows a caller may want to write can be written, and are what a reader of the output finds. */
module WriteAndRead {
  import opened Outcomes
  import opened Bytes
  import opened Utf8
  import opened Timestamps
  import opened Rows
  import opened RowParser
  import opened BufferModel
  import opened RowHistory
  import opened BufferRuns
  import opened CallOutcomes

  /** What a caller puts into a column: a value as it is, or a moment in either unit. */
  datatype Cell = Plain(value: Value) | Moment(ts: Timestamp)

  datatype Field = Field(name: bytes, cell: Cell)

  /** A row as a caller has it. */
  datatype Entry = Entry(table: bytes, symbols: seq<Symbol>, fields: seq<Field>, at: Option<Timestamp>)

  predicate NameFitsIn(name: bytes, maxNameLen: nat) { ValidUtf8(name) && |name| <= maxNameLen }

  predicate SymbolsFit(ss: seq<Symbol>, maxNameLen: nat) {
    forall i :: 0 <= i < |ss| ==> NameFitsIn(ss[i].name, maxNameLen) && ValidUtf8(ss[i].value)
  }

  predicate WritableField(f: Field, maxNameLen: nat) {
    && NameFitsIn(f.name, maxNameLen)
    && (f.cell.Plain? ==> ValueIsText(f.cell.value) && !f.cell.value.Time? && !f.cell.value.Missing?)
  }

  predicate FieldsFit(fs: seq<Field>, maxNameLen: nat) {
    forall i :: 0 <= i < |fs| ==> WritableField(fs[i], maxNameLen)
  }

  /** The rows the documentation lets a caller write. */
  predicate Writable(e: Entry, maxNameLen: nat) {
    && NameFitsIn(e.table, maxNameLen)
    && SymbolsFit(e.symbols, maxNameLen)
    && FieldsFit(e.fields, maxNameLen)
    && (e.symbols != [] || e.fields != [])
    && (e.at.Some? ==> CanDesignate(e.at.value))
  }

  // ----- The calls -----

  /** A name that converts without an error. */
  function Named(name: str): NameArg { Ok(name) }

  function SymbolCalls(ss: seq<Symbol>, maxNameLen: nat): seq<Call>
    requires SymbolsFit(ss, maxNameLen)
  {
    if ss == [] then [] else [CallSymbol(Named(ss[0].name), ss[0].value)] + SymbolCalls(ss[1..], maxNameLen)
  }

  function FieldCall(f: Field, maxNameLen: nat): Call
    requires WritableField(f, maxNameLen)
  {
    match f.cell
    case Plain(value) => CallColumn(Named(f.name), value)
    case Moment(ts) => CallColumnTs(Named(f.name), Ok(ts))
  }

  function FieldCalls(fs: seq<Field>, maxNameLen: nat): seq<Call>
    requires FieldsFit(fs, maxNameLen)
  {
    if fs == [] then [] else [FieldCall(fs[0], maxNameLen)] + FieldCalls(fs[1..], maxNameLen)
  }

  function EndCall(at: Option<Timestamp>): Call {
    match at
    case None => CallAtNow
    case Some(ts) => CallAt(Ok(ts))
  }

  /** The calls that write one row. */
  function RowCalls(e: Entry, maxNameLen: nat): seq<Call>
    requires Writable(e, maxNameLen)
  {
    [CallTable(Named(e.table))]
    + (SymbolCalls(e.symbols, maxNameLen) + (FieldCalls(e.fields, maxNameLen) + [EndCall(e.at)]))
  }

  predicate AllWritable(entries: seq<Entry>, maxNameLen: nat) {
    forall i :: 0 <= i < |entries| ==> Writable(entries[i], maxNameLen)
  }

  function RowsCalls(entries: seq<Entry>, maxNameLen: nat): seq<Call>
    requires AllWritable(entries, maxNameLen)
  {
    if entries == [] then [] else RowCalls(entries[0], maxNameLen) + RowsCalls(entries[1..], maxNameLen)
  }

  // ----- What a reader is to find -----

  /** The column holds the moment in whole microseconds; less than one is lost, toward the epoch. */
  predicate InMicros(ts: Timestamp, micros: int) {
    match ts
    case Micros(m) => micros == m
    case Nanos(n) => if n < 0 then -1000 < n - 1000 * micros <= 0 else 0 <= n - 1000 * micros < 1000
  }

  /** The row is designated in nanoseconds, with nothing lost. */
  predicate InNanos(ts: Timestamp, nanos: int) {
    match ts
    case Micros(m) => nanos == 1000 * m
    case Nanos(n) => nanos == n
  }

  predicate FieldReadsAs(f: Field, c: Column) {
    && c.name == f.name
    && match f.cell
       case Plain(value) => c.value == value
       case Moment(ts) => c.value.Time? && InMicros(ts, c.value.micros)
  }

  predicate ReadsAs(e: Entry, r: Row) {
    && r.line.table == e.table && r.line.symbols == e.symbols
    && |r.line.columns| == |e.fields|
    && (forall i :: 0 <= i < |e.fields| ==> FieldReadsAs(e.fields[i], r.line.columns[i]))
    && (r.at.Some? <==> e.at.Some?)
    && (e.at.Some? ==> InNanos(e.at.value, r.at.value))
  }

  // ----- The row that is recorded -----

  function ColumnOf(f: Field): Column {
    Column(f.name, match f.cell case Plain(value) => value case Moment(ts) => Time(AsMicros(ts)))
  }

  function ColumnsOf(fs: seq<Field>): seq<Column> {
    if fs == [] then [] else [ColumnOf(fs[0])] + ColumnsOf(fs[1..])
  }

  function RowOf(e: Entry): Row {
    Row(Line(e.table, e.symbols, ColumnsOf(e.fields)), if e.at.None? then None else Designated(Ok(e.at.value)))
  }

  function RowsOf(entries: seq<Entry>): seq<Row> {
    if entries == [] then [] else [RowOf(entries[0])] + RowsOf(entries[1..])
  }

  lemma {:induction false} ColumnsReadAs(fs: seq<Field>)
    ensures |ColumnsOf(fs)| == |fs|
    ensures forall i :: 0 <= i < |fs| ==> FieldReadsAs(fs[i], ColumnsOf(fs)[i])
  {
    if fs != [] {
      ColumnsReadAs(fs[1..]);
      forall i | 0 <= i < |fs|
        ensures FieldReadsAs(fs[i], ColumnsOf(fs)[i])
      {
        if i > 0 {
          assert FieldReadsAs(fs[1..][i - 1], ColumnsOf(fs[1..])[i - 1]);
        }
      }
    }
  }

  lemma RowReadsAs(e: Entry)
    requires e.at.Some? ==> CanDesignate(e.at.value)
    ensures ReadsAs(e, RowOf(e))
  {
    ColumnsReadAs(e.fields);
    if e.at.Some? {
      StampIsChecked(e.at.value);
    }
  }

  lemma {:induction false} RowsReadAs(entries: seq<Entry>, maxNameLen: nat)
    requires AllWritable(entries, maxNameLen)
    ensures |RowsOf(entries)| == |entries|
    ensures forall i :: 0 <= i < |entries| ==> ReadsAs(entries[i], RowsOf(entries)[i])
  {
    if entries != [] {
      RowReadsAs(entries[0]);
      RowsReadAs(entries[1..], maxNameLen);
      forall i | 0 <= i < |entries|
        ensures ReadsAs(entries[i], RowsOf(entries)[i])
      {
        if i > 0 {
          assert ReadsAs(entries[1..][i - 1], RowsOf(entries[1..])[i - 1]);
        }
      }
    }
  }

  lemma {:induction false} RecordConcat(h: History, a: seq<Call>, b: seq<Call>, maxNameLen: nat)
    ensures RecordRun(h, a + b, maxNameLen) == RecordRun(RecordRun(h, a, maxNameLen), b, maxNameLen)
    decreases |a|
  {
    if a == [] {
      assert a + b == b;
    } else {
      assert (a + b)[1..] == a[1..] + b;
      RecordConcat(Record(h, a[0], maxNameLen), a[1..], b, maxNameLen);
    }
  }

  lemma RecordOne(h: History, call: Call, maxNameLen: nat)
    ensures RecordRun(h, [call], maxNameLen) == Record(h, call, maxNameLen)
  {
    assert [call][1..] == [];
  }

  lemma {:induction false} SymbolsAreRecorded(h: History, ss: seq<Symbol>, maxNameLen: nat)
    requires h.partial.Some? && h.partial.value.columns == []
    requires SymbolsFit(ss, maxNameLen)
    ensures RecordRun(h, SymbolCalls(ss, maxNameLen), maxNameLen)
         == h.(partial := Some(h.partial.value.(symbols := h.partial.value.symbols + ss)))
    decreases |ss|
  {
    if ss == [] {
      assert h.partial.value.symbols + ss == h.partial.value.symbols;
    } else {
      var call := CallSymbol(Named(ss[0].name), ss[0].value);
      var l := WithSymbol(h.partial.value, ss[0]);
      RecordConcat(h, [call], SymbolCalls(ss[1..], maxNameLen), maxNameLen);
      RecordOne(h, call, maxNameLen);
      SymbolsAreRecorded(h.(partial := Some(l)), ss[1..], maxNameLen);
      assert l.symbols + ss[1..] == h.partial.value.symbols + ss;
    }
  }

  lemma {:induction false} FieldsAreRecorded(h: History, fs: seq<Field>, maxNameLen: nat)
    requires h.partial.Some?
    requires FieldsFit(fs, maxNameLen)
    ensures RecordRun(h, FieldCalls(fs, maxNameLen), maxNameLen)
         == h.(partial := Some(h.partial.value.(columns := h.partial.value.columns + ColumnsOf(fs))))
    decreases |fs|
  {
    if fs == [] {
      assert h.partial.value.columns + [] == h.partial.value.columns;
    } else {
      var call, c := FieldCall(fs[0], maxNameLen), ColumnOf(fs[0]);
      var l := WithColumn(h.partial.value, c);
      RecordConcat(h, [call], FieldCalls(fs[1..], maxNameLen), maxNameLen);
      RecordOne(h, call, maxNameLen);
      FieldsAreRecorded(h.(partial := Some(l)), fs[1..], maxNameLen);
      Assoc(h.partial.value.columns, [c], ColumnsOf(fs[1..]));
    }
  }

  lemma EndIsRecorded(h: History, e: Entry, maxNameLen: nat)
    requires MayFinish(h) && (e.at.Some? ==> CanDesignate(e.at.value))
    ensures RecordRun(h, [EndCall(e.at)], maxNameLen) == Finish(h, RowOf(e).at)
  {
    RecordOne(h, EndCall(e.at), maxNameLen);
    if e.at.Some? {
      StampIsChecked(e.at.value);
    }
  }

  lemma RowIsRecorded(h: History, e: Entry, maxNameLen: nat)
    requires h.partial.None? && Writable(e, maxNameLen)
    ensures RecordRun(h, RowCalls(e, maxNameLen), maxNameLen) == h.(done := h.done + [RowOf(e)])
  {
    var l := RowOf(e).line;
    var start := CallTable(Named(e.table));
    var symbols, columns := SymbolCalls(e.symbols, maxNameLen), FieldCalls(e.fields, maxNameLen);
    var end := [EndCall(e.at)];
    var h1 := h.(partial := Some(Line(e.table, [], [])));
    RecordConcat(h, [start], symbols + (columns + end), maxNameLen);
    RecordOne(h, start, maxNameLen);
    RecordConcat(h1, symbols, columns + end, maxNameLen);
    SymbolsAreRecorded(h1, e.symbols, maxNameLen);
    assert [] + l.symbols == l.symbols && [] + l.columns == l.columns;
    var h2 := h.(partial := Some(Line(e.table, e.symbols, [])));
    RecordConcat(h2, columns, end, maxNameLen);
    FieldsAreRecorded(h2, e.fields, maxNameLen);
    ColumnsReadAs(e.fields);
    EndIsRecorded(h.(partial := Some(l)), e, maxNameLen);
  }

  lemma {:induction false} RowsAreRecorded(h: History, entries: seq<Entry>, maxNameLen: nat)
    requires h.partial.None? && AllWritable(entries, maxNameLen)
    ensures RecordRun(h, RowsCalls(entries, maxNameLen), maxNameLen) == h.(done := h.done + RowsOf(entries))
    decreases |entries|
  {
    if entries == [] {
      assert h.done + [] == h.done;
    } else {
      var first := RowOf(entries[0]);
      RecordConcat(h, RowCalls(entries[0], maxNameLen), RowsCalls(entries[1..], maxNameLen), maxNameLen);
      RowIsRecorded(h, entries[0], maxNameLen);
      RowsAreRecorded(h.(done := h.done + [first]), entries[1..], maxNameLen);
      Assoc(h.done, [first], RowsOf(entries[1..]));
    }
  }

  /**
    Writing then reading: for any rows the documentation allows, with any names
    and strings and with every moment in either unit, the calls that write them
    fill a buffer whose output reads back as these rows, columns in microseconds
    and designated timestamps in nanoseconds.
   */
  lemma WriteThenRead(entries: seq<Entry>, maxNameLen: nat)
    requires AllWritable(entries, maxNameLen)
    ensures
      var b := Reached(maxNameLen, RowsCalls(entries, maxNameLen));
      && b.state.rowCount == |entries|
      && ReadRows(b.output).Some? && ReadRows(b.output).value.1.None?
      && var rows := ReadRows(b.output).value.0;
         |rows| == |entries| && forall i :: 0 <= i < |entries| ==> ReadsAs(entries[i], rows[i])
  {
    var calls := RowsCalls(entries, maxNameLen);
    RowsAreRecorded(EMPTY, entries, maxNameLen);
    assert [] + RowsOf(entries) == RowsOf(entries);
    RoundTrip(maxNameLen, calls);
    StateIsReread(maxNameLen, calls);
    RowsReadAs(entries, maxNameLen);
  }
}
