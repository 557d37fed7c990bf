/**
  What a buffer means: the rows that were accepted, the row being written and
  the rewind point among them, with the rules of the documented call sequence.
  Every field of the buffer is proved to be a function of this history.
 */
module RowHistory {
  import opened Outcomes
  import opened Bytes
  import opened Utf8
  import opened Escaping
  import opened Numerals
  import opened Timestamps
  import opened Rows
  import opened CallOrder
  import opened BufferModel

  /** `marked` says how many rows were finished when the marker was set. */
  datatype History = History(done: seq<Row>, partial: Option<Line>, marked: Option<nat>)

  const EMPTY := History([], None, None)

  // ----- The documented rules -----

  predicate MayStart(h: History) { h.partial.None? }

  predicate MayAddSymbol(h: History) { h.partial.Some? && h.partial.value.columns == [] }

  predicate MayAddColumn(h: History) { h.partial.Some? }

  predicate MayFinish(h: History) {
    h.partial.Some? && (h.partial.value.symbols != [] || h.partial.value.columns != [])
  }

  predicate MayFlush(h: History) { h.partial.None? && h.done != [] }

  predicate Permits(h: History, op: Op) {
    match op
    case OpTable => MayStart(h)
    case OpSymbol => MayAddSymbol(h)
    case OpColumn => MayAddColumn(h)
    case OpAt => MayFinish(h)
    case OpFlush => MayFlush(h)
  }

  // ----- What the calls mean -----

  predicate NameFits(name: NameArg, maxNameLen: nat) { name.Ok? && |name.value| <= maxNameLen }

  function WithSymbol(l: Line, s: Symbol): Line { l.(symbols := l.symbols + [s]) }

  function WithColumn(l: Line, c: Column): Line { l.(columns := l.columns + [c]) }

  function Finish(h: History, at: Option<i64>): History
    requires h.partial.Some?
  {
    h.(done := h.done + [Row(h.partial.value, at)], partial := None)
  }

  function RecordTable(h: History, name: NameArg, maxNameLen: nat): History {
    if NameFits(name, maxNameLen) && MayStart(h) then h.(partial := Some(Line(name.value, [], []))) else h
  }

  function RecordSymbol(h: History, name: NameArg, value: str, maxNameLen: nat): History {
    if NameFits(name, maxNameLen) && MayAddSymbol(h)
    then h.(partial := Some(WithSymbol(h.partial.value, Symbol(name.value, value))))
    else h
  }

  function RecordColumn(h: History, name: NameArg, value: Value, maxNameLen: nat): History {
    if NameFits(name, maxNameLen) && MayAddColumn(h)
    then h.(partial := Some(WithColumn(h.partial.value, Column(name.value, value))))
    else h
  }

  /** The value a `column_ts` call leaves in its column. */
  function TimeValue(stamp: StampArg): Value {
    if stamp.Ok? then Time(AsMicros(stamp.value)) else Missing
  }

  /** The designated timestamp an `at` call gives, if it can be written. */
  function Designated(stamp: StampArg): Option<i64> {
    if stamp.Ok? && AsNanos(stamp.value).Ok? && AsNanos(stamp.value).value >= 0
    then Some(AsNanos(stamp.value).value)
    else None
  }

  function RecordAt(h: History, stamp: StampArg): History {
    if MayFinish(h) && Designated(stamp).Some? then Finish(h, Designated(stamp)) else h
  }

  function RecordAtNow(h: History): History {
    if MayFinish(h) then Finish(h, None) else h
  }

  function RecordMarker(h: History): History {
    if MayStart(h) then h.(marked := Some(|h.done|)) else h
  }

  function RecordRewind(h: History): History {
    if h.marked.Some? && h.marked.value <= |h.done| then History(h.done[..h.marked.value], None, None) else h
  }

  function Record(h: History, call: Call, maxNameLen: nat): History {
    match call
    case CallTable(name) => RecordTable(h, name, maxNameLen)
    case CallSymbol(name, value) => RecordSymbol(h, name, value, maxNameLen)
    case CallColumn(name, value) => RecordColumn(h, name, value, maxNameLen)
    case CallColumnTs(name, stamp) => RecordColumn(h, name, TimeValue(stamp), maxNameLen)
    case CallAt(stamp) => RecordAt(h, stamp)
    case CallAtNow => RecordAtNow(h)
    case CallSetMarker => RecordMarker(h)
    case CallRewind => RecordRewind(h)
    case CallClearMarker => h.(marked := None)
    case CallClear => EMPTY
  }

  // ----- The fields as functions of the history -----

  function CaseOf(done: seq<Row>, partial: Option<Line>): OpCase {
    match partial
    case None => if done == [] then Init else MayFlushOrTable
    case Some(l) =>
      if l.columns != [] then ColumnWritten else if l.symbols != [] then SymbolWritten else TableWritten
  }

  /** The tables of all rows that were started, in order. */
  function Tables(done: seq<Row>, partial: Option<Line>): seq<bytes> {
    seq(|done|, i requires 0 <= i < |done| => done[i].line.table)
    + (match partial case None => [] case Some(l) => [l.table])
  }

  predicate OneTable(tables: seq<bytes>) {
    forall i :: 0 <= i < |tables| ==> tables[i] == tables[0]
  }

  function FirstTable(tables: seq<bytes>): Option<bytes> {
    if tables == [] then None else Some(tables[0])
  }

  function StateOf(done: seq<Row>, partial: Option<Line>): BufferState {
    var tables := Tables(done, partial);
    BufferState(CaseOf(done, partial), |done|, FirstTable(tables), OneTable(tables))
  }

  function TextOf(done: seq<Row>, partial: Option<Line>): bytes {
    PrintRows(done) + PrintPartial(partial)
  }

  predicate HistoryIsText(h: History) {
    && (forall i :: 0 <= i < |h.done| ==> LineIsText(h.done[i].line))
    && (h.partial.Some? ==> LineIsText(h.partial.value))
  }

  /** The buffer's fields are those of the history, and the marker is the text of the marked rows. */
  predicate Represents(h: History, b: Buf) {
    && b.output == TextOf(h.done, h.partial)
    && b.state == StateOf(h.done, h.partial)
    && (match h.marked
        case None => b.marker == None
        case Some(k) =>
          k <= |h.done| && b.marker == Some(Marker(|PrintRows(h.done[..k])|, StateOf(h.done[..k], None))))
  }

  /** The bitmask agrees with the documented rules in every represented state. */
  lemma AllowsIsPermits(h: History, op: Op)
    ensures Allows(CaseOf(h.done, h.partial), op) <==> Permits(h, op)
  {
  }

  lemma BareIsEscape(s: bytes)
    ensures Written(Unquoted, s) == Escape(Unquoted, s)
  {
  }

  // ----- Each call keeps the representation -----

  lemma OneTableAppend(tables: seq<bytes>, table: bytes)
    ensures OneTable(tables + [table]) <==> OneTable(tables) && (tables == [] || tables[0] == table)
  {
    var more := tables + [table];
    assert more[|tables|] == table;
    assert forall i :: 0 <= i < |tables| ==> more[i] == tables[i];
  }

  lemma StartedState(done: seq<Row>, table: bytes)
    ensures
      var before := StateOf(done, None);
      var after := StateOf(done, Some(Line(table, [], [])));
      after == BufferState(
        TableWritten,
        before.rowCount,
        if before.firstTable.None? then Some(table) else before.firstTable,
        before.transactional && (before.firstTable.None? || before.firstTable.value == table))
  {
    var tables := Tables(done, None);
    assert Tables(done, Some(Line(table, [], []))) == tables + [table];
    OneTableAppend(tables, table);
  }

  lemma StartedText(done: seq<Row>, table: bytes)
    ensures TextOf(done, Some(Line(table, [], []))) == TextOf(done, None) + Written(Unquoted, table)
  {
    BareIsEscape(table);
    EmptyTail(PrintRows(done));
    EmptyTail(Escape(Unquoted, table));
  }

  lemma TableIsRecorded(h: History, b: Buf, name: NameArg)
    requires Represents(h, b)
    ensures Represents(RecordTable(h, name, b.maxNameLen), WriteTable(b, name).0)
    ensures WriteTable(b, name).1.Ok? <==> NameFits(name, b.maxNameLen) && MayStart(h)
  {
    AllowsIsPermits(h, OpTable);
    if NameFits(name, b.maxNameLen) && MayStart(h) {
      StartedText(h.done, name.value);
      StartedState(h.done, name.value);
    }
  }

  lemma LineGrows(done: seq<Row>, l: Line, l': Line, piece: bytes)
    requires PrintLine(l') == PrintLine(l) + piece
    ensures TextOf(done, Some(l')) == TextOf(done, Some(l)) + piece
  {
    Assoc(PrintRows(done), PrintLine(l), piece);
  }

  lemma SymbolText(l: Line, s: Symbol)
    requires l.columns == []
    ensures PrintLine(WithSymbol(l, s)) == PrintLine(l) + PrintSymbol(s)
  {
    var l' := WithSymbol(l, s);
    PrintSymbolsAppend(l.symbols, s);
    Assoc(Escape(Unquoted, l.table), PrintSymbols(l.symbols), PrintSymbol(s));
    EmptyTail(Escape(Unquoted, l.table) + PrintSymbols(l.symbols));
    EmptyTail(Escape(Unquoted, l.table) + PrintSymbols(l'.symbols));
  }

  lemma EmptyTail(s: bytes)
    ensures s + [] == s
  {
  }

  lemma ColumnText(l: Line, c: Column)
    ensures PrintLine(WithColumn(l, c))
         == PrintLine(l) + ([Separator(l.columns == [])] + PrintField(c))
  {
    PrintColumnsAppend(true, l.columns, c);
    Assoc(Escape(Unquoted, l.table) + PrintSymbols(l.symbols), PrintColumns(true, l.columns),
          [Separator(l.columns == [])] + PrintField(c));
  }

  lemma SameTables(done: seq<Row>, l: Line, l': Line)
    requires l.table == l'.table
    ensures Tables(done, Some(l)) == Tables(done, Some(l'))
  {
  }

  lemma SymbolState(done: seq<Row>, l: Line, s: Symbol)
    requires l.columns == []
    ensures StateOf(done, Some(WithSymbol(l, s))) == StateOf(done, Some(l)).(opCase := SymbolWritten)
  {
    SameTables(done, l, WithSymbol(l, s));
  }

  lemma SymbolIsRecorded(h: History, b: Buf, name: NameArg, value: str)
    requires Represents(h, b)
    ensures Represents(RecordSymbol(h, name, value, b.maxNameLen), WriteSymbol(b, name, value).0)
    ensures WriteSymbol(b, name, value).1.Ok? <==> NameFits(name, b.maxNameLen) && MayAddSymbol(h)
  {
    AllowsIsPermits(h, OpSymbol);
    if NameFits(name, b.maxNameLen) && MayAddSymbol(h) {
      var l, s := h.partial.value, Symbol(name.value, value);
      SymbolState(h.done, l, s);
      SymbolText(l, s);
      LineGrows(h.done, l, WithSymbol(l, s), PrintSymbol(s));
      SymbolPieces(b.output, name.value, value);
    }
  }

  lemma SymbolPieces(out: bytes, name: bytes, value: bytes)
    ensures out + [COMMA] + Written(Unquoted, name) + [EQUALS] + Written(Unquoted, value)
         == out + PrintSymbol(Symbol(name, value))
  {
    BareIsEscape(name);
    BareIsEscape(value);
    var n, v := Escape(Unquoted, name), Escape(Unquoted, value);
    Assoc(out + [COMMA] + n, [EQUALS], v);
    Assoc(out + [COMMA], n, [EQUALS] + v);
    Assoc(out, [COMMA], n + ([EQUALS] + v));
  }

  /** The key alone, as a function of the history. */
  lemma KeyIsWritten(h: History, b: Buf, name: NameArg)
    requires Represents(h, b)
    requires NameFits(name, b.maxNameLen) && MayAddColumn(h)
    ensures
      var separator := Separator(h.partial.value.columns == []);
      WriteColumnKey(b, name) ==
        (b.(output := b.output + [separator] + Written(Unquoted, name.value) + [EQUALS],
            state := b.state.(opCase := ColumnWritten)),
         Ok(()))
  {
    AllowsIsPermits(h, OpColumn);
    AllowsIsPermits(h, OpSymbol);
  }

  lemma ColumnState(done: seq<Row>, l: Line, c: Column)
    ensures StateOf(done, Some(WithColumn(l, c))) == StateOf(done, Some(l)).(opCase := ColumnWritten)
  {
    SameTables(done, l, WithColumn(l, c));
  }

  /** Writing the key and then the text of the value records the column. */
  lemma ColumnIsRecorded(h: History, b: Buf, name: NameArg, value: Value)
    requires Represents(h, b)
    requires NameFits(name, b.maxNameLen) && MayAddColumn(h)
    ensures WriteColumnKey(b, name).1.Ok?
    ensures
      var keyed := WriteColumnKey(b, name).0;
      var h' := h.(partial := Some(WithColumn(h.partial.value, Column(name.value, value))));
      Represents(h', keyed.(output := keyed.output + PrintValue(value)))
  {
    var l, c := h.partial.value, Column(name.value, value);
    KeyIsWritten(h, b, name);
    ColumnState(h.done, l, c);
    ColumnText(l, c);
    LineGrows(h.done, l, WithColumn(l, c), [Separator(l.columns == [])] + PrintField(c));
    ColumnPieces(b.output, Separator(l.columns == []), name.value, value);
  }

  lemma ColumnPieces(out: bytes, separator: byte, name: bytes, value: Value)
    ensures out + [separator] + Written(Unquoted, name) + [EQUALS] + PrintValue(value)
         == out + ([separator] + PrintField(Column(name, value)))
  {
    BareIsEscape(name);
    var n, v := Escape(Unquoted, name), PrintValue(value);
    Assoc(out + [separator] + n, [EQUALS], v);
    Assoc(out + [separator], n, [EQUALS] + v);
    Assoc(out, [separator], n + ([EQUALS] + v));
  }

  lemma KeyIsRefused(h: History, b: Buf, name: NameArg)
    requires Represents(h, b)
    requires !(NameFits(name, b.maxNameLen) && MayAddColumn(h))
    ensures WriteColumnKey(b, name).1.Err? && WriteColumnKey(b, name).0 == b
  {
    AllowsIsPermits(h, OpColumn);
  }

  lemma PlainColumnIsRecorded(h: History, b: Buf, name: NameArg, value: PlainValue)
    requires Represents(h, b)
    ensures Represents(RecordColumn(h, name, value, b.maxNameLen), WriteColumn(b, name, value).0)
    ensures WriteColumn(b, name, value).1.Ok? <==> NameFits(name, b.maxNameLen) && MayAddColumn(h)
  {
    if NameFits(name, b.maxNameLen) && MayAddColumn(h) {
      ColumnIsRecorded(h, b, name, value);
    } else {
      KeyIsRefused(h, b, name);
    }
  }

  /** After its key, `column_ts` writes the text of the value it leaves, which is empty on failure. */
  lemma TimeIsWritten(b: Buf, name: NameArg, stamp: StampArg)
    requires WriteColumnKey(b, name).1.Ok?
    ensures
      var keyed := WriteColumnKey(b, name).0;
      && WriteColumnTs(b, name, stamp).0 == keyed.(output := keyed.output + PrintValue(TimeValue(stamp)))
      && (WriteColumnTs(b, name, stamp).1.Ok? <==> stamp.Ok?)
  {
    EmptyTail(WriteColumnKey(b, name).0.output);
  }

  lemma TimeColumnIsRecorded(h: History, b: Buf, name: NameArg, stamp: StampArg)
    requires Represents(h, b)
    ensures Represents(RecordColumn(h, name, TimeValue(stamp), b.maxNameLen), WriteColumnTs(b, name, stamp).0)
    ensures WriteColumnTs(b, name, stamp).1.Ok? <==> NameFits(name, b.maxNameLen) && MayAddColumn(h) && stamp.Ok?
  {
    if NameFits(name, b.maxNameLen) && MayAddColumn(h) {
      ColumnIsRecorded(h, b, name, TimeValue(stamp));
      TimeIsWritten(b, name, stamp);
    } else {
      KeyIsRefused(h, b, name);
    }
  }

  lemma FinishedText(done: seq<Row>, l: Line, at: Option<i64>)
    ensures TextOf(done + [Row(l, at)], None) == TextOf(done, Some(l)) + (PrintStamp(at) + [NEWLINE])
  {
    PrintRowsAppend(done, Row(l, at));
    Assoc(PrintLine(l), PrintStamp(at), [NEWLINE]);
    Assoc(PrintRows(done), PrintLine(l), PrintStamp(at) + [NEWLINE]);
    EmptyTail(PrintRows(done + [Row(l, at)]));
  }

  lemma FinishedState(done: seq<Row>, l: Line, at: Option<i64>)
    ensures StateOf(done + [Row(l, at)], None)
         == StateOf(done, Some(l)).(opCase := MayFlushOrTable, rowCount := |done| + 1)
  {
    assert Tables(done + [Row(l, at)], None) == Tables(done, Some(l));
  }

  lemma FinishIsRecorded(h: History, b: Buf, at: Option<i64>)
    requires Represents(h, b) && MayFinish(h)
    ensures Represents(Finish(h, at), FinishRow(b, PrintStamp(at) + [NEWLINE]))
  {
    FinishedText(h.done, h.partial.value, at);
    FinishedState(h.done, h.partial.value, at);
    if h.marked.Some? {
      assert Finish(h, at).done[..h.marked.value] == h.done[..h.marked.value];
    }
  }

  lemma AtIsChecked(b: Buf, stamp: StampArg)
    ensures CheckAt(b, stamp).Ok? <==> Allows(b.state.opCase, OpAt) && Designated(stamp).Some?
    ensures CheckAt(b, stamp).Ok? ==> Designated(stamp) == Some(CheckAt(b, stamp).value)
  {
  }

  lemma AtIsPrinted(b: Buf, stamp: StampArg)
    ensures WriteAt(b, stamp).1.Ok? <==> Allows(b.state.opCase, OpAt) && Designated(stamp).Some?
    ensures WriteAt(b, stamp).0
         == if WriteAt(b, stamp).1.Ok? then FinishRow(b, PrintStamp(Designated(stamp)) + [NEWLINE]) else b
  {
    AtIsChecked(b, stamp);
  }

  lemma AtIsAllowed(h: History, b: Buf)
    requires b.state.opCase == CaseOf(h.done, h.partial)
    ensures CheckOp(b, OpAt).Ok? <==> MayFinish(h)
  {
    AllowsIsPermits(h, OpAt);
  }

  lemma AtIsWritten(h: History, b: Buf, stamp: StampArg)
    requires b.state.opCase == CaseOf(h.done, h.partial)
    ensures WriteAt(b, stamp).1.Ok? <==> MayFinish(h) && Designated(stamp).Some?
    ensures WriteAt(b, stamp).0
         == if WriteAt(b, stamp).1.Ok? then FinishRow(b, PrintStamp(Designated(stamp)) + [NEWLINE]) else b
  {
    AtIsAllowed(h, b);
    AtIsPrinted(b, stamp);
  }

  lemma AtIsRecorded(h: History, b: Buf, stamp: StampArg)
    requires Represents(h, b)
    ensures Represents(RecordAt(h, stamp), WriteAt(b, stamp).0)
  {
    AtIsWritten(h, b, stamp);
    if MayFinish(h) && Designated(stamp).Some? {
      FinishIsRecorded(h, b, Designated(stamp));
    }
  }

  lemma AtNowIsRecorded(h: History, b: Buf)
    requires Represents(h, b)
    ensures Represents(RecordAtNow(h), WriteAtNow(b).0)
    ensures WriteAtNow(b).1.Ok? <==> MayFinish(h)
  {
    AllowsIsPermits(h, OpAt);
    if MayFinish(h) {
      FinishIsRecorded(h, b, None);
      NoStamp();
    }
  }

  lemma NoStamp()
    ensures PrintStamp(None) + [NEWLINE] == [NEWLINE]
  {
  }

  lemma MarkerIsRecorded(h: History, b: Buf)
    requires Represents(h, b)
    ensures Represents(RecordMarker(h), SetMarker(b).0)
    ensures SetMarker(b).1.Ok? <==> MayStart(h)
  {
    AllowsIsPermits(h, OpTable);
    if MayStart(h) {
      TextWithoutPartial(h.done);
      MarkedHere(h, b);
    }
  }

  lemma TextWithoutPartial(done: seq<Row>)
    ensures TextOf(done, None) == PrintRows(done)
  {
    EmptyTail(PrintRows(done));
  }

  lemma MarkedHere(h: History, b: Buf)
    requires Represents(h, b) && h.partial.None? && b.output == PrintRows(h.done)
    ensures Represents(h.(marked := Some(|h.done|)), b.(marker := Some(Marker(|b.output|, b.state))))
  {
    WholePrefix(h.done);
  }

  lemma WholePrefix(done: seq<Row>)
    ensures done[..|done|] == done
  {
  }

  /** The output starts with the text of any number of its rows. */
  lemma RowsArePrefix(done: seq<Row>, partial: Option<Line>, k: nat)
    requires k <= |done|
    ensures |PrintRows(done[..k])| <= |TextOf(done, partial)|
    ensures TextOf(done, partial)[..|PrintRows(done[..k])|] == PrintRows(done[..k])
  {
    assert done == done[..k] + done[k..];
    PrintRowsConcat(done[..k], done[k..]);
    Assoc(PrintRows(done[..k]), PrintRows(done[k..]), PrintPartial(partial));
  }

  lemma RewindIsRecorded(h: History, b: Buf)
    requires Represents(h, b)
    ensures Represents(RecordRewind(h), RewindToMarker(b).0)
    ensures RewindToMarker(b).1.Ok? <==> h.marked.Some?
  {
    if h.marked.Some? {
      RowsArePrefix(h.done, h.partial, h.marked.value);
      EmptyTail(PrintRows(h.done[..h.marked.value]));
    }
  }

  /** The calls that name something. */
  predicate IsNamed(call: Call) {
    call.CallTable? || call.CallSymbol? || call.CallColumn? || call.CallColumnTs?
  }

  lemma NamedCallIsRecorded(h: History, b: Buf, call: Call)
    requires Represents(h, b) && IsNamed(call)
    ensures Represents(Record(h, call, b.maxNameLen), Apply(b, call).0)
    ensures Apply(b, call).1.Ok? <==> Accepts(h, call, b.maxNameLen)
  {
    match call
    case CallTable(name) => TableIsRecorded(h, b, name);
    case CallSymbol(name, value) => SymbolIsRecorded(h, b, name, value);
    case CallColumn(name, value) => PlainColumnIsRecorded(h, b, name, value);
    case CallColumnTs(name, stamp) => TimeColumnIsRecorded(h, b, name, stamp);
  }

  lemma OtherCallIsRecorded(h: History, b: Buf, call: Call)
    requires Represents(h, b) && !IsNamed(call)
    ensures Represents(Record(h, call, b.maxNameLen), Apply(b, call).0)
    ensures Apply(b, call).1.Ok? <==> Accepts(h, call, b.maxNameLen)
  {
    match call
    case CallAt(stamp) =>
      AtIsWritten(h, b, stamp);
      AtIsRecorded(h, b, stamp);
    case CallAtNow => AtNowIsRecorded(h, b);
    case CallSetMarker => MarkerIsRecorded(h, b);
    case CallRewind => RewindIsRecorded(h, b);
    case CallClearMarker =>
    case CallClear => EmptyIsRepresented(b.maxNameLen);
  }

  /** One call: the buffer still represents its history. */
  lemma CallIsRecorded(h: History, b: Buf, call: Call)
    requires Represents(h, b)
    ensures Represents(Record(h, call, b.maxNameLen), Apply(b, call).0)
  {
    if IsNamed(call) {
      NamedCallIsRecorded(h, b, call);
    } else {
      OtherCallIsRecorded(h, b, call);
    }
  }

  lemma EmptyIsRepresented(maxNameLen: nat)
    ensures Represents(EMPTY, NewBuf(maxNameLen))
  {
  }

  /** Which calls the documentation accepts. */
  predicate Accepts(h: History, call: Call, maxNameLen: nat) {
    match call
    case CallTable(name) => NameFits(name, maxNameLen) && MayStart(h)
    case CallSymbol(name, _) => NameFits(name, maxNameLen) && MayAddSymbol(h)
    case CallColumn(name, _) => NameFits(name, maxNameLen) && MayAddColumn(h)
    case CallColumnTs(name, stamp) => NameFits(name, maxNameLen) && MayAddColumn(h) && stamp.Ok?
    case CallAt(stamp) => MayFinish(h) && Designated(stamp).Some?
    case CallAtNow => MayFinish(h)
    case CallSetMarker => MayStart(h)
    case CallRewind => h.marked.Some?
    case CallClearMarker => true
    case CallClear => true
  }

  /** The code accepts exactly those. */
  lemma CallIsJudged(h: History, b: Buf, call: Call)
    requires Represents(h, b)
    ensures Apply(b, call).1.Ok? <==> Accepts(h, call, b.maxNameLen)
  {
    if IsNamed(call) {
      NamedCallIsRecorded(h, b, call);
    } else {
      OtherCallIsRecorded(h, b, call);
    }
  }

  /** Only valid text is ever recorded. */
  lemma RecordKeepsText(h: History, call: Call, maxNameLen: nat)
    requires HistoryIsText(h)
    ensures HistoryIsText(Record(h, call, maxNameLen))
  {
  }
}
