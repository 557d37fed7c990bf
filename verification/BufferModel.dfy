/**
  The row buffer's calls as functions on its fields. `BufferObject.Buffer` is
  the class that carries the same fields and is proved to follow them.
 */
module BufferModel {
  import opened Outcomes
  import opened Bytes
  import opened Utf8
  import opened Escaping
  import opened Numerals
  import opened Timestamps
  import opened Rows
  import opened CallOrder

  datatype BufferState = BufferState(
    opCase: OpCase,
    rowCount: nat,
    firstTable: Option<bytes>,
    transactional: bool)

  const FRESH_STATE := BufferState(Init, 0, None, true)

  /** A rewind point: the output length and a copy of the state. */
  datatype Marker = Marker(position: nat, state: BufferState)

  datatype Buf = Buf(output: bytes, state: BufferState, marker: Option<Marker>, maxNameLen: nat)

  function NewBuf(maxNameLen: nat): Buf { Buf([], FRESH_STATE, None, maxNameLen) }

  /** The result of converting a caller's argument to a table or column name. */
  type NameArg = Result<str, ErrorCode>

  /** The result of converting a caller's argument to a timestamp. */
  type StampArg = Result<Timestamp, ErrorCode>

  /** A column value that is written without any conversion that could fail. */
  type PlainValue = v: Value | ValueIsText(v) && !v.Time? && !v.Missing? witness Boolean(true)

  datatype Call =
    | CallTable(name: NameArg)
    | CallSymbol(name: NameArg, value: str)
    | CallColumn(name: NameArg, plain: PlainValue)
    | CallColumnTs(name: NameArg, stamp: StampArg)
    | CallAt(stamp: StampArg)
    | CallAtNow
    | CallSetMarker
    | CallRewind
    | CallClearMarker
    | CallClear

  function CheckOp(b: Buf, op: Op): Status {
    if Allows(b.state.opCase, op) then Ok(()) else Err(InvalidApiCall)
  }

  /** Conversion, then length, then order: the checks every named call makes first. */
  function CheckNamed(b: Buf, name: NameArg, op: Op): Result<str, ErrorCode> {
    var text :- name;
    if |text| > b.maxNameLen then Err(InvalidName)
    else
      var _ :- CheckOp(b, op);
      Ok(text)
  }

  function WriteTable(b: Buf, name: NameArg): (Buf, Status) {
    match CheckNamed(b, name, OpTable)
    case Err(e) => (b, Err(e))
    case Ok(text) =>
      var state := b.state.(opCase := TableWritten);
      (b.(output := b.output + Written(Unquoted, text),
          state := match state.firstTable {
            case Some(first) => if first != text then state.(transactional := false) else state
            case None => state.(firstTable := Some(text))
          }),
       Ok(()))
  }

  function WriteSymbol(b: Buf, name: NameArg, value: str): (Buf, Status) {
    match CheckNamed(b, name, OpSymbol)
    case Err(e) => (b, Err(e))
    case Ok(text) =>
      (b.(output := b.output + [COMMA] + Written(Unquoted, text) + [EQUALS] + Written(Unquoted, value),
          state := b.state.(opCase := SymbolWritten)),
       Ok(()))
  }

  function WriteColumnKey(b: Buf, name: NameArg): (Buf, Status) {
    match CheckNamed(b, name, OpColumn)
    case Err(e) => (b, Err(e))
    case Ok(text) =>
      var separator := if Allows(b.state.opCase, OpSymbol) then SPACE else COMMA;
      (b.(output := b.output + [separator] + Written(Unquoted, text) + [EQUALS],
          state := b.state.(opCase := ColumnWritten)),
       Ok(()))
  }

  function WriteColumn(b: Buf, name: NameArg, value: PlainValue): (Buf, Status) {
    var (keyed, status) := WriteColumnKey(b, name);
    if status.Err? then (keyed, status)
    else (keyed.(output := keyed.output + PrintValue(value)), Ok(()))
  }

  /** The key is written before the timestamp argument is converted. */
  function WriteColumnTs(b: Buf, name: NameArg, stamp: StampArg): (Buf, Status) {
    var (keyed, status) := WriteColumnKey(b, name);
    if status.Err? then (keyed, status)
    else
      match stamp
      case Err(e) => (keyed, Err(e))
      case Ok(ts) => (keyed.(output := keyed.output + PrintValue(Time(AsMicros(ts)))), Ok(()))
  }

  function FinishRow(b: Buf, ending: bytes): Buf {
    b.(output := b.output + ending,
       state := b.state.(opCase := MayFlushOrTable, rowCount := b.state.rowCount + 1))
  }

  /** The checks `at` makes, in order; a designated timestamp is in nanoseconds and not negative. */
  function CheckAt(b: Buf, stamp: StampArg): Result<i64, ErrorCode> {
    var _ :- CheckOp(b, OpAt);
    var ts :- stamp;
    var nanos :- AsNanos(ts);
    if nanos < 0 then Err(InvalidTimestamp) else Ok(nanos)
  }

  function WriteAt(b: Buf, stamp: StampArg): (Buf, Status) {
    match CheckAt(b, stamp)
    case Err(e) => (b, Err(e))
    case Ok(nanos) => (FinishRow(b, [SPACE] + Decimal(nanos) + [NEWLINE]), Ok(()))
  }

  function WriteAtNow(b: Buf): (Buf, Status) {
    match CheckOp(b, OpAt)
    case Err(e) => (b, Err(e))
    case Ok(_) => (FinishRow(b, [NEWLINE]), Ok(()))
  }

  function SetMarker(b: Buf): (Buf, Status) {
    if !Allows(b.state.opCase, OpTable) then (b, Err(InvalidApiCall))
    else (b.(marker := Some(Marker(|b.output|, b.state))), Ok(()))
  }

  /** `truncate` beyond the end does nothing. */
  function Truncated(s: bytes, k: nat): bytes { if k <= |s| then s[..k] else s }

  function RewindToMarker(b: Buf): (Buf, Status) {
    match b.marker
    case None => (b, Err(InvalidApiCall))
    case Some(m) => (b.(output := Truncated(b.output, m.position), state := m.state, marker := None), Ok(()))
  }

  function Cleared(b: Buf): Buf { NewBuf(b.maxNameLen) }

  function Apply(b: Buf, call: Call): (Buf, Status) {
    match call
    case CallTable(name) => WriteTable(b, name)
    case CallSymbol(name, value) => WriteSymbol(b, name, value)
    case CallColumn(name, value) => WriteColumn(b, name, value)
    case CallColumnTs(name, stamp) => WriteColumnTs(b, name, stamp)
    case CallAt(stamp) => WriteAt(b, stamp)
    case CallAtNow => WriteAtNow(b)
    case CallSetMarker => SetMarker(b)
    case CallRewind => RewindToMarker(b)
    case CallClearMarker => (b.(marker := None), Ok(()))
    case CallClear => (Cleared(b), Ok(()))
  }

  function Run(b: Buf, calls: seq<Call>): Buf
    decreases |calls|
  {
    if calls == [] then b else Run(Apply(b, calls[0]).0, calls[1..])
  }

  // ----- Refused calls -----

  /** The call wrote a column's key and then could not convert its timestamp. */
  predicate LeavesKeyBehind(b: Buf, call: Call) {
    call.CallColumnTs? && call.stamp.Err? && CheckNamed(b, call.name, OpColumn).Ok?
  }

  /**
    A refused call leaves output, state and marker as they were, with one
    exception: `column_ts` whose argument fails to convert.
   */
  lemma RefusedCallChangesNothing(b: Buf, call: Call)
    requires Apply(b, call).1.Err?
    ensures Apply(b, call).0 == b <==> !LeavesKeyBehind(b, call)
  {
    if LeavesKeyBehind(b, call) {
      assert |Apply(b, call).0.output| >= |b.output| + 2;
    }
  }

  lemma PlainLetter(b: byte)
    requires !MustEscape(Unquoted, b)
    ensures Written(Unquoted, [b]) == [b]
  {
    assert [b][1..] == [];
    assert Escape(Unquoted, [b]) == [b] + Escape(Unquoted, []);
  }

  /** The exception does happen: after `table("t")`, a failing `column_ts("x", ..)` leaves `t x=`. */
  lemma RefusedColumnTsWitness(t: str, x: str)
    requires t == [LETTER_T] && x == [LETTER_X]
    ensures
      var b := Apply(NewBuf(127), CallTable(Ok(t))).0;
      var (b', status) := Apply(b, CallColumnTs(Ok(x), Err(InvalidTimestamp)));
      && status == Err(InvalidTimestamp)
      && b'.output == [LETTER_T, SPACE, LETTER_X, EQUALS]
      && b'.state.opCase == ColumnWritten
  {
    PlainLetter(LETTER_T);
    PlainLetter(LETTER_X);
  }

  /** With the library's own timestamp types the conversion cannot fail, so there is no exception. */
  lemma BuiltInTimestampsAreAtomic(b: Buf, name: NameArg, ts: Timestamp)
    requires Apply(b, CallColumnTs(name, Ok(ts))).1.Err?
    ensures Apply(b, CallColumnTs(name, Ok(ts))).0 == b
  {
  }
}
