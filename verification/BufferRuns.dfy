/** What holds after any run of calls on a row buffer, accepted and refused ones alike. */
module BufferRuns {
  import opened Outcomes
  import opened Bytes
  import opened Utf8
  import opened Rows
  import opened RowParser
  import opened Framing
  import opened CallOrder
  import opened BufferModel
  import opened RowHistory

  /** The buffer after some calls on a new one. */
  function Reached(maxNameLen: nat, calls: seq<Call>): Buf { Run(NewBuf(maxNameLen), calls) }

  function RecordRun(h: History, calls: seq<Call>, maxNameLen: nat): History
    decreases |calls|
  {
    if calls == [] then h else RecordRun(Record(h, calls[0], maxNameLen), calls[1..], maxNameLen)
  }

  /** The rows that were written: what the accepted calls among `calls` recorded. */
  function Recorded(maxNameLen: nat, calls: seq<Call>): History { RecordRun(EMPTY, calls, maxNameLen) }

  lemma NameLimitIsFixed(b: Buf, call: Call)
    ensures Apply(b, call).0.maxNameLen == b.maxNameLen
  {
  }

  lemma {:induction false} RunIsRecorded(h: History, b: Buf, calls: seq<Call>)
    requires Represents(h, b) && HistoryIsText(h)
    ensures Represents(RecordRun(h, calls, b.maxNameLen), Run(b, calls))
    ensures HistoryIsText(RecordRun(h, calls, b.maxNameLen))
    ensures Run(b, calls).maxNameLen == b.maxNameLen
    decreases |calls|
  {
    if calls != [] {
      CallIsRecorded(h, b, calls[0]);
      RecordKeepsText(h, calls[0], b.maxNameLen);
      NameLimitIsFixed(b, calls[0]);
      RunIsRecorded(Record(h, calls[0], b.maxNameLen), Apply(b, calls[0]).0, calls[1..]);
    }
  }

  lemma ReachedIsRecorded(maxNameLen: nat, calls: seq<Call>)
    ensures Represents(Recorded(maxNameLen, calls), Reached(maxNameLen, calls))
    ensures HistoryIsText(Recorded(maxNameLen, calls))
    ensures Reached(maxNameLen, calls).maxNameLen == maxNameLen
  {
    EmptyIsRepresented(maxNameLen);
    RunIsRecorded(EMPTY, NewBuf(maxNameLen), calls);
  }

  /**
    Round trip over whole runs: reading the output of any run gives back the
    finished rows and the unfinished one that the run wrote.
   */
  lemma RoundTrip(maxNameLen: nat, calls: seq<Call>)
    ensures
      var h := Recorded(maxNameLen, calls);
      ReadRows(Reached(maxNameLen, calls).output) == Some((h.done, Visible(h.partial)))
  {
    ReachedIsRecorded(maxNameLen, calls);
    var h := Recorded(maxNameLen, calls);
    ReadPrintedRows(h.done, h.partial);
  }

  /**
    The incrementally kept state is what reading the output again would give,
    except right after an unchecked, empty table name, which leaves no octet.
   */
  lemma StateIsReread(maxNameLen: nat, calls: seq<Call>)
    ensures
      var b, h := Reached(maxNameLen, calls), Recorded(maxNameLen, calls);
      && ReadRows(b.output).Some?
      && var (rows, tail) := ReadRows(b.output).value;
      && b.state.rowCount == |rows|
      && (b.state == StateOf(rows, tail) <==> !IsInvisible(h.partial))
  {
    ReachedIsRecorded(maxNameLen, calls);
    RoundTrip(maxNameLen, calls);
  }

  /** The exception does happen: an unchecked, empty table name changes the state and writes nothing. */
  lemma EmptyTableWitness(empty: str)
    requires empty == []
    ensures
      var b := Reached(127, [CallTable(Ok(empty))]);
      && b.output == []
      && ReadRows(b.output) == Some(([], None))
      && b.state.opCase == TableWritten
      && b.state != StateOf([], None)
  {
    var call := CallTable(Ok(empty));
    var b := Apply(NewBuf(127), call).0;
    assert [call][1..] == [];
    assert Run(b, [call][1..]) == b;
    assert Reached(127, [call]) == b;
  }

  /** The row count is the number of unescaped line terminators. */
  lemma RowCountIsTerminators(maxNameLen: nat, calls: seq<Call>)
    ensures
      var b := Reached(maxNameLen, calls);
      CountTerminators(b.output) == b.state.rowCount
  {
    ReachedIsRecorded(maxNameLen, calls);
    var h := Recorded(maxNameLen, calls);
    TerminatorsAreRows(h.done, h.partial);
  }

  /** Neither kind of line ending ever stands in the output without its escape, but for the row ends. */
  lemma NoBareReturns(maxNameLen: nat, calls: seq<Call>)
    ensures CountReturns(Reached(maxNameLen, calls).output) == 0
  {
    ReachedIsRecorded(maxNameLen, calls);
    var h := Recorded(maxNameLen, calls);
    TerminatorsAreRows(h.done, h.partial);
  }

  /** `transactional` holds exactly while all rows that were started name one table. */
  lemma TransactionalIsOneTable(maxNameLen: nat, calls: seq<Call>)
    ensures
      var b, h := Reached(maxNameLen, calls), Recorded(maxNameLen, calls);
      var tables := Tables(h.done, h.partial);
      && (b.state.transactional <==> forall i, j :: 0 <= i < |tables| && 0 <= j < |tables| ==> tables[i] == tables[j])
      && (b.state.firstTable == if tables == [] then None else Some(tables[0]))
  {
    ReachedIsRecorded(maxNameLen, calls);
    var h := Recorded(maxNameLen, calls);
    var tables := Tables(h.done, h.partial);
    if OneTable(tables) {
      forall i, j | 0 <= i < |tables| && 0 <= j < |tables|
        ensures tables[i] == tables[j]
      {
        assert tables[i] == tables[0] && tables[j] == tables[0];
      }
    }
  }

  /** In every reachable state the next call is allowed exactly as documented. */
  lemma OrderIsDocumented(maxNameLen: nat, calls: seq<Call>, call: Call, op: Op)
    ensures
      var b, h := Reached(maxNameLen, calls), Recorded(maxNameLen, calls);
      && (Allows(b.state.opCase, op) <==> Permits(h, op))
      && (Apply(b, call).1.Ok? <==> Accepts(h, call, maxNameLen))
  {
    ReachedIsRecorded(maxNameLen, calls);
    AllowsIsPermits(Recorded(maxNameLen, calls), op);
    CallIsJudged(Recorded(maxNameLen, calls), Reached(maxNameLen, calls), call);
  }

  predicate MarkerFits(output: bytes, position: nat) {
    position <= |output| && IsCharBoundary(output, position)
  }

  /** A marker is never past the end of the output and always between two characters. */
  lemma MarkerIsBoundary(h: History, b: Buf)
    requires Represents(h, b) && HistoryIsText(h)
    ensures ValidUtf8(b.output)
    ensures b.marker.Some? ==> MarkerFits(b.output, b.marker.value.position)
  {
    PrintIsValidUtf8(h.done, h.partial);
    if h.marked.Some? {
      RowsArePrefix(h.done, h.partial, h.marked.value);
      RowsAreValid(h.done[..h.marked.value]);
      BoundaryCutsValidText(b.output, b.marker.value.position);
    }
  }

  /** The output is valid UTF-8 in every reachable state, and rewinding cannot cut a character. */
  lemma OutputIsValidUtf8(maxNameLen: nat, calls: seq<Call>)
    ensures
      var b := Reached(maxNameLen, calls);
      && IsUtf8Octets(b.output)
      && (b.marker.Some? ==> MarkerFits(b.output, b.marker.value.position))
  {
    ReachedIsRecorded(maxNameLen, calls);
    MarkerIsBoundary(Recorded(maxNameLen, calls), Reached(maxNameLen, calls));
    ScannerIsGrammar(Reached(maxNameLen, calls).output);
  }

  // ----- The invariant of a buffer in use -----

  /** Some history of accepted calls explains every field of the buffer. */
  ghost predicate Sound(b: Buf) {
    exists h :: Represents(h, b) && HistoryIsText(h)
  }

  lemma NewBufIsSound(maxNameLen: nat)
    ensures Sound(NewBuf(maxNameLen))
  {
    EmptyIsRepresented(maxNameLen);
  }

  lemma ApplyIsSound(b: Buf, call: Call)
    requires Sound(b)
    ensures Sound(Apply(b, call).0)
  {
    var h :| Represents(h, b) && HistoryIsText(h);
    CallIsRecorded(h, b, call);
    RecordKeepsText(h, call, b.maxNameLen);
  }

  lemma FlushableShape(h: History)
    requires Allows(CaseOf(h.done, h.partial), OpFlush)
    ensures h.partial.None? && h.done != []
  {
    AllowsIsPermits(h, OpFlush);
  }

  lemma FinishedRowsText(rows: seq<Row>)
    requires rows != []
    ensures TextOf(rows, None) == PrintRows(rows) && PrintRows(rows) != []
  {
    TextWithoutPartial(rows);
    RowsTakeRoom(rows);
  }

  /** A buffer that may be flushed holds at least one row and no unfinished text. */
  lemma FlushableHistory(h: History, b: Buf)
    requires Represents(h, b) && Allows(b.state.opCase, OpFlush)
    ensures h.done != [] && b.output == PrintRows(h.done) && b.output != []
    ensures b.state == StateOf(h.done, None)
  {
    FlushableShape(h);
    FinishedRowsText(h.done);
  }

  lemma FlushableIsRows(b: Buf) returns (rows: seq<Row>)
    requires Sound(b) && Allows(b.state.opCase, OpFlush)
    ensures rows != [] && b.output == PrintRows(rows) && b.output != []
    ensures b.state == StateOf(rows, None)
  {
    var h :| Represents(h, b) && HistoryIsText(h);
    FlushableHistory(h, b);
    rows := h.done;
  }

  lemma RowsTakeRoom(rows: seq<Row>)
    ensures |PrintRows(rows)| >= if rows == [] then 0 else 1
  {
  }

  // ----- Rewinding -----

  /** The call neither sets, clears nor consumes the marker, nor clears the buffer. */
  predicate KeepsMarker(b: Buf, call: Call) {
    match call
    case CallSetMarker => SetMarker(b).1.Err?
    case CallRewind => false
    case CallClearMarker => false
    case CallClear => false
    case _ => true
  }

  predicate RunKeepsMarker(b: Buf, calls: seq<Call>)
    decreases |calls|
  {
    calls != [] ==> KeepsMarker(b, calls[0]) && RunKeepsMarker(Apply(b, calls[0]).0, calls[1..])
  }

  lemma {:induction false} RunOnlyAppends(b: Buf, calls: seq<Call>)
    requires RunKeepsMarker(b, calls)
    ensures b.output <= Run(b, calls).output
    ensures Run(b, calls).marker == b.marker
    ensures Run(b, calls).maxNameLen == b.maxNameLen
    decreases |calls|
  {
    if calls != [] {
      CallOnlyAppends(b, calls[0]);
      RunOnlyAppends(Apply(b, calls[0]).0, calls[1..]);
    }
  }

  lemma CallOnlyAppends(b: Buf, call: Call)
    requires KeepsMarker(b, call)
    ensures b.output <= Apply(b, call).0.output
    ensures Apply(b, call).0.marker == b.marker
    ensures Apply(b, call).0.maxNameLen == b.maxNameLen
  {
  }

  /**
    Rewinding is exact: after a marker is set, any calls that leave it alone
    leave the marked output in place, and rewinding restores output and state
    as they were, with no marker left.
   */
  lemma RewindIsExact(b: Buf, calls: seq<Call>)
    requires SetMarker(b).1.Ok? && RunKeepsMarker(SetMarker(b).0, calls)
    ensures
      var late := Run(SetMarker(b).0, calls);
      && b.output <= late.output
      && RewindToMarker(late) == (b.(marker := None), Ok(()))
  {
    RunOnlyAppends(SetMarker(b).0, calls);
    assert Run(SetMarker(b).0, calls).output[..|b.output|] == b.output;
  }
}
