/** Flushing buffers through a sender, as functions. */
module SenderModel {
  import opened Outcomes
  import opened Bytes
  import opened Rows
  import opened RowParser
  import opened CallOrder
  import opened BufferModel
  import opened RowHistory
  import opened BufferRuns
  import opened CallLog

  /** What `write_all` does: everything, or an error after some of the octets. */
  datatype WriteOutcome = Written | Broken(after: nat)

  /** A sender over TCP, with the octets its connection has carried so far. */
  datatype TcpSender = TcpSender(connected: bool, maxBufSize: nat, wire: bytes)

  /** The checks every flush makes before it looks at the transport, in order. */
  function CheckFlush(connected: bool, maxBufSize: nat, b: Buf): Status {
    if !connected then Err(SocketError)
    else
      var _ :- CheckOp(b, OpFlush);
      if |b.output| > maxBufSize then Err(InvalidApiCall) else Ok(())
  }

  /** The octets a failed write leaves on the wire. */
  function Carried(data: bytes, write: WriteOutcome): bytes {
    match write
    case Written => data
    case Broken(after) => if after < |data| then data[..after] else data
  }

  function FlushTcp(s: TcpSender, b: Buf, transactional: bool, write: WriteOutcome): (TcpSender, Status) {
    match CheckFlush(s.connected, s.maxBufSize, b)
    case Err(e) => (s, Err(e))
    case Ok(_) =>
      if b.output == [] then (s, Ok(()))
      else if transactional then (s, Err(InvalidApiCall))
      else
        var s' := s.(wire := s.wire + Carried(b.output, write));
        if write.Written? then (s', Ok(())) else (s'.(connected := false), Err(SocketError))
  }

  datatype FlushKind = AndClear | AndKeep | AndKeepWithFlags(transactional: bool)

  /** The public flushes: `flush` clears the buffer if all went well, the others keep it. */
  function Flush(s: TcpSender, b: Buf, kind: FlushKind, write: WriteOutcome): (TcpSender, Buf, Status) {
    var transactional := kind.AndKeepWithFlags? && kind.transactional;
    var (s', status) := FlushTcp(s, b, transactional, write);
    (s', if kind.AndClear? && status.Ok? then Cleared(b) else b, status)
  }

  /** No buffer in use that passes the order check is empty: the empty branch is never taken. */
  lemma EmptyBranchIsDead(connected: bool, maxBufSize: nat, maxNameLen: nat, calls: seq<Call>)
    ensures
      var b := Reached(maxNameLen, calls);
      CheckFlush(connected, maxBufSize, b).Ok? ==> b.output != []
  {
    var b := Reached(maxNameLen, calls);
    if CheckFlush(connected, maxBufSize, b).Ok? {
      ReachedIsSound(maxNameLen, calls);
      var rows := FlushableIsRows(b);
    }
  }

  /** `flush` empties the buffer exactly when it succeeds, and leaves it as it was when it fails. */
  lemma FlushClearsIffOk(s: TcpSender, maxNameLen: nat, calls: seq<Call>, write: WriteOutcome)
    ensures
      var b := Reached(maxNameLen, calls);
      var (s', b', status) := Flush(s, b, AndClear, write);
      && (status.Ok? ==> b.output != [] && b' == NewBuf(maxNameLen))
      && (status.Err? ==> b' == b)
  {
    EmptyBranchIsDead(s.connected, s.maxBufSize, maxNameLen, calls);
    ReachedIsRecorded(maxNameLen, calls);
  }

  /** The other flushes leave the buffer alone whatever happens, and only one of them can be transactional. */
  lemma FlushKeepsBuffer(s: TcpSender, b: Buf, kind: FlushKind, write: WriteOutcome)
    ensures !kind.AndClear? ==> Flush(s, b, kind, write).1 == b
    ensures Flush(s, b, AndKeep, write) == Flush(s, b, AndKeepWithFlags(false), write)
    ensures Flush(s, b, AndKeepWithFlags(true), write).0 == s
    ensures var (s', b', status) := Flush(s, b, AndClear, write);
            (s', status) == (Flush(s, b, AndKeep, write).0, Flush(s, b, AndKeep, write).2)
  {
  }

  lemma ChecksPassExactly(connected: bool, maxBufSize: nat, h: History, b: Buf)
    requires b.state.opCase == CaseOf(h.done, h.partial)
    ensures CheckFlush(connected, maxBufSize, b)
         == if !connected then Err(SocketError)
            else if !MayFlush(h) || |b.output| > maxBufSize then Err(InvalidApiCall)
            else Ok(())
  {
    AllowsIsPermits(h, OpFlush);
  }

  /** What a flush over TCP returns, with the checks in their order and the error of each. */
  lemma FlushOutcomeExactly(s: TcpSender, maxNameLen: nat, calls: seq<Call>, transactional: bool, write: WriteOutcome)
    ensures
      var b := Reached(maxNameLen, calls);
      FlushTcp(s, b, transactional, write).1
        == if !s.connected then Err(SocketError)
           else if !MayFlush(Recorded(maxNameLen, calls)) then Err(InvalidApiCall)
           else if |b.output| > s.maxBufSize || transactional then Err(InvalidApiCall)
           else if write.Broken? then Err(SocketError)
           else Ok(())
  {
    EmptyBranchIsDead(s.connected, s.maxBufSize, maxNameLen, calls);
    ReachedIsRecorded(maxNameLen, calls);
    ChecksPassExactly(s.connected, s.maxBufSize, Recorded(maxNameLen, calls), Reached(maxNameLen, calls));
  }

  // ----- Transactional flushes over HTTP -----

  /**
    A buffer that may be flushed passes the transactional check exactly when all
    the rows a server would read from its output name one table.
   */
  lemma TransactionalMeansOneTable(maxNameLen: nat, calls: seq<Call>)
    ensures
      var b := Reached(maxNameLen, calls);
      Allows(b.state.opCase, OpFlush) ==>
        && ReadRows(b.output).Some? && ReadRows(b.output).value.1.None?
        && var rows := ReadRows(b.output).value.0;
           b.state.transactional <==> forall i :: 0 <= i < |rows| ==> rows[i].line.table == rows[0].line.table
  {
    var b := Reached(maxNameLen, calls);
    if Allows(b.state.opCase, OpFlush) {
      ReachedIsSound(maxNameLen, calls);
      var rows := FlushableIsRows(b);
      RoundTripOfRows(rows);
      TablesOfRows(rows);
    }
  }

  lemma RoundTripOfRows(rows: seq<Row>)
    ensures ReadRows(PrintRows(rows)) == Some((rows, None))
  {
    ReadPrintedRows(rows, None);
    assert PrintRows(rows) + PrintPartial(None) == PrintRows(rows);
  }

  lemma TablesOfRows(rows: seq<Row>)
    requires rows != []
    ensures OneTable(Tables(rows, None)) <==>
            forall i :: 0 <= i < |rows| ==> rows[i].line.table == rows[0].line.table
  {
    var tables := Tables(rows, None);
    assert |tables| == |rows| && forall i :: 0 <= i < |rows| ==> tables[i] == rows[i].line.table;
    if OneTable(tables) {
      forall i | 0 <= i < |rows|
        ensures rows[i].line.table == rows[0].line.table
      {
        assert tables[i] == tables[0];
      }
    }
  }
}
