/** The bitmask that orders the row calls, and the row language it is meant to accept. */
module CallOrder {
  import opened Outcomes

  datatype Op = OpTable | OpSymbol | OpColumn | OpAt | OpFlush

  datatype OpCase = Init | TableWritten | SymbolWritten | ColumnWritten | MayFlushOrTable

  function Bit(op: Op): bv8 {
    match op
    case OpTable => 1
    case OpSymbol => 2
    case OpColumn => 4
    case OpAt => 8
    case OpFlush => 16
  }

  function Mask(c: OpCase): bv8 {
    match c
    case Init => Bit(OpTable)
    case TableWritten => Bit(OpSymbol) | Bit(OpColumn)
    case SymbolWritten => Bit(OpSymbol) | Bit(OpColumn) | Bit(OpAt)
    case ColumnWritten => Bit(OpColumn) | Bit(OpAt)
    case MayFlushOrTable => Bit(OpFlush) | Bit(OpTable)
  }

  predicate Allows(c: OpCase, op: Op) { Mask(c) & Bit(op) != 0 }

  /** The case a row call leaves behind when it is accepted. */
  function CaseAfter(op: Op): OpCase
    requires op != OpFlush
  {
    match op
    case OpTable => TableWritten
    case OpSymbol => SymbolWritten
    case OpColumn => ColumnWritten
    case OpAt => MayFlushOrTable
  }

  type RowOp = op: Op | op != OpFlush witness OpTable

  /** The machine's verdict on a whole sequence of row calls; None once one is refused. */
  function Drive(ops: seq<RowOp>): Option<OpCase> {
    if ops == [] then Some(Init)
    else
      match Drive(ops[..|ops| - 1])
      case None => None
      case Some(c) => if Allows(c, ops[|ops| - 1]) then Some(CaseAfter(ops[|ops| - 1])) else None
  }

  // ----- The documented language -----

  /** How many symbols and columns a row has. */
  datatype Shape = Shape(symbols: nat, columns: nat)

  function Repeat(op: RowOp, n: nat): seq<RowOp> {
    if n == 0 then [] else Repeat(op, n - 1) + [op]
  }

  /** A row that is not finished: a table, then symbols, then columns. */
  function StartedRow(s: Shape): seq<RowOp> {
    [OpTable] + Repeat(OpSymbol, s.symbols) + Repeat(OpColumn, s.columns)
  }

  /** Finished rows, one after the other, each ended by `at`. */
  function FinishedRows(rows: seq<Shape>): seq<RowOp> {
    if rows == [] then []
    else FinishedRows(rows[..|rows| - 1]) + StartedRow(rows[|rows| - 1]) + [OpAt]
  }

  function Sentence(rows: seq<Shape>, started: Option<Shape>): seq<RowOp> {
    match started
    case None => FinishedRows(rows)
    case Some(s) => FinishedRows(rows) + StartedRow(s)
  }

  /** A finished row has at least one symbol or column. */
  predicate RowsHaveFields(rows: seq<Shape>) {
    forall i :: 0 <= i < |rows| ==> rows[i].symbols + rows[i].columns > 0
  }

  ghost predicate InRowLanguage(ops: seq<RowOp>) {
    exists rows, started :: RowsHaveFields(rows) && ops == Sentence(rows, started)
  }

  function CaseOfSentence(rows: seq<Shape>, started: Option<Shape>): OpCase {
    match started
    case None => if rows == [] then Init else MayFlushOrTable
    case Some(s) =>
      if s.columns > 0 then ColumnWritten else if s.symbols > 0 then SymbolWritten else TableWritten
  }

  // One more call at the end of a row, or of a sentence.

  lemma MoreSymbols(s: Shape)
    requires s.columns == 0
    ensures StartedRow(s.(symbols := s.symbols + 1)) == StartedRow(s) + [OpSymbol]
  {
    var symbols := Repeat(OpSymbol, s.symbols);
    assert [OpTable] + (symbols + [OpSymbol]) + [] == [OpTable] + symbols + [] + [OpSymbol];
  }

  lemma MoreColumns(s: Shape)
    ensures StartedRow(s.(columns := s.columns + 1)) == StartedRow(s) + [OpColumn]
  {
    var head, columns := [OpTable] + Repeat(OpSymbol, s.symbols), Repeat(OpColumn, s.columns);
    assert head + (columns + [OpColumn]) == (head + columns) + [OpColumn];
  }

  lemma StartedExtend(rows: seq<Shape>, s: Shape, s': Shape, last: RowOp)
    requires StartedRow(s') == StartedRow(s) + [last]
    ensures Sentence(rows, Some(s')) == Sentence(rows, Some(s)) + [last]
  {
    var before, row := FinishedRows(rows), StartedRow(s);
    assert before + (row + [last]) == (before + row) + [last];
  }

  lemma StartExtend(rows: seq<Shape>)
    ensures Sentence(rows, Some(Shape(0, 0))) == Sentence(rows, None) + [OpTable]
  {
    assert StartedRow(Shape(0, 0)) == [OpTable];
  }

  lemma FinishExtend(rows: seq<Shape>, s: Shape)
    ensures Sentence(rows + [s], None) == Sentence(rows, Some(s)) + [OpAt]
  {
    assert (rows + [s])[..|rows|] == rows;
  }

  /** Takes the last call off a non-empty sentence; what is left is a sentence too. */
  lemma SentencePrefix(rows: seq<Shape>, started: Option<Shape>)
    returns (rows': seq<Shape>, started': Option<Shape>, last: RowOp)
    requires RowsHaveFields(rows) && (rows != [] || started.Some?)
    ensures RowsHaveFields(rows')
    ensures Sentence(rows, started) == Sentence(rows', started') + [last]
    ensures Allows(CaseOfSentence(rows', started'), last)
    ensures CaseAfter(last) == CaseOfSentence(rows, started)
  {
    match started
    case None =>
      rows', started', last := rows[..|rows| - 1], Some(rows[|rows| - 1]), OpAt;
    case Some(s) =>
      if s.columns > 0 {
        var s' := s.(columns := s.columns - 1);
        rows', started', last := rows, Some(s'), OpColumn;
        MoreColumns(s');
        StartedExtend(rows, s', s, last);
      } else if s.symbols > 0 {
        var s' := s.(symbols := s.symbols - 1);
        rows', started', last := rows, Some(s'), OpSymbol;
        MoreSymbols(s');
        StartedExtend(rows, s', s, last);
      } else {
        rows', started', last := rows, None, OpTable;
        StartExtend(rows);
      }
  }

  lemma {:induction false} SentenceIsAccepted(rows: seq<Shape>, started: Option<Shape>)
    requires RowsHaveFields(rows)
    ensures Drive(Sentence(rows, started)) == Some(CaseOfSentence(rows, started))
    decreases |Sentence(rows, started)|
  {
    if rows != [] || started.Some? {
      var rows', started', last := SentencePrefix(rows, started);
      SentenceIsAccepted(rows', started');
      assert Sentence(rows, started)[..|Sentence(rows', started')|] == Sentence(rows', started');
    }
  }

  /** The other way round: an allowed call makes a sentence longer. */
  lemma SentenceExtend(rows: seq<Shape>, started: Option<Shape>, last: RowOp)
    returns (rows': seq<Shape>, started': Option<Shape>)
    requires RowsHaveFields(rows) && Allows(CaseOfSentence(rows, started), last)
    ensures RowsHaveFields(rows')
    ensures Sentence(rows', started') == Sentence(rows, started) + [last]
    ensures CaseOfSentence(rows', started') == CaseAfter(last)
  {
    match last
    case OpTable =>
      rows', started' := rows, Some(Shape(0, 0));
      StartExtend(rows);
    case OpSymbol =>
      var s := started.value;
      var s' := s.(symbols := s.symbols + 1);
      rows', started' := rows, Some(s');
      MoreSymbols(s);
      StartedExtend(rows, s, s', last);
    case OpColumn =>
      var s := started.value;
      var s' := s.(columns := s.columns + 1);
      rows', started' := rows, Some(s');
      MoreColumns(s);
      StartedExtend(rows, s, s', last);
    case OpAt =>
      rows', started' := rows + [started.value], None;
      FinishExtend(rows, started.value);
  }

  /** The sentence an accepted sequence of calls spells. */
  lemma {:induction false} AcceptedIsSentence(ops: seq<RowOp>) returns (rows: seq<Shape>, started: Option<Shape>)
    requires Drive(ops).Some?
    ensures RowsHaveFields(rows) && ops == Sentence(rows, started)
    ensures Drive(ops) == Some(CaseOfSentence(rows, started))
  {
    if ops == [] {
      rows, started := [], None;
    } else {
      var rows0, started0 := AcceptedIsSentence(ops[..|ops| - 1]);
      rows, started := SentenceExtend(rows0, started0, ops[|ops| - 1]);
      assert ops == ops[..|ops| - 1] + [ops[|ops| - 1]];
    }
  }

  /** The bitmask machine accepts exactly the documented sequences of calls. */
  lemma MachineAcceptsRowLanguage(ops: seq<RowOp>)
    ensures Drive(ops).Some? <==> InRowLanguage(ops)
  {
    if Drive(ops).Some? {
      var rows, started := AcceptedIsSentence(ops);
    }
    forall rows, started | RowsHaveFields(rows) && ops == Sentence(rows, started)
      ensures Drive(ops).Some?
    {
      SentenceIsAccepted(rows, started);
    }
  }
}
