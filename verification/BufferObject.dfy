/** The row buffer as the object that its callers share and update. */
module BufferObject {
  import opened Outcomes
  import opened Bytes
  import opened Utf8
  import opened Escaping
  import opened Numerals
  import opened Timestamps
  import opened Rows
  import opened CallOrder
  import opened OutputVec
  import opened BufferModel
  import opened BufferRuns
  import opened CallLog

  class Buffer {
    const output: ByteVec
    var state: BufferState
    var marker: Option<Marker>
    const maxNameLen: nat
    /** Every call the buffer has seen, the refused ones too. */
    ghost var calls: seq<Call>

    /** The fields as a value. */
    ghost function View(): Buf
      requires output.Valid()
      reads this, output, output.data
    {
      Buf(output.Contents(), state, marker, maxNameLen)
    }

    /** The fields are what the calls so far make of a new buffer. */
    ghost predicate Valid()
      reads this, output, output.data
    {
      output.Valid() && View() == Reached(maxNameLen, calls)
    }

    constructor WithMaxNameLen(maxNameLen: nat)
      ensures Valid() && fresh(output) && fresh(output.data)
      ensures View() == NewBuf(maxNameLen) && calls == []
    {
      output := new ByteVec();
      state := FRESH_STATE;
      marker := None;
      calls := [];
      this.maxNameLen := maxNameLen;
    }

    method CheckOp(op: Op) returns (r: Status)
      requires output.Valid()
      ensures r == BufferModel.CheckOp(View(), op)
    {
      r := if Mask(state.opCase) & Bit(op) > 0 then Ok(()) else Err(InvalidApiCall);
    }

    method CheckNamed(name: NameArg, op: Op) returns (r: Result<str, ErrorCode>)
      requires output.Valid()
      ensures r == BufferModel.CheckNamed(View(), name, op)
    {
      var text :- name;
      if |text| > maxNameLen {
        return Err(InvalidName);
      }
      var _ :- CheckOp(op);
      return Ok(text);
    }

    method Table(name: NameArg) returns (r: Status)
      requires Valid()
      modifies this, output, output.data
      ensures Valid() && (output.data == old(output.data) || fresh(output.data))
      ensures (View(), r) == WriteTable(old(View()), name)
      ensures calls == old(calls) + [CallTable(name)]
    {
      ReachedMore(maxNameLen, calls, CallTable(name));
      calls := calls + [CallTable(name)];
      var text :- CheckNamed(name, OpTable);
      WriteEscaped(Unquoted, output, text);
      state := state.(opCase := TableWritten);
      match state.firstTable
      case Some(first) =>
        if first != text {
          state := state.(transactional := false);
        }
        return Ok(());
      case None =>
        state := state.(firstTable := Some(text));
        return Ok(());
    }

    method Symbol(name: NameArg, value: str) returns (r: Status)
      requires Valid()
      modifies this, output, output.data
      ensures Valid() && (output.data == old(output.data) || fresh(output.data))
      ensures (View(), r) == WriteSymbol(old(View()), name, value)
      ensures calls == old(calls) + [CallSymbol(name, value)]
    {
      ReachedMore(maxNameLen, calls, CallSymbol(name, value));
      calls := calls + [CallSymbol(name, value)];
      var text :- CheckNamed(name, OpSymbol);
      output.Push(COMMA);
      WriteEscaped(Unquoted, output, text);
      output.Push(EQUALS);
      WriteEscaped(Unquoted, output, value);
      state := state.(opCase := SymbolWritten);
      return Ok(());
    }

    /** Shared by the column calls; on its own it leaves a row that only they complete. */
    method WriteColumnKey(name: NameArg) returns (r: Status)
      requires output.Valid()
      modifies this`state, output, output.data
      ensures output.Valid() && (output.data == old(output.data) || fresh(output.data))
      ensures (View(), r) == BufferModel.WriteColumnKey(old(View()), name)
    {
      var text :- CheckNamed(name, OpColumn);
      output.Push(if Mask(state.opCase) & Bit(OpSymbol) > 0 then SPACE else COMMA);
      WriteEscaped(Unquoted, output, text);
      output.Push(EQUALS);
      state := state.(opCase := ColumnWritten);
      return Ok(());
    }

    /** A number and the letter that says what it counts. */
    method PushNumber(n: i64, suffix: byte)
      requires output.Valid()
      modifies output, output.data
      ensures output.Valid() && (output.data == old(output.data) || fresh(output.data))
      ensures output.Contents() == old(output.Contents()) + (Decimal(n) + [suffix])
    {
      output.ExtendFromSlice(Decimal(n));
      output.Push(suffix);
      Assoc(old(output.Contents()), Decimal(n), [suffix]);
    }

    method ColumnBool(name: NameArg, value: bool) returns (r: Status)
      requires Valid()
      modifies this`state, this`calls, output, output.data
      ensures Valid() && (output.data == old(output.data) || fresh(output.data))
      ensures (View(), r) == WriteColumn(old(View()), name, Boolean(value))
      ensures calls == old(calls) + [CallColumn(name, Boolean(value))]
    {
      ReachedMore(maxNameLen, calls, CallColumn(name, Boolean(value)));
      calls := calls + [CallColumn(name, Boolean(value))];
      var _ :- WriteColumnKey(name);
      output.Push(if value then LETTER_T else LETTER_F);
      return Ok(());
    }

    method ColumnI64(name: NameArg, value: i64) returns (r: Status)
      requires Valid()
      modifies this`state, this`calls, output, output.data
      ensures Valid() && (output.data == old(output.data) || fresh(output.data))
      ensures (View(), r) == WriteColumn(old(View()), name, Integer(value))
      ensures calls == old(calls) + [CallColumn(name, Integer(value))]
    {
      ReachedMore(maxNameLen, calls, CallColumn(name, Integer(value)));
      calls := calls + [CallColumn(name, Integer(value))];
      var _ :- WriteColumnKey(name);
      PushNumber(value, LETTER_I);
      return Ok(());
    }

    method ColumnF64(name: NameArg, value: FloatText) returns (r: Status)
      requires Valid()
      modifies this`state, this`calls, output, output.data
      ensures Valid() && (output.data == old(output.data) || fresh(output.data))
      ensures (View(), r) == WriteColumn(old(View()), name, Float(value))
      ensures calls == old(calls) + [CallColumn(name, Float(value))]
    {
      ReachedMore(maxNameLen, calls, CallColumn(name, Float(value)));
      calls := calls + [CallColumn(name, Float(value))];
      var _ :- WriteColumnKey(name);
      output.ExtendFromSlice(value);
      return Ok(());
    }

    method ColumnStr(name: NameArg, value: str) returns (r: Status)
      requires Valid()
      modifies this`state, this`calls, output, output.data
      ensures Valid() && (output.data == old(output.data) || fresh(output.data))
      ensures (View(), r) == WriteColumn(old(View()), name, Text(value))
      ensures calls == old(calls) + [CallColumn(name, Text(value))]
    {
      ReachedMore(maxNameLen, calls, CallColumn(name, Text(value)));
      calls := calls + [CallColumn(name, Text(value))];
      var _ :- WriteColumnKey(name);
      WriteEscaped(Quoted, output, value);
      return Ok(());
    }

    method ColumnTs(name: NameArg, stamp: StampArg) returns (r: Status)
      requires Valid()
      modifies this`state, this`calls, output, output.data
      ensures Valid() && (output.data == old(output.data) || fresh(output.data))
      ensures (View(), r) == WriteColumnTs(old(View()), name, stamp)
      ensures calls == old(calls) + [CallColumnTs(name, stamp)]
    {
      ReachedMore(maxNameLen, calls, CallColumnTs(name, stamp));
      calls := calls + [CallColumnTs(name, stamp)];
      var _ :- WriteColumnKey(name);
      var ts :- stamp;
      var micros := AsMicros(ts);
      assert PrintValue(Time(micros)) == Decimal(micros) + [LETTER_T];
      PushNumber(micros, LETTER_T);
      return Ok(());
    }

    method ColumnLong256(name: NameArg, value: Octets32) returns (r: Status)
      requires Valid()
      modifies this`state, this`calls, output, output.data
      ensures Valid() && (output.data == old(output.data) || fresh(output.data))
      ensures (View(), r) == WriteColumn(old(View()), name, Long256(value))
      ensures calls == old(calls) + [CallColumn(name, Long256(value))]
    {
      ReachedMore(maxNameLen, calls, CallColumn(name, Long256(value)));
      calls := calls + [CallColumn(name, Long256(value))];
      var _ :- WriteColumnKey(name);
      output.ExtendFromSlice([DIGIT_0, LETTER_X] + Hex(value) + [LETTER_I]);
      return Ok(());
    }

    /** The end of a row with its designated timestamp. */
    method PushStamp(nanos: i64)
      requires output.Valid()
      modifies output, output.data
      ensures output.Valid() && (output.data == old(output.data) || fresh(output.data))
      ensures output.Contents() == old(output.Contents()) + ([SPACE] + Decimal(nanos) + [NEWLINE])
    {
      output.Push(SPACE);
      output.ExtendFromSlice(Decimal(nanos));
      output.Push(NEWLINE);
      Assoc(old(output.Contents()), [SPACE], Decimal(nanos));
      Assoc(old(output.Contents()), [SPACE] + Decimal(nanos), [NEWLINE]);
    }

    method At(stamp: StampArg) returns (r: Status)
      requires Valid()
      modifies this`state, this`calls, output, output.data
      ensures Valid() && (output.data == old(output.data) || fresh(output.data))
      ensures (View(), r) == WriteAt(old(View()), stamp)
      ensures calls == old(calls) + [CallAt(stamp)]
    {
      ReachedMore(maxNameLen, calls, CallAt(stamp));
      calls := calls + [CallAt(stamp)];
      var _ :- CheckOp(OpAt);
      var ts :- stamp;
      var nanos :- AsNanos(ts);
      if nanos < 0 {
        return Err(InvalidTimestamp);
      }
      PushStamp(nanos);
      state := state.(opCase := MayFlushOrTable, rowCount := state.rowCount + 1);
      return Ok(());
    }

    method AtNow() returns (r: Status)
      requires Valid()
      modifies this`state, this`calls, output, output.data
      ensures Valid() && (output.data == old(output.data) || fresh(output.data))
      ensures (View(), r) == WriteAtNow(old(View()))
      ensures calls == old(calls) + [CallAtNow]
    {
      ReachedMore(maxNameLen, calls, CallAtNow);
      calls := calls + [CallAtNow];
      var _ :- CheckOp(OpAt);
      output.Push(NEWLINE);
      state := state.(opCase := MayFlushOrTable, rowCount := state.rowCount + 1);
      return Ok(());
    }

    method SetMarker() returns (r: Status)
      requires Valid()
      modifies this`marker, this`calls
      ensures Valid()
      ensures (View(), r) == BufferModel.SetMarker(old(View()))
      ensures calls == old(calls) + [CallSetMarker]
    {
      ReachedMore(maxNameLen, calls, CallSetMarker);
      calls := calls + [CallSetMarker];
      if Mask(state.opCase) & Bit(OpTable) == 0 {
        return Err(InvalidApiCall);
      }
      marker := Some(Marker(output.len, state));
      assert output.Contents()[..output.len] == output.Contents();
      return Ok(());
    }

    method RewindToMarker() returns (r: Status)
      requires Valid()
      modifies this`state, this`marker, this`calls, output`len
      ensures Valid()
      ensures (View(), r) == BufferModel.RewindToMarker(old(View()))
      ensures calls == old(calls) + [CallRewind]
    {
      OutputIsValidUtf8(maxNameLen, calls);
      ReachedMore(maxNameLen, calls, CallRewind);
      calls := calls + [CallRewind];
      match marker
      case None =>
        return Err(InvalidApiCall);
      case Some(m) =>
        marker := None;
        output.Truncate(m.position);
        state := m.state;
        return Ok(());
    }

    method ClearMarker()
      requires Valid()
      modifies this`marker, this`calls
      ensures Valid()
      ensures View() == old(View()).(marker := None)
      ensures calls == old(calls) + [CallClearMarker]
    {
      ReachedMore(maxNameLen, calls, CallClearMarker);
      calls := calls + [CallClearMarker];
      marker := None;
    }

    method Clear()
      requires Valid()
      modifies this`state, this`marker, this`calls, output`len
      ensures Valid()
      ensures View() == Cleared(old(View()))
      ensures calls == old(calls) + [CallClear]
    {
      ReachedMore(maxNameLen, calls, CallClear);
      calls := calls + [CallClear];
      output.Clear();
      state := FRESH_STATE;
      marker := None;
    }
  }
}
