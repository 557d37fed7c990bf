/** What every call on a row buffer returns: which calls are refused, with which error, in which order of checks. */
module CallOutcomes {
  import opened Outcomes
  import opened Timestamps
  import opened CallOrder
  import opened BufferModel
  import opened RowHistory
  import opened BufferRuns

  /** A call with a name: conversion, length and order are checked in this sequence. */
  function NamedOutcome(name: NameArg, maxNameLen: nat, inOrder: bool): Status {
    if name.Err? then Err(name.error)
    else if |name.value| > maxNameLen then Err(InvalidName)
    else if !inOrder then Err(InvalidApiCall)
    else Ok(())
  }

  /** The designated timestamps: from the epoch on, and in 64 bits of nanoseconds. */
  predicate CanDesignate(ts: Timestamp) {
    match ts
    case Micros(m) => 0 <= m <= 9_223_372_036_854_775
    case Nanos(n) => 0 <= n
  }

  /** The documented outcome of a call, given what was written so far. */
  function DocumentedOutcome(h: History, call: Call, maxNameLen: nat): Status {
    match call
    case CallTable(name) => NamedOutcome(name, maxNameLen, MayStart(h))
    case CallSymbol(name, _) => NamedOutcome(name, maxNameLen, MayAddSymbol(h))
    case CallColumn(name, _) => NamedOutcome(name, maxNameLen, MayAddColumn(h))
    case CallColumnTs(name, stamp) =>
      if NamedOutcome(name, maxNameLen, MayAddColumn(h)).Err?
      then NamedOutcome(name, maxNameLen, MayAddColumn(h))
      else if stamp.Err? then Err(stamp.error)
      else Ok(())
    case CallAt(stamp) =>
      if !MayFinish(h) then Err(InvalidApiCall)
      else if stamp.Err? then Err(stamp.error)
      else if !CanDesignate(stamp.value) then Err(InvalidTimestamp)
      else Ok(())
    case CallAtNow => if MayFinish(h) then Ok(()) else Err(InvalidApiCall)
    case CallSetMarker => if MayStart(h) then Ok(()) else Err(InvalidApiCall)
    case CallRewind => if h.marked.Some? then Ok(()) else Err(InvalidApiCall)
    case CallClearMarker => Ok(())
    case CallClear => Ok(())
  }

  lemma NamedIsChecked(h: History, b: Buf, name: NameArg, op: Op)
    requires b.state.opCase == CaseOf(h.done, h.partial)
    ensures CheckNamed(b, name, op).Ok? <==> NamedOutcome(name, b.maxNameLen, Permits(h, op)).Ok?
    ensures CheckNamed(b, name, op).Err? ==>
      NamedOutcome(name, b.maxNameLen, Permits(h, op)) == Err(CheckNamed(b, name, op).error)
  {
    AllowsIsPermits(h, op);
  }

  lemma StampIsChecked(ts: Timestamp)
    ensures CanDesignate(ts) <==> AsNanos(ts).Ok? && AsNanos(ts).value >= 0
    ensures AsNanos(ts).Err? ==> AsNanos(ts).error == InvalidTimestamp
  {
  }

  lemma NamedCallOutcome(h: History, b: Buf, call: Call)
    requires b.state.opCase == CaseOf(h.done, h.partial) && IsNamed(call)
    ensures Apply(b, call).1 == DocumentedOutcome(h, call, b.maxNameLen)
  {
    match call
    case CallTable(name) => NamedIsChecked(h, b, name, OpTable);
    case CallSymbol(name, _) => NamedIsChecked(h, b, name, OpSymbol);
    case CallColumn(name, _) => NamedIsChecked(h, b, name, OpColumn);
    case CallColumnTs(name, _) => NamedIsChecked(h, b, name, OpColumn);
  }

  lemma AtOutcome(h: History, b: Buf, stamp: StampArg)
    requires b.state.opCase == CaseOf(h.done, h.partial)
    ensures WriteAt(b, stamp).1 == DocumentedOutcome(h, CallAt(stamp), b.maxNameLen)
  {
    AllowsIsPermits(h, OpAt);
    if stamp.Ok? {
      StampIsChecked(stamp.value);
    }
  }

  lemma OtherCallOutcome(h: History, b: Buf, call: Call)
    requires b.state.opCase == CaseOf(h.done, h.partial) && (b.marker.Some? <==> h.marked.Some?)
    requires !IsNamed(call)
    ensures Apply(b, call).1 == DocumentedOutcome(h, call, b.maxNameLen)
  {
    match call
    case CallAt(stamp) => AtOutcome(h, b, stamp);
    case _ =>
      AllowsIsPermits(h, OpAt);
      AllowsIsPermits(h, OpTable);
  }

  /** After any calls, the next one returns what the documentation says, the error included. */
  lemma OutcomeIsDocumented(maxNameLen: nat, calls: seq<Call>, call: Call)
    ensures Apply(Reached(maxNameLen, calls), call).1
         == DocumentedOutcome(Recorded(maxNameLen, calls), call, maxNameLen)
  {
    ReachedIsRecorded(maxNameLen, calls);
    var h, b := Recorded(maxNameLen, calls), Reached(maxNameLen, calls);
    if IsNamed(call) {
      NamedCallOutcome(h, b, call);
    } else {
      OtherCallOutcome(h, b, call);
    }
  }
}
