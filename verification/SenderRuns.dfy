/** Any number of buffers and one TCP sender, over any run of calls, flushes and write failures. */
module SenderRuns {
  import opened Outcomes
  import opened Bytes
  import opened Rows
  import opened BufferModel
  import opened BufferRuns
  import opened SenderModel
  import opened FlushLog

  datatype World = World(sender: TcpSender, bufs: seq<Buf>)

  datatype Event =
    | Use(i: nat, call: Call)
    | Send(i: nat, kind: FlushKind, write: WriteOutcome)

  function Step(w: World, e: Event): World
    requires e.i < |w.bufs|
  {
    match e
    case Use(i, call) => w.(bufs := w.bufs[i := Apply(w.bufs[i], call).0])
    case Send(i, kind, write) =>
      var (s', b', _) := Flush(w.sender, w.bufs[i], kind, write);
      World(s', w.bufs[i := b'])
  }

  /** Every event names one of the `n` buffers. */
  predicate Names(n: nat, events: seq<Event>) { forall k :: 0 <= k < |events| ==> events[k].i < n }

  function RunWorld(w: World, events: seq<Event>): (w': World)
    requires Names(|w.bufs|, events)
    ensures |w'.bufs| == |w.bufs|
  {
    if events == [] then w else Step(RunWorld(w, events[..|events| - 1]), events[|events| - 1])
  }

  /** The flushes of the run, each with the buffer as it was at that moment. */
  function LogOf(w: World, events: seq<Event>): seq<Attempt>
    requires Names(|w.bufs|, events)
  {
    if events == [] then []
    else
      var before, last := events[..|events| - 1], events[|events| - 1];
      LogOf(w, before) + (
        match last
        case Use(_, _) => []
        case Send(i, kind, write) =>
          [Attempt(RunWorld(w, before).bufs[i], kind.AndKeepWithFlags? && kind.transactional, write)])
  }

  /** What happens to the sender in a run is what the flushes of the run do. */
  lemma {:induction false} RunFollowsLog(w: World, events: seq<Event>)
    requires Names(|w.bufs|, events)
    ensures RunWorld(w, events).sender == After(w.sender, LogOf(w, events))
    decreases |events|
  {
    if events != [] {
      var before, last := events[..|events| - 1], events[|events| - 1];
      RunFollowsLog(w, before);
      match last
      case Use(_, _) => assert LogOf(w, events) == LogOf(w, before);
      case Send(i, kind, write) =>
        AfterMore(w.sender, LogOf(w, before),
                  Attempt(RunWorld(w, before).bufs[i], kind.AndKeepWithFlags? && kind.transactional, write));
    }
  }

  ghost predicate AllSound(bufs: seq<Buf>) { forall i :: 0 <= i < |bufs| ==> Sound(bufs[i]) }

  lemma SoundUpdate(bufs: seq<Buf>, i: nat, b: Buf)
    requires i < |bufs| && AllSound(bufs) && Sound(b)
    ensures AllSound(bufs[i := b])
  {
  }

  lemma UseKeepsSound(w: World, i: nat, call: Call)
    requires i < |w.bufs| && AllSound(w.bufs)
    ensures AllSound(Step(w, Use(i, call)).bufs)
  {
    assert Sound(w.bufs[i]);
    ApplyIsSound(w.bufs[i], call);
    SoundUpdate(w.bufs, i, Apply(w.bufs[i], call).0);
  }

  lemma SendKeepsSound(w: World, i: nat, kind: FlushKind, write: WriteOutcome)
    requires i < |w.bufs| && AllSound(w.bufs)
    ensures AllSound(Step(w, Send(i, kind, write)).bufs)
  {
    assert Sound(w.bufs[i]);
    NewBufIsSound(w.bufs[i].maxNameLen);
    SoundUpdate(w.bufs, i, Flush(w.sender, w.bufs[i], kind, write).1);
  }

  lemma {:induction false} RunKeepsSound(w: World, events: seq<Event>)
    requires Names(|w.bufs|, events) && AllSound(w.bufs)
    ensures AllSound(RunWorld(w, events).bufs)
    decreases |events|
  {
    if events != [] {
      var before := events[..|events| - 1];
      RunKeepsSound(w, before);
      match events[|events| - 1]
      case Use(i, call) => UseKeepsSound(RunWorld(w, before), i, call);
      case Send(i, kind, write) => SendKeepsSound(RunWorld(w, before), i, kind, write);
    }
  }

  /** The text of one or more finished rows, and nothing else. */
  ghost predicate IsWholeRows(output: bytes) {
    exists rows: seq<Row> :: rows != [] && output == PrintRows(rows)
  }

  lemma CheckedOutputIsWholeRows(s: TcpSender, b: Buf)
    requires Sound(b) && CheckFlush(s.connected, s.maxBufSize, b).Ok?
    ensures IsWholeRows(b.output)
  {
    var rows := FlushableIsRows(b);
  }

  /** Everything that was delivered, and what a broken write was given, is whole rows. */
  ghost predicate AllWholeRows(delivered: seq<bytes>, broken: Option<Attempt>) {
    && (forall k :: 0 <= k < |delivered| ==> IsWholeRows(delivered[k]))
    && (broken.Some? ==> IsWholeRows(broken.value.b.output))
  }

  lemma MoreWholeRows(delivered: seq<bytes>, output: bytes, broken: Option<Attempt>)
    requires AllWholeRows(delivered, broken) && IsWholeRows(output)
    ensures AllWholeRows(delivered + [output], broken)
  {
  }

  lemma OneMoreIsWholeRows(s: TcpSender, log: seq<Attempt>, a: Attempt)
    requires AllWholeRows(Delivered(s, log), FirstBroken(s, log)) && Sound(a.b)
    ensures AllWholeRows(Delivered(s, log + [a]), FirstBroken(s, log + [a]))
  {
    LogsMore(s, log, a);
    var now := After(s, log);
    if CheckFlush(now.connected, now.maxBufSize, a.b).Ok? {
      CheckedOutputIsWholeRows(now, a.b);
      MoreWholeRows(Delivered(s, log), a.b.output, FirstBroken(s, log));
    }
  }

  lemma {:induction false} LoggedOutputsAreWholeRows(w: World, events: seq<Event>)
    requires Names(|w.bufs|, events) && AllSound(w.bufs)
    ensures AllWholeRows(Delivered(w.sender, LogOf(w, events)), FirstBroken(w.sender, LogOf(w, events)))
    decreases |events|
  {
    if events != [] {
      var before := events[..|events| - 1];
      LoggedOutputsAreWholeRows(w, before);
      match events[|events| - 1]
      case Use(_, _) => assert LogOf(w, events) == LogOf(w, before);
      case Send(i, kind, write) =>
        var b := RunWorld(w, before).bufs[i];
        RunKeepsSound(w, before);
        assert Sound(b);
        OneMoreIsWholeRows(w.sender, LogOf(w, before),
                           Attempt(b, kind.AndKeepWithFlags? && kind.transactional, write));
    }
  }

  /**
    Safety of any run over TCP, from a connected sender and any sound buffers:
    the wire grows by exactly the outputs of the flushes that returned Ok, whole
    and in order, each of them one or more finished rows, and then by what the
    first broken write got through of its own buffer. The sender stays connected
    exactly as long as no write breaks.
   */
  lemma WireIsWhatWasFlushed(w: World, events: seq<Event>)
    requires Names(|w.bufs|, events) && AllSound(w.bufs) && w.sender.connected
    ensures
      var s, log := RunWorld(w, events).sender, LogOf(w, events);
      var delivered, broken := Delivered(w.sender, log), FirstBroken(w.sender, log);
      && s.wire == w.sender.wire + Flatten(delivered) + Remnant(broken)
      && AllWholeRows(delivered, broken)
      && (s.connected <==> broken.None?)
  {
    RunFollowsLog(w, events);
    WireIsDelivered(w.sender, LogOf(w, events));
    LoggedOutputsAreWholeRows(w, events);
  }

  /** The same from a fresh connection and new buffers: the wire holds nothing else. */
  lemma WireCarriesWholeRows(maxBufSize: nat, limits: seq<nat>, events: seq<Event>)
    requires Names(|limits|, events)
    ensures
      var w := World(TcpSender(true, maxBufSize, []), seq(|limits|, i requires 0 <= i < |limits| => NewBuf(limits[i])));
      var s, log := RunWorld(w, events).sender, LogOf(w, events);
      var delivered, broken := Delivered(w.sender, log), FirstBroken(w.sender, log);
      && s.wire == Flatten(delivered) + Remnant(broken)
      && AllWholeRows(delivered, broken)
      && (s.connected <==> broken.None?)
  {
    var bufs := seq(|limits|, i requires 0 <= i < |limits| => NewBuf(limits[i]));
    forall i | 0 <= i < |bufs|
      ensures Sound(bufs[i])
    {
      NewBufIsSound(limits[i]);
    }
    var w := World(TcpSender(true, maxBufSize, []), bufs);
    WireIsWhatWasFlushed(w, events);
    var delivered := Flatten(Delivered(w.sender, LogOf(w, events)));
    assert [] + delivered == delivered;
  }

  /** Once a write has failed the sender is of no more use: nothing is ever written again. */
  lemma {:induction false} BrokenStaysSilent(w: World, events: seq<Event>)
    requires Names(|w.bufs|, events) && !w.sender.connected
    ensures RunWorld(w, events).sender == w.sender
    decreases |events|
  {
    if events != [] {
      BrokenStaysSilent(w, events[..|events| - 1]);
    }
  }

  /** What is on the wire stays on the wire. */
  lemma {:induction false} WireOnlyGrows(w: World, events: seq<Event>)
    requires Names(|w.bufs|, events)
    ensures w.sender.wire <= RunWorld(w, events).sender.wire
    decreases |events|
  {
    if events != [] {
      WireOnlyGrows(w, events[..|events| - 1]);
    }
  }
}
