/** What any sequence of flushes puts on the wire of one TCP sender. */
module FlushLog {
  import opened Outcomes
  import opened Bytes
  import opened BufferModel
  import opened SenderModel

  /** One flush: the buffer it was given, whether it had to be transactional, and what its write did. */
  datatype Attempt = Attempt(b: Buf, transactional: bool, write: WriteOutcome)

  function FlushOne(s: TcpSender, a: Attempt): (TcpSender, Status) {
    FlushTcp(s, a.b, a.transactional, a.write)
  }

  /** The sender after all the flushes in the log. */
  function After(s: TcpSender, log: seq<Attempt>): TcpSender {
    if log == [] then s else FlushOne(After(s, log[..|log| - 1]), log[|log| - 1]).0
  }

  /** The flush got past every check, and its write failed. */
  predicate WriteBroke(s: TcpSender, a: Attempt) {
    && CheckFlush(s.connected, s.maxBufSize, a.b).Ok?
    && a.b.output != []
    && !a.transactional
    && a.write.Broken?
  }

  /** The outputs of the flushes that returned Ok, in order. */
  function Delivered(s: TcpSender, log: seq<Attempt>): seq<bytes> {
    if log == [] then []
    else
      var before, last := log[..|log| - 1], log[|log| - 1];
      Delivered(s, before) + (if FlushOne(After(s, before), last).1.Ok? then [last.b.output] else [])
  }

  /** The first flush whose write failed. */
  function FirstBroken(s: TcpSender, log: seq<Attempt>): Option<Attempt> {
    if log == [] then None
    else
      var before, last := log[..|log| - 1], log[|log| - 1];
      match FirstBroken(s, before)
      case Some(a) => Some(a)
      case None => if WriteBroke(After(s, before), last) then Some(last) else None
  }

  function Flatten(outputs: seq<bytes>): bytes {
    if outputs == [] then [] else Flatten(outputs[..|outputs| - 1]) + outputs[|outputs| - 1]
  }

  /** What the broken write still got through; nothing if no write broke. */
  function Remnant(broken: Option<Attempt>): bytes {
    match broken
    case None => []
    case Some(a) => Carried(a.b.output, a.write)
  }

  /** A broken write got through the start of its own buffer, cut after so many octets, and nothing else. */
  lemma RemnantIsCut(a: Attempt)
    requires a.write.Broken?
    ensures Remnant(Some(a)) <= a.b.output
    ensures |Remnant(Some(a))| == if a.write.after < |a.b.output| then a.write.after else |a.b.output|
  {
  }

  lemma FlattenMore(outputs: seq<bytes>, last: bytes)
    ensures Flatten(outputs + [last]) == Flatten(outputs) + last
  {
    assert (outputs + [last])[..|outputs|] == outputs;
  }

  lemma AfterMore(s: TcpSender, log: seq<Attempt>, a: Attempt)
    ensures After(s, log + [a]) == FlushOne(After(s, log), a).0
  {
    assert (log + [a])[..|log|] == log;
  }

  /** The sender `now` carries what was delivered and what the broken write got through, on top of `start`. */
  predicate Explained(start: TcpSender, now: TcpSender, delivered: seq<bytes>, broken: Option<Attempt>) {
    && now.wire == start.wire + Flatten(delivered) + Remnant(broken)
    && (now.connected <==> broken.None?)
  }

  /**
    The wire carries exactly the outputs of the flushes that returned Ok, whole
    and in order, and then what the first broken write got through. The sender
    is connected as long as no write has broken.
   */
  lemma {:induction false} WireIsDelivered(s: TcpSender, log: seq<Attempt>)
    requires s.connected
    ensures Explained(s, After(s, log), Delivered(s, log), FirstBroken(s, log))
    decreases |log|
  {
    if log == [] {
      NothingDelivered(s);
    } else {
      var before, last := log[..|log| - 1], log[|log| - 1];
      WireIsDelivered(s, before);
      ExplainOneMore(s, before, last);
      assert log == before + [last];
    }
  }

  /** A flush delivers its whole buffer, breaks the connection on the way, or changes nothing. */
  lemma FlushDoesOneOf(s: TcpSender, a: Attempt)
    ensures
      var (s', status) := FlushOne(s, a);
      if status.Ok? then s.connected && s' == s.(wire := s.wire + a.b.output) && !WriteBroke(s, a)
      else if WriteBroke(s, a)
      then s.connected && s' == s.(wire := s.wire + Carried(a.b.output, a.write), connected := false)
      else s' == s
  {
    assert s.wire + [] == s.wire;
  }

  lemma LogsMore(s: TcpSender, before: seq<Attempt>, last: Attempt)
    ensures Delivered(s, before + [last])
         == if FlushOne(After(s, before), last).1.Ok? then Delivered(s, before) + [last.b.output]
            else Delivered(s, before)
    ensures FirstBroken(s, before + [last])
         == if FirstBroken(s, before).None? && WriteBroke(After(s, before), last) then Some(last)
            else FirstBroken(s, before)
  {
    assert (before + [last])[..|before|] == before;
    assert Delivered(s, before) + [] == Delivered(s, before);
  }

  /** One more flush on a sender whose wire is explained. */
  lemma OneMoreFlush(start: TcpSender, s: TcpSender, delivered: seq<bytes>, broken: Option<Attempt>, a: Attempt)
    requires Explained(start, s, delivered, broken)
    ensures
      var (s', status) := FlushOne(s, a);
      Explained(start, s',
                if status.Ok? then delivered + [a.b.output] else delivered,
                if broken.None? && WriteBroke(s, a) then Some(a) else broken)
  {
    FlushDoesOneOf(s, a);
    var carried := start.wire + Flatten(delivered);
    assert carried + [] == carried;
    if FlushOne(s, a).1.Ok? {
      FlattenMore(delivered, a.b.output);
      Assoc(start.wire, Flatten(delivered), a.b.output);
      assert (carried + a.b.output) + [] == carried + a.b.output;
    }
  }

  lemma NothingDelivered(s: TcpSender)
    requires s.connected
    ensures Explained(s, s, [], None)
  {
    assert s.wire + [] + [] == s.wire;
  }

  lemma ExplainOneMore(s: TcpSender, before: seq<Attempt>, last: Attempt)
    requires Explained(s, After(s, before), Delivered(s, before), FirstBroken(s, before))
    ensures
      var log := before + [last];
      Explained(s, After(s, log), Delivered(s, log), FirstBroken(s, log))
  {
    OneMoreFlush(s, After(s, before), Delivered(s, before), FirstBroken(s, before), last);
    AfterMore(s, before, last);
    LogsMore(s, before, last);
  }

  /** The sender is closed exactly when some flush in the log got past the checks and its write failed. */
  lemma {:induction false} ClosedMeansBroken(s: TcpSender, log: seq<Attempt>)
    requires s.connected
    ensures !After(s, log).connected <==>
            exists i :: 0 <= i < |log| && WriteBroke(After(s, log[..i]), log[i])
    decreases |log|
  {
    if log != [] {
      var before, last := log[..|log| - 1], log[|log| - 1];
      ClosedMeansBroken(s, before);
      forall i | 0 <= i < |before|
        ensures before[..i] == log[..i] && before[i] == log[i]
      {
      }
      if !After(s, before).connected {
        var i :| 0 <= i < |before| && WriteBroke(After(s, before[..i]), before[i]);
        assert WriteBroke(After(s, log[..i]), log[i]);
      } else if WriteBroke(After(s, before), last) {
        assert WriteBroke(After(s, log[..|before|]), log[|before|]);
      }
      if i :| 0 <= i < |log| && WriteBroke(After(s, log[..i]), log[i]) {
        if i < |before| {
          assert WriteBroke(After(s, before[..i]), before[i]);
        }
      }
    }
  }
}
