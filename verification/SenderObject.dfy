/** The sender as the object that holds the connection, over TCP or HTTP. */
module SenderObject {
  import opened Outcomes
  import opened Bytes
  import opened CallOrder
  import opened RowParser
  import opened BufferRuns
  import opened BufferModel
  import opened HttpRetry
  import opened SenderModel
  import opened FlushLog
  import BufferObject

  datatype Handler = Socket | Http(retryTimeout: nat)

  /** What the network does to one flush. */
  datatype Network = Network(write: WriteOutcome, http: Surroundings, bodyReadable: bool)

  /** The category of the error a failed request is reported as. */
  function ReportedError(e: HttpError, bodyReadable: bool): ErrorCode {
    match e
    case TransportError => SocketError
    case BadStatus(code) =>
      if code == 404 then HttpNotSupported
      else if code == 401 || code == 403 then AuthError
      else if bodyReadable then ServerFlushError
      else SocketError
  }

  lemma DropFirst(before: seq<bytes>, requests: seq<bytes>)
    ensures (before + requests)[|before|..] == requests
  {
  }

  /** A server that reads the rows finds one table in all of them. */
  predicate NamesOneTable(output: bytes) {
    && ReadRows(output).Some?
    && var rows := ReadRows(output).value.0;
       forall i :: 0 <= i < |rows| ==> rows[i].line.table == rows[0].line.table
  }

  /** Each category a failed request is reported as, and all that it stands for. */
  lemma ReportedErrorsAreDistinct(e: HttpError, bodyReadable: bool)
    ensures ReportedError(e, bodyReadable) == HttpNotSupported <==> e == BadStatus(404)
    ensures ReportedError(e, bodyReadable) == AuthError <==> e == BadStatus(401) || e == BadStatus(403)
    ensures ReportedError(e, bodyReadable) == ServerFlushError <==>
            bodyReadable && e.BadStatus? && e.code !in {401, 403, 404}
    ensures ReportedError(e, bodyReadable) == SocketError <==>
            e.TransportError? || (!bodyReadable && e.code !in {401, 403, 404})
  {
  }

  /** No buffer object that passes the checks of a flush is empty. */
  lemma FlushableBufferHasRows(buf: BufferObject.Buffer, connected: bool, maxBufSize: nat)
    requires buf.Valid() && CheckFlush(connected, maxBufSize, buf.View()).Ok?
    ensures buf.View().output != []
  {
    EmptyBranchIsDead(connected, maxBufSize, buf.maxNameLen, buf.calls);
  }

  class Sender {
    const handler: Handler
    const maxBufSize: nat
    var connected: bool
    ghost var wire: bytes
    ghost var posts: seq<bytes>
    /** Every flush the sender was asked for, the refused ones too. */
    ghost var log: seq<Attempt>

    ghost function Tcp(): TcpSender
      reads this
    {
      TcpSender(connected, maxBufSize, wire)
    }

    ghost function Start(): TcpSender { TcpSender(true, maxBufSize, []) }

    /** Over TCP the connection is what the flushes so far made of a new one; over HTTP nothing can close it. */
    ghost predicate Valid()
      reads this
    {
      Tcp() == if handler.Socket? then After(Start(), log) else Start()
    }

    constructor (handler: Handler, maxBufSize: nat)
      ensures this.handler == handler && this.posts == []
      ensures Tcp() == TcpSender(true, maxBufSize, [])
      ensures Valid() && log == []
    {
      this.handler, this.maxBufSize := handler, maxBufSize;
      connected, wire, posts, log := true, [], [], [];
    }

    /**
      An HTTP flush that turned the posts `before` into the posts `after`: refused
      without a request, or the attempts of one send, each with the whole output.
     */
    ghost predicate HttpFlushed(before: seq<bytes>, after: seq<bytes>, check: Status,
                                b: Buf, transactional: bool, net: Network, r: Status)
      requires handler.Http?
    {
      if check.Err? then r == check && after == before
      else if b.output == [] then r == Ok(()) && after == before
      else if transactional && !b.state.transactional then r == Err(InvalidApiCall) && after == before
      else
        exists requests: seq<bytes>, sent: HttpResult ::
          && IsSendTrace(net.http, handler.retryTimeout, |requests|, sent)
          && after == before + requests && AllCarry(requests, b.output)
          && r == if sent.Ok? then Ok(()) else Err(ReportedError(sent.error, net.bodyReadable))
    }

    lemma HttpSuccessPosts(before: seq<bytes>, after: seq<bytes>, check: Status, b: Buf,
                           transactional: bool, net: Network, r: Status)
      requires handler.Http? && b.output != [] && r.Ok?
      requires HttpFlushed(before, after, check, b, transactional, net, r)
      ensures check.Ok? && (transactional ==> b.state.transactional)
      ensures before < after && AllCarry(after[|before|..], b.output)
      ensures OutcomeOf(net.http, |after| - |before| - 1).Ok?
    {
      var requests: seq<bytes>, sent: HttpResult :|
        && IsSendTrace(net.http, handler.retryTimeout, |requests|, sent)
        && after == before + requests && AllCarry(requests, b.output)
        && r == if sent.Ok? then Ok(()) else Err(ReportedError(sent.error, net.bodyReadable));
      DropFirst(before, requests);
    }

    /**
      A flush over HTTP that returns Ok has posted the whole buffer at least
      once, nothing else, and the last time with success; if it was to be
      transactional, the rows a server reads from it all name one table.
     */
    lemma HttpSuccessIsDelivery(before: seq<bytes>, after: seq<bytes>, maxNameLen: nat, calls: seq<Call>,
                                transactional: bool, net: Network, r: Status)
      requires handler.Http? && r.Ok?
      requires
        var b := Reached(maxNameLen, calls);
        HttpFlushed(before, after, CheckFlush(connected, maxBufSize, b), b, transactional, net, r)
      ensures
        var b := Reached(maxNameLen, calls);
        && before < after && AllCarry(after[|before|..], b.output)
        && OutcomeOf(net.http, |after| - |before| - 1).Ok?
        && (transactional ==> NamesOneTable(b.output))
    {
      var b := Reached(maxNameLen, calls);
      EmptyBranchIsDead(connected, maxBufSize, maxNameLen, calls);
      HttpSuccessPosts(before, after, CheckFlush(connected, maxBufSize, b), b, transactional, net, r);
      TransactionalMeansOneTable(maxNameLen, calls);
    }

    /** The body of `flush_impl`, before the flush is logged. */
    method CheckAndSend(buf: BufferObject.Buffer, transactional: bool, net: Network) returns (r: Status)
      requires buf.Valid() && Plausible(net.http)
      modifies this`connected, this`wire, this`posts
      ensures handler.Socket? ==>
        (Tcp(), r) == FlushTcp(old(Tcp()), buf.View(), transactional, net.write) && posts == old(posts)
      ensures handler.Http? ==>
        Tcp() == old(Tcp())
        && HttpFlushed(old(posts), posts, old(CheckFlush(connected, maxBufSize, buf.View())),
                       buf.View(), transactional, net, r)
    {
      if !connected {
        return Err(SocketError);
      }
      var _ :- buf.CheckOp(OpFlush);
      if buf.output.len > maxBufSize {
        return Err(InvalidApiCall);
      }
      if buf.output.len == 0 {
        return Ok(());
      }
      match handler
      case Socket =>
        if transactional {
          return Err(InvalidApiCall);
        }
        wire := wire + Carried(buf.output.Contents(), net.write);
        if net.write.Broken? {
          connected := false;
          return Err(SocketError);
        }
        return Ok(());
      case Http(retryTimeout) =>
        if transactional && !buf.state.transactional {
          return Err(InvalidApiCall);
        }
        var sent, requests := HttpSendWithRetries(net.http, buf.output.data[..buf.output.len], retryTimeout);
        posts := posts + requests;
        match sent
        case Ok(_) => return Ok(());
        case Err(e) => return Err(ReportedError(e, net.bodyReadable));
    }

    method FlushImpl(buf: BufferObject.Buffer, transactional: bool, net: Network) returns (r: Status)
      requires Valid() && buf.Valid() && Plausible(net.http)
      modifies this
      ensures Valid() && log == old(log) + [Attempt(old(buf.View()), transactional, net.write)]
      ensures handler.Socket? ==>
        (Tcp(), r) == FlushTcp(old(Tcp()), buf.View(), transactional, net.write) && posts == old(posts)
      ensures handler.Http? ==>
        Tcp() == old(Tcp())
        && HttpFlushed(old(posts), posts, old(CheckFlush(connected, maxBufSize, buf.View())),
                       buf.View(), transactional, net, r)
    {
      ghost var attempt := Attempt(buf.View(), transactional, net.write);
      r := CheckAndSend(buf, transactional, net);
      AfterMore(Start(), log, attempt);
      log := log + [attempt];
    }

    method FlushAndKeepWithFlags(buf: BufferObject.Buffer, transactional: bool, net: Network) returns (r: Status)
      requires Valid() && buf.Valid() && Plausible(net.http)
      modifies this
      ensures Valid() && log == old(log) + [Attempt(old(buf.View()), transactional, net.write)]
      ensures handler.Socket? ==>
        (Tcp(), buf.View(), r)
          == SenderModel.Flush(old(Tcp()), old(buf.View()), AndKeepWithFlags(transactional), net.write)
      ensures handler.Http? ==>
        Tcp() == old(Tcp())
        && HttpFlushed(old(posts), posts, old(CheckFlush(connected, maxBufSize, buf.View())),
                       buf.View(), transactional, net, r)
    {
      r := FlushImpl(buf, transactional, net);
    }

    method FlushAndKeep(buf: BufferObject.Buffer, net: Network) returns (r: Status)
      requires Valid() && buf.Valid() && Plausible(net.http)
      modifies this
      ensures Valid() && log == old(log) + [Attempt(old(buf.View()), false, net.write)]
      ensures handler.Socket? ==>
        (Tcp(), buf.View(), r) == SenderModel.Flush(old(Tcp()), old(buf.View()), AndKeep, net.write)
      ensures handler.Http? ==>
        Tcp() == old(Tcp())
        && HttpFlushed(old(posts), posts, old(CheckFlush(connected, maxBufSize, buf.View())),
                       buf.View(), false, net, r)
    {
      r := FlushImpl(buf, false, net);
    }

    method Flush(buf: BufferObject.Buffer, net: Network) returns (r: Status)
      requires Valid() && buf.Valid() && Plausible(net.http)
      modifies this, buf`state, buf`marker, buf`calls, buf.output`len
      ensures Valid() && log == old(log) + [Attempt(old(buf.View()), false, net.write)]
      ensures buf.Valid()
      ensures handler.Socket? ==>
        (Tcp(), buf.View(), r) == SenderModel.Flush(old(Tcp()), old(buf.View()), AndClear, net.write)
      ensures handler.Http? ==>
        Tcp() == old(Tcp())
        && HttpFlushed(old(posts), posts, old(CheckFlush(connected, maxBufSize, buf.View())),
                       old(buf.View()), false, net, r)
      ensures buf.View() == if r.Ok? then Cleared(old(buf.View())) else old(buf.View())
    {
      var _ :- FlushImpl(buf, false, net);
      buf.Clear();
      return Ok(());
    }

    /** The sender has to be dropped exactly if some flush over TCP got past the checks and its write failed. */
    method MustClose() returns (r: bool)
      requires Valid()
      ensures r <==>
        handler.Socket? && exists i :: 0 <= i < |log| && WriteBroke(After(Start(), log[..i]), log[i])
    {
      ClosedMeansBroken(Start(), log);
      r := !connected;
    }
  }
}
