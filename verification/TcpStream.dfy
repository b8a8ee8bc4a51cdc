/** One reassembled TCP stream: two directional buffers, a pending request, and what has been emitted. */
module TcpStream {
  import opened Bytes
  import opened HttpSyntax
  import opened Framing
  import Sni

  /** What a finished request carries of its response; `size` counts the response bytes. */
  datatype Reply = NoReply | Reply(status: int, headers: map<bytes, bytes>, body: bytes, size: nat)

  /** One record leaving the stream, in order. */
  datatype Outcome =
    | Emitted(req: Request, reply: Reply)
    | EventsSaved(id: int, req: Request, reply: Reply)
    | EventsLost(req: Request)
    | EventsUpdated(updated: int, events: bytes)
    | TlsName(name: bytes)

  /** The outcome of the n-th synchronous save: an id, or a failure. */
  type SaveOracle = nat -> Option<int>

  datatype State = State(
    client: bytes, server: bytes, pending: Option<Request>,
    nonHttp: bool, firstData: bool, sniEmitted: bool,
    ssePending: bool, sseId: int, sseBuf: bytes,
    saves: nat, parsed: seq<Request>, log: seq<Outcome>)

  const NEW_STREAM := State([], [], None, false, false, false, false, 0, [], 0, [], [])

  /** The request still waiting for its response. */
  function Waiting(st: State): seq<Request> {
    if st.pending.Some? then [st.pending.value] else []
  }

  // ---- Extraction ----

  /** The request half of one round: cut one message off the client buffer. */
  function TakeRequest(st: State): (r: State)
    ensures r.server == st.server
  {
    var end := MessageEnd(st.client);
    if end < 0 then st
    else
      var cut := st.(client := st.client[end..]);
      var msg := st.client[..end];
      if IsResponse(msg) then cut
      else
        match ParseRequest(msg)
        case None => cut
        case Some(req) => cut.(pending := Some(req), parsed := st.parsed + [req])
  }

  /** A response without a length waits for the close, unless its status forbids a body. */
  predicate WaitsForClose(msg: bytes) {
    && ContentLength(msg) < 0 && !Chunked(msg)
    && StatusCode(msg) > 0 && !MayHaveNoBody(StatusCode(msg))
  }

  /** An event stream: a text/event-stream header with neither a length nor chunking. */
  predicate StartsEvents(msg: bytes) {
    EventStream(msg) && ContentLength(msg) < 0 && !Chunked(msg)
  }

  function ReplyOf(resp: Response, size: nat): Reply {
    Reply(resp.status, resp.headers, resp.body, size)
  }

  /** The final response in a framed message: None for an informational or unreadable one. */
  function FinalReply(msg: bytes): Option<Reply> {
    match ParseResponse(msg)
    case None => None
    case Some(resp) => if resp.status < 200 then None else Some(ReplyOf(resp, |msg|))
  }

  /** A saved event-stream header turns the stream; a failed save ends it. */
  function StartEvents(save: SaveOracle, st: State, msg: bytes): (r: State)
    requires st.pending.Some?
    ensures |r.server| <= |st.server|
  {
    match FinalReply(msg)
    case None => st
    case Some(reply) =>
      var next := st.(pending := None, saves := st.saves + 1);
      match save(st.saves)
      case None =>
        next.(nonHttp := true, client := [], server := [],
              log := st.log + [EventsLost(st.pending.value)])
      case Some(id) =>
        next.(ssePending := true, sseId := id,
              log := st.log + [EventsSaved(id, st.pending.value, reply)])
  }

  /** The response half of one round: None when the loop returns, else the state it continues from. */
  function TakeResponse(save: SaveOracle, st: State): (r: Option<State>)
    requires st.pending.Some?
    ensures r.Some? ==> |r.value.server| < |st.server|
  {
    if !IsResponse(st.server) then None
    else
      var end := MessageEnd(st.server);
      if end < 0 then None
      else
        var msg := st.server[..end];
        var cut := st.(server := st.server[end..]);
        if StartsEvents(msg) then Some(StartEvents(save, cut, msg))
        else if WaitsForClose(msg) then None
        else
          match FinalReply(msg)
          case None => Some(cut)
          case Some(reply) => Some(cut.(pending := None, log := st.log + [Emitted(st.pending.value, reply)]))
  }

  function WithRequest(st: State): (r: State)
    ensures r.server == st.server
  {
    if st.pending.Some? then st else TakeRequest(st)
  }

  /** The extraction loop. */
  function Extract(save: SaveOracle, st: State): State
    decreases |st.server|
  {
    var st1 := WithRequest(st);
    if st1.pending.None? then st1
    else
      match TakeResponse(save, st1)
      case None => st1
      case Some(st2) => Extract(save, st2)
  }

  // ---- Feeding ----

  function Limit(maxRes: nat): nat {
    if maxRes > 0 then maxRes else 4 * 1024 * 1024
  }

  /** Keep the last `keep` bytes, then skip to just after an early blank line. */
  function Truncate(buf: bytes, keep: nat): (r: bytes)
    ensures |r| <= keep && |r| <= |buf|
    ensures |buf| <= keep ==> r == buf
  {
    if |buf| <= keep then buf
    else
      var kept := buf[|buf| - keep..];
      var nl := IndexFrom(kept, CRLF_CRLF, 0);
      if 0 <= nl < 4096 then kept[nl + 4..] else kept
  }

  /** What is kept is the end of the buffer. */
  lemma TruncateKeepsEnd(buf: bytes, keep: nat)
    ensures var r := Truncate(buf, keep); r == buf[|buf| - |r|..]
  {
    hide IndexFrom;
    if |buf| > keep {
      var kept := buf[|buf| - keep..];
      var nl := IndexFrom(kept, CRLF_CRLF, 0);
      assert 0 <= nl < 4096 ==> kept[nl + 4..] == buf[|buf| - keep + nl + 4..];
    }
  }

  /** Of a buffer above the limit the last bytes are kept, from behind the first blank line that starts early in them. */
  lemma TruncateIs(buf: bytes, keep: nat)
    requires |buf| > keep
    ensures var kept, r := buf[|buf| - keep..], Truncate(buf, keep);
      && ((forall i :: 0 <= i < 4096 ==> !At(kept, CRLF_CRLF, i)) ==> r == kept)
      && forall i :: 0 <= i < 4096 && At(kept, CRLF_CRLF, i) && (forall j :: 0 <= j < i ==> !At(kept, CRLF_CRLF, j)) ==>
           r == kept[i + 4..]
  {
    hide At;
    var kept := buf[|buf| - keep..];
    IndexFromIsLeast(kept, CRLF_CRLF, 0);
    forall i | 0 <= i < 4096 && At(kept, CRLF_CRLF, i) && (forall j :: 0 <= j < i ==> !At(kept, CRLF_CRLF, j))
      ensures IndexFrom(kept, CRLF_CRLF, 0) == i
    {
      IndexFromUnique(kept, CRLF_CRLF, 0, i);
    }
  }

  /** Buffers are left alone exactly while both are within the limit: the configured one, or 4 MiB. */
  lemma TruncatesIff(maxRes: nat, st: State)
    ensures var limit := if maxRes > 0 then maxRes else 4_194_304;
      TruncateBuffers(maxRes, st) == st <==> |st.client| <= limit && |st.server| <= limit
  {
  }

  function TruncateBuffers(maxRes: nat, st: State): State {
    st.(client := Truncate(st.client, Limit(maxRes)), server := Truncate(st.server, Limit(maxRes)))
  }

  function FlushEvents(st: State): State {
    if st.sseId <= 0 || st.sseBuf == [] then st
    else st.(log := st.log + [EventsUpdated(st.sseId, st.sseBuf)])
  }

  function FeedEvents(maxRes: nat, st: State, data: bytes): State {
    var grown := st.(sseBuf := st.sseBuf + data);
    var flushed := if |grown.sseBuf| >= 4096 then FlushEvents(grown) else grown;
    if |flushed.sseBuf| > maxRes then flushed.(sseBuf := flushed.sseBuf[|flushed.sseBuf| - maxRes..])
    else flushed
  }

  function Append(st: State, c: bytes, s: bytes): State {
    st.(client := st.client + c, server := st.server + s)
  }

  /** First bytes that are not HTTP end the stream; a TLS ClientHello leaves its server name behind. */
  function RejectFirst(st: State, first: bytes): State {
    var ended := st.(nonHttp := true, client := [], server := []);
    if Sni.IsClientHello(first) && !st.sniEmitted && Sni.ExtractSni(first) != [] then
      ended.(sniEmitted := true, log := st.log + [TlsName(Sni.ExtractSni(first))])
    else ended
  }

  function Feed(save: SaveOracle, maxRes: nat, st: State, data: bytes, toServer: bool): State {
    if st.nonHttp then st
    else if st.ssePending && !toServer then FeedEvents(maxRes, st, data)
    else
      var grown := if toServer then Append(st, data, []) else Append(st, [], data);
      var first := if |grown.client| > 0 then grown.client else grown.server;
      if !st.firstData && !LooksLikeHttp(first) then RejectFirst(grown.(firstData := true), first)
      else TruncateBuffers(maxRes, Extract(save, grown.(firstData := true)))
  }

  // ---- Closing ----

  /** What the leftover server bytes say about the pending request; None for an informational response. */
  function CloseReply(server: bytes): Option<Reply> {
    var end := IndexFrom(server, CRLF_CRLF, 0);
    if end < 0 then Some(NoReply)
    else
      match ParseResponseParts(server[..end], server[end + 4..])
      case None => Some(NoReply)
      case Some(resp) =>
        if resp.status < 200 then None else Some(ReplyOf(resp, |server|))
  }

  /** The pending request leaves with `reply`; the leftover bytes are dropped. */
  function Answered(st: State, reply: Reply): State
    requires st.pending.Some?
  {
    st.(client := [], server := [], pending := None, log := st.log + [Emitted(st.pending.value, reply)])
  }

  /** One round of the close loop: the state after it, and whether the loop goes on. */
  function CloseRound(save: SaveOracle, st: State): (r: (State, bool)) {
    var st1 := Extract(save, st);
    if st1.pending.None? && st1.client == [] then (st1, false)
    else
      var st2 := WithRequest(st1);
      if st2.pending.None? then (st2.(client := [], server := []), false)
      else
        match CloseReply(st2.server)
        case None => (st2.(server := []), true)
        case Some(reply) => (Answered(st2, reply), true)
  }

  lemma RequestShrinks(st: State)
    ensures var r := WithRequest(st);
      |r.client| <= |st.client| && (r.pending.Some? && st.pending.None? ==> |r.client| < |st.client|)
  {
    hide IsResponse, ParseRequest, MessageEnd;
  }

  lemma ResponseShrinks(save: SaveOracle, st: State)
    requires st.pending.Some?
    ensures var r := TakeResponse(save, st);
      r.Some? ==> |r.value.client| <= |st.client| && |r.value.server| < |st.server|
  {
    hide IsResponse, MessageEnd, StartsEvents, WaitsForClose, FinalReply;
  }

  /** Extraction never grows a buffer, and stops only where a further round would do nothing new. */
  lemma {:induction false} ExtractShrinks(save: SaveOracle, st: State)
    ensures var r := Extract(save, st);
      && |r.client| <= |st.client| && |r.server| <= |st.server|
      && (r.pending.Some? ==> TakeResponse(save, r).None?)
      && (r.pending.Some? && st.pending.None? ==> |r.client| < |st.client|)
    decreases |st.server|
  {
    hide WithRequest, TakeResponse;
    RequestShrinks(st);
    var st1 := WithRequest(st);
    if st1.pending.Some? {
      ResponseShrinks(save, st1);
      match TakeResponse(save, st1)
      case None =>
      case Some(st2) => ExtractShrinks(save, st2);
    }
  }

  lemma CloseRoundShrinks(save: SaveOracle, st: State)
    ensures var (r, more) := CloseRound(save, st);
      more ==>
        && |r.client| <= |st.client| && r.server == []
        && if r.pending.Some? then |st.server| > 0 else r.client == [] && (st.pending.Some? || |st.client| > 0)
  {
    hide CloseReply, TakeRequest, Extract, TakeResponse;
    ExtractShrinks(save, st);
    RequestShrinks(Extract(save, st));
    assert |Extract(save, st).server| <= |st.server|;
    NoServerNoReply();
  }

  lemma NoServerNoReply()
    ensures CloseReply([]) == Some(NoReply)
  {
  }

  /** What is left to do before a close: bytes, then the pending request. */
  function CloseWork(st: State): nat {
    2 * (|st.client| + |st.server|) + if st.pending.Some? then 1 else 0
  }

  function Close(save: SaveOracle, st: State): State
    decreases CloseWork(st)
  {
    CloseRoundShrinks(save, st);
    var (st1, more) := CloseRound(save, st);
    if more then Close(save, st1) else st1
  }

  function CloseRounds(save: SaveOracle, st: State): nat
    decreases CloseWork(st)
  {
    CloseRoundShrinks(save, st);
    var (st1, more) := CloseRound(save, st);
    if more then 1 + CloseRounds(save, st1) else 1
  }

  /** A drained stream takes one more round, and keeps nothing pending. */
  lemma DrainedCloses(save: SaveOracle, st: State)
    requires st.pending.None? && st.client == []
    ensures CloseRound(save, st) == (st, false)
  {
    NothingFramed();
  }

  /** With no server bytes left, a pending request is emitted without a response. */
  lemma UnansweredCloses(save: SaveOracle, st: State)
    requires st.pending.Some? && st.server == []
    ensures CloseRound(save, st) ==
      (st.(client := [], pending := None, log := st.log + [Emitted(st.pending.value, NoReply)]), true)
  {
  }

  /** The close loop runs at most three rounds; after it nothing is pending and no client byte is left. */
  lemma CloseBounded(save: SaveOracle, st: State)
    ensures CloseRounds(save, st) <= 3
    ensures Close(save, st).pending.None? && Close(save, st).client == []
  {
    hide Extract, WithRequest, CloseReply;
    CloseRoundShrinks(save, st);
    var (st1, more) := CloseRound(save, st);
    if more {
      if st1.pending.Some? {
        UnansweredCloses(save, st1);
        CloseRoundShrinks(save, st1);
        var st2 := CloseRound(save, st1).0;
        DrainedCloses(save, st2);
        assert CloseRounds(save, st2) == 1 && Close(save, st2) == st2;
        assert CloseRounds(save, st1) == 2 && Close(save, st1) == st2;
      } else {
        DrainedCloses(save, st1);
      }
    }
  }

  /** What a close makes of the pending request: an informational response counts as none. */
  function LastReply(server: bytes): Reply {
    match CloseReply(server)
    case None => NoReply
    case Some(reply) => reply
  }

  lemma DrainedEnds(save: SaveOracle, st: State)
    requires st.pending.None? && st.client == []
    ensures Close(save, st) == st
  {
    hide CloseRound;
    DrainedCloses(save, st);
  }

  lemma UnansweredEnds(save: SaveOracle, st: State)
    requires st.pending.Some? && st.server == []
    ensures Close(save, st) == Answered(st, NoReply)
  {
    UnansweredCloses(save, st);
    hide CloseRound, Close;
    var next := CloseRound(save, st).0;
    CloseGoesOn(save, st, next);
    DrainedEnds(save, next);
  }

  /** The round that closes a stream still waiting for the rest of its response. */
  function AfterWaiting(st: State): State
    requires st.pending.Some?
  {
    match CloseReply(st.server)
    case None => st.(server := [])
    case Some(reply) => Answered(st, reply)
  }

  lemma WaitingRound(save: SaveOracle, st: State)
    requires Extract(save, st) == st && st.pending.Some?
    ensures CloseRound(save, st) == (AfterWaiting(st), true)
  {
    hide Extract, CloseReply, TakeRequest;
  }

  lemma CloseGoesOn(save: SaveOracle, st: State, next: State)
    requires CloseRound(save, st) == (next, true)
    ensures Close(save, st) == Close(save, next)
  {
    hide CloseRound;
    CloseRoundShrinks(save, st);
  }

  lemma WaitingEnds(save: SaveOracle, st: State)
    requires st.pending.Some?
    ensures Close(save, AfterWaiting(st)) == Answered(st, LastReply(st.server))
  {
    hide CloseReply, Close;
    match CloseReply(st.server)
    case None => UnansweredEnds(save, st.(server := []));
    case Some(reply) => DrainedEnds(save, Answered(st, reply));
  }

  /** A stream waiting for the rest of its response is closed with what its server bytes say. */
  lemma WaitingCloses(save: SaveOracle, st: State)
    requires Extract(save, st) == st && st.pending.Some?
    ensures Close(save, st) == Answered(st, LastReply(st.server))
  {
    hide Extract, CloseRound, Close, AfterWaiting, Answered, LastReply;
    WaitingRound(save, st);
    CloseGoesOn(save, st, AfterWaiting(st));
    WaitingEnds(save, st);
  }

  /** What has left a stream when a close is done with it, after its first extraction. */
  function EndLog(st: State): seq<Outcome> {
    var taken := WithRequest(st);
    if taken.pending.None? then st.log else st.log + [Emitted(taken.pending.value, LastReply(st.server))]
  }

  lemma RequestKeepsLog(st: State)
    ensures WithRequest(st).log == st.log
  {
    hide IsResponse, ParseRequest, MessageEnd;
  }

  /** The first round of a close in which a request is pending or taken. */
  lemma LastRound(save: SaveOracle, st: State)
    requires WithRequest(Extract(save, st)).pending.Some?
    ensures CloseRound(save, st) == (AfterWaiting(WithRequest(Extract(save, st))), true)
  {
    hide Extract, CloseReply;
    NothingFramed();
  }

  lemma NoLastRound(save: SaveOracle, st: State)
    requires WithRequest(Extract(save, st)).pending.None?
    ensures CloseRound(save, st).0.log == Extract(save, st).log && !CloseRound(save, st).1
  {
    hide Extract, CloseReply, WithRequest;
    RequestKeepsLog(Extract(save, st));
    RequestOnly(Extract(save, st));
  }

  lemma RequestOnly(st: State)
    ensures WithRequest(st).pending.None? ==> st.pending.None?
  {
  }

  /** A close emits what its first extraction does, then at most one more request, with what is left of the server bytes. */
  lemma CloseEnds(save: SaveOracle, st: State)
    ensures Close(save, st).log == EndLog(Extract(save, st))
  {
    var st1 := Extract(save, st);
    var taken := WithRequest(st1);
    RequestKeepsLog(st1);
    CloseRoundShrinks(save, st);
    if taken.pending.Some? {
      LastRound(save, st);
      hide Extract, CloseRound, Close, AfterWaiting, LastReply, WithRequest;
      CloseGoesOn(save, st, AfterWaiting(taken));
      WaitingEnds(save, taken);
    } else {
      NoLastRound(save, st);
      hide Extract, CloseRound, WithRequest;
    }
  }

  /** The end of a stream: an event stream flushes its events, any other drains its buffers. */
  function CloseStream(save: SaveOracle, st: State): State {
    if st.nonHttp then st else if st.ssePending then FlushEvents(st) else Close(save, st)
  }

  lemma NothingFramed()
    ensures MessageEnd([]) == -1
  {
  }

  // ---- The stream object ----

  class TCPStream {
    const save: SaveOracle
    const maxRes: nat
    var clientBuf: bytes
    var serverBuf: bytes
    var pendingReq: Option<Request>
    var nonHTTP: bool
    var firstData: bool
    var sniEmitted: bool
    var ssePending: bool
    var sseReqID: int
    var sseBuf: bytes
    var saves: nat
    var parsed: seq<Request>
    var log: seq<Outcome>

    function View(): State
      reads this
    {
      State(clientBuf, serverBuf, pendingReq, nonHTTP, firstData, sniEmitted,
            ssePending, sseReqID, sseBuf, saves, parsed, log)
    }

    constructor (save: SaveOracle, maxRes: nat)
      ensures View() == NEW_STREAM && this.save == save && this.maxRes == maxRes
    {
      this.save, this.maxRes := save, maxRes;
      clientBuf, serverBuf, pendingReq := [], [], None;
      nonHTTP, firstData, sniEmitted, ssePending := false, false, false, false;
      sseReqID, sseBuf, saves, parsed, log := 0, [], 0, [], [];
    }

    method TakeClientMessage(end: nat)
      requires MessageEnd(clientBuf) == end && pendingReq.None?
      modifies this
      ensures View() == TakeRequest(old(View()))
    {
      hide IsResponse, ParseRequest, MessageEnd;
      var msg := clientBuf[..end];
      clientBuf := clientBuf[end..];
      if !IsResponse(msg) {
        var req := ParseRequest(msg);
        if req.Some? {
          pendingReq := req;
          parsed := parsed + [req.value];
        }
      }
    }

    /** The request half of a round; `ready` when a request is pending after it. */
    method TakeRequestMessage() returns (ready: bool)
      modifies this
      ensures View() == WithRequest(old(View())) && ready == pendingReq.Some?
    {
      hide IsResponse, ParseRequest, MessageEnd;
      if pendingReq.Some? {
        return true;
      }
      if |clientBuf| == 0 {
        NothingFramed();
        return false;
      }
      var idx := FindMessageEnd(clientBuf);
      if idx < 0 {
        return false;
      }
      TakeClientMessage(idx);
      return pendingReq.Some?;
    }

    /** The response half of a round; `more` when the loop goes on. */
    method TakeResponseMessage() returns (more: bool)
      requires pendingReq.Some?
      modifies this
      ensures TakeResponse(save, old(View())) == if more then Some(View()) else None
      ensures !more ==> View() == old(View())
    {
      hide ContentLength, Chunked, StatusCode, EventStream, ParseResponse, MessageEnd, StartEvents;
      if |serverBuf| == 0 || !IsResponse(serverBuf) {
        return false;
      }
      var idx := FindMessageEnd(serverBuf);
      if idx < 0 {
        return false;
      }
      var msg := serverBuf[..idx];
      var hasCL := ContentLength(msg) >= 0;
      var hasChunked := Chunked(msg);
      if EventStream(msg) && !hasCL && !hasChunked {
        serverBuf := serverBuf[idx..];
        BeginEvents(msg);
        return true;
      }
      if !hasCL && !hasChunked {
        var status := StatusCode(msg);
        if status > 0 && !MayHaveNoBody(status) {
          return false;
        }
      }
      serverBuf := serverBuf[idx..];
      var resp := ParseResponse(msg);
      if resp.None? {
        return true;
      }
      if resp.value.status < 200 {
        return true;
      }
      log := log + [Emitted(pendingReq.value, ReplyOf(resp.value, |msg|))];
      pendingReq := None;
      return true;
    }

    method TryExtractHTTP()
      modifies this
      ensures View() == Extract(save, old(View()))
    {
      hide WithRequest, TakeResponse;
      while true
        invariant Extract(save, View()) == Extract(save, old(View()))
        decreases |serverBuf|
      {
        ghost var before := View();
        var ready := TakeRequestMessage();
        if !ready {
          return;
        }
        assert View() == WithRequest(before);
        var more := TakeResponseMessage();
        if !more {
          return;
        }
      }
    }

    method BeginEvents(msg: bytes)
      requires pendingReq.Some?
      modifies this
      ensures View() == StartEvents(save, old(View()), msg)
    {
      hide ParseResponse, ReplyOf;
      var resp := ParseResponse(msg);
      if resp.None? || resp.value.status < 200 {
        return;
      }
      var req, id := pendingReq.value, save(saves);
      saves := saves + 1;
      pendingReq := None;
      if id.None? {
        nonHTTP, clientBuf, serverBuf := true, [], [];
        log := log + [EventsLost(req)];
      } else {
        ssePending, sseReqID := true, id.value;
        log := log + [EventsSaved(id.value, req, ReplyOf(resp.value, |msg|))];
      }
    }

    method FlushSSEEvents()
      modifies this
      ensures View() == FlushEvents(old(View()))
    {
      if sseReqID <= 0 || |sseBuf| == 0 {
        return;
      }
      log := log + [EventsUpdated(sseReqID, sseBuf)];
    }

    method FeedEventBytes(data: bytes)
      modifies this
      ensures View() == FeedEvents(maxRes, old(View()), data)
    {
      sseBuf := sseBuf + data;
      if |sseBuf| >= 4096 {
        FlushSSEEvents();
      }
      if |sseBuf| > maxRes {
        sseBuf := sseBuf[|sseBuf| - maxRes..];
      }
    }

    method RejectFirstBytes(first: bytes)
      modifies this
      ensures View() == RejectFirst(old(View()), first)
    {
      if Sni.IsClientHello(first) && !sniEmitted {
        var sni := Sni.FindSni(first);
        if sni != [] {
          log := log + [TlsName(sni)];
          sniEmitted := true;
        }
      }
      nonHTTP, clientBuf, serverBuf := true, [], [];
    }

    method TrimBuffers()
      modifies this
      ensures View() == TruncateBuffers(maxRes, old(View()))
    {
      if |clientBuf| > Limit(maxRes) {
        clientBuf := Truncate(clientBuf, Limit(maxRes));
      }
      if |serverBuf| > Limit(maxRes) {
        serverBuf := Truncate(serverBuf, Limit(maxRes));
      }
    }

    method FeedSegment(data: bytes, clientToServer: bool)
      modifies this
      ensures View() == Feed(save, maxRes, old(View()), data, clientToServer)
    {
      hide Extract, LooksLikeHttp, RejectFirst, TruncateBuffers, FeedEvents;
      if nonHTTP {
        return;
      }
      if ssePending && !clientToServer {
        FeedEventBytes(data);
        return;
      }
      if clientToServer {
        clientBuf := clientBuf + data;
      } else {
        serverBuf := serverBuf + data;
      }
      assert clientBuf + [] == clientBuf && serverBuf + [] == serverBuf;
      if !firstData {
        firstData := true;
        var first := if |clientBuf| > 0 then clientBuf else serverBuf;
        if !LooksLikeHttp(first) {
          RejectFirstBytes(first);
          return;
        }
      }
      TryExtractHTTP();
      TrimBuffers();
    }

    /** The close handler's loop; `rounds` counts its iterations. */
    method TryExtractHTTPOnClose() returns (ghost rounds: nat)
      modifies this
      ensures View() == Close(save, old(View())) && rounds == CloseRounds(save, old(View())) <= 3
    {
      hide CloseRound, CloseReply, Extract, WithRequest;
      ghost var st0 := View();
      rounds := 0;
      while true
        invariant Close(save, View()) == Close(save, st0)
        invariant rounds + CloseRounds(save, View()) == CloseRounds(save, st0)
        decreases CloseRounds(save, View())
      {
        ghost var st := View();
        var more := CloseOnce();
        rounds := rounds + 1;
        if !more {
          CloseBounded(save, st0);
          return;
        }
      }
    }

    method CloseOnce() returns (more: bool)
      modifies this
      ensures (View(), more) == CloseRound(save, old(View()))
    {
      hide CloseReply, Extract, WithRequest;
      TryExtractHTTP();
      if pendingReq.None? && |clientBuf| == 0 {
        return false;
      }
      var ready := TakeRequestMessage();
      if !ready {
        clientBuf, serverBuf := [], [];
        return false;
      }
      var reply := CloseReply(serverBuf);
      if reply.None? {
        serverBuf := [];
        return true;
      }
      log := log + [Emitted(pendingReq.value, reply.value)];
      pendingReq, serverBuf, clientBuf := None, [], [];
      return true;
    }

    method HandleClose()
      modifies this
      ensures View() == CloseStream(save, old(View()))
    {
      hide Close, FlushEvents;
      if nonHTTP {
        return;
      }
      if ssePending {
        FlushSSEEvents();
        return;
      }
      ghost var _ := TryExtractHTTPOnClose();
    }
  }
}
