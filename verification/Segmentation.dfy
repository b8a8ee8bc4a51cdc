/** The emitted exchanges depend on the bytes of the two directions, not on how they were cut and interleaved. */
module Segmentation {
  import opened Bytes
  import opened HttpSyntax
  import opened Framing
  import opened TcpStream
  import opened ChunkedCodec

  // ---- Streams on which framing does not depend on timing ----

  /** What the engine reads of a framed client message. */
  function ReadRequest(msg: bytes): Option<Request> {
    if IsResponse(msg) then None else ParseRequest(msg)
  }

  /** From each message boundary on: no LF LF before the blank line, and every framed message is a request. */
  predicate ClientOk(c: bytes)
    decreases |c|
  {
    HeaderClean(c) &&
    var end := MessageEnd(c);
    end >= 0 ==> ReadRequest(c[..end]).Some? && ClientOk(c[end..])
  }

  /** From each message boundary on: no LF LF before the blank line, and no event stream begins. */
  predicate ServerOk(s: bytes)
    decreases |s|
  {
    HeaderClean(s) &&
    var end := MessageEnd(s);
    end >= 0 ==> !StartsEvents(s[..end]) && ServerOk(s[end..])
  }

  predicate Live(st: State) {
    !st.nonHttp && !st.ssePending
  }

  // ---- Extracting early changes nothing ----

  lemma TakeRequestStable(st: State, x: bytes, y: bytes)
    requires st.pending.None? && ClientOk(st.client + x) && MessageEnd(st.client) >= 0
    ensures TakeRequest(Append(st, x, y)) == Append(TakeRequest(st), x, y)
    ensures TakeRequest(st).pending.Some?
    ensures ClientOk(TakeRequest(st).client + x)
  {
    hide MessageEnd, HeaderClean, IsResponse, ParseRequest;
    var end := MessageEnd(st.client);
    CleanEndStable(st.client, x);
    assert (st.client + x)[..end] == st.client[..end];
    assert (st.client + x)[end..] == st.client[end..] + x;
  }

  lemma IsResponseAppend(s: bytes, y: bytes)
    requires IsResponse(s)
    ensures IsResponse(s + y)
  {
    assert (s + y)[..4] == s[..4];
  }

  lemma TakeResponseStable(save: SaveOracle, st: State, x: bytes, y: bytes)
    requires st.pending.Some? && ServerOk(st.server + y)
    requires TakeResponse(save, st).Some?
    ensures TakeResponse(save, Append(st, x, y)) == Some(Append(TakeResponse(save, st).value, x, y))
    ensures ServerOk(TakeResponse(save, st).value.server + y)
    ensures TakeResponse(save, st).value.client == st.client
    ensures Live(st) ==> Live(TakeResponse(save, st).value)
  {
    hide MessageEnd, HeaderClean, IsResponse, ParseResponse, StartsEvents, WaitsForClose;
    var end := MessageEnd(st.server);
    IsResponseAppend(st.server, y);
    CleanEndStable(st.server, y);
    assert (st.server + y)[..end] == st.server[..end];
    assert (st.server + y)[end..] == st.server[end..] + y;
  }

  predicate Ok(st: State, x: bytes, y: bytes) {
    Live(st) && ClientOk(st.client + x) && ServerOk(st.server + y)
  }

  /** The extraction loop would return at once. */
  predicate Settled(save: SaveOracle, st: State) {
    if st.pending.None? then MessageEnd(st.client) < 0 else TakeResponse(save, st).None?
  }

  lemma SettledExtracts(save: SaveOracle, st: State)
    requires Settled(save, st)
    ensures Extract(save, st) == st
  {
    hide MessageEnd, TakeResponse;
  }

  /** Extracting before more bytes arrive, then again after, is extracting once after. */
  lemma {:induction false} ExtractEarly(save: SaveOracle, st: State, x: bytes, y: bytes)
    requires Ok(st, x, y)
    ensures Ok(Extract(save, st), x, y)
    ensures Extract(save, Append(Extract(save, st), x, y)) == Extract(save, Append(st, x, y))
    ensures Settled(save, Extract(save, st))
    ensures Extract(save, st).firstData == st.firstData
    decreases |st.server|
  {
    hide MessageEnd, ClientOk, ServerOk, TakeRequest, TakeResponse;
    if st.pending.None? {
      if MessageEnd(st.client) < 0 {
        assert TakeRequest(st) == st by { NoRequestYet(st); }
      } else {
        TakeRequestStable(st, x, y);
      }
    }
    RequestKeepsRest(st);
    var st1 := WithRequest(st);
    if st1.pending.Some? {
      assert WithRequest(Append(st, x, y)) == Append(st1, x, y);
      match TakeResponse(save, st1)
      case None =>
      case Some(st2) =>
        TakeResponseStable(save, st1, x, y);
        ResponseKeepsFirst(save, st1);
        ExtractEarly(save, st2, x, y);
    }
  }

  lemma NoRequestYet(st: State)
    requires MessageEnd(st.client) < 0
    ensures TakeRequest(st) == st
  {
  }

  lemma RequestKeepsRest(st: State)
    ensures var r := TakeRequest(st);
      r.firstData == st.firstData && r.nonHttp == st.nonHttp && r.ssePending == st.ssePending
  {
    hide MessageEnd, IsResponse, ParseRequest;
  }

  lemma ResponseKeepsFirst(save: SaveOracle, st: State)
    requires st.pending.Some?
    ensures TakeResponse(save, st).Some? ==> TakeResponse(save, st).value.firstData == st.firstData
  {
    hide MessageEnd, IsResponse, ParseResponse, StartsEvents, WaitsForClose;
  }

  // ---- Runs ----

  datatype Segment = Segment(data: bytes, toServer: bool)

  /** The bytes sent in one direction, over a whole run. */
  function Sent(segs: seq<Segment>, toServer: bool): bytes {
    if segs == [] then []
    else (if segs[0].toServer == toServer then segs[0].data else []) + Sent(segs[1..], toServer)
  }

  function FeedAll(save: SaveOracle, maxRes: nat, st: State, segs: seq<Segment>): State
    decreases |segs|
  {
    if segs == [] then st
    else FeedAll(save, maxRes, Feed(save, maxRes, st, segs[0].data, segs[0].toServer), segs[1..])
  }

  /** What extraction leaves buffered stays within the stream's limit throughout the run. */
  predicate WithinLimit(save: SaveOracle, maxRes: nat, st: State, segs: seq<Segment>)
    decreases |segs|
  {
    segs == [] ||
    var seg := segs[0];
    var grown := if seg.toServer then Append(st, seg.data, []) else Append(st, [], seg.data);
    var next := Extract(save, grown.(firstData := true));
    && |next.client| <= Limit(maxRes) && |next.server| <= Limit(maxRes)
    && WithinLimit(save, maxRes, next, segs[1..])
  }

  lemma AppendTwice(st: State, c: bytes, s: bytes, x: bytes, y: bytes)
    ensures Append(Append(st, c, s), x, y) == Append(st, c + x, s + y)
  {
    assert st.client + c + x == st.client + (c + x);
    assert st.server + s + y == st.server + (s + y);
  }

  /** A live stream that has seen its first bytes: feeding a run is extracting once from all its bytes. */
  lemma {:induction false} FeedAllExtracts(save: SaveOracle, maxRes: nat, st: State, segs: seq<Segment>)
    requires st.firstData && Settled(save, st)
    requires Ok(st, Sent(segs, true), Sent(segs, false))
    requires WithinLimit(save, maxRes, st, segs)
    ensures FeedAll(save, maxRes, st, segs) == Extract(save, Append(st, Sent(segs, true), Sent(segs, false)))
    decreases |segs|
  {
    hide Extract, ClientOk, ServerOk;
    if segs == [] {
      SettledExtracts(save, st);
      assert Append(st, [], []) == st;
    } else {
      var seg := segs[0];
      var c, s := if seg.toServer then seg.data else [], if seg.toServer then [] else seg.data;
      var x, y := Sent(segs[1..], true), Sent(segs[1..], false);
      var grown := Append(st, c, s);
      AppendTwice(st, c, s, x, y);
      assert st.client + c + x == st.client + (c + x);
      assert st.server + s + y == st.server + (s + y);
      ExtractEarly(save, grown, x, y);
      var next := Extract(save, grown);
      assert grown.(firstData := true) == grown;
      assert Feed(save, maxRes, st, seg.data, seg.toServer) == next;
      FeedAllExtracts(save, maxRes, next, segs[1..]);
    }
  }

  // ---- What is emitted ----

  /** The requests framed in a client stream, in order, up to a message that is none. */
  function Requests(c: bytes): seq<Request>
    decreases |c|
  {
    var end := MessageEnd(c);
    if end < 0 then []
    else
      match ReadRequest(c[..end])
      case None => []
      case Some(req) => [req] + Requests(c[end..])
  }

  /** The final responses framed in a server stream, in order, up to one that only the close can end. */
  function Finals(s: bytes): seq<Reply>
    decreases |s|
  {
    var end := MessageEnd(s);
    if end < 0 || !IsResponse(s) || WaitsForClose(s[..end]) then []
    else
      match FinalReply(s[..end])
      case None => Finals(s[end..])
      case Some(reply) => [reply] + Finals(s[end..])
  }

  /** The i-th request with the i-th final response. */
  function Paired(reqs: seq<Request>, replies: seq<Reply>): seq<Outcome> {
    if reqs == [] || replies == [] then []
    else [Emitted(reqs[0], replies[0])] + Paired(reqs[1..], replies[1..])
  }

  lemma {:induction false} PairedAt(reqs: seq<Request>, replies: seq<Reply>)
    ensures |Paired(reqs, replies)| == if |reqs| < |replies| then |reqs| else |replies|
    ensures forall i :: 0 <= i < |Paired(reqs, replies)| ==>
      Paired(reqs, replies)[i] == Emitted(reqs[i], replies[i])
    decreases |reqs|
  {
    if reqs == [] || replies == [] {
    } else {
      PairedAt(reqs[1..], replies[1..]);
    }
  }

  lemma RequestsAfterTake(st: State)
    requires st.pending.None? && ClientOk(st.client)
    ensures var r := TakeRequest(st);
      && Requests(st.client) == Waiting(r) + (if r.pending.Some? then Requests(r.client) else [])
      && ClientOk(r.client) && r.log == st.log && (Live(st) ==> Live(r))
  {
    hide MessageEnd, HeaderClean, IsResponse, ParseRequest;
  }

  lemma FinalsAfterTake(save: SaveOracle, st: State)
    requires st.pending.Some? && ServerOk(st.server) && Live(st)
    ensures match TakeResponse(save, st)
      case None => Finals(st.server) == []
      case Some(r) =>
        && ServerOk(r.server) && r.client == st.client && Live(r)
        && if r.pending.Some? then
             r.pending == st.pending && r.log == st.log && Finals(st.server) == Finals(r.server)
           else
             Finals(st.server) != [] && Finals(st.server)[1..] == Finals(r.server)
             && r.log == st.log + [Emitted(st.pending.value, Finals(st.server)[0])]
  {
    hide MessageEnd, HeaderClean, IsResponse, FinalReply, StartsEvents, WaitsForClose;
  }

  /** Extraction emits exactly the pairs that the two buffers and the pending request determine. */
  lemma {:induction false} ExtractPairs(save: SaveOracle, st: State)
    requires Live(st) && ClientOk(st.client) && ServerOk(st.server)
    ensures Extract(save, st).log == st.log + Paired(Waiting(st) + Requests(st.client), Finals(st.server))
    decreases |st.server|
  {
    hide MessageEnd, ClientOk, ServerOk, TakeRequest, TakeResponse, Requests, Finals;
    if st.pending.None? {
      RequestsAfterTake(st);
    }
    var st1 := WithRequest(st);
    if st1.pending.Some? {
      var reqs := Waiting(st1) + Requests(st1.client);
      assert Waiting(st) + Requests(st.client) == reqs;
      FinalsAfterTake(save, st1);
      match TakeResponse(save, st1)
      case None =>
      case Some(st2) =>
        ExtractPairs(save, st2);
        if st2.pending.None? {
          assert reqs[1..] == Requests(st1.client) == Waiting(st2) + Requests(st2.client);
        }
    }
  }

  // ---- Main results ----

  /** The state of a stream that has accepted its first bytes but holds none. */
  const ACCEPTED := NEW_STREAM.(firstData := true)

  /** A run that this analysis covers: recognised first bytes, framed streams, no truncation. */
  predicate Covered(save: SaveOracle, maxRes: nat, segs: seq<Segment>) {
    && segs != [] && LooksLikeHttp(segs[0].data)
    && ClientOk(Sent(segs, true)) && ServerOk(Sent(segs, false))
    && WithinLimit(save, maxRes, ACCEPTED, segs)
  }

  lemma AcceptFirst(save: SaveOracle, maxRes: nat, seg: Segment)
    requires LooksLikeHttp(seg.data)
    ensures Feed(save, maxRes, NEW_STREAM, seg.data, seg.toServer) ==
      Feed(save, maxRes, ACCEPTED, seg.data, seg.toServer)
  {
    hide Extract, LooksLikeHttp, TruncateBuffers;
    assert [] + seg.data == seg.data;
  }

  /** Whatever the cutting and the interleaving, a covered run leaves the stream as one extraction of all bytes would. */
  lemma RunIsOneExtraction(save: SaveOracle, maxRes: nat, segs: seq<Segment>)
    requires Covered(save, maxRes, segs)
    ensures FeedAll(save, maxRes, NEW_STREAM, segs) ==
      Extract(save, Append(ACCEPTED, Sent(segs, true), Sent(segs, false)))
  {
    hide Extract, ClientOk, ServerOk, Feed, LooksLikeHttp, WithinLimit;
    AcceptFirst(save, maxRes, segs[0]);
    NothingFramed();
    assert [] + Sent(segs, true) == Sent(segs, true) && [] + Sent(segs, false) == Sent(segs, false);
    FeedAllExtracts(save, maxRes, ACCEPTED, segs);
  }

  /** The log of a covered run pairs the i-th request of the client bytes with the i-th final response of the server bytes. */
  lemma RunEmitsPairs(save: SaveOracle, maxRes: nat, segs: seq<Segment>)
    requires Covered(save, maxRes, segs)
    ensures FeedAll(save, maxRes, NEW_STREAM, segs).log ==
      Paired(Requests(Sent(segs, true)), Finals(Sent(segs, false)))
  {
    var c, s := Sent(segs, true), Sent(segs, false);
    assert ClientOk(c) && ServerOk(s);
    hide *;
    RunIsOneExtraction(save, maxRes, segs);
    AllAppended(save, c, s);
  }

  lemma AllAppended(save: SaveOracle, c: bytes, s: bytes)
    requires ClientOk(c) && ServerOk(s)
    ensures Extract(save, Append(ACCEPTED, c, s)).log == Paired(Requests(c), Finals(s))
  {
    hide Extract, ClientOk, ServerOk, Requests, Finals, Paired;
    assert [] + c == c && [] + s == s && [] + Requests(c) == Requests(c);
    ExtractPairs(save, Append(ACCEPTED, c, s));
    assert [] + Paired(Requests(c), Finals(s)) == Paired(Requests(c), Finals(s));
  }

  /** Two ways of cutting the same bytes agree on the whole state, and on everything emitted when the stream closes. */
  lemma CutsAgree(save: SaveOracle, maxRes: nat, segs1: seq<Segment>, segs2: seq<Segment>)
    requires Covered(save, maxRes, segs1) && Covered(save, maxRes, segs2)
    requires forall d :: Sent(segs1, d) == Sent(segs2, d)
    ensures var st1, st2 := FeedAll(save, maxRes, NEW_STREAM, segs1), FeedAll(save, maxRes, NEW_STREAM, segs2);
      st1 == st2 && CloseStream(save, st1) == CloseStream(save, st2)
  {
    RunIsOneExtraction(save, maxRes, segs1);
    RunIsOneExtraction(save, maxRes, segs2);
  }

  /** A run whose bytes fit the limit in each direction is never truncated. */
  lemma {:induction false} TotalsWithinLimit(save: SaveOracle, maxRes: nat, st: State, segs: seq<Segment>)
    requires |st.client| + |Sent(segs, true)| <= Limit(maxRes)
    requires |st.server| + |Sent(segs, false)| <= Limit(maxRes)
    ensures WithinLimit(save, maxRes, st, segs)
    decreases |segs|
  {
    hide Extract;
    if segs == [] {
    } else {
      var seg := segs[0];
      var grown := if seg.toServer then Append(st, seg.data, []) else Append(st, [], seg.data);
      ExtractShrinks(save, grown.(firstData := true));
      TotalsWithinLimit(save, maxRes, Extract(save, grown.(firstData := true)), segs[1..]);
    }
  }

  // ---- The first bytes ----

  /** The request/response records of a log. */
  function Exchanges(log: seq<Outcome>): seq<Outcome> {
    if log == [] then []
    else (if log[0].Emitted? then [log[0]] else []) + Exchanges(log[1..])
  }

  lemma {:induction false} RejectedStays(save: SaveOracle, maxRes: nat, st: State, segs: seq<Segment>)
    requires st.nonHttp
    ensures FeedAll(save, maxRes, st, segs) == st
    decreases |segs|
  {
    if segs == [] {
    } else {
      RejectedStays(save, maxRes, st, segs[1..]);
    }
  }

  lemma {:induction false} PairsAreExchanges(reqs: seq<Request>, replies: seq<Reply>)
    ensures Exchanges(Paired(reqs, replies)) == Paired(reqs, replies)
    decreases |reqs|
  {
    if reqs == [] || replies == [] {
    } else {
      PairsAreExchanges(reqs[1..], replies[1..]);
      assert Paired(reqs, replies)[1..] == Paired(reqs[1..], replies[1..]);
    }
  }

  lemma RejectedEmitsNothing(save: SaveOracle, maxRes: nat, segs: seq<Segment>)
    requires segs != [] && !LooksLikeHttp(segs[0].data)
    ensures Exchanges(FeedAll(save, maxRes, NEW_STREAM, segs).log) == []
  {
    hide Extract, TruncateBuffers, LooksLikeHttp;
    var seg := segs[0];
    assert [] + seg.data == seg.data;
    EmptyLooksLikeHttp();
    var st := Feed(save, maxRes, NEW_STREAM, seg.data, seg.toServer);
    assert st.nonHttp && Exchanges(st.log) == [];
    RejectedStays(save, maxRes, st, segs[1..]);
  }

  /** On otherwise well-framed streams the pairs come out exactly when the first segment is recognised, or there are none. */
  lemma FirstBytesDecide(save: SaveOracle, maxRes: nat, segs: seq<Segment>)
    requires segs != [] && ClientOk(Sent(segs, true)) && ServerOk(Sent(segs, false))
    requires WithinLimit(save, maxRes, ACCEPTED, segs)
    ensures var pairs := Paired(Requests(Sent(segs, true)), Finals(Sent(segs, false)));
      Exchanges(FeedAll(save, maxRes, NEW_STREAM, segs).log) == pairs
      <==> LooksLikeHttp(segs[0].data) || pairs == []
  {
    hide Extract, ClientOk, ServerOk, Requests, Finals, WithinLimit, LooksLikeHttp, FeedAll, Paired;
    PairsAreExchanges(Requests(Sent(segs, true)), Finals(Sent(segs, false)));
    if LooksLikeHttp(segs[0].data) {
      RunEmitsPairs(save, maxRes, segs);
    } else {
      RejectedEmitsNothing(save, maxRes, segs);
    }
  }

  lemma EmptyLooksLikeHttp()
    ensures LooksLikeHttp([])
  {
  }

  // ---- Responses that only the close ends ----

  /** A response header after which the body runs to the end of the connection. */
  predicate OpenEnded(header: bytes) {
    HeaderBlock(header) && IsResponse(header) && WaitsForClose(header) && !StartsEvents(header)
  }

  lemma OpenEndedWaits(save: SaveOracle, st: State, header: bytes, body: bytes)
    requires st.pending.Some? && OpenEnded(header) && st.server == header + body
    ensures Extract(save, st) == st
    ensures IndexFrom(st.server, CRLF_CRLF, 0) == |header| - 4
  {
    hide HeaderClean, IsResponse, ContentLength, Chunked, EventStream, StatusCode, ParseResponse;
    HeaderBlockClean(header, body);
    IndexFromAppend(header, body, CRLF_CRLF, 0);
    assert st.server[..|header|] == header;
    assert MessageEnd(st.server) == |header|;
    hide MessageEnd, HeaderBlock;
  }

  /** The whole response that a header and the bytes after it make. */
  function WholeResponse(header: bytes, body: bytes): Option<Response> {
    if |header| < 4 then None else ParseResponseParts(header[..|header| - 4], body)
  }

  /** What the close makes of that response: nothing when it does not parse or is informational. */
  function WholeReply(header: bytes, body: bytes): Reply {
    match WholeResponse(header, body)
    case None => NoReply
    case Some(resp) =>
      if resp.status >= 200 then Reply(resp.status, resp.headers, body, |header| + |body|) else NoReply
  }

  lemma OpenEndedReply(header: bytes, body: bytes)
    requires |header| >= 4 && IndexFrom(header + body, CRLF_CRLF, 0) == |header| - 4
    ensures LastReply(header + body) == WholeReply(header, body)
  {
    hide IndexFrom, ParseResponseParts;
    var server := header + body;
    assert server[..|header| - 4] == header[..|header| - 4];
    assert server[|header| - 4 + 4..] == body;
  }

  /** At the close the pending request gets that response, with every byte after the header as its body. */
  lemma CloseEndsBody(save: SaveOracle, st: State, header: bytes, body: bytes)
    requires Live(st) && st.pending.Some? && OpenEnded(header) && st.server == header + body
    ensures CloseStream(save, st).log == st.log + [Emitted(st.pending.value,
      match WholeResponse(header, body)
      case None => NoReply
      case Some(resp) =>
        if resp.status >= 200 then Reply(resp.status, resp.headers, body, |header| + |body|) else NoReply)]
  {
    OpenEndedWaits(save, st, header, body);
    hide OpenEnded, Extract, IndexFrom, Close, LastReply, WholeReply;
    OpenEndedReply(header, body);
    WaitingCloses(save, st);
  }
}
