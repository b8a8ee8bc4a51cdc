/** Connections that carry whole, well-framed messages: what the stream emits for them, however they are cut. */
module Exchanges {
  import opened Bytes
  import opened HttpSyntax
  import opened Framing
  import opened ChunkedCodec
  import opened TcpStream
  import opened Segmentation

  datatype Message = Message(header: bytes, body: bytes)

  function Whole(m: Message): bytes {
    m.header + m.body
  }

  function Wire(ms: seq<Message>): bytes {
    if ms == [] then [] else Whole(ms[0]) + Wire(ms[1..])
  }

  ghost predicate Framed(m: Message) {
    HeaderBlock(m.header) && Announces(m.header, m.body)
  }

  /** A readable request. */
  ghost predicate GoodRequest(m: Message) {
    Framed(m) && !IsResponse(Whole(m)) && ParseRequest(Whole(m)).Some?
  }

  /** A response with an end of its own: by length, by chunks, or by a status that has no body; not an event stream. */
  ghost predicate GoodResponse(m: Message) {
    Framed(m) && IsResponse(m.header) && !StartsEvents(Whole(m)) && !WaitsForClose(Whole(m))
  }

  function Parsed(ms: seq<Message>): seq<Request> {
    if ms == [] then []
    else
      match ParseRequest(Whole(ms[0]))
      case None => Parsed(ms[1..])
      case Some(req) => [req] + Parsed(ms[1..])
  }

  /** The replies of the responses that are not informational, in order. */
  function Replies(ms: seq<Message>): seq<Reply> {
    if ms == [] then []
    else
      match FinalReply(Whole(ms[0]))
      case None => Replies(ms[1..])
      case Some(reply) => [reply] + Replies(ms[1..])
  }

  lemma FirstMessage(m: Message, later: bytes)
    requires Framed(m)
    ensures var wire := Whole(m) + later;
      && MessageEnd(wire) == |Whole(m)| && HeaderClean(wire)
      && wire[..|Whole(m)|] == Whole(m) && wire[|Whole(m)|..] == later
  {
    hide HeaderBlock, Announces, HeaderClean, MessageEnd;
    MessageEndsAt(m.header, m.body, later);
    HeaderBlockClean(m.header, m.body + later);
    assert Whole(m) + later == m.header + m.body + later == m.header + (m.body + later);
  }

  lemma {:induction false} ClientWire(ms: seq<Message>)
    requires forall m :: m in ms ==> GoodRequest(m)
    ensures ClientOk(Wire(ms)) && Requests(Wire(ms)) == Parsed(ms)
  {
    hide Framed, MessageEnd, HeaderClean, IsResponse, ParseRequest;
    if ms == [] {
      NothingFramed();
      assert HeaderClean([]) by { NothingClean(); }
    } else {
      assert ms[0] in ms;
      FirstMessage(ms[0], Wire(ms[1..]));
      ClientWire(ms[1..]);
    }
  }

  lemma NothingClean()
    ensures HeaderClean([])
  {
  }

  lemma {:induction false} ServerWire(ms: seq<Message>)
    requires forall m :: m in ms ==> GoodResponse(m)
    ensures ServerOk(Wire(ms)) && Finals(Wire(ms)) == Replies(ms)
  {
    hide Framed, MessageEnd, HeaderClean, IsResponse, StartsEvents, WaitsForClose, FinalReply;
    if ms == [] {
      NothingFramed();
      assert HeaderClean([]) by { NothingClean(); }
    } else {
      assert ms[0] in ms;
      FirstMessage(ms[0], Wire(ms[1..]));
      ServerWire(ms[1..]);
      IsResponseAppend(ms[0].header, ms[0].body + Wire(ms[1..]));
      assert Wire(ms) == ms[0].header + (ms[0].body + Wire(ms[1..]));
    }
  }

  /**
   Requests and responses sent in any segments, with any interleaving of the two directions: the stream emits
   the i-th request with the i-th response that is not informational, and nothing else.
   */
  lemma ConversationsArePaired(save: SaveOracle, maxRes: nat, segs: seq<Segment>, reqs: seq<Message>, resps: seq<Message>)
    requires (forall m :: m in reqs ==> GoodRequest(m)) && (forall m :: m in resps ==> GoodResponse(m))
    requires Sent(segs, true) == Wire(reqs) && Sent(segs, false) == Wire(resps)
    requires segs != [] && LooksLikeHttp(segs[0].data) && WithinLimit(save, maxRes, ACCEPTED, segs)
    ensures var log := FeedAll(save, maxRes, NEW_STREAM, segs).log;
      && |log| == (if |Parsed(reqs)| < |Replies(resps)| then |Parsed(reqs)| else |Replies(resps)|)
      && |Parsed(reqs)| == |reqs|
      && forall i :: 0 <= i < |log| ==> log[i] == Emitted(Parsed(reqs)[i], Replies(resps)[i])
  {
    hide GoodRequest, GoodResponse, ClientOk, ServerOk, Requests, Finals, FeedAll, WithinLimit, LooksLikeHttp, Sent, Wire;
    ClientWire(reqs);
    ServerWire(resps);
    RunEmitsPairs(save, maxRes, segs);
    PairedAt(Parsed(reqs), Replies(resps));
    ParsedAll(reqs);
  }

  lemma {:induction false} ParsedAll(ms: seq<Message>)
    requires forall m :: m in ms ==> GoodRequest(m)
    ensures |Parsed(ms)| == |ms|
  {
    hide ParseRequest, Framed, IsResponse;
    if ms == [] {
    } else {
      assert ms[0] in ms;
      ParsedAll(ms[1..]);
    }
  }
}
