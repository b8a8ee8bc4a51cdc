/** Smallest messages: they meet the conditions of the general results, and reach the cases those results rule out. */
module Samples {
  import opened Bytes
  import opened HttpSyntax
  import opened MessageText
  import opened HeaderText
  import opened Framing
  import opened ChunkedCodec
  import opened TcpStream
  import opened Segmentation
  import opened Exchanges
  import opened Extractions
  import opened Conversations
  import Stalls
  import Closings
  import Conservation

  const GET: bytes := [71, 69, 84]
  const HTTP: bytes := [72, 84, 84, 80]
  const NAME: bytes := [116, 101, 120, 116, 47, 101, 118, 101, 110, 116, 45, 115, 116, 114, 101, 97, 109]

  /** "GET / ", a header line "A: ", and the blank line; what is read of it. */
  const ASKED := Conversations.Ask(GET, [SLASH], [], [Field([65], [])], [])
  const ASK: bytes := Whole(AskText(ASKED))
  const GOT := Request(GET, [SLASH], map[], [])

  /** "GET / " and the blank line: without a header line it is not read. */
  const BARE: bytes := Header(RequestLine(GET, [SLASH], []), [])

  /** "HTTP 204 " and the blank line. */
  const TOLD := Tell(HTTP, 204, [], [], [])
  const TELL: bytes := Whole(TellText(TOLD))

  /** "HTTP 200 ", a header line "c: text/event-stream", and the blank line. */
  const STREAMED := Tell(HTTP, 200, [], [Field([99], NAME)], [])
  const EVENTS: bytes := Whole(TellText(STREAMED))

  // ---- What is read of them ----

  lemma Sizes()
    ensures |ASK| == 15 && |BARE| == 10 && |TELL| == 13 && |EVENTS| == 35
  {
    var f, g := Field([65], []), Field([99], NAME);
    assert [f][1..] == [] && [g][1..] == [];
    assert FieldLines([f]) == CRLF + FieldLine(f) + [] && FieldLines([g]) == CRLF + FieldLine(g) + [];
  }

  lemma OtherName(f: Field)
    requires |f.name| == 1
    ensures ValueOf([f], "content-length").None? && ValueOf([f], "transfer-encoding").None?
  {
    assert [f][1..] == [];
    assert |Ascii("content-length")| == 14 && |Ascii("transfer-encoding")| == 17;
  }

  lemma AskReadable()
    ensures GoodRequest(AskText(ASKED)) && ParseRequest(ASK) == Some(GOT)
  {
    hide ParseRequest, GoodRequest, ValueOf;
    OtherName(ASKED.fields[0]);
    AskReads(ASKED);
    assert ASKED.fields[..0] == [];
  }

  lemma BareUnreadable()
    ensures Framed(Message(BARE, [])) && Whole(Message(BARE, [])) == BARE && ReadRequest(BARE).None?
  {
    var line := RequestLine(GET, [SLASH], []);
    assert line == [71, 69, 84, 32, 47, 32];
    NoFields();
    assert FirstWord(line, GET) && line[..3] == GET && BARE == line + FieldLines([]) + CRLF_CRLF;
    hide ValueOf;
    assert Sized([], []);
    hide *;
    RequestRoundTrip(GET, [SLASH], [], [], []);
    assert BARE + [] == BARE;
    SizedAnnounces(line, GET, [], []);
    HeaderIsBlock(line, []);
    BareFramed();
  }

  lemma BareFramed()
    requires HeaderBlock(BARE) && Announces(BARE, []) && ParseRequest(BARE).None?
    ensures Framed(Message(BARE, [])) && Whole(Message(BARE, [])) == BARE && ReadRequest(BARE).None?
  {
    hide HeaderBlock, Announces, ParseRequest, IsResponse;
  }

  lemma NoFields()
    ensures ValueOf([], "content-length").None? && ValueOf([], "transfer-encoding").None? && FieldMap([]) == map[]
  {
  }

  lemma TellReadable()
    ensures GoodResponse(TellText(TOLD)) && IsResponse(TELL)
    ensures FinalReply(TELL) == Some(Reply(204, map[], [], 13))
  {
    Sizes();
    NothingMentioned();
    hide GoodResponse, FinalReply, IsResponse, MentionsEvents, ValueOf;
    NoFields();
    assert TELL == TellText(TOLD).header;
    TellStarts(TOLD);
    Conversations.TellGood(TOLD);
  }

  lemma NothingMentioned()
    ensures !MentionsEvents(TellText(TOLD).header)
  {
    Sizes();
    assert |Ascii("text/event-stream")| == 17;
  }

  lemma EventsNamed()
    ensures Ascii("text/event-stream") == NAME && ToLower(NAME) == NAME
  {
  }

  lemma EventsMention()
    ensures MentionsEvents(TellText(STREAMED).header)
  {
    var f, header := STREAMED.fields[0], TellText(STREAMED).header;
    assert [f][1..] == [] && FieldLines([f]) == CRLF + FieldLine(f);
    var front := TellLine(STREAMED) + CRLF + [99, COLON, SP];
    EventsNamed();
    assert header == front + NAME + CRLF_CRLF;
    LowerJoins(front + NAME, CRLF_CRLF);
    LowerJoins(front, NAME);
    LowerLength(front);
    hide ToLower, Ascii;
    var lower := ToLower(header);
    assert lower[|front|..|front| + 17] == NAME;
    assert At(lower, NAME, |front|);
  }

  lemma EventsReply()
    ensures FinalReply(EVENTS) == Some(Reply(200, map[[99] := NAME], [], 35))
  {
    EventsWritten();
    hide *;
    Sizes();
    Conversations.TellParses(STREAMED);
    AnswerSpells(STREAMED);
    HeaderOnly(STREAMED);
  }

  lemma EventsWritten()
    ensures WrittenTell(STREAMED) && FieldMap(STREAMED.fields) == map[[99] := NAME]
    ensures STREAMED.status == 200 && STREAMED.body == [] && EVENTS == Whole(TellText(STREAMED))
  {
    assert STREAMED.fields[1..] == [] && FieldMap(STREAMED.fields) == map[[99] := NAME] + map[];
    assert map[STREAMED.fields[0].name := NAME] + map[] == map[[99] := NAME];
  }

  lemma EventsStart()
    ensures StartsEvents(EVENTS) && HeaderBlock(EVENTS) && IsResponse(EVENTS)
    ensures MessageEnd(EVENTS) == 35 && EVENTS[..35] == EVENTS && EVENTS[35..] == []
  {
    var t := STREAMED;
    OtherName(t.fields[0]);
    hide ValueOf;
    assert WrittenTell(t) && Sized(t.fields, []) && !SaysChunked(t.fields);
    hide *;
    Sizes();
    EventsMention();
    TellStarts(t);
    TellWaits(t);
    WordLine(TellLine(t), t.version);
    HeaderIsBlock(TellLine(t), t.fields);
    WrittenFramed(TellLine(t), t.version, t.fields, [], []);
    HeaderOnly(t);
    assert EVENTS + [] == EVENTS;
  }

  lemma HeaderOnly(t: Tell)
    requires t.body == []
    ensures Whole(TellText(t)) == TellText(t).header == Header(TellLine(t), t.fields) + []
    ensures TellText(t).header == Header(TellLine(t), t.fields)
  {
  }

  // ---- An exchange, however it is cut ----

  lemma {:induction false} WireOne(m: Message)
    ensures Wire([m]) == Whole(m)
  {
    assert [m][1..] == [] && Wire([m][1..]) == [];
  }

  lemma ParsedOne(m: Message)
    ensures Parsed([m]) == if ParseRequest(Whole(m)).Some? then [ParseRequest(Whole(m)).value] else []
  {
    hide ParseRequest;
    assert [m][1..] == [];
  }

  lemma RepliesOne(m: Message)
    ensures Replies([m]) == if FinalReply(Whole(m)).Some? then [FinalReply(Whole(m)).value] else []
  {
    hide FinalReply;
    assert [m][1..] == [];
  }

  lemma OnePair(save: SaveOracle, maxRes: nat, segs: seq<Segment>, ask: Message, tell: Message)
    requires GoodRequest(ask) && GoodResponse(tell)
    requires Sent(segs, true) == Whole(ask) && Sent(segs, false) == Whole(tell)
    requires segs != [] && LooksLikeHttp(segs[0].data) && WithinLimit(save, maxRes, ACCEPTED, segs)
    ensures var log := FeedAll(save, maxRes, NEW_STREAM, segs).log;
      && |log| == (if |Parsed([ask])| < |Replies([tell])| then |Parsed([ask])| else |Replies([tell])|)
      && forall i :: 0 <= i < |log| ==> log[i] == Emitted(Parsed([ask])[i], Replies([tell])[i])
  {
    hide *;
    WireOne(ask);
    WireOne(tell);
    ConversationsArePaired(save, maxRes, segs, [ask], [tell]);
  }

  /** Any cutting of the two messages, with any interleaving, gives the one pair and nothing else. */
  lemma PairComesOut(save: SaveOracle, maxRes: nat, segs: seq<Segment>)
    requires Stalls.Cutting(segs, ASK, TELL) && |ASK| <= Limit(maxRes)
    ensures FeedAll(save, maxRes, NEW_STREAM, segs).log == [Emitted(GOT, Reply(204, map[], [], 13))]
  {
    assert |ACCEPTED.client| == |ACCEPTED.server| == 0;
    hide *;
    Sizes();
    var ask, tell := AskText(ASKED), TellText(TOLD);
    Carried(segs);
    AskReadable();
    TellReadable();
    TotalsWithinLimit(save, maxRes, ACCEPTED, segs);
    OnePair(save, maxRes, segs, ask, tell);
    ParsedOne(ask);
    RepliesOne(tell);
  }

  lemma Carried(segs: seq<Segment>)
    requires Stalls.Cutting(segs, ASK, TELL)
    ensures segs != [] && LooksLikeHttp(segs[0].data) && Sent(segs, true) == ASK && Sent(segs, false) == TELL
  {
    hide LooksLikeHttp, Sent;
  }

  lemma GetStarts(rest: bytes)
    ensures LooksLikeHttp(GET + [SP] + rest)
  {
    assert (GET + [SP] + rest)[..4] == [71, 69, 84, 32] == OPENINGS[0];
    RecognisedIff(GET + [SP] + rest);
  }

  // ---- Unreadable requests ----

  /** An unreadable message at the head of a client stream: extraction stalls behind it. */
  lemma HeadDrops(bad: Message, rest: bytes, s: bytes)
    requires Framed(bad) && ReadRequest(Whole(bad)).None? && ClientClean(rest)
    ensures var c := Whole(bad) + rest;
      && ClientClean(c) && MessageEnd(c) >= 0 && ReadRequest(c[..MessageEnd(c)]).None?
      && AllRequests(c) == AllRequests(rest) && Requests(c) == []
      && Closings.Stall(c, s) == Some((rest, s)) && Closings.Unreadable(c) == Closings.Unreadable(rest) + 1
  {
    hide Framed, MessageEnd, HeaderClean, ReadRequest, Finals;
    FirstMessage(bad, rest);
  }

  lemma OneRequest(ask: Message)
    requires GoodRequest(ask)
    ensures var c := Whole(ask);
      && ClientClean(c) && |AllRequests(c)| == 1 && Closings.Unreadable(c) == 0
  {
    hide Framed, MessageEnd, HeaderClean, IsResponse, ParseRequest;
    NothingFramed();
    NothingClean();
    FirstMessage(ask, []);
    assert Whole(ask) + [] == Whole(ask);
    assert AllRequests([]) == [] && ClientClean([]) && Closings.Unreadable([]) == 0;
  }

  lemma OneResponse()
    ensures ServerOk(TELL) && |Finals(TELL)| == 1 && LooksLikeHttp(TELL) && TELL != [] && |TELL| <= |BARE + ASK|
  {
    Sizes();
    TellReadable();
    hide GoodResponse, FinalReply, ServerOk, Finals, IsResponse;
    ServerWire([TellText(TOLD)]);
    WireOne(TellText(TOLD));
    RepliesOne(TellText(TOLD));
  }

  lemma BareReads()
    ensures Framed(Message(BARE, [])) && Whole(Message(BARE, [])) == BARE && ReadRequest(BARE).None?
    ensures ClientClean(ASK) && |AllRequests(ASK)| == 1 && Closings.Unreadable(ASK) == 0
  {
    hide ReadRequest, Framed, ClientClean, AllRequests, GoodRequest, Closings.Unreadable;
    BareUnreadable();
    AskReadable();
    OneRequest(AskText(ASKED));
  }

  /** A request without header lines, then one with: before the close what is emitted depends on the cutting. */
  lemma BareStalls(save: SaveOracle, maxRes: nat)
    requires |BARE + ASK| <= Limit(maxRes)
    ensures !Stalls.OneLog(save, maxRes, BARE + ASK, TELL)
  {
    BareReads();
    OneResponse();
    hide Limit, Framed, ReadRequest, ClientClean, AllRequests, Requests, ServerOk, Finals, Stalls.OneLog;
    HeadDrops(Message(BARE, []), ASK, TELL);
    Stalls.CutsAgreeIff(save, maxRes, BARE + ASK, TELL);
  }

  /** Once the stream is closed it does not. */
  lemma BareClosesAlike(save: SaveOracle, maxRes: nat)
    requires |BARE + ASK| <= Limit(maxRes)
    ensures Closings.OneClosedLog(save, maxRes, BARE + ASK, TELL)
  {
    BareReads();
    OneResponse();
    hide Limit, Framed, ReadRequest, ClientClean, AllRequests, Requests, ServerOk, Finals, Closings.OneClosedLog,
         LooksLikeHttp, Closings.Unreadable;
    HeadDrops(Message(BARE, []), ASK, TELL);
    Closings.OneUnreadableAgrees(save, maxRes, BARE + ASK, TELL);
  }

  /** Three such requests and then one with a header line, never answered: the last is lost or not, by the cutting. */
  lemma ThreeBaresDiffer(save: SaveOracle, maxRes: nat)
    requires |BARE + (BARE + (BARE + ASK))| <= Limit(maxRes)
    ensures !Closings.OneClosedLog(save, maxRes, BARE + (BARE + (BARE + ASK)), [])
  {
    BareReads();
    BareStarts();
    NoServer();
    hide Limit, Framed, ReadRequest, ClientClean, AllRequests, Requests, ServerOk, Closings.OneClosedLog, LooksLikeHttp,
         Closings.Stall, MessageEnd, Closings.Unreadable;
    HeadDrops(Message(BARE, []), ASK, []);
    HeadDrops(Message(BARE, []), BARE + ASK, []);
    HeadDrops(Message(BARE, []), BARE + (BARE + ASK), []);
    Closings.ClosedCutsAgreeIff(save, maxRes, BARE + (BARE + (BARE + ASK)), []);
  }

  lemma NoServer()
    ensures ServerOk([])
  {
    NothingFramed();
    NothingClean();
  }

  lemma BareStarts()
    ensures var c := BARE + (BARE + (BARE + ASK)); LooksLikeHttp(c) && c != []
  {
    var c := BARE + (BARE + (BARE + ASK));
    Sizes();
    assert BARE[..4] == GET + [SP];
    assert c == GET + [SP] + c[4..];
    GetStarts(c[4..]);
  }

  // ---- A request lost on an event stream ----

  /** The stream once it has read ASK. */
  function Asked(st: State): State {
    st.(firstData := true, client := [], pending := Some(GOT), parsed := st.parsed + [GOT])
  }

  /** The stream once EVENTS has answered it. */
  function Streaming(save: SaveOracle, st: State): State
    requires st.pending.Some? && save(st.saves).Some?
  {
    st.(server := [], pending := None, saves := st.saves + 1, ssePending := true, sseId := save(st.saves).value,
        log := st.log + [EventsSaved(save(st.saves).value, st.pending.value, Reply(200, map[[99] := NAME], [], 35))])
  }

  /** A further request on an event stream is read, and no close ever gives it a record. */
  lemma EventStreamLoses(save: SaveOracle, maxRes: nat)
    requires save(0).Some? && |EVENTS| <= Limit(maxRes)
    ensures var st := Conservation.Run(save, maxRes,
        [Conservation.Fed(ASK, true), Conservation.Fed(EVENTS, false), Conservation.Fed(ASK, true)]);
      st.ssePending && st.pending == Some(GOT) && CloseStream(save, st).pending == Some(GOT)
  {
    var a, b, c := Conservation.Fed(ASK, true), Conservation.Fed(EVENTS, false), Conservation.Fed(ASK, true);
    assert [a, b, c][..2] == [a, b] && [a, b][..1] == [a] && [a][..0] == [];
    hide CloseStream, Limit, Feed;
    var st1 := Asked(NEW_STREAM);
    FeedAsk(save, maxRes, NEW_STREAM);
    var st2 := Streaming(save, st1);
    FeedHeader(save, maxRes, st1);
    FeedAsk(save, maxRes, st2);
    assert Conservation.Run(save, maxRes, [a]) == st1;
    assert Conservation.Run(save, maxRes, [a, b]) == st2;
    Conservation.CloseLosesIff(save, Asked(st2));
  }

  lemma FeedAsk(save: SaveOracle, maxRes: nat, st: State)
    requires !st.nonHttp && st.pending.None? && st.client == [] && st.server == [] && |EVENTS| <= Limit(maxRes)
    ensures Feed(save, maxRes, st, ASK, true) == Asked(st)
  {
    Sizes();
    assert ASK[..4] == GET + [SP] && ASK == GET + [SP] + ASK[4..];
    GetStarts(ASK[4..]);
    assert [] + ASK == ASK;
    hide LooksLikeHttp, Limit, Extract;
    AskTaken(save, st.(firstData := true));
  }

  lemma FeedHeader(save: SaveOracle, maxRes: nat, st: State)
    requires !st.nonHttp && !st.ssePending && st.firstData && st.pending.Some? && st.client == [] && st.server == []
    requires save(st.saves).Some? && |EVENTS| <= Limit(maxRes)
    ensures Feed(save, maxRes, st, EVENTS, false) == Streaming(save, st)
  {
    hide Feed, Limit, Extract;
    assert [] + EVENTS == EVENTS && Grown(st, Segment(EVENTS, false)) == st.(server := EVENTS);
    FeedNoCut(save, maxRes, st, Segment(EVENTS, false));
    EventsTaken(save, st);
  }

  lemma AskTaken(save: SaveOracle, st: State)
    requires st.pending.None? && st.server == [] && st.firstData
    ensures Extract(save, st.(client := ASK)) == Asked(st)
  {
    AskTakes(save, st.(client := ASK));
    assert TakeResponse(save, Asked(st)).None? by { assert !IsResponse([]); }
    hide TakeResponse;
  }

  lemma EventsTaken(save: SaveOracle, st: State)
    requires st.pending.Some? && st.client == [] && save(st.saves).Some?
    ensures Extract(save, st.(server := EVENTS)) == Streaming(save, st)
  {
    Sizes();
    EventsStart();
    EventsReply();
    NothingFramed();
    hide MessageEnd, StartsEvents, IsResponse, FinalReply;
  }

  // ---- A request lost to a failed save ----

  /** The stream at its end, its pending request lost. */
  function Lost(st: State): State
    requires st.pending.Some?
  {
    st.(server := [], client := [], pending := None, saves := st.saves + 1, nonHttp := true,
        log := st.log + [EventsLost(st.pending.value)])
  }

  lemma EventsFail(save: SaveOracle, st: State)
    requires st.pending.Some? && st.client == [] && save(st.saves).None?
    ensures Extract(save, st.(server := EVENTS)) == Lost(st)
  {
    Sizes();
    EventsStart();
    EventsReply();
    NothingFramed();
    hide MessageEnd, StartsEvents, IsResponse, FinalReply;
  }

  /** The client bytes arrive last, an unreadable request at their head: the close meets the failing save. */
  lemma CloseLosesUnsaved(save: SaveOracle, maxRes: nat)
    requires save(0).None? && |EVENTS| <= Limit(maxRes)
    ensures var st := Conservation.Run(save, maxRes, [Conservation.Fed(EVENTS, false), Conservation.Fed(BARE + ASK, true)]);
      && st.parsed == [] && !st.nonHttp && !st.ssePending && Conservation.Unsaved(st.log) == []
      && Conservation.Unsaved(CloseStream(save, st).log) == [GOT]
      && Conservation.Recorded(CloseStream(save, st).log) == []
  {
    var a, b := Conservation.Fed(EVENTS, false), Conservation.Fed(BARE + ASK, true);
    assert [a, b][..1] == [a] && [a][..0] == [];
    hide Limit, Feed, Extract, CloseStream, Conservation.Recorded, Conservation.Unsaved;
    var st1, st2 := ACCEPTED.(server := EVENTS), ACCEPTED.(client := ASK, server := EVENTS);
    FeedEventsFirst(save, maxRes);
    FeedBareAsk(save, maxRes);
    assert Conservation.Run(save, maxRes, [a]) == st1;
    assert Conservation.Run(save, maxRes, [a, b]) == st2;
    LostAtClose(save, st2);
    EmptyLog();
  }

  lemma EmptyLog()
    ensures Conservation.Unsaved([]) == [] && Conservation.Recorded([]) == []
  {
  }

  lemma FeedEventsFirst(save: SaveOracle, maxRes: nat)
    requires |EVENTS| <= Limit(maxRes)
    ensures Feed(save, maxRes, NEW_STREAM, EVENTS, false) == ACCEPTED.(server := EVENTS)
  {
    var seg := Segment(EVENTS, false);
    EventsLookHttp();
    hide LooksLikeHttp, Limit, Extract, Feed;
    AcceptFirst(save, maxRes, seg);
    assert [] + EVENTS == EVENTS && Grown(ACCEPTED, seg) == ACCEPTED.(server := EVENTS);
    FeedNoCut(save, maxRes, ACCEPTED, seg);
    Conservation.IdleExtracts(save, ACCEPTED.(server := EVENTS));
  }

  lemma EventsLookHttp()
    ensures LooksLikeHttp(EVENTS)
  {
    EventsStart();
  }

  lemma FeedBareAsk(save: SaveOracle, maxRes: nat)
    requires |EVENTS| <= Limit(maxRes)
    ensures Feed(save, maxRes, ACCEPTED.(server := EVENTS), BARE + ASK, true) == ACCEPTED.(client := ASK, server := EVENTS)
  {
    var st := ACCEPTED.(server := EVENTS);
    var grown := Grown(st, Segment(BARE + ASK, true));
    Sizes();
    assert [] + (BARE + ASK) == BARE + ASK && EVENTS + [] == EVENTS;
    hide Feed, Limit;
    BareUnreadable();
    FirstMessage(Message(BARE, []), ASK);
    hide MessageEnd, ParseRequest, IsResponse, Framed;
    FeedNoCut(save, maxRes, st, Segment(BARE + ASK, true));
    assert TakeRequest(grown) == grown.(client := ASK);
  }

  lemma LostAtClose(save: SaveOracle, st: State)
    requires st == ACCEPTED.(client := ASK, server := EVENTS) && save(0).None?
    ensures CloseStream(save, st).log == [EventsLost(GOT)]
    ensures Conservation.Unsaved(CloseStream(save, st).log) == [GOT]
    ensures Conservation.Recorded(CloseStream(save, st).log) == []
  {
    var asked := Asked(ACCEPTED);
    assert Extract(save, st) == Lost(asked) by {
      AskTakes(save, st);
      EventsFail(save, asked);
    }
    hide Extract, MessageEnd, Close;
    CloseEnds(save, st);
    NothingFramed();
    var o := EventsLost(GOT);
    Conservation.LogStep([], o);
    assert [] + [o] == [o];
    EmptyLog();
  }

  /** Taking ASK up and going on is extraction. */
  lemma AskTakes(save: SaveOracle, st: State)
    requires st.pending.None? && st.client == ASK && st.firstData
    ensures Extract(save, st) == Extract(save, Asked(st))
  {
    AskReadable();
    FirstMessage(AskText(ASKED), []);
    hide MessageEnd, ParseRequest, Framed, TakeResponse;
    assert ASK + [] == ASK;
    assert TakeRequest(st) == Asked(st);
  }
}
