/** Requests and responses as written text, and the records that a stream carrying them emits. */
module Conversations {
  import opened Bytes
  import opened HttpSyntax
  import opened MessageText
  import opened HeaderText
  import opened Framing
  import opened ChunkedCodec
  import opened TcpStream
  import opened Segmentation
  import opened Exchanges

  // ---- Where a written message ends ----

  lemma HeaderIsBlock(first: bytes, fields: seq<Field>)
    requires LF !in first && first != [] && Valid(fields)
    ensures HeaderBlock(Header(first, fields))
  {
    hide ValidField, Header;
    var block := first + FieldLines(fields);
    var h := Header(first, fields);
    BlockInside(first, fields);
    BlockEnds(block, []);
    assert h == block + CRLF_CRLF + [] by { HeaderParts(first, fields); }
    forall i | 0 <= i < |h| - 1
      ensures !At(h, LF_LF, i)
    {
      assert h[i..i + 2][0] == h[i] && h[i..i + 2][1] == h[i + 1];
      assert i < |block| ==> h[i] == block[i];
      assert i + 1 < |block| ==> h[i + 1] == block[i + 1];
    }
    IndexFromIsLeast(h, LF_LF, 0);
  }

  lemma HeaderParts(first: bytes, fields: seq<Field>)
    ensures Header(first, fields) == first + FieldLines(fields) + CRLF_CRLF + []
  {
  }

  predicate SaysChunked(fields: seq<Field>) {
    var encoding := ValueOf(fields, "transfer-encoding");
    encoding.Some? && Contains(encoding.value, Ascii("chunked"))
  }

  /** A body as its header announces it: of the written length, else in chunks, else empty. */
  ghost predicate Sized(fields: seq<Field>, body: bytes) {
    match ValueOf(fields, "content-length")
    case Some(v) => v == DecimalText(|body|) && |body| < 0x8000_0000_0000_0000
    case None =>
      if SaysChunked(fields) then exists chunks, last :: ValidBody(chunks, last) && body == EncodeBody(chunks, last)
      else body == []
  }

  lemma SizedAnnounces(first: bytes, word: bytes, fields: seq<Field>, body: bytes)
    requires FirstWord(first, word) && Valid(fields) && Sized(fields, body)
    ensures Announces(Header(first, fields), body)
  {
    hide ContentLength, Chunked, Header, FirstWord, ValueOf, DecimalText;
    var h := Header(first, fields);
    assert h + [] == h;
    ChunkedRead(first, word, fields, []);
    if ValueOf(fields, "content-length").Some? {
      LengthRead(first, word, fields, |body|, []);
    } else {
      LengthAbsent(first, word, fields);
    }
  }

  /** A written message is framed at its own end, whatever follows, and at no earlier byte. */
  lemma WrittenFramed(first: bytes, word: bytes, fields: seq<Field>, body: bytes, tail: bytes)
    requires FirstWord(first, word) && Valid(fields) && Sized(fields, body)
    ensures var text := Header(first, fields) + body;
      && MessageEnd(text + tail) == |text|
      && forall k :: 0 <= k < |text| ==> MessageEnd(text[..k]) == -1
  {
    hide *;
    SizedAnnounces(first, word, fields, body);
    WordLine(first, word);
    HeaderIsBlock(first, fields);
    MessageRoundTrip(Header(first, fields), body, tail);
  }

  // ---- Requests ----

  datatype Ask = Ask(verb: bytes, path: bytes, version: bytes, fields: seq<Field>, body: bytes)

  function AskLine(a: Ask): bytes {
    RequestLine(a.verb, a.path, a.version)
  }

  function AskText(a: Ask): Message {
    Message(Header(AskLine(a), a.fields), a.body)
  }

  /** A request that the engine can read: with at least one header line, of which the last will be dropped. */
  ghost predicate ValidAsk(a: Ask) {
    && a.verb != [] && !IsSpace(a.verb[0]) && SP !in a.verb && COLON !in a.verb && SP !in a.path
    && LF !in a.verb && LF !in a.path && LF !in a.version
    && (|a.verb| >= 4 ==> a.verb[..4] != [72, 84, 84, 80])
    && a.fields != [] && Valid(a.fields) && Sized(a.fields, a.body)
  }

  lemma AskWord(a: Ask)
    requires ValidAsk(a)
    ensures FirstWord(AskLine(a), a.verb)
  {
    hide Sized, ValidField;
  }

  lemma AskNoResponse(a: Ask)
    requires ValidAsk(a)
    ensures !IsResponse(Whole(AskText(a)))
  {
    hide Sized, ValidField, FieldLines;
    var text := Whole(AskText(a));
    assert Ascii("HTTP") == [72, 84, 84, 80];
    forall k | 0 <= k < |a.verb|
      ensures text[k] == a.verb[k] != SP
    {
      assert a.verb[k] in a.verb;
    }
    assert text[|a.verb|] == SP;
    PrefixAt(text, Ascii("HTTP"), |a.verb|);
    assert |a.verb| >= 4 ==> text[..4] == a.verb[..4];
  }

  /** What is read of a request: all its header lines but the last. */
  function Read(a: Ask): Request {
    Request(a.verb, Rooted(a.path), FieldMap(if a.fields == [] then [] else a.fields[..|a.fields| - 1]), a.body)
  }

  lemma AskReads(a: Ask)
    requires ValidAsk(a)
    ensures GoodRequest(AskText(a)) && ParseRequest(Whole(AskText(a))) == Some(Read(a))
  {
    AskNoResponse(a);
    AskWord(a);
    hide Sized, ValidField, IsResponse, ParseRequest, HeaderBlock, Announces, FirstWord, Rooted, FieldMap, RequestLine;
    SizedAnnounces(AskLine(a), a.verb, a.fields, a.body);
    WordLine(AskLine(a), a.verb);
    HeaderIsBlock(AskLine(a), a.fields);
    RequestRoundTrip(a.verb, a.path, a.version, a.fields, a.body);
  }

  // ---- Responses ----

  datatype Tell = Tell(version: bytes, status: nat, reason: bytes, fields: seq<Field>, body: bytes)

  function TellLine(t: Tell): bytes {
    FirstLine(t.version, t.status, t.reason)
  }

  function TellText(t: Tell): Message {
    Message(Header(TellLine(t), t.fields), t.body)
  }

  /** A response as it is written. */
  predicate WrittenTell(t: Tell) {
    && t.status <= 599 && StatusFirst(t.version, t.status, t.reason) && Valid(t.fields)
    && |t.version| >= 4 && t.version[..4] == [72, 84, 84, 80]
  }

  /** The name of an event stream's content type occurs somewhere, in any case. */
  ghost predicate MentionsEvents(data: bytes) {
    exists i :: At(ToLower(data), Ascii("text/event-stream"), i)
  }

  /** The response says itself where it ends: by a length, by chunks, or by a status that forbids a body. */
  ghost predicate SelfEnding(t: Tell) {
    || ValueOf(t.fields, "content-length").Some?
    || SaysChunked(t.fields)
    || ((t.status <= 199 || t.status == 204 || t.status == 304) && !MentionsEvents(TellText(t).header))
  }

  ghost predicate ValidTell(t: Tell) {
    WrittenTell(t) && Sized(t.fields, t.body) && SelfEnding(t)
  }

  lemma EventsMentioned(data: bytes)
    ensures EventStream(data) <==> MentionsEvents(data)
  {
    hide ToLower, Ascii;
    IndexFromIsLeast(ToLower(data), Ascii("text/event-stream"), 0);
  }

  lemma TellStarts(t: Tell)
    requires WrittenTell(t)
    ensures IsResponse(TellText(t).header) && FirstWord(TellLine(t), t.version)
  {
    hide ValidField, FieldLines, StatusText;
    StatusWord(t.version, t.status, t.reason);
    assert Ascii("HTTP") == [72, 84, 84, 80];
    var header := TellText(t).header;
    assert header[..4] == t.version[..4];
  }

  /** What is emitted for a response: nothing for an informational one, else its status, fields, body and size. */
  function Answer(t: Tell): Option<Reply> {
    if t.status < 200 then None
    else Some(Reply(t.status, FieldMap(t.fields), t.body, |TellText(t).header| + |t.body|))
  }

  lemma TellParses(t: Tell)
    requires WrittenTell(t)
    ensures ParseResponse(Whole(TellText(t))) == Some(Response(t.status, FieldMap(t.fields), t.body))
    ensures FinalReply(Whole(TellText(t))) == Answer(t)
  {
    hide ValidField, ParseResponse, FieldMap, FieldLines, FirstLine;
    ResponseRoundTrip(t.version, t.status, t.reason, t.fields, t.body);
  }

  /** When the response is waited for until the close, and when it starts an event stream. */
  lemma TellWaits(t: Tell)
    requires WrittenTell(t) && Sized(t.fields, t.body)
    ensures var text := Whole(TellText(t));
      && (WaitsForClose(text) <==>
            && ValueOf(t.fields, "content-length").None? && !SaysChunked(t.fields)
            && !(t.status <= 199 || t.status == 204 || t.status == 304))
      && (StartsEvents(text) <==>
            && ValueOf(t.fields, "content-length").None? && !SaysChunked(t.fields)
            && MentionsEvents(TellText(t).header))
  {
    TellStarts(t);
    StatusRead(t.version, t.status, t.reason, t.fields, t.body);
    hide ContentLength, Chunked, Header, FirstWord, ValueOf, DecimalText, EventStream, StatusCode, ValidField, FirstLine, IsResponse,
         Contains, MentionsEvents, StatusFirst;
    var line, text := TellLine(t), Whole(TellText(t));
    ChunkedRead(line, t.version, t.fields, t.body);
    EventsMentioned(text);
    if ValueOf(t.fields, "content-length").Some? {
      LengthRead(line, t.version, t.fields, |t.body|, t.body);
    } else if !SaysChunked(t.fields) {
      LengthAbsent(line, t.version, t.fields);
      assert text == TellText(t).header;
    }
  }

  lemma TellGood(t: Tell)
    requires ValidTell(t)
    ensures GoodResponse(TellText(t)) && FinalReply(Whole(TellText(t))) == Answer(t)
  {
    hide Sized, ValidField, IsResponse, ParseResponse, HeaderBlock, Announces, FirstWord, StatusFirst, WaitsForClose, StartsEvents,
         FinalReply, SaysChunked, ValueOf, MentionsEvents, Header, FirstLine, Answer;
    TellStarts(t);
    TellWaits(t);
    TellParses(t);
    SizedAnnounces(TellLine(t), t.version, t.fields, t.body);
    WordLine(TellLine(t), t.version);
    HeaderIsBlock(TellLine(t), t.fields);
  }

  // ---- Whole conversations ----

  function AskTexts(asks: seq<Ask>): seq<Message> {
    if asks == [] then [] else [AskText(asks[0])] + AskTexts(asks[1..])
  }

  function TellTexts(tells: seq<Tell>): seq<Message> {
    if tells == [] then [] else [TellText(tells[0])] + TellTexts(tells[1..])
  }

  /** The responses that are not informational. */
  function FinalTells(tells: seq<Tell>): seq<Tell> {
    if tells == [] then []
    else (if tells[0].status < 200 then [] else [tells[0]]) + FinalTells(tells[1..])
  }

  function ReadAll(asks: seq<Ask>): seq<Request> {
    if asks == [] then [] else [Read(asks[0])] + ReadAll(asks[1..])
  }

  function Answers(tells: seq<Tell>): seq<Reply>
    requires forall t :: t in tells ==> t.status >= 200
  {
    if tells == [] then [] else [Answer(tells[0]).value] + Answers(tells[1..])
  }

  lemma {:induction false} AsksParse(asks: seq<Ask>)
    requires forall a :: a in asks ==> ValidAsk(a)
    ensures (forall m :: m in AskTexts(asks) ==> GoodRequest(m)) && Parsed(AskTexts(asks)) == ReadAll(asks)
  {
    hide ValidAsk, GoodRequest, ParseRequest, AskText, Read;
    if asks == [] {
    } else {
      assert asks[0] in asks;
      AskReads(asks[0]);
      AsksParse(asks[1..]);
      assert AskTexts(asks)[1..] == AskTexts(asks[1..]);
    }
  }

  lemma {:induction false} TellsFramed(tells: seq<Tell>)
    requires forall t :: t in tells ==> ValidTell(t)
    ensures forall m :: m in TellTexts(tells) ==> GoodResponse(m)
  {
    hide ValidTell, GoodResponse, TellText;
    if tells == [] {
    } else {
      assert tells[0] in tells;
      TellGood(tells[0]);
      TellsFramed(tells[1..]);
    }
  }

  lemma {:induction false} TellsFinal(tells: seq<Tell>)
    ensures forall t :: t in FinalTells(tells) ==> t.status >= 200
  {
    if tells == [] {
    } else {
      TellsFinal(tells[1..]);
    }
  }

  lemma AnswersNext(t: Tell, later: seq<Tell>)
    requires t.status >= 200 && forall u :: u in later ==> u.status >= 200
    ensures (forall u :: u in [t] + later ==> u.status >= 200) && Answers([t] + later) == [Answer(t).value] + Answers(later)
  {
    hide Answer;
    assert ([t] + later)[1..] == later;
  }

  lemma {:induction false} TellsAnswer(tells: seq<Tell>)
    requires forall t :: t in tells ==> ValidTell(t)
    ensures (forall t :: t in FinalTells(tells) ==> t.status >= 200)
    ensures Replies(TellTexts(tells)) == Answers(FinalTells(tells))
  {
    hide *;
    TellsFinal(tells);
    if tells == [] {
      NoAnswers();
    } else {
      var t, later := tells[0], tells[1..];
      assert t in tells;
      TellGood(t);
      TellsFinal(later);
      TellsAnswer(later);
      FirstTell(tells);
      RepliesNext(TellText(t), TellTexts(later));
      AnswerIff(t);
      if t.status >= 200 {
        AnswersNext(t, FinalTells(later));
      }
    }
  }

  lemma FirstTell(tells: seq<Tell>)
    requires tells != []
    ensures TellTexts(tells) == [TellText(tells[0])] + TellTexts(tells[1..])
    ensures FinalTells(tells) ==
      if tells[0].status < 200 then FinalTells(tells[1..]) else [tells[0]] + FinalTells(tells[1..])
  {
    assert [] + FinalTells(tells[1..]) == FinalTells(tells[1..]);
  }

  lemma RepliesNext(m: Message, later: seq<Message>)
    ensures Replies([m] + later) ==
      match FinalReply(Whole(m))
      case None => Replies(later)
      case Some(reply) => [reply] + Replies(later)
  {
    hide FinalReply, Whole;
    assert ([m] + later)[1..] == later;
  }

  lemma AnswerIff(t: Tell)
    ensures Answer(t).Some? <==> t.status >= 200
  {
    hide TellText, FieldMap;
  }

  lemma NoAnswers()
    ensures TellTexts([]) == [] && Replies([]) == [] && FinalTells([]) == [] && Answers([]) == []
  {
  }

  lemma {:induction false} ReadAllAt(asks: seq<Ask>)
    ensures |ReadAll(asks)| == |asks| && forall i :: 0 <= i < |asks| ==> ReadAll(asks)[i] == Read(asks[i])
  {
    hide Read;
    if asks == [] {
    } else {
      ReadAllAt(asks[1..]);
    }
  }

  lemma {:induction false} AnswersAt(tells: seq<Tell>)
    requires forall t :: t in tells ==> t.status >= 200
    ensures |Answers(tells)| == |tells| && forall i :: 0 <= i < |tells| ==> Answers(tells)[i] == Answer(tells[i]).value
  {
    hide TellText;
    if tells == [] {
    } else {
      AnswersAt(tells[1..]);
    }
  }

  /**
   Written requests and responses, in any segments and any interleaving: the i-th record emitted carries the verb, path,
   header values but the last, and body of the i-th request, and the status, header values, body and size of the i-th
   response that is not informational.
   */
  lemma WrittenArePaired(save: SaveOracle, maxRes: nat, segs: seq<Segment>, asks: seq<Ask>, tells: seq<Tell>)
    requires (forall a :: a in asks ==> ValidAsk(a)) && forall t :: t in tells ==> ValidTell(t)
    requires Sent(segs, true) == Wire(AskTexts(asks)) && Sent(segs, false) == Wire(TellTexts(tells))
    requires segs != [] && LooksLikeHttp(segs[0].data) && WithinLimit(save, maxRes, ACCEPTED, segs)
    ensures var log, finals := FeedAll(save, maxRes, NEW_STREAM, segs).log, FinalTells(tells);
      && |log| == (if |asks| < |finals| then |asks| else |finals|)
      && forall i :: 0 <= i < |log| ==>
           var a, t := asks[i], finals[i];
           && a.fields != []
           && log[i] == Emitted(
                Request(a.verb, if a.path != [] && a.path[0] == SLASH then a.path else [SLASH] + a.path,
                        FieldMap(a.fields[..|a.fields| - 1]), a.body),
                Reply(t.status, FieldMap(t.fields), t.body, |TellText(t).header| + |t.body|))
  {
    hide *;
    AsksParse(asks);
    TellsFramed(tells);
    TellsAnswer(tells);
    TellsFinal(tells);
    ReadAllAt(asks);
    AnswersAt(FinalTells(tells));
    ConversationsArePaired(save, maxRes, segs, AskTexts(asks), TellTexts(tells));
    forall i | 0 <= i < |asks|
      ensures asks[i] in asks && asks[i].fields != []
      ensures Read(asks[i]) ==
        Request(asks[i].verb, if asks[i].path != [] && asks[i].path[0] == SLASH then asks[i].path else [SLASH] + asks[i].path,
                FieldMap(asks[i].fields[..|asks[i].fields| - 1]), asks[i].body)
    {
      ReadSpells(asks[i]);
    }
    forall i | 0 <= i < |FinalTells(tells)|
      ensures var t := FinalTells(tells)[i];
        Answer(t) == Some(Reply(t.status, FieldMap(t.fields), t.body, |TellText(t).header| + |t.body|))
    {
      assert FinalTells(tells)[i] in FinalTells(tells);
      AnswerSpells(FinalTells(tells)[i]);
    }
  }

  lemma ReadSpells(a: Ask)
    requires ValidAsk(a)
    ensures a.fields != [] && Read(a) ==
      Request(a.verb, if a.path != [] && a.path[0] == SLASH then a.path else [SLASH] + a.path,
              FieldMap(a.fields[..|a.fields| - 1]), a.body)
  {
    hide Sized, Valid, FieldMap;
  }

  lemma AnswerSpells(t: Tell)
    requires t.status >= 200
    ensures Answer(t) == Some(Reply(t.status, FieldMap(t.fields), t.body, |TellText(t).header| + |t.body|))
  {
    hide TellText, FieldMap;
  }

  /** A name is in the map exactly when a field has it, with the value of the last one that does. */
  lemma {:induction false} FieldMapLast(fields: seq<Field>, name: bytes)
    ensures name in FieldMap(fields) <==> exists i :: 0 <= i < |fields| && fields[i].name == name
    ensures forall i :: 0 <= i < |fields| && fields[i].name == name &&
                        (forall j :: i < j < |fields| ==> fields[j].name != name) ==>
                        FieldMap(fields)[name] == fields[i].value
  {
    if fields == [] {
    } else {
      var later := fields[1..];
      FieldMapLast(later, name);
      assert forall i :: 1 <= i < |fields| ==> fields[i] == later[i - 1];
      assert forall i :: 0 <= i < |later| ==> later[i] == fields[i + 1];
    }
  }

  // ---- Records that a close or an event stream makes ----

  /** What a close makes of leftover bytes that are a written response and what follows its header. */
  lemma LastReplies(t: Tell)
    requires WrittenTell(t)
    ensures LastReply(Whole(TellText(t))) == if t.status < 200 then NoReply
      else Reply(t.status, FieldMap(t.fields), t.body, |TellText(t).header| + |t.body|)
  {
    TellParses(t);
    hide ParseResponseParts, FieldMap, Header, IndexFrom;
    var text := Whole(TellText(t));
    assert |text| == |TellText(t).header| + |t.body|;
  }

  lemma NoLastReply()
    ensures LastReply([]) == NoReply
  {
  }

  /** A written response without a length, chunks or a status that forbids a body: the close makes its record. */
  lemma WrittenCloses(save: SaveOracle, st: State, t: Tell)
    requires Live(st) && st.pending.Some? && WrittenTell(t) && st.server == Whole(TellText(t))
    requires ValueOf(t.fields, "content-length").None? && !SaysChunked(t.fields)
    requires t.status >= 200 && t.status != 204 && t.status != 304 && !MentionsEvents(TellText(t).header)
    ensures CloseStream(save, st).log == st.log + [Emitted(st.pending.value,
      Reply(t.status, FieldMap(t.fields), t.body, |TellText(t).header| + |t.body|))]
  {
    var bare := t.(body := []);
    assert Whole(TellText(bare)) == TellText(t).header;
    hide ValidField, Header, FirstLine, FieldMap, MentionsEvents, ValueOf, SaysChunked, StatusFirst, IsResponse, HeaderBlock,
         WaitsForClose, StartsEvents, Close, FirstWord, IndexFrom;
    TellStarts(t);
    TellWaits(bare);
    WordLine(TellLine(t), t.version);
    HeaderIsBlock(TellLine(t), t.fields);
    OpenEndedWaits(save, st, TellText(t).header, t.body);
    LastReplies(t);
    hide LastReply;
    WaitingCloses(save, st);
  }

  /** A written event-stream header turns the stream: its record is saved at once, with an empty body. */
  lemma WrittenEventsStart(save: SaveOracle, st: State, t: Tell)
    requires st.pending.Some? && WrittenTell(t) && t.body == [] && t.status >= 200 && st.server == Whole(TellText(t))
    requires ValueOf(t.fields, "content-length").None? && !SaysChunked(t.fields) && MentionsEvents(TellText(t).header)
    ensures TakeResponse(save, st).Some? && TakeResponse(save, st).value.log == st.log + [
      match save(st.saves)
      case Some(id) =>
        EventsSaved(id, st.pending.value, Reply(t.status, FieldMap(t.fields), [], |TellText(t).header|))
      case None => EventsLost(st.pending.value)]
  {
    hide ValidField, Header, FirstLine, FieldMap, MentionsEvents, ValueOf, SaysChunked, StatusFirst, IsResponse, HeaderBlock,
         WaitsForClose, StartsEvents, FinalReply, MessageEnd, FirstWord, DecimalText;
    TellStarts(t);
    TellWaits(t);
    TellParses(t);
    WrittenFramed(TellLine(t), t.version, t.fields, [], []);
    var text := Whole(TellText(t));
    assert text + [] == text && text == TellText(t).header + [] && text[..|text|] == text;
  }
}
