/** Every request parsed is recorded once, in order, or lost to a failed save, or is the one still pending. */
module Conservation {
  import opened Bytes
  import opened HttpSyntax
  import opened TcpStream

  /** The requests of which a record has left the stream. */
  function Recorded(log: seq<Outcome>): seq<Request> {
    if log == [] then [] else Recorded(log[..|log| - 1]) + RecordedIn(log[|log| - 1])
  }

  function RecordedIn(o: Outcome): seq<Request> {
    match o
    case Emitted(req, _) => [req]
    case EventsSaved(_, req, _) => [req]
    case EventsLost(_) => []
    case EventsUpdated(_, _) => []
    case TlsName(_) => []
  }

  /** The requests dropped because the save of their event stream failed. */
  function Unsaved(log: seq<Outcome>): seq<Request> {
    if log == [] then [] else Unsaved(log[..|log| - 1]) + UnsavedIn(log[|log| - 1])
  }

  function UnsavedIn(o: Outcome): seq<Request> {
    if o.EventsLost? then [o.req] else []
  }

  /** How many of the first `n` saves failed. */
  function Failures(save: SaveOracle, n: nat): nat {
    if n == 0 then 0 else Failures(save, n - 1) + if save(n - 1).None? then 1 else 0
  }

  /**
   The parsed requests are those recorded, then one lost to a failed save, then the pending one. There is a lost one for
   each save that failed; a stream that lost one is at its end.
   */
  predicate Conserved(save: SaveOracle, st: State) {
    && st.parsed == Recorded(st.log) + Unsaved(st.log) + Waiting(st)
    && |Unsaved(st.log)| == Failures(save, st.saves) <= 1
    && (Unsaved(st.log) != [] ==> st.nonHttp && st.pending.None? && st.client == [])
  }

  lemma LogStep(log: seq<Outcome>, o: Outcome)
    ensures Recorded(log + [o]) == Recorded(log) + RecordedIn(o)
    ensures Unsaved(log + [o]) == Unsaved(log) + UnsavedIn(o)
  {
    assert (log + [o])[..|log|] == log;
  }

  lemma IdleExtracts(save: SaveOracle, st: State)
    requires st.pending.None? && st.client == []
    ensures Extract(save, st) == st && WithRequest(st) == st
  {
    NothingFramed();
  }

  lemma RequestConserves(save: SaveOracle, st: State)
    requires Conserved(save, st) && Unsaved(st.log) == []
    ensures Conserved(save, WithRequest(st)) && WithRequest(st).log == st.log
  {
    hide Framing.MessageEnd, IsResponse, ParseRequest, Recorded, Unsaved, Failures;
  }

  /** The outcome `o` takes the pending request of `st` away, which leads to `r`. */
  predicate Disposes(save: SaveOracle, st: State, r: State, o: Outcome)
    requires st.pending.Some?
  {
    && r.pending.None? && r.log == st.log + [o]
    && match o
       case Emitted(req, _) => req == st.pending.value && r.saves == st.saves && r.nonHttp == st.nonHttp
       case EventsSaved(_, req, _) =>
         req == st.pending.value && r.saves == st.saves + 1 && save(st.saves).Some? && r.nonHttp == st.nonHttp
       case EventsLost(req) =>
         req == st.pending.value && r.saves == st.saves + 1 && save(st.saves).None? && r.nonHttp && r.client == []
       case _ => false
  }

  function LastOf(log: seq<Outcome>): Outcome
    requires log != []
  {
    log[|log| - 1]
  }

  lemma StartDisposes(save: SaveOracle, st: State, msg: bytes)
    requires st.pending.Some?
    ensures var r := StartEvents(save, st, msg);
      && r.parsed == st.parsed
      && if r.pending.Some? then r == st else r.log != [] && Disposes(save, st, r, LastOf(r.log))
  {
    hide FinalReply;
  }

  /** A response half-round that goes on keeps the pending request, or disposes of it. */
  lemma ResponseDisposes(save: SaveOracle, st: State)
    requires st.pending.Some?
    ensures match TakeResponse(save, st)
      case None => true
      case Some(r) =>
        && r.parsed == st.parsed
        && if r.pending.Some? then
             r.pending == st.pending && r.log == st.log && r.saves == st.saves && r.nonHttp == st.nonHttp
           else
             r.log != [] && Disposes(save, st, r, LastOf(r.log))
  {
    hide Framing.MessageEnd, IsResponse, FinalReply, StartsEvents, WaitsForClose, StartEvents;
    var end := Framing.MessageEnd(st.server);
    if end >= 0 {
      var msg, cut := st.server[..end], st.(server := st.server[end..]);
      StartDisposes(save, cut, msg);
      SameDisposes(save, st, cut, StartEvents(save, cut, msg));
    }
  }

  /** Disposing of a request does not depend on the server bytes. */
  lemma SameDisposes(save: SaveOracle, a: State, b: State, r: State)
    requires a.pending.Some? && a.pending == b.pending && a.log == b.log && a.saves == b.saves && a.nonHttp == b.nonHttp
    ensures r.log != [] ==> (Disposes(save, a, r, LastOf(r.log)) <==> Disposes(save, b, r, LastOf(r.log)))
  {
  }

  lemma DisposedConserves(save: SaveOracle, st: State, r: State, o: Outcome)
    requires st.pending.Some? && Conserved(save, st) && r.parsed == st.parsed && Disposes(save, st, r, o)
    ensures Conserved(save, r)
    ensures Unsaved(r.log) == Unsaved(st.log) + UnsavedIn(o)
  {
    assert Unsaved(st.log) == [];
    LogStep(st.log, o);
    assert RecordedIn(o) + UnsavedIn(o) == [st.pending.value];
    assert Failures(save, r.saves) == |UnsavedIn(o)| + Failures(save, st.saves);
    hide Recorded, Unsaved, Failures;
    assert Recorded(st.log) + [] == Recorded(st.log) && [] + UnsavedIn(o) == UnsavedIn(o);
  }

  lemma ResponseConserves(save: SaveOracle, st: State)
    requires st.pending.Some? && Conserved(save, st)
    ensures TakeResponse(save, st).Some? ==> Conserved(save, TakeResponse(save, st).value)
  {
    ResponseDisposes(save, st);
    hide TakeResponse, Recorded, Unsaved, Disposes, Failures;
    match TakeResponse(save, st)
    case None =>
    case Some(r) =>
      if r.pending.None? {
        DisposedConserves(save, st, r, LastOf(r.log));
      }
  }

  lemma {:induction false} ExtractConserves(save: SaveOracle, st: State)
    requires Conserved(save, st)
    ensures Conserved(save, Extract(save, st))
    decreases |st.server|
  {
    if Unsaved(st.log) != [] {
      IdleExtracts(save, st);
    } else {
      RequestConserves(save, st);
      hide WithRequest, TakeResponse, Conserved;
      var st1 := WithRequest(st);
      if st1.pending.Some? {
        ResponseConserves(save, st1);
        match TakeResponse(save, st1)
        case None =>
        case Some(st2) => ExtractConserves(save, st2);
      }
    }
  }

  lemma FeedConserves(save: SaveOracle, maxRes: nat, st: State, data: bytes, toServer: bool)
    requires Conserved(save, st)
    ensures Conserved(save, Feed(save, maxRes, st, data, toServer))
  {
    hide Extract, LooksLikeHttp, Conserved, TruncateBuffers, RejectFirst, FeedEvents;
    if !st.nonHttp {
      var grown := if toServer then Append(st, data, []) else Append(st, [], data);
      GrownConserves(save, st, grown.(firstData := true));
      ExtractConserves(save, grown.(firstData := true));
      TruncateConserves(save, maxRes, Extract(save, grown.(firstData := true)));
      EventsConserve(save, maxRes, st, data);
      RejectConserves(save, grown.(firstData := true), if |grown.client| > 0 then grown.client else grown.server);
    }
  }

  /** More bytes on a stream that is not at its end change no count. */
  lemma GrownConserves(save: SaveOracle, st: State, r: State)
    requires Conserved(save, st) && !st.nonHttp
    requires r.parsed == st.parsed && r.log == st.log && r.saves == st.saves && r.pending == st.pending
    ensures Conserved(save, r)
  {
    hide Recorded, Unsaved, Failures;
  }

  lemma EventsConserve(save: SaveOracle, maxRes: nat, st: State, data: bytes)
    requires Conserved(save, st)
    ensures Conserved(save, FeedEvents(maxRes, st, data))
  {
    hide Recorded, Unsaved, Failures;
    LogStep(st.log, EventsUpdated(st.sseId, st.sseBuf + data));
  }

  lemma RejectConserves(save: SaveOracle, st: State, first: bytes)
    requires Conserved(save, st) && !st.nonHttp
    ensures Conserved(save, RejectFirst(st, first))
  {
    hide Recorded, Unsaved, Failures, Sni.ExtractSni, Sni.IsClientHello;
    LogStep(st.log, TlsName(Sni.ExtractSni(first)));
  }

  lemma TruncateConserves(save: SaveOracle, maxRes: nat, st: State)
    requires Conserved(save, st)
    ensures Conserved(save, TruncateBuffers(maxRes, st))
  {
    hide Recorded, Unsaved, Failures;
  }

  lemma AnsweredConserves(save: SaveOracle, st: State, reply: Reply)
    requires Conserved(save, st) && st.pending.Some?
    ensures Conserved(save, Answered(st, reply))
  {
    hide Conserved;
    DisposedConserves(save, st, Answered(st, reply), Emitted(st.pending.value, reply));
  }

  lemma DroppedConserves(save: SaveOracle, st: State, r: State)
    requires Conserved(save, st)
    requires r == st.(server := r.server, client := []) || r == st.(server := r.server)
    ensures Conserved(save, r)
  {
    hide Recorded, Unsaved, Failures;
  }

  lemma CloseRoundConserves(save: SaveOracle, st: State)
    requires Conserved(save, st)
    ensures Conserved(save, CloseRound(save, st).0)
  {
    hide Extract, CloseReply, Answered, WithRequest;
    ExtractConserves(save, st);
    var st1 := Extract(save, st);
    if Unsaved(st1.log) == [] {
      RequestConserves(save, st1);
    } else {
      IdleExtracts(save, st1);
    }
    var st2 := WithRequest(st1);
    hide Conserved;
    DroppedConserves(save, st2, st2.(client := [], server := []));
    DroppedConserves(save, st2, st2.(server := []));
    if st2.pending.Some? && CloseReply(st2.server).Some? {
      AnsweredConserves(save, st2, CloseReply(st2.server).value);
    }
  }

  lemma {:induction false} CloseConserves(save: SaveOracle, st: State)
    requires Conserved(save, st)
    ensures Conserved(save, Close(save, st))
    decreases CloseWork(st)
  {
    hide CloseRound, Conserved;
    CloseRoundShrinks(save, st);
    CloseRoundConserves(save, st);
    var (st1, more) := CloseRound(save, st);
    if more {
      CloseConserves(save, st1);
    }
  }

  lemma StreamCloseConserves(save: SaveOracle, st: State)
    requires Conserved(save, st)
    ensures Conserved(save, CloseStream(save, st))
  {
    hide Close, Recorded, Unsaved, Failures;
    if st.nonHttp {
    } else if st.ssePending {
      LogStep(st.log, EventsUpdated(st.sseId, st.sseBuf));
    } else {
      CloseConserves(save, st);
    }
  }

  lemma NewConserved(save: SaveOracle)
    ensures Conserved(save, NEW_STREAM)
  {
  }

  // ---- Whole lives of a stream ----

  datatype Event = Fed(data: bytes, toServer: bool) | Closed

  function Run(save: SaveOracle, maxRes: nat, events: seq<Event>): State {
    if events == [] then NEW_STREAM
    else
      var st := Run(save, maxRes, events[..|events| - 1]);
      match events[|events| - 1]
      case Fed(data, toServer) => Feed(save, maxRes, st, data, toServer)
      case Closed => CloseStream(save, st)
  }

  /** In every run the parsed requests are the recorded ones, each once and in order, a lost one, and the pending one. */
  lemma {:induction false} RunConserves(save: SaveOracle, maxRes: nat, events: seq<Event>)
    ensures Conserved(save, Run(save, maxRes, events))
  {
    hide Feed, CloseStream, Conserved;
    if events == [] {
      NewConserved(save);
    } else {
      var st := Run(save, maxRes, events[..|events| - 1]);
      RunConserves(save, maxRes, events[..|events| - 1]);
      match events[|events| - 1]
      case Fed(data, toServer) => FeedConserves(save, maxRes, st, data, toServer);
      case Closed => StreamCloseConserves(save, st);
    }
  }

  // ---- Nothing is taken back ----

  /** What has been parsed and what has left the stream stays so. */
  predicate Grows(a: State, b: State) {
    a.parsed <= b.parsed && a.log <= b.log
  }

  lemma RoundGrows(save: SaveOracle, st: State)
    ensures Grows(st, WithRequest(st))
    ensures st.pending.Some? && TakeResponse(save, st).Some? ==> Grows(st, TakeResponse(save, st).value)
  {
    hide Framing.MessageEnd, IsResponse, ParseRequest, FinalReply, StartsEvents, WaitsForClose;
  }

  lemma {:induction false} ExtractGrows(save: SaveOracle, st: State)
    ensures Grows(st, Extract(save, st))
    decreases |st.server|
  {
    hide WithRequest, TakeResponse;
    RoundGrows(save, st);
    var st1 := WithRequest(st);
    if st1.pending.Some? {
      RoundGrows(save, st1);
      match TakeResponse(save, st1)
      case None =>
      case Some(st2) => ExtractGrows(save, st2);
    }
  }

  lemma FeedGrows(save: SaveOracle, maxRes: nat, st: State, data: bytes, toServer: bool)
    ensures Grows(st, Feed(save, maxRes, st, data, toServer))
  {
    hide Extract, LooksLikeHttp, Sni.ExtractSni, Sni.IsClientHello, Truncate;
    var grown := if toServer then Append(st, data, []) else Append(st, [], data);
    ExtractGrows(save, grown.(firstData := true));
  }

  lemma CloseRoundGrows(save: SaveOracle, st: State)
    ensures Grows(st, CloseRound(save, st).0)
  {
    hide Extract, TakeRequest, CloseReply;
    ExtractGrows(save, st);
    RoundGrows(save, Extract(save, st));
  }

  lemma {:induction false} CloseGrows(save: SaveOracle, st: State)
    ensures Grows(st, Close(save, st))
    decreases CloseWork(st)
  {
    hide CloseRound;
    CloseRoundShrinks(save, st);
    CloseRoundGrows(save, st);
    var (st1, more) := CloseRound(save, st);
    if more {
      CloseGrows(save, st1);
    }
  }

  // ---- What a close can lose ----

  /** A stream that is not HTTP, or has seen nothing yet, holds no request and no client byte. */
  predicate Steady(st: State) {
    st.nonHttp || !st.firstData ==> st.pending.None? && st.client == []
  }

  lemma RequestSteady(st: State)
    requires st.firstData && !st.nonHttp
    ensures var r := WithRequest(st); r.firstData && !r.nonHttp && r.sseBuf == st.sseBuf
  {
    hide Framing.MessageEnd, IsResponse, ParseRequest;
  }

  lemma ResponseSteady(save: SaveOracle, st: State)
    requires st.pending.Some? && st.firstData && !st.nonHttp
    ensures match TakeResponse(save, st)
      case None => true
      case Some(r) => r.firstData && r.sseBuf == st.sseBuf && (r.nonHttp ==> r.pending.None? && r.client == [])
  {
    hide Framing.MessageEnd, IsResponse, FinalReply, StartsEvents, WaitsForClose;
  }

  lemma {:induction false} ExtractSteady(save: SaveOracle, st: State)
    requires Steady(st)
    ensures Steady(Extract(save, st))
    ensures Extract(save, st).sseBuf == st.sseBuf && Extract(save, st).firstData == st.firstData
    decreases |st.server|
  {
    if st.nonHttp || !st.firstData {
      IdleExtracts(save, st);
    } else {
      RequestSteady(st);
      var st1 := WithRequest(st);
      hide WithRequest, TakeResponse;
      if st1.pending.Some? {
        ResponseSteady(save, st1);
        match TakeResponse(save, st1)
        case None =>
        case Some(st2) => ExtractSteady(save, st2);
      }
    }
  }

  lemma FeedSteady(save: SaveOracle, maxRes: nat, st: State, data: bytes, toServer: bool)
    requires Steady(st)
    ensures Steady(Feed(save, maxRes, st, data, toServer))
  {
    hide Extract, LooksLikeHttp, Sni.ExtractSni, Sni.IsClientHello, Truncate;
    if !st.nonHttp {
      var grown := if toServer then Append(st, data, []) else Append(st, [], data);
      ExtractSteady(save, grown.(firstData := true));
      TruncateSteady(maxRes, Extract(save, grown.(firstData := true)));
    }
  }

  lemma TruncateSteady(maxRes: nat, st: State)
    requires Steady(st)
    ensures Steady(TruncateBuffers(maxRes, st))
  {
  }

  lemma {:induction false} CloseSteady(save: SaveOracle, st: State)
    requires Steady(st)
    ensures Steady(Close(save, st)) && Close(save, st).sseBuf == st.sseBuf
    decreases CloseWork(st)
  {
    hide CloseRound;
    CloseRoundShrinks(save, st);
    RoundSteady(save, st);
    var (st1, more) := CloseRound(save, st);
    if more {
      CloseSteady(save, st1);
    }
  }

  lemma RoundSteady(save: SaveOracle, st: State)
    requires Steady(st)
    ensures Steady(CloseRound(save, st).0) && CloseRound(save, st).0.sseBuf == st.sseBuf
  {
    hide Extract, WithRequest, CloseReply;
    ExtractSteady(save, st);
    var st1 := Extract(save, st);
    if st1.firstData && !st1.nonHttp {
      RequestSteady(st1);
    }
  }

  lemma {:induction false} RunSteady(save: SaveOracle, maxRes: nat, events: seq<Event>)
    ensures Steady(Run(save, maxRes, events))
  {
    hide Feed, Close, Steady;
    if events == [] {
      assert Steady(NEW_STREAM) by { NewSteady(); }
    } else {
      var st := Run(save, maxRes, events[..|events| - 1]);
      RunSteady(save, maxRes, events[..|events| - 1]);
      match events[|events| - 1]
      case Fed(data, toServer) => FeedSteady(save, maxRes, st, data, toServer);
      case Closed =>
        CloseSteady(save, st);
        FlushSteady(st);
    }
  }

  lemma NewSteady()
    ensures Steady(NEW_STREAM)
  {
  }

  lemma FlushSteady(st: State)
    requires Steady(st)
    ensures Steady(FlushEvents(st))
  {
  }

  /** A close leaves a request behind exactly on an event stream that has read another request since. */
  lemma CloseLosesIff(save: SaveOracle, st: State)
    requires Steady(st)
    ensures Waiting(CloseStream(save, st)) == if st.ssePending then Waiting(st) else []
    ensures CloseStream(save, st).pending.Some? ==> CloseStream(save, st).ssePending
  {
    hide Close;
    CloseBounded(save, st);
  }

  lemma ResponseLoses(save: SaveOracle, st: State)
    requires st.pending.Some? && !st.nonHttp
    ensures match TakeResponse(save, st)
      case None => true
      case Some(r) =>
        if r.nonHttp then |Unsaved(r.log)| == |Unsaved(st.log)| + 1 && r.pending.None? && r.client == []
        else Unsaved(r.log) == Unsaved(st.log)
  {
    ResponseDisposes(save, st);
    hide TakeResponse, Unsaved;
    match TakeResponse(save, st)
    case None =>
    case Some(r) =>
      if r.pending.None? {
        LogStep(st.log, LastOf(r.log));
      }
  }

  lemma RequestLoses(st: State)
    ensures WithRequest(st).log == st.log && WithRequest(st).nonHttp == st.nonHttp
  {
    hide Framing.MessageEnd, IsResponse, ParseRequest;
  }

  /** Extraction ends an HTTP stream exactly when it loses a request to a failed save. */
  lemma {:induction false} ExtractLosesIff(save: SaveOracle, st: State)
    requires !st.nonHttp
    ensures var r := Extract(save, st);
      if r.nonHttp then |Unsaved(r.log)| == |Unsaved(st.log)| + 1 else Unsaved(r.log) == Unsaved(st.log)
    decreases |st.server|
  {
    RequestLoses(st);
    var st1 := WithRequest(st);
    hide WithRequest, TakeResponse, Unsaved;
    if st1.pending.Some? {
      ResponseLoses(save, st1);
      match TakeResponse(save, st1)
      case None =>
      case Some(st2) =>
        if st2.nonHttp {
          IdleExtracts(save, st2);
        } else {
          ExtractLosesIff(save, st2);
        }
    }
  }

  /** A close loses a request to a failed save exactly when the extraction it starts with ends an HTTP stream. */
  lemma CloseUnsavedIff(save: SaveOracle, st: State)
    ensures var r := CloseStream(save, st);
      if !st.nonHttp && !st.ssePending && Extract(save, st).nonHttp then |Unsaved(r.log)| == |Unsaved(st.log)| + 1
      else Unsaved(r.log) == Unsaved(st.log)
  {
    hide Close, Extract, EndLog, Unsaved;
    if st.nonHttp {
    } else if st.ssePending {
      LogStep(st.log, EventsUpdated(st.sseId, st.sseBuf));
    } else {
      ExtractLosesIff(save, st);
      CloseEnds(save, st);
      EndAdds(Extract(save, st));
    }
  }

  lemma EndAdds(st: State)
    ensures Unsaved(EndLog(st)) == Unsaved(st.log)
  {
    hide WithRequest, LastReply, Unsaved;
    var taken := WithRequest(st);
    if taken.pending.Some? {
      LogStep(st.log, Emitted(taken.pending.value, LastReply(st.server)));
    }
  }

  /**
   In every run, after a close each parsed request has its record, but for one that an event stream still waited for and
   one for each failed save; a close meets a failed save exactly when its extraction ends the stream.
   */
  lemma RunLosesIff(save: SaveOracle, maxRes: nat, events: seq<Event>)
    ensures var st := Run(save, maxRes, events);
      var closed := CloseStream(save, st);
      && closed.parsed == Recorded(closed.log) + Unsaved(closed.log) + (if st.ssePending then Waiting(st) else [])
      && |Unsaved(closed.log)| == Failures(save, closed.saves) <= 1
      && (Unsaved(closed.log) != Unsaved(st.log)
          <==> !st.nonHttp && !st.ssePending && Extract(save, st).nonHttp)
  {
    hide CloseStream, Recorded, Unsaved, Failures, Run, Extract;
    var st := Run(save, maxRes, events);
    RunConserves(save, maxRes, events);
    StreamCloseConserves(save, st);
    RunSteady(save, maxRes, events);
    CloseLosesIff(save, st);
    CloseUnsavedIff(save, st);
  }

  // ---- Memory ----

  predicate Bounded(maxRes: nat, st: State) {
    var limit := if maxRes > 0 then maxRes else 4_194_304;
    |st.client| <= limit && |st.server| <= limit && |st.sseBuf| <= maxRes
  }

  lemma FeedBounded(save: SaveOracle, maxRes: nat, st: State, data: bytes, toServer: bool)
    requires Steady(st) && Bounded(maxRes, st)
    ensures Bounded(maxRes, Feed(save, maxRes, st, data, toServer))
  {
    hide Extract, LooksLikeHttp, Sni.ExtractSni, Sni.IsClientHello, Truncate;
    if !st.nonHttp && !(st.ssePending && !toServer) {
      var grown := if toServer then Append(st, data, []) else Append(st, [], data);
      ExtractSteady(save, grown.(firstData := true));
    }
  }

  lemma {:induction false} CloseBoundedBy(save: SaveOracle, st: State)
    ensures |Close(save, st).client| <= |st.client| && |Close(save, st).server| <= |st.server|
    decreases CloseWork(st)
  {
    hide CloseRound;
    CloseRoundShrinks(save, st);
    RoundBounded(save, st);
    var (st1, more) := CloseRound(save, st);
    if more {
      CloseBoundedBy(save, st1);
    }
  }

  lemma RoundBounded(save: SaveOracle, st: State)
    ensures |CloseRound(save, st).0.client| <= |st.client| && |CloseRound(save, st).0.server| <= |st.server|
  {
    hide Extract, WithRequest, CloseReply;
    ExtractShrinks(save, st);
    RequestShrinks(Extract(save, st));
  }

  /** In every run both buffers stay within the stream's limit, and the event buffer within the configured one. */
  lemma {:induction false} RunBounded(save: SaveOracle, maxRes: nat, events: seq<Event>)
    ensures Bounded(maxRes, Run(save, maxRes, events))
  {
    hide Feed, Close, Limit;
    if events == [] {
    } else {
      var st := Run(save, maxRes, events[..|events| - 1]);
      RunBounded(save, maxRes, events[..|events| - 1]);
      RunSteady(save, maxRes, events[..|events| - 1]);
      match events[|events| - 1]
      case Fed(data, toServer) => FeedBounded(save, maxRes, st, data, toServer);
      case Closed =>
        CloseSteady(save, st);
        CloseBoundedBy(save, st);
    }
  }

  /** A stream that closes without having turned into an event stream holds nothing back. */
  lemma CloseFinishesAll(save: SaveOracle, maxRes: nat, events: seq<Event>)
    ensures var st := Run(save, maxRes, events);
      var closed := CloseStream(save, st);
      st.nonHttp || st.ssePending ||
      (closed.parsed == Recorded(closed.log) + Unsaved(closed.log) && closed.client == [])
  {
    hide Close, Recorded, Unsaved, Run, Extract;
    RunLosesIff(save, maxRes, events);
    CloseBounded(save, Run(save, maxRes, events));
  }
}
