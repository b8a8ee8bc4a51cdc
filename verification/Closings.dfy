/** What has been emitted once a stream is closed, in terms of its bytes; and exactly when the cutting still shows. */
module Closings {
  import opened Bytes
  import opened HttpSyntax
  import opened Framing
  import opened TcpStream
  import opened Segmentation
  import opened Extractions
  import opened Stalls

  /** All pairs, then the first request without a final response. */
  function Ending(c: bytes, s: bytes): seq<Outcome> {
    Full(c, s) + Unanswered(AllRequests(c), s)
  }

  // ---- Streams on which nothing has stalled ----

  /** A drained stream closes with all that is due, and the first request without a response. */
  lemma DrainedEnds(save: SaveOracle, st: State)
    requires Fine(st, [], []) && Drained(save, st)
    ensures EndLog(st) == Due(st) + Unanswered(Open(st), st.server)
  {
    hide TakeResponse, ClientClean, ServerOk, AllRequests, Finals, MessageEnd, LastReply, Leftover;
    assert st.server + [] == st.server;
    DrainedEmits(save, st);
    if st.pending.Some? {
      FinalsAfterTake(save, st);
      ResponseLeaves(save, st);
    } else {
      NoRequest(st);
      assert Open(st) == [];
    }
  }

  lemma {:induction false} AllReadable(c: bytes)
    requires ClientOk(c)
    ensures ClientClean(c) && AllRequests(c) == Requests(c)
    decreases |c|
  {
    hide MessageEnd, HeaderClean, ReadRequest;
    if MessageEnd(c) < 0 {
    } else {
      AllReadable(c[MessageEnd(c)..]);
    }
  }

  /**
   The log of a closed stream after a covered run: the pairs, then the first request without a final response, with what
   is left of the server bytes. Further framed requests are dropped.
   */
  lemma CoveredCloses(save: SaveOracle, maxRes: nat, segs: seq<Segment>)
    requires Covered(save, maxRes, segs)
    ensures var c, s := Sent(segs, true), Sent(segs, false);
      var log := CloseStream(save, FeedAll(save, maxRes, NEW_STREAM, segs)).log;
      && log == Paired(Requests(c), Finals(s)) + Unanswered(Requests(c), s)
      && (|log| < |Requests(c)| <==> |Requests(c)| > |Finals(s)| + 1)
  {
    hide *;
    var c, s := Sent(segs, true), Sent(segs, false);
    CoveredBytes(save, maxRes, segs);
    AllReadable(c);
    LoadedExtracts(save, c, s);
    RunIsOneExtraction(save, maxRes, segs);
    LoadedFine(c, s);
    var r := Extract(save, Loaded(c, s));
    ExtractKeeps(save, Loaded(c, s));
    CoveredSettles(save, c, s);
    SettledDrained(save, r);
    DrainedRests(save, r);
    DrainedEnds(save, r);
    FineLive(r);
    LiveCloses(save, r);
    LoadedServer(c, s);
    CountEnding(Requests(c), s);
    FullPairs(c, s);
  }

  lemma CoveredBytes(save: SaveOracle, maxRes: nat, segs: seq<Segment>)
    requires Covered(save, maxRes, segs)
    ensures ClientOk(Sent(segs, true)) && ServerOk(Sent(segs, false))
  {
  }

  lemma LoadedExtracts(save: SaveOracle, c: bytes, s: bytes)
    ensures Append(ACCEPTED, c, s) == Loaded(c, s)
  {
    assert [] + c == c && [] + s == s;
  }

  lemma LoadedServer(c: bytes, s: bytes)
    ensures Loaded(c, s).server == s
  {
  }

  lemma FullPairs(c: bytes, s: bytes)
    ensures Full(c, s) == Paired(AllRequests(c), Finals(s))
  {
  }

  lemma FineLive(st: State)
    requires Fine(st, [], [])
    ensures Live(st)
  {
  }

  lemma SettledDrained(save: SaveOracle, st: State)
    requires Settled(save, st)
    ensures Drained(save, st)
  {
  }

  lemma CoveredSettles(save: SaveOracle, c: bytes, s: bytes)
    requires ClientOk(c) && ServerOk(s)
    ensures Settled(save, Extract(save, Loaded(c, s)))
  {
    hide Extract, ClientOk, ServerOk;
    assert c + [] == c && s + [] == s;
    ExtractEarly(save, Loaded(c, s), [], []);
  }

  lemma CountEnding(reqs: seq<Request>, s: bytes)
    ensures var log := Paired(reqs, Finals(s)) + Unanswered(reqs, s);
      |log| < |reqs| <==> |reqs| > |Finals(s)| + 1
  {
    hide Finals;
    PairedAt(reqs, Finals(s));
  }

  // ---- Where extractions stall ----

  /** The server bytes behind the first final response. */
  function Behind(s: bytes): bytes
    decreases |s|
  {
    var end := MessageEnd(s);
    if end < 0 || !IsResponse(s) || WaitsForClose(s[..end]) then s
    else if FinalReply(s[..end]).Some? then s[end..]
    else Behind(s[end..])
  }

  /** The bytes left when the first unreadable message has been dropped; None when none is reached. */
  function Stall(c: bytes, s: bytes): (left: Option<(bytes, bytes)>)
    ensures left.Some? ==> |left.value.0| < |c|
    decreases |c|
  {
    var end := MessageEnd(c);
    if end < 0 then None
    else if ReadRequest(c[..end]).None? then Some((c[end..], s))
    else if Finals(s) == [] then None
    else Stall(c[end..], Behind(s))
  }

  lemma ResponseBehind(save: SaveOracle, st: State)
    requires st.pending.Some? && ServerOk(st.server)
    ensures match TakeResponse(save, st)
      case None => Finals(st.server) == []
      case Some(r) =>
        && r.client == st.client
        && if r.pending.Some? then
             Finals(r.server) == Finals(st.server) && Behind(r.server) == Behind(st.server)
           else r.server == Behind(st.server) && Finals(st.server) != []
  {
    hide MessageEnd, HeaderClean, IsResponse, FinalReply, WaitsForClose, StartsEvents;
  }

  /** An extraction stalls where Stall says, or drains the stream. */
  lemma {:induction false} ExtractStalls(save: SaveOracle, st: State)
    requires Fine(st, [], [])
    ensures var r := Extract(save, st);
      var left := if st.pending.None? then Stall(st.client, st.server)
                  else if Finals(st.server) == [] then None
                  else Stall(st.client, Behind(st.server));
      match left
      case None => Drained(save, r)
      case Some((c, s)) => r.pending.None? && r.client == c && r.server == s
    decreases |st.server|
  {
    hide ClientClean, ServerOk, TakeResponse, Finals, Behind, MessageEnd, IsResponse, ParseRequest;
    assert st.server + [] == st.server && st.client + [] == st.client;
    RequestKeeps(st);
    var st1 := WithRequest(st);
    assert st1.server + [] == st1.server;
    if st1.pending.Some? {
      ResponseBehind(save, st1);
      match TakeResponse(save, st1)
      case None =>
      case Some(st2) =>
        ResponseKeeps(save, st1);
        ExtractStalls(save, st2);
    }
  }

  // ---- Cuttings, to the end of the close ----

  /** A cut stream closes with the log of one more extraction than the run has made, and a last request. */
  lemma CutCloses(save: SaveOracle, maxRes: nat, c: bytes, s: bytes, segs: seq<Segment>) returns (n: nat)
    requires Wellformed(maxRes, c, s) && Cutting(segs, c, s)
    ensures n >= 1
    ensures CloseStream(save, FeedAll(save, maxRes, NEW_STREAM, segs)).log == EndLog(Kicks(save, Loaded(c, s), n + 1))
  {
    WellformedBytes(maxRes, c, s);
    hide *;
    n := CutKicks(save, maxRes, c, s, segs);
    LoadedFine(c, s);
    KickedCloses(save, Loaded(c, s), n);
  }

  lemma KickedCloses(save: SaveOracle, st: State, n: nat)
    requires Fine(st, [], [])
    ensures CloseStream(save, Kicks(save, st, n)).log == EndLog(Kicks(save, st, n + 1))
  {
    hide *;
    KicksKeep(save, st, n);
    FineLive(Kicks(save, st, n));
    LiveCloses(save, Kicks(save, st, n));
    KicksLast(save, st, n);
  }

  lemma LiveCloses(save: SaveOracle, st: State)
    requires Live(st)
    ensures CloseStream(save, st).log == EndLog(Extract(save, st))
  {
    hide Close, EndLog, Extract;
    CloseEnds(save, st);
  }

  /** Whether the last client message that a close takes up leaves it with what is due. */
  predicate LastOne(c: bytes, s: bytes) {
    var end := MessageEnd(c);
    if end < 0 then true
    else if ReadRequest(c[..end]).None? then AllRequests(c) == []
    else if Finals(s) == [] then LastReply(Leftover(s)) == LastReply(s)
    else |AllRequests(c)| == 1 && Finals(s)[0] == LastReply(s)
  }

  /** At most two unreadable messages are reached, or what is behind the second can be taken up by the close itself. */
  predicate NothingLate(c: bytes, s: bytes) {
    match Stall(c, s)
    case None => true
    case Some((c1, s1)) =>
      match Stall(c1, s1)
      case None => true
      case Some((c2, s2)) => LastOne(c2, s2)
  }

  lemma EndingEmpty(reqs: seq<Request>, s: bytes)
    ensures Paired(reqs, Finals(s)) + Unanswered(reqs, s) == [] <==> reqs == []
  {
    hide Finals;
    PairedAt(reqs, Finals(s));
  }

  lemma EndingOne(reqs: seq<Request>, s: bytes)
    requires reqs != []
    ensures var rest := Paired(reqs, Finals(s)) + Unanswered(reqs, s);
      && rest != [] && (|rest| == 1 <==> Finals(s) == [] || |reqs| == 1)
      && rest[0] == Emitted(reqs[0], if Finals(s) == [] then LastReply(Leftover(s)) else Finals(s)[0])
  {
    hide Finals, LastReply, Leftover;
    PairedAt(reqs, Finals(s));
  }

  /** What the close takes up from a stalled stream is all that is due exactly as LastOne says. */
  lemma LastOneIff(st: State)
    requires Fine(st, [], []) && st.pending.None?
    ensures EndLog(st) == Due(st) + Unanswered(Open(st), st.server) <==> LastOne(st.client, st.server)
    ensures LastOne(st.client, st.server) ==> |EndLog(st)| <= |st.log| + 1
    ensures LastOne(st.client, st.server) && |EndLog(st)| == |st.log| + 1 ==>
      MessageEnd(st.client) >= 0 && Requests(st.client) != []
  {
    hide ClientClean, ServerOk, Finals, Leftover, LastReply, MessageEnd, Paired, Unanswered;
    var reqs, s := AllRequests(st.client), st.server;
    assert Open(st) == reqs;
    EndingEmpty(reqs, s);
    var rest := Paired(reqs, Finals(s)) + Unanswered(reqs, s);
    assert Due(st) + Unanswered(Open(st), s) == st.log + rest by { Regroup(st.log, Paired(reqs, Finals(s)), Unanswered(reqs, s)); }
    Taken(st);
    if MessageEnd(st.client) >= 0 && ReadRequest(st.client[..MessageEnd(st.client)]).Some? {
      EndingOne(reqs, s);
      var last := Emitted(reqs[0], LastReply(s));
      SameTail(st.log, [last], rest);
      assert rest == [last] <==> |rest| == 1 && rest[0] == last;
    } else {
      SameTail(st.log, [], rest);
      assert st.log + [] == st.log;
    }
  }

  lemma SameTail(log: seq<Outcome>, a: seq<Outcome>, b: seq<Outcome>)
    ensures log + a == log + b <==> a == b
  {
    assert (log + a)[|log|..] == a && (log + b)[|log|..] == b;
  }

  /** What a close takes up from a stream without a pending request. */
  lemma Taken(st: State)
    requires st.pending.None?
    ensures var end := MessageEnd(st.client);
      if end >= 0 && ReadRequest(st.client[..end]).Some? then
        && AllRequests(st.client) != [] && Requests(st.client) != []
        && EndLog(st) == st.log + [Emitted(AllRequests(st.client)[0], LastReply(st.server))]
      else EndLog(st) == st.log && (end < 0 ==> AllRequests(st.client) == [])
  {
    hide MessageEnd, IsResponse, ParseRequest, LastReply;
  }

  /** From the second extraction on: what is due once everything is read. */
  function AllDue(st: State): seq<Outcome> {
    Due(st) + Unanswered(Open(st), st.server)
  }

  lemma KicksAllDue(save: SaveOracle, st: State, n: nat)
    requires Fine(st, [], [])
    ensures Fine(Kicks(save, st, n), [], []) && AllDue(Kicks(save, st, n)) == AllDue(st)
  {
    hide Kicks, Fine, Due, Unanswered, Open;
    KicksKeep(save, st, n);
  }

  /** A stream all of whose due log is there closes with it. */
  lemma AllThere(st: State)
    requires Fine(st, [], []) && AllDue(st) == st.log
    ensures EndLog(st) == st.log
  {
    hide Finals, Paired, Unanswered, AllRequests, LastReply, MessageEnd, ClientClean, ServerOk;
    EndingEmpty(Open(st), st.server);
    var rest := Paired(Open(st), Finals(st.server)) + Unanswered(Open(st), st.server);
    Regroup(st.log, Paired(Open(st), Finals(st.server)), Unanswered(Open(st), st.server));
    SameTail(st.log, [], rest);
    assert st.log + [] == st.log;
    Taken(st);
  }

  /** A stalled stream that its close would leave as due is left so by the close after any further extraction as well. */
  lemma LaterEnds(save: SaveOracle, st: State, n: nat)
    requires Fine(st, [], []) && st.pending.None? && EndLog(st) == AllDue(st)
    ensures EndLog(Kicks(save, st, n)) == AllDue(st)
  {
    hide Fine, AllDue, Extract, Kicks, EndLog, LastOne, MessageEnd, Requests;
    var r := Kicks(save, st, n);
    KicksAllDue(save, st, n);
    KicksGrow(save, st, n);
    if r.log == AllDue(st) {
      AllThere(r);
    } else if n == 0 {
      assert r == st by { NoKicks(save, st); }
    } else {
      LogsDue(r);
      OnlyOne(st);
      assert r.log == st.log;
      StillWaits(save, st, n);
    }
  }

  lemma NoKicks(save: SaveOracle, st: State)
    ensures Kicks(save, st, 0) == st
  {
  }

  lemma LogsDue(st: State)
    ensures st.log <= AllDue(st)
  {
    hide Paired, Unanswered, Finals;
  }

  lemma OnlyOne(st: State)
    requires Fine(st, [], []) && st.pending.None? && EndLog(st) == AllDue(st)
    ensures |AllDue(st)| <= |st.log| + 1
    ensures |AllDue(st)| == |st.log| + 1 ==> Requests(st.client) != []
  {
    hide Fine, EndLog, Due, Unanswered, Open, Requests, LastOne;
    LastOneIff(st);
  }

  lemma TakesUp(save: SaveOracle, st: State)
    requires Fine(st, [], []) && st.pending.None? && Requests(st.client) != []
    ensures var r := Extract(save, st);
      Fine(r, [], []) && (r.pending.None? ==> |r.log| > |st.log|) && (r.pending.Some? ==> Drained(save, r))
  {
    hide Fine, Extract, Due, Unanswered, Requests, TakeResponse;
    ExtractKeeps(save, st);
    ExtractShrinks(save, st);
  }

  /** When a readable request stood first and nothing has come out since, it is waiting, and the stream is drained. */
  lemma StillWaits(save: SaveOracle, st: State, n: nat)
    requires Fine(st, [], []) && st.pending.None? && Requests(st.client) != [] && n >= 1
    requires |Kicks(save, st, n).log| <= |st.log|
    ensures EndLog(Kicks(save, st, n)) == AllDue(Kicks(save, st, n))
  {
    hide *;
    var next := Extract(save, st);
    KicksFirst(save, st, n);
    TakesUp(save, st);
    KicksGrow(save, next, n - 1);
    assert |next.log| <= |st.log|;
    assert Drained(save, next);
    DrainedRests(save, next);
    KicksRest(save, next, n - 1);
    DrainedAllDue(save, next);
  }

  lemma KicksFirst(save: SaveOracle, st: State, n: nat)
    requires n >= 1
    ensures Kicks(save, st, n) == Kicks(save, Extract(save, st), n - 1)
  {
    hide Extract;
  }

  lemma DrainedAllDue(save: SaveOracle, st: State)
    requires Fine(st, [], []) && Drained(save, st)
    ensures EndLog(st) == AllDue(st)
  {
    hide Fine, Drained, EndLog, Due, Unanswered, Open;
    DrainedEnds(save, st);
  }

  // ---- Main result ----

  /** Every cutting of the two byte streams has emitted the same once the stream is closed. */
  ghost predicate OneClosedLog(save: SaveOracle, maxRes: nat, c: bytes, s: bytes) {
    forall a: seq<Segment>, b: seq<Segment> :: Cutting(a, c, s) && Cutting(b, c, s) ==>
      CloseStream(save, FeedAll(save, maxRes, NEW_STREAM, a)).log ==
      CloseStream(save, FeedAll(save, maxRes, NEW_STREAM, b)).log
  }

  lemma LoadedDue(c: bytes, s: bytes)
    requires ClientClean(c) && ServerOk(s)
    ensures Fine(Loaded(c, s), [], []) && AllDue(Loaded(c, s)) == Ending(c, s)
  {
    hide Fine, Due, Full, Open;
    LoadedFine(c, s);
  }

  /** The second extraction ends where the byte streams say, or drains the stream. */
  lemma SecondStalls(save: SaveOracle, c: bytes, s: bytes)
    requires ClientClean(c) && ServerOk(s)
    ensures var r := Kicks(save, Loaded(c, s), 2);
      Fine(r, [], []) &&
      var left: Option<(bytes, bytes)> :=
        if Stall(c, s).None? then None else Stall(Stall(c, s).value.0, Stall(c, s).value.1);
      match left
      case None => Drained(save, r)
      case Some((c2, s2)) => r.pending.None? && r.client == c2 && r.server == s2
  {
    var st := Loaded(c, s);
    assert Kicks(save, st, 2) == Extract(save, Extract(save, st)) by { TwoKicks(save, st); }
    hide Extract, Kicks, ClientClean, ServerOk, Fine, Stall, Drained, Finals;
    LoadedDue(c, s);
    ExtractKeeps(save, st);
    ExtractStalls(save, st);
    var r1 := Extract(save, st);
    ExtractKeeps(save, r1);
    if Stall(c, s).None? {
      DrainedRests(save, r1);
    } else {
      ExtractStalls(save, r1);
    }
  }

  lemma TwoKicks(save: SaveOracle, st: State)
    ensures Kicks(save, st, 2) == Extract(save, Extract(save, st))
  {
    hide Extract;
    assert Kicks(save, st, 2) == Kicks(save, Extract(save, st), 1);
    assert Kicks(save, Extract(save, st), 1) == Kicks(save, Extract(save, Extract(save, st)), 0);
  }

  /** The close after the second extraction leaves all that is due exactly when nothing is late. */
  lemma SecondEndsIff(save: SaveOracle, c: bytes, s: bytes)
    requires ClientClean(c) && ServerOk(s)
    ensures EndLog(Kicks(save, Loaded(c, s), 2)) == Ending(c, s) <==> NothingLate(c, s)
  {
    hide Kicks, ClientClean, ServerOk, Fine, Stall, Drained, EndLog, LastOne, Ending, Due, Open, Unanswered, Loaded;
    SecondStalls(save, c, s);
    LoadedDue(c, s);
    KicksAllDue(save, Loaded(c, s), 2);
    var r := Kicks(save, Loaded(c, s), 2);
    if Stall(c, s).None? || Stall(Stall(c, s).value.0, Stall(c, s).value.1).None? {
      DrainedAllDue(save, r);
    } else {
      LastOneIff(r);
    }
  }

  /** And then the close after any further extraction does so too. */
  lemma AllEnd(save: SaveOracle, c: bytes, s: bytes, n: nat)
    requires ClientClean(c) && ServerOk(s) && NothingLate(c, s) && n >= 2
    ensures EndLog(Kicks(save, Loaded(c, s), n)) == Ending(c, s)
  {
    hide *;
    SecondEndsIff(save, c, s);
    SecondRests(save, c, s);
    LoadedDue(c, s);
    KicksAllDue(save, Loaded(c, s), 2);
    var r := Kicks(save, Loaded(c, s), 2);
    KicksJoin(save, Loaded(c, s), 2, n - 2);
    if Drained(save, r) {
      DrainedRests(save, r);
      KicksRest(save, r, n - 2);
    } else {
      LaterEnds(save, r, n - 2);
    }
  }

  lemma SecondRests(save: SaveOracle, c: bytes, s: bytes)
    requires ClientClean(c) && ServerOk(s)
    ensures var r := Kicks(save, Loaded(c, s), 2); Fine(r, [], []) && (Drained(save, r) || r.pending.None?)
  {
    hide Kicks, Fine, Drained, Stall, Loaded, ClientClean, ServerOk;
    SecondStalls(save, c, s);
  }

  lemma {:induction false} KicksJoin(save: SaveOracle, st: State, m: nat, n: nat)
    ensures Kicks(save, st, m + n) == Kicks(save, Kicks(save, st, m), n)
    decreases m
  {
    hide Extract;
    if m == 0 {
    } else {
      KicksJoin(save, Extract(save, st), m - 1, n);
    }
  }

  /**
   Once the stream is closed, all cuttings have emitted the same exactly when nothing is late: then each has emitted every
   pair, and the first request without a final response.
   */
  lemma ClosedCutsAgreeIff(save: SaveOracle, maxRes: nat, c: bytes, s: bytes)
    requires Wellformed(maxRes, c, s) && Recognised(c, s)
    ensures OneClosedLog(save, maxRes, c, s) <==> NothingLate(c, s)
    ensures NothingLate(c, s) ==> forall a: seq<Segment> :: Cutting(a, c, s) ==>
      CloseStream(save, FeedAll(save, maxRes, NEW_STREAM, a)).log == Ending(c, s)
  {
    hide *;
    if NothingLate(c, s) {
      forall a | Cutting(a, c, s)
        ensures CloseStream(save, FeedAll(save, maxRes, NEW_STREAM, a)).log == Ending(c, s)
      {
        ClosesInFull(save, maxRes, c, s, a);
      }
      AllAlike(save, maxRes, c, s);
    } else {
      LateShows(save, maxRes, c, s);
    }
  }

  lemma ClosesInFull(save: SaveOracle, maxRes: nat, c: bytes, s: bytes, segs: seq<Segment>)
    requires Wellformed(maxRes, c, s) && NothingLate(c, s) && Cutting(segs, c, s)
    ensures CloseStream(save, FeedAll(save, maxRes, NEW_STREAM, segs)).log == Ending(c, s)
  {
    hide *;
    WellformedBytes(maxRes, c, s);
    var n := CutCloses(save, maxRes, c, s, segs);
    AllEnd(save, c, s, n + 1);
  }

  lemma AllAlike(save: SaveOracle, maxRes: nat, c: bytes, s: bytes)
    requires forall a: seq<Segment> :: Cutting(a, c, s) ==>
      CloseStream(save, FeedAll(save, maxRes, NEW_STREAM, a)).log == Ending(c, s)
    ensures OneClosedLog(save, maxRes, c, s)
  {
    hide Cutting, FeedAll, CloseStream, Ending;
  }

  /** Two cuttings that differ when something is late. */
  lemma LateShows(save: SaveOracle, maxRes: nat, c: bytes, s: bytes)
    requires Wellformed(maxRes, c, s) && Recognised(c, s) && !NothingLate(c, s)
    ensures !OneClosedLog(save, maxRes, c, s)
  {
    WellformedBytes(maxRes, c, s);
    LateComes(c, s);
    hide Cutting, FeedAll, CloseStream, Ending, Kicks, EndLog, Wellformed, Recognised, Ahead, AtOnce, ByBytes, NothingLate,
         ClientClean, ServerOk;
    AtOnceExtracts(save, maxRes, c, s);
    ByBytesDrains(save, maxRes, c, s);
    AtOnceCloses(save, maxRes, c, s);
    ByBytesCloses(save, maxRes, c, s);
    SecondEndsIff(save, c, s);
    var a, b := AtOnce(c, s), ByBytes(c, s);
    assert Cutting(a, c, s) && Cutting(b, c, s);
  }

  lemma LateComes(c: bytes, s: bytes)
    requires !NothingLate(c, s) && Recognised(c, s)
    ensures Ahead(c, s) < c
  {
    hide LooksLikeHttp, MessageEnd, ReadRequest, Finals, Behind, LastOne;
    assert MessageEnd(c) >= 0;
    NothingFramed();
    if !(s != [] && LooksLikeHttp(s)) {
      LookAhead(c);
      NoLine(c[..4]);
      assert c[..4] <= c && c[..4] != c;
    } else {
      assert Ahead(c, s) == [] && [] <= c && c != [];
    }
  }

  lemma AtOnceCloses(save: SaveOracle, maxRes: nat, c: bytes, s: bytes)
    requires Wellformed(maxRes, c, s) && Recognised(c, s) && Ahead(c, s) < c
    ensures CloseStream(save, FeedAll(save, maxRes, NEW_STREAM, AtOnce(c, s))).log == EndLog(Kicks(save, Loaded(c, s), 2))
  {
    WellformedBytes(maxRes, c, s);
    hide *;
    AtOnceExtracts(save, maxRes, c, s);
    LoadedFine(c, s);
    KickedCloses(save, Loaded(c, s), 1);
    OneKick(save, Loaded(c, s));
  }

  lemma OneKick(save: SaveOracle, st: State)
    ensures Kicks(save, st, 1) == Extract(save, st)
  {
    hide Extract;
    assert Kicks(save, Extract(save, st), 0) == Extract(save, st);
  }

  lemma ByBytesCloses(save: SaveOracle, maxRes: nat, c: bytes, s: bytes)
    requires Wellformed(maxRes, c, s) && Recognised(c, s) && Ahead(c, s) < c
    ensures CloseStream(save, FeedAll(save, maxRes, NEW_STREAM, ByBytes(c, s))).log == Ending(c, s)
  {
    WellformedBytes(maxRes, c, s);
    hide *;
    ByBytesDrains(save, maxRes, c, s);
    var n := CutKicks(save, maxRes, c, s, ByBytes(c, s));
    var r := Kicks(save, Loaded(c, s), n);
    LoadedDue(c, s);
    KicksAllDue(save, Loaded(c, s), n);
    DrainedRests(save, r);
    FineLive(r);
    LiveCloses(save, r);
    DrainedAllDue(save, r);
  }

  // ---- One unreadable message never shows once the stream is closed ----

  /** How many framed client messages are not read. */
  function Unreadable(c: bytes): nat
    decreases |c|
  {
    var end := MessageEnd(c);
    if end < 0 then 0 else Unreadable(c[end..]) + if ReadRequest(c[..end]).None? then 1 else 0
  }

  lemma {:induction false} StallCounts(c: bytes, s: bytes)
    ensures match Stall(c, s)
      case None => true
      case Some((c1, s1)) => Unreadable(c1) < Unreadable(c)
    decreases |c|
  {
    hide MessageEnd, ReadRequest, Finals, Behind;
    var end := MessageEnd(c);
    if end < 0 {
    } else if ReadRequest(c[..end]).Some? && Finals(s) != [] {
      StallCounts(c[end..], Behind(s));
    }
  }

  /** With at most one unreadable message all cuttings agree once the stream is closed. */
  lemma OneUnreadableAgrees(save: SaveOracle, maxRes: nat, c: bytes, s: bytes)
    requires Wellformed(maxRes, c, s) && Recognised(c, s) && Unreadable(c) <= 1
    ensures OneClosedLog(save, maxRes, c, s) && NothingLate(c, s)
  {
    hide Wellformed, Recognised, OneClosedLog, Stall, LastOne, Unreadable;
    StallCounts(c, s);
    if Stall(c, s).Some? {
      StallCounts(Stall(c, s).value.0, Stall(c, s).value.1);
    }
    ClosedCutsAgreeIff(save, maxRes, c, s);
  }
}
