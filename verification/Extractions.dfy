/** Client streams that may hold unreadable messages: every cutting of them is some number of extractions. */
module Extractions {
  import opened Bytes
  import opened HttpSyntax
  import opened Framing
  import opened TcpStream
  import opened Segmentation
  import Conservation

  /** From each message boundary on: no LF LF before the blank line. The messages need not be readable. */
  predicate ClientClean(c: bytes)
    decreases |c|
  {
    HeaderClean(c) &&
    var end := MessageEnd(c);
    end >= 0 ==> ClientClean(c[end..])
  }

  /** All readable requests of a client stream, in order; Requests gives those before the first unreadable message. */
  function AllRequests(c: bytes): seq<Request>
    decreases |c|
  {
    var end := MessageEnd(c);
    if end < 0 then []
    else
      match ReadRequest(c[..end])
      case None => AllRequests(c[end..])
      case Some(req) => [req] + AllRequests(c[end..])
  }

  /** What stands in the server stream behind its final responses: nothing of it answers a request. */
  function Leftover(s: bytes): bytes
    decreases |s|
  {
    var end := MessageEnd(s);
    if end < 0 || !IsResponse(s) || WaitsForClose(s[..end]) then s else Leftover(s[end..])
  }

  // ---- What one extraction keeps ----

  /** With `x` and `y` still to come. */
  predicate Fine(st: State, x: bytes, y: bytes) {
    st.firstData && Live(st) && ClientClean(st.client + x) && ServerOk(st.server + y)
  }

  /** The readable requests that have no response yet. */
  function Open(st: State): seq<Request> {
    Waiting(st) + AllRequests(st.client)
  }

  /** What will have been emitted once everything is read. */
  function Due(st: State): seq<Outcome> {
    st.log + Paired(Open(st), Finals(st.server))
  }

  /** The first request without a final response leaves at the close, with what is left of the server bytes. */
  function Unanswered(reqs: seq<Request>, s: bytes): seq<Outcome> {
    if |reqs| > |Finals(s)| then [Emitted(reqs[|Finals(s)|], LastReply(Leftover(s)))] else []
  }

  /** How many requests will have been taken up before an unreadable message. */
  function Lead(st: State): nat {
    |st.log| + |Waiting(st)| + |Requests(st.client)|
  }

  lemma RequestStep(st: State, x: bytes)
    requires st.pending.None? && ClientClean(st.client + x) && MessageEnd(st.client) >= 0
    ensures var r := TakeRequest(st);
      && ClientClean(r.client + x) && r.log == st.log && r.firstData == st.firstData && (Live(st) ==> Live(r))
      && forall y :: TakeRequest(Append(st, x, y)) == Append(r, x, y)
  {
    hide MessageEnd, HeaderClean, IsResponse, ParseRequest;
    var end := MessageEnd(st.client);
    CleanEndStable(st.client, x);
    assert (st.client + x)[..end] == st.client[..end];
    assert (st.client + x)[end..] == st.client[end..] + x;
  }

  lemma RequestReads(st: State)
    requires st.pending.None? && MessageEnd(st.client) >= 0
    ensures var r := TakeRequest(st);
      && AllRequests(st.client) == Open(r)
      && Requests(st.client) == (if r.pending.Some? then Waiting(r) + Requests(r.client) else [])
  {
    hide MessageEnd, IsResponse, ParseRequest;
    assert [] + AllRequests(TakeRequest(st).client) == AllRequests(TakeRequest(st).client);
  }

  lemma NoRequest(st: State)
    requires MessageEnd(st.client) < 0
    ensures TakeRequest(st) == st && AllRequests(st.client) == [] && Requests(st.client) == []
  {
    hide MessageEnd;
  }

  lemma ResponseLeaves(save: SaveOracle, st: State)
    requires st.pending.Some? && ServerOk(st.server)
    ensures match TakeResponse(save, st)
      case None => Leftover(st.server) == st.server
      case Some(r) => Leftover(st.server) == Leftover(r.server)
  {
    hide MessageEnd, HeaderClean, IsResponse, FinalReply, StartsEvents, WaitsForClose;
  }

  lemma RequestKeeps(st: State)
    requires Fine(st, [], [])
    ensures var r := WithRequest(st);
      && Fine(r, [], []) && Open(r) == Open(st) && r.log == st.log && r.server == st.server
      && (if r.pending.Some? then Lead(r) == Lead(st) else Lead(st) == |st.log|)
  {
    hide MessageEnd, ClientClean, ServerOk, TakeRequest, AllRequests, Requests;
    assert st.client + [] == st.client;
    if st.pending.None? {
      if MessageEnd(st.client) < 0 {
        NoRequest(st);
      } else {
        RequestStep(st, []);
        RequestReads(st);
        assert [] + AllRequests(st.client) == AllRequests(st.client);
      }
    }
  }

  lemma ResponseKeeps(save: SaveOracle, st: State)
    requires st.pending.Some? && Fine(st, [], []) && TakeResponse(save, st).Some?
    ensures var r := TakeResponse(save, st).value;
      && Fine(r, [], []) && Due(r) == Due(st) && Lead(r) == Lead(st)
      && Unanswered(Open(r), r.server) == Unanswered(Open(st), st.server)
  {
    hide ClientClean, ServerOk, TakeResponse, AllRequests, Requests, Finals, Leftover, LastReply;
    assert st.server + [] == st.server && st.client + [] == st.client;
    FinalsAfterTake(save, st);
    ResponseKeepsFirst(save, st);
    ResponseLeaves(save, st);
    var r := TakeResponse(save, st).value;
    assert r.server + [] == r.server && Open(st)[1..] == AllRequests(st.client) == [] + AllRequests(st.client);
  }

  /** What an extraction keeps. It stops at a request that has to wait, or behind all before an unreadable message. */
  lemma {:induction false} ExtractKeeps(save: SaveOracle, st: State)
    requires Fine(st, [], [])
    ensures var r := Extract(save, st);
      && Fine(r, [], []) && Due(r) == Due(st)
      && Unanswered(Open(r), r.server) == Unanswered(Open(st), st.server)
      && |r.log| <= Lead(st) && (r.pending.Some? || |r.log| >= Lead(st))
    decreases |st.server|
  {
    RequestKeeps(st);
    var st1 := WithRequest(st);
    assert |st1.log| <= Lead(st1) && Due(st1) == Due(st);
    hide Fine, Due, Lead, Open, Unanswered, WithRequest, TakeResponse;
    if st1.pending.Some? {
      match TakeResponse(save, st1)
      case None =>
      case Some(st2) =>
        ResponseKeeps(save, st1);
        ExtractKeeps(save, st2);
    }
  }

  // ---- Every cutting is some number of extractions ----

  /** `n` extractions, one after the other. */
  function Kicks(save: SaveOracle, st: State, n: nat): State
    decreases n
  {
    if n == 0 then st else Kicks(save, Extract(save, st), n - 1)
  }

  /** Extracting before more bytes arrive is extracting after, or has already done one extraction of it all. */
  lemma {:induction false} ExtractTwice(save: SaveOracle, st: State, x: bytes, y: bytes)
    requires Fine(st, x, y)
    ensures var r := Extract(save, st);
      && Fine(r, x, y)
      && (Extract(save, Append(r, x, y)) == Extract(save, Append(st, x, y))
          || Append(r, x, y) == Extract(save, Append(st, x, y)))
    decreases |st.server|
  {
    hide MessageEnd, ClientClean, ServerOk, TakeRequest, TakeResponse;
    if st.pending.None? {
      if MessageEnd(st.client) < 0 {
        NoRequest(st);
      } else {
        RequestStep(st, x);
      }
    }
    var st1 := WithRequest(st);
    assert st1.pending.Some? ==> WithRequest(Append(st, x, y)) == Append(st1, x, y);
    if st1.pending.Some? {
      match TakeResponse(save, st1)
      case None =>
      case Some(st2) =>
        TakeResponseStable(save, st1, x, y);
        ResponseKeepsFirst(save, st1);
        ExtractTwice(save, st2, x, y);
    }
  }

  /** Both directions, with what is still to come, fit the limit. */
  predicate Fits(maxRes: nat, st: State, segs: seq<Segment>) {
    |st.client| + |Sent(segs, true)| <= Limit(maxRes) && |st.server| + |Sent(segs, false)| <= Limit(maxRes)
  }

  function Grown(st: State, seg: Segment): State {
    if seg.toServer then Append(st, seg.data, []) else Append(st, [], seg.data)
  }

  lemma SentFirst(segs: seq<Segment>, toServer: bool)
    requires segs != []
    ensures Sent(segs, toServer) ==
      (if segs[0].toServer == toServer then segs[0].data else []) + Sent(segs[1..], toServer)
  {
  }

  lemma GrownCarries(st: State, segs: seq<Segment>)
    requires segs != []
    ensures var grown := Grown(st, segs[0]);
      && grown.client + Sent(segs[1..], true) == st.client + Sent(segs, true)
      && grown.server + Sent(segs[1..], false) == st.server + Sent(segs, false)
  {
    hide Sent;
    SentFirst(segs, true);
    SentFirst(segs, false);
    var seg := segs[0];
    assert st.client + [] == st.client && st.server + [] == st.server;
    Regroup(st.client, if seg.toServer then seg.data else [], Sent(segs[1..], true));
    Regroup(st.server, if seg.toServer then [] else seg.data, Sent(segs[1..], false));
  }

  lemma FeedExtracts(save: SaveOracle, maxRes: nat, st: State, segs: seq<Segment>)
    requires segs != [] && st.firstData && Live(st) && Fits(maxRes, st, segs)
    ensures var seg := segs[0];
      var grown := Grown(st, seg);
      var next := Feed(save, maxRes, st, seg.data, seg.toServer);
      && next == Extract(save, grown)
      && Fits(maxRes, next, segs[1..])
      && grown.client + Sent(segs[1..], true) == st.client + Sent(segs, true)
      && grown.server + Sent(segs[1..], false) == st.server + Sent(segs, false)
  {
    hide Extract, LooksLikeHttp, Sent;
    GrownCarries(st, segs);
    var grown := Grown(st, segs[0]);
    assert |grown.client| + |Sent(segs[1..], true)| == |st.client| + |Sent(segs, true)|;
    assert |grown.server| + |Sent(segs[1..], false)| == |st.server| + |Sent(segs, false)|;
    ExtractShrinks(save, grown);
    FeedNoCut(save, maxRes, st, segs[0]);
  }

  lemma FeedNoCut(save: SaveOracle, maxRes: nat, st: State, seg: Segment)
    requires st.firstData && Live(st)
    requires |Grown(st, seg).client| <= Limit(maxRes) && |Grown(st, seg).server| <= Limit(maxRes)
    ensures Feed(save, maxRes, st, seg.data, seg.toServer) == Extract(save, Grown(st, seg))
  {
    hide Extract, LooksLikeHttp, Limit;
    var grown := Grown(st, seg);
    assert grown.(firstData := true) == grown;
    ExtractShrinks(save, grown);
  }

  /** A run extracts all its bytes, at least once and at most as often as it has segments. */
  lemma {:induction false} RunKicks(save: SaveOracle, maxRes: nat, st: State, segs: seq<Segment>) returns (n: nat)
    requires segs != [] && Fits(maxRes, st, segs)
    requires Fine(st, Sent(segs, true), Sent(segs, false))
    ensures 1 <= n <= |segs|
    ensures FeedAll(save, maxRes, st, segs) == Kicks(save, Append(st, Sent(segs, true), Sent(segs, false)), n)
    decreases |segs|
  {
    hide Extract, ClientClean, ServerOk, Feed, Fits;
    var seg, later := segs[0], segs[1..];
    var grown := Grown(st, seg);
    var x, y := Sent(later, true), Sent(later, false);
    FeedExtracts(save, maxRes, st, segs);
    ExtractTwice(save, grown, x, y);
    var next := Extract(save, grown);
    var all := Append(st, Sent(segs, true), Sent(segs, false));
    assert Append(grown, x, y) == all;
    if later == [] {
      assert Append(grown, [], []) == grown;
      assert FeedAll(save, maxRes, next, later) == next == Kicks(save, next, 0);
      n := 1;
    } else {
      var m := RunKicks(save, maxRes, next, later);
      if Extract(save, Append(next, x, y)) == Extract(save, all) {
        n := m;
      } else {
        n := m + 1;
      }
    }
  }

  lemma {:induction false} KicksKeep(save: SaveOracle, st: State, n: nat)
    requires Fine(st, [], [])
    ensures var r := Kicks(save, st, n);
      && Fine(r, [], []) && Due(r) == Due(st)
      && Unanswered(Open(r), r.server) == Unanswered(Open(st), st.server)
    decreases n
  {
    hide Fine, Due, Open, Unanswered, Extract, Lead;
    if n == 0 {
    } else {
      ExtractKeeps(save, st);
      KicksKeep(save, Extract(save, st), n - 1);
    }
  }

  lemma Lengthens(a: seq<Outcome>, b: seq<Outcome>, c: seq<Outcome>)
    requires a <= b <= c
    ensures a <= c
  {
  }

  lemma {:induction false} KicksGrow(save: SaveOracle, st: State, n: nat)
    ensures st.log <= Kicks(save, st, n).log
    decreases n
  {
    hide Extract;
    if n == 0 {
    } else {
      Conservation.ExtractGrows(save, st);
      KicksGrow(save, Extract(save, st), n - 1);
      Lengthens(st.log, Extract(save, st).log, Kicks(save, st, n).log);
    }
  }

  lemma {:induction false} KicksRest(save: SaveOracle, st: State, n: nat)
    requires Extract(save, st) == st
    ensures Kicks(save, st, n) == st
    decreases n
  {
    hide Extract;
    if n == 0 {
    } else {
      KicksRest(save, st, n - 1);
    }
  }

  lemma {:induction false} KicksLast(save: SaveOracle, st: State, n: nat)
    ensures Kicks(save, st, n + 1) == Extract(save, Kicks(save, st, n))
    decreases n
  {
    hide Extract;
    if n == 0 {
      assert Kicks(save, Extract(save, st), 0) == Extract(save, st);
    } else {
      KicksLast(save, Extract(save, st), n - 1);
    }
  }

  // ---- Streams on which extraction has nothing left to do ----

  predicate Drained(save: SaveOracle, st: State) {
    if st.pending.Some? then TakeResponse(save, st).None? else MessageEnd(st.client) < 0
  }

  lemma DrainedRests(save: SaveOracle, st: State)
    requires Drained(save, st)
    ensures Extract(save, st) == st
  {
    hide TakeResponse, MessageEnd;
    if st.pending.None? {
      NoRequest(st);
    }
  }

  lemma {:induction false} EmptyClientDrains(save: SaveOracle, st: State)
    requires st.client == []
    ensures Drained(save, Extract(save, st))
    decreases |st.server|
  {
    hide TakeResponse;
    NothingFramed();
    if st.pending.None? {
    } else {
      match TakeResponse(save, st)
      case None =>
      case Some(next) =>
        TakesNoClient(save, st);
        EmptyClientDrains(save, next);
    }
  }

  lemma TakesNoClient(save: SaveOracle, st: State)
    requires st.pending.Some? && st.client == []
    ensures TakeResponse(save, st).Some? ==> TakeResponse(save, st).value.client == []
  {
    hide MessageEnd, IsResponse, FinalReply, StartsEvents, WaitsForClose;
  }

  lemma SameResponse(save: SaveOracle, a: State, b: State)
    requires a.pending.Some? && b.pending.Some? && a.server == b.server
    ensures TakeResponse(save, a).None? <==> TakeResponse(save, b).None?
  {
    hide MessageEnd, IsResponse, FinalReply, StartsEvents, WaitsForClose;
  }

  /** One more client byte completes at most one message, and with it the client buffer. */
  lemma ByteCompletes(client: bytes, b: byte, rest: bytes)
    requires MessageEnd(client) < 0 && HeaderClean(client + [b] + rest)
    ensures MessageEnd(client + [b]) < 0 || MessageEnd(client + [b]) == |client| + 1
  {
    hide HeaderClean, MessageEnd, Contains;
    if MessageEnd(client + [b]) >= 0 {
      CleanEndStable(client + [b], rest);
      if MessageEnd(client + [b]) <= |client| {
        MessageEndTrims(client, [b]);
      }
    }
  }

  lemma ByteDrains(save: SaveOracle, st: State, b: byte, rest: bytes)
    requires Drained(save, st) && HeaderClean(st.client + [b] + rest)
    ensures Drained(save, Extract(save, Append(st, [b], [])))
  {
    hide TakeResponse, MessageEnd, HeaderClean, IsResponse, ParseRequest;
    var grown := Append(st, [b], []);
    assert st.server + [] == st.server;
    if st.pending.Some? {
      SameResponse(save, st, grown);
    } else {
      ByteCompletes(st.client, b, rest);
      if MessageEnd(grown.client) < 0 {
        NoRequest(grown);
      } else {
        var taken := TakeRequest(grown);
        assert taken.client == [];
        if taken.pending.Some? {
          EmptyClientDrains(save, taken);
          assert Extract(save, grown) == Extract(save, taken);
        } else {
          NothingFramed();
        }
      }
    }
  }

  function EachByte(data: bytes): (segs: seq<Segment>)
    ensures |segs| == |data| && forall i :: 0 <= i < |segs| ==> segs[i].data != []
  {
    if data == [] then [] else [Segment([data[0]], true)] + EachByte(data[1..])
  }

  lemma {:induction false} EachByteSent(data: bytes)
    ensures Sent(EachByte(data), true) == data && Sent(EachByte(data), false) == []
  {
    if data == [] {
    } else {
      EachByteSent(data[1..]);
      assert EachByte(data)[1..] == EachByte(data[1..]);
      assert data == [data[0]] + data[1..];
    }
  }

  /** Byte by byte nothing stalls. */
  lemma {:induction false} EachByteDrains(save: SaveOracle, maxRes: nat, st: State, data: bytes)
    requires Fine(st, data, []) && Drained(save, st) && Fits(maxRes, st, EachByte(data))
    ensures Drained(save, FeedAll(save, maxRes, st, EachByte(data)))
    decreases |data|
  {
    hide Extract, ServerOk, Drained, Feed, Fits, MessageEnd;
    var segs := EachByte(data);
    if data == [] {
    } else {
      EachByteSent(data);
      EachByteSent(data[1..]);
      assert segs[1..] == EachByte(data[1..]);
      FeedExtracts(save, maxRes, st, segs);
      var grown := Grown(st, segs[0]);
      assert grown == Append(st, [data[0]], []);
      assert st.client + [data[0]] + data[1..] == st.client + data by { assert data == [data[0]] + data[1..]; }
      ByteDrains(save, st, data[0], data[1..]);
      ExtractTwice(save, grown, data[1..], []);
      assert FeedAll(save, maxRes, st, segs) == FeedAll(save, maxRes, Extract(save, grown), segs[1..]);
      EachByteDrains(save, maxRes, Extract(save, grown), data[1..]);
    }
  }
}
