/** What an event stream keeps of its event bytes, and what it saves of them. */
module EventStreams {
  import opened Bytes
  import opened TcpStream
  import opened Segmentation
  import opened Conservation

  /** The last `n` bytes. */
  function Tail(s: bytes, n: nat): bytes {
    if |s| <= n then s else s[|s| - n..]
  }

  /** A stream that has turned into an event stream. */
  predicate Streaming(st: State) {
    !st.nonHttp && st.ssePending && st.firstData
  }

  lemma TailTail(a: bytes, b: bytes, n: nat)
    ensures Tail(Tail(a, n) + b, n) == Tail(a + b, n)
  {
    if |a| > n {
      assert a + b == a[..|a| - n] + (a[|a| - n..] + b);
    }
  }

  lemma TakeStaysEvents(save: SaveOracle, st: State)
    ensures st.ssePending ==> WithRequest(st).ssePending
    ensures st.pending.Some? && st.ssePending && TakeResponse(save, st).Some? ==> TakeResponse(save, st).value.ssePending
  {
    hide Framing.MessageEnd, HttpSyntax.IsResponse, HttpSyntax.ParseRequest, FinalReply, StartsEvents, WaitsForClose;
  }

  lemma {:induction false} ExtractStaysEvents(save: SaveOracle, st: State)
    requires st.ssePending
    ensures Extract(save, st).ssePending
    decreases |st.server|
  {
    TakeStaysEvents(save, st);
    var st1 := WithRequest(st);
    hide WithRequest, TakeResponse;
    if st1.pending.Some? {
      TakeStaysEvents(save, st1);
      match TakeResponse(save, st1)
      case None =>
      case Some(st2) => ExtractStaysEvents(save, st2);
    }
  }

  /** Server bytes are events: they join the buffered ones, all of which are saved once there are 4096 or more. */
  lemma EventsSavedIff(save: SaveOracle, maxRes: nat, st: State, data: bytes)
    requires Streaming(st)
    ensures var r, events := Feed(save, maxRes, st, data, false), st.sseBuf + data;
      && r == st.(sseBuf := Tail(events, maxRes), log := r.log)
      && r.log == st.log + if st.sseId > 0 && |events| >= 4096 then [EventsUpdated(st.sseId, events)] else []
  {
  }

  /** Client bytes leave the buffered events alone. */
  lemma ClientKeepsEvents(save: SaveOracle, maxRes: nat, st: State, data: bytes)
    requires Streaming(st) && !Feed(save, maxRes, st, data, true).nonHttp
    ensures var r := Feed(save, maxRes, st, data, true); Streaming(r) && r.sseBuf == st.sseBuf
  {
    hide Extract, HttpSyntax.LooksLikeHttp, Truncate;
    var grown := Append(st, data, []).(firstData := true);
    ExtractStaysEvents(save, grown);
    ExtractSteady(save, grown);
  }

  lemma EndedStays(save: SaveOracle, maxRes: nat, st: State, segs: seq<Segment>)
    requires st.nonHttp
    ensures FeedAll(save, maxRes, st, segs) == st
    decreases |segs|
  {
    if segs != [] {
      EndedStays(save, maxRes, st, segs[1..]);
    }
  }

  /** Over any run the last bytes the server sent are kept, however cut and mixed with the client's. */
  lemma {:induction false} EventsKept(save: SaveOracle, maxRes: nat, st: State, segs: seq<Segment>)
    requires Streaming(st) && |st.sseBuf| <= maxRes && !FeedAll(save, maxRes, st, segs).nonHttp
    ensures var r := FeedAll(save, maxRes, st, segs);
      Streaming(r) && r.sseBuf == Tail(st.sseBuf + Sent(segs, false), maxRes)
    decreases |segs|
  {
    hide Feed, Tail;
    if segs == [] {
      assert st.sseBuf + [] == st.sseBuf;
      ShortTail(st.sseBuf, maxRes);
    } else {
      var seg, had := segs[0], st.sseBuf;
      var next := Feed(save, maxRes, st, seg.data, seg.toServer);
      if next.nonHttp {
        EndedStays(save, maxRes, next, segs[1..]);
      }
      var later := Sent(segs[1..], false);
      if seg.toServer {
        ClientKeepsEvents(save, maxRes, st, seg.data);
        assert Sent(segs, false) == later;
      } else {
        EventsSavedIff(save, maxRes, st, seg.data);
        ShortTail(had + seg.data, maxRes);
        TailTail(had + seg.data, later, maxRes);
        assert had + (seg.data + later) == had + seg.data + later;
      }
      EventsKept(save, maxRes, next, segs[1..]);
    }
  }

  lemma ShortTail(s: bytes, n: nat)
    ensures |Tail(s, n)| <= n && (|s| <= n ==> Tail(s, n) == s)
  {
  }

  /** The close saves those bytes, if there are any, under the id of the event stream's record. */
  lemma EventsAtClose(save: SaveOracle, maxRes: nat, st: State, segs: seq<Segment>)
    requires Streaming(st) && |st.sseBuf| <= maxRes && !FeedAll(save, maxRes, st, segs).nonHttp
    ensures var r, events := FeedAll(save, maxRes, st, segs), Tail(st.sseBuf + Sent(segs, false), maxRes);
      CloseStream(save, r).log == r.log + if r.sseId > 0 && events != [] then [EventsUpdated(r.sseId, events)] else []
  {
    hide Tail, FeedAll;
    EventsKept(save, maxRes, st, segs);
  }
}
