/** Client streams with unreadable messages: exactly when what is emitted before the close depends on the cutting. */
module Stalls {
  import opened Bytes
  import opened HttpSyntax
  import opened Framing
  import opened TcpStream
  import opened Segmentation
  import opened Extractions

  // ---- All cuttings of two byte streams ----

  /** These segments carry these bytes, the first of them recognised as HTTP. */
  predicate Cutting(segs: seq<Segment>, c: bytes, s: bytes) {
    && segs != [] && (forall i :: 0 <= i < |segs| ==> segs[i].data != [])
    && LooksLikeHttp(segs[0].data) && Sent(segs, true) == c && Sent(segs, false) == s
  }

  /** Client messages framed for good, no event stream, and no more bytes than the limit. */
  predicate Wellformed(maxRes: nat, c: bytes, s: bytes) {
    ClientClean(c) && ServerOk(s) && |c| <= Limit(maxRes) && |s| <= Limit(maxRes)
  }

  /** An accepted stream with all the bytes, before any extraction. */
  function Loaded(c: bytes, s: bytes): State {
    ACCEPTED.(client := c, server := s)
  }

  /** What is emitted when nothing stalls. */
  function Full(c: bytes, s: bytes): seq<Outcome> {
    Paired(AllRequests(c), Finals(s))
  }

  lemma LoadedFine(c: bytes, s: bytes)
    requires ClientClean(c) && ServerOk(s)
    ensures var st := Loaded(c, s);
      && Fine(st, [], []) && Due(st) == Full(c, s) && Open(st) == AllRequests(c) && Lead(st) == |Requests(c)|
  {
    hide ClientClean, ServerOk, AllRequests, Finals, Requests, Paired;
    assert c + [] == c && s + [] == s && [] + AllRequests(c) == AllRequests(c);
  }

  lemma StartAccepted(save: SaveOracle, maxRes: nat, segs: seq<Segment>)
    requires segs != [] && LooksLikeHttp(segs[0].data)
    ensures FeedAll(save, maxRes, NEW_STREAM, segs) == FeedAll(save, maxRes, ACCEPTED, segs)
  {
    hide Feed, LooksLikeHttp;
    AcceptFirst(save, maxRes, segs[0]);
  }

  /** Whatever the cutting, the stream is left as some number of extractions of all the bytes leave it. */
  lemma CutKicks(save: SaveOracle, maxRes: nat, c: bytes, s: bytes, segs: seq<Segment>) returns (n: nat)
    requires Wellformed(maxRes, c, s) && Cutting(segs, c, s)
    ensures 1 <= n <= |segs| && FeedAll(save, maxRes, NEW_STREAM, segs) == Kicks(save, Loaded(c, s), n)
  {
    hide FeedAll, ClientClean, ServerOk, LooksLikeHttp, Kicks, Limit, Sent;
    StartAccepted(save, maxRes, segs);
    assert [] + c == c && [] + s == s;
    n := RunKicks(save, maxRes, ACCEPTED, segs);
  }

  /** Whatever the cutting: the pairs come out in order, and at least those of the requests before an unreadable message. */
  lemma CutEmits(save: SaveOracle, maxRes: nat, c: bytes, s: bytes, segs: seq<Segment>)
    requires Wellformed(maxRes, c, s) && Cutting(segs, c, s)
    ensures var log := FeedAll(save, maxRes, NEW_STREAM, segs).log;
      log <= Full(c, s) && (log == Full(c, s) || |log| >= |Requests(c)|)
  {
    hide FeedAll, Cutting, Kicks, Full, Limit, ClientClean, ServerOk, Requests;
    var n := CutKicks(save, maxRes, c, s, segs);
    LoadedFine(c, s);
    KicksEmit(save, Loaded(c, s), n);
  }

  lemma KicksEmit(save: SaveOracle, st: State, n: nat)
    requires n >= 1 && Fine(st, [], [])
    ensures var r := Kicks(save, st, n);
      r.log <= Due(st) && (r.log == Due(st) || |r.log| >= Lead(st))
  {
    hide Fine, Extract, Lead, Open, Paired, TakeResponse, Finals;
    var next := Extract(save, st);
    ExtractKeeps(save, st);
    KicksKeep(save, st, n);
    assert Kicks(save, st, n) == Kicks(save, next, n - 1);
    assert Kicks(save, st, n).log <= Due(st);
    hide Kicks, Due;
    if next.pending.Some? {
      ExtractShrinks(save, st);
      BlockedEmits(save, next);
      KicksRest(save, next, n - 1);
    } else {
      KicksGrow(save, next, n - 1);
    }
  }

  lemma BlockedEmits(save: SaveOracle, st: State)
    requires Fine(st, [], []) && st.pending.Some? && TakeResponse(save, st).None?
    ensures Extract(save, st) == st && Due(st) == st.log
  {
    hide TakeResponse, ClientClean, ServerOk, AllRequests, Finals;
    assert st.server + [] == st.server;
    FinalsAfterTake(save, st);
    assert Paired(Open(st), []) == [];
  }

  // ---- Two cuttings: as few extractions as can be, and as many ----

  /** One of the streams starts with recognised bytes, so that a cutting can. */
  predicate Recognised(c: bytes, s: bytes) {
    (s != [] && LooksLikeHttp(s)) || (c != [] && LooksLikeHttp(c))
  }

  /** The client bytes sent ahead of the server stream, where only they are recognised. */
  function Ahead(c: bytes, s: bytes): bytes
    requires Recognised(c, s)
  {
    if s != [] && LooksLikeHttp(s) then [] else c[..4]
  }

  /** First segments that complete no message but carry all server bytes. */
  function Opening(c: bytes, s: bytes): seq<Segment>
    requires Recognised(c, s)
  {
    if s != [] && LooksLikeHttp(s) then [Segment(s, false)]
    else [Segment(c[..4], true)] + if s == [] then [] else [Segment(s, false)]
  }

  lemma LookAhead(data: bytes)
    requires data != [] && LooksLikeHttp(data)
    ensures |data| >= 4 && LooksLikeHttp(data[..4]) && LF !in data[..4]
  {
    if IsResponse(data) {
      assert data[..4] == Ascii("HTTP") && data[..4][..4] == data[..4];
      assert Ascii("HTTP") == [72, 84, 84, 80];
    } else {
      var k :| 0 <= k < |METHOD_PREFIXES| && HasPrefix(data, METHOD_PREFIXES[k]);
      MethodPrefix(k);
      assert data[..4] == METHOD_PREFIXES[k] && data[..4][..4] == data[..4];
      assert HasPrefix(data[..4], METHOD_PREFIXES[k]);
    }
  }

  lemma MethodPrefix(k: nat)
    requires k < |METHOD_PREFIXES|
    ensures |METHOD_PREFIXES[k]| == 4 && LF !in METHOD_PREFIXES[k]
  {
    assert METHOD_PREFIXES[0] == Ascii("GET ") && METHOD_PREFIXES[1] == Ascii("POST");
    assert METHOD_PREFIXES[2] == Ascii("PUT ") && METHOD_PREFIXES[3] == Ascii("DELE");
    assert METHOD_PREFIXES[4] == Ascii("PATC") && METHOD_PREFIXES[5] == Ascii("HEAD");
    assert METHOD_PREFIXES[6] == Ascii("OPTI") && METHOD_PREFIXES[7] == Ascii("CONN");
    assert METHOD_PREFIXES[8] == Ascii("TRAC");
  }

  lemma NoLine(data: bytes)
    requires LF !in data
    ensures MessageEnd(data) < 0
  {
    forall i | 0 <= i < |data| - 1
      ensures !At(data, CRLF_CRLF, i) && !At(data, LF_LF, i)
    {
      assert data[i..i + 2][1] == data[i + 1] && data[i + 1] in data;
      assert i + 4 <= |data| ==> data[i..i + 4][1] == data[i + 1];
    }
    IndexFromIsLeast(data, CRLF_CRLF, 0);
    IndexFromIsLeast(data, LF_LF, 0);
  }

  /** After the opening the bytes ahead and all server bytes are held, and nothing has been read. */
  lemma OpeningHolds(save: SaveOracle, maxRes: nat, c: bytes, s: bytes, later: seq<Segment>)
    requires Wellformed(maxRes, c, s) && Recognised(c, s)
    ensures FeedAll(save, maxRes, NEW_STREAM, Opening(c, s) + later) ==
      FeedAll(save, maxRes, Loaded(Ahead(c, s), s), later)
    ensures Drained(save, Loaded(Ahead(c, s), s)) && Ahead(c, s) <= c
  {
    hide LooksLikeHttp, MessageEnd;
    NothingFramed();
    if s != [] && LooksLikeHttp(s) {
      hide *;
      ServerFirst(save, maxRes, s, later);
    } else {
      LookAhead(c);
      NoLine(c[..4]);
      assert |c[..4]| <= |c|;
      hide *;
      ClientAhead(save, maxRes, c[..4], s, later);
    }
  }

  lemma ServerFirst(save: SaveOracle, maxRes: nat, s: bytes, later: seq<Segment>)
    requires s != [] && LooksLikeHttp(s) && |s| <= Limit(maxRes)
    ensures FeedAll(save, maxRes, NEW_STREAM, [Segment(s, false)] + later) ==
      FeedAll(save, maxRes, Loaded([], s), later)
  {
    hide LooksLikeHttp, Limit, MessageEnd, FeedAll;
    NothingFramed();
    var segs := [Segment(s, false)] + later;
    StartAccepted(save, maxRes, segs);
    assert [] + s == s && Grown(ACCEPTED, segs[0]) == Loaded([], s);
    HoldsMore(save, maxRes, ACCEPTED, segs);
    assert segs[1..] == later;
  }

  lemma ClientAhead(save: SaveOracle, maxRes: nat, ahead: bytes, s: bytes, later: seq<Segment>)
    requires LooksLikeHttp(ahead) && MessageEnd(ahead) < 0 && |ahead| <= Limit(maxRes) && |s| <= Limit(maxRes)
    ensures FeedAll(save, maxRes, NEW_STREAM,
                    [Segment(ahead, true)] + (if s == [] then [] else [Segment(s, false)]) + later) ==
      FeedAll(save, maxRes, Loaded(ahead, s), later)
  {
    hide LooksLikeHttp, Limit, MessageEnd, FeedAll;
    var rest := (if s == [] then [] else [Segment(s, false)]) + later;
    var segs := [Segment(ahead, true)] + rest;
    assert [Segment(ahead, true)] + (if s == [] then [] else [Segment(s, false)]) + later == segs;
    StartAccepted(save, maxRes, segs);
    assert [] + ahead == ahead && Grown(ACCEPTED, segs[0]) == Loaded(ahead, []);
    HoldsMore(save, maxRes, ACCEPTED, segs);
    assert segs[1..] == rest;
    if s == [] {
      assert rest == later;
    } else {
      assert [] + s == s && Grown(Loaded(ahead, []), rest[0]) == Loaded(ahead, s);
      HoldsMore(save, maxRes, Loaded(ahead, []), rest);
      assert rest[1..] == later;
    }
  }

  /** A segment that completes no message is only held. */
  lemma HoldsMore(save: SaveOracle, maxRes: nat, st: State, segs: seq<Segment>)
    requires segs != [] && st.firstData && Live(st) && st.pending.None?
    requires var grown := Grown(st, segs[0]);
      MessageEnd(grown.client) < 0 && |grown.client| <= Limit(maxRes) && |grown.server| <= Limit(maxRes)
    ensures FeedAll(save, maxRes, st, segs) == FeedAll(save, maxRes, Grown(st, segs[0]), segs[1..])
  {
    hide Extract, Limit, MessageEnd, Feed;
    FeedNoCut(save, maxRes, st, segs[0]);
    DrainedRests(save, Grown(st, segs[0]));
  }

  /** The rest of the client stream at once. */
  function AtOnce(c: bytes, s: bytes): seq<Segment>
    requires Recognised(c, s) && Ahead(c, s) < c
  {
    Opening(c, s) + [Segment(c[|Ahead(c, s)|..], true)]
  }

  /** The rest of the client stream byte by byte. */
  function ByBytes(c: bytes, s: bytes): seq<Segment>
    requires Recognised(c, s) && Ahead(c, s) < c
  {
    Opening(c, s) + EachByte(c[|Ahead(c, s)|..])
  }

  lemma {:induction false} SentJoins(a: seq<Segment>, b: seq<Segment>, toServer: bool)
    ensures Sent(a + b, toServer) == Sent(a, toServer) + Sent(b, toServer)
    decreases |a|
  {
    if a == [] {
      assert a + b == b;
    } else {
      SentFirst(a, toServer);
      SentFirst(a + b, toServer);
      hide Sent;
      assert (a + b)[1..] == a[1..] + b;
      SentJoins(a[1..], b, toServer);
      Regroup(if a[0].toServer == toServer then a[0].data else [], Sent(a[1..], toServer), Sent(b, toServer));
    }
  }

  lemma SentOne(seg: Segment, toServer: bool)
    ensures Sent([seg], toServer) == if seg.toServer == toServer then seg.data else []
  {
    assert [seg][1..] == [];
  }

  lemma OpeningSent(c: bytes, s: bytes)
    requires Recognised(c, s)
    ensures var segs := Opening(c, s);
      && Sent(segs, true) == Ahead(c, s) && Sent(segs, false) == s
      && segs != [] && LooksLikeHttp(segs[0].data) && (forall i :: 0 <= i < |segs| ==> segs[i].data != [])
  {
    hide LooksLikeHttp, Sent;
    var segs := Opening(c, s);
    if s != [] && LooksLikeHttp(s) {
      SentOne(segs[0], true);
      SentOne(segs[0], false);
    } else {
      LookAhead(c);
      var rest := if s == [] then [] else [Segment(s, false)];
      SentOne(segs[0], true);
      SentOne(segs[0], false);
      SentOne(Segment(s, false), true);
      SentOne(Segment(s, false), false);
      SentJoins([segs[0]], rest, true);
      SentJoins([segs[0]], rest, false);
      SentNone();
    }
  }

  lemma SentNone()
    ensures Sent([], true) == [] && Sent([], false) == []
  {
  }

  /** The opening and then segments that carry the rest of the client stream are a cutting. */
  lemma OpeningCuts(c: bytes, s: bytes, later: seq<Segment>)
    requires Recognised(c, s) && Ahead(c, s) <= c
    requires Sent(later, true) == c[|Ahead(c, s)|..] && Sent(later, false) == []
    requires forall i :: 0 <= i < |later| ==> later[i].data != []
    ensures Cutting(Opening(c, s) + later, c, s)
  {
    hide *;
    OpeningSent(c, s);
    assert Ahead(c, s) + c[|Ahead(c, s)|..] == c && s + [] == s;
    JoinCuts(Opening(c, s), later, c, s);
  }

  lemma JoinCuts(opening: seq<Segment>, later: seq<Segment>, c: bytes, s: bytes)
    requires opening != [] && LooksLikeHttp(opening[0].data)
    requires Sent(opening, true) + Sent(later, true) == c && Sent(opening, false) + Sent(later, false) == s
    requires forall i :: 0 <= i < |opening| ==> opening[i].data != []
    requires forall i :: 0 <= i < |later| ==> later[i].data != []
    ensures Cutting(opening + later, c, s)
  {
    hide LooksLikeHttp, Sent;
    SentJoins(opening, later, true);
    SentJoins(opening, later, false);
  }

  /** Sent at once, all the bytes are extracted from once. */
  lemma AtOnceExtracts(save: SaveOracle, maxRes: nat, c: bytes, s: bytes)
    requires Wellformed(maxRes, c, s) && Recognised(c, s) && Ahead(c, s) < c
    ensures Cutting(AtOnce(c, s), c, s)
    ensures FeedAll(save, maxRes, NEW_STREAM, AtOnce(c, s)) == Extract(save, Loaded(c, s))
  {
    hide LooksLikeHttp, Sent, Opening, Ahead, ClientClean, ServerOk, Limit, Extract, Cutting, FeedAll;
    var rest := c[|Ahead(c, s)|..];
    var later := [Segment(rest, true)];
    SentOne(later[0], true);
    SentOne(later[0], false);
    OpeningCuts(c, s, later);
    OpeningHolds(save, maxRes, c, s, later);
    assert Ahead(c, s) + rest == c && s + [] == s;
    OneSegment(save, maxRes, Loaded(Ahead(c, s), s), later[0]);
  }

  lemma OneSegment(save: SaveOracle, maxRes: nat, st: State, seg: Segment)
    requires st.firstData && Live(st)
    requires |Grown(st, seg).client| <= Limit(maxRes) && |Grown(st, seg).server| <= Limit(maxRes)
    ensures FeedAll(save, maxRes, st, [seg]) == Extract(save, Grown(st, seg))
  {
    hide Limit, Extract, Feed;
    FeedNoCut(save, maxRes, st, seg);
    assert [seg][1..] == [];
  }

  /** Sent byte by byte, nothing stalls. */
  lemma ByBytesDrains(save: SaveOracle, maxRes: nat, c: bytes, s: bytes)
    requires Wellformed(maxRes, c, s) && Recognised(c, s) && Ahead(c, s) < c
    ensures Cutting(ByBytes(c, s), c, s)
    ensures Drained(save, FeedAll(save, maxRes, NEW_STREAM, ByBytes(c, s)))
  {
    hide LooksLikeHttp, Sent, Opening, Ahead, ClientClean, ServerOk, Limit, Extract, Cutting, Drained, FeedAll, EachByte;
    var rest := c[|Ahead(c, s)|..];
    EachByteSent(rest);
    OpeningCuts(c, s, EachByte(rest));
    OpeningHolds(save, maxRes, c, s, EachByte(rest));
    var held := Loaded(Ahead(c, s), s);
    assert Ahead(c, s) + rest == c && s + [] == s;
    EachByteDrains(save, maxRes, held, rest);
  }

  /** At once, nothing behind an unreadable message is emitted. */
  lemma AtOnceStops(save: SaveOracle, maxRes: nat, c: bytes, s: bytes)
    requires Wellformed(maxRes, c, s) && Recognised(c, s) && Ahead(c, s) < c
    ensures |FeedAll(save, maxRes, NEW_STREAM, AtOnce(c, s)).log| <= |Requests(c)|
  {
    hide ClientClean, ServerOk, Limit, Extract, FeedAll, AtOnce, Recognised, Ahead, Fine, Due, Lead, Open;
    AtOnceExtracts(save, maxRes, c, s);
    LoadedFine(c, s);
    ExtractKeeps(save, Loaded(c, s));
  }

  /** Byte by byte, every pair is emitted. */
  lemma ByBytesEmitsAll(save: SaveOracle, maxRes: nat, c: bytes, s: bytes)
    requires Wellformed(maxRes, c, s) && Recognised(c, s) && Ahead(c, s) < c
    ensures FeedAll(save, maxRes, NEW_STREAM, ByBytes(c, s)).log == Full(c, s)
  {
    hide FeedAll, ByBytes, Recognised, Ahead, Kicks, Full, Drained, Fine, Due, Cutting, Wellformed, ClientClean, ServerOk;
    ByBytesDrains(save, maxRes, c, s);
    var n := CutKicks(save, maxRes, c, s, ByBytes(c, s));
    assert ClientClean(c) && ServerOk(s) by { WellformedBytes(maxRes, c, s); }
    LoadedFine(c, s);
    KicksKeep(save, Loaded(c, s), n);
    DrainedEmits(save, Kicks(save, Loaded(c, s), n));
  }

  lemma WellformedBytes(maxRes: nat, c: bytes, s: bytes)
    requires Wellformed(maxRes, c, s)
    ensures ClientClean(c) && ServerOk(s)
  {
  }

  lemma DrainedEmits(save: SaveOracle, st: State)
    requires Fine(st, [], []) && Drained(save, st)
    ensures Due(st) == st.log
  {
    hide TakeResponse, ClientClean, ServerOk, AllRequests, Finals, MessageEnd;
    if st.pending.Some? {
      BlockedEmits(save, st);
    } else {
      NoRequest(st);
      assert Open(st) == [];
    }
  }

  // ---- Main result ----

  /** Every cutting of the two byte streams emits the same before the close. */
  ghost predicate OneLog(save: SaveOracle, maxRes: nat, c: bytes, s: bytes) {
    forall a: seq<Segment>, b: seq<Segment> :: Cutting(a, c, s) && Cutting(b, c, s) ==>
      FeedAll(save, maxRes, NEW_STREAM, a).log == FeedAll(save, maxRes, NEW_STREAM, b).log
  }

  /** No readable request behind an unreadable message has a final response left for it. */
  predicate NothingBehind(c: bytes, s: bytes) {
    |AllRequests(c)| <= |Requests(c)| || |Finals(s)| <= |Requests(c)|
  }

  /**
   Before the close all cuttings agree exactly when nothing behind an unreadable message could be paired; then all emit
   every pair.
   */
  lemma CutsAgreeIff(save: SaveOracle, maxRes: nat, c: bytes, s: bytes)
    requires Wellformed(maxRes, c, s)
    ensures OneLog(save, maxRes, c, s) <==> NothingBehind(c, s)
    ensures NothingBehind(c, s) ==>
      forall a: seq<Segment> :: Cutting(a, c, s) ==> FeedAll(save, maxRes, NEW_STREAM, a).log == Full(c, s)
  {
    hide FeedAll, Wellformed, AllRequests, Finals, Requests, Cutting, AtOnce, ByBytes;
    PairedAt(AllRequests(c), Finals(s));
    if NothingBehind(c, s) {
      forall a | Cutting(a, c, s)
        ensures FeedAll(save, maxRes, NEW_STREAM, a).log == Full(c, s)
      {
        CutEmits(save, maxRes, c, s, a);
      }
    } else {
      SomethingThere(c, s);
      AtOnceStops(save, maxRes, c, s);
      AtOnceExtracts(save, maxRes, c, s);
      ByBytesDrains(save, maxRes, c, s);
      ByBytesEmitsAll(save, maxRes, c, s);
    }
  }

  lemma SomethingThere(c: bytes, s: bytes)
    requires !NothingBehind(c, s)
    ensures Recognised(c, s) && Ahead(c, s) < c
  {
    hide Requests;
    NothingFramed();
  }
}
