/** Whole runs of the flow table: its bound, and where every request parsed on any flow is. */
module FlowRuns {
  import opened Bytes
  import opened HttpSyntax
  import opened TcpStream
  import opened Conservation
  import opened FlowKey
  import opened FlowTable

  datatype Config = Config(table: Table, ended: seq<State>)

  /** Exactly the flows idle since `cutoff`, and those that are not HTTP, have been closed. */
  predicate Swept(save: SaveOracle, c: Config, d: Config, order: seq<string>, cutoff: nat) {
    && Closes(save, c.table, c.ended, d.table, d.ended, order)
    && forall k :: k in c.table ==> (k in order <==> Expired(c.table[k], cutoff))
  }

  ghost predicate Moves(save: SaveOracle, maxRes: nat, maxStreams: nat, c: Config, d: Config) {
    || (exists p: Packet, now: nat, evicted: Option<string> ::
          Handled(save, maxRes, maxStreams, c.table, c.ended, d.table, d.ended, Key(p.src, p.dst), p, now, evicted))
    || (exists order: seq<string>, cutoff: nat :: Swept(save, c, d, order, cutoff))
    || (d.table == map[] && exists order: seq<string> :: Closes(save, c.table, c.ended, d.table, d.ended, order))
  }

  ghost predicate Run(save: SaveOracle, maxRes: nat, maxStreams: nat, configs: seq<Config>) {
    && configs != [] && configs[0] == Config(map[], [])
    && forall i, j :: 0 <= i < j < |configs| && j == i + 1 ==> Moves(save, maxRes, maxStreams, configs[i], configs[j])
  }

  // ---- What holds of every flow ----

  /** A flow's stream accounts for its requests, and loses at its close only what its close says. */
  predicate Good(save: SaveOracle, s: State) {
    Conserved(save, s) && Steady(s)
  }

  /** A stream that has left the table holds back a request only if it was an event stream. */
  predicate Ended(save: SaveOracle, s: State) {
    Conserved(save, s) && (s.pending.Some? ==> s.ssePending)
  }

  predicate Sound(save: SaveOracle, maxStreams: nat, c: Config) {
    && |c.table| <= maxStreams
    && AllGood(save, c.table)
    && AllEnded(save, c.ended)
  }

  predicate AllGood(save: SaveOracle, t: Table) {
    forall k :: k in t ==> Good(save, t[k].stream)
  }

  predicate AllEnded(save: SaveOracle, ended: seq<State>) {
    forall s :: s in ended ==> Ended(save, s)
  }

  lemma ClosedEnds(save: SaveOracle, s: State)
    requires Good(save, s)
    ensures Ended(save, CloseStream(save, s))
  {
    hide CloseStream, Conserved;
    CloseLosesIff(save, s);
    StreamCloseConserves(save, s);
  }

  lemma AdvancedGood(save: SaveOracle, maxRes: nat, flow: Flow, p: Packet, now: nat)
    requires Good(save, flow.stream)
    ensures Good(save, Advanced(save, maxRes, flow, p, now).stream)
  {
    hide Conserved, Steady, Feed;
    FeedConserves(save, maxRes, flow.stream, p.payload, FromClient(p, flow.clientPort));
    FeedSteady(save, maxRes, flow.stream, p.payload, FromClient(p, flow.clientPort));
  }

  lemma NewGood(save: SaveOracle)
    ensures Good(save, NEW_STREAM)
  {
    NewConserved(save);
    NewSteady();
  }

  lemma KeepsSize(kept: Table, key: string, flow: Flow, maxStreams: nat)
    requires |kept| <= maxStreams && (key !in kept ==> |kept| < maxStreams)
    ensures |kept[key := flow]| <= maxStreams && |kept - {key}| <= maxStreams
  {
    assert kept[key := flow].Keys == kept.Keys + {key};
    if key in kept {
      RemoveOne(kept, key);
      assert kept.Keys + {key} == kept.Keys;
    } else {
      assert kept - {key} == kept;
    }
  }

  lemma PutKeeps(save: SaveOracle, t: Table, key: string, flow: Flow)
    requires AllGood(save, t) && Good(save, flow.stream)
    ensures AllGood(save, t[key := flow]) && AllGood(save, t - {key})
  {
    hide Good;
  }

  lemma EndedMore(save: SaveOracle, ended: seq<State>, s: State)
    requires AllEnded(save, ended) && Ended(save, s)
    ensures AllEnded(save, ended + [s])
  {
    hide Ended;
  }

  lemma HandledTable(save: SaveOracle, maxRes: nat, maxStreams: nat, c: Config, d: Config,
                     key: string, p: Packet, now: nat, evicted: Option<string>)
    requires maxStreams >= 1 && Sound(save, maxStreams, c)
    requires Handled(save, maxRes, maxStreams, c.table, c.ended, d.table, d.ended, key, p, now, evicted)
    ensures |d.table| <= maxStreams && AllGood(save, d.table)
  {
    OldestIn(c.table, evicted);
    assert key in c.table ==> Good(save, c.table[key].stream);
    hide CloseStream, Advanced, Good, AllEnded, Oldest, GuessedClient, AllGood;
    var found := if key in c.table then c.table[key] else Flow(now, GuessedClient(p), NEW_STREAM);
    var kept := if evicted.Some? then c.table - {evicted.value} else c.table;
    NewGood(save);
    AdvancedGood(save, maxRes, found, p, now);
    if evicted.Some? {
      RemoveOne(c.table, evicted.value);
      PutKeeps(save, c.table, evicted.value, c.table[evicted.value]);
    }
    PutKeeps(save, kept, key, Advanced(save, maxRes, found, p, now));
    KeepsSize(kept, key, Advanced(save, maxRes, found, p, now), maxStreams);
  }

  lemma HandledEnded(save: SaveOracle, maxRes: nat, maxStreams: nat, c: Config, d: Config,
                     key: string, p: Packet, now: nat, evicted: Option<string>)
    requires maxStreams >= 1 && Sound(save, maxStreams, c)
    requires Handled(save, maxRes, maxStreams, c.table, c.ended, d.table, d.ended, key, p, now, evicted)
    ensures AllEnded(save, d.ended) && c.ended <= d.ended
  {
    OldestIn(c.table, evicted);
    assert evicted.Some? ==> Good(save, c.table[evicted.value].stream);
    assert key in c.table ==> Good(save, c.table[key].stream);
    hide CloseStream, Advanced, Good, Ended, Oldest, GuessedClient, AllGood, AllEnded;
    var found := if key in c.table then c.table[key] else Flow(now, GuessedClient(p), NEW_STREAM);
    var flow := Advanced(save, maxRes, found, p, now);
    NewGood(save);
    AdvancedGood(save, maxRes, found, p, now);
    ClosedEnds(save, flow.stream);
    var gone := if evicted.Some? then [CloseStream(save, c.table[evicted.value].stream)] else [];
    if evicted.Some? {
      ClosedEnds(save, c.table[evicted.value].stream);
      EndedMore(save, c.ended, CloseStream(save, c.table[evicted.value].stream));
    }
    assert c.ended + [] == c.ended && c.ended + gone + [] == c.ended + gone;
    EndedMore(save, c.ended + gone, CloseStream(save, flow.stream));
  }

  lemma OldestIn(t: Table, k: Option<string>)
    requires k.Some? ==> Oldest(t, k.value)
    ensures k.Some? ==> k.value in t
  {
  }

  lemma ClosesSound(save: SaveOracle, maxStreams: nat, c: Config, d: Config, order: seq<string>)
    requires Sound(save, maxStreams, c) && Closes(save, c.table, c.ended, d.table, d.ended, order)
    ensures Sound(save, maxStreams, d) && c.ended <= d.ended
  {
    hide CloseStream, Good, Ended;
    ClosingsEnd(save, c.table, order);
    SubsetSize(d.table.Keys, c.table.Keys);
  }

  lemma {:induction false} ClosingsEnd(save: SaveOracle, t: Table, order: seq<string>)
    requires (forall k :: k in order ==> k in t) && forall k :: k in t ==> Good(save, t[k].stream)
    ensures forall s :: s in Closings(save, t, order) ==> Ended(save, s)
  {
    hide CloseStream, Good, Ended;
    if order == [] {
    } else {
      var last := |order| - 1;
      ClosingsEnd(save, t, order[..last]);
      ClosedEnds(save, t[order[last]].stream);
    }
  }

  lemma SubsetSize(a: set<string>, b: set<string>)
    requires a <= b
    ensures |a| <= |b|
  {
    assert b == a + (b - a);
  }

  // ---- Sums over all flows ----

  type Weight = State -> nat

  ghost function TableSum(t: Table, w: Weight): nat
    decreases |t|
  {
    if t == map[] then 0
    else
      var k :| k in t;
      RemoveOne(t, k);
      w(t[k].stream) + TableSum(t - {k}, w)
  }

  function ListSum(l: seq<State>, w: Weight): nat {
    if l == [] then 0 else ListSum(l[..|l| - 1], w) + w(l[|l| - 1])
  }

  /** Over every flow there is or was. */
  ghost function Total(c: Config, w: Weight): nat {
    TableSum(c.table, w) + ListSum(c.ended, w)
  }

  lemma {:induction false} SumRemove(t: Table, w: Weight, k: string)
    requires k in t
    ensures TableSum(t, w) == w(t[k].stream) + TableSum(t - {k}, w)
    decreases |t|
  {
    var j :| j in t && TableSum(t, w) == w(t[j].stream) + TableSum(t - {j}, w);
    if j != k {
      RemoveOne(t, j);
      RemoveOne(t, k);
      SumRemove(t - {j}, w, k);
      SumRemove(t - {k}, w, j);
      assert t - {j} - {k} == t - {k} - {j};
    }
  }

  lemma SumPut(t: Table, w: Weight, k: string, f: Flow)
    ensures TableSum(t[k := f], w) == w(f.stream) + TableSum(t - {k}, w)
  {
    SumRemove(t[k := f], w, k);
    assert t[k := f] - {k} == t - {k};
  }

  lemma SumWithout(t: Table, w: Weight, k: string)
    ensures TableSum(t, w) == TableSum(t - {k}, w) + if k in t then w(t[k].stream) else 0
  {
    if k in t {
      SumRemove(t, w, k);
    } else {
      assert t - {k} == t;
    }
  }

  lemma {:induction false} ListSumOf(a: seq<State>, b: seq<State>, w: Weight)
    ensures ListSum(a + b, w) == ListSum(a, w) + ListSum(b, w)
    decreases |b|
  {
    if b == [] {
      assert a + b == a;
    } else {
      assert (a + b)[..|a + b| - 1] == a + b[..|b| - 1];
      ListSumOf(a, b[..|b| - 1], w);
    }
  }

  lemma ListSumOne(s: State, w: Weight)
    ensures ListSum([s], w) == w(s) && ListSum([], w) == 0
  {
    assert [s][..0] == [];
  }

  /** A weight that neither feeding nor closing a stream lowers. */
  ghost predicate Rises(save: SaveOracle, maxRes: nat, w: Weight) {
    && (forall s: State, data: bytes, toServer: bool :: w(s) <= w(Feed(save, maxRes, s, data, toServer)))
    && forall s: State :: w(s) <= w(CloseStream(save, s))
  }

  lemma HandledRises(save: SaveOracle, maxRes: nat, maxStreams: nat, c: Config, d: Config,
                     key: string, p: Packet, now: nat, evicted: Option<string>, w: Weight)
    requires Handled(save, maxRes, maxStreams, c.table, c.ended, d.table, d.ended, key, p, now, evicted)
    requires Rises(save, maxRes, w)
    ensures Total(c, w) <= Total(d, w)
  {
    hide CloseStream, Feed, Oldest, GuessedClient, FromClient, ClientPort, TableSum, ListSum;
    OldestIn(c.table, evicted);
    var found := if key in c.table then c.table[key] else Flow(now, GuessedClient(p), NEW_STREAM);
    var flow := Advanced(save, maxRes, found, p, now);
    assert w(found.stream) <= w(flow.stream);
    hide Advanced;
    var kept := if evicted.Some? then c.table - {evicted.value} else c.table;
    var gone := if evicted.Some? then [CloseStream(save, c.table[evicted.value].stream)] else [];
    var closed := CloseStream(save, flow.stream);
    if evicted.Some? {
      SumRemove(c.table, w, evicted.value);
      ListSumOne(CloseStream(save, c.table[evicted.value].stream), w);
    }
    ListSumOne(closed, w);
    SumWithout(kept, w, key);
    SumPut(kept, w, key, flow);
    ListSumOf(c.ended, gone, w);
    ListSumOf(c.ended + gone, if p.ends then [closed] else [], w);
  }

  lemma ClosesRises(save: SaveOracle, maxRes: nat, c: Config, d: Config, order: seq<string>, w: Weight)
    requires Closes(save, c.table, c.ended, d.table, d.ended, order) && Rises(save, maxRes, w)
    ensures Total(c, w) <= Total(d, w)
  {
    hide CloseStream, Feed, TableSum, ListSum;
    ListSumOf(c.ended, Closings(save, c.table, order), w);
    ClosingsRise(save, maxRes, c.table, order, w);
  }

  lemma {:induction false} ClosingsRise(save: SaveOracle, maxRes: nat, t: Table, order: seq<string>, w: Weight)
    requires NoneTwice(order) && (forall k :: k in order ==> k in t) && Rises(save, maxRes, w)
    ensures TableSum(t, w) <= TableSum(Without(t, order), w) + ListSum(Closings(save, t, order), w)
  {
    hide CloseStream, Feed, TableSum, ListSum;
    if order == [] {
      assert Without(t, order) == t;
    } else {
      var last := |order| - 1;
      var before, k := order[..last], order[last];
      ClosingsRise(save, maxRes, t, before, w);
      assert order == before + [k];
      assert k !in before;
      assert Without(t, order) == Without(t, before) - {k};
      SumRemove(Without(t, before), w, k);
      ListSumOf(Closings(save, t, before), [CloseStream(save, t[k].stream)], w);
      ListSumOne(CloseStream(save, t[k].stream), w);
    }
  }

  // ---- Requests, counted over all flows ----

  /** How often `x` was parsed on a stream. */
  function ParsedAs(x: Request): Weight {
    (s: State) => multiset(s.parsed)[x]
  }

  /** How often its record has left a stream. */
  function RecordedAs(x: Request): Weight {
    (s: State) => multiset(Recorded(s.log))[x]
  }

  /** How often it was dropped there because the save of its event stream failed. */
  function UnsavedAs(x: Request): Weight {
    (s: State) => multiset(Unsaved(s.log))[x]
  }

  /** Whether it still waits for its response there. */
  function WaitingAs(x: Request): Weight {
    (s: State) => multiset(Waiting(s))[x]
  }

  lemma PrefixCounts(a: seq<Request>, b: seq<Request>, x: Request)
    requires a <= b
    ensures multiset(a)[x] <= multiset(b)[x]
  {
    assert b == a + b[|a|..];
  }

  lemma ParsedRises(save: SaveOracle, maxRes: nat, x: Request)
    ensures Rises(save, maxRes, ParsedAs(x))
  {
    hide Feed, Close;
    forall s: State, data: bytes, toServer: bool
      ensures ParsedAs(x)(s) <= ParsedAs(x)(Feed(save, maxRes, s, data, toServer))
    {
      FeedGrows(save, maxRes, s, data, toServer);
      PrefixCounts(s.parsed, Feed(save, maxRes, s, data, toServer).parsed, x);
    }
    forall s: State
      ensures ParsedAs(x)(s) <= ParsedAs(x)(CloseStream(save, s))
    {
      CloseGrows(save, s);
      PrefixCounts(s.parsed, CloseStream(save, s).parsed, x);
    }
  }

  lemma OneBalances(save: SaveOracle, s: State, x: Request)
    requires Conserved(save, s)
    ensures ParsedAs(x)(s) == RecordedAs(x)(s) + UnsavedAs(x)(s) + WaitingAs(x)(s)
  {
    hide Recorded, Unsaved, Failures;
  }

  lemma {:induction false} TableBalances(save: SaveOracle, t: Table, x: Request)
    requires AllGood(save, t)
    ensures TableSum(t, ParsedAs(x)) ==
      TableSum(t, RecordedAs(x)) + TableSum(t, UnsavedAs(x)) + TableSum(t, WaitingAs(x))
    decreases |t|
  {
    hide Steady, ParsedAs, RecordedAs, UnsavedAs, WaitingAs;
    if t == map[] {
    } else {
      var k :| k in t;
      RemoveOne(t, k);
      OneBalances(save, t[k].stream, x);
      hide Good, Conserved, TableSum;
      TableBalances(save, t - {k}, x);
      SumRemove(t, ParsedAs(x), k);
      SumRemove(t, RecordedAs(x), k);
      SumRemove(t, UnsavedAs(x), k);
      SumRemove(t, WaitingAs(x), k);
    }
  }

  lemma {:induction false} ListBalances(save: SaveOracle, l: seq<State>, x: Request)
    requires AllEnded(save, l)
    ensures ListSum(l, ParsedAs(x)) ==
      ListSum(l, RecordedAs(x)) + ListSum(l, UnsavedAs(x)) + ListSum(l, WaitingAs(x))
  {
    hide ParsedAs, RecordedAs, UnsavedAs, WaitingAs, Conserved;
    if l == [] {
    } else {
      assert Ended(save, l[|l| - 1]);
      ListBalances(save, l[..|l| - 1], x);
      OneBalances(save, l[|l| - 1], x);
    }
  }

  // ---- Main results ----

  lemma MoveKeeps(save: SaveOracle, maxRes: nat, maxStreams: nat, c: Config, d: Config, x: Request)
    requires maxStreams >= 1 && Sound(save, maxStreams, c) && Moves(save, maxRes, maxStreams, c, d)
    ensures Sound(save, maxStreams, d) && c.ended <= d.ended
    ensures Total(c, ParsedAs(x)) <= Total(d, ParsedAs(x))
  {
    hide Handled, Closes, Total, Rises, ParsedAs, AllGood, AllEnded;
    ParsedRises(save, maxRes, x);
    if p: Packet, now: nat, evicted: Option<string> :|
         Handled(save, maxRes, maxStreams, c.table, c.ended, d.table, d.ended, Key(p.src, p.dst), p, now, evicted) {
      HandledTable(save, maxRes, maxStreams, c, d, Key(p.src, p.dst), p, now, evicted);
      HandledEnded(save, maxRes, maxStreams, c, d, Key(p.src, p.dst), p, now, evicted);
      HandledRises(save, maxRes, maxStreams, c, d, Key(p.src, p.dst), p, now, evicted, ParsedAs(x));
    } else {
      var order :| Closes(save, c.table, c.ended, d.table, d.ended, order);
      ClosesSound(save, maxStreams, c, d, order);
      ClosesRises(save, maxRes, c, d, order, ParsedAs(x));
    }
  }

  lemma RunMoves(save: SaveOracle, maxRes: nat, maxStreams: nat, configs: seq<Config>, j: nat)
    requires Run(save, maxRes, maxStreams, configs) && 0 < j < |configs|
    ensures Moves(save, maxRes, maxStreams, configs[j - 1], configs[j])
  {
    hide Moves;
  }

  /** In every run the table stays within its bound, every flow in it is good, and every ended one has ended well. */
  lemma {:induction false} RunSound(save: SaveOracle, maxRes: nat, maxStreams: nat, configs: seq<Config>, j: nat)
    requires maxStreams >= 1 && Run(save, maxRes, maxStreams, configs) && j < |configs|
    ensures Sound(save, maxStreams, configs[j])
  {
    if j == 0 {
    } else {
      RunSound(save, maxRes, maxStreams, configs, j - 1);
      RunMoves(save, maxRes, maxStreams, configs, j);
      hide Sound, Moves, Run;
      var x :| true;
      MoveKeeps(save, maxRes, maxStreams, configs[j - 1], configs[j], x);
    }
  }

  /** What has been parsed by some moment, and which streams have ended, still counts at every later one. */
  lemma {:induction false} RunForgetsNothing(save: SaveOracle, maxRes: nat, maxStreams: nat, configs: seq<Config>,
                                             i: nat, j: nat, x: Request)
    requires maxStreams >= 1 && Run(save, maxRes, maxStreams, configs) && i <= j < |configs|
    ensures configs[i].ended <= configs[j].ended
    ensures Total(configs[i], ParsedAs(x)) <= Total(configs[j], ParsedAs(x))
    decreases j
  {
    hide Run, Moves, Sound, Total, ParsedAs;
    if i == j {
    } else {
      RunForgetsNothing(save, maxRes, maxStreams, configs, i, j - 1, x);
      RunSound(save, maxRes, maxStreams, configs, j - 1);
      RunMoves(save, maxRes, maxStreams, configs, j);
      MoveKeeps(save, maxRes, maxStreams, configs[j - 1], configs[j], x);
    }
  }

  /**
   Every request parsed on any flow by the moment `i` is, at any later one, recorded, or lost to a failed save, or waiting
   on a flow of the table, or lost on an event stream that has ended: as often as it was parsed, and nowhere else.
   */
  lemma EveryRequestAccounted(save: SaveOracle, maxRes: nat, maxStreams: nat, configs: seq<Config>,
                              i: nat, j: nat, x: Request)
    requires maxStreams >= 1 && Run(save, maxRes, maxStreams, configs) && i <= j < |configs|
    ensures var c := configs[j];
      && |c.table| <= maxStreams
      && Total(configs[i], ParsedAs(x)) <= Total(c, ParsedAs(x))
      && Total(c, ParsedAs(x)) ==
           Total(c, RecordedAs(x)) + Total(c, UnsavedAs(x))
           + TableSum(c.table, WaitingAs(x)) + ListSum(c.ended, WaitingAs(x))
      && forall s :: s in c.ended && s.pending.Some? ==> s.ssePending
  {
    RunForgetsNothing(save, maxRes, maxStreams, configs, i, j, x);
    RunSound(save, maxRes, maxStreams, configs, j);
    TableBalances(save, configs[j].table, x);
    ListBalances(save, configs[j].ended, x);
  }

  /** On every stream there is or was, a request is lost to a save exactly for each save that failed: at most one. */
  lemma SavesLose(save: SaveOracle, maxRes: nat, maxStreams: nat, configs: seq<Config>, j: nat)
    requires maxStreams >= 1 && Run(save, maxRes, maxStreams, configs) && j < |configs|
    ensures forall k :: k in configs[j].table ==>
      var s := configs[j].table[k].stream; |Unsaved(s.log)| == Failures(save, s.saves) <= 1
    ensures forall s :: s in configs[j].ended ==> |Unsaved(s.log)| == Failures(save, s.saves) <= 1
  {
    hide Run, Unsaved, Failures, Steady;
    RunSound(save, maxRes, maxStreams, configs, j);
    assert forall k :: k in configs[j].table ==> Good(save, configs[j].table[k].stream);
    assert forall s :: s in configs[j].ended ==> Ended(save, s);
  }

  /**
   Ending a flow of the table, at any moment of a run, loses a request in exactly two cases: an event stream still waits
   for one, or the extraction with which an HTTP stream is closed meets a save that fails.
   */
  lemma TableLosesIff(save: SaveOracle, maxRes: nat, maxStreams: nat, configs: seq<Config>, j: nat, k: string)
    requires maxStreams >= 1 && Run(save, maxRes, maxStreams, configs) && j < |configs| && k in configs[j].table
    ensures var st := configs[j].table[k].stream;
      var closed := CloseStream(save, st);
      && Waiting(closed) == (if st.ssePending then Waiting(st) else [])
      && |Unsaved(closed.log)| ==
           |Unsaved(st.log)| + (if !st.nonHttp && !st.ssePending && Extract(save, st).nonHttp then 1 else 0)
      && closed.parsed == Recorded(closed.log) + Unsaved(closed.log) + Waiting(closed)
  {
    hide Run, CloseStream, Recorded, Unsaved, Failures, Extract, Steady;
    RunSound(save, maxRes, maxStreams, configs, j);
    var st := configs[j].table[k].stream;
    assert Good(save, st);
    CloseLosesIff(save, st);
    CloseUnsavedIff(save, st);
    StreamCloseConserves(save, st);
  }
}
