/** The asynchronous writer pool of internal/capture/memring.go: one flush, and all flushes together. */
module AsyncWriter {
  import opened Bytes
  import opened MemRing

  const CHUNK: nat := 500
  const ATTEMPTS: nat := 3

  /**
   What the store and the clock answer: SaveBatch of the chunk at record `i` on the given attempt, whether the stop
   signal cuts the wait after it, the row ids a committed batch gives, and the single saves.
   */
  datatype Store = Store(
    batchOk: (nat, nat) -> bool,
    stopSeen: (nat, nat) -> bool,
    rowId: nat -> int,
    single: nat -> Option<int>)

  /** Whether some attempt from `attempt` on commits the chunk at `i`. */
  predicate Commits(store: Store, i: nat, attempt: nat)
    decreases ATTEMPTS - attempt
  {
    attempt < ATTEMPTS &&
    (store.batchOk(i, attempt)
     || (!(attempt < ATTEMPTS - 1 && store.stopSeen(i, attempt)) && Commits(store, i, attempt + 1)))
  }

  /** The id that record `j` ends with, if it is saved: from its chunk's commit, else from its single save. */
  function IdOf(store: Store, j: nat): Option<int> {
    if Commits(store, j - j % CHUNK, 0) then Some(store.rowId(j)) else store.single(j)
  }

  function Saved(store: Store, n: nat): (s: seq<nat>)
    ensures forall j :: j in s ==> j < n
  {
    if n == 0 then [] else Saved(store, n - 1) + if IdOf(store, n - 1).Some? then [n - 1] else []
  }

  function Announced(store: Store, n: nat): (s: seq<nat>)
    ensures forall j :: j in s ==> j < n
  {
    if n == 0 then []
    else Announced(store, n - 1) + if IdOf(store, n - 1).Some? && IdOf(store, n - 1).value > 0 then [n - 1] else []
  }

  class Flush {
    const store: Store
    var ids: array<Option<int>>
    var written: nat
    /** Records committed to the store, and records broadcast, in order. */
    var committed: seq<nat>
    var broadcast: seq<nat>
    /** The chunks handed to the store, as half-open ranges. */
    var chunks: seq<(nat, nat)>

    constructor (store: Store, n: nat)
      ensures this.store == store && fresh(ids) && ids.Length == n
      ensures written == 0 && committed == [] && broadcast == [] && chunks == []
      ensures forall j :: 0 <= j < n ==> ids[j] == None
    {
      this.store := store;
      ids := new Option<int>[n](_ => None);
      written, committed, broadcast, chunks := 0, [], [], [];
    }

    /** The records before `i` are settled, those from `i` on untouched. */
    ghost predicate DoneTo(i: nat)
      reads this, ids
    {
      && i <= ids.Length
      && (forall j :: 0 <= j < i ==> ids[j] == IdOf(store, j))
      && committed == Saved(store, i) && written == |committed|
    }

    method CommitChunk(i: nat, end: nat)
      requires i < end <= ids.Length && end <= i + CHUNK && i % CHUNK == 0
      requires DoneTo(i) && Commits(store, i, 0)
      modifies this`written, this`committed, ids
      ensures DoneTo(end) && forall j :: end <= j < ids.Length ==> ids[j] == old(ids[j])
    {
      hide Commits, IdOf;
      var j := i;
      while j < end
        invariant i <= j <= end && DoneTo(j)
        invariant forall k :: end <= k < ids.Length ==> ids[k] == old(ids[k])
      {
        IdInChunk(store, i, j);
        ids[j] := Some(store.rowId(j));
        committed := committed + [j];
        written := written + 1;
        j := j + 1;
      }
    }

    method SaveSingly(i: nat, end: nat)
      requires i < end <= ids.Length && end <= i + CHUNK && i % CHUNK == 0
      requires DoneTo(i) && !Commits(store, i, 0)
      requires forall j :: i <= j < end ==> ids[j] == None
      modifies this`written, this`committed, ids
      ensures DoneTo(end) && forall j :: end <= j < ids.Length ==> ids[j] == old(ids[j])
    {
      hide Commits, IdOf;
      var j := i;
      while j < end
        invariant i <= j <= end && DoneTo(j)
        invariant forall k :: j <= k < end ==> ids[k] == None
        invariant forall k :: end <= k < ids.Length ==> ids[k] == old(ids[k])
      {
        IdInChunk(store, i, j);
        var id := store.single(j);
        if id.Some? {
          ids[j] := id;
          committed := committed + [j];
          written := written + 1;
        }
        j := j + 1;
      }
    }

    method BroadcastChunk(i: nat, end: nat)
      requires i < end <= ids.Length && DoneTo(end) && broadcast == Announced(store, i)
      modifies this`broadcast
      ensures DoneTo(end) && broadcast == Announced(store, end)
    {
      hide Commits;
      var j := i;
      while j < end
        invariant i <= j <= end && DoneTo(end) && broadcast == Announced(store, j)
      {
        if ids[j].Some? && ids[j].value > 0 {
          broadcast := broadcast + [j];
        }
        j := j + 1;
      }
    }

    method TryBatch(i: nat) returns (saved: bool)
      ensures saved == Commits(store, i, 0)
    {
      var attempt := 0;
      while attempt < ATTEMPTS
        invariant attempt <= ATTEMPTS && Commits(store, i, 0) == Commits(store, i, attempt)
      {
        if store.batchOk(i, attempt) {
          return true;
        }
        if attempt < ATTEMPTS - 1 && store.stopSeen(i, attempt) {
          return false;
        }
        attempt := attempt + 1;
      }
      return false;
    }

    /** Settles every record of the batch: chunk by chunk, in order, each record in one chunk. */
    method FlushAll()
      requires written == 0 && committed == [] && broadcast == [] && chunks == []
      requires forall j :: 0 <= j < ids.Length ==> ids[j] == None
      modifies this, ids
      ensures ids == old(ids) && DoneTo(ids.Length) && Partition(chunks, ids.Length)
      ensures broadcast == Announced(store, ids.Length)
    {
      hide Commits, IdOf;
      var i := 0;
      while i < ids.Length
        invariant ids == old(ids) && i <= ids.Length && DoneTo(i)
        invariant Cut(chunks, ids.Length, i)
        invariant forall j :: i <= j < ids.Length ==> ids[j] == None
        invariant broadcast == Announced(store, i)
      {
        var end := if i + CHUNK > ids.Length then ids.Length else i + CHUNK;
        chunks := chunks + [(i, end)];
        var saved := TryBatch(i);
        if saved {
          CommitChunk(i, end);
        } else {
          SaveSingly(i, end);
        }
        BroadcastChunk(i, end);
        i := end;
      }
    }
  }

  lemma IdInChunk(store: Store, i: nat, j: nat)
    requires i % CHUNK == 0 && i <= j < i + CHUNK
    ensures IdOf(store, j) == if Commits(store, i, 0) then Some(store.rowId(j)) else store.single(j)
  {
    assert j - j % CHUNK == i;
  }

  /** The ranges handed out so far: 500 records each but for the last, in order, up to `i` of `n`. */
  predicate Cut(chunks: seq<(nat, nat)>, n: nat, i: nat) {
    && i == Min(CHUNK * |chunks|, n)
    && (|chunks| > 0 ==> CHUNK * (|chunks| - 1) < n)
    && forall k :: 0 <= k < |chunks| ==> chunks[k] == (CHUNK * k, Min(CHUNK * (k + 1), n))
  }

  /** Every record below `n` stands in exactly one range, and ranges hold nothing else. */
  predicate Partition(chunks: seq<(nat, nat)>, n: nat) {
    Cut(chunks, n, n)
  }

  lemma PartitionHoldsEach(chunks: seq<(nat, nat)>, n: nat, j: nat, k: nat)
    requires Partition(chunks, n) && k < |chunks|
    ensures chunks[k].0 <= j < chunks[k].1 <==> j < n && k == j / CHUNK
    ensures j < n ==> j / CHUNK < |chunks|
    ensures 0 < chunks[k].1 - chunks[k].0 <= CHUNK
  {
  }

  predicate Increasing(s: seq<nat>) {
    forall a, b :: 0 <= a < b < |s| ==> s[a] < s[b]
  }

  lemma IncreasingPush(s: seq<nat>, n: nat)
    requires Increasing(s) && forall j :: j in s ==> j < n
    ensures Increasing(s + [n])
  {
    forall a | 0 <= a < |s|
      ensures s[a] < n
    {
      assert s[a] in s;
    }
  }

  /** A batch commits exactly when one of three attempts does, and no stop cuts the wait after an earlier one. */
  lemma CommitsIff(store: Store, i: nat)
    ensures Commits(store, i, 0) <==>
      exists a: nat :: a < 3 && store.batchOk(i, a) && forall b :: 0 <= b < a ==> !store.batchOk(i, b) && !store.stopSeen(i, b)
  {
    assert Commits(store, i, 2) <==> store.batchOk(i, 2);
    assert Commits(store, i, 1) <==> store.batchOk(i, 1) || (!store.stopSeen(i, 1) && Commits(store, i, 2));
    assert Commits(store, i, 0) <==> store.batchOk(i, 0) || (!store.stopSeen(i, 0) && Commits(store, i, 1));
  }

  /** A record is committed exactly when its batch is or its single save succeeds, and never twice. */
  lemma {:induction false} SavedOnce(store: Store, n: nat)
    ensures forall j :: j in Saved(store, n) <==>
      0 <= j < n && (Commits(store, j - j % 500, 0) || store.single(j).Some?)
    ensures Increasing(Saved(store, n))
  {
    hide Commits;
    if n == 0 {
    } else {
      SavedOnce(store, n - 1);
      IncreasingPush(Saved(store, n - 1), n - 1);
    }
  }

  /** The records to broadcast: those with a positive id, from the batch or from the single save. */
  predicate HasPositiveId(store: Store, j: nat) {
    if Commits(store, j - j % 500, 0) then store.rowId(j) > 0 else store.single(j).Some? && store.single(j).value > 0
  }

  lemma PositiveId(store: Store, j: nat)
    ensures HasPositiveId(store, j) <==> IdOf(store, j).Some? && IdOf(store, j).value > 0
  {
    hide Commits;
  }

  /** A record is broadcast exactly when its id is positive, and never twice. */
  lemma {:induction false} AnnouncedOnce(store: Store, n: nat)
    ensures forall j: nat :: j in Announced(store, n) <==> j < n && HasPositiveId(store, j)
    ensures Increasing(Announced(store, n))
  {
    hide Commits, IdOf, HasPositiveId, Increasing;
    if n == 0 {
      NoneIncreasing();
    } else {
      AnnouncedOnce(store, n - 1);
      PositiveId(store, n - 1);
      IncreasingPush(Announced(store, n - 1), n - 1);
      assert Announced(store, n - 1) + [] == Announced(store, n - 1);
    }
  }

  lemma NoneIncreasing()
    ensures Increasing([])
  {
  }

  // ---- The pool: producers, workers and the stop, in any interleaving ----

  /** `flushing[w]`: what worker `w` has popped and not yet settled; the last entry is the stopper's own final flush. */
  datatype Pool = Pool(
    ring: Queue, accepted: seq<Record>,
    flushing: seq<seq<Record>>, exited: seq<bool>, closing: bool, draining: bool, done: bool,
    written: seq<Record>, failed: seq<Record>)

  datatype PoolOp =
    | Produce(req: Option<Captured>)
    | Pop(w: nat)
    | Settle(w: nat, saved: seq<bool>)
    | Exit(w: nat)
    | Signal
    | StopRing
    | FinalPop
    | Finish

  function Split(items: seq<Record>, saved: seq<bool>, which: bool): seq<Record>
    requires |saved| == |items|
  {
    if items == [] then []
    else (if saved[0] == which then [items[0]] else []) + Split(items[1..], saved[1..], which)
  }

  predicate Shape(p: Pool) {
    |p.flushing| == |p.exited| + 1
  }

  function AllExited(exited: seq<bool>): bool {
    forall w :: 0 <= w < |exited| ==> exited[w]
  }

  predicate Enabled(p: Pool, op: PoolOp)
    requires Shape(p)
  {
    match op
    case Produce(_) => true
    case Pop(w) => w < |p.exited| && !p.exited[w] && p.flushing[w] == [] && p.ring.items != []
    case Settle(w, saved) =>
      w < |p.flushing| && 0 < |saved| <= CHUNK && |saved| <= |p.flushing[w]|
    case Exit(w) => w < |p.exited| && !p.exited[w] && p.flushing[w] == [] && p.closing
    case Signal => !p.closing
    case StopRing => p.closing && !p.ring.stopped
    case FinalPop => p.ring.stopped && AllExited(p.exited) && !p.draining
    case Finish => p.draining && !p.done && p.flushing[|p.exited|] == []
  }

  function Apply(slots: nat, maxBytes: nat, p: Pool, op: PoolOp): (r: Pool)
    requires slots >= 2 && Shape(p) && Enabled(p, op)
    ensures Shape(r)
  {
    match op
    case Produce(req) =>
      if p.ring.stopped then p
      else p.(ring := Push(slots, maxBytes, p.ring, RecordOf(req)), accepted := p.accepted + [RecordOf(req)])
    case Pop(w) => p.(flushing := p.flushing[w := p.ring.items], ring := Drain(p.ring))
    case Settle(w, saved) =>
      var chunk, rest := p.flushing[w][..|saved|], p.flushing[w][|saved|..];
      p.(flushing := p.flushing[w := rest],
         written := p.written + Split(chunk, saved, true),
         failed := p.failed + Split(chunk, saved, false))
    case Exit(w) => p.(exited := p.exited[w := true])
    case Signal => p.(closing := true)
    case StopRing => p.(ring := p.ring.(stopped := true))
    case FinalPop =>
      p.(flushing := p.flushing[|p.exited| := p.ring.items], ring := Drain(p.ring), draining := true)
    case Finish => p.(done := true)
  }

  function Fresh(workers: nat): Pool {
    Pool(EMPTY, [], seq(workers + 1, _ => []), seq(workers, _ => false), false, false, false, [], [])
  }

  predicate Legal(slots: nat, maxBytes: nat, p: Pool, ops: seq<PoolOp>)
    requires slots >= 2 && Shape(p)
    decreases |ops|
  {
    ops == [] || (Enabled(p, ops[0]) && Legal(slots, maxBytes, Apply(slots, maxBytes, p, ops[0]), ops[1..]))
  }

  function After(slots: nat, maxBytes: nat, p: Pool, ops: seq<PoolOp>): (r: Pool)
    requires slots >= 2 && Shape(p) && Legal(slots, maxBytes, p, ops)
    ensures Shape(r)
    decreases |ops|
  {
    if ops == [] then p else After(slots, maxBytes, Apply(slots, maxBytes, p, ops[0]), ops[1..])
  }

  function InFlight(flushing: seq<seq<Record>>): multiset<Record> {
    if flushing == [] then multiset{} else InFlight(flushing[..|flushing| - 1]) + multiset(flushing[|flushing| - 1])
  }

  /** Every accepted record is written, failed, dropped, in flight or resident: one of these, once. */
  predicate Conserved(p: Pool) {
    multiset(p.accepted) == multiset(p.written) + multiset(p.failed) + multiset(p.ring.dropped)
      + InFlight(p.flushing) + multiset(p.ring.items)
  }

  /** Workers that have exited hold nothing; once the stopper has popped, the ring is empty for good. */
  predicate Quiet(p: Pool)
    requires Shape(p)
  {
    && (forall w :: 0 <= w < |p.exited| && p.exited[w] ==> p.flushing[w] == [])
    && (p.draining ==> p.ring.stopped && AllExited(p.exited) && p.ring.items == [])
    && (!p.draining ==> p.flushing[|p.exited|] == [] && !p.done)
    && (p.done ==> p.draining && p.flushing[|p.exited|] == [])
  }

  lemma {:induction false} InFlightUpdate(flushing: seq<seq<Record>>, w: nat, items: seq<Record>)
    requires w < |flushing|
    ensures InFlight(flushing[w := items]) + multiset(flushing[w]) == InFlight(flushing) + multiset(items)
    decreases |flushing|
  {
    var n := |flushing| - 1;
    var updated := flushing[w := items];
    if w < n {
      InFlightUpdate(flushing[..n], w, items);
      assert updated[..n] == flushing[..n][w := items];
      calc {
        InFlight(updated) + multiset(flushing[w]);
        InFlight(updated[..n]) + multiset(flushing[n]) + multiset(flushing[w]);
        InFlight(updated[..n]) + multiset(flushing[w]) + multiset(flushing[n]);
        InFlight(flushing[..n]) + multiset(items) + multiset(flushing[n]);
        InFlight(flushing) + multiset(items);
      }
    } else {
      assert updated[..n] == flushing[..n];
    }
  }

  lemma SplitFirst(items: seq<Record>, saved: seq<bool>, which: bool)
    requires |saved| == |items| > 0
    ensures multiset(Split(items, saved, which)) ==
      multiset(Split(items[1..], saved[1..], which)) + if saved[0] == which then multiset{items[0]} else multiset{}
  {
  }

  lemma {:induction false} SplitWhole(items: seq<Record>, saved: seq<bool>)
    requires |saved| == |items|
    ensures multiset(Split(items, saved, true)) + multiset(Split(items, saved, false)) == multiset(items)
  {
    if items == [] {
    } else {
      SplitWhole(items[1..], saved[1..]);
      SplitFirst(items, saved, true);
      SplitFirst(items, saved, false);
      hide Split;
      assert items == [items[0]] + items[1..];
      assert multiset(items) == multiset{items[0]} + multiset(items[1..]);
    }
  }

  lemma ProduceConserves(slots: nat, maxBytes: nat, p: Pool, req: Option<Captured>)
    requires slots >= 2 && Shape(p) && Conserved(p)
    ensures Conserved(Apply(slots, maxBytes, p, Produce(req)))
  {
    hide InFlight, Push, RecordOf;
    if !p.ring.stopped {
      PushAccounts(slots, maxBytes, p.ring, RecordOf(req));
      var rec := RecordOf(req);
      var r := Push(slots, maxBytes, p.ring, rec);
      var others := multiset(p.written) + multiset(p.failed) + InFlight(p.flushing);
      calc {
        multiset(p.accepted + [rec]);
        multiset(p.accepted) + multiset{rec};
        others + (multiset(p.ring.items) + multiset(p.ring.dropped) + multiset{rec});
        others + (multiset(r.items) + multiset(r.dropped));
      }
    }
  }

  /** A drained ring has moved into the hands of worker `w`. */
  lemma PopConserves(p: Pool, w: nat, r: Pool)
    requires Conserved(p) && w < |p.flushing| && p.flushing[w] == []
    requires r.flushing == p.flushing[w := p.ring.items] && r.ring == Drain(p.ring)
    requires r.accepted == p.accepted && r.written == p.written && r.failed == p.failed
    ensures Conserved(r)
  {
    hide InFlight;
    InFlightUpdate(p.flushing, w, p.ring.items);
    assert multiset(p.flushing[w]) == multiset{} && multiset(r.ring.items) == multiset{};
    assert InFlight(r.flushing) == InFlight(p.flushing) + multiset(p.ring.items);
  }

  lemma Cancel(a: multiset<Record>, b: multiset<Record>, c: multiset<Record>)
    requires a + c == b + c
    ensures a == b
  {
    assert (a + c) - c == a && (b + c) - c == b;
  }

  lemma SettleConserves(p: Pool, w: nat, saved: seq<bool>, r: Pool)
    requires Conserved(p) && w < |p.flushing| && |saved| <= |p.flushing[w]|
    requires var chunk, rest := p.flushing[w][..|saved|], p.flushing[w][|saved|..];
      && r.flushing == p.flushing[w := rest] && r.accepted == p.accepted && r.ring == p.ring
      && r.written == p.written + Split(chunk, saved, true) && r.failed == p.failed + Split(chunk, saved, false)
    ensures Conserved(r)
  {
    hide InFlight, Split;
    var chunk, rest := p.flushing[w][..|saved|], p.flushing[w][|saved|..];
    assert p.flushing[w] == chunk + rest;
    InFlightUpdate(p.flushing, w, rest);
    SplitWhole(chunk, saved);
    var wrote, failed := multiset(Split(chunk, saved, true)), multiset(Split(chunk, saved, false));
    assert multiset(r.written) == multiset(p.written) + wrote && multiset(r.failed) == multiset(p.failed) + failed;
    Cancel(InFlight(r.flushing) + (wrote + failed), InFlight(p.flushing), multiset(rest));
  }

  lemma ApplyConserves(slots: nat, maxBytes: nat, p: Pool, op: PoolOp)
    requires slots >= 2 && Shape(p) && Enabled(p, op) && Conserved(p)
    requires op.FinalPop? ==> p.flushing[|p.exited|] == []
    ensures Conserved(Apply(slots, maxBytes, p, op))
  {
    hide InFlight, Split;
    match op
    case Produce(req) => ProduceConserves(slots, maxBytes, p, req);
    case Pop(w) => PopConserves(p, w, Apply(slots, maxBytes, p, op));
    case Settle(w, saved) =>
      SettleConserves(p, w, saved, Apply(slots, maxBytes, p, op));
    case Exit(w) =>
    case Signal =>
    case StopRing =>
    case FinalPop =>
      PopConserves(p, |p.exited|, Apply(slots, maxBytes, p, op));
    case Finish =>
  }

  lemma ApplyQuiet(slots: nat, maxBytes: nat, p: Pool, op: PoolOp)
    requires slots >= 2 && Shape(p) && Enabled(p, op) && Quiet(p)
    ensures Quiet(Apply(slots, maxBytes, p, op))
  {
    hide Push, Split;
  }

  lemma {:induction false} AfterKeeps(slots: nat, maxBytes: nat, p: Pool, ops: seq<PoolOp>)
    requires slots >= 2 && Shape(p) && Legal(slots, maxBytes, p, ops) && Conserved(p) && Quiet(p)
    ensures var r := After(slots, maxBytes, p, ops); Conserved(r) && Quiet(r)
    decreases |ops|
  {
    if ops == [] {
    } else {
      ApplyConserves(slots, maxBytes, p, ops[0]);
      ApplyQuiet(slots, maxBytes, p, ops[0]);
      hide Conserved, Quiet, Apply, Enabled;
      AfterKeeps(slots, maxBytes, Apply(slots, maxBytes, p, ops[0]), ops[1..]);
    }
  }

  lemma {:induction false} NothingInFlight(flushing: seq<seq<Record>>)
    requires forall w :: 0 <= w < |flushing| ==> flushing[w] == []
    ensures InFlight(flushing) == multiset{}
  {
    if flushing == [] {
    } else {
      NothingInFlight(flushing[..|flushing| - 1]);
    }
  }

  /** In every interleaving nothing accepted is lost or doubled, and after the stop nothing is left in flight or resident. */
  lemma PoolConserves(slots: nat, maxBytes: nat, workers: nat, ops: seq<PoolOp>)
    requires slots >= 2 && Legal(slots, maxBytes, Fresh(workers), ops)
    ensures var p := After(slots, maxBytes, Fresh(workers), ops);
      && Conserved(p)
      && (p.done ==> multiset(p.accepted) == multiset(p.written) + multiset(p.failed) + multiset(p.ring.dropped))
  {
    var p0 := Fresh(workers);
    NothingInFlight(p0.flushing);
    AfterKeeps(slots, maxBytes, p0, ops);
    var p := After(slots, maxBytes, p0, ops);
    if p.done {
      NothingInFlight(p.flushing);
    }
  }
}
