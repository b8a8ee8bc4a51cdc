/** The drop-oldest ring of internal/capture/memring.go, refined from a plain bounded queue. */
module MemRing {
  import opened Bytes

  // ---- The queue the ring implements ----

  datatype Captured = Captured(reqBody: bytes, resBody: bytes, sseEvents: bytes)

  datatype Record = Record(req: Option<Captured>, size: nat)

  /** `items` oldest first; `dropped` every record refused or evicted so far, in order. */
  datatype Queue = Queue(items: seq<Record>, dropped: seq<Record>, stopped: bool)

  const EMPTY := Queue([], [], false)

  function RecordSize(req: Captured): nat {
    |req.reqBody| + |req.resBody| + |req.sseEvents| + 2048
  }

  function RecordOf(req: Option<Captured>): Record {
    Record(req, if req.Some? then RecordSize(req.value) else 0)
  }

  function Sum(items: seq<Record>): nat {
    if items == [] then 0 else Sum(items[..|items| - 1]) + items[|items| - 1].size
  }

  lemma EmptySum()
    ensures Sum([]) == 0
  {
  }

  lemma {:induction false} SumSplit(a: seq<Record>, b: seq<Record>)
    ensures Sum(a + b) == Sum(a) + Sum(b)
    decreases |b|
  {
    if b == [] {
      assert a + b == a;
    } else {
      SumSplit(a, b[..|b| - 1]);
      assert (a + b)[..|a + b| - 1] == a + b[..|b| - 1];
    }
  }

  lemma SumPush(items: seq<Record>, rec: Record)
    ensures Sum(items + [rec]) == Sum(items) + rec.size
  {
    assert (items + [rec])[..|items|] == items;
  }

  lemma SumHead(items: seq<Record>)
    requires items != []
    ensures Sum(items) == items[0].size + Sum(items[1..])
  {
    SumSplit(items[..1], items[1..]);
    assert items[..1] + items[1..] == items;
    assert items[..1][..0] == [];
  }

  /** The oldest record makes way: the slots are full, or the bytes would pass the ceiling. */
  predicate Evicts(slots: nat, maxBytes: nat, q: Queue, rec: Record) {
    |q.items| == slots - 1 || (rec.req.Some? && Sum(q.items) + rec.size > maxBytes)
  }

  predicate Oversized(maxBytes: nat, rec: Record) {
    rec.req.Some? && rec.size > maxBytes
  }

  /** Eviction always finds a record to evict. */
  lemma EvictsSomething(slots: nat, maxBytes: nat, q: Queue, rec: Record)
    requires slots >= 2 && !Oversized(maxBytes, rec) && Evicts(slots, maxBytes, q, rec)
    ensures q.items != []
  {
  }

  function Push(slots: nat, maxBytes: nat, q: Queue, rec: Record): Queue
    requires slots >= 2
  {
    if q.stopped then q
    else if Oversized(maxBytes, rec) then q.(dropped := q.dropped + [rec])
    else if Evicts(slots, maxBytes, q, rec) then
      EvictsSomething(slots, maxBytes, q, rec);
      q.(items := q.items[1..] + [rec], dropped := q.dropped + [q.items[0]])
    else q.(items := q.items + [rec])
  }

  function Drain(q: Queue): Queue {
    q.(items := [])
  }

  // ---- The ring ----

  /** `x & mask` for a size that is a power of two. */
  function Wrap(x: nat, size: nat): (r: nat)
    requires size > 0
    ensures r < size
  {
    x % size
  }

  lemma WrapOnce(x: nat, size: nat)
    requires x < 2 * size
    ensures Wrap(x, size) == if x < size then x else x - size
  {
    if x >= size {
      assert x == 1 * size + (x - size);
    }
  }

  /** Subtraction that would stop at zero; the ledger never makes it do so. */
  function Clamped(a: nat, b: nat): nat {
    if b > a then 0 else a - b
  }

  predicate PowerOfTwo(n: nat) {
    n == 1 || (n > 0 && n % 2 == 0 && PowerOfTwo(n / 2))
  }

  const MAX_RING_BYTES: nat := 512 * 1024 * 1024

  class MemRingBuffer {
    var buf: array<Record>
    var head: nat
    var tail: nat
    var byteCount: nat
    var maxBytes: nat
    var dropped: nat
    var stopped: bool
    ghost var droppedRecords: seq<Record>

    ghost predicate Valid()
      reads this, buf
    {
      && buf.Length >= 2 && PowerOfTwo(buf.Length)
      && head < buf.Length && tail < buf.Length
      && byteCount == Sum(Contents())
      && dropped == |droppedRecords|
    }

    /** The residents: the slots from tail up to head, modulo the size. */
    ghost function Contents(): seq<Record>
      requires head < buf.Length && tail < buf.Length
      reads this, buf
    {
      if tail <= head then buf[tail..head] else buf[tail..] + buf[..head]
    }

    lemma SlotAt(i: nat)
      requires head < buf.Length && tail < buf.Length && i < |Contents()|
      ensures Contents()[i] == buf[Wrap(tail + i, buf.Length)]
    {
      WrapOnce(tail + i, buf.Length);
    }

    ghost function View(): Queue
      requires Valid()
      reads this, buf
    {
      Queue(Contents(), droppedRecords, stopped)
    }

    constructor (entryCount: int)
      ensures Valid() && fresh(buf) && View() == EMPTY && maxBytes == 536_870_912
      ensures var n := if entryCount <= 0 then 262144 else if entryCount < 2 then 2 else entryCount;
        n <= buf.Length < 2 * n
    {
      var n := if entryCount <= 0 then 262144 else entryCount;
      if n < 2 {
        n := 2;
      }
      var size := 1;
      while size < n
        invariant 1 <= size < 2 * n && PowerOfTwo(size)
        decreases n - size
      {
        assert 2 * size / 2 == size;
        size := size * 2;
      }
      buf := new Record[size];
      head, tail, byteCount, dropped := 0, 0, 0, 0;
      maxBytes, stopped, droppedRecords := MAX_RING_BYTES, false, [];
    }

    method PushRecord(req: Option<Captured>) returns (ok: bool)
      requires Valid()
      modifies this, buf
      ensures Valid() && buf == old(buf) && maxBytes == old(maxBytes)
      ensures ok == !old(stopped)
      ensures View() == Push(buf.Length, maxBytes, old(View()), RecordOf(req))
    {
      hide Sum, PowerOfTwo, RecordSize, Wrap;
      if stopped {
        return false;
      }
      var size := 0;
      if req.Some? {
        size := RecordSize(req.value);
        if size > maxBytes {
          dropped := dropped + 1;
          droppedRecords := droppedRecords + [RecordOf(req)];
          return true;
        }
      }
      WrapOnce(head + 1, buf.Length);
      var next := Wrap(head + 1, buf.Length);
      assert (next == tail) == (|Contents()| == buf.Length - 1);
      if next == tail || (req.Some? && byteCount + size > maxBytes) {
        EvictsSomething(buf.Length, maxBytes, View(), RecordOf(req));
        EvictOldest();
      }
      Store(RecordOf(req), next);
      return true;
    }

    /** The oldest record's slot is given up. */
    method AdvanceTail()
      requires buf.Length >= 2 && head < buf.Length && tail < buf.Length && Contents() != []
      modifies this`tail
      ensures head < buf.Length && tail < buf.Length
      ensures old(Contents()) == [old(buf[tail])] + Contents()
    {
      hide Wrap;
      WrapOnce(tail + 1, buf.Length);
      ghost var was := tail;
      tail := Wrap(tail + 1, buf.Length);
      if was > head && tail == 0 {
        assert buf[was..] == [buf[was]];
      }
    }

    method EvictOldest()
      requires Valid() && Contents() != []
      modifies this
      ensures Valid() && buf == old(buf) && maxBytes == old(maxBytes) && stopped == old(stopped) && head == old(head)
      ensures Contents() == old(Contents())[1..]
      ensures droppedRecords == old(droppedRecords) + [old(Contents())[0]]
    {
      hide Sum, PowerOfTwo, Wrap;
      SumHead(Contents());
      ghost var residents := Contents();
      droppedRecords := droppedRecords + [residents[0]];
      var oldest := buf[tail].size;
      assert residents[0] == buf[tail];
      byteCount := Clamped(byteCount, oldest);
      dropped := dropped + 1;
      assert Contents() == residents;
      AdvanceTail();
      assert Contents() == residents[1..];
    }

    method Store(rec: Record, next: nat)
      requires Valid() && |Contents()| < buf.Length - 1 && next == Wrap(head + 1, buf.Length)
      modifies this, buf
      ensures Valid() && buf == old(buf) && maxBytes == old(maxBytes) && stopped == old(stopped)
      ensures Contents() == old(Contents()) + [rec] && droppedRecords == old(droppedRecords)
    {
      hide Sum, PowerOfTwo, Wrap;
      WrapOnce(head + 1, buf.Length);
      SumPush(Contents(), rec);
      buf[head] := rec;
      byteCount := byteCount + rec.size;
      head := next;
      assert Contents() == old(Contents()) + [rec];
    }

    /** Called once the wait is over: there is a record, or the ring has stopped. */
    method PopBatch() returns (batch: seq<Record>)
      requires Valid() && (Contents() != [] || stopped)
      modifies this
      ensures Valid() && buf == old(buf) && maxBytes == old(maxBytes)
      ensures batch == old(View()).items && View() == Drain(old(View()))
    {
      hide Sum, PowerOfTwo, Wrap;
      if head == tail {
        return [];
      }
      var n := if head > tail then head - tail else buf.Length - tail + head;
      batch := [];
      ghost var items := Contents();
      var i := 0;
      while i < n
        invariant unchanged(this) && n == |items|
        invariant 0 <= i <= n && batch == items[..i]
      {
        SlotAt(i);
        batch := batch + [buf[Wrap(tail + i, buf.Length)]];
        i := i + 1;
      }
      EmptySum();
      tail := head;
      byteCount := 0;
      assert Contents() == [];
    }

    method Stop()
      requires Valid()
      modifies this
      ensures Valid() && buf == old(buf) && maxBytes == old(maxBytes)
      ensures View() == old(View()).(stopped := true)
    {
      stopped := true;
    }
  }

  // ---- Runs ----

  datatype Op = Pushed(req: Option<Captured>) | Popped | Stopped

  /** `accepted`: every push answered true; `drained`: all batches, joined; `since`: pushes stored since the last batch. */
  datatype History = History(q: Queue, accepted: seq<Record>, drained: seq<Record>, since: seq<Record>)

  function Run(slots: nat, maxBytes: nat, ops: seq<Op>): History
    requires slots >= 2
  {
    if ops == [] then History(EMPTY, [], [], [])
    else
      Step(slots, maxBytes, Run(slots, maxBytes, ops[..|ops| - 1]), ops[|ops| - 1])
  }

  /** `a` in its order within `b`. */
  predicate Subsequence<T(==)>(a: seq<T>, b: seq<T>) {
    a == [] ||
    (b != [] &&
     ((a[|a| - 1] == b[|b| - 1] && Subsequence(a[..|a| - 1], b[..|b| - 1])) || Subsequence(a, b[..|b| - 1])))
  }

  lemma {:induction false} SubsequenceDrop<T>(a: seq<T>, x: T, c: seq<T>, b: seq<T>)
    requires Subsequence(a + [x] + c, b)
    ensures Subsequence(a + c, b)
    decreases |b|
  {
    var whole := a + [x] + c;
    if a + c != [] {
      if !Subsequence(whole, b[..|b| - 1]) {
        if c == [] {
          assert whole[..|whole| - 1] == a + c;
          SubsequenceLonger(a + c, b[..|b| - 1], b[|b| - 1]);
          assert b[..|b| - 1] + [b[|b| - 1]] == b;
        } else {
          assert whole[..|whole| - 1] == a + [x] + c[..|c| - 1];
          SubsequenceDrop(a, x, c[..|c| - 1], b[..|b| - 1]);
          assert (a + c)[..|a + c| - 1] == a + c[..|c| - 1];
        }
      } else {
        SubsequenceDrop(a, x, c, b[..|b| - 1]);
      }
    }
  }

  lemma SubsequenceLonger<T>(a: seq<T>, b: seq<T>, y: T)
    requires Subsequence(a, b)
    ensures Subsequence(a, b + [y])
  {
    assert (b + [y])[..|b|] == b;
  }

  lemma SubsequenceBoth<T>(a: seq<T>, b: seq<T>, y: T)
    requires Subsequence(a, b)
    ensures Subsequence(a + [y], b + [y])
  {
    assert (a + [y])[..|a|] == a && (b + [y])[..|b|] == b;
  }

  /** Drained and resident records come out in push order, and none is invented. */
  predicate Ordered(h: History) {
    Subsequence(h.drained + h.q.items, h.accepted)
  }

  /** Every accepted record is in exactly one place: drained, dropped or resident. */
  predicate Accounted(h: History) {
    multiset(h.accepted) == multiset(h.drained) + multiset(h.q.dropped) + multiset(h.q.items)
  }

  /** The residents are the most recent of the pushes stored since the last batch. */
  predicate Recent(slots: nat, h: History) {
    && |h.q.items| <= slots - 1
    && |h.q.items| <= |h.since| && h.q.items == h.since[|h.since| - |h.q.items|..]
  }

  function Step(slots: nat, maxBytes: nat, h: History, op: Op): History
    requires slots >= 2
  {
    match op
    case Pushed(req) =>
      var rec := RecordOf(req);
      if h.q.stopped then h
      else History(Push(slots, maxBytes, h.q, rec), h.accepted + [rec], h.drained,
                   if Oversized(maxBytes, rec) then h.since else h.since + [rec])
    case Popped => History(Drain(h.q), h.accepted, h.drained + h.q.items, [])
    case Stopped => h.(q := h.q.(stopped := true))
  }

  lemma StepOrdered(slots: nat, maxBytes: nat, h: History, op: Op)
    requires slots >= 2 && Ordered(h)
    ensures Ordered(Step(slots, maxBytes, h, op))
  {
    hide Subsequence, Sum, Oversized, RecordSize;
    var items := h.q.items;
    match op
    case Pushed(req) =>
      var rec := RecordOf(req);
      if h.q.stopped {
      } else if Oversized(maxBytes, rec) {
        SubsequenceLonger(h.drained + items, h.accepted, rec);
      } else if Evicts(slots, maxBytes, h.q, rec) {
        EvictsSomething(slots, maxBytes, h.q, rec);
        assert h.drained + items == h.drained + [items[0]] + items[1..];
        SubsequenceDrop(h.drained, items[0], items[1..], h.accepted);
        SubsequenceBoth(h.drained + items[1..], h.accepted, rec);
        assert h.drained + items[1..] + [rec] == h.drained + (items[1..] + [rec]);
      } else {
        SubsequenceBoth(h.drained + items, h.accepted, rec);
        assert h.drained + items + [rec] == h.drained + (items + [rec]);
      }
    case Popped =>
      assert h.drained + items + [] == h.drained + items;
    case Stopped =>
  }

  lemma PushAccounts(slots: nat, maxBytes: nat, q: Queue, rec: Record)
    requires slots >= 2 && !q.stopped
    ensures var r := Push(slots, maxBytes, q, rec);
      multiset(r.items) + multiset(r.dropped) == multiset(q.items) + multiset(q.dropped) + multiset{rec}
  {
    hide Sum;
    if !Oversized(maxBytes, rec) && Evicts(slots, maxBytes, q, rec) {
      EvictsSomething(slots, maxBytes, q, rec);
      assert q.items == [q.items[0]] + q.items[1..];
    }
  }

  lemma StepAccounted(slots: nat, maxBytes: nat, h: History, op: Op)
    requires slots >= 2 && Accounted(h)
    ensures Accounted(Step(slots, maxBytes, h, op))
  {
    hide Oversized, RecordOf, Push;
    if op.Pushed? && !h.q.stopped {
      var rec := RecordOf(op.req);
      PushAccounts(slots, maxBytes, h.q, rec);
      var r := Push(slots, maxBytes, h.q, rec);
      calc {
        multiset(h.accepted + [rec]);
        multiset(h.accepted) + multiset{rec};
        multiset(h.drained) + (multiset(h.q.items) + multiset(h.q.dropped) + multiset{rec});
        multiset(h.drained) + (multiset(r.items) + multiset(r.dropped));
        multiset(h.drained) + multiset(r.dropped) + multiset(r.items);
      }
    } else if op.Popped? {
      assert multiset(h.drained + h.q.items) == multiset(h.drained) + multiset(h.q.items);
      assert multiset(Drain(h.q).items) == multiset{};
    }
  }

  lemma StepRecent(slots: nat, maxBytes: nat, h: History, op: Op)
    requires slots >= 2 && Recent(slots, h)
    ensures Recent(slots, Step(slots, maxBytes, h, op))
  {
    hide Sum, Oversized, RecordSize;
    if op.Pushed? && !h.q.stopped && !Oversized(maxBytes, RecordOf(op.req)) {
      var items, since, rec := h.q.items, h.since, RecordOf(op.req);
      var at := |since| - |items|;
      assert (since + [rec])[at..] == items + [rec];
      if Evicts(slots, maxBytes, h.q, rec) {
        EvictsSomething(slots, maxBytes, h.q, rec);
        assert (since + [rec])[at + 1..] == items[1..] + [rec];
      }
    }
  }

  /** Over any run of pushes, batches and a stop. */
  lemma {:induction false} RunOrdered(slots: nat, maxBytes: nat, ops: seq<Op>)
    requires slots >= 2
    ensures var h := Run(slots, maxBytes, ops); Ordered(h) && Accounted(h) && Recent(slots, h)
  {
    hide Ordered, Accounted, Recent, Step;
    if ops == [] {
      StartOrdered(slots);
    } else {
      var h := Run(slots, maxBytes, ops[..|ops| - 1]);
      RunOrdered(slots, maxBytes, ops[..|ops| - 1]);
      StepOrdered(slots, maxBytes, h, ops[|ops| - 1]);
      StepAccounted(slots, maxBytes, h, ops[|ops| - 1]);
      StepRecent(slots, maxBytes, h, ops[|ops| - 1]);
    }
  }

  lemma StartOrdered(slots: nat)
    requires slots >= 2
    ensures var h := History(EMPTY, [], [], []); Ordered(h) && Accounted(h) && Recent(slots, h)
  {
  }

  // ---- The byte ledger ----

  lemma {:induction false} SumBound(items: seq<Record>, each: nat)
    requires forall r :: r in items ==> r.size <= each
    ensures Sum(items) <= |items| * each
  {
    if items == [] {
    } else {
      SumBound(items[..|items| - 1], each);
      assert items[|items| - 1] in items;
      assert |items| * each == (|items| - 1) * each + each;
    }
  }

  lemma {:induction false} ResidentsFit(slots: nat, maxBytes: nat, ops: seq<Op>)
    requires slots >= 2
    ensures forall r :: r in Run(slots, maxBytes, ops).q.items ==> r.size <= maxBytes
  {
    if ops == [] {
    } else {
      ResidentsFit(slots, maxBytes, ops[..|ops| - 1]);
    }
  }

  /** Always: at most size-1 records of at most maxBytes each. */
  lemma LedgerBounded(slots: nat, maxBytes: nat, ops: seq<Op>)
    requires slots >= 2
    ensures Sum(Run(slots, maxBytes, ops).q.items) <= (slots - 1) * maxBytes
  {
    var items := Run(slots, maxBytes, ops).q.items;
    RunOrdered(slots, maxBytes, ops);
    ResidentsFit(slots, maxBytes, ops);
    SumBound(items, maxBytes);
    assert |items| * maxBytes <= (slots - 1) * maxBytes by { Scale(|items|, slots - 1, maxBytes); }
  }

  lemma Scale(a: nat, b: nat, c: nat)
    requires a <= b
    ensures a * c <= b * c
  {
  }

  predicate NonIncreasing(items: seq<Record>) {
    forall i, j :: 0 <= i < j < |items| ==> items[i].size >= items[j].size
  }

  /** One push keeps the ceiling exactly when the record fits once the oldest is gone. */
  lemma CeilingAfterPushIff(slots: nat, maxBytes: nat, q: Queue, rec: Record)
    requires slots >= 2 && !q.stopped && rec.req.Some? && rec.size <= maxBytes
    requires Sum(q.items) <= maxBytes
    ensures Sum(Push(slots, maxBytes, q, rec).items) <= maxBytes
      <==> q.items == [] || Sum(q.items[1..]) + rec.size <= maxBytes
  {
    SumPush(q.items, rec);
    if q.items != [] {
      SumHead(q.items);
      SumPush(q.items[1..], rec);
    }
  }

  /** The ceiling holds as long as no stored record is larger than one stored before it since the last batch. */
  lemma {:induction false} CeilingWhenShrinking(slots: nat, maxBytes: nat, ops: seq<Op>)
    requires slots >= 2
    requires forall k :: 0 <= k <= |ops| ==> NonIncreasing(Run(slots, maxBytes, ops[..k]).since)
    ensures Sum(Run(slots, maxBytes, ops).q.items) <= maxBytes
  {
    if ops == [] {
    } else {
      var n := |ops| - 1;
      forall k | 0 <= k <= n
        ensures NonIncreasing(Run(slots, maxBytes, ops[..n][..k]).since)
      {
        assert ops[..n][..k] == ops[..k];
      }
      CeilingWhenShrinking(slots, maxBytes, ops[..n]);
      RunOrdered(slots, maxBytes, ops[..n]);
      var h := Run(slots, maxBytes, ops[..n]);
      assert ops[..|ops|] == ops;
      assert NonIncreasing(Run(slots, maxBytes, ops).since);
      match ops[n]
      case Pushed(req) =>
        if !h.q.stopped && !Oversized(maxBytes, RecordOf(req)) {
          ShrinkingPush(slots, maxBytes, h, RecordOf(req));
        }
      case Popped =>
      case Stopped =>
    }
  }

  lemma ShrinkingPush(slots: nat, maxBytes: nat, h: History, rec: Record)
    requires slots >= 2 && !h.q.stopped && !Oversized(maxBytes, rec) && (rec.req.None? ==> rec.size == 0)
    requires Recent(slots, h) && NonIncreasing(h.since + [rec]) && Sum(h.q.items) <= maxBytes
    ensures Sum(Push(slots, maxBytes, h.q, rec).items) <= maxBytes
  {
    var items := h.q.items;
    SumPush(items, rec);
    if items != [] {
      SumHead(items);
      SumPush(items[1..], rec);
      assert items[0] == (h.since + [rec])[|h.since| - |items|];
      assert rec == (h.since + [rec])[|h.since|];
    }
  }

  /** Two small records and then one of the largest admitted size: one eviction is not enough, and the ceiling is passed. */
  lemma CeilingBroken(slots: nat, maxBytes: nat, small: Captured, large: Captured)
    requires slots >= 4
    requires 2 * RecordSize(small) <= maxBytes && RecordSize(large) == maxBytes
    ensures Sum(Run(slots, maxBytes, [Pushed(Some(small)), Pushed(Some(small)), Pushed(Some(large))]).q.items) > maxBytes
  {
    var s, l := RecordOf(Some(small)), RecordOf(Some(large));
    var ops := [Pushed(Some(small)), Pushed(Some(small)), Pushed(Some(large))];
    assert ops[..2][..1][..0] == [] && ops[..2][..1] == [Pushed(Some(small))];
    assert Sum([s]) == s.size by { assert [s][..0] == []; }
    assert Sum([s, s]) == 2 * s.size by { assert [s, s][..1] == [s]; }
    assert Run(slots, maxBytes, ops[..2][..1]).q.items == [s];
    assert Run(slots, maxBytes, ops[..2]).q.items == [s, s];
    assert Run(slots, maxBytes, ops).q.items == [s, l];
    assert [s, l][..1] == [s];
  }

  /**
   A push drops nothing exactly when the record fits the ceiling by itself and, with the residents, both the slots and the
   ceiling; a record counts for its three bodies and 2048 bytes. Otherwise one record is dropped: itself, or the oldest.
   */
  lemma PushDropsIff(slots: nat, maxBytes: nat, q: Queue, req: Option<Captured>)
    requires slots >= 2 && !q.stopped
    ensures var r := Push(slots, maxBytes, q, RecordOf(req));
      var size := if req.None? then 0
        else |req.value.reqBody| + |req.value.resBody| + |req.value.sseEvents| + 2048;
      var fits := req.None? || (size <= maxBytes && Sum(q.items) + size <= maxBytes);
      && (r.dropped == q.dropped <==> fits && (|q.items| != slots - 1))
      && (req.Some? && size > maxBytes ==> r == q.(dropped := q.dropped + [Record(req, size)]))
      && (req.None? || size <= maxBytes ==> r.items != [] && r.items[|r.items| - 1] == Record(req, size))
      && (r.dropped != q.dropped && (req.None? || size <= maxBytes) ==>
            q.items != [] && r.dropped == q.dropped + [q.items[0]])
  {
    hide Sum;
    var rec := RecordOf(req);
    if !Oversized(maxBytes, rec) && Evicts(slots, maxBytes, q, rec) {
      EvictsSomething(slots, maxBytes, q, rec);
    }
  }
}
