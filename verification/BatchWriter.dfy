/**
 The batch writer of internal/proxy/batch.go: enqueuers and Stop behind one mutex, a channel, and the workers that
 drain it. SaveBatch commits all or nothing; every store answer is part of the step that receives it.
 */
module BatchWriter {

  /** A request, by identity. */
  type Req = nat

  const ATTEMPTS: nat := 3

  /** `final` marks the flush after which the worker exits. */
  datatype Phase =
    | Running
    | Draining
    | Committing(attempt: nat, final: bool)
    | Settling(final: bool)
    | Exited

  /** `batch`: not yet settled; `calling`: saved, with onSave still to be called. */
  datatype Worker = Worker(phase: Phase, batch: seq<Req>, calling: seq<Req>)

  /** Who holds the mutex, and how far it has come. `holds` is a request in the hands of saveSync. */
  datatype Gate =
    | Free
    | Enqueuing(req: Req)
    | Stopping
    | Closing
    | WaitingForWorkers
    | DrainingRest
    | Syncing(req: Req, next: Gate)
    | CallingBack(req: Req, next: Gate)

  datatype State = State(
    accepted: seq<Req>, queue: seq<Req>, workers: seq<Worker>, gate: Gate,
    stopped: bool, closed: bool, finished: bool,
    saved: seq<Req>, failed: seq<Req>, called: seq<Req>)

  datatype WorkerStep = Take | Tick | SeeStop | DrainDone | Attempt(ok: bool) | Single(saved: bool) | Call | FlushDone

  datatype GateStep =
    | Enter(req: Req) | Offer
    | StopEnter | StopMark | StopClose | StopWait | DrainNext | DrainEnd
    | Save(stored: bool) | CallBack

  datatype Step = ByWorker(w: nat, act: WorkerStep) | AtGate(gate: GateStep)

  function Start(workers: nat): State {
    State([], [], seq(workers, _ => Worker(Running, [], [])), Free, false, false, false, [], [], [])
  }

  // ---- Workers ----

  predicate WorkerMay(s: State, w: nat, act: WorkerStep) {
    w < |s.workers| &&
    var me := s.workers[w];
    match act
    case Take => (me.phase.Running? || me.phase.Draining?) && s.queue != []
    case Tick => me.phase.Running?
    case SeeStop => me.phase.Running? && s.closed
    case DrainDone => me.phase.Draining? && s.queue == []
    case Attempt(_) => me.phase.Committing?
    case Single(_) => me.phase.Settling? && me.batch != [] && me.calling == []
    case Call => me.calling != []
    case FlushDone => me.phase.Settling? && me.batch == [] && me.calling == []
  }

  function Flushing(batch: seq<Req>, final: bool): Phase {
    if batch != [] then Committing(1, final) else if final then Exited else Running
  }

  function WorkerDoes(s: State, size: nat, w: nat, act: WorkerStep): (t: State)
    requires WorkerMay(s, w, act)
    ensures |t.workers| == |s.workers|
    ensures t == s.(workers := s.workers[w := t.workers[w]], queue := t.queue,
                    saved := t.saved, failed := t.failed, called := t.called)
  {
    var me := s.workers[w];
    match act
    case Take =>
      var batch := me.batch + [s.queue[0]];
      var phase := if me.phase.Running? && |batch| >= size then Flushing(batch, false) else me.phase;
      s.(queue := s.queue[1..], workers := s.workers[w := Worker(phase, batch, me.calling)])
    case Tick => s.(workers := s.workers[w := me.(phase := Flushing(me.batch, false))])
    case SeeStop => s.(workers := s.workers[w := me.(phase := Draining)])
    case DrainDone => s.(workers := s.workers[w := me.(phase := Flushing(me.batch, true))])
    case Attempt(ok) =>
      if ok then
        s.(workers := s.workers[w := Worker(Settling(me.phase.final), [], me.batch)], saved := s.saved + me.batch)
      else if me.phase.attempt < ATTEMPTS then
        s.(workers := s.workers[w := me.(phase := Committing(me.phase.attempt + 1, me.phase.final))])
      else s.(workers := s.workers[w := me.(phase := Settling(me.phase.final))])
    case Single(saved) =>
      var first, rest := me.batch[0], me.batch[1..];
      if saved then s.(workers := s.workers[w := Worker(me.phase, rest, [first])], saved := s.saved + [first])
      else s.(workers := s.workers[w := me.(batch := rest)], failed := s.failed + [first])
    case Call =>
      s.(workers := s.workers[w := me.(calling := me.calling[1..])], called := s.called + [me.calling[0]])
    case FlushDone => s.(workers := s.workers[w := me.(phase := if me.phase.final then Exited else Running)])
  }

  // ---- The mutex: Enqueue, saveSync and Stop ----

  predicate AllExited(s: State) {
    forall w :: 0 <= w < |s.workers| ==> s.workers[w].phase.Exited?
  }

  predicate GateMay(s: State, step: GateStep) {
    match step
    case Enter(_) => s.gate.Free?
    case Offer => s.gate.Enqueuing?
    case StopEnter => s.gate.Free?
    case StopMark => s.gate.Stopping?
    case StopClose => s.gate.Closing?
    case StopWait => s.gate.WaitingForWorkers? && AllExited(s)
    case DrainNext => s.gate.DrainingRest? && s.queue != []
    case DrainEnd => s.gate.DrainingRest? && s.queue == []
    case Save(_) => s.gate.Syncing?
    case CallBack => s.gate.CallingBack?
  }

  function GateDoes(s: State, capacity: nat, step: GateStep): (t: State)
    requires GateMay(s, step)
    ensures t.workers == s.workers
  {
    match step
    case Enter(req) => s.(gate := Enqueuing(req), accepted := s.accepted + [req])
    case Offer =>
      if !s.stopped && |s.queue| < capacity then s.(queue := s.queue + [s.gate.req], gate := Free)
      else s.(gate := Syncing(s.gate.req, Free))
    case StopEnter => s.(gate := Stopping)
    case StopMark => if s.stopped then s.(gate := Free) else s.(stopped := true, gate := Closing)
    case StopClose => s.(closed := true, gate := WaitingForWorkers)
    case StopWait => s.(gate := DrainingRest)
    case DrainNext => s.(queue := s.queue[1..], gate := Syncing(s.queue[0], DrainingRest))
    case DrainEnd => s.(gate := Free, finished := true)
    case Save(stored) =>
      if stored then s.(saved := s.saved + [s.gate.req], gate := CallingBack(s.gate.req, s.gate.next))
      else s.(failed := s.failed + [s.gate.req], gate := s.gate.next)
    case CallBack => s.(called := s.called + [s.gate.req], gate := s.gate.next)
  }

  predicate Enabled(s: State, step: Step) {
    match step
    case ByWorker(w, act) => WorkerMay(s, w, act)
    case AtGate(gate) => GateMay(s, gate)
  }

  function Apply(s: State, size: nat, capacity: nat, step: Step): State
    requires Enabled(s, step)
  {
    match step
    case ByWorker(w, act) => WorkerDoes(s, size, w, act)
    case AtGate(gate) => GateDoes(s, capacity, gate)
  }

  predicate Legal(s: State, size: nat, capacity: nat, steps: seq<Step>)
    decreases |steps|
  {
    steps == [] ||
    (Enabled(s, steps[0]) && Legal(Apply(s, size, capacity, steps[0]), size, capacity, steps[1..]))
  }

  function After(s: State, size: nat, capacity: nat, steps: seq<Step>): State
    requires Legal(s, size, capacity, steps)
    decreases |steps|
  {
    if steps == [] then s else After(Apply(s, size, capacity, steps[0]), size, capacity, steps[1..])
  }

  // ---- Where each request is ----

  function Count(q: seq<Req>, x: Req): nat {
    multiset(q)[x]
  }

  lemma CountAppend(a: seq<Req>, b: seq<Req>, x: Req)
    ensures Count(a + b, x) == Count(a, x) + Count(b, x)
  {
  }

  function One(y: Req, x: Req): nat {
    if y == x then 1 else 0
  }

  lemma CountPush(a: seq<Req>, y: Req, x: Req)
    ensures Count(a + [y], x) == Count(a, x) + One(y, x)
  {
  }

  lemma CountPop(q: seq<Req>, x: Req)
    requires q != []
    ensures Count(q, x) == One(q[0], x) + Count(q[1..], x)
  {
    assert q == [q[0]] + q[1..];
  }

  lemma CountNone(x: Req)
    ensures Count([], x) == 0
  {
  }

  function Batched(workers: seq<Worker>, x: Req): nat {
    if workers == [] then 0
    else Batched(workers[..|workers| - 1], x) + Count(workers[|workers| - 1].batch, x)
  }

  function Calling(workers: seq<Worker>, x: Req): nat {
    if workers == [] then 0
    else Calling(workers[..|workers| - 1], x) + Count(workers[|workers| - 1].calling, x)
  }

  /** In the mutex holder's hands, not yet queued or settled. */
  function Held(gate: Gate, x: Req): nat {
    if gate.Enqueuing? || gate.Syncing? then One(gate.req, x) else 0
  }

  function HeldCall(gate: Gate, x: Req): nat {
    if gate.CallingBack? then One(gate.req, x) else 0
  }

  /** As often as `x` was accepted, it is in one place: held, queued, in a batch, saved or failed. */
  predicate Conserved(s: State, x: Req) {
    Count(s.accepted, x) ==
      Held(s.gate, x) + Count(s.queue, x) + Batched(s.workers, x) + Count(s.saved, x) + Count(s.failed, x)
  }

  /** onSave has been called once for each save of `x`, or is about to be. */
  predicate Announced(s: State, x: Req) {
    Count(s.saved, x) == Count(s.called, x) + Calling(s.workers, x) + HeldCall(s.gate, x)
  }

  lemma {:induction false} WorkerUpdate(workers: seq<Worker>, w: nat, to: Worker, x: Req)
    requires w < |workers|
    ensures Batched(workers[w := to], x) + Count(workers[w].batch, x) == Batched(workers, x) + Count(to.batch, x)
    ensures Calling(workers[w := to], x) + Count(workers[w].calling, x) == Calling(workers, x) + Count(to.calling, x)
    decreases |workers|
  {
    hide Count;
    var n := |workers| - 1;
    var updated := workers[w := to];
    if w < n {
      WorkerUpdate(workers[..n], w, to, x);
      assert updated[..n] == workers[..n][w := to];
    } else {
      assert updated[..n] == workers[..n];
    }
  }

  /** What a worker's step moves: out of the queue, between its batch and its calls, into saved, failed or called. */
  predicate Balanced(s: State, t: State, w: nat, x: Req)
    requires w < |s.workers| && w < |t.workers|
  {
    var me, to := s.workers[w], t.workers[w];
    && Count(t.queue, x) + Count(to.batch, x) + Count(t.saved, x) + Count(t.failed, x)
       == Count(s.queue, x) + Count(me.batch, x) + Count(s.saved, x) + Count(s.failed, x)
    && Count(t.saved, x) + Count(me.calling, x) + Count(s.called, x)
       == Count(s.saved, x) + Count(to.calling, x) + Count(t.called, x)
  }

  /** Only a settling worker has calls to make; one that has seen the channel closed and empty will not see it refilled. */
  predicate WorkerOk(s: State, w: nat)
    requires w < |s.workers|
  {
    var me := s.workers[w];
    && (!me.phase.Settling? ==> me.calling == [])
    && (me.phase.Exited? ==> me.batch == [])
    && (me.phase.Exited? || (me.phase.Committing? && me.phase.final) || (me.phase.Settling? && me.phase.final)
        ==> s.closed && s.queue == [])
    && (me.phase.Draining? ==> s.closed)
  }

  lemma WorkerBalances(s: State, size: nat, w: nat, act: WorkerStep, x: Req)
    requires WorkerMay(s, w, act) && WorkerOk(s, w)
    ensures Balanced(s, WorkerDoes(s, size, w, act), w, x)
  {
    hide Count, One, Flushing;
    var me := s.workers[w];
    CountNone(x);
    match act
    case Take =>
      CountPop(s.queue, x);
      CountPush(me.batch, s.queue[0], x);
    case Tick =>
    case SeeStop =>
    case DrainDone =>
    case Attempt(ok) => CountAppend(s.saved, me.batch, x);
    case Single(saved) =>
      CountPop(me.batch, x);
      CountPush(s.saved, me.batch[0], x);
      CountPush(s.failed, me.batch[0], x);
      CountPush([], me.batch[0], x);
      assert [] + [me.batch[0]] == [me.batch[0]];
    case Call =>
      CountPop(me.calling, x);
      CountPush(s.called, me.calling[0], x);
    case FlushDone =>
  }

  lemma BalancedConserves(s: State, t: State, w: nat, x: Req)
    requires w < |s.workers| && w < |t.workers| && t.workers == s.workers[w := t.workers[w]]
    requires t.accepted == s.accepted && t.gate == s.gate
    requires Balanced(s, t, w, x) && Conserved(s, x) && Announced(s, x)
    ensures Conserved(t, x) && Announced(t, x)
  {
    hide Count, Batched, Calling, One;
    WorkerUpdate(s.workers, w, t.workers[w], x);
  }

  lemma GateConserves(s: State, capacity: nat, step: GateStep, x: Req)
    requires GateMay(s, step) && Conserved(s, x) && Announced(s, x) && GateOk(s)
    ensures Conserved(GateDoes(s, capacity, step), x) && Announced(GateDoes(s, capacity, step), x)
  {
    hide Count, Batched, Calling, AllExited, One;
    match step
    case Enter(req) => CountPush(s.accepted, req, x);
    case Offer => CountPush(s.queue, s.gate.req, x);
    case DrainNext => CountPop(s.queue, x);
    case Save(stored) =>
      CountPush(s.saved, s.gate.req, x);
      CountPush(s.failed, s.gate.req, x);
    case CallBack => CountPush(s.called, s.gate.req, x);
    case _ =>
  }

  // ---- Order of the stop ----

  /** The mutex holder's continuation holds nothing; the stop proceeds in order, and drains only behind exited workers. */
  predicate GateOk(s: State) {
    && (s.gate.Syncing? || s.gate.CallingBack? ==> s.gate.next.Free? || s.gate.next.DrainingRest?)
    && (s.closed ==> s.stopped)
    && (s.gate.Closing? || s.gate.WaitingForWorkers? ==> s.stopped)
    && (s.gate.WaitingForWorkers? ==> s.closed)
    && (Rest(s.gate) || s.finished ==> s.closed && AllExited(s))
  }

  /** Stop's final drain is under way. */
  predicate Rest(gate: Gate) {
    gate.DrainingRest? || ((gate.Syncing? || gate.CallingBack?) && gate.next.DrainingRest?)
  }

  predicate WorkersOk(s: State) {
    forall w :: 0 <= w < |s.workers| ==> WorkerOk(s, w)
  }

  predicate Inv(s: State, x: Req) {
    Conserved(s, x) && Announced(s, x) && WorkersOk(s) && GateOk(s)
  }

  lemma WorkerKeepsOk(s: State, size: nat, w: nat, act: WorkerStep, v: nat)
    requires WorkerMay(s, w, act) && WorkersOk(s) && v < |s.workers|
    ensures WorkerOk(WorkerDoes(s, size, w, act), v)
  {
    assert WorkerOk(s, w) && WorkerOk(s, v);
  }

  lemma WorkerKeepsGate(s: State, size: nat, w: nat, act: WorkerStep)
    requires WorkerMay(s, w, act) && WorkersOk(s) && GateOk(s)
    ensures GateOk(WorkerDoes(s, size, w, act))
  {
    assert WorkerOk(s, w);
  }

  lemma GateKeepsOk(s: State, capacity: nat, step: GateStep)
    requires GateMay(s, step) && WorkersOk(s) && GateOk(s)
    ensures WorkersOk(GateDoes(s, capacity, step)) && GateOk(GateDoes(s, capacity, step))
  {
    var t := GateDoes(s, capacity, step);
    forall w | 0 <= w < |t.workers|
      ensures WorkerOk(t, w)
    {
      assert WorkerOk(s, w);
    }
  }

  lemma StepInv(s: State, size: nat, capacity: nat, step: Step, x: Req)
    requires Inv(s, x) && Enabled(s, step)
    ensures Inv(Apply(s, size, capacity, step), x)
  {
    hide Conserved, Announced, GateOk, WorkerOk, WorkerMay, WorkerDoes, GateMay, GateDoes;
    match step
    case ByWorker(w, act) =>
      var t := WorkerDoes(s, size, w, act);
      assert w < |s.workers| by { WorkerInRange(s, w, act); }
      assert WorkerOk(s, w);
      WorkerBalances(s, size, w, act, x);
      BalancedConserves(s, t, w, x);
      WorkerKeepsGate(s, size, w, act);
      forall v | 0 <= v < |t.workers|
        ensures WorkerOk(t, v)
      {
        WorkerKeepsOk(s, size, w, act, v);
      }
    case AtGate(gate) =>
      GateConserves(s, capacity, gate, x);
      GateKeepsOk(s, capacity, gate);
  }

  lemma WorkerInRange(s: State, w: nat, act: WorkerStep)
    requires WorkerMay(s, w, act)
    ensures w < |s.workers|
  {
  }

  lemma {:induction false} RunInv(s: State, size: nat, capacity: nat, steps: seq<Step>, x: Req)
    requires Inv(s, x) && Legal(s, size, capacity, steps)
    ensures Inv(After(s, size, capacity, steps), x)
    decreases |steps|
  {
    if steps == [] {
    } else {
      hide Inv, Enabled, Apply;
      StepInv(s, size, capacity, steps[0], x);
      RunInv(Apply(s, size, capacity, steps[0]), size, capacity, steps[1..], x);
    }
  }

  lemma {:induction false} IdleHoldNothing(workers: seq<Worker>, x: Req)
    requires forall w :: 0 <= w < |workers| ==> workers[w].batch == [] && workers[w].calling == []
    ensures Batched(workers, x) == 0 && Calling(workers, x) == 0
  {
    if workers == [] {
    } else {
      IdleHoldNothing(workers[..|workers| - 1], x);
    }
  }

  lemma ReachedInv(workers: nat, size: nat, capacity: nat, steps: seq<Step>, x: Req)
    requires Legal(Start(workers), size, capacity, steps)
    ensures Inv(After(Start(workers), size, capacity, steps), x)
  {
    IdleHoldNothing(Start(workers).workers, x);
    RunInv(Start(workers), size, capacity, steps, x);
  }

  // ---- Main results: any enqueuers, any number of workers from one on, one mutex, any store answers ----

  /** Every request is in exactly one place, and onSave goes with being saved: at most once each, never for a failed one. */
  lemma EachInOnePlace(workers: nat, size: nat, capacity: nat, steps: seq<Step>, x: Req)
    requires Legal(Start(workers), size, capacity, steps)
    requires Count(After(Start(workers), size, capacity, steps).accepted, x) == 1
    ensures var s := After(Start(workers), size, capacity, steps);
      && Held(s.gate, x) + Count(s.queue, x) + Batched(s.workers, x) + Count(s.saved, x) + Count(s.failed, x) == 1
      && Count(s.called, x) + Calling(s.workers, x) + HeldCall(s.gate, x) == Count(s.saved, x)
      && (x in s.failed ==> x !in s.called)
  {
    hide Batched, Calling, Start, Legal, After;
    ReachedInv(workers, size, capacity, steps, x);
  }

  /** When the workers have exited the channel is empty: Stop's final drain finds nothing to save. */
  lemma DrainFindsNothing(workers: nat, size: nat, capacity: nat, steps: seq<Step>)
    requires workers >= 1 && Legal(Start(workers), size, capacity, steps)
    ensures var s := After(Start(workers), size, capacity, steps);
      && |s.workers| == workers
      && (AllExited(s) ==> s.queue == [])
      && !GateMay(s, DrainNext)
  {
    hide Conserved, Announced;
    ReachedInv(workers, size, capacity, steps, 0);
    WorkersStay(Start(workers), size, capacity, steps);
    var s := After(Start(workers), size, capacity, steps);
    assert WorkerOk(s, 0);
  }

  lemma {:induction false} WorkersStay(s: State, size: nat, capacity: nat, steps: seq<Step>)
    requires Legal(s, size, capacity, steps)
    ensures |After(s, size, capacity, steps).workers| == |s.workers|
    decreases |steps|
  {
    if steps == [] {
    } else {
      hide WorkerDoes, GateDoes, WorkerMay, GateMay;
      WorkersStay(Apply(s, size, capacity, steps[0]), size, capacity, steps[1..]);
    }
  }

  /**
   After Stop has returned every accepted request is saved and announced, or failed, or in the hands of an enqueuer that
   is saving it itself.
   */
  lemma StopSettlesAll(workers: nat, size: nat, capacity: nat, steps: seq<Step>)
    requires workers >= 1 && Legal(Start(workers), size, capacity, steps)
    requires After(Start(workers), size, capacity, steps).finished
    ensures var s := After(Start(workers), size, capacity, steps);
      && s.queue == []
      && (forall x: Req :: Count(s.accepted, x) == Held(s.gate, x) + Count(s.saved, x) + Count(s.failed, x)
                           && Count(s.saved, x) == Count(s.called, x) + HeldCall(s.gate, x))
      && (s.gate.Free? ==> multiset(s.accepted) == multiset(s.saved) + multiset(s.failed)
                           && multiset(s.called) == multiset(s.saved))
  {
    hide WorkerDoes, GateDoes, WorkerMay, GateMay, Start, Legal, After;
    var s := After(Start(workers), size, capacity, steps);
    DrainFindsNothing(workers, size, capacity, steps);
    ReachedInv(workers, size, capacity, steps, 0);
    forall x: Req
      ensures Count(s.accepted, x) == Held(s.gate, x) + Count(s.saved, x) + Count(s.failed, x)
      ensures Count(s.saved, x) == Count(s.called, x) + HeldCall(s.gate, x)
    {
      ReachedInv(workers, size, capacity, steps, x);
      forall w | 0 <= w < |s.workers|
        ensures s.workers[w].batch == [] && s.workers[w].calling == []
      {
        assert WorkerOk(s, w);
      }
      IdleHoldNothing(s.workers, x);
      CountNone(x);
    }
    if s.gate.Free? {
      SameCounts(s.accepted, s.saved, s.failed);
      SameCounts(s.called, s.saved, []);
    }
  }

  lemma SameCounts(a: seq<Req>, b: seq<Req>, c: seq<Req>)
    requires forall x: Req :: Count(a, x) == Count(b, x) + Count(c, x)
    ensures multiset(a) == multiset(b) + multiset(c)
  {
    assert forall x: Req :: multiset(a)[x] == Count(a, x);
  }

  // ---- Admission, batch size, attempts ----

  /** A request is queued while the writer runs and the channel has room, and otherwise saved by its enqueuer itself. */
  lemma OfferedIff(s: State, capacity: nat)
    requires s.gate.Enqueuing?
    ensures var t := GateDoes(s, capacity, Offer);
      if !s.stopped && |s.queue| < capacity then t == s.(queue := s.queue + [s.gate.req], gate := Free)
      else t == s.(gate := Syncing(s.gate.req, Free))
  {
  }

  /** A running worker's batch is below the batch size. */
  predicate BelowSize(s: State, size: nat) {
    forall w :: 0 <= w < |s.workers| && s.workers[w].phase.Running? ==> |s.workers[w].batch| < size
  }

  lemma {:induction false} BatchesBounded(workers: nat, size: nat, capacity: nat, steps: seq<Step>)
    requires size >= 1 && Legal(Start(workers), size, capacity, steps)
    ensures BelowSize(After(Start(workers), size, capacity, steps), size)
  {
    BelowSizeRun(Start(workers), size, capacity, steps);
  }

  lemma {:induction false} BelowSizeRun(s: State, size: nat, capacity: nat, steps: seq<Step>)
    requires size >= 1 && Legal(s, size, capacity, steps) && BelowSize(s, size)
    ensures BelowSize(After(s, size, capacity, steps), size)
    decreases |steps|
  {
    if steps == [] {
    } else {
      hide GateDoes, GateMay;
      assert BelowSize(Apply(s, size, capacity, steps[0]), size);
      BelowSizeRun(Apply(s, size, capacity, steps[0]), size, capacity, steps[1..]);
    }
  }

  /** A worker gives a batch up for single saves after exactly three failed commits. */
  lemma ThreeAttempts(s: State, size: nat, w: nat)
    requires WorkerMay(s, w, Tick) && s.workers[w].batch != []
    ensures var fail := Attempt(false);
      var s1 := WorkerDoes(s, size, w, Tick);
      && WorkerMay(s1, w, fail)
      && var s2 := WorkerDoes(s1, size, w, fail);
      && WorkerMay(s2, w, fail)
      && var s3 := WorkerDoes(s2, size, w, fail);
      && WorkerMay(s3, w, fail)
      && var s4 := WorkerDoes(s3, size, w, fail);
      s4 == s.(workers := s.workers[w := s.workers[w].(phase := Settling(false))]) && !WorkerMay(s4, w, fail)
  {
  }

  /** The worker has seen the stop: it drains, flushes once more and exits. */
  predicate Leaving(phase: Phase) {
    match phase
    case Draining => true
    case Committing(_, final) => final
    case Settling(final) => final
    case _ => phase.Exited?
  }

  /** A leaving worker never runs again; it flushes only once the queue has been found empty. */
  lemma LeavesForGood(s: State, size: nat, capacity: nat, step: Step, w: nat)
    requires Enabled(s, step) && w < |s.workers| && Leaving(s.workers[w].phase)
    ensures var t := Apply(s, size, capacity, step);
      && |t.workers| == |s.workers| && Leaving(t.workers[w].phase)
      && (s.workers[w].phase.Draining? && !t.workers[w].phase.Draining? ==> s.queue == [])
  {
  }
}
