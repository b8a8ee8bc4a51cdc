/**
 The manual-review protocol of internal/proxy/interceptor.go, as the steps that its handlers, its resolvers and Stop
 take under its locks. Any interleaving of enabled steps is a run; ids are distinct.
 */
module Interceptor {

  const MAX_PENDING: nat := 512
  const LOG_CAPACITY: nat := 1024

  /** A decision stands for the whole InterceptResult that Resolve hands over. */
  type Decision = nat

  datatype Outcome = Rejected | Decided(d: Decision) | TimedOut

  /** Where a handler stands. The logging states hold the read lock and have seen the log open. */
  datatype Handler =
    | Ready
    | Refused
    | RefusedLogging
    | Waiting
    | Fired
    | Expired
    | Removed
    | RemovedLogging
    | Returned(outcome: Outcome)

  /** Where a call of Resolve stands. */
  datatype Resolver =
    | Calling(id: nat, d: Decision)
    | NotFound(id: nat)
    | Took(id: nat, d: Decision)
    | Halted(id: nat, d: Decision)
    | Logging(id: nat, d: Decision)
    | Sending(id: nat, d: Decision)
    | Done(id: nat, d: Decision)

  /** `inbox`: the one-place result channels. `owner`: which resolver took an id out of `pending`; bookkeeping only. */
  datatype State = State(
    handlers: map<nat, Handler>, resolvers: map<nat, Resolver>,
    pending: set<nat>, inbox: map<nat, Decision>, armed: set<nat>, owner: map<nat, nat>,
    locked: bool, closed: bool, logged: nat)

  datatype HandlerStep = Enqueue | LogOpen | LogDone | Receive | Fire | Recheck | Remove

  datatype ResolverStep = Take | Halt | TellOpen | TellDone | Send

  datatype LogStep = Write | StopLock | StopClose

  datatype Step = ByHandler(h: nat, move: HandlerStep) | ByResolver(r: nat, turn: ResolverStep) | OnLog(log: LogStep)

  function Start(handlers: set<nat>, calls: map<nat, (nat, Decision)>): State {
    State(map h | h in handlers :: Ready, map r | r in calls :: Calling(calls[r].0, calls[r].1),
          {}, map[], handlers, map[], false, false, 0)
  }

  // ---- Steps ----

  /** A read lock on the log is held by whoever is about to send on it. */
  predicate NoReaders(s: State) {
    && (forall h :: h in s.handlers ==> !s.handlers[h].RefusedLogging? && !s.handlers[h].RemovedLogging?)
    && (forall r :: r in s.resolvers ==> !s.resolvers[r].Logging?)
  }

  predicate HandlerMay(s: State, h: nat, move: HandlerStep) {
    h in s.handlers &&
    match move
    case Enqueue => s.handlers[h].Ready?
    case LogOpen => (s.handlers[h].Refused? || s.handlers[h].Removed?) && !s.locked
    case LogDone => s.handlers[h].RefusedLogging? || s.handlers[h].RemovedLogging?
    case Receive => s.handlers[h].Waiting? && h in s.inbox
    case Fire => s.handlers[h].Waiting? && h in s.armed
    case Recheck => s.handlers[h].Fired?
    case Remove => s.handlers[h].Expired?
  }

  /** A send on a full result channel would block: it is not enabled. */
  predicate ResolverMay(s: State, r: nat, turn: ResolverStep) {
    r in s.resolvers &&
    match turn
    case Take => s.resolvers[r].Calling?
    case Halt => s.resolvers[r].Took?
    case TellOpen => s.resolvers[r].Halted? && !s.locked
    case TellDone => s.resolvers[r].Logging?
    case Send => s.resolvers[r].Sending? && s.resolvers[r].id !in s.inbox
  }

  predicate LogMay(s: State, log: LogStep) {
    match log
    case Write => s.logged > 0
    case StopLock => !s.locked && !s.closed && NoReaders(s)
    case StopClose => s.locked
  }

  predicate Enabled(s: State, step: Step) {
    match step
    case ByHandler(h, move) => HandlerMay(s, h, move)
    case ByResolver(r, turn) => ResolverMay(s, r, turn)
    case OnLog(log) => LogMay(s, log)
  }

  function AfterLog(h: Handler): Handler {
    if h.Refused? || h.RefusedLogging? then Returned(Rejected) else Returned(TimedOut)
  }

  /** A log entry is queued, or dropped when the queue is full. */
  function Queued(logged: nat): nat {
    if logged < LOG_CAPACITY then logged + 1 else logged
  }

  function Move(s: State, h: nat, to: Handler): State {
    s.(handlers := s.handlers[h := to])
  }

  function Advance(s: State, r: nat, to: Resolver): State {
    s.(resolvers := s.resolvers[r := to])
  }

  function HandlerDoes(s: State, h: nat, move: HandlerStep): (t: State)
    requires HandlerMay(s, h, move)
    ensures h in t.handlers && t.handlers == s.handlers[h := t.handlers[h]]
    ensures t.resolvers == s.resolvers && t.owner == s.owner && t.locked == s.locked && t.closed == s.closed
  {
    match move
    case Enqueue =>
      if |s.pending| >= MAX_PENDING then Move(s, h, Refused).(armed := s.armed - {h})
      else Move(s, h, Waiting).(pending := s.pending + {h})
    case LogOpen =>
      if s.closed then Move(s, h, AfterLog(s.handlers[h]))
      else Move(s, h, if s.handlers[h].Refused? then RefusedLogging else RemovedLogging)
    case LogDone => Move(s, h, AfterLog(s.handlers[h])).(logged := Queued(s.logged))
    case Receive => Move(s, h, Returned(Decided(s.inbox[h]))).(inbox := s.inbox - {h})
    case Fire => Move(s, h, Fired).(armed := s.armed - {h})
    case Recheck =>
      if h in s.inbox then Move(s, h, Returned(Decided(s.inbox[h]))).(inbox := s.inbox - {h})
      else Move(s, h, Expired)
    case Remove => Move(s, h, Removed).(pending := s.pending - {h})
  }

  function ResolverDoes(s: State, r: nat, turn: ResolverStep): (t: State)
    requires ResolverMay(s, r, turn)
    ensures t.handlers == s.handlers && t.resolvers.Keys == s.resolvers.Keys
  {
    var call := s.resolvers[r];
    match turn
    case Take =>
      if call.id in s.pending then
        Advance(s, r, Took(call.id, call.d)).(pending := s.pending - {call.id}, owner := s.owner[call.id := r])
      else Advance(s, r, NotFound(call.id))
    case Halt => Advance(s, r, Halted(call.id, call.d)).(armed := s.armed - {call.id})
    case TellOpen => Advance(s, r, if s.closed then Sending(call.id, call.d) else Logging(call.id, call.d))
    case TellDone => Advance(s, r, Sending(call.id, call.d)).(logged := Queued(s.logged))
    case Send => Advance(s, r, Done(call.id, call.d)).(inbox := s.inbox[call.id := call.d])
  }

  function LogDoes(s: State, log: LogStep): (t: State)
    requires LogMay(s, log)
    ensures t == s.(locked := t.locked, closed := t.closed, logged := t.logged)
  {
    match log
    case Write => s.(logged := s.logged - 1)
    case StopLock => s.(locked := true)
    case StopClose => s.(locked := false, closed := true)
  }

  function Apply(s: State, step: Step): (t: State)
    requires Enabled(s, step)
    ensures t.handlers.Keys == s.handlers.Keys && t.resolvers.Keys == s.resolvers.Keys
  {
    match step
    case ByHandler(h, move) => HandlerDoes(s, h, move)
    case ByResolver(r, turn) => ResolverDoes(s, r, turn)
    case OnLog(log) => LogDoes(s, log)
  }

  predicate Legal(s: State, steps: seq<Step>)
    decreases |steps|
  {
    steps == [] || (Enabled(s, steps[0]) && Legal(Apply(s, steps[0]), steps[1..]))
  }

  function After(s: State, steps: seq<Step>): (t: State)
    requires Legal(s, steps)
    ensures t.handlers.Keys == s.handlers.Keys && t.resolvers.Keys == s.resolvers.Keys
    decreases |steps|
  {
    if steps == [] then s else After(Apply(s, steps[0]), steps[1..])
  }

  // ---- The invariant ----

  predicate InQueue(h: Handler) {
    h.Waiting? || h.Fired? || h.Expired?
  }

  predicate NotQueued(h: Handler) {
    h.Ready? || h.Refused? || h.RefusedLogging? || h == Returned(Rejected)
  }

  /** The resolver has taken its id out of the queue: its call succeeds. */
  predicate Owns(r: Resolver) {
    !r.Calling? && !r.NotFound?
  }

  /** What holds of the handler `h` and of whatever resolver took it. */
  predicate HandlerInv(s: State, h: nat)
    requires h in s.handlers
  {
    var at := s.handlers[h];
    if h !in s.owner then
      && h !in s.inbox && !(at.Returned? && at.outcome.Decided?)
      && (h in s.pending <==> InQueue(at))
      && (at.Ready? || at.Waiting? ==> h in s.armed)
    else
      && h !in s.pending && !NotQueued(at)
      && s.owner[h] in s.resolvers && Owns(s.resolvers[s.owner[h]]) && s.resolvers[s.owner[h]].id == h
      && var call := s.resolvers[s.owner[h]];
      && (call.Took? && at.Waiting? ==> h in s.armed)
      && if !call.Done? then h !in s.inbox && !(at.Returned? && at.outcome.Decided?)
         else if h in s.inbox then s.inbox[h] == call.d && !(at.Returned? && at.outcome.Decided?)
         else at == Returned(Decided(call.d))
  }

  predicate ResolverInv(s: State, r: nat)
    requires r in s.resolvers
  {
    Owns(s.resolvers[r]) ==> s.resolvers[r].id in s.owner && s.owner[s.resolvers[r].id] == r
  }

  predicate Sizes(s: State) {
    && |s.pending| <= MAX_PENDING && s.logged <= LOG_CAPACITY
    && s.pending <= s.handlers.Keys && s.owner.Keys <= s.handlers.Keys && s.inbox.Keys <= s.handlers.Keys
  }

  predicate Handlers(s: State) {
    forall h :: h in s.handlers ==> HandlerInv(s, h)
  }

  predicate Resolvers(s: State) {
    forall r :: r in s.resolvers ==> ResolverInv(s, r)
  }

  /** Nobody holds the read lock while Stop holds the lock, nor ever after. */
  predicate LogInv(s: State) {
    (s.locked || s.closed) ==> NoReaders(s)
  }

  predicate Inv(s: State) {
    Sizes(s) && Handlers(s) && Resolvers(s) && LogInv(s)
  }

  lemma StartInv(handlers: set<nat>, calls: map<nat, (nat, Decision)>)
    ensures Inv(Start(handlers, calls))
  {
  }

  lemma HandlerKeepsSizes(s: State, h: nat, move: HandlerStep)
    requires Sizes(s) && HandlerMay(s, h, move)
    ensures Sizes(HandlerDoes(s, h, move))
  {
  }

  lemma ResolverKeepsSizes(s: State, r: nat, turn: ResolverStep)
    requires Sizes(s) && Resolvers(s) && ResolverMay(s, r, turn)
    ensures Sizes(ResolverDoes(s, r, turn))
  {
    assert ResolverInv(s, r);
  }

  /** What a state says about one handler. */
  predicate SameAt(s: State, t: State, h: nat) {
    && h in s.handlers && h in t.handlers && t.handlers[h] == s.handlers[h]
    && (h in t.pending <==> h in s.pending) && (h in t.armed <==> h in s.armed)
    && (h in t.inbox <==> h in s.inbox) && (h in s.inbox ==> t.inbox[h] == s.inbox[h])
    && (h in t.owner <==> h in s.owner) && (h in s.owner ==> t.owner[h] == s.owner[h])
  }

  lemma HandlerFrame(s: State, t: State, h: nat)
    requires SameAt(s, t, h) && HandlerInv(s, h)
    requires h in s.owner ==> s.owner[h] in t.resolvers && t.resolvers[s.owner[h]] == s.resolvers[s.owner[h]]
    ensures HandlerInv(t, h)
  {
  }

  lemma HandlerKeepsItself(s: State, h: nat, move: HandlerStep)
    requires h in s.handlers && HandlerInv(s, h) && HandlerMay(s, h, move)
    ensures HandlerInv(HandlerDoes(s, h, move), h)
  {
    hide HandlerInv, HandlerMay, HandlerDoes;
    match move
    case Enqueue => EnqueueKeeps(s, h);
    case LogOpen => LoggingKeeps(s, h, move);
    case LogDone => LoggingKeeps(s, h, move);
    case Receive => WaitingKeeps(s, h, move);
    case Fire => WaitingKeeps(s, h, move);
    case Recheck => ExpiringKeeps(s, h, move);
    case Remove => ExpiringKeeps(s, h, move);
  }

  lemma EnqueueKeeps(s: State, h: nat)
    requires h in s.handlers && HandlerInv(s, h) && HandlerMay(s, h, Enqueue)
    ensures HandlerInv(HandlerDoes(s, h, Enqueue), h)
  {
    hide Queued;
  }

  lemma LoggingKeeps(s: State, h: nat, move: HandlerStep)
    requires h in s.handlers && HandlerInv(s, h) && HandlerMay(s, h, move) && (move.LogOpen? || move.LogDone?)
    ensures HandlerInv(HandlerDoes(s, h, move), h)
  {
    hide Queued;
  }

  lemma WaitingKeeps(s: State, h: nat, move: HandlerStep)
    requires h in s.handlers && HandlerInv(s, h) && HandlerMay(s, h, move) && (move.Receive? || move.Fire?)
    ensures HandlerInv(HandlerDoes(s, h, move), h)
  {
    hide Queued, AfterLog;
  }

  lemma ExpiringKeeps(s: State, h: nat, move: HandlerStep)
    requires h in s.handlers && HandlerInv(s, h) && HandlerMay(s, h, move) && (move.Recheck? || move.Remove?)
    ensures HandlerInv(HandlerDoes(s, h, move), h)
  {
    hide Queued, AfterLog;
  }

  lemma HandlerLeavesOthers(s: State, h: nat, move: HandlerStep, other: nat)
    requires HandlerMay(s, h, move) && other in s.handlers && other != h
    ensures SameAt(s, HandlerDoes(s, h, move), other)
  {
    hide Queued, AfterLog;
  }

  lemma HandlerKeepsOthers(s: State, h: nat, move: HandlerStep, other: nat)
    requires HandlerMay(s, h, move) && other in s.handlers && other != h && HandlerInv(s, other)
    ensures HandlerInv(HandlerDoes(s, h, move), other)
  {
    hide HandlerInv, HandlerMay, HandlerDoes, SameAt;
    HandlerLeavesOthers(s, h, move, other);
    HandlerOwner(s, other);
    HandlerFrame(s, HandlerDoes(s, h, move), other);
  }

  lemma HandlerOwner(s: State, h: nat)
    requires h in s.handlers && HandlerInv(s, h)
    ensures h in s.owner ==> s.owner[h] in s.resolvers && s.resolvers[s.owner[h]].id == h
  {
  }

  /** A resolver touches the handler of its own id only. */
  lemma ResolverLeavesOthers(s: State, r: nat, turn: ResolverStep, h: nat)
    requires ResolverMay(s, r, turn) && h in s.handlers && s.resolvers[r].id != h
    ensures SameAt(s, ResolverDoes(s, r, turn), h)
  {
    hide Queued;
  }

  lemma ResolverMoves(s: State, r: nat, turn: ResolverStep)
    requires ResolverMay(s, r, turn)
    ensures r in s.resolvers
    ensures forall q :: q in s.resolvers && q != r ==> ResolverDoes(s, r, turn).resolvers[q] == s.resolvers[q]
  {
    hide Queued;
  }

  lemma TakeKeeps(s: State, r: nat)
    requires ResolverMay(s, r, Take) && s.resolvers[r].id in s.handlers && HandlerInv(s, s.resolvers[r].id)
    ensures HandlerInv(ResolverDoes(s, r, Take), s.resolvers[r].id)
  {
    hide Queued;
  }

  lemma LaterTurnKeeps(s: State, r: nat, turn: ResolverStep)
    requires ResolverMay(s, r, turn) && !turn.Take?
    requires s.resolvers[r].id in s.handlers && HandlerInv(s, s.resolvers[r].id) && ResolverInv(s, r)
    ensures HandlerInv(ResolverDoes(s, r, turn), s.resolvers[r].id)
  {
    hide Queued;
  }

  lemma ResolverKeepsHandler(s: State, r: nat, turn: ResolverStep, h: nat)
    requires Resolvers(s) && ResolverMay(s, r, turn) && h in s.handlers && HandlerInv(s, h)
    ensures HandlerInv(ResolverDoes(s, r, turn), h)
  {
    ResolverMoves(s, r, turn);
    assert ResolverInv(s, r);
    hide Resolvers, HandlerInv, ResolverInv, ResolverDoes, ResolverMay;
    if s.resolvers[r].id != h {
      HandlerOwner(s, h);
      ResolverLeavesOthers(s, r, turn, h);
      hide SameAt;
      HandlerFrame(s, ResolverDoes(s, r, turn), h);
    } else if turn.Take? {
      TakeKeeps(s, r);
    } else {
      LaterTurnKeeps(s, r, turn);
    }
  }

  lemma ResolverKeepsResolver(s: State, r: nat, turn: ResolverStep, q: nat)
    requires Handlers(s) && Sizes(s) && ResolverMay(s, r, turn) && q in s.resolvers && ResolverInv(s, q)
    ensures ResolverInv(ResolverDoes(s, r, turn), q)
  {
    ResolverMoves(s, r, turn);
    hide Handlers, HandlerInv, Sizes;
    if turn.Take? {
      TakenOnce(s, r);
      TakeOwns(s, r, q);
    } else {
      hide Queued;
    }
  }

  /** An id that is still in the queue has no owner. */
  lemma TakenOnce(s: State, r: nat)
    requires Handlers(s) && Sizes(s) && ResolverMay(s, r, Take)
    ensures s.resolvers[r].id in s.pending ==> s.resolvers[r].id !in s.owner
  {
    if s.resolvers[r].id in s.pending {
      assert HandlerInv(s, s.resolvers[r].id);
    }
  }

  lemma TakeOwns(s: State, r: nat, q: nat)
    requires ResolverMay(s, r, Take) && q in s.resolvers && ResolverInv(s, q)
    requires s.resolvers[r].id in s.pending ==> s.resolvers[r].id !in s.owner
    ensures ResolverInv(ResolverDoes(s, r, Take), q)
  {
  }

  lemma HandlerKeepsResolvers(s: State, h: nat, move: HandlerStep)
    requires HandlerMay(s, h, move) && Resolvers(s)
    ensures Resolvers(HandlerDoes(s, h, move))
  {
    hide HandlerMay;
    forall r | r in s.resolvers
      ensures ResolverInv(HandlerDoes(s, h, move), r)
    {
      assert ResolverInv(s, r);
    }
  }

  lemma HandlerStaysOffLog(s: State, h: nat, move: HandlerStep)
    requires HandlerMay(s, h, move) && (s.locked || s.closed)
    requires !s.handlers[h].RefusedLogging? && !s.handlers[h].RemovedLogging?
    ensures var to := HandlerDoes(s, h, move).handlers[h]; !to.RefusedLogging? && !to.RemovedLogging?
  {
    hide Queued;
  }

  lemma HandlerKeepsLog(s: State, h: nat, move: HandlerStep)
    requires HandlerMay(s, h, move) && LogInv(s)
    ensures LogInv(HandlerDoes(s, h, move))
  {
    assert h in s.handlers;
    hide HandlerMay, HandlerDoes;
    if s.locked || s.closed {
      HandlerStaysOffLog(s, h, move);
    }
  }

  lemma ResolverKeepsLog(s: State, r: nat, turn: ResolverStep)
    requires ResolverMay(s, r, turn) && LogInv(s)
    ensures LogInv(ResolverDoes(s, r, turn))
  {
    hide Queued;
  }

  lemma HandlerKeepsInv(s: State, h: nat, move: HandlerStep)
    requires Inv(s) && HandlerMay(s, h, move)
    ensures Inv(HandlerDoes(s, h, move))
  {
    assert h in s.handlers;
    hide HandlerInv, ResolverInv, Resolvers, Sizes, LogInv, HandlerMay, HandlerDoes;
    HandlerKeepsSizes(s, h, move);
    HandlerKeepsLog(s, h, move);
    HandlerKeepsResolvers(s, h, move);
    forall other | other in s.handlers
      ensures HandlerInv(HandlerDoes(s, h, move), other)
    {
      if other == h {
        HandlerKeepsItself(s, h, move);
      } else {
        HandlerKeepsOthers(s, h, move, other);
      }
    }
  }

  lemma ResolverKeepsInv(s: State, r: nat, turn: ResolverStep)
    requires Inv(s) && ResolverMay(s, r, turn)
    ensures Inv(ResolverDoes(s, r, turn))
  {
    hide HandlerInv, ResolverInv, Sizes, LogInv, ResolverMay, ResolverDoes;
    ResolverKeepsSizes(s, r, turn);
    ResolverKeepsLog(s, r, turn);
    forall h | h in s.handlers
      ensures HandlerInv(ResolverDoes(s, r, turn), h)
    {
      ResolverKeepsHandler(s, r, turn, h);
    }
    forall q | q in s.resolvers
      ensures ResolverInv(ResolverDoes(s, r, turn), q)
    {
      ResolverKeepsResolver(s, r, turn, q);
    }
  }

  lemma LogKeepsInv(s: State, log: LogStep)
    requires Inv(s) && LogMay(s, log)
    ensures Inv(LogDoes(s, log))
  {
    var t := LogDoes(s, log);
    forall h | h in t.handlers
      ensures HandlerInv(t, h)
    {
      assert HandlerInv(s, h);
    }
    forall r | r in t.resolvers
      ensures ResolverInv(t, r)
    {
      assert ResolverInv(s, r);
    }
  }

  lemma StepInv(s: State, step: Step)
    requires Inv(s) && Enabled(s, step)
    ensures Inv(Apply(s, step))
  {
    hide Inv, HandlerMay, HandlerDoes, ResolverMay, ResolverDoes, LogMay, LogDoes;
    match step
    case ByHandler(h, move) => HandlerKeepsInv(s, h, move);
    case ByResolver(r, turn) => ResolverKeepsInv(s, r, turn);
    case OnLog(log) => LogKeepsInv(s, log);
  }

  lemma {:induction false} RunInv(s: State, steps: seq<Step>)
    requires Inv(s) && Legal(s, steps)
    ensures Inv(After(s, steps))
    decreases |steps|
  {
    if steps == [] {
    } else {
      StepInv(s, steps[0]);
      hide Inv, Enabled, Apply;
      RunInv(Apply(s, steps[0]), steps[1..]);
    }
  }

  // ---- Main results, for every run of any handlers and calls ----

  /** A reachable state: some run from a start leads to it. */
  ghost predicate Reachable(s: State) {
    exists handlers: set<nat>, calls: map<nat, (nat, Decision)>, steps: seq<Step> ::
      var s0 := Start(handlers, calls); Legal(s0, steps) && After(s0, steps) == s
  }

  lemma ReachableInv(s: State)
    requires Reachable(s)
    ensures Inv(s)
  {
    hide Inv;
    var handlers, calls, steps :| var s0 := Start(handlers, calls); Legal(s0, steps) && After(s0, steps) == s;
    StartInv(handlers, calls);
    RunInv(Start(handlers, calls), steps);
  }

  predicate BothOwn(a: Resolver, b: Resolver) {
    Owns(a) && Owns(b) && a.id == b.id
  }

  /** The queue is bounded, each id is resolved at most once, and the send to its handler never blocks. */
  lemma ResolveOnce(s: State)
    requires Reachable(s)
    ensures |s.pending| <= MAX_PENDING
    ensures forall r, q :: r in s.resolvers && q in s.resolvers && BothOwn(s.resolvers[r], s.resolvers[q]) ==> r == q
    ensures forall r :: r in s.resolvers && s.resolvers[r].Sending? ==> ResolverMay(s, r, Send)
  {
    ReachableInv(s);
    forall r, q | r in s.resolvers && q in s.resolvers && BothOwn(s.resolvers[r], s.resolvers[q])
      ensures r == q
    {
      assert ResolverInv(s, r) && ResolverInv(s, q);
    }
    forall r | r in s.resolvers && s.resolvers[r].Sending?
      ensures ResolverMay(s, r, Send)
    {
      assert ResolverInv(s, r) && HandlerInv(s, s.resolvers[r].id);
    }
  }

  /** A handler that has returned is out of the queue; a decision it returns is the one its only successful resolver sent. */
  lemma OutcomesAreSent(s: State, h: nat)
    requires Reachable(s) && h in s.handlers && s.handlers[h].Returned?
    ensures h !in s.pending
    ensures s.handlers[h].outcome.Decided? ==>
      exists r :: r in s.resolvers && s.resolvers[r] == Done(h, s.handlers[h].outcome.d)
    ensures s.handlers[h].outcome.Rejected? ==> forall r :: r in s.resolvers && Owns(s.resolvers[r]) ==> s.resolvers[r].id != h
  {
    ReachableInv(s);
    assert HandlerInv(s, h);
    forall r | r in s.resolvers && Owns(s.resolvers[r])
      ensures s.resolvers[r].id == h ==> h in s.owner
    {
      assert ResolverInv(s, r);
    }
    if s.handlers[h].outcome.Decided? {
      var call := s.resolvers[s.owner[h]];
      assert call == Done(h, s.handlers[h].outcome.d);
    }
  }

  /** Nobody sends on the log once Stop holds its lock, in particular never on the closed channel. */
  lemma NoSendOnClosedLog(s: State)
    requires Reachable(s) && (s.locked || s.closed)
    ensures forall h :: h in s.handlers ==> !HandlerMay(s, h, LogDone)
    ensures forall r :: r in s.resolvers ==> !ResolverMay(s, r, TellDone)
  {
    ReachableInv(s);
  }

  /** A waiting handler is never stranded: its timer can still fire, its decision is there, or a resolver is bringing it. */
  lemma NeverStranded(s: State, h: nat)
    requires Reachable(s) && h in s.handlers && s.handlers[h].Waiting?
    ensures HandlerMay(s, h, Fire) || HandlerMay(s, h, Receive)
      || exists r :: r in s.resolvers && s.resolvers[r].id == h
           && (s.resolvers[r].Halted? || s.resolvers[r].Logging? || s.resolvers[r].Sending?)
  {
    assert HandlerInv(s, h) by { ReachableInv(s); }
    hide Reachable;
    if h in s.owner {
      var r := s.owner[h];
      assert r in s.resolvers;
    }
  }

  /** The decision `d` is there before the handler looks for the last time, or has been returned. */
  predicate Delivered(s: State, h: nat, d: Decision) {
    h in s.handlers &&
    (((s.handlers[h].Waiting? || s.handlers[h].Fired?) && h in s.inbox && s.inbox[h] == d)
     || s.handlers[h] == Returned(Decided(d)))
  }

  /** The handler has looked for the last time and found nothing, so it ends with the timeout. */
  predicate PastRecheck(s: State, h: nat) {
    h in s.handlers &&
    var at := s.handlers[h]; at.Expired? || at.Removed? || at.RemovedLogging? || at == Returned(TimedOut)
  }

  lemma DeliveredStep(s: State, step: Step, h: nat, d: Decision)
    requires Inv(s) && Enabled(s, step) && Delivered(s, h, d)
    ensures Delivered(Apply(s, step), h, d)
  {
    hide Sizes, Resolvers, LogInv;
    assert HandlerInv(s, h);
    match step
    case ByHandler(other, move) =>
      if other == h {
        hide HandlerInv, Queued, AfterLog;
      } else {
        hide HandlerDoes, HandlerMay;
        HandlerLeavesOthers(s, other, move, h);
      }
    case ByResolver(r, turn) =>
      hide Queued;
      assert r in s.resolvers;
    case OnLog(log) =>
      hide HandlerInv, LogDoes, LogMay;
  }

  /** A decision sent before the handler's second look is the one it returns, whatever happens in between. */
  lemma {:induction false} DecisionKept(s: State, steps: seq<Step>, h: nat, d: Decision)
    requires Inv(s) && Legal(s, steps) && Delivered(s, h, d)
    ensures Delivered(After(s, steps), h, d)
    decreases |steps|
  {
    if steps == [] {
    } else {
      hide Inv, Delivered, Enabled, Apply;
      DeliveredStep(s, steps[0], h, d);
      StepInv(s, steps[0]);
      DecisionKept(Apply(s, steps[0]), steps[1..], h, d);
    }
  }

  lemma PastStep(s: State, step: Step, h: nat)
    requires Enabled(s, step) && PastRecheck(s, h)
    ensures PastRecheck(Apply(s, step), h)
  {
    match step
    case ByHandler(other, move) =>
      if other != h {
        hide HandlerDoes, HandlerMay;
        HandlerLeavesOthers(s, other, move, h);
      } else {
        hide Queued;
      }
    case ByResolver(r, turn) =>
      hide ResolverDoes, ResolverMay;
    case OnLog(log) =>
      hide LogDoes, LogMay;
  }

  /** After an empty second look the timeout stands: a decision sent later, though its Resolve succeeds, is lost. */
  lemma {:induction false} TimeoutStands(s: State, steps: seq<Step>, h: nat)
    requires Legal(s, steps) && PastRecheck(s, h)
    ensures PastRecheck(After(s, steps), h)
    decreases |steps|
  {
    if steps == [] {
    } else {
      hide PastRecheck, Enabled, Apply;
      PastStep(s, steps[0], h);
      TimeoutStands(Apply(s, steps[0]), steps[1..], h);
    }
  }

  /** When a send happens, where the handler stands decides: the decision is returned exactly if it has not yet looked twice. */
  lemma SendDecides(s: State, r: nat, steps: seq<Step>)
    requires Reachable(s) && ResolverMay(s, r, Send) && Legal(ResolverDoes(s, r, Send), steps)
    requires var h := s.resolvers[r].id; h in s.handlers && After(ResolverDoes(s, r, Send), steps).handlers[h].Returned?
    ensures var h, d := s.resolvers[r].id, s.resolvers[r].d;
      var end := After(ResolverDoes(s, r, Send), steps).handlers[h];
      && (end == Returned(Decided(d)) <==> s.handlers[h].Waiting? || s.handlers[h].Fired?)
      && (end == Returned(TimedOut) <==> PastRecheck(s, h))
  {
    hide Reachable, Inv, After, Legal;
    var h, d, t := s.resolvers[r].id, s.resolvers[r].d, ResolverDoes(s, r, Send);
    ReachableInv(s);
    ResolverKeepsInv(s, r, Send);
    BeforeSend(s, r);
    if PastRecheck(s, h) {
      TimeoutStands(t, steps, h);
    } else {
      DecisionKept(t, steps, h, d);
    }
  }

  lemma BeforeSend(s: State, r: nat)
    requires Inv(s) && ResolverMay(s, r, Send) && s.resolvers[r].id in s.handlers
    ensures var h := s.resolvers[r].id;
      if PastRecheck(s, h) then !s.handlers[h].Waiting? && !s.handlers[h].Fired? && PastRecheck(ResolverDoes(s, r, Send), h)
      else (s.handlers[h].Waiting? || s.handlers[h].Fired?) && Delivered(ResolverDoes(s, r, Send), h, s.resolvers[r].d)
  {
    hide Sizes, LogInv;
    assert ResolverInv(s, r) && HandlerInv(s, s.resolvers[r].id);
  }

  // ---- Admission, and what stopping a timer gives ----

  /** A request is admitted to the queue while fewer than 512 wait, and turned away only when 512 do. */
  lemma AdmittedIff(s: State, h: nat)
    requires Reachable(s) && HandlerMay(s, h, Enqueue)
    ensures var t := HandlerDoes(s, h, Enqueue);
      if |s.pending| < 512 then t.handlers[h].Waiting? && t.pending == s.pending + {h}
      else |s.pending| == 512 && t.handlers[h].Refused? && t.pending == s.pending
  {
    ReachableInv(s);
  }

  /** A resolver has stopped the timer of a handler that still waits: only its decision can wake it. */
  predicate Bound(s: State, h: nat, r: nat) {
    && h in s.handlers && r in s.resolvers && h in s.owner && s.owner[h] == r
    && s.resolvers[r].id == h && !s.resolvers[r].Calling? && !s.resolvers[r].NotFound? && !s.resolvers[r].Took?
    && ((s.handlers[h].Waiting? && h !in s.armed) || s.handlers[h] == Returned(Decided(s.resolvers[r].d)))
  }

  lemma HaltBinds(s: State, r: nat)
    requires Inv(s) && ResolverMay(s, r, Halt) && s.resolvers[r].id in s.handlers
    requires s.handlers[s.resolvers[r].id].Waiting?
    ensures Bound(ResolverDoes(s, r, Halt), s.resolvers[r].id, r)
  {
    hide Sizes, LogInv, HandlerInv;
    assert ResolverInv(s, r);
  }

  lemma ResolverBinds(s: State, q: nat, turn: ResolverStep, h: nat, r: nat)
    requires Inv(s) && ResolverMay(s, q, turn) && Bound(s, h, r)
    ensures Bound(ResolverDoes(s, q, turn), h, r) && ResolverDoes(s, q, turn).resolvers[r].d == s.resolvers[r].d
  {
    hide Sizes, Resolvers, LogInv, Queued;
    assert HandlerInv(s, h);
  }

  lemma BoundStep(s: State, step: Step, h: nat, r: nat)
    requires Inv(s) && Enabled(s, step) && Bound(s, h, r)
    ensures Bound(Apply(s, step), h, r) && Apply(s, step).resolvers[r].d == s.resolvers[r].d
  {
    hide Sizes, Resolvers, LogInv;
    assert HandlerInv(s, h);
    match step
    case ByHandler(other, move) =>
      if other == h {
        hide Queued, AfterLog;
      } else {
        hide HandlerDoes, HandlerMay;
        HandlerLeavesOthers(s, other, move, h);
      }
    case ByResolver(q, turn) =>
      ResolverBinds(s, q, turn, h, r);
      hide HandlerInv, ResolverDoes, ResolverMay;
    case OnLog(log) =>
      hide HandlerInv, LogDoes, LogMay;
  }

  /** A handler whose timer a resolver stopped while it waited never times out: it waits, or returns that decision. */
  lemma {:induction false} HaltSettles(s: State, steps: seq<Step>, h: nat, r: nat)
    requires Inv(s) && Legal(s, steps) && Bound(s, h, r)
    ensures Bound(After(s, steps), h, r) && After(s, steps).resolvers[r].d == s.resolvers[r].d
    decreases |steps|
  {
    if steps == [] {
    } else {
      hide Inv, Bound, Enabled, Apply;
      BoundStep(s, steps[0], h, r);
      StepInv(s, steps[0]);
      HaltSettles(Apply(s, steps[0]), steps[1..], h, r);
    }
  }

  /** One handler and one call for its id, nothing logged away. */
  function Duel(h: Handler, r: Resolver, pending: set<nat>, inbox: map<nat, Decision>, armed: set<nat>,
                owner: map<nat, nat>, logged: nat): State {
    State(map[0 := h], map[0 := r], pending, inbox, armed, owner, false, false, logged)
  }

  lemma DuelStarts(d: Decision)
    ensures Reachable(Duel(Ready, Calling(0, d), {}, map[], {0}, map[], 0))
  {
    hide Apply, Enabled;
    var calls: map<nat, (nat, Decision)> := map[0 := (0, d)];
    var s0 := Duel(Ready, Calling(0, d), {}, map[], {0}, map[], 0);
    assert Start({0}, calls) == s0;
    assert Legal(s0, []) && After(s0, []) == s0;
  }

  lemma DuelExpires(d: Decision)
    ensures Reachable(Duel(Expired, Calling(0, d), {0}, map[], {}, map[], 0))
  {
    hide Reachable;
    DuelStarts(d);
    var s0 := Duel(Ready, Calling(0, d), {}, map[], {0}, map[], 0);
    var s1 := Extend(s0, ByHandler(0, Enqueue));
    assert s1 == Duel(Waiting, Calling(0, d), {0}, map[], {0}, map[], 0);
    var s2 := Extend(s1, ByHandler(0, Fire));
    assert s2 == Duel(Fired, Calling(0, d), {0}, map[], {}, map[], 0);
    var s3 := Extend(s2, ByHandler(0, Recheck));
    assert s3 == Duel(Expired, Calling(0, d), {0}, map[], {}, map[], 0);
  }

  lemma DuelResolves(d: Decision)
    ensures Reachable(Duel(Expired, Done(0, d), {}, map[0 := d], {}, map[0 := 0], 1))
  {
    hide Reachable;
    DuelExpires(d);
    var s3 := Duel(Expired, Calling(0, d), {0}, map[], {}, map[], 0);
    var s4 := Extend(s3, ByResolver(0, Take));
    assert s4 == Duel(Expired, Took(0, d), {}, map[], {}, map[0 := 0], 0);
    var s5 := Extend(s4, ByResolver(0, Halt));
    assert s5 == Duel(Expired, Halted(0, d), {}, map[], {}, map[0 := 0], 0);
    var s6 := Extend(s5, ByResolver(0, TellOpen));
    assert s6 == Duel(Expired, Logging(0, d), {}, map[], {}, map[0 := 0], 0);
    var s7 := Extend(s6, ByResolver(0, TellDone));
    assert s7 == Duel(Expired, Sending(0, d), {}, map[], {}, map[0 := 0], 1);
    var s8 := Extend(s7, ByResolver(0, Send));
    assert s8 == Duel(Expired, Done(0, d), {}, map[0 := d], {}, map[0 := 0], 1);
  }

  /** Such a loss does happen: the timer fires, the second look finds nothing, then Resolve succeeds and the timeout wins. */
  lemma LostDecision(d: Decision)
    ensures Reachable(Duel(Returned(TimedOut), Done(0, d), {}, map[0 := d], {}, map[0 := 0], 2))
  {
    hide Reachable;
    DuelResolves(d);
    var s8 := Duel(Expired, Done(0, d), {}, map[0 := d], {}, map[0 := 0], 1);
    var s9 := Extend(s8, ByHandler(0, Remove));
    assert s9 == Duel(Removed, Done(0, d), {}, map[0 := d], {}, map[0 := 0], 1);
    var s10 := Extend(s9, ByHandler(0, LogOpen));
    assert s10 == Duel(RemovedLogging, Done(0, d), {}, map[0 := d], {}, map[0 := 0], 1);
    var s11 := Extend(s10, ByHandler(0, LogDone));
    assert s11 == Duel(Returned(TimedOut), Done(0, d), {}, map[0 := d], {}, map[0 := 0], 2);
  }

  lemma {:induction false} LegalThen(s: State, steps: seq<Step>, step: Step)
    requires Legal(s, steps) && Enabled(After(s, steps), step)
    ensures Legal(s, steps + [step]) && After(s, steps + [step]) == Apply(After(s, steps), step)
    decreases |steps|
  {
    hide Enabled, Apply;
    if steps == [] {
      assert [] + [step] == [step] && [step][1..] == [];
    } else {
      LegalThen(Apply(s, steps[0]), steps[1..], step);
      assert (steps + [step])[1..] == steps[1..] + [step];
    }
  }

  lemma Extend(s: State, step: Step) returns (t: State)
    requires Reachable(s) && Enabled(s, step)
    ensures t == Apply(s, step) && Reachable(t)
  {
    hide Enabled, Apply;
    var handlers, calls, steps :| var s0 := Start(handlers, calls); Legal(s0, steps) && After(s0, steps) == s;
    LegalThen(Start(handlers, calls), steps, step);
    t := Apply(s, step);
  }
}
