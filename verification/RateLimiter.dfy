/** The fixed-window rate limiter of internal/api/middleware.go, over runs of requests and clean-ups in time order. */
module RateLimiter {

  type Key = string

  datatype Visitor = Visitor(count: int, resetAt: int)

  type Visitors = map<Key, Visitor>

  // ---- Specification of the two operations ----

  /** A new or lapsed visitor opens a window; any other is counted in its window. */
  function Visit(window: nat, v: Visitors, now: int, key: Key): Visitors {
    if key !in v || now > v[key].resetAt then v[key := Visitor(1, now + window)]
    else v[key := v[key].(count := v[key].count + 1)]
  }

  predicate Allowed(rate: int, v: Visitors, now: int, key: Key) {
    key !in v || now > v[key].resetAt || v[key].count + 1 <= rate
  }

  function Swept(v: Visitors, now: int): Visitors {
    map k | k in v && !(now > v[k].resetAt) :: v[k]
  }

  // ---- The object ----

  class RateLimiter {
    var visitors: Visitors
    const rate: int
    const window: nat

    constructor (rate: int, window: nat)
      ensures visitors == map[] && this.rate == rate && this.window == window
    {
      visitors, this.rate, this.window := map[], rate, window;
    }

    method Allow(now: int, key: Key) returns (ok: bool)
      modifies this
      ensures visitors == Visit(window, old(visitors), now, key)
      ensures ok == Allowed(rate, old(visitors), now, key)
    {
      if key !in visitors || now > visitors[key].resetAt {
        visitors := visitors[key := Visitor(1, now + window)];
        return true;
      }
      var v := visitors[key].(count := visitors[key].count + 1);
      visitors := visitors[key := v];
      return v.count <= rate;
    }

    method Cleanup(now: int)
      modifies this
      ensures visitors == Swept(old(visitors), now)
    {
      var before := visitors;
      var left := before.Keys;
      while left != {}
        invariant left <= before.Keys
        invariant visitors == map k | k in before && (k in left || !(now > before[k].resetAt)) :: before[k]
        decreases |left|
      {
        var k :| k in left;
        if now > before[k].resetAt {
          visitors := visitors - {k};
        }
        left := left - {k};
      }
    }
  }

  // ---- Runs ----

  datatype Event = Ask(now: int, key: Key) | Sweep(now: int)

  predicate Timed(events: seq<Event>) {
    forall i, j :: 0 <= i < j < |events| ==> events[i].now <= events[j].now
  }

  function After(window: nat, events: seq<Event>): Visitors {
    if events == [] then map[]
    else
      var v, e := After(window, events[..|events| - 1]), events[|events| - 1];
      if e.Ask? then Visit(window, v, e.now, e.key) else Swept(v, e.now)
  }

  /** The answer to a request made after these events. */
  predicate Answer(rate: int, window: nat, events: seq<Event>, now: int, key: Key) {
    Allowed(rate, After(window, events), now, key)
  }

  // ---- Clean-ups and other keys never change an answer ----

  /** The requests for one key alone. */
  function Own(events: seq<Event>, key: Key): seq<Event> {
    if events == [] then []
    else
      var e := events[|events| - 1];
      Own(events[..|events| - 1], key) + if e.Ask? && e.key == key then [e] else []
  }

  /** From time `now` on, both tables treat the key alike. */
  predicate Alike(v: Visitors, w: Visitors, key: Key, now: int) {
    if key in v && v[key].resetAt >= now then key in w && w[key] == v[key]
    else key !in w || w[key].resetAt < now
  }

  predicate Until(events: seq<Event>, now: int) {
    forall i :: 0 <= i < |events| ==> events[i].now <= now
  }

  lemma AlikeStep(window: nat, v: Visitors, w: Visitors, e: Event, key: Key, now: int)
    requires Alike(v, w, key, e.now) && e.now <= now
    ensures var v' := if e.Ask? then Visit(window, v, e.now, e.key) else Swept(v, e.now);
      var w' := if e.Ask? && e.key == key then Visit(window, w, e.now, key) else w;
      Alike(v', w', key, now)
  {
  }

  /** However clean-ups and other keys' requests are mixed in, the table answers for a key as after its own requests alone. */
  lemma {:induction false} OwnRequestsDecide(window: nat, events: seq<Event>, key: Key, now: int)
    requires Timed(events) && Until(events, now)
    ensures Alike(After(window, events), After(window, Own(events, key)), key, now)
    decreases |events|
  {
    if events == [] {
    } else {
      var before, e := events[..|events| - 1], events[|events| - 1];
      hide Visit, Swept, Alike;
      OwnRequestsDecide(window, before, key, e.now);
      var own := Own(before, key);
      assert (own + [e])[..|own|] == own && own + [] == own;
      AlikeStep(window, After(window, before), After(window, own), e, key, now);
    }
  }

  /** The answer to a request depends on the earlier requests for its key only. */
  lemma OthersChangeNothing(rate: int, window: nat, events: seq<Event>, now: int, key: Key)
    requires Timed(events) && Until(events, now)
    ensures Answer(rate, window, events, now, key) == Answer(rate, window, Own(events, key), now, key)
  {
    hide After, Own;
    OwnRequestsDecide(window, events, key, now);
  }

  /** Two runs that differ only in their clean-ups and in other keys' requests give a key the same answers. */
  lemma SweepsChangeNothing(rate: int, window: nat, a: seq<Event>, b: seq<Event>, now: int, key: Key)
    requires Timed(a) && Timed(b) && Until(a, now) && Until(b, now)
    requires Own(a, key) == Own(b, key)
    ensures Answer(rate, window, a, now, key) == Answer(rate, window, b, now, key)
  {
    hide Answer;
    OthersChangeNothing(rate, window, a, now, key);
    OthersChangeNothing(rate, window, b, now, key);
  }

  // ---- How many are admitted ----

  /** An admitted request: its time, the start of its window, and its rank in that window. */
  datatype Admission = Admission(time: int, start: int, rank: nat)

  /** What a request for the key adds to the log. */
  function Logged(rate: int, v: Visitors, log: seq<Admission>, now: int, key: Key): seq<Admission> {
    if !Allowed(rate, v, now, key) then log
    else if key !in v || now > v[key].resetAt then log + [Admission(now, now, 1)]
    else if log == [] then log
    else log + [Admission(now, log[|log| - 1].start, log[|log| - 1].rank + 1)]
  }

  function Admissions(rate: int, window: nat, events: seq<Event>, key: Key): seq<Admission> {
    if events == [] then []
    else
      var before, e := events[..|events| - 1], events[|events| - 1];
      var log := Admissions(rate, window, before, key);
      if e.Ask? && e.key == key then Logged(rate, After(window, before), log, e.now, key) else log
  }

  predicate Follows(window: nat, a: Admission, b: Admission) {
    && a.time <= b.time
    && ((b.start == a.start && b.rank == a.rank + 1) || (b.start > a.start + window && b.rank == 1 && b.time == b.start))
  }

  ghost predicate WellLogged(rate: int, window: nat, log: seq<Admission>) {
    && (forall i :: 0 <= i < |log| ==> 1 <= log[i].rank <= rate && log[i].start <= log[i].time <= log[i].start + window)
    && (log != [] ==> log[0].rank == 1 && log[0].time == log[0].start)
    && forall i, j :: 0 <= i < j < |log| && j == i + 1 ==> Follows(window, log[i], log[j])
  }

  /** The table remembers the window of the last admission, unless that window is over. */
  predicate Remembers(rate: int, window: nat, v: Visitors, log: seq<Admission>, key: Key, now: int) {
    if log == [] then key !in v
    else
      var last := log[|log| - 1];
      && last.time <= now
      && if key in v then
           v[key].resetAt == last.start + window
           && (if v[key].count <= rate then v[key].count == last.rank else last.rank == rate)
         else last.start + window < now
  }

  lemma LoggedKeeps(rate: int, window: nat, v: Visitors, log: seq<Admission>, key: Key, now: int)
    requires rate >= 1 && WellLogged(rate, window, log) && Remembers(rate, window, v, log, key, now)
    ensures var next := Logged(rate, v, log, now, key);
      WellLogged(rate, window, next) && Remembers(rate, window, Visit(window, v, now, key), next, key, now)
  {
    var next := Logged(rate, v, log, now, key);
    if |next| > |log| && log != [] {
      assert Follows(window, log[|log| - 1], next[|log|]);
    }
  }

  lemma OthersKeep(rate: int, window: nat, v: Visitors, log: seq<Admission>, key: Key, e: Event)
    requires Remembers(rate, window, v, log, key, e.now) && (e.Ask? ==> e.key != key)
    ensures Remembers(rate, window, if e.Ask? then Visit(window, v, e.now, e.key) else Swept(v, e.now), log, key, e.now)
  {
  }

  lemma {:induction false} LogIsKept(rate: int, window: nat, events: seq<Event>, key: Key, now: int)
    requires rate >= 1 && Timed(events) && Until(events, now)
    ensures var log := Admissions(rate, window, events, key);
      WellLogged(rate, window, log) && Remembers(rate, window, After(window, events), log, key, now)
    decreases |events|
  {
    if events == [] {
    } else {
      var before, e := events[..|events| - 1], events[|events| - 1];
      hide WellLogged, Remembers, Logged, Visit, Swept;
      LogIsKept(rate, window, before, key, e.now);
      var v, log := After(window, before), Admissions(rate, window, before, key);
      if e.Ask? && e.key == key {
        LoggedKeeps(rate, window, v, log, key, e.now);
      } else {
        OthersKeep(rate, window, v, log, key, e);
      }
      RemembersLater(rate, window, After(window, events), Admissions(rate, window, events, key), key, e.now, now);
    }
  }

  lemma RemembersLater(rate: int, window: nat, v: Visitors, log: seq<Admission>, key: Key, now: int, later: int)
    requires Remembers(rate, window, v, log, key, now) && now <= later
    ensures Remembers(rate, window, v, log, key, later)
  {
  }

  /** The first admission of `j`'s window stands `rank - 1` places before it. */
  lemma {:induction false} WindowStart(rate: int, window: nat, log: seq<Admission>, j: nat)
    requires WellLogged(rate, window, log) && j < |log|
    ensures var f := j + 1 - log[j].rank;
      0 <= f && log[f].start == log[j].start && log[f].rank == 1 && log[f].time == log[f].start
    decreases j
  {
    if j == 0 {
    } else {
      assert Follows(window, log[j - 1], log[j]);
      if log[j].rank != 1 {
        WindowStart(rate, window, log, j - 1);
      }
    }
  }

  lemma {:induction false} TimesInOrder(rate: int, window: nat, log: seq<Admission>, i: nat, j: nat)
    requires WellLogged(rate, window, log) && i <= j < |log|
    ensures log[i].time <= log[j].time
    decreases j
  {
    if i < j {
      assert Follows(window, log[j - 1], log[j]);
      TimesInOrder(rate, window, log, i, j - 1);
    }
  }

  /** Admissions that lie within one window's length are fewer than twice the rate. */
  lemma AtMostTwice(rate: int, window: nat, log: seq<Admission>, i: nat, j: nat)
    requires rate >= 1 && WellLogged(rate, window, log) && i <= j < |log|
    requires log[j].time - log[i].time <= window
    ensures j - i + 1 <= 2 * rate - 1
  {
    WindowStart(rate, window, log, j);
    var f := j + 1 - log[j].rank;
    if f > i {
      assert Follows(window, log[f - 1], log[f]);
      WindowStart(rate, window, log, f - 1);
      TimesInOrder(rate, window, log, f, j);
      var h := f - log[f - 1].rank;
      if i <= h {
        TimesInOrder(rate, window, log, i, h);
        assert false;
      }
    }
  }

  /** In any run, any interval no longer than the window admits at most 2*rate - 1 requests for a key. */
  lemma WindowBound(rate: int, window: nat, events: seq<Event>, key: Key, i: nat, j: nat)
    requires rate >= 1 && Timed(events)
    requires i <= j < |Admissions(rate, window, events, key)|
    requires Admissions(rate, window, events, key)[j].time - Admissions(rate, window, events, key)[i].time <= window
    ensures j - i + 1 <= 2 * rate - 1
  {
    hide Admissions, WellLogged;
    LogIsKept(rate, window, events, key, if events == [] then 0 else events[|events| - 1].now);
    AtMostTwice(rate, window, Admissions(rate, window, events, key), i, j);
  }

  /** The log misses no admitted request: each allowed request for the key adds one entry at its time, a refused one adds none. */
  lemma LogsEveryAdmission(rate: int, window: nat, events: seq<Event>, now: int, key: Key)
    requires rate >= 1 && Timed(events) && Until(events, now)
    ensures var log, next := Admissions(rate, window, events, key), Admissions(rate, window, events + [Ask(now, key)], key);
      if Answer(rate, window, events, now, key) then |next| == |log| + 1 && next[..|log|] == log && next[|log|].time == now
      else next == log
  {
    assert (events + [Ask(now, key)])[..|events|] == events;
    LogIsKept(rate, window, events, key, now);
  }

  // ---- The bound is reached ----

  function Repeat(now: int, key: Key, n: nat): seq<Event> {
    if n == 0 then [] else Repeat(now, key, n - 1) + [Ask(now, key)]
  }

  /** A request inside an open window that has room. */
  lemma AskWithin(rate: int, window: nat, before: seq<Event>, now: int, key: Key)
    requires var v := After(window, before); key in v && v[key].resetAt >= now && v[key].count + 1 <= rate
    requires Admissions(rate, window, before, key) != []
    ensures var v, w := After(window, before), After(window, before + [Ask(now, key)]);
      key in w && w[key] == v[key].(count := v[key].count + 1)
    ensures var log, next := Admissions(rate, window, before, key), Admissions(rate, window, before + [Ask(now, key)], key);
      |next| == |log| + 1 && next[..|log|] == log && next[|log|].time == now
  {
    assert (before + [Ask(now, key)])[..|before|] == before;
  }

  /** A request after the window has lapsed. */
  lemma AskLapsed(rate: int, window: nat, before: seq<Event>, now: int, key: Key)
    requires var v := After(window, before); key in v ==> v[key].resetAt < now
    ensures var w := After(window, before + [Ask(now, key)]); key in w && w[key] == Visitor(1, now + window)
    ensures var log := Admissions(rate, window, before, key);
      Admissions(rate, window, before + [Ask(now, key)], key) == log + [Admission(now, now, 1)]
  {
    assert (before + [Ask(now, key)])[..|before|] == before;
  }

  lemma {:induction false} RepeatAdmits(rate: int, window: nat, before: seq<Event>, now: int, key: Key, n: nat)
    requires var v := After(window, before); key in v && v[key].resetAt >= now && v[key].count + n <= rate
    requires Admissions(rate, window, before, key) != []
    ensures var v, w := After(window, before), After(window, before + Repeat(now, key, n));
      key in w && w[key] == v[key].(count := v[key].count + n)
    ensures var log, next := Admissions(rate, window, before, key), Admissions(rate, window, before + Repeat(now, key, n), key);
      |next| == |log| + n && next[..|log|] == log && forall i :: |log| <= i < |next| ==> next[i].time == now
  {
    hide After, Admissions;
    if n == 0 {
      assert before + [] == before;
    } else {
      var most := before + Repeat(now, key, n - 1);
      RepeatAdmits(rate, window, before, now, key, n - 1);
      AskWithin(rate, window, most, now, key);
      assert before + Repeat(now, key, n) == most + [Ask(now, key)];
    }
  }

  lemma {:induction false} RepeatTimed(before: seq<Event>, now: int, key: Key, n: nat)
    requires Timed(before) && Until(before, now)
    ensures Timed(before + Repeat(now, key, n)) && Until(before + Repeat(now, key, n), now)
  {
    if n == 0 {
      assert before + [] == before;
    } else {
      RepeatTimed(before, now, key, n - 1);
      assert before + Repeat(now, key, n) == before + Repeat(now, key, n - 1) + [Ask(now, key)];
    }
  }

  /** The admissions after the first, 2*rate - 1 of them, lie within one window's length. */
  predicate Reaches(rate: int, window: nat, log: seq<Admission>) {
    rate >= 1 && |log| == 2 * rate && log[2 * rate - 1].time - log[1].time <= window
  }

  lemma FirstAsk(rate: int, window: nat, key: Key)
    ensures var first := [Ask(0, key)];
      && Timed(first) && Until(first, window)
      && key in After(window, first) && After(window, first)[key] == Visitor(1, window)
      && Admissions(rate, window, first, key) == [Admission(0, 0, 1)]
  {
    NoAdmissions(rate, window, key);
    AskLapsed(rate, window, [], 0, key);
    assert [] + [Ask(0, key)] == [Ask(0, key)];
  }

  /** One request at time 0 and rate-1 more at the end of its window. */
  lemma FullWindow(rate: int, window: nat, key: Key) returns (a: seq<Event>)
    requires rate >= 1 && window >= 1
    ensures Timed(a) && Until(a, window)
    ensures key in After(window, a) && After(window, a)[key].resetAt == window
    ensures var log := Admissions(rate, window, a, key);
      |log| == rate && forall i :: 1 <= i < rate ==> log[i].time == window
  {
    hide After, Admissions, Repeat, Timed, Until;
    var first := [Ask(0, key)];
    FirstAsk(rate, window, key);
    RepeatAdmits(rate, window, first, window, key, rate - 1);
    RepeatTimed(first, window, key, rate - 1);
    a := first + Repeat(window, key, rate - 1);
  }

  lemma TimedThen(a: seq<Event>, now: int, later: int, key: Key)
    requires Timed(a) && Until(a, now) && now <= later
    ensures Timed(a + [Ask(later, key)]) && Until(a + [Ask(later, key)], later)
  {
  }

  /** Then rate requests just after it: 2*rate - 1 of all these admissions lie within one time unit. */
  lemma BoundReached(rate: int, window: nat, key: Key)
    requires rate >= 1 && window >= 1
    ensures exists events: seq<Event> :: Timed(events) && Reaches(rate, window, Admissions(rate, window, events, key))
  {
    hide After, Admissions, Repeat, Timed, Until;
    var a := FullWindow(rate, window, key);
    var b := a + [Ask(window + 1, key)];
    AskLapsed(rate, window, a, window + 1, key);
    TimedThen(a, window, window + 1, key);
    var c := b + Repeat(window + 1, key, rate - 1);
    RepeatAdmits(rate, window, b, window + 1, key, rate - 1);
    RepeatTimed(b, window + 1, key, rate - 1);
    var log, full := Admissions(rate, window, c, key), Admissions(rate, window, b, key);
    assert full[rate].time == window + 1;
    assert log[..|full|] == full;
    assert log[1] == full[1] && (rate == 1 ==> log[1].time == window + 1);
    assert log[2 * rate - 1].time == window + 1;
  }

  lemma NoAdmissions(rate: int, window: nat, key: Key)
    ensures Admissions(rate, window, [], key) == [] && After(window, []) == map[]
  {
  }

  function Asks(times: seq<int>, key: Key): seq<Event> {
    if times == [] then [] else Asks(times[..|times| - 1], key) + [Ask(times[|times| - 1], key)]
  }

  /**
   A key's first request opens a window; whatever number of requests follow within it, a next one is allowed exactly when
   the window's end has passed or the rate is not yet used up.
   */
  lemma {:induction false} WindowCounts(rate: int, window: nat, start: int, times: seq<int>, now: int, key: Key)
    requires forall t :: t in times ==> t <= start + window
    ensures var events := [Ask(start, key)] + Asks(times, key);
      && After(window, events) == map[key := Visitor(1 + |times|, start + window)]
      && (Answer(rate, window, events, now, key) <==> now > start + window || |times| + 2 <= rate)
  {
    var events := [Ask(start, key)] + Asks(times, key);
    if times == [] {
      assert events == [Ask(start, key)] && events[..0] == [];
    } else {
      var before := times[..|times| - 1];
      assert forall t :: t in before ==> t in times;
      WindowCounts(rate, window, start, before, now, key);
      assert events[..|events| - 1] == [Ask(start, key)] + Asks(before, key);
      assert times[|times| - 1] in times;
    }
  }

  /** Every entry of the table was opened by a request whose window it ends. */
  lemma {:induction false} OpenedByRequest(window: nat, events: seq<Event>, key: Key)
    ensures key in After(window, events) ==>
      exists e :: e in events && e.Ask? && e.key == key && After(window, events)[key].resetAt == e.now + window
    decreases |events|
  {
    if events == [] {
    } else {
      var before, last := events[..|events| - 1], events[|events| - 1];
      assert events == before + [last];
      OpenedByRequest(window, before, key);
    }
  }

  /** A clean-up leaves only keys that have made a request within the last window: the table does not grow with its past. */
  lemma SweepForgets(window: nat, events: seq<Event>, now: int, key: Key)
    ensures key in After(window, events + [Sweep(now)]) ==>
      exists e :: e in events && e.Ask? && e.key == key && e.now + window >= now
  {
    OpenedByRequest(window, events, key);
    assert (events + [Sweep(now)])[..|events|] == events;
  }
}
