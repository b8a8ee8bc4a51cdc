/** Anthropic events in any order of their blocks: exactly when the tool calls are assembled from their own input. */
module BlockOrder {
  import opened StreamAssembler

  /** A tool call as its block announces it. */
  datatype Start = Start(block: int, id: string, name: string)

  function Starts(events: seq<Event>): seq<Start> {
    if events == [] then [] else Starts(events[..|events| - 1]) + StartOf(events[|events| - 1])
  }

  function StartOf(e: Event): seq<Start> {
    if e.BlockStart? && e.toolUse then [Start(e.block, e.id, e.name)] else []
  }

  /** The input sent for one block: its deltas, joined in their order. */
  function InputOf(events: seq<Event>, block: int): string {
    if events == [] then "" else InputOf(events[..|events| - 1], block) + InputIn(events[|events| - 1], block)
  }

  function InputIn(e: Event, block: int): string {
    if e.JsonDelta? && e.block == block then e.partial else ""
  }

  /** Each announced call with the input sent for its block. */
  function Intended(events: seq<Event>): seq<ToolCall> {
    CallsWith(Starts(events), events)
  }

  function CallsWith(starts: seq<Start>, events: seq<Event>): (calls: seq<ToolCall>)
    ensures |calls| == |starts|
  {
    seq(|starts|, k requires 0 <= k < |starts| =>
      ToolCall(starts[k].id, starts[k].name, InputOf(events, starts[k].block)))
  }

  predicate Announced(starts: seq<Start>, block: int) {
    exists k :: 0 <= k < |starts| && starts[k].block == block
  }

  /** What a sender keeps to: a tool block starts once, and before any of its input. */
  predicate WellSent(events: seq<Event>) {
    events == [] ||
    (var before, e := events[..|events| - 1], events[|events| - 1];
     WellSent(before) &&
     (e.BlockStart? && e.toolUse ==> !Announced(Starts(before), e.block) && InputOf(before, e.block) == ""))
  }

  /** No input arrives once a tool block later than its own has started. */
  predicate InTurn(events: seq<Event>) {
    events == [] ||
    (var before, e := events[..|events| - 1], events[|events| - 1];
     var starts := Starts(before);
     InTurn(before) &&
     (e.JsonDelta? && e.partial != "" && starts != [] ==> starts[|starts| - 1].block == e.block))
  }

  lemma AddLast(st: State, events: seq<Event>)
    requires events != []
    ensures AddEvents(st, events) == AddEvent(AddEvents(st, events[..|events| - 1]), events[|events| - 1])
  {
    var before, e := events[..|events| - 1], events[|events| - 1];
    assert events == before + [e];
    AddEventsTwice(st, before, [e]);
    var mid := AddEvents(st, before);
    assert [e][1..] == [] && AddEvents(AddEvent(mid, e), []) == AddEvent(mid, e);
  }

  /** A call is kept for each announced block, under its id and name. */
  predicate Labelled(tools: seq<ToolCall>, starts: seq<Start>) {
    |tools| == |starts| &&
    forall k :: 0 <= k < |tools| ==> tools[k].id == starts[k].id && tools[k].name == starts[k].name
  }

  predicate Once(starts: seq<Start>) {
    forall i, j :: 0 <= i < j < |starts| ==> starts[i].block != starts[j].block
  }

  lemma LabelStep(st: State, starts: seq<Start>, e: Event)
    requires Labelled(st.tools, starts)
    ensures Labelled(AddEvent(st, e).tools, starts + StartOf(e))
  {
  }

  lemma {:induction false} AssembledLabels(events: seq<Event>)
    requires WellSent(events)
    ensures Labelled(AddEvents(EMPTY, events).tools, Starts(events)) && Once(Starts(events))
  {
    if events == [] {
    } else {
      var before, e := events[..|events| - 1], events[|events| - 1];
      AssembledLabels(before);
      AddLast(EMPTY, events);
      LabelStep(AddEvents(EMPTY, before), Starts(before), e);
      hide AddEvents, AddEvent, InputOf, Labelled;
    }
  }

  // ---- A measure that misplaced input raises ----

  /** The lengths of the inputs, each weighted by the position of its call. */
  function Weight(tools: seq<ToolCall>): nat {
    if tools == [] then 0 else Weight(tools[..|tools| - 1]) + |tools| * |tools[|tools| - 1].arguments|
  }

  lemma {:induction false} WeightLonger(a: seq<ToolCall>, b: seq<ToolCall>, k: nat, n: nat)
    requires |a| == |b| && k < |a| && |b[k].arguments| == |a[k].arguments| + n
    requires forall j :: 0 <= j < |a| && j != k ==> |b[j].arguments| == |a[j].arguments|
    ensures Weight(b) == Weight(a) + (k + 1) * n
    decreases |a|
  {
    var last := |a| - 1;
    if k == last {
      WeightSame(a[..last], b[..last]);
      assert |b| * |b[last].arguments| == |a| * |a[last].arguments| + |a| * n;
    } else {
      WeightLonger(a[..last], b[..last], k, n);
    }
  }

  lemma {:induction false} WeightSame(a: seq<ToolCall>, b: seq<ToolCall>)
    requires |a| == |b| && forall j :: 0 <= j < |a| ==> |b[j].arguments| == |a[j].arguments|
    ensures Weight(a) == Weight(b)
  {
    if a == [] {
    } else {
      WeightSame(a[..|a| - 1], b[..|b| - 1]);
    }
  }

  // ---- One event ----

  lemma InputStep(events: seq<Event>, block: int)
    requires events != []
    ensures InputOf(events, block) == InputOf(events[..|events| - 1], block) + InputIn(events[|events| - 1], block)
  {
  }

  /** A tool start adds a call without input; nothing else but input changes what is intended. */
  lemma IntendedStep(events: seq<Event>)
    requires events != [] && WellSent(events) && !events[|events| - 1].JsonDelta?
    ensures var before, e := events[..|events| - 1], events[|events| - 1];
      Intended(events) == Intended(before)
        + if e.BlockStart? && e.toolUse then [ToolCall(e.id, e.name, "")] else []
  {
    hide InputOf;
    var before, e := events[..|events| - 1], events[|events| - 1];
    var starts := Starts(before);
    forall k | 0 <= k < |Starts(events)|
      ensures InputOf(events, Starts(events)[k].block) == InputOf(before, Starts(events)[k].block)
    {
      InputStep(events, Starts(events)[k].block);
    }
  }

  /** Input lengthens the intended call of its own block. */
  lemma IntendedDelta(events: seq<Event>)
    requires events != [] && events[|events| - 1].JsonDelta?
    ensures var before, e := events[..|events| - 1], events[|events| - 1];
      && Starts(events) == Starts(before) && |Intended(events)| == |Intended(before)| == |Starts(before)|
      && forall k :: 0 <= k < |Intended(before)| ==>
           Intended(events)[k] ==
           Intended(before)[k].(arguments := Intended(before)[k].arguments + InputIn(e, Starts(before)[k].block))
  {
    hide InputOf, InputIn;
    var before, e := events[..|events| - 1], events[|events| - 1];
    forall k | 0 <= k < |Starts(before)|
      ensures InputOf(events, Starts(before)[k].block) ==
        InputOf(before, Starts(before)[k].block) + InputIn(e, Starts(before)[k].block)
    {
      InputStep(events, Starts(before)[k].block);
    }
  }

  lemma WeightNext(tools: seq<ToolCall>, call: ToolCall)
    requires call.arguments == ""
    ensures Weight(tools + [call]) == Weight(tools)
  {
    assert (tools + [call])[..|tools|] == tools;
  }

  /** What input adds to the weight of the call of its own block. */
  lemma NextWeighs(wanted: seq<ToolCall>, next: seq<ToolCall>, starts: seq<Start>, e: Event)
    requires e.JsonDelta? && |wanted| == |next| == |starts| > 0 && Once(starts)
    requires forall k :: 0 <= k < |wanted| ==>
      next[k] == wanted[k].(arguments := wanted[k].arguments + InputIn(e, starts[k].block))
    ensures var last := |wanted| - 1;
      && Weight(next) <= Weight(wanted) + |wanted| * |e.partial|
      && (e.partial != "" && starts[last].block != e.block ==> Weight(next) < Weight(wanted) + |wanted| * |e.partial|)
  {
    hide Weight;
    var n, size := |e.partial|, |wanted|;
    if k :| 0 <= k < |starts| && starts[k].block == e.block {
      OwnWeighs(wanted, next, starts, e, k);
      Scaled(k + 1, size, n);
      assert starts[size - 1].block != e.block ==> k + 1 < size;
    } else {
      assert forall j :: 0 <= j < size ==> InputIn(e, starts[j].block) == "";
      WeightSame(wanted, next);
      Scaled(0, size, n);
    }
  }

  lemma OwnWeighs(wanted: seq<ToolCall>, next: seq<ToolCall>, starts: seq<Start>, e: Event, k: nat)
    requires e.JsonDelta? && |wanted| == |next| == |starts| && Once(starts) && k < |starts| && starts[k].block == e.block
    requires forall j :: 0 <= j < |wanted| ==>
      next[j] == wanted[j].(arguments := wanted[j].arguments + InputIn(e, starts[j].block))
    ensures Weight(next) == Weight(wanted) + (k + 1) * |e.partial|
  {
    forall j | 0 <= j < |wanted| && j != k
      ensures |next[j].arguments| == |wanted[j].arguments|
    {
      assert starts[j].block != e.block;
    }
    hide Weight, Once;
    WeightLonger(wanted, next, k, |e.partial|);
  }

  lemma Scaled(a: nat, b: nat, n: nat)
    requires a <= b
    ensures a * n <= b * n && (a < b && n > 0 ==> a * n < b * n)
  {
    assert b * n == a * n + (b - a) * n;
  }

  /** `e.partial` lands on the call started last; `e.block` is the block it was meant for. */
  lemma DeltaWeighs(tools: seq<ToolCall>, wanted: seq<ToolCall>, next: seq<ToolCall>, starts: seq<Start>, e: Event)
    requires e.JsonDelta? && |tools| == |wanted| == |next| == |starts| > 0 && Once(starts)
    requires forall k :: 0 <= k < |wanted| ==>
      next[k] == wanted[k].(arguments := wanted[k].arguments + InputIn(e, starts[k].block))
    ensures var last := |tools| - 1;
      var landed := tools[last := tools[last].(arguments := tools[last].arguments + e.partial)];
      && Weight(landed) == Weight(tools) + |tools| * |e.partial|
      && Weight(next) <= Weight(wanted) + |tools| * |e.partial|
      && (e.partial != "" && starts[last].block != e.block ==> Weight(next) < Weight(wanted) + |tools| * |e.partial|)
      && (e.partial == "" || starts[last].block == e.block ==>
            next == wanted[last := wanted[last].(arguments := wanted[last].arguments + e.partial)])
  {
    hide Weight;
    var last := |tools| - 1;
    var landed := tools[last := tools[last].(arguments := tools[last].arguments + e.partial)];
    WeightLonger(tools, landed, last, |e.partial|);
    NextWeighs(wanted, next, starts, e);
    forall k | 0 <= k < |wanted| && k != last && (e.partial == "" || starts[last].block == e.block)
      ensures next[k] == wanted[k]
    {
      assert wanted[k].arguments + "" == wanted[k].arguments;
    }
  }

  /** In turn, the calls are as intended; out of turn, input weighs on later calls than it should. */
  predicate Tracked(tools: seq<ToolCall>, wanted: seq<ToolCall>, inTurn: bool) {
    if inTurn then tools == wanted else Weight(tools) > Weight(wanted)
  }

  lemma DeltaTracks(st: State, wanted: seq<ToolCall>, next: seq<ToolCall>, starts: seq<Start>, e: Event, inTurn: bool)
    requires e.JsonDelta? && |st.tools| == |wanted| == |next| == |starts| && Once(starts)
    requires forall k :: 0 <= k < |wanted| ==>
      next[k] == wanted[k].(arguments := wanted[k].arguments + InputIn(e, starts[k].block))
    requires Tracked(st.tools, wanted, inTurn)
    ensures Tracked(AddEvent(st, e).tools, next,
      inTurn && (e.partial != "" && starts != [] ==> starts[|starts| - 1].block == e.block))
  {
    hide Weight, InputIn;
    if st.tools == [] {
      assert wanted == next == [];
    } else {
      DeltaWeighs(st.tools, wanted, next, starts, e);
    }
  }

  lemma OtherTracks(st: State, wanted: seq<ToolCall>, e: Event, inTurn: bool)
    requires !e.JsonDelta? && Tracked(st.tools, wanted, inTurn)
    ensures Tracked(AddEvent(st, e).tools,
      wanted + (if e.BlockStart? && e.toolUse then [ToolCall(e.id, e.name, "")] else []), inTurn)
  {
    hide Weight;
    assert wanted + [] == wanted;
    if e.BlockStart? && e.toolUse {
      WeightNext(st.tools, ToolCall(e.id, e.name, ""));
      WeightNext(wanted, ToolCall(e.id, e.name, ""));
    }
  }

  lemma {:induction false} Tracks(events: seq<Event>)
    requires WellSent(events)
    ensures Tracked(AddEvents(EMPTY, events).tools, Intended(events), InTurn(events))
  {
    if events == [] {
    } else {
      var before, e := events[..|events| - 1], events[|events| - 1];
      Tracks(before);
      AddLast(EMPTY, events);
      AssembledLabels(before);
      hide AddEvents, AddEvent, Intended, Starts, Tracked, Once;
      var st := AddEvents(EMPTY, before);
      if e.JsonDelta? {
        IntendedDelta(events);
        DeltaTracks(st, Intended(before), Intended(events), Starts(before), e, InTurn(before));
      } else {
        IntendedStep(events);
        OtherTracks(st, Intended(before), e, InTurn(before));
      }
    }
  }

  /**
   Every call ends with exactly the input sent for its own block if and only if no input arrives once the block of a
   later call has started. Interleaved blocks do end up in one another.
   */
  lemma OwnInputIff(events: seq<Event>)
    requires WellSent(events)
    ensures AddEvents(EMPTY, events).tools == Intended(events) <==> InTurn(events)
  {
    hide AddEvents, Intended, InTurn, WellSent, Weight;
    Tracks(events);
  }

  /** The smallest such stream: two calls announced, then input for the first. */
  lemma InterleavedBlocksMix(a: Start, b: Start, x: string)
    requires a.block != b.block && x != ""
    ensures var events := [BlockStart(a.block, true, a.id, a.name), BlockStart(b.block, true, b.id, b.name),
                           JsonDelta(a.block, x)];
      WellSent(events) && AddEvents(EMPTY, events).tools != Intended(events)
  {
    hide AddEvents, Intended;
    var e1, e2 := BlockStart(a.block, true, a.id, a.name), BlockStart(b.block, true, b.id, b.name);
    var events := [e1, e2, JsonDelta(a.block, x)];
    assert events[..2] == [e1, e2] && [e1, e2][..1] == [e1] && [e1][..0] == [];
    assert Starts([]) == [] && Starts([e1]) == [a] && Starts([e1, e2]) == [a, b];
    assert InputOf([], a.block) == "" && InputOf([e1], b.block) == "";
    assert WellSent([]) && WellSent([e1]) && WellSent([e1, e2]);
    OwnInputIff(events);
  }

  /** Input for `b` before its block has started, then input for `a` behind that start. */
  function Early(a: Start, b: Start, x: string): seq<Event> {
    [BlockStart(a.block, true, a.id, a.name), JsonDelta(b.block, x),
     BlockStart(b.block, true, b.id, b.name), JsonDelta(a.block, x)]
  }

  lemma EarlyIntended(a: Start, b: Start, x: string)
    requires a.block != b.block && x != ""
    ensures !WellSent(Early(a, b, x)) && !InTurn(Early(a, b, x))
    ensures Intended(Early(a, b, x)) == [ToolCall(a.id, a.name, x), ToolCall(b.id, b.name, x)]
  {
    var four := Early(a, b, x);
    var one, two, three := [four[0]], [four[0], four[1]], [four[0], four[1], four[2]];
    assert four[..3] == three && three[..2] == two && two[..1] == one && one[..0] == [];
    assert Starts([]) == [] && Starts(one) == [a] && Starts(two) == [a] && Starts(three) == [a, b] == Starts(four);
    assert InputOf([], a.block) == "" && InputOf(one, a.block) == "" && InputOf(two, a.block) == "";
    assert InputOf(three, a.block) == "" && InputOf(four, a.block) == x;
    assert InputOf([], b.block) == "" && InputOf(one, b.block) == "" && InputOf(two, b.block) == x;
    assert InputOf(three, b.block) == x && InputOf(four, b.block) == x;
    assert !WellSent(three);
  }

  lemma EarlyAssembled(a: Start, b: Start, x: string)
    ensures AddEvents(EMPTY, Early(a, b, x)).tools == [ToolCall(a.id, a.name, x), ToolCall(b.id, b.name, x)]
  {
    var four := Early(a, b, x);
    var st1 := AddEvent(EMPTY, four[0]);
    var st2 := AddEvent(st1, four[1]);
    var st3 := AddEvent(st2, four[2]);
    var st4 := AddEvent(st3, four[3]);
    assert "" + x == x;
    assert st1.tools == [ToolCall(a.id, a.name, "")];
    assert st2.tools == [ToolCall(a.id, a.name, x)];
    assert st3.tools == [ToolCall(a.id, a.name, x), ToolCall(b.id, b.name, "")];
    assert st4.tools == [ToolCall(a.id, a.name, x), ToolCall(b.id, b.name, x)];
    hide AddEvents, AddEvent;
    AddOne(EMPTY, [], four[0]);
    AddOne(EMPTY, [] + [four[0]], four[1]);
    AddOne(EMPTY, [] + [four[0]] + [four[1]], four[2]);
    AddOne(EMPTY, [] + [four[0]] + [four[1]] + [four[2]], four[3]);
    assert four == [] + [four[0]] + [four[1]] + [four[2]] + [four[3]];
    AddNothing(EMPTY);
  }

  lemma AddNothing(st: State)
    ensures AddEvents(st, []) == st
  {
  }

  lemma AddOne(st: State, before: seq<Event>, e: Event)
    ensures AddEvents(st, before + [e]) == AddEvent(AddEvents(st, before), e)
  {
    hide AddEvents, AddEvent;
    AddLast(st, before + [e]);
    assert (before + [e])[..|before|] == before;
  }

  /** Input sent before its block has started can make up for misplaced input: without WellSent the equivalence fails. */
  lemma EarlyInputMayAgree(a: Start, b: Start, x: string)
    requires a.block != b.block && x != ""
    ensures var events := Early(a, b, x);
      !WellSent(events) && !InTurn(events) && AddEvents(EMPTY, events).tools == Intended(events)
  {
    EarlyIntended(a, b, x);
    EarlyAssembled(a, b, x);
  }
}
