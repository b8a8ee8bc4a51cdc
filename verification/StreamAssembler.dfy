/** Streamed LLM responses assembled chunk by chunk, against the one-shot parse: internal/llm/parser.go over decoded records. */
module StreamAssembler {
  import opened Bytes

  // ---- Decoded records ----

  datatype ToolCall = ToolCall(id: string, name: string, arguments: string)

  const NO_CALL := ToolCall("", "", "")

  datatype Usage = Usage(prompt: int, completion: int, total: int)

  datatype Info = Info(model: string, content: string, finish: string, tools: seq<ToolCall>, usage: Usage)

  datatype ToolDelta = ToolDelta(index: int, id: string, name: string, arguments: string)

  datatype Delta = Delta(content: string, tools: seq<ToolDelta>, finish: string)

  /** One chunk of an OpenAI stream. */
  datatype Chunk = Chunk(model: string, choices: seq<Delta>, usage: Option<Usage>)

  datatype Message = Message(content: string, tools: seq<ToolCall>, finish: string)

  /** A complete OpenAI response. */
  datatype Response = Response(model: string, choices: seq<Message>, usage: Option<Usage>)

  /** What one data line of a stream decodes to. */
  datatype Payload = DoneMark | Undecodable | Decoded(chunk: Chunk)

  const MAX_INDEX: int := 64

  const NO_USAGE := Usage(0, 0, 0)

  // ---- The reference: one whole response ----

  function ParseOpenAi(whole: Response): Info {
    var usage := if whole.usage.Some? then whole.usage.value else NO_USAGE;
    if whole.choices == [] then Info(whole.model, "", "", [], usage)
    else Info(whole.model, whole.choices[0].content, whole.choices[0].finish, whole.choices[0].tools, usage)
  }

  // ---- The assembler, as a function of what it was fed ----

  datatype State = State(model: string, content: string, finish: string, usage: Option<Usage>, tools: seq<ToolCall>)

  const EMPTY := State("", "", "", None, [])

  function Padded(tools: seq<ToolCall>, n: nat): (r: seq<ToolCall>)
    ensures |r| >= n && |r| >= |tools|
  {
    if |tools| >= n then tools else tools + seq(n - |tools|, _ => NO_CALL)
  }

  function Joined(call: ToolCall, d: ToolDelta): ToolCall {
    ToolCall(if d.id != "" then d.id else call.id, if d.name != "" then d.name else call.name,
             call.arguments + d.arguments)
  }

  predicate InRange(index: int) {
    0 <= index <= MAX_INDEX
  }

  function AddTool(tools: seq<ToolCall>, d: ToolDelta): seq<ToolCall> {
    if !InRange(d.index) then tools
    else
      var padded := Padded(tools, d.index + 1);
      padded[d.index := Joined(padded[d.index], d)]
  }

  function AddTools(tools: seq<ToolCall>, deltas: seq<ToolDelta>): seq<ToolCall> {
    if deltas == [] then tools
    else AddTool(AddTools(tools, deltas[..|deltas| - 1]), deltas[|deltas| - 1])
  }

  /** The total is not kept: Result adds the other two. */
  function AddChunk(st: State, c: Chunk): State {
    var model := if st.model == "" && c.model != "" then c.model else st.model;
    var usage := if c.usage.Some? then Some(Usage(c.usage.value.prompt, c.usage.value.completion, 0)) else st.usage;
    if c.choices == [] then st.(model := model, usage := usage)
    else
      var d := c.choices[0];
      State(model, st.content + d.content, if d.finish != "" then d.finish else st.finish, usage,
            AddTools(st.tools, d.tools))
  }

  function ResultOf(st: State): Info {
    var usage := if st.usage.Some? then
        Usage(st.usage.value.prompt, st.usage.value.completion, st.usage.value.prompt + st.usage.value.completion)
      else NO_USAGE;
    Info(st.model, st.content, st.finish, st.tools, usage)
  }

  function FeedAll(chunks: seq<Chunk>): State {
    if chunks == [] then EMPTY else AddChunk(FeedAll(chunks[..|chunks| - 1]), chunks[|chunks| - 1])
  }

  // ---- The object ----

  class StreamAssembler {
    var model: string
    var content: string
    var finish: string
    var usage: Option<Usage>
    var toolCalls: seq<ToolCall>

    function View(): State
      reads this
    {
      State(model, content, finish, usage, toolCalls)
    }

    constructor ()
      ensures View() == EMPTY
    {
      model, content, finish, usage, toolCalls := "", "", "", None, [];
    }

    method Feed(data: Payload) returns (ok: bool)
      modifies this
      ensures ok == !data.Undecodable?
      ensures View() == if data.Decoded? then AddChunk(old(View()), data.chunk) else old(View())
    {
      match data
      case DoneMark => return true;
      case Undecodable => return false;
      case Decoded(chunk) =>
        FeedOpenAI(chunk);
        return true;
    }

    method FeedAnthropic(event: Event)
      modifies this
      ensures View() == AddEvent(old(View()), event)
    {
      match event
      case MessageStart(m, input) =>
        model := m;
        if usage.None? {
          usage := Some(NO_USAGE);
        }
        if input.Some? {
          usage := Some(usage.value.(prompt := input.value));
        }
      case BlockStart(_, toolUse, id, name) =>
        if toolUse {
          toolCalls := toolCalls + [ToolCall(id, name, "")];
        }
      case TextDelta(_, text) => content := content + text;
      case JsonDelta(_, partial) =>
        if |toolCalls| > 0 {
          var last := |toolCalls| - 1;
          toolCalls := toolCalls[last := toolCalls[last].(arguments := toolCalls[last].arguments + partial)];
        }
      case MessageDelta(stop, output) =>
        if stop != "" {
          finish := stop;
        }
        if output.Some? {
          if usage.None? {
            usage := Some(NO_USAGE);
          }
          usage := Some(usage.value.(completion := output.value));
        }
      case OtherEvent =>
    }

    method FeedOpenAI(chunk: Chunk)
      modifies this
      ensures View() == AddChunk(old(View()), chunk)
    {
      if model == "" && chunk.model != "" {
        model := chunk.model;
      }
      if |chunk.choices| > 0 {
        var c := chunk.choices[0];
        content := content + c.content;
        ghost var before := View();
        var i := 0;
        while i < |c.tools|
          invariant i <= |c.tools|
          invariant View() == before.(tools := toolCalls)
          invariant toolCalls == AddTools(before.tools, c.tools[..i])
        {
          FeedTool(c.tools[i]);
          assert c.tools[..i + 1][..i] == c.tools[..i];
          i := i + 1;
        }
        assert c.tools[..i] == c.tools;
        if c.finish != "" {
          finish := c.finish;
        }
      }
      if chunk.usage.Some? {
        usage := Some(Usage(chunk.usage.value.prompt, chunk.usage.value.completion, 0));
      }
    }

    method FeedTool(tc: ToolDelta)
      modifies this`toolCalls
      ensures toolCalls == AddTool(old(toolCalls), tc)
    {
      var idx := tc.index;
      if idx < 0 || idx > MAX_INDEX {
        return;
      }
      while |toolCalls| <= idx
        invariant |toolCalls| >= |old(toolCalls)| && (|toolCalls| > |old(toolCalls)| ==> |toolCalls| <= idx + 1)
        invariant toolCalls == Padded(old(toolCalls), |toolCalls|)
        decreases idx - |toolCalls|
      {
        toolCalls := toolCalls + [NO_CALL];
      }
      assert toolCalls == Padded(old(toolCalls), idx + 1);
      var call := toolCalls[idx];
      if tc.id != "" {
        call := call.(id := tc.id);
      }
      if tc.name != "" {
        call := call.(name := tc.name);
      }
      toolCalls := toolCalls[idx := call.(arguments := call.arguments + tc.arguments)];
    }

    method Result() returns (info: Info)
      ensures info == ResultOf(View())
    {
      info := Info(model, content, finish, toolCalls, NO_USAGE);
      if usage.Some? {
        info := info.(usage := Usage(usage.value.prompt, usage.value.completion,
                                     usage.value.prompt + usage.value.completion));
      }
    }
  }

  // ---- What the fragments of one call amount to ----

  function Of(deltas: seq<ToolDelta>, index: nat): seq<ToolDelta> {
    if deltas == [] then []
    else
      var last := deltas[|deltas| - 1];
      Of(deltas[..|deltas| - 1], index) + if last.index == index then [last] else []
  }

  /** The arguments of the fragments, one behind the other. */
  function Arguments(fragments: seq<ToolDelta>): string {
    if fragments == [] then "" else fragments[0].arguments + Arguments(fragments[1..])
  }

  /** The last id given; empty when none is. */
  function LastId(fragments: seq<ToolDelta>): string {
    if fragments == [] then ""
    else if fragments[|fragments| - 1].id != "" then fragments[|fragments| - 1].id
    else LastId(fragments[..|fragments| - 1])
  }

  function LastName(fragments: seq<ToolDelta>): string {
    if fragments == [] then ""
    else if fragments[|fragments| - 1].name != "" then fragments[|fragments| - 1].name
    else LastName(fragments[..|fragments| - 1])
  }

  /** The call that these fragments make up. */
  function Whole(fragments: seq<ToolDelta>): ToolCall {
    ToolCall(LastId(fragments), LastName(fragments), Arguments(fragments))
  }

  lemma {:induction false} ArgumentsMore(fragments: seq<ToolDelta>, d: ToolDelta)
    ensures Arguments(fragments + [d]) == Arguments(fragments) + d.arguments
    decreases |fragments|
  {
    if fragments == [] {
      assert fragments + [d] == [d] && [d][1..] == [] && d.arguments + "" == d.arguments == "" + d.arguments;
    } else {
      ArgumentsMore(fragments[1..], d);
      assert (fragments + [d])[1..] == fragments[1..] + [d];
      Regroup(fragments[0].arguments, Arguments(fragments[1..]), d.arguments);
    }
  }

  lemma WholeMore(fragments: seq<ToolDelta>, d: ToolDelta)
    ensures Whole(fragments + [d]) == Joined(Whole(fragments), d)
  {
    ArgumentsMore(fragments, d);
    assert (fragments + [d])[..|fragments|] == fragments;
  }

  /** One more than the largest index in range. */
  function Span(deltas: seq<ToolDelta>): nat {
    if deltas == [] then 0
    else
      var before, last := Span(deltas[..|deltas| - 1]), deltas[|deltas| - 1].index;
      if InRange(last) && last + 1 > before then last + 1 else before
  }

  lemma AddToolAt(tools: seq<ToolCall>, d: ToolDelta, i: nat)
    requires InRange(d.index)
    ensures var r := AddTool(tools, d);
      && |r| == (if |tools| > d.index then |tools| else d.index + 1)
      && (i < |r| ==> var was := if i < |tools| then tools[i] else NO_CALL;
            r[i] == if i == d.index then Joined(was, d) else was)
  {
  }

  lemma OfMore(deltas: seq<ToolDelta>, d: ToolDelta, i: nat)
    ensures Of(deltas + [d], i) == Of(deltas, i) + if d.index == i then [d] else []
    ensures Whole(Of(deltas, i) + [d]) == Joined(Whole(Of(deltas, i)), d)
  {
    WholeMore(Of(deltas, i), d);
    assert (deltas + [d])[..|deltas|] == deltas;
  }

  /**
   Every list of fragments: call `i` has the arguments of the fragments with index `i`, joined in their order, and the
   last id and name that one of them gives.
   */
  lemma {:induction false} ToolsAreJoins(deltas: seq<ToolDelta>)
    ensures |AddTools([], deltas)| == Span(deltas)
    ensures forall i :: 0 <= i < Span(deltas) ==>
      AddTools([], deltas)[i] == ToolCall(LastId(Of(deltas, i)), LastName(Of(deltas, i)), Arguments(Of(deltas, i)))
    ensures forall i :: Span(deltas) <= i <= MAX_INDEX ==> Of(deltas, i) == []
  {
    hide AddTool, Of, LastId, LastName, Arguments;
    if deltas == [] {
      assert forall i: nat :: Of([], i) == [] by { NoFragments(); }
    } else {
      var before, d := deltas[..|deltas| - 1], deltas[|deltas| - 1];
      assert deltas == before + [d];
      ToolsAreJoins(before);
      var tools := AddTools([], before);
      assert AddTools([], deltas) == AddTool(tools, d);
      if InRange(d.index) {
        AddToolAt(tools, d, 0);
      } else {
        SkipTool(tools, d);
      }
      forall i: nat | i <= MAX_INDEX
        ensures i < Span(deltas) ==> AddTools([], deltas)[i] == Whole(Of(deltas, i))
        ensures Span(deltas) <= i ==> Of(deltas, i) == []
      {
        OfMore(before, d, i);
        NoFragments();
        assert Of(before, i) + [] == Of(before, i);
        if InRange(d.index) {
          AddToolAt(tools, d, i);
        }
      }
      SpanInRange(deltas);
    }
  }

  lemma NoFragments()
    ensures forall i: nat :: Of([], i) == []
    ensures Whole([]) == NO_CALL
  {
  }

  /** An index out of range changes nothing. */
  lemma SkipTool(tools: seq<ToolCall>, d: ToolDelta)
    requires d.index < 0 || d.index > MAX_INDEX
    ensures AddTool(tools, d) == tools
  {
  }

  // ---- Whole streams ----

  function Deltas(chunks: seq<Chunk>): seq<ToolDelta> {
    if chunks == [] then []
    else
      var last := chunks[|chunks| - 1];
      Deltas(chunks[..|chunks| - 1]) + if last.choices == [] then [] else last.choices[0].tools
  }

  function Content(chunks: seq<Chunk>): string {
    if chunks == [] then ""
    else
      var last := chunks[|chunks| - 1];
      Content(chunks[..|chunks| - 1]) + if last.choices == [] then "" else last.choices[0].content
  }

  function Finish(chunks: seq<Chunk>): string {
    if chunks == [] then ""
    else
      var last := chunks[|chunks| - 1];
      if last.choices != [] && last.choices[0].finish != "" then last.choices[0].finish
      else Finish(chunks[..|chunks| - 1])
  }

  function Model(chunks: seq<Chunk>): string {
    if chunks == [] then "" else if chunks[0].model != "" then chunks[0].model else Model(chunks[1..])
  }

  function LastUsage(chunks: seq<Chunk>): Option<Usage> {
    if chunks == [] then None
    else if chunks[|chunks| - 1].usage.Some? then chunks[|chunks| - 1].usage
    else LastUsage(chunks[..|chunks| - 1])
  }

  lemma {:induction false} AddToolsTwice(tools: seq<ToolCall>, a: seq<ToolDelta>, b: seq<ToolDelta>)
    ensures AddTools(AddTools(tools, a), b) == AddTools(tools, a + b)
    decreases |b|
  {
    hide AddTool;
    if b == [] {
      assert a + b == a;
    } else {
      AddToolsTwice(tools, a, b[..|b| - 1]);
      assert (a + b)[..|a + b| - 1] == a + b[..|b| - 1];
    }
  }

  lemma {:induction false} ModelOfMore(chunks: seq<Chunk>, c: Chunk)
    ensures Model(chunks + [c]) == if Model(chunks) == "" then c.model else Model(chunks)
  {
    if chunks == [] {
      assert chunks + [c] == [c] && [c][1..] == [];
    } else {
      ModelOfMore(chunks[1..], c);
      assert (chunks + [c])[1..] == chunks[1..] + [c];
    }
  }

  /** The assembler keeps exactly: the first model, the joined content, the last finish reason and usage, and the joined calls. */
  lemma {:induction false} FeedAllKeeps(chunks: seq<Chunk>)
    ensures var st := FeedAll(chunks);
      && st.model == Model(chunks) && st.content == Content(chunks) && st.finish == Finish(chunks)
      && st.tools == AddTools([], Deltas(chunks))
      && (st.usage.Some? <==> LastUsage(chunks).Some?)
      && (st.usage.Some? ==> st.usage.value == LastUsage(chunks).value.(total := 0))
  {
    hide AddTools;
    if chunks == [] {
      assert AddTools([], []) == [] by { NoTools(); }
    } else {
      var before, c := chunks[..|chunks| - 1], chunks[|chunks| - 1];
      FeedAllKeeps(before);
      ModelOfMore(before, c);
      assert chunks == before + [c];
      if c.choices == [] {
        assert Deltas(before) + [] == Deltas(before) && Content(before) + "" == Content(before);
      } else {
        AddToolsTwice([], Deltas(before), c.choices[0].tools);
      }
    }
  }

  lemma NoTools()
    ensures AddTools([], []) == []
  {
  }

  // ---- Main results ----

  /** The fragments make up these calls: any cutting, any interleaving of different calls, anything out of range ignored. */
  predicate Fragments(deltas: seq<ToolDelta>, calls: seq<ToolCall>) {
    && |calls| <= 65
    && (forall i :: 0 <= i < |calls| ==>
          calls[i] == ToolCall(LastId(Of(deltas, i)), LastName(Of(deltas, i)), Arguments(Of(deltas, i))))
    && (forall i :: |calls| <= i <= MAX_INDEX ==> Of(deltas, i) == [])
    && (calls != [] ==> Of(deltas, |calls| - 1) != [])
  }

  /** The chunks are a stream of the whole response. */
  predicate StreamOf(chunks: seq<Chunk>, whole: Response) {
    && whole.choices != []
    && Model(chunks) == whole.model
    && Content(chunks) == whole.choices[0].content
    && Finish(chunks) == whole.choices[0].finish
    && LastUsage(chunks) == whole.usage
    && Fragments(Deltas(chunks), whole.choices[0].tools)
  }

  lemma FragmentsAssemble(deltas: seq<ToolDelta>, calls: seq<ToolCall>)
    requires Fragments(deltas, calls)
    ensures AddTools([], deltas) == calls
  {
    hide Of, LastId, LastName, Arguments, AddTools;
    ToolsAreJoins(deltas);
    OfBelowSpan(deltas, |calls|);
  }

  lemma {:induction false} OfBelowSpan(deltas: seq<ToolDelta>, n: nat)
    requires n <= MAX_INDEX + 1
    requires forall i :: n <= i <= MAX_INDEX ==> Of(deltas, i) == []
    ensures Span(deltas) <= n
    ensures n > 0 && Of(deltas, n - 1) != [] ==> Span(deltas) == n
  {
    if deltas == [] {
    } else {
      var before, d := deltas[..|deltas| - 1], deltas[|deltas| - 1];
      forall i | n <= i <= MAX_INDEX
        ensures Of(before, i) == []
      {
        assert Of(deltas, i) == [];
      }
      assert InRange(d.index) ==> d in Of(deltas, d.index);
      OfBelowSpan(before, n);
    }
  }

  /** Any stream of a response assembles to what parsing the response whole gives, but for the total token count. */
  lemma StreamMatchesWhole(chunks: seq<Chunk>, whole: Response)
    requires StreamOf(chunks, whole)
    ensures var streamed, parsed := ResultOf(FeedAll(chunks)), ParseOpenAi(whole);
      && streamed.(usage := NO_USAGE) == parsed.(usage := NO_USAGE)
      && streamed.usage.prompt == parsed.usage.prompt && streamed.usage.completion == parsed.usage.completion
  {
    hide FeedAll, AddTools, Fragments;
    FeedAllKeeps(chunks);
    FragmentsAssemble(Deltas(chunks), whole.choices[0].tools);
  }

  /** The totals agree too exactly when the reported total is the sum of the other two. */
  lemma TotalsMatchIff(chunks: seq<Chunk>, whole: Response)
    requires StreamOf(chunks, whole)
    ensures ResultOf(FeedAll(chunks)) == ParseOpenAi(whole)
      <==> (whole.usage.Some? ==> whole.usage.value.total == whole.usage.value.prompt + whole.usage.value.completion)
  {
    hide FeedAll, AddTools, Fragments;
    FeedAllKeeps(chunks);
    StreamMatchesWhole(chunks, whole);
  }

  /** Two streams whose fragments agree call by call assemble to the same calls, however the calls are interleaved. */
  lemma InterleavingIgnored(a: seq<ToolDelta>, b: seq<ToolDelta>)
    requires forall i :: 0 <= i <= MAX_INDEX ==> Of(a, i) == Of(b, i)
    ensures AddTools([], a) == AddTools([], b)
  {
    hide Of, LastId, LastName, Arguments, AddTools;
    ToolsAreJoins(a);
    ToolsAreJoins(b);
    SpanAgrees(a, b);
    SpanAgrees(b, a);
    SpanInRange(a);
    var ta, tb := AddTools([], a), AddTools([], b);
    forall i | 0 <= i < |ta|
      ensures ta[i] == tb[i]
    {
      assert Of(a, i) == Of(b, i);
    }
  }

  lemma SpanAgrees(a: seq<ToolDelta>, b: seq<ToolDelta>)
    requires forall i :: 0 <= i <= MAX_INDEX ==> Of(a, i) == Of(b, i)
    ensures Span(a) <= Span(b)
  {
    hide Of;
    ToolsAreJoins(b);
    SpanInRange(b);
    OfBelowSpan(a, Span(b));
  }

  lemma {:induction false} SpanInRange(deltas: seq<ToolDelta>)
    ensures Span(deltas) <= MAX_INDEX + 1
  {
    if deltas == [] {
    } else {
      SpanInRange(deltas[..|deltas| - 1]);
    }
  }

  // ---- Anthropic: a sequence of content blocks ----

  /** `block`: the position of a content block in the response, which its start and its deltas carry. */
  datatype Event =
    | MessageStart(model: string, input: Option<int>)
    | BlockStart(block: int, toolUse: bool, id: string, name: string)
    | TextDelta(block: int, text: string)
    | JsonDelta(block: int, partial: string)
    | MessageDelta(stop: string, output: Option<int>)
    | OtherEvent

  datatype Block = Text(text: string) | ToolUse(id: string, name: string, input: string) | OtherBlock

  /** A complete Anthropic response; `usage` holds its input and output tokens. */
  datatype Reply = Reply(model: string, blocks: seq<Block>, stop: string, usage: Option<(int, int)>)

  function TextOf(blocks: seq<Block>): string {
    if blocks == [] then "" else (if blocks[0].Text? then blocks[0].text else "") + TextOf(blocks[1..])
  }

  function CallsOf(blocks: seq<Block>): seq<ToolCall> {
    if blocks == [] then []
    else
      (if blocks[0].ToolUse? then [ToolCall(blocks[0].id, blocks[0].name, blocks[0].input)] else [])
      + CallsOf(blocks[1..])
  }

  function ParseAnthropic(whole: Reply): Info {
    Info(whole.model, TextOf(whole.blocks), whole.stop, CallsOf(whole.blocks),
         if whole.usage.Some? then Usage(whole.usage.value.0, whole.usage.value.1, whole.usage.value.0 + whole.usage.value.1)
         else NO_USAGE)
  }

  function UsageOr(u: Option<Usage>): Usage {
    if u.Some? then u.value else NO_USAGE
  }

  function AddEvent(st: State, e: Event): State {
    match e
    case MessageStart(model, input) =>
      var u := UsageOr(st.usage);
      st.(model := model, usage := Some(if input.Some? then u.(prompt := input.value) else u))
    case BlockStart(_, toolUse, id, name) => if toolUse then st.(tools := st.tools + [ToolCall(id, name, "")]) else st
    case TextDelta(_, text) => st.(content := st.content + text)
    case JsonDelta(_, partial) =>
      if st.tools == [] then st
      else
        var last := |st.tools| - 1;
        st.(tools := st.tools[last := st.tools[last].(arguments := st.tools[last].arguments + partial)])
    case MessageDelta(stop, output) =>
      st.(finish := if stop != "" then stop else st.finish,
          usage := if output.Some? then Some(UsageOr(st.usage).(completion := output.value)) else st.usage)
    case OtherEvent => st
  }

  function AddEvents(st: State, events: seq<Event>): State
    decreases |events|
  {
    if events == [] then st else AddEvents(AddEvent(st, events[0]), events[1..])
  }

  function Concat(parts: seq<string>): string {
    if parts == [] then "" else parts[0] + Concat(parts[1..])
  }

  /** The pieces in which one block travels. */
  datatype Piece = Piece(block: Block, parts: seq<string>)

  predicate CutOf(p: Piece) {
    match p.block
    case Text(text) => Concat(p.parts) == text
    case ToolUse(_, _, input) => Concat(p.parts) == input
    case OtherBlock => true
  }

  function TextEvents(parts: seq<string>, at: int): seq<Event> {
    if parts == [] then [] else [TextDelta(at, parts[0])] + TextEvents(parts[1..], at)
  }

  function JsonEvents(parts: seq<string>, at: int): seq<Event> {
    if parts == [] then [] else [JsonDelta(at, parts[0])] + JsonEvents(parts[1..], at)
  }

  function BlockEvents(p: Piece, at: int): seq<Event> {
    match p.block
    case Text(_) => [BlockStart(at, false, "", "")] + TextEvents(p.parts, at)
    case ToolUse(id, name, _) => [BlockStart(at, true, id, name)] + JsonEvents(p.parts, at)
    case OtherBlock => [BlockStart(at, false, "", ""), OtherEvent]
  }

  /** The blocks one after the other, numbered from `at`. */
  function StreamEvents(pieces: seq<Piece>, at: int): seq<Event> {
    if pieces == [] then [] else BlockEvents(pieces[0], at) + StreamEvents(pieces[1..], at + 1)
  }

  function Blocks(pieces: seq<Piece>): seq<Block> {
    if pieces == [] then [] else [pieces[0].block] + Blocks(pieces[1..])
  }

  lemma {:induction false} AddEventsTwice(st: State, a: seq<Event>, b: seq<Event>)
    ensures AddEvents(st, a + b) == AddEvents(AddEvents(st, a), b)
    decreases |a|
  {
    hide AddEvent;
    if a == [] {
      assert a + b == b;
    } else {
      AddEventsTwice(AddEvent(st, a[0]), a[1..], b);
      assert (a + b)[1..] == a[1..] + b;
    }
  }

  lemma {:induction false} TextArrives(st: State, parts: seq<string>, at: int)
    ensures AddEvents(st, TextEvents(parts, at)) == st.(content := st.content + Concat(parts))
    decreases |parts|
  {
    if parts == [] {
      assert st.content + "" == st.content;
    } else {
      var first := TextDelta(at, parts[0]);
      assert TextEvents(parts, at) == [first] + TextEvents(parts[1..], at);
      TextArrives(AddEvent(st, first), parts[1..], at);
      Regroup(st.content, parts[0], Concat(parts[1..]));
      hide TextEvents;
      assert ([first] + TextEvents(parts[1..], at))[1..] == TextEvents(parts[1..], at);
    }
  }

  lemma {:induction false} JsonArrives(st: State, before: seq<ToolCall>, call: ToolCall, parts: seq<string>, at: int)
    requires st.tools == before + [call]
    ensures AddEvents(st, JsonEvents(parts, at)) ==
      st.(tools := before + [call.(arguments := call.arguments + Concat(parts))])
    decreases |parts|
  {
    if parts == [] {
      assert call.arguments + "" == call.arguments;
    } else {
      var grown := call.(arguments := call.arguments + parts[0]);
      var next := AddEvent(st, JsonDelta(at, parts[0]));
      assert next.tools == before + [grown];
      JsonArrives(next, before, grown, parts[1..], at);
      assert JsonEvents(parts, at)[1..] == JsonEvents(parts[1..], at);
      assert call.arguments + parts[0] + Concat(parts[1..]) == call.arguments + (parts[0] + Concat(parts[1..]));
    }
  }

  lemma BlockArrives(st: State, p: Piece, at: int)
    requires CutOf(p)
    ensures AddEvents(st, BlockEvents(p, at)) ==
      st.(content := st.content + TextOf([p.block]), tools := st.tools + CallsOf([p.block]))
  {
    var start := BlockEvents(p, at)[0];
    var rest := BlockEvents(p, at)[1..];
    assert BlockEvents(p, at) == [start] + rest;
    assert [p.block][1..] == [];
    assert st.content + "" == st.content && st.tools + [] == st.tools;
    match p.block
    case Text(text) =>
      assert rest == TextEvents(p.parts, at);
      TextArrives(st, p.parts, at);
    case ToolUse(id, name, input) =>
      assert rest == JsonEvents(p.parts, at);
      JsonArrives(AddEvent(st, start), st.tools, ToolCall(id, name, ""), p.parts, at);
      assert "" + input == input;
    case OtherBlock =>
      assert rest == [OtherEvent] && rest[1..] == [];
      assert AddEvents(st, rest) == AddEvents(AddEvent(st, OtherEvent), []) == st;
  }

  lemma {:induction false} BlocksArrive(st: State, pieces: seq<Piece>, at: int)
    requires forall p :: p in pieces ==> CutOf(p)
    ensures AddEvents(st, StreamEvents(pieces, at)) ==
      st.(content := st.content + TextOf(Blocks(pieces)), tools := st.tools + CallsOf(Blocks(pieces)))
    decreases |pieces|
  {
    if pieces == [] {
      assert st.content + "" == st.content && st.tools + [] == st.tools;
    } else {
      hide AddEvents, AddEvent, BlockEvents, CutOf, TextOf, CallsOf;
      var p, later := pieces[0], pieces[1..];
      assert p in pieces;
      BlockArrives(st, p, at);
      AddEventsTwice(st, BlockEvents(p, at), StreamEvents(later, at + 1));
      var next := AddEvents(st, BlockEvents(p, at));
      BlocksArrive(next, later, at + 1);
      FirstBlock(p.block, Blocks(later));
      Regroup(st.content, TextOf([p.block]), TextOf(Blocks(later)));
      Regroup(st.tools, CallsOf([p.block]), CallsOf(Blocks(later)));
    }
  }

  lemma FirstBlock(b: Block, later: seq<Block>)
    ensures TextOf([b] + later) == TextOf([b]) + TextOf(later)
    ensures CallsOf([b] + later) == CallsOf([b]) + CallsOf(later)
  {
    assert ([b] + later)[1..] == later && [b][1..] == [];
  }

  /** The events that carry a whole response: a start, the blocks one after the other, an end with an output count. */
  function EventsWith(whole: Reply, pieces: seq<Piece>, output: Option<int>): seq<Event> {
    var input := if whole.usage.Some? then Some(whole.usage.value.0) else None;
    [MessageStart(whole.model, input)] + StreamEvents(pieces, 0) + [MessageDelta(whole.stop, output)]
  }

  /** The output count inside the delta, where the decoder looks for it. */
  function WholeEvents(whole: Reply, pieces: seq<Piece>): seq<Event> {
    EventsWith(whole, pieces, if whole.usage.Some? then Some(whole.usage.value.1) else None)
  }

  /** Whatever the output count: text, calls and stop reason are those of the response. */
  lemma EventsArrive(whole: Reply, pieces: seq<Piece>, output: Option<int>)
    requires Blocks(pieces) == whole.blocks && forall p :: p in pieces ==> CutOf(p)
    ensures AddEvents(EMPTY, EventsWith(whole, pieces, output)) ==
      State(whole.model, TextOf(whole.blocks), whole.stop,
            Some(Usage(if whole.usage.Some? then whole.usage.value.0 else 0,
                       if output.Some? then output.value else 0, 0)),
            CallsOf(whole.blocks))
  {
    var events := EventsWith(whole, pieces, output);
    var start, end := events[0], events[|events| - 1];
    var begun := AddEvent(EMPTY, start);
    assert [start][1..] == [] && [end][1..] == [];
    assert AddEvents(EMPTY, [start]) == begun;
    AddEventsTwice(EMPTY, [start] + StreamEvents(pieces, 0), [end]);
    AddEventsTwice(EMPTY, [start], StreamEvents(pieces, 0));
    BlocksArrive(begun, pieces, 0);
    assert "" + TextOf(whole.blocks) == TextOf(whole.blocks) && [] + CallsOf(whole.blocks) == CallsOf(whole.blocks);
  }

  /** A whole Anthropic stream, its blocks cut anywhere but sent one after the other, gives what the one-shot parse gives. */
  lemma AnthropicMatchesWhole(whole: Reply, pieces: seq<Piece>)
    requires Blocks(pieces) == whole.blocks && forall p :: p in pieces ==> CutOf(p)
    ensures ResultOf(AddEvents(EMPTY, WholeEvents(whole, pieces))) == ParseAnthropic(whole)
  {
    hide AddEvents, TextOf, CallsOf, Blocks, CutOf;
    EventsArrive(whole, pieces, if whole.usage.Some? then Some(whole.usage.value.1) else None);
  }

  /**
   With the output count beside the delta, where the decoder does not look, everything but the counts is as in the
   one-shot parse; the counts are so exactly when the response counts no output.
   */
  lemma OutputBesideDelta(whole: Reply, pieces: seq<Piece>)
    requires Blocks(pieces) == whole.blocks && forall p :: p in pieces ==> CutOf(p)
    ensures var result := ResultOf(AddEvents(EMPTY, EventsWith(whole, pieces, None)));
      && result.(usage := NO_USAGE) == ParseAnthropic(whole).(usage := NO_USAGE)
      && result.usage.prompt == ParseAnthropic(whole).usage.prompt && result.usage.completion == 0
      && (result == ParseAnthropic(whole) <==> (whole.usage.Some? ==> whole.usage.value.1 == 0))
  {
    hide AddEvents, TextOf, CallsOf, Blocks, CutOf;
    EventsArrive(whole, pieces, None);
  }
}
