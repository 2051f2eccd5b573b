/** Decoded completion chunks, the events each one raises, and the tool calls being tracked. */
module ToolCalls {
  import opened Common
  import opened Machines
  import opened StreamEvents
  import opened TextBatching

  datatype TokenUsage = TokenUsage(promptTokens: nat, completionTokens: nat)

  datatype ToolFunction = ToolFunction(name: Option<string>, arguments: Option<string>)

  datatype ToolDelta = ToolDelta(index: nat, id: Option<string>, function_: Option<ToolFunction>)

  datatype Choice = Choice(content: Option<string>, toolCalls: Option<seq<ToolDelta>>, finishReason: Option<string>)

  datatype Chunk = Chunk(choices: seq<Choice>, usage: Option<TokenUsage>)

  /** A tracked tool call; both fields are empty until the stream fills them. */
  datatype Tool = Tool(id: string, name: string)

  function Grown(tools: seq<Tool>, index: nat): (r: seq<Tool>)
    ensures index < |r| && tools <= r
    ensures forall i | |tools| <= i < |r| :: r[i] == Tool("", "")
  {
    if index < |tools| then tools else tools + seq(index + 1 - |tools|, _ => Tool("", ""))
  }

  /** The slot of a delta once its id and name have been recorded. */
  function Slot(tools: seq<Tool>, tc: ToolDelta): Tool {
    var old_ := Grown(tools, tc.index)[tc.index];
    Tool(tc.id.GetOr(old_.id), if tc.function_.Some? then tc.function_.value.name.GetOr(old_.name) else old_.name)
  }

  function StartEvents(tools: seq<Tool>, tc: ToolDelta): seq<Event> {
    match tc.function_
    case Some(ToolFunction(Some(name), _)) => [ToolCallStart(Slot(tools, tc).id, name)]
    case _ => []
  }

  function ArgEvents(tools: seq<Tool>, tc: ToolDelta): seq<Event> {
    match tc.function_
    case Some(ToolFunction(_, Some(args))) => if args == "" then [] else [ToolCallDelta(Slot(tools, tc).id, args)]
    case _ => []
  }

  function ToolStep(tools: seq<Tool>, tc: ToolDelta): Step<seq<Tool>, Event> {
    Step(StartEvents(tools, tc) + ArgEvents(tools, tc), Grown(tools, tc.index)[tc.index := Slot(tools, tc)])
  }

  function EndEvents(tools: seq<Tool>): seq<Event> {
    if tools == [] then []
    else (if tools[0].id == "" then [] else [ToolCallEnd(tools[0].id)]) + EndEvents(tools[1..])
  }

  function UsageEvents(usage: Option<TokenUsage>): seq<Event> {
    match usage
    case None => []
    case Some(u) => [Usage(u.promptTokens, u.completionTokens)]
  }

  function ContentEvents(content: Option<string>): seq<Event> {
    match content
    case None => []
    case Some(text) => FlushOut(text)
  }

  function CallsOf(choice: Choice): seq<ToolDelta> {
    choice.toolCalls.GetOr([])
  }

  function FinishStep(tools: seq<Tool>, reason: Option<string>): Step<seq<Tool>, Event> {
    if reason == Some("tool_calls") then Step(EndEvents(tools), []) else Step([], tools)
  }

  function ChoiceStep(tools: seq<Tool>, choice: Choice): Step<seq<Tool>, Event> {
    var calls := Run(ToolStep, tools, CallsOf(choice));
    Prepend(ContentEvents(choice.content), Prepend(calls.out, FinishStep(calls.state, choice.finishReason)))
  }

  /** The events of one chunk: usage, text, tool-call deltas, and the ends that a tool_calls finish brings. */
  function ChunkStep(tools: seq<Tool>, chunk: Chunk): Step<seq<Tool>, Event> {
    Prepend(UsageEvents(chunk.usage), if chunk.choices == [] then Step([], tools) else ChoiceStep(tools, chunk.choices[0]))
  }

  // ---- Publishing through a batch ----

  /** The bus and batch after the events of `evs` were pushed, the batch holding `held` before. */
  ghost predicate Fed(batch: TextBatch, bus: Bus, credit: nat, log: seq<Event>, held: string, evs: seq<Event>, ok: bool)
    reads batch, bus
  {
    && Room(held) && Room(batch.text)
    && bus.Tried(credit, log, Feed(held, evs).out, ok)
    && batch.text == if ok then Feed(held, evs).state else ""
  }

  /** Once a prefix of the events has been refused, so has the whole list. */
  lemma FedPrefix(held: string, evs: seq<Event>, all: seq<Event>)
    requires evs <= all
    ensures Feed(held, evs).out <= Feed(held, all).out
  {
    assert all == evs + all[|evs|..];
    RunConcat(FeedEvent, held, evs, all[|evs|..]);
  }

  /** One more event after those already pushed; on refusal the rest of `all` counts as refused too. */
  method Emit(e: Event, batch: TextBatch, bus: Bus,
              ghost credit: nat, ghost log: seq<Event>, ghost held: string, ghost sent: seq<Event>, ghost all: seq<Event>)
    returns (ok: bool)
    requires Fed(batch, bus, credit, log, held, sent, true)
    requires sent + [e] <= all
    modifies batch, bus
    ensures Fed(batch, bus, credit, log, held, if ok then sent + [e] else all, ok)
  {
    hide Run, FeedEvent;
    RunConcat(FeedEvent, held, sent, [e]);
    RunOne(FeedEvent, Feed(held, sent).state, e);
    FedPrefix(held, sent + [e], all);
    ok := batch.Push(e, bus);
  }

  /** Raises the events of a chunk and updates the tracked tools. */
  method ProcessChunk(chunk: Chunk, activeTools: seq<Tool>, batch: TextBatch, bus: Bus,
                      ghost credit: nat, ghost log: seq<Event>, ghost held: string, ghost evs: seq<Event>)
    returns (ok: bool, tools: seq<Tool>)
    requires Fed(batch, bus, credit, log, held, evs, true)
    modifies batch, bus
    ensures Fed(batch, bus, credit, log, held, evs + ChunkStep(activeTools, chunk).out, ok)
    ensures ok ==> tools == ChunkStep(activeTools, chunk).state
  {
    hide Fed, ChoiceStep;
    tools := activeTools;
    ghost var all, sent := evs + ChunkStep(activeTools, chunk).out, evs;
    ok := true;
    if chunk.usage.Some? {
      var usage := chunk.usage.value;
      ok := Emit(Usage(usage.promptTokens, usage.completionTokens), batch, bus, credit, log, held, sent, all);
      if !ok { return; }
    }
    sent := Sent(sent, UsageEvents(chunk.usage));
    if chunk.choices == [] {
      assert sent == all;
    } else {
      ok, tools := ProcessChoice(chunk.choices[0], activeTools, batch, bus, credit, log, held, sent);
      assert all == sent + ChoiceStep(activeTools, chunk.choices[0]).out;
    }
  }

  /** Only the first choice of a chunk is looked at. */
  method ProcessChoice(choice: Choice, activeTools: seq<Tool>, batch: TextBatch, bus: Bus,
                       ghost credit: nat, ghost log: seq<Event>, ghost held: string, ghost evs: seq<Event>)
    returns (ok: bool, tools: seq<Tool>)
    requires Fed(batch, bus, credit, log, held, evs, true)
    modifies batch, bus
    ensures Fed(batch, bus, credit, log, held, evs + ChoiceStep(activeTools, choice).out, ok)
    ensures ok ==> tools == ChoiceStep(activeTools, choice).state
  {
    hide Fed, Run, EndEvents, ToolStep;
    tools := activeTools;
    ghost var calls := Run(ToolStep, activeTools, CallsOf(choice));
    ghost var finish := FinishStep(calls.state, choice.finishReason);
    ghost var text := Sent(evs, ContentEvents(choice.content));
    ghost var tracked := Sent(text, calls.out);
    ghost var all := Sent(tracked, finish.out);
    assert evs + ChoiceStep(activeTools, choice).out == all;
    ok := true;
    if choice.content.Some? && choice.content.value != "" {
      ok := Emit(TextDelta(choice.content.value), batch, bus, credit, log, held, evs, all);
      if !ok { return; }
    }
    RunNone(ToolStep, activeTools);
    if choice.toolCalls.Some? {
      ok, tools := TrackCalls(choice.toolCalls.value, tools, batch, bus, credit, log, held, text, all);
      if !ok { return; }
    }
    if choice.finishReason == Some("tool_calls") {
      ok := EndCalls(tools, batch, bus, credit, log, held, tracked, all);
      tools := [];
    }
  }

  /** The list extended, and unchanged when there is nothing to add. */
  ghost function Sent(evs: seq<Event>, more: seq<Event>): (r: seq<Event>)
    ensures r == evs + more && (more == [] ==> r == evs)
  {
    evs + more
  }

  method TrackCalls(calls: seq<ToolDelta>, activeTools: seq<Tool>, batch: TextBatch, bus: Bus,
                    ghost credit: nat, ghost log: seq<Event>, ghost held: string, ghost evs: seq<Event>, ghost all: seq<Event>)
    returns (ok: bool, tools: seq<Tool>)
    requires Fed(batch, bus, credit, log, held, evs, true)
    requires evs + Run(ToolStep, activeTools, calls).out <= all
    modifies batch, bus
    ensures Fed(batch, bus, credit, log, held, if ok then evs + Run(ToolStep, activeTools, calls).out else all, ok)
    ensures ok ==> tools == Run(ToolStep, activeTools, calls).state
  {
    hide Fed, ToolStep;
    tools := activeTools;
    ghost var spec, sent := Prepend(evs, Run(ToolStep, activeTools, calls)), evs;
    ok := true;
    for n := 0 to |calls|
      invariant ok && Fed(batch, bus, credit, log, held, sent, true)
      invariant spec == Prepend(sent, Run(ToolStep, tools, calls[n..]))
    {
      ghost var step := ToolStep(tools, calls[n]);
      assert calls[n..][1..] == calls[n + 1..];
      RunCons(ToolStep, tools, calls[n..]);
      PrependPrepend(sent, step.out, Run(ToolStep, step.state, calls[n + 1..]));
      ok, tools := TrackCall(calls[n], tools, batch, bus, credit, log, held, sent, all);
      if !ok { return; }
      sent := sent + step.out;
    }
    assert spec.out == sent;
  }

  /** Records one delta in its slot and raises its start and argument events. */
  method TrackCall(tc: ToolDelta, activeTools: seq<Tool>, batch: TextBatch, bus: Bus,
                   ghost credit: nat, ghost log: seq<Event>, ghost held: string, ghost evs: seq<Event>, ghost all: seq<Event>)
    returns (ok: bool, tools: seq<Tool>)
    requires Fed(batch, bus, credit, log, held, evs, true)
    requires evs + ToolStep(activeTools, tc).out <= all
    modifies batch, bus
    ensures Fed(batch, bus, credit, log, held, if ok then evs + ToolStep(activeTools, tc).out else all, ok)
    ensures ok ==> tools == ToolStep(activeTools, tc).state
  {
    hide Fed;
    ghost var started := Sent(evs, StartEvents(activeTools, tc));
    assert evs + ToolStep(activeTools, tc).out == Sent(started, ArgEvents(activeTools, tc));
    ok := true;
    tools := GrowTo(activeTools, tc.index);
    if tc.id.Some? {
      tools := tools[tc.index := tools[tc.index].(id := tc.id.value)];
    }
    if tc.function_.Some? {
      var func := tc.function_.value;
      if func.name.Some? {
        tools := tools[tc.index := tools[tc.index].(name := func.name.value)];
        ok := Emit(ToolCallStart(tools[tc.index].id, func.name.value), batch, bus, credit, log, held, evs, all);
        if !ok { return; }
      }
      if func.arguments.Some? && func.arguments.value != "" {
        ok := Emit(ToolCallDelta(tools[tc.index].id, func.arguments.value), batch, bus, credit, log, held, started, all);
        if !ok { return; }
      }
    }
  }

  /** Pushes empty slots until `index` has one. */
  method GrowTo(activeTools: seq<Tool>, index: nat) returns (tools: seq<Tool>)
    ensures tools == Grown(activeTools, index)
  {
    tools := activeTools;
    while |tools| <= index
      invariant activeTools <= tools && (|tools| > |activeTools| ==> |tools| <= index + 1)
      invariant forall i | |activeTools| <= i < |tools| :: tools[i] == Tool("", "")
      decreases index + 1 - |tools|
    {
      tools := tools + [Tool("", "")];
    }
  }

  method EndCalls(tools: seq<Tool>, batch: TextBatch, bus: Bus,
                  ghost credit: nat, ghost log: seq<Event>, ghost held: string, ghost evs: seq<Event>, ghost all: seq<Event>)
    returns (ok: bool)
    requires Fed(batch, bus, credit, log, held, evs, true)
    requires evs + EndEvents(tools) <= all
    modifies batch, bus
    ensures Fed(batch, bus, credit, log, held, if ok then evs + EndEvents(tools) else all, ok)
  {
    hide Fed;
    ghost var sent := evs;
    ok := true;
    for i := 0 to |tools|
      invariant ok && Fed(batch, bus, credit, log, held, sent, true)
      invariant evs + EndEvents(tools) == sent + EndEvents(tools[i..])
    {
      assert tools[i..][1..] == tools[i + 1..];
      if tools[i].id != "" {
        ok := Emit(ToolCallEnd(tools[i].id), batch, bus, credit, log, held, sent, all);
        if !ok { return; }
        sent := sent + [ToolCallEnd(tools[i].id)];
      }
    }
    assert sent + EndEvents([]) == sent;
  }
}
