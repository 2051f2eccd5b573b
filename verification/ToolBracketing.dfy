/** Every tool call of a well-formed turn is started, fed its arguments in order, and ended exactly once. */
module ToolBracketing {
  import opened Common
  import opened Lists
  import opened Machines
  import opened StreamEvents
  import opened ToolCalls

  function CallId(e: Event): Option<string> {
    match e
    case ToolCallStart(id, _) => Some(id)
    case ToolCallDelta(id, _) => Some(id)
    case ToolCallEnd(id) => Some(id)
    case _ => None
  }

  function Keep(id: string): Event -> seq<Event> {
    e => if CallId(e) == Some(id) then [e] else []
  }

  /** The events about one tool call, in order. */
  function Project(evs: seq<Event>, id: string): seq<Event> {
    FlatMap(Keep(id), evs)
  }

  lemma ProjectConcat(a: seq<Event>, b: seq<Event>, id: string)
    ensures Project(a + b, id) == Project(a, id) + Project(b, id)
  {
    FlatMapConcat(Keep(id), a, b);
  }

  lemma {:induction false} ProjectNone(evs: seq<Event>, id: string)
    requires forall e | e in evs :: CallId(e) != Some(id)
    ensures Project(evs, id) == []
  {
    if evs != [] { ProjectNone(evs[1..], id); }
  }

  /** The calls known once delta `d` has arrived: index to id and name. */
  function AddCall(calls: map<nat, Tool>, d: ToolDelta): map<nat, Tool> {
    if d.index in calls then calls else calls[d.index := Slot([], d)]
  }

  function Introduced(ds: seq<ToolDelta>): map<nat, Tool> {
    if ds == [] then map[] else AddCall(Introduced(ds[..|ds| - 1]), ds[|ds| - 1])
  }

  /** An index opens with a fresh non-empty id and a name; its later deltas carry neither. */
  predicate Fits(calls: map<nat, Tool>, d: ToolDelta) {
    if d.index in calls then d.id == None && (d.function_.Some? ==> d.function_.value.name == None)
    else
      && d.id.Some? && d.id.value != ""
      && d.function_.Some? && d.function_.value.name.Some?
      && forall k | k in calls :: calls[k].id != d.id.value
  }

  predicate WellFormed(ds: seq<ToolDelta>) {
    ds == [] || (WellFormed(ds[..|ds| - 1]) && Fits(Introduced(ds[..|ds| - 1]), ds[|ds| - 1]))
  }

  function ArgDelta(d: ToolDelta, k: nat, id: string): seq<Event> {
    match d.function_
    case Some(ToolFunction(_, Some(args))) => if d.index == k && args != "" then [ToolCallDelta(id, args)] else []
    case _ => []
  }

  /** The argument events of index k, in arrival order, under the given id. */
  function ArgDeltas(ds: seq<ToolDelta>, k: nat, id: string): seq<Event> {
    if ds == [] then [] else ArgDeltas(ds[..|ds| - 1], k, id) + ArgDelta(ds[|ds| - 1], k, id)
  }

  /** Start, then all arguments. */
  function Opened(ds: seq<ToolDelta>, k: nat, call: Tool): seq<Event> {
    [ToolCallStart(call.id, call.name)] + ArgDeltas(ds, k, call.id)
  }

  /** The tracked vector holds exactly the introduced calls; gaps have empty ids. */
  predicate Tracks(tools: seq<Tool>, calls: map<nat, Tool>) {
    && (forall k | k in calls :: k < |tools| && tools[k] == calls[k] && calls[k].id != "")
    && (forall k | 0 <= k < |tools| && k !in calls :: tools[k] == Tool("", ""))
    && (forall j, k | j in calls && k in calls && j != k :: calls[j].id != calls[k].id)
  }

  ghost predicate AboutOneOf(calls: map<nat, Tool>, e: Event) {
    exists k | k in calls :: CallId(e) == Some(calls[k].id)
  }

  /** `out` holds the events of exactly the introduced calls, each opened and fed in order. */
  ghost predicate Reports(out: seq<Event>, ds: seq<ToolDelta>) {
    && (forall k | k in Introduced(ds) :: Project(out, Introduced(ds)[k].id) == Opened(ds, k, Introduced(ds)[k]))
    && (forall e | e in out :: AboutOneOf(Introduced(ds), e))
  }

  lemma {:induction false} TrackedSoFar(ds: seq<ToolDelta>)
    requires WellFormed(ds)
    ensures Tracks(Run(ToolStep, [], ds).state, Introduced(ds))
    ensures Reports(Run(ToolStep, [], ds).out, ds)
    decreases |ds|
  {
    if ds != [] {
      hide ToolStep, Run, Reports, Tracks;
      var init, d := ds[..|ds| - 1], ds[|ds| - 1];
      assert ds == init + [d];
      TrackedSoFar(init);
      var r := Run(ToolStep, [], init);
      RunConcat(ToolStep, [], init, [d]);
      RunOne(ToolStep, r.state, d);
      DeltaTracked(r.state, Introduced(init), d);
      DeltaReported(r.out, r.state, ds);
    } else {
      RunNone(ToolStep, []);
    }
  }

  lemma DeltaReported(out: seq<Event>, tools: seq<Tool>, ds: seq<ToolDelta>)
    requires ds != [] && WellFormed(ds)
    requires Tracks(tools, Introduced(ds[..|ds| - 1]))
    requires Reports(out, ds[..|ds| - 1])
    ensures Reports(out + ToolStep(tools, ds[|ds| - 1]).out, ds)
  {
    hide Project, ToolStep, Introduced, ArgDeltas, Tracks, WellFormed, ArgDelta;
    var init, d := ds[..|ds| - 1], ds[|ds| - 1];
    var before, after, step := Introduced(init), Introduced(ds), ToolStep(tools, d);
    Snoc(ds);
    DeltaEvents(tools, before, d);
    forall k | k in after
      ensures Project(out + step.out, after[k].id) == Opened(ds, k, after[k])
    {
      CallReported(out, tools, ds, k);
    }
    forall e | e in out + step.out
      ensures AboutOneOf(after, e)
    {
      if e in out { StillKnown(before, d, e); } else { assert d.index in after; }
    }
  }

  lemma CallReported(out: seq<Event>, tools: seq<Tool>, ds: seq<ToolDelta>, k: nat)
    requires ds != [] && WellFormed(ds)
    requires Tracks(tools, Introduced(ds[..|ds| - 1]))
    requires Reports(out, ds[..|ds| - 1])
    requires k in Introduced(ds)
    ensures Project(out + ToolStep(tools, ds[|ds| - 1]).out, Introduced(ds)[k].id) == Opened(ds, k, Introduced(ds)[k])
  {
    hide Project, ToolStep, Introduced, ArgDeltas, Tracks, WellFormed, ArgDelta, Reports;
    var before, d := Introduced(ds[..|ds| - 1]), ds[|ds| - 1];
    Snoc(ds);
    DeltaEvents(tools, before, d);
    hide ToolStep;
    ArgSnoc(ds, k, Introduced(ds)[k].id);
    if k in before {
      GrownReport(out, ToolStep(tools, d).out, ds, k);
    } else {
      FirstReport(out, ToolStep(tools, d).out, ds);
    }
  }

  /** A call already open grows by its argument event. */
  lemma GrownReport(out: seq<Event>, more: seq<Event>, ds: seq<ToolDelta>, k: nat)
    requires ds != [] && Reports(out, ds[..|ds| - 1]) && k in Introduced(ds[..|ds| - 1])
    requires var call := Introduced(ds[..|ds| - 1])[k]; Project(more, call.id) == ArgDelta(ds[|ds| - 1], k, call.id)
    ensures var call := Introduced(ds[..|ds| - 1])[k]; Project(out + more, call.id) == Opened(ds, k, call)
  {
    hide Project, Introduced, ArgDeltas, ArgDelta;
    var init := ds[..|ds| - 1];
    var call := Introduced(init)[k];
    ProjectConcat(out, more, call.id);
    ArgSnoc(ds, k, call.id);
    assert Project(out, call.id) == Opened(init, k, call);
  }

  /** A call just introduced has nothing but its start and its first argument event. */
  lemma FirstReport(out: seq<Event>, more: seq<Event>, ds: seq<ToolDelta>)
    requires ds != [] && WellFormed(ds) && Reports(out, ds[..|ds| - 1])
    requires var d := ds[|ds| - 1];
             && d.index !in Introduced(ds[..|ds| - 1])
             && Fits(Introduced(ds[..|ds| - 1]), d)
             && Project(more, d.id.value) == [ToolCallStart(d.id.value, d.function_.value.name.value)] + ArgDelta(d, d.index, d.id.value)
    ensures var d := ds[|ds| - 1];
            Project(out + more, d.id.value) == Opened(ds, d.index, Tool(d.id.value, d.function_.value.name.value))
  {
    hide Project, Introduced, ArgDeltas, ArgDelta, WellFormed;
    var init, d := ds[..|ds| - 1], ds[|ds| - 1];
    ProjectConcat(out, more, d.id.value);
    ArgSnoc(ds, d.index, d.id.value);
    NotYetReported(out, Introduced(init), d.id.value);
    ArgsNone(init, d.index, d.id.value);
  }

  lemma NotYetReported(out: seq<Event>, calls: map<nat, Tool>, id: string)
    requires forall e | e in out :: AboutOneOf(calls, e)
    requires forall k | k in calls :: calls[k].id != id
    ensures Project(out, id) == []
  {
    forall e | e in out ensures CallId(e) != Some(id) { assert AboutOneOf(calls, e); }
    ProjectNone(out, id);
  }

  lemma StillKnown(calls: map<nat, Tool>, d: ToolDelta, e: Event)
    requires AboutOneOf(calls, e)
    ensures AboutOneOf(AddCall(calls, d), e)
  {
    var k :| k in calls && CallId(e) == Some(calls[k].id);
    assert AddCall(calls, d)[k] == calls[k];
  }

  lemma Snoc(ds: seq<ToolDelta>)
    requires ds != [] && WellFormed(ds)
    ensures Fits(Introduced(ds[..|ds| - 1]), ds[|ds| - 1])
    ensures Introduced(ds) == AddCall(Introduced(ds[..|ds| - 1]), ds[|ds| - 1])
  {
  }

  lemma ArgSnoc(ds: seq<ToolDelta>, k: nat, id: string)
    requires ds != []
    ensures ArgDeltas(ds, k, id) == ArgDeltas(ds[..|ds| - 1], k, id) + ArgDelta(ds[|ds| - 1], k, id)
  {
  }

  lemma {:induction false} ArgsNone(ds: seq<ToolDelta>, k: nat, id: string)
    requires k !in Introduced(ds)
    ensures ArgDeltas(ds, k, id) == []
    decreases |ds|
  {
    if ds != [] { ArgsNone(ds[..|ds| - 1], k, id); }
  }

  lemma DeltaTracked(tools: seq<Tool>, before: map<nat, Tool>, d: ToolDelta)
    requires Tracks(tools, before) && Fits(before, d)
    ensures Tracks(ToolStep(tools, d).state, AddCall(before, d))
  {
    assert Slot(tools, d) == AddCall(before, d)[d.index];
  }

  /** The events one delta adds, call by call. */
  lemma DeltaEvents(tools: seq<Tool>, before: map<nat, Tool>, d: ToolDelta)
    requires Tracks(tools, before) && Fits(before, d)
    ensures var after, out := AddCall(before, d), ToolStep(tools, d).out;
            && (forall e | e in out :: CallId(e) == Some(after[d.index].id))
            && (forall k | k in before :: Project(out, before[k].id) == ArgDelta(d, k, before[k].id))
            && (d.index in before ||
                Project(out, d.id.value) == [ToolCallStart(d.id.value, d.function_.value.name.value)] + ArgDelta(d, d.index, d.id.value))
  {
    var after, out := AddCall(before, d), ToolStep(tools, d).out;
    assert Slot(tools, d) == after[d.index];
    var id := after[d.index].id;
    assert ArgEvents(tools, d) == ArgDelta(d, d.index, id);
    ProjectAll(out, id);
    forall k | k in before
      ensures Project(out, before[k].id) == ArgDelta(d, k, before[k].id)
    {
      if k != d.index { ProjectNone(out, before[k].id); }
    }
  }

  lemma {:induction false} ProjectAll(evs: seq<Event>, id: string)
    requires forall e | e in evs :: CallId(e) == Some(id)
    ensures Project(evs, id) == evs
  {
    if evs != [] {
      ProjectAll(evs[1..], id);
      assert evs == [evs[0]] + evs[1..];
    }
  }

  /** The final sweep ends each tracked call once, and ends nothing else. */
  lemma {:induction false} EndsOnce(tools: seq<Tool>, id: string)
    requires id != ""
    requires forall j, k | 0 <= j < k < |tools| && tools[j].id == id :: tools[k].id != id
    ensures Project(EndEvents(tools), id) == if exists k | 0 <= k < |tools| :: tools[k].id == id then [ToolCallEnd(id)] else []
    ensures forall e | e in EndEvents(tools) :: e.ToolCallEnd?
  {
    if tools != [] {
      var tail := tools[1..];
      EndsOnce(tail, id);
      assert forall k | 0 <= k < |tail| :: tail[k] == tools[k + 1];
      assert (exists k | 0 <= k < |tools| :: tools[k].id == id) <==> tools[0].id == id || exists k | 0 <= k < |tail| :: tail[k].id == id;
      var head := if tools[0].id == "" then [] else [ToolCallEnd(tools[0].id)];
      ProjectConcat(head, EndEvents(tail), id);
      if tools[0].id == id { ProjectAll(head, id); } else { ProjectNone(head, id); }
    }
  }

  // ---- Any deltas, well formed or not ----

  /** The id in force at index `i`: the last one given to it, or the one it had. */
  function IdAt(tools: seq<Tool>, ds: seq<ToolDelta>, i: nat): string {
    if ds == [] then (if i < |tools| then tools[i].id else "")
    else
      var d := ds[|ds| - 1];
      if d.index == i && d.id.Some? then d.id.value else IdAt(tools, ds[..|ds| - 1], i)
  }

  /** A name raises a start, a non-empty piece of arguments a delta, both under the id given. */
  function Raised(d: ToolDelta, id: string): seq<Event> {
    match d.function_
    case None => []
    case Some(ToolFunction(name, arguments)) =>
      (if name.Some? then [ToolCallStart(id, name.value)] else []) +
      (if arguments.Some? && arguments.value != "" then [ToolCallDelta(id, arguments.value)] else [])
  }

  /** Each delta raises its events under the id in force once it has been recorded. */
  function RaisedBy(tools: seq<Tool>, ds: seq<ToolDelta>): seq<Event> {
    if ds == [] then []
    else RaisedBy(tools, ds[..|ds| - 1]) + Raised(ds[|ds| - 1], IdAt(tools, ds, ds[|ds| - 1].index))
  }

  /** The vector carries the ids in force. */
  ghost predicate InForce(after: seq<Tool>, tools: seq<Tool>, ds: seq<ToolDelta>) {
    && (forall i: nat | i < |after| :: after[i].id == IdAt(tools, ds, i))
    && (forall i: nat | i >= |after| :: IdAt(tools, ds, i) == "")
  }

  lemma StepInForce(after: seq<Tool>, tools: seq<Tool>, ds: seq<ToolDelta>)
    requires ds != [] && InForce(after, tools, ds[..|ds| - 1])
    ensures InForce(ToolStep(after, ds[|ds| - 1]).state, tools, ds)
    ensures ToolStep(after, ds[|ds| - 1]).out == Raised(ds[|ds| - 1], IdAt(tools, ds, ds[|ds| - 1].index))
  {
    var d := ds[|ds| - 1];
    var next := ToolStep(after, d).state;
    assert Slot(after, d).id == IdAt(tools, ds, d.index);
    forall i: nat | i != d.index
      ensures IdAt(tools, ds, i) == if i < |next| then next[i].id else ""
    {
      assert IdAt(tools, ds, i) == IdAt(tools, ds[..|ds| - 1], i);
    }
  }

  /** Whatever the deltas, they raise their events in arrival order under the ids in force, which the vector keeps. */
  lemma {:induction false} AnyDeltas(tools: seq<Tool>, ds: seq<ToolDelta>)
    ensures Run(ToolStep, tools, ds).out == RaisedBy(tools, ds)
    ensures InForce(Run(ToolStep, tools, ds).state, tools, ds)
    decreases |ds|
  {
    if ds == [] {
      RunNone(ToolStep, tools);
    } else {
      var init, d := ds[..|ds| - 1], ds[|ds| - 1];
      assert ds == init + [d];
      AnyDeltas(tools, init);
      RunConcat(ToolStep, tools, init, [d]);
      RunOne(ToolStep, Run(ToolStep, tools, init).state, d);
      StepInForce(Run(ToolStep, tools, init).state, tools, ds);
      hide Run, ToolStep, InForce;
    }
  }

  /** The sweep goes through the slots in index order and ends each that has an id. */
  lemma {:induction false} EndsInOrder(a: seq<Tool>, t: Tool, b: seq<Tool>)
    ensures EndEvents(a + [t] + b) == EndEvents(a) + (if t.id == "" then [] else [ToolCallEnd(t.id)]) + EndEvents(b)
    decreases |a|
  {
    var all := a + [t] + b;
    var here := if t.id == "" then [] else [ToolCallEnd(t.id)];
    if a == [] {
      assert all[0] == t && all[1..] == b;
    } else {
      assert all[0] == a[0] && all[1..] == a[1..] + [t] + b;
      EndsInOrder(a[1..], t, b);
      var first := if a[0].id == "" then [] else [ToolCallEnd(a[0].id)];
      assert first + (EndEvents(a[1..]) + here + EndEvents(b)) == first + EndEvents(a[1..]) + here + EndEvents(b);
    }
  }

  // ---- Whole turns ----

  function ChunkCalls(c: Chunk): seq<ToolDelta> {
    if c.choices != [] && c.choices[0].toolCalls.Some? then c.choices[0].toolCalls.value else []
  }

  predicate Finishes(c: Chunk) {
    c.choices != [] && c.choices[0].finishReason == Some("tool_calls")
  }

  function TurnCalls(chunks: seq<Chunk>): seq<ToolDelta> {
    FlatMap(ChunkCalls, chunks)
  }

  /** Apart from the final sweep, a chunk's call events are those of its deltas. */
  lemma ChunkProjects(tools: seq<Tool>, c: Chunk, id: string)
    ensures var calls := Run(ToolStep, tools, ChunkCalls(c));
            var step := ChunkStep(tools, c);
            if Finishes(c)
            then step.state == [] && Project(step.out, id) == Project(calls.out, id) + Project(EndEvents(calls.state), id)
            else step.state == calls.state && Project(step.out, id) == Project(calls.out, id)
  {
    hide Run, EndEvents, ToolStep;
    RunNone(ToolStep, tools);
    var usage := UsageEvents(c.usage);
    ProjectNone(usage, id);
    if c.choices == [] {
      assert ChunkStep(tools, c).out == usage;
    } else {
      var choice := c.choices[0];
      var text, calls := ContentEvents(choice.content), Run(ToolStep, tools, CallsOf(choice));
      var finish := FinishStep(calls.state, choice.finishReason).out;
      ProjectNone(text, id);
      assert ChunkStep(tools, c).out == usage + (text + (calls.out + finish));
      ProjectConcat(usage, text + (calls.out + finish), id);
      ProjectConcat(text, calls.out + finish, id);
      ProjectConcat(calls.out, finish, id);
    }
  }

  lemma {:induction false} ChunksTrack(tools: seq<Tool>, chunks: seq<Chunk>)
    requires forall c | c in chunks :: !Finishes(c)
    ensures Run(ChunkStep, tools, chunks).state == Run(ToolStep, tools, TurnCalls(chunks)).state
    decreases |chunks|
  {
    if chunks != [] {
      hide ChunkStep, ToolStep, ChunkCalls;
      ChunkProjects(tools, chunks[0], "");
      ChunksTrack(ChunkStep(tools, chunks[0]).state, chunks[1..]);
      RunConcat(ToolStep, tools, ChunkCalls(chunks[0]), TurnCalls(chunks[1..]));
    }
  }

  lemma {:induction false} ChunksProject(tools: seq<Tool>, chunks: seq<Chunk>, id: string)
    requires forall c | c in chunks :: !Finishes(c)
    ensures Project(Run(ChunkStep, tools, chunks).out, id) == Project(Run(ToolStep, tools, TurnCalls(chunks)).out, id)
    decreases |chunks|
  {
    if chunks == [] {
      RunNone(ChunkStep, tools);
      RunNone(ToolStep, tools);
    } else {
      var first, tail := chunks[0], chunks[1..];
      assert TurnCalls(chunks) == ChunkCalls(first) + TurnCalls(tail);
      hide ChunkStep, ToolStep, Project, ChunkCalls, Run, TurnCalls;
      var step, calls := ChunkStep(tools, first), Run(ToolStep, tools, ChunkCalls(first));
      RunCons(ChunkStep, tools, chunks);
      ChunkProjects(tools, first, id);
      ChunksProject(step.state, tail, id);
      RunConcat(ToolStep, tools, ChunkCalls(first), TurnCalls(tail));
      ProjectConcat(step.out, Run(ChunkStep, step.state, tail).out, id);
      ProjectConcat(calls.out, Run(ToolStep, calls.state, TurnCalls(tail)).out, id);
    }
  }

  /** The events of a turn, call by call: those of its deltas, then those of the final sweep. What comes after the
      finish without tool calls, such as the usage, adds none. */
  lemma TurnProjects(chunks: seq<Chunk>, last: Chunk, rest: seq<Chunk>, id: string)
    requires (forall c | c in chunks :: !Finishes(c)) && Finishes(last) && forall c | c in rest :: ChunkCalls(c) == []
    ensures var r, calls := Run(ChunkStep, [], chunks + [last] + rest), Run(ToolStep, [], TurnCalls(chunks + [last]));
            r.state == [] && Project(r.out, id) == Project(calls.out, id) + Project(EndEvents(calls.state), id)
  {
    hide ChunkStep, ToolStep, Project, ChunkCalls, Run, EndEvents;
    var body := Run(ChunkStep, [], chunks);
    FlatMapConcat(ChunkCalls, chunks, [last]);
    FlatMapOne(ChunkCalls, last);
    RunConcat(ChunkStep, [], chunks + [last], rest);
    RunConcat(ChunkStep, [], chunks, [last]);
    RunOne(ChunkStep, body.state, last);
    RunConcat(ToolStep, [], TurnCalls(chunks), ChunkCalls(last));
    ChunksTrack([], chunks);
    ChunksProject([], chunks, id);
    ChunkProjects(body.state, last, id);
    NothingMore(rest, id);
    hide TurnCalls;
    var tail, swept := Run(ToolStep, body.state, ChunkCalls(last)), ChunkStep(body.state, last);
    ProjectConcat(body.out, swept.out, id);
    ProjectConcat(body.out + swept.out, Run(ChunkStep, [], rest).out, id);
    ProjectConcat(Run(ToolStep, [], TurnCalls(chunks)).out, tail.out, id);
  }

  lemma {:induction false} NothingMore(rest: seq<Chunk>, id: string)
    requires forall c | c in rest :: ChunkCalls(c) == []
    ensures Run(ChunkStep, [], rest).state == [] && Project(Run(ChunkStep, [], rest).out, id) == []
    decreases |rest|
  {
    if rest != [] {
      RunCons(ChunkStep, [], rest);
      RunNone(ToolStep, []);
      ChunkProjects([], rest[0], id);
      assert EndEvents([]) == [] && Project([], id) == [];
      hide ChunkStep, ToolStep, Project, ChunkCalls, Run, EndEvents;
      NothingMore(rest[1..], id);
      ProjectConcat(ChunkStep([], rest[0]).out, Run(ChunkStep, [], rest[1..]).out, id);
    } else {
      RunNone(ChunkStep, []);
    }
  }

  lemma {:induction false} EndsAreNamed(tools: seq<Tool>)
    ensures Project(EndEvents(tools), "") == []
  {
    if tools != [] {
      var head := if tools[0].id == "" then [] else [ToolCallEnd(tools[0].id)];
      ProjectConcat(head, EndEvents(tools[1..]), "");
      ProjectNone(head, "");
      EndsAreNamed(tools[1..]);
    }
  }

  /** Each id of an introduced call is introduced once, and no other id is tracked. */
  lemma SweptOnce(tools: seq<Tool>, calls: map<nat, Tool>, id: string)
    requires Tracks(tools, calls)
    ensures Project(EndEvents(tools), id) == if exists k | k in calls :: calls[k].id == id then [ToolCallEnd(id)] else []
  {
    hide Project, EndEvents;
    if id == "" {
      EndsAreNamed(tools);
    } else {
      assert forall j, k | 0 <= j < k < |tools| && tools[j].id == id :: tools[k].id != id;
      EndsOnce(tools, id);
      assert (exists k | 0 <= k < |tools| :: tools[k].id == id) <==> exists k | k in calls :: calls[k].id == id;
    }
  }

  /** A well-formed turn closed by tool_calls: the events of each call are its start, its arguments in
      arrival order, and one end; no other call id occurs; and nothing is tracked afterwards. */
  lemma TurnIsBracketed(chunks: seq<Chunk>, last: Chunk, rest: seq<Chunk>)
    requires (forall c | c in chunks :: !Finishes(c)) && Finishes(last) && forall c | c in rest :: ChunkCalls(c) == []
    requires WellFormed(TurnCalls(chunks + [last]))
    ensures var r, ds := Run(ChunkStep, [], chunks + [last] + rest), TurnCalls(chunks + [last]);
            && r.state == []
            && (forall k | k in Introduced(ds) ::
                  Project(r.out, Introduced(ds)[k].id) == Opened(ds, k, Introduced(ds)[k]) + [ToolCallEnd(Introduced(ds)[k].id)])
            && (forall id | id !in IntroducedIds(ds) :: Project(r.out, id) == [])
  {
    hide ChunkStep, ToolStep, Project, ChunkCalls, Run, WellFormed, Introduced, TurnCalls, EndEvents, Opened;
    var ds := TurnCalls(chunks + [last]);
    var r, calls := Run(ChunkStep, [], chunks + [last] + rest), Run(ToolStep, [], ds);
    TrackedSoFar(ds);
    TurnProjects(chunks, last, rest, "");
    forall k | k in Introduced(ds)
      ensures Project(r.out, Introduced(ds)[k].id) == Opened(ds, k, Introduced(ds)[k]) + [ToolCallEnd(Introduced(ds)[k].id)]
    {
      TurnProjects(chunks, last, rest, Introduced(ds)[k].id);
      SweptOnce(calls.state, Introduced(ds), Introduced(ds)[k].id);
    }
    forall id | id !in IntroducedIds(ds) ensures Project(r.out, id) == [] {
      TurnProjects(chunks, last, rest, id);
      SweptOnce(calls.state, Introduced(ds), id);
      NotYetReported(calls.out, Introduced(ds), id);
    }
  }

  function IntroducedIds(ds: seq<ToolDelta>): set<string> {
    set k | k in Introduced(ds) :: Introduced(ds)[k].id
  }
}
