/** What the relay publishes is what the data lines say: text, usage and tool calls, each in the order it came. */
module RelayContents {
  import opened Common
  import opened Lists
  import opened Machines
  import opened SseLines
  import opened SseStream
  import opened SseTheorems
  import opened StreamEvents
  import opened TextLines
  import opened ToolBracketing
  import opened ToolCalls
  import opened Whitespace

  // ---- The chunks a stream takes in ----

  /** The line carries a text that the decoder accepts. */
  ghost predicate Accepted(decode: Decoder, line: string, mid: string) {
    IsBare(mid) && mid != "[DONE]" && Carries(line, mid) && decode(mid).Ok?
  }

  ghost function LineChunk(decode: Decoder, line: string): seq<Chunk> {
    if mid :| Accepted(decode, line, mid) then [decode(mid).value] else []
  }

  /** What the decoder made of each line up to the first that ends the stream. */
  ghost function ChunksOf(decode: Decoder, lines: seq<string>): seq<Chunk> {
    if lines == [] || Stops(decode, lines[0]) then [] else LineChunk(decode, lines[0]) + ChunksOf(decode, lines[1..])
  }

  function DataOf(kinds: seq<LineKind>): seq<Chunk> {
    if kinds == [] || Stopping(kinds[0]) then []
    else (if kinds[0].Data? then [kinds[0].chunk] else []) + DataOf(kinds[1..])
  }

  lemma LineChunkIs(decode: Decoder, line: string)
    requires !Stops(decode, line)
    ensures LineChunk(decode, line) ==
            if Classify(decode, line).Data? then [Classify(decode, line).chunk] else []
  {
    ClassifyExactly(decode, line);
    StoppingIff(decode, line);
    hide Classify, Carries, IsBare, Stops;
    if Classify(decode, line).Data? {
      var mid :| IsBare(mid) && mid != "[DONE]" && Carries(line, mid);
      assert Accepted(decode, line, mid);
    }
  }

  lemma {:induction false} ChunksAreData(decode: Decoder, lines: seq<string>)
    ensures DataOf(Kinds(decode, lines)) == ChunksOf(decode, lines)
  {
    if lines != [] {
      StoppingIff(decode, lines[0]);
      if !Stops(decode, lines[0]) { LineChunkIs(decode, lines[0]); }
      hide Classify, Stops, LineChunk;
      ChunksAreData(decode, lines[1..]);
      assert Kinds(decode, lines)[1..] == Kinds(decode, lines[1..]);
    }
  }

  // ---- Selecting from what is published, wherever text was cut ----

  function Selected<U>(f: Atom -> seq<U>, evs: seq<Event>): seq<U> {
    FlatMap(f, Atoms(evs))
  }

  lemma SelectedConcat<U>(f: Atom -> seq<U>, a: seq<Event>, b: seq<Event>)
    ensures Selected(f, a + b) == Selected(f, a) + Selected(f, b)
  {
    AtomsConcat(a, b);
    FlatMapConcat(f, Atoms(a), Atoms(b));
  }

  lemma {:induction false} SelectedNone<U>(f: Atom -> seq<U>, evs: seq<Event>)
    requires forall e | e in evs :: !e.TextDelta? && f(Other(e)) == []
    ensures Selected(f, evs) == []
  {
    if evs != [] {
      SelectedNone(f, evs[1..]);
      FlatMapConcat(f, [Other(evs[0])], Atoms(evs[1..]));
      FlatMapOne(f, Other(evs[0]));
    }
  }

  /** Lines that are no data add nothing to a selection that leaves out Done. */
  lemma {:induction false} LinesSelect<U>(f: Atom -> seq<U>, tools: seq<Tool>, kinds: seq<LineKind>)
    requires f(Other(Done)) == []
    ensures Selected(f, Run(LineStep, Live(tools), kinds).out) == Selected(f, Run(ChunkStep, tools, DataOf(kinds)).out)
    decreases |kinds|
  {
    hide ChunkStep, Selected, Run;
    RunNone(LineStep, Live(tools));
    RunNone(ChunkStep, tools);
    if kinds != [] {
      RunCons(LineStep, Live(tools), kinds);
      var tail, step := kinds[1..], LineStep(Live(tools), kinds[0]);
      match kinds[0]
      case Ignored =>
        LinesSelect(f, tools, tail);
        assert [] + Run(LineStep, Live(tools), tail).out == Run(LineStep, Live(tools), tail).out;
        assert [] + DataOf(tail) == DataOf(tail);
      case Data(chunk) =>
        LinesSelect(f, step.state.tools, tail);
        RunCons(ChunkStep, tools, [chunk] + DataOf(tail));
        assert ([chunk] + DataOf(tail))[1..] == DataOf(tail);
        SelectedConcat(f, step.out, Run(LineStep, step.state, tail).out);
        SelectedConcat(f, step.out, Run(ChunkStep, step.state.tools, DataOf(tail)).out);
      case _ =>
        StoppedRun(step.state, tail);
        assert step.out + [] == step.out;
        SelectedNone(f, step.out);
        SelectedNone(f, []);
    }
  }

  /** Whatever the reads, the relay publishes what the chunks taken in raise. */
  lemma RelaySelects<U>(f: Atom -> seq<U>, decode: Decoder, incoming: seq<Read>)
    requires f(Other(Done)) == []
    requires AllText(incoming) && Relay(decode, [], "", incoming).state != Failed(LineBufferOverflow)
    ensures Selected(f, Relay(decode, [], "", incoming).out) ==
            Selected(f, Run(ChunkStep, [], ChunksOf(decode, CompleteLines(Joined(incoming)))).out)
  {
    var lines := CompleteLines(Joined(incoming));
    var out, spec := Relay(decode, [], "", incoming).out, Spec(decode, Joined(incoming)).out;
    assert spec == Run(LineStep, Live([]), Kinds(decode, lines)).out;
    RelayRefinesSpec(decode, incoming);
    SameMergedIffSameAtoms(out, spec);
    ChunksAreData(decode, lines);
    hide Relay, Spec, Run, Kinds, CompleteLines, Joined, DataOf, Merged, Atoms, ChunksOf;
    LinesSelect(f, [], Kinds(decode, lines));
  }

  // ---- The events of one chunk ----

  /** The usage a chunk reports: prompt tokens came in, completion tokens went out. */
  function UsageOf(c: Chunk): seq<Event> {
    match c.usage
    case Some(TokenUsage(prompt, completion)) => [Usage(prompt, completion)]
    case None => []
  }

  /** The text of a chunk is the content of its first choice. */
  function TextOf(c: Chunk): string {
    if c.choices != [] && c.choices[0].content.Some? then c.choices[0].content.value else ""
  }

  predicate IsCall(e: Event) {
    e.ToolCallStart? || e.ToolCallDelta?
  }

  lemma {:induction false} OnlyCalls(tools: seq<Tool>, calls: seq<ToolDelta>)
    ensures forall e | e in Run(ToolStep, tools, calls).out :: IsCall(e)
    decreases |calls|
  {
    if calls != [] { OnlyCalls(ToolStep(tools, calls[0]).state, calls[1..]); }
  }

  lemma {:induction false} OnlyEnds(tools: seq<Tool>)
    ensures forall e | e in EndEvents(tools) :: e.ToolCallEnd?
  {
    if tools != [] { OnlyEnds(tools[1..]); }
  }

  /** Usage, then text, then calls under the ids in force, then ends, which come with a tool_calls finish only. */
  lemma ChunkInOrder(tools: seq<Tool>, c: Chunk) returns (calls: seq<Event>, ends: seq<Event>)
    ensures ChunkStep(tools, c).out == UsageOf(c) + (if TextOf(c) == "" then [] else [TextDelta(TextOf(c))]) + calls + ends
    ensures (forall e | e in calls :: IsCall(e)) && forall e | e in ends :: e.ToolCallEnd?
    ensures calls == RaisedBy(tools, ChunkCalls(c))
    ensures ends != [] ==> c.choices[0].finishReason == Some("tool_calls")
  {
    hide Run, ToolStep, EndEvents, RaisedBy;
    OnlyCalls(tools, ChunkCalls(c));
    AnyDeltas(tools, ChunkCalls(c));
    RunNone(ToolStep, tools);
    var tracked := Run(ToolStep, tools, ChunkCalls(c));
    OnlyEnds(tracked.state);
    calls, ends := tracked.out, [];
    if c.choices != [] {
      ends := FinishStep(tracked.state, c.choices[0].finishReason).out;
      assert c.choices[0].toolCalls.GetOr([]) == ChunkCalls(c);
      Regrouped(UsageEvents(c.usage), ContentEvents(c.choices[0].content), calls, ends);
    } else {
      Regrouped(UsageEvents(c.usage), [], [], []);
    }
  }

  lemma Regrouped<T>(a: seq<T>, b: seq<T>, c: seq<T>, d: seq<T>)
    ensures a + (b + (c + d)) == a + b + c + d && (b + c + d == [] ==> a + b + c + d == a)
  {
  }

  // ---- Whole streams ----

  /** Usage and text, as they follow each other. */
  function Said(a: Atom): seq<Atom> {
    if a.Ch? || a.e.Usage? then [a] else []
  }

  function ChunkSays(c: Chunk): seq<Atom> {
    Atoms(UsageOf(c)) + TextAtoms(TextOf(c))
  }

  lemma {:induction false} AllSaid(atoms: seq<Atom>)
    requires forall a | a in atoms :: Said(a) == [a]
    ensures FlatMap(Said, atoms) == atoms
  {
    if atoms != [] {
      AllSaid(atoms[1..]);
      assert atoms == [atoms[0]] + atoms[1..];
    }
  }

  lemma ChunkSaid(tools: seq<Tool>, c: Chunk)
    ensures Selected(Said, ChunkStep(tools, c).out) == ChunkSays(c)
  {
    var calls, ends := ChunkInOrder(tools, c);
    hide ChunkStep, Run;
    var text := if TextOf(c) == "" then [] else [TextDelta(TextOf(c))];
    ChunkAtoms(c, text);
    AllSaid(ChunkSays(c));
    SelectedNone(Said, calls);
    SelectedNone(Said, ends);
    hide Said, ChunkSays, UsageOf, TextOf, Atoms;
    SelectedConcat(Said, UsageOf(c) + text, calls);
    SelectedConcat(Said, UsageOf(c) + text + calls, ends);
  }

  lemma ChunkAtoms(c: Chunk, text: seq<Event>)
    requires text == if TextOf(c) == "" then [] else [TextDelta(TextOf(c))]
    ensures Atoms(UsageOf(c) + text) == ChunkSays(c)
    ensures forall a | a in ChunkSays(c) :: Said(a) == [a]
  {
    if TextOf(c) != "" { AtomsOne(TextDelta(TextOf(c))); }
    if c.usage.Some? { AtomsOne(UsageOf(c)[0]); }
    AtomsConcat(UsageOf(c), text);
  }

  lemma {:induction false} ChunksSaid(tools: seq<Tool>, chunks: seq<Chunk>)
    ensures Selected(Said, Run(ChunkStep, tools, chunks).out) == FlatMap(ChunkSays, chunks)
    decreases |chunks|
  {
    hide ChunkStep, Selected, Run, ChunkSays;
    if chunks == [] {
      RunNone(ChunkStep, tools);
      SelectedNone(Said, []);
    } else {
      var step := ChunkStep(tools, chunks[0]);
      RunCons(ChunkStep, tools, chunks);
      ChunkSaid(tools, chunks[0]);
      ChunksSaid(step.state, chunks[1..]);
      SelectedConcat(Said, step.out, Run(ChunkStep, step.state, chunks[1..]).out);
    }
  }

  /** The text characters and usage reports published are those of the chunks taken in, in their order. */
  lemma RelaySays(decode: Decoder, incoming: seq<Read>)
    requires AllText(incoming) && Relay(decode, [], "", incoming).state != Failed(LineBufferOverflow)
    ensures Selected(Said, Relay(decode, [], "", incoming).out) ==
            FlatMap(ChunkSays, ChunksOf(decode, CompleteLines(Joined(incoming))))
  {
    hide Relay, Selected;
    RelaySelects(Said, decode, incoming);
    ChunksSaid([], ChunksOf(decode, CompleteLines(Joined(incoming))));
  }

  /** The text an event list shows. */
  function Shown(evs: seq<Event>): string {
    if evs == [] then "" else (if evs[0].TextDelta? then evs[0].text else "") + Shown(evs[1..])
  }

  function Usages(evs: seq<Event>): seq<Event> {
    if evs == [] then [] else (if evs[0].Usage? then [evs[0]] else []) + Usages(evs[1..])
  }

  function CharOf(a: Atom): seq<char> {
    if a.Ch? then [a.c] else []
  }

  function UsageIn(a: Atom): seq<Event> {
    if a.Other? && a.e.Usage? then [a.e] else []
  }

  lemma {:induction false} CharsOfText(t: string)
    ensures FlatMap(CharOf, TextAtoms(t)) == t && FlatMap(UsageIn, TextAtoms(t)) == []
  {
    if t != "" {
      CharsOfText(t[1..]);
      assert TextAtoms(t) == [Ch(t[0])] + TextAtoms(t[1..]);
    }
  }

  lemma OneEvent(e: Event)
    ensures FlatMap(CharOf, EventAtoms(e)) == if e.TextDelta? then e.text else ""
    ensures FlatMap(UsageIn, EventAtoms(e)) == if e.Usage? then [e] else []
  {
    if e.TextDelta? {
      CharsOfText(e.text);
    } else {
      FlatMapOne(CharOf, Other(e));
      FlatMapOne(UsageIn, Other(e));
    }
  }

  lemma {:induction false} ByAtoms(evs: seq<Event>)
    ensures FlatMap(CharOf, Atoms(evs)) == Shown(evs) && FlatMap(UsageIn, Atoms(evs)) == Usages(evs)
  {
    if evs != [] {
      ByAtoms(evs[1..]);
      OneEvent(evs[0]);
      FlatMapConcat(CharOf, EventAtoms(evs[0]), Atoms(evs[1..]));
      FlatMapConcat(UsageIn, EventAtoms(evs[0]), Atoms(evs[1..]));
    }
  }

  lemma {:induction false} SaidFirst(atoms: seq<Atom>)
    ensures FlatMap(CharOf, FlatMap(Said, atoms)) == FlatMap(CharOf, atoms)
    ensures FlatMap(UsageIn, FlatMap(Said, atoms)) == FlatMap(UsageIn, atoms)
  {
    if atoms != [] {
      SaidFirst(atoms[1..]);
      FlatMapConcat(CharOf, Said(atoms[0]), FlatMap(Said, atoms[1..]));
      FlatMapConcat(UsageIn, Said(atoms[0]), FlatMap(Said, atoms[1..]));
      FlatMapOne(CharOf, atoms[0]);
      FlatMapOne(UsageIn, atoms[0]);
    }
  }

  lemma OneChunkSays(c: Chunk)
    ensures FlatMap(CharOf, ChunkSays(c)) == TextOf(c) && FlatMap(UsageIn, ChunkSays(c)) == UsageOf(c)
  {
    ByAtoms(UsageOf(c));
    CharsOfText(TextOf(c));
    FlatMapConcat(CharOf, Atoms(UsageOf(c)), TextAtoms(TextOf(c)));
    FlatMapConcat(UsageIn, Atoms(UsageOf(c)), TextAtoms(TextOf(c)));
    hide CharOf, UsageIn, TextOf, TextAtoms, Atoms, FlatMap;
    assert Usages(UsageOf(c)) == UsageOf(c) && Shown(UsageOf(c)) == "";
  }

  lemma {:induction false} SaysByChunk(chunks: seq<Chunk>)
    ensures FlatMap(CharOf, FlatMap(ChunkSays, chunks)) == FlatMap(TextOf, chunks)
    ensures FlatMap(UsageIn, FlatMap(ChunkSays, chunks)) == FlatMap(UsageOf, chunks)
  {
    if chunks != [] {
      var c, rest := chunks[0], FlatMap(ChunkSays, chunks[1..]);
      SaysByChunk(chunks[1..]);
      OneChunkSays(c);
      hide ChunkSays, TextOf, UsageOf, CharOf, UsageIn;
      FlatMapConcat(CharOf, ChunkSays(c), rest);
      FlatMapConcat(UsageIn, ChunkSays(c), rest);
    }
  }

  /** The text published is the contents of the first choices put together, and the usage events are the usage
      reports, in order. */
  lemma RelayShows(decode: Decoder, incoming: seq<Read>)
    requires AllText(incoming) && Relay(decode, [], "", incoming).state != Failed(LineBufferOverflow)
    ensures var out, chunks := Relay(decode, [], "", incoming).out, ChunksOf(decode, CompleteLines(Joined(incoming)));
            Shown(out) == FlatMap(TextOf, chunks) && Usages(out) == FlatMap(UsageOf, chunks)
  {
    hide Relay;
    var out, chunks := Relay(decode, [], "", incoming).out, ChunksOf(decode, CompleteLines(Joined(incoming)));
    RelaySays(decode, incoming);
    ByAtoms(out);
    SaidFirst(Atoms(out));
    SaysByChunk(chunks);
  }
}
