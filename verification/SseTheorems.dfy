/** What the streaming relay promises: read boundaries do not matter, and every request ends in one terminal event. */
module SseTheorems {
  import opened Common
  import opened Lists
  import opened Machines
  import opened SseLines
  import opened SseStream
  import opened StreamEvents
  import opened TextBatching
  import opened TextLines
  import opened ToolCalls
  import opened Utf8
  import opened Whitespace

  predicate AllText(incoming: seq<Read>) {
    forall r | r in incoming :: r.Text?
  }

  function Joined(incoming: seq<Read>): string
    requires AllText(incoming)
  {
    if incoming == [] then "" else incoming[0].text + Joined(incoming[1..])
  }

  lemma KindsConcat(decode: Decoder, a: seq<string>, b: seq<string>)
    ensures Kinds(decode, a + b) == Kinds(decode, a) + Kinds(decode, b)
  {
    hide Classify;
  }

  /** Lines read in two parts are lines read in one. */
  lemma RunLinesConcat(decode: Decoder, s: LineState, a: string, b: string)
    ensures var first := RunLines(decode, s, a);
            RunLines(decode, s, a + b) == Prepend(first.out, RunLines(decode, first.state, Tail(a) + b))
  {
    LinesOfConcat(a, b);
    hide Classify, LineStep, CompleteLines, Tail, Run;
    var k1, k2 := Kinds(decode, CompleteLines(a)), Kinds(decode, CompleteLines(Tail(a) + b));
    KindsConcat(decode, CompleteLines(a), CompleteLines(Tail(a) + b));
    RunConcat(LineStep, s, k1, k2);
  }

  lemma {:induction false} RelayFromHere(decode: Decoder, tools: seq<Tool>, carry: string, incoming: seq<Read>)
    requires AllText(incoming) && FirstNewline(carry).None?
    requires Relay(decode, tools, carry, incoming).state != Failed(LineBufferOverflow)
    ensures var r := RunLines(decode, Live(tools), carry + Joined(incoming));
            && Atoms(Relay(decode, tools, carry, incoming).out) == Atoms(r.out)
            && Relay(decode, tools, carry, incoming).state == Conclude(r.state, Tail(carry + Joined(incoming)))
    decreases |incoming|
  {
    hide RunLines, Batch, Atoms, AtEnd, Tail;
    if incoming == [] {
      assert carry + "" == carry;
      NoLine(decode, Live(tools), carry);
    } else {
      var buffer, later := carry + incoming[0].text, Joined(incoming[1..]);
      assert carry + Joined(incoming) == buffer + later;
      var first := RunLines(decode, Live(tools), buffer);
      RunLinesConcat(decode, Live(tools), buffer, later);
      LinesOfConcat(buffer, later);
      BatchKeepsAtoms(first.out);
      TailHasNoNewline(buffer);
      match first.state
      case Stopped(_) =>
        StoppedForGood(decode, first.state, Tail(buffer) + later);
        assert first.out + [] == first.out;
      case Live(next) =>
        RelayFromHere(decode, next, Tail(buffer), incoming[1..]);
        AtomsConcat(Batch(first.out), Relay(decode, next, Tail(buffer), incoming[1..]).out);
        AtomsConcat(first.out, RunLines(decode, first.state, Tail(buffer) + later).out);
    }
  }

  lemma {:induction false} TailHasNoNewline(s: string)
    ensures FirstNewline(Tail(s)).None?
    decreases |s|
  {
    match FirstNewline(s)
    case None =>
    case Some(n) => TailHasNoNewline(s[n + 1..]);
  }

  /** The relay refines the line-by-line specification of the joined text, wherever the reads were cut. */
  lemma RelayRefinesSpec(decode: Decoder, incoming: seq<Read>)
    requires AllText(incoming)
    requires Relay(decode, [], "", incoming).state != Failed(LineBufferOverflow)
    ensures Merged(Relay(decode, [], "", incoming).out) == Merged(Spec(decode, Joined(incoming)).out)
    ensures Relay(decode, [], "", incoming).state == Spec(decode, Joined(incoming)).state
  {
    hide RunLines, Merged;
    RelayFromHere(decode, [], "", incoming);
    assert "" + Joined(incoming) == Joined(incoming);
    SameMergedIffSameAtoms(Relay(decode, [], "", incoming).out, Spec(decode, Joined(incoming)).out);
  }

  /** Two ways of cutting the same text into reads, neither overflowing, publish the same and end the same. */
  lemma ChunkBoundariesDoNotMatter(decode: Decoder, a: seq<Read>, b: seq<Read>)
    requires AllText(a) && AllText(b) && Joined(a) == Joined(b)
    requires Fits("", a) && Fits("", b)
    ensures var ra, rb := Relay(decode, [], "", a), Relay(decode, [], "", b);
            Merged(ra.out) == Merged(rb.out) && ra.state == rb.state
  {
    FitsNeverOverflows(decode, [], "", a);
    FitsNeverOverflows(decode, [], "", b);
    RelayRefinesSpec(decode, a);
    RelayRefinesSpec(decode, b);
  }

  /** No read makes the buffer, unfinished line included, longer than the limit. */
  predicate Fits(carry: string, incoming: seq<Read>)
    requires AllText(incoming)
    decreases |incoming|
  {
    incoming == [] ||
    var buffer := carry + incoming[0].text;
    ByteLen(buffer) <= MAX_LINE_BUFFER_SIZE && Fits(Tail(buffer), incoming[1..])
  }

  lemma {:induction false} FitsNeverOverflows(decode: Decoder, tools: seq<Tool>, carry: string, incoming: seq<Read>)
    requires AllText(incoming) && Fits(carry, incoming)
    ensures Relay(decode, tools, carry, incoming).state != Failed(LineBufferOverflow)
    decreases |incoming|
  {
    if incoming != [] {
      hide RunLines, Batch, ByteLen, Tail;
      var buffer := carry + incoming[0].text;
      StopsWell(decode, tools, buffer);
      var state := RunLines(decode, Live(tools), buffer).state;
      if state.Live? { FitsNeverOverflows(decode, state.tools, Tail(buffer), incoming[1..]); }
    }
  }

  /** Lines stop a stream only by [DONE] or by malformed data. */
  lemma StopsWell(decode: Decoder, tools: seq<Tool>, buffer: string)
    ensures var s := RunLines(decode, Live(tools), buffer).state;
            s.Stopped? ==> s.outcome == Succeeded || s.outcome.reason.InvalidJson?
  {
    StopsWellFrom(Live(tools), Kinds(decode, CompleteLines(buffer)));
  }

  lemma {:induction false} StopsWellFrom(s: LineState, kinds: seq<LineKind>)
    requires s.Stopped? ==> s.outcome == Succeeded || s.outcome.reason.InvalidJson?
    ensures var t := Run(LineStep, s, kinds).state;
            t.Stopped? ==> t.outcome == Succeeded || t.outcome.reason.InvalidJson?
    decreases |kinds|
  {
    if kinds != [] {
      hide ChunkStep;
      StopsWellFrom(LineStep(s, kinds[0]).state, kinds[1..]);
    }
  }

  // ---- How a stream ends ----

  /** The line ends the stream: it says [DONE], or it carries a text the decoder refuses. */
  ghost predicate Stops(decode: Decoder, line: string) {
    Carries(line, "[DONE]") || exists mid :: Refused(decode, line, mid)
  }

  ghost predicate Refused(decode: Decoder, line: string, mid: string) {
    IsBare(mid) && mid != "[DONE]" && Carries(line, mid) && decode(mid).Err?
  }

  /** Line k is the first that ends the stream. */
  ghost predicate StopsFirst(decode: Decoder, lines: seq<string>, k: nat) {
    k < |lines| && Stops(decode, lines[k]) && forall j | 0 <= j < k :: !Stops(decode, lines[j])
  }

  predicate Stopping(kind: LineKind) {
    kind.DoneLine? || kind.Malformed?
  }

  /** The classifier stops the stream at the same lines, with the decoder's complaint. */
  lemma StoppingIff(decode: Decoder, line: string)
    ensures Stopping(Classify(decode, line)) <==> Stops(decode, line)
    ensures Classify(decode, line).DoneLine? <==> Carries(line, "[DONE]")
    ensures forall mid | Refused(decode, line, mid) :: Classify(decode, line) == Malformed(decode(mid).error)
  {
    ClassifyExactly(decode, line);
    hide Classify, Carries, IsBare;
    if Classify(decode, line).Malformed? {
      var mid :| IsBare(mid) && mid != "[DONE]" && Carries(line, mid);
      assert Refused(decode, line, mid);
    }
  }

  lemma {:induction false} StopsAt(tools: seq<Tool>, kinds: seq<LineKind>, k: nat)
    requires k < |kinds| && Stopping(kinds[k]) && forall j | 0 <= j < k :: !Stopping(kinds[j])
    ensures Run(LineStep, Live(tools), kinds).state ==
            Stopped(if kinds[k].DoneLine? then Succeeded else Failed(InvalidJson(kinds[k].detail)))
    decreases k
  {
    hide ChunkStep;
    var s, tail := LineStep(Live(tools), kinds[0]).state, kinds[1..];
    if k == 0 {
      StoppedRun(s, tail);
    } else {
      assert forall j | 0 <= j < k - 1 :: tail[j] == kinds[j + 1];
      StopsAt(s.tools, tail, k - 1);
    }
  }

  lemma {:induction false} NeverStops(tools: seq<Tool>, kinds: seq<LineKind>)
    requires forall j | 0 <= j < |kinds| :: !Stopping(kinds[j])
    ensures Run(LineStep, Live(tools), kinds).state.Live?
    decreases |kinds|
  {
    if kinds != [] {
      hide ChunkStep;
      NeverStops(LineStep(Live(tools), kinds[0]).state.tools, kinds[1..]);
    }
  }

  /** The first line that ends the stream decides how; without one nothing is decided. */
  lemma LinesDecide(decode: Decoder, tools: seq<Tool>, buffer: string)
    ensures var lines, s := CompleteLines(buffer), RunLines(decode, Live(tools), buffer).state;
            && (forall k: nat | StopsFirst(decode, lines, k) && Carries(lines[k], "[DONE]") :: s == Stopped(Succeeded))
            && (forall k: nat, mid | StopsFirst(decode, lines, k) && Refused(decode, lines[k], mid) ::
                  s == Stopped(Failed(InvalidJson(decode(mid).error))))
            && (s.Live? <==> forall line | line in lines :: !Stops(decode, line))
  {
    var lines := CompleteLines(buffer);
    var kinds := Kinds(decode, lines);
    forall j | 0 <= j < |lines|
      ensures Stopping(kinds[j]) <==> Stops(decode, lines[j])
      ensures kinds[j].DoneLine? <==> Carries(lines[j], "[DONE]")
      ensures forall mid | Refused(decode, lines[j], mid) :: kinds[j] == Malformed(decode(mid).error)
    {
      StoppingIff(decode, lines[j]);
    }
    hide Classify, Carries, Refused, Stops, LineStep, CompleteLines, Run;
    forall k: nat | StopsFirst(decode, lines, k) ensures Stopping(kinds[k]) && Decided(tools, kinds, k) {
      StopsAt(tools, kinds, k);
    }
    if forall line | line in lines :: !Stops(decode, line) {
      NeverStops(tools, kinds);
    } else {
      var k := FirstStop(decode, lines);
      assert StopsFirst(decode, lines, k);
    }
  }

  predicate Decided(tools: seq<Tool>, kinds: seq<LineKind>, k: nat)
    requires k < |kinds| && Stopping(kinds[k])
  {
    Run(LineStep, Live(tools), kinds).state == Stopped(if kinds[k].DoneLine? then Succeeded else Failed(InvalidJson(kinds[k].detail)))
  }

  lemma {:induction false} FirstStop(decode: Decoder, lines: seq<string>) returns (k: nat)
    requires exists line :: line in lines && Stops(decode, line)
    ensures StopsFirst(decode, lines, k)
  {
    hide Stops;
    if Stops(decode, lines[0]) {
      k := 0;
    } else {
      k := FirstStop(decode, lines[1..]);
      k := k + 1;
    }
  }

  // ---- When the line buffer overflows ----

  /** Read k, added to the line its predecessors left unfinished, comes to more than a mebibyte. */
  predicate TooLong(carry: string, incoming: seq<Read>, k: nat)
    requires k < |incoming| && AllText(incoming)
  {
    ByteLen(Tail(carry + Joined(incoming[..k])) + incoming[k].text) > 1048576
  }

  ghost predicate NoStop(decode: Decoder, lines: seq<string>) {
    forall line | line in lines :: !Stops(decode, line)
  }

  /** The buffer overflows at read k, which is reached. */
  ghost predicate OverflowsAt(decode: Decoder, carry: string, incoming: seq<Read>, k: nat)
    requires AllText(incoming)
  {
    k < |incoming| && TooLong(carry, incoming, k) && NoStop(decode, CompleteLines(carry + Joined(incoming[..k])))
  }

  lemma OverflowsAtOnce(decode: Decoder, carry: string, incoming: seq<Read>)
    requires AllText(incoming) && incoming != [] && FirstNewline(carry).None?
    ensures OverflowsAt(decode, carry, incoming, 0) <==> ByteLen(carry + incoming[0].text) > 1048576
  {
    assert incoming[..0] == [] && carry + "" == carry;
    NotCut(carry, "");
    hide Stops;
  }

  /** Past the first read, it overflows there exactly when the rest does, the first read's lines not ending it. */
  lemma OverflowsLater(decode: Decoder, carry: string, incoming: seq<Read>, k: nat)
    requires AllText(incoming) && incoming != []
    ensures var buffer := carry + incoming[0].text;
            OverflowsAt(decode, carry, incoming, k + 1) <==>
            NoStop(decode, CompleteLines(buffer)) && OverflowsAt(decode, Tail(buffer), incoming[1..], k)
  {
    if k + 1 < |incoming| {
      var buffer, later := carry + incoming[0].text, Joined(incoming[1..][..k]);
      assert incoming[..k + 1] == [incoming[0]] + incoming[1..][..k];
      assert carry + Joined(incoming[..k + 1]) == buffer + later;
      LinesOfConcat(buffer, later);
      hide Stops, CompleteLines, Tail, Joined, ByteLen;
    }
  }

  lemma RelayStep(decode: Decoder, tools: seq<Tool>, carry: string, incoming: seq<Read>)
    requires AllText(incoming) && incoming != []
    ensures var buffer, r := carry + incoming[0].text, Relay(decode, tools, carry, incoming).state;
            var s := RunLines(decode, Live(tools), buffer).state;
            r == if ByteLen(buffer) > 1048576 then Failed(LineBufferOverflow)
                 else if s.Stopped? then s.outcome
                 else Relay(decode, s.tools, Tail(buffer), incoming[1..]).state
  {
    assert incoming[0] in incoming;
    hide RunLines, Batch, ByteLen, Tail;
  }

  ghost predicate OverflowsSomewhere(decode: Decoder, carry: string, incoming: seq<Read>)
    requires AllText(incoming)
  {
    exists k: nat :: OverflowsAt(decode, carry, incoming, k)
  }

  lemma OverflowsNowOrLater(decode: Decoder, carry: string, incoming: seq<Read>)
    requires AllText(incoming) && incoming != [] && FirstNewline(carry).None?
    ensures var buffer := carry + incoming[0].text;
            OverflowsSomewhere(decode, carry, incoming) <==>
            ByteLen(buffer) > 1048576 ||
            (NoStop(decode, CompleteLines(buffer)) && OverflowsSomewhere(decode, Tail(buffer), incoming[1..]))
  {
    hide ByteLen, Tail, CompleteLines, NoStop, OverflowsAt, FirstNewline;
    var buffer := carry + incoming[0].text;
    OverflowsAtOnce(decode, carry, incoming);
    if k: nat :| OverflowsAt(decode, carry, incoming, k) {
      if k > 0 { OverflowsLater(decode, carry, incoming, k - 1); }
    }
    if k: nat :| OverflowsAt(decode, Tail(buffer), incoming[1..], k) {
      OverflowsLater(decode, carry, incoming, k);
      assert NoStop(decode, CompleteLines(buffer)) ==> OverflowsAt(decode, carry, incoming, k + 1);
    }
  }

  /** The relay gives up for length exactly when it reaches a read that makes the line buffer too long. */
  lemma {:induction false} OverflowIff(decode: Decoder, tools: seq<Tool>, carry: string, incoming: seq<Read>)
    requires AllText(incoming) && FirstNewline(carry).None?
    ensures Relay(decode, tools, carry, incoming).state == Failed(LineBufferOverflow) <==>
            OverflowsSomewhere(decode, carry, incoming)
    decreases |incoming|
  {
    if incoming != [] {
      var buffer := carry + incoming[0].text;
      var s := RunLines(decode, Live(tools), buffer).state;
      RelayStep(decode, tools, carry, incoming);
      OverflowsNowOrLater(decode, carry, incoming);
      LinesDecide(decode, tools, buffer);
      StopsWell(decode, tools, buffer);
      TailHasNoNewline(buffer);
      if s.Live? { OverflowIff(decode, s.tools, Tail(buffer), incoming[1..]); }
      hide RunLines, ByteLen, Tail, Relay, Stops, OverflowsSomewhere, CompleteLines, Refused, StopsFirst, Carries, FirstNewline;
    }
  }

  /** Nothing is held back for a later read: what some reads publish is there before any more arrive. */
  lemma {:induction false} NothingHeldBack(decode: Decoder, tools: seq<Tool>, carry: string, before: seq<Read>, after: seq<Read>)
    requires AllText(before)
    ensures Relay(decode, tools, carry, before).out <= Relay(decode, tools, carry, before + after).out
    decreases |before|
  {
    var incoming := before + after;
    if before != [] {
      assert incoming[0] == before[0] && before[0] in before && incoming[1..] == before[1..] + after;
      var buffer := carry + before[0].text;
      var s := RunLines(decode, Live(tools), buffer).state;
      hide RunLines, Batch, ByteLen, Tail;
      if s.Live? { NothingHeldBack(decode, s.tools, Tail(buffer), before[1..], after); }
    }
  }

  /** A read that fails ends an unfinished stream at once, and what was published before it stays. */
  lemma {:induction false} BrokenRead(decode: Decoder, tools: seq<Tool>, carry: string, before: seq<Read>, after: seq<Read>)
    requires AllText(before)
    ensures var r, all := Relay(decode, tools, carry, before), Relay(decode, tools, carry, before + [Broken] + after);
            && all.out == r.out
            && all.state == if r.state in {Failed(EndedBeforeDone), Failed(EndedWithPartialLine)} then Failed(ReadFailed) else r.state
    decreases |before|
  {
    var incoming := before + [Broken] + after;
    if before != [] {
      assert incoming[0] == before[0] && before[0] in before && incoming[1..] == before[1..] + [Broken] + after;
      var buffer := carry + before[0].text;
      StopsWell(decode, tools, buffer);
      var s := RunLines(decode, Live(tools), buffer).state;
      hide RunLines, Batch, ByteLen, Tail;
      if s.Live? { BrokenRead(decode, s.tools, Tail(buffer), before[1..], after); }
    } else {
      assert incoming[0] == Broken;
    }
  }

  /** How a stream ends, from its lines: [DONE] first means success, a refused text first is reported with the
      decoder's complaint, and a stream without either ends too early, with or without an unfinished line. */
  lemma OutcomeExactly(decode: Decoder, incoming: seq<Read>, lines: seq<string>, tail: string)
    requires AllText(incoming) && Relay(decode, [], "", incoming).state != Failed(LineBufferOverflow)
    requires Joined(incoming) == Unlines(lines) + tail
    requires '\n' !in tail && forall line | line in lines :: '\n' !in line
    ensures var outcome := Relay(decode, [], "", incoming).state;
            && (forall k: nat | StopsFirst(decode, lines, k) && Carries(lines[k], "[DONE]") :: outcome == Succeeded)
            && (forall k: nat, mid | StopsFirst(decode, lines, k) && Refused(decode, lines[k], mid) ::
                  outcome == Failed(InvalidJson(decode(mid).error)))
            && ((forall line | line in lines :: !Stops(decode, line)) ==>
                  outcome == Failed(if AllWhite(tail) then EndedBeforeDone else EndedWithPartialLine))
  {
    OnlyLines(lines, tail);
    RelayRefinesSpec(decode, incoming);
    LinesDecide(decode, [], Joined(incoming));
    TrimEmptyIff(tail);
  }

  /** A stream succeeds exactly when a line says [DONE] and no line before it carries a text the decoder refuses. */
  lemma SucceedsIffDoneFirst(decode: Decoder, incoming: seq<Read>, lines: seq<string>, tail: string)
    requires AllText(incoming) && Relay(decode, [], "", incoming).state != Failed(LineBufferOverflow)
    requires Joined(incoming) == Unlines(lines) + tail
    requires '\n' !in tail && forall line | line in lines :: '\n' !in line
    ensures Relay(decode, [], "", incoming).state == Succeeded <==>
            exists k :: 0 <= k < |lines| && Carries(lines[k], "[DONE]") &&
              forall j, mid | 0 <= j < k :: !Refused(decode, lines[j], mid)
  {
    OutcomeExactly(decode, incoming, lines, tail);
    hide Relay, Carries, Refused, Joined, Unlines, AllText, AllWhite;
    if exists line :: line in lines && Stops(decode, line) {
      var k := FirstStop(decode, lines);
      if Carries(lines[k], "[DONE]") {
        assert forall j, mid | 0 <= j < k :: !Refused(decode, lines[j], mid);
      } else {
        var mid :| Refused(decode, lines[k], mid);
      }
    }
  }

  lemma {:induction false} StoppedRun(s: LineState, kinds: seq<LineKind>)
    requires s.Stopped?
    ensures Run(LineStep, s, kinds) == Step([], s)
    decreases |kinds|
  {
    if kinds != [] { StoppedRun(s, kinds[1..]); }
  }

  // ---- One terminal event per request ----

  predicate IsTerminal(e: Event) {
    e.Done? || e.Error?
  }

  predicate NoTerminal(evs: seq<Event>) {
    forall e | e in evs :: !IsTerminal(e)
  }

  /** A terminal event, if there is one, is the last. */
  predicate OnlyLastTerminal(evs: seq<Event>) {
    NoTerminal(evs) || (evs != [] && IsTerminal(evs[|evs| - 1]) && NoTerminal(evs[..|evs| - 1]))
  }

  /** Done ends the list exactly when `succeeded`, and is then its only terminal event. */
  predicate EndsAs(evs: seq<Event>, succeeded: bool) {
    if succeeded then evs != [] && evs[|evs| - 1] == Done && NoTerminal(evs[..|evs| - 1]) else NoTerminal(evs)
  }

  lemma EndsAsAfter(before: seq<Event>, evs: seq<Event>, succeeded: bool)
    requires NoTerminal(before) && EndsAs(evs, succeeded)
    ensures EndsAs(before + evs, succeeded)
  {
    if succeeded { assert (before + evs)[..|before + evs| - 1] == before + evs[..|evs| - 1]; }
  }

  lemma {:induction false} FeedTextDeltas(pending: string, t: string)
    ensures forall e | e in FeedText(pending, t).out :: e.TextDelta?
    decreases |t|
  {
    if t != "" { FeedTextDeltas(FeedChar(pending, t[0]).state, t[1..]); }
  }

  lemma {:induction false} FeedNoTerminal(pending: string, evs: seq<Event>)
    requires NoTerminal(evs)
    ensures NoTerminal(Feed(pending, evs).out)
    decreases |evs|
  {
    if evs != [] {
      if evs[0].TextDelta? { FeedTextDeltas(pending, evs[0].text); }
      FeedNoTerminal(FeedEvent(pending, evs[0]).state, evs[1..]);
    }
  }

  lemma BatchDone(body: seq<Event>)
    requires NoTerminal(body)
    ensures NoTerminal(Batch(body))
    ensures Batch(body + [Done]) == Batch(body) + [Done]
  {
    FeedNoTerminal("", body);
    RunConcat(FeedEvent, "", body, [Done]);
    RunOne(FeedEvent, Feed("", body).state, Done);
  }

  lemma {:induction false} ToolsNoTerminal(tools: seq<Tool>, calls: seq<ToolDelta>)
    ensures NoTerminal(Run(ToolStep, tools, calls).out)
    decreases |calls|
  {
    if calls != [] { ToolsNoTerminal(ToolStep(tools, calls[0]).state, calls[1..]); }
  }

  lemma {:induction false} EndsNoTerminal(tools: seq<Tool>)
    ensures NoTerminal(EndEvents(tools))
  {
    if tools != [] { EndsNoTerminal(tools[1..]); }
  }

  lemma ChunkNoTerminal(tools: seq<Tool>, chunk: Chunk)
    ensures NoTerminal(ChunkStep(tools, chunk).out)
  {
    hide Run, ToolStep, EndEvents;
    if chunk.choices != [] {
      var calls := Run(ToolStep, tools, CallsOf(chunk.choices[0]));
      ToolsNoTerminal(tools, CallsOf(chunk.choices[0]));
      EndsNoTerminal(calls.state);
    }
  }

  /** The lines of one read: Done ends them exactly when they succeed. */
  lemma {:induction false} LinesTerminal(tools: seq<Tool>, kinds: seq<LineKind>)
    ensures var r := Run(LineStep, Live(tools), kinds);
            EndsAs(r.out, r.state == Stopped(Succeeded))
    decreases |kinds|
  {
    if kinds != [] {
      hide ChunkStep, EndsAs, Run;
      var step := LineStep(Live(tools), kinds[0]);
      RunCons(LineStep, Live(tools), kinds);
      if step.state.Live? {
        if kinds[0].Data? { ChunkNoTerminal(tools, kinds[0].chunk); }
        var rest := Run(LineStep, step.state, kinds[1..]);
        LinesTerminal(step.state.tools, kinds[1..]);
        EndsAsAfter(step.out, rest.out, rest.state == Stopped(Succeeded));
      } else {
        StoppedRun(step.state, kinds[1..]);
        assert step.out + [] == step.out;
        LastLine(step);
      }
    }
  }

  lemma LastLine(step: Step<LineState, Event>)
    requires step.out == if step.state == Stopped(Succeeded) then [Done] else []
    ensures EndsAs(step.out, step.state == Stopped(Succeeded))
  {
  }

  /** The events of one read, batched: Done ends them exactly when its lines succeed. */
  lemma ReadTerminal(decode: Decoder, tools: seq<Tool>, buffer: string)
    ensures var r := RunLines(decode, Live(tools), buffer);
            EndsAs(Batch(r.out), r.state == Stopped(Succeeded))
  {
    LinesTerminal(tools, Kinds(decode, CompleteLines(buffer)));
    hide Batch, Kinds, CompleteLines, Run, LineStep;
    var r := RunLines(decode, Live(tools), buffer);
    if r.state == Stopped(Succeeded) {
      var body := r.out[..|r.out| - 1];
      assert r.out == body + [Done];
      BatchDone(body);
    } else {
      BatchDone(r.out);
    }
  }

  /** The relay publishes Done exactly when it succeeds, once and last, and nothing else that is terminal. */
  lemma {:induction false} RelayTerminal(decode: Decoder, tools: seq<Tool>, carry: string, incoming: seq<Read>)
    ensures var r := Relay(decode, tools, carry, incoming);
            EndsAs(r.out, r.state == Succeeded)
    decreases |incoming|
  {
    if incoming != [] && incoming[0].Text? {
      var buffer := carry + incoming[0].text;
      if ByteLen(buffer) <= MAX_LINE_BUFFER_SIZE {
        ReadTerminal(decode, tools, buffer);
        var first := RunLines(decode, Live(tools), buffer);
        if first.state.Live? {
          hide Batch, ByteLen, Tail, RunLines;
          var rest := Relay(decode, first.state.tools, Tail(buffer), incoming[1..]);
          RelayTerminal(decode, first.state.tools, Tail(buffer), incoming[1..]);
          EndsAsAfter(Batch(first.out), rest.out, rest.state == Succeeded);
          hide EndsAs;
        } else {
          hide Batch, ByteLen, Tail, RunLines, EndsAs;
        }
      }
    }
  }

  /** Whatever the bus refuses, a request leaves at most one terminal event, at the end; on a bus that accepts
      everything it leaves exactly one, Done if and only if the stream succeeded. */
  lemma OneTerminalPerRequest(decode: Decoder, incoming: seq<Read>, credit: nat, again: nat)
    ensures var log, r := RequestLog(decode, incoming, credit, again), Relay(decode, [], "", incoming);
            && OnlyLastTerminal(log)
            && (credit > |r.out| ==>
                  && log == r.out + (if r.state.Failed? then [Error(r.state.reason)] else [])
                  && log != [] && IsTerminal(log[|log| - 1]) && (log[|log| - 1] == Done <==> r.state == Succeeded))
            && (credit == |r.out| ==> log == r.out)
            && (credit < |r.out| ==> log == r.out[..credit] + (if again > 0 then [Error(PublishRefused)] else []))
  {
    hide Relay;
    var r, log := Relay(decode, [], "", incoming), RequestLog(decode, incoming, credit, again);
    RelayTerminal(decode, [], "", incoming);
    if log != [] { assert log[..|log| - 1] <= r.out; }
  }
}
