/** Lines of an event stream: how they are trimmed and classified. */
module SseLines {
  import opened Common
  import opened ToolCalls
  import opened Whitespace

  function TrimCarriageReturns(s: string): string {
    if s != "" && s[|s| - 1] == '\r' then TrimCarriageReturns(s[..|s| - 1]) else s
  }

  const DATA_PREFIX := "data:"

  /** The payload of a data line; other fields, comments and blank payloads have none. */
  function DataPayload(line: string): Option<string> {
    if !StartsWith(line, DATA_PREFIX) then None
    else
      var data := TrimStart(line[|DATA_PREFIX|..]);
      if Trim(data) == "" then None else Some(data)
  }

  /** The JSON decoder for completion chunks: a chunk, or the parser's complaint. */
  type Decoder = string -> Result<Chunk, string>

  datatype LineKind = Ignored | DoneLine | Data(chunk: Chunk) | Malformed(detail: string)

  /** What one raw line means, its newline already removed. */
  function Classify(decode: Decoder, raw: string): LineKind {
    var line := TrimCarriageReturns(raw);
    if line == "" then Ignored
    else match DataPayload(line)
      case None => Ignored
      case Some(data) =>
        if Trim(data) == "[DONE]" then DoneLine
        else match decode(Trim(data))
          case Ok(chunk) => Data(chunk)
          case Err(detail) => Malformed(detail)
  }

  // ---- What a line means, by its characters ----

  /** A data line for `mid`: nothing but whitespace around it. */
  ghost predicate Carries(raw: string, mid: string) {
    exists w, w' :: AllWhite(w) && AllWhite(w') && raw == "data:" + w + mid + w'
  }

  lemma {:induction false} CarriageReturns(raw: string) returns (crs: string)
    ensures raw == TrimCarriageReturns(raw) + crs && AllWhite(crs) && forall c | c in crs :: c == '\r'
  {
    if raw != "" && raw[|raw| - 1] == '\r' {
      crs := CarriageReturns(raw[..|raw| - 1]);
      crs := crs + ['\r'];
    } else {
      crs := "";
    }
  }

  lemma TooShort(p: string, line: string, crs: string)
    requires |line| < |p| && '\r' !in p && forall c | c in crs :: c == '\r'
    ensures !(p <= line + crs)
  {
    if |line + crs| >= |p| { assert crs[0] in crs && (line + crs)[|line|] == crs[0]; }
  }

  lemma PrefixSurvives(p: string, line: string, crs: string)
    requires '\r' !in p && forall c | c in crs :: c == '\r'
    ensures p <= line + crs <==> p <= line
  {
    if |line| < |p| {
      TooShort(p, line, crs);
    } else {
      assert (line + crs)[..|p|] == line[..|p|];
    }
  }

  /** Carriage returns at the end of a line do not matter beyond being whitespace. */
  lemma PayloadIsTrimmed(raw: string)
    ensures "data:" <= raw <==> "data:" <= TrimCarriageReturns(raw)
    ensures "data:" <= raw ==> Trim(TrimStart(TrimCarriageReturns(raw)[5..])) == Trim(raw[5..])
  {
    var line := TrimCarriageReturns(raw);
    var crs := CarriageReturns(raw);
    hide TrimStart, TrimEnd, IsWhitespace, TrimCarriageReturns;
    if "data:" <= raw {
      PrefixSurvives("data:", line, crs);
      var a := StartParts(line[5..]);
      var b, b' := TrimParts(TrimStart(line[5..]));
      var w, w' := TrimParts(raw[5..]);
      var mid := Trim(TrimStart(line[5..]));
      assert raw[5..] == line[5..] + crs;
      assert raw[5..] == (a + b) + mid + (b' + crs);
      hide Trim;
      if mid != "" {
        OneMiddle(a + b, mid, b' + crs, w, Trim(raw[5..]), w');
      } else {
        assert AllWhite(raw[5..]) by { assert forall c | c in raw[5..] :: c in a || c in b || c in b' || c in crs; }
        TrimEmptyIff(raw[5..]);
      }
    }
  }

  /** The verdict, from the text after "data:". */
  function Verdict(decode: Decoder, payload: string): LineKind {
    if payload == "" then Ignored
    else if payload == "[DONE]" then DoneLine
    else match decode(payload)
      case Ok(chunk) => Data(chunk)
      case Err(detail) => Malformed(detail)
  }

  lemma ClassifyIsVerdict(decode: Decoder, raw: string)
    ensures Classify(decode, raw) == if "data:" <= raw then Verdict(decode, Trim(raw[5..])) else Ignored
  {
    PayloadIsTrimmed(raw);
    hide TrimCarriageReturns, Trim, TrimStart;
  }

  /** By its characters: a line is [DONE] exactly when that is all it carries; it means nothing exactly when it is no
      data line or carries only whitespace; any other carries one text without whitespace at its ends, which the decoder
      decides. */
  lemma ClassifyExactly(decode: Decoder, raw: string)
    ensures Classify(decode, raw) == DoneLine <==> Carries(raw, "[DONE]")
    ensures Classify(decode, raw) == Ignored <==> !("data:" <= raw) || AllWhite(raw[5..])
    ensures forall mid | IsBare(mid) && mid != "[DONE]" && Carries(raw, mid) ::
              Classify(decode, raw) == if decode(mid).Ok? then Data(decode(mid).value) else Malformed(decode(mid).error)
    ensures Classify(decode, raw) != DoneLine && Classify(decode, raw) != Ignored ==>
              exists mid :: IsBare(mid) && mid != "[DONE]" && Carries(raw, mid)
  {
    ClassifyIsVerdict(decode, raw);
    assert IsBare("[DONE]");
    CarriesIff(raw, "[DONE]");
    if "data:" <= raw {
      TrimEmptyIff(raw[5..]);
      var w, w' := TrimParts(raw[5..]);
      if Trim(raw[5..]) != "" { CarriesIff(raw, Trim(raw[5..])); }
    }
    hide Classify, Trim, IsWhitespace, AllWhite, IsBare, Carries;
    forall mid | IsBare(mid) && Carries(raw, mid) ensures "data:" <= raw && Trim(raw[5..]) == mid { CarriesIff(raw, mid); }
  }

  lemma CarriesIff(raw: string, mid: string)
    requires IsBare(mid)
    ensures Carries(raw, mid) <==> "data:" <= raw && Trim(raw[5..]) == mid
  {
    hide Trim, IsWhitespace, IsBare;
    if Carries(raw, mid) {
      var w, w' :| AllWhite(w) && AllWhite(w') && raw == "data:" + w + mid + w';
      assert raw[5..] == w + mid + w';
      hide AllWhite;
      TrimOf(w, mid, w');
    } else if "data:" <= raw {
      var w, w' := TrimParts(raw[5..]);
      hide AllWhite;
      assert raw == "data:" + w + Trim(raw[5..]) + w';
    }
  }
}

/** The streaming relay: reads to published events, and why where the reads were cut does not matter. */
module SseStream {
  import opened Common
  import opened Lists
  import opened Machines
  import opened SseLines
  import opened StreamEvents
  import opened TextBatching
  import opened TextLines
  import opened ToolCalls
  import opened Utf8
  import opened Whitespace

  const MAX_LINE_BUFFER_SIZE := 1024 * 1024

  /** One network read; the stream ends after the last of a list of reads. */
  datatype Read = Text(text: string) | Broken

  datatype Outcome = Succeeded | Failed(reason: Failure)

  /** Live while lines are still wanted. */
  datatype LineState = Live(tools: seq<Tool>) | Stopped(outcome: Outcome)

  function LineStep(s: LineState, line: LineKind): Step<LineState, Event> {
    if s.Stopped? then Step([], s)
    else match line
      case Ignored => Step([], s)
      case DoneLine => Step([Done], Stopped(Succeeded))
      case Malformed(detail) => Step([], Stopped(Failed(InvalidJson(detail))))
      case Data(chunk) => var step := ChunkStep(s.tools, chunk); Step(step.out, Live(step.state))
  }

  function Kinds(decode: Decoder, lines: seq<string>): seq<LineKind> {
    seq(|lines|, i requires 0 <= i < |lines| => Classify(decode, lines[i]))
  }

  /** All complete lines of `buffer`, unbatched. */
  function RunLines(decode: Decoder, s: LineState, buffer: string): Step<LineState, Event> {
    Run(LineStep, s, Kinds(decode, CompleteLines(buffer)))
  }

  /** What a finished stream amounts to when no [DONE] came. */
  function AtEnd(tail: string): Failure {
    if Trim(tail) == "" then EndedBeforeDone else EndedWithPartialLine
  }

  function Conclude(s: LineState, tail: string): Outcome {
    match s
    case Stopped(outcome) => outcome
    case Live(_) => Failed(AtEnd(tail))
  }

  /** Specification: the stream as one text, read line by line, one event per delta. */
  function Spec(decode: Decoder, text: string): Step<Outcome, Event> {
    var r := RunLines(decode, Live([]), text);
    Step(r.out, Conclude(r.state, Tail(text)))
  }

  /** What the relay publishes and how it ends, read by read, on a bus that accepts everything. */
  function Relay(decode: Decoder, tools: seq<Tool>, carry: string, incoming: seq<Read>): Step<Outcome, Event>
    decreases |incoming|
  {
    if incoming == [] then Step([], Failed(AtEnd(carry)))
    else if incoming[0].Broken? then Step([], Failed(ReadFailed))
    else
      var buffer := carry + incoming[0].text;
      if ByteLen(buffer) > MAX_LINE_BUFFER_SIZE then Step([], Failed(LineBufferOverflow))
      else
        var r := RunLines(decode, Live(tools), buffer);
        match r.state
        case Stopped(outcome) => Step(Batch(r.out), outcome)
        case Live(next) => Prepend(Batch(r.out), Relay(decode, next, Tail(buffer), incoming[1..]))
  }

  lemma NextLine(decode: Decoder, s: LineState, buffer: string)
    requires FirstNewline(buffer).Some?
    ensures var n := FirstNewline(buffer).value;
            var step := LineStep(s, Classify(decode, buffer[..n]));
            RunLines(decode, s, buffer) == Prepend(step.out, RunLines(decode, step.state, buffer[n + 1..]))
  {
    hide Classify, LineStep;
    var n := FirstNewline(buffer).value;
    var kinds := Kinds(decode, CompleteLines(buffer));
    assert kinds[1..] == Kinds(decode, CompleteLines(buffer[n + 1..]));
    RunCons(LineStep, s, kinds);
  }

  lemma NoLine(decode: Decoder, s: LineState, buffer: string)
    requires FirstNewline(buffer).None?
    ensures RunLines(decode, s, buffer) == Step([], s) && Tail(buffer) == buffer
  {
  }

  lemma {:induction false} StoppedForGood(decode: Decoder, s: LineState, buffer: string)
    requires s.Stopped?
    ensures RunLines(decode, s, buffer) == Step([], s)
    decreases |buffer|
  {
    match FirstNewline(buffer)
    case None => NoLine(decode, s, buffer);
    case Some(n) =>
      NextLine(decode, s, buffer);
      StoppedForGood(decode, s, buffer[n + 1..]);
  }

  // ---- The relay as loops over reads and lines ----

  /** Publishes the events of one line. */
  method ConsumeLine(kind: LineKind, tools: seq<Tool>, batch: TextBatch, bus: Bus,
                     ghost credit: nat, ghost log: seq<Event>, ghost sent: seq<Event>, ghost all: seq<Event>)
    returns (published: bool, state: LineState)
    requires Fed(batch, bus, credit, log, "", sent, true)
    requires sent + LineStep(Live(tools), kind).out <= all
    modifies batch, bus
    ensures Fed(batch, bus, credit, log, "", if published then sent + LineStep(Live(tools), kind).out else all, published)
    ensures published ==> state == LineStep(Live(tools), kind).state
  {
    hide Fed, ChunkStep;
    assert sent + [] == sent;
    match kind
    case Ignored => published, state := true, Live(tools);
    case Malformed(detail) => published, state := true, Stopped(Failed(InvalidJson(detail)));
    case DoneLine =>
      published := Emit(Done, batch, bus, credit, log, "", sent, all);
      state := Stopped(Succeeded);
    case Data(chunk) =>
      var next;
      published, next := ProcessChunk(chunk, tools, batch, bus, credit, log, "", sent);
      if !published { FedRefused(batch, bus, credit, log, sent + ChunkStep(tools, chunk).out, all); }
      state := Live(next);
  }

  lemma FedRefused(batch: TextBatch, bus: Bus, credit: nat, log: seq<Event>, evs: seq<Event>, all: seq<Event>)
    requires Fed(batch, bus, credit, log, "", evs, false) && evs <= all
    ensures Fed(batch, bus, credit, log, "", all, false)
  {
    hide Feed;
    FedPrefix("", evs, all);
  }

  /** What is still to come of a read: `spec` is all of it, `sent` the events already pushed. */
  ghost predicate Pending(decode: Decoder, spec: Step<LineState, Event>, sent: seq<Event>, state: LineState, rest: string) {
    spec == Prepend(sent, RunLines(decode, state, rest))
  }

  /** Cuts the next line off the buffer and publishes its events. */
  method TakeLine(decode: Decoder, buffer: string, newline: nat, tools: seq<Tool>, batch: TextBatch, bus: Bus,
                  ghost credit: nat, ghost log: seq<Event>, ghost sent: seq<Event>, ghost spec: Step<LineState, Event>)
    returns (published: bool, state: LineState, rest: string, ghost next: seq<Event>)
    requires FirstNewline(buffer) == Some(newline)
    requires Fed(batch, bus, credit, log, "", sent, true)
    requires Pending(decode, spec, sent, Live(tools), buffer)
    modifies batch, bus
    ensures Fed(batch, bus, credit, log, "", if published then next else spec.out, published)
    ensures rest == buffer[newline + 1..]
    ensures published ==> Pending(decode, spec, next, state, rest)
  {
    hide Fed, RunLines, Classify, LineStep;
    rest := buffer[newline + 1..];
    var kind := Classify(decode, buffer[..newline]);
    ghost var step := LineStep(Live(tools), kind);
    next := sent + step.out;
    NextLine(decode, Live(tools), buffer);
    PrependPrepend(sent, step.out, RunLines(decode, step.state, rest));
    published, state := ConsumeLine(kind, tools, batch, bus, credit, log, sent, spec.out);
  }

  /** All complete lines of the buffer, then a flush; `rest` is the unfinished line. */
  method ConsumeLines(decode: Decoder, buffer: string, activeTools: seq<Tool>, batch: TextBatch, bus: Bus)
    returns (published: bool, state: LineState, rest: string)
    requires batch.text == ""
    modifies batch, bus
    ensures var r := RunLines(decode, Live(activeTools), buffer);
            && bus.Tried(old(bus.credit), old(bus.log), Batch(r.out), published)
            && batch.text == ""
            && (published ==> state == r.state && (r.state.Live? ==> rest == Tail(buffer)))
  {
    ghost var spec, sent := RunLines(decode, Live(activeTools), buffer), [];
    ghost var credit, log := bus.credit, bus.log;
    StartFed(batch, bus);
    rest, state := buffer, Live(activeTools);
    hide Fed, RunLines, Batch;
    var newline := FirstNewline(rest);
    while newline.Some? && state.Live?
      invariant newline == FirstNewline(rest)
      invariant Fed(batch, bus, credit, log, "", sent, true)
      invariant Pending(decode, spec, sent, state, rest)
      invariant Tail(rest) == Tail(buffer)
      decreases |rest|
    {
      published, state, rest, sent := TakeLine(decode, rest, newline.value, state.tools, batch, bus, credit, log, sent, spec);
      if !published {
        published := FinishRead(batch, bus, credit, log, spec.out, published);
        return;
      }
      newline := FirstNewline(rest);
    }
    if state.Live? { NoLine(decode, state, rest); } else { StoppedForGood(decode, state, rest); }
    assert sent + [] == sent;
    published := FinishRead(batch, bus, credit, log, sent, true);
  }

  lemma StartFed(batch: TextBatch, bus: Bus)
    requires batch.text == ""
    ensures Fed(batch, bus, bus.credit, bus.log, "", [], true)
  {
    RunNone(FeedEvent, "");
    assert bus.log + [] == bus.log;
  }

  /** The flush at the end of a read; nothing is left to do after a refusal. */
  method FinishRead(batch: TextBatch, bus: Bus, ghost credit: nat, ghost log: seq<Event>, ghost evs: seq<Event>, fed: bool)
    returns (published: bool)
    requires Fed(batch, bus, credit, log, "", evs, fed)
    modifies batch, bus
    ensures bus.Tried(credit, log, Batch(evs), published)
    ensures batch.text == ""
    ensures !fed ==> !published
  {
    hide Feed, FlushOut;
    ghost var more := FlushOut(Feed("", evs).state);
    if fed {
      published := batch.Flush(bus);
      TriedThen(bus, credit, log, Feed("", evs).out, more, Batch(evs), published);
    } else {
      published := false;
      assert Batch(evs)[..credit] == Feed("", evs).out[..credit];
    }
  }

  /** Streams a response: publishes its events as the reads arrive and says how it ended. */
  method ParseSseStream(decode: Decoder, incoming: seq<Read>, bus: Bus) returns (outcome: Outcome)
    modifies bus
    ensures var r := Relay(decode, [], "", incoming);
            var published := |r.out| <= old(bus.credit);
            && bus.Tried(old(bus.credit), old(bus.log), r.out, published)
            && outcome == if published then r.state else Failed(PublishRefused)
  {
    var activeTools: seq<Tool>, lineBuffer := [], "";
    var batch := new TextBatch();
    ghost var spec, out := Relay(decode, [], "", incoming), [];
    ghost var credit, log := bus.credit, bus.log;
    hide RunLines, Batch, AtEnd;
    for i := 0 to |incoming|
      invariant batch.text == "" && fresh(batch)
      invariant bus.Tried(credit, log, out, true)
      invariant spec == Prepend(out, Relay(decode, activeTools, lineBuffer, incoming[i..]))
    {
      assert incoming[i..][1..] == incoming[i + 1..];
      assert out + [] == out;
      if incoming[i].Broken? { return Failed(ReadFailed); }
      lineBuffer := lineBuffer + incoming[i].text;
      if ByteLen(lineBuffer) > MAX_LINE_BUFFER_SIZE { return Failed(LineBufferOverflow); }
      ghost var r := RunLines(decode, Live(activeTools), lineBuffer);
      ghost var more := Batch(r.out);
      var published, state, rest := ConsumeLines(decode, lineBuffer, activeTools, batch, bus);
      if r.state.Live? { PrependPrepend(out, more, Relay(decode, r.state.tools, Tail(lineBuffer), incoming[i + 1..])); }
      TriedThen(bus, credit, log, out, more, spec.out, published);
      if !published { return Failed(PublishRefused); }
      out := out + more;
      match state
      case Stopped(outcome_) => return outcome_;
      case Live(tools) => activeTools, lineBuffer := tools, rest;
    }
    assert out + [] == out;
    return Failed(AtEnd(lineBuffer));
  }

  /** One LLM request: a failed stream is reported by an Error event, whose own refusal is ignored. */
  method HandleRequest(decode: Decoder, incoming: seq<Read>, bus: Bus)
    modifies bus
    ensures bus.log == old(bus.log) + RequestLog(decode, incoming, old(bus.credit), bus.again)
  {
    var outcome := ParseSseStream(decode, incoming, bus);
    if outcome.Failed? {
      var ignored := bus.Publish(Error(outcome.reason));
    }
  }

  /** What a request leaves on a bus that refuses publication number `credit`, and then accepts `again` more. */
  function RequestLog(decode: Decoder, incoming: seq<Read>, credit: nat, again: nat): seq<Event> {
    var r := Relay(decode, [], "", incoming);
    if |r.out| > credit then r.out[..credit] + (if again > 0 then [Error(PublishRefused)] else [])
    else if r.state.Succeeded? then r.out
    else r.out + (if credit > |r.out| then [Error(r.state.reason)] else [])
  }
}
