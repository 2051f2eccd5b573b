/** Stream events, the event bus they are published on, and what a run publishes. */
module StreamEvents {
  import opened Lists

  /** Why a request failed. */
  datatype Failure =
    | ReadFailed
    | PublishRefused
    | LineBufferOverflow
    | InvalidJson(detail: string)
    | EndedBeforeDone
    | EndedWithPartialLine

  datatype Event =
    | TextDelta(text: string)
    | Usage(inputTokens: nat, outputTokens: nat)
    | ToolCallStart(id: string, name: string)
    | ToolCallDelta(id: string, args: string)
    | ToolCallEnd(id: string)
    | Done
    | Error(reason: Failure)

  /** The event bus. It accepts `credit` more publications before it refuses one, and `again` after that. */
  class Bus {
    var credit: nat
    const again: nat
    var log: seq<Event>

    constructor (credit: nat, again: nat)
      ensures this.credit == credit && this.again == again && log == []
    {
      this.credit, this.again := credit, again;
      log := [];
    }

    method Publish(e: Event) returns (ok: bool)
      modifies this
      ensures Tried(old(credit), old(log), [e], ok)
    {
      ok := credit > 0;
      if ok {
        credit := credit - 1;
        log := log + [e];
      } else {
        credit := again;
      }
    }

    /** What is left by a publisher that tried the events of `out` in order and stopped at the first refusal. */
    ghost predicate Tried(creditBefore: nat, logBefore: seq<Event>, out: seq<Event>, ok: bool)
      reads this
    {
      && ok == (|out| <= creditBefore)
      && log == logBefore + (if ok then out else out[..creditBefore])
      && credit == if ok then creditBefore - |out| else again
    }
  }

  /** Trying `more` after `out` is trying both; a refusal in `more` refuses all that was still to come. */
  lemma TriedThen(bus: Bus, credit: nat, log: seq<Event>, out: seq<Event>, more: seq<Event>, all: seq<Event>, ok: bool)
    requires |out| <= credit && bus.Tried(credit - |out|, log + out, more, ok)
    requires out + more <= all
    ensures bus.Tried(credit, log, if ok then out + more else all, ok)
  {
    assert log + out + more == log + (out + more);
    if !ok {
      assert all[..credit] == out + more[..credit - |out|];
      assert log + out + more[..credit - |out|] == log + all[..credit];
    }
  }

  /** Text split into characters, so that only how it was cut into deltas is forgotten. */
  datatype Atom = Ch(c: char) | Other(e: Event)

  function TextAtoms(t: string): seq<Atom> {
    seq(|t|, i requires 0 <= i < |t| => Ch(t[i]))
  }

  function EventAtoms(e: Event): seq<Atom> {
    if e.TextDelta? then TextAtoms(e.text) else [Other(e)]
  }

  function Atoms(evs: seq<Event>): seq<Atom> {
    FlatMap(EventAtoms, evs)
  }

  lemma AtomsConcat(a: seq<Event>, b: seq<Event>)
    ensures Atoms(a + b) == Atoms(a) + Atoms(b)
  {
    FlatMapConcat(EventAtoms, a, b);
  }

  lemma AtomsOne(e: Event)
    ensures Atoms([e]) == EventAtoms(e)
  {
    FlatMapOne(EventAtoms, e);
  }

  lemma TextAtomsConcat(a: string, b: string)
    ensures TextAtoms(a + b) == TextAtoms(a) + TextAtoms(b)
  {
  }

  /** The event list with adjacent text deltas merged and empty ones dropped. */
  function Merged(evs: seq<Event>): seq<Event> {
    Group("", evs)
  }

  /** Merging with `text` not yet flushed. */
  function Group(text: string, evs: seq<Event>): seq<Event>
    decreases |evs|
  {
    if evs == [] then FlushOut(text)
    else if evs[0].TextDelta? then Group(text + evs[0].text, evs[1..])
    else FlushOut(text) + [evs[0]] + Group("", evs[1..])
  }

  /** What flushing a buffer emits: nothing when it is empty. */
  function FlushOut(text: string): (out: seq<Event>)
  {
    if text == "" then [] else [TextDelta(text)]
  }

  /** The merged list rebuilt from atoms alone. */
  function Regroup(text: string, atoms: seq<Atom>): seq<Event>
    decreases |atoms|
  {
    if atoms == [] then FlushOut(text)
    else match atoms[0]
      case Ch(c) => Regroup(text + [c], atoms[1..])
      case Other(e) => FlushOut(text) + [e] + Regroup("", atoms[1..])
  }

  lemma {:induction false} RegroupText(text: string, t: string, rest: seq<Atom>)
    ensures Regroup(text, TextAtoms(t) + rest) == Regroup(text + t, rest)
    decreases |t|
  {
    if t == "" {
      assert TextAtoms(t) + rest == rest;
      assert text + t == text;
    } else {
      assert (TextAtoms(t) + rest)[1..] == TextAtoms(t[1..]) + rest;
      RegroupText(text + [t[0]], t[1..], rest);
      assert text + [t[0]] + t[1..] == text + t;
    }
  }

  lemma {:induction false} GroupIsRegroup(text: string, evs: seq<Event>)
    ensures Group(text, evs) == Regroup(text, Atoms(evs))
    decreases |evs|
  {
    if evs != [] {
      if evs[0].TextDelta? {
        RegroupText(text, evs[0].text, Atoms(evs[1..]));
        GroupIsRegroup(text + evs[0].text, evs[1..]);
      } else {
        assert Atoms(evs)[1..] == Atoms(evs[1..]);
        GroupIsRegroup("", evs[1..]);
      }
    }
  }

  lemma NoAtoms()
    ensures Atoms([]) == [] && TextAtoms("") == []
  {
  }

  lemma {:induction false} GroupKeepsAtoms(text: string, evs: seq<Event>)
    ensures Atoms(Group(text, evs)) == TextAtoms(text) + Atoms(evs)
    decreases |evs|
  {
    hide Atoms, TextAtoms, FlushOut;
    FlushAtoms(text);
    if evs == [] {
      NoAtoms();
    } else {
      if evs[0].TextDelta? {
        GroupKeepsAtoms(text + evs[0].text, evs[1..]);
        TextAtomsConcat(text, evs[0].text);
        AtomsConcat([evs[0]], evs[1..]);
        AtomsOne(evs[0]);
        assert evs == [evs[0]] + evs[1..];
      } else {
        var tail := Group("", evs[1..]);
        GroupKeepsAtoms("", evs[1..]);
        NoAtoms();
        AtomsConcat([evs[0]], tail);
        AtomsConcat([evs[0]], evs[1..]);
        AtomsConcat(FlushOut(text), [evs[0]] + tail);
        assert evs == [evs[0]] + evs[1..];
        assert Group(text, evs) == FlushOut(text) + ([evs[0]] + tail);
      }
    }
  }

  lemma FlushAtoms(text: string)
    ensures Atoms(FlushOut(text)) == TextAtoms(text)
  {
    if text != "" { AtomsOne(TextDelta(text)); }
  }

  /** Two event lists merge to the same list exactly when they have the same atoms. */
  lemma SameMergedIffSameAtoms(a: seq<Event>, b: seq<Event>)
    ensures Merged(a) == Merged(b) <==> Atoms(a) == Atoms(b)
  {
    GroupIsRegroup("", a);
    GroupIsRegroup("", b);
    GroupKeepsAtoms("", a);
    GroupKeepsAtoms("", b);
    assert TextAtoms("") + Atoms(a) == Atoms(a);
    assert TextAtoms("") + Atoms(b) == Atoms(b);
  }
}

/** Bounded coalescing of adjacent text deltas. */
module TextBatching {
  import opened Common
  import opened Machines
  import opened StreamEvents
  import opened Utf8

  const MAX_TEXT_BYTES := 8 * 1024

  /** Specification, one character at a time: flush when the character does not fit, and when the buffer is full. */
  function FeedChar(pending: string, c: char): Step<string, Event> {
    var fits := ByteLen(pending) + CharLen(c) <= MAX_TEXT_BYTES;
    var out := if fits then [] else FlushOut(pending);
    var text := if fits then pending + [c] else [c];
    if ByteLen(text) == MAX_TEXT_BYTES then Step(out + FlushOut(text), "") else Step(out, text)
  }

  function FeedText(pending: string, t: string): Step<string, Event> {
    Run(FeedChar, pending, t)
  }

  function FeedEvent(pending: string, e: Event): Step<string, Event> {
    if e.TextDelta? then FeedText(pending, e.text) else Step(FlushOut(pending) + [e], "")
  }

  function Feed(pending: string, evs: seq<Event>): Step<string, Event> {
    Run(FeedEvent, pending, evs)
  }

  /** The published events of one read: everything fed, then a flush. */
  function Batch(evs: seq<Event>): seq<Event> {
    var fed := Feed("", evs);
    fed.out + FlushOut(fed.state)
  }

  /** The buffer is never full between operations. */
  predicate Room(pending: string) {
    ByteLen(pending) < MAX_TEXT_BYTES
  }

  /** The buffer of the batching loop. */
  class TextBatch {
    var text: string

    constructor ()
      ensures text == ""
    {
      text := "";
    }

    /** Emits the buffered text, if any. The buffer is emptied even when the bus refuses. */
    method Flush(bus: Bus) returns (ok: bool)
      modifies this, bus
      ensures text == ""
      ensures bus.Tried(old(bus.credit), old(bus.log), FlushOut(old(text)), ok)
    {
      if text == "" { return true; }
      var taken := text;
      text := "";
      ok := bus.Publish(TextDelta(taken));
    }

    /** Takes one event: text is buffered and emitted in bounded pieces, anything else flushes first. */
    method Push(event: Event, bus: Bus) returns (ok: bool)
      requires Room(text)
      modifies this, bus
      ensures bus.Tried(old(bus.credit), old(bus.log), FeedEvent(old(text), event).out, ok)
      ensures text == if ok then FeedEvent(old(text), event).state else ""
      ensures Room(text)
    {
      if event.TextDelta? {
        ok := PushText(event.text, bus);
      } else {
        ok := Flush(bus);
        if ok { ok := bus.Publish(event); }
      }
    }

    /** A flush within the push loop; `rest` is what is still to be fed afterwards. */
    method FlushNext(bus: Bus, ghost credit: nat, ghost log: seq<Event>, ghost out: seq<Event>,
                     ghost spec: Step<string, Event>, ghost rest: Step<string, Event>)
      returns (ok: bool)
      requires bus.Tried(credit, log, out, true)
      requires spec == Prepend(out, Prepend(FlushOut(text), rest))
      modifies this, bus
      ensures text == "" && spec == Prepend(out + FlushOut(old(text)), rest)
      ensures bus.Tried(credit, log, if ok then out + FlushOut(old(text)) else spec.out, ok)
    {
      hide FlushOut;
      PrependPrepend(out, FlushOut(text), rest);
      ok := Flush(bus);
      TriedThen(bus, credit, log, out, FlushOut(old(text)), spec.out, ok);
    }

    method PushText(incoming: string, bus: Bus) returns (ok: bool)
      requires Room(text)
      modifies this, bus
      ensures bus.Tried(old(bus.credit), old(bus.log), FeedText(old(text), incoming).out, ok)
      ensures text == if ok then FeedText(old(text), incoming).state else ""
      ensures Room(text)
    {
      hide IsCharBoundary, FlushOut, Run, CharLen;
      var remaining := incoming;
      ghost var spec, out := FeedText(text, incoming), [];
      while remaining != ""
        invariant Room(text)
        invariant bus.Tried(old(bus.credit), old(bus.log), out, true)
        invariant spec == Prepend(out, FeedText(text, remaining))
        decreases ByteLen(remaining), ByteLen(text)
      {
        ghost var before := text;
        var available := MAX_TEXT_BYTES - ByteLen(text);
        var end := FloorBoundary(remaining, Min(ByteLen(remaining), available));
        if end == 0 {
          FirstCharDoesNotFit(text, remaining, Min(ByteLen(remaining), available));
          ok := FlushNext(bus, old(bus.credit), old(bus.log), out, spec, FeedText("", remaining));
          if !ok { return; }
          out := out + FlushOut(before);
          continue;
        }
        var k := CharsIn(remaining, end);
        FeedSlice(text, remaining, k);
        text := text + remaining[..k];
        remaining := remaining[k..];
        if ByteLen(text) == MAX_TEXT_BYTES {
          before := text;
          ok := FlushNext(bus, old(bus.credit), old(bus.log), out, spec, FeedText("", remaining));
          if !ok { return; }
          out := out + FlushOut(before);
        }
      }
      assert spec == Step(out, text) by { RunNone(FeedChar, text); assert out + [] == out; }
      return true;
    }
  }

  /** The largest character boundary at or below `limit`. */
  method FloorBoundary(s: string, limit: nat) returns (end: nat)
    requires limit <= ByteLen(s)
    ensures end <= limit && IsCharBoundary(s, end)
    ensures forall j | end < j <= limit :: !IsCharBoundary(s, j)
  {
    end := limit;
    while !IsCharBoundary(s, end)
      invariant 0 <= end <= limit
      invariant forall j | end < j <= limit :: !IsCharBoundary(s, j)
      decreases end
    {
      end := end - 1;
    }
  }

  lemma FeedCharFits(pending: string, c: char)
    requires ByteLen(pending) + CharLen(c) < MAX_TEXT_BYTES
    ensures FeedChar(pending, c) == Step([], pending + [c])
    ensures ByteLen(pending + [c]) == ByteLen(pending) + CharLen(c)
  {
    ByteLenConcat(pending, [c]);
    ByteLenOne(c);
  }

  lemma {:induction false} FeedFits(pending: string, slice: string)
    requires ByteLen(pending) + ByteLen(slice) < MAX_TEXT_BYTES
    ensures FeedText(pending, slice) == Step([], pending + slice)
    decreases |slice|
  {
    if slice == "" {
      assert pending + slice == pending;
    } else {
      var c, tail := slice[0], slice[1..];
      FeedCharFits(pending, c);
      FeedFits(pending + [c], tail);
      assert pending + [c] + tail == pending + slice;
    }
  }

  /** A slice that fits is buffered whole; it is emitted at once when it fills the buffer. */
  lemma FeedSlice(pending: string, remaining: string, k: nat)
    requires Room(pending) && 0 < k <= |remaining|
    requires ByteLen(pending) + ByteLen(remaining[..k]) <= MAX_TEXT_BYTES
    ensures ByteLen(remaining) == ByteLen(remaining[..k]) + ByteLen(remaining[k..])
    ensures ByteLen(pending + remaining[..k]) == ByteLen(pending) + ByteLen(remaining[..k])
    ensures FeedText(pending, remaining) ==
            var text := pending + remaining[..k];
            if ByteLen(text) == MAX_TEXT_BYTES then Prepend(FlushOut(text), FeedText("", remaining[k..]))
            else FeedText(text, remaining[k..])
  {
    hide Run;
    var most, last := remaining[..k - 1], remaining[k - 1];
    assert remaining[..k] == most + [last] && remaining == remaining[..k] + remaining[k..];
    ByteLenConcat(most, [last]);
    ByteLenConcat(remaining[..k], remaining[k..]);
    ByteLenConcat(pending, remaining[..k]);
    ByteLenOne(last);
    FeedFits(pending, most);
    ByteLenConcat(pending, most);
    RunConcat(FeedChar, pending, most, [last]);
    RunOne(FeedChar, pending + most, last);
    assert pending + most + [last] == pending + remaining[..k];
    RunConcat(FeedChar, pending, remaining[..k], remaining[k..]);
  }

  /** No boundary within the free space: the next character does not fit, so the buffer is flushed first. */
  lemma FirstCharDoesNotFit(pending: string, remaining: string, limit: nat)
    requires Room(pending) && remaining != ""
    requires limit == Min(ByteLen(remaining), MAX_TEXT_BYTES - ByteLen(pending))
    requires forall j | 0 < j <= limit :: !IsCharBoundary(remaining, j)
    ensures pending != "" && ByteLen(pending) > 0
    ensures FeedText(pending, remaining) == Prepend(FlushOut(pending), FeedText("", remaining))
  {
    hide Run, FeedChar, IsCharBoundary;
    var c := remaining[0];
    assert remaining[..1] == [c];
    ByteLenOne(c);
    PrefixIsBoundary(remaining, 1);
    assert CharLen(c) > limit;
    FlushThenChar(pending, c);
    RunCons(FeedChar, pending, remaining);
    RunCons(FeedChar, "", remaining);
  }

  lemma FlushThenChar(pending: string, c: char)
    requires ByteLen(pending) + CharLen(c) > MAX_TEXT_BYTES
    ensures FeedChar(pending, c) == Prepend(FlushOut(pending), FeedChar("", c))
  {
    assert "" + [c] == [c];
    ByteLenOne(c);
  }

  // ---- What batching means ----

  lemma FeedCharLossless(pending: string, c: char)
    ensures Atoms(FeedChar(pending, c).out) + TextAtoms(FeedChar(pending, c).state) == TextAtoms(pending) + [Ch(c)]
  {
    FlushAtoms(pending);
    FlushAtoms([c]);
    FlushAtoms(pending + [c]);
    assert TextAtoms(pending + [c]) == TextAtoms(pending) + [Ch(c)];
    AtomsConcat(FlushOut(pending), FlushOut([c]));
    assert [] + FlushOut(pending + [c]) == FlushOut(pending + [c]);
  }

  lemma Chain<T>(out1: seq<T>, state1: seq<T>, out2: seq<T>, state2: seq<T>, before: seq<T>, rest: seq<T>)
    requires out1 + state1 == before
    requires out2 + state2 == state1 + rest
    ensures out1 + out2 + state2 == before + rest
  {
    assert out1 + out2 + state2 == out1 + (out2 + state2) == out1 + (state1 + rest) == out1 + state1 + rest;
  }

  /** Nothing lost, nothing reordered: what is emitted, then the buffer, is the text that went in. */
  lemma {:induction false} FeedTextLossless(pending: string, t: string)
    ensures Atoms(FeedText(pending, t).out) + TextAtoms(FeedText(pending, t).state) == TextAtoms(pending) + TextAtoms(t)
    decreases |t|
  {
    if t != "" {
      var first := FeedChar(pending, t[0]);
      var rest := FeedText(first.state, t[1..]);
      FeedTextLossless(first.state, t[1..]);
      FeedCharLossless(pending, t[0]);
      AtomsConcat(first.out, rest.out);
      Chain(Atoms(first.out), TextAtoms(first.state), Atoms(rest.out), TextAtoms(rest.state),
            TextAtoms(pending) + [Ch(t[0])], TextAtoms(t[1..]));
      assert TextAtoms(t) == [Ch(t[0])] + TextAtoms(t[1..]);
      assert FeedText(pending, t) == Step(first.out + rest.out, rest.state);
    }
  }

  lemma FeedEventLossless(pending: string, e: Event)
    ensures Atoms(FeedEvent(pending, e).out) + TextAtoms(FeedEvent(pending, e).state) == TextAtoms(pending) + EventAtoms(e)
  {
    if e.TextDelta? {
      FeedTextLossless(pending, e.text);
    } else {
      FlushAtoms(pending);
      AtomsOne(e);
      AtomsConcat(FlushOut(pending), [e]);
    }
  }

  lemma {:induction false} FeedLossless(pending: string, evs: seq<Event>)
    ensures Atoms(Feed(pending, evs).out) + TextAtoms(Feed(pending, evs).state) == TextAtoms(pending) + Atoms(evs)
    decreases |evs|
  {
    if evs != [] {
      var first := FeedEvent(pending, evs[0]);
      var rest := Feed(first.state, evs[1..]);
      FeedLossless(first.state, evs[1..]);
      FeedEventLossless(pending, evs[0]);
      AtomsConcat(first.out, rest.out);
      Chain(Atoms(first.out), TextAtoms(first.state), Atoms(rest.out), TextAtoms(rest.state),
            TextAtoms(pending) + EventAtoms(evs[0]), Atoms(evs[1..]));
      assert Feed(pending, evs) == Step(first.out + rest.out, rest.state);
      assert TextAtoms(pending) + EventAtoms(evs[0]) + Atoms(evs[1..]) == TextAtoms(pending) + Atoms(evs);
    }
  }

  /** A batch differs from what went in only in where text is cut. */
  lemma BatchKeepsAtoms(evs: seq<Event>)
    ensures Atoms(Batch(evs)) == Atoms(evs)
  {
    var fed := Feed("", evs);
    FeedLossless("", evs);
    FlushAtoms(fed.state);
    AtomsConcat(fed.out, FlushOut(fed.state));
    assert TextAtoms("") + Atoms(evs) == Atoms(evs);
  }

  /** A text delta the batcher may emit. */
  predicate Bounded(e: Event) {
    e.TextDelta? ==> e.text != "" && |Encode(e.text)| <= 8192
  }

  lemma FeedCharBounded(pending: string, c: char)
    requires Room(pending)
    ensures Room(FeedChar(pending, c).state)
    ensures forall e | e in FeedChar(pending, c).out :: Bounded(e)
  {
    ByteLenOne(c);
    ByteLenConcat(pending, [c]);
  }

  lemma {:induction false} FeedTextBounded(pending: string, t: string)
    requires Room(pending)
    ensures Room(FeedText(pending, t).state)
    ensures forall e | e in FeedText(pending, t).out :: Bounded(e)
    decreases |t|
  {
    if t != "" {
      FeedCharBounded(pending, t[0]);
      FeedTextBounded(FeedChar(pending, t[0]).state, t[1..]);
    }
  }

  lemma {:induction false} FeedBounded(pending: string, evs: seq<Event>)
    requires Room(pending)
    ensures Room(Feed(pending, evs).state)
    ensures forall e | e in Feed(pending, evs).out :: Bounded(e)
    decreases |evs|
  {
    if evs != [] {
      if evs[0].TextDelta? { FeedTextBounded(pending, evs[0].text); }
      FeedBounded(FeedEvent(pending, evs[0]).state, evs[1..]);
    }
  }

  // ---- Pieces are as large as they can be ----

  /** Text b begins with a character that would not have fitted after a. */
  predicate Full(a: string, b: string) {
    b != "" && |Encode(a)| + |Encode([b[0]])| > 8192
  }

  /** No two deltas in a row could have had one more character in the first. */
  predicate Tight(evs: seq<Event>) {
    forall i | 0 <= i < |evs| - 1 && evs[i].TextDelta? && evs[i + 1].TextDelta? :: Full(evs[i].text, evs[i + 1].text)
  }

  /** What was emitted so far is tight, and stays so whatever is added to the buffer. */
  predicate TightSoFar(evs: seq<Event>, pending: string) {
    && Tight(evs) && Room(pending)
    && (evs != [] && evs[|evs| - 1].TextDelta? ==>
          if pending == "" then ByteLen(evs[|evs| - 1].text) == MAX_TEXT_BYTES else Full(evs[|evs| - 1].text, pending))
  }

  lemma TightFlush(evs: seq<Event>, pending: string)
    requires TightSoFar(evs, pending)
    ensures Tight(evs + FlushOut(pending))
  {
  }

  lemma TightChar(evs: seq<Event>, pending: string, c: char)
    requires TightSoFar(evs, pending)
    ensures TightSoFar(evs + FeedChar(pending, c).out, FeedChar(pending, c).state)
  {
    ByteLenOne(c);
    ByteLenConcat(pending, [c]);
    TightFlush(evs, pending);
    hide Encode, ByteLen;
    var text := if ByteLen(pending) + CharLen(c) <= MAX_TEXT_BYTES then pending + [c] else [c];
    var out := if ByteLen(pending) + CharLen(c) <= MAX_TEXT_BYTES then evs else evs + FlushOut(pending);
    assert TightText(out, text);
    if ByteLen(text) == MAX_TEXT_BYTES {
      assert evs + FeedChar(pending, c).out == out + [TextDelta(text)];
    } else {
      assert evs + FeedChar(pending, c).out == out;
    }
  }

  /** The next delta to be emitted begins a tight piece. */
  predicate TightText(evs: seq<Event>, text: string) {
    Tight(evs) && text != "" && (evs != [] && evs[|evs| - 1].TextDelta? ==> Full(evs[|evs| - 1].text, text))
  }

  lemma AppendTwice(a: seq<Event>, b: seq<Event>, c: seq<Event>)
    ensures a + b + c == a + (b + c)
  {
  }

  lemma {:induction false} TightFeedText(evs: seq<Event>, pending: string, t: string)
    requires TightSoFar(evs, pending)
    ensures TightSoFar(evs + FeedText(pending, t).out, FeedText(pending, t).state)
    decreases |t|
  {
    if t == "" {
      assert evs + [] == evs;
    } else {
      var first := FeedChar(pending, t[0]);
      TightChar(evs, pending, t[0]);
      RunCons(FeedChar, pending, t);
      hide TightSoFar, FeedChar, Run;
      TightFeedText(evs + first.out, first.state, t[1..]);
      AppendTwice(evs, first.out, FeedText(first.state, t[1..]).out);
    }
  }

  lemma {:induction false} TightFeed(evs: seq<Event>, pending: string, more: seq<Event>)
    requires TightSoFar(evs, pending)
    ensures TightSoFar(evs + Feed(pending, more).out, Feed(pending, more).state)
    decreases |more|
  {
    if more == [] {
      assert evs + [] == evs;
    } else {
      var first := FeedEvent(pending, more[0]);
      if more[0].TextDelta? {
        TightFeedText(evs, pending, more[0].text);
      } else {
        TightFlush(evs, pending);
        AppendTwice(evs, FlushOut(pending), [more[0]]);
      }
      RunCons(FeedEvent, pending, more);
      hide TightSoFar, FeedEvent, Run;
      TightFeed(evs + first.out, first.state, more[1..]);
      AppendTwice(evs, first.out, Feed(first.state, more[1..]).out);
    }
  }

  /** Every emitted delta is non-empty, within the byte bound, and as large as it can be; and merging the deltas restores what went in. */
  lemma BatchingIsSound(evs: seq<Event>)
    ensures forall e | e in Batch(evs) :: Bounded(e)
    ensures Tight(Batch(evs))
    ensures Merged(Batch(evs)) == Merged(evs)
  {
    TightFeed([], "", evs);
    assert [] + Feed("", evs).out == Feed("", evs).out;
    TightFlush(Feed("", evs).out, Feed("", evs).state);
    hide Tight, TightSoFar;
    FeedBounded("", evs);
    BatchKeepsAtoms(evs);
    SameMergedIffSameAtoms(Batch(evs), evs);
  }
}
