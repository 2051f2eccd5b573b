/** Tool calls stay bracketed through the whole relay, wherever its reads were cut. */
module RelayBracketing {
  import opened Common
  import opened Lists
  import opened Machines
  import opened RelayContents
  import opened SseLines
  import opened SseStream
  import opened SseTheorems
  import opened StreamEvents
  import opened TextLines
  import opened ToolBracketing
  import opened ToolCalls

  /** The same selection made on atoms. */
  function KeepAtom(id: string): Atom -> seq<Event> {
    (a: Atom) => match a
      case Ch(_) => []
      case Other(e) => Keep(id)(e)
  }

  lemma {:induction false} TextIsNoCall(t: string, id: string)
    ensures FlatMap(KeepAtom(id), TextAtoms(t)) == []
    decreases |t|
  {
    if t != "" {
      assert TextAtoms(t)[1..] == TextAtoms(t[1..]);
      TextIsNoCall(t[1..], id);
    }
  }

  lemma {:induction false} ProjectByAtoms(evs: seq<Event>, id: string)
    ensures Selected(KeepAtom(id), evs) == Project(evs, id)
  {
    if evs != [] {
      FlatMapConcat(KeepAtom(id), EventAtoms(evs[0]), Atoms(evs[1..]));
      ProjectByAtoms(evs[1..], id);
      if evs[0].TextDelta? { TextIsNoCall(evs[0].text, id); } else { FlatMapOne(KeepAtom(id), Other(evs[0])); }
    }
  }

  /** Whatever the reads, the relay publishes for each call id what the chunks taken in raise. */
  lemma RelayProjects(decode: Decoder, incoming: seq<Read>, id: string)
    requires AllText(incoming) && Relay(decode, [], "", incoming).state != Failed(LineBufferOverflow)
    ensures Project(Relay(decode, [], "", incoming).out, id) ==
            Project(Run(ChunkStep, [], ChunksOf(decode, CompleteLines(Joined(incoming)))).out, id)
  {
    hide Relay, Run, Project, CompleteLines, Joined, ChunksOf, Selected;
    assert Keep(id)(Done) == [] && KeepAtom(id)(Other(Done)) == [];
    RelaySelects(KeepAtom(id), decode, incoming);
    ProjectByAtoms(Relay(decode, [], "", incoming).out, id);
    ProjectByAtoms(Run(ChunkStep, [], ChunksOf(decode, CompleteLines(Joined(incoming)))).out, id);
  }

  /** A stream whose data lines are a well-formed turn: in what the relay publishes every call is started, fed its
      arguments in arrival order, and ended once, and no other call id occurs. */
  lemma RelayIsBracketed(decode: Decoder, incoming: seq<Read>, chunks: seq<Chunk>, last: Chunk, rest: seq<Chunk>)
    requires AllText(incoming) && Relay(decode, [], "", incoming).state != Failed(LineBufferOverflow)
    requires ChunksOf(decode, CompleteLines(Joined(incoming))) == chunks + [last] + rest
    requires (forall c | c in chunks :: !Finishes(c)) && Finishes(last) && forall c | c in rest :: ChunkCalls(c) == []
    requires WellFormed(TurnCalls(chunks + [last]))
    ensures var out, ds := Relay(decode, [], "", incoming).out, TurnCalls(chunks + [last]);
            && (forall k | k in Introduced(ds) ::
                  Project(out, Introduced(ds)[k].id) == Opened(ds, k, Introduced(ds)[k]) + [ToolCallEnd(Introduced(ds)[k].id)])
            && (forall id | id !in IntroducedIds(ds) :: Project(out, id) == [])
  {
    hide *;
    TurnIsBracketed(chunks, last, rest);
    forall id ensures Project(Relay(decode, [], "", incoming).out, id) == Project(Run(ChunkStep, [], chunks + [last] + rest).out, id) {
      RelayProjects(decode, incoming, id);
    }
  }
}
