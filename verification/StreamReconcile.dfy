/** Per-session accumulation of streamed chat text, so that a reply is rendered once. */
module StreamReconcile {
  import opened Common

  const CHAT_RESPONSE_TOPIC := "agent.v1.response"
  const CHAT_DELTA_TOPIC := "agent.v1.stream.delta"
  const MAX_STREAM_SESSIONS := 64

  function SessionOf(payload: Json): Option<string> {
    payload.GetStr("session_id")
  }

  function TextOf(payload: Json): Option<string> {
    payload.GetStr("text")
  }

  /** A delta that is recorded: it names a session and carries text. */
  predicate IsDelta(topic: string, payload: Json) {
    topic == CHAT_DELTA_TOPIC && SessionOf(payload).Some? && TextOf(payload).Some?
  }

  predicate IsFinal(topic: string, payload: Json) {
    topic == CHAT_RESPONSE_TOPIC && SessionOf(payload).Some? && payload.GetBool("is_final") == Some(true)
  }

  /** What is left to send of a reply whose beginning was streamed. */
  function Remainder(full: string, streamed: string): string {
    if streamed <= full then full[|streamed|..] else ""
  }

  function WithText(payload: Json, text: string): Json {
    if payload.Obj? then Obj(payload.fields["text" := Str(text)]) else payload
  }

  /** The entry dropped to make room, any present one, and only when a new session meets a full map. */
  predicate VictimOk(topic: string, payload: Json, accum: map<string, string>, victim: Option<string>) {
    if IsDelta(topic, payload) && |accum| >= MAX_STREAM_SESSIONS && SessionOf(payload).value !in accum
    then victim.Some? && victim.value in accum
    else victim == None
  }

  function Drop(accum: map<string, string>, victim: Option<string>): map<string, string> {
    if victim.Some? then accum - {victim.value} else accum
  }

  /** The rewritten payload and the next accumulator. */
  function Reconciled(topic: string, payload: Json, accum: map<string, string>, victim: Option<string>): (Json, map<string, string>) {
    if IsDelta(topic, payload) then
      var session, room := SessionOf(payload).value, Drop(accum, victim);
      var before := if session in room then room[session] else "";
      (payload, room[session := before + TextOf(payload).value])
    else if IsFinal(topic, payload) && SessionOf(payload).value in accum then
      var session := SessionOf(payload).value;
      (WithText(payload, Remainder(TextOf(payload).GetOr(""), accum[session])), accum - {session})
    else (payload, accum)
  }

  // ---- Runs: any interleaving of messages, with whatever evictions happened ----

  datatype Message = Message(topic: string, payload: Json, victim: Option<string>)

  function Accum(h: seq<Message>): map<string, string> {
    if h == [] then map[]
    else var m := h[|h| - 1]; Reconciled(m.topic, m.payload, Accum(h[..|h| - 1]), m.victim).1
  }

  /** The payload the last message of `h` is forwarded with. */
  function Forwarded(h: seq<Message>): Json
    requires h != []
  {
    var m := h[|h| - 1];
    Reconciled(m.topic, m.payload, Accum(h[..|h| - 1]), m.victim).0
  }

  predicate Valid(h: seq<Message>) {
    h == [] || (Valid(h[..|h| - 1]) && var m := h[|h| - 1]; VictimOk(m.topic, m.payload, Accum(h[..|h| - 1]), m.victim))
  }

  /** The text streamed for session `s` since its last final response or eviction: None if no delta was seen. */
  function Streamed(h: seq<Message>, s: string): Option<string> {
    if h == [] then None
    else
      var before, m := Streamed(h[..|h| - 1], s), h[|h| - 1];
      if IsDelta(m.topic, m.payload) && SessionOf(m.payload) == Some(s) then Some(before.GetOr("") + TextOf(m.payload).value)
      else if IsFinal(m.topic, m.payload) && SessionOf(m.payload) == Some(s) then None
      else if m.victim == Some(s) then None
      else before
  }

  /** The accumulator the proxy keeps for its lifetime. */
  class StreamAccumulator {
    var accum: map<string, string>
    ghost var history: seq<Message>

    ghost predicate Consistent()
      reads this
    {
      Valid(history) && accum == Accum(history)
    }

    constructor ()
      ensures Consistent() && history == []
    {
      accum, history := map[], [];
    }

    method Reconcile(topic: string, payload: Json) returns (rewritten: Json, ghost victim: Option<string>)
      requires Consistent()
      modifies this
      ensures VictimOk(topic, payload, old(accum), victim)
      ensures (rewritten, accum) == Reconciled(topic, payload, old(accum), victim)
      ensures history == old(history) + [Message(topic, payload, victim)]
      ensures Consistent() && rewritten == Forwarded(history)
    {
      hide Valid, Accum, Forwarded, Reconciled, VictimOk;
      rewritten, victim := Update(topic, payload);
      OneMore(history, Message(topic, payload, victim));
      history := history + [Message(topic, payload, victim)];
    }

    method Update(topic: string, payload: Json) returns (rewritten: Json, ghost victim: Option<string>)
      modifies this`accum
      ensures VictimOk(topic, payload, old(accum), victim)
      ensures (rewritten, accum) == Reconciled(topic, payload, old(accum), victim)
    {
      rewritten, victim := payload, None;
      var session := SessionOf(payload);
      if session == None { return; }
      if topic == CHAT_DELTA_TOPIC {
        var text := TextOf(payload);
        if text.Some? {
          if |accum| >= MAX_STREAM_SESSIONS && session.value !in accum {
            assert accum.Keys != {};
            var stale :| stale in accum.Keys;
            victim := Some(stale);
            accum := accum - {stale};
          }
          var before := if session.value in accum then accum[session.value] else "";
          accum := accum[session.value := before + text.value];
        }
        return;
      }
      if topic == CHAT_RESPONSE_TOPIC && payload.GetBool("is_final").GetOr(false) && session.value in accum {
        var streamed := accum[session.value];
        accum := accum - {session.value};
        rewritten := WithText(payload, Remainder(TextOf(payload).GetOr(""), streamed));
      }
    }
  }

  lemma OneMore(h: seq<Message>, m: Message)
    requires Valid(h) && VictimOk(m.topic, m.payload, Accum(h), m.victim)
    ensures Valid(h + [m])
    ensures (Forwarded(h + [m]), Accum(h + [m])) == Reconciled(m.topic, m.payload, Accum(h), m.victim)
  {
    assert (h + [m])[..|h + [m]| - 1] == h;
    hide Reconciled, VictimOk;
  }

  /** The accumulator holds exactly the sessions with streamed text, each with the concatenation of its deltas, and never too many. */
  lemma {:induction false} AccumIsStreamed(h: seq<Message>)
    requires Valid(h)
    ensures |Accum(h)| <= 64
    ensures forall s :: (s in Accum(h) <==> Streamed(h, s).Some?) && (s in Accum(h) ==> Streamed(h, s) == Some(Accum(h)[s]))
    decreases |h|
  {
    if h != [] {
      var init, m := h[..|h| - 1], h[|h| - 1];
      AccumIsStreamed(init);
      AccumBounded(m, Accum(init));
      NotBoth(m.topic, m.payload);
      hide IsDelta, IsFinal, SessionOf, TextOf;
    }
  }

  lemma NotBoth(topic: string, payload: Json)
    ensures !(IsDelta(topic, payload) && IsFinal(topic, payload))
  {
    assert CHAT_DELTA_TOPIC[9] != CHAT_RESPONSE_TOPIC[9];
  }

  lemma RoomMade(accum: map<string, string>, victim: Option<string>, session: string, text: string)
    requires |accum| <= MAX_STREAM_SESSIONS
    requires if victim.Some? then victim.value in accum else |accum| < MAX_STREAM_SESSIONS || session in accum
    ensures |Drop(accum, victim)[session := text]| <= MAX_STREAM_SESSIONS
  {
    var room := Drop(accum, victim);
    if victim.Some? {
      assert accum.Keys == room.Keys + {victim.value};
      assert |room.Keys| == |accum.Keys| - 1;
    }
    assert room[session := text].Keys == room.Keys + {session};
  }

  lemma Shrinks(accum: map<string, string>, session: string)
    ensures |accum - {session}| <= |accum|
  {
    assert accum.Keys == (accum - {session}).Keys + (if session in accum then {session} else {});
  }

  lemma AccumBounded(m: Message, accum: map<string, string>)
    requires VictimOk(m.topic, m.payload, accum, m.victim) && |accum| <= MAX_STREAM_SESSIONS
    ensures |Reconciled(m.topic, m.payload, accum, m.victim).1| <= MAX_STREAM_SESSIONS
  {
    if IsDelta(m.topic, m.payload) {
      var session := SessionOf(m.payload).value;
      var text := Reconciled(m.topic, m.payload, accum, m.victim).1[session];
      RoomMade(accum, m.victim, session, text);
    } else if IsFinal(m.topic, m.payload) {
      Shrinks(accum, SessionOf(m.payload).value);
    }
  }

  /** The sessions that ever streamed. */
  function Streaming(h: seq<Message>): set<string> {
    if h == [] then {}
    else
      var before, m := Streaming(h[..|h| - 1]), h[|h| - 1];
      if IsDelta(m.topic, m.payload) then before + {SessionOf(m.payload).value} else before
  }

  /** With at most 64 streaming sessions nothing is ever evicted. */
  lemma {:induction false} FewSessionsNeverEvict(h: seq<Message>)
    requires Valid(h) && |Streaming(h)| <= 64
    ensures Accum(h).Keys <= Streaming(h)
    ensures forall m | m in h :: m.victim == None
    decreases |h|
  {
    if h != [] {
      var init, m := h[..|h| - 1], h[|h| - 1];
      Smaller(Streaming(init), Streaming(h));
      FewSessionsNeverEvict(init);
      NoVictimWithRoom(m, Accum(init), Streaming(init));
      AccumGrowsBy(m, Accum(init));
      hide Valid, VictimOk, Reconciled, IsDelta, SessionOf;
      forall x | x in h ensures x.victim == None { assert x in init || x == m; }
    }
  }

  /** A new session that meets a full map is one more than 64. */
  lemma NoVictimWithRoom(m: Message, accum: map<string, string>, streaming: set<string>)
    requires VictimOk(m.topic, m.payload, accum, m.victim) && accum.Keys <= streaming
    requires IsDelta(m.topic, m.payload) ==> |streaming + {SessionOf(m.payload).value}| <= MAX_STREAM_SESSIONS
    ensures m.victim == None
  {
    if m.victim.Some? {
      var session := SessionOf(m.payload).value;
      hide IsDelta, SessionOf;
      Smaller(accum.Keys + {session}, streaming + {session});
      assert false;
    }
  }

  lemma AccumGrowsBy(m: Message, accum: map<string, string>)
    ensures var next := Reconciled(m.topic, m.payload, accum, m.victim).1;
            next.Keys <= accum.Keys + if IsDelta(m.topic, m.payload) then {SessionOf(m.payload).value} else {}
  {
  }

  lemma {:induction false} Smaller(a: set<string>, b: set<string>)
    requires a <= b
    ensures |a| <= |b|
    decreases |a|
  {
    if a != {} {
      var x :| x in a;
      Smaller(a - {x}, b - {x});
    }
  }

  /** The same messages with a map that has no cap. */
  function Unevicted(h: seq<Message>): seq<Message> {
    seq(|h|, i requires 0 <= i < |h| => h[i].(victim := None))
  }

  lemma {:induction false} SameStreamed(h: seq<Message>, s: string)
    requires forall m | m in h :: m.victim != Some(s)
    ensures Streamed(h, s) == Streamed(Unevicted(h), s)
    decreases |h|
  {
    if h != [] {
      assert Unevicted(h)[..|h| - 1] == Unevicted(h[..|h| - 1]);
      assert h[|h| - 1] in h;
      SameStreamed(h[..|h| - 1], s);
    }
  }

  function Entry(accum: map<string, string>, s: string): Option<string> {
    if s in accum then Some(accum[s]) else None
  }

  lemma {:induction false} UncappedAccum(h: seq<Message>, s: string)
    requires forall m | m in h :: m.victim == None
    ensures Entry(Accum(h), s) == Streamed(h, s)
    decreases |h|
  {
    if h != [] {
      var init, m := h[..|h| - 1], h[|h| - 1];
      assert m in h && forall x | x in init :: x in h;
      UncappedAccum(init, s);
      NotBoth(m.topic, m.payload);
      hide IsDelta, IsFinal, SessionOf, TextOf;
    }
  }

  lemma CappedAccum(h: seq<Message>, s: string)
    requires Valid(h)
    ensures Entry(Accum(h), s) == Streamed(h, s)
  {
    AccumIsStreamed(h);
    hide Accum, Streamed, Valid;
  }

  /** What a message is forwarded with depends on the map only through its own session's entry. */
  lemma OwnEntryDecides(topic: string, payload: Json, a: map<string, string>, b: map<string, string>, v: Option<string>, w: Option<string>)
    requires SessionOf(payload).Some? ==> Entry(a, SessionOf(payload).value) == Entry(b, SessionOf(payload).value)
    ensures Reconciled(topic, payload, a, v).0 == Reconciled(topic, payload, b, w).0
  {
  }

  /** Evictions of other sessions are invisible to a session: its entry in the map is the one a map without a cap would
      hold, and its next message is forwarded with the same body. */
  lemma EvictionIsLocal(h: seq<Message>, m: Message, s: string)
    requires Valid(h + [m]) && SessionOf(m.payload) == Some(s) && forall x | x in h :: x.victim != Some(s)
    ensures Entry(Accum(h), s) == Entry(Accum(Unevicted(h)), s)
    ensures Forwarded(h + [m]) == Forwarded(Unevicted(h + [m]))
  {
    assert (h + [m])[..|h + [m]| - 1] == h && Unevicted(h + [m])[..|h + [m]| - 1] == Unevicted(h);
    SameStreamed(h, s);
    CappedAccum(h, s);
    UncappedAccum(Unevicted(h), s);
    OwnEntryDecides(m.topic, m.payload, Accum(h), Accum(Unevicted(h)), m.victim, None);
    hide Accum, Streamed, Valid, Reconciled;
  }

  predicate IsChat(topic: string) {
    topic == CHAT_DELTA_TOPIC || topic == CHAT_RESPONSE_TOPIC
  }

  // ---- The same in the words of the protocol ----

  /** The payload says `value` under `key`. */
  predicate Says(payload: Json, key: string, value: Json) {
    payload.Obj? && key in payload.fields && payload.fields[key] == value
  }

  /** A piece of a chat reply: text for a session on the delta topic. */
  predicate Piece(m: Message, s: string, text: string) {
    m.topic == "agent.v1.stream.delta" && Says(m.payload, "session_id", Str(s)) && Says(m.payload, "text", Str(text))
  }

  /** The whole of a chat reply: a response for a session, marked final. */
  predicate Whole(m: Message, s: string) {
    m.topic == "agent.v1.response" && Says(m.payload, "session_id", Str(s)) && Says(m.payload, "is_final", Bool(true))
  }

  lemma PiecesAndWholes(m: Message, s: string, text: string)
    ensures IsDelta(m.topic, m.payload) && SessionOf(m.payload) == Some(s) && TextOf(m.payload) == Some(text) <==> Piece(m, s, text)
    ensures IsFinal(m.topic, m.payload) && SessionOf(m.payload) == Some(s) <==> Whole(m, s)
    ensures IsChat(m.topic) <==> m.topic in {"agent.v1.response", "agent.v1.stream.delta"}
  {
  }

  /** A message is forwarded as it is, unless it is a whole reply whose beginning was streamed: then the text alone is
      replaced, by what of it goes beyond the streamed text, and every other field is kept. */
  lemma ForwardedExactly(h: seq<Message>, m: Message)
    requires Valid(h + [m])
    ensures (forall s :: Whole(m, s) ==> Streamed(h, s).None?) ==> Forwarded(h + [m]) == m.payload
    ensures forall s | Whole(m, s) && Streamed(h, s).Some? ::
              var full := if "text" in m.payload.fields && m.payload.fields["text"].Str? then m.payload.fields["text"].s else "";
              var streamed := Streamed(h, s).value;
              Forwarded(h + [m]) == Obj(m.payload.fields["text" := Str(if streamed <= full then full[|streamed|..] else "")])
  {
    assert (h + [m])[..|h + [m]| - 1] == h;
    AccumIsStreamed(h);
    var s := SessionOf(m.payload).GetOr("");
    PiecesAndWholes(m, s, "");
    NotBoth(m.topic, m.payload);
    forall t | Whole(m, t) ensures t == s {}
    hide Accum, Streamed, Valid, IsDelta, IsFinal;
  }

  /** A piece is added to the text streamed for its session; a whole reply ends that text, as does an eviction. */
  lemma StreamedGrows(h: seq<Message>, m: Message, s: string)
    ensures forall text | Piece(m, s, text) :: Streamed(h + [m], s) == Some((if Streamed(h, s).Some? then Streamed(h, s).value else "") + text)
    ensures Whole(m, s) ==> Streamed(h + [m], s) == None
    ensures (forall text :: !Piece(m, s, text)) && m.victim != Some(s) && !Whole(m, s) ==> Streamed(h + [m], s) == Streamed(h, s)
  {
    assert (h + [m])[..|h + [m]| - 1] == h;
    var text := TextOf(m.payload).GetOr("");
    PiecesAndWholes(m, s, text);
    NotBoth(m.topic, m.payload);
    forall t | Piece(m, s, t) ensures t == text {}
    hide IsDelta, IsFinal;
  }

  // ---- What the user sees ----

  /** The display buffer of session `s`: forwarded chat text, appended, and flushed by a final response. */
  function Shown(h: seq<Message>, s: string): string {
    if h == [] then ""
    else
      var before, m := Shown(h[..|h| - 1], s), h[|h| - 1];
      if !IsChat(m.topic) || SessionOf(m.payload) != Some(s) then before
      else if IsFinal(m.topic, m.payload) then ""
      else before + TextOf(Forwarded(h)).GetOr("")
  }

  /** The chat text sent for `s` since its last final response. */
  function Said(h: seq<Message>, s: string): string {
    if h == [] then ""
    else
      var before, m := Said(h[..|h| - 1], s), h[|h| - 1];
      if !IsChat(m.topic) || SessionOf(m.payload) != Some(s) then before
      else if IsFinal(m.topic, m.payload) then ""
      else before + TextOf(m.payload).GetOr("")
  }

  /** Since the last final response of `s`, some text of it came in a response that was not final, or was held in its
      entry when that was evicted. */
  predicate Lost(h: seq<Message>, s: string) {
    h != [] &&
    var before, m := h[..|h| - 1], h[|h| - 1];
    if IsFinal(m.topic, m.payload) && SessionOf(m.payload) == Some(s) then false
    else
      || Lost(before, s)
      || (m.victim == Some(s) && Streamed(before, s).GetOr("") != "")
      || (m.topic == CHAT_RESPONSE_TOPIC && SessionOf(m.payload) == Some(s) && TextOf(m.payload).GetOr("") != "")
  }

  /** Until the final response all chat text is shown as it was sent. */
  lemma {:induction false} ShownIsSaid(h: seq<Message>, s: string)
    requires Valid(h)
    ensures Shown(h, s) == Said(h, s)
    decreases |h|
  {
    if h != [] { ShownIsSaid(h[..|h| - 1], s); }
  }

  /** The entry holds all that was said, or, once something is lost, strictly less. */
  lemma {:induction false} SaidOrLost(h: seq<Message>, s: string)
    requires Valid(h)
    ensures if Lost(h, s) then |Streamed(h, s).GetOr("")| < |Said(h, s)| else Streamed(h, s).GetOr("") == Said(h, s)
    decreases |h|
  {
    if h != [] {
      var init, m := h[..|h| - 1], h[|h| - 1];
      SaidOrLost(init, s);
      AccumIsStreamed(init);
      NotBoth(m.topic, m.payload);
      hide Accum, IsFinal;
    }
  }

  /** What is on display when the terminal response `m` of session `s` is flushed. */
  function Rendered(h: seq<Message>, m: Message, s: string): string {
    Shown(h, s) + TextOf(Forwarded(h + [m])).GetOr("")
  }

  /** The body a terminal response is forwarded with. */
  lemma TerminalBody(h: seq<Message>, m: Message, s: string)
    requires Valid(h + [m]) && IsFinal(m.topic, m.payload) && SessionOf(m.payload) == Some(s)
    ensures TextOf(Forwarded(h + [m])).GetOr("") ==
            var full := TextOf(m.payload).GetOr("");
            if Streamed(h, s).Some? then Remainder(full, Streamed(h, s).value) else full
  {
    assert (h + [m])[..|h + [m]| - 1] == h;
    AccumIsStreamed(h);
  }

  /** What a turn renders: all that was said, then what of the full reply goes beyond the streamed text. */
  lemma RenderedExactly(h: seq<Message>, m: Message, s: string)
    requires Valid(h + [m]) && IsFinal(m.topic, m.payload) && SessionOf(m.payload) == Some(s)
    ensures var full, streamed := TextOf(m.payload).GetOr(""), Streamed(h, s).GetOr("");
            Rendered(h, m, s) == Said(h, s) + if streamed <= full then full[|streamed|..] else ""
  {
    assert (h + [m])[..|h + [m]| - 1] == h;
    hide Shown, Said, Streamed, Forwarded, IsFinal, Valid, TextOf, SessionOf;
    TerminalBody(h, m, s);
    ShownIsSaid(h, s);
  }

  /** A turn that lost nothing renders the full reply whenever the streamed text is a prefix of it, and the streamed
      text otherwise. */
  lemma RenderedOnce(h: seq<Message>, m: Message, s: string)
    requires Valid(h + [m]) && !Lost(h, s)
    requires IsFinal(m.topic, m.payload) && SessionOf(m.payload) == Some(s)
    ensures var full, streamed := TextOf(m.payload).GetOr(""), Streamed(h, s).GetOr("");
            Rendered(h, m, s) == if streamed <= full then full else streamed
  {
    assert (h + [m])[..|h + [m]| - 1] == h;
    hide Shown, Said, Streamed, Forwarded, IsFinal, TextOf, SessionOf, Lost, Rendered;
    RenderedExactly(h, m, s);
    SaidOrLost(h, s);
    hide Valid;
    Completed(Said(h, s), Streamed(h, s).GetOr(""), TextOf(m.payload).GetOr(""));
  }

  /** In any turn, the reply appears exactly once if and only if nothing was lost, or, where the streamed text is no
      prefix of the reply, what was said is the reply. */
  lemma ExactlyOnceIff(h: seq<Message>, m: Message, s: string)
    requires Valid(h + [m]) && IsFinal(m.topic, m.payload) && SessionOf(m.payload) == Some(s)
    ensures var full := TextOf(m.payload).GetOr("");
            Rendered(h, m, s) == full <==>
            if Streamed(h, s).GetOr("") <= full then !Lost(h, s) else Said(h, s) == full
  {
    assert (h + [m])[..|h + [m]| - 1] == h;
    hide Shown, Said, Streamed, Forwarded, IsFinal, TextOf, SessionOf, Lost, Rendered;
    RenderedExactly(h, m, s);
    SaidOrLost(h, s);
    hide Valid;
    Completed(Said(h, s), Streamed(h, s).GetOr(""), TextOf(m.payload).GetOr(""));
  }

  /** Text completed by what of `full` goes beyond `streamed`. */
  lemma Completed(said: string, streamed: string, full: string)
    ensures streamed <= full ==> (said + full[|streamed|..] == full <==> said == streamed)
    ensures said + "" == said
  {
    if streamed <= full {
      var rest := full[|streamed|..];
      assert full == streamed + rest;
      SameSuffix(said, streamed, rest);
    }
  }

  lemma SameSuffix(a: string, b: string, suffix: string)
    ensures a + suffix == b + suffix <==> a == b
  {
    if a + suffix == b + suffix {
      assert |a| == |b|;
      assert a == (a + suffix)[..|a|] && b == (b + suffix)[..|b|];
    }
  }

  /** A response that is not final but carries text is shown and not accumulated, so its turn shows it twice. */
  lemma NonFinalTextRendersTwice(s: string)
    ensures var part := Message(CHAT_RESPONSE_TOPIC, Obj(map["session_id" := Str(s), "text" := Str("Hi")]), None);
            var last := Message(CHAT_RESPONSE_TOPIC, Obj(map["session_id" := Str(s), "text" := Str("Hi"), "is_final" := Bool(true)]), None);
            Valid([part, last]) && Rendered([part], last, s) == "HiHi"
  {
    var part := Message(CHAT_RESPONSE_TOPIC, Obj(map["session_id" := Str(s), "text" := Str("Hi")]), None);
    var last := Message(CHAT_RESPONSE_TOPIC, Obj(map["session_id" := Str(s), "text" := Str("Hi"), "is_final" := Bool(true)]), None);
    assert [part, last][..1] == [part] && [part] + [last] == [part, last] && [part][..0] == [];
    assert TextOf(part.payload) == TextOf(last.payload) == Some("Hi");
    assert !IsFinal(part.topic, part.payload) && Forwarded([part]) == part.payload;
    assert Shown([part], s) == "" + "Hi" == "Hi";
    assert Forwarded([part, last]) == last.payload;
  }
}
