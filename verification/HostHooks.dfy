/** Request shapes of the host-hook ingress. */
module HookShapes {
  import opened Common

  const TOKEN_MIN_BYTES := 32
  const TOKEN_MAX_BYTES := 128

  predicate IsHost(host: string) {
    host == "codex" || host == "claude" || host == "grok"
  }

  predicate IsLowerHex(s: string, len: nat) {
    |s| == len && forall c | c in s :: '0' <= c <= '9' || 'a' <= c <= 'f'
  }

  function TokenKey(host: string, session: string): string {
    "oracle.hook_token." + host + "." + session
  }

  function DeliveryId(route: string, correlation: string): string {
    route + "-" + correlation
  }

  /** The delivery checks, in order; None when all pass. */
  function DeliveryError(session: string, correlation: string, route: string, delivery: string): Option<string> {
    if !IsSegment(session, 128) || !IsSegment(delivery, 128) then Some("invalid_segment")
    else if !IsLowerHex(correlation, 32) || !IsLowerHex(route, 64) then Some("invalid_route")
    else if delivery != DeliveryId(route, correlation) then Some("delivery_mismatch")
    else None
  }

  predicate CanRegister(event: string) {
    event == "session_start" || event == "user_prompt_submit"
  }

  /** Only an explicit end of session retires a route; older adapters name it by the source event. */
  predicate RetiresRoute(canonicalHook: Option<string>, event: Option<string>) {
    match canonicalHook
    case Some(hook) => hook == "session_end"
    case None => event == Some("session_end")
  }

  predicate NoDot(s: string) {
    '.' !in s
  }

  function FirstDot(s: string): (n: nat)
    ensures n <= |s|
  {
    if s == "" || s[0] == '.' then 0 else 1 + FirstDot(s[1..])
  }

  lemma {:induction false} FirstDotAfter(a: string, x: string)
    requires NoDot(a)
    ensures FirstDot(a + "." + x) == |a|
  {
    if a != "" {
      FirstDotAfter(a[1..], x);
      assert (a + "." + x)[1..] == a[1..] + "." + x;
    }
  }

  /** A string with a dot is cut at its first dot in one way only. */
  lemma CutAtDot(a: string, x: string, b: string, y: string)
    requires NoDot(a) && NoDot(b)
    requires a + "." + x == b + "." + y
    ensures a == b && x == y
  {
    FirstDotAfter(a, x);
    FirstDotAfter(b, y);
    assert a == (a + "." + x)[..|a|] && b == (b + "." + y)[..|a|];
    assert x == (a + "." + x)[|a| + 1..] && y == (b + "." + y)[|a| + 1..];
  }

  /** Keys of distinct (host, session) pairs differ. */
  lemma KeysNeverCollide(host1: string, session1: string, host2: string, session2: string)
    requires IsHost(host1) && IsHost(host2)
    requires TokenKey(host1, session1) == TokenKey(host2, session2)
    ensures host1 == host2 && session1 == session2
  {
    var prefix := "oracle.hook_token.";
    var n := |prefix|;
    assert TokenKey(host1, session1)[n..] == host1 + "." + session1;
    assert TokenKey(host2, session2)[n..] == host2 + "." + session2;
    CutAtDot(host1, session1, host2, session2);
  }

  /** A delivery is accepted exactly when session, correlation and route are well formed and the id is theirs; the
      check that the id is itself a segment adds nothing. */
  lemma DeliveryAcceptedIff(session: string, correlation: string, route: string, delivery: string)
    ensures DeliveryError(session, correlation, route, delivery) == None <==>
            IsSegment(session, 128) && IsLowerHex(correlation, 32) && IsLowerHex(route, 64) && delivery == DeliveryId(route, correlation)
  {
    if IsLowerHex(correlation, 32) && IsLowerHex(route, 64) && delivery == DeliveryId(route, correlation) {
      assert |delivery| == 97;
      forall c | c in delivery ensures IsAlphanumeric(c) || c == '-' {
        assert c in route || c == '-' || c in correlation;
      }
    }
  }

  /** An accepted delivery id fixes the route and the correlation, and its length needs no separate check. */
  lemma DeliveryDetermines(session: string, correlation: string, route: string, delivery: string, correlation2: string, route2: string)
    requires DeliveryError(session, correlation, route, delivery) == None
    requires DeliveryError(session, correlation2, route2, delivery) == None
    ensures correlation == correlation2 && route == route2 && |delivery| == 97
  {
    assert route == delivery[..64] && route2 == delivery[..64];
    assert correlation == delivery[65..] && correlation2 == delivery[65..];
  }
}

/** Token registration over a shared key-value store, with handlers interleaved at every store operation. */
module HookTokens {
  import opened Common
  import opened HookShapes

  type Token = seq<bv8>

  /** A hash of host, session and token; nothing is assumed of it. */
  type RouteHash = (string, string, Token) -> string

  /** A handler between two store operations. Auth authenticates a hook, Relay answers one. */
  datatype Handler =
    | AuthGet(key: string, token: Token, event: string)
    | AuthCas(key: string, token: Token)
    | AuthReget(key: string, token: Token)
    | RelayGet(key: string, host: string, session: string, route: string, retires: bool)
    | RelayDelete(key: string, checked: Token)
    | Finished

  /** Store operations as they took effect. Matched and Registered are the successful authentications. */
  datatype Op =
    | Missed(key: string)
    | Matched(key: string, token: Token)
    | Mismatched(key: string, token: Token)
    | Registered(key: string, token: Token)
    | CasLost(key: string, token: Token)
    | RouteChecked(key: string, token: Token)
    | RouteRefused(key: string)
    | Deleted(key: string)

  /** Which handler took a step, and what it was when it did. */
  datatype Act = Act(pid: nat, actor: Handler)

  /** The store, the handlers, and a log of the operations with, side by side, whose steps they were. */
  datatype System = System(kv: map<string, Token>, handlers: map<nat, Handler>, log: seq<Op>, acts: seq<Act>)

  /** What one handler does next: the store afterwards, the handler afterwards, and the operation to log. */
  function Advance(hash: RouteHash, kv: map<string, Token>, h: Handler): (map<string, Token>, Handler, Op)
    requires !h.Finished?
  {
    match h
    case AuthGet(key, token, event) =>
      if key in kv then (kv, Finished, if kv[key] == token then Matched(key, token) else Mismatched(key, token))
      else (kv, if CanRegister(event) then AuthCas(key, token) else Finished, Missed(key))
    case AuthCas(key, token) =>
      if key in kv then (kv, AuthReget(key, token), CasLost(key, token))
      else (kv[key := token], Finished, Registered(key, token))
    case AuthReget(key, token) =>
      if key !in kv then (kv, Finished, Missed(key))
      else (kv, Finished, if kv[key] == token then Matched(key, token) else Mismatched(key, token))
    case RelayGet(key, host, session, route, retires) =>
      if key !in kv then (kv, Finished, Missed(key))
      else if hash(host, session, kv[key]) != route then (kv, Finished, RouteRefused(key))
      else (kv, if retires then RelayDelete(key, kv[key]) else Finished, RouteChecked(key, kv[key]))
    case RelayDelete(key, _) => (kv - {key}, Finished, Deleted(key))
  }

  /** A schedule picks who acts next; `Fails` is a handler whose store operation errors, which ends it. */
  datatype Action = Acts(pid: nat) | Fails(pid: nat)

  function Perform(hash: RouteHash, s: System, a: Action): System {
    if a.pid !in s.handlers || s.handlers[a.pid].Finished? then s
    else if a.Fails? then s.(handlers := s.handlers[a.pid := Finished])
    else
      var (kv, h, op) := Advance(hash, s.kv, s.handlers[a.pid]);
      System(kv, s.handlers[a.pid := h], s.log + [op], s.acts + [Act(a.pid, s.handlers[a.pid])])
  }

  function Run(hash: RouteHash, s: System, schedule: seq<Action>): System {
    if schedule == [] then s
    else Perform(hash, Run(hash, s, schedule[..|schedule| - 1]), schedule[|schedule| - 1])
  }

  /** The token a key holds, by the log alone. */
  function Holder(kv0: map<string, Token>, log: seq<Op>, key: string): Option<Token> {
    if log == [] then if key in kv0 then Some(kv0[key]) else None
    else
      var op := log[|log| - 1];
      if op == Deleted(key) then None
      else if op.Registered? && op.key == key then Some(op.token)
      else Holder(kv0, log[..|log| - 1], key)
  }

  /** What each operation says about the holder at that moment. */
  predicate Truthful(holder: Option<Token>, op: Op) {
    match op
    case Missed(_) => holder == None
    case Matched(_, token) => holder == Some(token)
    case Mismatched(_, token) => holder.Some? && holder != Some(token)
    case Registered(_, _) => holder == None
    case CasLost(_, _) => holder.Some?
    case RouteChecked(_, token) => holder == Some(token)
    case RouteRefused(_) => holder.Some?
    case Deleted(_) => true
  }

  ghost predicate Consistent(kv0: map<string, Token>, kv: map<string, Token>, log: seq<Op>) {
    && (forall key :: Holder(kv0, log, key) == Lookup(kv, key))
    && (forall n | 0 <= n < |log| :: Truthful(Holder(kv0, log[..n], log[n].key), log[n]))
  }

  lemma {:induction false} RunConsistent(hash: RouteHash, s: System, schedule: seq<Action>)
    requires s.log == []
    ensures Consistent(s.kv, Run(hash, s, schedule).kv, Run(hash, s, schedule).log)
    decreases |schedule|
  {
    if schedule != [] {
      var before, a := Run(hash, s, schedule[..|schedule| - 1]), schedule[|schedule| - 1];
      RunConsistent(hash, s, schedule[..|schedule| - 1]);
      if a.Acts? && a.pid in before.handlers && !before.handlers[a.pid].Finished? {
        var (kv, h, op) := Advance(hash, before.kv, before.handlers[a.pid]);
        hide Run;
        OpConsistent(hash, s.kv, before, before.handlers[a.pid]);
      }
    }
  }

  lemma OpConsistent(hash: RouteHash, kv0: map<string, Token>, s: System, h: Handler)
    requires Consistent(kv0, s.kv, s.log) && !h.Finished?
    ensures Consistent(kv0, Advance(hash, s.kv, h).0, s.log + [Advance(hash, s.kv, h).2])
  {
    var (kv, next, op) := Advance(hash, s.kv, h);
    var log := s.log + [op];
    assert log[..|s.log|] == s.log;
    forall key ensures Holder(kv0, log, key) == Lookup(kv, key) {
      OpHolder(hash, kv0, s, h, key);
    }
    OpTruthful(hash, s.kv, h);
    hide Holder, Advance, Truthful;
    assert Truthful(Holder(kv0, s.log, op.key), op);
    forall n | 0 <= n < |log| ensures Truthful(Holder(kv0, log[..n], log[n].key), log[n]) {
      if n < |s.log| { assert log[..n] == s.log[..n]; }
    }
  }

  lemma OpHolder(hash: RouteHash, kv0: map<string, Token>, s: System, h: Handler, key: string)
    requires !h.Finished? && Holder(kv0, s.log, key) == Lookup(s.kv, key)
    ensures var (kv, _, op) := Advance(hash, s.kv, h);
            Holder(kv0, s.log + [op], key) == Lookup(kv, key)
  {
    var (kv, _, op) := Advance(hash, s.kv, h);
    HolderNext(kv0, s.log, op, key);
    hide Holder;
  }

  function Lookup(kv: map<string, Token>, key: string): Option<Token> {
    if key in kv then Some(kv[key]) else None
  }

  /** One more operation: a deletion frees its key, a registration takes it. */
  lemma HolderNext(kv0: map<string, Token>, log: seq<Op>, op: Op, key: string)
    ensures Holder(kv0, log + [op], key) ==
            if op == Deleted(key) then None
            else if op.Registered? && op.key == key then Some(op.token)
            else Holder(kv0, log, key)
  {
    assert (log + [op])[..|log|] == log;
  }

  lemma OpTruthful(hash: RouteHash, kv: map<string, Token>, h: Handler)
    requires !h.Finished?
    ensures var op := Advance(hash, kv, h).2; Truthful(Lookup(kv, op.key), op)
  {
  }

  // ---- Whose step it was ----

  /** What a handler's step found, given what its key held: an answer passes exactly when the token held derives its
      route; a hook matches exactly when it brings the token held, and registers exactly when none is. */
  predicate Found(hash: RouteHash, holder: Option<Token>, actor: Handler, op: Op) {
    match actor
    case Finished => false
    case RelayGet(key, host, session, route, _) =>
      if holder == None then op == Missed(key)
      else if hash(host, session, holder.value) == route then op == RouteChecked(key, holder.value)
      else op == RouteRefused(key)
    case RelayDelete(key, _) => op == Deleted(key)
    case AuthCas(key, token) => if holder == None then op == Registered(key, token) else op == CasLost(key, token)
    case _ =>
      if holder == None then op == Missed(actor.key)
      else if holder == Some(actor.token) then op == Matched(actor.key, actor.token)
      else op == Mismatched(actor.key, actor.token)
  }

  /** What a handler goes on to do: an answer that passed and ends its session deletes; a hook that may register and
      found nothing tries to; one that lost the race looks again. Nothing else has a next step. */
  function After(actor: Handler, op: Op): Handler {
    if actor.RelayGet? && actor.retires && op.RouteChecked? then RelayDelete(actor.key, op.token)
    else if actor.AuthGet? && actor.event in {"session_start", "user_prompt_submit"} && op.Missed? then AuthCas(actor.key, actor.token)
    else if actor.AuthCas? && op.CasLost? then AuthReget(actor.key, actor.token)
    else Finished
  }

  lemma AdvanceFinds(hash: RouteHash, kv: map<string, Token>, h: Handler)
    requires !h.Finished?
    ensures var (_, next, op) := Advance(hash, kv, h);
            Found(hash, Lookup(kv, h.key), h, op) && next == After(h, op) && op.key == h.key
  {
  }

  /** Step m is the last that handler pid took before step n. */
  predicate LastBefore(acts: seq<Act>, pid: nat, m: nat, n: nat) {
    m < n <= |acts| && acts[m].pid == pid && forall k | m < k < n :: acts[k].pid != pid
  }

  predicate NoneBefore(acts: seq<Act>, pid: nat, n: nat) {
    n <= |acts| && forall k | 0 <= k < n :: acts[k].pid != pid
  }

  /** After n steps handler pid is as it was at the start if it took none, and otherwise where its last one left it. */
  ghost predicate Reached(h0: map<nat, Handler>, log: seq<Op>, acts: seq<Act>, pid: nat, n: nat, h: Handler) {
    |acts| == |log| &&
    ((NoneBefore(acts, pid, n) && pid in h0 && h == h0[pid]) ||
     exists m: nat :: LastBefore(acts, pid, m, n) && h == After(acts[m].actor, log[m]))
  }

  /** Every step was taken by the handler that had got there, and found what its key held. */
  ghost predicate Accounted(hash: RouteHash, kv0: map<string, Token>, h0: map<nat, Handler>, log: seq<Op>, acts: seq<Act>) {
    && |acts| == |log|
    && (forall n | 0 <= n < |log| :: Reached(h0, log, acts, acts[n].pid, n, acts[n].actor))
    && (forall n | 0 <= n < |log| :: Found(hash, Holder(kv0, log[..n], log[n].key), acts[n].actor, log[n]))
  }

  lemma ReachedStill(h0: map<nat, Handler>, log: seq<Op>, acts: seq<Act>, pid: nat, n: nat, h: Handler, op: Op, act: Act)
    requires n <= |acts| && Reached(h0, log, acts, pid, n, h)
    ensures Reached(h0, log + [op], acts + [act], pid, n, h)
  {
    if m: nat :| LastBefore(acts, pid, m, n) && h == After(acts[m].actor, log[m]) {
      assert LastBefore(acts + [act], pid, m, n) && (acts + [act])[m] == acts[m] && (log + [op])[m] == log[m];
    }
  }

  lemma ReachedNext(h0: map<nat, Handler>, log: seq<Op>, acts: seq<Act>, pid: nat, h: Handler, op: Op, act: Act)
    requires |acts| == |log| && if pid == act.pid then h == After(act.actor, op) else Reached(h0, log, acts, pid, |acts|, h)
    ensures Reached(h0, log + [op], acts + [act], pid, |acts| + 1, h)
  {
    var next := acts + [act];
    if pid == act.pid {
      assert LastBefore(next, pid, |acts|, |acts| + 1);
    } else {
      ReachedStill(h0, log, acts, pid, |acts|, h, op, act);
      if m: nat :| LastBefore(next, pid, m, |acts|) && h == After(next[m].actor, (log + [op])[m]) {
        assert LastBefore(next, pid, m, |acts| + 1);
      }
    }
  }

  /** However handlers interleave and fail, every step is accounted for, and every handler still running is where its
      last step left it. */
  lemma {:induction false} RunAccounted(hash: RouteHash, s: System, schedule: seq<Action>)
    requires s.log == [] && s.acts == []
    ensures var r := Run(hash, s, schedule);
            && Accounted(hash, s.kv, s.handlers, r.log, r.acts)
            && AllReached(s.handlers, r.log, r.acts, r.handlers)
    decreases |schedule|
  {
    if schedule != [] {
      var before, a := Run(hash, s, schedule[..|schedule| - 1]), schedule[|schedule| - 1];
      RunAccounted(hash, s, schedule[..|schedule| - 1]);
      RunConsistent(hash, s, schedule[..|schedule| - 1]);
      hide Run, Reached, Found, After, Accounted;
      if a.Acts? && a.pid in before.handlers && !before.handlers[a.pid].Finished? {
        StepAccounted(hash, s, before, a.pid);
      }
    }
  }

  /** Every handler still running is where its last step left it. */
  ghost predicate AllReached(h0: map<nat, Handler>, log: seq<Op>, acts: seq<Act>, handlers: map<nat, Handler>) {
    forall pid | pid in handlers && !handlers[pid].Finished? :: Reached(h0, log, acts, pid, |acts|, handlers[pid])
  }

  lemma StepAccounted(hash: RouteHash, start: System, s: System, pid: nat)
    requires Consistent(start.kv, s.kv, s.log) && Accounted(hash, start.kv, start.handlers, s.log, s.acts)
    requires AllReached(start.handlers, s.log, s.acts, s.handlers)
    requires pid in s.handlers && !s.handlers[pid].Finished?
    ensures var r := Perform(hash, s, Acts(pid));
            && Accounted(hash, start.kv, start.handlers, r.log, r.acts)
            && AllReached(start.handlers, r.log, r.acts, r.handlers)
  {
    var kv, next, op := StepFacts(hash, start, s, pid);
    hide *;
    NextReached(start.handlers, s.log, s.acts, s.handlers, pid, op, next);
    AccountedNext(hash, start, s.log, s.acts, op, Act(pid, s.handlers[pid]));
  }

  lemma StepFacts(hash: RouteHash, start: System, s: System, pid: nat) returns (kv: map<string, Token>, next: Handler, op: Op)
    requires Consistent(start.kv, s.kv, s.log) && Accounted(hash, start.kv, start.handlers, s.log, s.acts)
    requires AllReached(start.handlers, s.log, s.acts, s.handlers)
    requires pid in s.handlers && !s.handlers[pid].Finished?
    ensures Perform(hash, s, Acts(pid)) == System(kv, s.handlers[pid := next], s.log + [op], s.acts + [Act(pid, s.handlers[pid])])
    ensures |s.acts| == |s.log| && Reached(start.handlers, s.log, s.acts, pid, |s.acts|, s.handlers[pid])
    ensures Found(hash, Holder(start.kv, s.log, op.key), s.handlers[pid], op) && next == After(s.handlers[pid], op)
  {
    var h := s.handlers[pid];
    kv, next, op := Advance(hash, s.kv, h).0, Advance(hash, s.kv, h).1, Advance(hash, s.kv, h).2;
    AdvanceFinds(hash, s.kv, h);
    hide Advance, Lookup, Found, After, Reached;
    assert Holder(start.kv, s.log, op.key) == Lookup(s.kv, op.key);
    hide Holder;
  }

  lemma NextReached(h0: map<nat, Handler>, log: seq<Op>, acts: seq<Act>, handlers: map<nat, Handler>, pid: nat, op: Op, next: Handler)
    requires AllReached(h0, log, acts, handlers) && |acts| == |log| && pid in handlers && next == After(handlers[pid], op)
    ensures AllReached(h0, log + [op], acts + [Act(pid, handlers[pid])], handlers[pid := next])
  {
    hide Reached, After;
    var after := handlers[pid := next];
    forall x | x in after && !after[x].Finished?
      ensures Reached(h0, log + [op], acts + [Act(pid, handlers[pid])], x, |acts| + 1, after[x])
    {
      ReachedNext(h0, log, acts, x, after[x], op, Act(pid, handlers[pid]));
    }
  }

  lemma AccountedNext(hash: RouteHash, start: System, log: seq<Op>, acts: seq<Act>, op: Op, act: Act)
    requires Accounted(hash, start.kv, start.handlers, log, acts)
    requires Reached(start.handlers, log, acts, act.pid, |acts|, act.actor)
    requires Found(hash, Holder(start.kv, log, op.key), act.actor, op)
    ensures Accounted(hash, start.kv, start.handlers, log + [op], acts + [act])
  {
    hide Found, Reached, Holder;
    forall n | 0 <= n < |log| + 1
      ensures Reached(start.handlers, log + [op], acts + [act], (acts + [act])[n].pid, n, (acts + [act])[n].actor)
      ensures Found(hash, Holder(start.kv, (log + [op])[..n], (log + [op])[n].key), (acts + [act])[n].actor, (log + [op])[n])
    {
      if n < |log| {
        assert (log + [op])[..n] == log[..n] && (acts + [act])[n] == acts[n] && (log + [op])[n] == log[n];
      } else {
        assert (log + [op])[..n] == log;
      }
      ReachedStill(start.handlers, log, acts, (acts + [act])[n].pid, n, (acts + [act])[n].actor, op, act);
    }
  }

  /** Requests enter as hooks and answers: nothing starts in the middle. */
  predicate Fresh(handlers: map<nat, Handler>) {
    forall pid | pid in handlers :: handlers[pid].AuthGet? || handlers[pid].RelayGet? || handlers[pid].Finished?
  }

  lemma StepAt(hash: RouteHash, s: System, schedule: seq<Action>, n: nat)
    requires s.log == [] && s.acts == []
    ensures var r := Run(hash, s, schedule);
            |r.acts| == |r.log| &&
            (n < |r.log| ==>
               && Reached(s.handlers, r.log, r.acts, r.acts[n].pid, n, r.acts[n].actor)
               && Found(hash, Holder(s.kv, r.log[..n], r.log[n].key), r.acts[n].actor, r.log[n]))
  {
    RunAccounted(hash, s, schedule);
    hide Run, Holder, Reached, Found;
  }

  /** A handler that is not as it was at the start got where it is by its last step. */
  lemma CameFrom(h0: map<nat, Handler>, log: seq<Op>, acts: seq<Act>, pid: nat, n: nat, h: Handler) returns (m: nat)
    requires Reached(h0, log, acts, pid, n, h) && !(pid in h0 && h == h0[pid])
    ensures LastBefore(acts, pid, m, n) && |acts| == |log| && h == After(acts[m].actor, log[m])
  {
    hide After;
    m :| LastBefore(acts, pid, m, n) && h == After(acts[m].actor, log[m]);
  }

  lemma BeforeIsIn(acts: seq<Act>, pid: nat, m: nat, n: nat)
    requires LastBefore(acts, pid, m, n)
    ensures m < n <= |acts| && acts[m].pid == pid
  {
  }

  /** An answer, when it looks up its session, passes the route check exactly when its route is the one derived from the
      token held at that moment, and is refused exactly when it is another's. */
  lemma AnswersCheckRoutes(hash: RouteHash, s: System, schedule: seq<Action>, n: nat)
    requires s.log == [] && s.acts == [] && Fresh(s.handlers)
    requires n < |Run(hash, s, schedule).log|
    ensures var r := Run(hash, s, schedule);
            && |r.acts| == |r.log|
            && var op, actor, holder := r.log[n], r.acts[n].actor, Holder(s.kv, r.log[..n], r.log[n].key);
            && (op.RouteChecked? <==> actor.RelayGet? && holder.Some? && hash(actor.host, actor.session, holder.value) == actor.route)
            && (op.RouteRefused? <==> actor.RelayGet? && holder.Some? && hash(actor.host, actor.session, holder.value) != actor.route)
            && (actor.RelayGet? ==> op.key == actor.key && r.acts[n].pid in s.handlers && actor == s.handlers[r.acts[n].pid])
  {
    var r := Run(hash, s, schedule);
    StepAt(hash, s, schedule, n);
    hide Run, Holder, Reached;
    var h, pid := r.acts[n].actor, r.acts[n].pid;
    if !(pid in s.handlers && h == s.handlers[pid]) {
      var m := CameFrom(s.handlers, r.log, r.acts, pid, n, h);
      hide LastBefore;
    }
  }

  /** A deletion is the next step of an answer that ends its session and had passed its route check. */
  lemma DeletionsWereChecked(hash: RouteHash, s: System, schedule: seq<Action>, n: nat)
    requires s.log == [] && s.acts == [] && Fresh(s.handlers)
    requires n < |Run(hash, s, schedule).log| && Run(hash, s, schedule).log[n].Deleted?
    ensures var r := Run(hash, s, schedule);
            exists m | 0 <= m < n < |r.acts| == |r.log| :: CheckedToRetire(hash, s.kv, r, m, r.acts[n].pid, r.log[n].key)
  {
    var r := Run(hash, s, schedule);
    StepAt(hash, s, schedule, n);
    hide Run, Holder, Reached;
    var h, pid := r.acts[n].actor, r.acts[n].pid;
    assert h.RelayDelete? && r.log[n].key == h.key;
    var m := CameFrom(s.handlers, r.log, r.acts, pid, n, h);
    BeforeIsIn(r.acts, pid, m, n);
    StepAt(hash, s, schedule, m);
    hide LastBefore, Found, After;
    CheckedAt(hash, s.kv, r, m, pid, h);
  }

  lemma CheckedAt(hash: RouteHash, kv0: map<string, Token>, r: System, m: nat, pid: nat, h: Handler)
    requires m < |r.log| == |r.acts| && r.acts[m].pid == pid && h.RelayDelete? && h == After(r.acts[m].actor, r.log[m])
    requires Found(hash, Holder(kv0, r.log[..m], r.log[m].key), r.acts[m].actor, r.log[m])
    ensures CheckedToRetire(hash, kv0, r, m, pid, h.key)
  {
    hide Holder;
  }

  /** Step m is an answer of handler pid that ends its session and whose route is that of the token then held. */
  predicate CheckedToRetire(hash: RouteHash, kv0: map<string, Token>, r: System, m: nat, pid: nat, key: string)
    requires m < |r.log| == |r.acts|
  {
    var h, holder := r.acts[m].actor, Holder(kv0, r.log[..m], key);
    && r.acts[m].pid == pid && h.RelayGet? && h.retires && h.key == key
    && holder.Some? && hash(h.host, h.session, holder.value) == h.route && r.log[m] == RouteChecked(key, holder.value)
  }

  /** And such an answer, if it gets to act again, deletes. */
  lemma CheckedEndsRetire(hash: RouteHash, s: System, schedule: seq<Action>, m: nat, n: nat)
    requires s.log == [] && s.acts == []
    requires var r := Run(hash, s, schedule);
             && n < |r.acts| == |r.log| && LastBefore(r.acts, r.acts[n].pid, m, n)
             && r.acts[m].actor.RelayGet? && r.acts[m].actor.retires && r.log[m].RouteChecked?
    ensures var r := Run(hash, s, schedule); r.log[n] == Deleted(r.acts[m].actor.key)
  {
    var r := Run(hash, s, schedule);
    StepAt(hash, s, schedule, n);
    StepAt(hash, s, schedule, m);
    hide Run, Holder;
    LastIsOne(r.acts, r.acts[n].pid, m, n);
    hide LastBefore, NoneBefore;
    assert r.acts[n].actor == After(r.acts[m].actor, r.log[m]);
  }

  lemma LastIsOne(acts: seq<Act>, pid: nat, m: nat, n: nat)
    requires LastBefore(acts, pid, m, n)
    ensures !NoneBefore(acts, pid, n) && forall k: nat | LastBefore(acts, pid, k, n) :: k == m
  {
  }

  /** A token is registered only by a hook whose event may register, after it found its session unknown. */
  lemma RegistrationsMayRegister(hash: RouteHash, s: System, schedule: seq<Action>, n: nat)
    requires s.log == [] && s.acts == [] && Fresh(s.handlers)
    requires n < |Run(hash, s, schedule).log| && Run(hash, s, schedule).log[n].Registered?
    ensures var r := Run(hash, s, schedule);
            && |r.acts| == |r.log|
            && exists m, event | 0 <= m < n :: r.acts[m] == Act(r.acts[n].pid, AuthGet(r.log[n].key, r.log[n].token, event))
                                             && event in {"session_start", "user_prompt_submit"} && r.log[m] == Missed(r.log[n].key)
  {
    var r := Run(hash, s, schedule);
    StepAt(hash, s, schedule, n);
    hide Run, Holder, Reached;
    var h, pid := r.acts[n].actor, r.acts[n].pid;
    assert h.AuthCas?;
    var m := CameFrom(s.handlers, r.log, r.acts, pid, n, h);
    BeforeIsIn(r.acts, pid, m, n);
    StepAt(hash, s, schedule, m);
    hide LastBefore;
    assert r.acts[m] == Act(pid, AuthGet(h.key, h.token, r.acts[m].actor.event));
  }

  /** No retirement of `key` among the operations from i up to, not including, j. */
  predicate NoneRetired(log: seq<Op>, key: string, i: nat, j: nat) {
    forall n | 0 <= i <= n < j <= |log| :: log[n] != Deleted(key)
  }

  /** While a key is not retired, the token it holds does not change. */
  lemma {:induction false} HolderStays(kv0: map<string, Token>, kv: map<string, Token>, log: seq<Op>, key: string, i: nat, j: nat)
    requires Consistent(kv0, kv, log) && i <= j <= |log|
    requires NoneRetired(log, key, i, j) && Holder(kv0, log[..i], key).Some?
    ensures Holder(kv0, log[..j], key) == Holder(kv0, log[..i], key)
    decreases j
  {
    hide Holder, Consistent;
    if i < j {
      assert log[j - 1] != Deleted(key) && NoneRetired(log, key, i, j - 1);
      hide NoneRetired;
      HolderStays(kv0, kv, log, key, i, j - 1);
      StaysOnce(kv0, kv, log, key, j - 1);
    }
  }

  lemma StaysOnce(kv0: map<string, Token>, kv: map<string, Token>, log: seq<Op>, key: string, n: nat)
    requires Consistent(kv0, kv, log) && n < |log| && log[n] != Deleted(key) && Holder(kv0, log[..n], key).Some?
    ensures Holder(kv0, log[..n + 1], key) == Holder(kv0, log[..n], key)
  {
    var op := log[n];
    assert Truthful(Holder(kv0, log[..n], op.key), op);
    assert op.Registered? ==> Holder(kv0, log[..n], op.key) == None;
    hide Holder, Truthful, Consistent;
    assert log[..n + 1] == log[..n] + [op];
    HolderNext(kv0, log[..n], op, key);
  }

  predicate Authenticates(op: Op, key: string) {
    (op.Matched? || op.Registered?) && op.key == key
  }

  lemma HolderAfter(kv0: map<string, Token>, kv: map<string, Token>, log: seq<Op>, i: nat)
    requires Consistent(kv0, kv, log) && i < |log| && (log[i].Matched? || log[i].Registered? || log[i].RouteChecked?)
    ensures Holder(kv0, log[..i + 1], log[i].key) == Some(log[i].token)
  {
    assert log[..i + 1][..i] == log[..i];
    assert Truthful(Holder(kv0, log[..i], log[i].key), log[i]);
  }

  /** However handlers interleave, all successful authentications of a key between two retirements used one token. */
  lemma OneTokenPerEpoch(hash: RouteHash, s: System, schedule: seq<Action>, key: string, i: nat, j: nat)
    requires s.log == []
    requires var log := Run(hash, s, schedule).log;
             i < j < |log| && Authenticates(log[i], key) && Authenticates(log[j], key) && NoneRetired(log, key, i, j)
    ensures var log := Run(hash, s, schedule).log; log[i].token == log[j].token && log[j].Matched?
  {
    hide Run;
    RunConsistent(hash, s, schedule);
    var kv, log := Run(hash, s, schedule).kv, Run(hash, s, schedule).log;
    HolderAfter(s.kv, kv, log, i);
    HolderStays(s.kv, kv, log, key, i + 1, j);
    assert Truthful(Holder(s.kv, log[..j], key), log[j]);
  }

  predicate Attempts(op: Op, key: string) {
    (op.Registered? || op.CasLost?) && op.key == key
  }

  /** Of the registrations racing for a key between two retirements, the first wins if the key was free, and no later one does. */
  lemma OneWinnerPerEpoch(hash: RouteHash, s: System, schedule: seq<Action>, key: string, i: nat, j: nat)
    requires s.log == []
    requires var log := Run(hash, s, schedule).log;
             i < j < |log| && Attempts(log[i], key) && Attempts(log[j], key) && NoneRetired(log, key, i, j)
    ensures var log := Run(hash, s, schedule).log;
            && log[j].CasLost?
            && (log[i].Registered? <==> Holder(s.kv, log[..i], key) == None)
  {
    hide Run;
    RunConsistent(hash, s, schedule);
    var kv, log := Run(hash, s, schedule).kv, Run(hash, s, schedule).log;
    assert Truthful(Holder(s.kv, log[..i], key), log[i]) && Truthful(Holder(s.kv, log[..j], key), log[j]);
    assert log[i].Registered? <==> Holder(s.kv, log[..i], key) == None;
    assert log[j].Registered? ==> Holder(s.kv, log[..j], key) == None;
    assert log[..i + 1] == log[..i] + [log[i]];
    HolderNext(s.kv, log[..i], log[i], key);
    hide Holder, Truthful, Consistent;
    HolderStays(s.kv, kv, log, key, i + 1, j);
  }

  /** After a deletion the key holds t only if t was registered since. */
  lemma {:induction false} HeldOnlyIfRegistered(kv0: map<string, Token>, log: seq<Op>, key: string, a: nat, j: nat, t: Token)
    requires a <= j <= |log| && Holder(kv0, log[..a], key) == None && Holder(kv0, log[..j], key) == Some(t)
    ensures exists n | a <= n < j :: log[n] == Registered(key, t) && NoneRetired(log, key, n, j)
    decreases j
  {
    var op := log[j - 1];
    assert log[..j] == log[..j - 1] + [op];
    HolderNext(kv0, log[..j - 1], op, key);
    hide Holder;
    if op != Registered(key, t) {
      HeldOnlyIfRegistered(kv0, log, key, a, j - 1, t);
      var n :| a <= n < j - 1 && log[n] == Registered(key, t) && NoneRetired(log, key, n, j - 1);
      assert NoneRetired(log, key, n, j);
    } else {
      assert NoneRetired(log, key, j - 1, j);
    }
  }

  lemma {:induction false} LastRetirement(log: seq<Op>, key: string, i: nat, j: nat) returns (d: nat)
    requires i <= j <= |log| && !NoneRetired(log, key, i, j)
    ensures i <= d < j && log[d] == Deleted(key) && NoneRetired(log, key, d + 1, j)
    decreases j
  {
    d := j - 1;
    if log[d] != Deleted(key) { d := LastRetirement(log, key, i, j - 1); }
  }

  /** The registrations of `t` that nothing retired before j. */
  ghost predicate RegisteredSince(log: seq<Op>, key: string, t: Token, i: nat, j: nat) {
    exists n | i < n < j <= |log| :: log[n] == Registered(key, t) && NoneRetired(log, key, n, j)
  }

  lemma HeldIfRegistered(kv0: map<string, Token>, kv: map<string, Token>, log: seq<Op>, key: string, t: Token, i: nat, j: nat)
    requires Consistent(kv0, kv, log) && j <= |log| && RegisteredSince(log, key, t, i, j)
    ensures Holder(kv0, log[..j], key) == Some(t)
  {
    hide Holder, Consistent;
    var n :| i < n < j && log[n] == Registered(key, t) && NoneRetired(log, key, n, j);
    HolderAfter(kv0, kv, log, n);
    HolderStays(kv0, kv, log, key, n + 1, j);
  }

  /** What a key holds at j, once it held `checked` at i. */
  lemma HeldExactly(kv0: map<string, Token>, kv: map<string, Token>, log: seq<Op>, i: nat, j: nat, t: Token)
    requires Consistent(kv0, kv, log) && i < j <= |log| && log[i].RouteChecked?
    ensures var key := log[i].key;
            Holder(kv0, log[..j], key) == Some(t) <==>
            (t == log[i].token && NoneRetired(log, key, i, j)) || RegisteredSince(log, key, t, i, j)
  {
    hide Holder, Consistent;
    var key := log[i].key;
    HolderAfter(kv0, kv, log, i);
    if RegisteredSince(log, key, t, i, j) { HeldIfRegistered(kv0, kv, log, key, t, i, j); }
    if NoneRetired(log, key, i, j) {
      HolderStays(kv0, kv, log, key, i + 1, j);
    } else {
      var d := LastRetirement(log, key, i, j);
      assert log[..d + 1] == log[..d] + [log[d]];
      HolderNext(kv0, log[..d], log[d], key);
      if Holder(kv0, log[..j], key) == Some(t) { HeldOnlyIfRegistered(kv0, log, key, d + 1, j, t); }
    }
  }

  /** A retirement removes the token whose route was checked exactly when no other retirement came in between, or that
      same token was registered again after the last one. */
  lemma RetiresCheckedIff(hash: RouteHash, s: System, schedule: seq<Action>, i: nat, j: nat)
    requires s.log == []
    requires var log := Run(hash, s, schedule).log; i < j < |log| && log[i].RouteChecked? && log[j] == Deleted(log[i].key)
    ensures var log := Run(hash, s, schedule).log;
            Holder(s.kv, log[..j], log[i].key) == Some(log[i].token) <==>
            NoneRetired(log, log[i].key, i, j) || RegisteredSince(log, log[i].key, log[i].token, i, j)
  {
    hide Run, Holder, Consistent;
    RunConsistent(hash, s, schedule);
    HeldExactly(s.kv, Run(hash, s, schedule).kv, Run(hash, s, schedule).log, i, j, Run(hash, s, schedule).log[i].token);
  }

  /** It removes some other token exactly when that one was registered in between, after a retirement. */
  lemma RetiresOtherIff(hash: RouteHash, s: System, schedule: seq<Action>, i: nat, j: nat, other: Token)
    requires s.log == []
    requires var log := Run(hash, s, schedule).log; i < j < |log| && log[i].RouteChecked? && log[j] == Deleted(log[i].key)
    requires other != Run(hash, s, schedule).log[i].token
    ensures var log := Run(hash, s, schedule).log;
            Holder(s.kv, log[..j], log[i].key) == Some(other) <==> RegisteredSince(log, log[i].key, other, i, j)
    ensures var log := Run(hash, s, schedule).log;
            Holder(s.kv, log[..j], log[i].key) == Some(other) ==> !NoneRetired(log, log[i].key, i, j)
  {
    hide Run, Holder, Consistent;
    RunConsistent(hash, s, schedule);
    var kv, log := Run(hash, s, schedule).kv, Run(hash, s, schedule).log;
    HeldExactly(s.kv, kv, log, i, j, other);
    HeldExactly(s.kv, kv, log, i, j, log[i].token);
  }

  /** Such a run exists: two answers that both end the session let the second delete a registration made after the
      first, because the delete does not look at what it removes. */
  lemma SecondRetirementRemovesNewToken(hash: RouteHash, host: string, session: string, a: Token, b: Token)
    requires a != b
    ensures var key, route := TokenKey(host, session), hash(host, session, a);
            var answer := RelayGet(key, host, session, route, true);
            var s := System(map[key := a], map[1 := answer, 2 := answer, 3 := AuthGet(key, b, "session_start")], [], []);
            var schedule := [Acts(1), Acts(2), Acts(1), Acts(3), Acts(3), Acts(2)];
            Run(hash, s, schedule).log ==
            [RouteChecked(key, a), RouteChecked(key, a), Deleted(key), Missed(key), Registered(key, b), Deleted(key)]
  {
    var key, route := TokenKey(host, session), hash(host, session, a);
    hide TokenKey, Perform;
    var answer, hook := RelayGet(key, host, session, route, true), AuthGet(key, b, "session_start");
    var s := System(map[key := a], map[1 := answer, 2 := answer, 3 := hook], [], []);
    Unroll(hash, s, [Acts(1), Acts(2), Acts(1), Acts(3), Acts(3), Acts(2)]);
    BothChecked(hash, host, session, a, hook);
    RegisteredBetween(hash, key, a, b, Perform(hash, Perform(hash, s, Acts(1)), Acts(2)));
  }

  lemma BothChecked(hash: RouteHash, host: string, session: string, a: Token, hook: Handler)
    ensures var key, route := TokenKey(host, session), hash(host, session, a);
            var answer := RelayGet(key, host, session, route, true);
            var s := System(map[key := a], map[1 := answer, 2 := answer, 3 := hook], [], []);
            Perform(hash, Perform(hash, s, Acts(1)), Acts(2)) ==
            System(map[key := a], map[1 := RelayDelete(key, a), 2 := RelayDelete(key, a), 3 := hook],
                   [RouteChecked(key, a), RouteChecked(key, a)], [Act(1, answer), Act(2, answer)])
  {
    hide TokenKey;
  }

  lemma RegisteredBetween(hash: RouteHash, key: string, a: Token, b: Token, s: System)
    requires s.kv == map[key := a]
    requires s.handlers == map[1 := RelayDelete(key, a), 2 := RelayDelete(key, a), 3 := AuthGet(key, b, "session_start")]
    ensures Perform(hash, Perform(hash, Perform(hash, Perform(hash, s, Acts(1)), Acts(3)), Acts(3)), Acts(2)).log ==
            s.log + [Deleted(key), Missed(key), Registered(key, b), Deleted(key)]
  {
    var s1 := Perform(hash, s, Acts(1));
    var s2 := Perform(hash, s1, Acts(3));
    assert s1.log == s.log + [Deleted(key)] && key !in s1.kv;
    assert s2.log == s1.log + [Missed(key)] && s2.handlers[3] == AuthCas(key, b) && key !in s2.kv;
    var s3 := Perform(hash, s2, Acts(3));
    assert s3.log == s2.log + [Registered(key, b)] && s3.handlers[2] == RelayDelete(key, a);
  }

  lemma Unroll(hash: RouteHash, s: System, t: seq<Action>)
    requires |t| == 6
    ensures Run(hash, s, t) ==
            Perform(hash, Perform(hash, Perform(hash, Perform(hash, Perform(hash, Perform(hash, s, t[0]), t[1]), t[2]), t[3]), t[4]), t[5])
  {
    hide Perform;
    assert t[..5][..4] == t[..4] && t[..4][..3] == t[..3] && t[..3][..2] == t[..2] && t[..2][..1] == t[..1] && t[..1][..0] == [];
    assert Run(hash, s, t[..1]) == Perform(hash, s, t[0]);
    assert Run(hash, s, t[..2]) == Perform(hash, Run(hash, s, t[..1]), t[1]);
    assert Run(hash, s, t[..3]) == Perform(hash, Run(hash, s, t[..2]), t[2]);
    assert Run(hash, s, t[..4]) == Perform(hash, Run(hash, s, t[..3]), t[3]);
    assert Run(hash, s, t[..5]) == Perform(hash, Run(hash, s, t[..4]), t[4]);
  }

  // ---- One handler, as code, while others use the store ----

  /** The shared store as one handler sees it. `seen` is the token of the last key it operated on, right after that operation. */
  class HookKv {
    var entries: map<string, Token>
    ghost var seen: Option<Token>
    ghost var wrote: bool

    constructor ()
      ensures entries == map[] && seen == None && !wrote
    {
      entries, seen, wrote := map[], None, false;
    }

    /** Whatever other handlers do between two operations of this one. */
    method Interfere()
      modifies this`entries
    {
      entries := *;
    }

    method Get(key: string) returns (value: Option<Token>)
      modifies this`seen
      ensures value == seen == if key in entries then Some(entries[key]) else None
    {
      value := if key in entries then Some(entries[key]) else None;
      seen := value;
    }

    /** Compare-and-swap from absent. */
    method CasAbsent(key: string, token: Token) returns (won: bool)
      modifies this
      ensures won == (key !in old(entries)) && wrote == (old(wrote) || won)
      ensures entries == if won then old(entries)[key := token] else old(entries)
      ensures key in entries && seen == Some(entries[key])
    {
      won := key !in entries;
      if won {
        entries := entries[key := token];
        wrote := true;
      }
      seen := Some(entries[key]);
    }

    /** Takes exactly the steps of the handler `AuthGet`, each on the store as it then was, whatever others did in
        between. Accepts exactly when the key holds this token right after the last step; writes only on an event that
        may register, and only where it then accepts. */
    method AuthenticateToken(key: string, token: Token, event: string, ghost hash: RouteHash)
      returns (ok: bool, ghost stores: seq<map<string, Token>>, ghost ops: seq<Op>)
      requires !wrote
      modifies this
      ensures Follows(hash, AuthGet(key, token, event), stores, ops) && stores != [] && stores[0] == old(entries)
      ensures ok <==> Authenticates(ops[|ops| - 1], key)
      ensures ok <==> seen == Some(token)
      ensures wrote <==> ops[|ops| - 1].Registered?
      ensures wrote ==> ok && CanRegister(event)
      ensures entries == if wrote then stores[|stores| - 1][key := token] else stores[|stores| - 1]
    {
      hide Follows;
      ghost var first := entries;
      var stored := Get(key);
      FollowsOne(hash, AuthGet(key, token, event), first);
      stores, ops := [first], [Advance(hash, first, AuthGet(key, token, event)).2];
      match stored
      case Some(expected) =>
        ok := TokensMatch(token, expected);
      case None =>
        if !CanRegister(event) { ok := false; return; }
        Interfere();
        ghost var second := entries;
        var won := CasAbsent(key, token);
        FollowsOne(hash, AuthCas(key, token), second);
        ghost var more, moreOps := [second], [Advance(hash, second, AuthCas(key, token)).2];
        ok := won;
        if !won {
          Interfere();
          ghost var third := entries;
          stored := Get(key);
          FollowsOne(hash, AuthReget(key, token), third);
          FollowsCons(hash, AuthCas(key, token), second, [third], [Advance(hash, third, AuthReget(key, token)).2]);
          more, moreOps := more + [third], moreOps + [Advance(hash, third, AuthReget(key, token)).2];
          if stored.Some? { ok := TokensMatch(token, stored.value); }
        }
        FollowsCons(hash, AuthGet(key, token, event), first, more, moreOps);
        stores, ops := stores + more, ops + moreOps;
    }
  }

  /** A handler that, on these stores one after the other, takes these steps and is then finished. */
  ghost predicate Follows(hash: RouteHash, h: Handler, stores: seq<map<string, Token>>, ops: seq<Op>)
    decreases |stores|
  {
    |stores| == |ops| &&
    if stores == [] then h.Finished?
    else
      && !h.Finished?
      && var (_, next, op) := Advance(hash, stores[0], h);
         op == ops[0] && Follows(hash, next, stores[1..], ops[1..])
  }

  lemma FollowsOne(hash: RouteHash, h: Handler, store: map<string, Token>)
    requires !h.Finished?
    ensures Advance(hash, store, h).1.Finished? ==> Follows(hash, h, [store], [Advance(hash, store, h).2])
  {
    hide Advance;
    assert Follows(hash, Advance(hash, store, h).1, [store][1..], [Advance(hash, store, h).2][1..]) == Advance(hash, store, h).1.Finished?;
  }

  lemma FollowsCons(hash: RouteHash, h: Handler, store: map<string, Token>, stores: seq<map<string, Token>>, ops: seq<Op>)
    requires !h.Finished? && Follows(hash, Advance(hash, store, h).1, stores, ops)
    ensures Follows(hash, h, [store] + stores, [Advance(hash, store, h).2] + ops)
  {
    hide Advance;
    assert ([store] + stores)[1..] == stores && ([Advance(hash, store, h).2] + ops)[1..] == ops;
  }

  /** Comparison without an early exit. */
  method TokensMatch(claimed: Token, expected: Token) returns (same: bool)
    ensures same <==> claimed == expected
  {
    if |claimed| != |expected| { return false; }
    var difference: bv8 := 0;
    for i := 0 to |claimed|
      invariant difference == 0 <==> claimed[..i] == expected[..i]
    {
      Differ(difference, claimed[i], expected[i]);
      difference := difference | (claimed[i] ^ expected[i]);
      assert claimed[..i + 1] == claimed[..i] + [claimed[i]] && expected[..i + 1] == expected[..i] + [expected[i]];
    }
    assert claimed[..|claimed|] == claimed && expected[..|expected|] == expected;
    same := difference == 0;
  }

  lemma Differ(d: bv8, x: bv8, y: bv8)
    ensures d | (x ^ y) == 0 <==> d == 0 && x == y
  {
  }
}

/** From requests and responses to handlers: what is checked before the store is touched. */
module HookIngress {
  import opened Common
  import opened HookShapes
  import opened HookTokens
  import opened Utf8

  const MAX_PAYLOAD_BYTES := 1024 * 1024
  const MAX_CONTEXT_BYTES := 64 * 1024

  datatype Request = Request(
    version: nat,
    principal: string,
    host: string,
    session: string,
    event: string,
    correlation: string,
    route: string,
    delivery: string,
    token: Token,
    turn: Option<string>,
    workspace: Option<string>,
    payloadBytes: nat)

  datatype Response = Response(
    version: nat,
    principal: string,
    host: string,
    session: string,
    event: Option<string>,
    canonicalHook: Option<string>,
    correlation: string,
    route: string,
    delivery: string,
    context: Option<string>,
    hasDecision: bool)

  /** Who is calling: the stamped principal, if any, and the source. */
  datatype Caller = Caller(principal: Option<string>, source: string)

  predicate IsTokenShape(token: Token) {
    && TOKEN_MIN_BYTES <= |token| <= TOKEN_MAX_BYTES
    && forall b | b in token :: 0x30 <= b <= 0x39 || 0x41 <= b <= 0x5A || 0x61 <= b <= 0x7A
  }

  predicate MetadataOk(r: Request) {
    && (r.workspace.Some? ==> IsSegment(r.workspace.value, 128))
    && (r.turn.Some? ==> r.turn.value != "" && ByteLen(r.turn.value) <= 256)
  }

  function RequestError(hash: RouteHash, expectedHost: string, r: Request): Option<string> {
    if r.version != 1 then Some("unsupported_schema")
    else if r.host != expectedHost || !IsHost(r.host) then Some("host_mismatch")
    else if !IsSegment(r.event, 128) then Some("invalid_segment")
    else if DeliveryError(r.session, r.correlation, r.route, r.delivery).Some?
    then DeliveryError(r.session, r.correlation, r.route, r.delivery)
    else if !IsTokenShape(r.token) then Some("invalid_token_shape")
    else if hash(r.host, r.session, r.token) != r.route then Some("route_mismatch")
    else if !MetadataOk(r) then Some("invalid_metadata")
    else if r.payloadBytes > MAX_PAYLOAD_BYTES then Some("payload_too_large")
    else None
  }

  predicate OptionalSegment(s: Option<string>) {
    s.Some? ==> IsSegment(s.value, 128)
  }

  function ResponseError(r: Response): Option<string> {
    if r.version != 1 then Some("unsupported_schema")
    else if !IsHost(r.host) then Some("unsupported_host")
    else if r.event.None? && r.canonicalHook.None? then Some("missing_event_classification")
    else if !OptionalSegment(r.event) || !OptionalSegment(r.canonicalHook) then Some("invalid_event_classification")
    else if DeliveryError(r.session, r.correlation, r.route, r.delivery).Some?
    then DeliveryError(r.session, r.correlation, r.route, r.delivery)
    else if r.context.Some? && ByteLen(r.context.value) > MAX_CONTEXT_BYTES then Some("context_too_large")
    else None
  }

  /** The handler an accepted request becomes; a rejected one never reaches the store. */
  function OnRequest(hash: RouteHash, expectedHost: string, caller: Option<Caller>, r: Request): Result<Handler, string> {
    if RequestError(hash, expectedHost, r).Some? then Err(RequestError(hash, expectedHost, r).value)
    else if caller.None? then Err("caller_unavailable")
    else if caller.value.principal != Some(r.principal) then Err("principal_mismatch")
    else Ok(AuthGet(TokenKey(expectedHost, r.session), r.token, r.event))
  }

  /** The same for a response; one that carries a policy decision must come from the installed adapter. */
  function OnResponse(caller: Option<Caller>, adapter: string, r: Response): Result<Handler, string> {
    if ResponseError(r).Some? then Err(ResponseError(r).value)
    else if caller.None? then Err("caller_unavailable")
    else if caller.value.principal != Some(r.principal) then Err("principal_mismatch")
    else if r.hasDecision && (adapter == "" || adapter != caller.value.source) then Err("policy_source_mismatch")
    else Ok(RelayGet(TokenKey(r.host, r.session), r.host, r.session, r.route, RetiresRoute(r.canonicalHook, r.event)))
  }

  /** One of the three hosts whose hooks are taken. */
  predicate Known(host: string) {
    host in {"codex", "claude", "grok"}
  }

  /** 32 to 128 ASCII letters and digits. */
  predicate TokenShape(token: Token) {
    32 <= |token| <= 128 &&
    forall b | b in token :: '0' as bv8 <= b <= '9' as bv8 || 'A' as bv8 <= b <= 'Z' as bv8 || 'a' as bv8 <= b <= 'z' as bv8
  }

  /** 1 to 128 letters, digits, '_' and '-'. */
  predicate Segment(s: string) {
    1 <= |s| <= 128 && forall c | c in s :: 'a' <= c <= 'z' || 'A' <= c <= 'Z' || '0' <= c <= '9' || c in "_-"
  }

  predicate Hex(s: string, len: nat) {
    |s| == len && forall c | c in s :: c in "0123456789abcdef"
  }

  /** Session, route and correlation are well formed, and the delivery id is the latter two joined. */
  predicate Delivery(session: string, correlation: string, route: string, delivery: string) {
    Segment(session) && Hex(correlation, 32) && Hex(route, 64) && delivery == route + "-" + correlation
  }

  lemma ShapesAre(s: string, hex: string, len: nat, host: string, token: Token)
    ensures IsSegment(s, 128) <==> Segment(s)
    ensures IsLowerHex(hex, len) <==> Hex(hex, len)
    ensures IsHost(host) <==> Known(host)
    ensures IsTokenShape(token) <==> TokenShape(token)
  {
    assert forall c :: c in "0123456789abcdef" <==> '0' <= c <= '9' || 'a' <= c <= 'f';
  }

  lemma DeliveryIs(session: string, correlation: string, route: string, delivery: string)
    ensures DeliveryError(session, correlation, route, delivery) == None <==> Delivery(session, correlation, route, delivery)
  {
    DeliveryAcceptedIff(session, correlation, route, delivery);
    ShapesAre(session, correlation, 32, "", []);
    ShapesAre(session, route, 64, "", []);
    hide IsSegment, IsLowerHex, Segment, Hex, DeliveryError;
  }

  /** A request reaches the store exactly when it is well formed, for the expected and known host, on the route its
      token derives, and from the principal it claims. */
  lemma RequestReachesIff(hash: RouteHash, expectedHost: string, caller: Option<Caller>, q: Request)
    ensures OnRequest(hash, expectedHost, caller, q).Ok? <==>
              && q.version == 1 && q.host == expectedHost && Known(q.host) && Segment(q.event)
              && Delivery(q.session, q.correlation, q.route, q.delivery)
              && TokenShape(q.token) && q.route == hash(q.host, q.session, q.token)
              && (q.workspace.Some? ==> Segment(q.workspace.value))
              && (q.turn.Some? ==> 1 <= ByteLen(q.turn.value) <= 256)
              && q.payloadBytes <= 1048576
              && caller.Some? && caller.value.principal == Some(q.principal)
    ensures OnRequest(hash, expectedHost, caller, q).Ok? ==>
              OnRequest(hash, expectedHost, caller, q).value == AuthGet("oracle.hook_token." + q.host + "." + q.session, q.token, q.event)
  {
    ShapesAre(q.event, "", 0, q.host, q.token);
    ShapesAre(q.workspace.GetOr(""), "", 0, q.host, q.token);
    DeliveryIs(q.session, q.correlation, q.route, q.delivery);
    if q.turn.Some? && q.turn.value != "" { assert ByteLen(q.turn.value) >= 1; }
    hide IsSegment, IsHost, IsTokenShape, TokenShape, Segment, Known, Delivery, DeliveryError, ByteLen;
  }

  /** A response does exactly when it is well formed, from the principal it claims and, where it carries a policy
      decision, from the adapter; it can retire its session only by an explicit end of it. */
  lemma ResponseReachesIff(caller: Option<Caller>, adapter: string, r: Response)
    ensures OnResponse(caller, adapter, r).Ok? <==>
              && r.version == 1 && Known(r.host) && (r.event.Some? || r.canonicalHook.Some?)
              && (r.event.Some? ==> Segment(r.event.value)) && (r.canonicalHook.Some? ==> Segment(r.canonicalHook.value))
              && Delivery(r.session, r.correlation, r.route, r.delivery)
              && (r.context.Some? ==> ByteLen(r.context.value) <= 65536)
              && caller.Some? && caller.value.principal == Some(r.principal)
              && (r.hasDecision ==> adapter != "" && caller.value.source == adapter)
    ensures OnResponse(caller, adapter, r).Ok? ==>
              OnResponse(caller, adapter, r).value ==
              RelayGet("oracle.hook_token." + r.host + "." + r.session, r.host, r.session, r.route,
                       if r.canonicalHook.Some? then r.canonicalHook.value == "session_end" else r.event == Some("session_end"))
  {
    ShapesAre(r.event.GetOr(""), "", 0, r.host, []);
    ShapesAre(r.canonicalHook.GetOr(""), "", 0, r.host, []);
    DeliveryIs(r.session, r.correlation, r.route, r.delivery);
    hide IsSegment, IsHost, Segment, Known, Delivery, DeliveryError, ByteLen;
  }

  /** Why a request is refused: the first of these that applies. */
  lemma RequestRefusal(hash: RouteHash, expectedHost: string, caller: Option<Caller>, q: Request)
    ensures OnRequest(hash, expectedHost, caller, q).Err? ==>
              var e := OnRequest(hash, expectedHost, caller, q).error;
              if q.version != 1 then e == "unsupported_schema"
              else if !(q.host == expectedHost && Known(q.host)) then e == "host_mismatch"
              else if !Segment(q.event) then e == "invalid_segment"
              else if !Delivery(q.session, q.correlation, q.route, q.delivery) then BadDelivery(q.session, q.correlation, q.route, q.delivery, e)
              else if !TokenShape(q.token) then e == "invalid_token_shape"
              else if q.route != hash(q.host, q.session, q.token) then e == "route_mismatch"
              else if (q.workspace.Some? && !Segment(q.workspace.value)) || (q.turn.Some? && !(1 <= ByteLen(q.turn.value) <= 256))
              then e == "invalid_metadata"
              else if q.payloadBytes > 1048576 then e == "payload_too_large"
              else if caller.None? then e == "caller_unavailable"
              else e == "principal_mismatch"
  {
    ShapesAre(q.event, "", 0, q.host, q.token);
    ShapesAre(q.workspace.GetOr(""), "", 0, q.host, q.token);
    DeliveryIs(q.session, q.correlation, q.route, q.delivery);
    DeliveryComplaint(q.session, q.correlation, q.route, q.delivery);
    if q.turn.Some? && q.turn.value != "" { assert ByteLen(q.turn.value) >= 1; }
    hide IsSegment, IsHost, IsTokenShape, TokenShape, Segment, Known, Delivery, DeliveryError, ByteLen, BadDelivery;
  }

  predicate BadDelivery(session: string, correlation: string, route: string, delivery: string, e: string) {
    if !Segment(session) || !Segment(delivery) then e == "invalid_segment"
    else if !Hex(correlation, 32) || !Hex(route, 64) then e == "invalid_route"
    else e == "delivery_mismatch"
  }

  lemma DeliveryComplaint(session: string, correlation: string, route: string, delivery: string)
    ensures var e := DeliveryError(session, correlation, route, delivery);
            e.Some? ==> BadDelivery(session, correlation, route, delivery, e.value)
  {
    ShapesAre(session, correlation, 32, "", []);
    ShapesAre(delivery, route, 64, "", []);
    hide IsSegment, IsLowerHex, Segment, Hex;
  }

  /** The same for a response. */
  lemma ResponseRefusal(caller: Option<Caller>, adapter: string, r: Response)
    ensures OnResponse(caller, adapter, r).Err? ==>
              var e := OnResponse(caller, adapter, r).error;
              if r.version != 1 then e == "unsupported_schema"
              else if !Known(r.host) then e == "unsupported_host"
              else if r.event.None? && r.canonicalHook.None? then e == "missing_event_classification"
              else if (r.event.Some? && !Segment(r.event.value)) || (r.canonicalHook.Some? && !Segment(r.canonicalHook.value))
              then e == "invalid_event_classification"
              else if !Delivery(r.session, r.correlation, r.route, r.delivery) then BadDelivery(r.session, r.correlation, r.route, r.delivery, e)
              else if r.context.Some? && ByteLen(r.context.value) > 65536 then e == "context_too_large"
              else if caller.None? then e == "caller_unavailable"
              else if caller.value.principal != Some(r.principal) then e == "principal_mismatch"
              else e == "policy_source_mismatch"
  {
    ShapesAre(r.event.GetOr(""), "", 0, r.host, []);
    ShapesAre(r.canonicalHook.GetOr(""), "", 0, r.host, []);
    DeliveryIs(r.session, r.correlation, r.route, r.delivery);
    DeliveryComplaint(r.session, r.correlation, r.route, r.delivery);
    hide IsSegment, IsHost, Segment, Known, Delivery, DeliveryError, ByteLen, BadDelivery;
  }

  /** Handlers of different sessions, or of different hosts, work on different keys. */
  lemma SessionsAreApart(hash: RouteHash, host1: string, host2: string, caller1: Option<Caller>, caller2: Option<Caller>,
                         q: Request, adapter: string, r: Response)
    requires OnRequest(hash, host1, caller1, q).Ok? && OnResponse(caller2, adapter, r).Ok?
    requires OnRequest(hash, host1, caller1, q).value.key == OnResponse(caller2, adapter, r).value.key
    ensures q.host == r.host && q.session == r.session
  {
    RequestReachesIff(hash, host1, caller1, q);
    ResponseReachesIff(caller2, adapter, r);
    hide OnRequest, OnResponse, Segment, Delivery, TokenShape;
    KeysNeverCollide(q.host, q.session, r.host, r.session);
  }

  /** Once a request has authenticated, and until its session is retired, an answer of that session passes the route
      check if and only if it comes on the request's route, whatever other handlers did meanwhile. */
  lemma AnswerIsAccepted(hash: RouteHash, s: System, schedule: seq<Action>, i: nat, expectedHost: string, caller1: Option<Caller>,
                         q: Request, caller2: Option<Caller>, adapter: string, r: Response)
    requires s.log == []
    requires OnRequest(hash, expectedHost, caller1, q).Ok? && OnResponse(caller2, adapter, r).Ok?
    requires r.host == q.host && r.session == q.session
    requires var log, key := Run(hash, s, schedule).log, TokenKey(q.host, q.session);
             i < |log| && Authenticates(log[i], key) && log[i].token == q.token && NoneRetired(log, key, i, |log|)
    ensures Advance(hash, Run(hash, s, schedule).kv, OnResponse(caller2, adapter, r).value).2 ==
            if r.route == q.route then RouteChecked(TokenKey(q.host, q.session), q.token) else RouteRefused(TokenKey(q.host, q.session))
  {
    RequestReachesIff(hash, expectedHost, caller1, q);
    ResponseReachesIff(caller2, adapter, r);
    HeldSince(hash, s, schedule, TokenKey(q.host, q.session), i);
    hide Run, OnRequest, OnResponse;
  }

  /** A token that authenticated is held until a retirement. */
  lemma HeldSince(hash: RouteHash, s: System, schedule: seq<Action>, key: string, i: nat)
    requires s.log == []
    requires var log := Run(hash, s, schedule).log; i < |log| && Authenticates(log[i], key) && NoneRetired(log, key, i, |log|)
    ensures var end := Run(hash, s, schedule); key in end.kv && end.kv[key] == end.log[i].token
  {
    hide Run, Holder;
    RunConsistent(hash, s, schedule);
    var kv, log := Run(hash, s, schedule).kv, Run(hash, s, schedule).log;
    HolderAfter(s.kv, kv, log, i);
    HolderStays(s.kv, kv, log, key, i + 1, |log|);
    assert log[..|log|] == log;
  }
}
