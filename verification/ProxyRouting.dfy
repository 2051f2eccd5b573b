/** Ingress binding and outbound demultiplexing: the pure decisions of the CLI proxy. */
module ProxyDecisions {
  import opened Common
  import opened StreamReconcile

  const DEFAULT_PRINCIPAL := "default"
  const CHAT_REQUEST_TOPIC := "user.v1.prompt"
  const ALLOWED_INGRESS_EXACT := ["user.v1.prompt", "cli.v1.command.execute"]
  const ALLOWED_INGRESS_PREFIXES := [
    "astrid.v1.request.", "astrid.v1.admin.", "astrid.v1.elicit.response.", "astrid.v1.approval.response.",
    "registry.v1.selection.", "session.v1.request.", "cli.v1.command.run."]
  const BLOCKED_INGRESS_PREFIXES := ["astrid.v1.admin.response."]

  predicate IsValidPrincipal(p: string) {
    IsSegment(p, 64)
  }

  predicate IsAllowedIngressTopic(topic: string) {
    && !(exists p | p in BLOCKED_INGRESS_PREFIXES :: StartsWith(topic, p))
    && (topic in ALLOWED_INGRESS_EXACT || exists p | p in ALLOWED_INGRESS_PREFIXES :: StartsWith(topic, p))
  }

  datatype DropReason = InvalidPrincipal(claimed: string) | PrincipalConflict(bound: string, claimed: string)

  datatype IngressDecision = Bind(principal: string) | ForwardAs(principal: string) | Refuse(reason: DropReason)

  function DecideIngress(binding: Option<string>, claimed: Option<string>): IngressDecision {
    match (binding, claimed)
    case (None, Some(p)) => if IsValidPrincipal(p) then Bind(p) else Refuse(InvalidPrincipal(p))
    case (None, None) => Bind(DEFAULT_PRINCIPAL)
    case (Some(b), None) => ForwardAs(b)
    case (Some(b), Some(p)) => if p == b then ForwardAs(b) else Refuse(PrincipalConflict(b, p))
  }

  /** A message the proxy publishes on behalf of a connection. */
  datatype Publication = Publication(topic: string, payload: Json, principal: string)

  datatype IngressOutcome = IngressOutcome(newlyBound: Option<string>, forward: Option<Publication>, session: Option<string>)

  /** The session a forwarded message puts its connection on. */
  function IngressSessionBind(topic: string, payload: Json): Option<string> {
    if topic == CHAT_REQUEST_TOPIC then SessionOf(payload) else None
  }

  /** One client message; None is a message that is not JSON. */
  function HandleIngress(message: Option<Json>, binding: Option<string>): IngressOutcome {
    match message
    case None => IngressOutcome(None, None, None)
    case Some(msg) =>
      var decision := DecideIngress(binding, msg.GetStr("principal"));
      if decision.Refuse? then IngressOutcome(None, None, None)
      else
        var newlyBound := if decision.Bind? then Some(decision.principal) else None;
        match (msg.GetStr("topic"), msg.Get("payload"))
        case (Some(topic), Some(payload)) =>
          if IsAllowedIngressTopic(topic)
          then IngressOutcome(newlyBound, Some(Publication(topic, payload, decision.principal)), IngressSessionBind(topic, payload))
          else IngressOutcome(newlyBound, None, None)
        case _ => IngressOutcome(newlyBound, None, None)
  }

  datatype Attribution = Verified(principal: string) | Claimed(principal: string) | System

  function AttributionTarget(a: Attribution): Option<string> {
    if a.System? then None else Some(a.principal)
  }

  function OutboundSessionScope(topic: string, payload: Json): Option<string> {
    if topic == CHAT_RESPONSE_TOPIC || topic == CHAT_DELTA_TOPIC then SessionOf(payload) else None
  }

  predicate ShouldDeliver(target: Option<string>, scope: Option<string>, principal: Option<string>, session: Option<string>) {
    && (target.Some? ==> principal == target)
    && (scope.Some? ==> session == scope)
  }

  // ---- What the proxy promises, in the words of the protocol ----

  /** A principal's name: 1 to 64 letters, digits, '_' and '-'. */
  predicate IsName(p: string) {
    1 <= |p| <= 64 && forall c | c in p :: 'a' <= c <= 'z' || 'A' <= c <= 'Z' || '0' <= c <= '9' || c in "_-"
  }

  /** What a client may publish: chat input, commands and requests, but never an admin response. */
  predicate MayForward(topic: string) {
    && !("astrid.v1.admin.response." <= topic)
    && (|| topic == "user.v1.prompt" || topic == "cli.v1.command.execute"
        || "astrid.v1.request." <= topic || "astrid.v1.admin." <= topic
        || "astrid.v1.elicit.response." <= topic || "astrid.v1.approval.response." <= topic
        || "registry.v1.selection." <= topic || "session.v1.request." <= topic || "cli.v1.command.run." <= topic)
  }

  /** The payload names session s. */
  predicate InSession(payload: Json, s: string) {
    payload.Obj? && "session_id" in payload.fields && payload.fields["session_id"] == Str(s)
  }

  /** The message is published in the name of p. */
  predicate InNameOf(a: Attribution, p: string) {
    a == Verified(p) || a == Claimed(p)
  }

  predicate IsChatReply(topic: string) {
    topic == "agent.v1.response" || topic == "agent.v1.stream.delta"
  }

  /** Who a message is for: the principal it is attributed to, if any; and, if it is a chat reply that names a session,
      the connection on that session. */
  ghost predicate Addressed(a: Attribution, topic: string, payload: Json, principal: Option<string>, session: Option<string>) {
    && (forall p | InNameOf(a, p) :: principal == Some(p))
    && (forall s | IsChatReply(topic) && InSession(payload, s) :: session == Some(s))
  }

  lemma NameIs(p: string)
    ensures IsValidPrincipal(p) <==> IsName(p)
  {
  }

  lemma ForwardIs(topic: string)
    ensures IsAllowedIngressTopic(topic) <==> MayForward(topic)
  {
    assert BLOCKED_INGRESS_PREFIXES[0] in BLOCKED_INGRESS_PREFIXES;
    AnyPrefix(topic);
    hide StartsWith;
  }

  lemma AnyPrefix(topic: string)
    ensures var p := ALLOWED_INGRESS_PREFIXES;
            (exists x | x in p :: StartsWith(topic, x)) <==>
            (|| StartsWith(topic, p[0]) || StartsWith(topic, p[1]) || StartsWith(topic, p[2]) || StartsWith(topic, p[3])
             || StartsWith(topic, p[4]) || StartsWith(topic, p[5]) || StartsWith(topic, p[6]))
  {
    hide StartsWith;
    var p := ALLOWED_INGRESS_PREFIXES;
    assert forall i | 0 <= i < 7 :: p[i] in p;
    assert forall x | x in p :: x in {p[0], p[1], p[2], p[3], p[4], p[5], p[6]};
  }

  /** The two gates let a message through to exactly those it is for. */
  lemma GatesAre(a: Attribution, topic: string, payload: Json, principal: Option<string>, session: Option<string>)
    ensures ShouldDeliver(AttributionTarget(a), OutboundSessionScope(topic, payload), principal, session) <==>
            Addressed(a, topic, payload, principal, session)
  {
    assert a.System? || InNameOf(a, a.principal);
    var s := SessionOf(payload);
    assert s.Some? ==> InSession(payload, s.value);
  }

  /** A claim the connection may make: none, its own principal, or, while unbound, a valid one. */
  predicate MayClaim(binding: Option<string>, claimed: Option<string>) {
    claimed == None || claimed == binding || (binding == None && IsName(claimed.value))
  }

  /** The principal traffic is attributed to: the bound one, else the claimed one, else the default. */
  function Attributed(binding: Option<string>, claimed: Option<string>): string {
    if binding.Some? then binding.value else if claimed.Some? then claimed.value else "default"
  }

  /** What one message does. It binds exactly when the connection is unbound and the claim acceptable; it is forwarded,
      unchanged and under the attributed principal, exactly when the claim is acceptable and it has a payload on an
      allowed topic; and only a forwarded prompt moves the connection to a session. */
  lemma IngressExactly(message: Option<Json>, binding: Option<string>)
    ensures var o := HandleIngress(message, binding);
            if message.None? then o == IngressOutcome(None, None, None)
            else
              var msg, claimed := message.value, message.value.GetStr("principal");
              && (o.newlyBound.Some? <==> binding == None && MayClaim(binding, claimed))
              && (o.newlyBound.Some? ==> o.newlyBound == Some(Attributed(binding, claimed)) && IsName(o.newlyBound.value))
              && (o.forward.Some? <==>
                    && MayClaim(binding, claimed) && msg.Get("payload").Some?
                    && msg.GetStr("topic").Some? && MayForward(msg.GetStr("topic").value))
              && (o.forward.Some? ==>
                    o.forward.value == Publication(msg.GetStr("topic").value, msg.Get("payload").value, Attributed(binding, claimed)))
              && forall s :: o.session == Some(s) <==>
                   o.forward.Some? && o.forward.value.topic == "user.v1.prompt" && InSession(o.forward.value.payload, s)
  {
    if message.Some? {
      var claimed, topic := message.value.GetStr("principal"), message.value.GetStr("topic");
      NameIs(claimed.GetOr("default"));
      NameIs("default");
      ForwardIs(topic.GetOr(""));
    }
    hide IsAllowedIngressTopic, MayForward, IsValidPrincipal, IsName;
  }
}

/** The proxy loop, with a trace of everything it did for each connection. */
module ProxyRouting {
  import opened Common
  import opened IndexLists
  import opened Machines
  import opened ProxyDecisions
  import opened StreamReconcile

  /** A connection; `conn` names it for its whole life. */
  datatype Client = Client(conn: nat, principal: Option<string>, session: Option<string>)

  datatype IpcMessage = IpcMessage(topic: string, payload: Json, attribution: Attribution)

  /** A message on its way to the clients, with the polled message it was made of. */
  datatype Outbound = Outbound(topic: string, payload: Json, target: Option<string>, session: Option<string>, from: IpcMessage)

  datatype Trace =
    | Accepted(conn: nat)
    | Bound(conn: nat, principal: string)
    | Forwarded(conn: nat, publication: Publication)
    | Delivered(conn: nat, message: Outbound)
    | Closed(conn: nat)

  /** The principal a connection was bound to, by the record of what happened. */
  function BoundTo(trace: seq<Trace>, conn: nat): Option<string> {
    if trace == [] then None
    else
      var before, last := BoundTo(trace[..|trace| - 1], conn), trace[|trace| - 1];
      if before == None && last.Bound? && last.conn == conn then Some(last.principal) else before
  }

  /** The event puts its connection on session s: a forwarded prompt that names it. */
  predicate Prompts(e: Trace, conn: nat, s: string) {
    e.Forwarded? && e.conn == conn && e.publication.topic == "user.v1.prompt" && InSession(e.publication.payload, s)
  }

  ghost function PromptOf(e: Trace, conn: nat): Option<string> {
    if s :| Prompts(e, conn, s) then Some(s) else None
  }

  /** The session id of the connection's latest forwarded prompt that carried one. */
  ghost function LatestPrompt(trace: seq<Trace>, conn: nat): Option<string> {
    if trace == [] then None
    else
      var last := PromptOf(trace[|trace| - 1], conn);
      if last.Some? then last else LatestPrompt(trace[..|trace| - 1], conn)
  }

  predicate IsOpen(trace: seq<Trace>, conn: nat) {
    trace != [] &&
    var last := trace[|trace| - 1];
    if last.conn == conn then !last.Closed? else IsOpen(trace[..|trace| - 1], conn)
  }

  predicate Occurs(trace: seq<Trace>, conn: nat) {
    exists e | e in trace :: e.conn == conn
  }

  /** What may happen next, given what happened. */
  ghost predicate StepSafe(before: seq<Trace>, e: Trace) {
    if e.Accepted? then !Occurs(before, e.conn)
    else
      && IsOpen(before, e.conn)
      && match e
         case Bound(conn, principal) => BoundTo(before, conn) == None && IsName(principal)
         case Forwarded(conn, p) => BoundTo(before, conn) == Some(p.principal) && MayForward(p.topic)
         case Delivered(conn, m) => Delivers(m, BoundTo(before, conn), LatestPrompt(before, conn))
         case _ => true
  }

  /** It is the polled message, on its topic, that is addressed to this principal and session. */
  ghost predicate Delivers(m: Outbound, principal: Option<string>, session: Option<string>) {
    m.topic == m.from.topic && Addressed(m.from.attribution, m.from.topic, m.from.payload, principal, session)
  }

  /** The message as it goes out is still the polled one: its topic, target and session are. */
  ghost predicate Linked(m: Outbound) {
    && m.topic == m.from.topic && m.target == AttributionTarget(m.from.attribution)
    && m.session == OutboundSessionScope(m.from.topic, m.from.payload)
  }

  ghost predicate Safe(trace: seq<Trace>) {
    forall n | 0 <= n < |trace| :: StepSafe(trace[..n], trace[n])
  }

  lemma SafeExtend(trace: seq<Trace>, e: Trace)
    requires Safe(trace) && StepSafe(trace, e)
    ensures Safe(trace + [e])
  {
    forall n | 0 <= n < |trace + [e]| ensures StepSafe((trace + [e])[..n], (trace + [e])[n]) {
      assert n < |trace| ==> (trace + [e])[..n] == trace[..n];
      assert n == |trace| ==> (trace + [e])[..n] == trace;
    }
  }

  /** What one more event changes, and for which connection. */
  lemma Extend(trace: seq<Trace>, e: Trace)
    ensures forall c :: BoundTo(trace + [e], c) ==
                        if BoundTo(trace, c) == None && e.Bound? && e.conn == c then Some(e.principal) else BoundTo(trace, c)
    ensures forall c | c != e.conn || !e.Forwarded? :: LatestPrompt(trace + [e], c) == LatestPrompt(trace, c)
    ensures forall s | Prompts(e, e.conn, s) :: LatestPrompt(trace + [e], e.conn) == Some(s)
    ensures (forall s :: !Prompts(e, e.conn, s)) ==> LatestPrompt(trace + [e], e.conn) == LatestPrompt(trace, e.conn)
    ensures forall c :: IsOpen(trace + [e], c) == if c == e.conn then !e.Closed? else IsOpen(trace, c)
    ensures forall c :: Occurs(trace + [e], c) <==> c == e.conn || Occurs(trace, c)
  {
    assert (trace + [e])[..|trace + [e]| - 1] == trace;
    forall c ensures Occurs(trace + [e], c) <==> c == e.conn || Occurs(trace, c) {
      assert e in trace + [e];
    }
  }

  /** In a safe trace a connection's principal never changes once bound, and is valid. */
  lemma {:induction false} PrincipalNeverChanges(trace: seq<Trace>, m: nat, n: nat, conn: nat)
    requires Safe(trace) && m <= n <= |trace|
    ensures BoundTo(trace[..m], conn).Some? ==> BoundTo(trace[..n], conn) == BoundTo(trace[..m], conn)
    ensures BoundTo(trace[..m], conn).Some? ==> IsName(BoundTo(trace[..m], conn).value)
    decreases n + m
  {
    hide BoundTo, LatestPrompt, IsOpen, Occurs;
    if m < n {
      PrincipalNeverChanges(trace, m, n - 1, conn);
      assert trace[..n] == trace[..n - 1] + [trace[n - 1]];
      Extend(trace[..n - 1], trace[n - 1]);
    } else if m > 0 {
      PrincipalNeverChanges(trace, m - 1, m - 1, conn);
      assert trace[..m] == trace[..m - 1] + [trace[m - 1]];
      Extend(trace[..m - 1], trace[m - 1]);
      assert StepSafe(trace[..m - 1], trace[m - 1]);
    } else {
      NothingBound(conn);
    }
  }

  lemma NothingBound(conn: nat)
    ensures BoundTo([], conn) == None
  {
  }

  /** No cross-talk: two messages received by one connection, whenever, are not in the names of two principals, and
      the one is also that under which its own traffic was forwarded. */
  lemma NoCrossTalk(trace: seq<Trace>, m: nat, n: nat, conn: nat)
    requires Safe(trace) && m < |trace| && n < |trace|
    requires trace[m].conn == trace[n].conn == conn && trace[m].Delivered?
    ensures forall p, q | InNameOf(trace[m].message.from.attribution, p) && trace[n].Delivered?
                          && InNameOf(trace[n].message.from.attribution, q) :: p == q
    ensures forall p | InNameOf(trace[m].message.from.attribution, p) && trace[n].Forwarded? :: p == trace[n].publication.principal
  {
    assert StepSafe(trace[..m], trace[m]) && StepSafe(trace[..n], trace[n]);
    if m <= n { PrincipalNeverChanges(trace, m, n, conn); } else { PrincipalNeverChanges(trace, n, m, conn); }
  }

  /** The connection's latest prompt among the first n events that carried a session id carried s. */
  ghost predicate LatestIs(trace: seq<Trace>, n: nat, conn: nat, s: string)
    requires n <= |trace|
  {
    exists k :: 0 <= k < n && Prompts(trace[k], conn, s) && forall j, t | k < j < n :: !Prompts(trace[j], conn, t)
  }

  lemma {:induction false} LatestFound(trace: seq<Trace>, n: nat, conn: nat, s: string)
    requires n <= |trace| && LatestPrompt(trace[..n], conn) == Some(s)
    ensures LatestIs(trace, n, conn, s)
  {
    assert n > 0 && trace[..n][..n - 1] == trace[..n - 1] && trace[..n][n - 1] == trace[n - 1];
    hide Prompts;
    if Prompts(trace[n - 1], conn, s) {
    } else {
      LatestFound(trace, n - 1, conn, s);
    }
  }

  /** A chat reply, whole or in pieces, that names a session reaches a connection only while its latest prompt with a
      session id named that session. */
  lemma DeliveredOnOwnSession(trace: seq<Trace>, n: nat, s: string)
    requires Safe(trace) && n < |trace| && trace[n].Delivered?
    requires trace[n].message.topic in {"agent.v1.response", "agent.v1.stream.delta"}
    requires var payload := trace[n].message.from.payload;
             payload.Obj? && "session_id" in payload.fields && payload.fields["session_id"] == Str(s)
    ensures LatestIs(trace, n, trace[n].conn, s)
  {
    assert StepSafe(trace[..n], trace[n]) && InSession(trace[n].message.from.payload, s);
    LatestFound(trace, n, trace[n].conn, s);
  }

  // ---- Removal by index ----

  /** The clients whose index is not listed. */
  function Keep(clients: seq<Client>, dead: seq<nat>): seq<Client> {
    if clients == [] then []
    else
      var n := |clients| - 1;
      Keep(clients[..n], dead) + if n in dead then [] else [clients[n]]
  }

  /** The listed indices below `bound`, sorted and without repetition. */
  function SortedUnique(dead: seq<nat>, bound: nat): (r: seq<nat>)
    ensures Ascending(r) && forall i: nat :: i in r <==> i in dead && i < bound
  {
    if bound == 0 then []
    else
      var smaller := SortedUnique(dead, bound - 1);
      assert forall i | 0 <= i < |smaller| :: smaller[i] in smaller;
      if bound - 1 in dead then smaller + [bound - 1] else smaller
  }

  lemma {:induction false} KeepFrom(clients: seq<Client>, dead: seq<nat>, i: nat)
    requires i < |clients|
    requires forall d | d in dead :: d < i
    ensures Keep(clients, dead) == Keep(clients[..i], dead) + clients[i..]
    decreases |clients|
  {
    var n := |clients| - 1;
    if i < n {
      KeepFrom(clients[..n], dead, i);
      assert clients[..n][..i] == clients[..i];
      assert clients[..n][i..] + [clients[n]] == clients[i..];
    } else {
      assert clients[i..] == [clients[n]];
    }
  }

  lemma {:induction false} KeepAll(clients: seq<Client>)
    ensures Keep(clients, []) == clients
    decreases |clients|
  {
    if clients != [] {
      KeepAll(clients[..|clients| - 1]);
      assert clients == clients[..|clients| - 1] + [clients[|clients| - 1]];
    }
  }

  /** Removing the largest listed index first leaves the smaller ones where they were. */
  lemma KeepLast(clients: seq<Client>, dead: seq<nat>)
    requires dead != [] && Ascending(dead) && dead[|dead| - 1] < |clients|
    ensures var i, rest := dead[|dead| - 1], dead[..|dead| - 1];
            Keep(clients, dead) == Keep(clients[..i] + clients[i + 1..], rest)
  {
    var i, rest := dead[|dead| - 1], dead[..|dead| - 1];
    assert dead == rest + [i];
    KeepSame(clients[..i], dead, rest);
    KeepTail(clients, dead, i);
    var fewer := clients[..i] + clients[i + 1..];
    assert fewer[..i] == clients[..i];
    if i < |fewer| {
      KeepFrom(fewer, rest, i);
      assert fewer[i..] == clients[i + 1..];
    } else {
      assert fewer == clients[..i];
      assert clients[i + 1..] == [];
    }
  }

  lemma {:induction false} KeepSame(clients: seq<Client>, a: seq<nat>, b: seq<nat>)
    requires forall i | 0 <= i < |clients| :: i in a <==> i in b
    ensures Keep(clients, a) == Keep(clients, b)
    decreases |clients|
  {
    if clients != [] { KeepSame(clients[..|clients| - 1], a, b); }
  }

  lemma {:induction false} KeepTail(clients: seq<Client>, dead: seq<nat>, i: nat)
    requires i < |clients| && i in dead && forall d | d in dead :: d <= i
    ensures Keep(clients, dead) == Keep(clients[..i], dead) + clients[i + 1..]
    decreases |clients|
  {
    var n := |clients| - 1;
    if i < n {
      KeepTail(clients[..n], dead, i);
      assert clients[..n][..i] == clients[..i];
      assert clients[..n][i + 1..] + [clients[n]] == clients[i + 1..];
    }
  }

  lemma {:induction false} KeepSubset(clients: seq<Client>, dead: seq<nat>)
    ensures forall c | c in Keep(clients, dead) :: c in clients
    decreases |clients|
  {
    if clients != [] { KeepSubset(clients[..|clients| - 1], dead); }
  }

  // ---- The loop ----

  ghost predicate Knows(c: Client, trace: seq<Trace>) {
    IsOpen(trace, c.conn) && BoundTo(trace, c.conn) == c.principal && LatestPrompt(trace, c.conn) == c.session
  }

  /** The connected clients are distinct, open, and hold exactly the binding and session the trace gives them. */
  ghost predicate Good(clients: seq<Client>, trace: seq<Trace>, nextConn: nat) {
    && Safe(trace)
    && (forall c | c in clients :: Knows(c, trace))
    && DistinctConns(clients)
    && (forall e | e in trace :: e.conn < nextConn)
  }

  lemma GoodAccept(clients: seq<Client>, trace: seq<Trace>, nextConn: nat)
    requires Good(clients, trace, nextConn)
    ensures Good(clients + [Client(nextConn, None, None)], trace + [Accepted(nextConn)], nextConn + 1)
  {
    SafeExtend(trace, Accepted(nextConn));
    Extend(trace, Accepted(nextConn));
    NeverHeardOf(trace, nextConn);
    forall c | c in clients ensures c.conn < nextConn { OpenOccurs(trace, c.conn); }
  }

  lemma {:induction false} NeverHeardOf(trace: seq<Trace>, conn: nat)
    requires !Occurs(trace, conn)
    ensures BoundTo(trace, conn) == None && LatestPrompt(trace, conn) == None
    decreases |trace|
  {
    if trace != [] {
      var init, last := trace[..|trace| - 1], trace[|trace| - 1];
      assert last in trace;
      assert forall e | e in init :: e in trace;
      NeverHeardOf(init, conn);
    }
  }

  lemma {:induction false} OpenOccurs(trace: seq<Trace>, conn: nat)
    requires IsOpen(trace, conn)
    ensures Occurs(trace, conn)
    decreases |trace|
  {
    var init, last := trace[..|trace| - 1], trace[|trace| - 1];
    assert last in trace;
    if last.conn != conn {
      OpenOccurs(init, conn);
      assert forall e | e in init :: e in trace;
    }
  }

  /** A connection is not affected by what happens to others. */
  lemma KnowsStill(c: Client, trace: seq<Trace>, e: Trace)
    requires Knows(c, trace) && c.conn != e.conn
    ensures Knows(c, trace + [e])
  {
    Extend(trace, e);
    hide BoundTo, LatestPrompt, IsOpen, Occurs;
  }

  /** An event moves its connection to the session it prompts for, if it does. */
  ghost predicate NextSession(e: Trace, session: Option<string>, next: Option<string>) {
    && (forall s | Prompts(e, e.conn, s) :: next == Some(s))
    && ((forall s :: !Prompts(e, e.conn, s)) ==> next == session)
  }

  /** A client updated to match a safe event of its own. */
  lemma KnowsNext(c: Client, trace: seq<Trace>, e: Trace, next: Client)
    requires Knows(c, trace) && StepSafe(trace, e)
    requires next.conn == e.conn == c.conn && (e.Bound? || e.Forwarded? || e.Delivered?)
    requires next.principal == if e.Bound? then Some(e.principal) else c.principal
    requires NextSession(e, c.session, next.session)
    ensures Knows(next, trace + [e])
  {
    assert e.Bound? ==> BoundTo(trace, e.conn) == None;
    Extend(trace, e);
    hide StepSafe, BoundTo, LatestPrompt, IsOpen, Occurs;
  }

  predicate DistinctConns(clients: seq<Client>) {
    forall i, j | 0 <= i < j < |clients| :: clients[i].conn != clients[j].conn
  }

  /** An event of client i that is safe, and the client updated to match. */
  lemma GoodEvent(clients: seq<Client>, trace: seq<Trace>, nextConn: nat, i: nat, e: Trace, next: Client)
    requires Good(clients, trace, nextConn) && i < |clients|
    requires next.conn == e.conn == clients[i].conn && (e.Bound? || e.Forwarded? || e.Delivered?)
    requires StepSafe(trace, e)
    requires next.principal == if e.Bound? then Some(e.principal) else clients[i].principal
    requires NextSession(e, clients[i].session, next.session)
    ensures Good(clients[i := next], trace + [e], nextConn)
  {
    SafeExtend(trace, e);
    assert clients[i] in clients;
    OpenOccurs(trace, e.conn) by { assert Knows(clients[i], trace); }
    assert e.conn < nextConn by { var x :| x in trace && x.conn == e.conn; }
    KnowsNext(clients[i], trace, e, next);
    hide Safe, StepSafe, Knows, NextSession, Occurs, IsOpen;
    var after := clients[i := next];
    assert DistinctConns(after);
    forall k | 0 <= k < |after| ensures Knows(after[k], trace + [e]) {
      assert clients[k] in clients;
      if k != i { KnowsStill(clients[k], trace, e); }
    }
  }

  lemma GoodClose(clients: seq<Client>, trace: seq<Trace>, nextConn: nat, i: nat)
    requires Good(clients, trace, nextConn) && i < |clients|
    ensures Good(clients[..i] + clients[i + 1..], trace + [Closed(clients[i].conn)], nextConn)
  {
    var e, fewer := Closed(clients[i].conn), clients[..i] + clients[i + 1..];
    assert clients[i] in clients && Knows(clients[i], trace);
    SafeExtend(trace, e);
    OpenOccurs(trace, e.conn);
    assert e.conn < nextConn by { var x :| x in trace && x.conn == e.conn; }
    hide Safe, StepSafe, Knows, Occurs, IsOpen;
    WithoutOne(clients, i);
    forall c | c in fewer ensures Knows(c, trace + [e]) { KnowsStill(c, trace, e); }
    hide DistinctConns;
  }

  lemma WithoutOne(clients: seq<Client>, i: nat)
    requires i < |clients| && DistinctConns(clients)
    ensures var fewer := clients[..i] + clients[i + 1..];
            DistinctConns(fewer) && forall c | c in fewer :: c in clients && c.conn != clients[i].conn
  {
    var fewer := clients[..i] + clients[i + 1..];
    forall k | 0 <= k < |fewer| ensures fewer[k] == clients[if k < i then k else k + 1] {}
    forall c | c in fewer ensures c in clients && c.conn != clients[i].conn {
      var k :| 0 <= k < |fewer| && fewer[k] == c;
      assert c == clients[if k < i then k else k + 1];
    }
  }
}
