/** The proxy loop: connections, reads, polls and removals, turn by turn. */
module ProxyLoop {
  import opened Common
  import opened IndexLists
  import opened ProxyDecisions
  import opened ProxyRouting
  import opened StreamReconcile

  datatype Recv = Bytes(message: Option<Json>) | Empty | Gone

  datatype Poll = Messages(messages: seq<IpcMessage>) | PollFailed

  /** What the environment does during one turn of the loop. */
  datatype Turn = Turn(accepted: bool, another: bool, recv: nat -> Recv, polls: seq<Poll>)

  /** The trace entries of one ingress outcome. */
  function IngressTrace(conn: nat, o: IngressOutcome): seq<Trace> {
    (if o.newlyBound.Some? then [Bound(conn, o.newlyBound.value)] else []) +
    (if o.forward.Some? then [Forwarded(conn, o.forward.value)] else [])
  }

  /** Everything a client is to receive of a poll result, in order. */
  ghost function Deliveries(c: Client, outbound: seq<Outbound>): seq<Trace> {
    if outbound == [] then []
    else
      var n := |outbound| - 1;
      var m := outbound[n];
      Deliveries(c, outbound[..n]) +
      if Delivers(m, c.principal, c.session) then [Delivered(c.conn, m)] else []
  }

  function Marked(c: Client, o: IngressOutcome): Client {
    Client(c.conn, if o.newlyBound.Some? then o.newlyBound else c.principal, if o.session.Some? then o.session else c.session)
  }

  /** What one read adds to the record of a client, and the client afterwards. */
  function ReadEntries(c: Client, r: Recv): seq<Trace> {
    if r.Bytes? then IngressTrace(c.conn, HandleIngress(r.message, c.principal)) else []
  }

  function ReadMark(c: Client, r: Recv): Client {
    if r.Bytes? then Marked(c, HandleIngress(r.message, c.principal)) else c
  }

  /** The same for all clients, each read once, in order. */
  function AllEntries(clients: seq<Client>, recv: nat -> Recv): seq<Trace> {
    if clients == [] then []
    else
      var n := |clients| - 1;
      AllEntries(clients[..n], recv) + ReadEntries(clients[n], recv(clients[n].conn))
  }

  function AllMarked(clients: seq<Client>, recv: nat -> Recv): seq<Client> {
    seq(|clients|, i requires 0 <= i < |clients| => ReadMark(clients[i], recv(clients[i].conn)))
  }

  /** The indices of the clients whose read says the connection is gone. */
  function GoneAt(clients: seq<Client>, recv: nat -> Recv): (r: seq<nat>)
    ensures Below(r, |clients|) && Ascending(r)
    ensures forall i: nat :: i in r <==> i < |clients| && recv(clients[i].conn).Gone?
  {
    if clients == [] then []
    else
      var n := |clients| - 1;
      GoneAt(clients[..n], recv) + if recv(clients[n].conn).Gone? then [n] else []
  }

  /** Closing the listed clients, last index first. */
  function Closings(clients: seq<Client>, dead: seq<nat>): seq<Trace>
    requires Below(dead, |clients|)
  {
    if dead == [] then []
    else
      var n := |dead| - 1;
      [Closed(clients[dead[n]].conn)] + Closings(clients, dead[..n])
  }

  /** Deliveries to the clients not yet dead: the first sent[i] messages, filtered for client i. */
  ghost function Fanned(clients: seq<Client>, outbound: seq<Outbound>, dead: seq<nat>, sent: seq<nat>): seq<Trace>
    requires |sent| == |clients| && forall i | 0 <= i < |sent| :: sent[i] <= |outbound|
  {
    if clients == [] then []
    else
      var n := |clients| - 1;
      Fanned(clients[..n], outbound, dead, sent[..n]) + if n in dead then [] else Deliveries(clients[n], outbound[..sent[n]])
  }

  /** The accumulator went through these messages, in order. */
  ghost predicate Took(before: seq<Message>, after: seq<Message>, messages: seq<IpcMessage>) {
    && before <= after && |after| == |before| + |messages|
    && forall k | 0 <= k < |messages| ::
         after[|before| + k].topic == messages[k].topic && after[|before| + k].payload == messages[k].payload
  }

  function Polled(polls: seq<Poll>): seq<IpcMessage> {
    if polls == [] then []
    else
      var last := polls[|polls| - 1];
      Polled(polls[..|polls| - 1]) + if last.Messages? then last.messages else []
  }

  lemma TookThen(a: seq<Message>, b: seq<Message>, c: seq<Message>, m: seq<IpcMessage>, n: seq<IpcMessage>)
    requires Took(a, b, m) && Took(b, c, n)
    ensures Took(a, c, m + n)
  {
    forall k | 0 <= k < |m + n|
      ensures c[|a| + k].topic == (m + n)[k].topic && c[|a| + k].payload == (m + n)[k].payload
    {
      if k < |m| {
        assert c[|a| + k] == b[|a| + k];
      } else {
        assert c[|b| + (k - |m|)] == c[|a| + k];
      }
    }
  }

  // ---- Progress of the two loops over clients ----

  /** Reads 0 to i - 1 are done. */
  ghost predicate ReadSoFar(start: seq<Client>, trace0: seq<Trace>, recv: nat -> Recv, i: nat,
                            clients: seq<Client>, trace: seq<Trace>, dead: seq<nat>) {
    && i <= |start|
    && clients == AllMarked(start[..i], recv) + start[i..]
    && trace == trace0 + AllEntries(start[..i], recv)
    && dead == GoneAt(start[..i], recv)
  }

  lemma ReadStarts(start: seq<Client>, trace0: seq<Trace>, recv: nat -> Recv)
    ensures ReadSoFar(start, trace0, recv, 0, start, trace0, [])
  {
  }

  lemma ReadHere(start: seq<Client>, trace0: seq<Trace>, recv: nat -> Recv, i: nat,
                 clients: seq<Client>, trace: seq<Trace>, dead: seq<nat>)
    requires ReadSoFar(start, trace0, recv, i, clients, trace, dead) && i < |start|
    ensures |clients| == |start| && clients[i] == start[i] && Below(dead, i)
  {
  }

  lemma ReadOneMore(start: seq<Client>, trace0: seq<Trace>, recv: nat -> Recv, i: nat, was: seq<Client>, before: seq<Trace>,
                    deadBefore: seq<nat>, clients: seq<Client>, trace: seq<Trace>, dead: seq<nat>)
    requires ReadSoFar(start, trace0, recv, i, was, before, deadBefore) && i < |start|
    requires var r := recv(start[i].conn);
             && clients == (if r.Bytes? then was[i := ReadMark(start[i], r)] else was)
             && trace == (if r.Bytes? then before + ReadEntries(start[i], r) else before)
             && dead == if r.Gone? then deadBefore + [i] else deadBefore
    ensures ReadSoFar(start, trace0, recv, i + 1, clients, trace, dead)
  {
    ReadSnoc(start, recv, i);
    OneMarked(AllMarked(start[..i], recv), start, i, recv(start[i].conn), was, clients);
    OneEntry(trace0, AllEntries(start[..i], recv), start[i], recv(start[i].conn), before, trace);
    hide *;
    ReadIs(start, trace0, recv, i + 1, clients, trace, dead);
  }

  lemma ReadIs(start: seq<Client>, trace0: seq<Trace>, recv: nat -> Recv, i: nat, clients: seq<Client>, trace: seq<Trace>, dead: seq<nat>)
    requires i <= |start| && clients == AllMarked(start[..i], recv) + start[i..]
    requires trace == trace0 + AllEntries(start[..i], recv) && dead == GoneAt(start[..i], recv)
    ensures ReadSoFar(start, trace0, recv, i, clients, trace, dead)
  {
  }

  lemma OneMarked(marked: seq<Client>, start: seq<Client>, i: nat, r: Recv, was: seq<Client>, clients: seq<Client>)
    requires i < |start| && |marked| == i && was == marked + start[i..]
    requires clients == if r.Bytes? then was[i := ReadMark(start[i], r)] else was
    ensures clients == marked + [ReadMark(start[i], r)] + start[i + 1..]
  {
    hide Marked, HandleIngress;
  }

  lemma OneEntry(trace0: seq<Trace>, entries: seq<Trace>, c: Client, r: Recv, before: seq<Trace>, trace: seq<Trace>)
    requires before == trace0 + entries
    requires trace == if r.Bytes? then before + ReadEntries(c, r) else before
    ensures trace == trace0 + (entries + ReadEntries(c, r))
  {
    hide IngressTrace, HandleIngress;
  }

  lemma ReadSnoc(start: seq<Client>, recv: nat -> Recv, i: nat)
    requires i < |start|
    ensures var r, most, more := recv(start[i].conn), start[..i], start[..i + 1];
            && AllMarked(more, recv) == AllMarked(most, recv) + [ReadMark(start[i], r)]
            && AllEntries(more, recv) == AllEntries(most, recv) + ReadEntries(start[i], r)
            && GoneAt(more, recv) == (if r.Gone? then GoneAt(most, recv) + [i] else GoneAt(most, recv))
            && |AllMarked(most, recv)| == i
  {
    assert start[..i + 1][..i] == start[..i];
    hide ReadMark, ReadEntries;
  }

  lemma ReadEnds(start: seq<Client>, trace0: seq<Trace>, recv: nat -> Recv, clients: seq<Client>, trace: seq<Trace>, dead: seq<nat>)
    requires ReadSoFar(start, trace0, recv, |start|, clients, trace, dead)
    ensures clients == AllMarked(start, recv) && |clients| == |start| && trace == trace0 + AllEntries(start, recv)
    ensures dead == GoneAt(start, recv) && Below(dead, |start|) && Ascending(dead)
    ensures Closings(clients, dead) == Closings(start, dead)
  {
    assert start[..|start|] == start;
    SameConns(start, recv, dead);
  }

  /** The listed clients from position n up are gone; the others listed are where they were. */
  ghost predicate RemovedDownTo(start: seq<Client>, trace0: seq<Trace>, dead: seq<nat>, n: nat, clients: seq<Client>, trace: seq<Trace>) {
    && n <= |dead| && Ascending(dead) && Below(dead, |start|)
    && Keep(clients, dead[..n]) == Keep(start, dead)
    && (forall k | 0 <= k < n :: dead[k] < |clients| && clients[dead[k]] == start[dead[k]])
    && trace + Closings(start, dead[..n]) == trace0 + Closings(start, dead)
  }

  lemma RemovalStarts(start: seq<Client>, trace0: seq<Trace>, dead: seq<nat>)
    requires Ascending(dead) && Below(dead, |start|)
    ensures RemovedDownTo(start, trace0, dead, |dead|, start, trace0)
  {
    assert dead[..|dead|] == dead;
  }

  lemma RemoveOneMore(start: seq<Client>, trace0: seq<Trace>, dead: seq<nat>, n: nat, clients: seq<Client>, trace: seq<Trace>)
    requires n < |dead| && RemovedDownTo(start, trace0, dead, n + 1, clients, trace)
    ensures var i := dead[n];
            i < |clients| && RemovedDownTo(start, trace0, dead, n, clients[..i] + clients[i + 1..], trace + [Closed(clients[i].conn)])
  {
    var i := dead[n];
    assert dead[..n + 1][..n] == dead[..n];
    KeepLast(clients, dead[..n + 1]);
    hide Keep;
    assert Closings(start, dead[..n + 1]) == [Closed(start[i].conn)] + Closings(start, dead[..n]);
    hide Closings;
    Assoc(trace, [Closed(clients[i].conn)], Closings(start, dead[..n]));
  }

  lemma RemovalEnds(start: seq<Client>, trace0: seq<Trace>, dead: seq<nat>, clients: seq<Client>, trace: seq<Trace>)
    requires RemovedDownTo(start, trace0, dead, 0, clients, trace)
    ensures clients == Keep(start, dead) && trace == trace0 + Closings(start, dead)
  {
    assert dead[..0] == [];
    KeepAll(clients);
  }

  /** Clients 0 to i - 1 have been served. */
  ghost predicate FannedSoFar(clients: seq<Client>, outbound: seq<Outbound>, dead: seq<nat>, trace0: seq<Trace>, i: nat,
                              trace: seq<Trace>, nowDead: seq<nat>, sent: seq<nat>) {
    && i <= |clients|
    && ServedSoFar(|clients|, |outbound|, dead, i, nowDead, sent)
    && trace == trace0 + Fanned(clients[..i], outbound, dead, sent)
  }

  /** Of n clients, i have been sent their messages: all of them, unless they died by then. */
  ghost predicate ServedSoFar(n: nat, all: nat, dead: seq<nat>, i: nat, nowDead: seq<nat>, sent: seq<nat>) {
    && |sent| == i && Below(dead, n) && dead <= nowDead && Below(nowDead, n)
    && (forall d | d in nowDead :: d in dead || d < i)
    && (forall k | 0 <= k < i :: sent[k] <= all && (k !in nowDead ==> sent[k] == all))
  }

  lemma FanStarts(clients: seq<Client>, outbound: seq<Outbound>, dead: seq<nat>, trace0: seq<Trace>)
    requires Below(dead, |clients|)
    ensures FannedSoFar(clients, outbound, dead, trace0, 0, trace0, dead, [])
  {
    assert trace0 + [] == trace0;
  }

  lemma FanHere(clients: seq<Client>, outbound: seq<Outbound>, dead: seq<nat>, trace0: seq<Trace>, i: nat,
                trace: seq<Trace>, nowDead: seq<nat>, sent: seq<nat>)
    requires FannedSoFar(clients, outbound, dead, trace0, i, trace, nowDead, sent)
    ensures i in nowDead <==> i in dead
  {
  }

  lemma FanOneMore(clients: seq<Client>, outbound: seq<Outbound>, dead: seq<nat>, trace0: seq<Trace>, i: nat,
                   before: seq<Trace>, was: seq<nat>, sent: seq<nat>, k: nat, ok: bool, trace: seq<Trace>, nowDead: seq<nat>)
    requires i < |clients| && FannedSoFar(clients, outbound, dead, trace0, i, before, was, sent)
    requires i in was <==> i in dead
    requires k <= |outbound| && (ok && i !in was ==> k == |outbound|)
    requires trace == if i in was then before else before + Deliveries(clients[i], outbound[..k])
    requires nowDead == if i !in was && !ok then was + [i] else was
    ensures FannedSoFar(clients, outbound, dead, trace0, i + 1, trace, nowDead, sent + [k])
  {
    hide Deliveries, Fanned;
    FanSnoc(clients, outbound, dead, sent, k);
    Assoc(trace0, Fanned(clients[..i], outbound, dead, sent), Deliveries(clients[i], outbound[..k]));
    NowDead(|clients|, |outbound|, dead, i, was, sent, k, ok, nowDead);
    hide Below, ServedSoFar, FannedSoFar;
    FanIs(clients, outbound, dead, trace0, i + 1, trace, nowDead, sent + [k]);
  }

  lemma FanIs(clients: seq<Client>, outbound: seq<Outbound>, dead: seq<nat>, trace0: seq<Trace>, i: nat,
              trace: seq<Trace>, nowDead: seq<nat>, sent: seq<nat>)
    requires i <= |clients| && ServedSoFar(|clients|, |outbound|, dead, i, nowDead, sent)
    requires trace == trace0 + Fanned(clients[..i], outbound, dead, sent)
    ensures FannedSoFar(clients, outbound, dead, trace0, i, trace, nowDead, sent)
  {
  }

  lemma Assoc<T>(a: seq<T>, b: seq<T>, c: seq<T>)
    ensures a + b + c == a + (b + c)
  {
  }

  lemma NowDead(n: nat, all: nat, dead: seq<nat>, i: nat, was: seq<nat>, sent: seq<nat>, k: nat, ok: bool, nowDead: seq<nat>)
    requires i < n && ServedSoFar(n, all, dead, i, was, sent)
    requires k <= all && (ok && i !in was ==> k == all)
    requires nowDead == if i !in was && !ok then was + [i] else was
    ensures ServedSoFar(n, all, dead, i + 1, nowDead, sent + [k])
  {
  }

  lemma FanSnoc(clients: seq<Client>, outbound: seq<Outbound>, dead: seq<nat>, sent: seq<nat>, k: nat)
    requires |sent| < |clients| && k <= |outbound| && forall j | 0 <= j < |sent| :: sent[j] <= |outbound|
    ensures var i := |sent|;
            Fanned(clients[..i + 1], outbound, dead, sent + [k]) ==
            if i in dead then Fanned(clients[..i], outbound, dead, sent)
            else Fanned(clients[..i], outbound, dead, sent) + Deliveries(clients[i], outbound[..k])
  {
    hide Deliveries;
    var i := |sent|;
    assert clients[..i + 1][..i] == clients[..i] && (sent + [k])[..i] == sent;
  }

  lemma FanEnds(clients: seq<Client>, outbound: seq<Outbound>, dead: seq<nat>, trace0: seq<Trace>,
                trace: seq<Trace>, nowDead: seq<nat>, sent: seq<nat>)
    requires FannedSoFar(clients, outbound, dead, trace0, |clients|, trace, nowDead, sent)
    ensures |sent| == |clients| && (forall i | 0 <= i < |sent| :: sent[i] <= |outbound|)
    ensures trace == trace0 + Fanned(clients, outbound, dead, sent)
    ensures dead <= nowDead && Below(nowDead, |clients|)
    ensures forall i: nat | i < |clients| && i !in nowDead :: sent[i] == |outbound|
  {
    assert clients[..|clients|] == clients;
  }

  // ---- What a turn is ----

  /** The state of the loop: connections, record, next connection name, and what the accumulator went through. */
  datatype Loop = Loop(clients: seq<Client>, trace: seq<Trace>, nextConn: nat, history: seq<Message>)

  /** One broadcast: what went out, who was dead before, and how much of it each client was offered. */
  datatype Round = Round(outbound: seq<Outbound>, dead: seq<nat>, sent: seq<nat>)

  predicate RoundOk(n: nat, r: Round) {
    |r.sent| == n && forall i | 0 <= i < n :: r.sent[i] <= |r.outbound|
  }

  /** Whoever is not dead in the end was offered everything of every round. */
  ghost predicate RoundsOk(n: nat, rounds: seq<Round>, dead: seq<nat>) {
    && (forall r | r in rounds :: RoundOk(n, r))
    && (forall r, i: nat | r in rounds && i < n && i !in dead :: i !in r.dead && r.sent[i] == |r.outbound|)
  }

  ghost function RoundsTrace(clients: seq<Client>, rounds: seq<Round>): seq<Trace>
    requires forall r | r in rounds :: RoundOk(|clients|, r)
  {
    if rounds == [] then []
    else
      var init, last := rounds[..|rounds| - 1], rounds[|rounds| - 1];
      assert RoundOk(|clients|, last) && forall r | r in init :: r in rounds;
      RoundsTrace(clients, init) + Fanned(clients, last.outbound, last.dead, last.sent)
  }

  function RoundsOut(rounds: seq<Round>): seq<Outbound> {
    if rounds == [] then [] else RoundsOut(rounds[..|rounds| - 1]) + rounds[|rounds| - 1].outbound
  }

  predicate NoneFails(polls: seq<Poll>) {
    forall p | p in polls :: p.Messages?
  }

  function UpToFailure(polls: seq<Poll>): seq<Poll> {
    if polls == [] || polls[0].PollFailed? then [] else [polls[0]] + UpToFailure(polls[1..])
  }

  /** What draining polls did: the messages passed the accumulator once, in order, and went out in rounds. */
  ghost predicate Drained(clients: seq<Client>, trace0: seq<Trace>, history0: seq<Message>, messages: seq<IpcMessage>,
                          trace: seq<Trace>, history: seq<Message>, dead: seq<nat>, rounds: seq<Round>) {
    && Below(dead, |clients|)
    && RoundsOk(|clients|, rounds, dead)
    && trace == trace0 + RoundsTrace(clients, rounds)
    && Took(history0, history, messages)
    && Prepared(messages, RoundsOut(rounds), |history0|, history)
  }

  function Joined(s: Loop): Loop {
    Loop(s.clients + [Client(s.nextConn, None, None)], s.trace + [Accepted(s.nextConn)], s.nextConn + 1, s.history)
  }

  function Connected(turn: Turn, s: Loop): Loop {
    var first := if s.clients == [] then Joined(s) else s;
    if turn.another then Joined(first) else first
  }

  function AfterReads(recv: nat -> Recv, s: Loop): Loop {
    Loop(Keep(AllMarked(s.clients, recv), GoneAt(s.clients, recv)),
         s.trace + AllEntries(s.clients, recv) + Closings(s.clients, GoneAt(s.clients, recv)),
         s.nextConn, s.history)
  }

  /** One turn, from state to state: connections join, each is read once and the closed ones go; the polls are drained
      up to a failure; and, unless one failed, the connections that died are removed. */
  ghost predicate TurnHappened(turn: Turn, a: Loop, b: Loop, running: bool) {
    if a.clients == [] && !turn.accepted then b == a && running
    else
      var c := AfterReads(turn.recv, Connected(turn, a));
      running == NoneFails(turn.polls) &&
      exists trace, dead, rounds | Drained(c.clients, c.trace, c.history, Polled(UpToFailure(turn.polls)), trace, b.history, dead, rounds) ::
        b == Removed(Loop(c.clients, trace, c.nextConn, b.history), dead, running)
  }

  function Removed(s: Loop, dead: seq<nat>, running: bool): Loop {
    if !running then s
    else
      var listed := SortedUnique(dead, |s.clients|);
      SortedBelow(dead, |s.clients|);
      Loop(Keep(s.clients, listed), s.trace + Closings(s.clients, listed), s.nextConn, s.history)
  }

  class Proxy {
    var clients: seq<Client>
    var trace: seq<Trace>
    var nextConn: nat
    const stream: StreamAccumulator

    ghost predicate Valid()
      reads this, stream
    {
      Good(clients, trace, nextConn) && stream.Consistent()
    }

    ghost function State(): Loop
      reads this, stream
    {
      Loop(clients, trace, nextConn, stream.history)
    }

    constructor ()
      ensures Valid() && clients == [] && trace == [] && fresh(stream)
    {
      clients, trace, nextConn := [], [], 0;
      stream := new StreamAccumulator();
    }

    method Accept()
      requires Valid()
      modifies this
      ensures Valid()
      ensures clients == old(clients) + [Client(old(nextConn), None, None)]
      ensures trace == old(trace) + [Accepted(old(nextConn))] && nextConn == old(nextConn) + 1
    {
      GoodAccept(clients, trace, nextConn);
      clients := clients + [Client(nextConn, None, None)];
      trace := trace + [Accepted(nextConn)];
      nextConn := nextConn + 1;
    }

    /** Applies one client message and folds the outcome back onto the connection. */
    method Ingress(i: nat, message: Option<Json>)
      requires Valid() && i < |clients|
      modifies this
      ensures Valid() && nextConn == old(nextConn)
      ensures var o, c := HandleIngress(message, old(clients)[i].principal), old(clients)[i];
              && trace == old(trace) + IngressTrace(c.conn, o)
              && clients == old(clients)[i := Marked(c, o)]
    {
      var c := clients[i];
      var o := HandleIngress(message, c.principal);
      IngressIsSafe(clients, trace, nextConn, i, message);
      IngressEntries(trace, c.conn, o);
      IngressExactly(message, c.principal);
      hide Good, HandleIngress, IngressTrace, MayClaim, Attributed, InSession;
      if o.newlyBound.Some? {
        c := c.(principal := o.newlyBound);
        trace := trace + [Bound(c.conn, o.newlyBound.value)];
      }
      if o.forward.Some? {
        trace := trace + [Forwarded(c.conn, o.forward.value)];
        if o.session.Some? { c := c.(session := o.session); }
      }
      clients := clients[i := c];
    }

    /** Reads each connection once; those that closed are removed afterwards, highest index first. */
    method ReadAll(recv: nat -> Recv)
      requires Valid()
      modifies this
      ensures Valid() && nextConn == old(nextConn)
      ensures trace == old(trace) + AllEntries(old(clients), recv) + Closings(old(clients), GoneAt(old(clients), recv))
      ensures clients == Keep(AllMarked(old(clients), recv), GoneAt(old(clients), recv))
    {
      hide Good, HandleIngress, IngressTrace, ReadSoFar, Marked, AllMarked, AllEntries, GoneAt, Closings, Keep, Below;
      var dead: seq<nat> := [];
      ReadStarts(clients, trace, recv);
      for i := 0 to |clients|
        invariant Valid() && nextConn == old(nextConn)
        invariant ReadSoFar(old(clients), old(trace), recv, i, clients, trace, dead)
      {
        ReadHere(old(clients), old(trace), recv, i, clients, trace, dead);
        ghost var before, was, deadBefore := trace, clients, dead;
        match recv(clients[i].conn) {
          case Bytes(message) => Ingress(i, message);
          case Empty =>
          case Gone => dead := dead + [i];
        }
        ReadOneMore(old(clients), old(trace), recv, i, was, before, deadBefore, clients, trace, dead);
      }
      ReadEnds(old(clients), old(trace), recv, clients, trace, dead);
      RemoveAll(dead);
    }

    /** Removes the clients at the listed indices and no others. */
    method RemoveAll(dead: seq<nat>)
      requires Valid() && Ascending(dead) && Below(dead, |clients|)
      modifies this
      ensures Valid() && nextConn == old(nextConn)
      ensures clients == Keep(old(clients), dead)
      ensures trace == old(trace) + Closings(old(clients), dead)
    {
      hide Good, Keep, RemovedDownTo, Closings;
      var n := |dead|;
      RemovalStarts(clients, trace, dead);
      while n > 0
        invariant 0 <= n <= |dead| && Valid() && nextConn == old(nextConn)
        invariant RemovedDownTo(old(clients), old(trace), dead, n, clients, trace)
      {
        n := n - 1;
        RemoveOneMore(old(clients), old(trace), dead, n, clients, trace);
        var i := dead[n];
        GoodClose(clients, trace, nextConn, i);
        trace := trace + [Closed(clients[i].conn)];
        clients := clients[..i] + clients[i + 1..];
      }
      RemovalEnds(old(clients), old(trace), dead, clients, trace);
    }

    /** Sends a client everything of a poll result that is for it, stopping at the first failed send. */
    method DeliverTo(i: nat, outbound: seq<Outbound>) returns (ok: bool, ghost sent: nat)
      requires Valid() && i < |clients|
      requires forall o | o in outbound :: Linked(o)
      modifies this`trace
      ensures Valid()
      ensures sent <= |outbound| && (ok ==> sent == |outbound|)
      ensures trace == old(trace) + Deliveries(clients[i], outbound[..sent])
    {
      hide Good, Addressed, AttributionTarget, OutboundSessionScope;
      ok, sent := true, 0;
      assert trace + [] == trace;
      for n := 0 to |outbound|
        invariant ok && sent == n && Valid()
        invariant trace == old(trace) + Deliveries(clients[i], outbound[..n])
      {
        var m, c := outbound[n], clients[i];
        assert outbound[..n + 1][..n] == outbound[..n] && Linked(m);
        GatesAre(m.from.attribution, m.from.topic, m.from.payload, c.principal, c.session);
        if ShouldDeliver(m.target, m.session, c.principal, c.session) {
          var accepted: bool := *;
          if !accepted { ok := false; return; }
          DeliverIsSafe(clients, trace, nextConn, i, m);
          trace := trace + [Delivered(c.conn, m)];
        }
        sent := n + 1;
      }
    }

    /** Turns the messages of one poll into what goes out, accumulating and reconciling streamed text. */
    method Prepare(messages: seq<IpcMessage>) returns (outbound: seq<Outbound>)
      requires stream.Consistent()
      modifies stream
      ensures stream.Consistent() && |stream.history| == old(|stream.history|) + |messages|
      ensures Prepared(messages, outbound, old(|stream.history|), stream.history)
      ensures Took(old(stream.history), stream.history, messages)
    {
      hide StreamReconcile.Forwarded, StreamReconcile.Accum, StreamReconcile.Valid, VictimOk, Reconciled, OutboundSessionScope, Prepared;
      outbound := [];
      ghost var base := |stream.history|;
      NothingPrepared(stream.history);
      assert messages[..0] == [];
      for n := 0 to |messages|
        invariant stream.Consistent() && |stream.history| == base + n
        invariant Prepared(messages[..n], outbound, base, stream.history)
        invariant Took(old(stream.history), stream.history, messages[..n])
      {
        var m := messages[n];
        ghost var earlier := stream.history;
        var payload, victim := stream.Reconcile(m.topic, m.payload);
        var out := Outbound(m.topic, payload, AttributionTarget(m.attribution), OutboundSessionScope(m.topic, payload), m);
        MorePrepared(messages[..n], outbound, base, earlier, m, out, stream.history);
        outbound := outbound + [out];
        assert messages[..n] + [m] == messages[..n + 1];
      }
      assert messages[..|messages|] == messages;
    }

    /** Reconciles the messages of one poll and fans them out to the clients not yet dead; whoever is not dead afterwards
        got everything meant for it. */
    method Broadcast(messages: seq<IpcMessage>, dead: seq<nat>)
      returns (nowDead: seq<nat>, ghost outbound: seq<Outbound>, ghost sent: seq<nat>)
      requires Valid() && Below(dead, |clients|)
      modifies this`trace, stream
      ensures Valid() && Took(old(stream.history), stream.history, messages)
      ensures Prepared(messages, outbound, old(|stream.history|), stream.history)
      ensures |sent| == |clients| && forall i | 0 <= i < |sent| :: sent[i] <= |outbound|
      ensures trace == old(trace) + Fanned(clients, outbound, dead, sent)
      ensures dead <= nowDead && Below(nowDead, |clients|)
      ensures forall i: nat | i < |clients| && i !in nowDead :: sent[i] == |outbound|
    {
      hide Good, Took, Prepared, FannedSoFar, Below, Fanned, Deliveries;
      var out := Prepare(messages);
      AllLinked(messages, out, old(|stream.history|), stream.history);
      outbound, sent, nowDead := out, [], dead;
      FanStarts(clients, outbound, dead, trace);
      ghost var later := stream.history;
      for i := 0 to |clients|
        invariant Valid() && stream.history == later
        invariant FannedSoFar(clients, outbound, dead, old(trace), i, trace, nowDead, sent)
      {
        FanHere(clients, outbound, dead, old(trace), i, trace, nowDead, sent);
        ghost var before, was, k := trace, nowDead, 0;
        var ok := true;
        if i !in nowDead {
          ok, k := DeliverTo(i, out);
          if !ok { nowDead := nowDead + [i]; }
        }
        FanOneMore(clients, outbound, dead, old(trace), i, before, was, sent, k, ok, trace, nowDead);
        sent := sent + [k];
      }
      FanEnds(clients, outbound, dead, old(trace), trace, nowDead, sent);
    }

    /** Every poll of a turn in order, up to one that fails. */
    method DrainPolls(polls: seq<Poll>) returns (ok: bool, dead: seq<nat>, ghost rounds: seq<Round>)
      requires Valid()
      modifies this`trace, stream
      ensures Valid() && ok == NoneFails(polls)
      ensures Drained(clients, old(trace), old(stream.history), Polled(UpToFailure(polls)), trace, stream.history, dead, rounds)
    {
      hide Good, Drained, Took, Prepared, Below, Fanned, NoneFails, Polled, UpToFailure;
      dead, rounds := [], [];
      DrainStarts(clients, trace, stream.history);
      ghost var messages: seq<IpcMessage> := [];
      NoPolls(polls);
      for n := 0 to |polls|
        invariant Valid() && NoneFails(polls[..n]) && messages == Polled(polls[..n])
        invariant Drained(clients, old(trace), old(stream.history), messages, trace, stream.history, dead, rounds)
      {
        NextPoll(polls, n);
        match polls[n]
        case PollFailed =>
          FailsAt(polls, n);
          return false, dead, rounds;
        case Messages(more) =>
          if more != [] {
            DrainHere(clients, old(trace), old(stream.history), messages, trace, stream.history, dead, rounds);
            ghost var was, trace1, history1, out, sent := dead, trace, stream.history, [], [];
            dead, out, sent := Broadcast(more, dead);
            DrainMore(clients, old(trace), old(stream.history), messages, trace1, history1, was, rounds, more,
                      trace, stream.history, dead, Round(out, was, sent));
            rounds := rounds + [Round(out, was, sent)];
            messages := messages + more;
          } else {
            assert messages + more == messages;
          }
      }
      NeverFails(polls);
      ok := true;
    }

    /** One turn of the loop; false when a subscription failed and the proxy gives up. */
    method OneTurn(turn: Turn) returns (running: bool)
      requires Valid()
      modifies this, stream
      ensures Valid() && TurnHappened(turn, old(State()), State(), running)
    {
      hide Good, Drained, TurnHappened, Below, AllEntries, AllMarked, GoneAt, Closings, Keep, RoundsTrace;
      ghost var start := State();
      if clients == [] {
        if !turn.accepted {
          NoTurn(turn, start);
          return true;
        }
        Accept();
      }
      if turn.another { Accept(); }
      ConnectedIs(turn, start, State());
      ReadAll(turn.recv);
      ghost var read := State();
      var dead;
      ghost var rounds;
      running, dead, rounds := DrainPolls(turn.polls);
      DrainHere(clients, read.trace, read.history, Polled(UpToFailure(turn.polls)), trace, stream.history, dead, rounds);
      ghost var drained := State();
      if running {
        SortedBelow(dead, |clients|);
        RemoveAll(SortedUnique(dead, |clients|));
      }
      TurnIs(turn, start, read, drained, State(), dead, rounds, running);
    }

    /** Any number of turns, until a subscription fails: everything the proxy did is safe, and is made of these turns. */
    method RunLoop(turns: seq<Turn>) returns (ok: bool, ghost states: seq<Loop>)
      requires Valid()
      modifies this, stream
      ensures Valid() && Safe(trace) && old(trace) <= trace
      ensures 0 < |states| <= |turns| + 1 && states[0] == old(State()) && states[|states| - 1] == State()
      ensures if ok then |states| == |turns| + 1 else |states| > 1
      ensures forall k | 0 <= k < |states| - 1 :: TurnHappened(turns[k], states[k], states[k + 1], ok || k < |states| - 2)
    {
      hide TurnHappened;
      states, ok := [State()], true;
      for n := 0 to |turns|
        invariant ok && Valid() && old(trace) <= trace
        invariant |states| == n + 1 && states[0] == old(State()) && states[n] == State()
        invariant forall k | 0 <= k < n :: TurnHappened(turns[k], states[k], states[k + 1], true)
      {
        ok := OneTurn(turns[n]);
        TurnExtends(turns[n], states[n], State(), ok);
        states := states + [State()];
        if !ok { return; }
      }
    }
  }

  /** Each message of a poll goes out as the accumulator's history up to it prescribes. */
  ghost predicate Prepared(messages: seq<IpcMessage>, outbound: seq<Outbound>, base: nat, history: seq<Message>) {
    && |outbound| == |messages| && |history| == base + |messages|
    && forall k | 0 <= k < |outbound| ::
         outbound[k].from == messages[k] && Linked(outbound[k]) && outbound[k].payload == StreamReconcile.Forwarded(history[..base + k + 1])
  }

  lemma DrainStarts(clients: seq<Client>, trace: seq<Trace>, history: seq<Message>)
    ensures Drained(clients, trace, history, [], trace, history, [], [])
  {
    assert trace + [] == trace;
  }

  lemma DrainHere(clients: seq<Client>, trace0: seq<Trace>, history0: seq<Message>, messages: seq<IpcMessage>,
                  trace: seq<Trace>, history: seq<Message>, dead: seq<nat>, rounds: seq<Round>)
    requires Drained(clients, trace0, history0, messages, trace, history, dead, rounds)
    ensures Below(dead, |clients|) && trace0 <= trace
  {
  }

  lemma DrainMore(clients: seq<Client>, trace0: seq<Trace>, history0: seq<Message>, messages: seq<IpcMessage>,
                  trace1: seq<Trace>, history1: seq<Message>, was: seq<nat>, rounds: seq<Round>, more: seq<IpcMessage>,
                  trace: seq<Trace>, history: seq<Message>, dead: seq<nat>, r: Round)
    requires Drained(clients, trace0, history0, messages, trace1, history1, was, rounds)
    requires RoundOk(|clients|, r) && r.dead == was && was <= dead && Below(dead, |clients|)
    requires forall i: nat | i < |clients| && i !in dead :: r.sent[i] == |r.outbound|
    requires trace == trace1 + Fanned(clients, r.outbound, r.dead, r.sent)
    requires Took(history1, history, more) && Prepared(more, r.outbound, |history1|, history)
    ensures Drained(clients, trace0, history0, messages + more, trace, history, dead, rounds + [r])
  {
    MoreRounds(|clients|, rounds, was, r, dead);
    MoreTrace(clients, rounds, r);
    Assoc(trace0, RoundsTrace(clients, rounds), Fanned(clients, r.outbound, r.dead, r.sent));
    assert (rounds + [r])[..|rounds|] == rounds;
    TookThen(history0, history1, history, messages, more);
    PreparedThen(messages, RoundsOut(rounds), |history0|, history1, more, r.outbound, history);
    hide Fanned, RoundsTrace, RoundsOk, Took, Prepared, Below;
  }

  lemma MoreRounds(n: nat, rounds: seq<Round>, was: seq<nat>, r: Round, dead: seq<nat>)
    requires RoundsOk(n, rounds, was) && RoundOk(n, r) && r.dead == was && was <= dead
    requires forall i: nat | i < n && i !in dead :: r.sent[i] == |r.outbound|
    ensures RoundsOk(n, rounds + [r], dead)
  {
    assert forall i | i in was :: i in dead;
    assert forall x | x in rounds + [r] :: x in rounds || x == r;
  }

  lemma MoreTrace(clients: seq<Client>, rounds: seq<Round>, r: Round)
    requires RoundOk(|clients|, r) && forall x | x in rounds :: RoundOk(|clients|, x)
    ensures forall x | x in rounds + [r] :: RoundOk(|clients|, x)
    ensures RoundsTrace(clients, rounds + [r]) == RoundsTrace(clients, rounds) + Fanned(clients, r.outbound, r.dead, r.sent)
  {
    hide Fanned;
    assert (rounds + [r])[..|rounds|] == rounds;
  }

  lemma PreparedThen(m: seq<IpcMessage>, o: seq<Outbound>, base: nat, middle: seq<Message>,
                     n: seq<IpcMessage>, p: seq<Outbound>, history: seq<Message>)
    requires Prepared(m, o, base, middle) && Prepared(n, p, |middle|, history) && middle <= history
    ensures Prepared(m + n, o + p, base, history)
  {
    hide StreamReconcile.Forwarded, Linked;
    forall k | 0 <= k < |o + p|
      ensures (o + p)[k].from == (m + n)[k] && Linked((o + p)[k])
      ensures (o + p)[k].payload == StreamReconcile.Forwarded(history[..base + k + 1])
    {
      if k < |o| {
        assert middle[..base + k + 1] == history[..base + k + 1];
      } else {
        assert p[k - |o|].payload == StreamReconcile.Forwarded(history[..|middle| + (k - |o|) + 1]);
      }
    }
  }

  lemma NoPolls(polls: seq<Poll>)
    ensures polls[..0] == [] && NoneFails([]) && Polled([]) == [] && polls[..|polls|] == polls
  {
  }

  lemma NextPoll(polls: seq<Poll>, n: nat)
    requires n < |polls| && NoneFails(polls[..n])
    ensures polls[n].Messages? ==> NoneFails(polls[..n + 1]) && Polled(polls[..n + 1]) == Polled(polls[..n]) + polls[n].messages
  {
    assert polls[..n + 1] == polls[..n] + [polls[n]];
    assert polls[..n + 1][..n] == polls[..n];
  }

  lemma {:induction false} NeverFails(polls: seq<Poll>)
    requires NoneFails(polls)
    ensures UpToFailure(polls) == polls
  {
    if polls != [] {
      assert polls[0] in polls && forall p | p in polls[1..] :: p in polls;
      NeverFails(polls[1..]);
    }
  }

  lemma {:induction false} FailsAt(polls: seq<Poll>, n: nat)
    requires n < |polls| && polls[n].PollFailed? && NoneFails(polls[..n])
    ensures !NoneFails(polls) && UpToFailure(polls) == polls[..n]
  {
    assert polls[n] in polls;
    if n > 0 {
      assert polls[0] == polls[..n][0] && polls[0] in polls[..n];
      assert polls[1..][..n - 1] == polls[..n][1..];
      assert forall p | p in polls[..n][1..] :: p in polls[..n];
      FailsAt(polls[1..], n - 1);
    }
  }

  lemma NoTurn(turn: Turn, s: Loop)
    requires s.clients == [] && !turn.accepted
    ensures TurnHappened(turn, s, s, true)
  {
  }

  /** The record only grows. */
  lemma TurnExtends(turn: Turn, a: Loop, b: Loop, running: bool)
    requires TurnHappened(turn, a, b, running)
    ensures a.trace <= b.trace
  {
    hide AllEntries, AllMarked, GoneAt, Closings, Keep, RoundsTrace, Took, Prepared, RoundsOk, SortedUnique;
  }

  lemma ConnectedIs(turn: Turn, a: Loop, s: Loop)
    requires var first := if a.clients == [] then Joined(a) else a; s == if turn.another then Joined(first) else first
    ensures s == Connected(turn, a)
  {
  }

  lemma TurnIs(turn: Turn, a: Loop, read: Loop, drained: Loop, b: Loop, dead: seq<nat>, rounds: seq<Round>, running: bool)
    requires a.clients != [] || turn.accepted
    requires read == AfterReads(turn.recv, Connected(turn, a)) && running == NoneFails(turn.polls)
    requires Drained(read.clients, read.trace, read.history, Polled(UpToFailure(turn.polls)), drained.trace, drained.history, dead, rounds)
    requires drained == Loop(read.clients, drained.trace, read.nextConn, drained.history)
    requires b == Removed(drained, dead, running)
    ensures TurnHappened(turn, a, b, running)
  {
    hide Drained, AfterReads, Connected, NoneFails, UpToFailure, Polled;
  }

  lemma SortedBelow(dead: seq<nat>, bound: nat)
    ensures Below(SortedUnique(dead, bound), bound)
  {
    var r := SortedUnique(dead, bound);
    assert forall k | 0 <= k < |r| :: r[k] in r;
  }

  lemma SameName(c: Client, r: Recv)
    ensures ReadMark(c, r).conn == c.conn
  {
    hide HandleIngress;
  }

  /** Reading changes no connection's name. */
  lemma {:induction false} SameConns(clients: seq<Client>, recv: nat -> Recv, dead: seq<nat>)
    requires Below(dead, |clients|)
    ensures Closings(AllMarked(clients, recv), dead) == Closings(clients, dead)
    decreases |dead|
  {
    hide ReadMark, HandleIngress;
    if dead != [] {
      var last := dead[|dead| - 1];
      assert AllMarked(clients, recv)[last] == ReadMark(clients[last], recv(clients[last].conn));
      SameName(clients[last], recv(clients[last].conn));
      SameConns(clients, recv, dead[..|dead| - 1]);
    }
  }

  lemma AllLinked(messages: seq<IpcMessage>, outbound: seq<Outbound>, base: nat, history: seq<Message>)
    requires Prepared(messages, outbound, base, history)
    ensures forall o | o in outbound :: Linked(o)
  {
    hide StreamReconcile.Forwarded, Linked;
  }

  lemma NothingPrepared(history: seq<Message>)
    ensures Prepared([], [], |history|, history)
  {
  }

  lemma MorePrepared(messages: seq<IpcMessage>, outbound: seq<Outbound>, base: nat, history: seq<Message>,
                     m: IpcMessage, out: Outbound, next: seq<Message>)
    requires Prepared(messages, outbound, base, history)
    requires |next| == |history| + 1 && history == next[..|history|]
    requires next[|history|].topic == m.topic && next[|history|].payload == m.payload
    requires out.payload == StreamReconcile.Forwarded(next)
    requires out == Outbound(m.topic, out.payload, AttributionTarget(m.attribution), OutboundSessionScope(m.topic, out.payload), m)
    ensures Prepared(messages + [m], outbound + [out], base, next)
  {
    ReconcileKeepsScope(next);
    assert next[..|next|] == next;
    hide StreamReconcile.Forwarded, OutboundSessionScope;
    forall k | 0 <= k < |outbound + [out]|
      ensures (outbound + [out])[k].from == (messages + [m])[k] && Linked((outbound + [out])[k])
      ensures (outbound + [out])[k].payload == StreamReconcile.Forwarded(next[..base + k + 1])
    {
      if k < |outbound| { assert next[..base + k + 1] == history[..base + k + 1]; }
    }
  }

  /** Rewriting a terminal's text changes neither its session nor its scope. */
  lemma ReconcileKeepsScope(h: seq<Message>)
    requires h != []
    ensures var m := h[|h| - 1];
            OutboundSessionScope(m.topic, StreamReconcile.Forwarded(h)) == OutboundSessionScope(m.topic, m.payload)
  {
  }

  lemma DeliverIsSafe(clients: seq<Client>, trace: seq<Trace>, nextConn: nat, i: nat, m: Outbound)
    requires Good(clients, trace, nextConn) && i < |clients|
    requires Delivers(m, clients[i].principal, clients[i].session)
    ensures Good(clients, trace + [Delivered(clients[i].conn, m)], nextConn)
  {
    assert clients[i] in clients && Knows(clients[i], trace);
    hide Addressed;
    GoodEvent(clients, trace, nextConn, i, Delivered(clients[i].conn, m), clients[i]);
    assert clients[i := clients[i]] == clients;
  }

  lemma BindIsSafe(clients: seq<Client>, trace: seq<Trace>, nextConn: nat, i: nat, message: Option<Json>)
    requires Good(clients, trace, nextConn) && i < |clients|
    requires HandleIngress(message, clients[i].principal).newlyBound.Some?
    ensures var p := HandleIngress(message, clients[i].principal).newlyBound;
            Good(clients[i := clients[i].(principal := p)], trace + [Bound(clients[i].conn, p.value)], nextConn)
  {
    var p := HandleIngress(message, clients[i].principal).newlyBound;
    IngressExactly(message, clients[i].principal);
    hide HandleIngress, MayClaim, Attributed, IsName;
    assert clients[i] in clients && Knows(clients[i], trace);
    GoodEvent(clients, trace, nextConn, i, Bound(clients[i].conn, p.value), clients[i].(principal := p));
  }

  lemma ForwardIsSafe(clients: seq<Client>, trace: seq<Trace>, nextConn: nat, i: nat, message: Option<Json>, binding: Option<string>)
    requires Good(clients, trace, nextConn) && i < |clients|
    requires var o := HandleIngress(message, binding);
             o.forward.Some? && clients[i].principal == if o.newlyBound.Some? then o.newlyBound else binding
    ensures var o, c := HandleIngress(message, binding), clients[i];
            Good(clients[i := c.(session := if o.session.Some? then o.session else c.session)],
                 trace + [Forwarded(c.conn, o.forward.value)], nextConn)
  {
    var o, c := HandleIngress(message, binding), clients[i];
    IngressExactly(message, binding);
    hide HandleIngress, MayForward, IsName;
    assert c in clients && Knows(c, trace);
    assert o.session.Some? ==> Prompts(Forwarded(c.conn, o.forward.value), c.conn, o.session.value);
    GoodEvent(clients, trace, nextConn, i, Forwarded(c.conn, o.forward.value),
              c.(session := if o.session.Some? then o.session else c.session));
  }

  lemma IngressEntries(trace: seq<Trace>, conn: nat, o: IngressOutcome)
    ensures var bound := if o.newlyBound.Some? then trace + [Bound(conn, o.newlyBound.value)] else trace;
            trace + IngressTrace(conn, o) == if o.forward.Some? then bound + [Forwarded(conn, o.forward.value)] else bound
  {
  }

  lemma IngressIsSafe(clients: seq<Client>, trace: seq<Trace>, nextConn: nat, i: nat, message: Option<Json>)
    requires Good(clients, trace, nextConn) && i < |clients|
    ensures var o, c := HandleIngress(message, clients[i].principal), clients[i];
            Good(clients[i := Marked(c, o)], trace + IngressTrace(c.conn, o), nextConn)
  {
    var o, c := HandleIngress(message, clients[i].principal), clients[i];
    IngressEntries(trace, c.conn, o);
    IngressExactly(message, c.principal);
    hide HandleIngress, Good, IngressTrace, MayClaim, Attributed, InSession;
    var bound := clients[i := c.(principal := if o.newlyBound.Some? then o.newlyBound else c.principal)];
    var boundTrace := if o.newlyBound.Some? then trace + [Bound(c.conn, o.newlyBound.value)] else trace;
    if o.newlyBound.Some? { BindIsSafe(clients, trace, nextConn, i, message); } else { assert bound == clients; }
    if o.forward.Some? {
      ForwardIsSafe(bound, boundTrace, nextConn, i, message, c.principal);
      assert bound[i := Marked(c, o)] == clients[i := Marked(c, o)];
    }
  }
}
