/** What a turn of the proxy loop means for those who receive. */
module ProxyTheorems {
  import opened Common
  import opened IndexLists
  import opened ProxyDecisions
  import opened ProxyLoop
  import opened ProxyRouting
  import opened StreamReconcile

  /** The messages a connection received, in order. */
  function Received(trace: seq<Trace>, conn: nat): seq<Outbound> {
    if trace == [] then []
    else
      var last := trace[|trace| - 1];
      Received(trace[..|trace| - 1], conn) + if last.Delivered? && last.conn == conn then [last.message] else []
  }

  /** The messages addressed to a client's principal and session. */
  ghost function MeantFor(c: Client, outbound: seq<Outbound>): seq<Outbound> {
    if outbound == [] then []
    else
      var m := outbound[|outbound| - 1];
      MeantFor(c, outbound[..|outbound| - 1]) + if Delivers(m, c.principal, c.session) then [m] else []
  }

  lemma {:induction false} ReceivedConcat(a: seq<Trace>, b: seq<Trace>, conn: nat)
    ensures Received(a + b, conn) == Received(a, conn) + Received(b, conn)
    decreases |b|
  {
    if b == [] {
      assert a + b == a;
    } else {
      ReceivedConcat(a, b[..|b| - 1], conn);
      assert (a + b)[..|a + b| - 1] == a + b[..|b| - 1];
    }
  }

  lemma {:induction false} MeantForConcat(c: Client, a: seq<Outbound>, b: seq<Outbound>)
    ensures MeantFor(c, a + b) == MeantFor(c, a) + MeantFor(c, b)
    decreases |b|
  {
    hide Delivers;
    if b == [] {
      assert a + b == a;
    } else {
      MeantForConcat(c, a, b[..|b| - 1]);
      assert (a + b)[..|a + b| - 1] == a + b[..|b| - 1];
    }
  }

  lemma {:induction false} NoneReceived(trace: seq<Trace>, conn: nat)
    requires forall e | e in trace :: !e.Delivered? || e.conn != conn
    ensures Received(trace, conn) == []
  {
    if trace != [] { NoneReceived(trace[..|trace| - 1], conn); }
  }

  /** Reads and closings deliver nothing. */
  lemma {:induction false} ReadsDeliverNothing(clients: seq<Client>, recv: nat -> Recv)
    ensures forall e | e in AllEntries(clients, recv) :: !e.Delivered?
  {
    hide HandleIngress;
    if clients != [] { ReadsDeliverNothing(clients[..|clients| - 1], recv); }
  }

  lemma {:induction false} ClosingsDeliverNothing(clients: seq<Client>, dead: seq<nat>)
    requires Below(dead, |clients|)
    ensures forall e | e in Closings(clients, dead) :: e.Closed?
    decreases |dead|
  {
    if dead != [] { ClosingsDeliverNothing(clients, dead[..|dead| - 1]); }
  }

  lemma DeliverySnoc(c: Client, outbound: seq<Outbound>, m: Outbound)
    ensures var all, pass := outbound + [m], Delivers(m, c.principal, c.session);
            && Deliveries(c, all) == (if pass then Deliveries(c, outbound) + [Delivered(c.conn, m)] else Deliveries(c, outbound))
            && MeantFor(c, all) == (if pass then MeantFor(c, outbound) + [m] else MeantFor(c, outbound))
  {
    hide Delivers;
    assert (outbound + [m])[..|outbound|] == outbound;
  }

  lemma {:induction false} DeliveriesReceived(c: Client, outbound: seq<Outbound>, conn: nat)
    ensures Received(Deliveries(c, outbound), conn) == if conn == c.conn then MeantFor(c, outbound) else []
  {
    if outbound != [] {
      var init, m := outbound[..|outbound| - 1], outbound[|outbound| - 1];
      assert outbound == init + [m];
      DeliverySnoc(c, init, m);
      hide Deliveries, MeantFor, Delivers;
      DeliveriesReceived(c, init, conn);
      ReceivedConcat(Deliveries(c, init), [Delivered(c.conn, m)], conn);
      ReceivedOne(Delivered(c.conn, m), conn);
      hide Received;
    }
  }

  lemma {:induction false} DeliveriesAreOutbound(c: Client, outbound: seq<Outbound>)
    ensures forall e | e in Deliveries(c, outbound) :: e.Delivered? && e.message in outbound
  {
    if outbound != [] {
      var init, m := outbound[..|outbound| - 1], outbound[|outbound| - 1];
      assert outbound == init + [m];
      DeliverySnoc(c, init, m);
      hide Deliveries, MeantFor, Delivers;
      DeliveriesAreOutbound(c, init);
    }
  }

  lemma ReceivedOne(e: Trace, conn: nat)
    ensures Received([e], conn) == if e.Delivered? && e.conn == conn then [e.message] else []
  {
    assert Received([e][..0], conn) == [];
  }

  /** A broadcast gives a client that is not dead the messages meant for it among those it was offered. */
  lemma {:induction false} FannedReceived(clients: seq<Client>, outbound: seq<Outbound>, dead: seq<nat>, sent: seq<nat>, i: nat)
    requires |sent| == |clients| && forall k | 0 <= k < |sent| :: sent[k] <= |outbound|
    requires DistinctConns(clients) && i < |clients|
    ensures Received(Fanned(clients, outbound, dead, sent), clients[i].conn) ==
            if i in dead then [] else MeantFor(clients[i], outbound[..sent[i]])
    decreases |clients|
  {
    hide Deliveries, Received, MeantFor;
    var n, conn := |clients| - 1, clients[i].conn;
    var before, here := Fanned(clients[..n], outbound, dead, sent[..n]), Deliveries(clients[n], outbound[..sent[n]]);
    DeliveriesReceived(clients[n], outbound[..sent[n]], conn);
    ReceivedConcat(before, here, conn);
    assert before + [] == before;
    if i < n {
      FannedReceived(clients[..n], outbound, dead, sent[..n], i);
    } else {
      FannedElsewhere(clients[..n], outbound, dead, sent[..n], conn);
    }
  }

  lemma {:induction false} FannedElsewhere(clients: seq<Client>, outbound: seq<Outbound>, dead: seq<nat>, sent: seq<nat>, conn: nat)
    requires |sent| == |clients| && forall k | 0 <= k < |sent| :: sent[k] <= |outbound|
    requires forall c | c in clients :: c.conn != conn
    ensures Received(Fanned(clients, outbound, dead, sent), conn) == []
    decreases |clients|
  {
    hide Deliveries, MeantFor;
    if clients != [] {
      var n := |clients| - 1;
      var before, here := Fanned(clients[..n], outbound, dead, sent[..n]), Deliveries(clients[n], outbound[..sent[n]]);
      assert clients[n] in clients && forall c | c in clients[..n] :: c in clients;
      FannedElsewhere(clients[..n], outbound, dead, sent[..n], conn);
      DeliveriesReceived(clients[n], outbound[..sent[n]], conn);
      hide Received;
      ReceivedConcat(before, here, conn);
      assert before + [] == before;
    }
  }

  /** Everything fanned out is one of the messages. */
  lemma {:induction false} FannedIsOutbound(clients: seq<Client>, outbound: seq<Outbound>, dead: seq<nat>, sent: seq<nat>)
    requires |sent| == |clients| && forall k | 0 <= k < |sent| :: sent[k] <= |outbound|
    ensures forall e | e in Fanned(clients, outbound, dead, sent) :: e.Delivered? && e.message in outbound
    decreases |clients|
  {
    hide Deliveries;
    if clients != [] {
      var n := |clients| - 1;
      FannedIsOutbound(clients[..n], outbound, dead, sent[..n]);
      DeliveriesAreOutbound(clients[n], outbound[..sent[n]]);
    }
  }

  /** Over all rounds a client that is not dead in the end receives exactly what was meant for it. */
  lemma {:induction false} RoundsReceived(clients: seq<Client>, rounds: seq<Round>, dead: seq<nat>, i: nat)
    requires RoundsOk(|clients|, rounds, dead) && DistinctConns(clients) && i < |clients| && i !in dead
    ensures Received(RoundsTrace(clients, rounds), clients[i].conn) == MeantFor(clients[i], RoundsOut(rounds))
    decreases |rounds|
  {
    if rounds != [] {
      var init, r := rounds[..|rounds| - 1], rounds[|rounds| - 1];
      FewerRounds(|clients|, rounds, dead);
      assert r.outbound[..r.sent[i]] == r.outbound;
      hide RoundsOk, Fanned, Received, MeantFor;
      RoundsReceived(clients, init, dead, i);
      ReceivedConcat(RoundsTrace(clients, init), Fanned(clients, r.outbound, r.dead, r.sent), clients[i].conn);
      FannedReceived(clients, r.outbound, r.dead, r.sent, i);
      MeantForConcat(clients[i], RoundsOut(init), r.outbound);
    }
  }

  lemma FewerRounds(n: nat, rounds: seq<Round>, dead: seq<nat>)
    requires RoundsOk(n, rounds, dead) && rounds != []
    ensures RoundsOk(n, rounds[..|rounds| - 1], dead)
    ensures RoundOk(n, rounds[|rounds| - 1])
    ensures forall i: nat | i < n && i !in dead :: i !in rounds[|rounds| - 1].dead && rounds[|rounds| - 1].sent[i] == |rounds[|rounds| - 1].outbound|
  {
    assert rounds[|rounds| - 1] in rounds && forall r | r in rounds[..|rounds| - 1] :: r in rounds;
  }

  lemma {:induction false} RoundsAreOutbound(clients: seq<Client>, rounds: seq<Round>, dead: seq<nat>)
    requires RoundsOk(|clients|, rounds, dead)
    ensures forall e | e in RoundsTrace(clients, rounds) :: e.Delivered? && e.message in RoundsOut(rounds)
    decreases |rounds|
  {
    if rounds != [] {
      var init, r := rounds[..|rounds| - 1], rounds[|rounds| - 1];
      FewerRounds(|clients|, rounds, dead);
      hide RoundsOk, Fanned;
      RoundsAreOutbound(clients, init, dead);
      FannedIsOutbound(clients, r.outbound, r.dead, r.sent);
    }
  }

  // ---- What reading does ----

  /** The message may be forwarded: the claim is acceptable, and it has a payload on an allowed topic. */
  predicate Forwardable(c: Client, msg: Json) {
    && MayClaim(c.principal, msg.GetStr("principal")) && msg.Get("payload").Some?
    && msg.GetStr("topic").Some? && MayForward(msg.GetStr("topic").value)
  }

  /** The record of one read: a bind for the first acceptable claim, then the message, under the principal it is
      attributed to, if it may be forwarded; other reads record nothing. */
  lemma ReadExactly(c: Client, r: Recv)
    ensures (!r.Bytes? || r.message.None?) ==> ReadEntries(c, r) == []
    ensures r.Bytes? && r.message.Some? ==>
              var msg := r.message.value;
              var claimed := msg.GetStr("principal");
              ReadEntries(c, r) ==
              (if c.principal == None && MayClaim(None, claimed) then [Bound(c.conn, Attributed(None, claimed))] else []) +
              (if Forwardable(c, msg)
               then [Forwarded(c.conn, Publication(msg.GetStr("topic").value, msg.Get("payload").value, Attributed(c.principal, claimed)))]
               else [])
  {
    if r.Bytes? { IngressExactly(r.message, c.principal); }
    hide HandleIngress, MayClaim, MayForward, Attributed;
  }

  /** Every read of a turn is on record, and nothing else. */
  lemma {:induction false} ReadsRecorded(clients: seq<Client>, recv: nat -> Recv)
    ensures forall e :: e in AllEntries(clients, recv) <==> exists c :: c in clients && e in ReadEntries(c, recv(c.conn))
  {
    hide ReadEntries;
    if clients != [] { ReadsRecorded(clients[..|clients| - 1], recv); }
  }

  /** In a turn, the record of each connection's read, including those that just joined, is in the log. */
  lemma TurnReads(turn: Turn, a: Loop, b: Loop, running: bool, c: Client)
    requires TurnHappened(turn, a, b, running) && (a.clients != [] || turn.accepted)
    requires c in a.clients || (c == Client(a.nextConn, None, None) && (a.clients == [] || turn.another))
    ensures forall e | e in ReadEntries(c, turn.recv(c.conn)) :: e in b.trace
  {
    var s := Connected(turn, a);
    assert c in s.clients;
    assert AfterReads(turn.recv, s).trace <= b.trace by {
      hide AllEntries, AllMarked, GoneAt, Closings, Keep, RoundsTrace, Took, Prepared, RoundsOk, SortedUnique;
    }
    ReadsRecorded(s.clients, turn.recv);
    hide TurnHappened, Connected, ReadEntries, AllEntries, Closings, GoneAt, Keep, AllMarked;
    assert forall e | e in AllEntries(s.clients, turn.recv) :: e in AfterReads(turn.recv, s).trace;
  }

  // ---- Connections keep their names apart ----

  lemma {:induction false} KeepIsPart(clients: seq<Client>, dead: seq<nat>, k: nat) returns (i: nat)
    requires k < |Keep(clients, dead)|
    ensures i < |clients| && i !in dead && clients[i] == Keep(clients, dead)[k]
    decreases |clients|
  {
    var n := |clients| - 1;
    if k < |Keep(clients[..n], dead)| { i := KeepIsPart(clients[..n], dead, k); } else { i := n; }
  }

  lemma {:induction false} KeepIsDistinct(clients: seq<Client>, dead: seq<nat>)
    requires DistinctConns(clients)
    ensures DistinctConns(Keep(clients, dead))
    decreases |clients|
  {
    if clients != [] {
      var n := |clients| - 1;
      KeepIsDistinct(clients[..n], dead);
      KeepSubset(clients[..n], dead);
      forall c | c in clients[..n] ensures c.conn != clients[n].conn {
        var j :| 0 <= j < n && clients[..n][j] == c;
        assert clients[j] == c;
      }
    }
  }

  lemma ConnectedIsDistinct(turn: Turn, a: Loop)
    requires Good(a.clients, a.trace, a.nextConn)
    ensures DistinctConns(AfterReads(turn.recv, Connected(turn, a)).clients)
  {
    hide Good, AllMarked, GoneAt, AllEntries, Closings, ReadMark, Keep;
    GoodAccept(a.clients, a.trace, a.nextConn);
    var first := if a.clients == [] then Joined(a) else a;
    GoodAccept(first.clients, first.trace, first.nextConn);
    var c := Connected(turn, a);
    assert DistinctConns(c.clients) by { GoodIsDistinct(c); }
    MarkedIsDistinct(c.clients, turn.recv);
    KeepIsDistinct(AllMarked(c.clients, turn.recv), GoneAt(c.clients, turn.recv));
  }

  lemma GoodIsDistinct(s: Loop)
    requires Good(s.clients, s.trace, s.nextConn)
    ensures DistinctConns(s.clients)
  {
  }

  lemma MarkedIsDistinct(clients: seq<Client>, recv: nat -> Recv)
    requires DistinctConns(clients)
    ensures DistinctConns(AllMarked(clients, recv))
  {
    forall i | 0 <= i < |clients| ensures AllMarked(clients, recv)[i].conn == clients[i].conn {
      SameName(clients[i], recv(clients[i].conn));
    }
    hide ReadMark;
  }

  /** Who is not listed stays. */
  lemma {:induction false} OthersStay(clients: seq<Client>, dead: seq<nat>, i: nat)
    requires i < |clients| && i !in dead
    ensures clients[i] in Keep(clients, dead)
    decreases |clients|
  {
    if i < |clients| - 1 { OthersStay(clients[..|clients| - 1], dead, i); }
  }

  lemma {:induction false} ListedAreClosed(clients: seq<Client>, dead: seq<nat>, i: nat)
    requires Below(dead, |clients|) && i in dead
    ensures i < |clients| && Closed(clients[i].conn) in Closings(clients, dead)
    decreases |dead|
  {
    var n := |dead| - 1;
    assert dead == dead[..n] + [dead[n]];
    if i != dead[n] { ListedAreClosed(clients, dead[..n], i); }
  }

  /** A connection whose read says it is gone is closed on record and no longer served; any other stays, as its read
      left it. */
  lemma GoneAreClosed(s: Loop, recv: nat -> Recv, i: nat)
    requires DistinctConns(s.clients) && i < |s.clients|
    ensures var c, t := s.clients[i], AfterReads(recv, s);
            if recv(c.conn).Gone? then Closed(c.conn) in t.trace && forall x | x in t.clients :: x.conn != c.conn
            else ReadMark(c, recv(c.conn)) in t.clients
  {
    var marked, gone := AllMarked(s.clients, recv), GoneAt(s.clients, recv);
    MarkedIsDistinct(s.clients, recv);
    SameName(s.clients[i], recv(s.clients[i].conn));
    assert marked[i] == ReadMark(s.clients[i], recv(s.clients[i].conn));
    if recv(s.clients[i].conn).Gone? {
      ListedAreClosed(s.clients, gone, i);
      hide AllMarked, GoneAt, Keep, Closings, AllEntries, ReadMark;
      forall x | x in Keep(marked, gone) ensures x.conn != s.clients[i].conn {
        var k :| 0 <= k < |Keep(marked, gone)| && Keep(marked, gone)[k] == x;
        var j := KeepIsPart(marked, gone, k);
      }
    } else {
      OthersStay(marked, gone, i);
    }
  }

  // ---- The theorem ----

  /** What a connection received up to the end of the turn, and that nothing else was delivered to anyone. */
  ghost predicate GotWhatWasMeant(a: Loop, b: Loop, outbound: seq<Outbound>) {
    && (forall c | c in b.clients :: Received(b.trace, c.conn) == Received(a.trace, c.conn) + MeantFor(c, outbound))
    && a.trace <= b.trace
    && (forall n | |a.trace| <= n < |b.trace| && b.trace[n].Delivered? :: b.trace[n].message in outbound)
  }

  /** A turn of the loop in which no subscription failed: what goes out is exactly what was polled, each message
      reconciled once and in order; every connection still open afterwards received, in that order, all of it that was
      meant for it and nothing else; and nobody received anything that was not polled. */
  lemma FullTurnDelivers(turn: Turn, a: Loop, b: Loop)
    requires Good(a.clients, a.trace, a.nextConn) && TurnHappened(turn, a, b, true) && (a.clients != [] || turn.accepted)
    ensures exists outbound | Prepared(Polled(turn.polls), outbound, |a.history|, b.history) :: GotWhatWasMeant(a, b, outbound)
  {
    var c := AfterReads(turn.recv, Connected(turn, a));
    assert c.history == a.history;
    NeverFails(turn.polls);
    var trace, dead, rounds :| Drained(c.clients, c.trace, c.history, Polled(turn.polls), trace, b.history, dead, rounds)
                               && b == Removed(Loop(c.clients, trace, c.nextConn, b.history), dead, true);
    ConnectedIsDistinct(turn, a);
    JoinsDeliverNothing(turn, a);
    hide Good, AfterReads, Connected, TurnHappened, Prepared, Took;
    RoundsDeliver(a, c, b, trace, dead, rounds);
    assert Prepared(Polled(turn.polls), RoundsOut(rounds), |a.history|, b.history);
  }

  /** Up to the end of the reads nothing is delivered. */
  lemma JoinsDeliverNothing(turn: Turn, a: Loop)
    ensures var c := AfterReads(turn.recv, Connected(turn, a));
            && a.trace <= c.trace && (forall n | |a.trace| <= n < |c.trace| :: !c.trace[n].Delivered?)
            && forall conn :: Received(c.trace, conn) == Received(a.trace, conn)
  {
    var s, joins := Connected(turn, a), Joins(turn, a);
    var entries, closed := AllEntries(s.clients, turn.recv), Closings(s.clients, GoneAt(s.clients, turn.recv));
    ReadsDeliverNothing(s.clients, turn.recv);
    ClosingsDeliverNothing(s.clients, GoneAt(s.clients, turn.recv));
    assert AfterReads(turn.recv, s).trace == s.trace + entries + closed && s.trace == a.trace + joins;
    hide AllEntries, Closings, GoneAt, Keep, AllMarked, AfterReads, Connected, Joins;
    Quiet(a.trace, joins, entries, closed);
  }

  /** The connections that join at the start of a turn. */
  function Joins(turn: Turn, a: Loop): (joins: seq<Trace>)
    ensures Connected(turn, a).trace == a.trace + joins
    ensures forall e | e in joins :: e.Accepted?
  {
    var first := if a.clients == [] then [Accepted(a.nextConn)] else [];
    var next := a.nextConn + |first|;
    if turn.another then first + [Accepted(next)] else first
  }

  lemma Quiet(start: seq<Trace>, x: seq<Trace>, y: seq<Trace>, z: seq<Trace>)
    requires (forall e | e in x :: !e.Delivered?) && (forall e | e in y :: !e.Delivered?) && (forall e | e in z :: !e.Delivered?)
    ensures var end := start + x + y + z;
            && start <= end && (forall n | |start| <= n < |end| :: !end[n].Delivered?)
            && forall conn :: Received(end, conn) == Received(start, conn)
  {
    var end := start + x + y + z;
    forall conn ensures Received(end, conn) == Received(start, conn) {
      ReceivedConcat(start + x + y, z, conn);
      ReceivedConcat(start + x, y, conn);
      ReceivedConcat(start, x, conn);
      NoneReceived(x, conn);
      NoneReceived(y, conn);
      NoneReceived(z, conn);
      hide Received;
    }
    forall n | |start| <= n < |end| ensures !end[n].Delivered? {
      assert end[n] in x || end[n] in y || end[n] in z;
    }
  }

  lemma RoundsDeliver(a: Loop, c: Loop, b: Loop, trace: seq<Trace>, dead: seq<nat>, rounds: seq<Round>)
    requires DistinctConns(c.clients) && RoundsOk(|c.clients|, rounds, dead) && Below(dead, |c.clients|)
    requires trace == c.trace + RoundsTrace(c.clients, rounds)
    requires b == Removed(Loop(c.clients, trace, c.nextConn, b.history), dead, true)
    requires a.trace <= c.trace && forall n | |a.trace| <= n < |c.trace| :: !c.trace[n].Delivered?
    requires forall conn :: Received(c.trace, conn) == Received(a.trace, conn)
    ensures GotWhatWasMeant(a, b, RoundsOut(rounds))
  {
    var listed := SortedUnique(dead, |c.clients|);
    SortedBelow(dead, |c.clients|);
    ClosingsDeliverNothing(c.clients, listed);
    RoundsAreOutbound(c.clients, rounds, dead);
    var sent, closed := RoundsTrace(c.clients, rounds), Closings(c.clients, listed);
    hide RoundsTrace, Closings, RoundsOut, MeantFor, Received, RoundsOk, DistinctConns;
    forall x | x in b.clients ensures Received(b.trace, x.conn) == Received(a.trace, x.conn) + MeantFor(x, RoundsOut(rounds)) {
      var k :| 0 <= k < |b.clients| && b.clients[k] == x;
      var i := KeepIsPart(c.clients, listed, k);
      ReceivedConcat(c.trace + sent, closed, x.conn);
      ReceivedConcat(c.trace, sent, x.conn);
      NoneReceived(closed, x.conn);
      RoundsReceived(c.clients, rounds, dead, i);
    }
    assert b.trace == c.trace + sent + closed;
    Told(a.trace, c.trace, sent, closed, RoundsOut(rounds));
  }

  lemma Told(start: seq<Trace>, read: seq<Trace>, sent: seq<Trace>, closed: seq<Trace>, outbound: seq<Outbound>)
    requires start <= read && forall n | |start| <= n < |read| :: !read[n].Delivered?
    requires forall e | e in sent :: e.Delivered? && e.message in outbound
    requires forall e | e in closed :: e.Closed?
    ensures var end := read + sent + closed;
            start <= end && forall n | |start| <= n < |end| :: end[n].Delivered? ==> end[n].message in outbound
  {
    var end := read + sent + closed;
    forall n | |start| <= n < |end| ensures end[n].Delivered? ==> end[n].message in outbound {
      if n >= |read| { assert end[n] in sent || end[n] in closed; }
    }
  }

  lemma {:induction false} MeantForAll(c: Client, outbound: seq<Outbound>, k: nat)
    requires k < |outbound| && Delivers(outbound[k], c.principal, c.session)
    ensures outbound[k] in MeantFor(c, outbound)
    decreases |outbound|
  {
    hide Delivers;
    if k < |outbound| - 1 { MeantForAll(c, outbound[..|outbound| - 1], k); }
  }

  /** A polled message on any topic but the two of chat replies reaches every connection still open whose principal it
      does not exclude, whatever session that is on. */
  lemma SessionNeverKeepsOthers(turn: Turn, a: Loop, b: Loop, k: nat, c: Client)
    requires Good(a.clients, a.trace, a.nextConn) && TurnHappened(turn, a, b, true) && (a.clients != [] || turn.accepted)
    requires k < |Polled(turn.polls)| && c in b.clients
    requires Polled(turn.polls)[k].topic !in {"agent.v1.response", "agent.v1.stream.delta"}
    requires forall p | InNameOf(Polled(turn.polls)[k].attribution, p) :: c.principal == Some(p)
    ensures exists o :: o in Received(b.trace, c.conn) && o.from == Polled(turn.polls)[k]
  {
    FullTurnDelivers(turn, a, b);
    hide *;
    var outbound: seq<Outbound> :| Prepared(Polled(turn.polls), outbound, |a.history|, b.history) && GotWhatWasMeant(a, b, outbound);
    Reaches(a, b, Polled(turn.polls), outbound, |a.history|, k, c);
  }

  lemma Reaches(a: Loop, b: Loop, messages: seq<IpcMessage>, outbound: seq<Outbound>, base: nat, k: nat, c: Client)
    requires Prepared(messages, outbound, base, b.history) && GotWhatWasMeant(a, b, outbound) && c in b.clients
    requires k < |messages| && messages[k].topic !in {"agent.v1.response", "agent.v1.stream.delta"}
    requires forall p | InNameOf(messages[k].attribution, p) :: c.principal == Some(p)
    ensures exists o :: o in Received(b.trace, c.conn) && o.from == messages[k]
  {
    hide Received, MeantFor, StreamReconcile.Forwarded;
    var o := outbound[k];
    assert o.from == messages[k] && Delivers(o, c.principal, c.session);
    MeantForAll(c, outbound, k);
    assert o in Received(b.trace, c.conn);
  }
}
