/** Whole runs of the receive loop: junk changes nothing, and every packet is accounted for. */
module ReceiveRuns {
  import opened CTypes
  import opened ReplayWindow
  import opened Sequences
  import opened TunnelSpec
  import BitOps

  /** The state after a run and the packets handed to lwIP. */
  datatype Outcome = Outcome(state: TunnelState, delivered: seq<Bytes>)

  function Packets(r: Received): seq<Bytes> {
    if r.delivered.Some? then [r.delivered.value] else []
  }

  function HandleAll(t: TunnelState, arrivals: seq<Arrival>): (r: Outcome)
    ensures WellFormed(t) ==> WellFormed(r.state)
    decreases |arrivals|
  {
    if arrivals == [] then Outcome(t, [])
    else
      var r := HandleDatagram(t, arrivals[0]);
      var rest := HandleAll(r.state, arrivals[1..]);
      Outcome(rest.state, Packets(r) + rest.delivered)
  }

  // ---------- junk ----------

  /** Anything from another endpoint, of another type, of a bad size, naming no session, or not
      authentic; also a handshake response that answers no pending initiation or has a bad MAC. */
  predicate Junk(t: TunnelState, a: Arrival) {
    || !a.fromPeer
    || match a.datagram
       case OtherType => true
       case Response(size, receiver, mac1, _) => size != RESPONSE_SIZE || receiver != t.pendingSender || !mac1
       case _ => Open(t, a.datagram).Refused?
  }

  /** Everything but the two counters junk can raise and their log lines. */
  function Core(t: TunnelState): TunnelState {
    t.(decryptRejects := Rejects(0, 0), otherRejects := Rejects(0, 0))
  }

  /** The run without the arrivals that are junk when they arrive. */
  function WithoutJunk(t: TunnelState, arrivals: seq<Arrival>): seq<Arrival>
    decreases |arrivals|
  {
    if arrivals == [] then []
    else (if Junk(t, arrivals[0]) then [] else [arrivals[0]])
         + WithoutJunk(HandleDatagram(t, arrivals[0]).state, arrivals[1..])
  }

  lemma JunkLeavesCore(t: TunnelState, a: Arrival)
    requires Junk(t, a)
    ensures Core(HandleDatagram(t, a).state) == Core(t) && HandleDatagram(t, a).delivered == None
  {}

  lemma SameCoreSameTransport(t: TunnelState, u: TunnelState, d: Datagram, io: Delivery)
    requires Core(t) == Core(u) && (d.Transport? || d.Short?)
    ensures var r, s := ProcessTransport(t, d, io), ProcessTransport(u, d, io);
            Core(r.state) == Core(s.state) && r.delivered == s.delivered && r.result == s.result
  {
    assert t.keypairs == u.keypairs && t.rxPackets == u.rxPackets;
    assert Open(t, d) == Open(u, d);
    if Open(t, d).Opened? {
      assert Core(MarkSeen(t, d.receiver, d.counter)) == Core(MarkSeen(u, d.receiver, d.counter));
    }
  }

  lemma SameCoreSameResponse(t: TunnelState, u: TunnelState, d: Datagram, kept: set<uint32>, now: uint64)
    requires Core(t) == Core(u) && d.Response?
    ensures var r, s := ProcessResponse(t, d, kept, now), ProcessResponse(u, d, kept, now);
            Core(r.0) == Core(s.0) && r.1 == s.1
  {
    assert t.keypairs == u.keypairs && t.pendingSender == u.pendingSender;
  }

  lemma SameCoreSameStep(t: TunnelState, u: TunnelState, a: Arrival)
    requires Core(t) == Core(u)
    ensures Core(HandleDatagram(t, a).state) == Core(HandleDatagram(u, a).state)
    ensures HandleDatagram(t, a).delivered == HandleDatagram(u, a).delivered
  {
    if a.fromPeer {
      match a.datagram
      case OtherType =>
      case Response(_, _, _, _) => SameCoreSameResponse(t, u, a.datagram, a.kept, a.now);
      case _ => SameCoreSameTransport(t, u, a.datagram, a.io);
    }
  }

  /** Junk, however much of it and wherever it is inserted, leaves deliveries, replay windows and
      sessions exactly as if it had never arrived. */
  lemma {:induction false} JunkIsInvisible(t: TunnelState, u: TunnelState, arrivals: seq<Arrival>)
    requires Core(t) == Core(u)
    ensures var all, genuine := HandleAll(t, arrivals), HandleAll(u, WithoutJunk(t, arrivals));
            all.delivered == genuine.delivered && Core(all.state) == Core(genuine.state)
    decreases |arrivals|
  {
    if arrivals != [] {
      var a, rest := arrivals[0], arrivals[1..];
      var next := HandleDatagram(t, a).state;
      if Junk(t, a) {
        JunkLeavesCore(t, a);
        JunkIsInvisible(next, u, rest);
        assert WithoutJunk(t, arrivals) == WithoutJunk(next, rest);
        assert HandleAll(t, arrivals).delivered == HandleAll(next, rest).delivered;
      } else {
        SameCoreSameStep(t, u, a);
        var other := HandleDatagram(u, a).state;
        JunkIsInvisible(next, other, rest);
        assert WithoutJunk(t, arrivals) == [a] + WithoutJunk(next, rest);
        assert WithoutJunk(t, arrivals)[1..] == WithoutJunk(next, rest);
      }
    }
  }

  lemma SameCoreSameSend(t: TunnelState, u: TunnelState, inner: Bytes, sent: int, now: uint64)
    requires WellFormed(t) && WellFormed(u) && Core(t) == Core(u)
    ensures Core(SendTransport(t, inner, sent, now).0) == Core(SendTransport(u, inner, sent, now).0)
  {
    assert t.keypairs == u.keypairs && t.current == u.current && t.txPackets == u.txPackets;
  }

  lemma SameCoreSameMaintenance(t: TunnelState, u: TunnelState, now: uint64, m: Maintenance)
    requires WellFormed(t) && WellFormed(u) && Core(t) == Core(u)
    ensures Core(Maintain(t, now, m)) == Core(Maintain(u, now, m))
  {
    assert t.keypairs == u.keypairs && t.current == u.current && t.txPackets == u.txPackets;
    assert t.pendingSender == u.pendingSender && t.lastHandshake == u.lastHandshake;
    assert t.lastTransportTx == u.lastTransportTx;
    assert Core(Rekeyed(t, now, m)) == Core(Rekeyed(u, now, m));
    assert Rekeyed(t, now, m).keypairs == t.keypairs && Rekeyed(u, now, m).keypairs == u.keypairs;
  }

  lemma {:induction false} SameCoreSameSends(t: TunnelState, u: TunnelState, sends: seq<Outbound>)
    requires WellFormed(t) && WellFormed(u) && Core(t) == Core(u)
    ensures Core(SendAll(t, sends)) == Core(SendAll(u, sends))
  {
    if sends != [] {
      SameCoreSameSends(t, u, Front(sends));
      var last := Last(sends);
      SameCoreSameSend(SendAll(t, Front(sends)), SendAll(u, Front(sends)), last.inner, last.sent, last.now);
    }
  }

  /** The state in which the datagram of the last turn is handled. */
  function AtDatagram(t: TunnelState, turns: seq<Turn>): (r: TunnelState)
    requires WellFormed(t) && turns != []
    ensures WellFormed(r)
  {
    SendAll(TakeTurns(t, Front(turns)), Last(turns).earlier)
  }

  function PacketsOf(t: TunnelState, arrival: Option<Arrival>): seq<Bytes> {
    if arrival.Some? then Packets(HandleDatagram(t, arrival.value)) else []
  }

  /** The packets handed to lwIP over a run of the whole loop. */
  function DeliveredIn(t: TunnelState, turns: seq<Turn>): seq<Bytes>
    requires WellFormed(t)
  {
    if turns == [] then []
    else DeliveredIn(t, Front(turns)) + PacketsOf(AtDatagram(t, turns), Last(turns).arrival)
  }

  function Mute(t: TunnelState, turn: Turn): Turn {
    if turn.arrival.Some? && Junk(t, turn.arrival.value) then turn.(arrival := None) else turn
  }

  /** The same turns, a receive timeout in place of every junk datagram. */
  function Muted(t: TunnelState, turns: seq<Turn>): seq<Turn>
    requires WellFormed(t)
  {
    if turns == [] then [] else Muted(t, Front(turns)) + [Mute(AtDatagram(t, turns), Last(turns))]
  }

  lemma MutedArrival(t: TunnelState, u: TunnelState, turn: Turn)
    requires WellFormed(t) && WellFormed(u) && Core(t) == Core(u)
    ensures var muted := Mute(t, turn).arrival;
            && Core(HandleArrival(t, turn.arrival)) == Core(HandleArrival(u, muted))
            && PacketsOf(t, turn.arrival) == PacketsOf(u, muted)
  {
    if turn.arrival.Some? {
      if Junk(t, turn.arrival.value) {
        JunkLeavesCore(t, turn.arrival.value);
      } else {
        SameCoreSameStep(t, u, turn.arrival.value);
      }
    }
  }

  lemma MutedTurn(t: TunnelState, u: TunnelState, turn: Turn)
    requires WellFormed(t) && WellFormed(u) && Core(t) == Core(u)
    ensures var s, v := SendAll(t, turn.earlier), SendAll(u, turn.earlier);
            var muted := Mute(s, turn);
            && Core(TakeTurn(t, turn)) == Core(TakeTurn(u, muted))
            && PacketsOf(s, turn.arrival) == PacketsOf(v, muted.arrival)
  {
    var s, v := SendAll(t, turn.earlier), SendAll(u, turn.earlier);
    var handled, other := HandleArrival(s, turn.arrival), HandleArrival(v, Mute(s, turn).arrival);
    SameCoreSameSends(t, u, turn.earlier);
    MutedArrival(s, v, turn);
    SameCoreSameSends(handled, other, turn.later);
    SameCoreSameMaintenance(SendAll(handled, turn.later), SendAll(other, turn.later), turn.read, turn.calls);
  }

  /** In the whole receive loop, rekeys, keepalives and other threads' sends included, a junk datagram is
      a receive timeout. */
  lemma {:induction false} JunkIsTimeout(t: TunnelState, turns: seq<Turn>)
    requires WellFormed(t)
    ensures Core(TakeTurns(t, Muted(t, turns))) == Core(TakeTurns(t, turns))
    ensures DeliveredIn(t, Muted(t, turns)) == DeliveredIn(t, turns)
  {
    if turns != [] {
      JunkIsTimeout(t, Front(turns));
      var muted := Muted(t, turns);
      assert Front(muted) == Muted(t, Front(turns)) && Last(muted) == Mute(AtDatagram(t, turns), Last(turns));
      MutedTurn(TakeTurns(t, Front(turns)), TakeTurns(t, Front(muted)), Last(turns));
    }
  }

  // ---------- accounting ----------

  predicate Handled(a: Arrival) {
    a.fromPeer && !a.datagram.OtherType?
  }

  predicate CompletesHandshake(t: TunnelState, a: Arrival) {
    a.fromPeer && Authentic(t, a.datagram)
  }

  predicate IsKeepalive(t: TunnelState, a: Arrival) {
    && a.fromPeer && (a.datagram.Transport? || a.datagram.Short?)
    && Open(t, a.datagram) == Opened([])
    && Fresh(t.keypairs[a.datagram.receiver].seen, a.datagram.counter)
  }

  function One(b: bool): nat {
    if b then 1 else 0
  }

  /** How many arrivals were handled, completed a handshake, were keepalives. */
  datatype Tally = Tally(handled: nat, handshakes: nat, keepalives: nat)

  function TallyOf(t: TunnelState, arrival: Option<Arrival>): Tally {
    if arrival.None? then Tally(0, 0, 0)
    else
      var a := arrival.value;
      Tally(One(Handled(a)), One(CompletesHandshake(t, a)), One(IsKeepalive(t, a)))
  }

  function Sum(a: Tally, b: Tally): Tally {
    Tally(a.handled + b.handled, a.handshakes + b.handshakes, a.keepalives + b.keepalives)
  }

  function TallyIn(t: TunnelState, turns: seq<Turn>): Tally
    requires WellFormed(t)
  {
    if turns == [] then Tally(0, 0, 0)
    else Sum(TallyIn(t, Front(turns)), TallyOf(AtDatagram(t, turns), Last(turns).arrival))
  }

  function Rejected(t: TunnelState): nat {
    t.decryptRejects.count + t.replayRejects.count + t.otherRejects.count
  }

  predicate Room(t: TunnelState, n: nat) {
    && t.decryptRejects.count + n < U64 && t.replayRejects.count + n < U64
    && t.otherRejects.count + n < U64 && t.rxPackets + n < U64
  }

  ghost predicate SameRejects(t: TunnelState, u: TunnelState) {
    && u.decryptRejects == t.decryptRejects && u.replayRejects == t.replayRejects
    && u.otherRejects == t.otherRejects
  }

  lemma TransportOutcome(t: TunnelState, d: Datagram, io: Delivery)
    requires (d.Transport? || d.Short?) && Room(t, 1)
    ensures var r := ProcessTransport(t, d, io);
            var keepalive := Open(t, d) == Opened([]) && Fresh(t.keypairs[d.receiver].seen, d.counter);
            && SameRejects(t, r.state) && r.state.rxPackets == t.rxPackets + |Packets(r)|
            && 1 == One(r.result < 0) + One(keepalive) + |Packets(r)|
  {}

  lemma RejectCounts(r: Rejects)
    requires r.count + 1 < U64
    ensures Reject(r).count == r.count + 1
  {
    IncFits(r.count);
  }

  lemma RejectOutcome(t: TunnelState, result: int, n: nat)
    requires Room(t, n + 1)
    ensures Rejected(RecordRejection(t, result)) == Rejected(t) + 1
    ensures RecordRejection(t, result).rxPackets == t.rxPackets
    ensures Room(RecordRejection(t, result), n)
  {
    RejectCounts(t.decryptRejects);
    RejectCounts(t.replayRejects);
    RejectCounts(t.otherRejects);
  }

  lemma OneOutcome(t: TunnelState, a: Arrival, n: nat)
    requires Room(t, n + 1)
    ensures var r := HandleDatagram(t, a);
            && One(Handled(a)) == One(CompletesHandshake(t, a)) + One(IsKeepalive(t, a)) + |Packets(r)|
                                  + Rejected(r.state) - Rejected(t)
            && r.state.rxPackets == t.rxPackets + |Packets(r)|
            && Room(r.state, n)
  {
    if Handled(a) {
      if a.datagram.Response? {
        var (u, result) := ProcessResponse(t, a.datagram, a.kept, a.now);
        assert SameRejects(t, u) && u.rxPackets == t.rxPackets;
        if result < 0 { RejectOutcome(u, result, n); }
      } else {
        TransportOutcome(t, a.datagram, a.io);
        var r := ProcessTransport(t, a.datagram, a.io);
        if r.result < 0 { RejectOutcome(r.state, r.result, n); }
      }
    }
  }

  ghost predicate SameBooks(t: TunnelState, u: TunnelState) {
    SameRejects(t, u) && u.rxPackets == t.rxPackets
  }

  lemma {:induction false} SendsKeepBooks(t: TunnelState, sends: seq<Outbound>)
    requires WellFormed(t)
    ensures SameBooks(t, SendAll(t, sends))
  {
    if sends != [] { SendsKeepBooks(t, Front(sends)); }
  }

  lemma MaintenanceKeepsBooks(t: TunnelState, now: uint64, m: Maintenance)
    requires WellFormed(t)
    ensures SameBooks(t, Maintain(t, now, m))
  {}

  /** In the books a turn is its datagram. */
  lemma TurnIsArrival(t: TunnelState, turn: Turn)
    requires WellFormed(t)
    ensures var s := SendAll(t, turn.earlier);
            SameBooks(t, s) && SameBooks(HandleArrival(s, turn.arrival), TakeTurn(t, turn))
  {
    var handled := HandleArrival(SendAll(t, turn.earlier), turn.arrival);
    SendsKeepBooks(t, turn.earlier);
    SendsKeepBooks(handled, turn.later);
    MaintenanceKeepsBooks(SendAll(handled, turn.later), turn.read, turn.calls);
  }

  /** From t to u `tally` datagrams were handled and `packets` delivered. */
  predicate Balanced(t: TunnelState, u: TunnelState, tally: Tally, packets: nat) {
    && tally.handled == tally.handshakes + tally.keepalives + packets + Rejected(u) - Rejected(t)
    && u.rxPackets == t.rxPackets + packets
  }

  lemma ArrivalBalanced(t: TunnelState, arrival: Option<Arrival>, n: nat)
    requires Room(t, n + 1)
    ensures Balanced(t, HandleArrival(t, arrival), TallyOf(t, arrival), |PacketsOf(t, arrival)|)
    ensures Room(HandleArrival(t, arrival), n)
  {
    if arrival.Some? { OneOutcome(t, arrival.value, n); }
  }

  lemma SameBalance(t: TunnelState, s: TunnelState, h: TunnelState, u: TunnelState, tally: Tally, packets: nat)
    requires SameBooks(t, s) && Balanced(s, h, tally, packets) && SameBooks(h, u)
    ensures Balanced(t, u, tally, packets)
  {}

  lemma OneTurn(t: TunnelState, turn: Turn)
    requires WellFormed(t) && Room(t, 1)
    ensures var s := SendAll(t, turn.earlier);
            Balanced(t, TakeTurn(t, turn), TallyOf(s, turn.arrival), |PacketsOf(s, turn.arrival)|)
  {
    var s := SendAll(t, turn.earlier);
    TurnIsArrival(t, turn);
    ArrivalBalanced(s, turn.arrival, 0);
    SameBalance(t, s, HandleArrival(s, turn.arrival), TakeTurn(t, turn), TallyOf(s, turn.arrival),
                |PacketsOf(s, turn.arrival)|);
  }

  lemma TurnLeavesRoom(t: TunnelState, turn: Turn, n: nat)
    requires WellFormed(t) && Room(t, n + 1)
    ensures Room(TakeTurn(t, turn), n)
  {
    TurnIsArrival(t, turn);
    ArrivalBalanced(SendAll(t, turn.earlier), turn.arrival, n);
  }

  lemma {:induction false} RoomLeft(t: TunnelState, turns: seq<Turn>, n: nat)
    requires WellFormed(t) && Room(t, |turns| + n)
    ensures Room(TakeTurns(t, turns), n)
  {
    if turns != [] {
      RoomLeft(t, Front(turns), n + 1);
      TurnLeavesRoom(TakeTurns(t, Front(turns)), Last(turns), n);
    }
  }

  /** Over every run of the receive loop each handled datagram is exactly one of: handshake completed,
      packet delivered, keepalive, or counted in one reject counter. */
  lemma {:induction false} EveryDatagramAccounted(t: TunnelState, turns: seq<Turn>)
    requires WellFormed(t) && Room(t, |turns|)
    ensures var u, tally, packets := TakeTurns(t, turns), TallyIn(t, turns), DeliveredIn(t, turns);
            && tally.handled == tally.handshakes + tally.keepalives + |packets| + Rejected(u) - Rejected(t)
            && u.rxPackets == t.rxPackets + |packets|
  {
    if turns != [] {
      EveryDatagramAccounted(t, Front(turns));
      RoomLeft(t, Front(turns), 1);
      OneTurn(TakeTurns(t, Front(turns)), Last(turns));
    }
  }

  // ---------- bounded logging ----------

  function FloorLog2(n: nat): nat {
    if n < 2 then 0 else 1 + FloorLog2(n / 2)
  }

  lemma {:induction false} FloorLog2Bounds(n: nat)
    requires n >= 1
    ensures BitOps.Pow2(FloorLog2(n)) <= n < 2 * BitOps.Pow2(FloorLog2(n))
  {
    if n >= 2 { FloorLog2Bounds(n / 2); }
  }

  /** The n & (n - 1) test finds exactly the powers of two. */
  lemma {:induction false} PowerOfTwoTest(n: nat)
    requires n >= 1
    ensures BitOps.And(n, n - 1) == 0 <==> n == BitOps.Pow2(FloorLog2(n))
  {
    if n >= 2 {
      if n % 2 == 0 {
        PowerOfTwoTest(n / 2);
        assert (n - 1) / 2 == n / 2 - 1;
      } else {
        assert (n - 1) / 2 == n / 2;
        BitOps.AndSelf(n / 2);
      }
    }
  }

  /** The log moves on exactly at the powers of two. */
  lemma {:induction false} FloorLog2Next(n: nat)
    requires n >= 1
    ensures FloorLog2(n + 1) == FloorLog2(n) + One(n + 1 == BitOps.Pow2(FloorLog2(n + 1)))
  {
    if n >= 2 {
      if n % 2 == 0 {
        assert (n + 1) / 2 == n / 2;
      } else {
        FloorLog2Next(n / 2);
        assert (n + 1) / 2 == n / 2 + 1;
      }
    }
  }

  /** How many lines a counter at n has produced. */
  function LinesAt(n: nat): nat {
    if n < 4 then n else FloorLog2(n) + 2
  }

  lemma RejectLogs(r: Rejects)
    requires r.lines == LinesAt(r.count) && r.count + 1 < U64
    ensures Reject(r).lines == LinesAt(r.count + 1) && Reject(r).count == r.count + 1
  {
    RejectCounts(r);
    PowerOfTwoTest(r.count + 1);
    if r.count >= 1 { FloorLog2Next(r.count); }
  }

  ghost predicate LogsExact(t: TunnelState) {
    forall r <- [t.decryptRejects, t.replayRejects, t.otherRejects] :: r.lines == LinesAt(r.count)
  }

  lemma RecordLogs(t: TunnelState, result: int)
    requires LogsExact(t) && Room(t, 1)
    ensures LogsExact(RecordRejection(t, result))
  {
    RejectLogs(t.decryptRejects);
    RejectLogs(t.replayRejects);
    RejectLogs(t.otherRejects);
  }

  lemma StepLogs(t: TunnelState, a: Arrival)
    requires LogsExact(t) && Room(t, 1)
    ensures LogsExact(HandleDatagram(t, a).state)
  {
    if Handled(a) {
      if a.datagram.Response? {
        var (u, result) := ProcessResponse(t, a.datagram, a.kept, a.now);
        assert SameRejects(t, u) && u.rxPackets == t.rxPackets;
        RecordLogs(u, result);
      } else {
        TransportOutcome(t, a.datagram, a.io);
        var r := ProcessTransport(t, a.datagram, a.io);
        if r.result < 0 {
          assert Packets(r) == [];
          RecordLogs(r.state, r.result);
        }
      }
    }
  }

  lemma TurnLogs(t: TunnelState, turn: Turn)
    requires WellFormed(t) && LogsExact(t) && Room(t, 1)
    ensures LogsExact(TakeTurn(t, turn))
  {
    TurnIsArrival(t, turn);
    if turn.arrival.Some? { StepLogs(SendAll(t, turn.earlier), turn.arrival.value); }
  }

  /** Whatever arrives and whatever the loop does in between, each reject counter at n >= 4 has produced
      exactly floor(log2 n) + 2 lines. */
  lemma {:induction false} LogsStayBounded(t: TunnelState, turns: seq<Turn>)
    requires WellFormed(t) && LogsExact(t) && Room(t, |turns|)
    ensures LogsExact(TakeTurns(t, turns))
  {
    if turns != [] {
      LogsStayBounded(t, Front(turns));
      RoomLeft(t, Front(turns), 1);
      TurnLogs(TakeTurns(t, Front(turns)), Last(turns));
    }
  }
}
