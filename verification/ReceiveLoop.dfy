/** The receive thread in time: the first handshake, then datagrams, clock reads and maintenance,
    with sends by other threads at any moment the peer mutex is free. */
module ReceiveLoop {
  import opened CTypes
  import opened TunnelSpec
  import opened Tai64n

  /** Timed(now): the loop has read the clock and has not yet taken the mutex. */
  datatype Phase = Idle | Failed | Waiting | Polling | Timed(now: uint64)

  /** An initiation that was sent: the process time its label was made, the wall-clock second and
      the process time that went into it. */
  datatype Initiation = Initiation(made: uint64, second: nat, nanosAt: uint64) {
    function Stamp(): Bytes {
      Label(second, nanosAt)
    }
  }

  datatype Loop = Loop(
    tunnel: TunnelState,
    phase: Phase,
    clock: uint64,                  // the latest clock reading of any thread
    initiations: seq<Initiation>,
    completions: seq<uint64>,       // when each handshake completed
    lastRead: Option<uint64>)       // the clock read of the last finished iteration

  const BEGIN: Loop := Loop(STOPPED, Idle, 0, [], [], None)

  datatype Event =
    | FirstInitiation(created: Option<uint32>, sent: int, made: uint64, nanosAt: uint64)
    | Arrives(arrival: Arrival)
    | ReadClock(at: uint64)
    | Maintains(calls: Maintenance, labelMade: uint64, labelNanosAt: uint64)
    | OtherSend(inner: Bytes, accepted: int, sentAt: uint64)

  /** When a step ends. */
  function EndOf(e: Event): uint64 {
    match e
    case FirstInitiation(_, _, made, _) => made
    case Arrives(a) => a.now
    case ReadClock(at) => at
    case Maintains(m, _, _) => m.now
    case OtherSend(_, _, at) => at
  }

  predicate NonZeroSender(created: Option<uint32>) {
    created.Some? ==> created.value != 0
  }

  /** Steps belong to their phase, time goes forward, sender indices are not zero, and the Noise code
      accepts no response while no initiation is pending. */
  predicate Possible(l: Loop, e: Event) {
    && l.clock <= EndOf(e)
    && match e
       case FirstInitiation(created, _, _, _) => l.phase.Idle? && NonZeroSender(created)
       case Arrives(a) =>
         && (l.phase.Waiting? || l.phase.Polling?)
         && (l.tunnel.pendingSender == 0 && a.datagram.Response? ==> a.datagram.established.None?)
       case ReadClock(_) => l.phase.Polling?
       case Maintains(m, made, _) => l.phase.Timed? && l.clock <= made <= m.now && NonZeroSender(m.created)
       case OtherSend(_, _, _) => l.phase.Polling? || l.phase.Timed?
  }

  /** While waiting for the first response every datagram is treated as a handshake response. */
  function AwaitResponse(t: TunnelState, a: Arrival): (TunnelState, int) {
    if a.fromPeer && a.datagram.Response? then ProcessResponse(t, a.datagram, a.kept, a.now) else (t, -32)
  }

  function AfterRekey(l: Loop, calls: Maintenance, next: Initiation): seq<Initiation>
    requires l.phase.Timed?
  {
    if RekeySent(l.tunnel, l.phase.now, calls) then l.initiations + [next] else l.initiations
  }

  function Launch(l: Loop, created: Option<uint32>, sent: int, next: Initiation): Loop {
    var (t, result) := SendHandshake(l.tunnel, created, sent);
    if result < 0 then l.(clock := next.made, phase := Failed)
    else l.(tunnel := t, clock := next.made, phase := Waiting, initiations := l.initiations + [next])
  }

  function AfterArrival(l: Loop, a: Arrival): TunnelState {
    if l.phase.Waiting? then AwaitResponse(l.tunnel, a).0 else HandleDatagram(l.tunnel, a).state
  }

  function Arrive(l: Loop, a: Arrival): Loop {
    if a.fromPeer && Authentic(l.tunnel, a.datagram)
    then l.(tunnel := AfterArrival(l, a), clock := a.now, phase := Polling, completions := l.completions + [a.now])
    else l.(tunnel := AfterArrival(l, a), clock := a.now)
  }

  function Iterate(l: Loop, calls: Maintenance, next: Initiation): Loop
    requires WellFormed(l.tunnel) && l.phase.Timed?
  {
    l.(tunnel := Maintain(l.tunnel, l.phase.now, calls), clock := calls.now, phase := Polling,
       initiations := AfterRekey(l, calls, next), lastRead := Some(l.phase.now))
  }

  function SendBeside(l: Loop, inner: Bytes, accepted: int, at: uint64): Loop
    requires WellFormed(l.tunnel)
  {
    l.(tunnel := SendTransport(l.tunnel, inner, accepted, at).0, clock := at)
  }

  function Step(l: Loop, e: Event, wall: nat -> nat): (r: Loop)
    requires WellFormed(l.tunnel) && Possible(l, e)
    ensures WellFormed(r.tunnel)
  {
    match e
    case FirstInitiation(created, sent, made, nanosAt) =>
      Launch(l, created, sent, Initiation(made, wall(made), nanosAt))
    case Arrives(a) => Arrive(l, a)
    case ReadClock(at) => l.(clock := at, phase := Timed(at))
    case Maintains(calls, made, nanosAt) => Iterate(l, calls, Initiation(made, wall(made), nanosAt))
    case OtherSend(inner, accepted, at) => SendBeside(l, inner, accepted, at)
  }

  /** At most one initiation is outstanding (when `pending`); completions follow their initiations;
      a later initiation is made at least 100 s after the completion before it. */
  ghost predicate Paired(initiations: seq<Initiation>, completions: seq<uint64>, pending: bool, clock: uint64) {
    && |initiations| == |completions| + (if pending then 1 else 0)
    && (forall i | 0 <= i < |completions| :: initiations[i].made <= completions[i] <= clock)
    && (forall i | 0 < i < |initiations| :: completions[i - 1] + REKEY_INTERVAL_US <= initiations[i].made)
    && (forall i | 0 <= i < |initiations| :: initiations[i].made <= clock)
  }

  lemma PairInitiation(initiations: seq<Initiation>, completions: seq<uint64>, clock: uint64, next: Initiation,
                       end: uint64)
    requires Paired(initiations, completions, false, clock) && clock <= next.made <= end
    requires completions != [] ==> completions[|completions| - 1] + REKEY_INTERVAL_US <= next.made
    ensures Paired(initiations + [next], completions, true, end)
  {}

  lemma PairCompletion(initiations: seq<Initiation>, completions: seq<uint64>, clock: uint64, end: uint64)
    requires Paired(initiations, completions, true, clock) && clock <= end
    ensures Paired(initiations, completions + [end], false, end)
  {}

  lemma PairLater(initiations: seq<Initiation>, completions: seq<uint64>, pending: bool, clock: uint64, end: uint64)
    requires Paired(initiations, completions, pending, clock) && clock <= end
    ensures Paired(initiations, completions, pending, end)
  {}

  ghost predicate History(l: Loop) {
    Paired(l.initiations, l.completions, l.tunnel.pendingSender != 0, l.clock)
  }

  ghost predicate Completed(l: Loop) {
    && l.completions != [] && l.tunnel.lastHandshake == l.completions[|l.completions| - 1]
    && l.tunnel.current.Some? && l.tunnel.current.value in l.tunnel.keypairs
    && l.tunnel.keypairs[l.tunnel.current.value].sendingValid
  }

  /** Where the receive thread stands relative to the last completed handshake. */
  ghost predicate Anchored(l: Loop) {
    match l.phase
    case Idle | Failed => l.initiations == [] && l.completions == []
    case Waiting => |l.initiations| == 1 && l.completions == []
    case Polling => Completed(l) && l.tunnel.lastHandshake <= l.clock
    case Timed(now) => Completed(l) && l.tunnel.lastHandshake <= now <= l.clock
  }

  /** Every label was made from the wall clock at its time. */
  ghost predicate Labelled(initiations: seq<Initiation>, wall: nat -> nat) {
    forall i <- initiations :: i.second == wall(i.made)
  }

  ghost predicate Inv(l: Loop, wall: nat -> nat) {
    && WellFormed(l.tunnel) && History(l) && Anchored(l) && Labelled(l.initiations, wall)
    && l.tunnel.lastTransportTx <= l.clock
  }

  lemma SendKeepsTiming(t: TunnelState, inner: Bytes, accepted: int, now: uint64)
    requires WellFormed(t)
    ensures var u := SendTransport(t, inner, accepted, now).0;
            && u.pendingSender == t.pendingSender && u.lastHandshake == t.lastHandshake && u.current == t.current
            && (u.lastTransportTx == t.lastTransportTx || u.lastTransportTx == now)
            && (t.current.Some? ==>
                  u.keypairs[u.current.value].sendingValid == t.keypairs[t.current.value].sendingValid)
  {}

  lemma TransportKeepsTiming(t: TunnelState, d: Datagram, io: Delivery)
    requires WellFormed(t) && (d.Transport? || d.Short?)
    ensures var r := ProcessTransport(t, d, io);
            var u := if r.result < 0 then RecordRejection(r.state, r.result) else r.state;
            && u.pendingSender == t.pendingSender && u.lastHandshake == t.lastHandshake && u.current == t.current
            && u.lastTransportTx == t.lastTransportTx
            && (t.current.Some? ==>
                  u.current.value in u.keypairs
                  && u.keypairs[u.current.value].sendingValid == t.keypairs[t.current.value].sendingValid)
  {}

  lemma ResponseTiming(t: TunnelState, d: Datagram, kept: set<uint32>, now: uint64)
    requires Authentic(t, d)
    ensures var u := ProcessResponse(t, d, kept, now).0;
            && WellFormed(u) && u.pendingSender == 0 && u.lastHandshake == now
            && u.lastTransportTx == t.lastTransportTx
            && u.current.Some? && u.keypairs[u.current.value].sendingValid
  {}

  lemma CompletedKeeps(l: Loop, u: TunnelState, end: uint64, wall: nat -> nat)
    requires Inv(l, wall) && (l.phase.Waiting? || l.phase.Polling?) && l.clock <= end && l.tunnel.pendingSender != 0
    requires WellFormed(u) && u.pendingSender == 0 && u.lastHandshake == end
    requires u.lastTransportTx == l.tunnel.lastTransportTx
    requires u.current.Some? && u.keypairs[u.current.value].sendingValid
    ensures Inv(l.(tunnel := u, clock := end, phase := Polling, completions := l.completions + [end]), wall)
  {
    PairCompletion(l.initiations, l.completions, l.clock, end);
  }

  lemma ArrivalIsResponse(l: Loop, a: Arrival)
    requires a.fromPeer && Authentic(l.tunnel, a.datagram)
    ensures AfterArrival(l, a) == ProcessResponse(l.tunnel, a.datagram, a.kept, a.now).0
  {}

  lemma CompletionKeeps(l: Loop, a: Arrival, wall: nat -> nat)
    requires Inv(l, wall) && (l.phase.Waiting? || l.phase.Polling?) && l.clock <= a.now && l.tunnel.pendingSender != 0
    requires a.fromPeer && Authentic(l.tunnel, a.datagram)
    ensures Inv(Arrive(l, a), wall)
  {
    ArrivalIsResponse(l, a);
    ResponseTiming(l.tunnel, a.datagram, a.kept, a.now);
    CompletedKeeps(l, AfterArrival(l, a), a.now, wall);
  }

  ghost predicate SameTiming(t: TunnelState, u: TunnelState) {
    && u.pendingSender == t.pendingSender && u.lastHandshake == t.lastHandshake && u.current == t.current
    && u.lastTransportTx == t.lastTransportTx
    && (t.current.Some? ==>
          && u.current.value in u.keypairs && t.current.value in t.keypairs
          && u.keypairs[u.current.value].sendingValid == t.keypairs[t.current.value].sendingValid)
  }

  lemma OtherArrivalKeepsTiming(t: TunnelState, a: Arrival)
    requires WellFormed(t) && !(a.fromPeer && Authentic(t, a.datagram))
    ensures SameTiming(t, HandleDatagram(t, a).state) && SameTiming(t, AwaitResponse(t, a).0)
  {
    if a.fromPeer && (a.datagram.Transport? || a.datagram.Short?) {
      TransportKeepsTiming(t, a.datagram, a.io);
    }
  }

  lemma SameTimingKeeps(l: Loop, u: TunnelState, end: uint64, wall: nat -> nat)
    requires Inv(l, wall) && (l.phase.Waiting? || l.phase.Polling?) && l.clock <= end
    requires SameTiming(l.tunnel, u) && WellFormed(u)
    ensures Inv(l.(tunnel := u, clock := end), wall)
  {}

  lemma NothingCompletes(l: Loop, a: Arrival)
    requires WellFormed(l.tunnel) && !(a.fromPeer && Authentic(l.tunnel, a.datagram))
    ensures WellFormed(AfterArrival(l, a)) && SameTiming(l.tunnel, AfterArrival(l, a))
  {
    OtherArrivalKeepsTiming(l.tunnel, a);
  }

  lemma ArrivalKeeps(l: Loop, a: Arrival, wall: nat -> nat)
    requires Inv(l, wall) && (l.phase.Waiting? || l.phase.Polling?) && l.clock <= a.now
    requires a.fromPeer && Authentic(l.tunnel, a.datagram) ==> l.tunnel.pendingSender != 0
    ensures Inv(Arrive(l, a), wall)
  {
    if a.fromPeer && Authentic(l.tunnel, a.datagram) {
      CompletionKeeps(l, a, wall);
    } else {
      NothingCompletes(l, a);
      SameTimingKeeps(l, AfterArrival(l, a), a.now, wall);
    }
  }

  lemma MaintainKeepsTiming(t: TunnelState, now: uint64, m: Maintenance)
    requires WellFormed(t)
    ensures var u := Maintain(t, now, m);
            && u.pendingSender == (if RekeySent(t, now, m) then m.created.value else t.pendingSender)
            && u.lastHandshake == t.lastHandshake && u.current == t.current
            && (u.lastTransportTx == t.lastTransportTx || u.lastTransportTx == m.now)
            && (t.current.Some? ==>
                  u.keypairs[u.current.value].sendingValid == t.keypairs[t.current.value].sendingValid)
  {
    SendKeepsTiming(Rekeyed(t, now, m), [], m.keepaliveSent, m.now);
  }

  lemma RekeyWaited(l: Loop, wall: nat -> nat)
    requires Inv(l, wall) && l.phase.Timed? && RekeyDue(l.tunnel, l.phase.now)
    ensures l.completions[|l.completions| - 1] + REKEY_INTERVAL_US <= l.phase.now
  {
    NoBorrow(l.phase.now, l.tunnel.lastHandshake);
  }

  lemma PolledKeeps(l: Loop, u: TunnelState, initiations: seq<Initiation>, end: uint64, wall: nat -> nat)
    requires Inv(l, wall) && l.phase.Timed? && l.clock <= end
    requires WellFormed(u) && u.lastHandshake == l.tunnel.lastHandshake && u.current == l.tunnel.current
    requires u.lastTransportTx <= end
    requires u.keypairs[u.current.value].sendingValid == l.tunnel.keypairs[l.tunnel.current.value].sendingValid
    requires Paired(initiations, l.completions, u.pendingSender != 0, end) && Labelled(initiations, wall)
    ensures Inv(l.(tunnel := u, clock := end, phase := Polling, initiations := initiations,
                   lastRead := Some(l.phase.now)), wall)
  {}

  lemma RekeyKeeps(l: Loop, m: Maintenance, next: Initiation, wall: nat -> nat)
    requires Inv(l, wall) && l.phase.Timed? && l.clock <= next.made <= m.now
    requires NonZeroSender(m.created) && next.second == wall(next.made)
    ensures Paired(AfterRekey(l, m, next), l.completions, Maintain(l.tunnel, l.phase.now, m).pendingSender != 0, m.now)
    ensures Labelled(AfterRekey(l, m, next), wall)
  {
    MaintainKeepsTiming(l.tunnel, l.phase.now, m);
    if RekeySent(l.tunnel, l.phase.now, m) {
      RekeyWaited(l, wall);
      PairInitiation(l.initiations, l.completions, l.clock, next, m.now);
    } else {
      PairLater(l.initiations, l.completions, l.tunnel.pendingSender != 0, l.clock, m.now);
    }
  }

  lemma MaintenanceKeeps(l: Loop, m: Maintenance, next: Initiation, wall: nat -> nat)
    requires Inv(l, wall) && l.phase.Timed? && l.clock <= next.made <= m.now
    requires NonZeroSender(m.created) && next.second == wall(next.made)
    ensures Inv(Iterate(l, m, next), wall)
  {
    MaintainKeepsTiming(l.tunnel, l.phase.now, m);
    RekeyKeeps(l, m, next, wall);
    PolledKeeps(l, Maintain(l.tunnel, l.phase.now, m), AfterRekey(l, m, next), m.now, wall);
  }

  lemma FailedKeeps(l: Loop, end: uint64, wall: nat -> nat)
    requires Inv(l, wall) && l.phase.Idle? && l.clock <= end
    ensures Inv(l.(clock := end, phase := Failed), wall)
  {}

  lemma LaunchedKeeps(l: Loop, u: TunnelState, next: Initiation, wall: nat -> nat)
    requires Inv(l, wall) && l.phase.Idle? && l.clock <= next.made && next.second == wall(next.made)
    requires WellFormed(u) && u.pendingSender != 0 && u.lastTransportTx == l.tunnel.lastTransportTx
    ensures Inv(l.(tunnel := u, clock := next.made, phase := Waiting, initiations := l.initiations + [next]), wall)
  {
    PairInitiation(l.initiations, l.completions, l.clock, next, next.made);
  }

  lemma LaunchKeeps(l: Loop, created: Option<uint32>, sent: int, next: Initiation, wall: nat -> nat)
    requires Inv(l, wall) && l.phase.Idle? && l.clock <= next.made
    requires NonZeroSender(created) && next.second == wall(next.made)
    ensures Inv(Launch(l, created, sent, next), wall)
  {
    var (u, result) := SendHandshake(l.tunnel, created, sent);
    if result < 0 { FailedKeeps(l, next.made, wall); } else { LaunchedKeeps(l, u, next, wall); }
  }

  lemma ReadKeeps(l: Loop, at: uint64, wall: nat -> nat)
    requires Inv(l, wall) && l.phase.Polling? && l.clock <= at
    ensures Inv(l.(clock := at, phase := Timed(at)), wall)
  {
    PairLater(l.initiations, l.completions, l.tunnel.pendingSender != 0, l.clock, at);
  }

  lemma SentKeeps(l: Loop, u: TunnelState, end: uint64, wall: nat -> nat)
    requires Inv(l, wall) && l.clock <= end && WellFormed(u)
    requires u.pendingSender == l.tunnel.pendingSender && u.lastHandshake == l.tunnel.lastHandshake
    requires u.current == l.tunnel.current && u.lastTransportTx <= end
    requires u.current.Some? ==>
               u.keypairs[u.current.value].sendingValid == l.tunnel.keypairs[u.current.value].sendingValid
    ensures Inv(l.(tunnel := u, clock := end), wall)
  {}

  lemma SendKeeps(l: Loop, inner: Bytes, accepted: int, at: uint64, wall: nat -> nat)
    requires Inv(l, wall) && l.clock <= at
    ensures Inv(SendBeside(l, inner, accepted, at), wall)
  {
    SendKeepsTiming(l.tunnel, inner, accepted, at);
    SentKeeps(l, SendTransport(l.tunnel, inner, accepted, at).0, at, wall);
  }

  lemma StepKeepsInv(l: Loop, e: Event, wall: nat -> nat)
    requires Inv(l, wall) && Possible(l, e)
    ensures Inv(Step(l, e, wall), wall)
  {
    match e
    case FirstInitiation(created, sent, made, nanosAt) =>
      LaunchKeeps(l, created, sent, Initiation(made, wall(made), nanosAt), wall);
    case Arrives(a) => ArrivalKeeps(l, a, wall);
    case ReadClock(at) => ReadKeeps(l, at, wall);
    case Maintains(m, made, nanosAt) => MaintenanceKeeps(l, m, Initiation(made, wall(made), nanosAt), wall);
    case OtherSend(inner, accepted, at) => SendKeeps(l, inner, accepted, at, wall);
  }

  predicate Legal(l: Loop, events: seq<Event>, wall: nat -> nat)
    requires WellFormed(l.tunnel)
    decreases |events|
  {
    events == [] || (Possible(l, events[0]) && Legal(Step(l, events[0], wall), events[1..], wall))
  }

  function Run(l: Loop, events: seq<Event>, wall: nat -> nat): (r: Loop)
    requires WellFormed(l.tunnel) && Legal(l, events, wall)
    ensures WellFormed(r.tunnel)
    decreases |events|
  {
    if events == [] then l else Run(Step(l, events[0], wall), events[1..], wall)
  }

  lemma {:induction false} RunKeepsInv(l: Loop, events: seq<Event>, wall: nat -> nat)
    requires Inv(l, wall) && Legal(l, events, wall)
    ensures Inv(Run(l, events, wall), wall)
    decreases |events|
  {
    if events != [] {
      StepKeepsInv(l, events[0], wall);
      RunKeepsInv(Step(l, events[0], wall), events[1..], wall);
    }
  }

  // ---------- handshake ordering ----------

  /** Wall-clock seconds never go back and advance by at least one every 100 s of process time. */
  ghost predicate WallAdvances(wall: nat -> nat) {
    && (forall s: nat, t: nat | s + REKEY_INTERVAL_US <= t :: wall(s) < wall(t))
    && (forall s: nat | s < U64 :: wall(s) < U64 - TAI64_BASE)
  }

  lemma {:induction false} InitiationsApart(initiations: seq<Initiation>, completions: seq<uint64>, pending: bool,
                                            clock: uint64, i: nat, j: nat)
    requires Paired(initiations, completions, pending, clock) && i < j < |initiations|
    ensures initiations[i].made + REKEY_INTERVAL_US <= initiations[j].made
    decreases j
  {
    assert initiations[j - 1].made <= completions[j - 1];
    if i < j - 1 { InitiationsApart(initiations, completions, pending, clock, i, j - 1); }
  }

  /** At most one initiation is outstanding, the next one is made at least 100 s after the handshake
      before it completed, and every label is greater than all labels sent before it. */
  ghost predicate HandshakesInOrder(l: Loop) {
    && |l.completions| <= |l.initiations| <= |l.completions| + 1
    && (|l.initiations| > |l.completions| <==> l.tunnel.pendingSender != 0)
    && (forall i | 0 <= i < |l.completions| ::
          l.initiations[i].made <= l.completions[i]
          && (i + 1 < |l.initiations| ==> l.completions[i] + REKEY_INTERVAL_US <= l.initiations[i + 1].made))
    && forall i, j | 0 <= i < j < |l.initiations| :: Before(l.initiations[i].Stamp(), l.initiations[j].Stamp())
  }

  lemma StampsOrdered(a: Initiation, b: Initiation, wall: nat -> nat)
    requires WallAdvances(wall) && a.second == wall(a.made) && b.second == wall(b.made)
    requires a.made + REKEY_INTERVAL_US <= b.made
    ensures Before(a.Stamp(), b.Stamp())
  {
    LabelOrder(a.second, a.nanosAt, b.second, b.nanosAt);
  }

  lemma InvOrders(l: Loop, wall: nat -> nat)
    requires Inv(l, wall) && WallAdvances(wall)
    ensures HandshakesInOrder(l)
  {
    forall i | 0 <= i < |l.completions| && i + 1 < |l.initiations|
      ensures l.completions[i] + REKEY_INTERVAL_US <= l.initiations[i + 1].made
    {
      var k := i + 1;
      assert l.completions[k - 1] + REKEY_INTERVAL_US <= l.initiations[k].made;
    }
    forall i, j | 0 <= i < j < |l.initiations|
      ensures Before(l.initiations[i].Stamp(), l.initiations[j].Stamp())
    {
      InitiationsApart(l.initiations, l.completions, l.tunnel.pendingSender != 0, l.clock, i, j);
      assert l.initiations[i] in l.initiations && l.initiations[j] in l.initiations;
      StampsOrdered(l.initiations[i], l.initiations[j], wall);
    }
  }

  /** Every run orders its handshakes. */
  lemma HandshakesOrdered(events: seq<Event>, wall: nat -> nat)
    requires Legal(BEGIN, events, wall) && WallAdvances(wall)
    ensures HandshakesInOrder(Run(BEGIN, events, wall))
  {
    RunKeepsInv(BEGIN, events, wall);
    InvOrders(Run(BEGIN, events, wall), wall);
  }

  // ---------- keepalives ----------

  const KEEPALIVE_SIZE := TRANSPORT_HEADER + AUTHTAG

  lemma KeepaliveEffect(t: TunnelState, now: uint64, m: Maintenance)
    requires WellFormed(t) && t.current.Some? && t.keypairs[t.current.value].sendingValid
    requires m.keepaliveSent == KEEPALIVE_SIZE
    ensures Maintain(t, now, m).lastTransportTx == if KeepaliveDue(t, now) then m.now else t.lastTransportTx
  {}

  lemma NotDueIsRecent(t: TunnelState, now: uint64)
    requires WellFormed(t) && t.current.Some? && t.keypairs[t.current.value].sendingValid && !KeepaliveDue(t, now)
    ensures now < t.lastTransportTx + KEEPALIVE_INTERVAL_US
  {
    if t.lastTransportTx <= now { NoBorrow(now, t.lastTransportTx); }
  }

  lemma GapAfterMaintenance(t: TunnelState, now: uint64, m: Maintenance)
    requires WellFormed(t) && t.current.Some? && t.keypairs[t.current.value].sendingValid
    requires m.keepaliveSent == KEEPALIVE_SIZE && now <= m.now
    ensures now < Maintain(t, now, m).lastTransportTx + KEEPALIVE_INTERVAL_US
  {
    KeepaliveEffect(t, now, m);
    if !KeepaliveDue(t, now) { NotDueIsRecent(t, now); }
  }

  /** After an iteration whose keepalive, if due, was sent, the last transmission is later than the
      iteration's clock read minus 25 s, even when another thread sent after that read. */
  lemma GapAfterIteration(l: Loop, m: Maintenance, made: uint64, nanosAt: uint64, wall: nat -> nat)
    requires Inv(l, wall) && Possible(l, Maintains(m, made, nanosAt)) && m.keepaliveSent == KEEPALIVE_SIZE
    ensures l.phase.now < Step(l, Maintains(m, made, nanosAt), wall).tunnel.lastTransportTx + KEEPALIVE_INTERVAL_US
  {
    GapAfterMaintenance(l.tunnel, l.phase.now, m);
  }

  /** When another thread sent after the clock read, the unsigned difference wraps: the keepalive is
      then sent although none was due, unless the clocks are nearly 2^64 apart. */
  lemma ConcurrentSendAddsKeepalive(t: TunnelState, now: uint64)
    requires WellFormed(t) && t.current.Some? && t.keypairs[t.current.value].sendingValid && now < t.lastTransportTx
    ensures KeepaliveDue(t, now) <==> t.lastTransportTx - now <= U64 - KEEPALIVE_INTERVAL_US
  {
    assert Minus64(now, t.lastTransportTx) == U64 - (t.lastTransportTx - now);
  }

  lemma RunFirst(l: Loop, e: Event, rest: seq<Event>, wall: nat -> nat)
    requires WellFormed(l.tunnel) && Possible(l, e) && Legal(Step(l, e, wall), rest, wall)
    ensures Legal(l, [e] + rest, wall) && Run(l, [e] + rest, wall) == Run(Step(l, e, wall), rest, wall)
  {
    assert ([e] + rest)[1..] == rest;
  }

  /** The first handshake completes at 0. */
  lemma HandshakeAtZero(wall: nat -> nat) returns (first: Event, response: Event)
    ensures Possible(BEGIN, first) && Possible(Step(BEGIN, first, wall), response)
    ensures var l := Step(Step(BEGIN, first, wall), response, wall);
            && l.phase == Polling && l.clock == 0 && l.tunnel.txPackets == 0
            && l.tunnel.current.Some? && l.tunnel.keypairs[l.tunnel.current.value].sendingValid
  {
    first := FirstInitiation(Some(7), INITIATION_SIZE, 0, 0);
    var answer := Response(RESPONSE_SIZE, 7, true, Some(Session(1, 1, 1)));
    response := Arrives(Arrival(true, answer, Delivery(true, true), {}, 0));
    var l := Step(BEGIN, first, wall);
    assert l.phase == Waiting && l.tunnel == STOPPED.(pendingSender := 7) && l.clock == 0;
  }

  /** The loop has read the clock at 0; another thread sends at 1, and the maintenance sends a keepalive. */
  lemma RaceFrom(l: Loop, wall: nat -> nat, m: Maintenance)
    requires WellFormed(l.tunnel) && l.phase == Timed(0) && l.clock == 0 && l.tunnel.txPackets == 0
    requires l.tunnel.current.Some? && l.tunnel.keypairs[l.tunnel.current.value].sendingValid
    requires m == Maintenance(None, 0, KEEPALIVE_SIZE, 1)
    ensures Possible(l, OtherSend([], KEEPALIVE_SIZE, 1))
    ensures var x := Step(l, OtherSend([], KEEPALIVE_SIZE, 1), wall);
            && x.tunnel.lastTransportTx == x.clock == 1 && Possible(x, Maintains(m, 1, 0))
            && x.tunnel.txPackets == 1 && Step(x, Maintains(m, 1, 0), wall).tunnel.txPackets == 2
  {
    var x := Step(l, OtherSend([], KEEPALIVE_SIZE, 1), wall);
    assert x.tunnel.lastTransportTx == 1 && x.tunnel.txPackets == 1 && x.phase == Timed(0);
    ConcurrentSendAddsKeepalive(x.tunnel, 0);
    assert Rekeyed(x.tunnel, 0, m).txPackets == 1;
  }

  /** It does happen: a run from the start whose next maintenance sends a keepalive although the last
      transmission is as late as the clock. */
  lemma RaceHappens(wall: nat -> nat) returns (events: seq<Event>, m: Maintenance)
    ensures Legal(BEGIN, events, wall)
    ensures var l := Run(BEGIN, events, wall);
            && l.tunnel.lastTransportTx == l.clock == 1 && Possible(l, Maintains(m, 1, 0))
            && l.tunnel.txPackets == 1 && Step(l, Maintains(m, 1, 0), wall).tunnel.txPackets == 2
  {
    var first, response := HandshakeAtZero(wall);
    var read, send := ReadClock(0), OtherSend([], KEEPALIVE_SIZE, 1);
    m := Maintenance(None, 0, KEEPALIVE_SIZE, 1);
    var l1 := Step(BEGIN, first, wall);
    var l2 := Step(l1, response, wall);
    var l3 := Step(l2, read, wall);
    RaceFrom(l3, wall, m);
    RunFirst(l3, send, [], wall);
    RunFirst(l2, read, [send], wall);
    RunFirst(l1, response, [read] + [send], wall);
    RunFirst(BEGIN, first, [response] + ([read] + [send]), wall);
    assert [send] + [] == [send];
    events := [first] + ([response] + ([read] + [send]));
  }

  /** Clock reads at most `period` apart, each iteration done `work` after its read, keepalives sent. */
  predicate Paced(l: Loop, e: Event, period: nat, work: nat) {
    && (l.phase.Polling? && l.lastRead.Some? ==> EndOf(e) <= l.lastRead.value + period)
    && (l.phase.Timed? ==> EndOf(e) <= l.phase.now + work)
    && (e.Maintains? ==> e.calls.keepaliveSent == KEEPALIVE_SIZE)
  }

  predicate PacedRun(l: Loop, events: seq<Event>, wall: nat -> nat, period: nat, work: nat)
    requires WellFormed(l.tunnel) && Legal(l, events, wall)
    decreases |events|
  {
    events == [] || (Paced(l, events[0], period, work)
                     && PacedRun(Step(l, events[0], wall), events[1..], wall, period, work))
  }

  ghost predicate Quiet(l: Loop, period: nat, work: nat) {
    l.lastRead.Some? ==>
      && l.lastRead.value < l.tunnel.lastTransportTx + KEEPALIVE_INTERVAL_US
      && l.clock <= l.lastRead.value + period + work
      && (l.phase.Timed? ==> l.phase.now <= l.lastRead.value + period)
      && (l.phase.Polling? || l.phase.Timed?)
  }

  lemma ArrivalKeepsTx(t: TunnelState, a: Arrival)
    requires WellFormed(t)
    ensures HandleDatagram(t, a).state.lastTransportTx == t.lastTransportTx
    ensures AwaitResponse(t, a).0.lastTransportTx == t.lastTransportTx
  {
    if !(a.fromPeer && Authentic(t, a.datagram)) { OtherArrivalKeepsTiming(t, a); }
  }

  lemma QuietStep(l: Loop, e: Event, wall: nat -> nat, period: nat, work: nat)
    requires Inv(l, wall) && Possible(l, e) && Paced(l, e, period, work) && Quiet(l, period, work)
    ensures Quiet(Step(l, e, wall), period, work)
  {
    match e
    case FirstInitiation(_, _, _, _) =>
    case Arrives(a) => ArrivalKeepsTx(l.tunnel, a);
    case ReadClock(_) =>
    case Maintains(m, made, nanosAt) => GapAfterIteration(l, m, made, nanosAt, wall);
    case OtherSend(inner, accepted, at) => SendKeepsTiming(l.tunnel, inner, accepted, at);
  }

  /** Once the first iteration is done, the silence never exceeds 25 s, the pace of the clock reads
      and one iteration's work together. */
  lemma {:induction false} SilenceBounded(l: Loop, events: seq<Event>, wall: nat -> nat, period: nat, work: nat)
    requires Inv(l, wall) && Quiet(l, period, work)
    requires Legal(l, events, wall) && PacedRun(l, events, wall, period, work)
    ensures var r := Run(l, events, wall);
            r.lastRead.Some? ==> r.clock - r.tunnel.lastTransportTx < KEEPALIVE_INTERVAL_US + period + work
    decreases |events|
  {
    if events != [] {
      QuietStep(l, events[0], wall, period, work);
      StepKeepsInv(l, events[0], wall);
      SilenceBounded(Step(l, events[0], wall), events[1..], wall, period, work);
    }
  }
}
