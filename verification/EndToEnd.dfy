/** Both ends of the tunnel and a network that may drop, repeat, reorder, delay and invent datagrams. */
module EndToEnd {
  import opened CTypes
  import opened ReplayWindow
  import opened TunnelSpec

  /** A packet the sender sealed, and the counter it was sealed with. */
  datatype Sent = Sent(key: nat, counter: uint64, inner: Bytes)

  datatype Arrived = Arrived(key: nat, counter: uint64, packet: Bytes)

  datatype World = World(
    sender: TunnelState,
    receiver: TunnelState,
    sent: seq<Sent>,
    delivered: seq<Arrived>,
    senderKeys: set<nat>,     // keys of all sessions ever installed at the sender
    receiverKeys: set<nat>)

  const START: World := World(STOPPED, STOPPED, [], [], {}, {})

  /** The steps, in any interleaving: a send by any thread of the sender (its keepalives
      included), a session installed at the sender, a datagram handled at the receiver, and what
      else the receiver's threads do. */
  datatype Event =
    | Send(inner: Bytes, accepted: int, now: uint64)
    | SenderSession(session: Session, kept: set<uint32>)
    | Receive(arrival: Arrival)
    | ReceiverSend(reply: Bytes, replyAccepted: int, replyNow: uint64)
    | ReceiverTimer(read: uint64, calls: Maintenance)

  function SentBy(t: TunnelState, inner: Bytes): Sent
    requires WellFormed(t) && CanSend(t, inner)
  {
    var k := t.keypairs[t.current.value];
    Sent(k.key, k.sendingCounter, inner)
  }

  predicate WasSealed(w: World, s: Sealed) {
    exists r <- w.sent :: s == Sealed(r.key, r.counter, Pad(r.inner))
  }

  /** What handshake and encryption promise: a new session has fresh keys and a fresh index, and
      only what the sender sealed is a genuine ciphertext. */
  predicate Possible(w: World, e: Event) {
    match e
    case SenderSession(s, _) => s.key !in w.senderKeys
    case Receive(a) =>
      && (a.datagram.Response? && a.datagram.established.Some? ==>
            a.datagram.established.value.key !in w.receiverKeys
            && a.datagram.established.value.localIndex !in w.receiver.keypairs)
      && (a.datagram.Transport? && a.datagram.body.Genuine? ==> WasSealed(w, a.datagram.body.sealed))
    case _ => true
  }

  /** The packet handed to lwIP for an arrival, if any, with the session and counter it came under. */
  function Deliveries(t: TunnelState, a: Arrival): seq<Arrived> {
    var r := HandleDatagram(t, a);
    if r.delivered.None? then []
    else [Arrived(t.keypairs[a.datagram.receiver].key, a.datagram.counter, r.delivered.value)]
  }

  function Step(w: World, e: Event): World
    requires WellFormed(w.sender) && WellFormed(w.receiver)
  {
    match e
    case Send(inner, accepted, now) =>
      if !CanSend(w.sender, inner) then w
      else w.(sender := SendTransport(w.sender, inner, accepted, now).0, sent := w.sent + [SentBy(w.sender, inner)])
    case SenderSession(s, kept) =>
      w.(sender := StartSession(w.sender, s, kept), senderKeys := w.senderKeys + {s.key})
    case Receive(a) =>
      var r := HandleDatagram(w.receiver, a);
      w.(receiver := r.state,
         receiverKeys := w.receiverKeys + set i | i in r.state.keypairs :: r.state.keypairs[i].key,
         delivered := w.delivered + Deliveries(w.receiver, a))
    case ReceiverSend(inner, accepted, now) => w.(receiver := SendTransport(w.receiver, inner, accepted, now).0)
    case ReceiverTimer(now, m) => w.(receiver := Maintain(w.receiver, now, m))
  }

  function Run(w: World, events: seq<Event>): (r: World)
    requires WellFormed(w.sender) && WellFormed(w.receiver)
    ensures WellFormed(r.sender) && WellFormed(r.receiver)
    decreases |events|
  {
    if events == [] then w else Run(Step(w, events[0]), events[1..])
  }

  predicate Legal(w: World, events: seq<Event>)
    requires WellFormed(w.sender) && WellFormed(w.receiver)
    decreases |events|
  {
    events == [] || (Possible(w, events[0]) && Legal(Step(w, events[0]), events[1..]))
  }

  // ---------- what every step keeps ----------

  /** How many packets were sealed under a session key. */
  function CountKey(sent: seq<Sent>, key: nat): nat {
    if sent == [] then 0
    else CountKey(sent[..|sent| - 1], key) + if sent[|sent| - 1].key == key then 1 else 0
  }

  /** The n-th packet of a session is sealed with counter n, modulo 2^64, failed sends included. */
  ghost predicate InOrder(sent: seq<Sent>) {
    forall j | 0 <= j < |sent| :: sent[j].counter == Wrap64(CountKey(sent[..j], sent[j].key))
  }

  ghost predicate CountersInOrder(w: World)
    requires WellFormed(w.sender)
  {
    && InOrder(w.sent)
    && (forall r <- w.sent :: r.key in w.senderKeys)
    && (w.sender.current.Some? ==>
          var k := w.sender.keypairs[w.sender.current.value];
          k.key in w.senderKeys && k.sendingCounter == Wrap64(CountKey(w.sent, k.key)))
  }

  ghost predicate KeysUnique(t: TunnelState, keys: set<nat>) {
    && (forall i <- t.keypairs :: t.keypairs[i].key in keys)
    && (forall i, j | i in t.keypairs && j in t.keypairs && t.keypairs[i].key == t.keypairs[j].key :: i == j)
  }

  /** Whatever was delivered is marked as seen wherever its session is still installed. */
  ghost predicate DeliveredSeen(w: World) {
    forall d <- w.delivered ::
      d.key in w.receiverKeys
      && forall i <- w.receiver.keypairs | w.receiver.keypairs[i].key == d.key ::
           d.counter in w.receiver.keypairs[i].seen
  }

  ghost predicate DeliveredOnce(w: World) {
    forall i, j | 0 <= i < j < |w.delivered| ::
      (w.delivered[i].key, w.delivered[i].counter) != (w.delivered[j].key, w.delivered[j].counter)
  }

  /** A delivered packet is the trimmed form of one sealed under the same session and counter. */
  ghost predicate DeliveredWasSent(w: World) {
    forall d <- w.delivered :: exists r <- w.sent ::
      r.key == d.key && r.counter == d.counter && Pad(r.inner) != [] && Trim(Pad(r.inner)) == Opened(d.packet)
  }

  ghost predicate Inv(w: World) {
    && WellFormed(w.sender) && WellFormed(w.receiver)
    && CountersInOrder(w)
    && KeysUnique(w.receiver, w.receiverKeys)
    && DeliveredSeen(w) && DeliveredOnce(w) && DeliveredWasSent(w)
  }

  lemma IncWrap(n: nat)
    ensures Inc64(Wrap64(n)) == Wrap64(n + 1)
  {}

  lemma NextInOrder(sent: seq<Sent>, r: Sent)
    requires InOrder(sent) && r.counter == Wrap64(CountKey(sent, r.key))
    ensures InOrder(sent + [r]) && CountKey(sent + [r], r.key) == CountKey(sent, r.key) + 1
    ensures Inc64(r.counter) == Wrap64(CountKey(sent + [r], r.key))
  {
    var now := sent + [r];
    assert now[..|sent|] == sent;
    forall j | 0 <= j < |now| ensures now[j].counter == Wrap64(CountKey(now[..j], now[j].key)) {
      if j < |sent| { assert now[..j] == sent[..j]; }
    }
    IncWrap(CountKey(sent, r.key));
  }

  lemma SendKeepsCounters(w: World, inner: Bytes, accepted: int, now: uint64)
    requires Inv(w) && CanSend(w.sender, inner)
    ensures CountersInOrder(Step(w, Send(inner, accepted, now)))
  {
    NextInOrder(w.sent, SentBy(w.sender, inner));
  }

  lemma {:induction false} FreshKeyUncounted(sent: seq<Sent>, key: nat)
    requires forall r <- sent :: r.key != key
    ensures CountKey(sent, key) == 0
  {
    if sent != [] {
      assert sent[|sent| - 1] in sent;
      FreshKeyUncounted(sent[..|sent| - 1], key);
    }
  }

  lemma SenderKeeps(w: World, e: Event)
    requires Inv(w) && Possible(w, e)
    ensures CountersInOrder(Step(w, e))
  {
    match e
    case Send(inner, accepted, now) =>
      if CanSend(w.sender, inner) { SendKeepsCounters(w, inner, accepted, now); }
    case SenderSession(s, kept) =>
      FreshKeyUncounted(w.sent, s.key);
    case _ =>
  }

  ghost function Keys(t: TunnelState): set<nat> {
    set i | i in t.keypairs :: t.keypairs[i].key
  }

  /** A step of the receiver never forgets: an installed session stays as it was or records more
      counters, is dropped, or is new with keys never used before. */
  ghost predicate WindowsGrow(t: TunnelState, u: TunnelState, used: set<nat>) {
    forall i <- u.keypairs ::
      if u.keypairs[i].key in used then i in t.keypairs && u.keypairs[i].key == t.keypairs[i].key
                                        && t.keypairs[i].seen <= u.keypairs[i].seen
      else forall j <- u.keypairs | u.keypairs[j].key == u.keypairs[i].key :: j == i
  }

  lemma SendGrows(t: TunnelState, inner: Bytes, accepted: int, now: uint64, used: set<nat>)
    requires WellFormed(t) && KeysUnique(t, used)
    ensures WindowsGrow(t, SendTransport(t, inner, accepted, now).0, used)
    ensures Keys(SendTransport(t, inner, accepted, now).0) <= used
  {}

  lemma TimerGrows(t: TunnelState, now: uint64, m: Maintenance, used: set<nat>)
    requires WellFormed(t) && KeysUnique(t, used)
    ensures WindowsGrow(t, Maintain(t, now, m), used) && Keys(Maintain(t, now, m)) <= used
  {
    var rekeyed := if RekeyDue(t, now) then SendHandshake(t, m.created, m.initiationSent).0 else t;
    assert rekeyed.keypairs == t.keypairs && rekeyed.current == t.current;
    SendGrows(rekeyed, [], m.keepaliveSent, m.now, used);
  }

  lemma SessionGrows(t: TunnelState, s: Session, kept: set<uint32>, used: set<nat>)
    requires KeysUnique(t, used) && s.key !in used
    ensures WindowsGrow(t, StartSession(t, s, kept), used)
  {}

  lemma TransportGrows(t: TunnelState, d: Datagram, io: Delivery, used: set<nat>)
    requires KeysUnique(t, used) && (d.Transport? || d.Short?)
    ensures WindowsGrow(t, ProcessTransport(t, d, io).state, used)
  {
    if Open(t, d).Opened? {
      assert ProcessTransport(t, d, io).state.keypairs == MarkSeen(t, d.receiver, d.counter).keypairs;
    } else {
      assert ProcessTransport(t, d, io).state == t;
    }
  }

  lemma ArrivalGrows(w: World, a: Arrival)
    requires Inv(w) && Possible(w, Receive(a))
    ensures WindowsGrow(w.receiver, HandleDatagram(w.receiver, a).state, w.receiverKeys)
  {
    var t, d, u := w.receiver, a.datagram, HandleDatagram(w.receiver, a).state;
    if !a.fromPeer || d.OtherType? {
      assert u == t;
    } else if d.Response? {
      if Authentic(t, d) {
        SessionGrows(t, d.established.value, a.kept, w.receiverKeys);
        assert u.keypairs == StartSession(t, d.established.value, a.kept).keypairs;
      } else {
        assert u.keypairs == t.keypairs;
      }
    } else {
      TransportGrows(t, d, a.io, w.receiverKeys);
      assert u.keypairs == ProcessTransport(t, d, a.io).state.keypairs;
    }
  }

  lemma GrowthKeepsKeys(t: TunnelState, u: TunnelState, used: set<nat>)
    requires KeysUnique(t, used) && WindowsGrow(t, u, used)
    ensures KeysUnique(u, used + Keys(u))
  {}

  /** Nothing is delivered twice: a delivery's counter was not yet seen in its session. */
  lemma DeliveryIsNew(w: World, a: Arrival)
    requires Inv(w) && Possible(w, Receive(a))
    ensures forall d <- Deliveries(w.receiver, a) ::
              && d.key in w.receiverKeys
              && (forall e <- w.delivered :: (e.key, e.counter) != (d.key, d.counter))
              && (exists r <- w.sent :: r.key == d.key && r.counter == d.counter
                                        && Pad(r.inner) != [] && Trim(Pad(r.inner)) == Opened(d.packet))
              && forall i <- HandleDatagram(w.receiver, a).state.keypairs |
                   HandleDatagram(w.receiver, a).state.keypairs[i].key == d.key ::
                   d.counter in HandleDatagram(w.receiver, a).state.keypairs[i].seen
  {}

  lemma ArrivalKeepsDeliveries(w: World, a: Arrival)
    requires Inv(w) && Possible(w, Receive(a))
    ensures var x := Step(w, Receive(a)); DeliveredSeen(x) && DeliveredOnce(x) && DeliveredWasSent(x)
  {
    var x := Step(w, Receive(a));
    ArrivalGrows(w, a);
    DeliveryIsNew(w, a);
    assert x.sent == w.sent;
    forall d <- x.delivered
      ensures d.key in x.receiverKeys
      ensures forall i <- x.receiver.keypairs | x.receiver.keypairs[i].key == d.key ::
                d.counter in x.receiver.keypairs[i].seen
    {
      assert d in w.delivered || d in Deliveries(w.receiver, a);
    }
    forall i, j | 0 <= i < j < |x.delivered|
      ensures (x.delivered[i].key, x.delivered[i].counter) != (x.delivered[j].key, x.delivered[j].counter)
    {
      if j == |w.delivered| { assert x.delivered[j] in Deliveries(w.receiver, a) && x.delivered[i] in w.delivered; }
    }
    assert forall d <- x.delivered :: d in w.delivered || d in Deliveries(w.receiver, a);
  }

  lemma StepKeepsInv(w: World, e: Event)
    requires Inv(w) && Possible(w, e)
    ensures Inv(Step(w, e))
  {
    SenderKeeps(w, e);
    match e
    case Send(inner, accepted, now) =>
      var x := Step(w, e);
      assert forall r <- w.sent :: r in x.sent;
    case SenderSession(_, _) =>
    case Receive(a) =>
      ArrivalGrows(w, a);
      GrowthKeepsKeys(w.receiver, Step(w, e).receiver, w.receiverKeys);
      ArrivalKeepsDeliveries(w, a);
    case ReceiverSend(inner, accepted, now) =>
      SendGrows(w.receiver, inner, accepted, now, w.receiverKeys);
      GrowthKeepsKeys(w.receiver, Step(w, e).receiver, w.receiverKeys);
    case ReceiverTimer(now, m) =>
      TimerGrows(w.receiver, now, m, w.receiverKeys);
      GrowthKeepsKeys(w.receiver, Step(w, e).receiver, w.receiverKeys);
  }

  lemma {:induction false} RunKeepsInv(w: World, events: seq<Event>)
    requires Inv(w) && Legal(w, events)
    ensures Inv(Run(w, events))
    decreases |events|
  {
    if events != [] {
      StepKeepsInv(w, events[0]);
      RunKeepsInv(Step(w, events[0]), events[1..]);
    }
  }

  // ---------- every run ----------

  /** The states a run from two stopped ends can reach. */
  ghost predicate Reachable(w: World) {
    exists events :: Legal(START, events) && w == Run(START, events)
  }

  lemma ReachableInv(w: World)
    requires Reachable(w)
    ensures Inv(w)
  {
    var events :| Legal(START, events) && w == Run(START, events);
    RunKeepsInv(START, events);
  }

  predicate Reuses(sent: seq<Sent>, key: nat) {
    exists i, j | 0 <= i < j < |sent| ::
      sent[i].key == sent[j].key == key && sent[i].counter == sent[j].counter
  }

  lemma {:induction false} CountGrows(sent: seq<Sent>, key: nat, i: nat, j: nat)
    requires i < j <= |sent| && sent[i].key == key
    ensures CountKey(sent[..i], key) < CountKey(sent[..j], key)
    decreases j
  {
    assert sent[..j][..j - 1] == sent[..j - 1];
    if i < j - 1 { CountGrows(sent, key, i, j - 1); }
  }

  /** The n-th packet of a session, counted from zero. */
  lemma {:induction false} FindNth(sent: seq<Sent>, key: nat, n: nat) returns (j: nat)
    requires n < CountKey(sent, key)
    ensures j < |sent| && sent[j].key == key && CountKey(sent[..j], key) == n
  {
    var last := |sent| - 1;
    if sent[last].key == key && CountKey(sent[..last], key) == n {
      j := last;
    } else {
      j := FindNth(sent[..last], key, n);
      assert sent[..last][..j] == sent[..j];
    }
  }

  lemma SameRemainder(m: nat, n: nat)
    requires m < n && Wrap64(m) == Wrap64(n)
    ensures n >= U64
  {}

  lemma ReuseNeedsWrap(sent: seq<Sent>, key: nat)
    requires InOrder(sent) && Reuses(sent, key)
    ensures CountKey(sent, key) > U64
  {
    var i, j :| 0 <= i < j < |sent| && sent[i].key == sent[j].key == key && sent[i].counter == sent[j].counter;
    CountGrows(sent, key, i, j);
    CountGrows(sent, key, j, |sent|);
    assert sent[..|sent|] == sent;
    SameRemainder(CountKey(sent[..i], key), CountKey(sent[..j], key));
  }

  lemma WrapReuses(sent: seq<Sent>, key: nat)
    requires InOrder(sent) && CountKey(sent, key) > U64
    ensures Reuses(sent, key)
  {
    var i := FindNth(sent, key, 0);
    var j := FindNth(sent, key, U64);
    assert sent[i].counter == 0 == sent[j].counter;
    if j < i {
      CountGrows(sent, key, j, i);
    }
  }

  /** A session never uses a counter twice, failed sends and concurrent threads included, exactly as
      long as it seals no more than 2^64 packets. */
  lemma CountersReusedOnlyAfterWrap(w: World, key: nat)
    requires Reachable(w)
    ensures Reuses(w.sent, key) <==> CountKey(w.sent, key) > U64
  {
    ReachableInv(w);
    if Reuses(w.sent, key) { ReuseNeedsWrap(w.sent, key); }
    if CountKey(w.sent, key) > U64 { WrapReuses(w.sent, key); }
  }

  lemma {:induction false} OneMore(w: World, events: seq<Event>, e: Event)
    requires WellFormed(w.sender) && WellFormed(w.receiver)
    requires Legal(w, events) && Possible(Run(w, events), e)
    ensures Legal(w, events + [e]) && Run(w, events + [e]) == Step(Run(w, events), e)
    decreases |events|
  {
    var all := events + [e];
    if events == [] {
      assert all[1..] == [];
    } else {
      assert all[1..] == events[1..] + [e];
      OneMore(Step(w, events[0]), events[1..], e);
    }
  }

  /** Runs in which a session seals any number of packets. */
  lemma {:induction false} SealsReachable(key: nat, n: nat) returns (events: seq<Event>)
    ensures Legal(START, events) && CountKey(Run(START, events).sent, key) == n
    ensures CanSend(Run(START, events).sender, []) && SentBy(Run(START, events).sender, []).key == key
  {
    if n == 0 {
      events := [SenderSession(Session(key, 1, 1), {})];
      assert events[1..] == [];
    } else {
      var before := SealsReachable(key, n - 1);
      var w := Run(START, before);
      OneMore(START, before, Send([], 32, 0));
      events := before + [Send([], 32, 0)];
      assert (w.sent + [SentBy(w.sender, [])])[..|w.sent|] == w.sent;
    }
  }

  /** The reuse does happen: some run gets there. */
  lemma ReuseReachable(key: nat) returns (w: World)
    ensures Reachable(w) && Reuses(w.sent, key)
  {
    var events := SealsReachable(key, U64 + 1);
    w := Run(START, events);
    assert Reachable(w);
    CountersReusedOnlyAfterWrap(w, key);
  }

  /** An inner packet the host accepts: IPv4 to 10.77.0.2 whose length field is its size. */
  predicate WellFormedPacket(inner: Bytes) {
    && 20 <= |inner| <= 1280 && inner[0] / 16 == 4 && inner[16..20] == [10, 77, 0, 2]
    && 256 * (inner[2] as int) + inner[3] == |inner|
  }

  /** Trimming undoes padding. */
  lemma TrimPad(inner: Bytes)
    requires WellFormedPacket(inner)
    ensures Pad(inner) != [] && Trim(Pad(inner)) == Opened(inner)
  {
    var p := Pad(inner);
    assert p[16..20] == inner[16..20];
    assert p[0] == inner[0] && p[2] == inner[2] && p[3] == inner[3];
  }

  /** In every run no packet is delivered twice, and each one is, byte for byte and with its padding
      removed, a packet the sender sealed under the same session and counter. */
  lemma DeliveredAtMostOnceAndIntact(w: World)
    requires Reachable(w)
    ensures DeliveredOnce(w)
    ensures forall d <- w.delivered :: exists r <- w.sent ::
              r.key == d.key && r.counter == d.counter && d.packet <= Pad(r.inner)
              && (WellFormedPacket(r.inner) ==> d.packet == r.inner)
  {
    ReachableInv(w);
    forall d <- w.delivered
      ensures exists r <- w.sent :: r.key == d.key && r.counter == d.counter && d.packet <= Pad(r.inner)
                                    && (WellFormedPacket(r.inner) ==> d.packet == r.inner)
    {
      var r :| r in w.sent && r.key == d.key && r.counter == d.counter && Pad(r.inner) != []
               && Trim(Pad(r.inner)) == Opened(d.packet);
      if WellFormedPacket(r.inner) { TrimPad(r.inner); }
    }
  }

  lemma {:induction false} RunExtends(w: World, events: seq<Event>)
    requires WellFormed(w.sender) && WellFormed(w.receiver)
    ensures w.sent <= Run(w, events).sent && w.delivered <= Run(w, events).delivered
    decreases |events|
  {
    if events != [] { RunExtends(Step(w, events[0]), events[1..]); }
  }

  /** The sessions the two ends share: the datagram finds a keypair with the sender's keys. */
  predicate Addressed(t: TunnelState, d: Datagram) {
    && d.Transport? && d.body.Genuine? && d.receiver in t.keypairs
    && t.keypairs[d.receiver].receivingValid && t.keypairs[d.receiver].key == d.body.sealed.key
  }

  lemma ArrivalDelivers(t: TunnelState, a: Arrival, inner: Bytes)
    requires WellFormedPacket(inner) && a.fromPeer && Addressed(t, a.datagram)
    requires a.datagram.body.sealed == Sealed(a.datagram.body.sealed.key, a.datagram.counter, Pad(inner))
    requires Fresh(t.keypairs[a.datagram.receiver].seen, a.datagram.counter)
    requires a.io.buffered && a.io.accepted
    ensures Deliveries(t, a) == [Arrived(a.datagram.body.sealed.key, a.datagram.counter, inner)]
  {
    TrimPad(inner);
    var d := a.datagram;
    assert CipherSize(d.body) == PaddedSize(|inner|) + AUTHTAG;
    assert Open(t, d) == Opened(Pad(inner));
  }

  ghost predicate ExactlyOnce(delivered: seq<Arrived>, d: Arrived) {
    exists n | 0 <= n < |delivered| ::
      && delivered[n] == d
      && forall m | 0 <= m < |delivered| && (delivered[m].key, delivered[m].counter) == (d.key, d.counter) :: m == n
  }

  lemma ArrivesOnce(w: World, a: Arrival, inner: Bytes, after: seq<Event>)
    requires Inv(w) && Possible(w, Receive(a)) && Legal(Step(w, Receive(a)), after)
    requires a.datagram.Transport? && a.datagram.body.Genuine?
    requires Deliveries(w.receiver, a) == [Arrived(a.datagram.body.sealed.key, a.datagram.counter, inner)]
    ensures ExactlyOnce(Run(Step(w, Receive(a)), after).delivered,
                        Arrived(a.datagram.body.sealed.key, a.datagram.counter, inner))
  {
    var arrived, n := Step(w, Receive(a)), |w.delivered|;
    StepKeepsInv(w, Receive(a));
    RunKeepsInv(arrived, after);
    RunExtends(arrived, after);
    var end := Run(arrived, after).delivered;
    assert end[n] == arrived.delivered[n];
    assert DeliveredOnce(Run(arrived, after));
  }

  /** What was sent can arrive after any delay. */
  lemma SealedStays(w: World, inner: Bytes, accepted: int, now: uint64, delay: seq<Event>)
    requires Inv(w) && CanSend(w.sender, inner) && Legal(Step(w, Send(inner, accepted, now)), delay)
    ensures Inv(Run(Step(w, Send(inner, accepted, now)), delay))
    ensures WasSealed(Run(Step(w, Send(inner, accepted, now)), delay), Outgoing(w.sender, inner).body.sealed)
  {
    var sent := Step(w, Send(inner, accepted, now));
    StepKeepsInv(w, Send(inner, accepted, now));
    RunKeepsInv(sent, delay);
    RunExtends(sent, delay);
    var r := SentBy(w.sender, inner);
    assert sent.sent[|w.sent|] == r;
    assert r == Run(sent, delay).sent[|w.sent|];
    assert r in Run(sent, delay).sent;
  }

  ghost predicate WasDelivered(w: World, key: nat, counter: uint64) {
    exists d <- w.delivered :: d.key == key && d.counter == counter
  }

  /** Wherever the session is installed the counter is too old, too large or marked. */
  ghost predicate Settled(t: TunnelState, key: nat, counter: uint64) {
    forall i <- t.keypairs | t.keypairs[i].key == key :: !Fresh(t.keypairs[i].seen, counter)
  }

  lemma StepGrows(w: World, e: Event)
    requires Inv(w) && Possible(w, e)
    ensures WindowsGrow(w.receiver, Step(w, e).receiver, w.receiverKeys)
  {
    match e
    case Receive(a) => ArrivalGrows(w, a);
    case ReceiverSend(inner, accepted, now) => SendGrows(w.receiver, inner, accepted, now, w.receiverKeys);
    case ReceiverTimer(now, m) => TimerGrows(w.receiver, now, m, w.receiverKeys);
    case _ => assert Step(w, e).receiver == w.receiver;
  }

  lemma NeverFreshAgain(seen: set<uint64>, later: set<uint64>, counter: uint64)
    requires seen <= later && !Fresh(seen, counter)
    ensures !Fresh(later, counter)
  {}

  lemma GrowthKeepsSettled(t: TunnelState, u: TunnelState, used: set<nat>, key: nat, counter: uint64)
    requires WindowsGrow(t, u, used) && key in used && Settled(t, key, counter)
    ensures Settled(u, key, counter)
  {
    forall i | i in u.keypairs && u.keypairs[i].key == key
      ensures !Fresh(u.keypairs[i].seen, counter)
    {
      NeverFreshAgain(t.keypairs[i].seen, u.keypairs[i].seen, counter);
    }
  }

  /** Only a fresh counter is delivered. */
  lemma DeliveriesAreFresh(t: TunnelState, a: Arrival)
    ensures forall d <- Deliveries(t, a) ::
              a.datagram.Transport? && a.datagram.receiver in t.keypairs && d.counter == a.datagram.counter
              && t.keypairs[a.datagram.receiver].key == d.key && Fresh(t.keypairs[a.datagram.receiver].seen, d.counter)
  {}

  lemma SettledStep(w: World, e: Event, key: nat, counter: uint64)
    requires Inv(w) && Possible(w, e) && key in w.receiverKeys && Settled(w.receiver, key, counter)
    requires !WasDelivered(w, key, counter)
    ensures Inv(Step(w, e)) && key in Step(w, e).receiverKeys && Settled(Step(w, e).receiver, key, counter)
    ensures !WasDelivered(Step(w, e), key, counter)
  {
    StepKeepsInv(w, e);
    StepGrows(w, e);
    GrowthKeepsSettled(w.receiver, Step(w, e).receiver, w.receiverKeys, key, counter);
    if e.Receive? { DeliveriesAreFresh(w.receiver, e.arrival); }
  }

  /** A settled counter is never delivered, whatever else happens. */
  lemma {:induction false} SettledForEver(w: World, events: seq<Event>, key: nat, counter: uint64)
    requires Inv(w) && Legal(w, events) && key in w.receiverKeys && Settled(w.receiver, key, counter)
    requires !WasDelivered(w, key, counter)
    ensures !WasDelivered(Run(w, events), key, counter)
    decreases |events|
  {
    if events != [] {
      SettledStep(w, events[0], key, counter);
      SettledForEver(Step(w, events[0]), events[1..], key, counter);
    }
  }

  /** An arrival that is not fresh, or that lwIP does not take, is not delivered and settles its counter. */
  lemma RefusalSettles(w: World, a: Arrival)
    requires Inv(w) && Possible(w, Receive(a)) && a.fromPeer && Addressed(w.receiver, a.datagram)
    requires a.datagram.body.sealed.counter == a.datagram.counter
    requires CipherSize(a.datagram.body) <= INNER_MTU + 15 + AUTHTAG
    requires !(Fresh(w.receiver.keypairs[a.datagram.receiver].seen, a.datagram.counter)
               && a.io.buffered && a.io.accepted)
    requires !WasDelivered(w, a.datagram.body.sealed.key, a.datagram.counter)
    ensures var x, key := Step(w, Receive(a)), a.datagram.body.sealed.key;
            && Settled(x.receiver, key, a.datagram.counter) && key in x.receiverKeys
            && !WasDelivered(x, key, a.datagram.counter)
  {
    var t, d := w.receiver, a.datagram;
    var u, key := HandleDatagram(t, a).state, d.body.sealed.key;
    assert Open(t, d) == Opened(d.body.sealed.plain);
    assert u.keypairs == MarkSeen(t, d.receiver, d.counter).keypairs;
    assert Deliveries(t, a) == [];
    forall i | i in u.keypairs && u.keypairs[i].key == key ensures !Fresh(u.keypairs[i].seen, d.counter) {
      assert i == d.receiver;
    }
  }

  /** A well-formed packet is sent from world `w` and arrives in world `x`, after any delay and among any
      other traffic, in a session both ends share, not having been delivered before. It is delivered
      exactly once over the whole run, however the run goes on, if it is within the window and lwIP takes
      it then; and if not, never. */
  lemma DeliveredExactlyOnce(w: World, inner: Bytes, accepted: int, now: uint64, delay: seq<Event>,
                             x: World, a: Arrival, after: seq<Event>)
    requires Reachable(w) && WellFormed(w.sender) && WellFormed(w.receiver) && CanSend(w.sender, inner)
    requires WellFormedPacket(inner)
    requires Legal(Step(w, Send(inner, accepted, now)), delay) && x == Run(Step(w, Send(inner, accepted, now)), delay)
    requires a.fromPeer && a.datagram == Outgoing(w.sender, inner) && Addressed(x.receiver, a.datagram)
    requires !WasDelivered(x, SentBy(w.sender, inner).key, SentBy(w.sender, inner).counter)
    requires Legal(Step(x, Receive(a)), after)
    ensures var r, end := SentBy(w.sender, inner), Run(Step(x, Receive(a)), after);
            if Fresh(x.receiver.keypairs[a.datagram.receiver].seen, a.datagram.counter)
               && a.io.buffered && a.io.accepted
            then ExactlyOnce(end.delivered, Arrived(r.key, r.counter, inner))
            else !WasDelivered(end, r.key, r.counter)
  {
    ReachableInv(w);
    SealedStays(w, inner, accepted, now, delay);
    assert Possible(x, Receive(a));
    var r := SentBy(w.sender, inner);
    if Fresh(x.receiver.keypairs[a.datagram.receiver].seen, a.datagram.counter) && a.io.buffered && a.io.accepted {
      ArrivalDelivers(x.receiver, a, inner);
      ArrivesOnce(x, a, inner, after);
    } else {
      RefusalSettles(x, a);
      StepKeepsInv(x, Receive(a));
      SettledForEver(Step(x, Receive(a)), after, r.key, r.counter);
    }
  }

  // ---------- first arrivals ----------

  /** A datagram from the peer's endpoint, for this index, with a packet sealed under this session and
      counter. */
  predicate IsArrivalOf(e: Event, receiver: uint32, key: nat, counter: uint64) {
    && e.Receive? && e.arrival.fromPeer && e.arrival.datagram.Transport?
    && e.arrival.datagram.receiver == receiver && e.arrival.datagram.counter == counter
    && e.arrival.datagram.body.Genuine? && e.arrival.datagram.body.sealed.key == key
  }

  ghost predicate ArrivedIn(past: seq<Event>, receiver: uint32, key: nat, counter: uint64) {
    exists e <- past :: IsArrivalOf(e, receiver, key, counter)
  }

  /** Windows are marked by arrivals only. */
  ghost predicate SeenArrived(t: TunnelState, past: seq<Event>) {
    forall i <- t.keypairs :: forall c <- t.keypairs[i].seen :: ArrivedIn(past, i, t.keypairs[i].key, c)
  }

  lemma PastGrows(t: TunnelState, past: seq<Event>, e: Event)
    requires SeenArrived(t, past)
    ensures SeenArrived(t, past + [e])
  {
    forall i, c | i in t.keypairs && c in t.keypairs[i].seen
      ensures ArrivedIn(past + [e], i, t.keypairs[i].key, c)
    {
      assert ArrivedIn(past, i, t.keypairs[i].key, c);
    }
  }

  /** A mark in a window was there before or is the arriving packet's own. */
  lemma MarkIsArrival(t: TunnelState, a: Arrival, i: uint32, c: uint64)
    requires var u := HandleDatagram(t, a).state; i in u.keypairs && c in u.keypairs[i].seen
    ensures var k := HandleDatagram(t, a).state.keypairs[i];
            || (i in t.keypairs && k.key == t.keypairs[i].key && c in t.keypairs[i].seen)
            || IsArrivalOf(Receive(a), i, k.key, c)
  {
    if a.fromPeer && (a.datagram.Transport? || a.datagram.Short?) {
      var r := ProcessTransport(t, a.datagram, a.io);
      assert HandleDatagram(t, a).state.keypairs == r.state.keypairs;
      if Open(t, a.datagram).Opened? {
        assert r.state.keypairs == MarkSeen(t, a.datagram.receiver, a.datagram.counter).keypairs;
      }
    }
  }

  lemma ArrivalMarks(w: World, a: Arrival, past: seq<Event>)
    requires WellFormed(w.sender) && WellFormed(w.receiver) && SeenArrived(w.receiver, past)
    ensures SeenArrived(Step(w, Receive(a)).receiver, past + [Receive(a)])
  {
    var t, u, now := w.receiver, HandleDatagram(w.receiver, a).state, past + [Receive(a)];
    PastGrows(t, past, Receive(a));
    forall i, c | i in u.keypairs && c in u.keypairs[i].seen
      ensures ArrivedIn(now, i, u.keypairs[i].key, c)
    {
      MarkIsArrival(t, a, i, c);
      assert Receive(a) in now;
      assert i in t.keypairs && c in t.keypairs[i].seen ==> ArrivedIn(now, i, t.keypairs[i].key, c);
    }
  }

  lemma StepMarks(w: World, e: Event, past: seq<Event>)
    requires WellFormed(w.sender) && WellFormed(w.receiver) && SeenArrived(w.receiver, past)
    ensures SeenArrived(Step(w, e).receiver, past + [e])
  {
    PastGrows(w.receiver, past, e);
    match e
    case Receive(a) => ArrivalMarks(w, a, past);
    case _ =>
  }

  lemma {:induction false} RunMarks(w: World, events: seq<Event>, past: seq<Event>)
    requires WellFormed(w.sender) && WellFormed(w.receiver) && SeenArrived(w.receiver, past)
    ensures SeenArrived(Run(w, events).receiver, past + events)
    decreases |events|
  {
    if events == [] {
      assert past + events == past;
    } else {
      StepMarks(w, events[0], past);
      RunMarks(Step(w, events[0]), events[1..], past + [events[0]]);
      assert past + [events[0]] + events[1..] == past + events;
    }
  }

  /** What is not marked was not delivered. */
  lemma UnmarkedUndelivered(w: World, i: uint32, counter: uint64)
    requires Inv(w) && i in w.receiver.keypairs && counter !in w.receiver.keypairs[i].seen
    ensures !WasDelivered(w, w.receiver.keypairs[i].key, counter)
  {}

  /** Within reach of a window: below the limit and at most 8160 behind the largest counter accepted. */
  predicate InReach(seen: set<uint64>, counter: uint64) {
    counter < REJECT_AFTER_MESSAGES && forall c <- seen :: c - counter <= WINDOW_SIZE
  }

  /** Two stopped ends run through `before`; then a well-formed packet is sent, and after any `delay` it
      arrives from the peer for the first time - copies from anywhere else, earlier or later, do not
      matter. It is delivered exactly once in the whole run, however the run goes on, if it is within
      reach of its session's window and lwIP takes it; and if not, never. */
  lemma FirstArrivalDelivered(before: seq<Event>, inner: Bytes, accepted: int, now: uint64, delay: seq<Event>,
                              a: Arrival, after: seq<Event>)
    requires Legal(START, before) && WellFormedPacket(inner)
    requires CanSend(Run(START, before).sender, inner)
    requires Legal(Step(Run(START, before), Send(inner, accepted, now)), delay)
    requires a.fromPeer && a.datagram == Outgoing(Run(START, before).sender, inner)
    requires var x := Run(Step(Run(START, before), Send(inner, accepted, now)), delay);
             Addressed(x.receiver, a.datagram) && Legal(Step(x, Receive(a)), after)
    requires var r := SentBy(Run(START, before).sender, inner);
             !ArrivedIn(before + [Send(inner, accepted, now)] + delay, a.datagram.receiver, r.key, r.counter)
    ensures var r, x := SentBy(Run(START, before).sender, inner),
                        Run(Step(Run(START, before), Send(inner, accepted, now)), delay);
            var end := Run(Step(x, Receive(a)), after);
            if InReach(x.receiver.keypairs[a.datagram.receiver].seen, a.datagram.counter)
               && a.io.buffered && a.io.accepted
            then ExactlyOnce(end.delivered, Arrived(r.key, r.counter, inner))
            else !WasDelivered(end, r.key, r.counter)
  {
    var w, send := Run(START, before), Send(inner, accepted, now);
    var x := Run(Step(w, send), delay);
    RunMarks(START, before, []);
    assert [] + before == before;
    StepMarks(w, send, before);
    RunMarks(Step(w, send), delay, before + [send]);
    assert Reachable(w);
    ReachableInv(w);
    SealedStays(w, inner, accepted, now, delay);
    UnmarkedUndelivered(x, a.datagram.receiver, a.datagram.counter);
    DeliveredExactlyOnce(w, inner, accepted, now, delay, x, a, after);
  }
}
