/** What the tunnel's locked sections do, as functions on values. Ciphertext is symbolic: a
    genuine one names the session key, counter and plaintext it was sealed with. */
module TunnelSpec {
  import opened CTypes
  import opened ReplayWindow
  import BitOps

  const INNER_MTU := 1280
  const TRANSPORT_HEADER := 16
  const AUTHTAG := 16
  const INITIATION_SIZE := 148
  const RESPONSE_SIZE := 92
  const REKEY_INTERVAL_US := 100_000_000
  const KEEPALIVE_INTERVAL_US := 25_000_000

  datatype Sealed = Sealed(key: nat, counter: uint64, plain: Bytes)

  datatype Cipher = Genuine(sealed: Sealed) | Forged(size: nat)

  /** Session keys and indices a completed handshake leaves at one end. */
  datatype Session = Session(key: nat, localIndex: uint32, remoteIndex: uint32)

  /** A datagram by its message type. `established` is the session the Noise code derives from a
      response, None when it refuses it; `Short` is a transport message without a whole header. */
  datatype Datagram =
    | Transport(receiver: uint32, counter: uint64, body: Cipher)
    | Short(size: nat)
    | Response(size: nat, receiver: uint32, mac1: bool, established: Option<Session>)
    | OtherType

  function CipherSize(c: Cipher): nat {
    match c
    case Genuine(s) => |s.plain| + AUTHTAG
    case Forged(size) => size
  }

  /** A reject counter and the number of log lines it has produced. */
  datatype Rejects = Rejects(count: uint64, lines: nat)

  datatype KeypairState = KeypairState(key: nat, localIndex: uint32, remoteIndex: uint32, sendingValid: bool,
                                       receivingValid: bool, sendingCounter: uint64, seen: set<uint64>)

  datatype TunnelState = TunnelState(
    keypairs: map<uint32, KeypairState>,   // by local index
    current: Option<uint32>,               // None before the first handshake
    pendingSender: uint32,
    lastHandshake: uint64,
    lastTransportTx: uint64,
    txPackets: uint64,
    rxPackets: uint64,
    decryptRejects: Rejects,
    replayRejects: Rejects,
    otherRejects: Rejects)

  const STOPPED: TunnelState :=
    TunnelState(map[], None, 0, 0, 0, 0, 0, Rejects(0, 0), Rejects(0, 0), Rejects(0, 0))

  ghost predicate WellFormed(t: TunnelState) {
    t.current.Some? ==> t.current.value in t.keypairs
  }

  function Inc64(n: uint64): uint64 {
    Wrap64(n + 1)
  }

  lemma IncFits(n: nat)
    requires n + 1 < U64
    ensures Inc64(n) == n + 1
  {}

  // ---------- sending ----------

  function PaddedSize(n: nat): nat {
    (n + 15) / 16 * 16
  }

  function Pad(inner: Bytes): (p: Bytes)
    ensures |p| == PaddedSize(|inner|) >= |inner| && p[..|inner|] == inner
  {
    inner + seq(PaddedSize(|inner|) - |inner|, _ => 0)
  }

  predicate CanSend(t: TunnelState, inner: Bytes)
    requires WellFormed(t)
  {
    t.current.Some? && t.keypairs[t.current.value].sendingValid && |inner| <= INNER_MTU
  }

  /** The datagram a send puts on the wire. */
  function Outgoing(t: TunnelState, inner: Bytes): (d: Datagram)
    requires WellFormed(t) && CanSend(t, inner)
    ensures d.Transport? && d.body.Genuine?
  {
    var k := t.keypairs[t.current.value];
    Transport(k.remoteIndex, k.sendingCounter, Genuine(Sealed(k.key, k.sendingCounter, Pad(inner))))
  }

  /** The current session has used its counter. */
  function Stamped(t: TunnelState): (r: TunnelState)
    requires WellFormed(t) && t.current.Some?
    ensures WellFormed(r)
  {
    var i := t.current.value;
    t.(keypairs := t.keypairs[i := t.keypairs[i].(sendingCounter := Inc64(t.keypairs[i].sendingCounter))])
  }

  /** `sent` is what the socket call for `size` bytes answers, `now` the clock after it. */
  function Accounted(t: TunnelState, size: nat, sent: int, now: uint64): (TunnelState, int) {
    if sent != size then (t, if sent < 0 then sent else -21)
    else (t.(lastTransportTx := now, txPackets := Inc64(t.txPackets)), 0)
  }

  function SendTransport(t: TunnelState, inner: Bytes, sent: int, now: uint64): (r: (TunnelState, int))
    requires WellFormed(t)
    ensures WellFormed(r.0)
  {
    if !CanSend(t, inner) then (t, -20)
    else Accounted(Stamped(t), TRANSPORT_HEADER + |Pad(inner)| + AUTHTAG, sent, now)
  }

  /** An initiation the Noise code may build, with its sender index. */
  function SendHandshake(t: TunnelState, created: Option<uint32>, sent: int): (r: (TunnelState, int))
    ensures WellFormed(t) ==> WellFormed(r.0)
  {
    if created.None? then (t, -30)
    else if sent != INITIATION_SIZE then (t, if sent < 0 then sent else -31)
    else (t.(pendingSender := created.value), 0)
  }

  // ---------- receiving ----------

  predicate Authentic(t: TunnelState, d: Datagram) {
    && d.Response? && d.size == RESPONSE_SIZE && d.receiver == t.pendingSender && d.mac1 && d.established.Some?
  }

  function NewKeypair(s: Session): KeypairState {
    KeypairState(s.key, s.localIndex, s.remoteIndex, true, true, 0, {})
  }

  /** The new session becomes current; `kept` are the older sessions that stay installed. */
  function StartSession(t: TunnelState, s: Session, kept: set<uint32>): (r: TunnelState)
    ensures WellFormed(r)
  {
    t.(keypairs := (map i | i in t.keypairs && i in kept :: t.keypairs[i])[s.localIndex := NewKeypair(s)],
       current := Some(s.localIndex))
  }

  function ProcessResponse(t: TunnelState, d: Datagram, kept: set<uint32>, now: uint64): (r: (TunnelState, int))
    requires d.Response?
    ensures WellFormed(t) ==> WellFormed(r.0)
  {
    if d.size != RESPONSE_SIZE then (t, -32)
    else if !Authentic(t, d) then (t, -33)
    else (StartSession(t, d.established.value, kept).(lastHandshake := now, pendingSender := 0), 0)
  }

  datatype Opened = Opened(plain: Bytes) | Refused(error: int)

  /** Size check, keypair lookup and decryption. */
  function Open(t: TunnelState, d: Datagram): (r: Opened)
    requires d.Transport? || d.Short?
    ensures r.Refused? ==> r.error in {-40, -41, -42}
    ensures r.Opened? ==> d.Transport? && d.receiver in t.keypairs && d.body.Genuine?
    ensures r.Opened? ==> d.body.sealed == Sealed(t.keypairs[d.receiver].key, d.counter, r.plain)
    ensures r.Opened? ==> |r.plain| <= INNER_MTU + 15
  {
    if d.Short? || CipherSize(d.body) < AUTHTAG || CipherSize(d.body) > INNER_MTU + 15 + AUTHTAG then Refused(-40)
    else if d.receiver !in t.keypairs || !t.keypairs[d.receiver].receivingValid then Refused(-41)
    else if d.body.Genuine? && d.body.sealed.key == t.keypairs[d.receiver].key && d.body.sealed.counter == d.counter
    then Opened(d.body.sealed.plain)
    else Refused(-42)
  }

  function IpSize(plain: Bytes): uint16
    requires |plain| >= 4
  {
    Join(plain[2], plain[3])
  }

  predicate ForThisHost(plain: Bytes) {
    |plain| >= 20 && plain[0] / 16 == 4 && plain[16..20] == [10, 77, 0, 2]
  }

  /** The inner packet of an accepted plaintext, or why it is dropped. */
  function Trim(plain: Bytes): (r: Opened)
    requires plain != []
    ensures r.Refused? ==> r.error in {-43, -44}
    ensures r.Opened? ==> 20 <= |r.plain| <= |plain| && r.plain == plain[..|r.plain|]
  {
    if !ForThisHost(plain) then Refused(-43)
    else if IpSize(plain) < 20 || IpSize(plain) > |plain| || IpSize(plain) > INNER_MTU then Refused(-44)
    else Opened(plain[..IpSize(plain)])
  }

  /** Whether the packet fits a new buffer and whether lwIP accepts it. */
  datatype Delivery = Delivery(buffered: bool, accepted: bool)

  datatype Received = Received(state: TunnelState, result: int, delivered: Option<Bytes>)

  function MarkSeen(t: TunnelState, i: uint32, counter: uint64): TunnelState
    requires i in t.keypairs
  {
    var k := t.keypairs[i];
    t.(keypairs := t.keypairs[i := k.(seen := Record(k.seen, counter))])
  }

  function ProcessTransport(t: TunnelState, d: Datagram, io: Delivery): (r: Received)
    requires d.Transport? || d.Short?
    ensures WellFormed(t) ==> WellFormed(r.state)
    ensures r.result == 0 || r.result in {-40, -41, -42, -43, -44, -45, -46, -47}
    ensures r.delivered.Some? ==> r.result == 0
  {
    match Open(t, d)
    case Refused(error) => Received(t, error, None)
    case Opened(plain) =>
      var after := MarkSeen(t, d.receiver, d.counter);
      if !Fresh(t.keypairs[d.receiver].seen, d.counter) then Received(after, -47, None)
      else if plain == [] then Received(after, 0, None)
      else
        match Trim(plain)
        case Refused(error) => Received(after, error, None)
        case Opened(packet) =>
          if !io.buffered then Received(after, -45, None)
          else if !io.accepted then Received(after, -46, None)
          else Received(after.(rxPackets := Inc64(t.rxPackets)), 0, Some(packet))
  }

  // ---------- rejection accounting ----------

  /** The power-of-two test on an unsigned counter. */
  predicate ShouldLog(count: uint64) {
    count <= 4 || BitOps.And(count, count - 1) == 0
  }

  function Reject(r: Rejects): Rejects {
    Rejects(Inc64(r.count), r.lines + if ShouldLog(Inc64(r.count)) then 1 else 0)
  }

  function RecordRejection(t: TunnelState, result: int): (r: TunnelState)
    ensures WellFormed(t) ==> WellFormed(r)
  {
    if result == -42 then t.(decryptRejects := Reject(t.decryptRejects))
    else if result == -47 then t.(replayRejects := Reject(t.replayRejects))
    else t.(otherRejects := Reject(t.otherRejects))
  }

  /** One datagram from the socket with everything its handling depends on. */
  datatype Arrival = Arrival(fromPeer: bool, datagram: Datagram, io: Delivery, kept: set<uint32>, now: uint64)

  function HandleDatagram(t: TunnelState, a: Arrival): (r: Received)
    ensures WellFormed(t) ==> WellFormed(r.state)
  {
    if !a.fromPeer || a.datagram.OtherType? then Received(t, 0, None)
    else
      var r := if a.datagram.Response?
               then var (after, result) := ProcessResponse(t, a.datagram, a.kept, a.now); Received(after, result, None)
               else ProcessTransport(t, a.datagram, a.io);
      if r.result < 0 then r.(state := RecordRejection(r.state, r.result)) else r
  }

  // ---------- the timed part of the receive loop ----------

  /** What the calls of one maintenance section answer. */
  datatype Maintenance = Maintenance(created: Option<uint32>, initiationSent: int, keepaliveSent: int, now: uint64)

  predicate RekeyDue(t: TunnelState, now: uint64) {
    t.pendingSender == 0 && Minus64(now, t.lastHandshake) >= REKEY_INTERVAL_US
  }

  predicate KeepaliveDue(t: TunnelState, now: uint64)
    requires WellFormed(t)
  {
    && t.current.Some? && t.keypairs[t.current.value].sendingValid
    && Minus64(now, t.lastTransportTx) >= KEEPALIVE_INTERVAL_US
  }

  function Rekeyed(t: TunnelState, now: uint64, m: Maintenance): (r: TunnelState)
    ensures WellFormed(t) ==> WellFormed(r)
  {
    if RekeyDue(t, now) then SendHandshake(t, m.created, m.initiationSent).0 else t
  }

  predicate RekeySent(t: TunnelState, now: uint64, m: Maintenance) {
    RekeyDue(t, now) && SendHandshake(t, m.created, m.initiationSent).1 == 0
  }

  /** `now` was read before the lock was taken. */
  function Maintain(t: TunnelState, now: uint64, m: Maintenance): (r: TunnelState)
    requires WellFormed(t)
    ensures WellFormed(r)
  {
    var rekeyed := Rekeyed(t, now, m);
    if KeepaliveDue(rekeyed, now) then SendTransport(rekeyed, [], m.keepaliveSent, m.now).0 else rekeyed
  }

  /** A packet another thread sends, with what the socket and the clock answer it. */
  datatype Outbound = Outbound(inner: Bytes, sent: int, now: uint64)

  function SendAll(t: TunnelState, sends: seq<Outbound>): (r: TunnelState)
    requires WellFormed(t)
    ensures WellFormed(r)
  {
    if sends == [] then t
    else
      var last := sends[|sends| - 1];
      SendTransport(SendAll(t, sends[..|sends| - 1]), last.inner, last.sent, last.now).0
  }

  /** One turn of the receive loop: at most one datagram, the clock read, then maintenance. Other
      threads send `earlier`, before the datagram is handled, and `later`, before or after the clock is
      read and until maintenance takes the mutex. */
  datatype Turn = Turn(earlier: seq<Outbound>, arrival: Option<Arrival>, later: seq<Outbound>, read: uint64,
                       calls: Maintenance)

  function HandleArrival(t: TunnelState, arrival: Option<Arrival>): (r: TunnelState)
    ensures WellFormed(t) ==> WellFormed(r)
  {
    if arrival.Some? then HandleDatagram(t, arrival.value).state else t
  }

  function TakeTurn(t: TunnelState, turn: Turn): (r: TunnelState)
    requires WellFormed(t)
    ensures WellFormed(r)
  {
    Maintain(SendAll(HandleArrival(SendAll(t, turn.earlier), turn.arrival), turn.later), turn.read, turn.calls)
  }

  function TakeTurns(t: TunnelState, turns: seq<Turn>): (r: TunnelState)
    requires WellFormed(t)
    ensures WellFormed(r)
  {
    if turns == [] then t else TakeTurn(TakeTurns(t, turns[..|turns| - 1]), turns[|turns| - 1])
  }
}
