/** The tunnel context and the functions that change it under the peer mutex. */
module Tunnel {
  import opened CTypes
  import opened ReplayWindow
  import opened TunnelSpec
  import BitOps

  /** The symbolic contract of encryption: it seals under the counter and then increments it. */
  method EncryptPacket(plain: Bytes, keypair: Keypair) returns (cipher: Cipher)
    modifies keypair`sendingCounter
    ensures cipher == Genuine(Sealed(keypair.key, old(keypair.sendingCounter), plain))
    ensures keypair.sendingCounter == Inc64(old(keypair.sendingCounter))
  {
    cipher := Genuine(Sealed(keypair.key, keypair.sendingCounter, plain));
    keypair.sendingCounter := Inc64(keypair.sendingCounter);
  }

  /** The symbolic contract of decryption: only a packet sealed under this key and counter opens. */
  function Decrypt(cipher: Cipher, counter: uint64, keypair: Keypair): Option<Bytes> {
    if cipher.Genuine? && cipher.sealed.key == keypair.key && cipher.sealed.counter == counter
    then Some(cipher.sealed.plain) else None
  }

  ghost function StateOf(k: Keypair): KeypairState
    reads k
  {
    KeypairState(k.key, k.localIndex, k.remoteIndex, k.sendingValid, k.receivingValid, k.sendingCounter, k.seen)
  }

  ghost function StatesOf(keypairs: map<uint32, Keypair>): map<uint32, KeypairState>
    reads keypairs.Values
  {
    map i | i in keypairs :: StateOf(keypairs[i])
  }

  lemma StatesAre(keypairs: map<uint32, Keypair>, expected: map<uint32, KeypairState>)
    requires keypairs.Keys == expected.Keys && forall i <- keypairs :: StateOf(keypairs[i]) == expected[i]
    ensures StatesOf(keypairs) == expected
  {}

  /** Every keypair is valid and stands under its own index, and no two share a window. */
  ghost predicate AllValid(keypairs: map<uint32, Keypair>)
    reads keypairs.Values, set k | k in keypairs.Values :: k.replayBitmap
  {
    && (forall i <- keypairs :: keypairs[i].localIndex == i && keypairs[i].Valid())
    && (forall i, j | i in keypairs && j in keypairs && i != j ::
          keypairs[i].replayBitmap != keypairs[j].replayBitmap)
  }

  /** Of the older keypairs those in `kept` stay. */
  function Retained(keypairs: map<uint32, Keypair>, kept: set<uint32>, next: Keypair): map<uint32, Keypair> {
    (map i | i in keypairs && i in kept :: keypairs[i])[next.localIndex := next]
  }

  lemma RetainedValid(keypairs: map<uint32, Keypair>, kept: set<uint32>, next: Keypair)
    requires AllValid(keypairs) && next.Valid()
    requires forall i <- keypairs :: keypairs[i].replayBitmap != next.replayBitmap
    ensures AllValid(Retained(keypairs, kept, next))
  {}

  lemma RetainedStates(keypairs: map<uint32, Keypair>, kept: set<uint32>, next: Keypair)
    ensures var states := StatesOf(keypairs);
            StatesOf(Retained(keypairs, kept, next))
            == (map i | i in states && i in kept :: states[i])[next.localIndex := StateOf(next)]
  {}

  lemma PadMask(n: nat)
    ensures n + 15 - BitOps.And(n + 15, 15) == PaddedSize(n)
  {
    assert BitOps.Pow2(4) == 16;
    BitOps.AndMask(n + 15, 4);
  }

  /** The header check and the size from the IP header. */
  method TrimPlain(plain: Bytes) returns (ipSize: nat, error: int)
    requires plain != []
    ensures match Trim(plain)
            case Refused(e) => error == e
            case Opened(packet) => error == 0 && ipSize <= |plain| && packet == plain[..ipSize]
  {
    ipSize := 0;
    if |plain| < 20 || plain[0] / 16 != 4 || plain[16] != 10 || plain[17] != 77 || plain[18] != 0 || plain[19] != 2 {
      if |plain| >= 20 {
        assert plain[16..20] == [plain[16], plain[17], plain[18], plain[19]];
      }
      return ipSize, -43;
    }
    assert plain[16..20] == [10, 77, 0, 2];
    ipSize := Join(plain[2], plain[3]);
    if ipSize < 20 || ipSize > |plain| || ipSize > INNER_MTU {
      return ipSize, -44;
    }
    error := 0;
  }

  /** The packet over a zeroed buffer, its size rounded up to a multiple of 16. */
  method PadPacket(inner: Bytes) returns (plain: Bytes)
    ensures plain == Pad(inner)
  {
    PadMask(|inner|);
    var paddedSize := |inner| + 15 - BitOps.And(|inner| + 15, 15);
    plain := inner + seq(paddedSize - |inner|, _ => 0);
  }

  class Context {
    var keypairs: map<uint32, Keypair>
    var current: Keypair?
    var pendingHandshakeSender: uint32
    var lastHandshakeUs: uint64
    var lastTransportTxUs: uint64
    var txPackets: uint64
    var rxPackets: uint64
    var decryptRejects: Rejects
    var replayRejects: Rejects
    var otherRejects: Rejects

    ghost predicate Valid()
      reads `keypairs, `current, keypairs.Values, set k | k in keypairs.Values :: k.replayBitmap
    {
      && AllValid(keypairs)
      && (current != null ==> current.localIndex in keypairs && keypairs[current.localIndex] == current)
    }

    ghost function State(): TunnelState
      reads this, keypairs.Values
    {
      TunnelState(StatesOf(keypairs),
                  if current == null then None else Some(current.localIndex),
                  pendingHandshakeSender, lastHandshakeUs, lastTransportTxUs, txPackets, rxPackets,
                  decryptRejects, replayRejects, otherRejects)
    }

    /** Keypairs are those installed before or new ones. */
    twostate predicate Kept(before: map<uint32, Keypair>)
      reads `keypairs, keypairs.Values
    {
      forall i <- keypairs ::
        (i in before && keypairs[i] == before[i]) || (fresh(keypairs[i]) && fresh(keypairs[i].replayBitmap))
    }

    constructor ()
      ensures Valid() && State() == STOPPED && keypairs == map[]
    {
      keypairs, current := map[], null;
      pendingHandshakeSender, lastHandshakeUs, lastTransportTxUs, txPackets, rxPackets := 0, 0, 0, 0, 0;
      decryptRejects, replayRejects, otherRejects := Rejects(0, 0), Rejects(0, 0), Rejects(0, 0);
    }

    /** Encrypts under the current keypair, which is the only thing that changes. */
    method Seal(plain: Bytes) returns (cipher: Cipher)
      requires Valid() && current != null
      modifies current`sendingCounter
      ensures Valid() && State() == Stamped(old(State()))
      ensures var k := old(State()).keypairs[current.localIndex];
              cipher == Genuine(Sealed(k.key, k.sendingCounter, plain))
    {
      ghost var before := State();
      cipher := EncryptPacket(plain, current);
      StatesAre(keypairs, Stamped(before).keypairs);
    }

    /** After the socket call: a short or failed send changes nothing more. */
    method NoteSent(size: nat, sent: int, now: uint64) returns (result: int)
      requires Valid()
      modifies `lastTransportTxUs, `txPackets
      ensures Valid()
      ensures (State(), result) == Accounted(old(State()), size, sent, now)
    {
      if sent != size {
        return if sent < 0 then sent else -21;
      }
      lastTransportTxUs, txPackets := now, Inc64(txPackets);
      result := 0;
    }

    /** Stamps, encrypts and sends a padded packet. */
    method SendPadded(plain: Bytes, sent: int, now: uint64) returns (result: int, outgoing: Datagram)
      requires Valid() && current != null
      modifies `lastTransportTxUs, `txPackets, current
      ensures Valid()
      ensures (State(), result)
           == Accounted(Stamped(old(State())), TRANSPORT_HEADER + |plain| + AUTHTAG, sent, now)
      ensures var k := old(State()).keypairs[current.localIndex];
              outgoing == Transport(k.remoteIndex, k.sendingCounter, Genuine(Sealed(k.key, k.sendingCounter, plain)))
    {
      var receiver, counter := current.remoteIndex, current.sendingCounter;
      var cipher := Seal(plain);
      outgoing := Transport(receiver, counter, cipher);
      result := NoteSent(TRANSPORT_HEADER + |plain| + AUTHTAG, sent, now);
    }

    lemma SendGuard(inner: Bytes)
      requires Valid()
      ensures CanSend(State(), inner) <==> current != null && current.sendingValid && |inner| <= INNER_MTU
    {}

    method SendAllowed(inner: Bytes, sent: int, now: uint64) returns (result: int, outgoing: Datagram)
      requires Valid() && CanSend(State(), inner)
      modifies `lastTransportTxUs, `txPackets, current
      ensures Valid()
      ensures (State(), result) == SendTransport(old(State()), inner, sent, now)
      ensures outgoing == Outgoing(old(State()), inner)
    {
      var plain := PadPacket(inner);
      result, outgoing := SendPadded(plain, sent, now);
    }

    /** Sends one inner packet; `sent` and `now` are what the socket and the clock answer. */
    method SendTransportLocked(inner: Bytes, sent: int, now: uint64) returns (result: int, outgoing: Option<Datagram>)
      requires Valid()
      modifies `lastTransportTxUs, `txPackets, current
      ensures Valid()
      ensures (State(), result) == SendTransport(old(State()), inner, sent, now)
      ensures outgoing == if CanSend(old(State()), inner) then Some(Outgoing(old(State()), inner)) else None
    {
      SendGuard(inner);
      if current == null || !current.sendingValid || |inner| > INNER_MTU {
        return -20, None;
      }
      var datagram;
      result, datagram := SendAllowed(inner, sent, now);
      outgoing := Some(datagram);
    }

    method SendHandshakeLocked(created: Option<uint32>, sent: int) returns (result: int)
      requires Valid()
      modifies `pendingHandshakeSender
      ensures Valid()
      ensures (State(), result) == SendHandshake(old(State()), created, sent)
    {
      if created.None? {
        return -30;
      }
      if sent != INITIATION_SIZE {
        return if sent < 0 then sent else -31;
      }
      pendingHandshakeSender := created.value;
      result := 0;
    }

    method Install(keypair: Keypair, kept: set<uint32>)
      requires AllValid(keypairs) && keypair.Valid()
      requires forall i <- keypairs :: keypairs[i].replayBitmap != keypair.replayBitmap
      modifies `keypairs
      ensures AllValid(keypairs) && keypairs == Retained(old(keypairs), kept, keypair)
      ensures var states := old(StatesOf(keypairs));
              StatesOf(keypairs)
              == (map i | i in states && i in kept :: states[i])[keypair.localIndex := StateOf(keypair)]
    {
      RetainedValid(keypairs, kept, keypair);
      RetainedStates(keypairs, kept, keypair);
      keypairs := Retained(keypairs, kept, keypair);
    }

    method MakeCurrent(keypair: Keypair)
      requires AllValid(keypairs) && keypair.localIndex in keypairs && keypairs[keypair.localIndex] == keypair
      modifies `current
      ensures Valid() && current == keypair
    {
      current := keypair;
    }

    method CreateKeypair(s: Session) returns (keypair: Keypair)
      requires Valid()
      ensures Valid() && keypair.Valid() && fresh(keypair) && fresh(keypair.replayBitmap)
      ensures StateOf(keypair) == NewKeypair(s)
      ensures forall i <- keypairs :: keypairs[i].replayBitmap != keypair.replayBitmap
      ensures State() == old(State())
    {
      keypair := new Keypair(s.key, s.localIndex, s.remoteIndex);
    }

    /** A fresh keypair with a cleared window becomes current. */
    method StartSession(s: Session, kept: set<uint32>)
      requires Valid()
      modifies `keypairs, `current
      ensures Valid() && Kept(old(keypairs))
      ensures State() == TunnelSpec.StartSession(old(State()), s, kept)
    {
      var keypair := CreateKeypair(s);
      Install(keypair, kept);
      MakeCurrent(keypair);
    }

    method CompleteHandshake(now: uint64)
      requires Valid()
      modifies `lastHandshakeUs, `pendingHandshakeSender
      ensures Valid()
      ensures State() == old(State()).(lastHandshake := now, pendingSender := 0)
    {
      lastHandshakeUs := now;
      pendingHandshakeSender := 0;
    }

    method ProcessHandshakeResponseLocked(d: Datagram, kept: set<uint32>, now: uint64) returns (result: int)
      requires Valid() && d.Response?
      modifies `keypairs, `current, `lastHandshakeUs, `pendingHandshakeSender
      ensures Valid() && Kept(old(keypairs))
      ensures (State(), result) == ProcessResponse(old(State()), d, kept, now)
    {
      if d.size != RESPONSE_SIZE {
        return -32;
      }
      if d.receiver != pendingHandshakeSender || !d.mac1 || d.established.None? {
        return -33;
      }
      StartSession(d.established.value, kept);
      CompleteHandshake(now);
      result := 0;
    }

    /** The replay check of an installed keypair, which changes that keypair's window only. */
    method CheckWindow(keypair: Keypair, counter: uint64) returns (ok: bool)
      requires Valid() && keypair.localIndex in keypairs && keypairs[keypair.localIndex] == keypair
      modifies keypair`replayCounter, keypair`seen, keypair.replayBitmap
      ensures Valid()
      ensures ok <==> Fresh(old(State()).keypairs[keypair.localIndex].seen, counter)
      ensures State() == MarkSeen(old(State()), keypair.localIndex, counter)
    {
      ghost var t, i := State(), keypair.localIndex;
      ok := keypair.CheckReplay(counter);
      forall j | j in keypairs && j != i ensures keypairs[j].Valid() && StateOf(keypairs[j]) == t.keypairs[j] {
        assert keypairs[j].localIndex == j;
      }
      StatesAre(keypairs, MarkSeen(t, i, counter).keypairs);
    }

    method CountDelivery()
      requires Valid()
      modifies `rxPackets
      ensures Valid() && State() == old(State()).(rxPackets := Inc64(old(State()).rxPackets))
    {
      rxPackets := Inc64(rxPackets);
    }

    /** The size check, the keypair lookup and the decryption of a transport message. */
    method OpenTransport(d: Datagram) returns (keypair: Keypair?, plain: Bytes, result: int)
      requires Valid() && (d.Transport? || d.Short?)
      ensures match Open(State(), d)
              case Refused(error) => result == error
              case Opened(p) => result == 0 && plain == p && keypair != null
                                && d.receiver in keypairs && keypairs[d.receiver] == keypair
    {
      keypair, plain := null, [];
      if d.Short? || CipherSize(d.body) < AUTHTAG || CipherSize(d.body) > INNER_MTU + 15 + AUTHTAG {
        return keypair, plain, -40;
      }
      if d.receiver !in keypairs || !keypairs[d.receiver].receivingValid {
        return keypair, plain, -41;
      }
      keypair := keypairs[d.receiver];
      match Decrypt(d.body, d.counter, keypair)
      case None => result := -42;
      case Some(p) => plain, result := p, 0;
    }

    /** Hands an accepted packet to lwIP. */
    method DeliverPlain(plain: Bytes, io: Delivery) returns (result: int, delivered: Option<Bytes>)
      requires Valid() && plain != []
      modifies `rxPackets
      ensures Valid()
      ensures match Trim(plain)
              case Refused(error) => result == error && delivered == None && State() == old(State())
              case Opened(packet) =>
                if io.buffered && io.accepted
                then result == 0 && delivered == Some(packet)
                     && State() == old(State()).(rxPackets := Inc64(old(State()).rxPackets))
                else result == (if io.buffered then -46 else -45) && delivered == None && State() == old(State())
    {
      var ipSize, error := TrimPlain(plain);
      if error != 0 {
        return error, None;
      }
      if !io.buffered {
        return -45, None;
      }
      if !io.accepted {
        return -46, None;
      }
      CountDelivery();
      return 0, Some(plain[..ipSize]);
    }

    method ProcessTransportLocked(d: Datagram, io: Delivery) returns (result: int, delivered: Option<Bytes>)
      requires Valid() && (d.Transport? || d.Short?)
      modifies `rxPackets, keypairs.Values, set k | k in keypairs.Values :: k.replayBitmap
      ensures Valid()
      ensures Received(State(), result, delivered) == ProcessTransport(old(State()), d, io)
    {
      ghost var t := State();
      var keypair, plain, error := OpenTransport(d);
      if error != 0 {
        return error, None;
      }
      assert Open(t, d) == Opened(plain);
      var ok := CheckWindow(keypair, d.counter);
      if !ok {
        return -47, None;
      }
      if |plain| == 0 {
        return 0, None;
      }
      result, delivered := DeliverPlain(plain, io);
    }

    method CountDecryptReject()
      requires Valid()
      modifies `decryptRejects
      ensures Valid() && State() == old(State()).(decryptRejects := Reject(old(State()).decryptRejects))
    {
      decryptRejects := Reject(decryptRejects);
    }

    method CountReplayReject()
      requires Valid()
      modifies `replayRejects
      ensures Valid() && State() == old(State()).(replayRejects := Reject(old(State()).replayRejects))
    {
      replayRejects := Reject(replayRejects);
    }

    method CountOtherReject()
      requires Valid()
      modifies `otherRejects
      ensures Valid() && State() == old(State()).(otherRejects := Reject(old(State()).otherRejects))
    {
      otherRejects := Reject(otherRejects);
    }

    method RecordTransportRejection(result: int)
      requires Valid()
      modifies `decryptRejects, `replayRejects, `otherRejects
      ensures Valid() && State() == RecordRejection(old(State()), result)
    {
      if result == -42 {
        CountDecryptReject();
      } else if result == -47 {
        CountReplayReject();
      } else {
        CountOtherReject();
      }
    }

    /** One received datagram, under the mutex, and its rejection record. */
    method Dispatch(a: Arrival) returns (result: int, delivered: Option<Bytes>)
      requires Valid()
      modifies this, keypairs.Values, set k | k in keypairs.Values :: k.replayBitmap
      ensures Valid() && Kept(old(keypairs))
      ensures Received(State(), result, delivered) == HandleDatagram(old(State()), a)
    {
      result, delivered := 0, None;
      if a.fromPeer {
        if a.datagram.Response? {
          result := ProcessHandshakeResponseLocked(a.datagram, a.kept, a.now);
        } else if !a.datagram.OtherType? {
          result, delivered := ProcessTransportLocked(a.datagram, a.io);
        }
        if result < 0 {
          RecordTransportRejection(result);
        }
      }
    }

    /** The rekey and keepalive section; `now` was read before the mutex was taken. */
    method MaintainLocked(now: uint64, m: Maintenance)
      requires Valid()
      modifies `pendingHandshakeSender, `lastTransportTxUs, `txPackets, current
      ensures Valid()
      ensures State() == Maintain(old(State()), now, m)
    {
      ghost var t := State();
      if pendingHandshakeSender == 0 && Minus64(now, lastHandshakeUs) >= REKEY_INTERVAL_US {
        var result := SendHandshakeLocked(m.created, m.initiationSent);
      }
      assert State() == Rekeyed(t, now, m);
      if current != null && current.sendingValid
         && Minus64(now, lastTransportTxUs) >= KEEPALIVE_INTERVAL_US {
        var result, outgoing := SendTransportLocked([], m.keepaliveSent, m.now);
      }
    }

    /** Packets sent by other threads, one after the other. */
    method SendEach(sends: seq<Outbound>)
      requires Valid()
      modifies `lastTransportTxUs, `txPackets, current
      ensures Valid()
      ensures State() == SendAll(old(State()), sends)
    {
      for n := 0 to |sends|
        invariant Valid() && State() == SendAll(old(State()), sends[..n])
      {
        assert sends[..n + 1][..n] == sends[..n];
        var result, outgoing := SendTransportLocked(sends[n].inner, sends[n].sent, sends[n].now);
      }
      assert sends[..|sends|] == sends;
    }

    method RunTurn(turn: Turn)
      requires Valid()
      modifies this, keypairs.Values, set k | k in keypairs.Values :: k.replayBitmap
      ensures Valid() && Kept(old(keypairs)) && State() == TakeTurn(old(State()), turn)
    {
      SendEach(turn.earlier);
      if turn.arrival.Some? {
        var result, delivered := Dispatch(turn.arrival.value);
      }
      SendEach(turn.later);
      MaintainLocked(turn.read, turn.calls);
    }

    /** The receive thread over any sequence of turns, other threads' sends in between. */
    method ReceiveThread(turns: seq<Turn>)
      requires Valid()
      modifies this, keypairs.Values, set k | k in keypairs.Values :: k.replayBitmap
      ensures Valid() && State() == TakeTurns(old(State()), turns)
    {
      for n := 0 to |turns|
        invariant Valid() && Kept(old(keypairs)) && State() == TakeTurns(old(State()), turns[..n])
      {
        assert turns[..n + 1][..n] == turns[..n];
        RunTurn(turns[n]);
      }
      assert turns[..|turns|] == turns;
    }
  }
}
