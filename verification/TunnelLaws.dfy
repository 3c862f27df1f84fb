/** What the tunnel's operations do, in bytes, microseconds and plain numbers. */
module TunnelLaws {
  import opened CTypes
  import opened ReplayWindow
  import opened TunnelSpec

  // ---------- sending ----------

  /** A session that can seal is current. */
  predicate Sendable(t: TunnelState) {
    t.current.Some? && t.current.value in t.keypairs && t.keypairs[t.current.value].sendingValid
  }

  /** The size of a transport message for an inner packet of n bytes: header, multiple of 16, tag. */
  function MessageSize(n: nat): nat {
    32 + (n + 15) / 16 * 16
  }

  /** The result of a send: 0 only for a packet that went out whole. */
  lemma SendResult(t: TunnelState, inner: Bytes, sent: int, now: uint64)
    requires WellFormed(t)
    ensures var result, possible := SendTransport(t, inner, sent, now).1, Sendable(t) && |inner| <= 1280;
            && (result == 0 <==> possible && sent == MessageSize(|inner|))
            && (!possible ==> result == -20)
            && (possible && sent < 0 ==> result == sent)
            && (possible && 0 <= sent != MessageSize(|inner|) ==> result == -21)
  {
    assert |Pad(inner)| == (|inner| + 15) / 16 * 16;
  }

  /** Only the sending counter of the current session differs, by one. */
  ghost predicate SealedOnce(t: TunnelState, u: TunnelState)
    requires Sendable(t)
  {
    var i := t.current.value;
    && i in u.keypairs
    && u.keypairs[i].sendingCounter as int == (t.keypairs[i].sendingCounter + 1) % 0x1_0000_0000_0000_0000
    && u.keypairs == t.keypairs[i := t.keypairs[i].(sendingCounter := u.keypairs[i].sendingCounter)]
  }

  /** What a send changes: the counter whenever it seals, transmission time and packet count only when it
      succeeds, and nothing else. */
  lemma SendEffect(t: TunnelState, inner: Bytes, sent: int, now: uint64)
    requires WellFormed(t)
    ensures var u, possible := SendTransport(t, inner, sent, now).0, Sendable(t) && |inner| <= 1280;
            var whole := possible && sent == MessageSize(|inner|);
            && (!possible ==> u == t)
            && u == t.(keypairs := u.keypairs, lastTransportTx := u.lastTransportTx, txPackets := u.txPackets)
            && u.lastTransportTx == (if whole then now else t.lastTransportTx)
            && u.txPackets as int == (if whole then (t.txPackets + 1) % 0x1_0000_0000_0000_0000 else t.txPackets)
            && (possible ==> SealedOnce(t, u))
  {
    assert |Pad(inner)| == (|inner| + 15) / 16 * 16;
  }

  /** What goes on the wire: the peer's index, the counter before the send, and the packet followed by
      zeroes up to a multiple of 16. */
  lemma SendsPacket(t: TunnelState, inner: Bytes)
    requires WellFormed(t) && Sendable(t) && |inner| <= 1280
    ensures CanSend(t, inner)
    ensures var k, d := t.keypairs[t.current.value], Outgoing(t, inner);
            && d.receiver == k.remoteIndex && d.counter == k.sendingCounter
            && d.body.sealed.key == k.key && d.body.sealed.counter == k.sendingCounter
            && var p := d.body.sealed.plain;
               && |p| == (|inner| + 15) / 16 * 16 && p[..|inner|] == inner
               && forall i | |inner| <= i < |p| :: p[i] == 0
  {}

  // ---------- handshakes ----------

  /** An initiation is pending exactly when it was built and all of its 148 bytes went out. */
  lemma InitiationResult(t: TunnelState, created: Option<uint32>, sent: int)
    ensures var (u, result) := SendHandshake(t, created, sent);
            && (result == 0 <==> created.Some? && sent == 148)
            && (created.None? ==> result == -30)
            && (created.Some? && sent < 0 ==> result == sent)
            && (created.Some? && 0 <= sent != 148 ==> result == -31)
            && u == t.(pendingSender := if result == 0 then created.value else t.pendingSender)
  {}

  /** The session is installed as new and current, beside the older ones that are kept. */
  ghost predicate Installs(t: TunnelState, u: TunnelState, s: Session, kept: set<uint32>, now: uint64) {
    && u == t.(keypairs := u.keypairs, current := Some(s.localIndex), lastHandshake := now, pendingSender := 0)
    && s.localIndex in u.keypairs
    && u.keypairs[s.localIndex] == KeypairState(s.key, s.localIndex, s.remoteIndex, true, true, 0, {})
    && (forall i <- u.keypairs | i != s.localIndex :: i in t.keypairs && i in kept && u.keypairs[i] == t.keypairs[i])
    && (forall i <- t.keypairs | i in kept && i != s.localIndex :: i in u.keypairs)
  }

  /** A response of 92 bytes to the pending index, with a good MAC, that the Noise code accepts installs
      its session, with counter 0 and nothing accepted; no other response changes anything. */
  lemma ResponseResult(t: TunnelState, d: Datagram, kept: set<uint32>, now: uint64)
    requires d.Response?
    ensures var (u, result) := ProcessResponse(t, d, kept, now);
            var good := d.size == 92 && d.receiver == t.pendingSender && d.mac1 && d.established.Some?;
            && (result == 0 <==> good) && (d.size != 92 ==> result == -32) && (d.size == 92 && !good ==> result == -33)
            && (!good ==> u == t)
            && (good ==> Installs(t, u, d.established.value, kept, now))
  {}

  // ---------- receiving ----------

  /** A whole transport message of a size that fits: 16 to 1311 bytes behind its header. */
  predicate Fitting(d: Datagram) {
    d.Transport? && 16 <= (if d.body.Genuine? then |d.body.sealed.plain| + 16 else d.body.size) <= 1311
  }

  predicate Known(t: TunnelState, d: Datagram) {
    d.Transport? && d.receiver in t.keypairs && t.keypairs[d.receiver].receivingValid
  }

  /** Sealed under the session it names and the counter it carries. */
  predicate Genuinely(t: TunnelState, d: Datagram)
    requires Known(t, d)
  {
    && d.body.Genuine? && d.body.sealed.key == t.keypairs[d.receiver].key && d.body.sealed.counter == d.counter
  }

  /** A message that is the wrong size, names no session or is not authentic changes nothing. */
  lemma RefusedBeforeOpening(t: TunnelState, d: Datagram, io: Delivery)
    requires d.Transport? || d.Short?
    ensures var r := ProcessTransport(t, d, io);
            && (r.result == -40 <==> !Fitting(d))
            && (r.result == -41 <==> Fitting(d) && !Known(t, d))
            && (r.result == -42 <==> Fitting(d) && Known(t, d) && !Genuinely(t, d))
            && (r.result in {-40, -41, -42} ==> r.state == t && r.delivered == None)
  {}

  predicate Opens(t: TunnelState, d: Datagram) {
    Fitting(d) && Known(t, d) && Genuinely(t, d)
  }

  /** An authentic message with a counter that is not fresh is refused, and changes nothing. */
  lemma ReplayRefused(t: TunnelState, d: Datagram, io: Delivery)
    requires Opens(t, d)
    ensures ProcessTransport(t, d, io).result == -47 <==> !Fresh(t.keypairs[d.receiver].seen, d.counter)
    ensures !Fresh(t.keypairs[d.receiver].seen, d.counter) ==> ProcessTransport(t, d, io) == Received(t, -47, None)
  {
    var r, k := ProcessTransport(t, d, io), t.keypairs[d.receiver];
    if !Fresh(k.seen, d.counter) {
      assert k.(seen := Record(k.seen, d.counter)) == k;
      assert t.keypairs[d.receiver := k] == t.keypairs;
    }
  }

  /** Not a whole IPv4 header for 10.77.0.2. */
  predicate BadHeader(p: Bytes) {
    |p| < 20 || p[0] / 16 != 4 || p[16] != 10 || p[17] != 77 || p[18] != 0 || p[19] != 2
  }

  predicate BadLength(p: Bytes)
    requires |p| >= 4
  {
    var size := 256 * (p[2] as int) + p[3];
    size < 20 || size > |p| || size > 1280
  }

  lemma HeaderChecked(p: Bytes)
    requires p != []
    ensures Trim(p) == Refused(-43) <==> BadHeader(p)
    ensures !BadHeader(p) && BadLength(p) ==> Trim(p) == Refused(-44)
    ensures !BadHeader(p) && !BadLength(p) ==> Trim(p) == Opened(p[..256 * (p[2] as int) + p[3]])
  {
    if |p| >= 20 {
      assert p[16..20] == [p[16], p[17], p[18], p[19]];
    }
  }

  /** What becomes of an authentic, fresh packet: the header decides, then the length field, then lwIP. */
  lemma PacketOutcome(t: TunnelState, d: Datagram, io: Delivery)
    requires Opens(t, d) && Fresh(t.keypairs[d.receiver].seen, d.counter) && d.body.sealed.plain != []
    ensures var r, p := ProcessTransport(t, d, io), d.body.sealed.plain;
            && (r.result == -43 <==> BadHeader(p))
            && (r.result == -44 <==> !BadHeader(p) && BadLength(p))
            && (!BadHeader(p) && !BadLength(p) ==>
                  && r.result == (if !io.buffered then -45 else if !io.accepted then -46 else 0)
                  && (r.delivered.Some? <==> io.buffered && io.accepted)
                  && (r.delivered.Some? ==> r.delivered.value == p[..256 * (p[2] as int) + p[3]]))
            && (r.result != 0 ==> r.delivered == None)
  {
    HeaderChecked(d.body.sealed.plain);
  }

  /** An authentic, fresh message without content is a keepalive. */
  lemma KeepaliveOutcome(t: TunnelState, d: Datagram, io: Delivery)
    requires Opens(t, d) && Fresh(t.keypairs[d.receiver].seen, d.counter) && d.body.sealed.plain == []
    ensures ProcessTransport(t, d, io).result == 0 && ProcessTransport(t, d, io).delivered == None
  {}

  /** What an authentic, fresh message changes: its counter is marked in its session, and a delivery is
      counted. */
  lemma OpenedEffect(t: TunnelState, d: Datagram, io: Delivery)
    requires Opens(t, d) && Fresh(t.keypairs[d.receiver].seen, d.counter)
    ensures var r, k := ProcessTransport(t, d, io), t.keypairs[d.receiver];
            && r.state == t.(keypairs := t.keypairs[d.receiver := k.(seen := k.seen + {d.counter})],
                             rxPackets := r.state.rxPackets)
            && r.state.rxPackets as int
               == if r.delivered.Some? then (t.rxPackets + 1) % 0x1_0000_0000_0000_0000 else t.rxPackets
  {}

  function Raised(count: uint64, up: bool): int {
    if up then (count + 1) % 0x1_0000_0000_0000_0000 else count
  }

  /** A rejection goes to the counter of its kind: -42 failed authentication, -47 a replay, the rest other. */
  lemma RejectionKind(t: TunnelState, result: int)
    ensures var u := RecordRejection(t, result);
            && u == t.(decryptRejects := u.decryptRejects, replayRejects := u.replayRejects,
                       otherRejects := u.otherRejects)
            && u.decryptRejects.count as int == Raised(t.decryptRejects.count, result == -42)
            && u.replayRejects.count as int == Raised(t.replayRejects.count, result == -47)
            && u.otherRejects.count as int == Raised(t.otherRejects.count, result != -42 && result != -47)
  {}

  // ---------- timers ----------

  /** With clocks in order maintenance seals a keepalive exactly after 25 s of silence. */
  lemma KeepaliveExactly(t: TunnelState, now: uint64, m: Maintenance)
    requires WellFormed(t) && Sendable(t) && t.lastTransportTx <= now
    ensures var u, i := Maintain(t, now, m), t.current.value;
            && (if now - t.lastTransportTx >= 25_000_000 then SealedOnce(t, u) else u.keypairs == t.keypairs)
            && u.lastTransportTx == (if now - t.lastTransportTx >= 25_000_000 && m.keepaliveSent == 32 then m.now
                                     else t.lastTransportTx)
  {
    NoBorrow(now, t.lastTransportTx);
    SendEffect(Rekeyed(t, now, m), [], m.keepaliveSent, m.now);
  }

  /** Without a session that can seal there is no keepalive. */
  lemma NoKeepaliveWithoutSession(t: TunnelState, now: uint64, m: Maintenance)
    requires WellFormed(t) && !Sendable(t)
    ensures var u := Maintain(t, now, m); u.keypairs == t.keypairs && u.lastTransportTx == t.lastTransportTx
  {}

  /** With clocks in order maintenance has an initiation sent exactly when none is pending and the last
      handshake is 100 s old; it is then the pending one if it was built and went out whole. */
  lemma RekeyExactly(t: TunnelState, now: uint64, m: Maintenance)
    requires WellFormed(t) && t.lastHandshake <= now
    ensures var due := t.pendingSender == 0 && now - t.lastHandshake >= 100_000_000;
            Maintain(t, now, m).pendingSender
            == if due && m.created.Some? && m.initiationSent == 148 then m.created.value else t.pendingSender
  {
    NoBorrow(now, t.lastHandshake);
    SendEffect(Rekeyed(t, now, m), [], m.keepaliveSent, m.now);
  }
}
