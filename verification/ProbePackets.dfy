/** The probe packets inside the tunnel. */
module ProbePackets {
  import opened CTypes
  import opened TunnelSpec
  import EndToEnd
  import IpUdpPacket

  /** A built packet, with the padding of the tunnel behind it, is accepted exactly for the flow it was
      built for. One that fits the MTU and is for the tunnel's own address is carried by the tunnel: what
      is delivered is the packet without the padding. */
  lemma BuiltPacketCrossesTunnel(f: IpUdpPacket.Flow, identification: uint16, expected: IpUdpPacket.Flow)
    requires |f.payload| <= 65507
    ensures var p := IpUdpPacket.Packet(f, identification);
            && (IpUdpPacket.Accepts(Pad(p), expected) <==> expected == f)
            && (|p| <= INNER_MTU && f.destination == [10, 77, 0, 2] ==>
                  EndToEnd.WellFormedPacket(p) && Trim(Pad(p)) == Opened(p))
  {
    var p := IpUdpPacket.Packet(f, identification);
    IpUdpPacket.BuiltFields(f, identification, []);
    assert p + [] == p;
    if EndToEnd.WellFormedPacket(p) { EndToEnd.TrimPad(p); }
    IpUdpPacket.BuiltIsAccepted(f, identification, Pad(p)[|p|..], expected);
    assert p + Pad(p)[|p|..] == Pad(p);
  }
}
