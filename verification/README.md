# A verified model of the user-space WireGuard data path

The repository gives Moonlight on the PS Vita a private network: a WireGuard tunnel in user space, a
socket layer that mixes tunnel sockets with the system's, and small tools around them. This project
models the logic that is the repository's own and proves what it is for, in Dafny:
`dafny verify dfyconfig.toml` checks everything.

Code that changes state step by step is modelled in that form - classes with fields, methods over
arrays, loops with invariants - and each such method is proved against a specification on values; the
properties of whole runs are then lemmas about the specification.

| file | what it models |
|---|---|
| `CTypes.dfy`, `BitOps.dfy`, `Sequences.dfy` | C's unsigned integers with their wrap-around; AND, OR and shifts of words, digit by digit; ends of sequences |
| `ReplayWindow.dfy` | the 8192-bit anti-replay ring of section 2 of RFC 6479, with lazy clearing and 64-bit arithmetic |
| `ReplayLegacy.dfy` | the 32-packet check it replaced, and exactly when the ring widens it |
| `TunnelSpec.dfy`, `Tunnel.dfy` | sending, receiving, sessions, rejections and timers of the tunnel: on values, and as the code that keeps them in a context object |
| `TunnelLaws.dfy` | each operation of the tunnel in bytes, microseconds and plain numbers |
| `EndToEnd.dfy` | two ends and a network that drops, repeats, reorders, delays and invents datagrams |
| `ReceiveRuns.dfy` | what junk cannot do, the accounting of every datagram, bounded logging |
| `Tai64n.dfy`, `ReceiveLoop.dfy` | handshake labels; the receive thread in time, with sends by other threads in between |
| `StartMonitor.dfy` | the start-once monitor, one step per mutex or condition operation |
| `Checksum.dfy`, `IpUdpPacket.dfy`, `ProbePackets.dfy` | the IPv4/UDP writer and checker, corruption, and built packets inside the tunnel |
| `Ipv4Literal.dfy`, `PeerConfig.dfy`, `PeerConfigFile.dfy` | the dotted-quad and the peer-configuration parser, in place, and what loading a file answers |
| `PollMux.dfy`, `SelectMux.dfy` | one poll and one select over two socket stacks |
| `EchoServer.dfy` | the echo endpoint's selector loop over many connections |

## Where the code and its documentation or its interface part

The code is modelled as it is; these are results of the proofs.

- The project's README promises an 8,192-packet replay window. The ring guarantees that a counter at
  most 8160 behind the largest accepted one is not lost, and refuses everything further behind
  (`ReplayWindow.Keypair.CheckReplay`); counter 0 after counter 8161 is one of the last 8192 packets and
  is refused (`ReplayWindow.LastPacketsRefused`).
- The ring does not accept everything the old check accepted. It does so exactly while no counter
  lies from the limit up to 2^64 - 2, or so far behind that the old 32-bit distance wraps to a clear bit
  (`ReplayLegacy.RingWidensExactly`); after a jump to counter 2^32 + 10 the old check accepts counter 5
  (`ReplayLegacy.LegacyAcceptsStaleCounter`).
- A counter would be used twice under one session exactly once more than 2^64 packets were sealed
  (`EndToEnd.CountersReusedOnlyAfterWrap`). The sender does not look at the limit it applies when
  receiving, so such runs exist: `EndToEnd.ReuseReachable`.
- The receive loop reads the clock before it takes the mutex, so a send in between makes the unsigned
  difference wrap. The effect is one keepalive too many and never one too few:
  `ReceiveLoop.ConcurrentSendAddsKeepalive`, `ReceiveLoop.GapAfterIteration`. `ReceiveLoop.RaceHappens` is
  a run that gets there.
- TAI64N labels are not monotone within a second (`Tai64n.LaterLabelCanBeSmaller`); only the 100 s
  between a handshake and the next initiation orders the labels that are sent
  (`ReceiveLoop.HandshakesOrdered`).
- A UDP checksum field that a change turns into zero is read as "no checksum"; this is the only
  one-byte change that gets through (`IpUdpPacket.CorruptionDetected`). It is possible exactly for
  packets whose checksum has a zero byte (`IpUdpPacket.UndetectedChange`), such as an empty datagram
  between unset addresses from port 65246 to port 0 (`IpUdpPacket.UndetectedChangeExists`).
- The mixed select counts ready descriptors where POSIX counts bits. A caller is always given the count
  POSIX asks for exactly when it has no descriptor below the limit in two sets
  (`SelectMux.CountAgreesUnlessOverlapping`); `SelectMux.ReadyTwiceCountsOnce` is a case of the other kind.
  When a stack fails after the first sample the caller's sets have already been cleared. They are what the
  caller passed in after every failure exactly when the timeout is zero or the sets are empty:
  `SelectMux.FailureKeepsSetsOnlyWithoutTimeout`; `SelectMux.FailsSecond` is a failing case for any others.
- The endpoint port is read with strtol, so leading white space of any kind and a plus sign are let
  through: `PeerConfig.PortSyntax` is the exact syntax, `PeerConfigFile.PlusSignLetThrough` the line, and
  `PeerConfigFile.PlusEighty` the text "+80".
- The echo server compares after every recv: the payload followed by more bytes is echoed exactly when
  some recv happens to end right behind the payload (`EchoServer.EchoedExactlyWhenCutAtPayload`);
  `EchoServer.CutDecides` gives one stream with both outcomes.

## Model

| member | source | states |
|---|---|---|
| ReplayWindow.Keypair.CheckReplay | patches/wireguard-lwip-replay-window.patch:14-86 | a counter is accepted exactly when it is below the limit, was never accepted in this session and is at most 8160 behind everything accepted; the accepted set grows by it or stays; every bit of the 256 live words remains membership in that set |
| ReplayWindow.Keypair.MoveTo | patches/wireguard-lwip-replay-window.patch:62-77 | moving the window forward keeps the bit of every counter still in it and leaves no stale bit above, however far it jumps |
| ReplayWindow.Keypair.ClearWords | patches/wireguard-lwip-replay-window.patch:72-75 | the masked loop zeroes the ring words after the current one and no others |
| ReplayWindow.Keypair.TestAndSet | patches/wireguard-lwip-replay-window.patch:80-86 | the tested bit is membership of this very counter, with no aliasing from another word, and setting it adds that counter only |
| ReplayWindow.Keypair.constructor | patches/wireguard-lwip-replay-window.patch:94-96 | a new session starts with an empty window |
| ReplayWindow.ClearedAll | patches/wireguard-lwip-replay-window.patch:66-71 | clipping the number of words to clear at 256 loses nothing: a longer jump needs exactly the whole ring cleared |
| ReplayWindow.CheckAll | patches/wireguard-lwip-replay-window.patch:14-86 | over every call sequence on a fresh keypair answer k is true iff the counter is below the limit, no accepted call before it had this counter and none was more than 8160 ahead |
| ReplayWindow.WindowReach | patches/wireguard-lwip-replay-window.patch:26-30 | a new counter behind the highest accepted one is accepted iff it is at most 8160 behind it |
| ReplayWindow.LimitRefused | patches/wireguard-lwip-replay-window.patch:20-22 | the first counter refused in a new session is 2^64 - 2^13 - 1 |
| ReplayWindow.LastPacketsRefused | patches/wireguard-lwip-replay-window.patch:107-113 | one of the last 8192 packets, 8161 behind, is refused, and the packet 8160 behind is not |
| ReplayLegacy.LegacyKeypair.CheckReplay | patches/wireguard-lwip-replay-window.patch:9-78 | the replaced check, with its 32-bit truncation of the distance, computes the shifting-window step |
| ReplayLegacy.CheckDescribed | patches/wireguard-lwip-replay-window.patch:24-78 | that step bit by bit: which of the 32 bits are set after it and when it accepts, for every counter and window |
| ReplayLegacy.RingWidensUnlessDiverging | patches/wireguard-lwip-replay-window.patch:9-87 | after every history below the limit, for every next counter, "accepted by the old check implies accepted by the ring" fails iff the counter lies from the limit up to 2^64 - 2 or its 32-bit distance wraps to a clear bit |
| ReplayLegacy.RingWidensExactly | patches/wireguard-lwip-replay-window.patch:9-87 | over every sequence of counters the ring accepts whatever the old check accepts iff no counter diverges in this way |
| ReplayLegacy.SameCounterExactly | patches/wireguard-lwip-replay-window.patch:32-77 | after every sequence both replay counters are equal iff no counter in it passes the limit |
| ReplayLegacy.SideBySide | patches/wireguard-lwip-replay-window.patch:9-87 | the two keypairs run on any sequence: the ring accepts every packet the old check accepts iff none diverges, and both end with the same replay counter iff none passes the limit |
| ReplayLegacy.SmallCountersNeverDiverge | patches/wireguard-lwip-replay-window.patch:35-50 | counters below 2^32 - 1 never diverge |
| ReplayLegacy.LegacyAcceptsStaleCounter | patches/wireguard-lwip-replay-window.patch:48-58 | after the one counter 2^32 + 10 the old check accepts counter 5 and the ring does not |
| Tunnel.Context.SendTransportLocked | moonlight/tunnel.c:236-269 | the datagram carries the padded packet sealed under the current session's counter; the counter moves on even when the send fails, transmission time and count only when it succeeds; otherwise nothing is sent or changed |
| Tunnel.PadMask | moonlight/tunnel.c:242 | the mask expression rounds up to a multiple of 16 |
| Tunnel.Context.SendHandshakeLocked | moonlight/tunnel.c:301-316 | only an initiation that was built and sent whole becomes pending |
| Tunnel.Context.ProcessHandshakeResponseLocked | moonlight/tunnel.c:318-342 | a response of the right size that answers the pending initiation and is authentic installs a session with counter 0 and an empty window, stamps it and clears the pending index; any other changes nothing |
| Tunnel.Context.ProcessTransportLocked | moonlight/tunnel.c:344-400 | size, session, decryption, replay, header and length checks in this order, each with its error; the window is marked only after authentication; the packet delivered is the plaintext cut to its IP length |
| Tunnel.Context.CheckWindow | moonlight/tunnel.c:369-371 | the check touches no session but the datagram's own |
| Tunnel.Context.RecordTransportRejection | moonlight/tunnel.c:411-426 | an error is counted in exactly the counter of its kind, with the log lines that counter has produced |
| Tunnel.Context.Dispatch | moonlight/tunnel.c:438-452 | a datagram is handled only when it is the peer's, by its type, and every negative result is recorded once |
| Tunnel.Context.MaintainLocked | moonlight/tunnel.c:454-474 | rekey and keepalive decisions on the clock read before the lock, in unsigned arithmetic |
| Tunnel.Context.ReceiveThread | moonlight/tunnel.c:428-477 | for any sequence of turns, with other threads' sends before the datagram and before the maintenance, the context ends in the state the specification's turns compute, every window invariant intact |
| TunnelLaws.SendResult | moonlight/tunnel.c:236-268 | a send answers 0 iff a session that can seal is current, the packet has at most 1280 bytes and 32 bytes more than its size rounded up to 16 went out; -20 without the first two, the negative answer of the socket, and -21 for any other short send |
| TunnelLaws.SendEffect | moonlight/tunnel.c:256-268 | the sending counter goes up by one whenever it seals, transmission time and packet count change only with a whole send, nothing else changes |
| TunnelLaws.SendsPacket | moonlight/tunnel.c:242-259 | the datagram names the peer's index and the counter before the send and seals the packet followed by zeroes up to a multiple of 16 |
| TunnelLaws.InitiationResult | moonlight/tunnel.c:301-316 | an initiation is pending and the result 0 iff it was built and all 148 bytes went out; -30, the socket's answer and -31 otherwise |
| TunnelLaws.ResponseResult | moonlight/tunnel.c:318-342 | 0 iff 92 bytes, the pending index, a good MAC and accepted, with the session then installed with counter 0 and nothing accepted; -32 for the size, -33 for the rest, nothing changed |
| TunnelLaws.RefusedBeforeOpening | moonlight/tunnel.c:344-368 | -40 iff not 16 to 1311 bytes behind a whole header, -41 iff it names no receiving session, -42 iff not sealed under that session and counter; nothing changes |
| TunnelLaws.ReplayRefused | moonlight/tunnel.c:369-371 | an authentic message is answered -47 iff its counter is not fresh, and then changes nothing |
| TunnelLaws.PacketOutcome | moonlight/tunnel.c:375-399 | for every authentic, fresh packet p: -43 iff it has fewer than 20 bytes, is not version 4 or not for 10.77.0.2; -44 iff its length field is below 20 or above its size or 1280; otherwise exactly that many bytes go to lwIP, whose refusals are -45 and -46 |
| TunnelLaws.OpenedEffect | moonlight/tunnel.c:369-398 | an authentic, fresh message marks its counter in its session, counts a delivery, and changes nothing else |
| TunnelLaws.RejectionKind | moonlight/tunnel.c:411-421 | -42 goes to the counter of failed authentications, -47 to that of replays, everything else to the third |
| TunnelLaws.KeepaliveExactly | moonlight/tunnel.c:465-473 | with clocks in order maintenance seals a keepalive iff the last transmission is 25,000,000 us old or older |
| TunnelLaws.RekeyExactly | moonlight/tunnel.c:456-464 | with clocks in order the pending index changes iff none is pending, the last handshake is 100,000,000 us old or older, and the initiation was built and went out whole |
| EndToEnd.CountersReusedOnlyAfterWrap | moonlight/tunnel.c:236-269 | in every run, failed sends and all threads included, a (session, counter) pair is sealed twice iff more than 2^64 packets were sealed under that session |
| EndToEnd.DeliveredAtMostOnceAndIntact | moonlight/tunnel.c:344-400 | over any network nothing is delivered twice, and what is delivered was sealed by the sender under the same session and counter and, if well formed, is byte for byte what was sent |
| EndToEnd.ReuseReachable | moonlight/tunnel.c:236-269 | there is a run from the start in which a session uses a counter twice |
| EndToEnd.SealsReachable | moonlight/tunnel.c:236-269 | for every n a run from the start seals exactly n packets under a session |
| EndToEnd.FirstArrivalDelivered | moonlight/tunnel.c:344-400 | the first arrival of a well-formed packet from the peer's endpoint decides, copies from anywhere else notwithstanding: below the limit, at most 8160 behind the largest counter accepted in its session and taken by lwIP, it is delivered exactly once over the whole run; otherwise it is never delivered |
| EndToEnd.DeliveredExactlyOnce | moonlight/tunnel.c:361-399 | the same from any reachable state, for any arrival of a packet not delivered before |
| EndToEnd.SettledForEver | moonlight/tunnel.c:369-371 | a counter that is too old, too large or marked in every window of its session is never delivered again, whatever happens |
| EndToEnd.RunKeepsInv | moonlight/tunnel.c:236-400 | every step keeps counters in order, session keys unique, deliveries unique, marked as seen and genuinely sent |
| EndToEnd.RunMarks | moonlight/tunnel.c:364-371 | a window is never marked with a counter of which no authentic datagram for that session's index arrived from the peer's endpoint |
| EndToEnd.TrimPad | moonlight/tunnel.c:375-384 | the receiver's trimming undoes the sender's padding for every well-formed packet |
| ReceiveRuns.JunkIsInvisible | moonlight/tunnel.c:344-371 | datagrams from elsewhere, of a bad size, naming no session or not authentic, inserted anywhere and in any number, leave deliveries, windows and sessions as without them |
| ReceiveRuns.JunkIsTimeout | moonlight/tunnel.c:428-475 | in the whole receive loop, with rekeys, keepalives and other threads' sends, a junk datagram is indistinguishable from a receive timeout, but for reject counters and log lines |
| ReceiveRuns.EveryDatagramAccounted | moonlight/tunnel.c:428-475 | over any run of the whole loop each handled datagram is exactly one of handshake completed, delivered, keepalive or counted in one reject counter |
| ReceiveRuns.LogsStayBounded | moonlight/tunnel.c:407-475 | whatever arrives and whatever the loop does in between, a reject counter at n >= 4 has produced exactly floor(log2 n) + 2 lines |
| ReceiveRuns.PowerOfTwoTest | moonlight/tunnel.c:407-409 | n AND (n - 1) is zero exactly for the powers of two |
| Tai64n.Tai64nNow | src/wireguard_platform_vita.c:42-48 | twelve bytes are written: both clock fields, most significant byte first |
| Tai64n.LabelFields | src/wireguard_platform_vita.c:42-48 | as numbers the first eight bytes are the clock's second plus 2^62 + 10, and the last four the process time within its second in nanoseconds |
| Tai64n.LabelOrder | src/wireguard_platform_vita.c:42-48 | labels compare lexicographically by wall-clock second, then by the process time within its own second, both directions |
| Tai64n.LaterLabelCanBeSmaller | src/wireguard_platform_vita.c:42-48 | within one wall-clock second a later label can be smaller |
| ReceiveLoop.HandshakesOrdered | moonlight/tunnel.c:301-342 | in every run at most one initiation is outstanding, each is sent at least 100 s after the handshake before it, and every label is greater than all labels sent before |
| ReceiveLoop.GapAfterIteration | moonlight/tunnel.c:454-474 | after each iteration the last transmission is later than its clock read minus 25 s, also when another thread sent in between |
| ReceiveLoop.ConcurrentSendAddsKeepalive | moonlight/tunnel.c:454-468 | when the last transmission is after the clock read the wrapped difference sends a keepalive, iff the two are no more than 2^64 us - 25 s apart |
| ReceiveLoop.RaceHappens | moonlight/tunnel.c:454-474 | a run from the start in which a send after the clock read makes the next maintenance send a keepalive at the very time of the last transmission |
| ReceiveLoop.SilenceBounded | moonlight/tunnel.c:428-475 | from the first finished iteration on the silence stays below 25 s plus the pace of the clock reads plus one iteration's work |
| StartMonitor.StartedOnce | moonlight/tunnel.c:670-693 | for any number of callers and any interleaving the start runs at most once, nobody returns while it runs, and everybody returns 0 iff it returned 0 |
| StartMonitor.AnswersReported | moonlight/tunnel.c:675-692 | the caller that ran the start returns its result, every other caller 0 if that was 0 and else -1 |
| StartMonitor.PhaseMovesForward | moonlight/tunnel.c:683-689 | the state only moves from stopped to starting to online or failed |
| StartMonitor.NeverStuck | moonlight/tunnel.c:670-693 | while a caller has not returned, some step other than a spurious wakeup is possible |
| StartMonitor.EveryCallerReturns | moonlight/tunnel.c:670-693 | a run of n callers takes at most 9n steps plus 3 per spurious wakeup, and ends with every caller returned and agreeing with the one start |
| Checksum.ChecksumAdd | src/ip_udp_packet.c:18-29 | the loop adds the big-endian words of the bytes, an odd last byte padded, modulo 2^32 |
| Checksum.PiecewiseIsOnePass | src/ip_udp_packet.c:18-29 | adding consecutive pieces, all but the last of even length, equals one pass over the concatenation |
| Checksum.ChecksumFinish | src/ip_udp_packet.c:31-36 | the carry loop ends and yields the complement of the sum reduced modulo 65535 |
| Checksum.FoldIsRemainder | src/ip_udp_packet.c:31-36 | the reduction is 0 for 0 and otherwise ((s - 1) mod 65535) + 1 |
| Checksum.ChangeBreaksSum | src/ip_udp_packet.c:18-36 | a one-byte change never keeps a sum congruent to zero |
| IpUdpPacket.UdpSumFits | src/ip_udp_packet.c:42-52 | the 32-bit sum over pseudo header and any datagram never wraps |
| IpUdpPacket.Build | src/ip_udp_packet.c:54-91 | refuses exactly the listed cases and then writes nothing; otherwise writes exactly the packet of the flow and leaves the rest of the buffer |
| IpUdpPacket.Validate | src/ip_udp_packet.c:93-133 | accepts exactly the packets whose header, sums, addresses, ports, lengths and payload are the expected ones |
| IpUdpPacket.BuiltBytes | src/ip_udp_packet.c:69-90 | every byte of a built packet but its checksums, TTL 64 and don't-fragment included, and that both checksums make the sums they cover nonzero multiples of 65535 |
| IpUdpPacket.AcceptsExactly | src/ip_udp_packet.c:99-132 | a packet is accepted for a flow iff it is one of that flow without options or fragments, of any type of service, identification, TTL and tail, with a right header checksum and a right or absent UDP checksum |
| IpUdpPacket.BuiltIsAccepted | src/ip_udp_packet.c:54-133 | a built packet followed by any bytes is accepted iff the expected flow is the one it was built for, odd payloads and the 0xFFFF checksum included |
| IpUdpPacket.CorruptionDetected | src/ip_udp_packet.c:93-133 | after a change of any one byte some flow is still accepted iff the change made the UDP checksum field zero |
| IpUdpPacket.UndetectedChange | src/ip_udp_packet.c:126-130 | a packet has a one-byte change that gets through iff its UDP checksum has a zero byte |
| IpUdpPacket.UndetectedChangeExists | src/ip_udp_packet.c:126-130 | there are such packets, whatever their identification and the bytes behind them |
| ProbePackets.BuiltPacketCrossesTunnel | tests/wireguard_handshake_selftest.c:157-216 | the padded plaintext of any built packet validates exactly for its flow, and a packet to the tunnel's own address that fits the MTU is delivered by the tunnel without the padding |
| Ipv4Literal.ParseIpv4Literal | src/ipv4_literal.c:5-42 | accepts exactly the texts that spell four octets, stores those octets, leaves the output alone otherwise and reads nothing past the terminator |
| Ipv4Literal.SpellsFourOctets | src/ipv4_literal.c:12-36 | the grammar is four runs of one to three digits, each at most 255, joined by single dots, leading zeroes allowed |
| Ipv4Literal.SpellsUnique | src/ipv4_literal.c:12-36 | a text spells at most one address |
| Ipv4Literal.PrintedSpells | src/ipv4_literal.c:5-42 | the canonical printing of every address spells that address |
| PeerConfig.TrimInPlace | moonlight/tunnel.c:146-158 | the string left is the trimmed one, and only the characters of the old string change |
| PeerConfig.SplitInPlace | moonlight/tunnel.c:194-202 | an entry is cut at its first '=' and both halves are trimmed, so a value may contain '=' |
| PeerConfig.NextLine | moonlight/tunnel.c:192-217 | the tokenizer finds the next nonempty line, terminates it in place and leaves the text behind it untouched |
| PeerConfig.ParseInPlace | moonlight/tunnel.c:192-218 | the loop that overwrites its own buffer computes what the unmodified text says line by line |
| PeerConfig.LoadPeerConfig | moonlight/tunnel.c:177-234 | the result is the error or success the text, the decoder and the address grammar determine, with exactly the parsed values |
| PeerConfigFile.LoadRendered | moonlight/tunnel.c:177-234 | for any file of proper lines: the first entry without '=' answers -3 and the first port that is none -4; without such, -5 iff a setting is missing, then -6 iff the key does not decode to 32 bytes, then -7 iff the address spells no four octets, and otherwise 0 with the three values |
| PeerConfigFile.WrongLineStops | moonlight/tunnel.c:196-213 | the first wrong line decides the answer, whatever follows it |
| PeerConfigFile.ParseRendered | moonlight/tunnel.c:192-218 | parsing rendered lines applies the settings in order, whatever blanks, comments, carriage returns and unknown names surround them |
| PeerConfigFile.LastSettingWins | moonlight/tunnel.c:203-215 | each value is that of the last assignment under its name, keys up to 79 characters and addresses up to 47 |
| PeerConfigFile.ConfigRoundTrip | moonlight/tunnel.c:177-222 | key, address and port 1..65535 that fit their buffers come back exactly, in any order and among any other lines |
| PeerConfig.PortSyntax | moonlight/tunnel.c:208-214 | the port texts are exactly white space, an optional plus sign and digits worth 1..65535, and this is the value read |
| PeerConfigFile.PlusSignLetThrough | moonlight/tunnel.c:208-214 | a port line with a plus sign before the number sets that port |
| PeerConfigFile.PlusEighty | moonlight/tunnel.c:208-214 | the text "+80" is port 80 |
| PollMux.WrapPoll | moonlight/socket_shim.c:423-519 | answers at the first sample where an entry is ready in its owning stack, a stack fails or the timeout has passed, with every entry's events those of its owner, fd and events untouched |
| PollMux.Merge | moonlight/socket_shim.c:498-505 | the merged events are the owner's, the masked copy contributing none, and the count is that of the ready entries |
| PollMux.OwnerReports | moonlight/socket_shim.c:66-69 | events of descriptors 128 to 191 are lwIP's, those of the other nonnegative ones the system's, and negative ones have none |
| PollMux.LwipErrorFirst | moonlight/socket_shim.c:492-497 | when lwIP fails its error is the one reported |
| PollMux.CountIsEntries | moonlight/socket_shim.c:498-505 | the count is the number of entries with events |
| PollMux.ZeroMeansTimeout | moonlight/socket_shim.c:506-516 | zero is answered only after the full timeout and never for a negative one |
| PollMux.TimeoutBoundsSamples | moonlight/socket_shim.c:446-463 | if each delay takes a millisecond or more, timeout + 1 samples always suffice |
| PollMux.PollWithTimeout | moonlight/socket_shim.c:423-519 | with such a clock a poll with a timeout fails untouched iff it needs copies and has no memory for them, and otherwise returns the reference's answer within timeout + 1 samples |
| SelectMux.SharesPartition | moonlight/socket_shim.c:597-605 | the two shares of a set are disjoint and together the set below the limit |
| SelectMux.MixedRound | moonlight/socket_shim.c:591-646 | a round that fails leaves the caller's sets alone, any other writes exactly the reference's ready sets and counts the distinct ready descriptors |
| SelectMux.WrapSelect | moonlight/socket_shim.c:521-648 | answers at the first sample that is ready, fails or is past the timeout, with the sets the reference select reports; zero only after seconds * 1,000,000 + microseconds have passed, and never without a timeout |
| SelectMux.OwnerReports | moonlight/socket_shim.c:66-69 | descriptors 128 to 191 are answered by lwIP and all others by the system |
| SelectMux.ZeroWaits | moonlight/socket_shim.c:577-644 | zero is answered only once the given seconds and microseconds have passed, and never without a timeout |
| SelectMux.AnswerIsSubset | moonlight/socket_shim.c:621-640 | the sets answered are subsets of the sets asked |
| SelectMux.ZeroMeansTimeout | moonlight/socket_shim.c:642-644 | an answer of zero leaves all sets empty and means the full timeout has passed |
| SelectMux.TimeoutBoundsSamples | moonlight/socket_shim.c:591-646 | if each delay takes a millisecond or more, a finite timeout stops the loop by sample number timeout / 1000, rounded up |
| SelectMux.SelectWithTimeout | moonlight/socket_shim.c:521-648 | with such a clock a select with a finite timeout always answers, within (seconds * 1,000,000 + microseconds) / 1000 samples, rounded up, and one more |
| SelectMux.ReadyTwiceCountsOnce | moonlight/socket_shim.c:625-642 | a sample on the mixed path with one descriptor ready in two sets: the count is 1 and POSIX asks for 2 |
| SelectMux.CountAgreesUnlessOverlapping | moonlight/socket_shim.c:621-642 | for any sets asked and any timeout: every answer of the mixed path, for all stacks and clocks, is the count POSIX asks for iff no descriptor below the limit is in two of the sets |
| SelectMux.UnionCounts | moonlight/socket_shim.c:625-642 | the count of distinct ready descriptors is at most the number of bits, and equal iff no descriptor is in two sets |
| SelectMux.FailureKeepsSetsOnlyWithoutTimeout | moonlight/socket_shim.c:617-624 | every failure of the mixed path leaves the caller's sets as passed in iff the timeout is zero or the sets are empty |
| SelectMux.FailsSecond | moonlight/socket_shim.c:617-646 | for any sets and any timeout but zero, a failure at the second sample that leaves the sets cleared |
| EchoServer.Server.OnReadable | tools/tsvita-wg-echo.py:45-57 | a chunk is buffered while the payload can still come; otherwise the connection is unregistered, forgotten, echoed if it sent the payload, and closed |
| EchoServer.Server.OnListen | tools/tsvita-wg-echo.py:37-43 | a connection from elsewhere is closed at once, any other is buffered and watched |
| EchoServer.Serve | tools/tsvita-wg-echo.py:29-57 | the loop over any events leaves the server in the state of the run |
| EchoServer.Projection | tools/tsvita-wg-echo.py:29-57 | however connections are cut and interleaved, each is watched iff it can still match, buffered as what it sent, echoed once iff it sent the payload and closed once |
| EchoServer.EchoedExactlyWhenCutAtPayload | tools/tsvita-wg-echo.py:45-57 | a finished connection was echoed iff one of the stream's cuts falls right behind the payload |
| EchoServer.CutDecides | tools/tsvita-wg-echo.py:45-57 | the payload and one more byte: cut behind the payload it is echoed, read at once it is not |
| EchoServer.PayloadEchoedHoweverCut | tools/tsvita-wg-echo.py:45-57 | a stream that is the payload is echoed exactly once however cut; one that does not start with it never is |
| EchoServer.EveryProbeAnswered | tools/tsvita-wg-echo.py:31-35 | the datagrams answered are as many as the payloads received from port 40000 of 10.77.0.2 |
| EchoServer.PayloadTexts | tools/tsvita-wg-echo.py:10-13 | the payloads are the two texts and the client address is 10.77.0.2 |
| EchoServer.SendsOnlyThePayloads | tools/tsvita-wg-echo.py:31-35 | the endpoint only ever sends the two payloads, each to its own client |

## Left out

- Noise IK, X25519, BLAKE2s and ChaCha20-Poly1305: symbolic. A genuine ciphertext names its session key,
  counter and plaintext; encryption uses the counter and then increments it; decryption opens only what
  was sealed under the same key and counter; sessions have fresh keys and nonzero indices; no response
  is accepted while none is pending. The source of these functions is not part of this model.
- The limit REJECT_AFTER_MESSAGES is taken from section 6.1 of the WireGuard paper, 2^64 - 2^13 - 1; the
  header that defines it is not part of this model.
- get_peer_keypair_for_idx and the rotation of older sessions: a map from local index to keypair, of
  which each new session keeps any subset chosen by the environment.
- Tunnel.Context.SendTransportLocked: the outgoing stack buffer and the datagram's byte layout are values,
  so its update in place and the little-endian counter field are not captured.
- tunnel_netif_output: only its size guard and lock around the modelled send.
- wireguard_get_message_type, recvfrom's truncation at the buffer size: a datagram arrives as the value
  of its type and size.
- Tunnel.Context.ReceiveThread: the loop runs over a given sequence of turns; the flag that ends it, which
  nothing clears once the thread runs, is not modelled.
- ReceiveLoop.HandshakesOrdered: a lost initiation stays pending for ever, so nothing is promised about a
  later rekey ever happening.
- StartMonitor.EveryCallerReturns: start_tunnel itself, apart from its result, is assumed to return.
- PeerConfig.LoadPeerConfig: opening and reading the file, and base64 decoding, which is a parameter;
  strtol is a function of the value's text.
- IpUdpPacket.Build: the output buffer and the inputs are distinct arrays, as memcpy demands.
- PollMux.WrapPoll, SelectMux.WrapSelect: the endless sampling loop is given a number of samples it may take;
  `Sampling` says that none of them gave an answer. The call of the system's function when no tunnel
  descriptor is involved is only marked. The stacks obey POSIX: negative descriptors have no events,
  results are subsets of what is asked, and a select that fails leaves its sets alone.
- EchoServer.Server.OnReadable: exceptions of recv and sendall, and the 256-byte limit of recv, which no
  property needs; a connection is numbered by its socket object, so reuse of a file descriptor is a new number.
- The probes, the user interface, sockets' one-line wrappers, getaddrinfo, fcntl and connect, log and key
  files, shell scripts and build files.
