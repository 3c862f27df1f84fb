/** The UDP and TCP echo endpoint the probes talk to: one selector loop over many connections. */
module EchoServer {
  import opened CTypes
  import opened Sequences

  const UDP_CLIENT: (string, nat) := ("10.77.0.2", 40000)
  const TCP_IP: string := "10.77.0.2"

  /** "TSVITA-M2-ECHO" and "TSVITA-M2-TCP". */
  const UDP_PAYLOAD: Bytes := [84, 83, 86, 73, 84, 65, 45, 77, 50, 45, 69, 67, 72, 79]
  const TCP_PAYLOAD: Bytes := [84, 83, 86, 73, 84, 65, 45, 77, 50, 45, 84, 67, 80]

  const UDP_LIMIT: nat := 256

  /** What the selector reports: a datagram, a new connection and where it comes from, or the bytes a
      connection's recv returns, none at the end of its stream. Connections are numbered by socket object. */
  datatype Event =
    | Datagram(sent: Bytes, client: (string, nat))
    | Accept(connection: nat, ip: string)
    | Readable(connection: nat, chunk: Bytes)

  /** The buffers, what the selector watches, and everything done to the outside world, in order. */
  datatype State = State(
    buffers: map<nat, Bytes>,
    registered: set<nat>,
    echoes: seq<(nat, Bytes)>,
    closed: seq<nat>,
    replies: seq<((string, nat), Bytes)>)

  const INITIAL := State(map[], {}, [], [], [])

  predicate StillMatching(buffered: Bytes) {
    buffered <= TCP_PAYLOAD && |buffered| < |TCP_PAYLOAD|
  }

  /** Buffered connections are exactly the watched ones, and each buffer is a proper prefix of the payload. */
  ghost predicate Consistent(s: State) {
    s.buffers.Keys == s.registered && forall c <- s.buffers :: StillMatching(s.buffers[c])
  }

  /** recvfrom keeps at most 256 bytes of a datagram. */
  function Kept(sent: Bytes): Bytes {
    if |sent| > UDP_LIMIT then sent[..UDP_LIMIT] else sent
  }

  function Step(s: State, e: Event): State
    requires e.Readable? ==> e.connection in s.buffers
  {
    match e
    case Datagram(sent, client) =>
      if client == UDP_CLIENT && Kept(sent) == UDP_PAYLOAD then s.(replies := s.replies + [(client, Kept(sent))]) else s
    case Accept(c, ip) =>
      if ip != TCP_IP then s.(closed := s.closed + [c])
      else s.(buffers := s.buffers[c := []], registered := s.registered + {c})
    case Readable(c, chunk) =>
      var buffered := s.buffers[c] + chunk;
      if chunk != [] && StillMatching(buffered) then s.(buffers := s.buffers[c := buffered])
      else
        s.(buffers := s.buffers - {c}, registered := s.registered - {c}, closed := s.closed + [c],
           echoes := if buffered == TCP_PAYLOAD then s.echoes + [(c, buffered)] else s.echoes)
  }

  lemma StepKeepsConsistent(s: State, e: Event)
    requires Consistent(s) && (e.Readable? ==> e.connection in s.registered)
    ensures Consistent(Step(s, e))
  {}

  // ---------- runs ----------

  /** Where a connection was accepted from. */
  function Origin(es: seq<Event>, c: nat): Option<string> {
    if es == [] then None
    else if Last(es).Accept? && Last(es).connection == c then Some(Last(es).ip)
    else Origin(Front(es), c)
  }

  /** What can happen next: accept makes a new socket object, and only watched connections are reported. */
  ghost predicate Enabled(before: seq<Event>, e: Event)
    requires Legal(before)
    decreases |before|, 2
  {
    match e
    case Datagram(_, _) => true
    case Accept(c, _) => Origin(before, c) == None
    case Readable(c, _) => c in Run(before).registered
  }

  ghost predicate Legal(es: seq<Event>)
    decreases |es|, 0
  {
    es == [] || (Legal(Front(es)) && Enabled(Front(es), Last(es)))
  }

  ghost function Run(es: seq<Event>): (s: State)
    requires Legal(es)
    ensures Consistent(s)
    decreases |es|, 1
  {
    if es == [] then INITIAL
    else
      assert Enabled(Front(es), Last(es));
      StepKeepsConsistent(Run(Front(es)), Last(es));
      Step(Run(Front(es)), Last(es))
  }

  // ---------- one connection, whatever the others do ----------

  /** What a connection delivered, recv by recv. */
  function Chunks(es: seq<Event>, c: nat): seq<Bytes> {
    if es == [] then []
    else
      var before := Chunks(Front(es), c);
      if Last(es).Readable? && Last(es).connection == c then before + [Last(es).chunk] else before
  }

  function EchoesTo(echoes: seq<(nat, Bytes)>, c: nat): nat {
    if echoes == [] then 0 else EchoesTo(Front(echoes), c) + if Last(echoes).0 == c then 1 else 0
  }

  function Closes(closed: seq<nat>, c: nat): nat {
    if closed == [] then 0 else Closes(Front(closed), c) + if Last(closed) == c then 1 else 0
  }

  /** The stream has not ended and can still become the payload. */
  predicate Live(chunks: seq<Bytes>) {
    [] !in chunks && StillMatching(Concat(chunks))
  }

  /** The whole story of one connection, from nothing but its origin and its own chunks. */
  ghost predicate Story(s: State, c: nat, origin: Option<string>, chunks: seq<Bytes>) {
    var open := origin == Some(TCP_IP) && Live(chunks);
    && (origin != Some(TCP_IP) ==> chunks == [])
    && (c in s.registered <==> open)
    && (open ==> c in s.buffers && s.buffers[c] == Concat(chunks))
    && Closes(s.closed, c) == (if origin.Some? && !open then 1 else 0)
    && EchoesTo(s.echoes, c) == (if Concat(chunks) == TCP_PAYLOAD then 1 else 0)
  }

  lemma CountsGrow(s: State, t: State, c: nat, closed: seq<nat>, echoes: seq<(nat, Bytes)>)
    requires t.closed == s.closed + closed && |closed| <= 1 && t.echoes == s.echoes + echoes && |echoes| <= 1
    ensures Closes(t.closed, c) == Closes(s.closed, c) + if closed == [c] then 1 else 0
    ensures EchoesTo(t.echoes, c) == EchoesTo(s.echoes, c) + if |echoes| == 1 && echoes[0].0 == c then 1 else 0
  {
    if closed != [] { assert Front(t.closed) == s.closed; } else { assert t.closed == s.closed; }
    if echoes != [] { assert Front(t.echoes) == s.echoes; } else { assert t.echoes == s.echoes; }
  }

  lemma LiveNext(chunks: seq<Bytes>, chunk: Bytes)
    requires Live(chunks)
    ensures Concat(chunks + [chunk]) == Concat(chunks) + chunk
    ensures Live(chunks + [chunk]) <==> chunk != [] && StillMatching(Concat(chunks) + chunk)
  {
    assert Front(chunks + [chunk]) == chunks && Last(chunks + [chunk]) == chunk;
  }

  /** A chunk of c: the only event that changes what is known about it once it is accepted. */
  lemma ChunkStep(s: State, c: nat, chunk: Bytes, chunks: seq<Bytes>)
    requires Consistent(s) && Story(s, c, Some(TCP_IP), chunks) && c in s.registered
    ensures Story(Step(s, Readable(c, chunk)), c, Some(TCP_IP), chunks + [chunk])
  {
    LiveNext(chunks, chunk);
    if !Live(chunks + [chunk]) {
      var buffered := s.buffers[c] + chunk;
      CountsGrow(s, Step(s, Readable(c, chunk)), c, [c], if buffered == TCP_PAYLOAD then [(c, buffered)] else []);
    }
  }

  lemma AcceptStep(s: State, c: nat, ip: string)
    requires Story(s, c, None, [])
    ensures Story(Step(s, Accept(c, ip)), c, Some(ip), [])
  {
    CountsGrow(s, Step(s, Accept(c, ip)), c, if ip != TCP_IP then [c] else [], []);
  }

  ghost predicate Untouched(s: State, t: State, c: nat) {
    && (c in t.registered <==> c in s.registered)
    && (c in t.buffers <==> c in s.buffers) && (c in s.buffers ==> t.buffers[c] == s.buffers[c])
    && Closes(t.closed, c) == Closes(s.closed, c) && EchoesTo(t.echoes, c) == EchoesTo(s.echoes, c)
  }

  lemma OtherAccept(s: State, other: nat, ip: string, c: nat)
    requires other != c
    ensures Untouched(s, Step(s, Accept(other, ip)), c)
  {
    CountsGrow(s, Step(s, Accept(other, ip)), c, if ip != TCP_IP then [other] else [], []);
  }

  lemma OtherChunk(s: State, other: nat, chunk: Bytes, c: nat)
    requires other != c && other in s.buffers
    ensures Untouched(s, Step(s, Readable(other, chunk)), c)
  {
    var buffered := s.buffers[other] + chunk;
    if !(chunk != [] && StillMatching(buffered)) {
      CountsGrow(s, Step(s, Readable(other, chunk)), c, [other],
                 if buffered == TCP_PAYLOAD then [(other, buffered)] else []);
    }
  }

  lemma UntouchedStory(s: State, t: State, c: nat, origin: Option<string>, chunks: seq<Bytes>)
    requires Story(s, c, origin, chunks) && Untouched(s, t, c)
    ensures Story(t, c, origin, chunks)
  {}

  /** What happens to another connection, or to a datagram, leaves c alone. */
  lemma OtherStep(s: State, e: Event, c: nat, origin: Option<string>, chunks: seq<Bytes>)
    requires Story(s, c, origin, chunks)
    requires (e.Accept? || e.Readable?) ==> e.connection != c
    requires e.Readable? ==> e.connection in s.buffers
    ensures Story(Step(s, e), c, origin, chunks)
  {
    match e
    case Datagram(_, _) =>
    case Accept(other, ip) => OtherAccept(s, other, ip, c);
    case Readable(other, chunk) => OtherChunk(s, other, chunk, c);
    UntouchedStory(s, Step(s, e), c, origin, chunks);
  }

  lemma StoryStep(before: seq<Event>, e: Event, c: nat)
    requires Legal(before) && Enabled(before, e) && Story(Run(before), c, Origin(before, c), Chunks(before, c))
    ensures Story(Step(Run(before), e), c, Origin(before + [e], c), Chunks(before + [e], c))
  {
    assert Front(before + [e]) == before && Last(before + [e]) == e;
    var s, chunks := Run(before), Chunks(before, c);
    if e.Readable? && e.connection == c {
      ChunkStep(s, c, e.chunk, chunks);
    } else if e.Accept? && e.connection == c {
      AcceptStep(s, c, e.ip);
    } else {
      OtherStep(s, e, c, Origin(before, c), chunks);
    }
  }

  /** Any number of connections, cut and interleaved in any way: each one fares as if it were alone. It
      is echoed once if what it delivered is the payload and never otherwise, and closed once, when it
      is refused or stops matching. */
  lemma {:induction false} Projection(es: seq<Event>, c: nat)
    requires Legal(es)
    ensures Story(Run(es), c, Origin(es, c), Chunks(es, c))
  {
    if es != [] {
      Projection(Front(es), c);
      StoryStep(Front(es), Last(es), c);
      assert Front(es) + [Last(es)] == es;
    }
  }

  /** Until its last chunk a connection was live: nothing is read from one that was closed. */
  lemma {:induction false} LiveUntilLast(es: seq<Event>, c: nat)
    requires Legal(es)
    ensures var chunks := Chunks(es, c); chunks != [] ==> Live(Front(chunks))
  {
    if es != [] {
      LiveUntilLast(Front(es), c);
      Projection(Front(es), c);
    }
  }

  lemma {:induction false} ConcatGrows(chunks: seq<Bytes>, n: nat)
    requires n <= |chunks|
    ensures Concat(chunks[..n]) <= Concat(chunks)
    ensures n < |chunks| && [] !in chunks ==> |Concat(chunks[..n])| < |Concat(chunks)|
  {
    if n < |chunks| {
      ConcatGrows(Front(chunks), n);
      assert Front(chunks)[..n] == chunks[..n];
      assert Last(chunks) in chunks;
    } else {
      assert chunks[..n] == chunks;
    }
  }

  /** The payload is complete with a chunk, not with the end of the stream. */
  lemma EndIsNotEchoed(chunks: seq<Bytes>)
    requires chunks != [] ==> Live(Front(chunks))
    ensures Concat(chunks) == TCP_PAYLOAD ==> chunks != [] && Last(chunks) != []
  {
    if chunks != [] && Last(chunks) == [] {
      assert Concat(chunks) == Concat(Front(chunks));
    }
  }

  lemma LiveBeforeTheCut(chunks: seq<Bytes>, cuts: seq<Bytes>, n: nat)
    requires [] !in cuts && chunks <= cuts + [[]] && |chunks| < n <= |cuts|
    requires Concat(cuts[..n]) == TCP_PAYLOAD
    ensures Live(chunks)
  {
    assert chunks == cuts[..n][..|chunks|];
    ConcatGrows(cuts[..n], |chunks|);
  }

  lemma DeadBehindTheCut(chunks: seq<Bytes>, cuts: seq<Bytes>, n: nat)
    requires chunks <= cuts + [[]] && n < |chunks| && n <= |cuts|
    requires Concat(cuts[..n]) == TCP_PAYLOAD
    ensures !Live(Front(chunks))
  {
    assert cuts[..n] == Front(chunks)[..n];
    ConcatGrows(Front(chunks), n);
  }

  /** Reading goes on until the cut behind the payload and stops there. */
  lemma CutReached(chunks: seq<Bytes>, cuts: seq<Bytes>, n: nat)
    requires [] !in cuts && chunks <= cuts + [[]] && n <= |cuts|
    requires Concat(cuts[..n]) == TCP_PAYLOAD
    requires chunks != [] ==> Live(Front(chunks))
    requires !Live(chunks)
    ensures Concat(chunks) == TCP_PAYLOAD
  {
    if |chunks| < n {
      LiveBeforeTheCut(chunks, cuts, n);
    } else if |chunks| > n {
      DeadBehindTheCut(chunks, cuts, n);
    } else {
      assert chunks == cuts[..n];
    }
  }

  /** The kernel cuts a client's stream into `cuts` and then reports its end. A connection the server
      is done with was echoed exactly when one of the cuts falls right behind the payload. */
  lemma EchoedExactlyWhenCutAtPayload(es: seq<Event>, c: nat, cuts: seq<Bytes>)
    requires Legal(es) && Origin(es, c) == Some(TCP_IP) && c !in Run(es).registered
    requires [] !in cuts && Chunks(es, c) <= cuts + [[]]
    ensures EchoesTo(Run(es).echoes, c) <= 1
    ensures EchoesTo(Run(es).echoes, c) == 1 <==> exists n: nat | n <= |cuts| :: Concat(cuts[..n]) == TCP_PAYLOAD
  {
    Projection(es, c);
    LiveUntilLast(es, c);
    var chunks := Chunks(es, c);
    forall n: nat | n <= |cuts| && Concat(cuts[..n]) == TCP_PAYLOAD
      ensures Concat(chunks) == TCP_PAYLOAD
    {
      CutReached(chunks, cuts, n);
    }
    EndIsNotEchoed(chunks);
    if Concat(chunks) == TCP_PAYLOAD {
      assert chunks == cuts[..|chunks|];
    }
  }

  /** A stream that is the payload is echoed however it is cut; one that does not start with it never is. */
  lemma PayloadEchoedHoweverCut(es: seq<Event>, c: nat, cuts: seq<Bytes>)
    requires Legal(es) && Origin(es, c) == Some(TCP_IP) && c !in Run(es).registered
    requires [] !in cuts && Chunks(es, c) <= cuts + [[]]
    ensures Concat(cuts) == TCP_PAYLOAD ==> EchoesTo(Run(es).echoes, c) == 1
    ensures !(TCP_PAYLOAD <= Concat(cuts)) ==> EchoesTo(Run(es).echoes, c) == 0
  {
    EchoedExactlyWhenCutAtPayload(es, c, cuts);
    assert cuts[..|cuts|] == cuts;
    forall n: nat | n <= |cuts|
      ensures Concat(cuts[..n]) <= Concat(cuts)
    {
      ConcatGrows(cuts, n);
    }
  }

  lemma OneConnection(chunk: Bytes) returns (es: seq<Event>)
    requires chunk != []
    ensures Legal(es) && Origin(es, 0) == Some(TCP_IP) && Chunks(es, 0) == [chunk]
  {
    var first := [Accept(0, TCP_IP)];
    es := first + [Readable(0, chunk)];
    assert Front(first) == [] && Legal([]) && Legal(first) && Chunks(first, 0) == [];
    Projection(first, 0);
    assert Front(es) == first && Last(es) == Readable(0, chunk);
  }

  /** Two servers read the same stream, the payload and one more byte, in different pieces: one has
      echoed it, the other has not and is done with it. */
  lemma CutDecides() returns (one: seq<Event>, other: seq<Event>)
    ensures Legal(one) && Legal(other)
    ensures Chunks(one, 0) == [TCP_PAYLOAD] && Chunks(other, 0) == [TCP_PAYLOAD + [0]]
    ensures EchoesTo(Run(one).echoes, 0) == 1
    ensures EchoesTo(Run(other).echoes, 0) == 0 && 0 !in Run(other).registered
  {
    one := OneConnection(TCP_PAYLOAD);
    other := OneConnection(TCP_PAYLOAD + [0]);
    Projection(one, 0);
    Projection(other, 0);
    assert Front([TCP_PAYLOAD]) == [] && Front([TCP_PAYLOAD + [0]]) == [];
    assert Concat([TCP_PAYLOAD]) == TCP_PAYLOAD && Concat([TCP_PAYLOAD + [0]]) == TCP_PAYLOAD + [0];
  }

  /** Whatever arrives, the endpoint only ever sends the two payloads, each to its own client. */
  lemma {:induction false} SendsOnlyThePayloads(es: seq<Event>)
    requires Legal(es)
    ensures forall reply <- Run(es).replies :: reply == (UDP_CLIENT, UDP_PAYLOAD)
    ensures forall echo <- Run(es).echoes :: echo.1 == TCP_PAYLOAD && Origin(es, echo.0) == Some(TCP_IP)
  {
    if es != [] {
      SendsOnlyThePayloads(Front(es));
      if Last(es).Readable? {
        Projection(Front(es), Last(es).connection);
      }
    }
  }

  /** The payloads are these texts, and the one client is 10.77.0.2. */
  lemma PayloadTexts()
    ensures TCP_IP == "10.77.0.2"
    ensures |UDP_PAYLOAD| == 14 && forall i | 0 <= i < 14 :: UDP_PAYLOAD[i] as int == "TSVITA-M2-ECHO"[i] as int
    ensures |TCP_PAYLOAD| == 13 && forall i | 0 <= i < 13 :: TCP_PAYLOAD[i] as int == "TSVITA-M2-TCP"[i] as int
  {}

  /** A probe: the payload from port 40000 of 10.77.0.2. */
  predicate IsProbe(e: Event) {
    e.Datagram? && e.client == ("10.77.0.2", 40000) && e.sent == UDP_PAYLOAD
  }

  function Probes(es: seq<Event>): nat {
    if es == [] then 0 else Probes(Front(es)) + if IsProbe(Last(es)) then 1 else 0
  }

  /** Every probe is answered once, and nothing else is. */
  lemma {:induction false} EveryProbeAnswered(es: seq<Event>)
    requires Legal(es)
    ensures |Run(es).replies| == Probes(es)
  {
    if es != [] { EveryProbeAnswered(Front(es)); }
  }

  // ---------- the server ----------

  class Server {
    var buffers: map<nat, Bytes>
    var registered: set<nat>
    var echoes: seq<(nat, Bytes)>
    var closed: seq<nat>
    var replies: seq<((string, nat), Bytes)>

    function Contents(): State
      reads this
    {
      State(buffers, registered, echoes, closed, replies)
    }

    constructor ()
      ensures Contents() == INITIAL
    {
      buffers, registered, echoes, closed, replies := map[], {}, [], [], [];
    }

    method OnDatagram(sent: Bytes, client: (string, nat))
      modifies this`replies
      ensures Contents() == Step(old(Contents()), Datagram(sent, client))
    {
      var payload := Kept(sent);
      if client == UDP_CLIENT && payload == UDP_PAYLOAD {
        replies := replies + [(client, payload)];
      }
    }

    /** The selector raises when a socket is registered twice, so the connection has to be new. */
    method OnListen(connection: nat, ip: string)
      requires ip == TCP_IP ==> connection !in registered
      modifies this
      ensures Contents() == Step(old(Contents()), Accept(connection, ip))
    {
      if ip != TCP_IP {
        closed := closed + [connection];
        return;
      }
      buffers := buffers[connection := []];
      registered := registered + {connection};
    }

    /** The buffer lookup and the selector raise for a connection they do not know. */
    method OnReadable(connection: nat, payload: Bytes)
      requires connection in buffers && connection in registered
      modifies this
      ensures Contents() == Step(old(Contents()), Readable(connection, payload))
    {
      if payload != [] {
        buffers := buffers[connection := buffers[connection] + payload];
      }
      var buffered := buffers[connection];
      if payload != [] && buffered <= TCP_PAYLOAD && |buffered| < |TCP_PAYLOAD| {
        return;
      }
      registered := registered - {connection};
      buffers := buffers - {connection};
      if buffered == TCP_PAYLOAD {
        echoes := echoes + [(connection, buffered)];
      }
      closed := closed + [connection];
    }
  }

  lemma {:induction false} LegalPrefix(es: seq<Event>, n: nat)
    requires Legal(es) && n <= |es|
    ensures Legal(es[..n])
  {
    if n < |es| {
      LegalPrefix(Front(es), n);
      assert Front(es)[..n] == es[..n];
    } else {
      assert es[..n] == es;
    }
  }

  lemma OnlyNewOnes(before: seq<Event>, e: Event)
    requires Legal(before) && Enabled(before, e) && e.Accept?
    ensures e.connection !in Run(before).registered
  {
    Projection(before, e.connection);
  }

  /** The selector loop, for the events of a run. */
  method Serve(events: seq<Event>) returns (server: Server)
    requires Legal(events)
    ensures fresh(server) && server.Contents() == Run(events)
  {
    server := new Server();
    for i := 0 to |events|
      invariant fresh(server) && Legal(events[..i]) && server.Contents() == Run(events[..i])
    {
      LegalPrefix(events, i + 1);
      assert Front(events[..i + 1]) == events[..i];
      if events[i].Accept? { OnlyNewOnes(events[..i], events[i]); }
      match events[i] {
        case Datagram(sent, client) => server.OnDatagram(sent, client);
        case Accept(c, ip) => server.OnListen(c, ip);
        case Readable(c, chunk) => server.OnReadable(c, chunk);
      }
    }
    assert events[..|events|] == events;
  }
}
