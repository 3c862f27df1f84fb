/** select over the two socket stacks. */
module SelectMux {
  import opened CTypes
  import PollMux

  const FOREVER: uint64 := 0xFFFF_FFFF_FFFF_FFFF

  datatype Kind = Read | Write | Error

  /** A stack asked without blocking: which descriptors are ready for what at its k-th sample. */
  datatype SelectStack = SelectStack(ready: (nat, Kind) -> set<nat>, error: nat -> Option<int>)

  datatype SelectSystem = SelectSystem(lwip: SelectStack, native: SelectStack, clock: nat -> uint64, started: uint64)

  /** The three sets of one select; a set the caller leaves out counts as empty. */
  datatype Sets = Sets(read: set<nat>, write: set<nat>, error: set<nat>) {
    function Union(): set<nat> {
      read + write + error
    }

    /** What POSIX has select return. */
    function TotalBits(): nat {
      |read| + |write| + |error|
    }
  }

  const NOTHING := Sets({}, {}, {})

  // ---------- the reference: one select over one descriptor set ----------

  function ReadyIn(s: SelectSystem, k: nat, kind: Kind, asked: set<nat>, max: nat): set<nat> {
    set d | d in asked && d < max && d in (if PollMux.IsVirtual(d) then s.lwip else s.native).ready(k, kind)
  }

  function ReadySets(s: SelectSystem, k: nat, asked: Sets, max: nat): Sets {
    Sets(ReadyIn(s, k, Read, asked.read, max), ReadyIn(s, k, Write, asked.write, max),
         ReadyIn(s, k, Error, asked.error, max))
  }

  /** The error of sample k, lwIP's first; the system is asked only when `mixed`. */
  function Failure(s: SelectSystem, k: nat, mixed: bool): Option<int> {
    if s.lwip.error(k).Some? then s.lwip.error(k)
    else if mixed then s.native.error(k)
    else None
  }

  predicate Expired(s: SelectSystem, timeout: uint64, k: nat) {
    timeout == 0 || (timeout != FOREVER && Minus64(s.clock(k), s.started) >= timeout)
  }

  predicate Stops(s: SelectSystem, timeout: uint64, asked: Sets, max: nat, mixed: bool, k: nat) {
    Failure(s, k, mixed).Some? || ReadySets(s, k, asked, max).Union() != {} || Expired(s, timeout, k)
  }

  predicate NoStopBefore(s: SelectSystem, timeout: uint64, asked: Sets, max: nat, mixed: bool, k: nat) {
    forall j | 0 <= j < k :: !Stops(s, timeout, asked, max, mixed, j)
  }

  predicate FirstStop(s: SelectSystem, timeout: uint64, asked: Sets, max: nat, mixed: bool, k: nat) {
    Stops(s, timeout, asked, max, mixed, k) && NoStopBefore(s, timeout, asked, max, mixed, k)
  }

  /** `Sampling`: no answer yet after the samples allowed. */
  datatype Answer = Delegated | Sampling | Returned(count: int, errno: int)

  /** What the mixed path returns when it stops at sample k, and leaves in the caller's sets: the
      number of ready descriptors, or on a failure the sets as the round before left them. */
  ghost predicate MixedAnswers(s: SelectSystem, k: nat, asked: Sets, max: nat, after: Sets, o: Answer) {
    match Failure(s, k, true)
    case Some(errno) => o == Returned(-1, errno) && after == (if k == 0 then asked else NOTHING)
    case None => after == ReadySets(s, k, asked, max) && o.Returned? && o.count == |after.Union()|
  }

  /** What the path with lwIP descriptors only returns: the count lwIP gives, bits and not descriptors. */
  ghost predicate VirtualAnswers(s: SelectSystem, k: nat, asked: Sets, max: nat, after: Sets, o: Answer) {
    match Failure(s, k, false)
    case Some(errno) => o == Returned(-1, errno) && after == asked
    case None => after == ReadySets(s, k, asked, max) && o.Returned? && o.count == after.TotalBits()
  }

  // ---------- the code ----------

  /** A caller's fd_set. */
  class FdSet {
    var bits: set<nat>
  }

  function BitsOf(f: FdSet?): set<nat>
    reads f
  {
    if f == null then {} else f.bits
  }

  function SetsOf(read: FdSet?, write: FdSet?, error: FdSet?): Sets
    reads read, write, error
  {
    Sets(BitsOf(read), BitsOf(write), BitsOf(error))
  }

  /** The part of a set below `max` that one stack owns. */
  function Share(asked: set<nat>, max: nat, lwip: bool): set<nat> {
    set d | d in asked && d < max && PollMux.IsVirtual(d) == lwip
  }

  function Shares(asked: Sets, max: nat, lwip: bool): Sets {
    Sets(Share(asked.read, max, lwip), Share(asked.write, max, lwip), Share(asked.error, max, lwip))
  }

  /** The two shares split a set: nothing is asked twice and nothing below `max` is forgotten. */
  lemma SharesPartition(asked: set<nat>, max: nat)
    ensures Share(asked, max, true) !! Share(asked, max, false)
    ensures Share(asked, max, true) + Share(asked, max, false) == set d | d in asked && d < max
  {}

  /** The k-th select of a stack with timeout zero: it keeps what is ready, or fails and changes nothing. */
  method AskStack(b: SelectStack, k: nat, asked: Sets) returns (count: int, errno: int, answer: Sets)
    ensures match b.error(k)
            case Some(e) => count == -1 && errno == e && answer == asked
            case None => count == answer.TotalBits()
                         && answer == Sets(asked.read * b.ready(k, Read), asked.write * b.ready(k, Write),
                                           asked.error * b.ready(k, Error))
  {
    answer := Sets(asked.read * b.ready(k, Read), asked.write * b.ready(k, Write), asked.error * b.ready(k, Error));
    if b.error(k).Some? {
      return -1, b.error(k).value, asked;
    }
    count, errno := answer.TotalBits(), 0;
  }

  lemma ShareNext(asked: set<nat>, d: nat)
    ensures Share(asked, d + 1, true) == Share(asked, d, true) + if d in asked && PollMux.IsVirtual(d) then {d} else {}
    ensures Share(asked, d + 1, false)
         == Share(asked, d, false) + if d in asked && !PollMux.IsVirtual(d) then {d} else {}
  {}

  method SplitSets(asked: Sets, max: nat) returns (lwip: Sets, native: Sets)
    ensures lwip == Shares(asked, max, true) && native == Shares(asked, max, false)
  {
    lwip, native := NOTHING, NOTHING;
    for d := 0 to max
      invariant lwip == Shares(asked, d, true) && native == Shares(asked, d, false)
    {
      ShareNext(asked.read, d);
      ShareNext(asked.write, d);
      ShareNext(asked.error, d);
      if d in asked.read {
        if PollMux.IsVirtual(d) {
          lwip := lwip.(read := lwip.read + {d});
        } else {
          native := native.(read := native.read + {d});
        }
      }
      if d in asked.write {
        if PollMux.IsVirtual(d) {
          lwip := lwip.(write := lwip.write + {d});
        } else {
          native := native.(write := native.write + {d});
        }
      }
      if d in asked.error {
        if PollMux.IsVirtual(d) {
          lwip := lwip.(error := lwip.error + {d});
        } else {
          native := native.(error := native.error + {d});
        }
      }
    }
  }

  /** The two answers together are the reference's. */
  lemma MergedAnswer(s: SelectSystem, k: nat, kind: Kind, asked: set<nat>, max: nat)
    ensures Share(asked, max, true) * s.lwip.ready(k, kind) + Share(asked, max, false) * s.native.ready(k, kind)
         == ReadyIn(s, k, kind, asked, max)
  {}

  function Below(bits: set<nat>, d: nat): set<nat> {
    set x | x in bits && x < d
  }

  lemma BelowNext(bits: set<nat>, d: nat)
    ensures Below(bits, d + 1) == Below(bits, d) + if d in bits then {d} else {}
  {}

  /** Sets one bit of a set the caller passed. */
  method MarkIf(f: FdSet?, d: nat, reported: bool, ghost target: set<nat>) returns (marked: bool)
    requires BitsOf(f) == Below(target, d) && (f == null ==> target == {})
    requires reported <==> d in target
    modifies f
    ensures BitsOf(f) == Below(target, d + 1) && (marked <==> d in target)
  {
    BelowNext(target, d);
    marked := f != null && reported;
    if marked {
      f.bits := f.bits + {d};
    }
  }

  method Clear(f: FdSet?)
    modifies f
    ensures BitsOf(f) == {}
  {
    if f != null { f.bits := {}; }
  }

  predicate Distinct(read: FdSet?, write: FdSet?, error: FdSet?) {
    && (read != null ==> read != write && read != error)
    && (write != null ==> write != error)
  }

  /** A set the caller left out stays empty. */
  predicate Fits(answer: Sets, read: FdSet?, write: FdSet?, error: FdSet?) {
    && (read == null ==> answer.read == {}) && (write == null ==> answer.write == {})
    && (error == null ==> answer.error == {})
  }

  /** The caller's sets hold the answer for all descriptors below d. */
  ghost predicate WrittenBelow(read: FdSet?, write: FdSet?, error: FdSet?, answer: Sets, d: nat)
    reads read, write, error
  {
    && BitsOf(read) == Below(answer.read, d) && BitsOf(write) == Below(answer.write, d)
    && BitsOf(error) == Below(answer.error, d)
  }

  function Joined(lwip: Sets, native: Sets): Sets {
    Sets(lwip.read + native.read, lwip.write + native.write, lwip.error + native.error)
  }

  method MarkDescriptor(read: FdSet?, write: FdSet?, error: FdSet?, d: nat, lwip: Sets, native: Sets,
                        ghost answer: Sets)
    returns (ready: bool)
    requires Distinct(read, write, error) && Fits(answer, read, write, error)
    requires answer == Joined(lwip, native)
    requires WrittenBelow(read, write, error, answer, d)
    modifies read, write, error
    ensures WrittenBelow(read, write, error, answer, d + 1) && (ready <==> d in answer.Union())
  {
    var r := MarkIf(read, d, d in lwip.read || d in native.read, answer.read);
    var w := MarkIf(write, d, d in lwip.write || d in native.write, answer.write);
    var e := MarkIf(error, d, d in lwip.error || d in native.error, answer.error);
    ready := r || w || e;
  }

  lemma CountNext(bits: set<nat>, d: nat)
    ensures |Below(bits, d + 1)| == |Below(bits, d)| + if d in bits then 1 else 0
  {
    BelowNext(bits, d);
  }

  lemma BelowAll(bits: set<nat>, max: nat)
    requires forall d <- bits :: d < max
    ensures Below(bits, max) == bits
  {}

  /** Writes both answers into the caller's sets and counts the descriptors that are ready. */
  method Merge(read: FdSet?, write: FdSet?, error: FdSet?, max: nat, lwip: Sets, native: Sets, ghost answer: Sets)
    returns (ready: nat)
    requires Distinct(read, write, error) && Fits(answer, read, write, error)
    requires answer == Joined(lwip, native)
    requires forall d <- answer.Union() :: d < max
    modifies read, write, error
    ensures SetsOf(read, write, error) == answer && ready == |answer.Union()|
  {
    ready := 0;
    Clear(read);
    Clear(write);
    Clear(error);
    for d := 0 to max
      invariant WrittenBelow(read, write, error, answer, d) && ready == |Below(answer.Union(), d)|
    {
      var descriptorReady := MarkDescriptor(read, write, error, d, lwip, native, answer);
      CountNext(answer.Union(), d);
      if descriptorReady {
        ready := ready + 1;
      }
    }
    BelowAll(answer.read, max);
    BelowAll(answer.write, max);
    BelowAll(answer.error, max);
    BelowAll(answer.Union(), max);
  }

  /** Both stacks asked once about their shares: an error, or two answers that make up the reference's. */
  method AskBoth(s: SelectSystem, k: nat, asked: Sets, max: nat)
    returns (failed: bool, errno: int, lwip: Sets, native: Sets)
    ensures failed == Failure(s, k, true).Some? && (failed ==> errno == Failure(s, k, true).value)
    ensures !failed ==> ReadySets(s, k, asked, max) == Joined(lwip, native)
  {
    lwip, native := SplitSets(asked, max);
    var virtualReady, virtualErrno, realReady, realErrno;
    virtualReady, virtualErrno, lwip := AskStack(s.lwip, k, lwip);
    realReady, realErrno, native := AskStack(s.native, k, native);
    MergedAnswer(s, k, Read, asked.read, max);
    MergedAnswer(s, k, Write, asked.write, max);
    MergedAnswer(s, k, Error, asked.error, max);
    failed := virtualReady < 0 || realReady < 0;
    errno := if virtualReady < 0 then virtualErrno else realErrno;
  }

  /** What a round without a failure answers, and whether it is the last one. */
  method Conclude(count: nat, timeout: uint64, s: SelectSystem, k: nat) returns (o: Answer)
    ensures o.Sampling? <==> count == 0 && !Expired(s, timeout, k)
    ensures !o.Sampling? ==> o == Returned(count, 0)
  {
    if count > 0 || timeout == 0 {
      return Returned(count, 0);
    }
    if timeout != FOREVER && Minus64(s.clock(k), s.started) >= timeout {
      return Returned(0, 0);
    }
    return Sampling;
  }

  /** Descriptors 128 to 191 are lwIP's and all others the system's. */
  lemma OwnerReports(s: SelectSystem, k: nat, kind: Kind, asked: set<nat>, max: nat, d: nat)
    ensures d in ReadyIn(s, k, kind, asked, max)
            <==> d in asked && d < max
                 && if 128 <= d <= 191 then d in s.lwip.ready(k, kind) else d in s.native.ready(k, kind)
  {}

  /** Outputs are subsets of the inputs. */
  lemma AnswerIsSubset(s: SelectSystem, k: nat, asked: Sets, max: nat)
    ensures var r := ReadySets(s, k, asked, max);
            r.read <= asked.read && r.write <= asked.write && r.error <= asked.error
  {}

  lemma AnswerFits(s: SelectSystem, k: nat, asked: Sets, max: nat, read: FdSet?, write: FdSet?, error: FdSet?)
    requires Fits(asked, read, write, error)
    ensures Fits(ReadySets(s, k, asked, max), read, write, error)
    ensures forall d <- ReadySets(s, k, asked, max).Union() :: d < max
  {
    AnswerIsSubset(s, k, asked, max);
  }

  lemma NothingReady(answer: Sets)
    ensures |answer.Union()| == 0 <==> answer.Union() == {}
    ensures answer.Union() == {} <==> answer == NOTHING
  {
    assert answer.read <= answer.Union() && answer.write <= answer.Union() && answer.error <= answer.Union();
  }

  /** One round of the mixed path: split, ask both, and unless one fails merge. */
  method MixedRound(read: FdSet?, write: FdSet?, error: FdSet?, max: nat, timeout: uint64, s: SelectSystem, k: nat,
                    asked: Sets)
    returns (o: Answer)
    requires Distinct(read, write, error) && Fits(asked, read, write, error)
    requires SetsOf(read, write, error) == if k == 0 then asked else NOTHING
    modifies read, write, error
    ensures o.Sampling? ==> !Stops(s, timeout, asked, max, true, k) && SetsOf(read, write, error) == NOTHING
    ensures !o.Sampling? ==> Stops(s, timeout, asked, max, true, k)
                             && MixedAnswers(s, k, asked, max, SetsOf(read, write, error), o)
  {
    var failed, errno, lwip, native := AskBoth(s, k, asked, max);
    if failed {
      return Returned(-1, errno);
    }
    ghost var answer := ReadySets(s, k, asked, max);
    AnswerFits(s, k, asked, max, read, write, error);
    NothingReady(answer);
    var ready := Merge(read, write, error, max, lwip, native, answer);
    o := Conclude(ready, timeout, s, k);
  }

  method SelectMixed(read: FdSet?, write: FdSet?, error: FdSet?, max: nat, timeout: uint64, s: SelectSystem,
                     samples: nat)
    returns (o: Answer, taken: nat)
    requires Distinct(read, write, error)
    modifies read, write, error
    ensures taken <= samples && !o.Delegated?
    ensures var asked := old(SetsOf(read, write, error));
            if o.Sampling? then taken == samples && NoStopBefore(s, timeout, asked, max, true, taken)
            else taken >= 1 && FirstStop(s, timeout, asked, max, true, taken - 1)
                 && MixedAnswers(s, taken - 1, asked, max, SetsOf(read, write, error), o)
  {
    var asked := SetsOf(read, write, error);
    taken := 0;
    while taken < samples
      invariant taken <= samples
      invariant SetsOf(read, write, error) == if taken == 0 then asked else NOTHING
      invariant NoStopBefore(s, timeout, asked, max, true, taken)
    {
      o := MixedRound(read, write, error, max, timeout, s, taken, asked);
      taken := taken + 1;
      if !o.Sampling? {
        return o, taken;
      }
    }
    o := Sampling;
  }

  method Store(f: FdSet?, bits: set<nat>)
    requires f == null ==> bits == {}
    modifies f
    ensures BitsOf(f) == bits
  {
    if f != null { f.bits := bits; }
  }

  method StoreSets(read: FdSet?, write: FdSet?, error: FdSet?, answer: Sets)
    requires Distinct(read, write, error) && Fits(answer, read, write, error)
    modifies read, write, error
    ensures SetsOf(read, write, error) == answer
  {
    Store(read, answer.read);
    Store(write, answer.write);
    Store(error, answer.error);
  }

  predicate OnlyLwip(asked: Sets, max: nat) {
    forall d <- asked.Union() :: d < max ==> PollMux.IsVirtual(d)
  }

  lemma LwipIsReference(s: SelectSystem, k: nat, asked: Sets, max: nat)
    requires OnlyLwip(asked, max)
    ensures Sets(Below(asked.read, max) * s.lwip.ready(k, Read), Below(asked.write, max) * s.lwip.ready(k, Write),
                 Below(asked.error, max) * s.lwip.ready(k, Error))
         == ReadySets(s, k, asked, max)
  {
    var r := ReadySets(s, k, asked, max);
    assert Below(asked.read, max) * s.lwip.ready(k, Read) == r.read;
    assert Below(asked.write, max) * s.lwip.ready(k, Write) == r.write;
    assert Below(asked.error, max) * s.lwip.ready(k, Error) == r.error;
  }

  lemma NoBits(answer: Sets)
    ensures answer.TotalBits() == 0 <==> answer.Union() == {}
  {
    assert answer.read <= answer.Union() && answer.write <= answer.Union() && answer.error <= answer.Union();
  }

  /** lwIP asked once about the whole set. */
  method AskLwip(s: SelectSystem, k: nat, asked: Sets, max: nat) returns (result: int, errno: int, answer: Sets)
    requires OnlyLwip(asked, max)
    ensures match Failure(s, k, false)
            case Some(e) => result == -1 && errno == e && answer == asked
            case None => answer == ReadySets(s, k, asked, max) && result == answer.TotalBits()
  {
    LwipIsReference(s, k, asked, max);
    result, errno, answer :=
      AskStack(s.lwip, k, Sets(Below(asked.read, max), Below(asked.write, max), Below(asked.error, max)));
    if result < 0 {
      answer := asked;
    }
  }

  method VirtualRound(read: FdSet?, write: FdSet?, error: FdSet?, max: nat, timeout: uint64, s: SelectSystem, k: nat,
                      asked: Sets)
    returns (o: Answer)
    requires Distinct(read, write, error) && Fits(asked, read, write, error) && OnlyLwip(asked, max)
    modifies read, write, error
    ensures o.Sampling? ==> !Stops(s, timeout, asked, max, false, k)
    ensures !o.Sampling? ==> Stops(s, timeout, asked, max, false, k)
                             && VirtualAnswers(s, k, asked, max, SetsOf(read, write, error), o)
  {
    StoreSets(read, write, error, asked);
    var result, errno, answer := AskLwip(s, k, SetsOf(read, write, error), max);
    AnswerIsSubset(s, k, asked, max);
    NoBits(ReadySets(s, k, asked, max));
    StoreSets(read, write, error, answer);
    if result < 0 {
      return Returned(result, errno);
    }
    o := Conclude(result, timeout, s, k);
  }

  /** The path without system descriptors: lwIP alone, on the caller's sets restored every round. */
  method SelectVirtual(read: FdSet?, write: FdSet?, error: FdSet?, max: nat, timeout: uint64, s: SelectSystem,
                       samples: nat)
    returns (o: Answer, taken: nat)
    requires Distinct(read, write, error) && OnlyLwip(SetsOf(read, write, error), max)
    modifies read, write, error
    ensures taken <= samples && !o.Delegated?
    ensures var asked := old(SetsOf(read, write, error));
            if o.Sampling? then taken == samples && NoStopBefore(s, timeout, asked, max, false, taken)
            else taken >= 1 && FirstStop(s, timeout, asked, max, false, taken - 1)
                 && VirtualAnswers(s, taken - 1, asked, max, SetsOf(read, write, error), o)
  {
    var asked := SetsOf(read, write, error);
    taken := 0;
    while taken < samples
      invariant taken <= samples && Fits(asked, read, write, error)
      invariant NoStopBefore(s, timeout, asked, max, false, taken)
    {
      o := VirtualRound(read, write, error, max, timeout, s, taken, asked);
      taken := taken + 1;
      if !o.Sampling? {
        return o, taken;
      }
    }
    o := Sampling;
  }

  predicate SomeLwip(asked: Sets, max: nat) {
    exists d <- asked.Union() :: d < max && PollMux.IsVirtual(d)
  }

  method Detect(asked: Sets, max: nat) returns (hasVirtual: bool, hasReal: bool)
    ensures hasVirtual == SomeLwip(asked, max) && hasReal == !OnlyLwip(asked, max)
  {
    hasVirtual, hasReal := false, false;
    for d := 0 to max
      invariant hasVirtual == SomeLwip(asked, d) && hasReal == !OnlyLwip(asked, d)
    {
      var selected := d in asked.read || d in asked.write || d in asked.error;
      assert selected <==> d in asked.Union();
      if selected {
        if PollMux.IsVirtual(d) {
          hasVirtual := true;
        } else {
          hasReal := true;
        }
      }
    }
  }

  /** When both stacks fail the caller sees lwIP's error. */
  lemma LwipErrorFirst(s: SelectSystem, k: nat, asked: Sets, max: nat, after: Sets, o: Answer, errno: int)
    requires MixedAnswers(s, k, asked, max, after, o) || VirtualAnswers(s, k, asked, max, after, o)
    requires s.lwip.error(k) == Some(errno)
    ensures o == Returned(-1, errno)
  {}

  /** A zero answer of either path leaves every set empty, after the whole timeout. */
  lemma ZeroMeansTimeout(s: SelectSystem, timeout: uint64, asked: Sets, max: nat, mixed: bool, k: nat,
                         after: Sets, o: Answer)
    requires FirstStop(s, timeout, asked, max, mixed, k) && o.Returned? && o.count == 0
    requires if mixed then MixedAnswers(s, k, asked, max, after, o) else VirtualAnswers(s, k, asked, max, after, o)
    ensures after == NOTHING && timeout != FOREVER && (timeout != 0 ==> Minus64(s.clock(k), s.started) >= timeout)
  {
    NoBits(after);
    NothingReady(after);
  }

  function TimeoutUs(timeout: Option<(int, int)>): uint64 {
    if timeout.None? then FOREVER else Wrap64(timeout.value.0 * 1_000_000 + timeout.value.1)
  }

  /** Seconds and microseconds, as microseconds in 64 bits. */
  function Micros(timeout: (int, int)): int {
    (timeout.0 * 1_000_000 + timeout.1) % 0x1_0000_0000_0000_0000
  }

  /** The whole of a given, finite timeout is over at sample k. */
  predicate WaitedFor(s: SelectSystem, k: nat, timeout: Option<(int, int)>) {
    && timeout.Some? && Micros(timeout.value) != 0xFFFF_FFFF_FFFF_FFFF
    && (Micros(timeout.value) == 0 || Minus64(s.clock(k), s.started) >= Micros(timeout.value))
  }

  /** For times that fit this is the number of microseconds. */
  lemma MicrosExact(sec: nat, usec: nat)
    requires sec * 1_000_000 + usec < 0x1_0000_0000_0000_0000
    ensures Micros((sec, usec)) == sec * 1_000_000 + usec
  {}

  /** Zero is answered only once the caller's timeout is over, and never without one. */
  lemma ZeroWaits(s: SelectSystem, timeout: Option<(int, int)>, asked: Sets, max: nat, mixed: bool, k: nat,
                  after: Sets, o: Answer)
    requires FirstStop(s, TimeoutUs(timeout), asked, max, mixed, k) && o.Returned? && o.count == 0
    requires if mixed then MixedAnswers(s, k, asked, max, after, o) else VirtualAnswers(s, k, asked, max, after, o)
    ensures WaitedFor(s, k, timeout)
  {
    ZeroMeansTimeout(s, TimeoutUs(timeout), asked, max, mixed, k, after, o);
  }

  /** What a select for the sets `asked` comes to within `samples` rounds, of which it took `taken`. */
  ghost predicate ComesTo(s: SelectSystem, t: uint64, asked: Sets, max: nat, samples: nat, taken: nat, after: Sets,
                          o: Answer)
  {
    var mixed := !OnlyLwip(asked, max);
    if !SomeLwip(asked, max) then o.Delegated? && after == asked
    else if o.Sampling? then taken == samples && NoStopBefore(s, t, asked, max, mixed, taken)
    else taken >= 1 && FirstStop(s, t, asked, max, mixed, taken - 1)
         && if mixed then MixedAnswers(s, taken - 1, asked, max, after, o)
            else VirtualAnswers(s, taken - 1, asked, max, after, o)
  }

  method SelectFor(max: nat, read: FdSet?, write: FdSet?, error: FdSet?, t: uint64, s: SelectSystem, samples: nat)
    returns (o: Answer, taken: nat)
    requires Distinct(read, write, error)
    modifies read, write, error
    ensures taken <= samples
    ensures ComesTo(s, t, old(SetsOf(read, write, error)), max, samples, taken, SetsOf(read, write, error), o)
  {
    var hasVirtual, hasReal := Detect(SetsOf(read, write, error), max);
    if !hasVirtual {
      return Delegated, 0;
    }
    if !hasReal {
      o, taken := SelectVirtual(read, write, error, max, t, s, samples);
    } else {
      o, taken := SelectMixed(read, write, error, max, t, s, samples);
    }
  }

  lemma ComesToZero(s: SelectSystem, timeout: Option<(int, int)>, asked: Sets, max: nat, samples: nat, taken: nat,
                    after: Sets, o: Answer)
    requires ComesTo(s, TimeoutUs(timeout), asked, max, samples, taken, after, o)
    ensures o.Returned? && o.count == 0 ==> taken >= 1 && WaitedFor(s, taken - 1, timeout)
  {
    if o.Returned? && o.count == 0 {
      ZeroWaits(s, timeout, asked, max, !OnlyLwip(asked, max), taken - 1, after, o);
    }
  }

  /** __wrap_select, allowed at most `samples` rounds; the timeout is seconds and microseconds. */
  method WrapSelect(max: nat, read: FdSet?, write: FdSet?, error: FdSet?, timeout: Option<(int, int)>,
                    s: SelectSystem, samples: nat)
    returns (o: Answer, taken: nat)
    requires Distinct(read, write, error)
    modifies read, write, error
    ensures taken <= samples
    ensures o.Returned? && o.count == 0 ==> taken >= 1 && WaitedFor(s, taken - 1, timeout)
    ensures ComesTo(s, TimeoutUs(timeout), old(SetsOf(read, write, error)), max, samples, taken,
                    SetsOf(read, write, error), o)
  {
    ghost var asked := SetsOf(read, write, error);
    o, taken := SelectFor(max, read, write, error, TimeoutUs(timeout), s, samples);
    ComesToZero(s, timeout, asked, max, samples, taken, SetsOf(read, write, error), o);
  }

  // ---------- what follows ----------

  lemma {:induction false} FirstOf(s: SelectSystem, timeout: uint64, asked: Sets, max: nat, mixed: bool, k: nat)
    requires Stops(s, timeout, asked, max, mixed, k)
    ensures exists j | 0 <= j <= k :: FirstStop(s, timeout, asked, max, mixed, j)
  {
    if !FirstStop(s, timeout, asked, max, mixed, k) {
      var j :| 0 <= j < k && Stops(s, timeout, asked, max, mixed, j);
      FirstOf(s, timeout, asked, max, mixed, j);
    }
  }

  /** Delays of a millisecond that fill the timeout. */
  function Slices(timeout: uint64): nat {
    (timeout + 999) / 1000
  }

  /** With a clock that a delay advances by a millisecond or more, a finite timeout is over, or an
      answer found, by sample number Slices(timeout), counted from 0. */
  lemma TimeoutBoundsSamples(s: SelectSystem, timeout: uint64, asked: Sets, max: nat, mixed: bool)
    requires timeout != FOREVER && PollMux.Ticks(s.clock, s.started, Slices(timeout))
    ensures exists k | 0 <= k <= Slices(timeout) :: FirstStop(s, timeout, asked, max, mixed, k)
  {
    PollMux.TimePasses(s.clock, s.started, Slices(timeout));
    assert timeout <= 1000 * Slices(timeout);
    FirstOf(s, timeout, asked, max, mixed, Slices(timeout));
  }

  /** __wrap_select with a finite timeout and a lwIP descriptor: it always answers, within
      Slices(timeout) + 1 samples. */
  method SelectWithTimeout(max: nat, read: FdSet?, write: FdSet?, error: FdSet?, timeout: (int, int), s: SelectSystem)
    returns (o: Answer, taken: nat)
    requires Distinct(read, write, error) && SomeLwip(SetsOf(read, write, error), max)
    requires Micros(timeout) != 0xFFFF_FFFF_FFFF_FFFF
    requires PollMux.Ticks(s.clock, s.started, Slices(Micros(timeout)))
    modifies read, write, error
    ensures o.Returned? && 1 <= taken <= (Micros(timeout) + 999) / 1000 + 1
    ensures o.count == 0 ==> WaitedFor(s, taken - 1, Some(timeout))
    ensures var asked, t := old(SetsOf(read, write, error)), TimeoutUs(Some(timeout));
            var mixed := !OnlyLwip(asked, max);
            && FirstStop(s, t, asked, max, mixed, taken - 1)
            && if mixed then MixedAnswers(s, taken - 1, asked, max, SetsOf(read, write, error), o)
               else VirtualAnswers(s, taken - 1, asked, max, SetsOf(read, write, error), o)
  {
    ghost var asked := SetsOf(read, write, error);
    var t := TimeoutUs(Some(timeout));
    TimeoutBoundsSamples(s, t, asked, max, !OnlyLwip(asked, max));
    o, taken := WrapSelect(max, read, write, error, Some(timeout), s, Slices(t) + 1);
  }

  predicate Overlapping(r: Sets) {
    r.read * r.write != {} || r.read * r.error != {} || r.write * r.error != {}
  }

  lemma UnionSize(a: set<nat>, b: set<nat>)
    ensures |a + b| + |a * b| == |a| + |b|
  {
    assert a + b == a + (b - a);
    assert b == (b - a) + a * b;
  }

  /** Descriptors are counted once and bits each: the difference is what is in two sets. */
  lemma UnionCounts(r: Sets)
    ensures |r.Union()| <= r.TotalBits()
    ensures |r.Union()| == r.TotalBits() <==> !Overlapping(r)
  {
    var a := r.read + r.write;
    UnionSize(r.read, r.write);
    UnionSize(a, r.error);
    assert a * r.error == r.read * r.error + r.write * r.error;
  }

  /** What of the sets asked is looked at. */
  function Limited(asked: Sets, max: nat): Sets {
    Sets(Below(asked.read, max), Below(asked.write, max), Below(asked.error, max))
  }

  lemma ReadyWithinLimit(s: SelectSystem, k: nat, asked: Sets, max: nat)
    requires !Overlapping(Limited(asked, max))
    ensures !Overlapping(ReadySets(s, k, asked, max))
  {
    var r, l := ReadySets(s, k, asked, max), Limited(asked, max);
    assert r.read <= l.read && r.write <= l.write && r.error <= l.error;
    assert r.read * r.write <= l.read * l.write && r.read * r.error <= l.read * l.error;
    assert r.write * r.error <= l.write * l.error;
  }

  /** Both stacks report everything they are asked about. */
  lemma EverythingReady(asked: Sets, max: nat) returns (s: SelectSystem)
    ensures Failure(s, 0, true).None? && ReadySets(s, 0, asked, max) == Limited(asked, max)
  {
    var bits := map[Read := asked.read, Write := asked.write, Error := asked.error];
    var stack := SelectStack((k: nat, kind: Kind) => if kind in bits then bits[kind] else {}, (k: nat) => None);
    s := SelectSystem(stack, stack, (k: nat) => 0, 0);
    var r := ReadySets(s, 0, asked, max);
    assert r.read == Below(asked.read, max) && r.write == Below(asked.write, max);
    assert r.error == Below(asked.error, max);
  }

  /** An answer of the mixed path: it stops at sample k, nothing fails, and the sets are left as `after`. */
  ghost predicate AnswersAt(s: SelectSystem, timeout: uint64, asked: Sets, max: nat, k: nat, after: Sets, o: Answer) {
    && FirstStop(s, timeout, asked, max, true, k) && Failure(s, k, true).None?
    && MixedAnswers(s, k, asked, max, after, o)
  }

  /** The mixed path counts descriptors where POSIX counts bits. Every answer to a caller is the count
      POSIX asks for exactly when the caller has no descriptor in two sets at once. */
  lemma CountAgreesUnlessOverlapping(timeout: uint64, asked: Sets, max: nat)
    ensures (forall s, k, after, o | AnswersAt(s, timeout, asked, max, k, after, o) :: o.count == after.TotalBits())
            <==> !Overlapping(Limited(asked, max))
  {
    var l := Limited(asked, max);
    if !Overlapping(l) {
      forall s, k, after, o | AnswersAt(s, timeout, asked, max, k, after, o)
        ensures o.count == after.TotalBits()
      {
        ReadyWithinLimit(s, k, asked, max);
        UnionCounts(after);
      }
    } else {
      var s := EverythingReady(asked, max);
      UnionCounts(l);
      NothingReady(l);
      assert AnswersAt(s, timeout, asked, max, 0, l, Returned(|l.Union()|, 0));
    }
  }

  lemma TwoBits(r: Sets)
    requires r == Sets({128}, {128}, {})
    ensures Overlapping(r) && |r.Union()| == 1 && r.TotalBits() == 2
  {
    assert r.Union() == {128};
    assert 128 in r.read * r.write;
  }

  /** It does happen: a socket that can be both read and written, asked about beside a system descriptor
      that is not ready, counts once on the mixed path and is two bits. */
  lemma ReadyTwiceCountsOnce() returns (s: SelectSystem, asked: Sets, max: nat)
    ensures SomeLwip(asked, max) && !OnlyLwip(asked, max) && Overlapping(ReadySets(s, 0, asked, max))
    ensures forall after, o :: MixedAnswers(s, 0, asked, max, after, o) ==> o.count == 1 && after.TotalBits() == 2
  {
    var lwip := SelectStack((k: nat, kind: Kind) => {128}, (k: nat) => None);
    var native := SelectStack((k: nat, kind: Kind) => {}, (k: nat) => None);
    s, asked, max := SelectSystem(lwip, native, (k: nat) => 0, 0), Sets({3, 128}, {128}, {}), 129;
    assert 3 in asked.Union() && 128 in asked.Union();
    var r := ReadySets(s, 0, asked, max);
    assert r.read == {128} && r.write == {128} && r.error == {};
    TwoBits(r);
  }

  /** A failure of the mixed path at sample k, the first at which it stops. */
  ghost predicate FailsAt(s: SelectSystem, timeout: uint64, asked: Sets, max: nat, k: nat, after: Sets, o: Answer) {
    && FirstStop(s, timeout, asked, max, true, k) && Failure(s, k, true).Some?
    && MixedAnswers(s, k, asked, max, after, o)
  }

  /** Nothing is ready, the clock stands still, and both stacks fail at the second sample. */
  lemma FailsSecond(timeout: uint64, asked: Sets, max: nat) returns (s: SelectSystem)
    requires timeout != 0
    ensures FailsAt(s, timeout, asked, max, 1, NOTHING, Returned(-1, 9))
  {
    var stack := SelectStack((k: nat, kind: Kind) => {}, (k: nat) => if k == 1 then Some(9) else None);
    s := SelectSystem(stack, stack, (k: nat) => 0, 0);
    assert ReadySets(s, 0, asked, max) == NOTHING;
  }

  /** POSIX leaves the caller's sets alone when select fails. The mixed path does so in every case exactly
      when it is called with a zero timeout, or with nothing in the sets. */
  lemma FailureKeepsSetsOnlyWithoutTimeout(timeout: uint64, asked: Sets, max: nat)
    ensures (forall s, k, after, o | FailsAt(s, timeout, asked, max, k, after, o) :: after == asked)
            <==> timeout == 0 || asked == NOTHING
  {
    if timeout == 0 {
      forall s, k, after, o | FailsAt(s, timeout, asked, max, k, after, o) ensures after == asked {
        assert Stops(s, timeout, asked, max, true, 0);
      }
    } else if asked != NOTHING {
      var s := FailsSecond(timeout, asked, max);
    }
  }
}
