/** poll over two socket stacks: lwIP owns descriptors 128..191, the system the others. */
module PollMux {
  import opened CTypes

  const FD_FIRST := 128
  const FD_LAST := 191

  type Bits = bv16

  datatype Entry = Entry(fd: int, events: Bits, revents: Bits)

  predicate IsVirtual(fd: int) {
    FD_FIRST <= fd <= FD_LAST
  }

  /** A stack that is asked without blocking. At its k-th sample a descriptor has the events
      `ready(k, fd, events)`, or the call fails; then it leaves anything in the results. */
  datatype Stack = Stack(ready: (nat, int, Bits) -> Bits, error: nat -> Option<int>, leftover: (nat, nat) -> Bits)

  /** Two stacks, the clock readings behind each sample and the reading before the first. */
  datatype System = System(lwip: Stack, native: Stack, clock: nat -> uint64, started: uint64)

  // ---------- the reference: one poll over one descriptor set ----------

  function Events(s: System, k: nat, e: Entry): Bits {
    if e.fd < 0 then 0
    else if IsVirtual(e.fd) then s.lwip.ready(k, e.fd, e.events)
    else s.native.ready(k, e.fd, e.events)
  }

  predicate UsesReal(entries: seq<Entry>) {
    exists e <- entries :: e.fd >= 0 && !IsVirtual(e.fd)
  }

  /** The error of sample k, lwIP's first; a stack that owns no entry is not asked. */
  function Failure(s: System, k: nat, entries: seq<Entry>): Option<int> {
    if s.lwip.error(k).Some? then s.lwip.error(k)
    else if UsesReal(entries) then s.native.error(k)
    else None
  }

  function ReadyCount(s: System, k: nat, entries: seq<Entry>): nat {
    if entries == [] then 0
    else ReadyCount(s, k, entries[..|entries| - 1]) + if Events(s, k, entries[|entries| - 1]) != 0 then 1 else 0
  }

  predicate Expired(s: System, timeout: int, k: nat) {
    timeout == 0 || (timeout > 0 && Minus64(s.clock(k), s.started) >= timeout * 1000)
  }

  /** The reference poll returns at the first sample that fails, is ready or is past the timeout. */
  predicate Stops(s: System, timeout: int, entries: seq<Entry>, k: nat) {
    Failure(s, k, entries).Some? || ReadyCount(s, k, entries) > 0 || Expired(s, timeout, k)
  }

  predicate FirstStop(s: System, timeout: int, entries: seq<Entry>, k: nat) {
    Stops(s, timeout, entries, k) && forall j | 0 <= j < k :: !Stops(s, timeout, entries, j)
  }

  /** `Sampling`: no answer yet after the samples allowed. */
  datatype Outcome = Delegated | NoMemory | Sampling | Returned(count: int, errno: int)

  /** What a poll that stops at sample k returns and leaves in the entries. */
  ghost predicate Answers(s: System, k: nat, before: seq<Entry>, after: seq<Entry>, o: Outcome) {
    && o.Returned? && |after| == |before|
    && (forall i | 0 <= i < |before| :: after[i].fd == before[i].fd && after[i].events == before[i].events)
    && match Failure(s, k, before)
       case Some(errno) => o == Returned(-1, errno)
       case None => && o.count == ReadyCount(s, k, before)
                    && forall i | 0 <= i < |before| :: after[i].revents == Events(s, k, before[i])
  }

  // ---------- the code ----------

  method PollHasVirtual(entries: array<Entry>) returns (found: bool)
    ensures found <==> exists e <- entries[..] :: IsVirtual(e.fd)
  {
    for i := 0 to entries.Length
      invariant forall j | 0 <= j < i :: !IsVirtual(entries[j].fd)
    {
      if IsVirtual(entries[i].fd) {
        assert entries[i] in entries[..];
        return true;
      }
    }
    return false;
  }

  method PollHasReal(entries: array<Entry>) returns (found: bool)
    ensures found <==> UsesReal(entries[..])
  {
    for i := 0 to entries.Length
      invariant forall j | 0 <= j < i :: !(entries[j].fd >= 0 && !IsVirtual(entries[j].fd))
    {
      if entries[i].fd >= 0 && !IsVirtual(entries[i].fd) {
        assert entries[i] in entries[..];
        return true;
      }
    }
    return false;
  }

  ghost predicate SameRequest(entries: seq<Entry>, before: seq<Entry>) {
    |entries| == |before| &&
    forall i | 0 <= i < |before| :: entries[i].fd == before[i].fd && entries[i].events == before[i].events
  }

  function StackEvents(b: Stack, k: nat, e: Entry): Bits {
    if e.fd < 0 then 0 else b.ready(k, e.fd, e.events)
  }

  function StackCount(b: Stack, k: nat, entries: seq<Entry>): nat {
    if entries == [] then 0
    else StackCount(b, k, entries[..|entries| - 1]) + if StackEvents(b, k, entries[|entries| - 1]) != 0 then 1 else 0
  }

  /** The k-th poll of a stack with timeout 0, as POSIX has it. */
  method AskStack(b: Stack, k: nat, entries: array<Entry>) returns (count: int, errno: int)
    modifies entries
    ensures SameRequest(entries[..], old(entries[..]))
    ensures match b.error(k)
            case Some(e) => count == -1 && errno == e
            case None => && count == StackCount(b, k, old(entries[..]))
                         && forall i | 0 <= i < entries.Length ::
                              entries[i].revents == StackEvents(b, k, old(entries[i]))
  {
    ghost var before := entries[..];
    if b.error(k).Some? {
      forall i | 0 <= i < entries.Length { entries[i] := entries[i].(revents := b.leftover(k, i)); }
      return -1, b.error(k).value;
    }
    count, errno := 0, 0;
    for i := 0 to entries.Length
      invariant count == StackCount(b, k, before[..i])
      invariant forall j | 0 <= j < i :: entries[j] == before[j].(revents := StackEvents(b, k, before[j]))
      invariant forall j | i <= j < entries.Length :: entries[j] == before[j]
    {
      assert before[..i + 1][..i] == before[..i];
      entries[i] := entries[i].(revents := StackEvents(b, k, entries[i]));
      if entries[i].revents != 0 {
        count := count + 1;
      }
    }
    assert before[..entries.Length] == before;
  }

  /** Entries that differ only in old results, all lwIP's or ignored, are answered alike. */
  lemma {:induction false} VirtualIsReference(s: System, k: nat, before: seq<Entry>, now: seq<Entry>)
    requires !UsesReal(before) && |before| == |now|
    requires forall i | 0 <= i < |now| :: now[i].fd == before[i].fd && now[i].events == before[i].events
    ensures StackCount(s.lwip, k, now) == ReadyCount(s, k, before)
    ensures forall i | 0 <= i < |now| :: StackEvents(s.lwip, k, now[i]) == Events(s, k, before[i])
    decreases |before|
  {
    if before != [] {
      var n := |before| - 1;
      assert before[n] in before && forall e <- before[..n] :: e in before;
      VirtualIsReference(s, k, before[..n], now[..n]);
    }
  }

  /** Without system descriptors lwIP alone is sampled, on the caller's own entries. */
  method PollVirtual(entries: array<Entry>, timeout: int, s: System, samples: nat)
    returns (o: Outcome, taken: nat)
    requires !UsesReal(entries[..])
    modifies entries
    ensures taken <= samples
    ensures if o.Sampling? then taken == samples && forall j | 0 <= j < taken :: !Stops(s, timeout, old(entries[..]), j)
            else taken >= 1 && FirstStop(s, timeout, old(entries[..]), taken - 1)
                 && Answers(s, taken - 1, old(entries[..]), entries[..], o)
  {
    ghost var before := entries[..];
    taken := 0;
    while taken < samples
      invariant taken <= samples
      invariant forall i | 0 <= i < entries.Length ::
                  entries[i].fd == before[i].fd && entries[i].events == before[i].events
      invariant forall j | 0 <= j < taken :: !Stops(s, timeout, before, j)
    {
      ghost var now := entries[..];
      var count, errno := AskStack(s.lwip, taken, entries);
      VirtualIsReference(s, taken, before, now);
      taken := taken + 1;
      if count != 0 || timeout == 0 {
        return Returned(count, errno), taken;
      }
      var elapsed := Minus64(s.clock(taken - 1), s.started);
      if timeout > 0 && elapsed >= timeout * 1000 {
        return Returned(0, errno), taken;
      }
    }
    o := Sampling;
  }

  /** The part of the descriptor set one stack is shown: the other's entries are masked by fd -1. */
  function Share(e: Entry, lwip: bool): Entry {
    if IsVirtual(e.fd) == lwip then e else e.(fd := -1)
  }

  ghost predicate IsShare(part: seq<Entry>, before: seq<Entry>, lwip: bool) {
    |part| == |before| &&
    forall i | 0 <= i < |part| :: part[i].fd == Share(before[i], lwip).fd && part[i].events == before[i].events
  }

  method SplitSets(entries: array<Entry>) returns (virtualSet: array<Entry>, realSet: array<Entry>)
    ensures fresh(virtualSet) && fresh(realSet) && virtualSet != realSet
    ensures IsShare(virtualSet[..], entries[..], true) && IsShare(realSet[..], entries[..], false)
  {
    virtualSet := new Entry[entries.Length](_ => Entry(0, 0, 0));
    realSet := new Entry[entries.Length](_ => Entry(0, 0, 0));
    for i := 0 to entries.Length
      invariant forall j | 0 <= j < i ::
                  virtualSet[j] == Share(entries[j], true) && realSet[j] == Share(entries[j], false)
    {
      virtualSet[i], realSet[i] := entries[i], entries[i];
      if IsVirtual(entries[i].fd) {
        realSet[i] := realSet[i].(fd := -1);
      } else {
        virtualSet[i] := virtualSet[i].(fd := -1);
      }
    }
  }

  lemma OrZero(x: Bits)
    ensures x | 0 == x && 0 | x == x
  {}

  lemma OwnerEvents(s: System, k: nat, e: Entry, v: Entry, r: Entry)
    requires v.fd == Share(e, true).fd && v.events == e.events && r.fd == Share(e, false).fd && r.events == e.events
    ensures if IsVirtual(e.fd) then StackEvents(s.lwip, k, v) == Events(s, k, e) && StackEvents(s.native, k, r) == 0
            else StackEvents(s.lwip, k, v) == 0 && StackEvents(s.native, k, r) == Events(s, k, e)
  {}

  /** Each entry's events come from its owner; the masked copy contributes none. */
  lemma MergedEvents(s: System, k: nat, e: Entry, v: Entry, r: Entry)
    requires v.fd == Share(e, true).fd && v.events == e.events && r.fd == Share(e, false).fd && r.events == e.events
    ensures StackEvents(s.lwip, k, v) | StackEvents(s.native, k, r) == Events(s, k, e)
  {
    OwnerEvents(s, k, e, v, r);
    if IsVirtual(e.fd) { OrZero(StackEvents(s.lwip, k, v)); } else { OrZero(StackEvents(s.native, k, r)); }
  }

  /** Merges both stacks' results into the caller's entries and counts the ready ones. */
  method Merge(entries: array<Entry>, virtualSet: array<Entry>, realSet: array<Entry>, s: System, k: nat,
               ghost before: seq<Entry>)
    returns (ready: nat)
    requires entries != virtualSet && entries != realSet
    requires entries.Length == virtualSet.Length == realSet.Length == |before|
    requires forall i | 0 <= i < |before| :: entries[i].fd == before[i].fd && entries[i].events == before[i].events
    requires forall i | 0 <= i < |before| ::
               virtualSet[i].revents | realSet[i].revents == Events(s, k, before[i])
    modifies entries
    ensures ready == ReadyCount(s, k, before)
    ensures forall i | 0 <= i < |before| :: entries[i] == before[i].(revents := Events(s, k, before[i]))
  {
    ready := 0;
    for i := 0 to entries.Length
      invariant ready == ReadyCount(s, k, before[..i])
      invariant forall j | 0 <= j < i :: entries[j] == before[j].(revents := Events(s, k, before[j]))
      invariant forall j | i <= j < entries.Length ::
                  entries[j].fd == before[j].fd && entries[j].events == before[j].events
    {
      assert before[..i + 1][..i] == before[..i];
      entries[i] := entries[i].(revents := virtualSet[i].revents | realSet[i].revents);
      if entries[i].revents != 0 {
        ready := ready + 1;
      }
    }
    assert before[..|before|] == before;
  }

  lemma ShareKept(part: seq<Entry>, now: seq<Entry>, before: seq<Entry>, lwip: bool)
    requires IsShare(part, before, lwip) && SameRequest(now, part)
    ensures IsShare(now, before, lwip)
  {}

  /** One round of questions; without a failure the two answers together are the reference's. */
  method AskBoth(virtualSet: array<Entry>, realSet: array<Entry>, s: System, k: nat, ghost before: seq<Entry>)
    returns (failure: Option<int>)
    requires virtualSet != realSet && UsesReal(before)
    requires IsShare(virtualSet[..], before, true) && IsShare(realSet[..], before, false)
    modifies virtualSet, realSet
    ensures IsShare(virtualSet[..], before, true) && IsShare(realSet[..], before, false)
    ensures failure == Failure(s, k, before)
    ensures failure.None? ==>
              forall i | 0 <= i < |before| :: virtualSet[i].revents | realSet[i].revents == Events(s, k, before[i])
  {
    ghost var v, r := virtualSet[..], realSet[..];
    var virtualReady, virtualErrno := AskStack(s.lwip, k, virtualSet);
    var realReady, realErrno := AskStack(s.native, k, realSet);
    ShareKept(v, virtualSet[..], before, true);
    ShareKept(r, realSet[..], before, false);
    if virtualReady < 0 || realReady < 0 {
      return Some(if virtualReady < 0 then virtualErrno else realErrno);
    }
    failure := None;
    forall i | 0 <= i < |before|
      ensures virtualSet[i].revents | realSet[i].revents == Events(s, k, before[i])
    {
      MergedEvents(s, k, before[i], v[i], r[i]);
    }
  }

  /** One round: ask, merge, and decide whether to answer. */
  method MixedRound(entries: array<Entry>, virtualSet: array<Entry>, realSet: array<Entry>, timeout: int, s: System,
                    k: nat, ghost before: seq<Entry>)
    returns (o: Outcome)
    requires entries != virtualSet && entries != realSet && virtualSet != realSet
    requires UsesReal(before) && SameRequest(entries[..], before)
    requires IsShare(virtualSet[..], before, true) && IsShare(realSet[..], before, false)
    modifies entries, virtualSet, realSet
    ensures IsShare(virtualSet[..], before, true) && IsShare(realSet[..], before, false)
    ensures SameRequest(entries[..], before)
    ensures if o.Sampling? then !Stops(s, timeout, before, k)
            else Stops(s, timeout, before, k) && Answers(s, k, before, entries[..], o)
  {
    var failure := AskBoth(virtualSet, realSet, s, k, before);
    if failure.Some? {
      return Returned(-1, failure.value);
    }
    var ready := Merge(entries, virtualSet, realSet, s, k, before);
    if ready > 0 || timeout == 0 {
      return Returned(ready, 0);
    }
    var elapsed := Minus64(s.clock(k), s.started);
    if timeout > 0 && elapsed >= timeout * 1000 {
      return Returned(0, 0);
    }
    return Sampling;
  }

  method PollMixed(entries: array<Entry>, timeout: int, s: System, samples: nat) returns (o: Outcome, taken: nat)
    requires UsesReal(entries[..])
    modifies entries
    ensures taken <= samples && SameRequest(entries[..], old(entries[..]))
    ensures if o.Sampling? then taken == samples && forall j | 0 <= j < taken :: !Stops(s, timeout, old(entries[..]), j)
            else taken >= 1 && FirstStop(s, timeout, old(entries[..]), taken - 1)
                 && Answers(s, taken - 1, old(entries[..]), entries[..], o)
  {
    ghost var before := entries[..];
    var virtualSet, realSet := SplitSets(entries);
    taken := 0;
    while taken < samples
      invariant taken <= samples && SameRequest(entries[..], before)
      invariant IsShare(virtualSet[..], before, true) && IsShare(realSet[..], before, false)
      invariant forall j | 0 <= j < taken :: !Stops(s, timeout, before, j)
    {
      o := MixedRound(entries, virtualSet, realSet, timeout, s, taken, before);
      taken := taken + 1;
      if !o.Sampling? {
        return o, taken;
      }
    }
    o := Sampling;
  }

  /** __wrap_poll, allowed at most `samples` rounds; `memory` is whether both copies could be allocated. */
  method WrapPoll(entries: array<Entry>, timeout: int, s: System, samples: nat, memory: bool)
    returns (o: Outcome, taken: nat)
    modifies entries
    ensures taken <= samples
    ensures var before := old(entries[..]);
            if !exists e <- before :: IsVirtual(e.fd) then o == Delegated && entries[..] == before
            else if UsesReal(before) && !memory then o == NoMemory && entries[..] == before
            else if o.Sampling? then taken == samples && forall j | 0 <= j < taken :: !Stops(s, timeout, before, j)
            else taken >= 1 && FirstStop(s, timeout, before, taken - 1) && Answers(s, taken - 1, before, entries[..], o)
  {
    var hasVirtual := PollHasVirtual(entries);
    if !hasVirtual {
      return Delegated, 0;
    }
    var hasReal := PollHasReal(entries);
    if !hasReal {
      o, taken := PollVirtual(entries, timeout, s, samples);
    } else if !memory {
      return NoMemory, 0;
    } else {
      o, taken := PollMixed(entries, timeout, s, samples);
    }
  }

  // ---------- what the reference promises ----------

  /** Descriptors 128 to 191 are lwIP's, negative ones nobody's, and all others the system's. */
  lemma OwnerReports(s: System, k: nat, e: Entry)
    ensures 128 <= e.fd <= 191 ==> Events(s, k, e) == s.lwip.ready(k, e.fd, e.events)
    ensures 0 <= e.fd < 128 || e.fd > 191 ==> Events(s, k, e) == s.native.ready(k, e.fd, e.events)
    ensures e.fd < 0 ==> Events(s, k, e) == 0
  {}

  /** When both stacks fail the caller sees lwIP's error. */
  lemma LwipErrorFirst(s: System, k: nat, before: seq<Entry>, after: seq<Entry>, o: Outcome, errno: int)
    requires Answers(s, k, before, after, o) && s.lwip.error(k) == Some(errno)
    ensures o == Returned(-1, errno)
  {}

  /** The positions of the entries with events. */
  function ReadyEntries(s: System, k: nat, entries: seq<Entry>): set<nat> {
    set i: nat | i < |entries| && Events(s, k, entries[i]) != 0
  }

  lemma ReadyEntriesNext(s: System, k: nat, before: seq<Entry>, e: Entry)
    ensures ReadyEntries(s, k, before + [e])
         == ReadyEntries(s, k, before) + if Events(s, k, e) != 0 then {|before|} else {}
    ensures |before| !in ReadyEntries(s, k, before)
  {}

  /** The count is the number of entries with events. */
  lemma {:induction false} CountIsEntries(s: System, k: nat, entries: seq<Entry>)
    ensures ReadyCount(s, k, entries) == |ReadyEntries(s, k, entries)|
  {
    if entries != [] {
      var n := |entries| - 1;
      CountIsEntries(s, k, entries[..n]);
      ReadyEntriesNext(s, k, entries[..n], entries[n]);
      assert entries[..n] + [entries[n]] == entries;
    }
  }

  /** A zero answer means the full timeout passed, and never comes for a negative timeout. */
  lemma ZeroMeansTimeout(s: System, timeout: int, entries: seq<Entry>, k: nat)
    requires FirstStop(s, timeout, entries, k) && Failure(s, k, entries).None? && ReadyCount(s, k, entries) == 0
    ensures timeout >= 0 && (timeout > 0 ==> Minus64(s.clock(k), s.started) >= timeout * 1000)
  {}

  /** Over the first n delays the clock advances by a millisecond or more each time. */
  ghost predicate Ticks(clock: nat -> uint64, started: uint64, n: nat) {
    started <= clock(0) && forall k | 0 <= k < n :: clock(k) + 1000 <= clock(k + 1)
  }

  lemma {:induction false} TimePasses(clock: nat -> uint64, started: uint64, n: nat)
    requires Ticks(clock, started, n)
    ensures started + 1000 * n <= clock(n) && Minus64(clock(n), started) == clock(n) - started
  {
    if n > 0 { TimePasses(clock, started, n - 1); }
  }

  lemma {:induction false} FirstOf(s: System, timeout: int, entries: seq<Entry>, k: nat)
    requires Stops(s, timeout, entries, k)
    ensures exists j | 0 <= j <= k :: FirstStop(s, timeout, entries, j)
  {
    if !FirstStop(s, timeout, entries, k) {
      var j :| 0 <= j < k && Stops(s, timeout, entries, j);
      FirstOf(s, timeout, entries, j);
    }
  }

  /** With such a clock timeout + 1 samples are always enough. */
  lemma TimeoutBoundsSamples(s: System, timeout: nat, entries: seq<Entry>)
    requires Ticks(s.clock, s.started, timeout)
    ensures exists k | 0 <= k <= timeout :: FirstStop(s, timeout, entries, k)
  {
    TimePasses(s.clock, s.started, timeout);
    FirstOf(s, timeout, entries, timeout);
  }

  /** __wrap_poll with a timeout: without memory for its copies, where it needs them, it fails and touches
      nothing; otherwise it always answers, within timeout + 1 samples. */
  method PollWithTimeout(entries: array<Entry>, timeout: nat, s: System, memory: bool)
    returns (o: Outcome, taken: nat)
    requires Ticks(s.clock, s.started, timeout) && exists e <- entries[..] :: IsVirtual(e.fd)
    modifies entries
    ensures o.NoMemory? <==> UsesReal(old(entries[..])) && !memory
    ensures o.NoMemory? ==> entries[..] == old(entries[..])
    ensures !o.NoMemory? ==>
              && o.Returned? && 1 <= taken <= timeout + 1
              && FirstStop(s, timeout, old(entries[..]), taken - 1)
              && Answers(s, taken - 1, old(entries[..]), entries[..], o)
  {
    TimeoutBoundsSamples(s, timeout, entries[..]);
    o, taken := WrapPoll(entries, timeout, s, timeout + 1, memory);
  }
}
