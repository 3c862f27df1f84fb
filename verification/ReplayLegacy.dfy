/** The 32-packet replay check that the ring replaced, and how the ring widens it. */
module ReplayLegacy {
  import opened CTypes
  import opened BitOps
  import opened ReplayWindow

  const LEGACY_BITS := 32

  datatype Legacy = Legacy(bitmap: uint32, counter: uint64)

  /** The bitmap after a packet `diff` positions ahead. */
  function ShiftIn(bitmap: uint32, diff: nat): uint32 {
    WordBits(0);
    OrBound(Shl(bitmap, diff, 32), 1, 32);
    if diff < LEGACY_BITS then Or(Shl(bitmap, diff, 32), 1) else 1
  }

  function MarkSeen(bitmap: uint32, diff: nat): uint32
    requires diff < LEGACY_BITS
  {
    WordBits(diff);
    OrBound(bitmap, Pow2(diff), 32);
    Or(bitmap, Pow2(diff))
  }

  /** The distance as the old code computes it, in 32 bits. */
  function Distance(from: uint64, to: uint64): uint32 {
    Wrap32(to - from)
  }

  function MoveAhead(w: Legacy, position: uint64): (Legacy, bool) {
    (Legacy(ShiftIn(w.bitmap, Distance(w.counter, position)), position), true)
  }

  function LookBehind(w: Legacy, position: uint64): (Legacy, bool) {
    var diff := Distance(position, w.counter);
    if diff >= LEGACY_BITS || And(w.bitmap, Pow2(diff)) != 0 then (w, false)
    else (w.(bitmap := MarkSeen(w.bitmap, diff)), true)
  }

  function CheckPosition(w: Legacy, position: uint64): (Legacy, bool) {
    if position == 0 then (w, false)
    else if position > w.counter then MoveAhead(w, position)
    else LookBehind(w, position)
  }

  /** Packets are numbered from 0 and positions from 1. */
  function PositionOf(counter: uint64): uint64 {
    Wrap64(counter + 1)
  }

  lemma PositionWraps(counter: uint64)
    ensures PositionOf(counter) == if counter == U64 - 1 then 0 else counter + 1
  {}

  function LegacyCheck(w: Legacy, counter: uint64): (Legacy, bool) {
    CheckPosition(w, PositionOf(counter))
  }

  class LegacyKeypair {
    var replayBitmap: uint32
    var replayCounter: uint64

    function State(): Legacy
      reads this
    {
      Legacy(replayBitmap, replayCounter)
    }

    constructor ()
      ensures State() == Legacy(0, 0)
    {
      replayBitmap, replayCounter := 0, 0;
    }

    method CheckReplay(counter: uint64) returns (result: bool)
      modifies this
      ensures (State(), result) == LegacyCheck(old(State()), counter)
    {
      WordBits(0);
      result := false;
      var position := PositionOf(counter);
      if position != 0 {
        if position > replayCounter {
          var diff := Wrap32(position - replayCounter);
          if diff < LEGACY_BITS {
            replayBitmap := Shl(replayBitmap, diff, 32);
            OrBound(replayBitmap, 1, 32);
            replayBitmap := Or(replayBitmap, 1);
          } else {
            replayBitmap := 1;
          }
          replayCounter := position;
          result := true;
        } else {
          var diff := Wrap32(replayCounter - position);
          if diff < LEGACY_BITS {
            WordBits(diff);
            if And(replayBitmap, Pow2(diff)) != 0 {
            } else {
              OrBound(replayBitmap, Pow2(diff), 32);
              replayBitmap := Or(replayBitmap, Pow2(diff));
              result := true;
            }
          }
        }
      }
    }
  }

  /** The states both checks reach over one call sequence from a fresh session. */
  function LegacyAfter(counters: seq<uint64>): Legacy {
    if counters == [] then Legacy(0, 0)
    else LegacyCheck(LegacyAfter(counters[..|counters| - 1]), counters[|counters| - 1]).0
  }

  function SeenAfter(counters: seq<uint64>): set<uint64> {
    if counters == [] then {}
    else Record(SeenAfter(counters[..|counters| - 1]), counters[|counters| - 1])
  }

  /** Both windows end at the same place, and whatever was seen at one of the last 32 positions has its
      bit; a truncated distance can leave other bits in the old window, too. */
  ghost predicate Remembers(w: Legacy, seen: set<uint64>) {
    && HighestOf(w.counter, seen)
    && forall d: nat | d < LEGACY_BITS && d < w.counter && w.counter - 1 - d in seen :: Bit(w.bitmap, d)
  }

  lemma ShiftInBit(bitmap: uint32, diff: nat, d: nat)
    requires d < LEGACY_BITS
    ensures Bit(ShiftIn(bitmap, diff), d) <==> d == 0 || (d >= diff && Bit(bitmap, d - diff))
  {
    assert Pow2(0) == 1;
    SetBit(Shl(bitmap, diff, 32), 0, d);
    ShlBit(bitmap, diff, 32, d);
    Pow2Bit(0, d);
  }

  /** One step of the old check, bit by bit. */
  ghost predicate Describes(w: Legacy, counter: uint64, r: (Legacy, bool)) {
    if counter == U64 - 1 then r == (w, false)
    else if counter >= w.counter then
      var shift := Distance(w.counter, counter + 1);
      && r.1 && r.0.counter == counter + 1
      && forall d: nat | d < LEGACY_BITS :: Bit(r.0.bitmap, d) <==> d == 0 || (d >= shift && Bit(w.bitmap, d - shift))
    else
      var back := Distance(counter + 1, w.counter);
      && (r.1 <==> back < LEGACY_BITS && !Bit(w.bitmap, back)) && r.0.counter == w.counter
      && forall d: nat | d < LEGACY_BITS :: Bit(r.0.bitmap, d) <==> Bit(w.bitmap, d) || d == back
  }

  lemma AheadDescribed(w: Legacy, counter: uint64)
    requires w.counter <= counter < U64 - 1
    ensures Describes(w, counter, MoveAhead(w, counter + 1))
  {
    var shift := Distance(w.counter, counter + 1);
    forall d: nat | d < LEGACY_BITS
      ensures Bit(ShiftIn(w.bitmap, shift), d) <==> d == 0 || (d >= shift && Bit(w.bitmap, d - shift))
    {
      ShiftInBit(w.bitmap, shift, d);
    }
  }

  lemma BehindDescribed(w: Legacy, counter: uint64)
    requires counter < w.counter
    ensures Describes(w, counter, LookBehind(w, counter + 1))
  {
    var back := Distance(counter + 1, w.counter);
    if back < LEGACY_BITS {
      TestBit(w.bitmap, back);
      forall d: nat | d < LEGACY_BITS
        ensures Bit(MarkSeen(w.bitmap, back), d) <==> Bit(w.bitmap, d) || d == back
      {
        SetBit(w.bitmap, back, d);
      }
    }
  }

  lemma CheckDescribed(w: Legacy, counter: uint64)
    ensures Describes(w, counter, LegacyCheck(w, counter))
  {
    PositionWraps(counter);
    if w.counter <= counter < U64 - 1 {
      AheadDescribed(w, counter);
    } else if counter < w.counter {
      BehindDescribed(w, counter);
    }
  }

  lemma AheadKeeps(w: Legacy, seen: set<uint64>, counter: uint64, r: (Legacy, bool))
    requires Remembers(w, seen) && w.counter <= counter < REJECT_AFTER_MESSAGES && Describes(w, counter, r)
    ensures Remembers(r.0, seen + {counter}) && Fresh(seen, counter)
  {
    var shift := Distance(w.counter, counter + 1);
    forall d: nat | d < LEGACY_BITS && d < counter + 1 && counter - d in seen + {counter}
      ensures Bit(r.0.bitmap, d)
    {
      if d != 0 {
        assert shift == counter + 1 - w.counter <= d;
        assert w.counter - 1 - (d - shift) == counter - d;
      }
    }
  }

  lemma BehindKeeps(w: Legacy, seen: set<uint64>, counter: uint64, r: (Legacy, bool))
    requires Remembers(w, seen) && counter < w.counter && Describes(w, counter, r)
    ensures Remembers(r.0, seen) && Remembers(r.0, seen + {counter})
  {
    var lag := w.counter - 1 - counter;
    assert lag < LEGACY_BITS ==> lag == Distance(counter + 1, w.counter);
  }

  // ---------- exactly when the ring widens the old check ----------

  /** What a caller can test before the packet: the counter is at the limit or beyond, or so far behind
      that the 32-bit distance wraps to a clear bit of the window. */
  predicate Diverges(w: Legacy, counter: uint64) {
    counter != U64 - 1 &&
    (counter >= REJECT_AFTER_MESSAGES
     || (counter + 1 + U32 <= w.counter
         && var back := Distance(counter + 1, w.counter); back < LEGACY_BITS && !Bit(w.bitmap, back)))
  }

  /** Below the limit, or the counter whose successor wraps to zero. */
  predicate Permitted(c: uint64) {
    c < REJECT_AFTER_MESSAGES || c == U64 - 1
  }

  predicate WithinLimit(counters: seq<uint64>) {
    forall k | 0 <= k < |counters| :: Permitted(counters[k])
  }

  lemma StepRemembers(w: Legacy, seen: set<uint64>, counter: uint64, r: (Legacy, bool))
    requires Remembers(w, seen) && Permitted(counter) && Describes(w, counter, r)
    ensures Remembers(r.0, Record(seen, counter))
  {
    if counter < REJECT_AFTER_MESSAGES {
      if counter >= w.counter { AheadKeeps(w, seen, counter, r); } else { BehindKeeps(w, seen, counter, r); }
    }
  }

  lemma {:induction false} RunRemembers(counters: seq<uint64>)
    requires WithinLimit(counters)
    ensures Remembers(LegacyAfter(counters), SeenAfter(counters))
  {
    if counters != [] {
      var before, last := counters[..|counters| - 1], counters[|counters| - 1];
      RunRemembers(before);
      CheckDescribed(LegacyAfter(before), last);
      StepRemembers(LegacyAfter(before), SeenAfter(before), last, LegacyCheck(LegacyAfter(before), last));
    }
  }

  lemma StepWidens(w: Legacy, seen: set<uint64>, counter: uint64, r: (Legacy, bool))
    requires Remembers(w, seen) && Describes(w, counter, r)
    ensures (r.1 ==> Fresh(seen, counter)) <==> !Diverges(w, counter)
  {
    if w.counter <= counter < REJECT_AFTER_MESSAGES {
      AheadKeeps(w, seen, counter, r);
    } else if counter < w.counter {
      assert w.counter - 1 in seen;
    }
  }

  /** After every history below the limit, for every next counter: the ring accepts it if the old check
      does, unless it diverges, and then only the old check accepts it. */
  lemma RingWidensUnlessDiverging(counters: seq<uint64>, next: uint64)
    requires WithinLimit(counters)
    ensures (LegacyCheck(LegacyAfter(counters), next).1 ==> Fresh(SeenAfter(counters), next))
            <==> !Diverges(LegacyAfter(counters), next)
  {
    var w := LegacyAfter(counters);
    RunRemembers(counters);
    CheckDescribed(w, next);
    StepWidens(w, SeenAfter(counters), next, LegacyCheck(w, next));
  }

  predicate WidensAt(counters: seq<uint64>, k: nat)
    requires k < |counters|
  {
    LegacyCheck(LegacyAfter(counters[..k]), counters[k]).1 ==> Fresh(SeenAfter(counters[..k]), counters[k])
  }

  predicate DivergesAt(counters: seq<uint64>, k: nat)
    requires k < |counters|
  {
    Diverges(LegacyAfter(counters[..k]), counters[k])
  }

  predicate NeverDiverges(counters: seq<uint64>) {
    forall k | 0 <= k < |counters| :: !DivergesAt(counters, k)
  }

  lemma WidensUnlessDiverges(counters: seq<uint64>, k: nat)
    requires k < |counters| && WithinLimit(counters[..k])
    ensures WidensAt(counters, k) <==> !DivergesAt(counters, k)
  {
    RingWidensUnlessDiverging(counters[..k], counters[k]);
  }

  lemma PermittedUnlessDiverges(counters: seq<uint64>, k: nat)
    requires k < |counters|
    ensures !DivergesAt(counters, k) ==> Permitted(counters[k])
  {}

  lemma LimitExtends(counters: seq<uint64>, n: nat)
    requires n < |counters| && WithinLimit(counters[..n]) && Permitted(counters[n])
    ensures WithinLimit(counters[..n + 1])
  {
    assert counters[..n + 1] == counters[..n] + [counters[n]];
  }

  lemma NoDivergenceYet(counters: seq<uint64>, n: nat)
    requires n < |counters| && WithinLimit(counters[..n]) && WidensAt(counters, n)
    ensures !DivergesAt(counters, n) && WithinLimit(counters[..n + 1])
  {
    WidensUnlessDiverges(counters, n);
    PermittedUnlessDiverges(counters, n);
    LimitExtends(counters, n);
  }

  lemma {:induction false} FirstDivergence(counters: seq<uint64>, n: nat)
    requires n <= |counters| && forall k | 0 <= k < n :: WidensAt(counters, k)
    ensures WithinLimit(counters[..n]) && forall k | 0 <= k < n :: !DivergesAt(counters, k)
    decreases n
  {
    if n > 0 {
      FirstDivergence(counters, n - 1);
      NoDivergenceYet(counters, n - 1);
    }
  }

  lemma LimitUpTo(counters: seq<uint64>, n: nat)
    requires n <= |counters| && NeverDiverges(counters)
    ensures WithinLimit(counters[..n])
  {
    forall k | 0 <= k < n ensures Permitted(counters[..n][k]) {
      PermittedUnlessDiverges(counters, k);
    }
  }

  /** Side by side over any sequence the ring accepts whatever the old check accepts, exactly when no
      counter diverges. */
  lemma RingWidensExactly(counters: seq<uint64>)
    ensures (forall k | 0 <= k < |counters| :: WidensAt(counters, k)) <==> NeverDiverges(counters)
  {
    if NeverDiverges(counters) {
      forall k | 0 <= k < |counters| ensures WidensAt(counters, k) {
        LimitUpTo(counters, k);
        WidensUnlessDiverges(counters, k);
      }
    }
    if forall k | 0 <= k < |counters| :: WidensAt(counters, k) {
      FirstDivergence(counters, |counters|);
    }
  }

  lemma {:induction false} CounterCovers(counters: seq<uint64>, c: uint64)
    requires c in counters && c != U64 - 1
    ensures LegacyAfter(counters).counter > c
  {
    var before, last := counters[..|counters| - 1], counters[|counters| - 1];
    CheckDescribed(LegacyAfter(before), last);
    if c != last {
      assert c in before;
      CounterCovers(before, c);
    }
  }

  /** Both checks agree on the highest counter exactly while no counter passes the limit. */
  lemma SameCounterExactly(counters: seq<uint64>, ringCounter: uint64)
    requires HighestOf(ringCounter, SeenAfter(counters))
    ensures LegacyAfter(counters).counter == ringCounter <==> WithinLimit(counters)
  {
    if WithinLimit(counters) {
      RunRemembers(counters);
    } else {
      var k :| 0 <= k < |counters| && !Permitted(counters[k]);
      CounterCovers(counters, counters[k]);
    }
  }

  /** The k-th packet shown to both. */
  method CheckBoth(legacy: LegacyKeypair, ring: Keypair, counters: seq<uint64>, k: nat)
    returns (legacyAnswer: bool, ringAnswer: bool)
    requires k < |counters|
    requires legacy.State() == LegacyAfter(counters[..k]) && ring.Valid() && ring.seen == SeenAfter(counters[..k])
    modifies legacy, ring, ring.replayBitmap
    ensures legacy.State() == LegacyAfter(counters[..k + 1])
    ensures ring.Valid() && ring.seen == SeenAfter(counters[..k + 1])
    ensures (legacyAnswer ==> ringAnswer) == WidensAt(counters, k)
  {
    assert counters[..k + 1][..k] == counters[..k];
    ringAnswer := ring.CheckReplay(counters[k]);
    legacyAnswer := legacy.CheckReplay(counters[k]);
  }

  /** Both checks fed the same counters: the ring accepts whatever the old check accepts exactly if no
      counter diverges, and both keypairs end with the same replay_counter exactly if none passes the
      limit. */
  method SideBySide(counters: seq<uint64>)
    returns (legacyAnswers: seq<bool>, ringAnswers: seq<bool>, legacyCounter: uint64, ringCounter: uint64)
    ensures |legacyAnswers| == |ringAnswers| == |counters|
    ensures (forall k | 0 <= k < |counters| :: legacyAnswers[k] ==> ringAnswers[k]) <==> NeverDiverges(counters)
    ensures legacyCounter == ringCounter <==> WithinLimit(counters)
  {
    var legacy := new LegacyKeypair();
    var ring := new Keypair(0, 0, 0);
    legacyAnswers, ringAnswers := [], [];
    for i := 0 to |counters|
      invariant fresh(legacy) && fresh(ring) && fresh(ring.replayBitmap)
      invariant legacy.State() == LegacyAfter(counters[..i])
      invariant ring.Valid() && ring.seen == SeenAfter(counters[..i])
      invariant |legacyAnswers| == |ringAnswers| == i
      invariant forall k | 0 <= k < i :: (legacyAnswers[k] ==> ringAnswers[k]) == WidensAt(counters, k)
    {
      var legacyAnswer, ringAnswer := CheckBoth(legacy, ring, counters, i);
      legacyAnswers, ringAnswers := legacyAnswers + [legacyAnswer], ringAnswers + [ringAnswer];
    }
    assert counters[..|counters|] == counters;
    RingWidensExactly(counters);
    SameCounterExactly(counters, ring.replayCounter);
    legacyCounter, ringCounter := legacy.replayCounter, ring.replayCounter;
  }

  lemma {:induction false} SmallCounter(counters: seq<uint64>)
    requires forall c <- counters :: c < U32 - 1
    ensures LegacyAfter(counters).counter < U32
  {
    if counters != [] {
      var before := counters[..|counters| - 1];
      assert counters[|counters| - 1] in counters && forall c <- before :: c in counters;
      SmallCounter(before);
      CheckDescribed(LegacyAfter(before), counters[|counters| - 1]);
    }
  }

  /** Counters below 2^32 - 1 never diverge. */
  lemma SmallCountersNeverDiverge(counters: seq<uint64>)
    requires forall c <- counters :: c < U32 - 1
    ensures NeverDiverges(counters)
  {
    forall k | 0 <= k < |counters| ensures !DivergesAt(counters, k) {
      assert counters[k] in counters && forall c <- counters[..k] :: c in counters;
      SmallCounter(counters[..k]);
    }
  }

  lemma JumpLeavesGap(r: (Legacy, bool))
    requires Describes(Legacy(0, 0), U32 + 10, r)
    ensures r.0.counter == U32 + 11 && !Bit(r.0.bitmap, 5)
  {
    assert Distance(0, U32 + 11) == 11;
  }

  lemma GapDiverges(w: Legacy)
    requires w.counter == U32 + 11 && !Bit(w.bitmap, 5)
    ensures Diverges(w, 5)
  {
    assert Distance(6, U32 + 11) == 5;
  }

  /** Beyond that bound the old check does diverge: after one jump to 2^32 + 10 it accepts counter 5. */
  lemma LegacyAcceptsStaleCounter() returns (counters: seq<uint64>, stale: uint64)
    ensures counters == [U32 + 10] && stale == 5 && WithinLimit(counters)
    ensures Diverges(LegacyAfter(counters), stale)
    ensures LegacyCheck(LegacyAfter(counters), stale).1 && !Fresh(SeenAfter(counters), stale)
  {
    counters, stale := [U32 + 10], 5;
    assert counters[..0] == [];
    var r := LegacyCheck(LegacyAfter(counters[..0]), U32 + 10);
    CheckDescribed(Legacy(0, 0), U32 + 10);
    JumpLeavesGap(r);
    GapDiverges(r.0);
    RingWidensUnlessDiverging(counters, stale);
  }
}
