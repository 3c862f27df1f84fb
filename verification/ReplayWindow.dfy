/** The anti-replay window of a WireGuard session: 256 words of 32 bits used as a ring. */
module ReplayWindow {
  import opened CTypes
  import opened BitOps

  // 2^64 - 2^13 - 1, section 6.1 of the WireGuard paper.
  const REJECT_AFTER_MESSAGES: uint64 := 0xFFFF_FFFF_FFFF_DFFF
  const WORD_BITS := 32
  const WORDS := 256
  const WINDOW_SIZE := 8160

  /** The promise: a counter is accepted when it is below the limit, has not been accepted
      before, and is at most WINDOW_SIZE behind everything accepted so far. */
  predicate Fresh(seen: set<uint64>, counter: uint64) {
    && counter < REJECT_AFTER_MESSAGES
    && counter !in seen
    && forall a <- seen :: a - counter <= WINDOW_SIZE
  }

  function Record(seen: set<uint64>, counter: uint64): set<uint64> {
    if Fresh(seen, counter) then seen + {counter} else seen
  }

  /** How far the window reaches: a new counter behind the highest accepted one is accepted up to 8160
      packets behind it, not up to the 8191 of a window of 8192. */
  lemma WindowReach(highest: uint64, seen: set<uint64>, counter: uint64)
    requires highest in seen && forall a <- seen :: a <= highest < REJECT_AFTER_MESSAGES
    requires counter < highest && counter !in seen
    ensures Fresh(seen, counter) <==> highest - counter <= 8160
  {}

  /** Counter 0 after counter 8161 alone: one of the last 8192 packets, and refused. */
  lemma LastPacketsRefused() returns (seen: set<uint64>, counter: uint64)
    ensures seen == Record({}, 8161) == {8161} && counter == 0 && counter !in seen && 8161 - counter < 8192
    ensures !Fresh(seen, counter) && Fresh(seen, 1)
  {
    seen, counter := {8161}, 0;
    assert Fresh({}, 8161);
    assert 8161 in seen;
  }

  /** The limit: 2^64 - 2^13 - 1 is the first counter that is refused whatever was accepted. */
  lemma LimitRefused(counter: uint64)
    ensures Fresh({}, counter) <==> counter < 0x1_0000_0000_0000_0000 - 0x2000 - 1
  {}

  /** Bit b of ring word w, where words are numbered without wrap-around. */
  predicate RingBit(bitmap: seq<uint32>, w: nat, b: nat)
    requires |bitmap| == WORDS
  {
    Bit(bitmap[w % WORDS], b)
  }

  /** Word numbers the ring holds when the largest accepted position is `highest`. */
  predicate LiveWord(highest: nat, w: nat) {
    highest / WORD_BITS - (WORDS - 1) <= w <= highest / WORD_BITS
  }

  /** Every bit of every live word is membership in `seen`; counter n sits at position n + 1. */
  ghost predicate LiveBits(bitmap: seq<uint32>, highest: nat, seen: set<uint64>) {
    && |bitmap| == WORDS
    && forall w: nat, b: nat | LiveWord(highest, w) && b < WORD_BITS ::
         RingBit(bitmap, w, b) <==> WORD_BITS * w + b - 1 in seen
  }

  /** `highest` is one more than the largest accepted counter, or 0. */
  ghost predicate HighestOf(highest: uint64, seen: set<uint64>) {
    && highest <= REJECT_AFTER_MESSAGES
    && (forall a <- seen :: a < highest)
    && (highest != 0 ==> highest - 1 in seen)
  }

  lemma SmallMasks(x: nat)
    ensures And(x, 255) == x % 256
    ensures And(x, 31) == x % 32
  {
    assert Pow2(3) == 8 && Pow2(5) == 32 && Pow2(8) == 256;
    AndMask(x, 8);
    AndMask(x, 5);
  }

  /** The words from `current` + 1 up to `index` are zero and the others the ring still needs
      are those of `before`. */
  ghost predicate Advanced(bitmap: seq<uint32>, before: seq<uint32>, current: nat, index: nat)
    requires |bitmap| == |before| == WORDS
  {
    forall w: nat | index - WORDS < w <= index ::
      bitmap[w % WORDS] == if w <= current then before[w % WORDS] else 0
  }

  lemma ClearNext(bitmap: seq<uint32>, before: seq<uint32>, current: nat, index: nat)
    requires |bitmap| == |before| == WORDS && current <= index
    requires Advanced(bitmap, before, current, index)
    ensures Advanced(bitmap[(index + 1) % WORDS := 0], before, current, index + 1)
  {
    var after := bitmap[(index + 1) % WORDS := 0];
    forall w: nat | index + 1 - WORDS < w <= index + 1
      ensures after[w % WORDS] == if w <= current then before[w % WORDS] else 0
    {
      if w <= index {
        assert w % WORDS != (index + 1) % WORDS;
        assert bitmap[w % WORDS] == if w <= current then before[w % WORDS] else 0;
      }
    }
  }

  /** A jump over the whole ring clears all of it, so the clipped count is enough. */
  lemma ClearedAll(bitmap: seq<uint32>, before: seq<uint32>, current: nat, index: nat)
    requires |bitmap| == |before| == WORDS && current + WORDS <= index
    requires Advanced(bitmap, before, current, current + WORDS)
    ensures Advanced(bitmap, before, current, index)
  {
    forall w: nat | index - WORDS < w <= index
      ensures bitmap[w % WORDS] == 0
    {
      var twin := current + 1 + (w - current - 1) % WORDS;
      assert twin % WORDS == w % WORDS;
    }
  }

  /** Lazy clearing loses nothing that is still in the window and leaves no stale bit. */
  lemma AdvanceKeepsBits(bitmap: seq<uint32>, before: seq<uint32>, from: nat, to: nat, seen: set<uint64>)
    requires LiveBits(before, from, seen) && (forall a <- seen :: a < from)
    requires from < to && |bitmap| == WORDS
    requires Advanced(bitmap, before, from / WORD_BITS, to / WORD_BITS)
    ensures LiveBits(bitmap, to, seen)
  {
    forall w: nat, b: nat | LiveWord(to, w) && b < WORD_BITS
      ensures RingBit(bitmap, w, b) <==> WORD_BITS * w + b - 1 in seen
    {
      if w <= from / WORD_BITS {
        assert LiveWord(from, w);
        assert RingBit(before, w, b) == RingBit(bitmap, w, b);
      } else {
        BitZero(b);
      }
    }
  }

  /** Setting the bit of a live position adds exactly that counter. */
  lemma SetAddsCounter(bitmap: seq<uint32>, highest: nat, seen: set<uint64>, position: uint64, word: uint32)
    requires LiveBits(bitmap, highest, seen)
    requires position >= 1 && LiveWord(highest, position / WORD_BITS)
    requires word == Or(bitmap[position / WORD_BITS % WORDS], Pow2(position % WORD_BITS))
    ensures LiveBits(bitmap[position / WORD_BITS % WORDS := word], highest, seen + {position - 1})
  {
    var index := position / WORD_BITS;
    var after := bitmap[index % WORDS := word];
    forall w: nat, b: nat | LiveWord(highest, w) && b < WORD_BITS
      ensures RingBit(after, w, b) <==> WORD_BITS * w + b - 1 in seen + {position - 1}
    {
      assert RingBit(bitmap, w, b) <==> WORD_BITS * w + b - 1 in seen;
      if w == index {
        SetBit(bitmap[index % WORDS], position % WORD_BITS, b);
      } else {
        assert w % WORDS != index % WORDS;
      }
    }
  }

  lemma WordBits(k: nat)
    requires k < WORD_BITS
    ensures Pow2(k) < U32 && Pow2(WORD_BITS) == U32
  {
    assert Pow2(8) == 256;
    assert Pow2(16) == 256 * 256;
    assert Pow2(24) == 256 * 256 * 256;
    Pow2Increasing(k, 32);
  }

  /** The parts of a session's keypair that the data path uses. */
  class Keypair {
    const key: nat            // names the session keys both ends derived
    const localIndex: uint32
    const remoteIndex: uint32
    var sendingValid: bool
    var receivingValid: bool
    var sendingCounter: uint64
    const replayBitmap: array<uint32>
    var replayCounter: uint64
    ghost var seen: set<uint64>

    ghost predicate Valid()
      reads `replayCounter, `seen, replayBitmap
    {
      && HighestOf(replayCounter, seen)
      && LiveBits(replayBitmap[..], replayCounter, seen)
    }

    /** A session just started. */
    constructor (key: nat, localIndex: uint32, remoteIndex: uint32)
      ensures Valid() && fresh(replayBitmap)
      ensures this.key == key && this.localIndex == localIndex && this.remoteIndex == remoteIndex
      ensures sendingValid && receivingValid && sendingCounter == 0
      ensures replayCounter == 0 && seen == {}
    {
      this.key, this.localIndex, this.remoteIndex := key, localIndex, remoteIndex;
      sendingValid, receivingValid, sendingCounter := true, true, 0;
      replayBitmap := new uint32[WORDS](_ => 0);
      replayCounter, seen := 0, {};
      new;
      forall b: nat ensures !Bit(0, b) { BitZero(b); }
    }

    method ClearWords(current: uint64, wordsToClear: uint64)
      requires replayBitmap.Length == WORDS && wordsToClear <= WORDS
      modifies replayBitmap
      ensures Advanced(replayBitmap[..], old(replayBitmap[..]), current, current + wordsToClear)
    {
      var word := 1;
      while word <= wordsToClear
        invariant 1 <= word <= wordsToClear + 1
        invariant Advanced(replayBitmap[..], old(replayBitmap[..]), current, current + word - 1)
      {
        SmallMasks(word + current);
        ghost var before := replayBitmap[..];
        ClearNext(before, old(replayBitmap[..]), current, current + word - 1);
        replayBitmap[And(word + current, WORDS - 1)] := 0;
        assert replayBitmap[..] == before[(current + word) % WORDS := 0];
        word := word + 1;
      }
    }

    /** Moves the window forward when `position` is beyond it. */
    method MoveTo(position: uint64)
      requires HighestOf(replayCounter, seen) && LiveBits(replayBitmap[..], replayCounter, seen)
      modifies this`replayCounter, replayBitmap
      ensures replayCounter == if position > old(replayCounter) then position else old(replayCounter)
      ensures LiveBits(replayBitmap[..], replayCounter, seen)
    {
      var index := position / WORD_BITS;
      if position > replayCounter {
        var currentIndex := replayCounter / WORD_BITS;
        var wordsToClear := Wrap64(index - currentIndex);
        if wordsToClear > WORDS {
          wordsToClear := WORDS;
        }
        ClearWords(currentIndex, wordsToClear);
        if index - currentIndex > WORDS {
          ClearedAll(replayBitmap[..], old(replayBitmap[..]), currentIndex, index);
        }
        AdvanceKeepsBits(replayBitmap[..], old(replayBitmap[..]), replayCounter, position, seen);
        replayCounter := position;
      }
    }

    /** Tests the bit of a position inside the window and sets it. */
    method TestAndSet(position: uint64) returns (ok: bool)
      requires LiveBits(replayBitmap[..], replayCounter, seen)
      requires position >= 1 && LiveWord(replayCounter, position / WORD_BITS)
      modifies this`seen, replayBitmap
      ensures ok <==> position - 1 !in old(seen)
      ensures seen == old(seen) + {position - 1}
      ensures LiveBits(replayBitmap[..], replayCounter, seen)
    {
      SmallMasks(position / WORD_BITS);
      SmallMasks(position);
      WordBits(position % WORD_BITS);
      var index := And(position / WORD_BITS, WORDS - 1);
      var bit := Pow2(And(position, WORD_BITS - 1));
      ghost var before := replayBitmap[..];
      TestBit(before[index], position % WORD_BITS);
      assert RingBit(before, position / WORD_BITS, position % WORD_BITS) <==> position - 1 in seen;
      if And(replayBitmap[index], bit) != 0 {
        assert seen == seen + {position - 1};
        return false;
      }
      OrBound(replayBitmap[index], bit, WORD_BITS);
      replayBitmap[index] := Or(replayBitmap[index], bit);
      assert replayBitmap[..] == before[index := replayBitmap[index]];
      SetAddsCounter(before, replayCounter, seen, position, replayBitmap[index]);
      seen := seen + {position - 1};
      return true;
    }

    method CheckReplay(counter: uint64) returns (ok: bool)
      requires Valid()
      modifies this`replayCounter, this`seen, replayBitmap
      ensures Valid()
      ensures ok <==> Fresh(old(seen), counter)
      ensures seen == Record(old(seen), counter)
    {
      if counter >= REJECT_AFTER_MESSAGES {
        return false;
      }
      var position := Wrap64(counter + 1);
      if Wrap64(WINDOW_SIZE + position) < replayCounter {
        assert replayCounter - 1 in seen;
        return false;
      }
      MoveTo(position);
      ok := TestAndSet(position);
    }
  }

  /** What the promise says about answer k of a call sequence. */
  ghost predicate Promised(counters: seq<uint64>, answers: seq<bool>, k: nat)
    requires k < |answers| <= |counters|
  {
    answers[k] <==> && counters[k] < REJECT_AFTER_MESSAGES
                    && forall j | 0 <= j < k && answers[j] ::
                         counters[j] != counters[k] && counters[j] - counters[k] <= WINDOW_SIZE
  }

  ghost function Accepted(counters: seq<uint64>, answers: seq<bool>): set<uint64>
    requires |answers| <= |counters|
  {
    set j | 0 <= j < |answers| && answers[j] :: counters[j]
  }

  lemma AnswerKeepsPromises(counters: seq<uint64>, answers: seq<bool>, ok: bool)
    requires |answers| < |counters|
    requires forall k | 0 <= k < |answers| :: Promised(counters, answers, k)
    requires ok <==> Fresh(Accepted(counters, answers), counters[|answers|])
    ensures forall k | 0 <= k <= |answers| :: Promised(counters, answers + [ok], k)
    ensures Accepted(counters, answers + [ok]) == Record(Accepted(counters, answers), counters[|answers|])
  {
    var seen, now, n := Accepted(counters, answers), answers + [ok], |answers|;
    assert forall j | 0 <= j < n && answers[j] :: counters[j] in seen;
    forall k | 0 <= k <= n ensures Promised(counters, now, k) {
      assert forall j | 0 <= j < k :: now[j] == answers[j];
      if k < n { assert Promised(counters, answers, k); }
    }
    forall a ensures a in Accepted(counters, now) <==> a in Record(seen, counters[n]) {
      if a in seen {
        var j :| 0 <= j < n && answers[j] && counters[j] == a;
        assert now[j];
      }
      if ok && a == counters[n] { assert now[n]; }
    }
  }

  /** Over every call sequence on a fresh keypair, the answers are those of the promise. */
  method CheckAll(counters: seq<uint64>) returns (answers: seq<bool>)
    ensures |answers| == |counters|
    ensures forall k | 0 <= k < |counters| :: Promised(counters, answers, k)
  {
    var keypair := new Keypair(0, 0, 0);
    answers := [];
    for i := 0 to |counters|
      invariant keypair.Valid() && fresh(keypair) && fresh(keypair.replayBitmap) && |answers| == i
      invariant keypair.seen == Accepted(counters, answers)
      invariant forall k | 0 <= k < i :: Promised(counters, answers, k)
    {
      var ok := keypair.CheckReplay(counters[i]);
      AnswerKeepsPromises(counters, answers, ok);
      answers := answers + [ok];
    }
  }
}
