/** The Internet checksum of RFC 1071, as the loops of ip_udp_packet.c compute it. */
module Checksum {
  import opened CTypes
  import opened BitOps
  import opened Sequences

  function ReadBe16(data: Bytes, at: nat): uint16
    requires at + 2 <= |data|
  {
    Join(data[at], data[at + 1])
  }

  /** The sum of the big-endian 16-bit words, an odd last byte being padded with zero. */
  function WordSum(data: Bytes): nat {
    if |data| == 0 then 0
    else if |data| == 1 then Join(data[0], 0)
    else ReadBe16(data, 0) + WordSum(data[2..])
  }

  /** A sum reduced to 16 bits by casting out 65535: 0 only for 0, otherwise 1..65535. */
  function Fold(sum: nat): uint16 {
    if sum <= 65535 then sum else Fold(sum - 65535)
  }

  function Complement(sum: nat): uint16 {
    65535 - Fold(sum)
  }

  lemma {:induction false} FoldIsRemainder(sum: nat)
    ensures Fold(sum) == if sum == 0 then 0 else (sum - 1) % 65535 + 1
  {
    if sum > 65535 { FoldIsRemainder(sum - 65535); }
  }

  lemma ComplementZero(sum: nat)
    ensures Complement(sum) == 0 <==> sum != 0 && sum % 65535 == 0
  {
    FoldIsRemainder(sum);
  }

  /** A stored UDP checksum of zero is replaced by its other representation. */
  function NonZero(checksum: uint16): uint16 {
    if checksum == 0 then 0xFFFF else checksum
  }

  /** Storing the complement of a sum into the summed data makes the new sum check to zero. */
  lemma ComplementCancels(sum: nat)
    ensures Complement(sum + Complement(sum)) == 0
  {
    FoldIsRemainder(sum);
    ComplementZero(sum + Complement(sum));
  }

  lemma NonZeroCancels(sum: nat, total: nat)
    requires sum != 0 && total == sum + NonZero(Complement(sum))
    ensures Complement(total) == 0
  {
    ComplementCancels(sum);
    ComplementZero(sum);
    ComplementZero(total);
  }

  lemma {:induction false} WordSumBound(data: Bytes)
    ensures WordSum(data) <= 65535 * ((|data| + 1) / 2)
  {
    if |data| >= 2 { WordSumBound(data[2..]); }
  }

  lemma {:induction false} WordSumConcat(a: Bytes, b: Bytes)
    requires |a| % 2 == 0
    ensures WordSum(a + b) == WordSum(a) + WordSum(b)
  {
    if a == [] {
      assert a + b == b;
    } else {
      assert (a + b)[2..] == a[2..] + b;
      WordSumConcat(a[2..], b);
    }
  }

  lemma SumOfFour(data: Bytes)
    requires |data| == 4
    ensures WordSum(data) == ReadBe16(data, 0) + ReadBe16(data, 2)
  {
    var rest := data[2..];
    assert WordSum(rest) == ReadBe16(rest, 0) + WordSum(rest[2..]);
  }

  /** How much a byte at offset i weighs in the sum. */
  function Weight(i: nat): nat {
    if i % 2 == 0 then 256 else 1
  }

  lemma {:induction false} WordSumUpdate(data: Bytes, i: nat, v: uint8)
    requires i < |data|
    ensures WordSum(data[i := v]) == WordSum(data) + (v - data[i]) * Weight(i)
  {
    if i >= 2 {
      assert data[i := v][2..] == data[2..][i - 2 := v];
      WordSumUpdate(data[2..], i - 2, v);
    } else if |data| >= 2 {
      assert data[i := v][2..] == data[2..];
    }
  }

  /** A one-byte change never keeps a sum congruent to zero. */
  lemma ChangeBreaksSum(data: Bytes, i: nat, v: uint8, rest: nat)
    requires i < |data| && v != data[i]
    requires (WordSum(data) + rest) % 65535 == 0
    ensures (WordSum(data[i := v]) + rest) % 65535 != 0
  {
    WordSumUpdate(data, i, v);
    var delta := (v - data[i]) * Weight(i);
    assert delta != 0 && -65535 < delta < 65535;
  }

  lemma NextWord(sum: int, data: Bytes)
    requires |data| >= 2 && sum >= 0
    ensures Wrap32(Wrap32(sum + ReadBe16(data, 0)) + WordSum(data[2..])) == Wrap32(sum + WordSum(data))
  {
    WrapAdd(sum + ReadBe16(data, 0), WordSum(data[2..]));
  }

  /** checksum_add: adds the words of `size` bytes from `from`, in 32-bit arithmetic. */
  method ChecksumAdd(sum: uint32, data: array<uint8>, from: nat, size: nat) returns (r: uint32)
    requires from + size <= data.Length
    ensures r == Wrap32(sum + WordSum(data[from..from + size]))
  {
    r := sum;
    var at, left := from, size;
    ghost var rest := data[from..from + size];
    ghost var total := Wrap32(sum + WordSum(rest));
    while left >= 2
      invariant from <= at && at + left == from + size && rest == data[at..at + left]
      invariant Wrap32(r + WordSum(rest)) == total
    {
      var word := Join(data[at], data[at + 1]);
      assert word == ReadBe16(rest, 0);
      NextWord(r, rest);
      r := Wrap32(r + word);
      rest := rest[2..];
      at, left := at + 2, left - 2;
    }
    if left != 0 {
      assert WordSum(rest) == Join(data[at], 0);
      r := Wrap32(r + Join(data[at], 0));
    }
  }

  lemma FoldStep(sum: nat)
    requires sum / 65536 != 0
    ensures Fold(sum % 65536 + sum / 65536) == Fold(sum)
    ensures sum % 65536 + sum / 65536 < sum
  {
    var q, r := sum / 65536, sum % 65536;
    assert sum == 65536 * q + r;
    var m := (q + r - 1) / 65535;
    FoldIsRemainder(sum);
    FoldIsRemainder(q + r);
    assert q + r - 1 == 65535 * m + (q + r - 1) % 65535;
    DivModUnique(sum - 1, 65535, q + m, (q + r - 1) % 65535);
  }

  /** checksum_finish: folds the carries until none is left and complements. */
  method ChecksumFinish(sum: uint32) returns (r: uint16)
    ensures r == Complement(sum)
  {
    var s := sum;
    while s / 65536 != 0
      invariant 0 <= s <= sum && Fold(s) == Fold(sum)
      decreases s
    {
      FoldStep(s);
      s := s % 65536 + s / 65536;
    }
    r := Wrap32(U32 - 1 - s) % U16;
  }

  function AddPieces(sum: uint32, pieces: seq<Bytes>): uint32 {
    if pieces == [] then sum else Wrap32(AddPieces(sum, Front(pieces)) + WordSum(Last(pieces)))
  }

  lemma {:induction false} EvenPieces(pieces: seq<Bytes>)
    requires forall k | 0 <= k < |pieces| :: |pieces[k]| % 2 == 0
    ensures |Concat(pieces)| % 2 == 0
  {
    if pieces != [] { EvenPieces(Front(pieces)); }
  }

  /** Adding piece after piece, all but the last of even length, is one pass over the whole. */
  lemma {:induction false} PiecewiseIsOnePass(sum: uint32, pieces: seq<Bytes>)
    requires forall k | 0 <= k < |pieces| - 1 :: |pieces[k]| % 2 == 0
    ensures AddPieces(sum, pieces) == Wrap32(sum + WordSum(Concat(pieces)))
  {
    if pieces != [] {
      var before := Front(pieces);
      PiecewiseIsOnePass(sum, before);
      EvenPieces(before);
      WordSumConcat(Concat(before), Last(pieces));
      WrapAdd(sum + WordSum(Concat(before)), WordSum(Last(pieces)));
    }
  }
}
