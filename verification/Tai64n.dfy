/** The 12-byte big-endian timestamp label of a handshake initiation. */
module Tai64n {
  import opened CTypes

  const SECONDS_BYTES: nat := 8
  const NANOS_BYTES: nat := 4
  const TAI64_BASE := 0x4000_0000_0000_000A

  function Pow256(width: nat): nat {
    if width == 0 then 1 else 256 * Pow256(width - 1)
  }

  /** The low `width` bytes of n, most significant first. */
  function Big(width: nat, n: nat): (b: Bytes)
    ensures |b| == width
  {
    if width == 0 then [] else Big(width - 1, n / 256) + [n % 256]
  }

  ghost predicate LessAt(a: Bytes, b: Bytes, k: nat) {
    k < |a| && k < |b| && a[..k] == b[..k] && a[k] < b[k]
  }

  /** Lexicographic order, as memcmp compares two labels. */
  ghost predicate Before(a: Bytes, b: Bytes) {
    exists k: nat :: LessAt(a, b, k)
  }

  lemma {:induction false} BigOrdered(width: nat, m: nat, n: nat)
    requires m < n < Pow256(width)
    ensures Before(Big(width, m), Big(width, n))
  {
    var a, b := Big(width, m), Big(width, n);
    if m / 256 < n / 256 {
      BigOrdered(width - 1, m / 256, n / 256);
      var k: nat :| LessAt(Big(width - 1, m / 256), Big(width - 1, n / 256), k);
      assert a[..width - 1] == Big(width - 1, m / 256) && b[..width - 1] == Big(width - 1, n / 256);
      assert a[..k] == a[..width - 1][..k] && b[..k] == b[..width - 1][..k];
      assert LessAt(a, b, k);
    } else {
      assert LessAt(a, b, width - 1);
    }
  }

  lemma BeforeExtends(a: Bytes, b: Bytes, x: Bytes, y: Bytes)
    requires Before(a, b)
    ensures Before(a + x, b + y)
  {
    var k: nat :| LessAt(a, b, k);
    assert (a + x)[..k] == a[..k] && (b + y)[..k] == b[..k];
    assert LessAt(a + x, b + y, k);
  }

  lemma BeforePrefixed(a: Bytes, x: Bytes, y: Bytes)
    requires Before(x, y)
    ensures Before(a + x, a + y)
  {
    var k: nat :| LessAt(x, y, k);
    assert (a + x)[..|a| + k] == a + x[..k] && (a + y)[..|a| + k] == a + y[..k];
    assert LessAt(a + x, a + y, |a| + k);
  }

  lemma StrictAt(a: Bytes, b: Bytes, k: nat, j: nat)
    requires LessAt(a, b, k)
    ensures !LessAt(b, a, j)
  {
    if k < j < |a| && j < |b| {
      assert a[..j][k] == a[k] && b[..j][k] == b[k];
    } else if j < k {
      assert a[..k][j] == a[j] && b[..k][j] == b[j];
    }
  }

  lemma BeforeIsStrict(a: Bytes, b: Bytes)
    requires Before(a, b)
    ensures a != b && !Before(b, a)
  {
    var k: nat :| LessAt(a, b, k);
    forall j: nat ensures !LessAt(b, a, j) { StrictAt(a, b, k, j); }
  }

  function SecondsField(seconds: nat): uint64 {
    Wrap64(TAI64_BASE + seconds)
  }

  function NanosField(processTime: uint64): uint32 {
    Wrap32(processTime % 1_000_000 * 1000)
  }

  /** The label for a wall-clock second and a process time in microseconds. */
  function Label(seconds: nat, processTime: uint64): (b: Bytes)
    ensures |b| == 12
  {
    Big(SECONDS_BYTES, SecondsField(seconds)) + Big(NANOS_BYTES, NanosField(processTime))
  }

  lemma FieldsOrdered(s: nat, p: uint64, t: nat, q: uint64)
    requires s < U64 - TAI64_BASE && t < U64 - TAI64_BASE
    ensures SecondsField(s) < SecondsField(t) <==> s < t
    ensures SecondsField(s) == SecondsField(t) <==> s == t
    ensures NanosField(p) < NanosField(q) <==> p % 1_000_000 < q % 1_000_000
  {}

  lemma Capacities()
    ensures Pow256(SECONDS_BYTES) == U64 && Pow256(NANOS_BYTES) == U32
  {
    assert Pow256(2) == 65536;
  }

  lemma PairBefore(v: nat, w: nat, a: nat, x: nat, b: nat, y: nat)
    requires a < Pow256(v) && b < Pow256(v) && x < Pow256(w) && y < Pow256(w)
    requires a < b || (a == b && x < y)
    ensures Before(Big(v, a) + Big(w, x), Big(v, b) + Big(w, y))
  {
    if a < b {
      BigOrdered(v, a, b);
      BeforeExtends(Big(v, a), Big(v, b), Big(w, x), Big(w, y));
    } else {
      BigOrdered(w, x, y);
      BeforePrefixed(Big(v, a), Big(w, x), Big(w, y));
    }
  }

  lemma PairOrder(v: nat, w: nat, a: nat, x: nat, b: nat, y: nat)
    requires a < Pow256(v) && b < Pow256(v) && x < Pow256(w) && y < Pow256(w)
    ensures Before(Big(v, a) + Big(w, x), Big(v, b) + Big(w, y)) <==> a < b || (a == b && x < y)
  {
    var m, n := Big(v, a) + Big(w, x), Big(v, b) + Big(w, y);
    if a < b || (a == b && x < y) {
      PairBefore(v, w, a, x, b, y);
    } else {
      if (a, x) != (b, y) { PairBefore(v, w, b, y, a, x); }
      if Before(m, n) { BeforeIsStrict(m, n); }
    }
  }

  /** Labels are ordered by second, then by the process time within its own second. */
  lemma LabelOrder(s: nat, p: uint64, t: nat, q: uint64)
    requires s < U64 - TAI64_BASE && t < U64 - TAI64_BASE
    ensures Before(Label(s, p), Label(t, q)) <==> s < t || (s == t && p % 1_000_000 < q % 1_000_000)
  {
    Capacities();
    FieldsOrdered(s, p, t, q);
    PairOrder(SECONDS_BYTES, NANOS_BYTES, SecondsField(s), NanosField(p), SecondsField(t), NanosField(q));
  }

  /** The number big-endian bytes stand for. */
  function ValueOf(b: Bytes): nat {
    if b == [] then 0 else 256 * ValueOf(b[..|b| - 1]) + b[|b| - 1]
  }

  lemma {:induction false} BigHasValue(width: nat, n: nat)
    requires n < Pow256(width)
    ensures ValueOf(Big(width, n)) == n
  {
    if width > 0 {
      BigHasValue(width - 1, n / 256);
      assert Big(width, n)[..width - 1] == Big(width - 1, n / 256);
    }
  }

  /** The first eight bytes are the TAI64 second, 2^62 + 10 later than the clock's, and the last four the
      nanoseconds of the process time within its second. */
  lemma LabelFields(seconds: nat, processTime: uint64)
    requires seconds < U64 - TAI64_BASE
    ensures ValueOf(Label(seconds, processTime)[..8]) == 0x4000_0000_0000_0000 + 10 + seconds
    ensures ValueOf(Label(seconds, processTime)[8..]) == processTime % 1_000_000 * 1000
  {
    Capacities();
    BigHasValue(SECONDS_BYTES, SecondsField(seconds));
    BigHasValue(NANOS_BYTES, NanosField(processTime));
    assert Label(seconds, processTime)[..8] == Big(SECONDS_BYTES, SecondsField(seconds));
    assert Label(seconds, processTime)[8..] == Big(NANOS_BYTES, NanosField(processTime));
  }

  /** The clock alone is not monotone: its two halves roll over at different moments. */
  lemma LaterLabelCanBeSmaller(second: nat)
    requires second < U64 - TAI64_BASE
    ensures Before(Label(second, 1_000_000), Label(second, 999_999))
  {
    LabelOrder(second, 1_000_000, second, 999_999);
  }

  lemma NextByte(width: nat, value: nat, k: nat, rest: nat, after: Bytes)
    requires k > 0 && Big(width, value) == Big(k, rest) + after
    ensures Big(width, value) == Big(k - 1, rest / 256) + ([rest % 256] + after)
  {
    assert Big(k, rest) + after == Big(k - 1, rest / 256) + ([rest % 256] + after);
  }

  /** Stores an unsigned value most significant byte first. */
  method StoreBig(output: array<uint8>, at: nat, width: nat, value: nat)
    requires at + width <= output.Length
    modifies output
    ensures output[..] == old(output[..at]) + Big(width, value) + old(output[at + width..])
  {
    var k, rest := width, value;
    assert output[..] == old(output[..at]) + output[at..at + width] + old(output[at + width..]);
    while k > 0
      invariant 0 <= k <= width
      invariant output[..at] == old(output[..at]) && output[at + width..] == old(output[at + width..])
      invariant Big(width, value) == Big(k, rest) + output[at + k..at + width]
    {
      ghost var after := output[at + k..at + width];
      NextByte(width, value, k, rest, after);
      k := k - 1;
      output[at + k] := rest % 256;
      assert output[at + k..at + width] == [rest % 256] + after;
      rest := rest / 256;
    }
    assert output[..] == output[..at] + output[at..at + width] + output[at + width..];
  }

  /** wireguard_tai64n_now, given what the two clocks answer. */
  method Tai64nNow(output: array<uint8>, time: nat, processTime: uint64)
    requires output.Length >= 12
    modifies output
    ensures output[..12] == Label(time, processTime) && output[12..] == old(output[12..])
  {
    ghost var tail := output[12..];
    StoreBig(output, 0, SECONDS_BYTES, SecondsField(time));
    assert output[12..] == tail && output[..8] == Big(SECONDS_BYTES, SecondsField(time));
    ghost var seconds := output[..8];
    StoreBig(output, 8, NANOS_BYTES, NanosField(processTime));
    assert output[..12] == seconds + Big(NANOS_BYTES, NanosField(processTime));
  }
}
