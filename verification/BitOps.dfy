/** Bitwise AND, OR and shifts of unsigned words, defined binary digit by binary digit. */
module BitOps {

  function Pow2(k: nat): (p: nat)
    ensures p >= 1
  {
    if k == 0 then 1 else 2 * Pow2(k - 1)
  }

  /** Binary digit k of w. */
  predicate Bit(w: nat, k: nat) {
    if k == 0 then w % 2 == 1 else Bit(w / 2, k - 1)
  }

  function And(a: nat, b: nat): nat {
    if a == 0 then 0
    else (if a % 2 == 1 && b % 2 == 1 then 1 else 0) + 2 * And(a / 2, b / 2)
  }

  function Or(a: nat, b: nat): nat
    decreases a + b
  {
    if a == 0 then b else if b == 0 then a
    else (if a % 2 == 1 || b % 2 == 1 then 1 else 0) + 2 * Or(a / 2, b / 2)
  }

  /** The left shift of an unsigned word of `width` bits. */
  function Shl(w: nat, d: nat, width: nat): (r: nat)
    ensures r < Pow2(width)
    decreases d
  {
    if d == 0 then w % Pow2(width) else Shl(2 * w, d - 1, width)
  }

  lemma {:induction false} BitZero(k: nat)
    ensures !Bit(0, k)
  {
    if k > 0 { BitZero(k - 1); }
  }

  lemma {:induction false} AndHalves(a: nat, b: nat)
    ensures And(a, b) / 2 == And(a / 2, b / 2)
  {}

  lemma OrHalves(a: nat, b: nat)
    requires a != 0 && b != 0
    ensures Or(a, b) / 2 == Or(a / 2, b / 2)
  {}

  lemma {:induction false} AndBit(a: nat, b: nat, k: nat)
    ensures Bit(And(a, b), k) <==> Bit(a, k) && Bit(b, k)
  {
    if a == 0 {
      BitZero(k);
    } else if k > 0 {
      AndHalves(a, b);
      AndBit(a / 2, b / 2, k - 1);
    }
  }

  lemma {:induction false} OrBit(a: nat, b: nat, k: nat)
    ensures Bit(Or(a, b), k) <==> Bit(a, k) || Bit(b, k)
    decreases k
  {
    if a == 0 || b == 0 {
      BitZero(k);
    } else if k > 0 {
      OrHalves(a, b);
      OrBit(a / 2, b / 2, k - 1);
    }
  }

  lemma {:induction false} Pow2Bit(k: nat, j: nat)
    ensures Bit(Pow2(k), j) <==> j == k
  {
    if k == 0 {
      if j > 0 { BitZero(j - 1); }
    } else if j > 0 {
      Pow2Bit(k - 1, j - 1);
    }
  }

  lemma {:induction false} NonzeroHasBit(w: nat) returns (k: nat)
    requires w != 0
    ensures Bit(w, k)
  {
    if w % 2 == 1 {
      k := 0;
    } else {
      k := NonzeroHasBit(w / 2);
      k := k + 1;
    }
  }

  /** Testing a word against a one-bit mask reads that bit. */
  lemma TestBit(w: nat, k: nat)
    ensures And(w, Pow2(k)) != 0 <==> Bit(w, k)
  {
    if And(w, Pow2(k)) != 0 {
      var j := NonzeroHasBit(And(w, Pow2(k)));
      AndBit(w, Pow2(k), j);
      Pow2Bit(k, j);
    } else {
      BitZero(k);
      AndBit(w, Pow2(k), k);
      Pow2Bit(k, k);
    }
  }

  /** ORing in a one-bit mask sets that bit and no other. */
  lemma SetBit(w: nat, k: nat, j: nat)
    ensures Bit(Or(w, Pow2(k)), j) <==> Bit(w, j) || j == k
  {
    OrBit(w, Pow2(k), j);
    Pow2Bit(k, j);
  }

  lemma {:induction false} OrBound(a: nat, b: nat, width: nat)
    requires a < Pow2(width) && b < Pow2(width)
    ensures Or(a, b) < Pow2(width)
  {
    if a != 0 && b != 0 {
      OrBound(a / 2, b / 2, width - 1);
    }
  }

  lemma {:induction false} Pow2Increasing(j: nat, k: nat)
    requires j < k
    ensures Pow2(j) < Pow2(k)
  {
    if j > 0 { Pow2Increasing(j - 1, k - 1); }
    else if k > 1 { Pow2Increasing(0, k - 1); }
  }

  lemma {:induction false} AndZero(x: nat)
    ensures And(x, 0) == 0
  {
    if x != 0 { AndZero(x / 2); }
  }

  lemma TimesAtLeast(d: int, k: int)
    requires d > 0
    ensures k >= 1 ==> d * k >= d
    ensures k <= -1 ==> d * k <= -d
  {
    if k >= 1 {
      assert d * k >= d * 1;
    } else if k <= -1 {
      assert d * k <= d * -1;
    }
  }

  lemma DivModUnique(x: int, d: int, q: int, r: int)
    requires 0 <= r < d && x == d * q + r
    ensures x / d == q && x % d == r
  {
    var m := x / d;
    var k := m - q;
    assert d * m + x % d == x;
    assert d * k == d * m - d * q;
    assert -d < d * k < d;
    TimesAtLeast(d, k);
  }

  lemma ModTwice(x: nat, p: nat)
    requires p >= 1
    ensures x % (2 * p) == x % 2 + 2 * (x / 2 % p)
  {
    var q, r := x / 2 / p, x / 2 % p;
    assert x / 2 == p * q + r;
    assert x == 2 * p * q + (x % 2 + 2 * r);
    DivModUnique(x, 2 * p, q, x % 2 + 2 * r);
  }

  /** Masking with 2^k - 1 is the remainder modulo 2^k. */
  lemma {:induction false} AndMask(x: nat, k: nat)
    ensures And(x, Pow2(k) - 1) == x % Pow2(k)
  {
    if k == 0 {
      AndZero(x);
    } else if x != 0 {
      var p := Pow2(k - 1);
      var half := And(x / 2, p - 1);
      AndMask(x / 2, k - 1);
      assert half == x / 2 % p;
      assert And(x, 2 * p - 1) == x % 2 + 2 * half by {
        assert (2 * p - 1) / 2 == p - 1 && (2 * p - 1) % 2 == 1;
      }
      ModTwice(x, p);
    }
  }

  lemma {:induction false} AndSelf(x: nat)
    ensures And(x, x) == x
  {
    if x != 0 { AndSelf(x / 2); }
  }

  lemma {:induction false} OnesBit(width: nat, j: nat)
    requires j < width
    ensures Bit(Pow2(width) - 1, j)
  {
    if j > 0 {
      assert (Pow2(width) - 1) / 2 == Pow2(width - 1) - 1;
      OnesBit(width - 1, j - 1);
    }
  }

  lemma ModBit(x: nat, width: nat, j: nat)
    requires j < width
    ensures Bit(x % Pow2(width), j) <==> Bit(x, j)
  {
    AndMask(x, width);
    AndBit(x, Pow2(width) - 1, j);
    OnesBit(width, j);
  }

  /** Shifting a word left moves each bit up and drops those that leave the word. */
  lemma {:induction false} ShlBit(w: nat, d: nat, width: nat, j: nat)
    requires j < width
    ensures Bit(Shl(w, d, width), j) <==> d <= j && Bit(w, j - d)
    decreases d
  {
    if d == 0 {
      ModBit(w, width, j);
    } else {
      ShlBit(2 * w, d - 1, width, j);
      assert 2 * w / 2 == w;
    }
  }
}
