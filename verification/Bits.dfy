/**
 Bitwise "and", shifts and low bits of natural numbers, and the power-of-two helpers of the
 cache header. Everything recurses on one bit at a time; `ShrIsDiv` ties it to division.
 */
module Bits {

  const TWO_32: nat := 0x1_0000_0000

  function Pow2(k: nat): (p: nat)
    ensures p >= 1
  {
    if k == 0 then 1 else 2 * Pow2(k - 1)
  }

  /** Bit by bit: bit i of the result is set when bit i of both arguments is. */
  function BitAnd(a: nat, b: nat): nat
    decreases a
  {
    if a == 0 || b == 0 then 0
    else 2 * BitAnd(a / 2, b / 2) + (if a % 2 == 1 && b % 2 == 1 then 1 else 0)
  }

  /** `a >> k` */
  function Shr(a: nat, k: nat): nat
    decreases k
  {
    if k == 0 then a else Shr(a / 2, k - 1)
  }

  /** `a << k` */
  function Shl(a: nat, k: nat): nat {
    if k == 0 then a else 2 * Shl(a, k - 1)
  }

  /** The k low bits of a. */
  function Low(a: nat, k: nat): (r: nat)
    ensures r < Pow2(k)
    decreases k
  {
    if k == 0 then 0 else 2 * Low(a / 2, k - 1) + a % 2
  }

  // ----- Shifts and division -----

  lemma MulLe(d: nat, x: nat, y: nat)
    requires x <= y
    ensures d * x <= d * y
  {
  }

  lemma QuotientUnique(d: nat, q: nat, r: nat, q': nat, r': nat)
    requires d * q + r == d * q' + r' && r < d && r' < d
    ensures q == q' && r == r'
  {
    assert d * (q + 1) == d * q + d && d * (q' + 1) == d * q' + d;
    if q < q' {
      MulLe(d, q + 1, q');
    } else if q' < q {
      MulLe(d, q' + 1, q);
    }
  }

  lemma DivUnique(a: nat, d: nat, q: nat, r: nat)
    requires d > 0 && a == d * q + r && r < d
    ensures a / d == q && a % d == r
  {
    QuotientUnique(d, a / d, a % d, q, r);
  }

  lemma {:induction false} ShrLow(a: nat, k: nat)
    ensures a == Pow2(k) * Shr(a, k) + Low(a, k)
    decreases k
  {
    if k > 0 {
      ShrLow(a / 2, k - 1);
      DoubleProduct(Pow2(k - 1), Shr(a / 2, k - 1));
    }
  }

  lemma DoubleProduct(p: nat, x: nat)
    ensures 2 * (p * x) == (2 * p) * x
  {
  }

  /** Shifting right by k divides by 2^k; the k low bits are the remainder. */
  lemma ShrIsDiv(a: nat, k: nat)
    ensures Shr(a, k) == a / Pow2(k) && Low(a, k) == a % Pow2(k)
  {
    ShrLow(a, k);
    DivUnique(a, Pow2(k), Shr(a, k), Low(a, k));
  }

  lemma {:induction false} ShlIsMul(a: nat, k: nat)
    ensures Shl(a, k) == Pow2(k) * a
    decreases k
  {
    if k > 0 {
      ShlIsMul(a, k - 1);
      DoubleProduct(Pow2(k - 1), a);
    }
  }

  lemma {:induction false} ShlSucc(x: nat, k: nat)
    ensures Shl(x + 1, k) == Shl(x, k) + Pow2(k)
    decreases k
  {
    if k > 0 {
      ShlSucc(x, k - 1);
    }
  }

  lemma {:induction false} ShlMonotone(x: nat, y: nat, k: nat)
    ensures x < y <==> Shl(x, k) < Shl(y, k)
    decreases k
  {
    if k > 0 {
      ShlMonotone(x, y, k - 1);
    }
  }

  /** a >> k is the x whose block of 2^k numbers contains a. */
  lemma {:induction false} ShrBlock(a: nat, x: nat, k: nat)
    ensures Shr(a, k) == x <==> Shl(x, k) <= a < Shl(x, k) + Pow2(k)
    decreases k
  {
    if k > 0 {
      ShrBlock(a / 2, x, k - 1);
    }
  }

  lemma {:induction false} ShrMonotone(a: nat, b: nat, k: nat)
    requires a <= b
    ensures Shr(a, k) <= Shr(b, k)
    decreases k
  {
    if k > 0 {
      ShrMonotone(a / 2, b / 2, k - 1);
    }
  }

  lemma {:induction false} ShrShr(a: nat, j: nat, k: nat)
    ensures Shr(Shr(a, j), k) == Shr(a, j + k)
    decreases j
  {
    if j > 0 {
      ShrShr(a / 2, j - 1, k);
    }
  }

  /** a has at most j + k bits exactly when a >> j has at most k. */
  lemma {:induction false} ShrBound(a: nat, j: nat, k: nat)
    ensures a < Pow2(j + k) <==> Shr(a, j) < Pow2(k)
    decreases j
  {
    if j > 0 {
      ShrBound(a / 2, j - 1, k);
    }
  }

  lemma {:induction false} Pow2Monotone(j: nat, k: nat)
    requires j <= k
    ensures Pow2(j) <= Pow2(k)
    decreases k
  {
    if j < k {
      Pow2Monotone(j, k - 1);
    }
  }

  lemma {:induction false} Pow2Shl(j: nat, k: nat)
    ensures Pow2(j + k) == Shl(Pow2(j), k)
    decreases k
  {
    if k > 0 {
      Pow2Shl(j, k - 1);
    }
  }

  lemma Pow2Values()
    ensures Pow2(1) == 2 && Pow2(2) == 4 && Pow2(4) == 0x10 && Pow2(8) == 0x100
    ensures Pow2(16) == 0x1_0000 && Pow2(32) == TWO_32 && Pow2(64) == 0x1_0000_0000_0000_0000
  {
    assert Pow2(1) == 2 && Pow2(2) == 4;
    assert Pow2(4) == 0x10;
    assert Pow2(6) == 0x40;
    assert Pow2(8) == 0x100;
    Pow2Shl(8, 8);
    ShlIsMul(Pow2(8), 8);
    Pow2Shl(16, 16);
    ShlIsMul(Pow2(16), 16);
    Pow2Shl(32, 32);
    ShlIsMul(Pow2(32), 32);
  }

  // ----- Masks -----

  /** Masking with 2^k - 1 keeps the k low bits. */
  lemma {:induction false} AndLowMask(a: nat, k: nat)
    ensures BitAnd(a, Pow2(k) - 1) == Low(a, k)
    decreases k
  {
    if k > 0 {
      assert (Pow2(k) - 1) / 2 == Pow2(k - 1) - 1 && (Pow2(k) - 1) % 2 == 1;
      AndLowMask(a / 2, k - 1);
    }
  }

  /** A mask shifted left by k sees the bits from k upwards. */
  lemma {:induction false} AndShiftedMask(a: nat, m: nat, k: nat)
    ensures BitAnd(a, Shl(m, k)) == Shl(BitAnd(Shr(a, k), m), k)
    decreases k
  {
    if k > 0 {
      AndShiftedMask(a / 2, m, k - 1);
      assert Shl(m, k) / 2 == Shl(m, k - 1);
    }
  }

  /** A band of j ones above k zeros selects bits k .. k+j-1. */
  lemma AndBand(a: nat, j: nat, k: nat)
    ensures BitAnd(a, Shl(Pow2(j) - 1, k)) == Shl(Low(Shr(a, k), j), k)
  {
    AndLowMask(Shr(a, k), j);
    AndBandFrom(a, Pow2(j) - 1, k, Low(Shr(a, k), j));
  }

  lemma AndBandFrom(a: nat, m: nat, k: nat, low: nat)
    requires BitAnd(Shr(a, k), m) == low
    ensures BitAnd(a, Shl(m, k)) == Shl(low, k)
  {
    AndShiftedMask(a, m, k);
  }

  lemma {:induction false} LowOfSmall(a: nat, k: nat)
    requires a < Pow2(k)
    ensures Low(a, k) == a
    decreases k
  {
    if k > 0 {
      LowOfSmall(a / 2, k - 1);
    }
  }

  lemma {:induction false} ShlZero(a: nat, k: nat)
    ensures Shl(a, k) == 0 <==> a == 0
    decreases k
  {
    if k > 0 {
      ShlZero(a, k - 1);
    }
  }

  // ----- IsPower2, FloorLog2, CeilLog2 -----

  /** `n - 1` wraps for n = 0, as in the 32-bit original. */
  predicate IsPower2(n: nat)
    requires n < TWO_32
  {
    BitAnd(n, (n - 1) % TWO_32) == 0
  }

  lemma {:induction false} AndPredecessor(n: nat) returns (k: nat)
    requires n > 0
    ensures BitAnd(n, n - 1) == 0 ==> n == Pow2(k)
    decreases n
  {
    if n % 2 == 0 {
      assert (n - 1) / 2 == n / 2 - 1 && (n - 1) % 2 == 1;
      k := AndPredecessor(n / 2);
      k := k + 1;
    } else {
      k := 0;
      if n > 1 {
        assert (n - 1) / 2 == n / 2;
        AndSelf(n / 2);
      }
    }
  }

  lemma {:induction false} AndSelf(n: nat)
    ensures BitAnd(n, n) == n
  {
    if n > 0 {
      AndSelf(n / 2);
    }
  }

  lemma {:induction false} LowOfPower(k: nat)
    ensures Low(Pow2(k), k) == 0
    decreases k
  {
    if k > 0 {
      LowOfPower(k - 1);
    }
  }

  /** The test accepts exactly zero and the powers of two. */
  lemma IsPower2Exactly(n: nat)
    requires n < TWO_32
    ensures IsPower2(n) <==> n == 0 || exists k: nat :: n == Pow2(k)
  {
    if n > 0 {
      assert (n - 1) % TWO_32 == n - 1;
      var k := AndPredecessor(n);
      if j: nat :| n == Pow2(j) {
        AndLowMask(n, j);
        LowOfPower(j);
      }
    } else {
      assert BitAnd(0, TWO_32 - 1) == 0;
    }
  }

  lemma PowerOf(n: nat) returns (k: nat)
    requires 0 < n < TWO_32 && IsPower2(n)
    ensures n == Pow2(k)
  {
    assert (n - 1) % TWO_32 == n - 1;
    k := AndPredecessor(n);
  }

  /** One halving step: skips the low k bits when any of the k bits above them is set. */
  method HalveWindow(ghost n0: nat, n: nat, p: nat, mask: nat, k: nat) returns (n': nat, p': nat)
    requires 0 < n < Pow2(k + k) && n == Shr(n0, p) && mask == Shl(Pow2(k) - 1, k)
    ensures 0 < n' < Pow2(k) && n' == Shr(n0, p') && p <= p' <= p + k
  {
    AndBand(n, k, k);
    ShrBound(n, k, k);
    ShrBound(n, k, 0);
    LowOfSmall(Shr(n, k), k);
    ShlZero(Low(Shr(n, k), k), k);
    ShrShr(n0, p, k);
    n', p' := n, p;
    if BitAnd(n, mask) != 0 {
      p' := p' + k;
      n' := Shr(n', k);
    }
  }

  /** Position of the most significant set bit, by halving the window five times; -1 for zero. */
  method FloorLog2(n0: nat) returns (p: int)
    requires n0 < TWO_32
    ensures n0 == 0 ==> p == -1
    ensures n0 > 0 ==> 0 <= p < 32 && Pow2(p) <= n0 < Pow2(p + 1)
  {
    var n := n0;
    p := 0;
    if n == 0 {
      return -1;
    }
    MaskValues();
    n, p := HalveWindow(n0, n, p, 0xffff0000, 16);
    n, p := HalveWindow(n0, n, p, 0x0000ff00, 8);
    n, p := HalveWindow(n0, n, p, 0x000000f0, 4);
    n, p := HalveWindow(n0, n, p, 0x0000000c, 2);
    n, p := HalveWindow(n0, n, p, 0x00000002, 1);
    ShrBound(n0, p, 1);
    ShrBound(n0, p, 0);
  }

  lemma MaskValues()
    ensures Pow2(1) == 2 && Pow2(2) == 4 && Pow2(4) == 0x10 && Pow2(8) == 0x100
    ensures Pow2(16) == 0x1_0000 && Pow2(32) == TWO_32
    ensures Shl(Pow2(16) - 1, 16) == 0xffff0000 && Shl(Pow2(8) - 1, 8) == 0x0000ff00
    ensures Shl(Pow2(4) - 1, 4) == 0x000000f0 && Shl(Pow2(2) - 1, 2) == 0x0000000c && Shl(Pow2(1) - 1, 1) == 0x00000002
  {
    Pow2Values();
    ShlIsMul(Pow2(16) - 1, 16);
    ShlIsMul(Pow2(8) - 1, 8);
    ShlIsMul(Pow2(4) - 1, 4);
    ShlIsMul(Pow2(2) - 1, 2);
    ShlIsMul(Pow2(1) - 1, 1);
  }

  /** Smallest exponent whose power covers n; the 32-bit `n - 1` wraps for n = 0. */
  method CeilLog2(n: nat) returns (p: int)
    requires n < TWO_32
    ensures n == 0 ==> p == 32
    ensures n > 0 ==> 0 <= p <= 32 && n <= Pow2(p) && forall k: nat :: n <= Pow2(k) ==> p <= k
  {
    p := FloorLog2((n - 1) % TWO_32);
    p := p + 1;
    Pow2Values();
    if n == 0 {
      if p < 32 {
        Pow2Monotone(p, 31);
      }
    } else {
      forall k: nat | n <= Pow2(k)
        ensures p <= k
      {
        if k < p {
          Pow2Monotone(k, p - 1);
        }
      }
    }
  }
}
