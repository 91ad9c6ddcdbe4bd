/**
 Slot maps: sixteen-bit numbers read bit by bit. The machine operators are
 defined on numbers by recursion over the bits.
 */
module Bitmaps {

  type Bits = nat

  predicate Bit(b: Bits, n: nat) {
    if n == 0 then b % 2 == 1 else Bit(b / 2, n - 1)
  }

  function Join(low: bool, high: Bits): Bits {
    2 * high + if low then 1 else 0
  }

  /** `a & b` */
  function And(a: Bits, b: Bits): Bits {
    if a == 0 then 0 else Join(a % 2 == 1 && b % 2 == 1, And(a / 2, b / 2))
  }

  /** `a | b` */
  function Or(a: Bits, b: Bits): Bits
    decreases a + b
  {
    if a == 0 && b == 0 then 0 else Join(a % 2 == 1 || b % 2 == 1, Or(a / 2, b / 2))
  }

  /** `a & !b` */
  function AndNot(a: Bits, b: Bits): Bits {
    if a == 0 then 0 else Join(a % 2 == 1 && b % 2 == 0, AndNot(a / 2, b / 2))
  }

  /** `1 << n` */
  function Mask(n: nat): (r: Bits)
    ensures r > 0
  {
    if n == 0 then 1 else 2 * Mask(n - 1)
  }

  /** `b.count_ones()` */
  function CountOnes(b: Bits): nat {
    if b == 0 then 0 else b % 2 + CountOnes(b / 2)
  }

  /** How many of the lowest `n` bits are set. */
  function Rank(b: Bits, n: nat): (r: nat)
    ensures r <= n
  {
    if n == 0 then 0 else Rank(b, n - 1) + if Bit(b, n - 1) then 1 else 0
  }

  /** The bitmap fits in sixteen bits. */
  ghost predicate Narrow(b: Bits) {
    forall n | n >= 16 :: !Bit(b, n)
  }

  // ------------------------------------------------------------ bit by bit

  lemma {:induction false} ZeroBits(n: nat)
    ensures !Bit(0, n)
  {
    if n > 0 {
      ZeroBits(n - 1);
    }
  }

  lemma {:induction false} AndBits(a: Bits, b: Bits, n: nat)
    ensures Bit(And(a, b), n) == (Bit(a, n) && Bit(b, n))
  {
    if a == 0 {
      ZeroBits(n);
    } else {
      if n > 0 {
        AndBits(a / 2, b / 2, n - 1);
      }
    }
  }

  lemma {:induction false} OrBits(a: Bits, b: Bits, n: nat)
    ensures Bit(Or(a, b), n) == (Bit(a, n) || Bit(b, n))
    decreases n
  {
    if a == 0 && b == 0 {
      ZeroBits(n);
    } else {
      if n > 0 {
        OrBits(a / 2, b / 2, n - 1);
      }
    }
  }

  lemma {:induction false} AndNotBits(a: Bits, b: Bits, n: nat)
    ensures Bit(AndNot(a, b), n) == (Bit(a, n) && !Bit(b, n))
  {
    if a == 0 {
      ZeroBits(n);
    } else {
      if n > 0 {
        AndNotBits(a / 2, b / 2, n - 1);
      }
    }
  }

  lemma {:induction false} MaskBits(n: nat, m: nat)
    ensures Bit(Mask(n), m) == (m == n)
    ensures Bit(Mask(n) - 1, m) == (m < n)
  {
    if n == 0 {
      ZeroBits(m);
      if m > 0 {
        ZeroBits(m - 1);
      }
    } else if m > 0 {
      assert (Mask(n) - 1) / 2 == Mask(n - 1) - 1;
      MaskBits(n - 1, m - 1);
    }
  }

  lemma {:induction false} SameBits(a: Bits, b: Bits)
    requires forall n: nat :: Bit(a, n) == Bit(b, n)
    ensures a == b
    decreases a + b
  {
    assert Bit(a, 0) == Bit(b, 0);
    if a + b > 0 {
      forall n: nat ensures Bit(a / 2, n) == Bit(b / 2, n) {
        assert Bit(a, n + 1) == Bit(b, n + 1);
      }
      SameBits(a / 2, b / 2);
    }
  }

  // ------------------------------------------------------------------- ranks

  lemma {:induction false} RankFromHalf(b: Bits, n: nat)
    requires n > 0
    ensures Rank(b, n) == b % 2 + Rank(b / 2, n - 1)
  {
    if n > 1 {
      RankFromHalf(b, n - 1);
    }
  }

  /** The population count is the rank past the highest bit. */
  lemma {:induction false} CountIsRank(b: Bits, n: nat)
    requires forall m | m >= n :: !Bit(b, m)
    ensures CountOnes(b) == Rank(b, n)
    decreases n, b
  {
    if n == 0 {
      forall m: nat ensures Bit(b, m) == Bit(0, m) {
        ZeroBits(m);
      }
      SameBits(b, 0);
    } else {
      forall m | m >= n - 1 ensures !Bit(b / 2, m) {
        assert !Bit(b, m + 1);
      }
      CountIsRank(b / 2, n - 1);
      RankFromHalf(b, n);
    }
  }

  /** The population count of the bits below a nibble is its rank. */
  lemma {:induction false} MaskedCountIsRank(b: Bits, n: nat)
    ensures CountOnes(And(b, Mask(n) - 1)) == Rank(b, n)
  {
    var c := And(b, Mask(n) - 1);
    forall m: nat ensures Bit(c, m) == (Bit(b, m) && m < n) {
      AndBits(b, Mask(n) - 1, m);
      MaskBits(n, m);
    }
    CountIsRank(c, n);
    RankAgrees(c, b, n);
  }

  lemma {:induction false} RankAgrees(a: Bits, b: Bits, n: nat)
    requires forall m | 0 <= m < n :: Bit(a, m) == Bit(b, m)
    ensures Rank(a, n) == Rank(b, n)
  {
    if n > 0 {
      RankAgrees(a, b, n - 1);
    }
  }

  lemma {:induction false} RankMonotone(b: Bits, m: nat, n: nat)
    requires m <= n
    ensures Rank(b, m) <= Rank(b, n)
    ensures m < n && Bit(b, m) ==> Rank(b, m) < Rank(b, n)
    decreases n
  {
    if m < n {
      RankMonotone(b, m, n - 1);
    }
  }

  /** Every index below a rank is the rank of one set bit. */
  lemma {:induction false} RankOnto(b: Bits, i: nat, n: nat) returns (m: nat)
    requires i < Rank(b, n)
    ensures m < n && Bit(b, m) && Rank(b, m) == i
  {
    if Bit(b, n - 1) && i == Rank(b, n - 1) {
      m := n - 1;
    } else {
      m := RankOnto(b, i, n - 1);
    }
  }

  /** Setting or clearing bit `n` moves the ranks above it by one. */
  lemma {:induction false} RankAfterFlip(b: Bits, c: Bits, n: nat, k: nat)
    requires !Bit(b, n) && Bit(c, n)
    requires forall m: nat | m != n :: Bit(c, m) == Bit(b, m)
    ensures Rank(c, k) == Rank(b, k) + if n < k then 1 else 0
  {
    if k > 0 {
      RankAfterFlip(b, c, n, k - 1);
    }
  }
}
