/** Unsigned machine words as natural numbers, with the bitwise operators of C defined bit by bit. */
module Bits {
  import opened Arithmetic

  /** Bit k of n, counted from the least significant one. */
  function Bit(n: nat, k: nat): bool {
    if k == 0 then n % 2 == 1 else Bit(n / 2, k - 1)
  }

  /** `a & b`. */
  function And(a: nat, b: nat): nat {
    if a == 0 || b == 0 then 0 else 2 * And(a / 2, b / 2) + (if a % 2 == 1 && b % 2 == 1 then 1 else 0)
  }

  /** `a | b`. */
  function Or(a: nat, b: nat): nat {
    if a == 0 then b else if b == 0 then a else
      2 * Or(a / 2, b / 2) + (if a % 2 == 1 || b % 2 == 1 then 1 else 0)
  }

  /** `~a` on a word of n bits. */
  function Not(n: nat, a: nat): nat
    requires a < Pow2(n)
  {
    Pow2(n) - 1 - a
  }

  /** `a << k`, before truncation. */
  function Shl(a: nat, k: nat): nat {
    if k == 0 then a else 2 * Shl(a, k - 1)
  }

  /** `a >> k`. */
  function Shr(a: nat, k: nat): nat {
    if k == 0 then a else Shr(a / 2, k - 1)
  }

  /** Truncation to a word of n bits. */
  function Low(a: nat, n: nat): (r: nat)
    ensures r < Pow2(n)
  {
    if n == 0 then 0 else 2 * Low(a / 2, n - 1) + a % 2
  }

  lemma {:induction false} ShlIsMul(a: nat, k: nat)
    ensures Shl(a, k) == a * Pow2(k)
  {
    if k == 0 {
    } else {
      ShlIsMul(a, k - 1);
      assert 2 * (a * Pow2(k - 1)) == a * (2 * Pow2(k - 1));
    }
  }

  lemma {:induction false} ShrIsDiv(a: nat, k: nat)
    ensures Shr(a, k) == a / Pow2(k)
  {
    if k == 0 {
    } else {
      ShrIsDiv(a / 2, k - 1);
      DivTwice(a, Pow2(k - 1));
    }
  }

  lemma DivTwice(a: nat, p: nat)
    requires p >= 1
    ensures a / 2 / p == a / (2 * p)
  {
    var q := a / 2 / p;
    assert a / 2 == q * p + a / 2 % p;
    assert q * (2 * p) == 2 * (q * p);
    DivUnique(a, 2 * p, q);
  }

  lemma ModTwice(a: nat, p: nat)
    requires p >= 1
    ensures 2 * (a / 2 % p) + a % 2 == a % (2 * p)
  {
    var q := a / 2 / p;
    assert a / 2 == q * p + a / 2 % p;
    assert q * (2 * p) == 2 * (q * p);
    DivUnique(a, 2 * p, q);
  }

  lemma {:induction false} LowIsMod(a: nat, n: nat)
    ensures Low(a, n) == a % Pow2(n)
  {
    if n == 0 {
    } else {
      LowIsMod(a / 2, n - 1);
      ModTwice(a, Pow2(n - 1));
    }
  }

  lemma {:induction false} BitOfZero(k: nat)
    ensures !Bit(0, k)
  {
    if k == 0 {
    } else {
      BitOfZero(k - 1);
    }
  }

  lemma {:induction false} BitOfAnd(a: nat, b: nat, k: nat)
    ensures Bit(And(a, b), k) == (Bit(a, k) && Bit(b, k))
    decreases k
  {
    if a == 0 || b == 0 {
      BitOfZero(k);
    } else if k > 0 {
      BitOfAnd(a / 2, b / 2, k - 1);
    }
  }

  lemma {:induction false} BitOfOr(a: nat, b: nat, k: nat)
    ensures Bit(Or(a, b), k) == (Bit(a, k) || Bit(b, k))
    decreases k
  {
    if a == 0 || b == 0 {
      BitOfZero(k);
    } else if k > 0 {
      BitOfOr(a / 2, b / 2, k - 1);
    }
  }

  lemma {:induction false} BitOfNot(n: nat, a: nat, k: nat)
    requires a < Pow2(n) && k < n
    ensures Bit(Not(n, a), k) == !Bit(a, k)
    decreases k
  {
    assert Pow2(n) == 2 * Pow2(n - 1);
    if k > 0 {
      BitOfNot(n - 1, a / 2, k - 1);
      assert Not(n, a) / 2 == Not(n - 1, a / 2);
    }
  }

  lemma {:induction false} BitOfShl(a: nat, s: nat, k: nat)
    ensures Bit(Shl(a, s), k) == (k >= s && Bit(a, k - s))
  {
    if s == 0 || k == 0 {
    } else {
      BitOfShl(a, s - 1, k - 1);
    }
  }

  lemma {:induction false} BitOfShr(a: nat, s: nat, k: nat)
    ensures Bit(Shr(a, s), k) == Bit(a, k + s)
  {
    if s == 0 {
    } else {
      BitOfShr(a / 2, s - 1, k);
    }
  }

  /** A word of n bits has no bits at or above n. */
  lemma {:induction false} BitAbove(a: nat, n: nat, k: nat)
    requires a < Pow2(n) && n <= k
    ensures !Bit(a, k)
  {
    if n == 0 {
      BitOfZero(k);
    } else {
      BitAbove(a / 2, n - 1, k - 1);
    }
  }

  lemma {:induction false} BoundFromBits(a: nat, n: nat)
    requires forall k | k >= n :: !Bit(a, k)
    ensures a < Pow2(n)
    decreases n, a
  {
    if a == 0 {
    } else if n == 0 {
      assert !Bit(a, 0);
      forall k | k >= 0 ensures !Bit(a / 2, k) { assert !Bit(a, k + 1); }
      BoundFromBits(a / 2, 0);
    } else {
      forall k | k >= n - 1 ensures !Bit(a / 2, k) { assert !Bit(a, k + 1); }
      BoundFromBits(a / 2, n - 1);
    }
  }

  /** Words with the same bits are the same word. */
  lemma {:induction false} SameBits(a: nat, b: nat)
    requires forall k: nat :: Bit(a, k) == Bit(b, k)
    ensures a == b
    decreases a + b
  {
    assert Bit(a, 0) == Bit(b, 0);
    if a != 0 || b != 0 {
      forall k: nat ensures Bit(a / 2, k) == Bit(b / 2, k) { assert Bit(a, k + 1) == Bit(b, k + 1); }
      SameBits(a / 2, b / 2);
    }
  }

  /** Or-ing words that share no bit position below k adds them. */
  lemma {:induction false} OrIsSum(a: nat, b: nat, k: nat)
    requires b < Pow2(k)
    ensures Or(Shl(a, k), b) == Shl(a, k) + b
  {
    if k == 0 || b == 0 || Shl(a, k) == 0 {
    } else {
      OrIsSum(a, b / 2, k - 1);
    }
  }

  /** `( a >> k ) & 0x1`. */
  lemma TestBit(a: nat, k: nat)
    ensures And(Shr(a, k), 1) == if Bit(a, k) then 1 else 0
  {
    BitOfShr(a, k, 0);
  }

  /** A bit appended below the others. */
  lemma {:induction false} ShlAppend(a: nat, x: nat, n: nat)
    requires x <= 1
    ensures Or(Shl(a, 1), x) == 2 * a + x
    ensures Shl(2 * a + x, n) == Shl(a, n + 1) + (if x == 1 then Pow2(n) else 0)
  {
    assert Pow2(1) == 2;
    OrIsSum(a, x, 1);
    if n > 0 {
      ShlAppend(a, x, n - 1);
      assert Shl(a, n + 1) == 2 * Shl(a, n);
    }
  }

  /** The leading one of n low bits, and the others. */
  lemma {:induction false} LowSplit(a: nat, n: nat)
    requires n >= 1
    ensures Low(a, n) == (if Bit(a, n - 1) then Pow2(n - 1) else 0) + Low(a, n - 1)
  {
    if n > 1 {
      LowSplit(a / 2, n - 1);
    } else {
      assert Low(a / 2, 0) == 0;
    }
  }

  lemma {:induction false} LowOfSmall(a: nat, n: nat)
    requires a < Pow2(n)
    ensures Low(a, n) == a
  {
    if n == 0 {
    } else {
      LowOfSmall(a / 2, n - 1);
    }
  }

  lemma {:induction false} BitOfLow(a: nat, n: nat, k: nat)
    requires k < n
    ensures Bit(Low(a, n), k) == Bit(a, k)
    decreases n
  {
    if k == 0 {
    } else {
      BitOfLow(a / 2, n - 1, k - 1);
    }
  }
}
