/**
 * Division by table: every denominator n has a reciprocal with B fractional bits, normalised by the
 * position of its leading bit, so that a division becomes a multiplication and a shift.
 */
module Reciprocal {
  import opened Arithmetic

  /** The scale of the entry for n, as a power of two. */
  function Scale(B: nat, n: nat): (k: nat)
    requires n >= 1
    ensures k >= 1
  {
    Pow2(B + FloorLog2(n))
  }

  /** The entry stored for n: Scale / n, rounded up. */
  function Entry(B: nat, n: nat): int
    requires n >= 1
  {
    (Scale(B, n) + n - 1) / n
  }

  /** How much the entry exceeds the true reciprocal, times n. */
  function Excess(B: nat, n: nat): int
    requires n >= 1
  {
    Entry(B, n) * n - Scale(B, n)
  }

  /** x / n as the table computes it. */
  function Quotient(B: nat, n: nat, x: nat): int
    requires n >= 1
  {
    x * Entry(B, n) / Scale(B, n)
  }

  /** Rounding a quotient up loses less than the divisor. */
  lemma CeilBounds(k: int, n: int)
    requires n >= 1 && k >= 0
    ensures var m := (k + n - 1) / n; 0 <= m * n - k < n && m >= 0
  {
    var a := k + n - 1;
    var m := a / n;
    assert a == m * n + a % n;
    if m < 0 { MulMono(m, -1, n); }
  }

  lemma EntryBoundsCore(P: int, S: int, n: int, m: int, e: int)
    requires 1 <= S <= n < 2 * S && n < P
    requires m * n == P * S + e && 0 <= e < n
    ensures P < 2 * m && m <= P && e < 2 * m
  {
    assert (2 * m) * n == 2 * (m * n) && 2 * (P * S) == P * (2 * S);
    MulMono(n, 2 * S - 1, P);
    assert n * P == P * n && (2 * S - 1) * P == P * (2 * S) - P;
    MulCancelLess(P, 2 * m, n);
    MulMono(S, n, P);
    assert S * P == P * S && (P + 1) * n == P * n + n;
    MulCancelLess(m, P + 1, n);
  }

  lemma EntryBounds(B: nat, n: nat)
    requires 1 <= n < Pow2(B)
    ensures 0 <= Excess(B, n) < n
    ensures Pow2(B) < 2 * Entry(B, n) && Entry(B, n) <= Pow2(B)
    ensures Excess(B, n) < 2 * Entry(B, n)
  {
    CeilBounds(Scale(B, n), n);
    Pow2Add(B, FloorLog2(n));
    EntryBoundsCore(Pow2(B), Pow2(FloorLog2(n)), n, Entry(B, n), Excess(B, n));
  }

  /** Multiplying q * n + r by m and dropping k gives q exactly when the error term stays below k. */
  lemma ExactAtCore(k: int, n: int, m: int, e: int, q: int, r: int)
    requires k >= 1 && m * n == k + e
    requires q >= 0 && r >= 0 && e >= 0 && m >= 0
    ensures (q * n + r) * m / k == q <==> q * e + r * m < k
  {
    var v := (q * n + r) * m;
    assert v == q * k + (q * e + r * m) by {
      assert v == q * (m * n) + r * m;
      assert q * (k + e) == q * k + q * e;
    }
    assert q * e >= 0 && r * m >= 0 by { MulMono(0, q, e); MulMono(0, r, m); }
    assert v == (v / k) * k + v % k;
    if q * e + r * m < k {
      DivUnique(v, k, q);
    }
  }

  /** At the worst residue, n - 1, the error condition no longer mentions the scale. */
  lemma WorstResidueCore(k: int, n: int, m: int, e: int, q: int)
    requires k >= 1 && m * n == k + e
    requires q >= 0 && n >= 1 && e >= 0 && m >= 0
    ensures (q * n + (n - 1)) * m / k == q <==> (q + 1) * e < m
  {
    ExactAtCore(k, n, m, e, q, n - 1);
    assert (n - 1) * m == m * n - m;
    assert (q + 1) * e == q * e + e;
  }

  lemma ExactBelowCore(k: int, n: int, m: int, e: int, X: int, x: int)
    requires k >= 1 && m * n == k + e && n >= 1
    requires 0 <= e < n && e < 2 * m
    requires ((X + 1) / n) * e < m
    requires 0 <= x <= X
    ensures x * m / k == x / n
  {
    var t, q, r := (X + 1) / n, x / n, x % n;
    assert x == q * n + r;
    DivAtLeast(X + 1, n, q);
    DivNonNegative(x, n);
    MulMono(q, t, e);
    if r == n - 1 {
      WorstResidueCore(k, n, m, e, q);
      assert (q + 1) * n == q * n + n;
      DivAtLeast(X + 1, n, q + 1);
      MulMono(q + 1, t, e);
    } else {
      ExactAtCore(k, n, m, e, q, r);
      SmallResidue(k, n, m, e, t, q, r);
    }
  }

  lemma SmallResidue(k: int, n: int, m: int, e: int, t: int, q: int, r: int)
    requires m * n == k + e && 0 <= r <= n - 2 && 0 <= q <= t
    requires 0 <= e < 2 * m && t * e < m
    ensures q * e + r * m < k
  {
    MulMono(q, t, e);
    MulMono(r, n - 2, m);
    assert (n - 2) * m == m * n - 2 * m;
    if t >= 1 {
      MulMono(1, t, e);
    } else {
      assert t * e == 0;
    }
  }

  /**
   * The exactness bound: the table divides every x in 0..X by n without error if and only if
   * floor((X + 1) / n) times the excess of the entry is smaller than the entry.
   */
  lemma ExactIff(B: nat, n: nat, X: nat)
    requires 1 <= n < Pow2(B)
    ensures (forall x: nat :: x <= X ==> Quotient(B, n, x) == x / n)
       <==> ((X + 1) / n) * Excess(B, n) < Entry(B, n)
  {
    var k, e, m, t := Scale(B, n), Excess(B, n), Entry(B, n), (X + 1) / n;
    EntryBounds(B, n);
    if t * e < m {
      forall x: nat | x <= X ensures Quotient(B, n, x) == x / n {
        ExactBelowCore(k, n, m, e, X, x);
      }
    } else {
      var x := WorstDividend(k, n, m, e, X);
      assert Quotient(B, n, x) != x / n;
    }
  }

  /** When the bound fails, the largest multiple of n up to X + 1, minus one, is divided wrongly. */
  lemma WorstDividend(k: int, n: int, m: int, e: int, X: int) returns (x: nat)
    requires k >= 1 && m * n == k + e && n >= 1 && X >= 0
    requires e >= 0 && m >= 1
    requires ((X + 1) / n) * e >= m
    ensures x <= X && x * m / k != x / n
  {
    var t := (X + 1) / n;
    assert X + 1 == t * n + (X + 1) % n;
    assert t >= 1 by {
      if t <= 0 { MulMono(t, 0, e); }
    }
    assert t * n == (t - 1) * n + n;
    MulMono(0, t - 1, n);
    x := (t - 1) * n + (n - 1);
    WorstResidueCore(k, n, m, e, t - 1);
    DivUnique(x, n, t - 1);
  }

  /** With B fractional bits every dividend up to 2^(B-1) divides exactly, for every n below 2^B. */
  lemma ExactToHalfScale(B: nat, n: nat, x: nat)
    requires B >= 1
    requires 1 <= n < Pow2(B)
    requires x <= Pow2(B - 1)
    ensures Quotient(B, n, x) == x / n
  {
    var X, S := Pow2(B - 1), Pow2(FloorLog2(n));
    var k, m, e := Scale(B, n), Entry(B, n), Excess(B, n);
    EntryBounds(B, n);
    Pow2Add(B, FloorLog2(n));
    HalfScaleCore(X, S, n, m, e);
    ExactBelowCore(k, n, m, e, X, x);
  }

  lemma HalfScaleCore(X: int, S: int, n: int, m: int, e: int)
    requires 1 <= S <= n < 2 * S && X >= 1
    requires m * n == 2 * X * S + e && 0 <= e < n && m >= 1
    ensures ((X + 1) / n) * e < m
  {
    var t := (X + 1) / n;
    assert X + 1 == t * n + (X + 1) % n;
    HalfScaleProduct(X, S, n, m, e, t);
  }

  lemma HalfScaleProduct(X: int, S: int, n: int, m: int, e: int, t: int)
    requires 1 <= S <= n < 2 * S && X >= 1
    requires m * n == 2 * X * S + e && 0 <= e < n && m >= 1
    requires t * n <= X + 1
    ensures t * e < m
  {
    if e == 0 {
      assert t * e == 0;
    } else {
      MulMono(t * n, X + 1, e);
      MulSwap(t, n, e);
      HalfScaleExcess(X, S, e);
      MulCancelLess(t * e, m, n);
    }
  }

  lemma MulSwap(a: int, b: int, c: int)
    ensures (a * b) * c == (a * c) * b
  {
  }

  lemma HalfScaleExcess(X: int, S: int, e: int)
    requires 1 <= e <= 2 * S - 2 && X >= 1
    ensures (X + 1) * e < 2 * X * S + e
  {
    MulMono(e, 2 * S - 2, X);
    assert (X + 1) * e == e * X + e;
    assert (2 * S - 2) * X == 2 * X * S - 2 * X;
  }

  /** The bound is real: with 14 bits, dividing 9434 by 255 through the table gives 37 instead of 36. */
  lemma InexactBeyondTheBound()
    ensures Quotient(14, 255, 9434) == 37 && 9434 / 255 == 36
  {
    Pow2Values();
    FloorLog2Unique(255, 7);
    assert Entry(14, 255) == 8225;
  }

  lemma Pow2Values()
    ensures Pow2(7) == 128 && Pow2(8) == 256 && Pow2(9) == 512
    ensures Pow2(13) == 8192 && Pow2(14) == 16384 && Pow2(21) == 2097152
  {
    assert Pow2(4) == 16;
    assert Pow2(8) == 256;
    assert Pow2(12) == 4096;
    assert Pow2(16) == 65536;
    assert Pow2(20) == 1048576;
  }

  /** The division the filter wants: delta / n rounded to nearest, ties upwards, for either sign. */
  function RoundHalfUp(delta: int, n: nat): int
    requires n >= 1
  {
    (2 * delta + n) / (2 * n)
  }

  /** No integer is nearer to delta / n, and of two that are equally near it is the larger one. */
  lemma RoundHalfUpIsNearest(delta: int, n: nat, r: int)
    requires n >= 1
    ensures r == RoundHalfUp(delta, n) <==> 2 * delta - n < 2 * (r * n) <= 2 * delta + n
  {
    var q := RoundHalfUp(delta, n);
    assert 2 * delta + n == q * (2 * n) + (2 * delta + n) % (2 * n);
    assert q * (2 * n) == 2 * (q * n) && r * (2 * n) == 2 * (r * n);
    if 2 * delta - n < 2 * (r * n) <= 2 * delta + n {
      DivUnique(2 * delta + n, 2 * n, r);
    }
  }

  /** Minus one for a negative number, zero otherwise. */
  function SignIfNeg(x: int): int {
    if x < 0 then -1 else 0
  }

  /** `1 | SignIfNeg( x )`. */
  function Sign(x: int): int {
    if x < 0 then -1 else 1
  }

  /** The dividend the filter forms before it multiplies: |delta| plus half of n, biased down when negative. */
  function Biased(delta: int, n: nat): int {
    Sign(delta) * delta + (n + SignIfNeg(delta)) / 2
  }

  /** Dividing the biased magnitude and putting the sign back rounds half up for both signs. */
  lemma SignTrickRoundsHalfUp(delta: int, n: nat)
    requires n >= 1
    ensures Biased(delta, n) >= 0
    ensures Sign(delta) * (Biased(delta, n) / n) == RoundHalfUp(delta, n)
  {
    var b := Biased(delta, n);
    var q := b / n;
    assert b == q * n + b % n;
    assert q * (2 * n) == 2 * (q * n);
    if delta < 0 {
      assert (-q) * (2 * n) == -(q * (2 * n));
      DivUnique(2 * delta + n, 2 * n, -q);
    } else {
      DivUnique(2 * delta + n, 2 * n, q);
    }
  }
}
