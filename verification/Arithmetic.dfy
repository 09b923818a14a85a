/** Integer helpers shared by the models: powers of two, clipping, floor division facts. */
module Arithmetic {

  function Pow2(n: nat): (r: nat)
    ensures r >= 1
  {
    if n == 0 then 1 else 2 * Pow2(n - 1)
  }

  function Abs(x: int): nat {
    if x < 0 then -x else x
  }

  function Min(a: int, b: int): int {
    if a <= b then a else b
  }

  function Max(a: int, b: int): int {
    if a <= b then b else a
  }

  /** `Clip3( minVal, maxVal, a )`. */
  function Clip3(lo: int, hi: int, x: int): int {
    Min(Max(lo, x), hi)
  }

  /** The position of the leading one bit. */
  function FloorLog2(n: nat): (k: nat)
    requires n >= 1
    ensures Pow2(k) <= n < Pow2(k + 1)
  {
    if n == 1 then 0 else FloorLog2(n / 2) + 1
  }

  lemma {:induction false} Pow2Add(a: nat, b: nat)
    ensures Pow2(a + b) == Pow2(a) * Pow2(b)
  {
    if a == 0 {
    } else {
      Pow2Add(a - 1, b);
    }
  }

  lemma {:induction false} Pow2Mono(a: nat, b: nat)
    requires a <= b
    ensures Pow2(a) <= Pow2(b)
    decreases b
  {
    if a >= b {
    } else {
      Pow2Mono(a, b - 1);
    }
  }

  lemma {:induction false} Pow2Grows(n: nat)
    ensures n < Pow2(n)
  {
    if n == 0 {
    } else {
      Pow2Grows(n - 1);
    }
  }

  /** The leading bit position is the only exponent whose power brackets `n`. */
  lemma FloorLog2Unique(n: nat, k: nat)
    requires n >= 1
    requires Pow2(k) <= n < Pow2(k + 1)
    ensures FloorLog2(n) == k
  {
    var l := FloorLog2(n);
    if l < k {
      Pow2Mono(l + 1, k);
    } else if k < l {
      Pow2Mono(k + 1, l);
    }
  }

  lemma DivUnique(a: int, b: int, q: int)
    requires b > 0
    requires q * b <= a < q * b + b
    ensures a / b == q && a % b == a - q * b
  {
    var d := a / b - q;
    assert a == (a / b) * b + a % b;
    assert d * b == a - q * b - a % b;
    assert -1 < d < 1 by {
      if d >= 1 {
        MulMono(1, d, b);
      }
      if d <= -1 {
        MulMono(d, -1, b);
      }
    }
  }

  lemma MulMono(a: int, b: int, c: int)
    requires a <= b && c >= 0
    ensures a * c <= b * c
  {
  }

  /** A multiple of `n` not above `a` counts at most `a / n` copies of `n`. */
  lemma DivAtLeast(a: int, n: int, q: int)
    requires n >= 1 && q * n <= a
    ensures q <= a / n
  {
    var t := a / n;
    assert a == t * n + a % n;
    assert (q - t) * n == q * n - t * n;
    if q - t >= 1 {
      MulMono(1, q - t, n);
    }
  }

  lemma DivNonNegative(a: int, n: int)
    requires n >= 1 && a >= 0
    ensures a / n >= 0
  {
    DivAtLeast(a, n, 0);
  }

  lemma MulCancelLess(a: int, b: int, n: int)
    requires n >= 1 && a * n < b * n
    ensures a < b
  {
    if b <= a {
      MulMono(b, a, n);
    }
  }
}
