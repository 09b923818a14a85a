/** Bit strings, most significant bit first, and the words they are cut from. */
module BitSequence {
  import opened Arithmetic
  import opened Bits

  /** The n low bits of v, most significant first. */
  function BitsMsb(v: nat, n: nat): (b: seq<bool>)
    ensures |b| == n
  {
    if n == 0 then [] else BitsMsb(v / 2, n - 1) + [v % 2 == 1]
  }

  /** Bit k from the front is the one worth 2 to the n - 1 - k. */
  lemma {:induction false} BitFromFront(v: nat, n: nat, k: nat)
    requires k < n
    ensures BitsMsb(v, n)[k] <==> Shr(v, n - 1 - k) % 2 == 1
    decreases n
  {
    if k < n - 1 {
      BitFromFront(v / 2, n - 1, k);
    }
  }

  /** The number a bit string spells. */
  function ValueOf(b: seq<bool>): nat {
    if b == [] then 0 else 2 * ValueOf(b[..|b| - 1]) + (if b[|b| - 1] then 1 else 0)
  }

  lemma {:induction false} ValueOfBits(v: nat, n: nat)
    ensures ValueOf(BitsMsb(v, n)) == Low(v, n)
  {
    if n == 0 {
    } else {
      ValueOfBits(v / 2, n - 1);
      assert BitsMsb(v, n)[..n - 1] == BitsMsb(v / 2, n - 1);
    }
  }

  /** Numbers of n bits with the same bit string are equal. */
  lemma BitsInjective(v: nat, w: nat, n: nat)
    requires v < Pow2(n) && w < Pow2(n) && BitsMsb(v, n) == BitsMsb(w, n)
    ensures v == w
  {
    ValueOfBits(v, n);
    ValueOfBits(w, n);
    LowOfSmall(v, n);
    LowOfSmall(w, n);
  }

  /** A bit string of n + k bits is its upper n bits followed by its lower k bits. */
  lemma {:induction false} BitsSplit(v: nat, n: nat, k: nat, total: nat)
    requires total == n + k
    ensures BitsMsb(v, total) == BitsMsb(Shr(v, k), n) + BitsMsb(v, k)
    decreases k
  {
    if k == 0 {
    } else {
      BitsSplit(v / 2, n, k - 1, total - 1);
    }
  }

  /** Only the low n bits matter. */
  lemma {:induction false} BitsOfLow(v: nat, m: nat, n: nat)
    requires n <= m
    ensures BitsMsb(Low(v, m), n) == BitsMsb(v, n)
    decreases n
  {
    if n == 0 {
    } else {
      BitsOfLow(v / 2, m - 1, n - 1);
    }
  }

  /** A word shifted up by k with k bits added below. */
  lemma {:induction false} BitsConcat(a: nat, b: nat, n: nat, k: nat, total: nat, x: nat)
    requires b < Pow2(k) && total == n + k && x == Shl(a, k) + b
    ensures BitsMsb(x, total) == BitsMsb(a, n) + BitsMsb(b, k)
    decreases k
  {
    if k == 0 {
    } else {
      assert x / 2 == Shl(a, k - 1) + b / 2;
      BitsConcat(a, b / 2, n, k - 1, total - 1, x / 2);
    }
  }

  lemma {:induction false} ShlShl(a: nat, i: nat, j: nat, total: nat)
    requires total == i + j
    ensures Shl(Shl(a, i), j) == Shl(a, total)
  {
    if j == 0 {
    } else {
      ShlShl(a, i, j - 1, total - 1);
    }
  }

  /** Shifting a sum of a shifted word and a small one down again. */
  lemma {:induction false} ShrOfSum(a: nat, b: nat, n: nat, m: nat)
    requires m <= n
    ensures Shr(Shl(a, n) + b, m) == Shl(a, n - m) + Shr(b, m)
    decreases m
  {
    if m == 0 {
    } else {
      assert (Shl(a, n) + b) / 2 == Shl(a, n - 1) + b / 2;
      ShrOfSum(a, b / 2, n - 1, m - 1);
    }
  }

  lemma {:induction false} ShrBound(b: nat, n: nat, m: nat, k: nat)
    requires n == m + k && b < Pow2(n)
    ensures Shr(b, m) < Pow2(k)
    decreases m
  {
    if m == 0 {
    } else {
      ShrBound(b / 2, n - 1, m - 1, k);
    }
  }

  lemma {:induction false} ShlBound(a: nat, n: nat, k: nat, total: nat)
    requires a < Pow2(n) && total == n + k
    ensures Shl(a, k) < Pow2(total)
    ensures k >= 1 ==> Shl(a, k) + Pow2(k) <= Pow2(total)
  {
    if k == 0 {
    } else {
      ShlBound(a, n, k - 1, total - 1);
    }
  }

  lemma {:induction false} LowOfShl(a: nat, k: nat, n: nat)
    requires n <= k
    ensures Low(Shl(a, k), n) == 0
  {
    if n == 0 {
    } else {
      LowOfShl(a, k - 1, n - 1);
      assert Shl(a, k) / 2 == Shl(a, k - 1) && Shl(a, k) % 2 == 0;
    }
  }

  /** A word without its k low bits is a multiple of 2^k. */
  lemma {:induction false} ShrShl(v: nat, k: nat)
    ensures Shl(Shr(v, k), k) + Low(v, k) == v
  {
    if k == 0 {
    } else {
      ShrShl(v / 2, k - 1);
    }
  }

  type Byte = n: nat | n < 256

  /** The bits of a sequence of bytes. */
  function BytesBits(s: seq<Byte>): (b: seq<bool>)
    ensures |b| == 8 * |s|
  {
    if s == [] then [] else BitsMsb(s[0], 8) + BytesBits(s[1..])
  }

  lemma {:induction false} BytesAppend(s: seq<Byte>, t: seq<Byte>)
    ensures BytesBits(s + t) == BytesBits(s) + BytesBits(t)
    decreases |s|
  {
    if s == [] {
      assert s + t == t;
    } else {
      assert (s + t)[1..] == s[1..] + t;
      BytesAppend(s[1..], t);
    }
  }

  lemma OneByte(x: Byte)
    ensures BytesBits([x]) == BitsMsb(x, 8)
  {
    assert [x][1..] == [];
  }
}
