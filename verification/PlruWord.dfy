/**
 * The tree of PlruTree packed into one machine word: the root is bit 0, and from bit s a way bit of one
 * leads to bit 2 s + 1, a way bit of zero to bit 2 s + 2.
 */
module PlruWord {
  import opened Arithmetic
  import opened Bits
  import opened PlruTree

  const WORD_BITS: nat := 32
  const WORD_LIMIT: nat := 0x1_0000_0000
  /** A word of 32 bits holds the tree of at most 32 ways. */
  const MAX_DEPTH: nat := 5

  lemma WordLimit()
    ensures Pow2(WORD_BITS) == WORD_LIMIT && Pow2(MAX_DEPTH) == WORD_BITS
  {
    assert Pow2(8) == 256;
    assert Pow2(16) == 0x1_0000;
    assert Pow2(24) == 0x100_0000;
  }

  /** The positions of the one bits of a word. */
  type Word = set<nat>

  function BitsOf(v: nat): Word {
    set k: nat | k < WORD_BITS && Bit(v, k)
  }

  /** The word with bit k set to v. */
  function With(b: Word, k: nat, v: bool): Word {
    if v then b + {k} else b - {k}
  }

  lemma BitsOfInjective(a: nat, b: nat)
    requires a < WORD_LIMIT && b < WORD_LIMIT && BitsOf(a) == BitsOf(b)
    ensures a == b
  {
    WordLimit();
    forall k: nat ensures Bit(a, k) == Bit(b, k) {
      if k < WORD_BITS {
        assert k in BitsOf(a) <==> k in BitsOf(b);
      } else {
        BitAbove(a, WORD_BITS, k);
        BitAbove(b, WORD_BITS, k);
      }
    }
    SameBits(a, b);
  }

  /** `( val & ( ~0 ^ ( 1 << shift ) ) ) | ( flag << shift )`. */
  function SetBit(val: nat, shift: nat, flag: nat): (r: nat)
    requires val < WORD_LIMIT && shift < WORD_BITS && flag <= 1
    ensures r < WORD_LIMIT
    ensures BitsOf(r) == With(BitsOf(val), shift, flag == 1)
  {
    SetBitBits(val, shift, flag);
    WordLimit();
    Or(And(val, Not(WORD_BITS, OneAt(shift))), Shl(flag, shift))
  }

  /** `1 << shift`, which fits the word. */
  function OneAt(shift: nat): (r: nat)
    requires shift < WORD_BITS
    ensures r < WORD_LIMIT
  {
    ShlIsMul(1, shift);
    Pow2Mono(shift + 1, WORD_BITS);
    WordLimit();
    Shl(1, shift)
  }

  lemma SetBitBits(val: nat, shift: nat, flag: nat)
    requires val < WORD_LIMIT && shift < WORD_BITS && flag <= 1
    ensures OneAt(shift) < Pow2(WORD_BITS)
    ensures var r := Or(And(val, Not(WORD_BITS, OneAt(shift))), Shl(flag, shift));
      r < WORD_LIMIT && forall k: nat :: Bit(r, k) == if k == shift then flag == 1 else Bit(val, k)
  {
    WordLimit();
    var r := Or(And(val, Not(WORD_BITS, OneAt(shift))), Shl(flag, shift));
    forall k: nat ensures Bit(r, k) == if k == shift then flag == 1 else Bit(val, k) {
      BitOfOr(And(val, Not(WORD_BITS, OneAt(shift))), Shl(flag, shift), k);
      BitOfAnd(val, Not(WORD_BITS, OneAt(shift)), k);
      BitOfShl(flag, shift, k);
      if k >= shift { SmallBits(flag, k - shift); }
      if k < WORD_BITS {
        BitOfNot(WORD_BITS, OneAt(shift), k);
        BitOfShl(1, shift, k);
        if k >= shift { SmallBits(1, k - shift); }
      } else {
        BitAbove(val, WORD_BITS, k);
      }
    }
    forall k | k >= WORD_BITS ensures !Bit(r, k) { BitAbove(val, WORD_BITS, k); }
    BoundFromBits(r, WORD_BITS);
  }

  lemma SmallBits(flag: nat, k: nat)
    requires flag <= 1
    ensures Bit(flag, k) == (k == 0 && flag == 1)
  {
    if k > 0 { BitOfZero(k - 1); }
  }

  /** The subtree of depth d whose root is bit s. */
  function TreeOf(b: Word, s: nat, d: nat): (t: Tree)
    ensures Perfect(t, d)
    decreases d
  {
    if d == 0 then Leaf else Node(s in b, TreeOf(b, 2 * s + 2, d - 1), TreeOf(b, 2 * s + 1, d - 1))
  }

  /** Bit k is bit s or a node below it. */
  ghost predicate Under(s: nat, k: nat) {
    k == s || (k > s && Under(s, (k - 1) / 2))
  }

  lemma {:induction false} UnderChild(s: nat, c: nat, k: nat)
    requires (c == 2 * s + 1 || c == 2 * s + 2) && Under(c, k)
    ensures Under(s, k) && k != s
    decreases k
  {
    if k == c {
    } else {
      UnderChild(s, c, (k - 1) / 2);
    }
  }

  /** The two halves below a node share no bit. */
  lemma {:induction false} HalvesDisjoint(s: nat, k: nat)
    ensures !(Under(2 * s + 1, k) && Under(2 * s + 2, k))
    decreases k
  {
    if k <= 2 * s + 2 {
    } else {
      HalvesDisjoint(s, (k - 1) / 2);
    }
  }

  /** Changing a bit that is not below s does not change the subtree at s. */
  lemma {:induction false} UpdateOutside(b: Word, s: nat, d: nat, k: nat, v: bool)
    requires !Under(s, k)
    ensures TreeOf(With(b, k, v), s, d) == TreeOf(b, s, d)
    decreases d
  {
    if d == 0 {
    } else {
      if Under(2 * s + 1, k) { UnderChild(s, 2 * s + 1, k); }
      if Under(2 * s + 2, k) { UnderChild(s, 2 * s + 2, k); }
      UpdateOutside(b, 2 * s + 1, d - 1, k, v);
      UpdateOutside(b, 2 * s + 2, d - 1, k, v);
    }
  }

  /** The first of d way bits of w, and the way within its half. */
  function TopBit(d: nat, w: nat): (f: nat)
    requires d >= 1
    ensures f <= 1
  {
    if w >= Pow2(d - 1) then 1 else 0
  }

  function RestOfWay(d: nat, w: nat): (r: nat)
    requires d >= 1 && w < Pow2(d)
    ensures r < Pow2(d - 1)
  {
    if w >= Pow2(d - 1) then w - Pow2(d - 1) else w
  }

  /** The bit a use of way w goes to from bit s. */
  function Child(s: nat, d: nat, w: nat): nat
    requires d >= 1
  {
    2 * s + 2 - TopBit(d, w)
  }

  /** The word after the rest of a use: bit s and what lies below it on the way to w. */
  function TouchWord(b: Word, s: nat, d: nat, w: nat): Word
    requires w < Pow2(d)
    decreases d
  {
    if d == 0 then b else TouchWord(With(b, s, TopBit(d, w) == 1), Child(s, d, w), d - 1, RestOfWay(d, w))
  }

  /** A use at s changes no bit outside. */
  lemma {:induction false} TouchWordKeepsBit(b: Word, s: nat, d: nat, w: nat, k: nat)
    requires w < Pow2(d) && !Under(s, k)
    ensures k in TouchWord(b, s, d, w) <==> k in b
    decreases d
  {
    if d == 0 {
    } else {
      if Under(Child(s, d, w), k) { UnderChild(s, Child(s, d, w), k); }
      TouchWordKeepsBit(With(b, s, TopBit(d, w) == 1), Child(s, d, w), d - 1, RestOfWay(d, w), k);
    }
  }

  /** A use at s changes no subtree apart from it. */
  lemma {:induction false} TouchWordKeepsTree(b: Word, s: nat, d: nat, w: nat, c: nat, e: nat)
    requires w < Pow2(d) && forall k: nat | Under(c, k) :: !Under(s, k)
    ensures TreeOf(TouchWord(b, s, d, w), c, e) == TreeOf(b, c, e)
    decreases e
  {
    if e == 0 {
    } else {
      assert Under(c, c);
      TouchWordKeepsBit(b, s, d, w, c);
      forall k: nat | Under(2 * c + 1, k) ensures !Under(s, k) { UnderChild(c, 2 * c + 1, k); }
      forall k: nat | Under(2 * c + 2, k) ensures !Under(s, k) { UnderChild(c, 2 * c + 2, k); }
      TouchWordKeepsTree(b, s, d, w, 2 * c + 1, e - 1);
      TouchWordKeepsTree(b, s, d, w, 2 * c + 2, e - 1);
    }
  }

  /** The packed update is the tree update. */
  lemma {:induction false} TouchWordIsTouch(b: Word, s: nat, d: nat, w: nat)
    requires w < Pow2(d)
    ensures TreeOf(TouchWord(b, s, d, w), s, d) == Touch(TreeOf(b, s, d), d, w)
    decreases d
  {
    if d == 0 {
    } else {
      var f, c, o, rest := TopBit(d, w), Child(s, d, w), 2 * s + 1 + TopBit(d, w), RestOfWay(d, w);
      var v := With(b, s, f == 1);
      TouchWordIsTouch(v, c, d - 1, rest);
      assert !Under(c, s) && !Under(o, s);
      TouchWordKeepsBit(v, c, d - 1, rest, s);
      forall k: nat | Under(o, k) ensures !Under(c, k) { HalvesDisjoint(s, k); }
      TouchWordKeepsTree(v, c, d - 1, rest, o, d - 1);
      UpdateOutside(b, c, d - 1, s, f == 1);
      UpdateOutside(b, o, d - 1, s, f == 1);
    }
  }

  /** Bit k is one of the nodes of the subtree of depth d at s. */
  ghost predicate InTree(s: nat, d: nat, k: nat)
    decreases d
  {
    d > 0 && (k == s || InTree(2 * s + 1, d - 1, k) || InTree(2 * s + 2, d - 1, k))
  }

  lemma {:induction false} InTreeDeeper(s: nat, d: nat, k: nat)
    requires InTree(s, d, k)
    ensures InTree(s, d + 1, 2 * k + 1) && InTree(s, d + 1, 2 * k + 2)
    decreases d
  {
    if k == s {
      assert InTree(2 * s + 1, d, 2 * k + 1) && InTree(2 * s + 2, d, 2 * k + 2);
    } else if InTree(2 * s + 1, d - 1, k) {
      InTreeDeeper(2 * s + 1, d - 1, k);
    } else {
      InTreeDeeper(2 * s + 2, d - 1, k);
    }
  }

  /** The tree of Pow2(d) ways uses every bit below Pow2(d) - 1 ... */
  lemma {:induction false} LowBitsInTree(d: nat, k: nat)
    requires k < Pow2(d) - 1
    ensures InTree(0, d, k)
    decreases d
  {
    if k == 0 {
    } else {
      LowBitsInTree(d - 1, (k - 1) / 2);
      InTreeDeeper(0, d - 1, (k - 1) / 2);
    }
  }

  /** ... and no other one. */
  lemma {:induction false} HighBitsNotInTree(s: nat, d: nat, k: nat, limit: nat)
    requires (s + 2) * Pow2(d) <= 2 * (limit + 1) && k >= limit
    ensures !InTree(s, d, k)
    decreases d
  {
    if d == 0 {
    } else {
      var h := Pow2(d - 1);
      assert (s + 2) * (2 * h) == 2 * ((s + 2) * h);
      assert (2 * s + 4) * h == 2 * ((s + 2) * h) && (2 * s + 3) * h == (2 * s + 4) * h - h;
      MulMono(1, h, s + 2);
      assert h * (s + 2) == (s + 2) * h;
      HighBitsNotInTree(2 * s + 1, d - 1, k, limit);
      HighBitsNotInTree(2 * s + 2, d - 1, k, limit);
    }
  }

  lemma {:induction false} TouchWordStaysInTree(b: Word, s: nat, d: nat, w: nat, k: nat)
    requires w < Pow2(d) && !InTree(s, d, k)
    ensures k in TouchWord(b, s, d, w) <==> k in b
    decreases d
  {
    if d == 0 {
    } else {
      TouchWordStaysInTree(With(b, s, TopBit(d, w) == 1), Child(s, d, w), d - 1, RestOfWay(d, w), k);
    }
  }

  /** The tree of Pow2(d) ways uses exactly the bits below Pow2(d) - 1. */
  lemma InTreeIff(d: nat, k: nat)
    ensures InTree(0, d, k) <==> k < Pow2(d) - 1
  {
    if k < Pow2(d) - 1 {
      LowBitsInTree(d, k);
    } else {
      HighBitsNotInTree(0, d, k, Pow2(d) - 1);
    }
  }

  /** A use changes no bit at or above the number of ways minus one. */
  lemma HighBitsStay(b: Word, d: nat, w: nat, k: nat)
    requires w < Pow2(d) && k >= Pow2(d) - 1
    ensures k in WordTouch(b, d, w) <==> k in b
  {
    InTreeIff(d, k);
    TouchWordStaysInTree(b, 0, d, w, k);
  }

  lemma {:induction false} EqualTreesEqualBits(a: Word, b: Word, s: nat, d: nat, k: nat)
    requires InTree(s, d, k) && TreeOf(a, s, d) == TreeOf(b, s, d)
    ensures k in a <==> k in b
    decreases d
  {
    if k == s {
    } else {
      if InTree(2 * s + 1, d - 1, k) {
        EqualTreesEqualBits(a, b, 2 * s + 1, d - 1, k);
      } else {
        EqualTreesEqualBits(a, b, 2 * s + 2, d - 1, k);
      }
    }
  }

  /** The nodes at depths below MAX_DEPTH are bits of the word. */
  lemma NodeFits(i: nat, s: nat)
    requires i < MAX_DEPTH && s + 2 <= Pow2(i + 1)
    ensures s < WORD_BITS
  {
    Pow2Mono(i + 1, MAX_DEPTH);
    WordLimit();
  }

  /** The way bits found so far, followed by those of a walk through the subtree at s away from the last use. */
  function Walk(b: Word, s: nat, r: nat, way: nat): nat
    decreases r
  {
    if r == 0 then way else
      var flag := if s in b then 1 else 0;
      Walk(b, 2 * s + flag + 1, r - 1, 2 * way + (1 - flag))
  }

  lemma {:induction false} WalkFindsVictim(b: Word, s: nat, r: nat, way: nat)
    ensures Walk(b, s, r, way) == Shl(way, r) + Victim(TreeOf(b, s, r), r)
    decreases r
  {
    if r == 0 {
    } else {
      var flag := if s in b then 1 else 0;
      WalkFindsVictim(b, 2 * s + flag + 1, r - 1, 2 * way + (1 - flag));
      ShlAppend(way, 1 - flag, r - 1);
    }
  }

  /** The update driven by the way bits themselves, the highest of the r low ones first. */
  function Mark(b: Word, s: nat, r: nat, way: nat): Word
    decreases r
  {
    if r == 0 then b else
      var flag := if Bit(way, r - 1) then 1 else 0;
      Mark(With(b, s, flag == 1), 2 * s + 2 - flag, r - 1, way)
  }

  lemma {:induction false} MarkIsTouch(b: Word, s: nat, r: nat, way: nat)
    ensures Mark(b, s, r, way) == TouchWord(b, s, r, Low(way, r))
    decreases r
  {
    if r == 0 {
    } else {
      var flag := if Bit(way, r - 1) then 1 else 0;
      LowSplit(way, r);
      assert TopBit(r, Low(way, r)) == flag && RestOfWay(r, Low(way, r)) == Low(way, r - 1);
      MarkIsTouch(With(b, s, flag == 1), 2 * s + 2 - flag, r - 1, way);
    }
  }

  // ---- The operations of the cache model on the word of one set ----

  function WordVictim(b: Word, d: nat): (w: nat)
    ensures w < Pow2(d)
  {
    Victim(TreeOf(b, 0, d), d)
  }

  function WordTouch(b: Word, d: nat, w: nat): (r: Word)
    requires w < Pow2(d)
    ensures TreeOf(r, 0, d) == Touch(TreeOf(b, 0, d), d, w)
  {
    TouchWordIsTouch(b, 0, d, w);
    TouchWord(b, 0, d, w)
  }

  /** The word after k replacements in a row. */
  function WordEvict(b: Word, d: nat, k: nat): (r: Word)
    ensures TreeOf(r, 0, d) == Evict(TreeOf(b, 0, d), d, k)
  {
    if k == 0 then b else
      var u := WordEvict(b, d, k - 1);
      WordTouch(u, d, WordVictim(u, d))
  }

  lemma {:induction false} WordEvictKeepsHighBits(b: Word, d: nat, k: nat, n: nat)
    requires n >= Pow2(d) - 1
    ensures n in WordEvict(b, d, k) <==> n in b
  {
    if k == 0 {
    } else {
      WordEvictKeepsHighBits(b, d, k - 1, n);
      var u := WordEvict(b, d, k - 1);
      HighBitsStay(u, d, WordVictim(u, d), n);
    }
  }

  /**
   * Straight misses, from any word: as many replacements as there are ways pick every way exactly once,
   * and leave the word as it was, the bits that belong to no node included.
   */
  lemma FullTurn(b: Word, d: nat)
    ensures WordEvict(b, d, Pow2(d)) == b
    ensures forall w: nat, k: nat | w < Pow2(d) && k < Pow2(d) ::
      WordVictim(WordEvict(b, d, k), d) == w <==> k == TurnOf(TreeOf(b, 0, d), d, w)
  {
    var t := TreeOf(b, 0, d);
    var r := WordEvict(b, d, Pow2(d));
    FullTurnRestores(t, d);
    forall n: nat ensures n in r <==> n in b {
      InTreeIff(d, n);
      if n < Pow2(d) - 1 {
        EqualTreesEqualBits(r, b, 0, d, n);
      } else {
        WordEvictKeepsHighBits(b, d, Pow2(d), n);
      }
    }
    forall w: nat, k: nat | w < Pow2(d) && k < Pow2(d)
      ensures WordVictim(WordEvict(b, d, k), d) == w <==> k == TurnOf(t, d, w)
    {
      EveryWayOnce(t, d, w, k);
    }
  }
}
