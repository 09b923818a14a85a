/** The bit writer and the bit reader, each as a sequence of bits it appends to or takes from. */
module BitStream {
  import opened Arithmetic
  import opened Bits
  import opened BitSequence

  type UInt32 = n: nat | n < 0x1_0000_0000

  lemma WordSizes()
    ensures Pow2(3) == 8 && Pow2(8) == 256 && Pow2(32) == 0x1_0000_0000
  {
    assert Pow2(4) == 16;
    assert Pow2(16) == 0x1_0000;
    assert Pow2(24) == 0x100_0000;
  }

  /** `( uiBits & ( ~0 << n ) ) != 0`: the value does not fit n bits. */
  predicate HasHighBits(uiBits: UInt32, n: nat) {
    And(uiBits, Low(Shl(0xFFFF_FFFF, n), 32)) != 0
  }

  lemma HighBitsIff(uiBits: UInt32, n: nat)
    requires n < 32
    ensures HasHighBits(uiBits, n) <==> uiBits >= Pow2(n)
  {
    var mask := Low(Shl(0xFFFF_FFFF, n), 32);
    WordSizes();
    forall k: nat ensures Bit(And(uiBits, mask), k) == (k >= n && Bit(uiBits, k)) {
      BitOfAnd(uiBits, mask, k);
      if k < 32 { BitOfMask(n, k); } else { BitAbove(uiBits, 32, k); }
    }
    if And(uiBits, mask) == 0 {
      forall k: nat | k >= n ensures !Bit(uiBits, k) {
        BitOfZero(k);
        assert Bit(And(uiBits, mask), k) == (k >= n && Bit(uiBits, k));
      }
      BoundFromBits(uiBits, n);
    } else if uiBits < Pow2(n) {
      forall k: nat ensures Bit(And(uiBits, mask), k) == Bit(0, k) {
        BitOfZero(k);
        if k >= n { BitAbove(uiBits, n, k); }
      }
      SameBits(And(uiBits, mask), 0);
    }
  }

  lemma BitOfMask(n: nat, k: nat)
    requires n < 32 && k < 32
    ensures Bit(Low(Shl(0xFFFF_FFFF, n), 32), k) == (k >= n)
  {
    BitOfLow(Shl(0xFFFF_FFFF, n), 32, k);
    BitOfShl(0xFFFF_FFFF, n, k);
    if k >= n {
      WordSizes();
      BitOfNot(32, 0, k - n);
      BitOfZero(k - n);
    }
  }

  /** The k low bytes of a word, the highest of them first, as the fall-through switch pushes them. */
  function LowBytes(v: nat, k: nat): (s: seq<Byte>)
    ensures |s| == k
  {
    if k == 0 then [] else
      WordSizes();
      [Low(Shr(v, 8 * (k - 1)), 8)] + LowBytes(v, k - 1)
  }

  lemma {:induction false} LowBytesBits(v: nat, k: nat)
    ensures BytesBits(LowBytes(v, k)) == BitsMsb(v, 8 * k)
  {
    if k == 0 {
    } else {
      LowBytesBits(v, k - 1);
      WordSizes();
      BitsSplit(v, 8, 8 * (k - 1), 8 * k);
      BitsOfLow(Shr(v, 8 * (k - 1)), 8, 8);
      assert LowBytes(v, k)[1..] == LowBytes(v, k - 1);
    }
  }

  /** The bits held, at the top of a byte ... */
  function HeldBits(held: nat, num: nat): (b: seq<bool>)
    requires num <= 8
    ensures |b| == num
  {
    BitsMsb(Shr(held, 8 - num), num)
  }

  /** ... that is otherwise empty. */
  predicate Topped(held: nat, num: nat)
    requires num <= 8
  {
    Low(held, 8 - num) == 0
  }

  // ---- The three words a write works with, in terms of the bits held and the bits given ----

  /** Bits held in front, n new bits behind, cut after whole bytes. */
  lemma JoinAndCut(h: nat, u: nat, num: nat, n: nat, next: nat, m: nat, total: nat, x: nat)
    requires u < Pow2(n) && n == m + next && total == num + m && x == Shl(h, m) + Shr(u, next)
    ensures BitsMsb(h, num) + BitsMsb(u, n) == BitsMsb(x, total) + BitsMsb(u, next)
  {
    var r := Shr(u, next);
    BitsSplit(u, m, next, n);
    ShrBound(u, n, next, m);
    BitsConcat(h, r, num, m, total, x);
    Reassociate(BitsMsb(h, num), BitsMsb(r, m), BitsMsb(u, next));
  }

  /** Or-ing words that do not overlap, in 32 bits. */
  lemma JoinedWord(h: nat, r: nat, num: nat, m: nat, total: nat)
    requires h < Pow2(num) && r < Pow2(m) && total == num + m <= 32
    ensures Or(Low(Shl(h, m), 32), r) == Shl(h, m) + r < Pow2(total)
  {
    JoinedBound(h, r, num, m, total);
    ShlBound(h, num, m, total);
    Pow2Mono(num + m, 32);
    LowOfSmall(Shl(h, m), 32);
    OrIsSum(h, r, m);
  }

  /** `m_held_bits << topword | uiBits >> next` joins the held bits with the upper new bits. */
  lemma WriteBits(h: nat, u: nat, num: nat, n: nat, next: nat, topword: nat, m: nat)
    requires h < Pow2(num) && u < Pow2(n) && n == m + next && num < 8
    requires num == 0 || 8 - num + topword == m
    requires num + m <= 32
    ensures Or(Low(Shl(Shl(h, 8 - num), topword), 32), Shr(u, next)) == Shl(h, m) + Shr(u, next)
  {
    ShrBound(u, n, next, m);
    ShlShl(h, 8 - num, topword, 8 - num + topword);
    if num == 0 {
      ShlOfZero(8 - num + topword);
      ShlOfZero(m);
      LowOfZero(32);
    } else {
      assert Shl(Shl(h, 8 - num), topword) == Shl(h, m);
      JoinedWord(h, Shr(u, next), num, m, num + m);
    }
  }

  lemma {:induction false} LowOfZero(n: nat)
    ensures Low(0, n) == 0
  {
    if n == 0 {
    } else {
      LowOfZero(n - 1);
    }
  }

  lemma {:induction false} ShlOfZero(k: nat)
    ensures Shl(0, k) == 0
  {
    if k == 0 {
    } else {
      ShlOfZero(k - 1);
    }
  }

  /** `uiBits << ( 8 - next )`, truncated to a byte, holds exactly the last `next` bits, at the top. */
  lemma NextHeld(u: nat, next: nat)
    requires next < 8
    ensures var held := Low(Shl(u, 8 - next), 8);
      held < 256 && Topped(held, next) && HeldBits(held, next) == BitsMsb(u, next)
  {
    var up := Shl(u, 8 - next);
    var held := Low(up, 8);
    WordSizes();
    ShrBack(u, 8 - next);
    BitsOfLow(up, 8, 8);
    BitsSplit(held, next, 8 - next, 8);
    BitsSplit(up, next, 8 - next, 8);
    assert BitsMsb(held, 8)[..next] == HeldBits(held, next);
    assert BitsMsb(up, 8)[..next] == HeldBits(up, next);
    LowOfLow(up, 8, 8 - next);
    LowOfShl(u, 8 - next, 8 - next);
  }

  /** Shifting up and down again. */
  lemma ShrBack(v: nat, k: nat)
    ensures Shr(Shl(v, k), k) == v
  {
    ShrOfSum(v, 0, k, k);
    ShrOfZero(k);
  }

  lemma {:induction false} ShrOfZero(k: nat)
    ensures Shr(0, k) == 0
  {
    if k == 0 {
    } else {
      ShrOfZero(k - 1);
    }
  }

  lemma {:induction false} LowOfLow(v: nat, m: nat, n: nat)
    requires n <= m
    ensures Low(Low(v, m), n) == Low(v, n)
  {
    if n == 0 {
    } else {
      LowOfLow(v / 2, m - 1, n - 1);
    }
  }

  /** Or-ing new bits below held ones, when together they do not fill the byte. */
  lemma HeldGrows(h: nat, u: nat, num: nat, n: nat, free: nat, up: nat, total: nat, held: nat)
    requires num + n + free == 8 && up == n + free && total == num + n && h < Pow2(num) && u < Pow2(n)
    requires held == Or(Shl(h, up), Low(Shl(u, free), 8))
    ensures held < 256 && Low(held, free) == 0 && BitsMsb(Shr(held, free), total) == BitsMsb(h, num) + BitsMsb(u, n)
  {
    var x := Shl(h, n) + u;
    ShlBound(u, n, free, up);
    FitsByte(Shl(u, free), up);
    SumIsShifted(h, u, n, free, up, x, Shl(u, free));
    GrownWord(h, u, num, n, free, total, x, held);
  }

  lemma GrownWord(h: nat, u: nat, num: nat, n: nat, free: nat, total: nat, x: nat, held: nat)
    requires num + n + free == 8 && total == num + n && h < Pow2(num) && u < Pow2(n)
    requires x == Shl(h, n) + u && held == Shl(x, free)
    ensures held < 256 && Low(held, free) == 0 && BitsMsb(Shr(held, free), total) == BitsMsb(h, num) + BitsMsb(u, n)
  {
    WordSizes();
    JoinedBound(h, u, num, n, total);
    ShiftedWord(x, total, free, 8);
    BitsConcat(h, u, num, n, total, x);
  }

  lemma ShiftedWord(x: nat, n: nat, free: nat, total: nat)
    requires x < Pow2(n) && total == n + free
    ensures Shl(x, free) < Pow2(total) && Low(Shl(x, free), free) == 0 && Shr(Shl(x, free), free) == x
  {
    ShlBound(x, n, free, total);
    LowOfShl(x, free, free);
    ShrBack(x, free);
  }

  lemma JoinedBound(h: nat, u: nat, num: nat, n: nat, total: nat)
    requires h < Pow2(num) && u < Pow2(n) && total == num + n
    ensures Shl(h, n) + u < Pow2(total)
  {
    ShlBound(h, num, n, total);
  }

  /** Or-ing the two shifted words is shifting their sum. */
  lemma SumIsShifted(h: nat, u: nat, n: nat, free: nat, up: nat, x: nat, w: nat)
    requires up == n + free && w == Shl(u, free) && w < Pow2(up) && x == Shl(h, n) + u
    ensures Or(Shl(h, up), w) == Shl(x, free)
  {
    OrIsSum(h, w, up);
    ShlShl(h, n, free, up);
    ShlSum(Shl(h, n), u, free, x);
  }

  /** Truncating to a byte loses nothing. */
  lemma FitsByte(w: nat, up: nat)
    requires w < Pow2(up) && up <= 8
    ensures Low(w, 8) == w
  {
    Pow2Mono(up, 8);
    LowOfSmall(w, 8);
  }

  lemma {:induction false} ShlSum(a: nat, b: nat, k: nat, x: nat)
    requires x == a + b
    ensures Shl(x, k) == Shl(a, k) + Shl(b, k)
  {
    if k == 0 {
    } else {
      ShlSum(a, b, k - 1, x);
    }
  }

  class OutputBitstream {
    var m_fifo: seq<Byte>
    var m_num_held_bits: nat
    var m_held_bits: Byte

    /** Fewer than eight bits are held, at the top of an otherwise empty byte. */
    ghost predicate Valid()
      reads this
    {
      m_num_held_bits < 8 && Topped(m_held_bits, m_num_held_bits)
    }

    /** Everything written since the last `clear`. */
    ghost function Contents(): (b: seq<bool>)
      requires Valid()
      reads this
    {
      BytesBits(m_fifo) + HeldBits(m_held_bits, m_num_held_bits)
    }

    constructor ()
      ensures Valid() && Contents() == []
    {
      m_fifo, m_num_held_bits, m_held_bits := [], 0, 0;
      new;
      LowOfShl(0, 8, 8);
      ShlOfZero(8);
    }

    method Clear()
      modifies this
      ensures Valid() && Contents() == []
    {
      m_fifo, m_num_held_bits, m_held_bits := [], 0, 0;
      LowOfShl(0, 8, 8);
      ShlOfZero(8);
    }

    function GetNumberOfWrittenBits(): (n: nat)
      requires Valid()
      reads this
      ensures n == |Contents()|
    {
      8 * |m_fifo| + m_num_held_bits
    }

    function GetNumBitsUntilByteAligned(): (n: nat)
      requires Valid()
      reads this
      ensures n < 8 && (|Contents()| + n) % 8 == 0
    {
      (8 - m_num_held_bits) % 8
    }

    /**
     * Appends the n low bits of uiBits. The call fails, changing nothing, exactly when n is over 32 or the value
     * does not fit n bits.
     */
    method Write(uiBits: UInt32, uiNumberOfBits: nat) returns (ok: bool)
      requires Valid()
      modifies this
      ensures Valid()
      ensures ok <==> uiNumberOfBits <= 32 && uiBits < Pow2(uiNumberOfBits)
      ensures ok ==> Contents() == old(Contents()) + BitsMsb(uiBits, uiNumberOfBits)
      ensures !ok ==> unchanged(this)
    {
      if uiNumberOfBits > 32 {
        return false;
      }
      WordSizes();
      if uiNumberOfBits < 32 { HighBitsIff(uiBits, uiNumberOfBits); }
      if uiNumberOfBits != 32 && HasHighBits(uiBits, uiNumberOfBits) {
        return false;
      }
      ok := true;
      var num_total_bits := uiNumberOfBits + m_num_held_bits;
      var next_num_held_bits := num_total_bits % 8;
      if num_total_bits / 8 == 0 {
        Hold(uiBits, uiNumberOfBits);
      } else {
        Flush(uiBits, uiNumberOfBits, num_total_bits / 8, next_num_held_bits);
      }
    }

    /** Fills the last byte with ones. */
    method WriteAlignOne()
      requires Valid()
      modifies this
      ensures Valid() && |Contents()| % 8 == 0 && m_num_held_bits == 0
      ensures Contents() == old(Contents()) + Repeat(true, old(GetNumBitsUntilByteAligned()))
    {
      var num_bits := GetNumBitsUntilByteAligned();
      WordSizes();
      Pow2Mono(num_bits, 8);
      var ones := Pow2(num_bits) - 1;
      OnesBits(num_bits, ones);
      var ok := Write(ones, num_bits);
      NoneHeld(|m_fifo|, m_num_held_bits);
    }

    /** Fills the last byte with zeros. */
    method WriteAlignZero()
      requires Valid()
      modifies this
      ensures Valid() && |Contents()| % 8 == 0 && m_num_held_bits == 0
      ensures Contents() == old(Contents()) + Repeat(false, old(GetNumBitsUntilByteAligned()))
    {
      if m_num_held_bits == 0 {
        NoneHeld(|m_fifo|, 0);
        assert Contents() + Repeat(false, 0) == Contents();
        return;
      }
      ghost var free := GetNumBitsUntilByteAligned();
      assert free == 8 - m_num_held_bits;
      PaddedByte(m_fifo, m_held_bits, m_num_held_bits, free);
      m_fifo := m_fifo + [m_held_bits];
      DropHeld();
    }

    /** `m_held_bits = 0; m_num_held_bits = 0;` */
    method DropHeld()
      modifies this`m_held_bits, this`m_num_held_bits
      ensures Valid() && m_num_held_bits == 0 && Contents() == BytesBits(m_fifo) && |Contents()| % 8 == 0
    {
      m_held_bits := 0;
      m_num_held_bits := 0;
      LowOfShl(0, 8, 8);
      ShlOfZero(8);
    }

    /** Ends the payload: a one, then zeros up to the byte boundary. */
    method WriteByteAlignment()
      requires Valid()
      modifies this
      ensures Valid() && |Contents()| % 8 == 0 && m_num_held_bits == 0
      ensures Contents() == old(Contents()) + [true] + Repeat(false, (7 - |old(Contents())| % 8) % 8)
    {
      ghost var was := Contents();
      var ok := Write(1, 1);
      assert BitsMsb(1, 1) == [true] by { assert BitsMsb(0, 0) == []; }
      ghost var free := GetNumBitsUntilByteAligned();
      ToTheByte(|was|, free);
      WriteAlignZero();
    }

    /** Appends everything written to another stream, aligned or not. */
    method AddSubstream(pcSubstream: OutputBitstream)
      requires Valid() && pcSubstream.Valid() && pcSubstream != this
      modifies this
      ensures Valid() && Contents() == old(Contents()) + pcSubstream.Contents()
    {
      var uiNumBits := pcSubstream.GetNumberOfWrittenBits();
      NoneHeld(|pcSubstream.m_fifo|, pcSubstream.m_num_held_bits);
      ghost var before, bytes := Contents(), BytesBits(pcSubstream.m_fifo);
      AddBytes(pcSubstream.m_fifo);
      AddHeld(pcSubstream.m_held_bits, uiNumBits % 8);
      Reassociate(before, bytes, HeldBits(pcSubstream.m_held_bits, uiNumBits % 8));
    }

    method AddHeld(held: Byte, rest: nat)
      requires Valid() && rest < 8 && Topped(held, rest)
      modifies this
      ensures Valid() && Contents() == old(Contents()) + HeldBits(held, rest)
    {
      if rest != 0 {
        HeldTop(held, rest);
        Pow2Mono(rest, 8);
        WordSizes();
        var ok := Write(Shr(held, 8 - rest), rest);
      }
    }

    method AddBytes(rbsp: seq<Byte>)
      requires Valid()
      modifies this
      ensures Valid() && Contents() == old(Contents()) + BytesBits(rbsp)
    {
      WordSizes();
      ghost var bits := BytesBits(rbsp);
      for i := 0 to |rbsp|
        invariant Valid() && Contents() + BytesBits(rbsp[i..]) == old(Contents()) + bits
      {
        ghost var before := Contents();
        assert rbsp[i..][1..] == rbsp[i + 1..];
        var ok := Write(rbsp[i], 8);
        Reassociate(before, BitsMsb(rbsp[i], 8), BytesBits(rbsp[i + 1..]));
      }
    }

    /** Not enough bits for a byte: the new ones join the held ones. */
    method Hold(uiBits: UInt32, n: nat)
      requires Valid() && m_num_held_bits + n < 8 && uiBits < Pow2(n)
      modifies this
      ensures Valid() && Contents() == old(Contents()) + BitsMsb(uiBits, n)
    {
      var next_num_held_bits := n + m_num_held_bits;
      var next_held_bits := NextHeldBits(uiBits, next_num_held_bits);
      var held := Or(m_held_bits, next_held_bits);
      HoldContents(m_fifo, m_held_bits, m_num_held_bits, uiBits, n, next_num_held_bits, held);
      m_held_bits := held;
      m_num_held_bits := next_num_held_bits;
    }

    /** Whole bytes are pushed, the remainder is held. */
    method Flush(uiBits: UInt32, n: nat, bytes: nat, next_num_held_bits: nat)
      requires Valid() && n <= 32 && uiBits < Pow2(n)
      requires n + m_num_held_bits == 8 * bytes + next_num_held_bits && 1 <= bytes && next_num_held_bits < 8
      modifies this
      ensures Valid() && Contents() == old(Contents()) + BitsMsb(uiBits, n)
    {
      var topword := (n - next_num_held_bits) / 8 * 8;
      TopWord(n, m_num_held_bits, bytes, next_num_held_bits);
      var next_held_bits := NextHeldBits(uiBits, next_num_held_bits);
      var write_bits := Or(Low(Shl(m_held_bits, topword), 32), Shr(uiBits, next_num_held_bits));
      FlushContents(m_fifo, m_held_bits, m_num_held_bits, uiBits, n, bytes, next_num_held_bits, topword);
      m_fifo := m_fifo + LowBytes(write_bits, bytes);
      m_held_bits := next_held_bits;
      m_num_held_bits := next_num_held_bits;
    }

    /** `uiBits << ( 8 - next_num_held_bits )` as a byte. */
    static function NextHeldBits(uiBits: UInt32, next_num_held_bits: nat): Byte
      requires next_num_held_bits < 8
    {
      WordSizes();
      Low(Shl(uiBits, 8 - next_num_held_bits), 8)
    }
  }

  /** What is held is what whole bytes leave. */
  lemma NoneHeld(bytes: nat, num: nat)
    requires num < 8
    ensures (8 * bytes + num) % 8 == num
  {
  }

  lemma ToTheByte(n: nat, free: nat)
    requires free < 8 && (n + 1 + free) % 8 == 0
    ensures free == (7 - n % 8) % 8
  {
  }

  lemma PaddedByte(fifo: seq<Byte>, held: Byte, num: nat, free: nat)
    requires 0 < num < 8 && Topped(held, num) && free == 8 - num
    ensures BytesBits(fifo + [held]) == BytesBits(fifo) + HeldBits(held, num) + Repeat(false, free)
  {
    HeldThenZeros(held, num);
    BytesAppend(fifo, [held]);
    OneByte(held);
    Reassociate(BytesBits(fifo), HeldBits(held, num), Repeat(false, free));
  }

  /** How far the held byte moves: to just above the new bits that complete whole bytes. */
  lemma TopWord(n: nat, num: nat, bytes: nat, next: nat)
    requires n + num == 8 * bytes + next && 1 <= bytes && num < 8 && next < 8
    ensures (n - next) / 8 * 8 == if num == 0 then 8 * bytes else 8 * (bytes - 1)
  {
  }

  /** The held byte is the held bits shifted to its top. */
  lemma HeldTop(held: Byte, num: nat)
    requires num < 8 && Topped(held, num)
    ensures Shr(held, 8 - num) < Pow2(num) && Shl(Shr(held, 8 - num), 8 - num) == held
  {
    WordSizes();
    ShrBound(held, 8, 8 - num, num);
    ShrShl(held, 8 - num);
  }

  /** The bytes pushed and the bits held next are the bits held before and the bits given. */
  lemma TopWordFits(num: nat, n: nat, bytes: nat, next: nat, topword: nat, m: nat)
    requires num < 8 && n + num == 8 * bytes + next && n == m + next && n <= 32
    requires 1 <= bytes && topword == if num == 0 then 8 * bytes else 8 * (bytes - 1)
    ensures (num == 0 || 8 - num + topword == m) && num + m == 8 * bytes <= 32 + 7 && (num + m) % 8 == 0 && num + m <= 32
  {
  }

  lemma FlushBits(h: nat, num: nat, u: nat, n: nat, bytes: nat, next: nat, topword: nat, word: nat, m: nat)
    requires h < Pow2(num) && u < Pow2(n) && n <= 32 && num < 8 && next < 8 && n == m + next
    requires n + num == 8 * bytes + next && 1 <= bytes && topword == if num == 0 then 8 * bytes else 8 * (bytes - 1)
    requires word == Or(Low(Shl(Shl(h, 8 - num), topword), 32), Shr(u, next))
    ensures BytesBits(LowBytes(word, bytes)) + BitsMsb(u, next) == BitsMsb(h, num) + BitsMsb(u, n)
  {
    TopWordFits(num, n, bytes, next, topword, m);
    WriteBits(h, u, num, n, next, topword, m);
    JoinAndCut(h, u, num, n, next, m, 8 * bytes, word);
    LowBytesBits(word, bytes);
  }

  lemma FlushContents(fifo: seq<Byte>, held: Byte, num: nat, u: UInt32, n: nat, bytes: nat, next: nat, topword: nat)
    requires num < 8 && Topped(held, num) && u < Pow2(n) && n <= 32 && next < 8
    requires n + num == 8 * bytes + next && 1 <= bytes && topword == if num == 0 then 8 * bytes else 8 * (bytes - 1)
    ensures var h, word := OutputBitstream.NextHeldBits(u, next), Or(Low(Shl(held, topword), 32), Shr(u, next));
      && Topped(h, next)
      && BytesBits(fifo + LowBytes(word, bytes)) + HeldBits(h, next)
         == BytesBits(fifo) + HeldBits(held, num) + BitsMsb(u, n)
  {
    var word := Or(Low(Shl(held, topword), 32), Shr(u, next));
    HeldTop(held, num);
    NextHeld(u, next);
    FlushBits(Shr(held, 8 - num), num, u, n, bytes, next, topword, word, n - next);
    BytesAppend(fifo, LowBytes(word, bytes));
    Regroup(BytesBits(fifo), BytesBits(LowBytes(word, bytes)), BitsMsb(u, next), HeldBits(held, num), BitsMsb(u, n));
  }

  lemma Regroup(a: seq<bool>, b: seq<bool>, c: seq<bool>, d: seq<bool>, e: seq<bool>)
    requires b + c == d + e
    ensures a + b + c == a + d + e
  {
    assert a + b + c == a + (b + c);
    assert a + d + e == a + (d + e);
  }

  lemma HoldContents(fifo: seq<Byte>, held: Byte, num: nat, u: UInt32, n: nat, next: nat, r: nat)
    requires num + n == next < 8 && Topped(held, num) && u < Pow2(n) && r == Or(held, OutputBitstream.NextHeldBits(u, next))
    ensures r < 256 && Topped(r, next)
    ensures BytesBits(fifo) + HeldBits(r, next) == BytesBits(fifo) + HeldBits(held, num) + BitsMsb(u, n)
  {
    HeldTop(held, num);
    HeldGrows(Shr(held, 8 - num), u, num, n, 8 - next, 8 - num, next, r);
    Reassociate(BytesBits(fifo), HeldBits(held, num), BitsMsb(u, n));
  }

  lemma Reassociate(a: seq<bool>, b: seq<bool>, c: seq<bool>)
    ensures a + b + c == a + (b + c)
  {
  }

  function Repeat(b: bool, n: nat): (s: seq<bool>)
    ensures |s| == n
  {
    if n == 0 then [] else [b] + Repeat(b, n - 1)
  }

  lemma {:induction false} RepeatSnoc(b: bool, n: nat)
    ensures Repeat(b, n + 1) == Repeat(b, n) + [b]
  {
    if n == 0 {
    } else {
      RepeatSnoc(b, n - 1);
    }
  }

  lemma {:induction false} OnesBits(n: nat, v: nat)
    requires v == Pow2(n) - 1
    ensures BitsMsb(v, n) == Repeat(true, n)
  {
    if n == 0 {
    } else {
      OnesBits(n - 1, v / 2);
      RepeatSnoc(true, n - 1);
    }
  }

  lemma {:induction false} ZeroBits(v: nat, n: nat)
    requires Low(v, n) == 0
    ensures BitsMsb(v, n) == Repeat(false, n)
  {
    if n == 0 {
    } else {
      ZeroBits(v / 2, n - 1);
      RepeatSnoc(false, n - 1);
    }
  }

  /** The held byte as it is pushed: the held bits, then zeros. */
  lemma HeldThenZeros(held: Byte, num: nat)
    requires num < 8 && Topped(held, num)
    ensures BitsMsb(held, 8) == HeldBits(held, num) + Repeat(false, 8 - num)
  {
    BitsSplit(held, num, 8 - num, 8);
    ZeroBits(held, 8 - num);
  }
}
