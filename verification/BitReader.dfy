/** The bit reader, and the round trips between writer and reader. */
module BitReader {
  import opened Arithmetic
  import opened Bits
  import opened BitSequence
  import opened BitStream

  /** `x & ~( 0xff << n )` for a byte x: its n low bits. */
  function MaskLow(x: Byte, n: nat): nat
    requires n <= 32
  {
    WordSizes();
    And(x, Not(32, Low(Shl(0xff, n), 32)))
  }

  lemma MaskLowIsLow(x: Byte, n: nat)
    requires n <= 8
    ensures MaskLow(x, n) == Low(x, n)
  {
    forall k: nat ensures Bit(MaskLow(x, n), k) == Bit(Low(x, n), k) {
      MaskedBit(x, n, k);
    }
    SameBits(MaskLow(x, n), Low(x, n));
  }

  lemma MaskedBit(x: Byte, n: nat, k: nat)
    requires n <= 8
    ensures Bit(MaskLow(x, n), k) == Bit(Low(x, n), k)
  {
    BitOfAnd(x, Not(32, Low(Shl(0xff, n), 32)), k);
    WordSizes();
    if k >= 8 {
      BitAbove(x, 8, k);
      BitAbove(Low(x, n), n, k);
    } else {
      UnmaskedBit(n, k);
      if k < n {
        BitOfLow(x, n, k);
      } else {
        BitAbove(Low(x, n), n, k);
      }
    }
  }

  /** The mask keeps the bits below n. */
  lemma UnmaskedBit(n: nat, k: nat)
    requires n <= 8 && k < 8
    ensures Bit(Not(32, Low(Shl(0xff, n), 32)), k) <==> k < n
  {
    BitOfNot(32, Low(Shl(0xff, n), 32), k);
    BitOfLow(Shl(0xff, n), 32, k);
    BitOfShl(0xff, n, k);
    if k >= n {
      LowByteOnes(k - n);
    }
  }

  /** In numbers, it is the remainder modulo 2^n. */
  lemma MaskLowIsMod(x: Byte, n: nat)
    requires n <= 8
    ensures MaskLow(x, n) == x % Pow2(n)
  {
    MaskLowIsLow(x, n);
    LowIsMod(x, n);
  }

  lemma LowByteOnes(k: nat)
    requires k < 8
    ensures Bit(0xff, k)
  {
    WordSizes();
    BitOfNot(8, 0, k);
    BitOfZero(k);
  }

  /** The word the fall-through switch loads: k bytes, the first of them on top. */
  function LoadBytes(s: seq<Byte>): nat {
    if s == [] then 0 else Or(Shl(s[0], 8 * (|s| - 1)), LoadBytes(s[1..]))
  }

  lemma {:induction false} LoadBytesBits(s: seq<Byte>)
    ensures LoadBytes(s) < Pow2(8 * |s|)
    ensures BitsMsb(LoadBytes(s), 8 * |s|) == BytesBits(s)
  {
    if s == [] {
    } else {
      var k := 8 * (|s| - 1);
      LoadBytesBits(s[1..]);
      OrIsSum(s[0], LoadBytes(s[1..]), k);
      WordSizes();
      JoinedBound(s[0], LoadBytes(s[1..]), 8, k, 8 + k);
      BitsConcat(s[0], LoadBytes(s[1..]), 8, k, 8 + k, Shl(s[0], k) + LoadBytes(s[1..]));
    }
  }

  /**
   * Held bits, then loaded bytes: the value is the first n bits of them, and the last `next` bits of the loaded
   * word are the ones held afterwards.
   */
  lemma TakeBits(held: Byte, num: nat, s: seq<Byte>, n: nat, next: nat, w: nat, v: nat)
    requires num < 8 && num < n <= 32 && n - num + next == 8 * |s| && next < 8
    requires w == LoadBytes(s) && v == Or(Low(Shl(Low(held, num), n - num), 32), Shr(w, next))
    ensures v < Pow2(n) && BitsMsb(held, num) + BytesBits(s) == BitsMsb(v, n) + BitsMsb(w, next)
  {
    LoadBytesBits(s);
    BitsOfLow(held, num, num);
    var m := n - num;
    assert 8 * |s| == m + next;
    TakeWord(Low(held, num), num, w, n, m, m + next, next, v);
  }

  lemma TakeWord(h: nat, num: nat, w: nat, n: nat, m: nat, total: nat, next: nat, v: nat)
    requires h < Pow2(num) && w < Pow2(total) && total == m + next && n == num + m <= 32
    requires v == Or(Low(Shl(h, m), 32), Shr(w, next))
    ensures v < Pow2(n) && BitsMsb(h, num) + BitsMsb(w, total) == BitsMsb(v, n) + BitsMsb(w, next)
  {
    ShrBound(w, total, next, m);
    JoinedWord(h, Shr(w, next), num, m, n);
    JoinAndCut(h, w, num, total, next, m, n, v);
  }

  class InputBitstream {
    var m_fifo: seq<Byte>
    var m_fifo_idx: nat
    var m_num_held_bits: nat
    var m_held_bits: Byte
    var m_numBitsRead: UInt32

    ghost predicate Valid()
      reads this
    {
      m_num_held_bits < 8 && m_fifo_idx <= |m_fifo|
    }

    /** The bits not read yet. */
    ghost function Remaining(): (b: seq<bool>)
      requires Valid()
      reads this
    {
      BitsMsb(m_held_bits, m_num_held_bits) + BytesBits(m_fifo[m_fifo_idx..])
    }

    constructor (fifo: seq<Byte>)
      ensures Valid() && Remaining() == BytesBits(fifo) && m_fifo == fifo && m_fifo_idx == 0 && m_numBitsRead == 0
    {
      m_fifo, m_fifo_idx, m_num_held_bits, m_held_bits, m_numBitsRead := fifo, 0, 0, 0, 0;
    }

    function GetNumBitsLeft(): (n: nat)
      requires Valid()
      reads this
      ensures n == |Remaining()|
    {
      8 * (|m_fifo| - m_fifo_idx) + m_num_held_bits
    }

    function GetNumBitsUntilByteAligned(): (n: nat)
      requires Valid()
      reads this
      ensures n == |Remaining()| % 8
    {
      m_num_held_bits % 8
    }

    /**
     * Takes the next n bits. Fails exactly when n is over 32 or fewer bits are left; a failing call leaves the bits
     * in place, though a call that only lacks bits has counted them as read.
     */
    method Read(uiNumberOfBits: nat) returns (ok: bool, ruiBits: UInt32)
      requires Valid()
      modifies this
      ensures Valid() && m_fifo == old(m_fifo)
      ensures ok <==> uiNumberOfBits <= 32 && uiNumberOfBits <= |old(Remaining())|
      ensures ok ==> ruiBits < Pow2(uiNumberOfBits)
      ensures ok ==> old(Remaining()) == BitsMsb(ruiBits, uiNumberOfBits) + Remaining()
      ensures !ok ==> Remaining() == old(Remaining())
      ensures m_numBitsRead == if uiNumberOfBits > 32 then old(m_numBitsRead)
                               else (old(m_numBitsRead) + uiNumberOfBits) % 0x1_0000_0000
    {
      if uiNumberOfBits > 32 {
        return false, 0;
      }
      m_numBitsRead := (m_numBitsRead + uiNumberOfBits) % 0x1_0000_0000;
      if uiNumberOfBits <= m_num_held_bits {
        ok := true;
        ruiBits := ReadHeld(uiNumberOfBits);
        return;
      }
      var num_bytes_to_load := (uiNumberOfBits - m_num_held_bits - 1) / 8;
      if m_fifo_idx + num_bytes_to_load >= |m_fifo| {
        return false, 0;
      }
      ok := true;
      ruiBits := ReadBytes(uiNumberOfBits, num_bytes_to_load);
    }

    /**
     * Looks at the next n bits, padded with zeros when fewer are left. The read position is put back;
     * the count of bits read is not.
     */
    method PseudoRead(uiNumberOfBits: nat) returns (ruiBits: UInt32)
      requires Valid() && uiNumberOfBits <= 32
      modifies this
      ensures Valid() && m_fifo == old(m_fifo) && m_fifo_idx == old(m_fifo_idx)
      ensures m_num_held_bits == old(m_num_held_bits) && m_held_bits == old(m_held_bits)
      ensures ruiBits < Pow2(uiNumberOfBits) && BitsMsb(ruiBits, uiNumberOfBits) == Peeked(Remaining(), uiNumberOfBits)
      ensures m_numBitsRead == (old(m_numBitsRead) + Min(uiNumberOfBits, |Remaining()|)) % 0x1_0000_0000
    {
      var saved_num_held_bits, saved_held_bits, saved_fifo_idx := m_num_held_bits, m_held_bits, m_fifo_idx;
      var num_bits_to_read := Min(uiNumberOfBits, GetNumBitsLeft());
      ghost var all := Remaining();
      var ok, v := Read(num_bits_to_read);
      assert all[..num_bits_to_read] == BitsMsb(v, num_bits_to_read);
      var zeros := uiNumberOfBits - num_bits_to_read;
      ruiBits := PadZeros(v, num_bits_to_read, zeros, uiNumberOfBits);
      PeekedIs(all, uiNumberOfBits, num_bits_to_read, zeros);
      m_fifo_idx := saved_fifo_idx;
      m_held_bits := saved_held_bits;
      m_num_held_bits := saved_num_held_bits;
    }

    /**
     * Cuts the next n bits off as a stream of their own, whose last byte is filled with zeros. From a byte boundary
     * a whole number of bytes can be asked for beyond the end and reads as zeros; otherwise too few bits are an error.
     */
    method ExtractSubstream(uiNumBits: nat) returns (ok: bool, pResult: InputBitstream)
      requires Valid()
      modifies this
      ensures Valid() && fresh(pResult) && pResult.Valid()
      ensures ok <==> uiNumBits <= |old(Remaining())| || (old(m_num_held_bits) == 0 && uiNumBits % 8 == 0)
      ensures ok ==> Remaining() == old(Remaining())[Min(uiNumBits, |old(Remaining())|)..]
      ensures ok ==> pResult.Remaining() == Padded(old(Remaining()), uiNumBits / 8, uiNumBits % 8)
    {
      var buf;
      ok, buf := SubstreamBytes(uiNumBits / 8);
      if ok && uiNumBits % 8 != 0 {
        if uiNumBits <= |old(Remaining())| { LastByte(old(Remaining()), uiNumBits / 8, uiNumBits % 8); }
        ok, buf := SubstreamRest(buf, uiNumBits % 8);
      }
      pResult := new InputBitstream(buf);
    }

    /** The whole bytes of a substream. */
    method SubstreamBytes(uiNumBytes: nat) returns (ok: bool, buf: seq<Byte>)
      requires Valid()
      modifies this
      ensures Valid()
      ensures ok <==> 8 * uiNumBytes <= |old(Remaining())| || old(m_num_held_bits) == 0
      ensures ok ==> Remaining() == old(Remaining())[Min(8 * uiNumBytes, |old(Remaining())|)..]
      ensures ok ==> BytesBits(buf) == Padded(old(Remaining()), uiNumBytes, 0)
    {
      if m_num_held_bits == 0 {
        buf := CopyBytes(uiNumBytes);
        ok := true;
      } else {
        ghost var all := Remaining();
        ok, buf := ReadWholeBytes(uiNumBytes);
        if ok {
          assert all[..8 * uiNumBytes] == BytesBits(buf);
        }
      }
    }

    /** The bits after the last whole byte of a substream, in a byte of their own. */
    method SubstreamRest(buf: seq<Byte>, rest: nat) returns (ok: bool, r: seq<Byte>)
      requires Valid() && 0 < rest < 8
      modifies this
      ensures Valid()
      ensures ok <==> rest <= |old(Remaining())|
      ensures ok ==> Remaining() == old(Remaining())[rest..]
      ensures ok ==> BytesBits(r) == BytesBits(buf) + (old(Remaining())[..rest] + Repeat(false, 8 - rest))
    {
      var uiByte;
      r := buf;
      ok, uiByte := Read(rest);
      if ok {
        var padded := PadZeros(uiByte, rest, 8 - rest, 8);
        WordSizes();
        BytesAppend(buf, [padded]);
        OneByte(padded);
        r := buf + [padded];
      }
    }

    /** `memcpy` of the bytes that are there, and zeros for the others. */
    method CopyBytes(uiNumBytes: nat) returns (buf: seq<Byte>)
      requires Valid() && m_num_held_bits == 0
      modifies this`m_fifo_idx
      ensures Valid()
      ensures var n := Min(8 * uiNumBytes, |old(Remaining())|);
        && Remaining() == old(Remaining())[n..]
        && BytesBits(buf) == old(Remaining())[..n] + Repeat(false, 8 * uiNumBytes - n)
    {
      var toRead := Min(uiNumBytes, |m_fifo| - m_fifo_idx);
      var copied := m_fifo[m_fifo_idx..m_fifo_idx + toRead];
      ghost var rest := m_fifo[m_fifo_idx + toRead..];
      assert m_fifo[m_fifo_idx..] == copied + rest;
      BytesAppend(copied, rest);
      var zeros := seq(uiNumBytes - toRead, i => 0);
      ZeroBytes(zeros);
      BytesAppend(copied, zeros);
      buf := copied + zeros;
      m_fifo_idx := m_fifo_idx + toRead;
    }

    /** Bytes read one by one when the position is inside a byte. */
    method ReadWholeBytes(uiNumBytes: nat) returns (ok: bool, buf: seq<Byte>)
      requires Valid()
      modifies this
      ensures Valid()
      ensures ok <==> 8 * uiNumBytes <= |old(Remaining())|
      ensures ok ==> BytesBits(buf) + Remaining() == old(Remaining()) && |buf| == uiNumBytes
    {
      buf := [];
      ok := true;
      for ui := 0 to uiNumBytes
        invariant Valid() && |buf| == ui
        invariant BytesBits(buf) + Remaining() == old(Remaining())
      {
        ghost var before := BytesBits(buf);
        var uiByte;
        ok, uiByte := Read(8);
        if !ok {
          return;
        }
        WordSizes();
        BytesAppend(buf, [uiByte]);
        OneByte(uiByte);
        Reassociate(before, BitsMsb(uiByte, 8), Remaining());
        buf := buf + [uiByte];
      }
    }

    /**
     * Reads what `writeByteAlignment` writes: a one, then zeros up to the byte boundary. Fails when the next bits
     * are anything else.
     */
    method ReadByteAlignment() returns (ok: bool, count: nat)
      requires Valid()
      modifies this
      ensures Valid()
      ensures ok <==> StartsAligned(old(Remaining()))
      ensures ok ==> 1 <= count <= 8 && |Remaining()| % 8 == 0 && old(Remaining()) == OneAndZeros(count) + Remaining()
    {
      ghost var all := Remaining();
      count := 0;
      var code;
      ok, code := ReadOne();
      if !ok || !code {
        return false, 0;
      }
      var numBits := GetNumBitsUntilByteAligned();
      StartsAlignedBy(all, numBits);
      ok := ReadZerosIfAny(numBits);
      if !ok {
        return false, 0;
      }
      count := numBits + 1;
      AlignedPrefix(all, numBits, count);
      MultipleOfEight(|all| - 1, numBits, |Remaining()|);
    }

    /** Nothing is read at a byte boundary; before it too few bits are an error. */
    method ReadZerosIfAny(numBits: nat) returns (ok: bool)
      requires Valid() && numBits <= 32
      modifies this
      ensures Valid() && (ok <==> numBits <= |old(Remaining())| && old(Remaining())[..numBits] == Repeat(false, numBits))
      ensures ok ==> Remaining() == old(Remaining())[numBits..]
    {
      ok := true;
      if numBits != 0 {
        if numBits > GetNumBitsLeft() {
          return false;
        }
        ok := ReadZeros(numBits);
      }
    }

    method ReadOne() returns (ok: bool, bit: bool)
      requires Valid()
      modifies this
      ensures Valid() && (ok <==> |old(Remaining())| >= 1)
      ensures ok ==> bit == old(Remaining())[0] && Remaining() == old(Remaining())[1..]
    {
      var code;
      ok, code := Read(1);
      bit := code == 1;
      ghost var all := old(Remaining());
      if ok {
        assert BitsMsb(code, 1) == all[..1];
        FirstBit(all, code);
      }
    }

    /** Reads n bits and says whether all of them are zero. */
    method ReadZeros(n: nat) returns (ok: bool)
      requires Valid() && n <= 32 && n <= |Remaining()|
      modifies this
      ensures Valid() && (ok <==> old(Remaining())[..n] == Repeat(false, n))
      ensures Remaining() == old(Remaining())[n..]
    {
      var code;
      ok, code := Read(n);
      assert BitsMsb(code, n) == old(Remaining())[..n];
      NextBits(code, n);
      ok := code == 0;
    }

    /** The value is among the held bits. */
    method ReadHeld(n: nat) returns (retval: UInt32)
      requires Valid() && n <= m_num_held_bits
      modifies this`m_num_held_bits
      ensures Valid() && retval < Pow2(n) && old(Remaining()) == BitsMsb(retval, n) + Remaining()
    {
      HeldValue(m_held_bits, m_num_held_bits, n);
      retval := MaskLow(Shr(m_held_bits, m_num_held_bits - n), n);
      m_num_held_bits := m_num_held_bits - n;
      Reassociate(BitsMsb(retval, n), BitsMsb(m_held_bits, m_num_held_bits), BytesBits(m_fifo[m_fifo_idx..]));
    }

    /** All held bits and some whole bytes are needed. */
    method ReadBytes(n: nat, num_bytes_to_load: nat) returns (retval: UInt32)
      requires Valid() && m_num_held_bits < n <= 32
      requires num_bytes_to_load == (n - m_num_held_bits - 1) / 8 && m_fifo_idx + num_bytes_to_load < |m_fifo|
      modifies this`m_num_held_bits, this`m_held_bits, this`m_fifo_idx
      ensures Valid() && retval < Pow2(n) && old(Remaining()) == BitsMsb(retval, n) + Remaining()
    {
      var num := n - m_num_held_bits;
      var next_num_held_bits, end := (32 - num) % 8, m_fifo_idx + num_bytes_to_load + 1;
      WholeBytes(num);
      var aligned_word := LoadBytes(m_fifo[m_fifo_idx..end]);
      var value, next_held_bits := ReadValue(m_held_bits, m_num_held_bits, n, aligned_word, next_num_held_bits), Low(aligned_word, 8);
      ReadBytesContents(m_fifo, m_fifo_idx, m_held_bits, m_num_held_bits, n, end, next_num_held_bits,
                        aligned_word, value, next_held_bits);
      retval := value;
      m_fifo_idx := end;
      m_num_held_bits := next_num_held_bits;
      m_held_bits := next_held_bits;
    }
  }

  lemma WholeBytes(n: nat)
    requires 1 <= n <= 32
    ensures n + (32 - n) % 8 == 8 * ((n - 1) / 8 + 1)
  {
  }

  /** `retval` when whole bytes are loaded: the held bits, shifted up, and the upper bits of the loaded word. */
  function ReadValue(held: Byte, num: nat, n: nat, aligned_word: nat, next: nat): nat
    requires num < n <= 32
  {
    Or(Low(Shl(MaskLow(held, num), n - num), 32), Shr(aligned_word, next))
  }

  lemma ReadBytesContents(fifo: seq<Byte>, idx: nat, held: Byte, num: nat, n: nat, end: nat, next: nat,
                          word: nat, v: nat, nextHeld: nat)
    requires num < 8 && num < n <= 32 && next < 8 && idx <= end <= |fifo| && n - num + next == 8 * (end - idx)
    requires word == LoadBytes(fifo[idx..end]) && v == ReadValue(held, num, n, word, next) && nextHeld == Low(word, 8)
    ensures v < Pow2(n) && v < 0x1_0000_0000 && nextHeld < 256
    ensures BitsMsb(held, num) + BytesBits(fifo[idx..]) == BitsMsb(v, n) + (BitsMsb(nextHeld, next) + BytesBits(fifo[end..]))
  {
    var loaded, rest := fifo[idx..end], fifo[end..];
    MaskLowIsLow(held, num);
    TakeBits(held, num, loaded, n, next, word, v);
    WordSizes();
    Pow2Mono(n, 32);
    CutAt(fifo, idx, end);
    BytesAppend(loaded, rest);
    BitsOfLow(word, 8, next);
    Regroup4(BitsMsb(held, num), BytesBits(loaded), BytesBits(rest), BitsMsb(v, n), BitsMsb(word, next));
  }

  lemma CutAt(s: seq<Byte>, a: nat, end: nat)
    requires a <= end <= |s|
    ensures s[a..] == s[a..end] + s[end..]
  {
  }

  lemma Regroup4(a: seq<bool>, b: seq<bool>, c: seq<bool>, d: seq<bool>, e: seq<bool>)
    requires a + b == d + e
    ensures a + (b + c) == d + (e + c)
  {
    assert a + (b + c) == (a + b) + c;
    assert d + (e + c) == (d + e) + c;
  }

  /** The upper n of the held bits. */
  lemma HeldValue(held: Byte, num: nat, n: nat)
    requires n <= num < 8
    ensures Shr(held, num - n) < 256
    ensures var v := MaskLow(Shr(held, num - n), n);
      v < Pow2(n) && v < 0x1_0000_0000 && BitsMsb(held, num) == BitsMsb(v, n) + BitsMsb(held, num - n)
  {
    WordSizes();
    ShrBound(held, 8, num - n, 8 - (num - n));
    Pow2Mono(8 - (num - n), 8);
    MaskLowIsLow(Shr(held, num - n), n);
    BitsSplit(held, n, num - n, num);
    BitsOfLow(Shr(held, num - n), n, n);
    Pow2Mono(n, 32);
  }

  /** `uiByte <<= zeros`: bits followed by zeros. */
  method PadZeros(v: UInt32, n: nat, zeros: nat, ghost total: nat) returns (r: UInt32)
    requires v < Pow2(n) && total == n + zeros <= 32
    ensures r < Pow2(total) && BitsMsb(r, total) == BitsMsb(v, n) + Repeat(false, zeros)
  {
    WordSizes();
    ShlBound(v, n, zeros, total);
    Pow2Mono(total, 32);
    LowOfSmall(Shl(v, zeros), 32);
    BitsConcat(v, 0, n, zeros, total, Shl(v, zeros));
    ZeroBits(0, zeros) by { LowOfSmall(0, zeros); }
    r := Low(Shl(v, zeros), 32);
  }

  lemma {:induction false} ZeroBytes(s: seq<Byte>)
    requires forall i | 0 <= i < |s| :: s[i] == 0
    ensures BytesBits(s) == Repeat(false, 8 * |s|)
  {
    if s == [] {
    } else {
      ZeroBytes(s[1..]);
      ZeroBits(0, 8) by { LowOfSmall(0, 8); }
      RepeatSum(false, 8, 8 * (|s| - 1));
    }
  }

  lemma {:induction false} RepeatSum(b: bool, m: nat, n: nat)
    ensures Repeat(b, m) + Repeat(b, n) == Repeat(b, m + n)
  {
    if m == 0 {
    } else {
      RepeatSum(b, m - 1, n);
    }
  }

  /** The next n bits, with zeros for those beyond the end. */
  ghost function Peeked(all: seq<bool>, n: nat): seq<bool> {
    var have := Min(n, |all|);
    all[..have] + Repeat(false, n - have)
  }

  lemma PeekedIs(all: seq<bool>, n: nat, have: nat, zeros: nat)
    requires have == Min(n, |all|) && zeros == n - have
    ensures Peeked(all, n) == all[..have] + Repeat(false, zeros)
  {
  }

  /**
   * The first 8 * bytes + rest bits, as whole bytes: a last byte is filled up with zeros, and bytes beyond the end
   * are zeros.
   */
  ghost function Padded(all: seq<bool>, bytes: nat, rest: nat): seq<bool>
    requires rest < 8
  {
    var n := Min(8 * bytes + rest, |all|);
    all[..n] + Repeat(false, 8 * bytes + (if rest == 0 then 0 else 8) - n)
  }

  /** Whole bytes: the next bits as far as they are asked for and there are any, and zeros behind them. */
  lemma PaddedMeaning(all: seq<bool>, bytes: nat, rest: nat, i: nat)
    requires rest < 8
    ensures |Padded(all, bytes, rest)| == 8 * bytes + if rest == 0 then 0 else 8
    ensures i < |Padded(all, bytes, rest)| ==> (Padded(all, bytes, rest)[i] <==> i < 8 * bytes + rest && i < |all| && all[i])
  {
    var n := Min(8 * bytes + rest, |all|);
    var zeros := 8 * bytes + (if rest == 0 then 0 else 8) - n;
    if n <= i < n + zeros {
      RepeatAt(false, zeros, i - n);
    }
  }

  /** The bytes cut off so far, then a last byte with the remaining bits and zeros. */
  lemma LastByte(all: seq<bool>, bytes: nat, rest: nat)
    requires 0 < rest < 8 && 8 * bytes + rest <= |all|
    ensures Padded(all, bytes, 0) + (all[8 * bytes..][..rest] + Repeat(false, 8 - rest)) == Padded(all, bytes, rest)
    ensures all[8 * bytes..][rest..] == all[8 * bytes + rest..]
  {
    assert all[..8 * bytes] + all[8 * bytes..][..rest] == all[..8 * bytes + rest];
  }

  /** A one followed by zeros up to a point from which whole bytes are left. */
  ghost predicate StartsAligned(b: seq<bool>) {
    |b| >= 1 && b[0] && b[1..1 + (|b| - 1) % 8] == Repeat(false, (|b| - 1) % 8)
  }

  /** After a one, as many zeros as there are bits to the boundary. */
  lemma StartsAlignedBy(b: seq<bool>, n: nat)
    requires |b| >= 1 && b[0] && n == (|b| - 1) % 8
    ensures n <= |b[1..]| && (StartsAligned(b) <==> b[1..][..n] == Repeat(false, n))
  {
    assert b[1..][..n] == b[1..1 + n];
  }

  lemma FirstBit(all: seq<bool>, code: UInt32)
    requires |all| >= 1 && code < Pow2(1) && BitsMsb(code, 1) == all[..1]
    ensures code == 1 <==> all[0]
  {
    assert BitsMsb(code / 2, 0) == [];
  }

  /** n bits are all zero exactly when they spell zero. */
  lemma NextBits(code: UInt32, n: nat)
    requires code < Pow2(n)
    ensures code == 0 <==> BitsMsb(code, n) == Repeat(false, n)
  {
    LowOfSmall(0, n);
    ZeroBits(0, n);
    if BitsMsb(code, n) == Repeat(false, n) {
      BitsInjective(code, 0, n);
    }
  }

  lemma MultipleOfEight(n: nat, rest: nat, left: nat)
    requires rest == n % 8 && left == n - rest
    ensures left % 8 == 0
  {
  }

  /** The alignment pattern of n bits. */
  ghost function OneAndZeros(n: nat): (b: seq<bool>)
    requires n >= 1
    ensures |b| == n
  {
    [true] + Repeat(false, n - 1)
  }

  /** Its first bit is one, all others are zero. */
  lemma AlignmentPattern(n: nat, i: nat)
    requires i < n
    ensures OneAndZeros(n)[i] <==> i == 0
  {
    if i > 0 {
      RepeatAt(false, n - 1, i - 1);
    }
  }

  lemma {:induction false} RepeatAt(b: bool, n: nat, i: nat)
    requires i < n
    ensures Repeat(b, n)[i] == b
  {
    if i > 0 {
      RepeatAt(b, n - 1, i - 1);
    }
  }

  lemma AlignedPrefix(all: seq<bool>, n: nat, count: nat)
    requires count == n + 1 <= |all| && all[0] && all[1..][..n] == Repeat(false, n)
    ensures all == OneAndZeros(count) + all[1..][n..]
  {
  }

  // ---- Writing and reading back ----

  /** A value and the number of bits it is written with. */
  datatype Field = Field(value: UInt32, width: nat) {
    ghost predicate Valid() {
      width <= 32 && value < Pow2(width)
    }
  }

  ghost function FieldBits(fields: seq<Field>): seq<bool> {
    if fields == [] then [] else BitsMsb(fields[0].value, fields[0].width) + FieldBits(fields[1..])
  }

  /** Writes fields one after the other. */
  method WriteFields(bs: OutputBitstream, fields: seq<Field>)
    requires bs.Valid() && forall i | 0 <= i < |fields| :: fields[i].Valid()
    modifies bs
    ensures bs.Valid() && bs.Contents() == old(bs.Contents()) + FieldBits(fields)
  {
    for i := 0 to |fields|
      invariant bs.Valid() && bs.Contents() + FieldBits(fields[i..]) == old(bs.Contents()) + FieldBits(fields)
    {
      ghost var before := bs.Contents();
      assert fields[i..][1..] == fields[i + 1..];
      var ok := bs.Write(fields[i].value, fields[i].width);
      Reassociate(before, BitsMsb(fields[i].value, fields[i].width), FieldBits(fields[i + 1..]));
    }
  }

  /** Reads as many fields with the same widths: the values written come back. */
  method ReadFields(bs: InputBitstream, widths: seq<nat>, ghost fields: seq<Field>, ghost tail: seq<bool>)
    returns (values: seq<UInt32>)
    requires bs.Valid() && |widths| == |fields|
    requires forall i | 0 <= i < |fields| :: fields[i].Valid() && widths[i] == fields[i].width
    requires bs.Remaining() == FieldBits(fields) + tail
    modifies bs
    ensures bs.Valid() && bs.Remaining() == tail
    ensures |values| == |fields| && forall i | 0 <= i < |fields| :: values[i] == fields[i].value
  {
    values := [];
    for i := 0 to |widths|
      invariant bs.Valid() && bs.Remaining() == FieldBits(fields[i..]) + tail
      invariant |values| == i && forall j | 0 <= j < i :: values[j] == fields[j].value
    {
      ghost var f, rest := fields[i], FieldBits(fields[i + 1..]) + tail;
      assert fields[i..][1..] == fields[i + 1..];
      Reassociate(BitsMsb(f.value, f.width), FieldBits(fields[i + 1..]), tail);
      var ok, v := bs.Read(widths[i]);
      SamePrefix(v, f.value, f.width, bs.Remaining(), rest);
      values := values + [v];
    }
  }

  lemma SamePrefix(v: nat, w: nat, n: nat, a: seq<bool>, b: seq<bool>)
    requires v < Pow2(n) && w < Pow2(n) && BitsMsb(v, n) + a == BitsMsb(w, n) + b
    ensures v == w && a == b
  {
    assert (BitsMsb(v, n) + a)[..n] == BitsMsb(v, n);
    assert (BitsMsb(w, n) + b)[..n] == BitsMsb(w, n);
    assert (BitsMsb(v, n) + a)[n..] == a;
    assert (BitsMsb(w, n) + b)[n..] == b;
    BitsInjective(v, w, n);
  }

  /** Whole streams of bytes are determined by their bits. */
  lemma {:induction false} BytesInjective(s: seq<Byte>, t: seq<Byte>)
    requires BytesBits(s) == BytesBits(t)
    ensures s == t
    decreases |s|
  {
    if s == [] {
    } else {
      WordSizes();
      SamePrefix(s[0], t[0], 8, BytesBits(s[1..]), BytesBits(t[1..]));
      BytesInjective(s[1..], t[1..]);
    }
  }

  /** What has been written determines the bytes and the bits held back, however it was cut into calls. */
  lemma SameBitsSameBytes(a: OutputBitstream, b: OutputBitstream)
    requires a.Valid() && b.Valid() && a.Contents() == b.Contents()
    ensures a.m_fifo == b.m_fifo && a.m_num_held_bits == b.m_num_held_bits && a.m_held_bits == b.m_held_bits
  {
    SameLengths(|a.m_fifo|, a.m_num_held_bits, |b.m_fifo|, b.m_num_held_bits);
    var num, n := a.m_num_held_bits, 8 * |a.m_fifo|;
    var v, w := Shr(a.m_held_bits, 8 - num), Shr(b.m_held_bits, 8 - num);
    assert a.Contents()[..n] == BytesBits(a.m_fifo) && b.Contents()[..n] == BytesBits(b.m_fifo);
    assert a.Contents()[n..] == BitsMsb(v, num) && b.Contents()[n..] == BitsMsb(w, num);
    BytesInjective(a.m_fifo, b.m_fifo);
    HeldTop(a.m_held_bits, num);
    HeldTop(b.m_held_bits, num);
    BitsInjective(v, w, num);
  }

  lemma SameLengths(m: nat, i: nat, n: nat, j: nat)
    requires i < 8 && j < 8 && 8 * m + i == 8 * n + j
    ensures m == n && i == j
  {
  }

  /**
   * Whatever has been written before, at any bit position: fields written, then the byte alignment, then read back
   * from the bytes with the same widths, come back unchanged, and the alignment is consumed to the last bit.
   */
  method RoundTrip(bs: OutputBitstream, fields: seq<Field>) returns (values: seq<UInt32>, aligned: bool, left: nat)
    requires bs.Valid() && forall i | 0 <= i < |fields| :: fields[i].Valid()
    modifies bs
    ensures |values| == |fields| && forall i | 0 <= i < |fields| :: values[i] == fields[i].value
    ensures aligned && left == 0
  {
    ghost var prefix := bs.Contents();
    var phase := bs.GetNumberOfWrittenBits();
    ghost var zeros := WriteAligned(bs, fields);
    var input := new InputBitstream(bs.m_fifo);
    ghost var tail := [true] + Repeat(false, zeros);
    SkipBits(input, phase, prefix, FieldBits(fields) + tail);
    var widths := seq(|fields|, i requires 0 <= i < |fields| => fields[i].width);
    values := ReadFields(input, widths, fields, tail);
    TailAligned(zeros);
    var count;
    aligned, count := input.ReadByteAlignment();
    left := input.GetNumBitsLeft();
    NothingLeft(zeros, count, |input.Remaining()|);
  }

  lemma NothingLeft(zeros: nat, count: nat, n: nat)
    requires zeros < 8 && count >= 1 && 1 + zeros == count + n && n % 8 == 0
    ensures n == 0
  {
  }

  method WriteAligned(bs: OutputBitstream, fields: seq<Field>) returns (ghost zeros: nat)
    requires bs.Valid() && forall i | 0 <= i < |fields| :: fields[i].Valid()
    modifies bs
    ensures bs.Valid() && zeros < 8
    ensures BytesBits(bs.m_fifo) == old(bs.Contents()) + (FieldBits(fields) + ([true] + Repeat(false, zeros)))
  {
    ghost var prefix := bs.Contents();
    WriteFields(bs, fields);
    ghost var body := bs.Contents();
    zeros := (7 - |body| % 8) % 8;
    bs.WriteByteAlignment();
    Reassociate(body, [true], Repeat(false, zeros));
    Reassociate(prefix, FieldBits(fields), [true] + Repeat(false, zeros));
    assert bs.Contents() == BytesBits(bs.m_fifo);
  }

  lemma TailAligned(k: nat)
    requires k < 8
    ensures StartsAligned([true] + Repeat(false, k))
  {
    var b, zeros := [true] + Repeat(false, k), Repeat(false, k);
    var n := |b| - 1;
    assert n == k && n % 8 == n;
    assert b[1..1 + n] == zeros;
  }

  /** Reads n bits one at a time. */
  method SkipBits(bs: InputBitstream, n: nat, ghost prefix: seq<bool>, ghost tail: seq<bool>)
    requires bs.Valid() && |prefix| == n && bs.Remaining() == prefix + tail
    modifies bs
    ensures bs.Valid() && bs.Remaining() == tail
  {
    for i := 0 to n
      invariant bs.Valid() && bs.Remaining() == prefix[i..] + tail
    {
      var ok, b := bs.ReadOne();
      assert (prefix[i..] + tail)[1..] == prefix[i + 1..] + tail;
    }
  }
}
