/** The cache model itself: flat arrays of lines, one word of tree bits per set, and access counters. */
module CacheModel {
  import opened Arithmetic
  import opened Bits
  import opened PlruTree
  import opened PlruWord
  import opened CacheSet

  type Word32 = n: nat | n < WORD_LIMIT

  /** `(size_t)` of a difference of pointers. */
  function SizeT(x: int): nat {
    x % 0x1_0000_0000_0000_0000
  }

  /** The difference modulo two to the 64. */
  lemma SizeTMeaning(x: int) returns (wraps: int)
    ensures x == wraps * 0x1_0000_0000_0000_0000 + SizeT(x) && 0 <= SizeT(x) < 0x1_0000_0000_0000_0000
  {
    wraps := x / 0x1_0000_0000_0000_0000;
  }

  function Sum(s: seq<int>): int {
    if s == [] then 0 else s[0] + Sum(s[1..])
  }

  lemma {:induction false} SumUpdate(s: seq<int>, i: nat, v: int)
    requires i < |s|
    ensures Sum(s[i := v]) == Sum(s) - s[i] + v
  {
    if i == 0 {
    } else {
      assert s[i := v][1..] == s[1..][i - 1 := v];
      SumUpdate(s[1..], i - 1, v);
    }
  }

  lemma {:induction false} SumAppend(s: seq<int>, x: int)
    ensures Sum(s + [x]) == Sum(s) + x
  {
    if s == [] {
      assert s + [x] == [x] && [x][1..] == [];
    } else {
      assert (s + [x])[1..] == s[1..] + [x];
      SumAppend(s[1..], x);
    }
  }

  /** The first way of set e; sets occupy disjoint stretches of the line arrays. */
  function Base(e: nat, numWay: nat): nat {
    if e == 0 then 0 else numWay + Base(e - 1, numWay)
  }

  lemma {:induction false} BaseIsProduct(e: nat, numWay: nat)
    ensures Base(e, numWay) == e * numWay
  {
    if e == 0 {
    } else {
      BaseIsProduct(e - 1, numWay);
      assert e * numWay == (e - 1) * numWay + numWay;
    }
  }

  lemma {:induction false} BaseOrder(e: nat, f: nat, numWay: nat)
    requires e < f
    ensures Base(e, numWay) + numWay <= Base(f, numWay)
  {
    if e + 1 >= f {
    } else {
      BaseOrder(e, f - 1, numWay);
    }
  }

  /** `( status >> shift ) & 0x1`. */
  method TestNode(status: Word32, shift: nat) returns (flag: nat)
    requires shift < WORD_BITS
    ensures flag == if shift in BitsOf(status) then 1 else 0
  {
    TestBit(status, shift);
    flag := And(Shr(status, shift), 1);
  }

  /** `( way << 1 ) | bit`. */
  method AppendBit(way: nat, bit: nat) returns (r: nat)
    requires bit <= 1
    ensures r == 2 * way + bit
  {
    ShlAppend(way, bit, 0);
    r := Or(Shl(way, 1), bit);
  }

  /** Follows the tree bits away from the last use, collecting the way bits. */
  method WalkTree(status: Word32, treeDepth: nat) returns (way: nat)
    requires treeDepth <= MAX_DEPTH
    ensures way == WordVictim(BitsOf(status), treeDepth)
  {
    way := WalkLoop(status, treeDepth, 0, 0);
    ShlIsMul(0, treeDepth);
    WalkFindsVictim(BitsOf(status), 0, treeDepth, 0);
  }

  method WalkLoop(status: Word32, treeDepth: nat, ghost root: nat, ghost none: nat) returns (way: nat)
    requires treeDepth <= MAX_DEPTH && root == none == 0
    ensures way == Walk(BitsOf(status), root, treeDepth, none)
  {
    var shift: nat := 0;
    way := 0;
    ghost var goal, r := Walk(BitsOf(status), root, treeDepth, none), treeDepth;
    for i := 0 to treeDepth
      invariant r == treeDepth - i && shift + 2 <= Pow2(i + 1)
      invariant Walk(BitsOf(status), shift, r, way) == goal
    {
      NodeFits(i, shift);
      shift, way := WalkStep(status, shift, way, r);
      r := r - 1;
    }
  }

  method WalkStep(status: Word32, shift: nat, way: nat, ghost r: nat) returns (newShift: nat, newWay: nat)
    requires shift < WORD_BITS && r > 0
    ensures Walk(BitsOf(status), newShift, r - 1, newWay) == Walk(BitsOf(status), shift, r, way)
    ensures 2 * shift + 1 <= newShift <= 2 * shift + 2
  {
    var flag := TestNode(status, shift);
    newShift := 2 * shift + flag + 1;
    newWay := AppendBit(way, 1 - flag);
  }

  /** `( val & ( ~0 ^ ( 1 << shift ) ) ) | ( flag << shift )`. */
  method SetNode(val: Word32, shift: nat, flag: nat) returns (r: Word32)
    requires shift < WORD_BITS && flag <= 1
    ensures BitsOf(r) == With(BitsOf(val), shift, flag == 1)
  {
    r := SetBit(val, shift, flag);
  }

  /** `( way >> k ) & 0x1`. */
  method WayBit(way: nat, k: nat) returns (flag: nat)
    ensures flag == if Bit(way, k) then 1 else 0
  {
    TestBit(way, k);
    flag := And(Shr(way, k), 1);
  }

  /** Sets every node on the path to a way towards it. */
  method MarkPath(status: Word32, treeDepth: nat, way: nat) returns (val: Word32)
    requires treeDepth <= MAX_DEPTH && way < Pow2(treeDepth)
    ensures BitsOf(val) == WordTouch(BitsOf(status), treeDepth, way)
  {
    val := MarkLoop(status, treeDepth, way);
    LowOfSmall(way, treeDepth);
    MarkIsTouch(BitsOf(status), 0, treeDepth, way);
  }

  method MarkLoop(status: Word32, treeDepth: nat, way: nat) returns (val: Word32)
    requires treeDepth <= MAX_DEPTH
    ensures BitsOf(val) == Mark(BitsOf(status), 0, treeDepth, way)
  {
    val := status;
    var shift: nat := 0;
    ghost var goal := Mark(BitsOf(status), 0, treeDepth, way);
    for i := 0 to treeDepth
      invariant shift + 2 <= Pow2(i + 1)
      invariant Mark(BitsOf(val), shift, treeDepth - i, way) == goal
    {
      NodeFits(i, shift);
      val, shift := MarkStep(val, shift, treeDepth - i, way);
    }
  }

  method MarkStep(val: Word32, shift: nat, r: nat, way: nat) returns (newVal: Word32, newShift: nat)
    requires shift < WORD_BITS && r > 0
    ensures Mark(BitsOf(newVal), newShift, r - 1, way) == Mark(BitsOf(val), shift, r, way)
    ensures 2 * shift + 1 <= newShift <= 2 * shift + 2
  {
    var flag := WayBit(way, r - 1);
    newVal := SetNode(val, shift, flag);
    newShift := 2 * shift + 2 - flag;
  }

  class CacheModel {
    var m_cacheEnable: bool
    var m_cacheEnableFilter: bool
    const m_numCacheLine: nat
    const m_numWay: nat
    const m_cacheSize: nat
    const m_shift: nat
    const m_treeDepth: nat
    const m_cacheAddr: array<nat>
    const m_cachePoc: array<int>
    const m_cacheComp: array<int>
    const m_available: array<bool>
    const m_hitCount: array<int>
    const m_treeStatus: array<Word32>
    var m_refPoc: int
    var m_base: int
    var m_compID: int
    var m_missHitCount: int
    var m_totalAccess: int
    var m_hitCountSeq: int
    var m_missHitCountSeq: int
    var m_totalAccessSeq: int

    ghost predicate Shape() {
      && m_numCacheLine >= 1 && m_treeDepth <= MAX_DEPTH && m_numWay == Pow2(m_treeDepth)
      && m_cacheSize == Base(m_numCacheLine, m_numWay)
      && m_cacheAddr.Length == m_cachePoc.Length == m_cacheComp.Length == m_cacheSize
      && m_available.Length == m_hitCount.Length == m_cacheSize
      && m_treeStatus.Length == m_numCacheLine
      && m_cachePoc != m_cacheComp && m_cachePoc != m_hitCount && m_cacheComp != m_hitCount
      && m_cacheAddr as object !in {m_cachePoc as object, m_cacheComp as object, m_hitCount as object, m_treeStatus as object}
      && m_treeStatus as object !in {m_cachePoc as object, m_cacheComp as object, m_hitCount as object}
    }

    ghost function Lines(): set<object> {
      {m_cacheAddr as object, m_cachePoc as object, m_cacheComp as object, m_available as object, m_treeStatus as object}
    }

    function LineAt(pos: nat): Line
      requires Shape() && pos < m_cacheSize
      reads m_cacheAddr, m_cachePoc, m_cacheComp, m_available
    {
      if m_available[pos] then Filled(Key(m_cacheAddr[pos], m_cachePoc[pos], m_cacheComp[pos])) else Empty
    }

    ghost function LinesFrom(pos: nat, n: nat): (s: seq<Line>)
      requires Shape() && pos + n <= m_cacheSize
      reads m_cacheAddr, m_cachePoc, m_cacheComp, m_available
      ensures |s| == n && forall i | 0 <= i < n :: s[i] == LineAt(pos + i)
    {
      if n == 0 then [] else LinesFrom(pos, n - 1) + [LineAt(pos + n - 1)]
    }

    /** Set e of the cache as a value. */
    ghost function SetAt(e: nat): (s: Set)
      requires Shape() && e < m_numCacheLine
      reads Lines()
      ensures |s.lines| == Pow2(m_treeDepth)
    {
      BaseOrder(e, m_numCacheLine, m_numWay);
      Set(LinesFrom(Base(e, m_numWay), m_numWay), BitsOf(m_treeStatus[e]))
    }

    /** What a lookup of the sample at addr looks for, and the set it looks in. */
    function KeyOf(addr: int): Key
      reads this`m_base, this`m_refPoc, this`m_compID
    {
      Key(Shr(SizeT(addr - m_base), m_shift), m_refPoc, m_compID)
    }

    function EntryOf(key: Key): (e: nat)
      requires Shape()
      ensures e < m_numCacheLine
    {
      key.addr % m_numCacheLine
    }

    /** The line of an address: which stretch of memory from the picture's origin it is in. */
    lemma LineOf(addr: int) returns (line: nat)
      ensures KeyOf(addr) == Key(line, m_refPoc, m_compID)
      ensures line * Pow2(m_shift) <= SizeT(addr - m_base) < line * Pow2(m_shift) + Pow2(m_shift)
    {
      line := KeyOf(addr).addr;
      ShrIsQuotient(SizeT(addr - m_base), m_shift, line);
    }

    static lemma ShrIsQuotient(x: nat, shift: nat, line: nat)
      requires line == Shr(x, shift)
      ensures line * Pow2(shift) <= x < line * Pow2(shift) + Pow2(shift)
    {
      ShrIsDiv(x, shift);
    }

    /** Lines of a set are distinct and belong there: what every run from `clear` keeps. */
    ghost predicate Consistent()
      requires Shape()
      reads Lines()
    {
      forall e | 0 <= e < m_numCacheLine :: Unique(SetAt(e)) && Placed(SetAt(e), e, m_numCacheLine)
    }

    /** Every access of the frame is counted as one hit or one miss. */
    ghost predicate FrameCounted()
      reads this, m_hitCount
    {
      Sum(m_hitCount[..]) + m_missHitCount == m_totalAccess
    }

    ghost predicate SequenceCounted()
      reads this
    {
      m_hitCountSeq + m_missHitCountSeq == m_totalAccessSeq
    }

    /** The lines, tree bits and counters of a new model are whatever the memory holds. */
    constructor (shift: nat, numCacheLine: nat, treeDepth: nat)
      requires numCacheLine >= 1 && treeDepth <= MAX_DEPTH
      ensures Shape() && m_treeDepth == treeDepth && m_numCacheLine == numCacheLine && m_shift == shift
      ensures m_cacheEnable && m_cacheEnableFilter
      ensures m_totalAccessSeq == 0 && SequenceCounted()
      ensures fresh(Lines()) && fresh(m_hitCount)
    {
      var ways := Pow2(treeDepth);
      var size := Base(numCacheLine, ways);
      m_cacheEnable, m_cacheEnableFilter := true, true;
      m_numCacheLine, m_numWay, m_cacheSize, m_shift, m_treeDepth := numCacheLine, ways, size, shift, treeDepth;
      m_cacheAddr := new nat[size];
      m_cachePoc := new int[size];
      m_cacheComp := new int[size];
      m_available := new bool[size];
      m_hitCount := new int[size];
      m_treeStatus := new Word32[numCacheLine];
      m_refPoc, m_base, m_compID := 0, 0, 0;
      m_missHitCount, m_totalAccess, m_hitCountSeq, m_missHitCountSeq, m_totalAccessSeq := 0, 0, 0, 0, 0;
    }

    /** Invalidates every line and restarts the frame counters; the tree bits stay as they are. */
    method Clear()
      requires Shape()
      modifies this`m_missHitCount, this`m_totalAccess, m_available, m_hitCount
      ensures m_cacheEnable ==>
        && Consistent() && FrameCounted() && m_totalAccess == 0
        && forall e | 0 <= e < m_numCacheLine :: AllEmpty(SetAt(e)) && SetAt(e).tree == old(SetAt(e).tree)
      ensures !m_cacheEnable ==> unchanged(this) && unchanged(m_available) && unchanged(m_hitCount)
    {
      if m_cacheEnable {
        forall i | 0 <= i < m_cacheSize { m_available[i] := false; }
        forall i | 0 <= i < m_cacheSize { m_hitCount[i] := 0; }
        m_missHitCount := 0;
        m_totalAccess := 0;
        SumOfZeros(m_hitCount[..]);
        EmptyIsConsistent();
      }
    }

    lemma EmptyIsConsistent()
      requires Shape() && forall p | 0 <= p < m_cacheSize :: !m_available[p]
      ensures Consistent() && forall e | 0 <= e < m_numCacheLine :: AllEmpty(SetAt(e))
    {
      forall e | 0 <= e < m_numCacheLine ensures AllEmpty(SetAt(e)) {
        BaseOrder(e, m_numCacheLine, m_numWay);
      }
    }

    ghost predicate AllEmpty(s: Set) {
      forall i | 0 <= i < |s.lines| :: s.lines[i] == Empty
    }

    lemma {:induction false} SumOfZeros(s: seq<int>)
      requires forall i | 0 <= i < |s| :: s[i] == 0
      ensures Sum(s) == 0
    {
      if s == [] {
      } else {
        SumOfZeros(s[1..]);
      }
    }

    /** Adds the frame's counters to the sequence's. */
    method AccumulateFrame()
      requires Shape()
      modifies this`m_hitCountSeq, this`m_missHitCountSeq, this`m_totalAccessSeq
      ensures m_cacheEnable ==>
        && m_hitCountSeq == old(m_hitCountSeq) + Sum(m_hitCount[..])
        && m_missHitCountSeq == old(m_missHitCountSeq) + m_missHitCount
        && m_totalAccessSeq == old(m_totalAccessSeq) + m_totalAccess
      ensures !m_cacheEnable ==> unchanged(this)
      ensures FrameCounted() && old(SequenceCounted()) ==> SequenceCounted()
    {
      if m_cacheEnable {
        for i := 0 to m_cacheSize
          invariant m_hitCountSeq == old(m_hitCountSeq) + Sum(m_hitCount[..i])
          invariant m_missHitCountSeq == old(m_missHitCountSeq) && m_totalAccessSeq == old(m_totalAccessSeq)
        {
          assert m_hitCount[..i + 1] == m_hitCount[..i] + [m_hitCount[i]];
          SumAppend(m_hitCount[..i], m_hitCount[i]);
          m_hitCountSeq := m_hitCountSeq + m_hitCount[i];
        }
        assert m_hitCount[..m_cacheSize] == m_hitCount[..];
        m_missHitCountSeq := m_missHitCountSeq + m_missHitCount;
        m_totalAccessSeq := m_totalAccessSeq + m_totalAccess;
      }
    }

    /**
     * From now on accesses go to another reference picture. Samples share a line exactly when they are in the same stretch
     * of memory from the picture's origin, and nothing cached for another picture or component can be hit.
     */
    method SetRefPicture(poc: int, base: int, compID: int)
      modifies this`m_refPoc, this`m_base, this`m_compID
      ensures forall a: int, b: int :: KeyOf(a) == KeyOf(b) <==> SizeT(a - base) / Pow2(m_shift) == SizeT(b - base) / Pow2(m_shift)
      ensures (poc, compID) != (old(m_refPoc), old(m_compID)) ==> forall a: int, b: int :: KeyOf(a) != old(KeyOf(b))
      ensures forall a: int :: KeyOf(a).poc == poc && KeyOf(a).comp == compID
    {
      m_refPoc, m_base, m_compID := poc, base, compID;
      forall a: int ensures KeyOf(a).addr == SizeT(a - base) / Pow2(m_shift) {
        ShrIsDiv(SizeT(a - base), m_shift);
      }
    }

    /** Whether an access is looked up and counted at all. */
    predicate Counting()
      reads this`m_cacheEnable, this`m_cacheEnableFilter
    {
      m_cacheEnable && m_cacheEnableFilter
    }

    /** Switches counting; without a configured cache nothing is ever counted. */
    method SetCacheEnable(enable: bool)
      modifies this`m_cacheEnableFilter
      ensures Counting() <==> m_cacheEnable && enable
    {
      m_cacheEnableFilter := enable;
    }

    method XIsCacheHit(pos: nat, addr: nat) returns (ret: bool)
      requires Shape() && pos < m_cacheSize
      ensures ret <==> LineAt(pos) == Filled(Key(addr, m_refPoc, m_compID))
    {
      ret := false;
      if m_available[pos] {
        if addr == m_cacheAddr[pos] {
          if m_refPoc == m_cachePoc[pos] {
            if m_compID == m_cacheComp[pos] {
              ret := true;
            }
          }
        }
      }
    }

    /** Walks the tree bits away from the last use, and marks the way found as used. */
    method XGetWayTreePlru(entry: nat) returns (way: nat)
      requires Shape() && entry < m_numCacheLine
      modifies m_treeStatus
      ensures way == WordVictim(BitsOf(old(m_treeStatus[entry])), m_treeDepth)
      ensures BitsOf(m_treeStatus[entry]) == WordTouch(BitsOf(old(m_treeStatus[entry])), m_treeDepth, way)
      ensures forall e | 0 <= e < m_numCacheLine && e != entry :: m_treeStatus[e] == old(m_treeStatus[e])
    {
      way := WalkTree(m_treeStatus[entry], m_treeDepth);
      XUpdatePlruStatus(entry, way);
    }

    /** Marks every node on the path to a way as used towards it. */
    method XUpdatePlruStatus(entry: nat, way: nat)
      requires Shape() && entry < m_numCacheLine && way < m_numWay
      modifies m_treeStatus
      ensures BitsOf(m_treeStatus[entry]) == WordTouch(BitsOf(old(m_treeStatus[entry])), m_treeDepth, way)
      ensures forall n: nat | n >= m_numWay - 1 :: n in BitsOf(m_treeStatus[entry]) <==> n in BitsOf(old(m_treeStatus[entry]))
      ensures forall e | 0 <= e < m_numCacheLine && e != entry :: m_treeStatus[e] == old(m_treeStatus[e])
    {
      var val := MarkPath(m_treeStatus[entry], m_treeDepth, way);
      forall n: nat | n >= m_numWay - 1
        ensures n in BitsOf(val) <==> n in BitsOf(m_treeStatus[entry])
      {
        HighBitsStay(BitsOf(m_treeStatus[entry]), m_treeDepth, way, n);
      }
      m_treeStatus[entry] := val;
    }

    method XGetWay(entry: nat) returns (way: nat)
      requires Shape() && entry < m_numCacheLine
      modifies m_treeStatus
      ensures way == WordVictim(BitsOf(old(m_treeStatus[entry])), m_treeDepth)
      ensures BitsOf(m_treeStatus[entry]) == WordTouch(BitsOf(old(m_treeStatus[entry])), m_treeDepth, way)
      ensures forall e | 0 <= e < m_numCacheLine && e != entry :: m_treeStatus[e] == old(m_treeStatus[e])
    {
      if m_numWay == 1 {
        way := 0;
      } else {
        way := XGetWayTreePlru(entry);
      }
    }

    method XUpdateCacheStatus(entry: nat, way: nat)
      requires Shape() && entry < m_numCacheLine && way < m_numWay
      modifies m_treeStatus
      ensures BitsOf(m_treeStatus[entry]) == WordTouch(BitsOf(old(m_treeStatus[entry])), m_treeDepth, way)
      ensures forall e | 0 <= e < m_numCacheLine && e != entry :: m_treeStatus[e] == old(m_treeStatus[e])
    {
      if m_numWay == 1 {
        return;
      }
      XUpdatePlruStatus(entry, way);
    }

    /** Replaces a line of a set by the one missed. The range check of the source never fails. */
    method XUpdateCache(entry: nat, addr: nat) returns (ghost way: nat)
      requires Shape() && entry < m_numCacheLine
      modifies m_cacheAddr, m_cachePoc, m_cacheComp, m_available, m_treeStatus
      ensures way == WordVictim(BitsOf(old(m_treeStatus[entry])), m_treeDepth)
      ensures BitsOf(m_treeStatus[entry]) == WordTouch(BitsOf(old(m_treeStatus[entry])), m_treeDepth, way)
      ensures forall e | 0 <= e < m_numCacheLine && e != entry :: m_treeStatus[e] == old(m_treeStatus[e])
      ensures Base(entry, m_numWay) + way < m_cacheSize
      ensures LineAt(Base(entry, m_numWay) + way) == Filled(Key(addr, m_refPoc, m_compID))
      ensures forall p | 0 <= p < m_cacheSize && p != Base(entry, m_numWay) + way :: LineAt(p) == old(LineAt(p))
    {
      var w := XGetWay(entry);
      way := w;
      BaseOrder(entry, m_numCacheLine, m_numWay);
      BaseIsProduct(entry, m_numWay);
      PlaceLine(entry * m_numWay + w, addr);
    }

    method PlaceLine(pos: nat, addr: nat)
      requires Shape() && pos < m_cacheSize
      modifies m_cacheAddr, m_cachePoc, m_cacheComp, m_available
      ensures LineAt(pos) == Filled(Key(addr, m_refPoc, m_compID))
      ensures forall p | 0 <= p < m_cacheSize && p != pos :: LineAt(p) == old(LineAt(p))
    {
      m_cacheAddr[pos] := addr;
      m_cachePoc[pos] := m_refPoc;
      m_cacheComp[pos] := m_compID;
      m_available[pos] := true;
    }

    /** The sets other than one keep their ways apart from its ways. */
    lemma WaysApart(e: nat, f: nat, i: nat, j: nat)
      requires Shape() && e < m_numCacheLine && f < m_numCacheLine && i < m_numWay && j < m_numWay
      ensures Base(e, m_numWay) + i < m_cacheSize
      ensures Base(e, m_numWay) + i == Base(f, m_numWay) + j ==> e == f && i == j
    {
      BaseOrder(e, m_numCacheLine, m_numWay);
      if e < f { BaseOrder(e, f, m_numWay); } else if f < e { BaseOrder(f, e, m_numWay); }
    }

    /** A missed line in its set: the set of the entry is replaced in, the other sets keep their value. */
    method ReplaceInSet(entry: nat, addr: nat)
      requires Shape() && entry < m_numCacheLine
      requires FindWay(SetAt(entry).lines, Key(addr, m_refPoc, m_compID), 0) == m_numWay
      modifies m_cacheAddr, m_cachePoc, m_cacheComp, m_available, m_treeStatus
      ensures SetAt(entry) == Access(old(SetAt(entry)), m_treeDepth, Key(addr, m_refPoc, m_compID))
      ensures forall e | 0 <= e < m_numCacheLine && e != entry :: SetAt(e) == old(SetAt(e))
    {
      ghost var key := Key(addr, m_refPoc, m_compID);
      ghost var way := XUpdateCache(entry, addr);
      OneLineChanged(entry, way, key);
    }

    twostate lemma OneLineChanged(new entry: nat, new way: nat, new key: Key)
      requires Shape() && entry < m_numCacheLine && way < m_numWay
      requires Base(entry, m_numWay) + way < m_cacheSize && LineAt(Base(entry, m_numWay) + way) == Filled(key)
      requires forall p | 0 <= p < m_cacheSize && p != Base(entry, m_numWay) + way :: LineAt(p) == old(LineAt(p))
      requires forall e | 0 <= e < m_numCacheLine && e != entry :: m_treeStatus[e] == old(m_treeStatus[e])
      ensures SetAt(entry).lines == old(SetAt(entry).lines)[way := Filled(key)]
      ensures forall e | 0 <= e < m_numCacheLine && e != entry :: SetAt(e) == old(SetAt(e))
    {
      BaseOrder(entry, m_numCacheLine, m_numWay);
      forall i | 0 <= i < m_numWay
        ensures SetAt(entry).lines[i] == old(SetAt(entry).lines)[way := Filled(key)][i]
      {
        WaysApart(entry, entry, i, way);
      }
      forall e | 0 <= e < m_numCacheLine && e != entry ensures SetAt(e) == old(SetAt(e)) {
        SetUntouched(entry, way, e);
      }
    }

    twostate lemma SetUntouched(new entry: nat, new way: nat, new e: nat)
      requires Shape() && entry < m_numCacheLine && way < m_numWay && e < m_numCacheLine && e != entry
      requires Base(entry, m_numWay) + way < m_cacheSize
      requires forall p | 0 <= p < m_cacheSize && p != Base(entry, m_numWay) + way :: LineAt(p) == old(LineAt(p))
      requires m_treeStatus[e] == old(m_treeStatus[e])
      ensures SetAt(e) == old(SetAt(e))
    {
      BaseOrder(e, m_numCacheLine, m_numWay);
      forall i | 0 <= i < m_numWay ensures SetAt(e).lines[i] == old(SetAt(e).lines)[i] {
        WaysApart(e, entry, i, way);
      }
      assert SetAt(e).lines == old(SetAt(e).lines);
    }

    /** A hit in a set: its lines stay, its tree bits record the use. */
    method TouchInSet(entry: nat, way: nat, ghost key: Key)
      requires Shape() && entry < m_numCacheLine && way < m_numWay
      requires FindWay(SetAt(entry).lines, key, 0) == way
      modifies m_treeStatus
      ensures SetAt(entry) == Access(old(SetAt(entry)), m_treeDepth, key)
      ensures forall e | 0 <= e < m_numCacheLine && e != entry :: SetAt(e) == old(SetAt(e))
    {
      XUpdateCacheStatus(entry, way);
      assert SetAt(entry).lines == old(SetAt(entry).lines);
      forall e | 0 <= e < m_numCacheLine && e != entry ensures SetAt(e) == old(SetAt(e)) {
        assert SetAt(e).lines == old(SetAt(e).lines);
      }
    }

    /** Compares the key with every way of a set in turn. */
    method FindInSet(entry: nat, addr: nat) returns (hit: bool, way: nat)
      requires Shape() && entry < m_numCacheLine
      ensures way == FindWay(SetAt(entry).lines, Key(addr, m_refPoc, m_compID), 0)
      ensures hit <==> way < m_numWay
    {
      hit, way := false, 0;
      BaseIsProduct(entry, m_numWay);
      var pos := entry * m_numWay;
      ghost var key := Key(addr, m_refPoc, m_compID);
      while way < m_numWay
        invariant way <= m_numWay && !hit
        invariant FindWay(SetAt(entry).lines, key, way) == FindWay(SetAt(entry).lines, key, 0)
      {
        WaysApart(entry, entry, way, way);
        var h := XIsCacheHit(pos + way, addr);
        if h {
          hit := true;
          break;
        }
        way := way + 1;
      }
    }

    method CountHit(pos: nat)
      requires pos < m_hitCount.Length
      modifies m_hitCount
      ensures Sum(m_hitCount[..]) == Sum(old(m_hitCount[..])) + 1
    {
      SumUpdate(m_hitCount[..], pos, m_hitCount[pos] + 1);
      m_hitCount[pos] := m_hitCount[pos] + 1;
      assert m_hitCount[..] == old(m_hitCount[..])[pos := old(m_hitCount[pos]) + 1];
    }

    /** The lookup and what follows from it, for the set an address selects. */
    method AccessSet(entry: nat, addr: nat)
      requires Shape() && entry < m_numCacheLine
      modifies this`m_missHitCount, m_hitCount
      modifies m_cacheAddr, m_cachePoc, m_cacheComp, m_available, m_treeStatus
      ensures var key := Key(addr, m_refPoc, m_compID);
        && SetAt(entry) == Access(old(SetAt(entry)), m_treeDepth, key)
        && (forall e | 0 <= e < m_numCacheLine && e != entry :: SetAt(e) == old(SetAt(e)))
        && m_missHitCount == old(m_missHitCount) + (if Hit(old(SetAt(entry)), key) then 0 else 1)
        && Sum(m_hitCount[..]) == Sum(old(m_hitCount[..])) + (if Hit(old(SetAt(entry)), key) then 1 else 0)
    {
      var hit, way := FindInSet(entry, addr);
      if !hit {
        m_missHitCount := m_missHitCount + 1;
        ReplaceInSet(entry, addr);
      } else {
        WaysApart(entry, entry, way, way);
        BaseIsProduct(entry, m_numWay);
        CountHit(entry * m_numWay + way);
        TouchInSet(entry, way, Key(addr, m_refPoc, m_compID));
      }
    }

    /** An access to the set its key selects keeps every set consistent. */
    twostate lemma StaysConsistent(key: Key)
      requires Shape() && SetAt(EntryOf(key)) == Access(old(SetAt(EntryOf(key))), m_treeDepth, key)
      requires forall e | 0 <= e < m_numCacheLine && e != EntryOf(key) :: SetAt(e) == old(SetAt(e))
      ensures old(Consistent()) ==> Consistent()
    {
      if old(Consistent()) {
        var w := AccessKeeps(old(SetAt(EntryOf(key))), m_treeDepth, key, EntryOf(key), m_numCacheLine);
      }
    }

    /** With counting switched on. */
    method CountedAccess(addr: int)
      requires Shape()
      modifies this`m_missHitCount, this`m_totalAccess, m_hitCount
      modifies m_cacheAddr, m_cachePoc, m_cacheComp, m_available, m_treeStatus
      ensures var key := KeyOf(addr); var entry := EntryOf(key);
        && SetAt(entry) == Access(old(SetAt(entry)), m_treeDepth, key)
        && (forall e | 0 <= e < m_numCacheLine && e != entry :: SetAt(e) == old(SetAt(e)))
        && m_totalAccess == old(m_totalAccess) + 1
        && m_missHitCount == old(m_missHitCount) + (if Hit(old(SetAt(entry)), key) then 0 else 1)
        && Sum(m_hitCount[..]) == Sum(old(m_hitCount[..])) + (if Hit(old(SetAt(entry)), key) then 1 else 0)
    {
      var cacheAddr := KeyOf(addr).addr;
      var entry := EntryOf(KeyOf(addr));
      AccessSet(entry, cacheAddr);
      m_totalAccess := m_totalAccess + 1;
    }

    /**
     * One access: only the set of the line changes, as Access says, and it is counted as a hit or as a miss. The line is
     * the stretch of memory from the picture's origin that the sample is in, its set the one it has counting round; there
     * it is held afterwards.
     */
    method CacheAccess(addr: int) returns (ghost line: nat)
      requires Shape()
      modifies this`m_missHitCount, this`m_totalAccess, m_hitCount
      modifies m_cacheAddr, m_cachePoc, m_cacheComp, m_available, m_treeStatus
      ensures !Counting() ==>
        unchanged(this) && unchanged(m_hitCount) && forall e | 0 <= e < m_numCacheLine :: SetAt(e) == old(SetAt(e))
      ensures Counting() ==>
        var key := KeyOf(addr); var entry := EntryOf(key);
        && SetAt(entry) == Access(old(SetAt(entry)), m_treeDepth, key)
        && (forall e | 0 <= e < m_numCacheLine && e != entry :: SetAt(e) == old(SetAt(e)))
        && m_totalAccess == old(m_totalAccess) + 1
        && m_missHitCount == old(m_missHitCount) + (if Hit(old(SetAt(entry)), key) then 0 else 1)
        && Sum(m_hitCount[..]) == Sum(old(m_hitCount[..])) + (if Hit(old(SetAt(entry)), key) then 1 else 0)
      ensures line * Pow2(m_shift) <= SizeT(addr - m_base) < line * Pow2(m_shift) + Pow2(m_shift)
      ensures Counting() ==>
        && Filled(Key(line, m_refPoc, m_compID)) in SetAt(line % m_numCacheLine).lines
        && forall e | 0 <= e < m_numCacheLine && e != line % m_numCacheLine :: SetAt(e) == old(SetAt(e))
      ensures old(Consistent()) ==> Consistent()
      ensures old(FrameCounted()) ==> FrameCounted()
    {
      line := LineOf(addr);
      if !m_cacheEnable || !m_cacheEnableFilter {
        return;
      }
      CountedAccess(addr);
      var w := AccessTouches(old(SetAt(EntryOf(KeyOf(addr)))), m_treeDepth, KeyOf(addr));
      StaysConsistent(KeyOf(addr));
    }
  }
}
