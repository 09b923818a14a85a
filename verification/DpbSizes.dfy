/** Decoded picture buffer sizes and reordering depths per temporal layer. */
module DpbSizes {
  import opened Arithmetic
  import opened GopStructure

  const MAX_TLAYER: nat := 7

  /** Among the first n pictures in coding order, the last whose POC is not above poc. */
  function Highest(table: seq<GOPEntry>, n: nat, poc: int): (h: nat)
    requires n <= |table|
  {
    if n == 0 then 0 else if table[n - 1].poc <= poc then n - 1 else Highest(table, n - 1, poc)
  }

  /** How many of the first h pictures are output after picture i but belong to its or a lower temporal layer. */
  function CountLater(table: seq<GOPEntry>, h: nat, i: nat): nat
    requires h <= |table| && i < |table|
  {
    if h == 0 then 0
    else
      var later := table[h - 1].temporalId <= table[i].temporalId && table[h - 1].poc > table[i].poc;
      CountLater(table, h - 1, i) + if later then 1 else 0
  }

  /**
   * Reordering picture i causes: pictures coded before the last one that is output no later than picture i, yet
   * output after it.
   */
  function Reorder(table: seq<GOPEntry>, i: nat): nat
    requires i < |table|
  {
    CountLater(table, HighestIn(table, i), i)
  }

  function HighestIn(table: seq<GOPEntry>, i: nat): (h: nat)
    requires i < |table|
    ensures h <= |table|
  {
    HighestBounds(table, |table|, table[i].poc);
    Highest(table, |table|, table[i].poc)
  }

  lemma {:induction false} HighestBounds(table: seq<GOPEntry>, n: nat, poc: int)
    requires n <= |table|
    ensures Highest(table, n, poc) <= n
  {
    if n == 0 {
    } else {
      HighestBounds(table, n - 1, poc);
    }
  }

  /** What the search finds: the last picture in coding order that is output no later. */
  lemma {:induction false} HighestMeaning(table: seq<GOPEntry>, n: nat, poc: int, i: nat)
    requires i < n <= |table| && table[i].poc <= poc
    ensures var h := Highest(table, n, poc); i <= h < n && table[h].poc <= poc && forall k | h < k < n :: table[k].poc > poc
  {
    if table[n - 1].poc <= poc {
    } else {
      HighestMeaning(table, n - 1, poc, i);
    }
  }

  /** Picture k is coded before one that is output no later than picture i, yet output after picture i itself. */
  ghost predicate Overtaken(table: seq<GOPEntry>, i: nat, k: nat)
    requires i < |table| && k < |table|
  {
    && table[k].temporalId <= table[i].temporalId && table[k].poc > table[i].poc
    && exists j :: k < j < |table| && table[j].poc <= table[i].poc
  }

  ghost function Later(table: seq<GOPEntry>, h: nat, i: nat): set<nat>
    requires h <= |table| && i < |table|
  {
    set k: nat | k < h && table[k].temporalId <= table[i].temporalId && table[k].poc > table[i].poc
  }

  lemma {:induction false} CountLaterIsSize(table: seq<GOPEntry>, h: nat, i: nat)
    requires h <= |table| && i < |table|
    ensures CountLater(table, h, i) == |Later(table, h, i)|
  {
    if h == 0 {
      assert Later(table, h, i) == {};
    } else {
      CountLaterIsSize(table, h - 1, i);
      var before := Later(table, h - 1, i);
      if table[h - 1].temporalId <= table[i].temporalId && table[h - 1].poc > table[i].poc {
        assert Later(table, h, i) == before + {h - 1};
      } else {
        assert Later(table, h, i) == before;
      }
    }
  }

  /** The reordering counted for a picture is the number of pictures overtaken. */
  lemma ReorderMeaning(table: seq<GOPEntry>, i: nat)
    requires i < |table|
    ensures Reorder(table, i) == |set k: nat | k < |table| && Overtaken(table, i, k)|
  {
    var h := HighestIn(table, i);
    HighestMeaning(table, |table|, table[i].poc, i);
    CountLaterIsSize(table, h, i);
    forall k: nat
      ensures k in Later(table, h, i) <==> k < |table| && Overtaken(table, i, k)
    {
      if k < |table| && Overtaken(table, i, k) {
        var j :| k < j < |table| && table[j].poc <= table[i].poc;
        assert j <= h;
      }
    }
    assert Later(table, h, i) == set k: nat | k < |table| && Overtaken(table, i, k);
  }

  /** Enough for every picture of the table on its layer. */
  ghost predicate Covers(table: seq<GOPEntry>, n: nat, reorder: seq<int>, buffering: seq<int>) {
    && n <= |table| && |reorder| == |buffering| == MAX_TLAYER
    && (forall t | 0 <= t < MAX_TLAYER :: reorder[t] >= 0 && buffering[t] >= 1)
    && forall i | 0 <= i < n && table[i].temporalId < MAX_TLAYER ::
         Reorder(table, i) <= reorder[table[i].temporalId] && |table[i].referencePics| + 1 <= buffering[table[i].temporalId]
  }

  /** No layer needs more than a higher one, and reordering leaves room for the picture itself. */
  ghost predicate Consistent(reorder: seq<int>, buffering: seq<int>) {
    && |reorder| == |buffering| == MAX_TLAYER
    && (forall t | 0 <= t < MAX_TLAYER - 1 :: reorder[t] <= reorder[t + 1] && buffering[t] <= buffering[t + 1])
    && (forall t | 0 <= t < MAX_TLAYER :: 0 <= reorder[t] <= buffering[t] - 1)
  }

  ghost predicate AtMost(a: seq<int>, b: seq<int>) {
    |a| == |b| && forall t | 0 <= t < |a| :: a[t] <= b[t]
  }

  /** Covers the first n pictures, and nothing smaller does. */
  ghost predicate LeastCover(table: seq<GOPEntry>, n: nat, reorder: seq<int>, buffering: seq<int>) {
    && Covers(table, n, reorder, buffering)
    && forall r, b | Covers(table, n, r, b) :: AtMost(reorder, r) && AtMost(buffering, b)
  }

  /** One picture's reordering, counted as the loop does. */
  method CountReorder(table: seq<GOPEntry>, i: nat) returns (numReorder: nat)
    requires i < |table|
    ensures numReorder == Reorder(table, i)
  {
    var highest := 0;
    for j := 0 to |table|
      invariant highest == Highest(table, j, table[i].poc) <= j
    {
      if table[j].poc <= table[i].poc {
        highest := j;
      }
    }
    numReorder := 0;
    for j := 0 to highest
      invariant numReorder == CountLater(table, j, i)
    {
      if table[j].temporalId <= table[i].temporalId && table[j].poc > table[i].poc {
        numReorder := numReorder + 1;
      }
    }
  }

  /** Raises a layer's entry to v, if it is lower. */
  method Raise(a: array<int>, t: nat, v: int)
    requires t < a.Length
    modifies a
    ensures a[..] == old(a[..])[t := Max(old(a[t]), v)]
  {
    if v > a[t] {
      a[t] := v;
    }
  }

  /** Per layer the most any of its pictures needs. */
  method CoverTable(table: seq<GOPEntry>, numReorderPics: array<int>, maxDecPicBuffering: array<int>)
    requires numReorderPics.Length == maxDecPicBuffering.Length == MAX_TLAYER && numReorderPics != maxDecPicBuffering
    requires forall i | 0 <= i < |table| :: table[i].temporalId < MAX_TLAYER
    modifies numReorderPics, maxDecPicBuffering
    ensures LeastCover(table, |table|, numReorderPics[..], maxDecPicBuffering[..])
  {
    for i := 0 to MAX_TLAYER
      invariant forall t | 0 <= t < i :: numReorderPics[t] == 0 && maxDecPicBuffering[t] == 1
    {
      numReorderPics[i] := 0;
      maxDecPicBuffering[i] := 1;
    }
    for i := 0 to |table|
      invariant LeastCover(table, i, numReorderPics[..], maxDecPicBuffering[..])
    {
      var numReorder := CountReorder(table, i);
      ghost var r, b := numReorderPics[..], maxDecPicBuffering[..];
      Raise(maxDecPicBuffering, table[i].temporalId, |table[i].referencePics| + 1);
      Raise(numReorderPics, table[i].temporalId, numReorder);
      CoverOneMore(table, i, i + 1, r, b, numReorderPics[..], maxDecPicBuffering[..]);
    }
  }

  lemma CoverOneMore(table: seq<GOPEntry>, i: nat, n: nat, r: seq<int>, b: seq<int>, newR: seq<int>, newB: seq<int>)
    requires i < |table| && n == i + 1 && table[i].temporalId < MAX_TLAYER && LeastCover(table, i, r, b)
    requires newR == r[table[i].temporalId := Max(r[table[i].temporalId], Reorder(table, i))]
    requires newB == b[table[i].temporalId := Max(b[table[i].temporalId], |table[i].referencePics| + 1)]
    ensures LeastCover(table, n, newR, newB)
  {
    var l := table[i].temporalId;
    assert AtMost(r, newR) && AtMost(b, newB);
    forall j | 0 <= j < i + 1 && table[j].temporalId < MAX_TLAYER
      ensures Reorder(table, j) <= newR[table[j].temporalId] && |table[j].referencePics| + 1 <= newB[table[j].temporalId]
    {
      if j < i {
        assert Reorder(table, j) <= r[table[j].temporalId];
      }
    }
    forall rr, bb | Covers(table, n, rr, bb)
      ensures AtMost(newR, rr) && AtMost(newB, bb)
    {
      assert Covers(table, i, rr, bb);
      assert Reorder(table, i) <= rr[l] && |table[i].referencePics| + 1 <= bb[l];
    }
  }

  // ---- Making layers consistent ----

  function PrefixMax(s: seq<int>, t: nat): int
    requires t < |s|
  {
    if t == 0 then s[0] else Max(PrefixMax(s, t - 1), s[t])
  }

  /** Layer t's buffering once no lower layer needs more and reordering leaves room. */
  function Buffering(reorder: seq<int>, buffering: seq<int>, t: nat): int
    requires t < |reorder| == |buffering|
  {
    Max(PrefixMax(buffering, t), PrefixMax(reorder, t) + 1)
  }

  /** One layer more has what it needs, and passes it on to the next. */
  method FixNextLayer(numReorderPics: array<int>, maxDecPicBuffering: array<int>, i: nat, ghost r: seq<int>, ghost b: seq<int>)
    requires numReorderPics.Length == maxDecPicBuffering.Length == |r| == |b| == MAX_TLAYER && numReorderPics != maxDecPicBuffering
    requires i < MAX_TLAYER - 1
    requires numReorderPics[i] == PrefixMax(r, i) && numReorderPics[i + 1] == r[i + 1]
    requires maxDecPicBuffering[i] == (if i == 0 then b[0] else Max(Buffering(r, b, i - 1), b[i])) && maxDecPicBuffering[i + 1] == b[i + 1]
    modifies numReorderPics, maxDecPicBuffering
    ensures numReorderPics[i] == PrefixMax(r, i) && maxDecPicBuffering[i] == Buffering(r, b, i)
    ensures numReorderPics[i + 1] == PrefixMax(r, i + 1) && maxDecPicBuffering[i + 1] == Max(Buffering(r, b, i), b[i + 1])
    ensures forall t | 0 <= t < MAX_TLAYER && t != i && t != i + 1 ::
      numReorderPics[t] == old(numReorderPics[t]) && maxDecPicBuffering[t] == old(maxDecPicBuffering[t])
  {
    FixLayer(numReorderPics, maxDecPicBuffering, i);
    NextBuffering(r, b, i);
  }

  /** The fix-up over the layers, in place. */
  method MakeConsistent(numReorderPics: array<int>, maxDecPicBuffering: array<int>)
    requires numReorderPics.Length == maxDecPicBuffering.Length == MAX_TLAYER && numReorderPics != maxDecPicBuffering
    modifies numReorderPics, maxDecPicBuffering
    ensures forall t | 0 <= t < MAX_TLAYER :: numReorderPics[t] == PrefixMax(old(numReorderPics[..]), t)
    ensures forall t | 0 <= t < MAX_TLAYER ::
      maxDecPicBuffering[t] == Buffering(old(numReorderPics[..]), old(maxDecPicBuffering[..]), t)
  {
    ghost var r, b := numReorderPics[..], maxDecPicBuffering[..];
    var n := numReorderPics.Length;
    for i := 0 to n - 1
      invariant forall t | 0 <= t < i :: numReorderPics[t] == PrefixMax(r, t) && maxDecPicBuffering[t] == Buffering(r, b, t)
      invariant numReorderPics[i] == PrefixMax(r, i)
      invariant maxDecPicBuffering[i] == if i == 0 then b[0] else Max(Buffering(r, b, i - 1), b[i])
      invariant forall t | i < t < n :: numReorderPics[t] == r[t] && maxDecPicBuffering[t] == b[t]
    {
      FixNextLayer(numReorderPics, maxDecPicBuffering, i, r, b);
    }
    if numReorderPics[n - 1] > maxDecPicBuffering[n - 1] - 1 {
      maxDecPicBuffering[n - 1] := numReorderPics[n - 1] + 1;
    }
    NextBuffering(r, b, n - 1);
  }

  /** Layer i gets room for its reordering, and the layer above no less than it. */
  method FixLayer(numReorderPics: array<int>, maxDecPicBuffering: array<int>, i: nat)
    requires i + 1 < numReorderPics.Length == maxDecPicBuffering.Length && numReorderPics != maxDecPicBuffering
    modifies numReorderPics, maxDecPicBuffering
    ensures numReorderPics[..] == old(numReorderPics[..])[i + 1 := Max(old(numReorderPics[i]), old(numReorderPics[i + 1]))]
    ensures var d := Max(old(maxDecPicBuffering[i]), old(numReorderPics[i]) + 1);
      maxDecPicBuffering[..] == old(maxDecPicBuffering[..])[i := d][i + 1 := Max(d, old(maxDecPicBuffering[i + 1]))]
  {
    if numReorderPics[i + 1] < numReorderPics[i] {
      numReorderPics[i + 1] := numReorderPics[i];
    }
    if numReorderPics[i] > maxDecPicBuffering[i] - 1 {
      maxDecPicBuffering[i] := numReorderPics[i] + 1;
    }
    if maxDecPicBuffering[i + 1] < maxDecPicBuffering[i] {
      maxDecPicBuffering[i + 1] := maxDecPicBuffering[i];
    }
  }

  lemma NextBuffering(r: seq<int>, b: seq<int>, i: nat)
    requires i < |r| == |b|
    ensures Buffering(r, b, i) == Max(if i == 0 then b[0] else Max(Buffering(r, b, i - 1), b[i]), PrefixMax(r, i) + 1)
  {
  }

  /** Below any consistent pair that is at least r and b lie their prefix maxima. */
  lemma {:induction false} PrefixMaxBelow(s: seq<int>, a: seq<int>, t: nat)
    requires AtMost(s, a) && t < |s| && forall u | 0 <= u < |a| - 1 :: a[u] <= a[u + 1]
    ensures PrefixMax(s, t) <= a[t]
  {
    if t == 0 {
    } else {
      PrefixMaxBelow(s, a, t - 1);
      assert a[t - 1] <= a[t - 1 + 1];
    }
  }

  lemma {:induction false} PrefixMaxAbove(s: seq<int>, t: nat)
    requires t < |s|
    ensures s[t] <= PrefixMax(s, t)
    ensures t + 1 < |s| ==> PrefixMax(s, t) <= PrefixMax(s, t + 1)
    ensures PrefixMax(s, t) >= s[0]
  {
    if t == 0 {
    } else {
      PrefixMaxAbove(s, t - 1);
    }
  }

  /** What the table asks for and layers must keep: sizes that cover all pictures and are consistent. */
  ghost predicate Admissible(table: seq<GOPEntry>, reorder: seq<int>, buffering: seq<int>) {
    Covers(table, |table|, reorder, buffering) && Consistent(reorder, buffering)
  }

  /** The sizes chosen are admissible, and no admissible sizes are smaller in any layer. */
  method SizeBuffers(table: seq<GOPEntry>, numReorderPics: array<int>, maxDecPicBuffering: array<int>)
    requires numReorderPics.Length == maxDecPicBuffering.Length == MAX_TLAYER && numReorderPics != maxDecPicBuffering
    requires forall i | 0 <= i < |table| :: table[i].temporalId < MAX_TLAYER
    modifies numReorderPics, maxDecPicBuffering
    ensures Admissible(table, numReorderPics[..], maxDecPicBuffering[..])
    ensures forall r, b | Admissible(table, r, b) :: AtMost(numReorderPics[..], r) && AtMost(maxDecPicBuffering[..], b)
  {
    CoverTable(table, numReorderPics, maxDecPicBuffering);
    ghost var r, b := numReorderPics[..], maxDecPicBuffering[..];
    MakeConsistent(numReorderPics, maxDecPicBuffering);
    LeastConsistent(table, r, b, numReorderPics[..], maxDecPicBuffering[..]);
  }

  lemma LeastConsistent(table: seq<GOPEntry>, r: seq<int>, b: seq<int>, newR: seq<int>, newB: seq<int>)
    requires LeastCover(table, |table|, r, b) && |newR| == |newB| == MAX_TLAYER
    requires forall t | 0 <= t < MAX_TLAYER :: newR[t] == PrefixMax(r, t) && newB[t] == Buffering(r, b, t)
    ensures Admissible(table, newR, newB)
    ensures forall rr, bb | Admissible(table, rr, bb) :: AtMost(newR, rr) && AtMost(newB, bb)
  {
    forall t | 0 <= t < MAX_TLAYER
      ensures r[t] <= newR[t] && b[t] <= newB[t]
      ensures t + 1 < MAX_TLAYER ==> newR[t] <= newR[t + 1] && newB[t] <= newB[t + 1]
    {
      PrefixMaxAbove(r, t);
      PrefixMaxAbove(b, t);
    }
    forall rr, bb | Admissible(table, rr, bb)
      ensures AtMost(newR, rr) && AtMost(newB, bb)
    {
      forall t | 0 <= t < MAX_TLAYER
        ensures newR[t] <= rr[t] && newB[t] <= bb[t]
      {
        PrefixMaxBelow(r, rr, t);
        PrefixMaxBelow(b, bb, t);
      }
    }
  }
}
