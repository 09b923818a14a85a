/** The bump allocator that hands transform units their coefficients. */
module CoeffStore {
  import opened StridedBlock
  import opened UnitGeometry
  import opened UnitIndex

  /** Component i of a unit; a component it does not have is an empty area. */
  function BlockOf(u: Unit, i: nat): CompArea {
    if i < |u.blocks| && u.blocks[i].Valid() then u.blocks[i] else CompArea(0, 0, 0, 0)
  }

  function BlocksOf(us: seq<Unit>, i: nat): (b: seq<CompArea>)
    ensures |b| == |us|
    ensures forall k | 0 <= k < |us| :: b[k] == BlockOf(us[k], i)
  {
    seq(|us|, k requires 0 <= k < |us| => BlockOf(us[k], i))
  }

  /** Where the coefficients of unit k begin in component i. */
  function Start(us: seq<Unit>, k: nat, i: nat): nat
    requires k <= |us|
  {
    TotalSize(BlocksOf(us[..k], i))
  }

  lemma StartOfNext(us: seq<Unit>, k: nat, i: nat)
    requires k < |us|
    ensures Start(us, k + 1, i) == Start(us, k, i) + BlockOf(us[k], i).Size()
  {
    var b := BlocksOf(us[..k + 1], i);
    assert b[..k] == BlocksOf(us[..k], i);
  }

  lemma {:induction false} StartMono(us: seq<Unit>, j: nat, k: nat, i: nat)
    requires j <= k <= |us|
    ensures Start(us, j, i) <= Start(us, k, i)
  {
    if j >= k {
    } else {
      StartMono(us, j, k - 1, i);
      StartOfNext(us, k - 1, i);
    }
  }

  /** Slices of different units do not overlap, and every unit's slice ends below the running offset. */
  lemma SlicesAreDisjoint(us: seq<Unit>, j: nat, k: nat, i: nat)
    requires j < k < |us|
    ensures Start(us, j, i) + BlockOf(us[j], i).Size() <= Start(us, k, i)
    ensures Start(us, k, i) + BlockOf(us[k], i).Size() <= Start(us, |us|, i)
  {
    StartOfNext(us, j, i);
    StartOfNext(us, k, i);
    StartMono(us, j + 1, k, i);
    StartMono(us, k + 1, |us|, i);
  }

  lemma StartOfPrefix(us: seq<Unit>, more: seq<Unit>, k: nat, i: nat)
    requires k <= |us|
    ensures Start(us + more, k, i) == Start(us, k, i)
  {
    assert (us + more)[..k] == us[..k];
  }

  /** In component i the units' areas are pairwise disjoint and inside an outer area. */
  ghost predicate Packable(us: seq<Unit>, i: nat, outer: CompArea) {
    && PairwiseDisjoint(BlocksOf(us, i))
    && forall k | 0 <= k < |us| :: !BlockOf(us[k], i).Valid() || outer.ContainsArea(BlockOf(us[k], i))
  }

  lemma PackablePrefix(us: seq<Unit>, n: nat, i: nat, outer: CompArea)
    requires Packable(us, i, outer) && n <= |us|
    ensures Packable(us[..n], i, outer)
  {
    var b := BlocksOf(us, i);
    assert forall k | 0 <= k < n :: BlocksOf(us[..n], i)[k] == b[k];
  }

  /** Packable units need no more coefficients than the outer area has. */
  lemma PackableFits(us: seq<Unit>, i: nat, outer: CompArea)
    requires Packable(us, i, outer)
    ensures Start(us, |us|, i) <= outer.Size()
  {
    assert us[..|us|] == us;
    DisjointAreasFit(BlocksOf(us, i), outer);
  }

  /**
   * The check made when a unit is added looks at its first cell alone. It does not keep offsets inside the buffers:
   * two units that overlap elsewhere pass it and take more than the whole area.
   */
  lemma FirstCellCheckIsNotEnough()
    ensures var scale, outer := UnitScale(2, 2), CompArea(0, 0, 8, 8);
      var a, b := Unit([CompArea(4, 0, 4, 8)], 0), Unit([CompArea(0, 0, 8, 8)], 0);
      && FirstCellFree([], a, 0, scale) && FirstCellFree([a], b, 0, scale)
      && outer.ContainsArea(BlockOf(a, 0)) && outer.ContainsArea(BlockOf(b, 0))
      && Start([a, b], 2, 0) > outer.Size()
  {
    var a, b := Unit([CompArea(4, 0, 4, 8)], 0), Unit([CompArea(0, 0, 8, 8)], 0);
    assert [a][..0] == [] && [a, b][..2] == [a, b] && [a, b][..1] == [a];
    StartOfNext([a, b], 0, 0);
    StartOfNext([a, b], 1, 0);
    SizeIsPositive(BlockOf(a, 0));
  }

  /**
   * What the offsets need is the check over a unit's whole area: aligned units inside an outer area that passed it one
   * by one, and only such, are packable.
   */
  lemma WhollyCheckedIffPackable(us: seq<Unit>, c: nat, scale: UnitScale, outer: CompArea)
    requires scale.Valid() && AllAligned(us, c, scale)
    requires forall k | 0 <= k < |us| :: !BlockOf(us[k], c).Valid() || outer.ContainsArea(BlockOf(us[k], c))
    ensures WhollyChecked(us, c, scale) <==> Packable(us, c, outer)
  {
    WhollyCheckedIffDisjoint(us, c, scale);
    var b := BlocksOf(us, c);
    if PairwiseDisjoint(b) {
      forall j, k | 0 <= j < k < |us| && c < |us[j].blocks| && c < |us[k].blocks|
        ensures Disjoint(us[j].blocks[c], us[k].blocks[c])
      {
        assert Disjoint(b[j], b[k]);
      }
    }
  }

  /** So the check over the whole area keeps the offsets inside the buffer, which the check of the first cell does not. */
  lemma WholeCheckIsEnough(us: seq<Unit>, c: nat, scale: UnitScale, outer: CompArea)
    requires scale.Valid() && AllAligned(us, c, scale) && WhollyChecked(us, c, scale)
    requires forall k | 0 <= k < |us| :: !BlockOf(us[k], c).Valid() || outer.ContainsArea(BlockOf(us[k], c))
    ensures Start(us, |us|, c) <= outer.Size()
  {
    WhollyCheckedIffPackable(us, c, scale, outer);
    PackableFits(us, c, outer);
  }

  lemma SizeIsPositive(b: CompArea)
    requires b.Valid()
    ensures b.Size() > 0
  {
    AreaIsProduct(b.width, b.height);
  }

  /** The recorded beginnings of all units' coefficients in n components. */
  ghost predicate StartsMatch(starts: seq<seq<nat>>, us: seq<Unit>, n: nat) {
    && |starts| == |us|
    && forall k | 0 <= k < |us| :: |starts[k]| == n && forall i | 0 <= i < n :: starts[k][i] == Start(us, k, i)
  }

  lemma StartsMatchNext(starts: seq<seq<nat>>, us: seq<Unit>, u: Unit, next: seq<nat>, n: nat)
    requires StartsMatch(starts, us, n)
    requires |next| == n && forall i | 0 <= i < n :: next[i] == Start(us + [u], |us|, i)
    ensures StartsMatch(starts + [next], us + [u], n)
  {
    forall k, i | 0 <= k < |us| && 0 <= i < n
      ensures Start(us + [u], k, i) == starts[k][i]
    {
      StartOfPrefix(us, [u], k, i);
    }
  }

  class CoeffStore {
    const area: seq<CompArea>
    const coeffs: seq<array<int>>
    var offsets: seq<nat>
    ghost var tus: seq<Unit>
    /** The allocator and its buffers. */
    ghost const Repr: set<object>

    ghost predicate Shaped() {
      && this in Repr && (forall i | 0 <= i < |coeffs| :: coeffs[i] in Repr)
      && |area| == |coeffs|
      && (forall i | 0 <= i < |coeffs| :: coeffs[i].Length == area[i].Size())
      && (forall i, j | 0 <= i < j < |coeffs| :: coeffs[i] != coeffs[j])
    }

    /** The running offsets are the sizes handed out so far, and stay inside the buffers. */
    ghost predicate Valid()
      reads this
    {
      && Shaped() && |offsets| == |coeffs|
      && (forall i | 0 <= i < |coeffs| :: Packable(tus, i, area[i]))
      && (forall i | 0 <= i < |coeffs| :: offsets[i] == Start(tus, |tus|, i) <= coeffs[i].Length)
    }

    constructor (areas: seq<CompArea>)
      ensures Valid() && tus == [] && area == areas && |coeffs| == |areas|
      ensures fresh(Repr)
    {
      area, tus := areas, [];
      offsets := seq(|areas|, i => 0);
      var bufs: seq<array<int>> := [];
      for i := 0 to |areas|
        invariant |bufs| == i
        invariant forall j | 0 <= j < i :: fresh(bufs[j]) && bufs[j].Length == areas[j].Size()
        invariant forall j, k | 0 <= j < k < i :: bufs[j] != bufs[k]
      {
        var buf := new int[areas[i].Size()];
        bufs := bufs + [buf];
      }
      coeffs := bufs;
      Repr := {this} + set i | 0 <= i < |bufs| :: bufs[i];
    }

    /** Moves every component's offset by the size of the unit's area in it. */
    method Bump(u: Unit)
      requires Shaped() && |offsets| == |coeffs|
      modifies this
      ensures |offsets| == |coeffs| && forall i | 0 <= i < |coeffs| :: offsets[i] == old(offsets[i]) + BlockOf(u, i).Size()
      ensures tus == old(tus)
    {
      for i := 0 to |coeffs|
        invariant |offsets| == |coeffs| && tus == old(tus)
        invariant forall j | 0 <= j < i :: offsets[j] == old(offsets[j]) + BlockOf(u, j).Size()
        invariant forall j | i <= j < |coeffs| :: offsets[j] == old(offsets[j])
      {
        if i < |u.blocks| && u.blocks[i].Valid() {
          offsets := offsets[i := offsets[i] + u.blocks[i].Size()];
        }
      }
    }

    lemma OffsetsAfter(before: seq<Unit>, u: Unit, i: nat)
      requires Shaped() && i < |coeffs| && Packable(before + [u], i, area[i])
      ensures Start(before + [u], |before|, i) == Start(before, |before|, i)
      ensures Start(before + [u], |before| + 1, i) == Start(before, |before|, i) + BlockOf(u, i).Size() <= coeffs[i].Length
    {
      StartOfPrefix(before, [u], |before|, i);
      StartOfNext(before + [u], |before|, i);
      PackableFits(before + [u], i, area[i]);
    }

    /**
     * Hands a unit its slices: returns where they begin. For units whose areas stay disjoint and inside the
     * structure's the offsets stay inside the buffers.
     */
    method Allocate(u: Unit) returns (starts: seq<nat>)
      requires Valid() && forall i | 0 <= i < |coeffs| :: Packable(tus + [u], i, area[i])
      modifies this
      ensures Valid() && tus == old(tus) + [u]
      ensures |starts| == |coeffs| && forall i | 0 <= i < |coeffs| :: starts[i] == Start(tus, |tus| - 1, i)
    {
      ghost var before := tus;
      starts := offsets;
      Bump(u);
      tus := tus + [u];
      forall i | 0 <= i < |coeffs|
        ensures offsets[i] == Start(tus, |tus|, i) <= coeffs[i].Length && starts[i] == Start(tus, |tus| - 1, i)
      {
        OffsetsAfter(before, u, i);
      }
    }

    /** Forgets all units: their coefficients can be handed out again. */
    method Reset()
      requires Shaped()
      modifies this
      ensures Valid() && tus == []
    {
      tus := [];
      offsets := seq(|coeffs|, i => 0);
      forall i | 0 <= i < |coeffs|
        ensures Start([], 0, i) == 0
      {
      }
    }
  }

  /** s with t written over it from position a. */
  function Pasted(s: seq<int>, a: nat, t: seq<int>): (r: seq<int>)
    requires a + |t| <= |s|
    ensures |r| == |s|
  {
    s[..a] + t + s[a + |t|..]
  }

  /** Unit k's part of component i's coefficients. */
  function PartOf(buf: seq<int>, us: seq<Unit>, k: nat, i: nat): seq<int>
    requires k < |us|
  {
    var a, n := Start(us, k, i), BlockOf(us[k], i).Size();
    if a + n <= |buf| then buf[a..a + n] else []
  }

  /** Component i of `to` after unit d has received the part that unit k of another list has in `from`. */
  function Carried(to: seq<int>, us: seq<Unit>, d: nat, from: seq<int>, vs: seq<Unit>, k: nat, i: nat): (r: seq<int>)
    requires d < |us| && k < |vs|
    ensures |r| == |to|
  {
    var a, t := Start(us, d, i), PartOf(from, vs, k, i);
    if a + |t| <= |to| then Pasted(to, a, t) else to
  }

  lemma CarriedIsPasted(to: seq<int>, us: seq<Unit>, d: nat, from: seq<int>, vs: seq<Unit>, k: nat, i: nat, a: nat, b: nat, n: nat)
    requires d < |us| && k < |vs| && us[d] == vs[k]
    requires a == Start(us, d, i) && b == Start(vs, k, i) && n == BlockOf(us[d], i).Size() && a + n <= |to| && b + n <= |from|
    ensures Carried(to, us, d, from, vs, k, i) == Pasted(to, a, from[b..b + n])
  {
  }

  lemma PartIsSlice(buf: seq<int>, us: seq<Unit>, k: nat, i: nat, a: nat, n: nat)
    requires k < |us| && a == Start(us, k, i) && n == BlockOf(us[k], i).Size() && a + n <= |buf|
    ensures PartOf(buf, us, k, i) == buf[a..a + n]
  {
  }

  lemma PastedSlices(s: seq<int>, a: nat, t: seq<int>, b: nat, n: nat)
    requires a + |t| <= |s| && b + n <= |s| && (b + n <= a || a + |t| <= b)
    ensures Pasted(s, a, t)[a..a + |t|] == t
    ensures Pasted(s, a, t)[b..b + n] == s[b..b + n]
  {
  }

  lemma CarriedOwnPart(to: seq<int>, us: seq<Unit>, d: nat, from: seq<int>, vs: seq<Unit>, k: nat, i: nat, a: nat, b: nat, n: nat)
    requires d < |us| && k < |vs| && us[d] == vs[k]
    requires a == Start(us, d, i) && b == Start(vs, k, i) && n == BlockOf(us[d], i).Size() && a + n <= |to| && b + n <= |from|
    ensures PartOf(Carried(to, us, d, from, vs, k, i), us, d, i) == PartOf(from, vs, k, i)
  {
    CarriedIsPasted(to, us, d, from, vs, k, i, a, b, n);
    PastedSlices(to, a, from[b..b + n], 0, 0);
  }

  lemma CarriedOtherPart(to: seq<int>, us: seq<Unit>, d: nat, from: seq<int>, vs: seq<Unit>, k: nat, i: nat, e: nat,
                         a: nat, b: nat, n: nat, c: nat, m: nat)
    requires d < |us| && k < |vs| && us[d] == vs[k] && e < |us|
    requires a == Start(us, d, i) && b == Start(vs, k, i) && n == BlockOf(us[d], i).Size() && a + n <= |to| && b + n <= |from|
    requires c == Start(us, e, i) && m == BlockOf(us[e], i).Size() && c + m <= |to| && (c + m <= a || a + n <= c)
    ensures PartOf(Carried(to, us, d, from, vs, k, i), us, e, i) == PartOf(to, us, e, i)
  {
    CarriedIsPasted(to, us, d, from, vs, k, i, a, b, n);
    PastedSlices(to, a, from[b..b + n], c, m);
    PartIsSlice(to, us, e, i, c, m);
    PartIsSlice(Pasted(to, a, from[b..b + n]), us, e, i, c, m);
  }

  /** The receiving unit has the other's coefficients, and no other unit's have changed. */
  lemma CarriedParts(to: seq<int>, us: seq<Unit>, d: nat, from: seq<int>, vs: seq<Unit>, k: nat, i: nat, e: nat)
    requires d < |us| && k < |vs| && us[d] == vs[k] && e < |us|
    requires Start(us, |us|, i) <= |to| && Start(vs, |vs|, i) <= |from|
    ensures PartOf(Carried(to, us, d, from, vs, k, i), us, e, i) == if e == d then PartOf(from, vs, k, i) else PartOf(to, us, e, i)
  {
    SliceEnds(us, d, i);
    SliceEnds(vs, k, i);
    if e == d {
      CarriedOwnPart(to, us, d, from, vs, k, i, Start(us, d, i), Start(vs, k, i), BlockOf(us[d], i).Size());
    } else {
      SliceEnds(us, e, i);
      SlicesAreDisjoint(us, if e < d then e else d, if e < d then d else e, i);
      CarriedOtherPart(to, us, d, from, vs, k, i, e, Start(us, d, i), Start(vs, k, i), BlockOf(us[d], i).Size(),
                       Start(us, e, i), BlockOf(us[e], i).Size());
    }
  }

  lemma SliceEnds(us: seq<Unit>, k: nat, i: nat)
    requires k < |us|
    ensures Start(us, k, i) + BlockOf(us[k], i).Size() <= Start(us, |us|, i)
  {
    StartOfNext(us, k, i);
    StartMono(us, k + 1, |us|, i);
  }

  /** All units' coefficients of component i. */
  function Parts(buf: seq<int>, us: seq<Unit>, i: nat): (p: seq<seq<int>>)
    ensures |p| == |us|
  {
    seq(|us|, k requires 0 <= k < |us| => PartOf(buf, us, k, i))
  }

  /** A new unit that receives another's coefficients adds them to the end and leaves all others' alone. */
  lemma PartsAfterCarry(to: seq<int>, us: seq<Unit>, from: seq<int>, vs: seq<Unit>, k: nat, i: nat)
    requires k < |vs|
    requires Start(us + [vs[k]], |us| + 1, i) <= |to| && Start(vs, |vs|, i) <= |from|
    ensures Parts(Carried(to, us + [vs[k]], |us|, from, vs, k, i), us + [vs[k]], i) == Parts(to, us, i) + [PartOf(from, vs, k, i)]
  {
    var all := us + [vs[k]];
    var after := Carried(to, all, |us|, from, vs, k, i);
    forall e | 0 <= e < |all|
      ensures Parts(after, all, i)[e] == (Parts(to, us, i) + [PartOf(from, vs, k, i)])[e]
    {
      CarriedParts(to, all, |us|, from, vs, k, i, e);
      if e < |us| {
        StartOfPrefix(us, [vs[k]], e, i);
      }
    }
  }

  /** `memcpy` of n coefficients. */
  method Overwrite(dst: array<int>, a: nat, src: array<int>, from: nat, n: nat)
    requires dst != src && a + n <= dst.Length && from + n <= src.Length
    modifies dst
    ensures dst[..] == Pasted(old(dst[..]), a, src[from..from + n])
  {
    for j := 0 to n
      invariant forall p | 0 <= p < dst.Length :: dst[p] == if a <= p < a + j then src[from + p - a] else old(dst[p])
    {
      dst[a + j] := src[from + j];
    }
    assert dst[..] == old(dst[..a]) + src[from..from + n] + old(dst[a + n..]);
  }
}
