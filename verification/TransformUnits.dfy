/** The transform units of a structure: their list, index map and coefficients. */
module TransformUnits {
  import opened UnitGeometry
  import opened UnitIndex
  import opened CoeffStore

  lemma OneMore<T>(a: seq<T>, b: seq<T>, k: nat)
    requires k < |b|
    ensures (a + b[..k]) + [b[k]] == a + b[..k + 1]
  {
  }

  class TransformUnits {
    const index: UnitIndex
    const store: CoeffStore
    /** Where each unit's coefficients begin, by component. */
    var starts: seq<seq<nat>>

    ghost const Repr: set<object>

    ghost predicate Shaped() {
      && this in Repr && index.Repr <= Repr && store.Repr <= Repr
      && index.Shaped()
      && store.Shaped()
      && |index.area| <= |store.area| && index.area == store.area[..|index.area|]
      && index.Repr !! store.Repr
      && this !in index.Repr && this !in store.Repr
    }

    ghost predicate Valid()
      reads this, Repr
    {
      && Shaped()
      && index.Valid() && store.Valid() && store.tus == index.units
      && StartsMatch(starts, index.units, |store.coeffs|)
    }

    constructor (areas: seq<CompArea>, scales: seq<UnitScale>)
      requires 1 <= |scales| <= 2 && |scales| <= |areas|
      requires forall c | 0 <= c < |scales| :: scales[c].Valid() && areas[c].Aligned(scales[c])
      ensures Valid() && index.units == [] && index.area == areas[..|scales|] && index.scale == scales && store.area == areas
      ensures fresh(Repr)
    {
      var units := new UnitIndex(areas[..|scales|], scales);
      var coeffs := new CoeffStore(areas);
      index, store, starts := units, coeffs, [];
      Repr := {this} + units.Repr + coeffs.Repr;
    }

    /** Adds a unit and hands it its coefficients. */
    method Add(u: Unit)
      requires Valid() && index.Fits(u)
      requires forall i | 0 <= i < |store.coeffs| :: Packable(index.units + [u], i, store.area[i])
      modifies this, index.Repr, store
      ensures Valid() && index.units == old(index.units) + [u]
    {
      AddToIndex(u);
      AddToStore(u);
    }

    method AddToIndex(u: Unit)
      requires Valid() && index.Fits(u)
      modifies index.Repr
      ensures Shaped() && index.Valid() && store.Valid() && index.units == old(index.units) + [u]
    {
      index.Add(u);
    }

    method AddToStore(u: Unit)
      requires Shaped() && index.Valid() && store.Valid() && StartsMatch(starts, store.tus, |store.coeffs|)
      requires forall i | 0 <= i < |store.coeffs| :: Packable(store.tus + [u], i, store.area[i])
      requires index.units == store.tus + [u]
      modifies this, store
      ensures Valid()
    {
      ghost var before := store.tus;
      var next := store.Allocate(u);
      StartsMatchNext(starts, before, u, next, |store.coeffs|);
      starts := starts + [next];
    }

    /** Forgets all units and makes their coefficients available again. */
    method Clear()
      requires Valid()
      modifies this, index.Repr, store
      ensures Valid() && index.units == []
      ensures forall i | 0 <= i < |store.offsets| :: store.offsets[i] == 0
    {
      index.Clear();
      store.Reset();
      starts := [];
    }

    /** Writing coefficients does not disturb lists, maps and offsets. */
    twostate lemma StaysValid()
      requires old(Valid()) && unchanged(this) && unchanged(store) && unchanged(index.Repr)
      ensures Valid()
    {
    }

    /** `tu = *ptu`: the coefficients of another structure's unit k become those of our unit d. */
    method CopyCoeffs(d: nat, other: TransformUnits, k: nat)
      requires Valid() && other.Valid() && Repr !! other.Repr
      requires d < |index.units| && k < |other.index.units| && index.units[d] == other.index.units[k]
      requires |store.coeffs| == |other.store.coeffs|
      modifies store.coeffs
      ensures Valid() && other.Valid()
      ensures forall i | 0 <= i < |store.coeffs| ::
        store.coeffs[i][..] == Carried(old(store.coeffs[i][..]), index.units, d, old(other.store.coeffs[i][..]), other.index.units, k, i)
      ensures forall i | 0 <= i < |store.coeffs| :: other.store.coeffs[i][..] == old(other.store.coeffs[i][..])
    {
      ghost var ours, theirs := Buffers(), other.Buffers();
      CopyAll(d, other, k, ours, theirs);
    }

    /** Component by component. */
    method CopyAll(d: nat, other: TransformUnits, k: nat, ghost ours: seq<seq<int>>, ghost theirs: seq<seq<int>>)
      requires Valid() && other.Valid() && Repr !! other.Repr
      requires d < |index.units| && k < |other.index.units| && index.units[d] == other.index.units[k]
      requires |store.coeffs| == |other.store.coeffs| == |ours| == |theirs|
      requires CopiedUpTo(d, other, k, ours, theirs, 0)
      modifies store.coeffs
      ensures Valid() && other.Valid()
      ensures CopiedUpTo(d, other, k, ours, theirs, |store.coeffs|)
    {
      for i := 0 to |store.coeffs|
        invariant Valid() && other.Valid()
        invariant CopiedUpTo(d, other, k, ours, theirs, i)
      {
        CopyNext(d, other, k, i, ours, theirs);
      }
    }

    /** What the buffers hold. */
    ghost function Buffers(): (b: seq<seq<int>>)
      reads store.coeffs
      ensures |b| == |store.coeffs| && forall i | 0 <= i < |b| :: b[i] == store.coeffs[i][..]
    {
      seq(|store.coeffs|, i requires 0 <= i < |store.coeffs| reads store.coeffs => store.coeffs[i][..])
    }

    method CopyNext(d: nat, other: TransformUnits, k: nat, i: nat, ghost ours: seq<seq<int>>, ghost theirs: seq<seq<int>>)
      requires Valid() && other.Valid() && Repr !! other.Repr
      requires d < |index.units| && k < |other.index.units| && index.units[d] == other.index.units[k]
      requires i < |store.coeffs| == |other.store.coeffs| == |ours| == |theirs|
      requires CopiedUpTo(d, other, k, ours, theirs, i)
      modifies store.coeffs
      ensures Valid() && other.Valid()
      ensures CopiedUpTo(d, other, k, ours, theirs, i + 1)
    {
      CopyComponent(d, other, k, i);
    }

    /** The unit's coefficients have arrived in the first n components; nothing else has changed. */
    ghost predicate CopiedUpTo(d: nat, other: TransformUnits, k: nat, ours: seq<seq<int>>, theirs: seq<seq<int>>, n: nat)
      requires d < |index.units| && k < |other.index.units|
      requires |ours| == |theirs| == |store.coeffs| == |other.store.coeffs|
      reads index, other.index, store.coeffs, other.store.coeffs
    {
      forall i | 0 <= i < |ours| ::
        && store.coeffs[i][..] == (if i < n then Carried(ours[i], index.units, d, theirs[i], other.index.units, k, i) else ours[i])
        && other.store.coeffs[i][..] == theirs[i]
    }

    method CopyComponent(d: nat, other: TransformUnits, k: nat, i: nat)
      requires Valid() && other.Valid() && Repr !! other.Repr
      requires d < |index.units| && k < |other.index.units| && index.units[d] == other.index.units[k]
      requires i < |store.coeffs| == |other.store.coeffs|
      modifies store.coeffs[i]
      ensures Valid() && other.Valid()
      ensures store.coeffs[i][..]
        == Carried(old(store.coeffs[i][..]), index.units, d, other.store.coeffs[i][..], other.index.units, k, i)
      ensures forall j | 0 <= j < |store.coeffs| && j != i :: store.coeffs[j][..] == old(store.coeffs[j][..])
      ensures forall j | 0 <= j < |store.coeffs| :: other.store.coeffs[j][..] == old(other.store.coeffs[j][..])
    {
      var a, b, n := starts[d][i], other.starts[k][i], BlockOf(index.units[d], i).Size();
      SliceBounds(d, i);
      other.SliceBounds(k, i);
      CarriedIsPasted(store.coeffs[i][..], index.units, d, other.store.coeffs[i][..], other.index.units, k, i, a, b, n);
      CopySlice(i, a, n, other, b);
    }

    lemma SliceBounds(k: nat, i: nat)
      requires Valid() && k < |index.units| && i < |store.coeffs|
      ensures |starts[k]| == |store.coeffs| && starts[k][i] == Start(index.units, k, i)
      ensures starts[k][i] + BlockOf(index.units[k], i).Size() <= store.coeffs[i].Length
    {
      SliceEnds(index.units, k, i);
    }

    method CopySlice(i: nat, a: nat, n: nat, other: TransformUnits, b: nat)
      requires Valid() && other.Valid() && Repr !! other.Repr
      requires i < |store.coeffs| == |other.store.coeffs|
      requires a + n <= store.coeffs[i].Length && b + n <= other.store.coeffs[i].Length
      modifies store.coeffs[i]
      ensures Valid() && other.Valid()
      ensures store.coeffs[i][..] == Pasted(old(store.coeffs[i][..]), a, other.store.coeffs[i][b..b + n])
      ensures forall j | 0 <= j < |store.coeffs| && j != i :: store.coeffs[j][..] == old(store.coeffs[j][..])
      ensures forall j | 0 <= j < |store.coeffs| :: other.store.coeffs[j][..] == old(other.store.coeffs[j][..])
    {
      BuffersApart(other, i);
      Overwrite(store.coeffs[i], a, other.store.coeffs[i], b, n);
      StaysValid();
      other.StaysValid();
    }

    lemma BuffersApart(other: TransformUnits, i: nat)
      requires Shaped() && other.Shaped() && Repr !! other.Repr && i < |store.coeffs|
      ensures store.coeffs[i] !in index.Repr && store.coeffs[i] !in other.Repr
      ensures forall j | 0 <= j < |other.store.coeffs| :: other.store.coeffs[j] != store.coeffs[i]
    {
      assert store.coeffs[i] in Repr && store.coeffs[i] in store.Repr;
      assert forall j | 0 <= j < |other.store.coeffs| :: other.store.coeffs[j] in other.store.Repr;
    }

    /** The coefficients of all units in component i. */
    ghost function Coeffs(i: nat): (p: seq<seq<int>>)
      requires Shaped() && i < |store.coeffs|
      reads this, Repr
      ensures |p| == |index.units|
    {
      Parts(store.coeffs[i][..], index.units, i)
    }

    /** Where nothing is touched, all coefficients stay. */
    twostate lemma CoeffsStay()
      requires old(Valid()) && unchanged(Repr)
      ensures Valid() && forall i | 0 <= i < |store.coeffs| :: Coeffs(i) == old(Coeffs(i))
    {
    }

    /** Adds an analogue of another structure's unit k and gives it that unit's coefficients. */
    method AddCopy(other: TransformUnits, k: nat)
      requires Valid() && other.Valid() && Repr !! other.Repr
      requires k < |other.index.units| && |store.coeffs| == |other.store.coeffs|
      requires index.Fits(other.index.units[k])
      requires forall i | 0 <= i < |store.coeffs| :: Packable(index.units + [other.index.units[k]], i, store.area[i])
      modifies Repr
      ensures Valid() && other.Valid()
      ensures index.units == old(index.units) + [other.index.units[k]] && other.index.units == old(other.index.units)
      ensures forall i | 0 <= i < |store.coeffs| :: Coeffs(i) == old(Coeffs(i)) + [other.Coeffs(i)[k]]
      ensures forall i | 0 <= i < |store.coeffs| :: other.Coeffs(i) == old(other.Coeffs(i))
    {
      ghost var us := index.units;
      ghost var vs := other.index.units;
      AddBeside(other, other.index.units[k]);
      CopyCoeffs(|index.units| - 1, other, k);
      forall i | 0 <= i < |store.coeffs|
        ensures Coeffs(i) == old(Coeffs(i)) + [other.Coeffs(i)[k]]
      {
        CarriedCoeffs(old(store.coeffs[i][..]), us, old(other.store.coeffs[i][..]), vs, k, i);
      }
    }

    /** Adding a unit leaves another structure and all coefficients as they are. */
    method AddBeside(other: TransformUnits, u: Unit)
      requires Valid() && other.Valid() && Repr !! other.Repr && |store.coeffs| == |other.store.coeffs|
      requires index.Fits(u)
      requires forall i | 0 <= i < |store.coeffs| :: Packable(index.units + [u], i, store.area[i])
      modifies this, index.Repr, store
      ensures Valid() && other.Valid()
      ensures index.units == old(index.units) + [u] && other.index.units == old(other.index.units)
      ensures forall i | 0 <= i < |store.coeffs| ::
        store.coeffs[i][..] == old(store.coeffs[i][..]) && other.store.coeffs[i][..] == old(other.store.coeffs[i][..])
    {
      forall i | 0 <= i < |store.coeffs|
        ensures store.coeffs[i] !in index.Repr && other.store.coeffs[i] !in index.Repr
      {
        BuffersApart(other, i);
        assert other.store.coeffs[i] in other.store.Repr;
      }
      Add(u);
      other.StaysValid();
    }

    lemma CarriedCoeffs(to: seq<int>, us: seq<Unit>, from: seq<int>, vs: seq<Unit>, k: nat, i: nat)
      requires Valid() && i < |store.coeffs| && k < |vs| && index.units == us + [vs[k]]
      requires |to| == store.coeffs[i].Length && Start(vs, |vs|, i) <= |from|
      requires store.coeffs[i][..] == Carried(to, index.units, |us|, from, vs, k, i)
      ensures Coeffs(i) == Parts(to, us, i) + [Parts(from, vs, i)[k]]
    {
      PartsAfterCarry(to, us, from, vs, k, i);
    }

    /** All of another structure's units can be added. */
    ghost predicate CanTake(other: TransformUnits)
      requires Shaped()
      reads this, index, other.index
    {
      && |store.coeffs| == |other.store.coeffs|
      && index.FreeFor(other.index.units)
      && (forall c | 0 <= c < |index.idx| :: Layered(other.index.units, c, index.scale[c]))
      && (forall i | 0 <= i < |store.coeffs| :: i < |store.area| && Packable(index.units + other.index.units, i, store.area[i]))
    }

    lemma NextCanBeAdded(own: seq<Unit>, vs: seq<Unit>, k: nat)
      requires Valid() && k < |vs| && index.units == own + vs[..k]
      requires forall i | 0 <= i < |store.coeffs| :: Packable(own + vs, i, store.area[i])
      ensures forall i | 0 <= i < |store.coeffs| :: Packable(index.units + [vs[k]], i, store.area[i])
    {
      assert index.units + [vs[k]] == (own + vs)[..|own| + k + 1];
      forall i | 0 <= i < |store.coeffs|
        ensures Packable(index.units + [vs[k]], i, store.area[i])
      {
        PackablePrefix(own + vs, |own| + k + 1, i, store.area[i]);
      }
    }

    /** The first k of another structure's units are taken over, behind our own. */
    ghost predicate Taken(other: TransformUnits, own: seq<Unit>, ours: seq<seq<seq<int>>>, vs: seq<Unit>, theirs: seq<seq<seq<int>>>, k: nat)
      requires Shaped() && other.Shaped()
      requires k <= |vs| && |ours| == |theirs| == |store.coeffs| == |other.store.coeffs|
      requires forall i | 0 <= i < |theirs| :: |theirs[i]| == |vs|
      reads this, Repr, other, other.Repr
    {
      && index.units == own + vs[..k] && other.index.units == vs
      && (forall i | 0 <= i < |store.coeffs| :: Coeffs(i) == ours[i] + theirs[i][..k] && other.Coeffs(i) == theirs[i])
    }

    method AddNext(other: TransformUnits, ghost own: seq<Unit>, ghost ours: seq<seq<seq<int>>>,
                   ghost vs: seq<Unit>, ghost theirs: seq<seq<seq<int>>>, k: nat)
      requires Valid() && other.Valid() && Repr !! other.Repr
      requires k < |vs| && |ours| == |theirs| == |store.coeffs| == |other.store.coeffs|
      requires forall i | 0 <= i < |theirs| :: |theirs[i]| == |vs|
      requires Taken(other, own, ours, vs, theirs, k)
      requires index.Fits(vs[k])
      requires forall i | 0 <= i < |store.coeffs| :: Packable(index.units + [vs[k]], i, store.area[i])
      modifies Repr
      ensures Valid() && other.Valid() && Taken(other, own, ours, vs, theirs, k + 1)
    {
      AddCopy(other, k);
      OneMore(own, vs, k);
      forall i | 0 <= i < |store.coeffs|
        ensures Coeffs(i) == ours[i] + theirs[i][..k + 1] && other.Coeffs(i) == theirs[i]
      {
        OneMore(ours[i], theirs[i], k);
      }
    }

    /** Adds analogues of all of another structure's units, each with its coefficients. */
    method AddAll(other: TransformUnits)
      requires Valid() && other.Valid() && Repr !! other.Repr && CanTake(other)
      modifies Repr
      ensures Valid() && other.Valid()
      ensures index.units == old(index.units) + other.index.units && other.index.units == old(other.index.units)
      ensures forall i | 0 <= i < |store.coeffs| :: Coeffs(i) == old(Coeffs(i)) + other.Coeffs(i)
      ensures forall i | 0 <= i < |store.coeffs| :: other.Coeffs(i) == old(other.Coeffs(i))
    {
      ghost var n := |store.coeffs|;
      ghost var own, vs := index.units, other.index.units;
      ghost var ours := seq(n, i requires 0 <= i < n reads this, Repr => Coeffs(i));
      ghost var theirs := seq(n, i requires 0 <= i < n reads other, other.Repr => other.Coeffs(i));
      for k := 0 to |other.index.units|
        invariant Valid() && other.Valid() && |vs| == |other.index.units|
        invariant Taken(other, own, ours, vs, theirs, k)
      {
        index.NextFits(own, vs, k);
        NextCanBeAdded(own, vs, k);
        AddNext(other, own, ours, vs, theirs, k);
      }
      assert vs[..|vs|] == vs;
      assert forall i | 0 <= i < n :: theirs[i][..|vs|] == theirs[i];
    }
  }
}
