/** A list of units with a raster map from grid cells to list positions. */
module UnitIndex {
  import opened UnitGeometry

  /** A unit: one area per component, and whatever else `operator=` copies. */
  datatype Unit = Unit(blocks: seq<CompArea>, data: int)

  /** Channel c of the unit covers a grid cell. */
  predicate Covers(u: Unit, c: nat, scale: UnitScale, q: int, r: int)
    requires scale.Valid()
  {
    c < |u.blocks| && u.blocks[c].Valid() && u.blocks[c].Scaled(scale).Contains(q, r)
  }

  /** Searching the list from its end: one plus the position of the last unit covering a cell, 0 when there is none. */
  function Latest(units: seq<Unit>, c: nat, scale: UnitScale, q: int, r: int): (n: nat)
    requires scale.Valid()
    ensures n <= |units|
    ensures n > 0 ==> Covers(units[n - 1], c, scale, q, r)
  {
    if units == [] then 0
    else if Covers(units[|units| - 1], c, scale, q, r) then |units|
    else Latest(units[..|units| - 1], c, scale, q, r)
  }

  /** Searching the list from its beginning for the unit that contains a position. */
  function LinearSearch(units: seq<Unit>, c: nat, px: int, py: int): (n: nat)
    ensures n <= |units|
  {
    if units == [] then 0
    else
      var n := LinearSearch(units[..|units| - 1], c, px, py);
      if n != 0 then n
      else if ContainsPos(units[|units| - 1], c, px, py) then |units| else 0
  }

  predicate ContainsPos(u: Unit, c: nat, px: int, py: int) {
    c < |u.blocks| && u.blocks[c].Valid() && u.blocks[c].Contains(px, py)
  }

  /** What a linear search finds: the first unit that contains the position. */
  lemma {:induction false} LinearSearchMeaning(units: seq<Unit>, c: nat, px: int, py: int)
    ensures var n := LinearSearch(units, c, px, py);
      && (n == 0 <==> forall k | 0 <= k < |units| :: !ContainsPos(units[k], c, px, py))
      && (n > 0 ==> ContainsPos(units[n - 1], c, px, py) && forall k | 0 <= k < n - 1 :: !ContainsPos(units[k], c, px, py))
  {
    if units == [] {
    } else {
      LinearSearchMeaning(units[..|units| - 1], c, px, py);
    }
  }

  ghost predicate AllAligned(units: seq<Unit>, c: nat, scale: UnitScale)
    requires scale.Valid()
  {
    forall k | 0 <= k < |units| :: c < |units[k].blocks| ==> units[k].blocks[c].Aligned(scale)
  }

  /** In channel c no two units share a position. */
  ghost predicate UnitsDisjoint(units: seq<Unit>, c: nat) {
    forall j, k | 0 <= j < k < |units| && c < |units[j].blocks| && c < |units[k].blocks| ::
      Disjoint(units[j].blocks[c], units[k].blocks[c])
  }

  /** In channel c no unit of one list shares a position with a unit of the other. */
  ghost predicate ListsApart(a: seq<Unit>, b: seq<Unit>, c: nat) {
    forall j, k | 0 <= j < |a| && 0 <= k < |b| && c < |a[j].blocks| && c < |b[k].blocks| :: Disjoint(a[j].blocks[c], b[k].blocks[c])
  }

  lemma DisjointConcat(a: seq<Unit>, b: seq<Unit>, c: nat)
    requires UnitsDisjoint(a, c) && UnitsDisjoint(b, c) && ListsApart(a, b, c)
    ensures UnitsDisjoint(a + b, c)
  {
  }

  /** Searching one list after another: the first that has the unit gives it. */
  lemma {:induction false} LinearSearchOfConcat(a: seq<Unit>, b: seq<Unit>, c: nat, px: int, py: int)
    ensures LinearSearch(a + b, c, px, py)
         == var n := LinearSearch(a, c, px, py); var m := LinearSearch(b, c, px, py);
            if n != 0 then n else if m != 0 then |a| + m else 0
  {
    if b == [] {
      assert a + b == a;
    } else {
      assert (a + b)[..|a + b| - 1] == a + b[..|b| - 1];
      LinearSearchOfConcat(a, b[..|b| - 1], c, px, py);
    }
  }

  /** Of disjoint units only one contains a position. */
  lemma NotInBoth(units: seq<Unit>, n: nat, found: nat, c: nat, px: int, py: int)
    requires n < |units| && found <= n && UnitsDisjoint(units, c)
    requires found > 0 ==> ContainsPos(units[found - 1], c, px, py)
    ensures found > 0 ==> !ContainsPos(units[n], c, px, py)
  {
    if found > 0 && c < |units[n].blocks| {
      DisjointMeaning(units[found - 1].blocks[c], units[n].blocks[c]);
    }
  }

  lemma CoversIffContains(u: Unit, c: nat, scale: UnitScale, px: int, py: int)
    requires scale.Valid() && (c < |u.blocks| ==> u.blocks[c].Aligned(scale))
    ensures Covers(u, c, scale, Shift(px, scale.posx), Shift(py, scale.posy)) <==> ContainsPos(u, c, px, py)
  {
    if c < |u.blocks| {
      ScaledContains(u.blocks[c], scale, px, py);
    }
  }

  /** For aligned, pairwise disjoint units the two searches agree. */
  lemma {:induction false} LatestIsLinearSearch(units: seq<Unit>, c: nat, scale: UnitScale, px: int, py: int)
    requires scale.Valid() && AllAligned(units, c, scale) && UnitsDisjoint(units, c)
    ensures Latest(units, c, scale, Shift(px, scale.posx), Shift(py, scale.posy)) == LinearSearch(units, c, px, py)
  {
    if units == [] {
    } else {
      var init, n := units[..|units| - 1], |units| - 1;
      InitStaysTidy(units, init, c, scale);
      LatestIsLinearSearch(init, c, scale, px, py);
      CoversIffContains(units[n], c, scale, px, py);
      FoundOnlyOnce(units, init, n, c, px, py);
    }
  }

  lemma InitStaysTidy(units: seq<Unit>, init: seq<Unit>, c: nat, scale: UnitScale)
    requires scale.Valid() && AllAligned(units, c, scale) && UnitsDisjoint(units, c) && units != [] && init == units[..|units| - 1]
    ensures AllAligned(init, c, scale) && UnitsDisjoint(init, c)
  {
  }

  /** What is found among the first units the next one does not contain. */
  lemma FoundOnlyOnce(units: seq<Unit>, init: seq<Unit>, n: nat, c: nat, px: int, py: int)
    requires n < |units| && init == units[..n] && UnitsDisjoint(units, c)
    ensures LinearSearch(init, c, px, py) > 0 ==> !ContainsPos(units[n], c, px, py)
  {
    LinearSearchMeaning(init, c, px, py);
    NotInBoth(units, n, LinearSearch(init, c, px, py), c, px, py);
  }

  /** Searching one list after another. */
  lemma {:induction false} LatestOfConcat(a: seq<Unit>, b: seq<Unit>, c: nat, scale: UnitScale, q: int, r: int)
    requires scale.Valid()
    ensures Latest(a + b, c, scale, q, r)
         == var n := Latest(b, c, scale, q, r); if n != 0 then |a| + n else Latest(a, c, scale, q, r)
  {
    if b == [] {
      assert a + b == a;
    } else {
      assert (a + b)[..|a + b| - 1] == a + b[..|b| - 1];
      LatestOfConcat(a, b[..|b| - 1], c, scale, q, r);
    }
  }

  /** The last unit covering a position's cell in the second list, or else in the first. */
  ghost function NewestFirst(own: seq<Unit>, us: seq<Unit>, c: nat, scale: UnitScale, px: int, py: int): (n: nat)
    requires scale.Valid()
  {
    var q, r := Shift(px, scale.posx), Shift(py, scale.posy);
    var there := Latest(us, c, scale, q, r);
    if there != 0 then |own| + there else Latest(own, c, scale, q, r)
  }

  lemma NewestIsLatest(own: seq<Unit>, us: seq<Unit>, c: nat, scale: UnitScale, px: int, py: int)
    requires scale.Valid()
    ensures NewestFirst(own, us, c, scale, px, py) == Latest(own + us, c, scale, Shift(px, scale.posx), Shift(py, scale.posy))
  {
    LatestOfConcat(own, us, c, scale, Shift(px, scale.posx), Shift(py, scale.posy));
  }

  /** Every unit's first cell was free when it was added: what the check in each add tests. */
  ghost predicate Layered(units: seq<Unit>, c: nat, scale: UnitScale)
    requires scale.Valid()
  {
    forall k | 0 <= k < |units| && c < |units[k].blocks| && units[k].blocks[c].Valid() :: FirstCellFree(units[..k], units[k], c, scale)
  }

  predicate FirstCellFree(units: seq<Unit>, u: Unit, c: nat, scale: UnitScale)
    requires scale.Valid() && c < |u.blocks|
  {
    var b := u.blocks[c].Scaled(scale);
    Latest(units, c, scale, b.x, b.y) == 0
  }

  lemma {:induction false} LatestZero(units: seq<Unit>, c: nat, scale: UnitScale, q: int, r: int)
    requires scale.Valid()
    ensures Latest(units, c, scale, q, r) == 0 <==> forall k | 0 <= k < |units| :: !Covers(units[k], c, scale, q, r)
  {
    if units == [] {
    } else {
      LatestZero(units[..|units| - 1], c, scale, q, r);
    }
  }

  /** The check over the whole area of a new unit: the map is empty at each of its cells. */
  ghost predicate AllCellsFree(units: seq<Unit>, u: Unit, c: nat, scale: UnitScale)
    requires scale.Valid() && c < |u.blocks|
  {
    forall q: int, r: int | u.blocks[c].Scaled(scale).Contains(q, r) :: Latest(units, c, scale, q, r) == 0
  }

  ghost predicate ApartFromAll(units: seq<Unit>, b: CompArea, c: nat) {
    forall k | 0 <= k < |units| && c < |units[k].blocks| :: Disjoint(units[k].blocks[c], b)
  }

  /** A position in a given cell. */
  lemma CornerOfCell(b: CompArea, scale: UnitScale, q: int, r: int) returns (px: int, py: int)
    requires scale.Valid()
    ensures Shift(px, scale.posx) == q && Shift(py, scale.posy) == r
    ensures b.Aligned(scale) ==> (b.Contains(px, py) <==> b.Scaled(scale).Contains(q, r))
  {
    px := if scale.posx == 0 then q else if scale.posx == 1 then 2 * q else 4 * q;
    py := if scale.posy == 0 then r else if scale.posy == 1 then 2 * r else 4 * r;
    if b.Aligned(scale) {
      ScaledContains(b, scale, px, py);
    }
  }

  lemma DisjointByCells(a: CompArea, b: CompArea, scale: UnitScale)
    requires scale.Valid() && a.Aligned(scale) && b.Aligned(scale)
    ensures Disjoint(a, b) <==> Disjoint(a.Scaled(scale), b.Scaled(scale))
  {
    DisjointMeaning(a, b);
    DisjointMeaning(a.Scaled(scale), b.Scaled(scale));
    if Disjoint(a, b) {
      forall q: int, r: int
        ensures !(a.Scaled(scale).Contains(q, r) && b.Scaled(scale).Contains(q, r))
      {
        var px, py := CornerOfCell(a, scale, q, r);
        ScaledContains(b, scale, px, py);
      }
    } else {
      var px: int, py: int :| a.Contains(px, py) && b.Contains(px, py);
      ScaledContains(a, scale, px, py);
      ScaledContains(b, scale, px, py);
    }
  }

  lemma ScaledKeepsValid(b: CompArea, scale: UnitScale)
    requires scale.Valid() && b.Aligned(scale)
    ensures b.Valid() <==> b.Scaled(scale).Valid()
  {
  }

  /** For aligned units the check over the whole area passes exactly when the new unit shares no position with any in the list. */
  lemma WholeCheckIffApart(units: seq<Unit>, u: Unit, c: nat, scale: UnitScale)
    requires scale.Valid() && c < |u.blocks| && AllAligned(units, c, scale) && u.blocks[c].Aligned(scale)
    ensures AllCellsFree(units, u, c, scale) <==> ApartFromAll(units, u.blocks[c], c)
  {
    var b := u.blocks[c];
    if AllCellsFree(units, u, c, scale) {
      forall k | 0 <= k < |units| && c < |units[k].blocks|
        ensures Disjoint(units[k].blocks[c], b)
      {
        FreeMeansApart(units, u, c, scale, k);
      }
    }
    if ApartFromAll(units, b, c) {
      forall q: int, r: int | b.Scaled(scale).Contains(q, r)
        ensures Latest(units, c, scale, q, r) == 0
      {
        ApartMeansFree(units, u, c, scale, q, r);
      }
    }
  }

  lemma FreeMeansApart(units: seq<Unit>, u: Unit, c: nat, scale: UnitScale, k: nat)
    requires scale.Valid() && c < |u.blocks| && AllAligned(units, c, scale) && u.blocks[c].Aligned(scale)
    requires AllCellsFree(units, u, c, scale) && k < |units| && c < |units[k].blocks|
    ensures Disjoint(units[k].blocks[c], u.blocks[c])
  {
    var a, b := units[k].blocks[c], u.blocks[c];
    DisjointByCells(a, b, scale);
    ScaledKeepsValid(a, scale);
    DisjointMeaning(a.Scaled(scale), b.Scaled(scale));
    if !Disjoint(a, b) {
      var q: int, r: int :| a.Scaled(scale).Contains(q, r) && b.Scaled(scale).Contains(q, r);
      LatestZero(units, c, scale, q, r);
      assert Covers(units[k], c, scale, q, r);
      assert false;
    }
  }

  lemma ApartMeansFree(units: seq<Unit>, u: Unit, c: nat, scale: UnitScale, q: int, r: int)
    requires scale.Valid() && c < |u.blocks| && AllAligned(units, c, scale) && u.blocks[c].Aligned(scale)
    requires ApartFromAll(units, u.blocks[c], c) && u.blocks[c].Scaled(scale).Contains(q, r)
    ensures Latest(units, c, scale, q, r) == 0
  {
    LatestZero(units, c, scale, q, r);
    forall k | 0 <= k < |units|
      ensures !Covers(units[k], c, scale, q, r)
    {
      if c < |units[k].blocks| {
        DisjointByCells(units[k].blocks[c], u.blocks[c], scale);
        DisjointMeaning(units[k].blocks[c].Scaled(scale), u.blocks[c].Scaled(scale));
      }
    }
  }

  /** Every unit passed the check over its whole area when it was added. */
  ghost predicate WhollyChecked(units: seq<Unit>, c: nat, scale: UnitScale)
    requires scale.Valid()
  {
    forall k | 0 <= k < |units| && c < |units[k].blocks| :: AllCellsFree(units[..k], units[k], c, scale)
  }

  /** A list of aligned units passed the whole check, unit by unit, exactly when no two of them share a position. */
  lemma WhollyCheckedIffDisjoint(units: seq<Unit>, c: nat, scale: UnitScale)
    requires scale.Valid() && AllAligned(units, c, scale)
    ensures WhollyChecked(units, c, scale) <==> UnitsDisjoint(units, c)
  {
    forall k | 0 <= k < |units| && c < |units[k].blocks|
      ensures AllCellsFree(units[..k], units[k], c, scale) <==> ApartFromAll(units[..k], units[k].blocks[c], c)
    {
      WholeCheckIffApart(units[..k], units[k], c, scale);
    }
    if WhollyChecked(units, c, scale) {
      forall j, k | 0 <= j < k < |units| && c < |units[j].blocks| && c < |units[k].blocks|
        ensures Disjoint(units[j].blocks[c], units[k].blocks[c])
      {
        assert ApartFromAll(units[..k], units[k].blocks[c], c);
        assert units[..k][j] == units[j];
      }
    }
  }

  /** The whole check implies the source's, which looks at the first cell alone. */
  lemma WholeCheckIsStronger(units: seq<Unit>, u: Unit, c: nat, scale: UnitScale)
    requires scale.Valid() && c < |u.blocks| && u.blocks[c].Valid() && u.blocks[c].Aligned(scale)
    requires AllCellsFree(units, u, c, scale)
    ensures FirstCellFree(units, u, c, scale)
  {
    var b := u.blocks[c].Scaled(scale);
    ScaledKeepsValid(u.blocks[c], scale);
    assert b.Contains(b.x, b.y);
  }

  lemma ScaledInside(a: CompArea, b: CompArea, scale: UnitScale)
    requires scale.Valid() && a.Aligned(scale) && b.Aligned(scale) && b.Valid() && a.ContainsArea(b)
    ensures Within(a.Scaled(scale), b.Scaled(scale))
  {
  }

  /** A new unit is aligned, inside an area, and shares no position with the list. */
  ghost predicate Joins(units: seq<Unit>, u: Unit, c: nat, scale: UnitScale, outer: CompArea)
    requires scale.Valid()
  {
    c < |u.blocks| && u.blocks[c].Valid() ==>
      u.blocks[c].Aligned(scale) && outer.ContainsArea(u.blocks[c]) && ApartFromAll(units, u.blocks[c], c)
  }

  /** Every unit's areas in channel c lie inside a scaled area. */
  ghost predicate AllWithin(units: seq<Unit>, c: nat, scale: UnitScale, outer: CompArea)
    requires scale.Valid()
  {
    forall k | 0 <= k < |units| && c < |units[k].blocks| && units[k].blocks[c].Valid() :: Within(outer, units[k].blocks[c].Scaled(scale))
  }

  /** b lies inside a, cell for cell. */
  predicate Within(a: CompArea, b: CompArea) {
    a.x <= b.x && b.x + b.width <= a.x + a.width && a.y <= b.y && b.y + b.height <= a.y + a.height
  }

  class UnitIndex {
    /** One area, scale and map per channel. */
    const area: seq<CompArea>
    const scale: seq<UnitScale>
    const idx: seq<array2<nat>>
    var units: seq<Unit>
    /** The list object and its maps. */
    ghost const Repr: set<object>

    ghost function Maps(): set<object> {
      set c | 0 <= c < |idx| :: idx[c]
    }

    ghost predicate Shaped() {
      && this in Repr && (forall c | 0 <= c < |idx| :: idx[c] in Repr)
      && |area| == |scale| == |idx|
      && (|idx| == 1 || (|idx| == 2 && idx[0] != idx[1]))
      && (forall c | 0 <= c < |idx| :: scale[c].Valid() && area[c].Aligned(scale[c]))
      && (forall c | 0 <= c < |idx| :: var s := area[c].Scaled(scale[c]); idx[c].Length0 == s.height && idx[c].Length1 == s.width)
    }

    /** Map c holds for every cell what searching `us` from the end finds. */
    ghost predicate Shows(c: nat, us: seq<Unit>)
      requires Shaped() && c < |idx|
      reads idx[c]
    {
      var s := area[c].Scaled(scale[c]);
      forall r: nat, q: nat | r < s.height && q < s.width :: idx[c][r, q] == Latest(us, c, scale[c], s.x + q, s.y + r)
    }

    ghost predicate Valid()
      reads this, Repr
    {
      && Shaped()
      && (forall c | 0 <= c < |idx| :: Shows(c, units))
      && (forall c | 0 <= c < |idx| :: Layered(units, c, scale[c]))
      && (forall c | 0 <= c < |idx| :: AllWithin(units, c, scale[c], area[c].Scaled(scale[c])))
    }

    twostate lemma StaysValid()
      requires old(Valid()) && unchanged(Repr)
      ensures Valid()
    {
    }

    /** The unit fits: each of its areas is inside ours and its first cell is free. */
    ghost predicate Fits(u: Unit)
      requires Valid()
      reads this, Repr
    {
      forall c | 0 <= c < |idx| && c < |u.blocks| && u.blocks[c].Valid() ::
        Within(area[c].Scaled(scale[c]), u.blocks[c].Scaled(scale[c])) && FirstCellFree(units, u, c, scale[c])
    }

    /** Units that share no position with aligned ones already there never trip the check made when they are added. */
    lemma DisjointUnitsFit(u: Unit)
      requires Valid()
      requires forall c | 0 <= c < |idx| :: AllAligned(units, c, scale[c]) && Joins(units, u, c, scale[c], area[c])
      ensures Fits(u)
    {
      forall c | 0 <= c < |idx| && c < |u.blocks| && u.blocks[c].Valid()
        ensures Within(area[c].Scaled(scale[c]), u.blocks[c].Scaled(scale[c])) && FirstCellFree(units, u, c, scale[c])
      {
        assert Joins(units, u, c, scale[c], area[c]);
        WholeCheckIffApart(units, u, c, scale[c]);
        WholeCheckIsStronger(units, u, c, scale[c]);
        ScaledInside(area[c], u.blocks[c], scale[c]);
      }
    }

    constructor (areas: seq<CompArea>, scales: seq<UnitScale>)
      requires |areas| == |scales| && 1 <= |areas| <= 2
      requires forall c | 0 <= c < |areas| :: scales[c].Valid() && areas[c].Aligned(scales[c])
      ensures Valid() && units == [] && area == areas && scale == scales && |idx| == |areas|
      ensures fresh(Repr)
    {
      area, scale, units := areas, scales, [];
      var luma := areas[0].Scaled(scales[0]);
      var first := new nat[luma.height, luma.width]((r, q) => 0);
      if |areas| == 1 {
        idx := [first];
        Repr := {this, first};
      } else {
        var chroma := areas[1].Scaled(scales[1]);
        var second := new nat[chroma.height, chroma.width]((r, q) => 0);
        idx := [first, second];
        Repr := {this, first, second};
      }
    }

    /** Writes n into the map of channel c over a scaled area: `fill( idx )`. */
    method Fill(c: nat, blk: CompArea, n: nat)
      requires Shaped() && c < |idx| && Within(area[c].Scaled(scale[c]), blk)
      modifies idx[c]
      ensures var s := area[c].Scaled(scale[c]);
        forall r: nat, q: nat | r < s.height && q < s.width ::
          idx[c][r, q] == if blk.Contains(s.x + q, s.y + r) then n else old(idx[c][r, q])
    {
      var s := area[c].Scaled(scale[c]);
      var x, y := blk.x - s.x, blk.y - s.y;
      for i := 0 to blk.height
        invariant forall r: nat, q: nat | r < s.height && q < s.width ::
          idx[c][r, q] == if x <= q < x + blk.width && y <= r < y + i then n else old(idx[c][r, q])
      {
        for j := 0 to blk.width
          invariant forall r: nat, q: nat | r < s.height && q < s.width ::
            idx[c][r, q] == if (x <= q < x + blk.width && y <= r < y + i) || (x <= q < x + j && r == y + i) then n else old(idx[c][r, q])
        {
          idx[c][y + i, x + j] := n;
        }
      }
    }

    /** Enters the newest unit into the map of channel c. */
    method Enter(c: nat, ghost before: seq<Unit>, u: Unit)
      requires Shaped() && c < |idx| && Shows(c, before)
      requires c < |u.blocks| && u.blocks[c].Valid() ==> Within(area[c].Scaled(scale[c]), u.blocks[c].Scaled(scale[c]))
      requires units == before + [u]
      modifies idx[c]
      ensures Shows(c, before + [u])
    {
      assert (before + [u])[..|before|] == before;
      if c < |u.blocks| && u.blocks[c].Valid() {
        Fill(c, u.blocks[c].Scaled(scale[c]), |units|);
      }
    }

    /** Channel by channel, over the maps. */
    method EnterAll(ghost before: seq<Unit>, u: Unit)
      requires Shaped() && units == before + [u]
      requires forall c | 0 <= c < |idx| :: Shows(c, before)
      requires forall c | 0 <= c < |idx| && c < |u.blocks| && u.blocks[c].Valid() ::
        Within(area[c].Scaled(scale[c]), u.blocks[c].Scaled(scale[c]))
      modifies Maps()
      ensures forall c | 0 <= c < |idx| :: Shows(c, before + [u])
    {
      for c := 0 to |idx|
        invariant forall d | 0 <= d < c :: Shows(d, before + [u])
        invariant forall d | c <= d < |idx| :: Shows(d, before)
      {
        Enter(c, before, u);
        assert forall d | 0 <= d < |idx| && d != c :: idx[d] != idx[c];
      }
    }

    /** `addCU`, `addPU`, `addTU`: the unit goes to the end of the list and into the maps. */
    method Add(u: Unit)
      requires Valid() && Fits(u)
      modifies Repr
      ensures Valid() && units == old(units) + [u]
    {
      ghost var before := units;
      units := units + [u];
      EnterAll(before, u);
      LayeredWithOneMore(before, u);
    }

    lemma LayeredWithOneMore(before: seq<Unit>, u: Unit)
      requires Shaped()
      requires forall c | 0 <= c < |idx| :: Layered(before, c, scale[c])
      requires forall c | 0 <= c < |idx| && c < |u.blocks| && u.blocks[c].Valid() :: FirstCellFree(before, u, c, scale[c])
      ensures forall c | 0 <= c < |idx| :: Layered(before + [u], c, scale[c])
    {
      var after := before + [u];
      forall c, k | 0 <= c < |idx| && 0 <= k < |after| && c < |after[k].blocks| && after[k].blocks[c].Valid()
        ensures FirstCellFree(after[..k], after[k], c, scale[c])
      {
        assert after[..k] == before[..k];
        if k == |before| {
          assert before[..k] == before;
        }
      }
    }

    /** Empties list and maps. */
    method Clear()
      requires Shaped()
      modifies Repr
      ensures Valid() && units == []
    {
      units := [];
      for c := 0 to |idx|
        invariant units == [] && Shaped()
        invariant forall d | 0 <= d < c :: Shows(d, [])
      {
        Zero(c);
      }
    }

    method Zero(c: nat)
      requires Shaped() && c < |idx|
      modifies idx[c]
      ensures Shows(c, [])
    {
      forall r: nat, q: nat | r < idx[c].Length0 && q < idx[c].Length1 {
        idx[c][r, q] := 0;
      }
    }

    /** The entry for a position: one plus the list position of its unit, 0 for none. */
    function Entry(c: nat, px: int, py: int): (n: nat)
      requires Shaped() && c < |idx| && area[c].Contains(px, py)
      reads idx[c]
    {
      ScaledContains(area[c], scale[c], px, py);
      ShiftOfDifference(px, area[c].x, scale[c].posx);
      ShiftOfDifference(py, area[c].y, scale[c].posy);
      idx[c][Shift(py - area[c].y, scale[c].posy), Shift(px - area[c].x, scale[c].posx)]
    }

    /** The cell at column q and row r, by its position on the grid. */
    lemma ShowsAt(c: nat, us: seq<Unit>, q: nat, r: nat, x: int, y: int)
      requires Shaped() && c < |idx| && Shows(c, us) && r < idx[c].Length0 && q < idx[c].Length1
      requires x == area[c].Scaled(scale[c]).x + q && y == area[c].Scaled(scale[c]).y + r
      ensures idx[c][r, q] == Latest(us, c, scale[c], x, y)
    {
    }

    lemma EntryIsLatest(c: nat, px: int, py: int)
      requires Valid() && c < |idx| && area[c].Contains(px, py)
      ensures Entry(c, px, py) == Latest(units, c, scale[c], Shift(px, scale[c].posx), Shift(py, scale[c].posy))
    {
      ScaledContains(area[c], scale[c], px, py);
      ShiftOfDifference(px, area[c].x, scale[c].posx);
      ShiftOfDifference(py, area[c].y, scale[c].posy);
      ShowsAt(c, units, Shift(px - area[c].x, scale[c].posx), Shift(py - area[c].y, scale[c].posy),
              Shift(px, scale[c].posx), Shift(py, scale[c].posy));
    }

    /** With one list behind another, the units of the second answer where they cover the position, those of the first elsewhere. */
    lemma EntryAfterTakeOver(own: seq<Unit>, us: seq<Unit>, c: nat, px: int, py: int)
      requires Valid() && c < |idx| && area[c].Contains(px, py) && units == own + us
      ensures Entry(c, px, py) == NewestFirst(own, us, c, scale[c], px, py)
    {
      EntryIsLatest(c, px, py);
      NewestIsLatest(own, us, c, scale[c], px, py);
    }

    /** The map answers what a linear search over aligned, disjoint units finds. */
    lemma EntryIsLinearSearch(c: nat, px: int, py: int)
      requires Valid() && c < |idx| && area[c].Contains(px, py)
      requires AllAligned(units, c, scale[c]) && UnitsDisjoint(units, c)
      ensures Entry(c, px, py) == LinearSearch(units, c, px, py)
    {
      EntryIsLatest(c, px, py);
      LatestIsLinearSearch(units, c, scale[c], px, py);
    }

    /** Another list can be added: its areas are inside ours and at its units' first cells nothing of ours is. */
    ghost predicate FreeFor(us: seq<Unit>)
      requires Shaped()
      reads this
    {
      forall k, c | 0 <= k < |us| && 0 <= c < |idx| && c < |us[k].blocks| && us[k].blocks[c].Valid() ::
        Within(area[c].Scaled(scale[c]), us[k].blocks[c].Scaled(scale[c])) && FirstCellFree(units, us[k], c, scale[c])
    }

    /** It can be added unit by unit if besides each unit's first cell was free of those before it. */
    ghost predicate Accepts(us: seq<Unit>)
      requires Shaped()
      reads this
    {
      FreeFor(us) && forall c | 0 <= c < |idx| :: Layered(us, c, scale[c])
    }

    /** An empty list over the same areas accepts what another one holds. */
    lemma AcceptsSame(other: UnitIndex)
      requires Shaped() && units == [] && other.Valid() && area == other.area && scale == other.scale
      ensures Accepts(other.units)
    {
    }

    /** A list of units that share no position with aligned ones already there can always be added. */
    lemma DisjointListIsFree(us: seq<Unit>)
      requires Shaped() && forall c | 0 <= c < |idx| :: AllAligned(units, c, scale[c])
      requires forall k, c | 0 <= k < |us| && 0 <= c < |idx| :: Joins(units, us[k], c, scale[c], area[c])
      ensures FreeFor(us)
    {
      forall k, c | 0 <= k < |us| && 0 <= c < |idx| && c < |us[k].blocks| && us[k].blocks[c].Valid()
        ensures Within(area[c].Scaled(scale[c]), us[k].blocks[c].Scaled(scale[c])) && FirstCellFree(units, us[k], c, scale[c])
      {
        assert Joins(units, us[k], c, scale[c], area[c]);
        WholeCheckIffApart(units, us[k], c, scale[c]);
        WholeCheckIsStronger(units, us[k], c, scale[c]);
        ScaledInside(area[c], us[k].blocks[c], scale[c]);
      }
    }

    lemma NextFits(own: seq<Unit>, us: seq<Unit>, k: nat)
      requires Valid() && k < |us| && units == own + us[..k]
      requires forall c | 0 <= c < |idx| :: Layered(us, c, scale[c])
      requires forall c | 0 <= c < |idx| && c < |us[k].blocks| && us[k].blocks[c].Valid() ::
        Within(area[c].Scaled(scale[c]), us[k].blocks[c].Scaled(scale[c])) && FirstCellFree(own, us[k], c, scale[c])
      ensures Fits(us[k])
    {
      forall c | 0 <= c < |idx| && c < |us[k].blocks| && us[k].blocks[c].Valid()
        ensures FirstCellFree(units, us[k], c, scale[c])
      {
        var b := us[k].blocks[c].Scaled(scale[c]);
        LatestOfConcat(own, us[..k], c, scale[c], b.x, b.y);
        assert FirstCellFree(us[..k], us[k], c, scale[c]);
      }
    }

    /** Adds an analogue of every unit of another list, in order. */
    method AddAll(us: seq<Unit>)
      requires Valid() && Accepts(us)
      modifies Repr
      ensures Valid() && units == old(units) + us
    {
      ghost var own := units;
      for k := 0 to |us|
        invariant Valid() && units == own + us[..k]
      {
        NextFits(own, us, k);
        Add(us[k]);
        assert us[..k + 1] == us[..k] + [us[k]];
      }
      assert us[..|us|] == us;
    }
  }

  /** After adding a list, its units answer for the cells they cover and nothing changes elsewhere. */
  lemma AddedUnitsAnswer(own: seq<Unit>, us: seq<Unit>, c: nat, scale: UnitScale, q: int, r: int)
    requires scale.Valid()
    ensures Latest(us, c, scale, q, r) != 0 ==>
      Latest(own + us, c, scale, q, r) == |own| + Latest(us, c, scale, q, r)
      && (own + us)[Latest(own + us, c, scale, q, r) - 1] == us[Latest(us, c, scale, q, r) - 1]
    ensures Latest(us, c, scale, q, r) == 0 ==> Latest(own + us, c, scale, q, r) == Latest(own, c, scale, q, r)
  {
    LatestOfConcat(own, us, c, scale, q, r);
  }
}
