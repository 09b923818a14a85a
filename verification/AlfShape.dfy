/** The shape of the adaptive loop filter: which coefficient weighs which neighbour, counted from the diamond itself. */
module AlfShape {
  import opened Arithmetic
  import opened AlfSpec

  /** How far a filter reaches along a row or a column. */
  function Reach(ft: FilterType): nat {
    if ft.Filter7? then 3 else 2
  }

  /** The neighbours a filter weighs. */
  predicate InDiamond(ft: FilterType, dx: int, dy: int) {
    Abs(dx) + Abs(dy) <= Reach(ft)
  }

  /** How many places of row dy of the diamond come before column dx. */
  function InRowBefore(ft: FilterType, dx: int, dy: int): nat
    decreases dx + 3
  {
    if dx <= -3 then 0 else InRowBefore(ft, dx - 1, dy) + if InDiamond(ft, dx - 1, dy) then 1 else 0
  }

  /** How many places of the diamond are in the rows before dy. */
  function InRowsBefore(ft: FilterType, dy: int): nat
    decreases dy + 3
  {
    if dy <= -3 then 0 else InRowsBefore(ft, dy - 1) + InRowBefore(ft, 4, dy - 1)
  }

  /** The number of a place in raster order. */
  function PlaceOf(ft: FilterType, at: (int, int)): nat {
    InRowsBefore(ft, at.1) + InRowBefore(ft, at.0, at.1)
  }

  function Opposite(at: (int, int)): (int, int) {
    (-at.0, -at.1)
  }

  /** A neighbour and the one opposite share a coefficient: the one numbered as the earlier of the two. */
  function TapOf(ft: FilterType, dx: int, dy: int): nat {
    Min(PlaceOf(ft, (dx, dy)), PlaceOf(ft, Opposite((dx, dy))))
  }

  /** How many places row dy has on either side of the middle, when it has any. */
  function Half(ft: FilterType, dy: int): int {
    Reach(ft) - Abs(dy)
  }

  lemma {:induction false} RowCount(ft: FilterType, dx: int, dy: int)
    requires -3 <= dx <= 4
    ensures InRowBefore(ft, dx, dy) == if Half(ft, dy) < 0 then 0 else Max(0, Min(dx, Half(ft, dy) + 1) + Half(ft, dy))
    decreases dx + 3
  {
    if dx > -3 {
      RowCount(ft, dx - 1, dy);
    }
  }

  /** How many places the rows before dy have. */
  function RowsCount(ft: FilterType, dy: int): nat {
    if ft == Filter7 then
      if dy == -3 then 0 else if dy == -2 then 1 else if dy == -1 then 4 else if dy == 0 then 9
      else if dy == 1 then 16 else if dy == 2 then 21 else if dy == 3 then 24 else 25
    else
      if dy <= -2 then 0 else if dy == -1 then 1 else if dy == 0 then 4 else if dy == 1 then 9 else if dy == 2 then 12 else 13
  }

  lemma {:induction false} RowsCountIs(ft: FilterType, dy: int)
    requires -3 <= dy <= 4
    ensures InRowsBefore(ft, dy) == RowsCount(ft, dy)
    decreases dy + 3
  {
    if dy > -3 {
      RowsCountIs(ft, dy - 1);
      RowCount(ft, 4, dy - 1);
    }
  }

  lemma PlaceIs(ft: FilterType, dx: int, dy: int, place: int)
    requires InDiamond(ft, dx, dy) && place == RowsCount(ft, dy) + dx + Half(ft, dy)
    ensures PlaceOf(ft, (dx, dy)) == place
  {
    RowsCountIs(ft, dy);
    RowCount(ft, dx, dy);
  }

  /** Places are numbered the other way round from the end. */
  lemma OppositePlaces(ft: FilterType, a: int, b: int, place: int, opposite: int)
    requires InDiamond(ft, a, b) && (b > 0 || (b == 0 && a >= 0))
    requires place == RowsCount(ft, b) + a + Half(ft, b) && opposite == RowsCount(ft, -b) - a + Half(ft, b)
    ensures 0 <= opposite < ft.NumCoeff() && opposite <= place
  {
  }

  lemma BothPlaces(ft: FilterType, a: int, b: int, na: int, nb: int, place: int, opposite: int)
    requires InDiamond(ft, a, b) && na == -a && nb == -b
    requires place == RowsCount(ft, b) + a + Half(ft, b) && opposite == RowsCount(ft, nb) - a + Half(ft, b)
    ensures PlaceOf(ft, (a, b)) == place && PlaceOf(ft, (na, nb)) == opposite
    ensures Opposite((a, b)) == (na, nb) && Opposite((na, nb)) == (a, b)
  {
    OppositeInDiamond(ft, a, b, na, nb);
    PlaceIs(ft, na, nb, opposite);
    PlaceIs(ft, a, b, place);
  }

  lemma OppositeInDiamond(ft: FilterType, a: int, b: int, na: int, nb: int)
    requires InDiamond(ft, a, b) && na == -a && nb == -b
    ensures InDiamond(ft, na, nb) && Half(ft, nb) == Half(ft, b)
    ensures Opposite((a, b)) == (na, nb) && Opposite((na, nb)) == (a, b)
  {
  }

  lemma TapIsMin(ft: FilterType, a: int, b: int, across: (int, int), place: nat, opposite: nat)
    requires across == Opposite((a, b)) && PlaceOf(ft, (a, b)) == place && PlaceOf(ft, across) == opposite
    ensures TapOf(ft, a, b) == Min(place, opposite)
  {
  }

  /** The place of the earlier of the two, for a neighbour below or, in the same row, not to the left. */
  lemma TapIs(ft: FilterType, a: int, b: int, na: int, nb: int, i: int)
    requires InDiamond(ft, a, b) && (b > 0 || (b == 0 && a >= 0)) && na == -a && nb == -b
    requires i == RowsCount(ft, nb) - a + Half(ft, b)
    ensures TapOf(ft, a, b) == TapOf(ft, na, nb) == i && 0 <= i < ft.NumCoeff()
  {
    var place := RowsCount(ft, b) + a + Half(ft, b);
    OppositePlaces(ft, a, b, place, i);
    BothPlaces(ft, a, b, na, nb, place, i);
    TapIsMin(ft, a, b, (na, nb), place, i);
    TapIsMin(ft, na, nb, (a, b), i, place);
  }

  /** The index of a neighbour's coefficient, worked out. */
  function IndexOf(ft: FilterType, dx: int, dy: int): int {
    if dy > 0 || (dy == 0 && dx > 0) then RowsCount(ft, -dy) - dx + Half(ft, dy) else RowsCount(ft, dy) + dx + Half(ft, dy)
  }

  lemma IndexIsTap(ft: FilterType, dx: int, dy: int)
    requires InDiamond(ft, dx, dy)
    ensures IndexOf(ft, dx, dy) == TapOf(ft, dx, dy) < ft.NumCoeff()
  {
    if dy > 0 || (dy == 0 && dx >= 0) {
      TapIs(ft, dx, dy, -dx, -dy, IndexOf(ft, dx, dy));
    } else {
      TapIs(ft, -dx, -dy, dx, dy, IndexOf(ft, dx, dy));
    }
  }

  /** The coefficient of a neighbour, zero outside the diamond. */
  function CoeffAt(ft: FilterType, c: seq<int>, dx: int, dy: int): int
    requires |c| >= ft.NumCoeff()
  {
    if InDiamond(ft, dx, dy) then
      IndexIsTap(ft, dx, dy);
      c[TapOf(ft, dx, dy)]
    else 0
  }

  /** What a spike of v at (dx, dy) should come to. */
  ghost predicate Weighed(ft: FilterType, c: seq<int>, v: int, dx: int, dy: int, all: int) {
    if InDiamond(ft, dx, dy) then 0 <= IndexOf(ft, dx, dy) < |c| && all == v * c[IndexOf(ft, dx, dy)] else all == 0
  }

  /** One coefficient's share of a spike's sum: all of it at its two places, nothing anywhere else. */
  lemma Share(ft: FilterType, c: seq<int>, i: nat, v: int, x: int, y: int, dx: int, dy: int, a: int, b: int, all: int)
    requires InDiamond(ft, a, b) && (b > 0 || (b == 0 && a > 0)) && IndexOf(ft, a, b) == i < |c|
    requires Weighed(ft, c, v, dx, dy, all)
    ensures c[i] * Pair(Spike(v, x + dx, y + dy), x, y, a, b) == if (dx, dy) == (a, b) || (dx, dy) == (-a, -b) then all else 0
  {
    PairOfSpike(c[i], v, x, y, dx, dy, a, b);
    if (dx, dy) == (-a, -b) {
      assert IndexOf(ft, dx, dy) == i;
    }
  }

  lemma PairOfSpike(f: int, v: int, x: int, y: int, dx: int, dy: int, a: int, b: int)
    requires a != 0 || b != 0
    ensures f * Pair(Spike(v, x + dx, y + dy), x, y, a, b) == if (dx, dy) == (a, b) || (dx, dy) == (-a, -b) then v * f else 0
  {
  }

  lemma CentreShare(ft: FilterType, c: seq<int>, i: nat, v: int, x: int, y: int, dx: int, dy: int, all: int)
    requires IndexOf(ft, 0, 0) == i < |c| && Weighed(ft, c, v, dx, dy, all)
    ensures c[i] * Spike(v, x + dx, y + dy)(x, y) == if dx == dy == 0 then all else 0
  {
  }

  /** The sum of the shares of the taps one row below and one row above. */
  lemma SmallRow(c: seq<int>, v: int, x: int, y: int, dx: int, dy: int, all: int)
    requires |c| >= 7 && Weighed(Filter5, c, v, dx, dy, all)
    ensures var p := Spike(v, x + dx, y + dy);
      c[1] * Pair(p, x, y, 1, 1) + c[2] * Pair(p, x, y, 0, 1) + c[3] * Pair(p, x, y, -1, 1)
      == if Abs(dy) == 1 && Abs(dx) <= 1 then all else 0
  {
    Share(Filter5, c, 1, v, x, y, dx, dy, 1, 1, all);
    Share(Filter5, c, 2, v, x, y, dx, dy, 0, 1, all);
    Share(Filter5, c, 3, v, x, y, dx, dy, -1, 1, all);
  }

  lemma SmallResponse(c: seq<int>, v: int, x: int, y: int, dx: int, dy: int, all: int)
    requires |c| >= 7 && Weighed(Filter5, c, v, dx, dy, all)
    ensures FilterSum(Filter5, c, Spike(v, x + dx, y + dy), x, y) == all
  {
    Share(Filter5, c, 0, v, x, y, dx, dy, 0, 2, all);
    SmallRow(c, v, x, y, dx, dy, all);
    Share(Filter5, c, 4, v, x, y, dx, dy, 2, 0, all);
    Share(Filter5, c, 5, v, x, y, dx, dy, 1, 0, all);
    CentreShare(Filter5, c, 6, v, x, y, dx, dy, all);
  }

  lemma LargeOuterRow(c: seq<int>, v: int, x: int, y: int, dx: int, dy: int, all: int)
    requires |c| >= 13 && Weighed(Filter7, c, v, dx, dy, all)
    ensures var p := Spike(v, x + dx, y + dy);
      c[1] * Pair(p, x, y, 1, 2) + c[2] * Pair(p, x, y, 0, 2) + c[3] * Pair(p, x, y, -1, 2)
      == if Abs(dy) == 2 && Abs(dx) <= 1 then all else 0
  {
    Share(Filter7, c, 1, v, x, y, dx, dy, 1, 2, all);
    Share(Filter7, c, 2, v, x, y, dx, dy, 0, 2, all);
    Share(Filter7, c, 3, v, x, y, dx, dy, -1, 2, all);
  }

  lemma LargeInnerRow(c: seq<int>, v: int, x: int, y: int, dx: int, dy: int, all: int)
    requires |c| >= 13 && Weighed(Filter7, c, v, dx, dy, all)
    ensures var p := Spike(v, x + dx, y + dy);
      c[4] * Pair(p, x, y, 2, 1) + c[5] * Pair(p, x, y, 1, 1) + c[6] * Pair(p, x, y, 0, 1)
      + c[7] * Pair(p, x, y, -1, 1) + c[8] * Pair(p, x, y, -2, 1)
      == if Abs(dy) == 1 && Abs(dx) <= 2 then all else 0
  {
    Share(Filter7, c, 4, v, x, y, dx, dy, 2, 1, all);
    Share(Filter7, c, 5, v, x, y, dx, dy, 1, 1, all);
    Share(Filter7, c, 6, v, x, y, dx, dy, 0, 1, all);
    Share(Filter7, c, 7, v, x, y, dx, dy, -1, 1, all);
    Share(Filter7, c, 8, v, x, y, dx, dy, -2, 1, all);
  }

  lemma LargeOwnRow(c: seq<int>, v: int, x: int, y: int, dx: int, dy: int, all: int)
    requires |c| >= 13 && Weighed(Filter7, c, v, dx, dy, all)
    ensures var p := Spike(v, x + dx, y + dy);
      c[9] * Pair(p, x, y, 3, 0) + c[10] * Pair(p, x, y, 2, 0) + c[11] * Pair(p, x, y, 1, 0) + c[12] * p(x, y)
      == if dy == 0 && Abs(dx) <= 3 then all else 0
  {
    Share(Filter7, c, 9, v, x, y, dx, dy, 3, 0, all);
    Share(Filter7, c, 10, v, x, y, dx, dy, 2, 0, all);
    Share(Filter7, c, 11, v, x, y, dx, dy, 1, 0, all);
    CentreShare(Filter7, c, 12, v, x, y, dx, dy, all);
  }

  lemma LargeResponse(c: seq<int>, v: int, x: int, y: int, dx: int, dy: int, all: int)
    requires |c| >= 13 && Weighed(Filter7, c, v, dx, dy, all)
    ensures FilterSum(Filter7, c, Spike(v, x + dx, y + dy), x, y) == all
  {
    Share(Filter7, c, 0, v, x, y, dx, dy, 0, 3, all);
    LargeOuterRow(c, v, x, y, dx, dy, all);
    LargeInnerRow(c, v, x, y, dx, dy, all);
    LargeOwnRow(c, v, x, y, dx, dy, all);
  }

  /** A single sample is weighed with the coefficient of its place, and not at all outside the diamond. */
  lemma ImpulseResponse(ft: FilterType, c: seq<int>, v: int, x: int, y: int, dx: int, dy: int)
    requires |c| >= ft.NumCoeff()
    ensures FilterSum(ft, c, Spike(v, x + dx, y + dy), x, y) == v * CoeffAt(ft, c, dx, dy)
  {
    var all := v * CoeffAt(ft, c, dx, dy);
    if InDiamond(ft, dx, dy) {
      IndexIsTap(ft, dx, dy);
    }
    Responds(ft, c, v, x, y, dx, dy, all);
  }

  lemma Responds(ft: FilterType, c: seq<int>, v: int, x: int, y: int, dx: int, dy: int, all: int)
    requires |c| >= ft.NumCoeff() && Weighed(ft, c, v, dx, dy, all)
    ensures FilterSum(ft, c, Spike(v, x + dx, y + dy), x, y) == all
  {
    if ft == Filter5 {
      SmallResponse(c, v, x, y, dx, dy, all);
    } else {
      LargeResponse(c, v, x, y, dx, dy, all);
    }
  }

  // ---- Any picture is a sum of spikes ----

  function Added(p: Pic, q: Pic): Pic {
    (x, y) => p(x, y) + q(x, y)
  }

  lemma TapAdds(f: int, p: Pic, q: Pic, x: int, y: int, dx: int, dy: int)
    ensures f * Pair(Added(p, q), x, y, dx, dy) == f * Pair(p, x, y, dx, dy) + f * Pair(q, x, y, dx, dy)
  {
    Distribute(f, Pair(p, x, y, dx, dy), Pair(q, x, y, dx, dy), Pair(Added(p, q), x, y, dx, dy));
  }

  lemma Distribute(f: int, a: int, b: int, sum: int)
    requires sum == a + b
    ensures f * sum == f * a + f * b
  {
  }

  /**
   * The sum of two pictures filters to the sum of their sums. As a sum depends on no sample further away than three
   * (FilterSumCongruence), it is the sum of the responses to the samples in reach.
   */
  lemma FilterSumAdds(ft: FilterType, c: seq<int>, p: Pic, q: Pic, x: int, y: int)
    requires |c| >= ft.NumCoeff()
    ensures FilterSum(ft, c, Added(p, q), x, y) == FilterSum(ft, c, p, x, y) + FilterSum(ft, c, q, x, y)
  {
    if ft == Filter5 {
      SmallSumAdds(c, p, q, x, y);
    } else {
      LargeSumAdds(c, p, q, x, y);
    }
  }

  lemma SmallSumAdds(c: seq<int>, p: Pic, q: Pic, x: int, y: int)
    requires |c| >= 7
    ensures FilterSum(Filter5, c, Added(p, q), x, y) == FilterSum(Filter5, c, p, x, y) + FilterSum(Filter5, c, q, x, y)
  {
    TapAdds(c[0], p, q, x, y, 0, 2);
    TapAdds(c[1], p, q, x, y, 1, 1);
    TapAdds(c[2], p, q, x, y, 0, 1);
    TapAdds(c[3], p, q, x, y, -1, 1);
    TapAdds(c[4], p, q, x, y, 2, 0);
    TapAdds(c[5], p, q, x, y, 1, 0);
    Distribute(c[6], p(x, y), q(x, y), Added(p, q)(x, y));
  }

  lemma LargeSumAdds(c: seq<int>, p: Pic, q: Pic, x: int, y: int)
    requires |c| >= 13
    ensures FilterSum(Filter7, c, Added(p, q), x, y) == FilterSum(Filter7, c, p, x, y) + FilterSum(Filter7, c, q, x, y)
  {
    TapAdds(c[0], p, q, x, y, 0, 3);
    TapAdds(c[1], p, q, x, y, 1, 2);
    TapAdds(c[2], p, q, x, y, 0, 2);
    TapAdds(c[3], p, q, x, y, -1, 2);
    TapAdds(c[4], p, q, x, y, 2, 1);
    TapAdds(c[5], p, q, x, y, 1, 1);
    TapAdds(c[6], p, q, x, y, 0, 1);
    TapAdds(c[7], p, q, x, y, -1, 1);
    TapAdds(c[8], p, q, x, y, -2, 1);
    TapAdds(c[9], p, q, x, y, 3, 0);
    TapAdds(c[10], p, q, x, y, 2, 0);
    TapAdds(c[11], p, q, x, y, 1, 0);
    Distribute(c[12], p(x, y), q(x, y), Added(p, q)(x, y));
  }
}
