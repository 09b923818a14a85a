/**
 * The bilateral smoothing filter stated out of place: every sample of a row-major block moves towards its
 * left, right, upper and lower neighbour inside the block, each weighted by how close its value is.
 */
module CrossFilter {
  import opened Arithmetic
  import opened Reciprocal

  const MAX_DENOMINATOR_PLUS_ONE := 325
  const BITS_PER_DIV_LUT_ENTRY: nat := 14

  /** Weights by absolute difference, saturating at the last entry, and the weight of the centre sample. */
  datatype Table = Table(w: seq<nat>, center: nat) {

    /**
     * What table generation promises: differences at or beyond the last entry do not count, the centre does,
     * and no sample can need a denominator above 324 or a dividend above 8192 (see FitsIffEverySampleFits).
     */
    ghost predicate Admissible() {
      |w| >= 1 && w[|w| - 1] == 0 && center >= 1 && forall k {:trigger EntryFits(k)} | 0 <= k < |w| :: EntryFits(k)
    }

    ghost predicate EntryFits(k: nat)
      requires k < |w|
    {
      center + 4 * w[k] < MAX_DENOMINATOR_PLUS_ONE && 8 * (k * w[k]) + 4 * w[k] + center <= 16385
    }
  }

  function Weight(t: Table, d: int): nat
    requires |t.w| >= 1
  {
    t.w[Min(|t.w| - 1, Abs(d))]
  }

  /** The weighted difference a neighbour at difference d contributes. */
  function Pull(t: Table, d: int): int
    requires |t.w| >= 1
  {
    Weight(t, d) * d
  }

  /** Which of the four neighbours of a sample lie inside the block. */
  datatype Sides = Sides(left: bool, right: bool, up: bool, down: bool) {
    predicate Inside(s: seq<int>, W: nat, k: nat) {
      k < |s| && (left ==> k >= 1) && (right ==> k + 1 < |s|) && (up ==> k >= W) && (down ==> k + W < |s|)
    }
  }

  function SidesOf(s: seq<int>, W: nat, k: nat): (r: Sides)
    requires W >= 1 && k < |s|
    ensures r.Inside(s, W, k)
  {
    Sides(k % W > 0, k % W < W - 1 && k + 1 < |s|, k >= W, k + W < |s|)
  }

  /** The weight of the neighbour at n of sample k, zero when it is outside the block. */
  function SideWeight(t: Table, s: seq<int>, k: nat, present: bool, n: int): nat
    requires |t.w| >= 1 && k < |s| && (present ==> 0 <= n < |s|)
  {
    if present then Weight(t, s[n] - s[k]) else 0
  }

  function SidePull(t: Table, s: seq<int>, k: nat, present: bool, n: int): int
    requires |t.w| >= 1 && k < |s| && (present ==> 0 <= n < |s|)
  {
    if present then Pull(t, s[n] - s[k]) else 0
  }

  function TotalOver(t: Table, s: seq<int>, W: nat, k: nat, sides: Sides): nat
    requires |t.w| >= 1 && sides.Inside(s, W, k)
  {
    t.center + SideWeight(t, s, k, sides.left, k - 1) + SideWeight(t, s, k, sides.right, k + 1)
    + SideWeight(t, s, k, sides.up, k - W) + SideWeight(t, s, k, sides.down, k + W)
  }

  function DeltaOver(t: Table, s: seq<int>, W: nat, k: nat, sides: Sides): int
    requires |t.w| >= 1 && sides.Inside(s, W, k)
  {
    SidePull(t, s, k, sides.left, k - 1) + SidePull(t, s, k, sides.right, k + 1)
    + SidePull(t, s, k, sides.up, k - W) + SidePull(t, s, k, sides.down, k + W)
  }

  /** The weight of sample k and its in-block neighbours together. */
  function Total(t: Table, s: seq<int>, W: nat, k: nat): nat
    requires |t.w| >= 1 && W >= 1 && k < |s|
  {
    TotalOver(t, s, W, k, SidesOf(s, W, k))
  }

  /** The weighted sum of the differences between sample k and its in-block neighbours. */
  function Delta(t: Table, s: seq<int>, W: nat, k: nat): int
    requires |t.w| >= 1 && W >= 1 && k < |s|
  {
    DeltaOver(t, s, W, k, SidesOf(s, W, k))
  }

  /** The filtered value of sample k, from the unfiltered block s of row length W. */
  function Cross(t: Table, s: seq<int>, W: nat, k: nat): int
    requires |t.w| >= 1 && t.center >= 1 && W >= 1 && k < |s|
  {
    s[k] + RoundHalfUp(Delta(t, s, W, k), Total(t, s, W, k))
  }

  /** The whole filtered block. */
  function CrossBlock(t: Table, s: seq<int>, W: nat): (r: seq<int>)
    requires |t.w| >= 1 && t.center >= 1 && W >= 1
    ensures |r| == |s|
    ensures forall k | 0 <= k < |s| :: r[k] == Cross(t, s, W, k)
  {
    seq(|s|, k requires 0 <= k < |s| => Cross(t, s, W, k))
  }

  /** A weight and its pull do not depend on which of the two samples asks. */
  lemma WeightIsSymmetric(t: Table, d: int)
    requires |t.w| >= 1
    ensures Weight(t, -d) == Weight(t, d) && Pull(t, -d) == -Pull(t, d)
  {
    assert Weight(t, d) * -d == -(Weight(t, d) * d);
  }

  /** One neighbour's share of the two limits, for any difference. */
  lemma ShareFits(t: Table, d: int)
    requires t.Admissible()
    ensures t.center + 4 * Weight(t, d) <= 324
    ensures 8 * Abs(Pull(t, d)) + 4 * Weight(t, d) + t.center <= 16385
  {
    var k := Min(|t.w| - 1, Abs(d));
    assert t.EntryFits(k);
    PullSize(t, d, k);
  }

  lemma PullSize(t: Table, d: int, k: nat)
    requires |t.w| >= 1 && t.w[|t.w| - 1] == 0 && k == Min(|t.w| - 1, Abs(d))
    ensures Abs(Pull(t, d)) == k * t.w[k]
  {
    if k < |t.w| - 1 {
      if d < 0 {
        assert t.w[k] * d == -(k * t.w[k]);
      }
    }
  }

  /** Every denominator indexes the reciprocal table and every dividend is within its exact range. */
  lemma SampleFits(t: Table, s: seq<int>, W: nat, k: nat)
    requires t.Admissible() && W >= 1 && k < |s|
    ensures 1 <= Total(t, s, W, k) < MAX_DENOMINATOR_PLUS_ONE
    ensures Abs(Delta(t, s, W, k)) + Total(t, s, W, k) / 2 <= 8192
  {
    SampleFitsOver(t, s, W, k, SidesOf(s, W, k));
  }

  lemma SampleFitsOver(t: Table, s: seq<int>, W: nat, k: nat, sides: Sides)
    requires t.Admissible() && sides.Inside(s, W, k)
    ensures 1 <= TotalOver(t, s, W, k, sides) < MAX_DENOMINATOR_PLUS_ONE
    ensures Abs(DeltaOver(t, s, W, k, sides)) + TotalOver(t, s, W, k, sides) / 2 <= 8192
  {
    Shares(t, s, W, k, sides);
    SharesFit(t.center,
      SideWeight(t, s, k, sides.left, k - 1), SideWeight(t, s, k, sides.right, k + 1),
      SideWeight(t, s, k, sides.up, k - W), SideWeight(t, s, k, sides.down, k + W),
      SidePull(t, s, k, sides.left, k - 1), SidePull(t, s, k, sides.right, k + 1),
      SidePull(t, s, k, sides.up, k - W), SidePull(t, s, k, sides.down, k + W),
      TotalOver(t, s, W, k, sides), DeltaOver(t, s, W, k, sides));
  }

  lemma Shares(t: Table, s: seq<int>, W: nat, k: nat, sides: Sides)
    requires t.Admissible() && sides.Inside(s, W, k)
    ensures ShareIsFit(t, SideWeight(t, s, k, sides.left, k - 1), SidePull(t, s, k, sides.left, k - 1))
    ensures ShareIsFit(t, SideWeight(t, s, k, sides.right, k + 1), SidePull(t, s, k, sides.right, k + 1))
    ensures ShareIsFit(t, SideWeight(t, s, k, sides.up, k - W), SidePull(t, s, k, sides.up, k - W))
    ensures ShareIsFit(t, SideWeight(t, s, k, sides.down, k + W), SidePull(t, s, k, sides.down, k + W))
  {
    Share(t, s, k, sides.left, k - 1);
    Share(t, s, k, sides.right, k + 1);
    Share(t, s, k, sides.up, k - W);
    Share(t, s, k, sides.down, k + W);
  }

  ghost predicate ShareIsFit(t: Table, w: nat, p: int) {
    t.center + 4 * w <= 324 && 8 * Abs(p) + 4 * w + t.center <= 16385
  }

  lemma SharesFit(c: nat, w0: nat, w1: nat, w2: nat, w3: nat, p0: int, p1: int, p2: int, p3: int, total: nat, delta: int)
    requires c >= 1 && total == c + w0 + w1 + w2 + w3 && delta == p0 + p1 + p2 + p3
    requires c + 4 * w0 <= 324 && 8 * Abs(p0) + 4 * w0 + c <= 16385
    requires c + 4 * w1 <= 324 && 8 * Abs(p1) + 4 * w1 + c <= 16385
    requires c + 4 * w2 <= 324 && 8 * Abs(p2) + 4 * w2 + c <= 16385
    requires c + 4 * w3 <= 324 && 8 * Abs(p3) + 4 * w3 + c <= 16385
    ensures 1 <= total <= 324
    ensures Abs(delta) + total / 2 <= 8192
  {
    assert 8 * (p0 + p1 + p2 + p3) <= 4 * (16385 - c) - 4 * (w0 + w1 + w2 + w3);
    assert -8 * (p0 + p1 + p2 + p3) <= 4 * (16385 - c) - 4 * (w0 + w1 + w2 + w3);
  }

  /** A neighbour's share of the limits, also when it does not count. */
  lemma Share(t: Table, s: seq<int>, k: nat, present: bool, n: int)
    requires t.Admissible() && k < |s| && (present ==> 0 <= n < |s|)
    ensures t.center + 4 * SideWeight(t, s, k, present, n) <= 324
    ensures 8 * Abs(SidePull(t, s, k, present, n)) + 4 * SideWeight(t, s, k, present, n) + t.center <= 16385
  {
    ShareFits(t, if present then s[n] - s[k] else |t.w|);
  }

  /** The block that makes the limits tight: a centre sample with four neighbours at the same difference k. */
  function Plus(k: nat): seq<int> { [0, k, 0, k, 0, k, 0, k, 0] }

  /** The limits on table entries are exactly what it takes for the samples of every block to fit. */
  lemma FitsIffEverySampleFits(t: Table)
    requires |t.w| >= 1 && t.w[|t.w| - 1] == 0 && t.center >= 1
    ensures t.Admissible() <==>
      forall s: seq<int>, W: nat, k: nat | W >= 1 && k < |s| ::
        Total(t, s, W, k) < MAX_DENOMINATOR_PLUS_ONE && Abs(Delta(t, s, W, k)) + Total(t, s, W, k) / 2 <= 8192
  {
    if t.Admissible() {
      forall s: seq<int>, W: nat, k: nat | W >= 1 && k < |s|
        ensures Total(t, s, W, k) < MAX_DENOMINATOR_PLUS_ONE && Abs(Delta(t, s, W, k)) + Total(t, s, W, k) / 2 <= 8192
      {
        SampleFits(t, s, W, k);
      }
    }
    if forall s: seq<int>, W: nat, k: nat | W >= 1 && k < |s| ::
        Total(t, s, W, k) < MAX_DENOMINATOR_PLUS_ONE && Abs(Delta(t, s, W, k)) + Total(t, s, W, k) / 2 <= 8192
    {
      forall k | 0 <= k < |t.w| ensures t.EntryFits(k) {
        PlusSample(t, k);
      }
    }
  }

  lemma PlusSample(t: Table, k: nat)
    requires k < |t.w|
    ensures Total(t, Plus(k), 3, 4) == t.center + 4 * t.w[k]
    ensures Delta(t, Plus(k), 3, 4) == 4 * (k * t.w[k])
  {
    assert Pull(t, k) == k * t.w[k];
  }

  /** All samples a filtered value depends on, in lo..hi. */
  ghost predicate ReadsWithin(s: seq<int>, W: nat, k: nat, sides: Sides, lo: int, hi: int)
    requires sides.Inside(s, W, k)
  {
    && lo <= s[k] <= hi
    && (sides.left ==> lo <= s[k - 1] <= hi)
    && (sides.right ==> lo <= s[k + 1] <= hi)
    && (sides.up ==> lo <= s[k - W] <= hi)
    && (sides.down ==> lo <= s[k + W] <= hi)
  }

  /** A pull is at most its weight times the largest admissible step in either direction. */
  lemma PullWithin(t: Table, d: int, down: int, up: int)
    requires |t.w| >= 1 && -down <= d <= up
    ensures -(Weight(t, d) * down) <= Pull(t, d) <= Weight(t, d) * up
  {
    MulMono(d, up, Weight(t, d));
    MulMono(-down, d, Weight(t, d));
    assert up * Weight(t, d) == Weight(t, d) * up && d * Weight(t, d) == Weight(t, d) * d;
    assert (-down) * Weight(t, d) == -(Weight(t, d) * down);
  }

  /** A weighted mean rounded to nearest stays between the extreme steps. */
  lemma RoundedMeanWithin(delta: int, center: int, rest: int, down: int, up: int)
    requires center >= 1 && rest >= 0 && down >= 0 && up >= 0
    requires -(rest * down) <= delta <= rest * up
    ensures -down <= RoundHalfUp(delta, center + rest) <= up
  {
    var n := center + rest;
    var q := (2 * delta + n) / (2 * n);
    assert 2 * delta + n == q * (2 * n) + (2 * delta + n) % (2 * n);
    assert q * (2 * n) == 2 * (q * n);
    MulMono(rest, n, up);
    MulMono(rest, n, down);
    assert n * up == up * n && n * down == down * n && (-down - 1) * n == -(down * n) - n && (up + 1) * n == up * n + n;
    MulCancelLess(q, up + 1, n);
    MulCancelLess(-down - 1, q, n);
  }

  /** Every filtered sample lies between the minimum and the maximum of the samples it reads. */
  lemma CrossStaysWithin(t: Table, s: seq<int>, W: nat, k: nat, lo: int, hi: int)
    requires |t.w| >= 1 && t.center >= 1 && W >= 1 && k < |s|
    requires ReadsWithin(s, W, k, SidesOf(s, W, k), lo, hi)
    ensures lo <= Cross(t, s, W, k) <= hi
  {
    DeltaWithin(t, s, W, k, SidesOf(s, W, k), s[k] - lo, hi - s[k]);
    RoundedMeanWithin(Delta(t, s, W, k), t.center, Total(t, s, W, k) - t.center, s[k] - lo, hi - s[k]);
  }

  lemma DeltaWithin(t: Table, s: seq<int>, W: nat, k: nat, sides: Sides, down: int, up: int)
    requires |t.w| >= 1 && sides.Inside(s, W, k)
    requires ReadsWithin(s, W, k, sides, s[k] - down, s[k] + up)
    ensures var rest := TotalOver(t, s, W, k, sides) - t.center;
      -(rest * down) <= DeltaOver(t, s, W, k, sides) <= rest * up
  {
    Neighbour(t, s, k, sides.left, k - 1, down, up);
    Neighbour(t, s, k, sides.right, k + 1, down, up);
    Neighbour(t, s, k, sides.up, k - W, down, up);
    Neighbour(t, s, k, sides.down, k + W, down, up);
    Combine(
      SideWeight(t, s, k, sides.left, k - 1), SideWeight(t, s, k, sides.right, k + 1),
      SideWeight(t, s, k, sides.up, k - W), SideWeight(t, s, k, sides.down, k + W),
      SidePull(t, s, k, sides.left, k - 1), SidePull(t, s, k, sides.right, k + 1),
      SidePull(t, s, k, sides.up, k - W), SidePull(t, s, k, sides.down, k + W), down, up);
  }

  lemma Combine(w0: int, w1: int, w2: int, w3: int, p0: int, p1: int, p2: int, p3: int, down: int, up: int)
    requires -(w0 * down) <= p0 <= w0 * up && -(w1 * down) <= p1 <= w1 * up
    requires -(w2 * down) <= p2 <= w2 * up && -(w3 * down) <= p3 <= w3 * up
    ensures -((w0 + w1 + w2 + w3) * down) <= p0 + p1 + p2 + p3 <= (w0 + w1 + w2 + w3) * up
  {
    assert (w0 + w1 + w2 + w3) * up == w0 * up + w1 * up + w2 * up + w3 * up;
    assert (w0 + w1 + w2 + w3) * down == w0 * down + w1 * down + w2 * down + w3 * down;
  }

  lemma Neighbour(t: Table, s: seq<int>, k: nat, present: bool, n: int, down: int, up: int)
    requires |t.w| >= 1 && k < |s|
    requires present ==> 0 <= n < |s| && s[k] - down <= s[n] <= s[k] + up
    ensures var w, p := SideWeight(t, s, k, present, n), SidePull(t, s, k, present, n);
      -(w * down) <= p <= w * up
  {
    if present {
      PullWithin(t, s[n] - s[k], down, up);
    }
  }

  // ---- By column and row ----

  /** The sample of a block of W columns and H rows in column x and row y, and whether there is one. */
  datatype Grid = Grid(s: seq<int>, W: nat, H: nat) {
    ghost predicate Valid() {
      W >= 1 && |s| == H * W
    }

    predicate Has(x: int, y: int) {
      0 <= x < W && 0 <= y < H
    }

    ghost function At(x: int, y: int): int
      requires Valid() && Has(x, y)
    {
      HasIndex(x, y);
      s[y * W + x]
    }

    lemma HasIndex(x: int, y: int)
      requires Valid() && Has(x, y)
      ensures 0 <= y * W + x < |s|
    {
      MulMono(0, y, W);
      MulMono(y + 1, H, W);
      assert (y + 1) * W == y * W + W;
    }

    /** The weight of the neighbour at (u, v) for the sample at (x, y): none outside the block or for too large a difference. */
    ghost function WeightOf(t: Table, x: int, y: int, u: int, v: int): int
      requires Valid() && Has(x, y)
    {
      if Has(u, v) && Abs(At(u, v) - At(x, y)) < |t.w| then t.w[Abs(At(u, v) - At(x, y))] else 0
    }

    ghost function PullOf(t: Table, x: int, y: int, u: int, v: int): int
      requires Valid() && Has(x, y)
    {
      if Has(u, v) then WeightOf(t, x, y, u, v) * (At(u, v) - At(x, y)) else 0
    }
  }

  /** Which neighbours a sample has, by its column and row. */
  lemma SidesByGrid(g: Grid, x: nat, y: nat, k: nat)
    requires g.Valid() && g.Has(x, y) && k == y * g.W + x
    ensures k < |g.s| && SidesOf(g.s, g.W, k) == Sides(g.Has(x - 1, y), g.Has(x + 1, y), g.Has(x, y - 1), g.Has(x, y + 1))
  {
    g.HasIndex(x, y);
    DivUnique(k, g.W, y);
    if y >= 1 { MulMono(1, y, g.W); }
    if y + 1 < g.H {
      g.HasIndex(x, y + 1);
      assert (y + 1) * g.W == y * g.W + g.W;
    } else {
      assert g.H * g.W == y * g.W + g.W;
    }
    if x + 1 < g.W { g.HasIndex(x + 1, y); }
  }

  lemma SideByGrid(t: Table, g: Grid, x: nat, y: nat, k: nat, u: int, v: int, n: int)
    requires t.Admissible() && g.Valid() && g.Has(x, y) && k == y * g.W + x < |g.s|
    requires g.Has(u, v) ==> n == v * g.W + u && 0 <= n < |g.s|
    ensures SideWeight(t, g.s, k, g.Has(u, v), n) == g.WeightOf(t, x, y, u, v)
    ensures SidePull(t, g.s, k, g.Has(u, v), n) == g.PullOf(t, x, y, u, v)
  {
  }

  /**
   * The filter in the block's own terms: a sample moves to the nearest whole step, upwards of two, of the mean of its
   * differences to the neighbours to the left, to the right, above and below inside the block, weighted by how large
   * they are, with the centre's weight counting as no difference.
   */
  lemma CrossMeaning(t: Table, g: Grid, x: nat, y: nat, k: nat, total: int, delta: int, r: int)
    requires t.Admissible() && g.Valid() && g.Has(x, y) && k == y * g.W + x < |g.s|
    requires total == t.center + g.WeightOf(t, x, y, x - 1, y) + g.WeightOf(t, x, y, x + 1, y)
                      + g.WeightOf(t, x, y, x, y - 1) + g.WeightOf(t, x, y, x, y + 1)
    requires delta == g.PullOf(t, x, y, x - 1, y) + g.PullOf(t, x, y, x + 1, y)
                      + g.PullOf(t, x, y, x, y - 1) + g.PullOf(t, x, y, x, y + 1)
    ensures CrossBlock(t, g.s, g.W)[k] == g.At(x, y) + r <==> 2 * delta - total < 2 * (r * total) <= 2 * delta + total
  {
    SumsByGrid(t, g, x, y, k);
    RoundHalfUpIsNearest(delta, total, r);
  }

  lemma SumsByGrid(t: Table, g: Grid, x: nat, y: nat, k: nat)
    requires t.Admissible() && g.Valid() && g.Has(x, y) && k == y * g.W + x < |g.s|
    ensures Total(t, g.s, g.W, k)
         == t.center + g.WeightOf(t, x, y, x - 1, y) + g.WeightOf(t, x, y, x + 1, y)
            + g.WeightOf(t, x, y, x, y - 1) + g.WeightOf(t, x, y, x, y + 1)
    ensures Delta(t, g.s, g.W, k)
         == g.PullOf(t, x, y, x - 1, y) + g.PullOf(t, x, y, x + 1, y) + g.PullOf(t, x, y, x, y - 1) + g.PullOf(t, x, y, x, y + 1)
  {
    SidesByGrid(g, x, y, k);
    NextRows(g, x, y, k);
    SideByGrid(t, g, x, y, k, x - 1, y, k - 1);
    SideByGrid(t, g, x, y, k, x + 1, y, k + 1);
    SideByGrid(t, g, x, y, k, x, y - 1, k - g.W);
    SideByGrid(t, g, x, y, k, x, y + 1, k + g.W);
  }

  lemma NextRows(g: Grid, x: nat, y: nat, k: nat)
    requires g.Valid() && g.Has(x, y) && k == y * g.W + x < |g.s|
    ensures k - g.W == (y - 1) * g.W + x && k + g.W == (y + 1) * g.W + x
  {
  }
}
