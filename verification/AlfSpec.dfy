/**
 * The adaptive loop filter on whole pictures: a picture is a function of column and row, so that a sample
 * outside its area can be anything the border extension makes it.
 */
module AlfSpec {
  import opened Arithmetic
  import opened Clipping

  type Pic = (int, int) -> int

  // ---- Local gradients ----

  datatype Direction = Hor | Ver | Diag0 | Diag1

  /** Magnitude of the one-pixel Laplacian in a direction. */
  function Laplacian(dir: Direction, p: Pic, x: int, y: int): nat {
    match dir
    case Ver => Abs(2 * p(x, y) - p(x, y - 1) - p(x, y + 1))
    case Hor => Abs(2 * p(x, y) - p(x - 1, y) - p(x + 1, y))
    case Diag0 => Abs(2 * p(x, y) - p(x - 1, y - 1) - p(x + 1, y + 1))
    case Diag1 => Abs(2 * p(x, y) - p(x - 1, y + 1) - p(x + 1, y - 1))
  }

  /** A picture that is v at (a, b) and 0 elsewhere. */
  function Spike(v: int, a: int, b: int): Pic {
    (x, y) => if x == a && y == b then v else 0
  }

  /** The step from a sample to its neighbour in a direction; the other neighbour is opposite. */
  function Step(dir: Direction): (int, int) {
    match dir case Hor => (1, 0) case Ver => (0, 1) case Diag0 => (1, 1) case Diag1 => (1, -1)
  }

  /** A spike counts twice in its own place, once next to it in the direction, and nowhere else. */
  lemma LaplacianOfSpike(dir: Direction, v: int, x: int, y: int, dx: int, dy: int)
    ensures Laplacian(dir, Spike(v, x + dx, y + dy), x, y)
         == if dx == dy == 0 then 2 * Abs(v) else if (dx, dy) == Step(dir) || (-dx, -dy) == Step(dir) then Abs(v) else 0
  {
  }

  /** What rises evenly along a direction has no activity in it. */
  lemma LaplacianIsZeroIff(dir: Direction, p: Pic, x: int, y: int)
    ensures var (dx, dy) := Step(dir); Laplacian(dir, p, x, y) == 0 <==> p(x + dx, y + dy) - p(x, y) == p(x, y) - p(x - dx, y - dy)
  {
  }

  /** Sum over columns x0 up to x1 of row y. */
  function RowSum(dir: Direction, p: Pic, x0: int, x1: int, y: int): nat
    decreases x1 - x0
  {
    if x1 <= x0 then 0 else RowSum(dir, p, x0, x1 - 1, y) + Laplacian(dir, p, x1 - 1, y)
  }

  /** Sum over columns x0 up to x1 and rows y0 up to y1. */
  function BoxSum(dir: Direction, p: Pic, x0: int, x1: int, y0: int, y1: int): nat
    decreases y1 - y0
  {
    if y1 <= y0 then 0 else BoxSum(dir, p, x0, x1, y0, y1 - 1) + RowSum(dir, p, x0, x1, y1 - 1)
  }

  /** Activity of the 4x4 block at (x, y) in a direction: the sum over the 8x8 window around it. */
  function Activity(dir: Direction, p: Pic, x: int, y: int): nat {
    BoxSum(dir, p, x - 2, x + 6, y - 2, y + 6)
  }

  // ---- Classification ----

  datatype AlfClassifier = AlfClassifier(classIdx: nat, transposeIdx: nat)

  const MAX_ACTIVITY := 15
  const TH: seq<nat> := [0, 1, 2, 2, 2, 2, 2, 3, 3, 3, 3, 3, 3, 3, 3, 4]
  const TRANSPOSE_TABLE: seq<nat> := [0, 1, 0, 2, 2, 3, 1, 3]

  /** The activity level, 0 to 4. */
  function ActivityClass(sumV: nat, sumH: nat, shift: nat): (a: nat)
    ensures a <= 4
  {
    var tempAct := sumV + sumH;
    var activity := Clip3(0, MAX_ACTIVITY, tempAct * 32 / Pow2(shift));
    TH[activity]
  }

  /** How much the stronger of two gradients exceeds the weaker. */
  function DirectionStrength(hvd1: nat, hvd0: nat): nat {
    if hvd1 * 2 > 9 * hvd0 then 2 else if hvd1 > 2 * hvd0 then 1 else 0
  }

  /** Class and transposition of a block from its four activities. */
  function Classify(sumV: nat, sumH: nat, sumD0: nat, sumD1: nat, shift: nat): (c: AlfClassifier)
    ensures c.classIdx < 25 && c.transposeIdx < 4
  {
    var (hv1, hv0, dirTempHV) := if sumV > sumH then (sumV, sumH, 1) else (sumH, sumV, 3);
    var (d1, d0, dirTempD) := if sumD0 > sumD1 then (sumD0, sumD1, 0) else (sumD1, sumD0, 2);
    var (hvd1, hvd0, mainDirection, secondaryDirection) :=
      if d1 * hv0 > hv1 * d0 then (d1, d0, dirTempD, dirTempHV) else (hv1, hv0, dirTempHV, dirTempD);
    var strength := DirectionStrength(hvd1, hvd0);
    var base := ActivityClass(sumV, sumH, shift);
    var classIdx := if strength != 0 then base + (mainDirection % 2 * 2 + strength) * 5 else base;
    AlfClassifier(classIdx, TRANSPOSE_TABLE[mainDirection * 2 + secondaryDirection / 2])
  }

  /** The diagonal pair of opposite directions differs by a larger factor than the vertical and horizontal one. */
  ghost predicate Diagonal(sumV: nat, sumH: nat, sumD0: nat, sumD1: nat) {
    Max(sumD0, sumD1) * Min(sumV, sumH) > Max(sumV, sumH) * Min(sumD0, sumD1)
  }

  /** The larger and the smaller activity of the pair that dominates. */
  ghost function Dominating(sumV: nat, sumH: nat, sumD0: nat, sumD1: nat): (nat, nat) {
    if Diagonal(sumV, sumH, sumD0, sumD1) then (Max(sumD0, sumD1), Min(sumD0, sumD1)) else (Max(sumV, sumH), Min(sumV, sumH))
  }

  /**
   * Classes come in five groups of five. Without a direction, that is when the dominating pair differs by no more than
   * a factor of two, it is the first; the next two are diagonal, the last two vertical or horizontal, and of either two
   * the second is for a pair that differs by more than a factor of four and a half.
   */
  lemma ClassMeaning(sumV: nat, sumH: nat, sumD0: nat, sumD1: nat, shift: nat)
    ensures var group := Classify(sumV, sumH, sumD0, sumD1, shift).classIdx / 5;
      var (more, less) := Dominating(sumV, sumH, sumD0, sumD1);
      && (group == 0 <==> more <= 2 * less)
      && (group == 1 || group == 2 <==> more > 2 * less && Diagonal(sumV, sumH, sumD0, sumD1))
      && (group == 3 || group == 4 <==> more > 2 * less && !Diagonal(sumV, sumH, sumD0, sumD1))
      && (group == 2 || group == 4 <==> 2 * more > 9 * less)
  {
  }

  /** Within a group the class is the level of vertical and horizontal activity. */
  lemma ActivityMeaning(sumV: nat, sumH: nat, sumD0: nat, sumD1: nat, shift: nat, activity: int)
    requires activity == (sumV + sumH) * 32 / Pow2(shift)
    ensures Classify(sumV, sumH, sumD0, sumD1, shift).classIdx % 5
         == if activity < 1 then 0 else if activity < 2 then 1 else if activity < 7 then 2 else if activity < 15 then 3 else 4
  {
    DivNonNegative((sumV + sumH) * 32, Pow2(shift));
  }

  /** There is no direction exactly when neither pair differs by more than a factor of two, or the first has no activity. */
  lemma NoDirectionIff(sumV: nat, sumH: nat, sumD0: nat, sumD1: nat, shift: nat)
    ensures Classify(sumV, sumH, sumD0, sumD1, shift).classIdx < 5
      <==> Max(sumV, sumH) <= 2 * Min(sumV, sumH) && (Max(sumD0, sumD1) <= 2 * Min(sumD0, sumD1) || Max(sumV, sumH) == 0)
  {
    var hv1, hv0 := Max(sumV, sumH), Min(sumV, sumH);
    var d1, d0 := Max(sumD0, sumD1), Min(sumD0, sumD1);
    if d1 * hv0 > hv1 * d0 {
      WeakerPair(d1, d0, hv1, hv0);
    } else if 0 < hv1 <= 2 * hv0 {
      StrongerPair(d1, d0, hv1, hv0);
    }
  }

  lemma WeakerPair(d1: nat, d0: nat, hv1: nat, hv0: nat)
    requires d1 * hv0 > hv1 * d0
    ensures hv1 > 2 * hv0 ==> d1 > 2 * d0
    ensures d1 > 0 && hv0 > 0
  {
    if d1 <= 2 * d0 {
      MulMono(d1, 2 * d0, hv0);
      RatioOrder(2 * hv0, hv1, d0);
    }
  }

  lemma RatioOrder(a: nat, b: nat, c: nat)
    requires b * c < a * c
    ensures b < a
  {
    if a <= b {
      MulMono(a, b, c);
    }
  }

  lemma StrongerPair(d1: nat, d0: nat, hv1: nat, hv0: nat)
    requires d1 * hv0 <= hv1 * d0 && hv1 > 0 && hv1 <= 2 * hv0
    ensures d1 <= 2 * d0
  {
    MulMono(hv1, 2 * hv0, d0);
    assert 2 * hv0 * d0 == 2 * d0 * hv0;
    if d1 > 2 * d0 {
      MulMono(2 * d0 + 1, d1, hv0);
      Unfactor(d0, hv0);
    }
  }

  lemma Unfactor(a: nat, b: nat)
    ensures (2 * a + 1) * b == 2 * a * b + b
  {
  }

  /** The class of the 4x4 block at (x, y). */
  function BlockClass(p: Pic, x: int, y: int, shift: nat): (c: AlfClassifier)
    ensures c.classIdx < 25 && c.transposeIdx < 4
  {
    Classify(Activity(Ver, p, x, y), Activity(Hor, p, x, y), Activity(Diag0, p, x, y), Activity(Diag1, p, x, y), shift)
  }

  // ---- Filtering ----

  datatype FilterType = Filter5 | Filter7 {
    function NumCoeff(): nat {
      if Filter5? then 7 else 13
    }
  }

  /** The coefficients in the order a block with this transposition uses them. */
  function Transposed(ft: FilterType, c: seq<int>, transposeIdx: nat): (r: seq<int>)
    requires |c| >= ft.NumCoeff()
    ensures |r| == ft.NumCoeff()
  {
    match ft
    case Filter7 =>
      if transposeIdx == 1 then
        [c[9], c[4], c[10], c[8], c[1], c[5], c[11], c[7], c[3], c[0], c[2], c[6], c[12]]
      else if transposeIdx == 2 then
        [c[0], c[3], c[2], c[1], c[8], c[7], c[6], c[5], c[4], c[9], c[10], c[11], c[12]]
      else if transposeIdx == 3 then
        [c[9], c[8], c[10], c[4], c[3], c[7], c[11], c[5], c[1], c[0], c[2], c[6], c[12]]
      else
        [c[0], c[1], c[2], c[3], c[4], c[5], c[6], c[7], c[8], c[9], c[10], c[11], c[12]]
    case Filter5 =>
      if transposeIdx == 1 then
        [c[4], c[1], c[5], c[3], c[0], c[2], c[6]]
      else if transposeIdx == 2 then
        [c[0], c[3], c[2], c[1], c[4], c[5], c[6]]
      else if transposeIdx == 3 then
        [c[4], c[3], c[5], c[1], c[0], c[2], c[6]]
      else
        [c[0], c[1], c[2], c[3], c[4], c[5], c[6]]
  }

  /** Index 0 leaves the coefficients as they are; from it FilterFlip and FilterMirror give the others. */
  lemma Untransposed(ft: FilterType, c: seq<int>)
    requires |c| >= ft.NumCoeff()
    ensures forall i | 0 <= i < ft.NumCoeff() :: Transposed(ft, c, 0)[i] == c[i]
  {
    var r := Transposed(ft, c, 0);
    assert r[0] == c[0] && r[1] == c[1] && r[2] == c[2] && r[3] == c[3] && r[4] == c[4] && r[5] == c[5] && r[6] == c[6];
    if ft == Filter7 {
      assert r[7] == c[7] && r[8] == c[8] && r[9] == c[9] && r[10] == c[10] && r[11] == c[11] && r[12] == c[12];
    }
  }

  /** The two samples a tap at (dx, dy) weighs. */
  function Pair(p: Pic, x: int, y: int, dx: int, dy: int): int {
    p(x + dx, y + dy) + p(x - dx, y - dy)
  }

  /** The weighted sum around (x, y), with coefficients in their untransposed positions. */
  function FilterSum(ft: FilterType, c: seq<int>, p: Pic, x: int, y: int): int
    requires |c| >= ft.NumCoeff()
  {
    match ft
    case Filter7 =>
      c[0] * Pair(p, x, y, 0, 3)
      + c[1] * Pair(p, x, y, 1, 2) + c[2] * Pair(p, x, y, 0, 2) + c[3] * Pair(p, x, y, -1, 2)
      + c[4] * Pair(p, x, y, 2, 1) + c[5] * Pair(p, x, y, 1, 1) + c[6] * Pair(p, x, y, 0, 1)
      + c[7] * Pair(p, x, y, -1, 1) + c[8] * Pair(p, x, y, -2, 1)
      + c[9] * Pair(p, x, y, 3, 0) + c[10] * Pair(p, x, y, 2, 0) + c[11] * Pair(p, x, y, 1, 0)
      + c[12] * p(x, y)
    case Filter5 =>
      c[0] * Pair(p, x, y, 0, 2)
      + c[1] * Pair(p, x, y, 1, 1) + c[2] * Pair(p, x, y, 0, 1) + c[3] * Pair(p, x, y, -1, 1)
      + c[4] * Pair(p, x, y, 2, 0) + c[5] * Pair(p, x, y, 1, 0)
      + c[6] * p(x, y)
  }

  const SHIFT: nat := 9

  /** `( sum + offset ) >> shift`. */
  function Rounded(sum: int): int {
    (sum + 256) / 512
  }

  /** The nearest integer to sum / 512, the larger one of two. */
  lemma RoundedIsNearest(sum: int, r: int)
    ensures r == Rounded(sum) <==> 512 * r - 256 <= sum < 512 * r + 256
  {
  }

  /** One filtered sample. */
  function FilteredSample(ft: FilterType, c: seq<int>, transposeIdx: nat, p: Pic, x: int, y: int, rng: ClpRng): int
    requires |c| >= ft.NumCoeff()
  {
    ClipPel(Rounded(FilterSum(ft, Transposed(ft, c, transposeIdx), p, x, y)), rng)
  }

  /** A filtered sample is the value in range nearest to the rounded sum. */
  lemma FilteredSampleIsNearest(ft: FilterType, c: seq<int>, transposeIdx: nat, p: Pic, x: int, y: int, rng: ClpRng, r: int)
    requires |c| >= ft.NumCoeff() && rng.min <= rng.max
    requires var sum := FilterSum(ft, Transposed(ft, c, transposeIdx), p, x, y); 512 * r - 256 <= sum < 512 * r + 256
    ensures Nearest(FilteredSample(ft, c, transposeIdx, p, x, y, rng), r, rng)
  {
    RoundedIsNearest(FilterSum(ft, Transposed(ft, c, transposeIdx), p, x, y), r);
    ClipIsNearest(r, rng, ClipPel(r, rng));
  }

  /** The origin of the 4x4 block a coordinate is in. */
  function Origin(v: int): int {
    v - v % 4
  }

  /** A set of luma filters: one per class, each with all the coefficients of its shape. */
  ghost predicate LumaFilters(ft: FilterType, coeff: seq<seq<int>>) {
    |coeff| == 25 && forall i | 0 <= i < 25 :: |coeff[i]| >= ft.NumCoeff()
  }

  /** The sample at (x, y) filtered as part of the block at (ox, oy): its class selects filter and transposition. */
  ghost function SampleOfBlock(ft: FilterType, coeff: seq<seq<int>>, p: Pic, ox: int, oy: int, x: int, y: int,
                               shift: nat, rng: ClpRng): int
    requires LumaFilters(ft, coeff)
  {
    var cl := BlockClass(p, ox, oy, shift);
    FilteredSample(ft, coeff[cl.classIdx], cl.transposeIdx, p, x, y, rng)
  }

  /** One luma sample. */
  ghost function LumaSample(ft: FilterType, coeff: seq<seq<int>>, p: Pic, x: int, y: int, shift: nat, rng: ClpRng): int
    requires LumaFilters(ft, coeff)
  {
    SampleOfBlock(ft, coeff, p, Origin(x), Origin(y), x, y, shift, rng)
  }

  /** A picture of w columns and h rows, continued beyond its border with the nearest sample inside. */
  function Clamped(p: Pic, w: int, h: int): Pic {
    (x, y) => p(Clip3(0, w - 1, x), Clip3(0, h - 1, y))
  }

  /** The coordinates a continued picture takes a sample from are the nearest inside. */
  lemma ClampedIsNearest(p: Pic, w: int, h: int, x: int, y: int, u: int, v: int)
    requires w >= 1 && h >= 1 && Nearest(u, x, ClpRng(0, w - 1)) && Nearest(v, y, ClpRng(0, h - 1))
    ensures Clamped(p, w, h)(x, y) == p(u, v)
  {
    ClipIsNearest(x, ClpRng(0, w - 1), u);
    ClipIsNearest(y, ClpRng(0, h - 1), v);
    assert u == Clip3(0, w - 1, x) && v == Clip3(0, h - 1, y);
  }

  // ---- The sums only look at sample values ----

  predicate SameAt(p: Pic, q: Pic, x: int, y: int) {
    p(x, y) == q(x, y)
  }

  /** Two pictures with the same samples in columns x0 to x1 of rows y0 to y1. */
  ghost predicate Agree(p: Pic, q: Pic, x0: int, x1: int, y0: int, y1: int) {
    forall u: int, v: int {:trigger SameAt(p, q, u, v)} | x0 <= u <= x1 && y0 <= v <= y1 :: SameAt(p, q, u, v)
  }

  lemma LaplacianCongruence(dir: Direction, p: Pic, q: Pic, x: int, y: int)
    requires Agree(p, q, x - 1, x + 1, y - 1, y + 1)
    ensures Laplacian(dir, p, x, y) == Laplacian(dir, q, x, y)
  {
    assert SameAt(p, q, x, y);
    assert SameAt(p, q, x, y - 1) && SameAt(p, q, x, y + 1);
    assert SameAt(p, q, x - 1, y) && SameAt(p, q, x + 1, y);
    assert SameAt(p, q, x - 1, y - 1) && SameAt(p, q, x + 1, y + 1);
    assert SameAt(p, q, x - 1, y + 1) && SameAt(p, q, x + 1, y - 1);
  }

  lemma {:induction false} RowSumCongruence(dir: Direction, p: Pic, q: Pic, x0: int, x1: int, y: int)
    requires Agree(p, q, x0 - 1, x1, y - 1, y + 1)
    ensures RowSum(dir, p, x0, x1, y) == RowSum(dir, q, x0, x1, y)
    decreases x1 - x0
  {
    if x0 >= x1 {
    } else {
      RowSumCongruence(dir, p, q, x0, x1 - 1, y);
      LaplacianCongruence(dir, p, q, x1 - 1, y);
    }
  }

  lemma {:induction false} BoxSumCongruence(dir: Direction, p: Pic, q: Pic, x0: int, x1: int, y0: int, y1: int)
    requires Agree(p, q, x0 - 1, x1, y0 - 1, y1)
    ensures BoxSum(dir, p, x0, x1, y0, y1) == BoxSum(dir, q, x0, x1, y0, y1)
    decreases y1 - y0
  {
    if y0 >= y1 {
    } else {
      BoxSumCongruence(dir, p, q, x0, x1, y0, y1 - 1);
      RowSumCongruence(dir, p, q, x0, x1, y1 - 1);
    }
  }

  lemma PairCongruence(p: Pic, q: Pic, x: int, y: int, dx: int, dy: int)
    requires Agree(p, q, x - 3, x + 3, y - 3, y + 3) && -3 <= dx <= 3 && -3 <= dy <= 3
    ensures Pair(p, x, y, dx, dy) == Pair(q, x, y, dx, dy)
  {
    assert SameAt(p, q, x + dx, y + dy) && SameAt(p, q, x - dx, y - dy);
  }

  lemma FilterSumCongruence(ft: FilterType, c: seq<int>, p: Pic, q: Pic, x: int, y: int)
    requires |c| >= ft.NumCoeff()
    requires Agree(p, q, x - 3, x + 3, y - 3, y + 3)
    ensures FilterSum(ft, c, p, x, y) == FilterSum(ft, c, q, x, y)
  {
    forall dx: int, dy: int | -3 <= dx <= 3 && -3 <= dy <= 3
      ensures Pair(p, x, y, dx, dy) == Pair(q, x, y, dx, dy)
    {
      PairCongruence(p, q, x, y, dx, dy);
    }
    assert SameAt(p, q, x, y);
  }

  lemma BlockClassCongruence(p: Pic, q: Pic, x: int, y: int, shift: nat)
    requires Agree(p, q, x - 3, x + 6, y - 3, y + 6)
    ensures BlockClass(p, x, y, shift) == BlockClass(q, x, y, shift)
  {
    BoxSumCongruence(Ver, p, q, x - 2, x + 6, y - 2, y + 6);
    BoxSumCongruence(Hor, p, q, x - 2, x + 6, y - 2, y + 6);
    BoxSumCongruence(Diag0, p, q, x - 2, x + 6, y - 2, y + 6);
    BoxSumCongruence(Diag1, p, q, x - 2, x + 6, y - 2, y + 6);
  }

  lemma SampleOfBlockCongruence(ft: FilterType, coeff: seq<seq<int>>, p: Pic, q: Pic, ox: int, oy: int, x: int, y: int,
                                shift: nat, rng: ClpRng)
    requires LumaFilters(ft, coeff) && ox <= x < ox + 4 && oy <= y < oy + 4
    requires Agree(p, q, x - 7, x + 7, y - 7, y + 7)
    ensures SampleOfBlock(ft, coeff, p, ox, oy, x, y, shift, rng) == SampleOfBlock(ft, coeff, q, ox, oy, x, y, shift, rng)
  {
    BlockClassCongruence(p, q, ox, oy, shift);
    var cl := BlockClass(p, ox, oy, shift);
    FilterSumCongruence(ft, Transposed(ft, coeff[cl.classIdx], cl.transposeIdx), p, q, x, y);
  }

  lemma OriginBounds(v: int)
    ensures Origin(v) <= v < Origin(v) + 4
  {
  }

  /** A filtered sample depends on the picture within seven samples at most. */
  lemma LumaSampleCongruence(ft: FilterType, coeff: seq<seq<int>>, p: Pic, q: Pic, x: int, y: int, shift: nat, rng: ClpRng)
    requires LumaFilters(ft, coeff)
    requires Agree(p, q, x - 7, x + 7, y - 7, y + 7)
    ensures LumaSample(ft, coeff, p, x, y, shift, rng) == LumaSample(ft, coeff, q, x, y, shift, rng)
  {
    OriginBounds(x);
    OriginBounds(y);
    SampleOfBlockCongruence(ft, coeff, p, q, Origin(x), Origin(y), x, y, shift, rng);
  }
}
