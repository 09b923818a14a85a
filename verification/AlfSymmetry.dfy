/** What the transpose index is for: classifying and filtering commute with transposing and mirroring pictures. */
module AlfSymmetry {
  import opened Arithmetic
  import opened AlfSpec
  import opened Clipping

  /** The picture with columns and rows exchanged. */
  function Flip(p: Pic): Pic {
    (x, y) => p(y, x)
  }

  /** The picture mirrored left to right, column x becoming column m - x. */
  function Mirror(p: Pic, m: int): Pic {
    (x, y) => p(m - x, y)
  }

  function FlipDir(dir: Direction): Direction {
    match dir case Ver => Hor case Hor => Ver case Diag0 => Diag0 case Diag1 => Diag1
  }

  function MirrorDir(dir: Direction): Direction {
    match dir case Ver => Ver case Hor => Hor case Diag0 => Diag1 case Diag1 => Diag0
  }

  lemma LaplacianFlip(dir: Direction, p: Pic, x: int, y: int)
    ensures Laplacian(FlipDir(dir), Flip(p), y, x) == Laplacian(dir, p, x, y)
  {
  }

  lemma LaplacianMirror(dir: Direction, p: Pic, m: int, x: int, y: int, x2: int)
    requires x2 == m - x
    ensures Laplacian(MirrorDir(dir), Mirror(p, m), x2, y) == Laplacian(dir, p, x, y)
  {
    assert m - x2 == x && m - (x2 - 1) == x + 1 && m - (x2 + 1) == x - 1;
  }

  function ColumnSum(dir: Direction, p: Pic, x: int, y0: int, y1: int): nat
    decreases y1 - y0
  {
    if y1 <= y0 then 0 else ColumnSum(dir, p, x, y0, y1 - 1) + Laplacian(dir, p, x, y1 - 1)
  }

  /** A box summed row by row gains a column's sum when it gains a column. */
  lemma {:induction false} BoxGainsColumn(dir: Direction, p: Pic, x0: int, x1: int, y0: int, y1: int)
    requires x0 <= x1
    ensures BoxSum(dir, p, x0, x1 + 1, y0, y1) == BoxSum(dir, p, x0, x1, y0, y1) + ColumnSum(dir, p, x1, y0, y1)
    decreases y1 - y0
  {
    if y0 >= y1 {
    } else {
      BoxGainsColumn(dir, p, x0, x1, y0, y1 - 1);
    }
  }

  lemma {:induction false} EmptyBox(dir: Direction, p: Pic, x: int, y0: int, y1: int)
    ensures BoxSum(dir, p, x, x, y0, y1) == 0
    decreases y1 - y0
  {
    if y0 >= y1 {
    } else {
      EmptyBox(dir, p, x, y0, y1 - 1);
    }
  }

  lemma {:induction false} ColumnFlip(dir: Direction, p: Pic, x: int, y0: int, y1: int)
    ensures RowSum(FlipDir(dir), Flip(p), y0, y1, x) == ColumnSum(dir, p, x, y0, y1)
    decreases y1 - y0
  {
    if y0 >= y1 {
    } else {
      ColumnFlip(dir, p, x, y0, y1 - 1);
      LaplacianFlip(dir, p, x, y1 - 1);
    }
  }

  /** Summing by rows and by columns gives the same total: the box of the transposed picture. */
  lemma {:induction false} BoxFlip(dir: Direction, p: Pic, x0: int, x1: int, y0: int, y1: int)
    requires x0 <= x1
    ensures BoxSum(FlipDir(dir), Flip(p), y0, y1, x0, x1) == BoxSum(dir, p, x0, x1, y0, y1)
    decreases x1 - x0
  {
    if x0 == x1 {
      EmptyBox(dir, p, x0, y0, y1);
    } else {
      BoxFlip(dir, p, x0, x1 - 1, y0, y1);
      BoxGainsColumn(dir, p, x0, x1 - 1, y0, y1);
      ColumnFlip(dir, p, x1 - 1, y0, y1);
    }
  }

  /** A row summed from the other end. */
  lemma {:induction false} RowFromFront(dir: Direction, p: Pic, x0: int, x1: int, y: int)
    requires x0 < x1
    ensures RowSum(dir, p, x0, x1, y) == Laplacian(dir, p, x0, y) + RowSum(dir, p, x0 + 1, x1, y)
    decreases x1 - x0
  {
    if x0 + 1 >= x1 {
    } else {
      RowFromFront(dir, p, x0, x1 - 1, y);
    }
  }

  lemma {:induction false} RowMirror(dir: Direction, p: Pic, m: int, x0: int, x1: int, y: int, a0: int, a1: int)
    requires x0 <= x1 && a0 == m - x1 + 1 && a1 == m - x0 + 1
    ensures RowSum(MirrorDir(dir), Mirror(p, m), a0, a1, y) == RowSum(dir, p, x0, x1, y)
    decreases x1 - x0
  {
    if x0 >= x1 {
    } else {
      RowMirror(dir, p, m, x0, x1 - 1, y, a0 + 1, a1);
      RowFromFront(MirrorDir(dir), Mirror(p, m), a0, a1, y);
      LaplacianMirror(dir, p, m, x1 - 1, y, a0);
    }
  }

  lemma {:induction false} BoxMirror(dir: Direction, p: Pic, m: int, x0: int, x1: int, y0: int, y1: int, a0: int, a1: int)
    requires x0 <= x1 && a0 == m - x1 + 1 && a1 == m - x0 + 1
    ensures BoxSum(MirrorDir(dir), Mirror(p, m), a0, a1, y0, y1) == BoxSum(dir, p, x0, x1, y0, y1)
    decreases y1 - y0
  {
    if y0 >= y1 {
    } else {
      BoxMirror(dir, p, m, x0, x1, y0, y1 - 1, a0, a1);
      RowMirror(dir, p, m, x0, x1, y1 - 1, a0, a1);
    }
  }

  lemma ActivityFlip(dir: Direction, p: Pic, x: int, y: int)
    ensures Activity(FlipDir(dir), Flip(p), y, x) == Activity(dir, p, x, y)
  {
    BoxFlip(dir, p, x - 2, x + 6, y - 2, y + 6);
  }

  /** The 4x4 block at x becomes the one at m - x - 3. */
  lemma ActivityMirror(dir: Direction, p: Pic, m: int, x: int, y: int, x2: int)
    requires x2 == m - x - 3
    ensures Activity(MirrorDir(dir), Mirror(p, m), x2, y) == Activity(dir, p, x, y)
  {
    BoxMirror(dir, p, m, x - 2, x + 6, y - 2, y + 6, x2 - 2, x2 + 6);
  }

  // ---- Classes ----

  function FlipIdx(t: nat): nat { if t % 2 == 0 then t + 1 else t - 1 }

  function MirrorIdx(t: nat): nat { if t / 2 % 2 == 0 then t + 2 else if t >= 2 then t - 2 else t }

  /** The transpose index records which of each pair of opposite directions is weaker or equal. */
  lemma TransposeBits(sumV: nat, sumH: nat, sumD0: nat, sumD1: nat, shift: nat)
    ensures Classify(sumV, sumH, sumD0, sumD1, shift).transposeIdx
         == (if sumV > sumH then 0 else 1) + (if sumD0 > sumD1 then 0 else 2)
  {
  }

  lemma ClassIgnoresOrder(sumV: nat, sumH: nat, sumD0: nat, sumD1: nat, shift: nat)
    ensures Classify(sumH, sumV, sumD0, sumD1, shift).classIdx == Classify(sumV, sumH, sumD0, sumD1, shift).classIdx
    ensures Classify(sumV, sumH, sumD1, sumD0, shift).classIdx == Classify(sumV, sumH, sumD0, sumD1, shift).classIdx
  {
  }

  /**
   * The transposed block gets the same class; its transpose index flips bit 0 exactly when vertical and
   * horizontal activity differ.
   */
  lemma BlockClassFlip(p: Pic, x: int, y: int, shift: nat)
    ensures var a, b := BlockClass(p, x, y, shift), BlockClass(Flip(p), y, x, shift);
      && b.classIdx == a.classIdx
      && (b.transposeIdx == FlipIdx(a.transposeIdx) <==> Activity(Ver, p, x, y) != Activity(Hor, p, x, y))
      && (Activity(Ver, p, x, y) == Activity(Hor, p, x, y) ==> b.transposeIdx == a.transposeIdx)
  {
    ActivityFlip(Ver, p, x, y);
    ActivityFlip(Hor, p, x, y);
    ActivityFlip(Diag0, p, x, y);
    ActivityFlip(Diag1, p, x, y);
    var v, h := Activity(Ver, p, x, y), Activity(Hor, p, x, y);
    var d0, d1 := Activity(Diag0, p, x, y), Activity(Diag1, p, x, y);
    ClassIgnoresOrder(v, h, d0, d1, shift);
    TransposeBits(v, h, d0, d1, shift);
    TransposeBits(h, v, d0, d1, shift);
  }

  /** The mirrored block gets the same class; its index flips bit 1 exactly when the diagonal activities differ. */
  lemma BlockClassMirror(p: Pic, m: int, x: int, y: int, shift: nat, x2: int)
    requires x2 == m - x - 3
    ensures var a, b := BlockClass(p, x, y, shift), BlockClass(Mirror(p, m), x2, y, shift);
      && b.classIdx == a.classIdx
      && (b.transposeIdx == MirrorIdx(a.transposeIdx) <==> Activity(Diag0, p, x, y) != Activity(Diag1, p, x, y))
      && (Activity(Diag0, p, x, y) == Activity(Diag1, p, x, y) ==> b.transposeIdx == a.transposeIdx)
  {
    ActivityMirror(Ver, p, m, x, y, x2);
    ActivityMirror(Hor, p, m, x, y, x2);
    ActivityMirror(Diag0, p, m, x, y, x2);
    ActivityMirror(Diag1, p, m, x, y, x2);
    var v, h := Activity(Ver, p, x, y), Activity(Hor, p, x, y);
    var d0, d1 := Activity(Diag0, p, x, y), Activity(Diag1, p, x, y);
    ClassIgnoresOrder(v, h, d0, d1, shift);
    TransposeBits(v, h, d0, d1, shift);
    TransposeBits(v, h, d1, d0, shift);
  }

  // ---- Filters ----

  /** Flipping bit 0 of the transpose index is filtering the transposed picture. */
  lemma FilterFlip(ft: FilterType, c: seq<int>, t: nat, p: Pic, x: int, y: int)
    requires |c| >= ft.NumCoeff() && t < 4
    ensures FilterSum(ft, Transposed(ft, c, FlipIdx(t)), Flip(p), y, x) == FilterSum(ft, Transposed(ft, c, t), p, x, y)
  {
  }

  /** Flipping bit 1 is filtering the mirrored picture. */
  lemma FilterMirror(ft: FilterType, c: seq<int>, t: nat, p: Pic, m: int, x: int, y: int, x2: int)
    requires |c| >= ft.NumCoeff() && t < 4 && x2 == m - x
    ensures FilterSum(ft, Transposed(ft, c, MirrorIdx(t)), Mirror(p, m), x2, y)
         == FilterSum(ft, Transposed(ft, c, t), p, x, y)
  {
  }

  lemma FilteredFlip(ft: FilterType, c: seq<int>, t: nat, p: Pic, x: int, y: int, rng: ClpRng)
    requires |c| >= ft.NumCoeff() && t < 4
    ensures FlipIdx(t) < 4 && FlipIdx(FlipIdx(t)) == t
    ensures FilteredSample(ft, c, FlipIdx(t), Flip(p), y, x, rng) == FilteredSample(ft, c, t, p, x, y, rng)
  {
    FilterFlip(ft, c, t, p, x, y);
  }

  lemma FilteredMirror(ft: FilterType, c: seq<int>, t: nat, p: Pic, m: int, x: int, y: int, rng: ClpRng, x2: int)
    requires |c| >= ft.NumCoeff() && t < 4 && x2 == m - x
    ensures MirrorIdx(t) < 4 && MirrorIdx(MirrorIdx(t)) == t
    ensures FilteredSample(ft, c, MirrorIdx(t), Mirror(p, m), x2, y, rng) == FilteredSample(ft, c, t, p, x, y, rng)
  {
    FilterMirror(ft, c, t, p, m, x, y, x2);
  }

  // ---- The pipeline ----

  /**
   * Classifying and filtering the transposed picture: where vertical and horizontal activity differ the output is
   * the transposed output, and where they are equal it is what the flipped index would have given here.
   */
  lemma SampleOfBlockFlip(ft: FilterType, coeff: seq<seq<int>>, p: Pic, ox: int, oy: int, x: int, y: int,
                          shift: nat, rng: ClpRng)
    requires LumaFilters(ft, coeff)
    ensures var cl := BlockClass(p, ox, oy, shift);
      SampleOfBlock(ft, coeff, Flip(p), oy, ox, y, x, shift, rng)
      == FilteredSample(ft, coeff[cl.classIdx],
           if Activity(Ver, p, ox, oy) != Activity(Hor, p, ox, oy) then cl.transposeIdx else FlipIdx(cl.transposeIdx),
           p, x, y, rng)
  {
    var cl := BlockClass(p, ox, oy, shift);
    BlockClassFlip(p, ox, oy, shift);
    FilteredFlip(ft, coeff[cl.classIdx], cl.transposeIdx, p, x, y, rng);
    FilteredFlip(ft, coeff[cl.classIdx], FlipIdx(cl.transposeIdx), p, x, y, rng);
  }

  /** The same for the picture mirrored left to right, with the two diagonal activities. */
  lemma SampleOfBlockMirror(ft: FilterType, coeff: seq<seq<int>>, p: Pic, m: int, ox: int, oy: int, x: int, y: int,
                            shift: nat, rng: ClpRng, ox2: int, x2: int)
    requires LumaFilters(ft, coeff) && ox2 == m - ox - 3 && x2 == m - x
    ensures var cl := BlockClass(p, ox, oy, shift);
      SampleOfBlock(ft, coeff, Mirror(p, m), ox2, oy, x2, y, shift, rng)
      == FilteredSample(ft, coeff[cl.classIdx],
           if Activity(Diag0, p, ox, oy) != Activity(Diag1, p, ox, oy) then cl.transposeIdx else MirrorIdx(cl.transposeIdx),
           p, x, y, rng)
  {
    var cl := BlockClass(p, ox, oy, shift);
    BlockClassMirror(p, m, ox, oy, shift, ox2);
    FilteredMirror(ft, coeff[cl.classIdx], cl.transposeIdx, p, m, x, y, rng, x2);
    FilteredMirror(ft, coeff[cl.classIdx], MirrorIdx(cl.transposeIdx), p, m, x, y, rng, x2);
  }

  lemma OriginMirror(m: int, x: int)
    requires (m + 1) % 4 == 0
    ensures Origin(m - x) == m - Origin(x) - 3
  {
  }

  /** The filtered sample at (x, y) of a picture of w columns and h rows. */
  ghost function AlfLuma(ft: FilterType, coeff: seq<seq<int>>, p: Pic, w: int, h: int, x: int, y: int, shift: nat, rng: ClpRng): int
    requires LumaFilters(ft, coeff)
  {
    LumaSample(ft, coeff, Clamped(p, w, h), x, y, shift, rng)
  }

  /** The filter commutes with transposing a picture at every block whose vertical and horizontal activity differ. */
  lemma AlfCommutesWithFlip(ft: FilterType, coeff: seq<seq<int>>, p: Pic, w: int, h: int, x: int, y: int, shift: nat, rng: ClpRng)
    requires LumaFilters(ft, coeff)
    requires Activity(Ver, Clamped(p, w, h), Origin(x), Origin(y)) != Activity(Hor, Clamped(p, w, h), Origin(x), Origin(y))
    ensures AlfLuma(ft, coeff, Flip(p), h, w, y, x, shift, rng) == AlfLuma(ft, coeff, p, w, h, x, y, shift, rng)
  {
    var c, d := Clamped(Flip(p), h, w), Flip(Clamped(p, w, h));
    assert forall u: int, v: int :: SameAt(c, d, u, v);
    LumaSampleCongruence(ft, coeff, c, d, y, x, shift, rng);
    SampleOfBlockFlip(ft, coeff, Clamped(p, w, h), Origin(x), Origin(y), x, y, shift, rng);
  }

  lemma ClipMirror(m: int, u: int)
    requires m >= 0
    ensures Clip3(0, m, m - u) == m - Clip3(0, m, u)
  {
  }

  /** Mirroring a picture mirrors its continuation beyond the border. */
  lemma ClampedMirror(p: Pic, w: int, h: int, u: int, v: int)
    requires w >= 1
    ensures Clamped(Mirror(p, w - 1), w, h)(u, v) == Mirror(Clamped(p, w, h), w - 1)(u, v)
  {
    ClipMirror(w - 1, u);
  }

  lemma MirroredBlock(ft: FilterType, coeff: seq<seq<int>>, c: Pic, q: Pic, m: int, ox2: int, x2: int, ox: int, oy: int,
                      x: int, y: int, shift: nat, rng: ClpRng)
    requires LumaFilters(ft, coeff)
    requires Activity(Diag0, q, ox, oy) != Activity(Diag1, q, ox, oy)
    requires ox2 == m - ox - 3 && x2 == m - x && ox <= x < ox + 4 && oy <= y < oy + 4
    requires Agree(c, Mirror(q, m), x2 - 7, x2 + 7, y - 7, y + 7)
    ensures SampleOfBlock(ft, coeff, c, ox2, oy, x2, y, shift, rng) == SampleOfBlock(ft, coeff, q, ox, oy, x, y, shift, rng)
  {
    SampleOfBlockCongruence(ft, coeff, c, Mirror(q, m), ox2, oy, x2, y, shift, rng);
    MirroredSample(ft, coeff, q, m, ox2, x2, ox, oy, x, y, shift, rng);
  }

  lemma MirroredSample(ft: FilterType, coeff: seq<seq<int>>, q: Pic, m: int, ox2: int, x2: int, ox: int, oy: int,
                       x: int, y: int, shift: nat, rng: ClpRng)
    requires LumaFilters(ft, coeff)
    requires Activity(Diag0, q, ox, oy) != Activity(Diag1, q, ox, oy)
    requires ox2 == m - ox - 3 && x2 == m - x
    ensures SampleOfBlock(ft, coeff, Mirror(q, m), ox2, oy, x2, y, shift, rng) == SampleOfBlock(ft, coeff, q, ox, oy, x, y, shift, rng)
  {
    SampleOfBlockMirror(ft, coeff, q, m, ox, oy, x, y, shift, rng, ox2, x2);
  }

  /** The filter commutes with mirroring a picture at every block whose diagonal activities differ. */
  lemma AlfCommutesWithMirror(ft: FilterType, coeff: seq<seq<int>>, p: Pic, w: int, h: int, x: int, y: int, shift: nat, rng: ClpRng)
    requires LumaFilters(ft, coeff)
    requires w >= 1 && w % 4 == 0
    requires Activity(Diag0, Clamped(p, w, h), Origin(x), Origin(y)) != Activity(Diag1, Clamped(p, w, h), Origin(x), Origin(y))
    ensures AlfLuma(ft, coeff, Mirror(p, w - 1), w, h, w - 1 - x, y, shift, rng) == AlfLuma(ft, coeff, p, w, h, x, y, shift, rng)
  {
    var c, q := Clamped(Mirror(p, w - 1), w, h), Clamped(p, w, h);
    var d := Mirror(q, w - 1);
    forall u: int, v: int
      ensures SameAt(c, d, u, v)
    {
      ClampedMirror(p, w, h, u, v);
    }
    OriginMirror(w - 1, x);
    MirroredBlock(ft, coeff, c, q, w - 1, Origin(w - 1 - x), w - 1 - x, Origin(x), Origin(y), x, y, shift, rng);
  }

  /** A single bright sample at (a, a), and a filter that only weighs one kind of neighbour. */
  function Spot(a: int): Pic {
    (x, y) => if x == a && y == a then 1 else 0
  }

  const NEIGHBOUR_FILTER: seq<int> := [0, 0, 0, 0, 0, 512, -512]

  /** Where the two activities are equal the filter need not commute: transposing the spot changes nothing, yet ... */
  lemma EqualActivitiesBreakFlip(coeff: seq<seq<int>>, a: int, shift: nat, rng: ClpRng)
    requires LumaFilters(Filter5, coeff) && forall i | 0 <= i < 25 :: coeff[i] == NEIGHBOUR_FILTER
    requires rng.min <= 0 && 1 <= rng.max
    ensures Activity(Ver, Spot(a), a, a) == Activity(Hor, Spot(a), a, a)
    ensures forall x: int, y: int :: SameAt(Flip(Spot(a)), Spot(a), x, y)
    ensures SampleOfBlock(Filter5, coeff, Flip(Spot(a)), a, a, a + 1, a, shift, rng)
         != SampleOfBlock(Filter5, coeff, Spot(a), a, a, a, a + 1, shift, rng)
  {
    SpotIndex(a, shift);
    SampleOfBlockFlip(Filter5, coeff, Spot(a), a, a, a, a + 1, shift, rng);
    SpotFiltered(BlockClass(Spot(a), a, a, shift).transposeIdx, a, rng);
  }

  /**
   * The same on finite pictures, continued beyond their border: of whatever size, with the spot at the corner of any block
   * away from the border, in a picture of 16 columns and rows for example at (8, 8).
   */
  lemma EqualActivitiesBreakAlf(coeff: seq<seq<int>>, w: int, a: int, shift: nat, rng: ClpRng)
    requires LumaFilters(Filter5, coeff) && forall i | 0 <= i < 25 :: coeff[i] == NEIGHBOUR_FILTER
    requires rng.min <= 0 && 1 <= rng.max && 0 < a < w - 1 && a % 4 == 0
    ensures Activity(Ver, Clamped(Spot(a), w, w), a, a) == Activity(Hor, Clamped(Spot(a), w, w), a, a)
    ensures AlfLuma(Filter5, coeff, Flip(Spot(a)), w, w, a + 1, a, shift, rng)
         != AlfLuma(Filter5, coeff, Spot(a), w, w, a, a + 1, shift, rng)
  {
    EqualActivitiesBreakFlip(coeff, a, shift, rng);
    ClampedSpotActivities(a, w);
    OriginOfStart(a);
    ClampedSpotSample(coeff, a, w, a, a + 1, Origin(a), Origin(a + 1), shift, rng);
    ClampedSpotSample(coeff, a, w, a + 1, a, Origin(a + 1), Origin(a), shift, rng);
  }

  lemma OriginOfStart(a: int)
    requires a % 4 == 0
    ensures Origin(a) == a && Origin(a + 1) == a
  {
  }

  lemma ClampedSpotActivities(a: int, w: int)
    requires 0 < a < w - 1
    ensures Activity(Ver, Clamped(Spot(a), w, w), a, a) == Activity(Ver, Spot(a), a, a)
    ensures Activity(Hor, Clamped(Spot(a), w, w), a, a) == Activity(Hor, Spot(a), a, a)
  {
    var p, c := Spot(a), Clamped(Spot(a), w, w);
    forall u: int, v: int
      ensures SameAt(c, p, u, v)
    {
      SpotInside(a, w, u, v);
    }
    SameActivity(Ver, c, p, a, a);
    SameActivity(Hor, c, p, a, a);
  }

  lemma ClampedSpotSample(coeff: seq<seq<int>>, a: int, w: int, x: int, y: int, ox: int, oy: int, shift: nat, rng: ClpRng)
    requires LumaFilters(Filter5, coeff) && 0 < a < w - 1 && ox <= x < ox + 4 && oy <= y < oy + 4
    ensures SampleOfBlock(Filter5, coeff, Clamped(Spot(a), w, w), ox, oy, x, y, shift, rng)
         == SampleOfBlock(Filter5, coeff, Spot(a), ox, oy, x, y, shift, rng)
    ensures SampleOfBlock(Filter5, coeff, Clamped(Flip(Spot(a)), w, w), ox, oy, x, y, shift, rng)
         == SampleOfBlock(Filter5, coeff, Flip(Spot(a)), ox, oy, x, y, shift, rng)
  {
    var p, c, f := Spot(a), Clamped(Spot(a), w, w), Flip(Spot(a));
    var g := Clamped(f, w, w);
    forall u: int, v: int
      ensures SameAt(c, p, u, v) && SameAt(g, f, u, v)
    {
      SpotInside(a, w, u, v);
    }
    SampleOfBlockCongruence(Filter5, coeff, c, p, ox, oy, x, y, shift, rng);
    SampleOfBlockCongruence(Filter5, coeff, g, f, ox, oy, x, y, shift, rng);
  }

  /** A spot away from the border does not show beyond it. */
  lemma SpotInside(a: int, w: int, u: int, v: int)
    requires 0 < a < w - 1
    ensures SameAt(Clamped(Spot(a), w, w), Spot(a), u, v) && SameAt(Clamped(Flip(Spot(a)), w, w), Flip(Spot(a)), u, v)
  {
    var x, y := Clip3(0, w - 1, u), Clip3(0, w - 1, v);
    assert x == a <==> u == a;
    assert y == a <==> v == a;
  }

  lemma SpotIndex(a: int, shift: nat)
    ensures Activity(Ver, Spot(a), a, a) == Activity(Hor, Spot(a), a, a)
    ensures BlockClass(Spot(a), a, a, shift).transposeIdx == 1 || BlockClass(Spot(a), a, a, shift).transposeIdx == 3
  {
    SpotIsBalanced(a);
    var v, h := Activity(Ver, Spot(a), a, a), Activity(Hor, Spot(a), a, a);
    TransposeBits(v, h, Activity(Diag0, Spot(a), a, a), Activity(Diag1, Spot(a), a, a), shift);
  }

  lemma SpotIsBalanced(a: int)
    ensures Activity(Ver, Spot(a), a, a) == Activity(Hor, Spot(a), a, a)
  {
    ActivityFlip(Ver, Spot(a), a, a);
    var p, q := Flip(Spot(a)), Spot(a);
    assert forall u: int, v: int :: SameAt(p, q, u, v);
    SameActivity(Hor, p, q, a, a);
  }

  lemma SameActivity(dir: Direction, p: Pic, q: Pic, x: int, y: int)
    requires Agree(p, q, x - 3, x + 6, y - 3, y + 6)
    ensures Activity(dir, p, x, y) == Activity(dir, q, x, y)
  {
    BoxSumCongruence(dir, p, q, x - 2, x + 6, y - 2, y + 6);
  }

  /** Below the spot only the tap for vertical neighbours sees it. */
  lemma BelowSpot(c: seq<int>, a: int)
    requires |c| >= 7
    ensures FilterSum(Filter5, c, Spot(a), a, a + 1) == c[2]
  {
    var p := Spot(a);
    assert Pair(p, a, a + 1, 0, 1) == 1;
    assert Pair(p, a, a + 1, 0, 2) == Pair(p, a, a + 1, 1, 1) == Pair(p, a, a + 1, -1, 1) == 0;
    assert Pair(p, a, a + 1, 2, 0) == Pair(p, a, a + 1, 1, 0) == p(a, a + 1) == 0;
  }

  lemma SpotFiltered(t: nat, a: int, rng: ClpRng)
    requires (t == 1 || t == 3) && rng.min <= 0 && 1 <= rng.max
    ensures FilteredSample(Filter5, NEIGHBOUR_FILTER, t, Spot(a), a, a + 1, rng) == 1
    ensures FilteredSample(Filter5, NEIGHBOUR_FILTER, FlipIdx(t), Spot(a), a, a + 1, rng) == 0
  {
    BelowSpot(Transposed(Filter5, NEIGHBOUR_FILTER, t), a);
    BelowSpot(Transposed(Filter5, NEIGHBOUR_FILTER, FlipIdx(t)), a);
  }

  /** Two bright samples side by side, in the middle of the block at (a, a), and a filter that only weighs one diagonal. */
  function Bar(a: int): Pic {
    (x, y) => if (x == a + 1 || x == a + 2) && y == a then 1 else 0
  }

  const DIAGONAL_FILTER: seq<int> := [0, 512, 0, 0, 0, 0, -512]

  lemma BarIsBalanced(a: int)
    ensures Activity(Diag0, Bar(a), a, a) == Activity(Diag1, Bar(a), a, a)
  {
    var p, m := Bar(a), 2 * a + 3;
    ActivityMirror(Diag1, p, m, a, a, a);
    forall u: int, v: int
      ensures SameAt(Mirror(p, m), p, u, v)
    {
    }
    SameActivity(Diag0, Mirror(p, m), p, a, a);
  }

  lemma BarIndex(a: int, shift: nat)
    ensures BlockClass(Bar(a), a, a, shift).transposeIdx == 2 || BlockClass(Bar(a), a, a, shift).transposeIdx == 3
  {
    BarIsBalanced(a);
    var p := Bar(a);
    TransposeBits(Activity(Ver, p, a, a), Activity(Hor, p, a, a), Activity(Diag0, p, a, a), Activity(Diag1, p, a, a), shift);
  }

  /** Diagonally below the bar only the tap for one diagonal sees it. */
  lemma BesideBar(c: seq<int>, a: int, x: int, y: int)
    requires |c| >= 7 && x == a + 3 && y == a + 1
    ensures FilterSum(Filter5, c, Bar(a), x, y) == c[1]
  {
    var p := Bar(a);
    assert Pair(p, x, y, 1, 1) == 1;
    assert Pair(p, x, y, 0, 2) == Pair(p, x, y, 0, 1) == Pair(p, x, y, -1, 1) == 0;
    assert Pair(p, x, y, 2, 0) == Pair(p, x, y, 1, 0) == p(x, y) == 0;
  }

  lemma BarFiltered(t: nat, a: int, x: int, y: int, rng: ClpRng)
    requires (t == 2 || t == 3) && rng.min <= 0 && 1 <= rng.max && x == a + 3 && y == a + 1
    ensures FilteredSample(Filter5, DIAGONAL_FILTER, t, Bar(a), x, y, rng) == 0
    ensures FilteredSample(Filter5, DIAGONAL_FILTER, MirrorIdx(t), Bar(a), x, y, rng) == 1
  {
    BesideBar(Transposed(Filter5, DIAGONAL_FILTER, t), a, x, y);
    BesideBar(Transposed(Filter5, DIAGONAL_FILTER, MirrorIdx(t)), a, x, y);
  }

  /** The bar itself gives a dark sample, its mirror image a bright one. */
  lemma MirroredBar(coeff: seq<seq<int>>, a: int, m: int, shift: nat, rng: ClpRng, x: int, y: int, ox2: int, x2: int)
    requires LumaFilters(Filter5, coeff) && forall i | 0 <= i < 25 :: coeff[i] == DIAGONAL_FILTER
    requires rng.min <= 0 && 1 <= rng.max && x == a + 3 && y == a + 1 && ox2 == m - a - 3 && x2 == m - x
    ensures SampleOfBlock(Filter5, coeff, Bar(a), a, a, x, y, shift, rng) == 0
    ensures SampleOfBlock(Filter5, coeff, Mirror(Bar(a), m), ox2, a, x2, y, shift, rng) == 1
  {
    BarIsBalanced(a);
    BarIndex(a, shift);
    SampleOfBlockMirror(Filter5, coeff, Bar(a), m, a, a, x, y, shift, rng, ox2, x2);
    BarFiltered(BlockClass(Bar(a), a, a, shift).transposeIdx, a, x, y, rng);
  }

  /** A bar away from the border, or its mirror image, does not show beyond it. */
  lemma BarInside(a: int, w: int, u: int, v: int)
    requires 0 < a && a + 2 < w - 1
    ensures SameAt(Clamped(Bar(a), w, w), Bar(a), u, v)
    ensures SameAt(Clamped(Mirror(Bar(a), w - 1), w, w), Mirror(Bar(a), w - 1), u, v)
  {
    var x, y := Clip3(0, w - 1, u), Clip3(0, w - 1, v);
    assert (x == a + 1 <==> u == a + 1) && (x == a + 2 <==> u == a + 2);
    assert (w - 1 - x == a + 1 <==> w - 1 - u == a + 1) && (w - 1 - x == a + 2 <==> w - 1 - u == a + 2);
    assert y == a <==> v == a;
  }

  /**
   * Where the two diagonal activities are equal the filter need not commute with mirroring, in pictures of whatever size
   * that consist of whole blocks.
   */
  lemma EqualDiagonalsBreakAlf(coeff: seq<seq<int>>, w: int, a: int, shift: nat, rng: ClpRng)
    requires LumaFilters(Filter5, coeff) && forall i | 0 <= i < 25 :: coeff[i] == DIAGONAL_FILTER
    requires rng.min <= 0 && 1 <= rng.max && 0 < a && a + 2 < w - 1 && a % 4 == 0 && w % 4 == 0
    ensures Activity(Diag0, Clamped(Bar(a), w, w), a, a) == Activity(Diag1, Clamped(Bar(a), w, w), a, a)
    ensures AlfLuma(Filter5, coeff, Mirror(Bar(a), w - 1), w, w, w - 1 - (a + 3), a + 1, shift, rng)
         != AlfLuma(Filter5, coeff, Bar(a), w, w, a + 3, a + 1, shift, rng)
  {
    BarStaysBalanced(a, w);
    BarOutputs(coeff, w, a, shift, rng);
  }

  lemma BarStaysBalanced(a: int, w: int)
    requires 0 < a && a + 2 < w - 1
    ensures Activity(Diag0, Clamped(Bar(a), w, w), a, a) == Activity(Diag1, Clamped(Bar(a), w, w), a, a)
  {
    ClampedBarActivities(a, w);
    BarIsBalanced(a);
  }

  lemma BarOutputs(coeff: seq<seq<int>>, w: int, a: int, shift: nat, rng: ClpRng)
    requires LumaFilters(Filter5, coeff) && forall i | 0 <= i < 25 :: coeff[i] == DIAGONAL_FILTER
    requires rng.min <= 0 && 1 <= rng.max && 0 < a && a + 2 < w - 1 && a % 4 == 0 && w % 4 == 0
    ensures AlfLuma(Filter5, coeff, Mirror(Bar(a), w - 1), w, w, w - 1 - (a + 3), a + 1, shift, rng) == 1
    ensures AlfLuma(Filter5, coeff, Bar(a), w, w, a + 3, a + 1, shift, rng) == 0
  {
    OriginOfBar(a, w);
    var x, x2, y := a + 3, w - 1 - (a + 3), a + 1;
    BarSamples(coeff, w, a, x, x2, y, shift, rng);
  }

  lemma BarSamples(coeff: seq<seq<int>>, w: int, a: int, x: int, x2: int, y: int, shift: nat, rng: ClpRng)
    requires LumaFilters(Filter5, coeff) && forall i | 0 <= i < 25 :: coeff[i] == DIAGONAL_FILTER
    requires rng.min <= 0 && 1 <= rng.max && 0 < a && a + 2 < w - 1
    requires x == a + 3 && x2 == w - 1 - x && y == a + 1 && Origin(x) == a && Origin(y) == a && Origin(x2) == w - 1 - a - 3
    ensures AlfLuma(Filter5, coeff, Bar(a), w, w, x, y, shift, rng) == 0
    ensures AlfLuma(Filter5, coeff, Mirror(Bar(a), w - 1), w, w, x2, y, shift, rng) == 1
  {
    var ox2, mirrored := Origin(x2), Mirror(Bar(a), w - 1);
    OriginBounds(x2);
    MirroredBar(coeff, a, w - 1, shift, rng, x, y, ox2, x2);
    ClampedBarSamples(coeff, a, w, a, x, ox2, x2, a, y, shift, rng);
    AlfLumaAt(Filter5, coeff, Bar(a), w, w, a, a, x, y, shift, rng);
    AlfLumaAt(Filter5, coeff, mirrored, w, w, ox2, a, x2, y, shift, rng);
  }

  lemma AlfLumaAt(ft: FilterType, coeff: seq<seq<int>>, p: Pic, w: int, h: int, ox: int, oy: int, x: int, y: int, shift: nat, rng: ClpRng)
    requires LumaFilters(ft, coeff) && ox == Origin(x) && oy == Origin(y)
    ensures AlfLuma(ft, coeff, p, w, h, x, y, shift, rng) == SampleOfBlock(ft, coeff, Clamped(p, w, h), ox, oy, x, y, shift, rng)
  {
  }

  lemma ClampedBarActivities(a: int, w: int)
    requires 0 < a && a + 2 < w - 1
    ensures Activity(Diag0, Clamped(Bar(a), w, w), a, a) == Activity(Diag0, Bar(a), a, a)
    ensures Activity(Diag1, Clamped(Bar(a), w, w), a, a) == Activity(Diag1, Bar(a), a, a)
  {
    var p, c := Bar(a), Clamped(Bar(a), w, w);
    forall u: int, v: int
      ensures SameAt(c, p, u, v)
    {
      BarInside(a, w, u, v);
    }
    SameActivity(Diag0, c, p, a, a);
    SameActivity(Diag1, c, p, a, a);
  }

  lemma ClampedBarSamples(coeff: seq<seq<int>>, a: int, w: int, ox: int, x: int, ox2: int, x2: int, oy: int, y: int, shift: nat, rng: ClpRng)
    requires LumaFilters(Filter5, coeff) && 0 < a && a + 2 < w - 1
    requires ox <= x < ox + 4 && ox2 <= x2 < ox2 + 4 && oy <= y < oy + 4
    ensures SampleOfBlock(Filter5, coeff, Clamped(Bar(a), w, w), ox, oy, x, y, shift, rng)
         == SampleOfBlock(Filter5, coeff, Bar(a), ox, oy, x, y, shift, rng)
    ensures SampleOfBlock(Filter5, coeff, Clamped(Mirror(Bar(a), w - 1), w, w), ox2, oy, x2, y, shift, rng)
         == SampleOfBlock(Filter5, coeff, Mirror(Bar(a), w - 1), ox2, oy, x2, y, shift, rng)
  {
    var p, c, m := Bar(a), Clamped(Bar(a), w, w), Mirror(Bar(a), w - 1);
    var g := Clamped(m, w, w);
    forall u: int, v: int
      ensures SameAt(c, p, u, v) && SameAt(g, m, u, v)
    {
      BarInside(a, w, u, v);
    }
    SampleOfBlockCongruence(Filter5, coeff, c, p, ox, oy, x, y, shift, rng);
    SampleOfBlockCongruence(Filter5, coeff, g, m, ox2, oy, x2, y, shift, rng);
  }

  lemma OriginOfBar(a: int, w: int)
    requires a % 4 == 0 && w % 4 == 0
    ensures Origin(a + 3) == a && Origin(a + 1) == a && Origin(w - 1 - (a + 3)) == w - 1 - a - 3
  {
  }
}
