/** The whole adaptive loop filter: CTU by CTU, from a copy of the picture with its border continued. */
module AdaptiveLoopFilter {
  import opened Arithmetic
  import opened StridedBlock
  import opened AlfSpec
  import opened Clipping
  import opened AlfCoeff
  import opened AlfClassification
  import opened AlfFilter
  import opened AlfSymmetry
  import opened PicturePlane

  // ---- CTUs ----

  /** How many CTUs of size m cover w samples. */
  function CtusAcross(w: nat, m: nat): nat
    requires m >= 1
  {
    w / m + if w % m != 0 then 1 else 0
  }

  /** The raster index of the CTU that holds luma sample (x, y). */
  function CtuIndex(x: nat, y: nat, w: nat, m: nat, n: nat): nat
    requires m >= 1 && n >= 1
  {
    (y / n) * CtusAcross(w, m) + x / m
  }

  lemma CtuIndexAt(x: nat, y: nat, w: nat, m: nat, n: nat, col: nat, row: nat)
    requires m >= 1 && n >= 1
    requires Area(m, col) <= x < Area(m, col) + m && Area(n, row) <= y < Area(n, row) + n
    ensures CtuIndex(x, y, w, m, n) == Area(CtusAcross(w, m), row) + col
  {
    AreaIsProduct(m, col);
    AreaIsProduct(n, row);
    AreaIsProduct(CtusAcross(w, m), row);
    DivUnique(x, m, col);
    DivUnique(y, n, row);
  }

  /** Only positions in the CTU have its index. */
  lemma CtuIndexIff(x: nat, y: nat, w: nat, m: nat, n: nat, col: nat, row: nat)
    requires m >= 1 && n >= 1 && x < w && col < CtusAcross(w, m)
    ensures CtuIndex(x, y, w, m, n) == Area(CtusAcross(w, m), row) + col
      <==> Area(m, col) <= x < Area(m, col) + m && Area(n, row) <= y < Area(n, row) + n
  {
    if CtuIndex(x, y, w, m, n) == Area(CtusAcross(w, m), row) + col {
      StartOfUnit(x, m);
      StartOfUnit(y, n);
      ColumnExists(w, m, x / m);
      AreaIsProduct(CtusAcross(w, m), row);
      SameQuotient(CtusAcross(w, m), y / n, x / m, row, col);
    } else if Area(m, col) <= x < Area(m, col) + m && Area(n, row) <= y < Area(n, row) + n {
      CtuIndexAt(x, y, w, m, n, col, row);
    }
  }

  lemma SameQuotient(n: nat, q: nat, r: nat, q2: nat, r2: nat)
    requires r < n && r2 < n && q * n + r == q2 * n + r2
    ensures q == q2 && r == r2
  {
    DivUnique(q * n + r, n, q);
    DivUnique(q * n + r, n, q2);
  }

  /** CTU column col begins inside the picture exactly when there is such a column. */
  lemma ColumnExists(w: nat, m: nat, col: nat)
    requires m >= 1
    ensures Area(m, col) < w <==> col < CtusAcross(w, m)
  {
    AreaIsProduct(m, col);
    var q := w / m;
    assert w == q * m + w % m;
    if col < q {
      MulMono(col + 1, q, m);
    } else if col > q {
      MulMono(q + 1, col, m);
    }
  }

  lemma CtuIndexInRange(x: nat, y: nat, w: nat, h: nat, m: nat, n: nat)
    requires m >= 1 && n >= 1 && x < w && y < h
    ensures CtuIndex(x, y, w, m, n) < Area(CtusAcross(w, m), CtusAcross(h, n))
  {
    var col, row: nat := x / m, y / n;
    StartOfUnit(x, m);
    StartOfUnit(y, n);
    CtuIndexAt(x, y, w, m, n, col, row);
    ColumnExists(w, m, col);
    ColumnExists(h, n, row);
    IndexInRange(CtusAcross(w, m), CtusAcross(h, n), col, row);
  }

  lemma StartOfUnit(x: nat, m: nat)
    requires m >= 1
    ensures x / m >= 0 && Area(m, x / m) <= x < Area(m, x / m) + m
  {
    DivNonNegative(x, m);
    AreaIsProduct(m, x / m);
  }

  lemma IndexInRange(nx: nat, ny: nat, col: nat, row: nat)
    requires col < nx && row < ny
    ensures Area(nx, row) + col < Area(nx, ny)
  {
    AreaMono(nx, row + 1, ny);
  }

  lemma IndexParts(i: nat, nx: nat, ny: nat, col: nat, row: nat)
    requires nx >= 1 && i < Area(nx, ny) && col == i % nx && row == i / nx
    ensures col < nx && row < ny && i == Area(nx, row) + col
  {
    AreaIsProduct(nx, row);
    AreaIsProduct(nx, ny);
    assert i == row * nx + col;
    if row >= ny {
      MulMono(ny, row, nx);
    }
  }

  lemma {:induction false} NoArea(n: nat)
    ensures Area(0, n) == 0
  {
    if n == 0 {
    } else {
      NoArea(n - 1);
    }
  }

  /** The CTUs before the n-th in raster order. */
  ghost function UpTo(n: nat): set<nat> {
    if n == 0 then {} else UpTo(n - 1) + {n - 1}
  }

  lemma {:induction false} UpToHolds(n: nat, i: nat)
    ensures i in UpTo(n) <==> i < n
  {
    if n == 0 {
    } else {
      UpToHolds(n - 1, i);
    }
  }

  lemma VisitedAll(order: seq<nat>, n: nat)
    requires forall i: nat :: i in order <==> i < n
    ensures Visited(order) == UpTo(n)
  {
    forall i: nat ensures i in Visited(order) <==> i in UpTo(n) {
      UpToHolds(n, i);
    }
  }

  ghost function Visited(order: seq<nat>): set<nat> {
    set i | i in order
  }

  // ---- Component planes ----

  /** A luma coordinate or length in a plane subsampled by 2 to the scale: `>> scale`. */
  function Down(v: nat, scale: nat): nat
    requires scale <= 1
  {
    if scale == 0 then v else v / 2
  }

  /** The luma coordinate of a plane coordinate. */
  function Up(v: nat, scale: nat): nat
    requires scale <= 1
  {
    if scale == 0 then v else 2 * v
  }

  /** Whole 4x4 blocks in a plane subsampled by 2 to the scale: what `filterBlk` checks. */
  predicate Aligned(v: nat, scale: nat)
    requires scale <= 1
  {
    if scale == 0 then v % 4 == 0 else v % 8 == 0
  }

  lemma OctetHalf(v: nat)
    requires v % 8 == 0
    ensures v / 2 % 4 == 0
  {
    var q := v / 8;
    assert v / 2 == 4 * q;
  }

  lemma HalfRange(pos: nat, len: nat, v: nat)
    requires pos % 8 == 0 && len % 8 == 0
    ensures pos / 2 <= v < pos / 2 + len / 2 <==> pos <= 2 * v < pos + len
  {
    var p, q := pos / 8, len / 8;
    assert pos == 8 * p && len == 8 * q;
    assert pos / 2 == 4 * p && len / 2 == 4 * q;
  }

  lemma AlignedParts(pos: nat, len: nat, scale: nat, v: nat)
    requires scale <= 1 && Aligned(pos, scale) && Aligned(len, scale)
    ensures Down(pos, scale) % 4 == 0 && Down(len, scale) % 4 == 0
    ensures Down(pos, scale) <= v < Down(pos, scale) + Down(len, scale) <==> pos <= Up(v, scale) < pos + len
  {
    if scale == 1 {
      OctetHalf(pos);
      OctetHalf(len);
      HalfRange(pos, len, v);
    }
  }

  lemma FourTimes(q: int)
    ensures 4 * q % 4 == 0
  {
  }

  lemma EightTimes(q: int)
    ensures 8 * q % 8 == 0
  {
  }

  lemma AlignedSum(v: nat, u: nat, scale: nat)
    requires scale <= 1 && Aligned(v, scale) && Aligned(u, scale)
    ensures Aligned(v + u, scale) && (u <= v ==> Aligned(v - u, scale))
  {
    if scale == 0 {
      var a, b := v / 4, u / 4;
      assert v == 4 * a && u == 4 * b;
      FourTimes(a + b);
      FourTimes(a - b);
    } else {
      var a, b := v / 8, u / 8;
      assert v == 8 * a && u == 8 * b;
      EightTimes(a + b);
      EightTimes(a - b);
    }
  }

  lemma AlignedIsQuad(v: nat, scale: nat)
    requires scale <= 1 && Aligned(v, scale)
    ensures v % 4 == 0
  {
    if scale == 1 {
      var q := v / 8;
      assert v == 4 * (2 * q);
    }
  }

  lemma {:induction false} AlignedArea(m: nat, n: nat, scale: nat)
    requires scale <= 1 && Aligned(m, scale)
    ensures Aligned(Area(m, n), scale)
  {
    if n == 0 {
    } else {
      AlignedArea(m, n - 1, scale);
      AlignedSum(m, Area(m, n - 1), scale);
    }
  }

  /** A CTU ends where the next begins or with the picture. */
  lemma NextAligned(w: nat, m: nat, pos: nat, len: nat, scale: nat)
    requires scale <= 1 && Aligned(w, scale) && Aligned(m, scale) && Aligned(pos, scale) && pos < w
    requires len == if pos + m > w then w - pos else m
    ensures Aligned(pos + m, scale) && Aligned(len, scale)
    ensures pos + len == Min(pos + m, w) && len <= m
  {
    AlignedSum(pos, m, scale);
    AlignedSum(w, pos, scale);
  }

  /** The filters of the 25 classes. */
  ghost function FiltersOf(coeffFinal: seq<int>): (coeff: seq<seq<int>>)
    requires |coeffFinal| == 325
    ensures |coeff| == 25 && forall c | 0 <= c < 25 :: coeff[c] == ClassFilter(coeffFinal, c)
  {
    seq(25, c requires 0 <= c < 25 => ClassFilter(coeffFinal, c))
  }

  /** On a classified area the block filter's target is the filtered luma sample. */
  lemma TargetIsLumaSample(ft: FilterType, classifier: array2<AlfClassifier>, filterSet: array<int>, p: Pic, shift: nat, rng: ClpRng,
                           posX: nat, posY: nat, x1: nat, y1: nat, x: nat, y: nat)
    requires posX % 4 == 0 && posY % 4 == 0 && posX <= x < x1 && posY <= y < y1
    requires Usable(ft, false, classifier, filterSet, x1, y1)
    requires Classified(classifier, p, shift, posX, posY, posX, x1, posY, y1)
    ensures classifier[y - y % 4, x - x % 4].classIdx < 25
    ensures LumaFilters(ft, FiltersOf(filterSet[..]))
    ensures Target(ft, false, classifier, filterSet, p, x, y, rng)
         == LumaSample(ft, FiltersOf(filterSet[..]), p, x, y, shift, rng)
  {
    StartOfStart(posX, x);
    StartOfStart(posY, y);
    var cl := classifier[y - y % 4, x - x % 4];
    assert cl == BlockClass(p, Origin(x), Origin(y), shift);
    assert FiltersOf(filterSet[..])[cl.classIdx] == filterSet[cl.classIdx * 13..cl.classIdx * 13 + 13];
  }

  /**
   * With rebuilt coefficients, whatever the class: where all samples within three of (x, y) are equal and in range
   * the filter changes nothing.
   */
  lemma FlatLumaIsFixed(slice: AlfSliceParam, coded: seq<int>, final: seq<int>, p: Pic, x: int, y: int, shift: nat, rng: ClpRng)
    requires HandedOut(slice, coded, final)
    requires forall c | 0 <= c < 25 :: slice.filterCoeffDeltaIdx[c] < slice.numLumaFilters
    requires forall u: int, v: int | x - 3 <= u <= x + 3 && y - 3 <= v <= y + 3 :: p(u, v) == p(x, y)
    requires rng.min <= p(x, y) <= rng.max
    ensures LumaFilters(slice.lumaFilterType, FiltersOf(final))
    ensures LumaSample(slice.lumaFilterType, FiltersOf(final), p, x, y, shift, rng) == p(x, y)
  {
    var cl := BlockClass(p, Origin(x), Origin(y), shift);
    RebuiltFiltersAreNormalised(slice, coded, final, cl.classIdx);
    FlatAreasAreFixed(slice.lumaFilterType, ClassFilter(final, cl.classIdx), cl.transposeIdx, p, x, y, rng);
  }

  lemma StartOfStart(o: nat, v: nat)
    requires o % 4 == 0 && o <= v
    ensures v - v % 4 >= o && BlockStart(o, v - v % 4) == Origin(v)
  {
  }

  class AdaptiveLoopFilter {
    const coeffFinal: array<int>
    const classifier: array2<AlfClassifier>
    const laplacian: Laplacians
    const tempBuf: seq<Plane>
    const picWidth: nat
    const picHeight: nat
    const maxCUWidth: nat
    const maxCUHeight: nat
    const scaleX: nat
    const scaleY: nat
    const inputBitDepth: nat

    /** `create`: scratch arrays, classifier and a picture buffer with a margin of three samples. */
    constructor (width: nat, height: nat, maxWidth: nat, maxHeight: nat, chromaScaleX: nat, chromaScaleY: nat, bitDepth: nat)
      requires chromaScaleX <= 1 && chromaScaleY <= 1 && width >= 1 && height >= 1 && maxWidth >= 1 && maxHeight >= 1
      requires Aligned(width, chromaScaleX) && Aligned(height, chromaScaleY)
      requires Aligned(maxWidth, chromaScaleX) && Aligned(maxHeight, chromaScaleY)
      ensures Valid() && picWidth == width && picHeight == height && maxCUWidth == maxWidth && maxCUHeight == maxHeight
      ensures scaleX == chromaScaleX && scaleY == chromaScaleY && inputBitDepth == bitDepth
    {
      picWidth, picHeight, maxCUWidth, maxCUHeight := width, height, maxWidth, maxHeight;
      scaleX, scaleY, inputBitDepth := chromaScaleX, chromaScaleY, bitDepth;
      var ver, hor := new int[37, 37], new int[37, 37];
      var dig0, dig1 := new int[37, 37], new int[37, 37];
      laplacian := Laplacians(ver, hor, dig0, dig1);
      coeffFinal := new int[325];
      classifier := new AlfClassifier[height, width];
      var w, h := Down(width, chromaScaleX), Down(height, chromaScaleY);
      var luma := new Plane(width, height, 3, width + 6);
      var cb := new Plane(w, h, 3, w + 6);
      var cr := new Plane(w, h, 3, w + 6);
      tempBuf := [luma, cb, cr];
    }

    predicate Valid() {
      && coeffFinal.Length == 325
      && classifier.Length0 == picHeight && classifier.Length1 == picWidth
      && laplacian.Valid()
      && |tempBuf| == 3
      && scaleX <= 1 && scaleY <= 1
      && maxCUWidth >= 1 && maxCUHeight >= 1
      && Aligned(picWidth, scaleX) && Aligned(picHeight, scaleY)
      && Aligned(maxCUWidth, scaleX) && Aligned(maxCUHeight, scaleY)
      && (forall c | 0 <= c < 3 :: IsPlane(c, tempBuf[c]) && tempBuf[c].margin == 3 && Apart(laplacian, tempBuf[c]))
      && tempBuf[0].buf != tempBuf[1].buf && tempBuf[0].buf != tempBuf[2].buf && tempBuf[1].buf != tempBuf[2].buf
    }

    function ScaleX(c: nat): nat { if c == 0 then 0 else scaleX }

    function ScaleY(c: nat): nat { if c == 0 then 0 else scaleY }

    /** A buffer of component c. */
    predicate IsPlane(c: nat, b: Plane)
      requires scaleX <= 1 && scaleY <= 1
    {
      b.Valid() && b.width == Down(picWidth, ScaleX(c)) && b.height == Down(picHeight, ScaleY(c))
    }

    /** The buffers of a picture to filter. */
    predicate IsPicture(rec: seq<Plane>)
      requires Valid()
    {
      && |rec| == 3
      && (forall c | 0 <= c < 3 :: IsPlane(c, rec[c]) && Apart(laplacian, rec[c]))
      && (forall c, d | 0 <= c < 3 && 0 <= d < 3 :: rec[c].buf != tempBuf[d].buf)
      && rec[0].buf != rec[1].buf && rec[0].buf != rec[2].buf && rec[1].buf != rec[2].buf
    }

    /** The copy of component c shows its picture, continued three samples beyond the border. */
    ghost predicate Extended(c: nat, p: Pic)
      requires Valid() && c < 3
      reads tempBuf[c].buf
    {
      var b := tempBuf[c];
      b.Shows(Clamped(p, b.width, b.height), -3, b.width + 3, -3, b.height + 3)
    }

    /** Luma sample (x, y) of picture p filtered with the classes' filters. */
    ghost function FilteredLuma(ft: FilterType, rng: ClpRng, p: Pic, x: int, y: int): int
      requires Valid() && LumaFilters(ft, FiltersOf(coeffFinal[..]))
      reads coeffFinal
    {
      AlfLuma(ft, FiltersOf(coeffFinal[..]), p, picWidth, picHeight, x, y, inputBitDepth + 4, rng)
    }

    /**
     * The luma filter from the picture on: the activities of the sample's block, with coordinates clamped to the picture,
     * choose a class and a transposition, and the sample becomes the value in range nearest to the rounded sum.
     */
    lemma LumaResult(ft: FilterType, rng: ClpRng, p: Pic, x: int, y: int, q: Pic, v: nat, h: nat, d0: nat, d1: nat)
      returns (cl: nat, t: nat, r: int)
      requires Valid() && LumaFilters(ft, FiltersOf(coeffFinal[..])) && rng.min <= rng.max && q == Clamped(p, picWidth, picHeight)
      requires v == Activity(Ver, q, Origin(x), Origin(y)) && h == Activity(Hor, q, Origin(x), Origin(y))
      requires d0 == Activity(Diag0, q, Origin(x), Origin(y)) && d1 == Activity(Diag1, q, Origin(x), Origin(y))
      ensures cl < 25 && cl == Classify(v, h, d0, d1, inputBitDepth + 4).classIdx
      ensures t == (if v > h then 0 else 1) + (if d0 > d1 then 0 else 2)
      ensures 512 * r - 256 <= FilterSum(ft, Transposed(ft, ClassFilter(coeffFinal[..], cl), t), q, x, y) < 512 * r + 256
      ensures Nearest(FilteredLuma(ft, rng, p, x, y), r, rng)
    {
      var c := Classify(v, h, d0, d1, inputBitDepth + 4);
      TransposeBits(v, h, d0, d1, inputBitDepth + 4);
      cl, t := c.classIdx, c.transposeIdx;
      var f := ClassFilter(coeffFinal[..], cl);
      r := Rounded(FilterSum(ft, Transposed(ft, f, t), q, x, y));
      RoundedIsNearest(FilterSum(ft, Transposed(ft, f, t), q, x, y), r);
      FilteredSampleIsNearest(ft, f, t, q, x, y, rng, r);
    }

    /** The luma plane with every CTU filtered. */
    ghost predicate IsFilteredLuma(ft: FilterType, rng: ClpRng, p: Pic, filtered: Pic)
      requires Valid()
      reads coeffFinal
    {
      && LumaFilters(ft, FiltersOf(coeffFinal[..]))
      && forall x: nat, y: nat {:trigger FilteredLuma(ft, rng, p, x, y)} | x < picWidth && y < picHeight ::
        filtered(x, y) == FilteredLuma(ft, rng, p, x, y)
    }

    lemma LumaTargets(ft: FilterType, rng: ClpRng, xPos: nat, yPos: nat, x1: nat, y1: nat, p: Pic, filtered: Pic)
      requires Valid() && IsFilteredLuma(ft, rng, p, filtered)
      requires xPos % 4 == 0 && yPos % 4 == 0 && x1 <= picWidth && y1 <= picHeight
      requires Classified(classifier, Clamped(p, picWidth, picHeight), inputBitDepth + 4, xPos, yPos, xPos, x1, yPos, y1)
      ensures forall x: nat, y: nat | xPos <= x < x1 && yPos <= y < y1 ::
        classifier[y - y % 4, x - x % 4].classIdx < 25
        && Target(ft, false, classifier, coeffFinal, Clamped(p, picWidth, picHeight), x, y, rng) == filtered(x, y)
    {
      forall x: nat, y: nat | xPos <= x < x1 && yPos <= y < y1
        ensures classifier[y - y % 4, x - x % 4].classIdx < 25
        ensures Target(ft, false, classifier, coeffFinal, Clamped(p, picWidth, picHeight), x, y, rng) == filtered(x, y)
      {
        LumaTargetAt(ft, rng, xPos, yPos, x1, y1, p, filtered, x, y);
      }
    }

    lemma LumaTargetAt(ft: FilterType, rng: ClpRng, xPos: nat, yPos: nat, x1: nat, y1: nat, p: Pic, filtered: Pic, x: nat, y: nat)
      requires Valid() && IsFilteredLuma(ft, rng, p, filtered)
      requires xPos % 4 == 0 && yPos % 4 == 0 && x1 <= picWidth && y1 <= picHeight && xPos <= x < x1 && yPos <= y < y1
      requires Classified(classifier, Clamped(p, picWidth, picHeight), inputBitDepth + 4, xPos, yPos, xPos, x1, yPos, y1)
      ensures classifier[y - y % 4, x - x % 4].classIdx < 25
      ensures Target(ft, false, classifier, coeffFinal, Clamped(p, picWidth, picHeight), x, y, rng) == filtered(x, y)
    {
      TargetIsLumaSample(ft, classifier, coeffFinal, Clamped(p, picWidth, picHeight), inputBitDepth + 4, rng,
                         xPos, yPos, x1, y1, x, y);
      assert filtered(x, y) == FilteredLuma(ft, rng, p, x, y);
    }

    /** Classifies and filters one luma CTU. */
    method FilterLumaCtu(rec: Plane, ft: FilterType, rng: ClpRng, xPos: nat, yPos: nat, width: nat, height: nat,
                         ghost p: Pic, ghost filtered: Pic)
      requires Valid() && IsPlane(0, rec) && rec.buf != tempBuf[0].buf && Apart(laplacian, rec)
      requires Extended(0, p) && IsFilteredLuma(ft, rng, p, filtered)
      requires xPos % 4 == 0 && yPos % 4 == 0 && width % 4 == 0 && height % 4 == 0
      requires xPos + width <= picWidth && yPos + height <= picHeight
      modifies rec.buf, classifier, laplacian.ver, laplacian.hor, laplacian.dig0, laplacian.dig1
      ensures forall x: int, y: int | rec.Inside(x, y) ::
        rec.At(x, y) == if xPos <= x < xPos + width && yPos <= y < yPos + height then filtered(x, y) else old(rec.At(x, y))
    {
      ghost var q := Clamped(p, picWidth, picHeight);
      DeriveClassification(classifier, laplacian, tempBuf[0], q, xPos, yPos, width, height, inputBitDepth + 4);
      LumaTargets(ft, rng, xPos, yPos, xPos + width, yPos + height, p, filtered);
      FilterBlk(ft, false, classifier, rec, tempBuf[0], q, xPos, yPos, width, height, coeffFinal, rng);
    }

    /** A chroma plane with every CTU filtered: one filter, no classes. */
    ghost predicate IsFilteredChroma(c: nat, chromaCoeff: array<int>, rng: ClpRng, p: Pic, filtered: Pic)
      requires Valid() && c < 3
      reads chromaCoeff
    {
      && chromaCoeff.Length == 7
      && forall x: nat, y: nat | x < tempBuf[c].width && y < tempBuf[c].height ::
        filtered(x, y)
        == FilteredSample(Filter5, chromaCoeff[..7], 0, Clamped(p, tempBuf[c].width, tempBuf[c].height), x, y, rng)
    }

    /** Filters one chroma CTU. */
    method FilterChromaCtu(c: nat, rec: Plane, chromaCoeff: array<int>, rng: ClpRng,
                           xPos: nat, yPos: nat, width: nat, height: nat, ghost p: Pic, ghost filtered: Pic)
      requires Valid() && 1 <= c < 3 && IsPlane(c, rec) && rec.buf != tempBuf[c].buf
      requires Extended(c, p) && IsFilteredChroma(c, chromaCoeff, rng, p, filtered)
      requires xPos % 4 == 0 && yPos % 4 == 0 && width % 4 == 0 && height % 4 == 0
      requires xPos + width <= rec.width && yPos + height <= rec.height
      modifies rec.buf
      ensures forall x: int, y: int | rec.Inside(x, y) ::
        rec.At(x, y) == if xPos <= x < xPos + width && yPos <= y < yPos + height then filtered(x, y) else old(rec.At(x, y))
    {
      FilterBlk(Filter5, true, classifier, rec, tempBuf[c], Clamped(p, rec.width, rec.height), xPos, yPos, width, height,
                chromaCoeff, rng);
    }

    // ---- CTU by CTU ----

    function CtusInWidth(): nat
      requires Valid()
    {
      CtusAcross(picWidth, maxCUWidth)
    }

    function CtusInHeight(): nat
      requires Valid()
    {
      CtusAcross(picHeight, maxCUHeight)
    }

    function CtuCount(): nat
      requires Valid()
    {
      Area(CtusInWidth(), CtusInHeight())
    }

    /** One flag per CTU. */
    predicate IsFlags(flags: seq<bool>)
      requires Valid()
    {
      |flags| == CtuCount()
    }

    /** The index of the CTU that sample (x, y) of component c belongs to. */
    function CtuOf(c: nat, x: nat, y: nat): nat
      requires Valid()
    {
      CtuIndex(Up(x, ScaleX(c)), Up(y, ScaleY(c)), picWidth, maxCUWidth, maxCUHeight)
    }

    /** Plane c while CTUs are visited: the samples of those visited are as wanted, the others still those of p. */
    ghost predicate Progress(c: nat, b: Plane, p: Pic, want: Pic, done: set<nat>)
      requires Valid() && IsPlane(c, b)
      reads b.buf
    {
      forall x: nat, y: nat | x < b.width && y < b.height ::
        b.At(x, y) == if CtuOf(c, x, y) in done then want(x, y) else p(x, y)
    }

    /** Filtered where the CTU's flag is set, untouched elsewhere. */
    ghost predicate Wanted(c: nat, flags: seq<bool>, p: Pic, filtered: Pic, want: Pic)
      requires Valid() && c < 3
    {
      forall x: nat, y: nat | x < tempBuf[c].width && y < tempBuf[c].height ::
        CtuOf(c, x, y) < |flags| && want(x, y) == if flags[CtuOf(c, x, y)] then filtered(x, y) else p(x, y)
    }

    /** On one CTU what is wanted is the filtered picture or, if the CTU is not enabled, p. */
    ghost predicate WantedInCtu(c: nat, b: Plane, ctuIdx: nat, enabled: bool, p: Pic, filtered: Pic, want: Pic)
      requires Valid() && IsPlane(c, b)
    {
      forall x: nat, y: nat | x < b.width && y < b.height && CtuOf(c, x, y) == ctuIdx ::
        want(x, y) == if enabled then filtered(x, y) else p(x, y)
    }

    /** A CTU: luma position and size, on whole blocks. */
    predicate IsCtu(xPos: nat, yPos: nat, width: nat, height: nat)
      requires Valid()
    {
      && Aligned(xPos, scaleX) && Aligned(yPos, scaleY) && Aligned(width, scaleX) && Aligned(height, scaleY)
      && xPos + width <= picWidth && yPos + height <= picHeight
    }

    ghost predicate InCtu(c: nat, x: nat, y: nat, xPos: nat, yPos: nat, width: nat, height: nat)
      requires Valid()
    {
      xPos <= Up(x, ScaleX(c)) < xPos + width && yPos <= Up(y, ScaleY(c)) < yPos + height
    }

    /** The samples of component c in this rectangle are those of the CTU. */
    ghost predicate Covers(c: nat, b: Plane, ctuIdx: nat, xPos: nat, yPos: nat, width: nat, height: nat)
      requires Valid() && IsPlane(c, b)
    {
      forall x: nat, y: nat | x < b.width && y < b.height :: InCtu(c, x, y, xPos, yPos, width, height) <==> CtuOf(c, x, y) == ctuIdx
    }

    lemma UpInside(c: nat, b: Plane, x: nat, y: nat)
      requires Valid() && IsPlane(c, b) && x < b.width && y < b.height
      ensures Up(x, ScaleX(c)) < picWidth && Up(y, ScaleY(c)) < picHeight
    {
    }

    /** The CTU in column col and row row, cut off at the picture's right and bottom edge. */
    lemma CtuCovers(c: nat, b: Plane, ctuIdx: nat, col: nat, row: nat, xPos: nat, yPos: nat, width: nat, height: nat)
      requires Valid() && IsPlane(c, b) && ctuIdx == Area(CtusInWidth(), row) + col && col < CtusInWidth()
      requires xPos == Area(maxCUWidth, col) && xPos + width == Min(xPos + maxCUWidth, picWidth)
      requires yPos == Area(maxCUHeight, row) && yPos + height == Min(yPos + maxCUHeight, picHeight)
      ensures Covers(c, b, ctuIdx, xPos, yPos, width, height)
    {
      forall x: nat, y: nat | x < b.width && y < b.height
        ensures InCtu(c, x, y, xPos, yPos, width, height) <==> CtuOf(c, x, y) == ctuIdx
      {
        UpInside(c, b, x, y);
        CtuIndexIff(Up(x, ScaleX(c)), Up(y, ScaleY(c)), picWidth, maxCUWidth, maxCUHeight, col, row);
      }
    }

    /** A CTU's samples have become what is wanted and no others have changed: the plane is one CTU further. */
    twostate lemma Advance(new c: nat, b: Plane, new enabled: bool, new p: Pic, new filtered: Pic, new want: Pic,
                           new ctuIdx: nat, new done: set<nat>, new xPos: nat, new yPos: nat, new width: nat, new height: nat)
      requires Valid() && IsPlane(c, b)
      requires Covers(c, b, ctuIdx, xPos, yPos, width, height) && WantedInCtu(c, b, ctuIdx, enabled, p, filtered, want)
      requires old(Progress(c, b, p, want, done))
      requires forall x: nat, y: nat | x < b.width && y < b.height ::
        b.At(x, y) == if enabled && InCtu(c, x, y, xPos, yPos, width, height) then filtered(x, y) else old(b.At(x, y))
      ensures Progress(c, b, p, want, done + {ctuIdx})
    {
    }

    /** Whatever CTUs have been visited before, and be it this one, visiting a CTU makes its luma samples what is wanted. */
    method LumaStep(rec: Plane, enabled: bool, ft: FilterType, rng: ClpRng, xPos: nat, yPos: nat, width: nat, height: nat,
                    ghost ctuIdx: nat, ghost done: set<nat>, ghost p: Pic, ghost filtered: Pic, ghost want: Pic)
      requires Valid() && IsPlane(0, rec) && rec.buf != tempBuf[0].buf && Apart(laplacian, rec)
      requires Extended(0, p) && IsFilteredLuma(ft, rng, p, filtered)
      requires IsCtu(xPos, yPos, width, height) && Covers(0, rec, ctuIdx, xPos, yPos, width, height)
      requires WantedInCtu(0, rec, ctuIdx, enabled, p, filtered, want) && Progress(0, rec, p, want, done)
      modifies rec.buf, classifier, laplacian.ver, laplacian.hor, laplacian.dig0, laplacian.dig1
      ensures Progress(0, rec, p, want, done + {ctuIdx})
    {
      if enabled {
        AlignedIsQuad(xPos, scaleX);
        AlignedIsQuad(yPos, scaleY);
        AlignedIsQuad(width, scaleX);
        AlignedIsQuad(height, scaleY);
        FilterLumaCtu(rec, ft, rng, xPos, yPos, width, height, p, filtered);
      }
      Advance(0, rec, enabled, p, filtered, want, ctuIdx, done, xPos, yPos, width, height);
    }

    predicate InArea(x: nat, y: nat, xPos: nat, yPos: nat, width: nat, height: nat) {
      xPos <= x < xPos + width && yPos <= y < yPos + height
    }

    lemma ChromaRange(xPos: nat, yPos: nat, width: nat, height: nat, c: nat)
      requires Valid() && 1 <= c < 3 && IsCtu(xPos, yPos, width, height)
      ensures Down(xPos, scaleX) % 4 == 0 && Down(yPos, scaleY) % 4 == 0 && Down(width, scaleX) % 4 == 0 && Down(height, scaleY) % 4 == 0
      ensures forall x: nat, y: nat ::
        InCtu(c, x, y, xPos, yPos, width, height) <==> InArea(x, y, Down(xPos, scaleX), Down(yPos, scaleY), Down(width, scaleX), Down(height, scaleY))
    {
      AlignedParts(xPos, width, scaleX, 0);
      AlignedParts(yPos, height, scaleY, 0);
      forall x: nat, y: nat
        ensures InCtu(c, x, y, xPos, yPos, width, height)
           <==> InArea(x, y, Down(xPos, scaleX), Down(yPos, scaleY), Down(width, scaleX), Down(height, scaleY))
      {
        AlignedParts(xPos, width, scaleX, x);
        AlignedParts(yPos, height, scaleY, y);
      }
    }

    method ChromaStep(c: nat, rec: Plane, enabled: bool, chromaCoeff: array<int>, rng: ClpRng,
                      xPos: nat, yPos: nat, width: nat, height: nat,
                      ghost ctuIdx: nat, ghost done: set<nat>, ghost p: Pic, ghost filtered: Pic, ghost want: Pic)
      requires Valid() && 1 <= c < 3 && IsPlane(c, rec) && rec.buf != tempBuf[c].buf
      requires Extended(c, p) && IsFilteredChroma(c, chromaCoeff, rng, p, filtered)
      requires IsCtu(xPos, yPos, width, height) && Covers(c, rec, ctuIdx, xPos, yPos, width, height)
      requires WantedInCtu(c, rec, ctuIdx, enabled, p, filtered, want) && Progress(c, rec, p, want, done)
      modifies rec.buf
      ensures Progress(c, rec, p, want, done + {ctuIdx})
    {
      ChromaRange(xPos, yPos, width, height, c);
      if enabled {
        FilterChromaCtu(c, rec, chromaCoeff, rng, Down(xPos, scaleX), Down(yPos, scaleY), Down(width, scaleX), Down(height, scaleY),
                        p, filtered);
      }
      Advance(c, rec, enabled, p, filtered, want, ctuIdx, done, xPos, yPos, width, height);
    }

    /** What plane c filters to, and its copy extended. */
    ghost predicate PlaneReady(c: nat, slice: AlfSliceParam, rng: ClpRng, p: Pic, filtered: Pic)
      requires Valid() && c < 3
      reads coeffFinal, slice.chromaCoeff, tempBuf[c].buf
    {
      && Extended(c, p)
      && if c == 0 then IsFilteredLuma(slice.lumaFilterType, rng, p, filtered)
         else IsFilteredChroma(c, slice.chromaCoeff, rng, p, filtered)
    }

    /** Everything a run needs besides the picture, for the first n planes. */
    ghost predicate PlanesReady(n: nat, slice: AlfSliceParam, rngs: seq<ClpRng>, p: seq<Pic>, filtered: seq<Pic>)
      requires Valid() && n <= 3 && |rngs| == |p| == |filtered| == 3
      reads coeffFinal, slice.chromaCoeff, tempBuf[0].buf, tempBuf[1].buf, tempBuf[2].buf
    {
      n == 0 || (PlaneReady(n - 1, slice, rngs[n - 1], p[n - 1], filtered[n - 1]) && PlanesReady(n - 1, slice, rngs, p, filtered))
    }

    /** Copies extended, coefficients rebuilt, and what each plane filters to. */
    ghost predicate Ready(slice: AlfSliceParam, rngs: seq<ClpRng>, p: seq<Pic>, filtered: seq<Pic>)
      requires Valid() && |rngs| == |p| == |filtered| == 3
      reads coeffFinal, slice.chromaCoeff, tempBuf[0].buf, tempBuf[1].buf, tempBuf[2].buf
    {
      PlanesReady(|p|, slice, rngs, p, filtered)
    }

    lemma EachPlaneReady(slice: AlfSliceParam, rngs: seq<ClpRng>, p: seq<Pic>, filtered: seq<Pic>)
      requires Valid() && |rngs| == |p| == |filtered| == 3
      ensures Ready(slice, rngs, p, filtered) <==>
        PlaneReady(0, slice, rngs[0], p[0], filtered[0]) && PlaneReady(1, slice, rngs[1], p[1], filtered[1])
        && PlaneReady(2, slice, rngs[2], p[2], filtered[2])
    {
      var one, two := |p| - 2, |p| - 1;
      assert PlanesReady(two, slice, rngs, p, filtered) <==>
        PlaneReady(1, slice, rngs[1], p[1], filtered[1]) && PlanesReady(one, slice, rngs, p, filtered);
    }

    /** In the first n planes exactly these CTUs have been visited. */
    ghost predicate PlanesProgress(n: nat, rec: seq<Plane>, p: seq<Pic>, want: seq<Pic>, done: set<nat>)
      requires Valid() && IsPicture(rec) && n <= 3 && |p| == |want| == 3
      reads rec[0].buf, rec[1].buf, rec[2].buf
    {
      n == 0 || (Progress(n - 1, rec[n - 1], p[n - 1], want[n - 1], done) && PlanesProgress(n - 1, rec, p, want, done))
    }

    /** In all three planes. */
    ghost predicate AllProgress(rec: seq<Plane>, p: seq<Pic>, want: seq<Pic>, done: set<nat>)
      requires Valid() && IsPicture(rec) && |p| == |want| == 3
      reads rec[0].buf, rec[1].buf, rec[2].buf
    {
      PlanesProgress(|rec|, rec, p, want, done)
    }

    lemma EachPlaneProgress(rec: seq<Plane>, p: seq<Pic>, want: seq<Pic>, done: set<nat>)
      requires Valid() && IsPicture(rec) && |p| == |want| == 3
      ensures AllProgress(rec, p, want, done) <==>
        Progress(0, rec[0], p[0], want[0], done) && Progress(1, rec[1], p[1], want[1], done) && Progress(2, rec[2], p[2], want[2], done)
    {
      var one, two := |rec| - 2, |rec| - 1;
      assert PlanesProgress(two, rec, p, want, done) <==>
        Progress(1, rec[1], p[1], want[1], done) && PlanesProgress(one, rec, p, want, done);
    }

    /** A CTU at its place, for each component. */
    ghost predicate CtuAt(rec: seq<Plane>, ctuIdx: nat, xPos: nat, yPos: nat, width: nat, height: nat)
      requires Valid() && IsPicture(rec)
    {
      && IsCtu(xPos, yPos, width, height)
      && Covers(0, rec[0], ctuIdx, xPos, yPos, width, height)
      && Covers(1, rec[1], ctuIdx, xPos, yPos, width, height)
      && Covers(2, rec[2], ctuIdx, xPos, yPos, width, height)
    }

    /** One flag per CTU and component, and what each plane is to become. */
    ghost predicate Planned(flags: seq<seq<bool>>, p: seq<Pic>, filtered: seq<Pic>, want: seq<Pic>)
      requires Valid() && |flags| == |p| == |filtered| == |want| == 3
    {
      forall c | 0 <= c < 3 :: IsFlags(flags[c]) && Wanted(c, flags[c], p[c], filtered[c], want[c])
    }

    /** One chroma component of one CTU. */
    method FilterCtuPlane(c: nat, rec: seq<Plane>, slice: AlfSliceParam, flags: seq<seq<bool>>, rngs: seq<ClpRng>, ctuIdx: nat,
                          xPos: nat, yPos: nat, width: nat, height: nat,
                          ghost done: set<nat>, ghost p: seq<Pic>, ghost filtered: seq<Pic>, ghost want: seq<Pic>)
      requires Valid() && IsPicture(rec) && |flags| == |rngs| == |p| == |filtered| == |want| == 3 && 1 <= c < 3
      requires ctuIdx < CtuCount() && Planned(flags, p, filtered, want) && PlaneReady(c, slice, rngs[c], p[c], filtered[c])
      requires CtuAt(rec, ctuIdx, xPos, yPos, width, height) && Progress(c, rec[c], p[c], want[c], done)
      modifies rec[c].buf
      ensures Progress(c, rec[c], p[c], want[c], done + {ctuIdx})
    {
      ChromaStep(c, rec[c], flags[c][ctuIdx], slice.chromaCoeff, rngs[c], xPos, yPos, width, height,
                 ctuIdx, done, p[c], filtered[c], want[c]);
    }

    /** Luma, then both chroma components of one CTU. */
    method FilterCtu(rec: seq<Plane>, slice: AlfSliceParam, flags: seq<seq<bool>>, rngs: seq<ClpRng>, ctuIdx: nat,
                     xPos: nat, yPos: nat, width: nat, height: nat,
                     ghost done: set<nat>, ghost p: seq<Pic>, ghost filtered: seq<Pic>, ghost want: seq<Pic>)
      requires Valid() && IsPicture(rec) && |flags| == |rngs| == |p| == |filtered| == |want| == 3
      requires ctuIdx < CtuCount() && Planned(flags, p, filtered, want) && Ready(slice, rngs, p, filtered)
      requires CtuAt(rec, ctuIdx, xPos, yPos, width, height) && AllProgress(rec, p, want, done)
      modifies rec[0].buf, rec[1].buf, rec[2].buf, classifier, laplacian.ver, laplacian.hor, laplacian.dig0, laplacian.dig1
      ensures AllProgress(rec, p, want, done + {ctuIdx}) && Ready(slice, rngs, p, filtered)
    {
      EachPlaneReady(slice, rngs, p, filtered);
      EachPlaneProgress(rec, p, want, done);
      ghost var more := done + {ctuIdx};
      LumaStep(rec[0], flags[0][ctuIdx], slice.lumaFilterType, rngs[0], xPos, yPos, width, height,
               ctuIdx, done, p[0], filtered[0], want[0]);
      for compIdx := 1 to 3
        invariant Progress(0, rec[0], p[0], want[0], more)
        invariant Progress(1, rec[1], p[1], want[1], if compIdx > 1 then more else done)
        invariant Progress(2, rec[2], p[2], want[2], if compIdx > 2 then more else done)
      {
        FilterCtuPlane(compIdx, rec, slice, flags, rngs, ctuIdx, xPos, yPos, width, height, done, p, filtered, want);
      }
      EachPlaneProgress(rec, p, want, more);
    }

    /** The CTU at (xPos, yPos), cut off at the picture's edges, whatever others have been visited before. */
    method FilterCtuAt(rec: seq<Plane>, slice: AlfSliceParam, flags: seq<seq<bool>>, rngs: seq<ClpRng>, ctuIdx: nat,
                       ghost col: nat, ghost row: nat, xPos: nat, yPos: nat, height: nat,
                       ghost done: set<nat>, ghost p: seq<Pic>, ghost filtered: seq<Pic>, ghost want: seq<Pic>)
      requires Valid() && IsPicture(rec) && |flags| == |rngs| == |p| == |filtered| == |want| == 3
      requires Planned(flags, p, filtered, want) && Ready(slice, rngs, p, filtered)
      requires OnGrid(ctuIdx, col, row, xPos, yPos) && IsRowHeight(yPos, height)
      requires AllProgress(rec, p, want, done)
      modifies rec[0].buf, rec[1].buf, rec[2].buf, classifier, laplacian.ver, laplacian.hor, laplacian.dig0, laplacian.dig1
      ensures AllProgress(rec, p, want, done + {ctuIdx}) && Ready(slice, rngs, p, filtered)
    {
      var width := if xPos + maxCUWidth > picWidth then picWidth - xPos else maxCUWidth;
      CtuOnGrid(rec, ctuIdx, col, row, xPos, yPos, width, height);
      FilterCtu(rec, slice, flags, rngs, ctuIdx, xPos, yPos, width, height, done, p, filtered, want);
    }

    /** The place of the CTU in column col and row row. */
    ghost predicate OnGrid(ctuIdx: nat, col: nat, row: nat, xPos: nat, yPos: nat)
      requires Valid()
    {
      && xPos < picWidth && xPos == Area(maxCUWidth, col) && Aligned(xPos, scaleX)
      && yPos < picHeight && yPos == Area(maxCUHeight, row) && Aligned(yPos, scaleY)
      && ctuIdx == Area(CtusInWidth(), row) + col
    }

    /** The height of a CTU row, cut off at the bottom edge. */
    predicate IsRowHeight(yPos: nat, height: nat) {
      yPos + height == Min(yPos + maxCUHeight, picHeight)
    }

    lemma CtuOnGrid(rec: seq<Plane>, ctuIdx: nat, col: nat, row: nat, xPos: nat, yPos: nat, width: nat, height: nat)
      requires Valid() && IsPicture(rec) && OnGrid(ctuIdx, col, row, xPos, yPos) && IsRowHeight(yPos, height)
      requires width == if xPos + maxCUWidth > picWidth then picWidth - xPos else maxCUWidth
      ensures ctuIdx < CtuCount() && CtuAt(rec, ctuIdx, xPos, yPos, width, height)
    {
      NextAligned(picWidth, maxCUWidth, xPos, width, scaleX);
      NextAligned(picHeight, maxCUHeight, yPos, height, scaleY);
      ColumnExists(picWidth, maxCUWidth, col);
      ColumnExists(picHeight, maxCUHeight, row);
      IndexInRange(CtusInWidth(), CtusInHeight(), col, row);
      CtuCovers(0, rec[0], ctuIdx, col, row, xPos, yPos, width, height);
      CtuCovers(1, rec[1], ctuIdx, col, row, xPos, yPos, width, height);
      CtuCovers(2, rec[2], ctuIdx, col, row, xPos, yPos, width, height);
    }

    lemma NextColumn(ctuIdx: nat, col: nat, row: nat, xPos: nat, yPos: nat)
      requires Valid() && OnGrid(ctuIdx, col, row, xPos, yPos)
      ensures xPos + maxCUWidth == Area(maxCUWidth, col + 1) && Aligned(xPos + maxCUWidth, scaleX)
      ensures xPos + maxCUWidth < picWidth ==> OnGrid(ctuIdx + 1, col + 1, row, xPos + maxCUWidth, yPos)
      ensures xPos + maxCUWidth >= picWidth ==> ctuIdx + 1 == Area(CtusInWidth(), row + 1)
    {
      ColumnExists(picWidth, maxCUWidth, col);
      ColumnExists(picWidth, maxCUWidth, col + 1);
      AlignedSum(xPos, maxCUWidth, scaleX);
    }

    lemma NextRow(row: nat, yPos: nat)
      requires Valid() && yPos < picHeight && yPos == Area(maxCUHeight, row) && Aligned(yPos, scaleY)
      ensures yPos + maxCUHeight == Area(maxCUHeight, row + 1) && Aligned(yPos + maxCUHeight, scaleY)
      ensures yPos + maxCUHeight >= picHeight ==> row + 1 == CtusInHeight()
    {
      ColumnExists(picHeight, maxCUHeight, row);
      ColumnExists(picHeight, maxCUHeight, row + 1);
      AlignedSum(yPos, maxCUHeight, scaleY);
    }

    /** The CTUs of one row, left to right. */
    method FilterCtuRow(rec: seq<Plane>, slice: AlfSliceParam, flags: seq<seq<bool>>, rngs: seq<ClpRng>, firstIdx: nat,
                        ghost row: nat, yPos: nat, height: nat,
                        ghost p: seq<Pic>, ghost filtered: seq<Pic>, ghost want: seq<Pic>) returns (ctuIdx: nat)
      requires Valid() && IsPicture(rec) && |flags| == |rngs| == |p| == |filtered| == |want| == 3
      requires Planned(flags, p, filtered, want) && Ready(slice, rngs, p, filtered)
      requires picWidth > 0 && OnGrid(firstIdx, 0, row, 0, yPos) && IsRowHeight(yPos, height)
      requires AllProgress(rec, p, want, UpTo(firstIdx))
      modifies rec[0].buf, rec[1].buf, rec[2].buf, classifier, laplacian.ver, laplacian.hor, laplacian.dig0, laplacian.dig1
      ensures ctuIdx == Area(CtusInWidth(), row + 1) && AllProgress(rec, p, want, UpTo(ctuIdx))
      ensures Ready(slice, rngs, p, filtered)
    {
      ctuIdx := firstIdx;
      var xPos := 0;
      ghost var col, done := 0, UpTo(firstIdx);
      while xPos < picWidth
        invariant xPos < picWidth ==> OnGrid(ctuIdx, col, row, xPos, yPos)
        invariant xPos >= picWidth ==> ctuIdx == Area(CtusInWidth(), row + 1)
        invariant done == UpTo(ctuIdx) && AllProgress(rec, p, want, done) && Ready(slice, rngs, p, filtered)
        decreases picWidth - xPos
      {
        FilterCtuAt(rec, slice, flags, rngs, ctuIdx, col, row, xPos, yPos, height, done, p, filtered, want);
        NextColumn(ctuIdx, col, row, xPos, yPos);
        done := done + {ctuIdx};
        ctuIdx, xPos, col := ctuIdx + 1, xPos + maxCUWidth, col + 1;
      }
    }

    /** The CTU row at yPos, cut off at the picture's bottom edge. */
    method FilterCtuRowAt(rec: seq<Plane>, slice: AlfSliceParam, flags: seq<seq<bool>>, rngs: seq<ClpRng>, firstIdx: nat,
                          ghost row: nat, yPos: nat,
                          ghost p: seq<Pic>, ghost filtered: seq<Pic>, ghost want: seq<Pic>) returns (ctuIdx: nat)
      requires Valid() && IsPicture(rec) && |flags| == |rngs| == |p| == |filtered| == |want| == 3
      requires Planned(flags, p, filtered, want) && Ready(slice, rngs, p, filtered)
      requires AtRow(rec, p, want, firstIdx, row, yPos) && picWidth > 0 && yPos < picHeight
      modifies rec[0].buf, rec[1].buf, rec[2].buf, classifier, laplacian.ver, laplacian.hor, laplacian.dig0, laplacian.dig1
      ensures AtRow(rec, p, want, ctuIdx, row + 1, yPos + maxCUHeight) && Ready(slice, rngs, p, filtered)
    {
      var height := if yPos + maxCUHeight > picHeight then picHeight - yPos else maxCUHeight;
      ctuIdx := FilterCtuRow(rec, slice, flags, rngs, firstIdx, row, yPos, height, p, filtered, want);
      NextRow(row, yPos);
    }

    /** The rows above one are finished. */
    ghost predicate AtRow(rec: seq<Plane>, p: seq<Pic>, want: seq<Pic>, ctuIdx: nat, row: nat, yPos: nat)
      requires Valid() && IsPicture(rec) && |p| == |want| == 3
      reads rec[0].buf, rec[1].buf, rec[2].buf
    {
      && yPos == Area(maxCUHeight, row) && Aligned(yPos, scaleY) && ctuIdx == Area(CtusInWidth(), row)
      && (yPos >= picHeight ==> row == CtusInHeight())
      && AllProgress(rec, p, want, UpTo(ctuIdx))
    }

    /** All CTUs in raster order. */
    method FilterCtus(rec: seq<Plane>, slice: AlfSliceParam, flags: seq<seq<bool>>, rngs: seq<ClpRng>,
                      ghost p: seq<Pic>, ghost filtered: seq<Pic>, ghost want: seq<Pic>)
      requires Valid() && IsPicture(rec) && |flags| == |rngs| == |p| == |filtered| == |want| == 3
      requires Planned(flags, p, filtered, want) && Ready(slice, rngs, p, filtered)
      requires AllProgress(rec, p, want, {})
      modifies rec[0].buf, rec[1].buf, rec[2].buf, classifier, laplacian.ver, laplacian.hor, laplacian.dig0, laplacian.dig1
      ensures AllProgress(rec, p, want, UpTo(CtuCount()))
    {
      var ctuIdx, yPos := 0, 0;
      ghost var row := 0;
      assert UpTo(0) == {};
      ColumnExists(picHeight, maxCUHeight, 0);
      while yPos < picHeight
        invariant AtRow(rec, p, want, ctuIdx, row, yPos) && Ready(slice, rngs, p, filtered)
        decreases picHeight - yPos
      {
        ctuIdx := FilterCtuRowAt(rec, slice, flags, rngs, ctuIdx, row, yPos, p, filtered, want);
        yPos, row := yPos + maxCUHeight, row + 1;
      }
    }

    /** Where the CTU with an index is. */
    lemma PlaceOfCtu(ctuIdx: nat, col: nat, row: nat)
      requires Valid() && ctuIdx < CtuCount() && CtusInWidth() >= 1
      requires col == ctuIdx % CtusInWidth() && row == ctuIdx / CtusInWidth()
      ensures OnGrid(ctuIdx, col, row, Area(maxCUWidth, col), Area(maxCUHeight, row))
    {
      IndexParts(ctuIdx, CtusInWidth(), CtusInHeight(), col, row);
      ColumnExists(picWidth, maxCUWidth, col);
      ColumnExists(picHeight, maxCUHeight, row);
      AlignedArea(maxCUWidth, col, scaleX);
      AlignedArea(maxCUHeight, row, scaleY);
    }

    /**
     * The same CTUs in whatever order, as long as every one is visited, be it more than once: the planes end as in
     * raster order.
     */
    method FilterCtusInOrder(rec: seq<Plane>, slice: AlfSliceParam, flags: seq<seq<bool>>, rngs: seq<ClpRng>, order: seq<nat>,
                             ghost p: seq<Pic>, ghost filtered: seq<Pic>, ghost want: seq<Pic>)
      requires Valid() && IsPicture(rec) && |flags| == |rngs| == |p| == |filtered| == |want| == 3
      requires Planned(flags, p, filtered, want) && Ready(slice, rngs, p, filtered)
      requires AllProgress(rec, p, want, {})
      requires forall i: nat :: i in order <==> i < CtuCount()
      modifies rec[0].buf, rec[1].buf, rec[2].buf, classifier, laplacian.ver, laplacian.hor, laplacian.dig0, laplacian.dig1
      ensures AllProgress(rec, p, want, UpTo(CtuCount()))
    {
      ghost var done: set<nat> := {};
      for k := 0 to |order|
        invariant done == Visited(order[..k]) && AllProgress(rec, p, want, done) && Ready(slice, rngs, p, filtered)
      {
        assert order[k] in order;
        FilterCtuNo(rec, slice, flags, rngs, order[k], done, p, filtered, want);
        assert order[..k + 1] == order[..k] + [order[k]];
        done := done + {order[k]};
      }
      assert order[..|order|] == order;
      VisitedAll(order, CtuCount());
    }

    /** The CTU with an index, wherever it is. */
    method FilterCtuNo(rec: seq<Plane>, slice: AlfSliceParam, flags: seq<seq<bool>>, rngs: seq<ClpRng>, ctuIdx: nat,
                       ghost done: set<nat>, ghost p: seq<Pic>, ghost filtered: seq<Pic>, ghost want: seq<Pic>)
      requires Valid() && IsPicture(rec) && |flags| == |rngs| == |p| == |filtered| == |want| == 3
      requires Planned(flags, p, filtered, want) && Ready(slice, rngs, p, filtered)
      requires ctuIdx < CtuCount() && AllProgress(rec, p, want, done)
      modifies rec[0].buf, rec[1].buf, rec[2].buf, classifier, laplacian.ver, laplacian.hor, laplacian.dig0, laplacian.dig1
      ensures AllProgress(rec, p, want, done + {ctuIdx}) && Ready(slice, rngs, p, filtered)
    {
      SomeCtu(ctuIdx);
      var col, row := ctuIdx % CtusInWidth(), ctuIdx / CtusInWidth();
      PlaceOfCtu(ctuIdx, col, row);
      var xPos, yPos := Area(maxCUWidth, col), Area(maxCUHeight, row);
      var height := if yPos + maxCUHeight > picHeight then picHeight - yPos else maxCUHeight;
      FilterCtuAt(rec, slice, flags, rngs, ctuIdx, col, row, xPos, yPos, height, done, p, filtered, want);
    }

    lemma SomeCtu(ctuIdx: nat)
      requires Valid() && ctuIdx < CtuCount()
      ensures CtusInWidth() >= 1
    {
      if CtusInWidth() == 0 {
        NoArea(CtusInHeight());
      }
    }

    lemma CtuOfInRange(c: nat, x: nat, y: nat)
      requires Valid() && c < 3 && x < tempBuf[c].width && y < tempBuf[c].height
      ensures CtuOf(c, x, y) < CtuCount()
    {
      CtuIndexInRange(Up(x, ScaleX(c)), Up(y, ScaleY(c)), picWidth, picHeight, maxCUWidth, maxCUHeight);
    }

    /** Sample (x, y) of component c, filtered. */
    ghost function FilteredAt(c: nat, slice: AlfSliceParam, rngs: seq<ClpRng>, p: seq<Pic>, x: int, y: int): int
      requires Valid() && slice.Valid() && c < 3 && |rngs| == |p| == 3
      reads coeffFinal, slice.chromaCoeff
    {
      if c == 0 then
        AllClassesHaveFilters(slice.lumaFilterType);
        FilteredLuma(slice.lumaFilterType, rngs[0], p[0], x, y)
      else FilteredSample(Filter5, slice.chromaCoeff[..7], 0, Clamped(p[c], tempBuf[c].width, tempBuf[c].height), x, y, rngs[c])
    }

    lemma AllClassesHaveFilters(ft: FilterType)
      requires Valid()
      ensures LumaFilters(ft, FiltersOf(coeffFinal[..]))
    {
    }

    /** The filtered plane c as a picture. */
    lemma FilteredPlane(c: nat, slice: AlfSliceParam, rngs: seq<ClpRng>, p: seq<Pic>) returns (f: Pic)
      requires Valid() && slice.Valid() && c < 3 && |rngs| == |p| == 3 && Extended(c, p[c])
      ensures PlaneReady(c, slice, rngs[c], p[c], f) && IsFilteredAt(c, slice, rngs, p, f)
    {
      var w, h, rng, q := tempBuf[c].width, tempBuf[c].height, rngs[c], p[c];
      if c == 0 {
        var luma, ft, shift := FiltersOf(coeffFinal[..]), slice.lumaFilterType, inputBitDepth + 4;
        AllClassesHaveFilters(ft);
        f := (x, y) => if LumaFilters(ft, luma) then AlfLuma(ft, luma, q, w, h, x, y, shift, rng) else 0;
      } else {
        var chroma := slice.chromaCoeff[..7];
        f := (x, y) => FilteredSample(Filter5, chroma, 0, Clamped(q, w, h), x, y, rng);
      }
    }

    ghost predicate IsFilteredAt(c: nat, slice: AlfSliceParam, rngs: seq<ClpRng>, p: seq<Pic>, f: Pic)
      requires Valid() && slice.Valid() && c < 3 && |rngs| == |p| == 3
      reads coeffFinal, slice.chromaCoeff
    {
      forall x: int, y: int :: f(x, y) == FilteredAt(c, slice, rngs, p, x, y)
    }

    /** The three filtered planes as pictures. */
    lemma FilteredPictures(slice: AlfSliceParam, rngs: seq<ClpRng>, p: seq<Pic>) returns (filtered: seq<Pic>)
      requires Valid() && slice.Valid() && |rngs| == |p| == 3
      requires Extended(0, p[0]) && Extended(1, p[1]) && Extended(2, p[2])
      ensures |filtered| == 3 && Ready(slice, rngs, p, filtered) && AreFiltered(slice, rngs, p, filtered)
    {
      var luma := FilteredPlane(0, slice, rngs, p);
      var cb := FilteredPlane(1, slice, rngs, p);
      var cr := FilteredPlane(2, slice, rngs, p);
      filtered := [luma, cb, cr];
      EachPlaneReady(slice, rngs, p, filtered);
    }

    ghost predicate AreFiltered(slice: AlfSliceParam, rngs: seq<ClpRng>, p: seq<Pic>, filtered: seq<Pic>)
      requires Valid() && slice.Valid() && |rngs| == |p| == |filtered| == 3
      reads coeffFinal, slice.chromaCoeff
    {
      forall c | 0 <= c < 3 :: IsFilteredAt(c, slice, rngs, p, filtered[c])
    }

    /** Sample (x, y) of component c after the whole filter: filtered in the CTUs whose flag is set, unchanged elsewhere. */
    ghost function Result(c: nat, slice: AlfSliceParam, flags: seq<seq<bool>>, rngs: seq<ClpRng>, p: seq<Pic>, x: nat, y: nat): int
      requires Valid() && slice.Valid() && c < 3 && |flags| == |rngs| == |p| == 3 && IsFlags(flags[c])
      requires x < tempBuf[c].width && y < tempBuf[c].height
      reads coeffFinal, slice.chromaCoeff
    {
      CtuOfInRange(c, x, y);
      if flags[c][CtuOf(c, x, y)] then FilteredAt(c, slice, rngs, p, x, y) else p[c](x, y)
    }

    lemma WantedPicture(c: nat, flags: seq<bool>, p: Pic, filtered: Pic) returns (want: Pic)
      requires Valid() && c < 3 && IsFlags(flags)
      ensures Wanted(c, flags, p, filtered, want)
    {
      var sx, sy, w, m, n := ScaleX(c), ScaleY(c), picWidth, maxCUWidth, maxCUHeight;
      want := (x, y) =>
        if x >= 0 && y >= 0 && sx <= 1 && sy <= 1 && m >= 1 && n >= 1 && CtuIndex(Up(x, sx), Up(y, sy), w, m, n) < |flags|
           && flags[CtuIndex(Up(x, sx), Up(y, sy), w, m, n)]
        then filtered(x, y) else p(x, y);
      forall x: nat, y: nat | x < tempBuf[c].width && y < tempBuf[c].height
        ensures CtuOf(c, x, y) < |flags|
      {
        CtuOfInRange(c, x, y);
      }
    }

    /** The copy the filter reads from. */
    method CopyAndExtend(rec: seq<Plane>, ghost p: seq<Pic>)
      requires Valid() && IsPicture(rec) && |p| == 3
      requires rec[0].ShowsPicture(p[0]) && rec[1].ShowsPicture(p[1]) && rec[2].ShowsPicture(p[2])
      modifies tempBuf[0].buf, tempBuf[1].buf, tempBuf[2].buf
      ensures Extended(0, p[0]) && Extended(1, p[1]) && Extended(2, p[2])
    {
      tempBuf[0].CopyFrom(rec[0], p[0]);
      tempBuf[1].CopyFrom(rec[1], p[1]);
      tempBuf[2].CopyFrom(rec[2], p[2]);
      tempBuf[0].ExtendBorderPel(3, p[0]);
      tempBuf[1].ExtendBorderPel(3, p[1]);
      tempBuf[2].ExtendBorderPel(3, p[2]);
    }

    /**
     * The filter end to end: every sample of every component in a CTU whose flag is set becomes what the filter of
     * its class makes of the picture as it was before, with coordinates clamped to the picture; all other samples
     * stay. No sample's value depends on the order in which CTUs are visited.
     */
    method ALFProcess(rec: seq<Plane>, slice: AlfSliceParam, flags: seq<seq<bool>>, rngs: seq<ClpRng>, ghost p: seq<Pic>)
      requires Valid() && IsPicture(rec) && slice.Valid() && |flags| == |rngs| == |p| == 3
      requires coeffFinal != slice.lumaCoeff && coeffFinal != slice.chromaCoeff
      requires IsFlags(flags[0]) && IsFlags(flags[1]) && IsFlags(flags[2])
      requires rec[0].ShowsPicture(p[0]) && rec[1].ShowsPicture(p[1]) && rec[2].ShowsPicture(p[2])
      modifies rec[0].buf, rec[1].buf, rec[2].buf, tempBuf[0].buf, tempBuf[1].buf, tempBuf[2].buf
      modifies classifier, laplacian.ver, laplacian.hor, laplacian.dig0, laplacian.dig1
      modifies coeffFinal, slice.lumaCoeff, slice.chromaCoeff
      ensures slice.enabledFlag == [false, false, false] ==>
        rec[0].ShowsPicture(p[0]) && rec[1].ShowsPicture(p[1]) && rec[2].ShowsPicture(p[2])
      ensures slice.enabledFlag != [false, false, false] ==>
        HandedOut(slice, old(slice.lumaCoeff[..]), coeffFinal[..]) && IsRebuilt(slice, old(slice.lumaCoeff[..]), old(slice.chromaCoeff[..]))
      ensures slice.enabledFlag == [false, false, false] ==> unchanged(slice.lumaCoeff) && unchanged(slice.chromaCoeff)
      ensures slice.enabledFlag != [false, false, false] ==> AllResults(rec, slice, flags, rngs, p)
    {
      if !slice.enabledFlag[0] && !slice.enabledFlag[1] && !slice.enabledFlag[2] {
        return;
      }
      Rebuild(slice);
      CopyAndExtend(rec, p);
      FilterExtended(rec, slice, flags, rngs, p);
    }

    /** The filters of all classes and of chroma. */
    method Rebuild(slice: AlfSliceParam)
      requires Valid() && slice.Valid() && coeffFinal != slice.lumaCoeff && coeffFinal != slice.chromaCoeff
      modifies coeffFinal, slice.lumaCoeff, slice.chromaCoeff
      ensures HandedOut(slice, old(slice.lumaCoeff[..]), coeffFinal[..]) && IsRebuilt(slice, old(slice.lumaCoeff[..]), old(slice.chromaCoeff[..]))
    {
      ReconstructLumaCoeff(coeffFinal, slice, false);
      ReconstructChromaCoeff(slice);
    }

    /** What the slice's own arrays hold afterwards: luma rebuilt, chroma with the centre that completes the gain. */
    ghost predicate IsRebuilt(slice: AlfSliceParam, luma: seq<int>, chroma: seq<int>)
      requires slice.Valid() && |luma| == 325 && |chroma| == 7
      reads slice.lumaCoeff, slice.chromaCoeff
    {
      && (forall k | 0 <= k < 325 :: slice.lumaCoeff[k] == Rebuilt(slice, luma, k))
      && (forall k | 0 <= k < 6 :: slice.chromaCoeff[k] == chroma[k])
      && slice.chromaCoeff[6] == FACTOR - 2 * PartSum(chroma, 0, 6)
      && Gain(Filter5, slice.chromaCoeff[..]) == FACTOR
    }

    /** The CTUs, with the copy at hand. */
    method FilterExtended(rec: seq<Plane>, slice: AlfSliceParam, flags: seq<seq<bool>>, rngs: seq<ClpRng>, ghost p: seq<Pic>)
      requires Valid() && IsPicture(rec) && slice.Valid() && |flags| == |rngs| == |p| == 3
      requires IsFlags(flags[0]) && IsFlags(flags[1]) && IsFlags(flags[2])
      requires rec[0].ShowsPicture(p[0]) && rec[1].ShowsPicture(p[1]) && rec[2].ShowsPicture(p[2])
      requires Extended(0, p[0]) && Extended(1, p[1]) && Extended(2, p[2])
      modifies rec[0].buf, rec[1].buf, rec[2].buf, classifier, laplacian.ver, laplacian.hor, laplacian.dig0, laplacian.dig1
      ensures AllResults(rec, slice, flags, rngs, p)
    {
      ghost var filtered := FilteredPictures(slice, rngs, p);
      ghost var want := WantedPictures(flags, p, filtered);
      EachPlaneProgress(rec, p, want, {});
      FilterCtus(rec, slice, flags, rngs, p, filtered, want);
      WantedIsResult(rec, slice, flags, rngs, p, filtered, want);
    }

    /** In whatever order the CTUs are visited, and however often, as long as none is left out, the results are the same. */
    method FilterExtendedInOrder(rec: seq<Plane>, slice: AlfSliceParam, flags: seq<seq<bool>>, rngs: seq<ClpRng>, order: seq<nat>,
                                 ghost p: seq<Pic>)
      requires Valid() && IsPicture(rec) && slice.Valid() && |flags| == |rngs| == |p| == 3
      requires IsFlags(flags[0]) && IsFlags(flags[1]) && IsFlags(flags[2])
      requires rec[0].ShowsPicture(p[0]) && rec[1].ShowsPicture(p[1]) && rec[2].ShowsPicture(p[2])
      requires Extended(0, p[0]) && Extended(1, p[1]) && Extended(2, p[2])
      requires forall i: nat :: i in order <==> i < CtuCount()
      modifies rec[0].buf, rec[1].buf, rec[2].buf, classifier, laplacian.ver, laplacian.hor, laplacian.dig0, laplacian.dig1
      ensures AllResults(rec, slice, flags, rngs, p)
    {
      ghost var filtered := FilteredPictures(slice, rngs, p);
      ghost var want := WantedPictures(flags, p, filtered);
      EachPlaneProgress(rec, p, want, {});
      FilterCtusInOrder(rec, slice, flags, rngs, order, p, filtered, want);
      WantedIsResult(rec, slice, flags, rngs, p, filtered, want);
    }

    lemma WantedPictures(flags: seq<seq<bool>>, p: seq<Pic>, filtered: seq<Pic>) returns (want: seq<Pic>)
      requires Valid() && |flags| == |p| == |filtered| == 3
      requires IsFlags(flags[0]) && IsFlags(flags[1]) && IsFlags(flags[2])
      ensures |want| == 3 && Planned(flags, p, filtered, want)
    {
      var luma := WantedPicture(0, flags[0], p[0], filtered[0]);
      var cb := WantedPicture(1, flags[1], p[1], filtered[1]);
      var cr := WantedPicture(2, flags[2], p[2], filtered[2]);
      want := [luma, cb, cr];
    }

    /** Every sample is the result the specification names. */
    ghost predicate AllResults(rec: seq<Plane>, slice: AlfSliceParam, flags: seq<seq<bool>>, rngs: seq<ClpRng>, p: seq<Pic>)
      requires Valid() && IsPicture(rec) && slice.Valid() && |flags| == |rngs| == |p| == 3
      requires IsFlags(flags[0]) && IsFlags(flags[1]) && IsFlags(flags[2])
      reads coeffFinal, slice.chromaCoeff, rec[0].buf, rec[1].buf, rec[2].buf
    {
      forall c, x: nat, y: nat | 0 <= c < 3 && x < tempBuf[c].width && y < tempBuf[c].height ::
        rec[c].At(x, y) == Result(c, slice, flags, rngs, p, x, y)
    }

    lemma WantedIsResult(rec: seq<Plane>, slice: AlfSliceParam, flags: seq<seq<bool>>, rngs: seq<ClpRng>,
                         p: seq<Pic>, filtered: seq<Pic>, want: seq<Pic>)
      requires Valid() && IsPicture(rec) && slice.Valid() && |flags| == |rngs| == |p| == |filtered| == |want| == 3
      requires Planned(flags, p, filtered, want)
      requires AllProgress(rec, p, want, UpTo(CtuCount()))
      requires AreFiltered(slice, rngs, p, filtered)
      ensures AllResults(rec, slice, flags, rngs, p)
    {
      EachPlaneProgress(rec, p, want, UpTo(CtuCount()));
      forall c, x: nat, y: nat | 0 <= c < 3 && x < tempBuf[c].width && y < tempBuf[c].height
        ensures rec[c].At(x, y) == Result(c, slice, flags, rngs, p, x, y)
      {
        assert Wanted(c, flags[c], p[c], filtered[c], want[c]) && IsFilteredAt(c, slice, rngs, p, filtered[c]);
        assert Progress(c, rec[c], p[c], want[c], UpTo(CtuCount()));
        CtuOfInRange(c, x, y);
        UpToHolds(CtuCount(), CtuOf(c, x, y));
        assert rec[c].At(x, y) == want[c](x, y);
      }
    }
  }
}
