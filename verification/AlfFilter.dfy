/** Filtering blocks: seven row pointers, four rows of four samples per class decision. */
module AlfFilter {
  import opened AlfSpec
  import opened Clipping
  import opened PicturePlane

  /** A filter set has 25 filters of 13 coefficients, or for chroma one of 7. */
  const LUMA_SET_SIZE: nat := 325

  /** The classifier has a class for every sample up to (x1, y1), and the filter set a filter for every class. */
  predicate Usable(ft: FilterType, chroma: bool, classifier: array2<AlfClassifier>, filterSet: array<int>, x1: nat, y1: nat) {
    if chroma then ft == Filter5 && filterSet.Length >= 7
    else x1 <= classifier.Length1 && y1 <= classifier.Length0 && filterSet.Length == LUMA_SET_SIZE
  }

  /** Classes are below 25 on the area filtered. */
  ghost predicate ClassesInRange(chroma: bool, classifier: array2<AlfClassifier>, x0: nat, x1: nat, y0: nat, y1: nat)
    requires chroma || (x1 <= classifier.Length1 && y1 <= classifier.Length0)
    reads classifier
  {
    !chroma ==> forall x: nat, y: nat | x0 <= x < x1 && y0 <= y < y1 :: classifier[y, x].classIdx < 25
  }

  /** The sample at (x, y) filtered with the class of its 4x4 block; chroma has one filter, never transposed. */
  ghost function Target(ft: FilterType, chroma: bool, classifier: array2<AlfClassifier>, filterSet: array<int>,
                        p: Pic, x: nat, y: nat, rng: ClpRng): int
    requires Usable(ft, chroma, classifier, filterSet, x + 1, y + 1)
    requires !chroma ==> classifier[y - y % 4, x - x % 4].classIdx < 25
    reads classifier, filterSet
  {
    if chroma then FilteredSample(ft, filterSet[..7], 0, p, x, y, rng)
    else
      var cl := classifier[y - y % 4, x - x % 4];
      FilteredSample(ft, filterSet[cl.classIdx * 13..cl.classIdx * 13 + 13], cl.transposeIdx, p, x, y, rng)
  }

  /** The rounded sum at one sample: the rows at distances one, two and three below and above, then its own. */
  method FilterAt(ft: FilterType, f: seq<int>, src: Plane, ghost p: Pic, x: int, y: int) returns (sum: int)
    requires |f| == ft.NumCoeff()
    requires src.Valid() && src.Inside(x - 3, y - 3) && src.Inside(x + 3, y + 3)
    requires src.Shows(p, x - 3, x + 4, y - 3, y + 4)
    ensures sum == Rounded(FilterSum(ft, f, p, x, y))
  {
    sum := 0;
    if ft == Filter7 {
      sum := sum + f[0] * (src.At(x, y + 3) + src.At(x, y - 3));

      sum := sum + f[1] * (src.At(x + 1, y + 2) + src.At(x - 1, y - 2));
      sum := sum + f[2] * (src.At(x, y + 2) + src.At(x, y - 2));
      sum := sum + f[3] * (src.At(x - 1, y + 2) + src.At(x + 1, y - 2));

      sum := sum + f[4] * (src.At(x + 2, y + 1) + src.At(x - 2, y - 1));
      sum := sum + f[5] * (src.At(x + 1, y + 1) + src.At(x - 1, y - 1));
      sum := sum + f[6] * (src.At(x, y + 1) + src.At(x, y - 1));
      sum := sum + f[7] * (src.At(x - 1, y + 1) + src.At(x + 1, y - 1));
      sum := sum + f[8] * (src.At(x - 2, y + 1) + src.At(x + 2, y - 1));

      sum := sum + f[9] * (src.At(x + 3, y) + src.At(x - 3, y));
      sum := sum + f[10] * (src.At(x + 2, y) + src.At(x - 2, y));
      sum := sum + f[11] * (src.At(x + 1, y) + src.At(x - 1, y));
      sum := sum + f[12] * src.At(x, y);
    } else {
      sum := sum + f[0] * (src.At(x, y + 2) + src.At(x, y - 2));

      sum := sum + f[1] * (src.At(x + 1, y + 1) + src.At(x - 1, y - 1));
      sum := sum + f[2] * (src.At(x, y + 1) + src.At(x, y - 1));
      sum := sum + f[3] * (src.At(x - 1, y + 1) + src.At(x + 1, y - 1));

      sum := sum + f[4] * (src.At(x + 2, y) + src.At(x - 2, y));
      sum := sum + f[5] * (src.At(x + 1, y) + src.At(x - 1, y));
      sum := sum + f[6] * src.At(x, y);
    }
    sum := (sum + 256) / 512;
  }

  /** Writes the sixteen samples of the block at (ox, oy). */
  method FilterBlock(ft: FilterType, coef: seq<int>, transposeIdx: nat, dst: Plane, src: Plane, ghost p: Pic,
                     ox: nat, oy: nat, rng: ClpRng, ghost want: Pic)
    requires |coef| >= ft.NumCoeff()
    requires forall x: int, y: int | ox <= x < ox + 4 && oy <= y < oy + 4 ::
      want(x, y) == FilteredSample(ft, coef, transposeIdx, p, x, y, rng)
    requires src.Valid() && src.Inside(ox - 3, oy - 3) && src.Inside(ox + 6, oy + 6)
    requires src.Shows(p, ox - 3, ox + 7, oy - 3, oy + 7)
    requires dst.Valid() && ox + 4 <= dst.width && oy + 4 <= dst.height && dst.buf != src.buf
    modifies dst.buf
    ensures forall x: int, y: int | dst.Inside(x, y) ::
      dst.At(x, y) == if ox <= x < ox + 4 && oy <= y < oy + 4 then want(x, y)
                      else old(dst.At(x, y))
  {
    var filterCoeff := Transposed(ft, coef, transposeIdx);
    for ii := 0 to 4
      invariant forall x: int, y: int | dst.Inside(x, y) ::
        dst.At(x, y) == if ox <= x < ox + 4 && oy <= y < oy + ii then want(x, y) else old(dst.At(x, y))
    {
      FilterBlockRow(ft, filterCoeff, dst, src, p, ox, oy + ii, rng, want);
    }
  }

  /** The four samples of row y of the block. */
  method FilterBlockRow(ft: FilterType, filterCoeff: seq<int>, dst: Plane, src: Plane, ghost p: Pic,
                        ox: nat, y: nat, rng: ClpRng, ghost want: Pic)
    requires |filterCoeff| == ft.NumCoeff()
    requires forall x: int | ox <= x < ox + 4 :: want(x, y) == ClipPel(Rounded(FilterSum(ft, filterCoeff, p, x, y)), rng)
    requires src.Valid() && src.Inside(ox - 3, y - 3) && src.Inside(ox + 6, y + 3)
    requires src.Shows(p, ox - 3, ox + 7, y - 3, y + 4)
    requires dst.Valid() && ox + 4 <= dst.width && y < dst.height && dst.buf != src.buf
    modifies dst.buf
    ensures forall u: int, v: int | dst.Inside(u, v) ::
      dst.At(u, v) == if ox <= u < ox + 4 && v == y then want(u, v) else old(dst.At(u, v))
  {
    for jj := 0 to 4
      invariant forall u: int, v: int | dst.Inside(u, v) ::
        dst.At(u, v) == if ox <= u < ox + jj && v == y then want(u, v) else old(dst.At(u, v))
    {
      var sum := FilterAt(ft, filterCoeff, src, p, ox + jj, y);
      dst.Put(ox + jj, y, ClipPel(sum, rng));
    }
  }

  /** Filters an area of whole 4x4 blocks; samples outside it stay. */
  method FilterBlk(ft: FilterType, chroma: bool, classifier: array2<AlfClassifier>, dst: Plane, src: Plane, ghost p: Pic,
                   startWidth: nat, startHeight: nat, width: nat, height: nat, filterSet: array<int>, rng: ClpRng)
    requires startHeight % 4 == 0 && startWidth % 4 == 0 && height % 4 == 0 && width % 4 == 0
    requires Usable(ft, chroma, classifier, filterSet, startWidth + width, startHeight + height)
    requires ClassesInRange(chroma, classifier, startWidth, startWidth + width, startHeight, startHeight + height)
    requires src.Valid() && src.Inside(startWidth - 3, startHeight - 3) && src.Inside(startWidth + width + 2, startHeight + height + 2)
    requires src.Shows(p, startWidth - 3, startWidth + width + 3, startHeight - 3, startHeight + height + 3)
    requires dst.Valid() && startWidth + width <= dst.width && startHeight + height <= dst.height && dst.buf != src.buf
    modifies dst.buf
    ensures forall x: int, y: int | dst.Inside(x, y) ::
      dst.At(x, y) == if startWidth <= x < startWidth + width && startHeight <= y < startHeight + height
                      then Target(ft, chroma, classifier, filterSet, p, x, y, rng) else old(dst.At(x, y))
  {
    var oy, endWidth, endHeight := startHeight, startWidth + width, startHeight + height;
    while oy < endHeight
      invariant startHeight <= oy <= endHeight && oy % 4 == 0 && Usable(ft, chroma, classifier, filterSet, endWidth, oy)
      invariant forall x: int, y: int | dst.Inside(x, y) ::
        dst.At(x, y) == if startWidth <= x < endWidth && startHeight <= y < oy
                        then Target(ft, chroma, classifier, filterSet, p, x, y, rng) else old(dst.At(x, y))
    {
      FilterRow(ft, chroma, classifier, dst, src, p, startWidth, endWidth, oy, filterSet, rng);
      oy := oy + 4;
    }
  }

  /** The row of blocks from (startWidth, oy) to endWidth. */
  method FilterRow(ft: FilterType, chroma: bool, classifier: array2<AlfClassifier>, dst: Plane, src: Plane, ghost p: Pic,
                   startWidth: nat, endWidth: nat, oy: nat, filterSet: array<int>, rng: ClpRng)
    requires oy % 4 == 0 && startWidth % 4 == 0 && endWidth % 4 == 0 && startWidth <= endWidth
    requires Usable(ft, chroma, classifier, filterSet, endWidth, oy + 4)
    requires ClassesInRange(chroma, classifier, startWidth, endWidth, oy, oy + 4)
    requires src.Valid() && src.Inside(startWidth - 3, oy - 3) && src.Inside(endWidth + 2, oy + 6)
    requires src.Shows(p, startWidth - 3, endWidth + 3, oy - 3, oy + 7)
    requires dst.Valid() && endWidth <= dst.width && oy + 4 <= dst.height && dst.buf != src.buf
    modifies dst.buf
    ensures forall x: int, y: int | dst.Inside(x, y) ::
      dst.At(x, y) == if startWidth <= x < endWidth && oy <= y < oy + 4
                      then Target(ft, chroma, classifier, filterSet, p, x, y, rng) else old(dst.At(x, y))
  {
    var ox := startWidth;
    while ox < endWidth
      invariant startWidth <= ox <= endWidth && ox % 4 == 0
      invariant forall x: int, y: int | dst.Inside(x, y) ::
        dst.At(x, y) == if startWidth <= x < ox && oy <= y < oy + 4
                        then Target(ft, chroma, classifier, filterSet, p, x, y, rng) else old(dst.At(x, y))
    {
      FilterOne(ft, chroma, classifier, dst, src, p, ox, oy, filterSet, rng);
      ox := ox + 4;
    }
  }

  /** The block at (ox, oy), with the filter and transposition its class asks for. */
  method FilterOne(ft: FilterType, chroma: bool, classifier: array2<AlfClassifier>, dst: Plane, src: Plane, ghost p: Pic,
                   ox: nat, oy: nat, filterSet: array<int>, rng: ClpRng)
    requires ox % 4 == 0 && oy % 4 == 0
    requires Usable(ft, chroma, classifier, filterSet, ox + 4, oy + 4)
    requires ClassesInRange(chroma, classifier, ox, ox + 4, oy, oy + 4)
    requires src.Valid() && src.Inside(ox - 3, oy - 3) && src.Inside(ox + 6, oy + 6)
    requires src.Shows(p, ox - 3, ox + 7, oy - 3, oy + 7)
    requires dst.Valid() && ox + 4 <= dst.width && oy + 4 <= dst.height && dst.buf != src.buf
    modifies dst.buf
    ensures forall x: int, y: int | dst.Inside(x, y) ::
      dst.At(x, y) == if ox <= x < ox + 4 && oy <= y < oy + 4
                      then Target(ft, chroma, classifier, filterSet, p, x, y, rng) else old(dst.At(x, y))
  {
    var coef, transposeIdx := filterSet[..7], 0;
    if !chroma {
      var cl := classifier[oy, ox];
      transposeIdx := cl.transposeIdx;
      coef := filterSet[cl.classIdx * 13..cl.classIdx * 13 + 13];
    }
    ghost var want := BlockTarget(ft, chroma, classifier, filterSet, p, ox, oy, rng, coef, transposeIdx);
    FilterBlock(ft, coef, transposeIdx, dst, src, p, ox, oy, rng, want);
  }

  /** Over one block the target is a single filter. */
  lemma BlockTarget(ft: FilterType, chroma: bool, classifier: array2<AlfClassifier>, filterSet: array<int>, p: Pic,
                    ox: nat, oy: nat, rng: ClpRng, coef: seq<int>, transposeIdx: nat) returns (want: Pic)
    requires ox % 4 == 0 && oy % 4 == 0
    requires Usable(ft, chroma, classifier, filterSet, ox + 4, oy + 4)
    requires ClassesInRange(chroma, classifier, ox, ox + 4, oy, oy + 4)
    requires |coef| >= ft.NumCoeff()
    requires chroma ==> coef == filterSet[..7] && transposeIdx == 0
    requires !chroma ==> var cl := classifier[oy, ox];
      coef == filterSet[cl.classIdx * 13..cl.classIdx * 13 + 13] && transposeIdx == cl.transposeIdx
    ensures forall x: int, y: int | ox <= x < ox + 4 && oy <= y < oy + 4 ::
      want(x, y) == FilteredSample(ft, coef, transposeIdx, p, x, y, rng)
    ensures forall x: int, y: int | ox <= x < ox + 4 && oy <= y < oy + 4 ::
      want(x, y) == Target(ft, chroma, classifier, filterSet, p, x, y, rng)
  {
    want := (x, y) => FilteredSample(ft, coef, transposeIdx, p, x, y, rng);
    forall x: int, y: int | ox <= x < ox + 4 && oy <= y < oy + 4
      ensures x - x % 4 == ox && y - y % 4 == oy
      ensures want(x, y) == Target(ft, chroma, classifier, filterSet, p, x, y, rng)
    {
      SameBlock(ox, x);
      SameBlock(oy, y);
    }
  }

  lemma SameBlock(o: nat, v: int)
    requires o % 4 == 0 && o <= v < o + 4
    ensures v - v % 4 == o
  {
  }
}
