/** Rebuilding filter coefficients from what is coded, and what their normalisation buys. */
module AlfCoeff {
  import opened AlfSpec
  import opened Clipping

  const MAX_NUM_ALF_CLASSES: nat := 25
  const MAX_NUM_ALF_LUMA_COEFF: nat := 13
  const FACTOR: int := 512

  /** Slice-level parameters; filter f keeps its coefficients at 13 * f and up. */
  class AlfSliceParam {
    const enabledFlag: seq<bool>
    const lumaFilterType: FilterType
    const lumaCoeff: array<int>
    const chromaCoeff: array<int>
    const filterCoeffDeltaIdx: seq<nat>
    const numLumaFilters: nat
    const coeffDeltaPredModeFlag: bool

    constructor (enabled: seq<bool>, filterType: FilterType, luma: array<int>, chroma: array<int>, deltaIdx: seq<nat>,
                 numFilters: nat, deltaPredMode: bool)
      requires |enabled| == 3 && luma.Length == 325 && chroma.Length == 7 && luma != chroma
      requires |deltaIdx| == MAX_NUM_ALF_CLASSES && forall i | 0 <= i < |deltaIdx| :: deltaIdx[i] < MAX_NUM_ALF_CLASSES
      requires numFilters <= MAX_NUM_ALF_CLASSES
      ensures Valid() && lumaCoeff == luma && chromaCoeff == chroma
    {
      enabledFlag, lumaFilterType, lumaCoeff, chromaCoeff := enabled, filterType, luma, chroma;
      filterCoeffDeltaIdx, numLumaFilters, coeffDeltaPredModeFlag := deltaIdx, numFilters, deltaPredMode;
    }

    predicate Valid() {
      && |enabledFlag| == 3
      && lumaCoeff.Length == MAX_NUM_ALF_CLASSES * MAX_NUM_ALF_LUMA_COEFF
      && chromaCoeff.Length == 7
      && lumaCoeff != chromaCoeff
      && |filterCoeffDeltaIdx| == MAX_NUM_ALF_CLASSES
      && (forall i | 0 <= i < |filterCoeffDeltaIdx| :: filterCoeffDeltaIdx[i] < MAX_NUM_ALF_CLASSES)
      && numLumaFilters <= MAX_NUM_ALF_CLASSES
    }
  }

  // ---- What is rebuilt ----

  /** The sum of the coefficients at k, k - 13, k - 26 and so on. */
  function ColumnSum(s: seq<int>, k: nat): int
    requires k < |s|
  {
    if k < 13 then s[k] else ColumnSum(s, k - 13) + s[k]
  }

  /** The sum of the first n coefficients from position a. */
  function PartSum(s: seq<int>, a: nat, n: nat): int
    requires a + n <= |s|
  {
    if n == 0 then 0 else PartSum(s, a, n - 1) + s[a + n - 1]
  }

  /** Coefficient k with prediction between filters undone: of each of the m filters the first n coefficients add up. */
  function Accumulated(s: seq<int>, m: nat, n: nat, k: nat): int
    requires k < |s|
  {
    if k < m * 13 && k % 13 < n then ColumnSum(s, k) else s[k]
  }

  /** All coefficients after prediction is undone, if there is any. */
  function Predicted(s: seq<int>, m: nat, n: nat, delta: bool): (r: seq<int>)
    ensures |r| == |s|
  {
    if delta then seq(|s|, k requires 0 <= k < |s| => Accumulated(s, m, n, k)) else s
  }

  /** Coefficient k once each of the m filters has its centre coefficient, at position n. */
  function Centred(s: seq<int>, m: nat, n: nat, k: nat): int
    requires k < |s|
  {
    if k < m * 13 && k % 13 == n then FACTOR - 2 * PartSum(s, k - n, n) else s[k]
  }

  // ---- Rebuilding in place ----

  /** Adds to every filter the one before it. */
  method AddDeltas(coeff: array<int>, m: nat, n: nat)
    requires m * 13 <= coeff.Length && n < 13
    modifies coeff
    ensures forall k | 0 <= k < coeff.Length :: coeff[k] == Accumulated(old(coeff[..]), m, n, k)
  {
    ghost var s := coeff[..];
    var i := 1;
    while i < m
      invariant 1 <= i && (i <= m || i == 1)
      invariant forall k | 0 <= k < coeff.Length :: coeff[k] == Accumulated(s, i, n, k)
    {
      AddDelta(coeff, s, i, n);
      i := i + 1;
    }
    assert m <= 1 ==> forall k | 0 <= k < coeff.Length :: Accumulated(s, m, n, k) == Accumulated(s, 1, n, k);
  }

  lemma ColumnOf(i: nat, j: nat)
    requires j < 13
    ensures (i * 13 + j) % 13 == j
  {
  }

  /** One more filter has had its predecessor added. */
  lemma AccumulatedNext(s: seq<int>, i: nat, n: nat, k: nat)
    requires k < |s| && n < 13
    ensures Accumulated(s, i + 1, n, k) == if i * 13 <= k < i * 13 + n then ColumnSum(s, k) else Accumulated(s, i, n, k)
  {
    if i * 13 <= k < i * 13 + 13 {
      ColumnOf(i, k - i * 13);
    }
  }

  lemma AccumulatedBefore(s: seq<int>, i: nat, n: nat, j: nat)
    requires 1 <= i && j < n < 13 && i * 13 + j < |s|
    ensures Accumulated(s, i, n, (i - 1) * 13 + j) == ColumnSum(s, (i - 1) * 13 + j)
    ensures Accumulated(s, i, n, i * 13 + j) == s[i * 13 + j]
    ensures ColumnSum(s, i * 13 + j) == s[i * 13 + j] + ColumnSum(s, (i - 1) * 13 + j)
  {
    ColumnOf(i - 1, j);
  }

  method AddDelta(coeff: array<int>, ghost s: seq<int>, i: nat, n: nat)
    requires 1 <= i && (i + 1) * 13 <= coeff.Length == |s| && n < 13
    requires forall k | 0 <= k < coeff.Length :: coeff[k] == Accumulated(s, i, n, k)
    modifies coeff
    ensures forall k | 0 <= k < coeff.Length :: coeff[k] == Accumulated(s, i + 1, n, k)
  {
    var j := 0;
    while j < n
      invariant 0 <= j <= n
      invariant forall k | 0 <= k < coeff.Length ::
        coeff[k] == if i * 13 <= k < i * 13 + j then ColumnSum(s, k) else Accumulated(s, i, n, k)
    {
      AccumulatedBefore(s, i, n, j);
      coeff[i * 13 + j] := coeff[i * 13 + j] + coeff[(i - 1) * 13 + j];
      j := j + 1;
    }
    forall k | 0 <= k < coeff.Length
      ensures coeff[k] == Accumulated(s, i + 1, n, k)
    {
      AccumulatedNext(s, i, n, k);
    }
  }

  /** Gives every filter its centre coefficient. */
  method SetCentres(coeff: array<int>, m: nat, n: nat)
    requires m == 0 || (m - 1) * 13 + n < coeff.Length
    requires n < 13
    modifies coeff
    ensures forall k | 0 <= k < coeff.Length :: coeff[k] == Centred(old(coeff[..]), m, n, k)
  {
    ghost var s := coeff[..];
    for filterIdx := 0 to m
      invariant forall k | 0 <= k < coeff.Length :: coeff[k] == Centred(s, filterIdx, n, k)
    {
      var sum := TwiceSum(coeff, s, filterIdx * 13, n);
      coeff[filterIdx * 13 + n] := FACTOR - sum;
    }
  }

  method TwiceSum(coeff: array<int>, ghost s: seq<int>, a: nat, n: nat) returns (sum: int)
    requires a + n <= coeff.Length == |s|
    requires forall k | a <= k < a + n :: coeff[k] == s[k]
    ensures sum == 2 * PartSum(s, a, n)
  {
    sum := 0;
    for i := 0 to n
      invariant sum == 2 * PartSum(s, a, i)
    {
      sum := sum + coeff[a + i] * 2;
    }
  }

  /** Coefficient k once filters lo to m - 1 are differences again. */
  function Differenced(s: seq<int>, lo: nat, m: nat, n: nat, k: nat): int
    requires k < |s|
  {
    if 13 <= k && lo * 13 <= k < m * 13 && k % 13 < n then s[k] - s[k - 13] else s[k]
  }

  /** Takes from every filter the one before it, last filter first. */
  method SubtractDeltas(coeff: array<int>, m: nat, n: nat)
    requires m * 13 <= coeff.Length && n < 13
    modifies coeff
    ensures forall k | 0 <= k < coeff.Length :: coeff[k] == Differenced(old(coeff[..]), 1, m, n, k)
  {
    ghost var s := coeff[..];
    var i := m - 1;
    while i > 0
      invariant -1 <= i < m && (i >= 0 || m == 0)
      invariant forall k | 0 <= k < coeff.Length :: coeff[k] == Differenced(s, i + 1, m, n, k)
    {
      SubtractDelta(coeff, s, i, m, n);
      i := i - 1;
    }
  }

  method SubtractDelta(coeff: array<int>, ghost s: seq<int>, i: nat, m: nat, n: nat)
    requires 1 <= i < m && m * 13 <= coeff.Length == |s| && n < 13
    requires forall k | 0 <= k < coeff.Length :: coeff[k] == Differenced(s, i + 1, m, n, k)
    modifies coeff
    ensures forall k | 0 <= k < coeff.Length :: coeff[k] == Differenced(s, i, m, n, k)
  {
    var j := 0;
    while j < n
      invariant 0 <= j <= n
      invariant forall k | 0 <= k < coeff.Length ::
        coeff[k] == if i * 13 <= k < i * 13 + j then Differenced(s, i, m, n, k) else Differenced(s, i + 1, m, n, k)
    {
      coeff[i * 13 + j] := coeff[i * 13 + j] - coeff[(i - 1) * 13 + j];
      j := j + 1;
    }
  }

  /** Gives every class the coefficients of its filter. */
  method CopyToClasses(coeffFinal: array<int>, coeff: array<int>, deltaIdx: seq<nat>, numCoeff: nat)
    requires coeffFinal.Length == coeff.Length == 325 && coeffFinal != coeff && numCoeff <= 13
    requires |deltaIdx| == 25 && forall i | 0 <= i < 25 :: deltaIdx[i] < 25
    modifies coeffFinal
    ensures forall k | 0 <= k < 325 ::
      coeffFinal[k] == if k % 13 < numCoeff then coeff[deltaIdx[k / 13] * 13 + k % 13] else old(coeffFinal[k])
  {
    for classIdx := 0 to 25
      invariant forall k | 0 <= k < 325 ::
        coeffFinal[k] == if k < classIdx * 13 && k % 13 < numCoeff then coeff[deltaIdx[k / 13] * 13 + k % 13] else old(coeffFinal[k])
    {
      CopyToClass(coeffFinal, coeff, classIdx, deltaIdx[classIdx], numCoeff);
    }
  }

  method CopyToClass(coeffFinal: array<int>, coeff: array<int>, classIdx: nat, filterIdx: nat, numCoeff: nat)
    requires coeffFinal.Length == coeff.Length == 325 && coeffFinal != coeff && numCoeff <= 13
    requires classIdx < 25 && filterIdx < 25
    modifies coeffFinal
    ensures forall k | 0 <= k < 325 ::
      coeffFinal[k] == if classIdx * 13 <= k < classIdx * 13 + numCoeff then coeff[filterIdx * 13 + k - classIdx * 13] else old(coeffFinal[k])
  {
    for j := 0 to numCoeff
      invariant forall k | 0 <= k < 325 ::
        coeffFinal[k] == if classIdx * 13 <= k < classIdx * 13 + j then coeff[filterIdx * 13 + k - classIdx * 13] else old(coeffFinal[k])
    {
      coeffFinal[classIdx * 13 + j] := coeff[filterIdx * 13 + j];
    }
  }

  /** Rebuilds the luma filters and hands every class its own; with bRedo the coded differences are put back. */
  method ReconstructLumaCoeff(coeffFinal: array<int>, slice: AlfSliceParam, bRedo: bool)
    requires slice.Valid() && coeffFinal.Length == 325 && coeffFinal != slice.lumaCoeff
    modifies coeffFinal, slice.lumaCoeff
    ensures HandedOut(slice, old(slice.lumaCoeff[..]), coeffFinal[..])
    ensures forall k | 0 <= k < 325 && k % 13 >= slice.lumaFilterType.NumCoeff() :: coeffFinal[k] == old(coeffFinal[k])
    ensures forall k | 0 <= k < 325 ::
      slice.lumaCoeff[k] == if bRedo && slice.coeffDeltaPredModeFlag && k % 13 < slice.lumaFilterType.NumCoeff() - 1
                            then old(slice.lumaCoeff[k])
                            else Rebuilt(slice, old(slice.lumaCoeff[..]), k)
  {
    var coeff, m := slice.lumaCoeff, slice.numLumaFilters;
    var n := slice.lumaFilterType.NumCoeff() - 1;
    ghost var coded := coeff[..];
    ghost var predicted := Predicted(coded, m, n, slice.coeffDeltaPredModeFlag);
    if slice.coeffDeltaPredModeFlag {
      AddDeltas(coeff, m, n);
    }
    assert coeff[..] == predicted;
    SetCentres(coeff, m, n);
    CopyToClasses(coeffFinal, coeff, slice.filterCoeffDeltaIdx, n + 1);
    if bRedo && slice.coeffDeltaPredModeFlag {
      ghost var rebuilt := coeff[..];
      SubtractDeltas(coeff, m, n);
      DifferencesAreCoded(coded, rebuilt, m, n);
    }
  }

  /** Coefficient k of the rebuilt filters. */
  ghost function Rebuilt(slice: AlfSliceParam, coded: seq<int>, k: nat): int
    requires slice.Valid() && |coded| == 325 && k < 325
  {
    var n := slice.lumaFilterType.NumCoeff() - 1;
    Centred(Predicted(coded, slice.numLumaFilters, n, slice.coeffDeltaPredModeFlag), slice.numLumaFilters, n, k)
  }

  lemma DifferencesAreCoded(coded: seq<int>, rebuilt: seq<int>, m: nat, n: nat)
    requires |coded| == |rebuilt| && n < 13
    requires forall k | 0 <= k < |coded| :: rebuilt[k] == Centred(Predicted(coded, m, n, true), m, n, k)
    ensures forall k | 0 <= k < |coded| :: Differenced(rebuilt, 1, m, n, k) == if k % 13 < n then coded[k] else rebuilt[k]
  {
    forall k | 0 <= k < |coded| && k % 13 < n
      ensures Differenced(rebuilt, 1, m, n, k) == coded[k]
    {
      if 13 <= k < m * 13 {
        assert rebuilt[k] == ColumnSum(coded, k);
        assert rebuilt[k - 13] == ColumnSum(coded, k - 13);
      }
    }
  }

  /** Only the centre coefficient of the one chroma filter is rebuilt. */
  method ReconstructChromaCoeff(slice: AlfSliceParam)
    requires slice.Valid()
    modifies slice.chromaCoeff
    ensures forall k | 0 <= k < 6 :: slice.chromaCoeff[k] == old(slice.chromaCoeff[k])
    ensures slice.chromaCoeff[6] == FACTOR - 2 * PartSum(old(slice.chromaCoeff[..]), 0, 6)
    ensures Gain(Filter5, slice.chromaCoeff[..]) == FACTOR
  {
    ghost var s := slice.chromaCoeff[..];
    SetCentres(slice.chromaCoeff, 1, Filter5.NumCoeff() - 1);
    PartSumCongruence(s, 0, slice.chromaCoeff[..], 0, 6);
  }

  // ---- Normalised filters ----

  /** The coefficients class c uses. */
  function ClassFilter(coeffFinal: seq<int>, c: nat): (f: seq<int>)
    requires |coeffFinal| == 325 && c < 25
    ensures |f| == 13
  {
    coeffFinal[c * 13..c * 13 + 13]
  }

  /** What a filter does to a flat area, times 512: every tap but the centre weighs two samples. */
  function Gain(ft: FilterType, c: seq<int>): int
    requires |c| >= ft.NumCoeff()
  {
    2 * PartSum(c, 0, ft.NumCoeff() - 1) + c[ft.NumCoeff() - 1]
  }

  lemma {:induction false} PartSumCongruence(s: seq<int>, a: nat, t: seq<int>, b: nat, n: nat)
    requires a + n <= |s| && b + n <= |t|
    requires s[a..a + n] == t[b..b + n]
    ensures PartSum(s, a, n) == PartSum(t, b, n)
  {
    if n == 0 {
    } else {
      assert s[a..a + n - 1] == s[a..a + n][..n - 1] == t[b..b + n][..n - 1] == t[b..b + n - 1];
      assert s[a + n - 1] == s[a..a + n][n - 1] == t[b..b + n][n - 1] == t[b + n - 1];
      PartSumCongruence(s, a, t, b, n - 1);
    }
  }

  lemma FlatIndex(f: nat, j: nat)
    requires j < 13
    ensures (f * 13 + j) / 13 == f && (f * 13 + j) % 13 == j
  {
  }

  /** Class c's own coefficient j. */
  lemma OwnCoefficient(slice: AlfSliceParam, coded: seq<int>, final: seq<int>, c: nat, j: nat)
    requires slice.Valid() && |coded| == 325 && |final| == 325 && c < 25 && j < slice.lumaFilterType.NumCoeff()
    requires HandedOut(slice, coded, final)
    ensures ClassFilter(final, c)[j] == Rebuilt(slice, coded, slice.filterCoeffDeltaIdx[c] * 13 + j)
  {
    FlatIndex(c, j);
    assert ClassFilter(final, c)[j] == final[c * 13 + j];
  }

  /** Every class has the rebuilt coefficients of its filter. */
  ghost predicate HandedOut(slice: AlfSliceParam, coded: seq<int>, final: seq<int>) {
    slice.Valid() && |coded| == 325 && |final| == 325 && forall k | 0 <= k < 325 && k % 13 < slice.lumaFilterType.NumCoeff() ::
      final[k] == Rebuilt(slice, coded, slice.filterCoeffDeltaIdx[k / 13] * 13 + k % 13)
  }

  /** Coefficient j of rebuilt filter f. */
  lemma RebuiltCoefficient(slice: AlfSliceParam, coded: seq<int>, f: nat, j: nat)
    requires slice.Valid() && |coded| == 325 && f < slice.numLumaFilters && j < slice.lumaFilterType.NumCoeff()
    ensures var n := slice.lumaFilterType.NumCoeff() - 1;
      var predicted := Predicted(coded, slice.numLumaFilters, n, slice.coeffDeltaPredModeFlag);
      Rebuilt(slice, coded, f * 13 + j) == if j < n then predicted[f * 13 + j] else FACTOR - 2 * PartSum(predicted, f * 13, n)
  {
    FlatIndex(f, j);
  }

  /** Every class whose filter is among those coded gets coefficients that add up to 512. */
  lemma RebuiltFiltersAreNormalised(slice: AlfSliceParam, coded: seq<int>, final: seq<int>, c: nat)
    requires HandedOut(slice, coded, final) && c < 25
    requires slice.filterCoeffDeltaIdx[c] < slice.numLumaFilters
    ensures Gain(slice.lumaFilterType, ClassFilter(final, c)) == FACTOR
  {
    var f, n := slice.filterCoeffDeltaIdx[c], slice.lumaFilterType.NumCoeff() - 1;
    var predicted := Predicted(coded, slice.numLumaFilters, n, slice.coeffDeltaPredModeFlag);
    var own := ClassFilter(final, c);
    var mine, theirs := own[0..n], predicted[f * 13..f * 13 + n];
    forall j | 0 <= j < n
      ensures mine[j] == theirs[j]
    {
      OwnCoefficient(slice, coded, final, c, j);
      RebuiltCoefficient(slice, coded, f, j);
    }
    assert mine == theirs;
    PartSumCongruence(own, 0, predicted, f * 13, n);
    OwnCoefficient(slice, coded, final, c, n);
    RebuiltCoefficient(slice, coded, f, n);
  }

  /** The picture made brighter by k. */
  function Brighter(p: Pic, k: int): Pic {
    (x, y) => p(x, y) + k
  }

  lemma TransposedKeepsGain(ft: FilterType, c: seq<int>, t: nat)
    requires |c| >= ft.NumCoeff()
    ensures Gain(ft, Transposed(ft, c, t)) == Gain(ft, c)
  {
    GainSpelledOut(ft, c);
    GainSpelledOut(ft, Transposed(ft, c, t));
  }

  lemma GainSpelledOut(ft: FilterType, c: seq<int>)
    requires |c| >= ft.NumCoeff()
    ensures ft == Filter5 ==> Gain(ft, c) == 2 * (c[0] + c[1] + c[2] + c[3] + c[4] + c[5]) + c[6]
    ensures ft == Filter7 ==>
      Gain(ft, c) == 2 * (c[0] + c[1] + c[2] + c[3] + c[4] + c[5] + c[6] + c[7] + c[8] + c[9] + c[10] + c[11]) + c[12]
  {
    assert PartSum(c, 0, 1) == c[0];
    assert PartSum(c, 0, 3) == PartSum(c, 0, 1) + c[1] + c[2];
    assert PartSum(c, 0, 5) == PartSum(c, 0, 3) + c[3] + c[4];
    assert PartSum(c, 0, 6) == PartSum(c, 0, 5) + c[5];
    if ft == Filter7 {
      assert PartSum(c, 0, 8) == PartSum(c, 0, 6) + c[6] + c[7];
      assert PartSum(c, 0, 10) == PartSum(c, 0, 8) + c[8] + c[9];
      assert PartSum(c, 0, 12) == PartSum(c, 0, 10) + c[10] + c[11];
    }
  }

  lemma MulShift(a: int, b: int, k: int)
    ensures a * (b + 2 * k) == a * b + 2 * (k * a)
  {
  }

  /** One tap of the brighter picture. */
  lemma TapShift(c: int, p: Pic, k: int, x: int, y: int, dx: int, dy: int)
    ensures c * Pair(Brighter(p, k), x, y, dx, dy) == c * Pair(p, x, y, dx, dy) + 2 * (k * c)
  {
    assert Pair(Brighter(p, k), x, y, dx, dy) == Pair(p, x, y, dx, dy) + 2 * k;
    MulShift(c, Pair(p, x, y, dx, dy), k);
  }

  lemma Spread(k: int, a: int, b: int, c: int, d: int, e: int, f: int)
    ensures k * (a + b + c + d + e + f) == k * a + k * b + k * c + k * d + k * e + k * f
  {
  }

  lemma SpreadGain(k: int, s: int, t: int, centre: int)
    ensures k * (2 * (s + t) + centre) == 2 * (k * s) + 2 * (k * t) + k * centre
  {
  }

  lemma CentreShift(c: int, v: int, k: int)
    ensures c * (v + k) == c * v + k * c
  {
  }

  lemma SmallFilterOfBrighter(c: seq<int>, p: Pic, x: int, y: int, k: int)
    requires |c| >= 7
    ensures FilterSum(Filter5, c, Brighter(p, k), x, y) == FilterSum(Filter5, c, p, x, y) + k * Gain(Filter5, c)
  {
    GainSpelledOut(Filter5, c);
    var s := c[0] + c[1] + c[2] + c[3] + c[4] + c[5];
    Spread(k, c[0], c[1], c[2], c[3], c[4], c[5]);
    SpreadGain(k, s, 0, c[6]);
    assert Gain(Filter5, c) == 2 * (s + 0) + c[6];
    TapShift(c[0], p, k, x, y, 0, 2);
    TapShift(c[1], p, k, x, y, 1, 1);
    TapShift(c[2], p, k, x, y, 0, 1);
    TapShift(c[3], p, k, x, y, -1, 1);
    TapShift(c[4], p, k, x, y, 2, 0);
    TapShift(c[5], p, k, x, y, 1, 0);
    CentreShift(c[6], p(x, y), k);
  }

  lemma LargeFilterOfBrighter(c: seq<int>, p: Pic, x: int, y: int, k: int)
    requires |c| >= 13
    ensures FilterSum(Filter7, c, Brighter(p, k), x, y) == FilterSum(Filter7, c, p, x, y) + k * Gain(Filter7, c)
  {
    GainSpelledOut(Filter7, c);
    var s, t := c[0] + c[1] + c[2] + c[3] + c[4] + c[5], c[6] + c[7] + c[8] + c[9] + c[10] + c[11];
    Spread(k, c[0], c[1], c[2], c[3], c[4], c[5]);
    Spread(k, c[6], c[7], c[8], c[9], c[10], c[11]);
    SpreadGain(k, s, t, c[12]);
    assert Gain(Filter7, c) == 2 * (s + t) + c[12];
    TapShift(c[0], p, k, x, y, 0, 3);
    TapShift(c[1], p, k, x, y, 1, 2);
    TapShift(c[2], p, k, x, y, 0, 2);
    TapShift(c[3], p, k, x, y, -1, 2);
    TapShift(c[4], p, k, x, y, 2, 1);
    TapShift(c[5], p, k, x, y, 1, 1);
    TapShift(c[6], p, k, x, y, 0, 1);
    TapShift(c[7], p, k, x, y, -1, 1);
    TapShift(c[8], p, k, x, y, -2, 1);
    TapShift(c[9], p, k, x, y, 3, 0);
    TapShift(c[10], p, k, x, y, 2, 0);
    TapShift(c[11], p, k, x, y, 1, 0);
    CentreShift(c[12], p(x, y), k);
  }

  /** Filtering a brighter picture gives a sum brighter by the gain. */
  lemma FilterSumOfBrighter(ft: FilterType, c: seq<int>, p: Pic, x: int, y: int, k: int)
    requires |c| >= ft.NumCoeff()
    ensures FilterSum(ft, c, Brighter(p, k), x, y) == FilterSum(ft, c, p, x, y) + k * Gain(ft, c)
  {
    if ft == Filter5 {
      SmallFilterOfBrighter(c, p, x, y, k);
    } else {
      LargeFilterOfBrighter(c, p, x, y, k);
    }
  }

  /** With a normalised filter a brighter picture stays brighter by the same amount, before clipping. */
  lemma NormalisedFilterShifts(ft: FilterType, c: seq<int>, t: nat, p: Pic, x: int, y: int, k: int)
    requires |c| >= ft.NumCoeff() && Gain(ft, c) == FACTOR
    ensures Rounded(FilterSum(ft, Transposed(ft, c, t), Brighter(p, k), x, y))
         == Rounded(FilterSum(ft, Transposed(ft, c, t), p, x, y)) + k
  {
    TransposedKeepsGain(ft, c, t);
    FilterSumOfBrighter(ft, Transposed(ft, c, t), p, x, y, k);
  }

  /** The picture that is 0 throughout. */
  function Black(): Pic {
    (x, y) => 0
  }

  /** Where all samples of the filter's reach are equal and in range, a normalised filter changes nothing. */
  lemma FlatAreasAreFixed(ft: FilterType, c: seq<int>, t: nat, p: Pic, x: int, y: int, rng: ClpRng)
    requires |c| >= ft.NumCoeff() && Gain(ft, c) == FACTOR
    requires forall u: int, v: int | x - 3 <= u <= x + 3 && y - 3 <= v <= y + 3 :: p(u, v) == p(x, y)
    requires rng.min <= p(x, y) <= rng.max
    ensures FilteredSample(ft, c, t, p, x, y, rng) == p(x, y)
  {
    var flat := Brighter(Black(), p(x, y));
    assert forall u: int, v: int | x - 3 <= u <= x + 3 && y - 3 <= v <= y + 3 :: SameAt(p, flat, u, v);
    FilterSumCongruence(ft, Transposed(ft, c, t), p, flat, x, y);
    NormalisedFilterShifts(ft, c, t, Black(), x, y, p(x, y));
    BlackStaysBlack(ft, Transposed(ft, c, t), x, y);
  }

  lemma BlackStaysBlack(ft: FilterType, c: seq<int>, x: int, y: int)
    requires |c| >= ft.NumCoeff()
    ensures FilterSum(ft, c, Black(), x, y) == 0
  {
    assert forall dx: int, dy: int :: Pair(Black(), x, y, dx, dy) == 0;
  }
}
