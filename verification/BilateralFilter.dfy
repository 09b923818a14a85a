/**
 * The bilateral filter as the codec runs it: in place, one raster pass, each pair weight computed once and
 * handed to the right neighbour in two variables and to the lower neighbour in two row buffers.
 */
module BilateralFilter {
  import opened Arithmetic
  import opened Clipping
  import opened Reciprocal
  import opened CrossFilter
  import opened StridedBlock

  const MAX_CU_SIZE: nat := 128
  const MIN_FILTER_QP := 18
  const MAX_QP := 63
  const MAX_POS_LIST: seq<nat> := [
    6, 12, 18, 23, 29, 35, 41, 46, 52, 58, 64, 69, 75, 81, 87, 92, 98, 104, 110, 115, 121, 127, 133, 138, 144,
    150, 156, 161, 167, 173, 179, 184, 190, 196, 202, 207, 213, 219, 225, 230, 236, 242, 248, 253, 259, 265]

  /** A block inside a picture buffer. */
  datatype PelBuf = PelBuf(buf: array<int>, pos: nat, stride: nat, width: nat, height: nat) {
    /** Rows do not run into each other, and the last one ends inside the buffer. */
    ghost predicate Valid() {
      width <= stride && (height > 0 ==> pos + (height - 1) * stride + width <= buf.Length)
    }

    lemma RowsFit()
      requires Valid()
      ensures Fits(buf.Length, pos, stride, width, height)
    {
      FitsIff(buf.Length, pos, stride, width, height);
    }

    ghost function Samples(): (s: seq<int>)
      requires Valid()
      reads buf
      ensures |s| == Area(width, height)
    {
      RowsFit();
      Packed(buf[..], pos, stride, width, height)
    }

    /** The buffer contents `a` with this block replaced by s. */
    ghost function With(a: seq<int>, s: seq<int>): (r: seq<int>)
      requires Valid() && |a| == buf.Length && |s| == Area(width, height)
      ensures |r| == |a|
    {
      RowsFit();
      Unpacked(a, pos, stride, width, height, s)
    }

    /** With adjacent rows the block is one slice of the buffer ... */
    lemma AdjacentRows(a: seq<int>)
      requires Valid() && stride == width && height > 0 && |a| == buf.Length
      ensures Fits(|a|, pos, stride, width, height)
      ensures pos + Area(width, height) <= |a| && Packed(a, pos, stride, width, height) == a[pos..pos + Area(width, height)]
    {
      RowsFit();
      ContiguousPacked(a, pos, width, height);
    }

    /** ... and replacing the slice is replacing the block. */
    lemma ReplacedRange(was: seq<int>, now: seq<int>, s: seq<int>)
      requires Valid() && stride == width && height > 0 && |was| == |now| == buf.Length && |s| == Area(width, height)
      requires pos + Area(width, height) <= |was| && now[pos..pos + Area(width, height)] == s
      requires now[..pos] == was[..pos] && now[pos + Area(width, height)..] == was[pos + Area(width, height)..]
      ensures now == With(was, s)
    {
      RowsFit();
      Contiguous(was, now, pos, width, height);
    }

    ghost function RowAt(j: nat): nat {
      pos + j * stride
    }

    /** Position p of the buffer is in one of the block's rows. */
    ghost predicate Covers(p: nat) {
      exists j: nat :: j < height && RowAt(j) <= p < RowAt(j) + width
    }

    /** With new samples in the block they are read back, and before it, after it and between its rows the buffer stays. */
    lemma ReadBack(a: seq<int>, s: seq<int>, b: seq<int>)
      requires Valid() && |a| == buf.Length && |s| == Area(width, height) && b == With(a, s)
      ensures Fits(buf.Length, pos, stride, width, height) && Packed(b, pos, stride, width, height) == s
      ensures forall p: nat | p < |a| && !Covers(p) :: b[p] == a[p]
    {
      PackedUnpacked(a, pos, stride, width, height, s) by { RowsFit(); }
      RowsFit();
      forall p: nat | p < |a| && !Covers(p)
        ensures With(a, s)[p] == a[p]
      {
        forall j | 0 <= j < height
          ensures !(pos + j * stride <= p < pos + j * stride + width)
        {
          assert !(RowAt(j) <= p < RowAt(j) + width);
        }
        UnpackedElsewhere(a, pos, stride, width, height, s, p);
      }
    }
  }

  lemma Reassembled(was: seq<int>, now: seq<int>, i: nat, j: nat)
    requires i <= j <= |was| == |now| && now[..i] == was[..i] && now[j..] == was[j..]
    ensures now == Overwritten(was, i, now[i..j])
  {
    assert now == now[..i] + now[i..j] + now[j..];
  }

  /** Replacing a contiguous range is replacing the block, when rows are adjacent. */
  lemma Contiguous(was: seq<int>, now: seq<int>, pos: nat, W: nat, H: nat)
    requires Fits(|was|, pos, W, W, H) && pos + Area(W, H) <= |was| == |now|
    requires now[..pos] == was[..pos] && now[pos + Area(W, H)..] == was[pos + Area(W, H)..]
    ensures now == Unpacked(was, pos, W, W, H, now[pos..pos + Area(W, H)])
  {
    var e := pos + Area(W, H);
    ContiguousUnpacked(was, pos, W, H, now[pos..e]);
    Reassembled(was, now, pos, e);
  }

  function ClippedSum(a: seq<int>, b: seq<int>, rng: ClpRng): (r: seq<int>)
    requires |a| == |b|
    ensures |r| == |a|
  {
    seq(|a|, k requires 0 <= k < |a| => ClipPel(a[k] + b[k], rng))
  }

  /** Each sum becomes the value in range nearest to it; those beyond an end all become that end. */
  lemma ClippedSumMeaning(a: seq<int>, b: seq<int>, rng: ClpRng, k: nat)
    requires k < |a| == |b| && rng.min <= rng.max
    ensures Nearest(ClippedSum(a, b, rng)[k], a[k] + b[k], rng)
    ensures a[k] + b[k] >= rng.max ==> ClippedSum(a, b, rng)[k] == rng.max
    ensures a[k] + b[k] <= rng.min ==> ClippedSum(a, b, rng)[k] == rng.min
  {
    ClipIsNearest(a[k] + b[k], rng, ClipPel(a[k] + b[k], rng));
    assert rng.Has(rng.max) && rng.Has(rng.min);
  }

  function Difference(a: seq<int>, b: seq<int>): (r: seq<int>)
    requires |a| == |b|
    ensures |r| == |a|
  {
    seq(|a|, k requires 0 <= k < |a| => a[k] - b[k])
  }

  /** Filtering samples in a range gives samples in that range. */
  lemma FilteredStaysInRange(t: Table, s: seq<int>, W: nat, rng: ClpRng)
    requires |t.w| >= 1 && t.center >= 1 && W >= 1
    requires forall k | 0 <= k < |s| :: rng.min <= s[k] <= rng.max
    ensures forall k | 0 <= k < |s| :: rng.min <= CrossBlock(t, s, W)[k] <= rng.max
  {
    forall k | 0 <= k < |s| ensures rng.min <= CrossBlock(t, s, W)[k] <= rng.max {
      CrossStaysWithin(t, s, W, k, rng.min, rng.max);
    }
  }

  /** Where every sum is beyond one end of the range, filtering leaves that end everywhere. */
  lemma SaturatedStays(t: Table, a: seq<int>, b: seq<int>, W: nat, rng: ClpRng)
    requires |t.w| >= 1 && t.center >= 1 && W >= 1 && |a| == |b| && rng.min <= rng.max
    ensures (forall k | 0 <= k < |a| :: a[k] + b[k] >= rng.max) ==>
      forall k | 0 <= k < |a| :: CrossBlock(t, ClippedSum(a, b, rng), W)[k] == rng.max
    ensures (forall k | 0 <= k < |a| :: a[k] + b[k] <= rng.min) ==>
      forall k | 0 <= k < |a| :: CrossBlock(t, ClippedSum(a, b, rng), W)[k] == rng.min
  {
    forall k | 0 <= k < |a|
      ensures a[k] + b[k] >= rng.max ==> ClippedSum(a, b, rng)[k] == rng.max
      ensures a[k] + b[k] <= rng.min ==> ClippedSum(a, b, rng)[k] == rng.min
    {
      ClippedSumMeaning(a, b, rng, k);
    }
    if forall k | 0 <= k < |a| :: a[k] + b[k] >= rng.max {
      FilteredStaysInRange(t, ClippedSum(a, b, rng), W, ClpRng(rng.max, rng.max));
    }
    if forall k | 0 <= k < |a| :: a[k] + b[k] <= rng.min {
      FilteredStaysInRange(t, ClippedSum(a, b, rng), W, ClpRng(rng.min, rng.min));
    }
  }

  /** `memcpy` of every row of a block to adjacent rows. */
  method LoadRows(src: array<int>, pos: nat, stride: nat, W: nat, H: nat, dst: array<int>)
    requires src != dst && Fits(src.Length, pos, stride, W, H) && Area(W, H) <= dst.Length
    modifies dst
    ensures dst[..Area(W, H)] == Packed(src[..], pos, stride, W, H)
  {
    var p: nat, q: nat := pos, 0;
    ghost var S, all := src[..], Packed(src[..], pos, stride, W, H);
    ghost var rest := all;
    for j := 0 to H
      invariant src[..] == S && Cursor(S, p, stride, W, H - j, rest)
      invariant q + |rest| == |all| && dst[..q] + rest == all
    {
      ghost var before := dst[..q];
      Advance(S, p, stride, W, H - j, rest);
      CopyRow(src, p, W, dst, q);
      assert src[p..p + W] == S[p..p + W];
      LoadedRow(before, rest, W, dst[..q + W]);
      rest := rest[W..];
      p, q := p + stride, q + W;
    }
  }

  lemma LoadedRow(before: seq<int>, rest: seq<int>, W: nat, after: seq<int>)
    requires W <= |rest| && after == before + rest[..W]
    ensures after + rest[W..] == before + rest
  {
  }

  /** `memcpy` of adjacent rows back to the rows of a block. */
  method StoreRows(src: array<int>, dst: array<int>, pos: nat, stride: nat, W: nat, H: nat)
    requires src != dst && Fits(dst.Length, pos, stride, W, H) && Area(W, H) <= src.Length
    modifies dst
    ensures dst[..] == Unpacked(old(dst[..]), pos, stride, W, H, src[..Area(W, H)])
  {
    var p: nat, q: nat := pos, 0;
    ghost var n := Area(W, H);
    ghost var S, rest := src[..], src[..n];
    ghost var goal := Unpacked(dst[..], pos, stride, W, H, rest);
    assert S[0..n] == rest;
    for j := 0 to H
      invariant src[..] == S && q + |rest| == n && rest == S[q..n]
      invariant Pending(goal, dst[..], p, stride, W, H - j, rest)
    {
      SliceParts(S, q, n, W);
      StoreNext(src, q, dst, p, stride, W, H - j, goal, rest);
      rest := rest[W..];
      p, q := p + stride, q + W;
    }
  }

  method StoreNext(src: array<int>, q: nat, dst: array<int>, p: nat, stride: nat, W: nat,
                   ghost H: nat, ghost goal: seq<int>, ghost rest: seq<int>)
    requires src != dst && q + W <= src.Length && H > 0 && |rest| >= W && rest[..W] == src[..][q..q + W]
    requires Pending(goal, dst[..], p, stride, W, H, rest)
    modifies dst
    ensures Pending(goal, dst[..], p + stride, stride, W, H - 1, rest[W..])
  {
    assert src[q..q + W] == rest[..W];
    CopyRow(src, q, W, dst, p);
  }

  method CopyRow(src: array<int>, p: nat, W: nat, dst: array<int>, q: nat)
    requires src != dst && p + W <= src.Length && q + W <= dst.Length
    modifies dst
    ensures dst[..] == Overwritten(old(dst[..]), q, src[p..p + W])
    ensures dst[..q + W] == old(dst[..q]) + src[p..p + W]
  {
    for x := 0 to W
      invariant dst[..q] == old(dst[..q]) && dst[q + W..] == old(dst[q + W..])
      invariant dst[q..q + x] == src[p..p + x]
    {
      dst[q + x] := src[p + x];
    }
    assert dst[..] == dst[..q] + dst[q..q + W] + dst[q + W..];
    assert dst[..q + W] == dst[..q] + dst[q..q + W];
  }

  /** The clipped sum of prediction and residual, in adjacent rows. */
  method AddRows(predBuf: PelBuf, resiBuf: PelBuf, clpRng: ClpRng, dst: array<int>, ghost pred: seq<int>, ghost resi: seq<int>)
    requires predBuf.Valid() && resiBuf.Valid() && predBuf.width == resiBuf.width && predBuf.height == resiBuf.height
    requires dst != predBuf.buf && dst != resiBuf.buf && Area(predBuf.width, predBuf.height) <= dst.Length
    requires pred == predBuf.Samples() && resi == resiBuf.Samples()
    modifies dst
    ensures dst[..|pred|] == ClippedSum(pred, resi, clpRng)
  {
    predBuf.RowsFit();
    resiBuf.RowsFit();
    var W, H := predBuf.width, predBuf.height;
    var p: nat, r: nat, q: nat := predBuf.pos, resiBuf.pos, 0;
    var ps, rs, P, R := predBuf.stride, resiBuf.stride, predBuf.buf, resiBuf.buf;
    ghost var goal, left := ClippedSum(pred, resi, clpRng), H;
    ghost var done := dst[..0];
    assert dst[..0] == [];
    for j := 0 to H
      invariant left == H - j && q <= dst.Length && |goal| <= dst.Length
      invariant done == dst[..q]
      invariant Adding(goal, done, P[..], p, ps, R[..], r, rs, W, left, clpRng)
    {
      p, r, q, left, done := AddNext(P, p, ps, R, r, rs, W, clpRng, dst, q, left, goal);
    }
  }

  /** The sums of the last H rows of two blocks, behind those already done, give the goal. */
  ghost predicate Adding(goal: seq<int>, done: seq<int>, P: seq<int>, p: nat, ps: nat, R: seq<int>, r: nat, rs: nat,
                         W: nat, H: nat, rng: ClpRng) {
    Fits(|P|, p, ps, W, H) && Fits(|R|, r, rs, W, H)
    && goal == done + ClippedSum(Packed(P, p, ps, W, H), Packed(R, r, rs, W, H), rng)
  }

  method AddNext(pred: array<int>, p: nat, ps: nat, resi: array<int>, r: nat, rs: nat, W: nat, clpRng: ClpRng,
                 dst: array<int>, q: nat, ghost H: nat, ghost goal: seq<int>)
    returns (p': nat, r': nat, q': nat, ghost left: nat, ghost done: seq<int>)
    requires dst != pred && dst != resi && H > 0 && q <= dst.Length && |goal| <= dst.Length
    requires Adding(goal, dst[..q], pred[..], p, ps, resi[..], r, rs, W, H, clpRng)
    modifies dst
    ensures p' == p + ps && r' == r + rs && q' == q + W <= dst.Length && left == H - 1 && done == dst[..q']
    ensures Adding(goal, done, pred[..], p', ps, resi[..], r', rs, W, left, clpRng)
  {
    ghost var before, a, b := dst[..q], Packed(pred[..], p, ps, W, H), Packed(resi[..], r, rs, W, H);
    Advance(pred[..], p, ps, W, H, a);
    Advance(resi[..], r, rs, W, H, b);
    assert pred[p..p + W] == a[..W] && resi[r..r + W] == b[..W];
    AddRow(pred, p, resi, r, W, clpRng, dst, q);
    assert dst[..q + W] == before + dst[q..q + W];
    AddRowsStep(before, a, b, W, clpRng);
    p', r', q', left, done := p + ps, r + rs, q + W, H - 1, dst[..q + W];
  }

  lemma AddRowsStep(done: seq<int>, a: seq<int>, b: seq<int>, W: nat, rng: ClpRng)
    requires |a| == |b| && W <= |a|
    ensures done + ClippedSum(a, b, rng) == done + ClippedSum(a[..W], b[..W], rng) + ClippedSum(a[W..], b[W..], rng)
  {
    assert ClippedSum(a, b, rng) == ClippedSum(a[..W], b[..W], rng) + ClippedSum(a[W..], b[W..], rng);
  }

  method AddRow(pred: array<int>, p: nat, resi: array<int>, r: nat, W: nat, clpRng: ClpRng, dst: array<int>, q: nat)
    requires dst != pred && dst != resi && p + W <= pred.Length && r + W <= resi.Length && q + W <= dst.Length
    modifies dst
    ensures dst[..q] == old(dst[..q]) && dst[q..q + W] == ClippedSum(pred[p..p + W], resi[r..r + W], clpRng)
  {
    for x := 0 to W
      invariant dst[..q] == old(dst[..q])
      invariant dst[q..q + x] == ClippedSum(pred[p..p + x], resi[r..r + x], clpRng)
    {
      dst[q + x] := ClipPel(pred[p + x] + resi[r + x], clpRng);
    }
  }

  /** The residual becomes the filtered samples minus the prediction. */
  method SubtractRows(src: array<int>, predBuf: PelBuf, resiBuf: PelBuf, ghost pred: seq<int>, ghost filtered: seq<int>)
    requires predBuf.Valid() && resiBuf.Valid() && predBuf.width == resiBuf.width && predBuf.height == resiBuf.height
    requires resiBuf.buf != predBuf.buf && resiBuf.buf != src && |filtered| <= src.Length
    requires pred == predBuf.Samples() && |pred| == |filtered| && src[..|filtered|] == filtered
    modifies resiBuf.buf
    ensures resiBuf.buf[..] == resiBuf.With(old(resiBuf.buf[..]), Difference(filtered, pred))
  {
    predBuf.RowsFit();
    resiBuf.RowsFit();
    var W, H := predBuf.width, predBuf.height;
    var p: nat, r: nat, q: nat := predBuf.pos, resiBuf.pos, 0;
    var ps, rs, P, R := predBuf.stride, resiBuf.stride, predBuf.buf, resiBuf.buf;
    ghost var goal := resiBuf.With(resiBuf.buf[..], Difference(filtered, pred));
    ghost var S, n, rest, left := src[..], |filtered|, filtered, H;
    assert S[0..n] == filtered;
    for j := 0 to H
      invariant left == H - j && src[..] == S && q + |rest| == n && rest == S[q..n]
      invariant Subtracting(goal, R[..], r, rs, P[..], p, ps, W, left, rest)
    {
      SliceParts(S, q, n, W);
      p, r, q, left, rest := SubtractNext(src, q, P, p, ps, R, r, rs, W, left, goal, rest);
    }
  }

  /** Writing H more rows of s into `a` from r on gives the goal. */
  ghost predicate Pending(goal: seq<int>, a: seq<int>, r: nat, stride: nat, W: nat, H: nat, s: seq<int>) {
    Fits(|a|, r, stride, W, H) && |s| == Area(W, H) && goal == Unpacked(a, r, stride, W, H, s)
  }

  /** The rows still to write are the differences between `rest` and the last H rows of the other block. */
  ghost predicate Subtracting(goal: seq<int>, a: seq<int>, r: nat, rs: nat, P: seq<int>, p: nat, ps: nat, W: nat, H: nat, rest: seq<int>) {
    Fits(|P|, p, ps, W, H) && |rest| == Area(W, H)
    && Pending(goal, a, r, rs, W, H, Difference(rest, Packed(P, p, ps, W, H)))
  }

  method SubtractNext(src: array<int>, q: nat, pred: array<int>, p: nat, ps: nat, resi: array<int>, r: nat, rs: nat, W: nat,
                      ghost H: nat, ghost goal: seq<int>, ghost rest: seq<int>)
    returns (p': nat, r': nat, q': nat, ghost left: nat, ghost rest': seq<int>)
    requires resi != src && resi != pred && q + W <= src.Length && H > 0 && |rest| >= W && rest[..W] == src[..][q..q + W]
    requires Subtracting(goal, resi[..], r, rs, pred[..], p, ps, W, H, rest)
    modifies resi
    ensures p' == p + ps && r' == r + rs && q' == q + W && left == H - 1 && rest' == rest[W..]
    ensures Subtracting(goal, resi[..], r', rs, pred[..], p', ps, W, left, rest')
  {
    ghost var b := Packed(pred[..], p, ps, W, H);
    Advance(pred[..], p, ps, W, H, b);
    SubtractRowsStep(rest, b, W);
    assert src[q..q + W] == rest[..W] && pred[p..p + W] == b[..W];
    SubtractRow(src, q, pred, p, W, resi, r, rest[..W], b[..W]);
    p', r', q', left, rest' := p + ps, r + rs, q + W, H - 1, rest[W..];
  }

  lemma SliceParts(s: seq<int>, q: nat, n: nat, W: nat)
    requires q + W <= n <= |s|
    ensures s[q..n][..W] == s[q..q + W] && s[q..n][W..] == s[q + W..n]
  {
  }

  lemma SubtractRowsStep(a: seq<int>, b: seq<int>, W: nat)
    requires |a| == |b| && W <= |a|
    ensures Difference(a, b)[..W] == Difference(a[..W], b[..W]) && Difference(a, b)[W..] == Difference(a[W..], b[W..])
  {
  }

  method SubtractRow(src: array<int>, q: nat, pred: array<int>, p: nat, W: nat, resi: array<int>, r: nat, ghost a: seq<int>, ghost b: seq<int>)
    requires resi != src && resi != pred && q + W <= src.Length && p + W <= pred.Length && r + W <= resi.Length
    requires a == src[q..q + W] && b == pred[p..p + W]
    modifies resi
    ensures resi[..] == Overwritten(old(resi[..]), r, Difference(a, b))
  {
    for x := 0 to W
      invariant resi[..r] == old(resi[..r]) && resi[r + W..] == old(resi[r + W..])
      invariant resi[r..r + x] == Difference(src[q..q + x], pred[p..p + x])
    {
      resi[r + x] := src[q + x] - pred[p + x];
    }
    assert resi[..] == resi[..r] + resi[r..r + W] + resi[r + W..];
  }

  /** One filtering pass: the weights, the samples before and after it, and the row length. */
  datatype Pass = Pass(t: Table, s: seq<int>, r: seq<int>, W: nat) {
    ghost predicate Valid() {
      t.Admissible() && W >= 2 && |s| >= 2 * W && RowStart(W, |s|) && |r| == |s| && Filtered(|r|)
    }

    /** The first n samples of r are the out-of-place filter of s. */
    ghost predicate Filtered(n: nat)
      requires t.Admissible() && W >= 1 && n <= |r| == |s|
    {
      n == 0 || (Filtered(n - 1) && r[n - 1] == Cross(t, s, W, n - 1))
    }

    lemma {:induction false} FilteredAt(n: nat, k: nat)
      requires t.Admissible() && W >= 1 && k < n <= |r| == |s| && Filtered(n)
      ensures r[k] == Cross(t, s, W, k)
    {
      if k >= n - 1 {
      } else {
        FilteredAt(n - 1, k);
      }
    }

    lemma {:induction false} FilteredFrom(n: nat)
      requires t.Admissible() && W >= 1 && n <= |r| == |s| && r == CrossBlock(t, s, W)
      ensures Filtered(n)
    {
      if n == 0 {
      } else {
        FilteredFrom(n - 1);
      }
    }

    /** Sample k and the one below it. */
    function Below(k: nat): int
      requires k + W < |s|
    {
      s[k + W] - s[k]
    }
  }

  ghost function NewPass(t: Table, s: seq<int>, W: nat): (g: Pass)
    requires t.Admissible() && W >= 2 && |s| >= 2 * W && RowStart(W, |s|)
    ensures g.Valid() && g.t == t && g.s == s && g.W == W && g.r == CrossBlock(t, s, W)
  {
    var g := Pass(t, s, CrossBlock(t, s, W), W);
    g.FilteredFrom(|s|);
    g
  }

  ghost function PassOver(t: Table, s: seq<int>, W: nat, H: nat): (g: Pass)
    requires t.Admissible() && W >= 2 && H >= 2 && |s| == Area(W, H)
    ensures g.Valid() && g.t == t && g.s == s && g.W == W && g.r == CrossBlock(t, s, W)
  {
    AreaMono(W, 2, H);
    AreaIsRowStart(W, H);
    NewPass(t, s, W)
  }

  /** The block at off holds filtered samples before position n and original ones from there on. */
  ghost predicate Progress(g: Pass, block: array<int>, off: nat, n: nat)
    requires g.Valid() && off + |g.s| <= block.Length
    reads block
  {
    && (forall p | off <= p < off + |g.s| && p < off + n :: block[p] == g.r[p - off])
    && (forall p | off + n <= p < off + |g.s| :: block[p] == g.s[p - off])
  }

  lemma OutsideSlices(was: seq<int>, now: seq<int>, i: nat, j: nat)
    requires i <= j <= |was| == |now| && forall p | 0 <= p < |was| && !(i <= p < j) :: now[p] == was[p]
    ensures now[..i] == was[..i] && now[j..] == was[j..]
  {
  }

  lemma WholeBlock(g: Pass, block: array<int>, off: nat)
    requires g.Valid() && off + |g.s| <= block.Length && Progress(g, block, off, |g.s|)
    ensures block[off..off + |g.s|] == g.r
  {
    assert |g.r| == |g.s|;
    forall k | 0 <= k < |g.s| ensures block[off..off + |g.s|][k] == g.r[k] {
      assert block[off + k] == g.r[off + k - off];
    }
  }

  /** Positions not yet written still hold the original samples. */
  lemma ReadAhead(g: Pass, block: array<int>, off: nat, n: nat, k: nat)
    requires g.Valid() && off + |g.s| <= block.Length && Progress(g, block, off, n) && n <= k < |g.s|
    ensures block[off + k] == g.s[k]
  {
    assert block[off + k] == g.s[off + k - off];
  }

  /**
   * Between two pixels of the row at base, before column x: the row buffers hold the pairs of the row above
   * from column x on, and the pairs of this row with the row below before it.
   */
  ghost predicate Buffers(g: Pass, sumWeights: array<int>, sumDelta: array<int>, base: nat, x: nat)
    requires g.Valid() && base + g.W <= |g.s| && x <= g.W <= sumWeights.Length && g.W <= sumDelta.Length
    reads sumWeights, sumDelta
  {
    && (base >= g.W ==> forall c | x <= c < g.W ::
         sumWeights[c] == Weight(g.t, g.Below(base - g.W + c)) && sumDelta[c] == Pull(g.t, g.Below(base - g.W + c)))
    && (base + 2 * g.W <= |g.s| ==> forall c | 0 <= c < x ::
         sumWeights[c] == Weight(g.t, g.Below(base + c)) && sumDelta[c] == Pull(g.t, g.Below(base + c)))
  }

  /** What a pixel hands to the next one: its right neighbour's value, and the weight and pull of that pair. */
  datatype Carry = Carry(rightPixel: int, sumWeights: int, deltaSum: int)

  ghost predicate Carried(g: Pass, k: nat, c: Carry)
    requires g.Valid() && 1 <= k < |g.s|
  {
    c == Carry(g.s[k], Weight(g.t, g.s[k] - g.s[k - 1]), Pull(g.t, g.s[k] - g.s[k - 1]))
  }

  /** Positions that are a whole number of rows into the block. */
  ghost predicate RowStart(W: nat, base: nat)
    requires W >= 1
  {
    base == 0 || (base >= W && RowStart(W, base - W))
  }

  lemma {:induction false} RowStartIff(W: nat, base: nat)
    requires W >= 1
    ensures RowStart(W, base) <==> base % W == 0
  {
    if base < W {
      DivUnique(base, W, 0);
    } else {
      RowStartIff(W, base - W);
      var q := base / W;
      assert base == q * W + base % W;
      assert (q - 1) * W == q * W - W;
      DivUnique(base - W, W, q - 1);
    }
  }

  /** A row start before the end of the block is followed by a whole row. */
  lemma {:induction false} WholeRow(W: nat, base: nat, n: nat)
    requires W >= 1 && RowStart(W, base) && RowStart(W, n) && base < n
    ensures base + W <= n
  {
    if base == 0 {
    } else {
      WholeRow(W, base - W, n - W);
    }
  }

  lemma {:induction false} AreaIsRowStart(W: nat, j: nat)
    requires W >= 1
    ensures RowStart(W, Area(W, j))
  {
    if j == 0 {
    } else {
      AreaIsRowStart(W, j - 1);
    }
  }

  /** The sides of the sample at column x of the row starting at base. */
  lemma SidesInRow(s: seq<int>, W: nat, base: nat, x: nat)
    requires W >= 2 && RowStart(W, base) && RowStart(W, |s|) && x < W && base + W <= |s|
    ensures SidesOf(s, W, base + x) == Sides(x > 0, x < W - 1, base >= W, base + 2 * W <= |s|)
  {
    if base + W < |s| { WholeRow(W, base + W, |s|); }
    RowStartIff(W, base);
    assert base == (base / W) * W;
    DivUnique(base + x, W, base / W);
  }

  /**
   * The carried sums complete the picture: at column x of the row at base, what the row buffers and the previous
   * pixel hold, plus the two pairs computed here, is the total weight and delta of the out-of-place filter.
   */
  lemma PixelSums(g: Pass, base: nat, x: nat, sumWeights: array<int>, sumDelta: array<int>, c: Carry)
    requires g.Valid() && RowStart(g.W, base) && base + g.W <= |g.s| && x < g.W
    requires g.W <= sumWeights.Length && g.W <= sumDelta.Length
    requires Buffers(g, sumWeights, sumDelta, base, x) && (x >= 1 ==> Carried(g, base + x, c))
    ensures Total(g.t, g.s, g.W, base + x)
         == g.t.center + (if base >= g.W then sumWeights[x] else 0) + (if x >= 1 then c.sumWeights else 0)
            + (if x < g.W - 1 then Weight(g.t, g.s[base + x + 1] - g.s[base + x]) else 0)
            + (if base + 2 * g.W <= |g.s| then Weight(g.t, g.Below(base + x)) else 0)
    ensures Delta(g.t, g.s, g.W, base + x)
         == (if x < g.W - 1 then Pull(g.t, g.s[base + x + 1] - g.s[base + x]) else 0)
            + (if base + 2 * g.W <= |g.s| then Pull(g.t, g.Below(base + x)) else 0)
            - (if x >= 1 then c.deltaSum else 0) - (if base >= g.W then sumDelta[x] else 0)
  {
    SumsInRow(g.t, g.s, g.W, base, x);
    CarriedSides(g, base, x, sumWeights, sumDelta, c);
    NewSides(g, base, x);
  }

  /** What the right and the lower neighbour contribute. */
  lemma NewSides(g: Pass, base: nat, x: nat)
    requires g.Valid() && base + g.W <= |g.s| && x < g.W && (base + 2 * g.W <= |g.s| || base + g.W == |g.s|)
    ensures SideWeight(g.t, g.s, base + x, x < g.W - 1, base + x + 1)
         == if x < g.W - 1 then Weight(g.t, g.s[base + x + 1] - g.s[base + x]) else 0
    ensures SidePull(g.t, g.s, base + x, x < g.W - 1, base + x + 1)
         == if x < g.W - 1 then Pull(g.t, g.s[base + x + 1] - g.s[base + x]) else 0
    ensures SideWeight(g.t, g.s, base + x, base + 2 * g.W <= |g.s|, base + x + g.W)
         == if base + 2 * g.W <= |g.s| then Weight(g.t, g.Below(base + x)) else 0
    ensures SidePull(g.t, g.s, base + x, base + 2 * g.W <= |g.s|, base + x + g.W)
         == if base + 2 * g.W <= |g.s| then Pull(g.t, g.Below(base + x)) else 0
  {
  }

  /** The sides of a sample, by its column and the start of its row. */
  lemma SumsInRow(t: Table, s: seq<int>, W: nat, base: nat, x: nat)
    requires |t.w| >= 1 && W >= 2 && RowStart(W, base) && RowStart(W, |s|) && x < W && base + W <= |s|
    ensures base + 2 * W <= |s| || base + W == |s|
    ensures Total(t, s, W, base + x)
         == t.center + SideWeight(t, s, base + x, x > 0, base + x - 1) + SideWeight(t, s, base + x, x < W - 1, base + x + 1)
            + SideWeight(t, s, base + x, base >= W, base + x - W)
            + SideWeight(t, s, base + x, base + 2 * W <= |s|, base + x + W)
    ensures Delta(t, s, W, base + x)
         == SidePull(t, s, base + x, x > 0, base + x - 1) + SidePull(t, s, base + x, x < W - 1, base + x + 1)
            + SidePull(t, s, base + x, base >= W, base + x - W)
            + SidePull(t, s, base + x, base + 2 * W <= |s|, base + x + W)
  {
    SidesInRow(s, W, base, x);
    if base + W < |s| { WholeRow(W, base + W, |s|); }
  }

  /** What is carried is what the left and the upper neighbour contribute, seen from their side. */
  lemma CarriedSides(g: Pass, base: nat, x: nat, sumWeights: array<int>, sumDelta: array<int>, c: Carry)
    requires g.Valid() && base + g.W <= |g.s| && x < g.W
    requires g.W <= sumWeights.Length && g.W <= sumDelta.Length
    requires Buffers(g, sumWeights, sumDelta, base, x) && (x >= 1 ==> Carried(g, base + x, c))
    ensures SideWeight(g.t, g.s, base + x, x > 0, base + x - 1) == if x >= 1 then c.sumWeights else 0
    ensures SidePull(g.t, g.s, base + x, x > 0, base + x - 1) == if x >= 1 then -c.deltaSum else 0
    ensures SideWeight(g.t, g.s, base + x, base >= g.W, base + x - g.W) == if base >= g.W then sumWeights[x] else 0
    ensures SidePull(g.t, g.s, base + x, base >= g.W, base + x - g.W) == if base >= g.W then -sumDelta[x] else 0
  {
    if x >= 1 { WeightIsSymmetric(g.t, g.s[base + x] - g.s[base + x - 1]); }
    if base >= g.W { WeightIsSymmetric(g.t, g.Below(base - g.W + x)); }
  }

  /** The weight of a pair of samples and that weight times their difference. */
  method WeighPair(w: seq<nat>, from: int, to: int, ghost t: Table) returns (weight: nat, timesDelta: int)
    requires |w| >= 1 && t.w == w
    ensures weight == Weight(t, to - from) && timesDelta == Pull(t, to - from)
  {
    weight := w[Min(|w| - 1, Abs(to - from))];
    timesDelta := weight * (to - from);
  }

  /** The pair of the sample at cur with its right neighbour, which the next pixel takes over. */
  method LookRight(block: array<int>, off: nat, w: seq<nat>, cur: nat, centerPixel: int, ghost g: Pass) returns (c': Carry)
    requires g.Valid() && g.t.w == w && off + |g.s| <= block.Length && Progress(g, block, off, cur)
    requires cur + 1 < |g.s| && centerPixel == g.s[cur]
    ensures Carried(g, cur + 1, c')
  {
    ReadAhead(g, block, off, cur, cur + 1);
    var rightPixel := block[off + cur + 1];
    var rightWeight, rightWeightTimesdIR := WeighPair(w, centerPixel, rightPixel, g.t);
    c' := Carry(rightPixel, rightWeight, rightWeightTimesdIR);
  }

  /** The pair of the sample at cur with the one below it. */
  method LookDown(block: array<int>, off: nat, w: seq<nat>, W: nat, cur: nat, centerPixel: int, ghost g: Pass)
    returns (bottomWeight: nat, bottomWeightTimesdIB: int)
    requires g.Valid() && g.t.w == w && g.W == W && off + |g.s| <= block.Length && Progress(g, block, off, cur)
    requires cur + W < |g.s| && centerPixel == g.s[cur]
    ensures bottomWeight == Weight(g.t, g.Below(cur)) && bottomWeightTimesdIB == Pull(g.t, g.Below(cur))
  {
    ReadAhead(g, block, off, cur, cur + W);
    bottomWeight, bottomWeightTimesdIB := WeighPair(w, centerPixel, block[off + cur + W], g.t);
  }

  /** Keeps a pair for the row below. */
  method Remember(sumWeights: array<int>, sumDelta: array<int>, ghost base: nat, x: nat, weight: int, timesDelta: int,
                  ghost g: Pass)
    requires g.Valid() && g.W <= sumWeights.Length && g.W <= sumDelta.Length && sumWeights != sumDelta
    requires x < g.W && base + 2 * g.W <= |g.s| && Buffers(g, sumWeights, sumDelta, base, x)
    requires weight == Weight(g.t, g.Below(base + x)) && timesDelta == Pull(g.t, g.Below(base + x))
    modifies sumWeights, sumDelta
    ensures Buffers(g, sumWeights, sumDelta, base, x + 1)
  {
    sumWeights[x], sumDelta[x] := weight, timesDelta;
  }

  method Store(block: array<int>, off: nat, cur: nat, v: int, ghost g: Pass)
    requires g.Valid() && cur < |g.s| && off + |g.s| <= block.Length
    requires v == g.r[cur]
    requires Progress(g, block, off, cur)
    modifies block
    ensures Progress(g, block, off, cur + 1)
    ensures forall p | 0 <= p < block.Length && !(off <= p < off + |g.s|) :: block[p] == old(block[p])
  {
    block[off + cur] := v;
  }

  /** Before the pixel at column x of the row at base: what has been written, and what the row buffers hold. */
  ghost predicate At(g: Pass, block: array<int>, off: nat, sumWeights: array<int>, sumDelta: array<int>, base: nat, x: nat)
    reads block, sumWeights, sumDelta
  {
    && g.Valid() && off + |g.s| <= block.Length && g.W <= sumWeights.Length && g.W <= sumDelta.Length
    && block != sumWeights && block != sumDelta && sumWeights != sumDelta
    && RowStart(g.W, base) && base + g.W <= |g.s| && x <= g.W
    && Progress(g, block, off, base + x)
    && Buffers(g, sumWeights, sumDelta, base, x)
  }

  /** Column x is in the row at base, and the arrays are large enough and not the same. */
  ghost predicate InRow(g: Pass, block: array<int>, off: nat, sumWeights: array<int>, sumDelta: array<int>, base: nat, x: nat) {
    && g.Valid() && off + |g.s| <= block.Length && g.W <= sumWeights.Length && g.W <= sumDelta.Length
    && block != sumWeights && block != sumDelta && sumWeights != sumDelta
    && RowStart(g.W, base) && base + g.W <= |g.s| && x < g.W
  }

  lemma AtStart(g: Pass, block: array<int>, off: nat, sumWeights: array<int>, sumDelta: array<int>)
    requires g.Valid() && off + |g.s| <= block.Length && g.W <= sumWeights.Length && g.W <= sumDelta.Length
    requires block != sumWeights && block != sumDelta && sumWeights != sumDelta
    requires g.s == block[off..off + |g.s|]
    ensures At(g, block, off, sumWeights, sumDelta, 0, 0)
  {
    forall p | off <= p < off + |g.s| ensures block[p] == g.s[p - off] {
    }
  }

  twostate predicate OutsideUnchanged(g: Pass, block: array<int>, off: nat)
    reads block
  {
    forall p | 0 <= p < block.Length && !(off <= p < off + |g.s|) :: block[p] == old(block[p])
  }

  /** What a pixel case works out before it assigns: the sample, its delta and its total weight. */
  datatype Sums = Sums(centerPixel: int, deltaSum: int, sumWeights: int)

  ghost function SumsAt(g: Pass, k: nat): Sums
    requires g.Valid() && k < |g.s|
  {
    Sums(g.s[k], Delta(g.t, g.s, g.W, k), Total(g.t, g.s, g.W, k))
  }

  /** Stepping from the end of one row to the start of the next one changes no state. */
  lemma RowsLeft(W: nat, j: nat, H: nat, base: nat)
    requires base == Area(W, j) && j + 1 < H
    ensures base + W == Area(W, j + 1) && base + 2 * W <= Area(W, H)
  {
    AreaMono(W, j + 2, H);
  }

  lemma NextRow(g: Pass, block: array<int>, off: nat, sumWeights: array<int>, sumDelta: array<int>, base: nat)
    requires At(g, block, off, sumWeights, sumDelta, base, g.W) && base + 2 * g.W <= |g.s|
    ensures At(g, block, off, sumWeights, sumDelta, base + g.W, 0)
  {
  }

  /** Case A, top left: nothing to reuse; hands information right and down. */
  method PixelA(block: array<int>, off: nat, w: seq<nat>, centerWeight: nat, W: nat,
                sumWeights: array<int>, sumDelta: array<int>, ghost g: Pass) returns (px: Sums, c': Carry)
    requires g.t == Table(w, centerWeight) && g.W == W >= 2
    requires At(g, block, off, sumWeights, sumDelta, 0, 0)
    modifies sumWeights, sumDelta
    ensures px == SumsAt(g, 0) && Carried(g, 1, c')
    ensures Buffers(g, sumWeights, sumDelta, 0, 1)
  {
    PixelSums(g, 0, 0, sumWeights, sumDelta, Carry(0, 0, 0));
    var centerPixel := block[off];
    c' := LookRight(block, off, w, 0, centerPixel, g);
    var bottomWeight, bottomWeightTimesdIB := LookDown(block, off, w, W, 0, centerPixel, g);
    px := Sums(centerPixel, c'.deltaSum + bottomWeightTimesdIB,
               centerWeight + c'.sumWeights + bottomWeight);
    Remember(sumWeights, sumDelta, 0, 0, bottomWeight, bottomWeightTimesdIB, g);
  }

  /** Case B, top edge: reuses the previous pixel. */
  method PixelB(block: array<int>, off: nat, w: seq<nat>, centerWeight: nat, W: nat, i: nat,
                sumWeights: array<int>, sumDelta: array<int>, c: Carry, ghost g: Pass) returns (px: Sums, c': Carry)
    requires g.t == Table(w, centerWeight) && g.W == W >= 2
    requires At(g, block, off, sumWeights, sumDelta, 0, i)
    requires 1 <= i < W - 1
    requires Carried(g, i, c)
    modifies sumWeights, sumDelta
    ensures px == SumsAt(g, i) && Carried(g, i + 1, c')
    ensures Buffers(g, sumWeights, sumDelta, 0, i + 1)
  {
    PixelSums(g, 0, i, sumWeights, sumDelta, c);
    var centerPixel := c.rightPixel;
    c' := LookRight(block, off, w, i, centerPixel, g);
    var bottomWeight, bottomWeightTimesdIB := LookDown(block, off, w, W, i, centerPixel, g);
    px := Sums(centerPixel, c'.deltaSum + bottomWeightTimesdIB - c.deltaSum,
               centerWeight + c.sumWeights + c'.sumWeights + bottomWeight);
    Remember(sumWeights, sumDelta, 0, i, bottomWeight, bottomWeightTimesdIB, g);
  }

  /** Case C, top right: reuses the previous pixel, hands information down only. */
  method PixelC(block: array<int>, off: nat, w: seq<nat>, centerWeight: nat, W: nat,
                sumWeights: array<int>, sumDelta: array<int>, c: Carry, ghost g: Pass) returns (px: Sums)
    requires g.t == Table(w, centerWeight) && g.W == W >= 2
    requires At(g, block, off, sumWeights, sumDelta, 0, W - 1)
    requires Carried(g, W - 1, c)
    modifies sumWeights, sumDelta
    ensures px == SumsAt(g, W - 1)
    ensures Buffers(g, sumWeights, sumDelta, 0, W)
  {
    PixelSums(g, 0, W - 1, sumWeights, sumDelta, c);
    var centerPixel := c.rightPixel;
    var bottomWeight, bottomWeightTimesdIB := LookDown(block, off, w, W, W - 1, centerPixel, g);
    px := Sums(centerPixel, bottomWeightTimesdIB - c.deltaSum,
               centerWeight + c.sumWeights + bottomWeight);
    Remember(sumWeights, sumDelta, 0, W - 1, bottomWeight, bottomWeightTimesdIB, g);
  }

  /** Case D, left edge: reuses the previous row. */
  method PixelD(block: array<int>, off: nat, w: seq<nat>, centerWeight: nat, W: nat, base: nat,
                sumWeights: array<int>, sumDelta: array<int>, ghost g: Pass) returns (px: Sums, c': Carry, ghost k': nat)
    requires g.t == Table(w, centerWeight) && g.W == W >= 2
    requires At(g, block, off, sumWeights, sumDelta, base, 0)
    requires W <= base && base + 2 * W <= |g.s|
    modifies sumWeights, sumDelta
    ensures px == SumsAt(g, base) && k' == base + 1 && Carried(g, k', c')
    ensures Buffers(g, sumWeights, sumDelta, base, 1)
  {
    PixelSums(g, base, 0, sumWeights, sumDelta, Carry(0, 0, 0));
    ReadAhead(g, block, off, base, base);
    var centerPixel := block[off + base];
    c' := LookRight(block, off, w, base, centerPixel, g);
    k' := base + 1;
    var bottomWeight, bottomWeightTimesdIB := LookDown(block, off, w, W, base, centerPixel, g);
    px := Sums(centerPixel, c'.deltaSum + bottomWeightTimesdIB - sumDelta[0],
               centerWeight + sumWeights[0] + c'.sumWeights + bottomWeight);
    Remember(sumWeights, sumDelta, base, 0, bottomWeight, bottomWeightTimesdIB, g);
  }

  /** Case E, interior: reuses the previous row and the previous pixel. */
  method PixelE(block: array<int>, off: nat, w: seq<nat>, centerWeight: nat, W: nat, base: nat, i: nat,
                sumWeights: array<int>, sumDelta: array<int>, c: Carry, ghost k: nat, ghost g: Pass) returns (px: Sums, c': Carry, ghost k': nat)
    requires g.t == Table(w, centerWeight) && g.W == W >= 2
    requires At(g, block, off, sumWeights, sumDelta, base, i)
    requires W <= base && base + 2 * W <= |g.s| && 1 <= i < W - 1
    requires k == base + i && Carried(g, k, c)
    modifies sumWeights, sumDelta
    ensures px == SumsAt(g, base + i) && k' == base + i + 1 && Carried(g, k', c')
    ensures Buffers(g, sumWeights, sumDelta, base, i + 1)
  {
    PixelSums(g, base, i, sumWeights, sumDelta, c);
    var centerPixel := c.rightPixel;
    c' := LookRight(block, off, w, base + i, centerPixel, g);
    k' := base + i + 1;
    var bottomWeight, bottomWeightTimesdIB := LookDown(block, off, w, W, base + i, centerPixel, g);
    px := Sums(centerPixel, c'.deltaSum + bottomWeightTimesdIB - c.deltaSum - sumDelta[i],
               centerWeight + sumWeights[i] + c.sumWeights + c'.sumWeights + bottomWeight);
    Remember(sumWeights, sumDelta, base, i, bottomWeight, bottomWeightTimesdIB, g);
  }

  /** Case F, right edge: reuses both, hands information down only. */
  method PixelF(block: array<int>, off: nat, w: seq<nat>, centerWeight: nat, W: nat, base: nat,
                sumWeights: array<int>, sumDelta: array<int>, c: Carry, ghost k: nat, ghost g: Pass) returns (px: Sums)
    requires g.t == Table(w, centerWeight) && g.W == W >= 2
    requires At(g, block, off, sumWeights, sumDelta, base, W - 1)
    requires W <= base && base + 2 * W <= |g.s|
    requires k == base + W - 1 && Carried(g, k, c)
    modifies sumWeights, sumDelta
    ensures px == SumsAt(g, base + W - 1)
    ensures Buffers(g, sumWeights, sumDelta, base, W)
  {
    PixelSums(g, base, W - 1, sumWeights, sumDelta, c);
    var centerPixel := c.rightPixel;
    var bottomWeight, bottomWeightTimesdIB := LookDown(block, off, w, W, base + W - 1, centerPixel, g);
    px := Sums(centerPixel, bottomWeightTimesdIB - c.deltaSum - sumDelta[W - 1],
               centerWeight + sumWeights[W - 1] + c.sumWeights + bottomWeight);
    Remember(sumWeights, sumDelta, base, W - 1, bottomWeight, bottomWeightTimesdIB, g);
  }

  /** Case G, bottom left: reuses the previous row, hands information right only. */
  method PixelG(block: array<int>, off: nat, w: seq<nat>, centerWeight: nat, W: nat, base: nat,
                sumWeights: array<int>, sumDelta: array<int>, ghost g: Pass) returns (px: Sums, c': Carry, ghost k': nat)
    requires g.t == Table(w, centerWeight) && g.W == W >= 2
    requires At(g, block, off, sumWeights, sumDelta, base, 0)
    requires W <= base && base + W == |g.s|
    ensures px == SumsAt(g, base) && k' == base + 1 && Carried(g, k', c')
  {
    PixelSums(g, base, 0, sumWeights, sumDelta, Carry(0, 0, 0));
    ReadAhead(g, block, off, base, base);
    var centerPixel := block[off + base];
    c' := LookRight(block, off, w, base, centerPixel, g);
    k' := base + 1;
    px := Sums(centerPixel, c'.deltaSum - sumDelta[0],
               centerWeight + sumWeights[0] + c'.sumWeights);
  }

  /** Case H, bottom edge: reuses both, hands information right only. */
  method PixelH(block: array<int>, off: nat, w: seq<nat>, centerWeight: nat, W: nat, base: nat, i: nat,
                sumWeights: array<int>, sumDelta: array<int>, c: Carry, ghost k: nat, ghost g: Pass) returns (px: Sums, c': Carry, ghost k': nat)
    requires g.t == Table(w, centerWeight) && g.W == W >= 2
    requires At(g, block, off, sumWeights, sumDelta, base, i)
    requires W <= base && base + W == |g.s| && 1 <= i < W - 1
    requires k == base + i && Carried(g, k, c)
    ensures px == SumsAt(g, base + i) && k' == base + i + 1 && Carried(g, k', c')
  {
    PixelSums(g, base, i, sumWeights, sumDelta, c);
    var centerPixel := c.rightPixel;
    c' := LookRight(block, off, w, base + i, centerPixel, g);
    k' := base + i + 1;
    px := Sums(centerPixel, c'.deltaSum - c.deltaSum - sumDelta[i],
               centerWeight + sumWeights[i] + c.sumWeights + c'.sumWeights);
  }

  /** Case I, bottom right: reuses both, computes no new pair. */
  method PixelI(block: array<int>, off: nat, w: seq<nat>, centerWeight: nat, W: nat, base: nat,
                sumWeights: array<int>, sumDelta: array<int>, c: Carry, ghost k: nat, ghost g: Pass) returns (px: Sums)
    requires g.t == Table(w, centerWeight) && g.W == W >= 2
    requires At(g, block, off, sumWeights, sumDelta, base, W - 1)
    requires W <= base && base + W == |g.s|
    requires k == base + W - 1 && Carried(g, k, c)
    ensures px == SumsAt(g, base + W - 1)
  {
    PixelSums(g, base, W - 1, sumWeights, sumDelta, c);
    var centerPixel := c.rightPixel;
    px := Sums(centerPixel, -c.deltaSum - sumDelta[W - 1],
               centerWeight + sumWeights[W - 1] + c.sumWeights);
  }

  class BilateralFilter {
    const m_bilateralFilterTable: seq<seq<nat>>
    const m_bilateralCenterWeightTable: seq<nat>
    const tempblock: array<int>
    const divToMulOneOverN: array<int>
    const divToMulShift: array<nat>

    ghost predicate Separate()
    {
      && tempblock.Length == MAX_CU_SIZE * MAX_CU_SIZE
      && divToMulOneOverN.Length == divToMulShift.Length == MAX_DENOMINATOR_PLUS_ONE
      && tempblock != divToMulOneOverN
      && tempblock as object != divToMulShift as object
      && divToMulOneOverN as object != divToMulShift as object
    }

    /** The tables made by `createBilateralFilterTable`, for every quantiser and every centre weight. */
    ghost predicate TablesCreated()
    {
      && |m_bilateralFilterTable| == |MAX_POS_LIST|
      && |m_bilateralCenterWeightTable| == 5
      && forall q, i | 0 <= q < |m_bilateralFilterTable| && 0 <= i < 5 ::
           && |m_bilateralFilterTable[q]| == MAX_POS_LIST[q] + 1
           && Table(m_bilateralFilterTable[q], m_bilateralCenterWeightTable[i]).Admissible()
    }

    ghost predicate LutsCreated()
      reads divToMulOneOverN, divToMulShift
    {
      && Separate()
      && forall n | 1 <= n < MAX_DENOMINATOR_PLUS_ONE ::
           divToMulOneOverN[n] == Entry(BITS_PER_DIV_LUT_ENTRY, n) && divToMulShift[n] == FloorLog2(n)
    }

    ghost predicate Ready()
      reads divToMulOneOverN, divToMulShift
    {
      TablesCreated() && LutsCreated()
    }

    constructor (filterTable: seq<seq<nat>>, centerTable: seq<nat>)
      ensures m_bilateralFilterTable == filterTable && m_bilateralCenterWeightTable == centerTable
      ensures LutsCreated()
      ensures fresh(tempblock) && fresh(divToMulOneOverN) && fresh(divToMulShift)
    {
      m_bilateralFilterTable := filterTable;
      m_bilateralCenterWeightTable := centerTable;
      tempblock := new int[MAX_CU_SIZE * MAX_CU_SIZE];
      divToMulOneOverN := new int[MAX_DENOMINATOR_PLUS_ONE];
      divToMulShift := new nat[MAX_DENOMINATOR_PLUS_ONE];
      new;
      CreateDivToMulLuts();
    }

    /** Fills the reciprocal table: the most shifted reciprocal that does not exceed one, rounded up. */
    method CreateDivToMulLuts()
      requires Separate()
      modifies divToMulOneOverN, divToMulShift
      ensures LutsCreated()
    {
      divToMulOneOverN[0] := Pow2(BITS_PER_DIV_LUT_ENTRY);
      divToMulShift[0] := 0;
      for n := 1 to MAX_DENOMINATOR_PLUS_ONE
        invariant forall i | 1 <= i < n ::
          divToMulOneOverN[i] == Entry(BITS_PER_DIV_LUT_ENTRY, i) && divToMulShift[i] == FloorLog2(i)
      {
        CreateEntry(n);
      }
    }

    /** One round of the loop that fills the reciprocal table. */
    method CreateEntry(n: nat)
      requires Separate() && 1 <= n < MAX_DENOMINATOR_PLUS_ONE
      modifies divToMulOneOverN, divToMulShift
      ensures divToMulOneOverN[n] == Entry(BITS_PER_DIV_LUT_ENTRY, n) && divToMulShift[n] == FloorLog2(n)
      ensures forall i | 0 <= i < MAX_DENOMINATOR_PLUS_ONE && i != n ::
        divToMulOneOverN[i] == old(divToMulOneOverN[i]) && divToMulShift[i] == old(divToMulShift[i])
    {
      var one := Pow2(BITS_PER_DIV_LUT_ENTRY);
      Pow2Values();
      var tryLut := one / n;
      var tryShift := 0;
      DivUpper(one, n);
      while tryLut <= one
        invariant 0 <= tryShift <= n
        invariant tryLut == one * Pow2(tryShift) / n
        invariant tryShift == 0 ==> tryLut <= one
        invariant tryShift > 0 ==>
          && divToMulShift[n] == tryShift - 1
          && divToMulOneOverN[n] == one * Pow2(tryShift - 1) / n <= one
        invariant forall i | 0 <= i < MAX_DENOMINATOR_PLUS_ONE && i != n ::
          divToMulOneOverN[i] == old(divToMulOneOverN[i]) && divToMulShift[i] == old(divToMulShift[i])
        decreases n - tryShift
      {
        ShiftBelow(one, n, tryShift);
        divToMulOneOverN[n] := tryLut;
        divToMulShift[n] := tryShift;
        tryShift := tryShift + 1;
        tryLut := one * Pow2(tryShift) / n;
      }
      LastShift(one, n, tryShift - 1);
      var adiv := divToMulOneOverN[n] * n / (one * Pow2(divToMulShift[n]));
      EntryFromFloor(n, tryShift - 1, adiv);
      if adiv != 1 {
        divToMulOneOverN[n] := divToMulOneOverN[n] + 1;
      }
    }

    /** The value every unrolled pixel case assigns, with the sign handled as the code does. */
    function Smoothed(centerPixel: int, deltaSum: int, sumWeights: nat): int
      requires LutsCreated() && sumWeights < MAX_DENOMINATOR_PLUS_ONE
      reads divToMulOneOverN, divToMulShift
    {
      var mySignIfNeg := SignIfNeg(deltaSum);
      var mySign := if mySignIfNeg == -1 then -1 else 1;
      centerPixel + mySign *
        ((mySign * deltaSum + (sumWeights + mySignIfNeg) / 2) * divToMulOneOverN[sumWeights]
         / Pow2(BITS_PER_DIV_LUT_ENTRY + divToMulShift[sumWeights]))
    }

    /** Multiplying and shifting divides exactly. */
    lemma TableDivides(b: nat, n: nat)
      requires LutsCreated() && 1 <= n < MAX_DENOMINATOR_PLUS_ONE && b <= 8192
      ensures b * divToMulOneOverN[n] / Pow2(BITS_PER_DIV_LUT_ENTRY + divToMulShift[n]) == b / n
    {
      Pow2Values();
      ExactToHalfScale(BITS_PER_DIV_LUT_ENTRY, n, b);
    }

    lemma SmoothedRounds(centerPixel: int, deltaSum: int, sumWeights: nat)
      requires LutsCreated() && 1 <= sumWeights < MAX_DENOMINATOR_PLUS_ONE
      requires Abs(deltaSum) + sumWeights / 2 <= 8192
      ensures Smoothed(centerPixel, deltaSum, sumWeights) == centerPixel + RoundHalfUp(deltaSum, sumWeights)
    {
      SignTrickRoundsHalfUp(deltaSum, sumWeights);
      TableDivides(Biased(deltaSum, sumWeights), sumWeights);
    }

    lemma SmoothedIsCross(g: Pass, cur: nat)
      requires LutsCreated() && g.Valid() && cur < |g.s|
      ensures Total(g.t, g.s, g.W, cur) < MAX_DENOMINATOR_PLUS_ONE
      ensures Smoothed(g.s[cur], Delta(g.t, g.s, g.W, cur), Total(g.t, g.s, g.W, cur)) == g.r[cur]
    {
      g.FilteredAt(|g.r|, cur);
      SampleFits(g.t, g.s, g.W, cur);
      SmoothedRounds(g.s[cur], Delta(g.t, g.s, g.W, cur), Total(g.t, g.s, g.W, cur));
    }

    /** The assignment every unrolled pixel case ends with. */
    method WritePixel(block: array<int>, off: nat, cur: nat, px: Sums, ghost g: Pass)
      requires LutsCreated() && g.Valid() && cur < |g.s| && off + |g.s| <= block.Length
      requires block != divToMulOneOverN && block as object != divToMulShift as object
      requires px == SumsAt(g, cur) && Progress(g, block, off, cur)
      modifies block
      ensures Progress(g, block, off, cur + 1) && OutsideUnchanged(g, block, off)
    {
      SmoothedIsCross(g, cur);
      var v := Smoothed(px.centerPixel, px.deltaSum, px.sumWeights);
      Store(block, off, cur, v, g);
    }

    /** The same, once the row buffers are ready for the next column. */
    method WritePixelAt(block: array<int>, off: nat, base: nat, x: nat, px: Sums, sumWeights: array<int>, sumDelta: array<int>, ghost g: Pass)
      requires Apart(block, sumWeights, sumDelta) && InRow(g, block, off, sumWeights, sumDelta, base, x)
      requires Progress(g, block, off, base + x) && Buffers(g, sumWeights, sumDelta, base, x + 1) && px == SumsAt(g, base + x)
      modifies block
      ensures At(g, block, off, sumWeights, sumDelta, base, x + 1) && OutsideUnchanged(g, block, off)
    {
      WritePixel(block, off, base + x, px, g);
    }

    /** The block and the row buffers are none of this object's tables. */
    ghost predicate Apart(block: array<int>, sumWeights: array<int>, sumDelta: array<int>)
      reads divToMulOneOverN, divToMulShift
    {
      && LutsCreated()
      && block != divToMulOneOverN && block as object != divToMulShift as object
      && sumWeights != divToMulOneOverN && sumWeights as object != divToMulShift as object
      && sumDelta != divToMulOneOverN && sumDelta as object != divToMulShift as object
    }

    /** The first row: one pixel A, then B up to the last column, then C. */
    method FirstRow(block: array<int>, off: nat, w: seq<nat>, centerWeight: nat, W: nat,
                    sumWeights: array<int>, sumDelta: array<int>, ghost g: Pass)
      requires Apart(block, sumWeights, sumDelta) && g.t == Table(w, centerWeight) && g.W == W >= 2
      requires At(g, block, off, sumWeights, sumDelta, 0, 0)
      modifies block, sumWeights, sumDelta
      ensures At(g, block, off, sumWeights, sumDelta, 0, W) && OutsideUnchanged(g, block, off)
    {
      var px, c := PixelA(block, off, w, centerWeight, W, sumWeights, sumDelta, g);
      WritePixelAt(block, off, 0, 0, px, sumWeights, sumDelta, g);
      for i := 1 to W - 1
        invariant At(g, block, off, sumWeights, sumDelta, 0, i) && Carried(g, i, c)
        invariant OutsideUnchanged(g, block, off)
      {
        px, c := PixelB(block, off, w, centerWeight, W, i, sumWeights, sumDelta, c, g);
        WritePixelAt(block, off, 0, i, px, sumWeights, sumDelta, g);
      }
      px := PixelC(block, off, w, centerWeight, W, sumWeights, sumDelta, c, g);
      WritePixelAt(block, off, 0, W - 1, px, sumWeights, sumDelta, g);
    }

    /** A row between the first and the last: D, then E, then F. */
    method InnerRow(block: array<int>, off: nat, w: seq<nat>, centerWeight: nat, W: nat, base: nat,
                    sumWeights: array<int>, sumDelta: array<int>, ghost g: Pass)
      requires Apart(block, sumWeights, sumDelta) && g.t == Table(w, centerWeight) && g.W == W >= 2
      requires At(g, block, off, sumWeights, sumDelta, base, 0) && W <= base && base + 2 * W <= |g.s|
      modifies block, sumWeights, sumDelta
      ensures At(g, block, off, sumWeights, sumDelta, base, W) && OutsideUnchanged(g, block, off)
    {
      var px, c, k := PixelD(block, off, w, centerWeight, W, base, sumWeights, sumDelta, g);
      WritePixelAt(block, off, base, 0, px, sumWeights, sumDelta, g);
      for i := 1 to W - 1
        invariant At(g, block, off, sumWeights, sumDelta, base, i) && k == base + i && Carried(g, k, c)
        invariant OutsideUnchanged(g, block, off)
      {
        px, c, k := PixelE(block, off, w, centerWeight, W, base, i, sumWeights, sumDelta, c, k, g);
        WritePixelAt(block, off, base, i, px, sumWeights, sumDelta, g);
      }
      px := PixelF(block, off, w, centerWeight, W, base, sumWeights, sumDelta, c, k, g);
      WritePixelAt(block, off, base, W - 1, px, sumWeights, sumDelta, g);
    }

    /** The last row: G, then H, then I. */
    method LastRow(block: array<int>, off: nat, w: seq<nat>, centerWeight: nat, W: nat, base: nat,
                    sumWeights: array<int>, sumDelta: array<int>, ghost g: Pass)
      requires Apart(block, sumWeights, sumDelta) && g.t == Table(w, centerWeight) && g.W == W >= 2
      requires At(g, block, off, sumWeights, sumDelta, base, 0) && W <= base && base + W == |g.s|
      modifies block, sumWeights, sumDelta
      ensures At(g, block, off, sumWeights, sumDelta, base, W) && OutsideUnchanged(g, block, off)
    {
      var px, c, k := PixelG(block, off, w, centerWeight, W, base, sumWeights, sumDelta, g);
      WritePixelAt(block, off, base, 0, px, sumWeights, sumDelta, g);
      for i := 1 to W - 1
        invariant At(g, block, off, sumWeights, sumDelta, base, i) && k == base + i && Carried(g, k, c)
        invariant OutsideUnchanged(g, block, off)
      {
        px, c, k := PixelH(block, off, w, centerWeight, W, base, i, sumWeights, sumDelta, c, k, g);
        WritePixelAt(block, off, base, i, px, sumWeights, sumDelta, g);
      }
      px := PixelI(block, off, w, centerWeight, W, base, sumWeights, sumDelta, c, k, g);
      WritePixelAt(block, off, base, W - 1, px, sumWeights, sumDelta, g);
    }

    /**
     * Smooths the block at off, of row length uiWidth, in place. Each sample ends as the out-of-place filter of
     * the samples before the call; nothing outside the block changes.
     */
    method SmoothBlockBilateralFilter(uiWidth: nat, uiHeight: nat, block: array<int>, off: nat, isInterBlock: bool, qp: int)
      requires Ready() && MIN_FILTER_QP <= qp <= MAX_QP
      requires 2 <= uiWidth <= MAX_CU_SIZE && 2 <= uiHeight <= MAX_CU_SIZE && off + Area(uiWidth, uiHeight) <= block.Length
      requires CenterIndex(uiWidth, uiHeight, isInterBlock) < 5
      requires block != divToMulOneOverN && block as object != divToMulShift as object
      modifies block
      ensures block[off..off + Area(uiWidth, uiHeight)]
           == CrossBlock(TableFor(uiWidth, uiHeight, isInterBlock, qp), old(block[off..off + Area(uiWidth, uiHeight)]), uiWidth)
      ensures block[..off] == old(block[..off])
      ensures block[off + Area(uiWidth, uiHeight)..] == old(block[off + Area(uiWidth, uiHeight)..])
    {
      var sumWeights := new int[MAX_CU_SIZE];
      var sumDelta := new int[MAX_CU_SIZE];
      var centerWeight := m_bilateralCenterWeightTable[CenterIndex(uiWidth, uiHeight, isInterBlock)];
      var w := m_bilateralFilterTable[qp - MIN_FILTER_QP];
      ghost var g := PassOver(Table(w, centerWeight), block[off..off + Area(uiWidth, uiHeight)], uiWidth, uiHeight);
      Smooth(uiWidth, uiHeight, block, off, w, centerWeight, sumWeights, sumDelta, g);
    }

    /** The pass with its weight table, centre weight and row buffers at hand. */
    method Smooth(W: nat, H: nat, block: array<int>, off: nat, w: seq<nat>, centerWeight: nat,
                  sumWeights: array<int>, sumDelta: array<int>, ghost g: Pass)
      requires Apart(block, sumWeights, sumDelta) && g.Valid() && g.t == Table(w, centerWeight) && g.W == W
      requires block != sumWeights && block != sumDelta && sumWeights != sumDelta
      requires H >= 2 && W <= sumWeights.Length && W <= sumDelta.Length && off + |g.s| <= block.Length
      requires |g.s| == Area(W, H) && g.s == block[off..off + |g.s|]
      modifies block, sumWeights, sumDelta
      ensures block[off..off + |g.s|] == g.r
      ensures block[..off] == old(block[..off]) && block[off + |g.s|..] == old(block[off + |g.s|..])
    {
      ghost var was := block[..];
      AtStart(g, block, off, sumWeights, sumDelta);
      Rows(W, H, block, off, w, centerWeight, sumWeights, sumDelta, g);
      WholeBlock(g, block, off);
      OutsideSlices(was, block[..], off, off + |g.s|);
    }

    /** The raster pass itself. */
    method Rows(W: nat, uiHeight: nat, block: array<int>, off: nat, w: seq<nat>, centerWeight: nat,
                sumWeights: array<int>, sumDelta: array<int>, ghost g: Pass)
      requires Apart(block, sumWeights, sumDelta) && g.t == Table(w, centerWeight) && g.W == W >= 2
      requires uiHeight >= 2 && |g.s| == Area(W, uiHeight)
      requires At(g, block, off, sumWeights, sumDelta, 0, 0)
      modifies block, sumWeights, sumDelta
      ensures Progress(g, block, off, |g.s|) && OutsideUnchanged(g, block, off)
    {
      FirstRow(block, off, w, centerWeight, W, sumWeights, sumDelta, g);
      RowsLeft(W, 0, uiHeight, 0);
      NextRow(g, block, off, sumWeights, sumDelta, 0);
      var base := W;
      for j := 1 to uiHeight - 1
        invariant base == Area(W, j) && At(g, block, off, sumWeights, sumDelta, base, 0)
        invariant OutsideUnchanged(g, block, off)
      {
        RowsLeft(W, j, uiHeight, base);
        base := RowAndNext(block, off, w, centerWeight, W, base, sumWeights, sumDelta, g);
      }
      LastRow(block, off, w, centerWeight, W, base, sumWeights, sumDelta, g);
    }

    method RowAndNext(block: array<int>, off: nat, w: seq<nat>, centerWeight: nat, W: nat, base: nat,
                      sumWeights: array<int>, sumDelta: array<int>, ghost g: Pass) returns (next: nat)
      requires Apart(block, sumWeights, sumDelta) && g.t == Table(w, centerWeight) && g.W == W >= 2
      requires At(g, block, off, sumWeights, sumDelta, base, 0) && W <= base && base + 2 * W <= |g.s|
      modifies block, sumWeights, sumDelta
      ensures next == base + W && At(g, block, off, sumWeights, sumDelta, next, 0) && OutsideUnchanged(g, block, off)
    {
      InnerRow(block, off, w, centerWeight, W, base, sumWeights, sumDelta, g);
      NextRow(g, block, off, sumWeights, sumDelta, base);
      next := base + W;
    }

    /** Filters a reconstructed block where it lies, or through `tempblock` when its rows are not adjacent. */
    method BilateralFilterIntra(recoBuf: PelBuf, qp: int)
      requires Ready() && MIN_FILTER_QP <= qp <= MAX_QP && recoBuf.Valid()
      requires 2 <= recoBuf.width <= MAX_CU_SIZE && 2 <= recoBuf.height <= MAX_CU_SIZE
      requires Foreign(recoBuf.buf)
      modifies recoBuf.buf, tempblock
      ensures recoBuf.buf[..]
           == recoBuf.With(old(recoBuf.buf[..]),
                CrossBlock(TableFor(recoBuf.width, recoBuf.height, false, qp), old(recoBuf.Samples()), recoBuf.width))
      ensures recoBuf.Samples()
           == CrossBlock(TableFor(recoBuf.width, recoBuf.height, false, qp), old(recoBuf.Samples()), recoBuf.width)
      ensures forall p: nat | p < recoBuf.buf.Length && !recoBuf.Covers(p) :: recoBuf.buf[p] == old(recoBuf.buf[p])
    {
      ghost var was := recoBuf.buf[..];
      ghost var filtered := CrossBlock(TableFor(recoBuf.width, recoBuf.height, false, qp), recoBuf.Samples(), recoBuf.width);
      if recoBuf.stride == recoBuf.width {
        SmoothInPlace(recoBuf, qp);
      } else {
        SmoothThroughTemp(recoBuf, qp);
      }
      recoBuf.ReadBack(was, filtered, recoBuf.buf[..]);
    }

    /** The call on a copy of the block in adjacent rows. */
    method SmoothThroughTemp(recoBuf: PelBuf, qp: int)
      requires Ready() && MIN_FILTER_QP <= qp <= MAX_QP && recoBuf.Valid()
      requires 2 <= recoBuf.width <= MAX_CU_SIZE && 2 <= recoBuf.height <= MAX_CU_SIZE
      requires Foreign(recoBuf.buf)
      modifies recoBuf.buf, tempblock
      ensures recoBuf.buf[..]
           == recoBuf.With(old(recoBuf.buf[..]),
                CrossBlock(TableFor(recoBuf.width, recoBuf.height, false, qp), old(recoBuf.Samples()), recoBuf.width))
    {
      recoBuf.RowsFit();
      TempblockHolds(recoBuf.width, recoBuf.height);
      LoadRows(recoBuf.buf, recoBuf.pos, recoBuf.stride, recoBuf.width, recoBuf.height, tempblock);
      SmoothTempblock(recoBuf.width, recoBuf.height, false, qp);
      StoreRows(tempblock, recoBuf.buf, recoBuf.pos, recoBuf.stride, recoBuf.width, recoBuf.height);
    }

    /** The call on the reconstruction itself, when its rows are adjacent. */
    method SmoothInPlace(recoBuf: PelBuf, qp: int)
      requires Ready() && MIN_FILTER_QP <= qp <= MAX_QP && recoBuf.Valid() && recoBuf.stride == recoBuf.width
      requires 2 <= recoBuf.width <= MAX_CU_SIZE && 2 <= recoBuf.height <= MAX_CU_SIZE
      requires Foreign(recoBuf.buf)
      modifies recoBuf.buf
      ensures recoBuf.buf[..]
           == recoBuf.With(old(recoBuf.buf[..]),
                CrossBlock(TableFor(recoBuf.width, recoBuf.height, false, qp), old(recoBuf.Samples()), recoBuf.width))
    {
      var pos := recoBuf.pos;
      ghost var n := Area(recoBuf.width, recoBuf.height);
      ghost var was, s := recoBuf.buf[..], recoBuf.Samples();
      recoBuf.AdjacentRows(was);
      assert recoBuf.buf[pos..pos + n] == was[pos..pos + n] == s;
      ghost var r := CrossBlock(TableFor(recoBuf.width, recoBuf.height, false, qp), s, recoBuf.width);
      SmoothBlockBilateralFilter(recoBuf.width, recoBuf.height, recoBuf.buf, pos, false, qp);
      ghost var now := recoBuf.buf[..];
      assert now[pos..pos + n] == recoBuf.buf[pos..pos + n];
      assert now[..pos] == was[..pos] && now[pos + n..] == was[pos + n..];
      recoBuf.ReplacedRange(was, now, r);
    }

    /** The call on the object's own block buffer. */
    method SmoothTempblock(W: nat, H: nat, isInterBlock: bool, qp: int)
      requires Ready() && MIN_FILTER_QP <= qp <= MAX_QP
      requires 2 <= W <= MAX_CU_SIZE && 2 <= H <= MAX_CU_SIZE && CenterIndex(W, H, isInterBlock) < 5
      requires Area(W, H) <= tempblock.Length
      modifies tempblock
      ensures tempblock[..Area(W, H)] == CrossBlock(TableFor(W, H, isInterBlock, qp), old(tempblock[..Area(W, H)]), W)
    {
      var n := Area(W, H);
      assert tempblock[0..0 + n] == tempblock[..n];
      SmoothBlockBilateralFilter(W, H, tempblock, 0, isInterBlock, qp);
      assert tempblock[0..0 + n] == tempblock[..n];
    }

    /**
     * Filters prediction plus residual, clipped, and turns the residual into filtered minus prediction.
     * Adding the new residual to the prediction stays in the clipping range although nothing is clipped again.
     */
    method BilateralFilterInter(resiBuf: PelBuf, predBuf: PelBuf, qp: int, clpRng: ClpRng)
      requires Ready() && MIN_FILTER_QP <= qp <= MAX_QP && resiBuf.Valid() && predBuf.Valid()
      requires resiBuf.width == predBuf.width && resiBuf.height == predBuf.height
      requires 2 <= predBuf.width <= MAX_CU_SIZE && 2 <= predBuf.height <= MAX_CU_SIZE
      requires CenterIndex(predBuf.width, predBuf.height, true) < 5
      requires Foreign(resiBuf.buf) && Foreign(predBuf.buf) && resiBuf.buf != predBuf.buf
      requires clpRng.min <= clpRng.max
      modifies resiBuf.buf, tempblock
      ensures resiBuf.buf[..]
           == resiBuf.With(old(resiBuf.buf[..]),
                Difference(
                  CrossBlock(TableFor(predBuf.width, predBuf.height, true, qp),
                             ClippedSum(predBuf.Samples(), old(resiBuf.Samples()), clpRng), predBuf.width),
                  predBuf.Samples()))
      ensures |resiBuf.Samples()| == |predBuf.Samples()|
      ensures forall k | 0 <= k < |predBuf.Samples()| ::
        clpRng.min <= predBuf.Samples()[k] + resiBuf.Samples()[k] <= clpRng.max
      ensures (forall k | 0 <= k < |predBuf.Samples()| :: predBuf.Samples()[k] + old(resiBuf.Samples())[k] >= clpRng.max) ==>
        forall k | 0 <= k < |predBuf.Samples()| :: predBuf.Samples()[k] + resiBuf.Samples()[k] == clpRng.max
      ensures (forall k | 0 <= k < |predBuf.Samples()| :: predBuf.Samples()[k] + old(resiBuf.Samples())[k] <= clpRng.min) ==>
        forall k | 0 <= k < |predBuf.Samples()| :: predBuf.Samples()[k] + resiBuf.Samples()[k] == clpRng.min
      ensures forall p: nat | p < resiBuf.buf.Length && !resiBuf.Covers(p) :: resiBuf.buf[p] == old(resiBuf.buf[p])
    {
      ghost var pred, resi, was := predBuf.Samples(), resiBuf.Samples(), resiBuf.buf[..];
      InterThroughTemp(resiBuf, predBuf, qp, clpRng, pred, resi);
      assert predBuf.Samples() == pred;
      InterInRange(TableFor(predBuf.width, predBuf.height, true, qp), pred, resi, resiBuf, was, clpRng);
    }

    method InterThroughTemp(resiBuf: PelBuf, predBuf: PelBuf, qp: int, clpRng: ClpRng, ghost pred: seq<int>, ghost resi: seq<int>)
      requires Ready() && MIN_FILTER_QP <= qp <= MAX_QP && resiBuf.Valid() && predBuf.Valid()
      requires resiBuf.width == predBuf.width && resiBuf.height == predBuf.height
      requires 2 <= predBuf.width <= MAX_CU_SIZE && 2 <= predBuf.height <= MAX_CU_SIZE
      requires CenterIndex(predBuf.width, predBuf.height, true) < 5
      requires Foreign(resiBuf.buf) && Foreign(predBuf.buf) && resiBuf.buf != predBuf.buf
      requires pred == predBuf.Samples() && resi == resiBuf.Samples()
      modifies resiBuf.buf, tempblock
      ensures resiBuf.buf[..]
           == resiBuf.With(old(resiBuf.buf[..]),
                Difference(CrossBlock(TableFor(predBuf.width, predBuf.height, true, qp),
                                      ClippedSum(pred, resi, clpRng), predBuf.width), pred))
    {
      TempblockHolds(predBuf.width, predBuf.height);
      AddRows(predBuf, resiBuf, clpRng, tempblock, pred, resi);
      SmoothTempblock(predBuf.width, predBuf.height, true, qp);
      ghost var filtered := tempblock[..|pred|];
      assert predBuf.Samples() == pred;
      SubtractRows(tempblock, predBuf, resiBuf, pred, filtered);
    }

    lemma InterInRange(t: Table, pred: seq<int>, resi: seq<int>, resiBuf: PelBuf, was: seq<int>, rng: ClpRng)
      requires |t.w| >= 1 && t.center >= 1 && resiBuf.Valid() && |was| == resiBuf.buf.Length && rng.min <= rng.max
      requires |resi| == |pred| == Area(resiBuf.width, resiBuf.height) && resiBuf.width >= 1
      requires resiBuf.buf[..]
            == resiBuf.With(was, Difference(CrossBlock(t, ClippedSum(pred, resi, rng), resiBuf.width), pred))
      ensures forall k | 0 <= k < |pred| :: rng.min <= pred[k] + resiBuf.Samples()[k] <= rng.max
      ensures (forall k | 0 <= k < |pred| :: pred[k] + resi[k] >= rng.max) ==>
        forall k | 0 <= k < |pred| :: pred[k] + resiBuf.Samples()[k] == rng.max
      ensures (forall k | 0 <= k < |pred| :: pred[k] + resi[k] <= rng.min) ==>
        forall k | 0 <= k < |pred| :: pred[k] + resiBuf.Samples()[k] == rng.min
      ensures forall p: nat | p < |was| && !resiBuf.Covers(p) :: resiBuf.buf[p] == was[p]
    {
      var reco := ClippedSum(pred, resi, rng);
      var d := Difference(CrossBlock(t, reco, resiBuf.width), pred);
      resiBuf.ReadBack(was, d, resiBuf.buf[..]);
      FilteredStaysInRange(t, reco, resiBuf.width, rng);
      SaturatedStays(t, pred, resi, resiBuf.width, rng);
    }

    lemma TempblockHolds(W: nat, H: nat)
      requires Separate() && W <= MAX_CU_SIZE && H <= MAX_CU_SIZE
      ensures Area(W, H) <= tempblock.Length
    {
      AreaIsProduct(W, H);
      MulMono(W, MAX_CU_SIZE, H);
      MulMono(H, MAX_CU_SIZE, MAX_CU_SIZE);
    }

    /** A buffer that is none of this object's own. */
    ghost predicate Foreign(a: array<int>) {
      a != tempblock && a != divToMulOneOverN && a as object != divToMulShift as object
    }

    /** Which centre weight a block uses: stronger filtering for small blocks, weaker for inter blocks. */
    function CenterIndex(uiWidth: nat, uiHeight: nat, isInterBlock: bool): nat {
      var length := Min(uiWidth, uiHeight);
      (if length >= 16 then 2 else if length >= 8 then 1 else 0) + (if isInterBlock then 3 else 0)
    }

    /** By sizes: both sides at least sixteen, both at least eight, or a shorter one; and the other three for inter blocks. */
    lemma CenterIndexMeaning(uiWidth: nat, uiHeight: nat, isInterBlock: bool)
      ensures var i := CenterIndex(uiWidth, uiHeight, isInterBlock);
        && (i >= 3 <==> isInterBlock)
        && (i % 3 == 0 <==> uiWidth < 8 || uiHeight < 8)
        && (i % 3 == 2 <==> uiWidth >= 16 && uiHeight >= 16)
        && (i < 5 <==> !isInterBlock || uiWidth < 16 || uiHeight < 16)
    {
    }

    function TableFor(uiWidth: nat, uiHeight: nat, isInterBlock: bool, qp: int): (t: Table)
      requires TablesCreated() && MIN_FILTER_QP <= qp <= MAX_QP && CenterIndex(uiWidth, uiHeight, isInterBlock) < 5
      ensures t.Admissible() && |t.w| == MAX_POS_LIST[qp - MIN_FILTER_QP] + 1
    {
      Table(m_bilateralFilterTable[qp - MIN_FILTER_QP],
            m_bilateralCenterWeightTable[CenterIndex(uiWidth, uiHeight, isInterBlock)])
    }
  }

  lemma DivUpper(one: int, n: int)
    requires one >= 0 && n >= 1
    ensures one / n <= one
  {
    assert one == (one / n) * n + one % n;
    DivNonNegative(one, n);
    MulMono(1, n, one / n);
    assert n * (one / n) == (one / n) * n;
  }

  /** A rounded-down quotient is at most a bound exactly when the dividend is below the next multiple. */
  lemma FloorAtMost(a: int, n: int, q: int)
    requires n >= 1
    ensures a / n <= q <==> a < q * n + n
  {
    var f := a / n;
    assert a == f * n + a % n;
    if f <= q {
      MulMono(f, q, n);
    } else {
      MulMono(q + 1, f, n);
      assert (q + 1) * n == q * n + n;
    }
  }

  /** The shifted reciprocal does not exceed one exactly when the shifted one does not exceed the denominator. */
  lemma ShiftedAtMostOne(one: int, n: int, p: int)
    requires one > n >= 1
    ensures one * p / n <= one <==> p <= n
  {
    FloorAtMost(one * p, n, one);
    assert one * p == p * one && one * n == n * one;
    if p <= n {
      MulMono(p, n, one);
    } else {
      MulMono(n + 1, p, one);
      assert (n + 1) * one == n * one + one;
    }
  }

  /** While the shifted reciprocal does not exceed one, the shift is below the denominator. */
  lemma ShiftBelow(one: int, n: int, k: nat)
    requires one > n >= 1 && one * Pow2(k) / n <= one
    ensures Pow2(k) <= n && k < n
  {
    ShiftedAtMostOne(one, n, Pow2(k));
    Pow2Grows(k);
  }

  /** The loop stops one past the position of the leading bit. */
  lemma LastShift(one: int, n: nat, k: nat)
    requires one > n >= 1
    requires one * Pow2(k) / n <= one < one * Pow2(k + 1) / n
    ensures k == FloorLog2(n)
  {
    ShiftedAtMostOne(one, n, Pow2(k));
    ShiftedAtMostOne(one, n, Pow2(k + 1));
    FloorLog2Unique(n, k);
  }

  /** Adding one unless the rounded-down reciprocal is exact is rounding up. */
  lemma EntryFromFloor(n: nat, k: nat, adiv: int)
    requires 1 <= n && k == FloorLog2(n)
    requires adiv == Pow2(14) * Pow2(k) / n * n / (Pow2(14) * Pow2(k))
    ensures Entry(14, n) == Pow2(14) * Pow2(k) / n + (if adiv != 1 then 1 else 0)
  {
    Pow2Add(14, k);
    CeilFromFloor(Pow2(14) * Pow2(k), n);
  }

  lemma CeilFromFloor(K: int, n: int)
    requires K >= 1 && n >= 1
    ensures (K + n - 1) / n == K / n + (if K / n * n / K != 1 then 1 else 0)
  {
    var f := K / n;
    assert K == f * n + K % n;
    if K % n == 0 {
      DivUnique(f * n, K, 1);
      DivUnique(K + n - 1, n, f);
    } else {
      DivNonNegative(K, n);
      MulMono(0, f, n);
      DivUnique(f * n, K, 0);
      assert (f + 1) * n == f * n + n;
      DivUnique(K + n - 1, n, f + 1);
    }
  }
}
