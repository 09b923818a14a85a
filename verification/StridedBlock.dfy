/** A W x H block inside a larger buffer whose rows are `stride` samples apart, as `AreaBuf` addresses it. */
module StridedBlock {
  import opened Arithmetic

  /** The number of samples in H rows of W (see AreaIsProduct). */
  function Area(W: nat, H: nat): nat {
    if H == 0 then 0 else W + Area(W, H - 1)
  }

  lemma {:induction false} AreaIsProduct(W: nat, H: nat)
    ensures Area(W, H) == W * H
  {
    if H == 0 {
    } else {
      AreaIsProduct(W, H - 1);
      assert W * H == W + W * (H - 1);
    }
  }

  lemma {:induction false} AreaMono(W: nat, j: nat, H: nat)
    requires j <= H
    ensures Area(W, j) <= Area(W, H)
  {
    if j >= H {
    } else {
      AreaMono(W, j, H - 1);
    }
  }

  /** H rows of W samples from position pos stay inside a buffer of n samples and do not run into each other. */
  ghost predicate Fits(n: nat, pos: nat, stride: nat, W: nat, H: nat)
    decreases H
  {
    W <= stride && (H == 0 || (pos + W <= n && Fits(n, pos + stride, stride, W, H - 1)))
  }

  lemma {:induction false} FitsIff(n: nat, pos: nat, stride: nat, W: nat, H: nat)
    ensures Fits(n, pos, stride, W, H) <==> W <= stride && (H > 0 ==> pos + (H - 1) * stride + W <= n)
    decreases H
  {
    if H == 0 {
    } else {
      FitsIff(n, pos + stride, stride, W, H - 1);
      if H > 1 {
        assert (H - 1) * stride == stride + (H - 2) * stride;
        MulMono(0, H - 2, stride);
      }
    }
  }

  /** The samples of the block in raster order. */
  ghost function Packed(a: seq<int>, pos: nat, stride: nat, W: nat, H: nat): (s: seq<int>)
    requires Fits(|a|, pos, stride, W, H)
    ensures |s| == Area(W, H)
    decreases H
  {
    if H == 0 then [] else a[pos..pos + W] + Packed(a, pos + stride, stride, W, H - 1)
  }

  /** Column x of row j of the block is j strides and x samples behind its first sample. */
  lemma {:induction false} PackedAt(a: seq<int>, pos: nat, stride: nat, W: nat, H: nat, x: nat, j: nat, k: nat, d: nat, p: nat)
    requires Fits(|a|, pos, stride, W, H) && x < W && j < H && k == j * W + x && d == j * stride + x && p == pos + d
    ensures k < |Packed(a, pos, stride, W, H)| && p < |a| && Packed(a, pos, stride, W, H)[k] == a[p]
    decreases H
  {
    if j == 0 {
      FirstRowAt(a, pos, stride, W, H, k, p);
    } else {
      PreviousRow(j, W, x, k);
      PreviousRow(j, stride, x, d);
      var next, rows, k1: nat, d1: nat := pos + stride, H - 1, k - W, d - stride;
      PackedAt(a, next, stride, W, rows, x, j - 1, k1, d1, p);
      NextRowAt(a, pos, stride, W, H, k, next, rows, k1);
    }
  }

  lemma FirstRowAt(a: seq<int>, pos: nat, stride: nat, W: nat, H: nat, x: nat, p: nat)
    requires H > 0 && Fits(|a|, pos, stride, W, H) && x < W && p == pos + x
    ensures x < |Packed(a, pos, stride, W, H)| && p < |a| && Packed(a, pos, stride, W, H)[x] == a[p]
  {
  }

  lemma NextRowAt(a: seq<int>, pos: nat, stride: nat, W: nat, H: nat, k: nat, next: nat, rows: nat, k1: nat)
    requires H > 0 && Fits(|a|, pos, stride, W, H) && next == pos + stride && rows == H - 1 && k == W + k1 && k1 < Area(W, rows)
    ensures k < Area(W, H) && Fits(|a|, next, stride, W, rows)
    ensures Packed(a, pos, stride, W, H)[k] == Packed(a, next, stride, W, rows)[k1]
  {
  }

  lemma PreviousRow(j: nat, W: nat, x: nat, k: nat)
    requires j >= 1 && k == j * W + x
    ensures k >= W && k - W == (j - 1) * W + x
  {
    MulMono(0, j - 1, W);
    assert j * W == (j - 1) * W + W;
  }

  /** `rest` are the samples of the last H rows of a block, the first of them at p. */
  ghost predicate Cursor(a: seq<int>, p: nat, stride: nat, W: nat, H: nat, rest: seq<int>) {
    Fits(|a|, p, stride, W, H) && rest == Packed(a, p, stride, W, H)
  }

  lemma Advance(a: seq<int>, p: nat, stride: nat, W: nat, H: nat, rest: seq<int>)
    requires H > 0 && Cursor(a, p, stride, W, H, rest)
    ensures p + W <= |a| && W <= |rest| && rest[..W] == a[p..p + W]
    ensures Cursor(a, p + stride, stride, W, H - 1, rest[W..])
  {
  }

  /** A buffer with a row overwritten. */
  ghost function Overwritten(a: seq<int>, pos: nat, row: seq<int>): (r: seq<int>)
    requires pos + |row| <= |a|
    ensures |r| == |a|
  {
    a[..pos] + row + a[pos + |row|..]
  }

  /** The buffer with the samples of the block replaced by s, row by row. */
  ghost function Unpacked(a: seq<int>, pos: nat, stride: nat, W: nat, H: nat, s: seq<int>): (r: seq<int>)
    requires Fits(|a|, pos, stride, W, H) && |s| == Area(W, H)
    ensures |r| == |a|
    decreases H
  {
    if H == 0 then a else
      Unpacked(Overwritten(a, pos, s[..W]), pos + stride, stride, W, H - 1, s[W..])
  }

  lemma OverwriteTwice(a: seq<int>, pos: nat, s: seq<int>, t: seq<int>)
    requires pos + |s| + |t| <= |a|
    ensures Overwritten(Overwritten(a, pos, s), pos + |s|, t) == Overwritten(a, pos, s + t)
  {
    var b := Overwritten(a, pos, s);
    assert b[..pos + |s|] == a[..pos] + s;
    assert b[pos + |s| + |t|..] == a[pos + |s| + |t|..];
  }

  /** When rows follow each other without a gap the block is one slice of the buffer. */
  lemma {:induction false} ContiguousPacked(a: seq<int>, pos: nat, W: nat, H: nat)
    requires Fits(|a|, pos, W, W, H) && pos <= |a|
    ensures pos + Area(W, H) <= |a| && Packed(a, pos, W, W, H) == a[pos..pos + Area(W, H)]
    decreases H
  {
    if H == 0 {
    } else {
      ContiguousPacked(a, pos + W, W, H - 1);
    }
  }

  lemma {:induction false} ContiguousUnpacked(a: seq<int>, pos: nat, W: nat, H: nat, s: seq<int>)
    requires Fits(|a|, pos, W, W, H) && pos <= |a| && |s| == Area(W, H)
    requires pos + Area(W, H) <= |a|
    ensures Unpacked(a, pos, W, W, H, s) == Overwritten(a, pos, s)
    decreases H
  {
    if H > 0 {
      var b := Overwritten(a, pos, s[..W]);
      ContiguousUnpacked(b, pos + W, W, H - 1, s[W..]);
      OverwriteTwice(a, pos, s[..W], s[W..]);
      assert s[..W] + s[W..] == s;
    } else {
      assert s == [] && Overwritten(a, pos, s) == a;
    }
  }

  /** Replacing a block does not touch anything before its first sample. */
  lemma {:induction false} UnpackedPrefix(a: seq<int>, pos: nat, stride: nat, W: nat, H: nat, s: seq<int>, e: nat)
    requires Fits(|a|, pos, stride, W, H) && |s| == Area(W, H) && e <= pos && e <= |a|
    ensures Unpacked(a, pos, stride, W, H, s)[..e] == a[..e]
    decreases H
  {
    if H == 0 {
    } else {
      UnpackedPrefix(Overwritten(a, pos, s[..W]), pos + stride, stride, W, H - 1, s[W..], e);
    }
  }

  /** Reading back a replaced block gives what was put there. */
  lemma {:induction false} PackedUnpacked(a: seq<int>, pos: nat, stride: nat, W: nat, H: nat, s: seq<int>)
    requires Fits(|a|, pos, stride, W, H) && |s| == Area(W, H)
    ensures Packed(Unpacked(a, pos, stride, W, H, s), pos, stride, W, H) == s
    decreases H
  {
    if H == 0 {
    } else {
      var b := Overwritten(a, pos, s[..W]);
      var u := Unpacked(b, pos + stride, stride, W, H - 1, s[W..]);
      PackedUnpacked(b, pos + stride, stride, W, H - 1, s[W..]);
      UnpackedPrefix(b, pos + stride, stride, W, H - 1, s[W..], pos + W);
      assert u[pos..pos + W] == u[..pos + W][pos..] == b[..pos + W][pos..] == s[..W];
    }
  }

  /** Positions before the block, after it and between its rows keep their samples. */
  lemma {:induction false} UnpackedElsewhere(a: seq<int>, pos: nat, stride: nat, W: nat, H: nat, s: seq<int>, p: nat)
    requires Fits(|a|, pos, stride, W, H) && |s| == Area(W, H) && p < |a|
    requires forall j | 0 <= j < H :: !(pos + j * stride <= p < pos + j * stride + W)
    ensures Unpacked(a, pos, stride, W, H, s)[p] == a[p]
    decreases H
  {
    if H == 0 {
    } else {
      assert !(pos + 0 * stride <= p < pos + 0 * stride + W);
      forall j | 0 <= j < H - 1
        ensures !(pos + stride + j * stride <= p < pos + stride + j * stride + W)
      {
        assert (j + 1) * stride == stride + j * stride;
        assert !(pos + (j + 1) * stride <= p < pos + (j + 1) * stride + W);
      }
      UnpackedElsewhere(Overwritten(a, pos, s[..W]), pos + stride, stride, W, H - 1, s[W..], p);
    }
  }
}
