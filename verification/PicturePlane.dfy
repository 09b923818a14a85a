/** A sample plane with a margin around the picture, and the extension of the picture into that margin. */
module PicturePlane {
  import opened Arithmetic
  import opened AlfSpec

  class Plane {
    /** Rows of samples; the picture's own begin at row and column `margin`. */
    const buf: array2<int>
    const margin: nat
    const width: nat
    const height: nat

    constructor (w: nat, h: nat, m: nat, stride: nat)
      requires w >= 1 && h >= 1 && w + 2 * m <= stride
      ensures Valid() && fresh(buf)
      ensures margin == m && width == w && height == h
    {
      buf, margin, width, height := new int[h + 2 * m, stride], m, w, h;
    }

    /** The stride leaves room for both margins: what `extendBorderPel` checks. */
    predicate Valid() {
      width >= 1 && height >= 1 && buf.Length0 == height + 2 * margin && buf.Length1 >= width + 2 * margin
    }

    predicate Inside(x: int, y: int) {
      0 - margin <= x < width + margin && 0 - margin <= y < height + margin
    }

    function At(x: int, y: int): int
      requires Valid() && Inside(x, y)
      reads buf
    {
      buf[y + margin, x + margin]
    }

    /** The buffer agrees with picture p on columns x0 up to x1 of rows y0 up to y1. */
    ghost predicate Shows(p: Pic, x0: int, x1: int, y0: int, y1: int)
      requires Valid() && 0 - margin <= x0 && x1 <= width + margin && 0 - margin <= y0 && y1 <= height + margin
      reads buf
    {
      forall x: int, y: int | x0 <= x < x1 && y0 <= y < y1 :: At(x, y) == p(x, y)
    }

    /** The picture itself. */
    ghost predicate ShowsPicture(p: Pic)
      requires Valid()
      reads buf
    {
      Shows(p, 0, width, 0, height)
    }

    method Put(x: int, y: int, v: int)
      requires Valid() && Inside(x, y)
      modifies buf
      ensures At(x, y) == v
      ensures forall u: int, w: int | Inside(u, w) && (u != x || w != y) :: At(u, w) == old(At(u, w))
    {
      buf[y + margin, x + margin] := v;
    }

    /** Copies a picture of the same size, row by row. */
    method CopyFrom(other: Plane, ghost p: Pic)
      requires Valid() && other.Valid() && buf != other.buf
      requires width == other.width && height == other.height && other.ShowsPicture(p)
      modifies buf
      ensures ShowsPicture(p)
    {
      for y := 0 to height
        invariant Shows(p, 0, width, 0, y)
      {
        for x := 0 to width
          invariant Shows(p, 0, width, 0, y)
          invariant Shows(p, 0, x, y, y + 1)
        {
          Put(x, y, other.At(x, y));
        }
      }
    }

    /** Left and right margins of row y. */
    method ExtendRow(m: nat, y: nat)
      requires Valid() && m <= margin && y < height
      modifies buf
      ensures forall u: int | 0 - m <= u < width + m :: At(u, y) == old(At(Clip3(0, width - 1, u), y))
      ensures forall u: int, v: int | Inside(u, v) && v != y :: At(u, v) == old(At(u, v))
    {
      for x := 0 to m
        invariant forall u: int | 0 - m <= u < 0 - m + x :: At(u, y) == old(At(0, y))
        invariant forall u: int | width <= u < width + x :: At(u, y) == old(At(width - 1, y))
        invariant forall u: int | 0 <= u < width :: At(u, y) == old(At(u, y))
        invariant forall u: int, v: int | Inside(u, v) && v != y :: At(u, v) == old(At(u, v))
      {
        Put(x - m, y, At(0, y));
        Put(width + x, y, At(width - 1, y));
      }
    }

    /** Copies columns -m up to width + m of row `from` to row `to`. */
    method CopyRow(m: nat, from: int, to: int)
      requires Valid() && m <= margin && 0 - m <= from < height + m && 0 - m <= to < height + m && from != to
      modifies buf
      ensures forall u: int | 0 - m <= u < width + m :: At(u, to) == old(At(u, from))
      ensures forall u: int, v: int | Inside(u, v) && v != to :: At(u, v) == old(At(u, v))
    {
      var x := 0 - m;
      while x < width + m
        invariant 0 - m <= x <= width + m
        invariant forall u: int | 0 - m <= u < x :: At(u, to) == old(At(u, from))
        invariant forall u: int, v: int | Inside(u, v) && v != to :: At(u, v) == old(At(u, v))
      {
        Put(x, to, At(x, from));
        x := x + 1;
      }
    }

    method ExtendSides(m: nat, ghost p: Pic)
      requires Valid() && m <= margin && ShowsPicture(p)
      modifies buf
      ensures Shows(Clamped(p, width, height), 0 - m, width + m, 0, height)
    {
      for y := 0 to height
        invariant Shows(Clamped(p, width, height), 0 - m, width + m, 0, y)
        invariant Shows(p, 0, width, y, height)
      {
        label before:
        ExtendRow(m, y);
        forall u: int | 0 - m <= u < width + m
          ensures At(u, y) == Clamped(p, width, height)(u, y)
        {
          var c := Clip3(0, width - 1, u);
          assert Clip3(0, height - 1, y) == y;
          assert At(u, y) == old@before(At(c, y)) == p(c, y);
        }
      }
    }

    method ExtendDown(m: nat, ghost p: Pic)
      requires Valid() && m <= margin
      requires Shows(Clamped(p, width, height), 0 - m, width + m, 0, height)
      modifies buf
      ensures Shows(Clamped(p, width, height), 0 - m, width + m, 0, height + m)
    {
      for y := 0 to m
        invariant Shows(Clamped(p, width, height), 0 - m, width + m, 0, height + y)
      {
        var row := height + y;
        CopyRow(m, height - 1, row);
        forall x: int | 0 - m <= x < width + m
          ensures At(x, row) == Clamped(p, width, height)(x, row)
        {
          ClampedOutside(p, width, height, x, row);
        }
      }
    }

    method ExtendUp(m: nat, ghost p: Pic)
      requires Valid() && m <= margin
      requires Shows(Clamped(p, width, height), 0 - m, width + m, 0, height + m)
      modifies buf
      ensures Shows(Clamped(p, width, height), 0 - m, width + m, 0 - m, height + m)
    {
      for y := 0 to m
        invariant Shows(Clamped(p, width, height), 0 - m, width + m, 0 - y, height + m)
      {
        var row := -1 - y;
        CopyRow(m, 0, row);
        forall x: int | 0 - m <= x < width + m
          ensures At(x, row) == Clamped(p, width, height)(x, row)
        {
          ClampedOutside(p, width, height, x, row);
        }
      }
    }

    /**
     * Continues the picture into m samples of margin on every side: afterwards the buffer shows, over the whole
     * margin, the picture with coordinates clamped to its area.
     */
    method ExtendBorderPel(m: nat, ghost p: Pic)
      requires Valid() && m <= margin && ShowsPicture(p)
      modifies buf
      ensures Shows(Clamped(p, width, height), 0 - m, width + m, 0 - m, height + m)
    {
      ExtendSides(m, p);
      ExtendDown(m, p);
      ExtendUp(m, p);
    }
  }

  /** Above and below, the continued picture repeats its first and last row. */
  lemma ClampedOutside(p: Pic, w: nat, h: nat, x: int, y: int)
    requires w >= 1 && h >= 1
    ensures y >= h ==> Clamped(p, w, h)(x, y) == Clamped(p, w, h)(x, h - 1)
    ensures y < 0 ==> Clamped(p, w, h)(x, y) == Clamped(p, w, h)(x, 0)
    ensures 0 <= x < w && 0 <= y < h ==> Clamped(p, w, h)(x, y) == p(x, y)
  {
    if y >= h {
      assert Clip3(0, h - 1, y) == Clip3(0, h - 1, h - 1);
    } else if y < 0 {
      assert Clip3(0, h - 1, y) == Clip3(0, h - 1, 0);
    } else if 0 <= x < w {
      assert Clip3(0, h - 1, y) == y && Clip3(0, w - 1, x) == x;
    }
  }
}
