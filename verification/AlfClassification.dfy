/** Classifying 4x4 blocks from Laplacian sums gathered in place. */
module AlfClassification {
  import opened Arithmetic
  import opened AlfSpec
  import opened PicturePlane

  const CLASSIFICATION_BLK_SIZE: nat := 32

  // ---- What the sums are parts of ----

  /** Four Laplacians, the 2x2 quad at (x, y). */
  function Quad(dir: Direction, p: Pic, x: int, y: int): nat {
    Laplacian(dir, p, x, y) + Laplacian(dir, p, x + 1, y) + Laplacian(dir, p, x, y + 1) + Laplacian(dir, p, x + 1, y + 1)
  }

  lemma RowOfTwo(dir: Direction, p: Pic, x: int, x1: int, y: int)
    requires x <= x1
    ensures RowSum(dir, p, x, x1 + 2, y) == RowSum(dir, p, x, x1, y) + Laplacian(dir, p, x1, y) + Laplacian(dir, p, x1 + 1, y)
  {
    assert RowSum(dir, p, x, x1 + 2, y) == RowSum(dir, p, x, x1 + 1, y) + Laplacian(dir, p, x1 + 1, y);
  }

  lemma RowOfEight(dir: Direction, p: Pic, x: int, y: int)
    ensures RowSum(dir, p, x, x + 8, y)
         == Laplacian(dir, p, x, y) + Laplacian(dir, p, x + 1, y) + Laplacian(dir, p, x + 2, y) + Laplacian(dir, p, x + 3, y)
          + Laplacian(dir, p, x + 4, y) + Laplacian(dir, p, x + 5, y) + Laplacian(dir, p, x + 6, y) + Laplacian(dir, p, x + 7, y)
  {
    RowOfTwo(dir, p, x, x, y);
    RowOfTwo(dir, p, x, x + 2, y);
    RowOfTwo(dir, p, x, x + 4, y);
    RowOfTwo(dir, p, x, x + 6, y);
  }

  /** Four quads side by side are two rows of eight. */
  lemma QuadsAreTwoRows(dir: Direction, p: Pic, x: int, y: int)
    ensures Quad(dir, p, x, y) + Quad(dir, p, x + 2, y) + Quad(dir, p, x + 4, y) + Quad(dir, p, x + 6, y) == TwoRows(dir, p, x, y)
  {
    RowOfEight(dir, p, x, y);
    RowOfEight(dir, p, x, y + 1);
  }

  lemma BoxOfTwo(dir: Direction, p: Pic, x0: int, x1: int, y: int, y1: int)
    requires y <= y1
    ensures BoxSum(dir, p, x0, x1, y, y1 + 2) == BoxSum(dir, p, x0, x1, y, y1) + RowSum(dir, p, x0, x1, y1) + RowSum(dir, p, x0, x1, y1 + 1)
  {
    assert BoxSum(dir, p, x0, x1, y, y1 + 2) == BoxSum(dir, p, x0, x1, y, y1 + 1) + RowSum(dir, p, x0, x1, y1 + 1);
  }

  /** Two rows of eight. */
  function TwoRows(dir: Direction, p: Pic, x: int, y: int): nat {
    RowSum(dir, p, x, x + 8, y) + RowSum(dir, p, x, x + 8, y + 1)
  }

  lemma BoxOfTwoRows(dir: Direction, p: Pic, x: int, y: int, y1: int)
    requires y <= y1
    ensures BoxSum(dir, p, x, x + 8, y, y1 + 2) == BoxSum(dir, p, x, x + 8, y, y1) + TwoRows(dir, p, x, y1)
  {
    BoxOfTwo(dir, p, x, x + 8, y, y1);
  }

  /** Four pairs of rows below one another are the 8x8 window. */
  lemma RowsAreActivity(dir: Direction, p: Pic, x: int, y: int)
    ensures TwoRows(dir, p, x, y) + TwoRows(dir, p, x, y + 2) + TwoRows(dir, p, x, y + 4) + TwoRows(dir, p, x, y + 6)
         == Activity(dir, p, x + 2, y + 2)
  {
    BoxOfTwoRows(dir, p, x, y, y);
    BoxOfTwoRows(dir, p, x, y, y + 2);
    BoxOfTwoRows(dir, p, x, y, y + 4);
    BoxOfTwoRows(dir, p, x, y, y + 6);
    assert Activity(dir, p, x + 2, y + 2) == BoxSum(dir, p, x, x + 8, y, y + 8);
  }

  lemma FourPairs(dir: Direction, p: Pic, x: int, y: int, a: int, b: int, c: int, d: int)
    requires a == TwoRows(dir, p, x - 2, y - 2) && b == TwoRows(dir, p, x - 2, y)
    requires c == TwoRows(dir, p, x - 2, y + 2) && d == TwoRows(dir, p, x - 2, y + 4)
    ensures a + b + c + d == Activity(dir, p, x, y)
  {
    RowsAreActivity(dir, p, x - 2, y - 2);
  }

  // ---- Gathering in place ----

  /** The quad of a direction, from the rows above, through, below and two below. */
  method QuadVer(src: Plane, ghost p: Pic, x: int, y: int) returns (sum: int)
    requires src.Valid() && src.Inside(x - 1, y - 1) && src.Inside(x + 2, y + 2)
    requires src.Shows(p, x - 1, x + 3, y - 1, y + 3)
    ensures sum == Quad(Ver, p, x, y)
  {
    var y0, y1 := src.At(x, y) * 2, src.At(x + 1, y) * 2;
    var yup0, yup1 := src.At(x, y + 1) * 2, src.At(x + 1, y + 1) * 2;
    sum := Abs(y0 - src.At(x, y - 1) - src.At(x, y + 1)) + Abs(y1 - src.At(x + 1, y - 1) - src.At(x + 1, y + 1))
      + Abs(yup0 - src.At(x, y) - src.At(x, y + 2)) + Abs(yup1 - src.At(x + 1, y) - src.At(x + 1, y + 2));
  }

  method QuadHor(src: Plane, ghost p: Pic, x: int, y: int) returns (sum: int)
    requires src.Valid() && src.Inside(x - 1, y - 1) && src.Inside(x + 2, y + 2)
    requires src.Shows(p, x - 1, x + 3, y - 1, y + 3)
    ensures sum == Quad(Hor, p, x, y)
  {
    var y0, y1 := src.At(x, y) * 2, src.At(x + 1, y) * 2;
    var yup0, yup1 := src.At(x, y + 1) * 2, src.At(x + 1, y + 1) * 2;
    sum := Abs(y0 - src.At(x + 1, y) - src.At(x - 1, y)) + Abs(y1 - src.At(x + 2, y) - src.At(x, y))
      + Abs(yup0 - src.At(x + 1, y + 1) - src.At(x - 1, y + 1)) + Abs(yup1 - src.At(x + 2, y + 1) - src.At(x, y + 1));
  }

  method QuadDiag0(src: Plane, ghost p: Pic, x: int, y: int) returns (sum: int)
    requires src.Valid() && src.Inside(x - 1, y - 1) && src.Inside(x + 2, y + 2)
    requires src.Shows(p, x - 1, x + 3, y - 1, y + 3)
    ensures sum == Quad(Diag0, p, x, y)
  {
    var y0, y1 := src.At(x, y) * 2, src.At(x + 1, y) * 2;
    var yup0, yup1 := src.At(x, y + 1) * 2, src.At(x + 1, y + 1) * 2;
    sum := Abs(y0 - src.At(x - 1, y - 1) - src.At(x + 1, y + 1)) + Abs(y1 - src.At(x, y - 1) - src.At(x + 2, y + 1))
      + Abs(yup0 - src.At(x - 1, y) - src.At(x + 1, y + 2)) + Abs(yup1 - src.At(x, y) - src.At(x + 2, y + 2));
  }

  method QuadDiag1(src: Plane, ghost p: Pic, x: int, y: int) returns (sum: int)
    requires src.Valid() && src.Inside(x - 1, y - 1) && src.Inside(x + 2, y + 2)
    requires src.Shows(p, x - 1, x + 3, y - 1, y + 3)
    ensures sum == Quad(Diag1, p, x, y)
  {
    var y0, y1 := src.At(x, y) * 2, src.At(x + 1, y) * 2;
    var yup0, yup1 := src.At(x, y + 1) * 2, src.At(x + 1, y + 1) * 2;
    sum := Abs(y0 - src.At(x - 1, y + 1) - src.At(x + 1, y - 1)) + Abs(y1 - src.At(x, y + 1) - src.At(x + 2, y - 1))
      + Abs(yup0 - src.At(x - 1, y + 2) - src.At(x + 1, y)) + Abs(yup1 - src.At(x, y + 2) - src.At(x + 2, y));
  }

  /** Scratch arrays of one direction have room for a block and the window around it. */
  predicate Roomy(lap: array2<int>) {
    lap.Length0 == lap.Length1 == CLASSIFICATION_BLK_SIZE + 5
  }

  /** The quads of row i of the scratch array, by column. */
  function RowQuads(dir: Direction, p: Pic, posX: int, posY: int, i: int): int -> int {
    k => Quad(dir, p, posX + k - 2, posY + i - 2)
  }

  /** A quad and the three to its right. */
  function FourFrom(quads: int -> int, k: int): int {
    quads(k) + quads(k + 2) + quads(k + 4) + quads(k + 6)
  }

  /**
   * Entry k of a row once columns below n are visited: every fourth entry has become the sum of four quads as soon as the
   * last of them is there, the other even entries still hold their own.
   */
  function RowEntry(quads: int -> int, k: nat, n: nat): int {
    if k % 4 == 0 && k + 6 < n then FourFrom(quads, k) else quads(k)
  }

  /** Visiting two more columns completes the entry six columns back, if it is a fourth one. */
  lemma NextEntry(quads: int -> int, k: nat, j: nat)
    requires k < j && k % 2 == 0 && j % 2 == 0
    ensures RowEntry(quads, k, j + 2)
         == if k + 6 == j && k % 4 == 0 then FourFrom(quads, k) else RowEntry(quads, k, j)
  {
  }

  /** Row i once columns below n are visited. */
  ghost predicate RowState(lap: array2<int>, i: nat, quads: int -> int, n: nat)
    requires Roomy(lap) && i < 37 && n <= 37
    reads lap
  {
    forall k: nat | k < n && k % 2 == 0 :: lap[i, k] == RowEntry(quads, k, n)
  }

  /** The quads of all rows. */
  function AllQuads(dir: Direction, p: Pic, posX: int, posY: int): int -> int -> int {
    i => RowQuads(dir, p, posX, posY, i)
  }

  /** Every second row below n is complete. */
  ghost predicate RowsAre(lap: array2<int>, all: int -> int -> int, n: nat, width: nat)
    requires Roomy(lap) && n <= 37 && width <= 37
    reads lap
  {
    forall i: nat | i < n && i % 2 == 0 :: RowState(lap, i, all(i), width)
  }

  ghost predicate RowsState(lap: array2<int>, dir: Direction, p: Pic, posX: int, posY: int, n: nat, width: nat)
    requires Roomy(lap) && n <= 37 && width <= 37
    reads lap
  {
    RowsAre(lap, AllQuads(dir, p, posX, posY), n, width)
  }

  /** Stores a quad and, where it ends a strip, adds the strip up into the entry six columns back. */
  method StoreQuad(lap: array2<int>, i: nat, j: nat, quad: int, ghost quads: int -> int)
    requires Roomy(lap) && i < 37 && j < 36 && j % 2 == 0
    requires RowState(lap, i, quads, j) && quad == quads(j)
    modifies lap
    ensures RowState(lap, i, quads, j + 2)
    ensures forall r: nat, k: nat | r < 37 && k < 37 && r != i :: lap[r, k] == old(lap[r, k])
  {
    forall k: nat | k < j && k % 2 == 0
      ensures RowEntry(quads, k, j + 2)
           == if k + 6 == j && k % 4 == 0 then FourFrom(quads, k) else RowEntry(quads, k, j)
    {
      NextEntry(quads, k, j);
    }
    lap[i, j] := quad;
    if j > 4 && (j - 6) % 4 == 0 {
      lap[i, j - 6] := lap[i, j - 6] + (lap[i, j - 4] + lap[i, j - 2] + lap[i, j]);
    }
  }

  /** The same with the rows before staying complete. */
  method FillEntry(lap: array2<int>, i: nat, j: nat, quad: int, ghost all: int -> int -> int, ghost width: nat)
    requires Roomy(lap) && i < 37 && j < 36 && j % 2 == 0 && width <= 37
    requires RowsAre(lap, all, i, width) && RowState(lap, i, all(i), j) && quad == all(i)(j)
    modifies lap
    ensures RowsAre(lap, all, i, width) && RowState(lap, i, all(i), j + 2)
  {
    StoreQuad(lap, i, j, quad, all(i));
    forall r: nat | r < i && r % 2 == 0
      ensures RowState(lap, r, all(r), width)
    {
      assert old(RowState(lap, r, all(r), width));
    }
  }

  lemma RowsPlusRow(lap: array2<int>, all: int -> int -> int, i: nat, width: nat)
    requires Roomy(lap) && i < 36 && i % 2 == 0 && width <= 37
    requires RowsAre(lap, all, i, width) && RowState(lap, i, all(i), width)
    ensures RowsAre(lap, all, i + 2, width)
  {
  }

  /** The scratch arrays of the four directions. */
  datatype Laplacians = Laplacians(ver: array2<int>, hor: array2<int>, dig0: array2<int>, dig1: array2<int>) {
    predicate Valid() {
      && Roomy(ver) && Roomy(hor) && Roomy(dig0) && Roomy(dig1)
      && ver != hor && ver != dig0 && ver != dig1 && hor != dig0 && hor != dig1 && dig0 != dig1
    }

    ghost predicate Row(p: Pic, posX: int, posY: int, i: nat, n: nat)
      requires Valid() && i < 37 && n <= 37
      reads ver, hor, dig0, dig1
    {
      && RowState(ver, i, AllQuads(Ver, p, posX, posY)(i), n)
      && RowState(hor, i, AllQuads(Hor, p, posX, posY)(i), n)
      && RowState(dig0, i, AllQuads(Diag0, p, posX, posY)(i), n)
      && RowState(dig1, i, AllQuads(Diag1, p, posX, posY)(i), n)
    }

    ghost predicate Rows(p: Pic, posX: int, posY: int, n: nat, width: nat)
      requires Valid() && n <= 37 && width <= 37
      reads ver, hor, dig0, dig1
    {
      && RowsState(ver, Ver, p, posX, posY, n, width)
      && RowsState(hor, Hor, p, posX, posY, n, width)
      && RowsState(dig0, Diag0, p, posX, posY, n, width)
      && RowsState(dig1, Diag1, p, posX, posY, n, width)
    }
  }

  lemma QuadInRow(dir: Direction, p: Pic, posX: int, posY: int, i: nat, j: nat, x: int, y: int)
    requires x == posX + j - 2 && y == posY + i - 2
    ensures AllQuads(dir, p, posX, posY)(i)(j) == Quad(dir, p, x, y)
  {
  }

  /** One entry of each direction. */
  method FillEntries(lap: Laplacians, src: Plane, ghost p: Pic, posX: int, posY: int, i: nat, j: nat, ghost width: nat)
    requires lap.Valid() && i < 37 && j < 36 && j % 2 == 0 && width <= 37
    requires src.buf != lap.ver && src.buf != lap.hor && src.buf != lap.dig0 && src.buf != lap.dig1
    requires src.Valid() && src.Inside(posX + j - 3, posY + i - 3) && src.Inside(posX + j, posY + i)
    requires src.Shows(p, posX + j - 3, posX + j + 1, posY + i - 3, posY + i + 1)
    requires lap.Rows(p, posX, posY, i, width) && lap.Row(p, posX, posY, i, j)
    modifies lap.ver, lap.hor, lap.dig0, lap.dig1
    ensures lap.Rows(p, posX, posY, i, width) && lap.Row(p, posX, posY, i, j + 2)
  {
    var x, y := posX + j - 2, posY + i - 2;
    var ver := QuadVer(src, p, x, y);
    var hor := QuadHor(src, p, x, y);
    var dig0 := QuadDiag0(src, p, x, y);
    var dig1 := QuadDiag1(src, p, x, y);
    QuadInRow(Ver, p, posX, posY, i, j, x, y);
    QuadInRow(Hor, p, posX, posY, i, j, x, y);
    QuadInRow(Diag0, p, posX, posY, i, j, x, y);
    QuadInRow(Diag1, p, posX, posY, i, j, x, y);
    FillPair(lap.ver, lap.hor, i, j, ver, hor, AllQuads(Ver, p, posX, posY), AllQuads(Hor, p, posX, posY), width);
    FillPair(lap.dig0, lap.dig1, i, j, dig0, dig1, AllQuads(Diag0, p, posX, posY), AllQuads(Diag1, p, posX, posY), width);
  }

  method FillPair(a: array2<int>, b: array2<int>, i: nat, j: nat, quadA: int, quadB: int,
                  ghost allA: int -> int -> int, ghost allB: int -> int -> int, ghost width: nat)
    requires a != b && Roomy(a) && Roomy(b) && i < 37 && j < 36 && j % 2 == 0 && width <= 37
    requires RowsAre(a, allA, i, width) && RowState(a, i, allA(i), j) && quadA == allA(i)(j)
    requires RowsAre(b, allB, i, width) && RowState(b, i, allB(i), j) && quadB == allB(i)(j)
    modifies a, b
    ensures RowsAre(a, allA, i, width) && RowState(a, i, allA(i), j + 2)
    ensures RowsAre(b, allB, i, width) && RowState(b, i, allB(i), j + 2)
  {
    FillEntry(a, i, j, quadA, allA, width);
    FillEntry(b, i, j, quadB, allB, width);
  }

  /** One row of each direction. */
  method FillRow(lap: Laplacians, src: Plane, ghost p: Pic, posX: int, posY: int, i: nat, width: nat)
    requires lap.Valid() && i < 36 && i % 2 == 0 && width <= 36 && width % 2 == 0
    requires src.buf != lap.ver && src.buf != lap.hor && src.buf != lap.dig0 && src.buf != lap.dig1
    requires src.Valid() && src.Inside(posX - 3, posY + i - 3) && src.Inside(posX + width - 2, posY + i)
    requires src.Shows(p, posX - 3, posX + width - 1, posY + i - 3, posY + i + 1)
    requires lap.Rows(p, posX, posY, i, width)
    modifies lap.ver, lap.hor, lap.dig0, lap.dig1
    ensures lap.Rows(p, posX, posY, i + 2, width)
  {
    var j := 0;
    while j < width
      invariant 0 <= j <= width && j % 2 == 0
      invariant lap.Rows(p, posX, posY, i, width) && lap.Row(p, posX, posY, i, j)
    {
      FillEntries(lap, src, p, posX, posY, i, j, width);
      j := j + 2;
    }
    RowsPlusRow(lap.ver, AllQuads(Ver, p, posX, posY), i, width);
    RowsPlusRow(lap.hor, AllQuads(Hor, p, posX, posY), i, width);
    RowsPlusRow(lap.dig0, AllQuads(Diag0, p, posX, posY), i, width);
    RowsPlusRow(lap.dig1, AllQuads(Diag1, p, posX, posY), i, width);
  }

  /** Gathers the sums of a block's rows and the rows of the window around it, two at a time. */
  method FillLaplacians(lap: Laplacians, src: Plane, ghost p: Pic, posX: int, posY: int, height: nat, width: nat)
    requires lap.Valid() && height <= 36 && width <= 36 && height % 2 == 0 && width % 2 == 0
    requires src.buf != lap.ver && src.buf != lap.hor && src.buf != lap.dig0 && src.buf != lap.dig1
    requires src.Valid() && src.Inside(posX - 3, posY - 3) && src.Inside(posX + width - 2, posY + height - 2)
    requires src.Shows(p, posX - 3, posX + width - 1, posY - 3, posY + height - 1)
    modifies lap.ver, lap.hor, lap.dig0, lap.dig1
    ensures lap.Rows(p, posX, posY, height, width)
  {
    var i := 0;
    while i < height
      invariant 0 <= i <= height && i % 2 == 0
      invariant lap.Rows(p, posX, posY, i, width)
    {
      FillRow(lap, src, p, posX, posY, i, width);
      i := i + 2;
    }
  }

  /** The four quads from column j of row i of the scratch array, in terms of the picture. */
  lemma StripOfQuads(dir: Direction, p: Pic, posX: int, posY: int, i: nat, j: nat, x: int, y: int)
    requires x == posX + j - 2 && y == posY + i - 2
    ensures var quads := RowQuads(dir, p, posX, posY, i);
      FourFrom(quads, j) == TwoRows(dir, p, x, y)
  {
    QuadsAreTwoRows(dir, p, x, y);
  }

  lemma StripEntry(lap: array2<int>, i: nat, quads: int -> int, j: nat, width: nat)
    requires Roomy(lap) && i < 37 && width <= 37 && RowState(lap, i, quads, width)
    requires j % 4 == 0 && j + 6 < width
    ensures lap[i, j] == FourFrom(quads, j)
  {
    assert lap[i, j] == RowEntry(quads, j, width);
  }

  lemma EntryIsTwoRows(lap: array2<int>, dir: Direction, p: Pic, posX: int, posY: int, i: nat, j: nat,
                       height: nat, width: nat, x: int, y: int)
    requires Roomy(lap) && height <= 36 && width <= 36 && RowsState(lap, dir, p, posX, posY, height, width)
    requires i % 2 == 0 && i < height && j % 4 == 0 && j + 6 < width
    requires x == posX + j - 2 && y == posY + i - 2
    ensures lap[i, j] == TwoRows(dir, p, x, y)
  {
    StripEntry(lap, i, AllQuads(dir, p, posX, posY)(i), j, width);
    StripOfQuads(dir, p, posX, posY, i, j, x, y);
  }

  lemma FourEntries(lap: array2<int>, dir: Direction, p: Pic, posX: int, posY: int, i: nat, j: nat,
                    height: nat, width: nat, x: int, y: int)
    requires Roomy(lap) && height <= 36 && width <= 36 && RowsState(lap, dir, p, posX, posY, height, width)
    requires i % 4 == 0 && i + 6 < height && j % 4 == 0 && j + 6 < width
    requires x == posX + j - 2 && y == posY + i - 2
    ensures lap[i, j] == TwoRows(dir, p, x, y)
    ensures lap[i + 2, j] == TwoRows(dir, p, x, y + 2)
    ensures lap[i + 4, j] == TwoRows(dir, p, x, y + 4)
    ensures lap[i + 6, j] == TwoRows(dir, p, x, y + 6)
  {
    EntryIsTwoRows(lap, dir, p, posX, posY, i, j, height, width, x, y);
    EntryIsTwoRows(lap, dir, p, posX, posY, i + 2, j, height, width, x, y + 2);
    EntryIsTwoRows(lap, dir, p, posX, posY, i + 4, j, height, width, x, y + 4);
    EntryIsTwoRows(lap, dir, p, posX, posY, i + 6, j, height, width, x, y + 6);
  }

  /** Four rows of complete sums at column j give the activity of the block there. */
  method SumOfRows(lap: array2<int>, ghost dir: Direction, ghost p: Pic, ghost posX: int, ghost posY: int,
                   ghost height: nat, ghost width: nat, i: nat, j: nat) returns (sum: nat)
    requires Roomy(lap) && height <= 36 && width <= 36 && RowsState(lap, dir, p, posX, posY, height, width)
    requires i % 4 == 0 && i + 6 < height && j % 4 == 0 && j + 6 < width
    ensures sum == Activity(dir, p, posX + j, posY + i)
  {
    FourEntries(lap, dir, p, posX, posY, i, j, height, width, posX + j - 2, posY + i - 2);
    FourPairs(dir, p, posX + j, posY + i, lap[i, j], lap[i + 2, j], lap[i + 4, j], lap[i + 6, j]);
    sum := lap[i, j] + lap[i + 2, j] + lap[i + 4, j] + lap[i + 6, j];
  }

  // ---- Classes of blocks ----

  /** Where the 4x4 block holding v starts, with blocks laid out from o. */
  function BlockStart(o: int, v: int): int {
    v - (v - o) % 4
  }

  /** The classes of the area from (posX, posY) up to (x1, y1) are in place. */
  ghost predicate Classified(classifier: array2<AlfClassifier>, p: Pic, shift: nat,
                             posX: nat, posY: nat, x0: nat, x1: nat, y0: nat, y1: nat)
    requires x1 <= classifier.Length1 && y1 <= classifier.Length0
    reads classifier
  {
    forall x: nat, y: nat | x0 <= x < x1 && y0 <= y < y1 ::
      classifier[y, x] == BlockClass(p, BlockStart(posX, x), BlockStart(posY, y), shift)
  }

  /** All sixteen entries of the block at (x, y). */
  method FillClasses(classifier: array2<AlfClassifier>, x: nat, y: nat, cl: AlfClassifier)
    requires x + 4 <= classifier.Length1 && y + 4 <= classifier.Length0
    modifies classifier
    ensures forall u: nat, v: nat | u < classifier.Length1 && v < classifier.Length0 ::
      classifier[v, u] == if x <= u < x + 4 && y <= v < y + 4 then cl else old(classifier[v, u])
  {
    forall v: nat, u: nat | y <= v < y + 4 && x <= u < x + 4 {
      classifier[v, u] := cl;
    }
  }

  /** The class of the block at column j and row i of the area. */
  method ClassAt(lap: Laplacians, ghost p: Pic, ghost posX: int, ghost posY: int, ghost height: nat, ghost width: nat,
                 i: nat, j: nat, shift: nat) returns (cl: AlfClassifier)
    requires lap.Valid() && height <= 36 && width <= 36 && lap.Rows(p, posX, posY, height, width)
    requires i % 4 == 0 && i + 6 < height && j % 4 == 0 && j + 6 < width
    ensures cl == BlockClass(p, posX + j, posY + i, shift)
  {
    var sumV := SumOfRows(lap.ver, Ver, p, posX, posY, height, width, i, j);
    var sumH := SumOfRows(lap.hor, Hor, p, posX, posY, height, width, i, j);
    var sumD0 := SumOfRows(lap.dig0, Diag0, p, posX, posY, height, width, i, j);
    var sumD1 := SumOfRows(lap.dig1, Diag1, p, posX, posY, height, width, i, j);
    cl := Classify(sumV, sumH, sumD0, sumD1, shift);
  }

  /** Scratch arrays and sample buffer are different objects. */
  predicate Apart(lap: Laplacians, src: Plane) {
    src.buf != lap.ver && src.buf != lap.hor && src.buf != lap.dig0 && src.buf != lap.dig1
  }

  /** Classifies an area of at most 32x32 samples: what `deriveClassificationBlk` leaves in the classifier. */
  method DeriveClassificationBlk(classifier: array2<AlfClassifier>, lap: Laplacians, src: Plane, ghost p: Pic,
                                 posX: nat, posY: nat, width: nat, height: nat, shift: nat)
    requires lap.Valid() && Apart(lap, src)
    requires width <= CLASSIFICATION_BLK_SIZE && height <= CLASSIFICATION_BLK_SIZE && width % 4 == 0 && height % 4 == 0
    requires posX + width <= classifier.Length1 && posY + height <= classifier.Length0
    requires src.Valid() && src.Inside(posX - 3, posY - 3) && src.Inside(posX + width + 2, posY + height + 2)
    requires src.Shows(p, posX - 3, posX + width + 3, posY - 3, posY + height + 3)
    modifies classifier, lap.ver, lap.hor, lap.dig0, lap.dig1
    ensures Classified(classifier, p, shift, posX, posY, posX, posX + width, posY, posY + height)
    ensures forall x: nat, y: nat | x < classifier.Length1 && y < classifier.Length0 ::
      !(posX <= x < posX + width && posY <= y < posY + height) ==> classifier[y, x] == old(classifier[y, x])
  {
    FillLaplacians(lap, src, p, posX, posY, height + 4, width + 4);
    var i := 0;
    while i < height
      invariant 0 <= i <= height && i % 4 == 0
      invariant lap.Rows(p, posX, posY, height + 4, width + 4)
      invariant Classified(classifier, p, shift, posX, posY, posX, posX + width, posY, posY + i)
      invariant forall x: nat, y: nat | x < classifier.Length1 && y < classifier.Length0 ::
        !(posX <= x < posX + width && posY <= y < posY + i) ==> classifier[y, x] == old(classifier[y, x])
    {
      ClassifyRow(classifier, lap, p, posX, posY, width, height, i, shift);
      i := i + 4;
    }
  }

  method ClassifyRow(classifier: array2<AlfClassifier>, lap: Laplacians, ghost p: Pic,
                     posX: nat, posY: nat, width: nat, ghost height: nat, i: nat, shift: nat)
    requires lap.Valid() && width <= 32 && height <= 32 && width % 4 == 0 && i % 4 == 0 && i + 4 <= height
    requires posX + width <= classifier.Length1 && posY + height <= classifier.Length0
    requires lap.Rows(p, posX, posY, height + 4, width + 4)
    modifies classifier
    ensures Classified(classifier, p, shift, posX, posY, posX, posX + width, posY + i, posY + i + 4)
    ensures forall x: nat, y: nat | x < classifier.Length1 && y < classifier.Length0 ::
      !(posX <= x < posX + width && posY + i <= y < posY + i + 4) ==> classifier[y, x] == old(classifier[y, x])
  {
    var j := 0;
    while j < width
      invariant 0 <= j <= width && j % 4 == 0
      invariant lap.Rows(p, posX, posY, height + 4, width + 4)
      invariant Classified(classifier, p, shift, posX, posY, posX, posX + j, posY + i, posY + i + 4)
      invariant forall x: nat, y: nat | x < classifier.Length1 && y < classifier.Length0 ::
        !(posX <= x < posX + j && posY + i <= y < posY + i + 4) ==> classifier[y, x] == old(classifier[y, x])
    {
      ClassifyBlock(classifier, lap, p, posX, posY, width, height, i, j, shift);
      j := j + 4;
    }
  }

  method ClassifyBlock(classifier: array2<AlfClassifier>, lap: Laplacians, ghost p: Pic,
                       posX: nat, posY: nat, ghost width: nat, ghost height: nat, i: nat, j: nat, shift: nat)
    requires lap.Valid() && width <= 32 && height <= 32
    requires i % 4 == 0 && i + 4 <= height && j % 4 == 0 && j + 4 <= width
    requires posX + width <= classifier.Length1 && posY + height <= classifier.Length0
    requires lap.Rows(p, posX, posY, height + 4, width + 4)
    modifies classifier
    ensures Classified(classifier, p, shift, posX, posY, posX + j, posX + j + 4, posY + i, posY + i + 4)
    ensures forall x: nat, y: nat | x < classifier.Length1 && y < classifier.Length0 ::
      !(posX + j <= x < posX + j + 4 && posY + i <= y < posY + i + 4) ==> classifier[y, x] == old(classifier[y, x])
  {
    var cl := ClassAt(lap, p, posX, posY, height + 4, width + 4, i, j, shift);
    FillClasses(classifier, posX + j, posY + i, cl);
    BlockIsClassified(classifier, p, shift, posX, posY, i, j, cl);
  }

  lemma BlockIsClassified(classifier: array2<AlfClassifier>, p: Pic, shift: nat, posX: nat, posY: nat, i: nat, j: nat, cl: AlfClassifier)
    requires i % 4 == 0 && j % 4 == 0 && posX + j + 4 <= classifier.Length1 && posY + i + 4 <= classifier.Length0
    requires cl == BlockClass(p, posX + j, posY + i, shift)
    requires forall u: nat, v: nat | posX + j <= u < posX + j + 4 && posY + i <= v < posY + i + 4 :: classifier[v, u] == cl
    ensures Classified(classifier, p, shift, posX, posY, posX + j, posX + j + 4, posY + i, posY + i + 4)
  {
    forall x: nat, y: nat | posX + j <= x < posX + j + 4 && posY + i <= y < posY + i + 4
      ensures BlockStart(posX, x) == posX + j && BlockStart(posY, y) == posY + i
    {
      BlockStartAt(posX, j, x);
      BlockStartAt(posY, i, y);
    }
  }

  lemma BlockStartAt(o: int, j: nat, v: int)
    requires j % 4 == 0 && o + j <= v < o + j + 4
    ensures BlockStart(o, v) == o + j
  {
  }

  /** The tiles' own origins do not show in where blocks start. */
  lemma TileOriginDoesNotMatter(o: int, t: int, v: int)
    requires (t - o) % 4 == 0
    ensures BlockStart(t, v) == BlockStart(o, v)
  {
  }

  /** Classified over two areas whose origins are whole blocks apart, a sample has the same class in both. */
  lemma ClassesDoNotDependOnTiles(a: array2<AlfClassifier>, b: array2<AlfClassifier>, p: Pic, shift: nat, aX: nat, aY: nat, bX: nat, bY: nat,
                                  ax1: nat, ay1: nat, bx1: nat, by1: nat, x: nat, y: nat)
    requires ax1 <= a.Length1 && ay1 <= a.Length0 && bx1 <= b.Length1 && by1 <= b.Length0
    requires Classified(a, p, shift, aX, aY, aX, ax1, aY, ay1) && Classified(b, p, shift, bX, bY, bX, bx1, bY, by1)
    requires (aX - bX) % 4 == 0 && (aY - bY) % 4 == 0
    requires aX <= x < ax1 && aY <= y < ay1 && bX <= x < bx1 && bY <= y < by1
    ensures a[y, x] == b[y, x]
  {
    TileOriginDoesNotMatter(bX, aX, x);
    TileOriginDoesNotMatter(bY, aY, y);
  }

  /**
   * Classifies an area tile by tile. Each entry is the class of its own 4x4 block: nothing in it depends on how the
   * area is cut into tiles, nor on what the scratch arrays held.
   */
  method DeriveClassification(classifier: array2<AlfClassifier>, lap: Laplacians, src: Plane, ghost p: Pic,
                              posX: nat, posY: nat, blkWidth: nat, blkHeight: nat, shift: nat)
    requires lap.Valid() && Apart(lap, src) && blkWidth % 4 == 0 && blkHeight % 4 == 0
    requires posX + blkWidth <= classifier.Length1 && posY + blkHeight <= classifier.Length0
    requires src.Valid() && src.Inside(posX - 3, posY - 3) && src.Inside(posX + blkWidth + 2, posY + blkHeight + 2)
    requires src.Shows(p, posX - 3, posX + blkWidth + 3, posY - 3, posY + blkHeight + 3)
    modifies classifier, lap.ver, lap.hor, lap.dig0, lap.dig1
    ensures Classified(classifier, p, shift, posX, posY, posX, posX + blkWidth, posY, posY + blkHeight)
    ensures forall x: nat, y: nat | x < classifier.Length1 && y < classifier.Length0 ::
      !(posX <= x < posX + blkWidth && posY <= y < posY + blkHeight) ==> classifier[y, x] == old(classifier[y, x])
  {
    var height, width := posY + blkHeight, posX + blkWidth;
    var i := posY;
    ghost var done := posY;
    while i < height
      invariant posY <= i && (i - posY) % 4 == 0 && done == Min(i, height)
      invariant Classified(classifier, p, shift, posX, posY, posX, width, posY, done)
      invariant forall x: nat, y: nat | x < classifier.Length1 && y < classifier.Length0 ::
        !(posX <= x < width && posY <= y < done) ==> classifier[y, x] == old(classifier[y, x])
    {
      var nHeight := Min(i + CLASSIFICATION_BLK_SIZE, height) - i;
      ClassifyTiles(classifier, lap, src, p, posX, posY, width, i, nHeight, shift);
      done := i + nHeight;
      i := i + CLASSIFICATION_BLK_SIZE;
    }
  }

  /** One row of tiles. */
  method ClassifyTiles(classifier: array2<AlfClassifier>, lap: Laplacians, src: Plane, ghost p: Pic,
                       posX: nat, ghost posY: nat, width: nat, i: nat, nHeight: nat, shift: nat)
    requires lap.Valid() && Apart(lap, src) && posX <= width && (width - posX) % 4 == 0
    requires posY <= i && (i - posY) % 4 == 0 && nHeight % 4 == 0 && nHeight <= 32
    requires width <= classifier.Length1 && i + nHeight <= classifier.Length0
    requires src.Valid() && src.Inside(posX - 3, i - 3) && src.Inside(width + 2, i + nHeight + 2)
    requires src.Shows(p, posX - 3, width + 3, i - 3, i + nHeight + 3)
    modifies classifier, lap.ver, lap.hor, lap.dig0, lap.dig1
    ensures Classified(classifier, p, shift, posX, posY, posX, width, i, i + nHeight)
    ensures forall x: nat, y: nat | x < classifier.Length1 && y < classifier.Length0 ::
      !(posX <= x < width && i <= y < i + nHeight) ==> classifier[y, x] == old(classifier[y, x])
  {
    var j := posX;
    while j < width
      invariant posX <= j && (j - posX) % 4 == 0
      invariant Classified(classifier, p, shift, posX, posY, posX, Min(j, width), i, i + nHeight)
      invariant forall x: nat, y: nat | x < classifier.Length1 && y < classifier.Length0 ::
        !(posX <= x < Min(j, width) && i <= y < i + nHeight) ==> classifier[y, x] == old(classifier[y, x])
    {
      var nWidth := Min(j + CLASSIFICATION_BLK_SIZE, width) - j;
      DeriveClassificationBlk(classifier, lap, src, p, j, i, nWidth, nHeight, shift);
      forall x: nat, y: nat | j <= x < j + nWidth && i <= y < i + nHeight
        ensures classifier[y, x] == BlockClass(p, BlockStart(posX, x), BlockStart(posY, y), shift)
      {
        TileOriginDoesNotMatter(posX, j, x);
        TileOriginDoesNotMatter(posY, i, y);
      }
      j := j + CLASSIFICATION_BLK_SIZE;
    }
  }
}
