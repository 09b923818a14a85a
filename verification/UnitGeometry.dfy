/** Areas of coding units, their grid of minimum blocks, and how many disjoint ones fit into an area. */
module UnitGeometry {
  import opened StridedBlock

  /** `in >> s` for the shifts a unit scale has. */
  function Shift(v: int, s: nat): int
    requires s <= 2
  {
    if s == 0 then v else if s == 1 then v / 2 else v / 4
  }

  predicate IsMultiple(v: int, s: nat)
    requires s <= 2
  {
    if s == 0 then true else if s == 1 then v % 2 == 0 else v % 4 == 0
  }

  datatype UnitScale = UnitScale(posx: nat, posy: nat) {
    predicate Valid() {
      posx <= 2 && posy <= 2
    }
  }

  datatype CompArea = CompArea(x: int, y: int, width: nat, height: nat) {
    predicate Valid() {
      width != 0 && height != 0
    }

    predicate Contains(px: int, py: int) {
      x <= px < x + width && y <= py < y + height
    }

    /** `contains( const Area& )`: both extreme corners are inside. */
    predicate ContainsArea(other: CompArea) {
      Contains(other.x, other.y) && Contains(other.x + other.width - 1, other.y + other.height - 1)
    }

    function Size(): nat {
      Area(width, height)
    }

    function Scaled(scale: UnitScale): CompArea
      requires scale.Valid()
    {
      CompArea(Shift(x, scale.posx), Shift(y, scale.posy), Shift(width, scale.posx), Shift(height, scale.posy))
    }

    predicate Aligned(scale: UnitScale)
      requires scale.Valid()
    {
      IsMultiple(x, scale.posx) && IsMultiple(y, scale.posy) && IsMultiple(width, scale.posx) && IsMultiple(height, scale.posy)
    }
  }

  lemma ShiftOfDifference(v: int, o: int, s: nat)
    requires s <= 2 && IsMultiple(o, s)
    ensures Shift(v - o, s) == Shift(v, s) - Shift(o, s)
  {
  }

  lemma ShiftInRange(v: int, o: int, n: nat, s: nat)
    requires s <= 2 && IsMultiple(o, s) && IsMultiple(n, s)
    ensures o <= v < o + n <==> Shift(o, s) <= Shift(v, s) < Shift(o, s) + Shift(n, s)
  {
  }

  /** On aligned areas, containing a position is containing its grid cell. */
  lemma ScaledContains(b: CompArea, scale: UnitScale, px: int, py: int)
    requires scale.Valid() && b.Aligned(scale)
    ensures b.Contains(px, py) <==> b.Scaled(scale).Contains(Shift(px, scale.posx), Shift(py, scale.posy))
  {
    ShiftInRange(px, b.x, b.width, scale.posx);
    ShiftInRange(py, b.y, b.height, scale.posy);
  }

  /** For areas that are not empty, corners inside means all of it inside. */
  lemma ContainsAreaMeaning(a: CompArea, b: CompArea)
    requires b.Valid()
    ensures a.ContainsArea(b) <==> forall px: int, py: int | b.Contains(px, py) :: a.Contains(px, py)
  {
    if forall px: int, py: int | b.Contains(px, py) :: a.Contains(px, py) {
      assert b.Contains(b.x, b.y);
      assert b.Contains(b.x + b.width - 1, b.y + b.height - 1);
    }
  }

  /**
   * Clearing an index map counts its entries by shifting the area's size once, allocating it by shifting width and
   * height: for areas that fill their grid the two counts are the same.
   */
  lemma ScaledSize(b: CompArea, scale: UnitScale)
    requires scale.Valid() && b.Aligned(scale)
    ensures b.Scaled(scale).width >= 0 && b.Scaled(scale).height >= 0
    ensures b.width * b.height
         == (b.Scaled(scale).width * b.Scaled(scale).height)
          * (if scale.posx == 0 then 1 else if scale.posx == 1 then 2 else 4)
          * (if scale.posy == 0 then 1 else if scale.posy == 1 then 2 else 4)
  {
    var sx := if scale.posx == 0 then 1 else if scale.posx == 1 then 2 else 4;
    var sy := if scale.posy == 0 then 1 else if scale.posy == 1 then 2 else 4;
    var w, h := b.Scaled(scale).width, b.Scaled(scale).height;
    assert b.width == w * sx && b.height == h * sy;
    Regroup(w, h, sx, sy);
  }

  lemma Regroup(w: nat, h: nat, sx: nat, sy: nat)
    requires sx in {1, 2, 4} && sy in {1, 2, 4}
    ensures (w * sx) * (h * sy) == (w * h) * sx * sy
  {
  }

  // ---- Counting ----

  /** Columns x up to x + w of row y. */
  ghost function RowCells(x: int, y: int, w: nat): set<(int, int)> {
    set px: int | x <= px < x + w :: (px, y)
  }

  ghost function Cells(b: CompArea): set<(int, int)> {
    set px: int, py: int | b.x <= px < b.x + b.width && b.y <= py < b.y + b.height :: (px, py)
  }

  lemma {:induction false} RowCellsCount(x: int, y: int, w: nat)
    ensures |RowCells(x, y, w)| == w
  {
    if w == 0 {
    } else {
      RowCellsCount(x, y, w - 1);
      var shorter, last := RowCells(x, y, w - 1), (x + w - 1, y);
      assert last !in shorter;
      forall cell: (int, int)
        ensures cell in RowCells(x, y, w) <==> cell in shorter || cell == last
      {
      }
      assert RowCells(x, y, w) == shorter + {last};
    }
  }

  lemma {:induction false} CellsCount(b: CompArea)
    ensures |Cells(b)| == b.Size()
    decreases b.height
  {
    if b.height == 0 {
    } else {
      var shorter := b.(height := b.height - 1);
      var last := b.y + b.height - 1;
      CellsCount(shorter);
      RowCellsCount(b.x, last, b.width);
      assert Cells(b) == Cells(shorter) + RowCells(b.x, last, b.width);
      assert Cells(shorter) !! RowCells(b.x, last, b.width);
    }
  }

  lemma SubsetCount<T>(a: set<T>, b: set<T>)
    requires a <= b
    ensures |a| <= |b|
  {
    assert b == a + (b - a);
  }

  /** No position belongs to both. */
  predicate Disjoint(a: CompArea, b: CompArea) {
    a.x + a.width <= b.x || b.x + b.width <= a.x || a.y + a.height <= b.y || b.y + b.height <= a.y || !a.Valid() || !b.Valid()
  }

  lemma DisjointMeaning(a: CompArea, b: CompArea)
    ensures Disjoint(a, b) <==> forall px: int, py: int :: !(a.Contains(px, py) && b.Contains(px, py))
  {
    if !Disjoint(a, b) {
      var px, py := if a.x < b.x then b.x else a.x, if a.y < b.y then b.y else a.y;
      assert a.Contains(px, py) && b.Contains(px, py);
    }
  }

  function TotalSize(areas: seq<CompArea>): nat {
    if areas == [] then 0 else TotalSize(areas[..|areas| - 1]) + areas[|areas| - 1].Size()
  }

  ghost predicate PairwiseDisjoint(areas: seq<CompArea>) {
    forall j, k | 0 <= j < k < |areas| :: Disjoint(areas[j], areas[k])
  }

  ghost function AllCells(areas: seq<CompArea>): set<(int, int)> {
    if areas == [] then {} else AllCells(areas[..|areas| - 1]) + Cells(areas[|areas| - 1])
  }

  lemma {:induction false} AllCellsOf(areas: seq<CompArea>, cell: (int, int))
    requires cell in AllCells(areas)
    ensures exists k :: 0 <= k < |areas| && areas[k].Contains(cell.0, cell.1)
  {
    var n := |areas| - 1;
    if cell in Cells(areas[n]) {
      assert areas[n].Contains(cell.0, cell.1);
    } else {
      AllCellsOf(areas[..n], cell);
    }
  }

  lemma {:induction false} DisjointCellsCount(areas: seq<CompArea>)
    requires PairwiseDisjoint(areas)
    ensures |AllCells(areas)| == TotalSize(areas)
  {
    if areas == [] {
    } else {
      var n := |areas| - 1;
      DisjointCellsCount(areas[..n]);
      CellsCount(areas[n]);
      forall cell | cell in AllCells(areas[..n])
        ensures cell !in Cells(areas[n])
      {
        AllCellsOf(areas[..n], cell);
        var k :| 0 <= k < n && areas[k].Contains(cell.0, cell.1);
        DisjointMeaning(areas[k], areas[n]);
      }
    }
  }

  /** Pairwise disjoint areas inside another are together no larger than it. */
  lemma DisjointAreasFit(areas: seq<CompArea>, outer: CompArea)
    requires PairwiseDisjoint(areas)
    requires forall k | 0 <= k < |areas| :: !areas[k].Valid() || outer.ContainsArea(areas[k])
    ensures TotalSize(areas) <= outer.Size()
  {
    DisjointCellsCount(areas);
    CellsCount(outer);
    forall cell | cell in AllCells(areas)
      ensures cell in Cells(outer)
    {
      AllCellsOf(areas, cell);
    }
    SubsetCount(AllCells(areas), Cells(outer));
  }
}
