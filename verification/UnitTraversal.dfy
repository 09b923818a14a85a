/** Visiting the units of an area by following the links from each unit to the one added after it. */
module UnitTraversal {
  import opened UnitGeometry
  import opened UnitIndex
  import opened Options

  /** Component k belongs to both. */
  predicate Shared(a: Unit, u: Unit, k: nat) {
    k < |a.blocks| && k < |u.blocks| && a.blocks[k].Valid() && u.blocks[k].Valid()
  }

  /** `contains( const UnitArea& )`: inside in every component they share, and they do share one. */
  ghost predicate ContainsUnit(a: Unit, u: Unit) {
    (exists k: nat :: Shared(a, u, k)) && forall k: nat | Shared(a, u, k) :: a.blocks[k].ContainsArea(u.blocks[k])
  }

  /** The same, component by component. */
  method CheckContains(a: Unit, u: Unit) returns (inside: bool)
    ensures inside == ContainsUnit(a, u)
  {
    var ret, any := true, false;
    for k := 0 to |u.blocks|
      invariant any <==> exists j: nat :: j < k && Shared(a, u, j)
      invariant ret <==> forall j: nat | j < k && Shared(a, u, j) :: a.blocks[j].ContainsArea(u.blocks[j])
    {
      if k < |a.blocks| && u.blocks[k].Valid() && a.blocks[k].Valid() {
        assert Shared(a, u, k);
        ret := ret && a.blocks[k].ContainsArea(u.blocks[k]);
        any := true;
      }
    }
    inside := any && ret;
  }

  /** A unit found in a structure: how many structures up its list is, and one plus its position there. */
  datatype Place = Nowhere | At(level: nat, entry: nat)

  /** As seen from one structure further in. */
  function Further(p: Place): Place {
    if p.At? then At(p.level + 1, p.entry) else Nowhere
  }

  /** Coding units are linked whatever they belong to. */
  function NoOwners(n: nat): (owners: seq<Place>)
    ensures |owners| == n && forall k | 0 <= k < n :: owners[k] == Nowhere
  {
    seq(n, k => Nowhere)
  }

  /**
   * Where the links leave the area, from a list position on. A unit is linked to the one added after it if both have
   * the same owner.
   */
  ghost function EndOf(units: seq<Unit>, owners: seq<Place>, a: Unit, from: nat): (e: nat)
    requires 0 < from <= |units| == |owners|
    ensures from <= e <= |units|
    decreases |units| - from
  {
    if from == |units| || owners[from - 1] != owners[from] || !ContainsUnit(a, units[from]) then from
    else EndOf(units, owners, a, from + 1)
  }

  /** The positions visited when the unit found at the area's corner is the n-th, or there is none. */
  ghost predicate Visits(units: seq<Unit>, owners: seq<Place>, a: Unit, n: nat, k: nat)
    requires n <= |units| == |owners|
  {
    n > 0 && n - 1 <= k < EndOf(units, owners, a, n)
  }

  /** The loop of `traverseCUs`, `traversePUs` and `traverseTUs`: from the n-th unit along the links while inside the area. */
  method Follow(units: seq<Unit>, owners: seq<Place>, a: Unit, n: nat) returns (last: nat)
    requires 0 < n <= |units| == |owners|
    ensures last == EndOf(units, owners, a, n)
  {
    last := n;
    var inside := true;
    while inside && last < |units| && owners[last - 1] == owners[last]
      invariant n <= last <= |units|
      invariant if inside then EndOf(units, owners, a, last) == EndOf(units, owners, a, n) else last == EndOf(units, owners, a, n)
      decreases |units| - last, inside
    {
      inside := CheckContains(a, units[last]);
      if inside {
        last := last + 1;
      }
    }
  }

  /** From position i to k all units have the same owner. */
  ghost predicate OneOwner(owners: seq<Place>, i: nat, k: nat) {
    forall j | i <= j <= k < |owners| :: owners[j] == owners[i]
  }

  /** Visited are the positions from the n-th unit up to e. */
  ghost predicate VisitsUpTo(units: seq<Unit>, owners: seq<Place>, a: Unit, n: nat, e: nat)
    requires n <= |units| == |owners|
  {
    forall k: nat :: Visits(units, owners, a, n, k) <==> n - 1 <= k < e
  }

  /**
   * Visited are the positions from `first` up to e or the first one whose owner is another: all of them exactly when they
   * have one owner.
   */
  ghost predicate VisitsWhileOwned(units: seq<Unit>, owners: seq<Place>, a: Unit, first: nat, e: nat)
    requires first < e <= |units| == |owners|
  {
    && (forall k: nat :: Visits(units, owners, a, first + 1, k) <==> first <= k < e && OneOwner(owners, first, k))
    && (VisitsUpTo(units, owners, a, first + 1, e) <==> OneOwner(owners, first, e - 1))
  }

  /**
   * The units inside an area lie next to each other in the list and have one owner, the n-th is the first of them, and
   * n is 0 if there are none.
   */
  ghost predicate OneRun(units: seq<Unit>, owners: seq<Place>, a: Unit, n: nat)
    requires |units| == |owners|
  {
    && (forall i, j, k | 0 <= i < j < k < |units| && ContainsUnit(a, units[i]) && ContainsUnit(a, units[k]) :: ContainsUnit(a, units[j]))
    && (forall k | 0 <= k < |units| && (n == 0 || k < n - 1) :: !ContainsUnit(a, units[k]))
    && (0 < n <= |units| ==> ContainsUnit(a, units[n - 1]))
    && (forall i, k | 0 <= i < k < |units| && ContainsUnit(a, units[i]) && ContainsUnit(a, units[k]) :: owners[i] == owners[k])
  }

  /** Every unit on the way is inside and has the owner of the one before, and the next one is or has not. */
  lemma {:induction false} RunUpToEnd(units: seq<Unit>, owners: seq<Place>, a: Unit, from: nat, k: nat)
    requires 0 < from <= |units| == |owners|
    ensures from <= k < EndOf(units, owners, a, from) ==> ContainsUnit(a, units[k]) && owners[k] == owners[from - 1]
    ensures var e := EndOf(units, owners, a, from);
      owners[e - 1] == owners[from - 1] && (e < |units| ==> !ContainsUnit(a, units[e]) || owners[e] != owners[from - 1])
    decreases |units| - from
  {
    if from < |units| && owners[from - 1] == owners[from] && ContainsUnit(a, units[from]) {
      RunUpToEnd(units, owners, a, from + 1, k);
    } else {
    }
  }

  /**
   * Exactly the units inside the area are visited if and only if they form one run of one owner that the unit at the
   * corner begins.
   */
  lemma VisitsExactlyRuns(units: seq<Unit>, owners: seq<Place>, a: Unit, n: nat)
    requires n <= |units| == |owners|
    ensures (forall k: nat | k < |units| :: Visits(units, owners, a, n, k) <==> ContainsUnit(a, units[k])) <==> OneRun(units, owners, a, n)
  {
    if n > 0 {
      forall k: nat
        ensures n <= k < EndOf(units, owners, a, n) ==> ContainsUnit(a, units[k]) && owners[k] == owners[n - 1]
      {
        RunUpToEnd(units, owners, a, n, k);
      }
      if OneRun(units, owners, a, n) {
        RunIsVisited(units, owners, a, n);
      }
    }
  }

  lemma RunIsVisited(units: seq<Unit>, owners: seq<Place>, a: Unit, n: nat)
    requires 0 < n <= |units| == |owners| && OneRun(units, owners, a, n)
    ensures forall k: nat | k < |units| :: Visits(units, owners, a, n, k) <==> ContainsUnit(a, units[k])
  {
    var e := EndOf(units, owners, a, n);
    RunUpToEnd(units, owners, a, n, e);
    forall k: nat | k < |units|
      ensures Visits(units, owners, a, n, k) <==> ContainsUnit(a, units[k])
    {
      RunUpToEnd(units, owners, a, n, k);
      if k >= e && ContainsUnit(a, units[k]) {
        assert false;
      }
    }
  }

  /** Two coding units side by side, one prediction unit in each: a traversal of both leaves the second prediction unit out. */
  lemma TwoOwnersCutTraversal()
    ensures var l, r, a := Unit([CompArea(0, 0, 8, 8)], 0), Unit([CompArea(8, 0, 8, 8)], 0), Unit([CompArea(0, 0, 16, 8)], 0);
      && ContainsUnit(a, l) && ContainsUnit(a, r)
      && VisitsUpTo([l, r], NoOwners(2), a, 1, 2)
      && VisitsUpTo([l, r], [At(0, 1), At(0, 2)], a, 1, 1)
  {
    var l, r, a := Unit([CompArea(0, 0, 8, 8)], 0), Unit([CompArea(8, 0, 8, 8)], 0), Unit([CompArea(0, 0, 16, 8)], 0);
    assert Shared(a, l, 0) && Shared(a, r, 0);
    assert EndOf([l, r], NoOwners(2), a, 1) == EndOf([l, r], NoOwners(2), a, 2);
  }

  // ---- Trees of splits ----

  /** How an area has been split into units, in coding order. */
  datatype Part = Whole(unit: Unit) | Split(area: Unit, parts: seq<Part>)

  function AreaOf(p: Part): Unit {
    if p.Whole? then p.unit else p.area
  }

  function Leaves(p: Part): seq<Unit>
    decreases p
  {
    if p.Whole? then [p.unit] else LeavesOf(p.parts)
  }

  function LeavesOf(parts: seq<Part>): seq<Unit>
    decreases parts
  {
    if parts == [] then [] else Leaves(parts[0]) + LeavesOf(parts[1..])
  }

  ghost predicate SameComponents(a: Unit, u: Unit) {
    |a.blocks| == |u.blocks| && forall k | 0 <= k < |a.blocks| :: a.blocks[k].Valid() <==> u.blocks[k].Valid()
  }

  ghost predicate HasChannel(u: Unit, c: nat) {
    c < |u.blocks| && u.blocks[c].Valid()
  }

  /** Parts lie inside their area, share no position in channel c, and the first of them begins at the area's corner. */
  ghost predicate Partitioned(p: Part, c: nat)
    decreases p
  {
    && HasChannel(AreaOf(p), c)
    && (p.Split? ==>
          && p.parts != []
          && (forall i | 0 <= i < |p.parts| ::
                SameComponents(p.area, AreaOf(p.parts[i])) && ContainsUnit(p.area, AreaOf(p.parts[i])) && Partitioned(p.parts[i], c))
          && (forall i, j | 0 <= i < j < |p.parts| :: Apart(AreaOf(p.parts[i]), AreaOf(p.parts[j]), c))
          && AreaOf(p.parts[0]).blocks[c].x == p.area.blocks[c].x && AreaOf(p.parts[0]).blocks[c].y == p.area.blocks[c].y)
  }

  ghost predicate Apart(a: Unit, b: Unit, c: nat) {
    HasChannel(a, c) && HasChannel(b, c) && Disjoint(a.blocks[c], b.blocks[c])
  }

  /** The part a path of choices leads to. */
  function PartAt(p: Part, path: seq<nat>): Option<Part>
    decreases |path|
  {
    if path == [] then Some(p)
    else if p.Split? && path[0] < |p.parts| then PartAt(p.parts[path[0]], path[1..])
    else None
  }

  lemma ContainsItself(u: Unit, c: nat)
    requires HasChannel(u, c)
    ensures ContainsUnit(u, u)
  {
    assert Shared(u, u, c);
  }

  lemma InsideInside(a: CompArea, b: CompArea, d: CompArea)
    requires b.Valid() && a.ContainsArea(b) && b.ContainsArea(d)
    ensures a.ContainsArea(d)
  {
  }

  lemma ContainsAll(a: Unit, b: Unit, u: Unit)
    requires SameComponents(a, b) && ContainsUnit(a, b) && ContainsUnit(b, u)
    ensures ContainsUnit(a, u)
  {
    var j: nat :| Shared(b, u, j);
    assert Shared(a, u, j);
    forall k: nat | Shared(a, u, k)
      ensures a.blocks[k].ContainsArea(u.blocks[k])
    {
      assert Shared(b, u, k) && Shared(a, b, k);
      InsideInside(a.blocks[k], b.blocks[k], u.blocks[k]);
    }
  }

  /** What is inside one of two areas that share no position is not inside the other. */
  lemma InsideOne(a: Unit, b: Unit, u: Unit, c: nat)
    requires Apart(a, b, c) && HasChannel(u, c) && ContainsUnit(a, u)
    ensures !ContainsUnit(b, u)
  {
    assert Shared(a, u, c) && Shared(b, u, c);
    DisjointMeaning(a.blocks[c], b.blocks[c]);
    var d := u.blocks[c];
    assert a.blocks[c].Contains(d.x, d.y);
    assert !b.blocks[c].Contains(d.x, d.y);
  }

  /** A unit made from an area: it lies inside, with the same components. */
  ghost predicate Below(a: Unit, u: Unit, c: nat) {
    SameComponents(a, u) && ContainsUnit(a, u) && HasChannel(u, c)
  }

  lemma {:induction false} LeavesAreBelow(p: Part, c: nat, u: Unit)
    requires Partitioned(p, c) && u in Leaves(p)
    ensures Below(AreaOf(p), u, c)
    decreases p
  {
    if p.Whole? {
      ContainsItself(p.unit, c);
    } else {
      var i := PartOfLeaf(p.parts, u);
      LeavesAreBelow(p.parts[i], c, u);
      ContainsAll(p.area, AreaOf(p.parts[i]), u);
    }
  }

  lemma {:induction false} PartOfLeaf(parts: seq<Part>, u: Unit) returns (i: nat)
    requires u in LeavesOf(parts)
    ensures i < |parts| && u in Leaves(parts[i])
    decreases |parts|
  {
    if u in Leaves(parts[0]) {
      i := 0;
    } else {
      i := PartOfLeaf(parts[1..], u);
      i := i + 1;
    }
  }

  lemma {:induction false} LeavesOfSplit(parts: seq<Part>, i: nat)
    requires i < |parts|
    ensures LeavesOf(parts) == LeavesOf(parts[..i]) + Leaves(parts[i]) + LeavesOf(parts[i + 1..])
    decreases |parts|
  {
    if i == 0 {
      assert parts[..0] == [] && LeavesOf([]) == [];
    } else {
      LeavesOfSplit(parts[1..], i - 1);
      assert parts[1..][..i - 1] == parts[..i][1..] && parts[1..][i..] == parts[i + 1..];
      assert parts[..i][0] == parts[0];
    }
  }

  lemma {:induction false} FirstLeafAtCorner(p: Part, c: nat)
    requires Partitioned(p, c)
    ensures Leaves(p) != [] && ContainsPos(Leaves(p)[0], c, AreaOf(p).blocks[c].x, AreaOf(p).blocks[c].y)
    decreases p
  {
    if p.Whole? {
    } else {
      FirstLeafAtCorner(p.parts[0], c);
    }
  }

  ghost predicate NoneInside(us: seq<Unit>, a: Unit) {
    forall u | u in us :: !ContainsUnit(a, u)
  }

  /** The units of a part are one stretch of the list, and no unit before or behind it lies inside the part. */
  lemma {:induction false} PartIsAStretch(p: Part, c: nat, path: seq<nat>) returns (before: seq<Unit>, behind: seq<Unit>)
    requires Partitioned(p, c) && PartAt(p, path).Some?
    ensures var n := PartAt(p, path).value;
      && Partitioned(n, c) && Below(AreaOf(p), AreaOf(n), c)
      && Leaves(p) == before + Leaves(n) + behind
      && NoneInside(before, AreaOf(n)) && NoneInside(behind, AreaOf(n))
    decreases |path|
  {
    if path == [] {
      before, behind := [], [];
      ContainsItself(AreaOf(p), c);
    } else {
      var i, q := path[0], p.parts[path[0]];
      var front, back := LeavesOf(p.parts[..i]), LeavesOf(p.parts[i + 1..]);
      before, behind := PartIsAStretch(q, c, path[1..]);
      var n := PartAt(p, path).value;
      ContainsAll(p.area, AreaOf(q), AreaOf(n));
      LeavesOfSplit(p.parts, i);
      Nested(front, before, Leaves(n), behind, back);
      forall u | u in front || u in back
        ensures !ContainsUnit(AreaOf(n), u)
      {
        SiblingLeafOutside(p, c, i, AreaOf(n), u);
      }
      before, behind := front + before, behind + back;
    }
  }

  lemma Nested(a: seq<Unit>, b: seq<Unit>, m: seq<Unit>, d: seq<Unit>, e: seq<Unit>)
    ensures a + (b + m + d) + e == (a + b) + m + (d + e)
  {
  }

  lemma SiblingLeafOutside(p: Part, c: nat, i: nat, inner: Unit, u: Unit)
    requires Partitioned(p, c) && p.Split? && i < |p.parts| && Below(AreaOf(p.parts[i]), inner, c)
    requires u in LeavesOf(p.parts[..i]) || u in LeavesOf(p.parts[i + 1..])
    ensures !ContainsUnit(inner, u)
  {
    var j;
    if u in LeavesOf(p.parts[..i]) {
      j := PartOfLeaf(p.parts[..i], u);
    } else {
      j := PartOfLeaf(p.parts[i + 1..], u);
      j := i + 1 + j;
    }
    LeavesAreBelow(p.parts[j], c, u);
    assert Disjoint(AreaOf(p.parts[j]).blocks[c], AreaOf(p.parts[i]).blocks[c]) by {
      if j < i { assert Apart(AreaOf(p.parts[j]), AreaOf(p.parts[i]), c); }
      else { assert Apart(AreaOf(p.parts[i]), AreaOf(p.parts[j]), c); }
    }
    InsideOne(AreaOf(p.parts[j]), AreaOf(p.parts[i]), u, c);
    if ContainsUnit(inner, u) {
      ContainsAll(AreaOf(p.parts[i]), inner, u);
    }
  }

  /** Units of a tree of splits share no position. */
  lemma {:induction false} LeavesAreDisjoint(p: Part, c: nat)
    requires Partitioned(p, c)
    ensures UnitsDisjoint(Leaves(p), c)
    decreases p, 0
  {
    if p.Whole? {
    } else {
      LeavesOfAreDisjoint(p.parts, c, p.area);
    }
  }

  ghost predicate Siblings(parts: seq<Part>, c: nat, area: Unit) {
    && (forall i | 0 <= i < |parts| :: SameComponents(area, AreaOf(parts[i])) && Partitioned(parts[i], c))
    && (forall i, j | 0 <= i < j < |parts| :: Apart(AreaOf(parts[i]), AreaOf(parts[j]), c))
  }

  lemma FewerSiblings(parts: seq<Part>, c: nat, area: Unit)
    requires parts != [] && Siblings(parts, c, area)
    ensures Siblings(parts[1..], c, area)
  {
    forall i, j | 0 <= i < j < |parts[1..]|
      ensures Apart(AreaOf(parts[1..][i]), AreaOf(parts[1..][j]), c)
    {
      assert parts[1..][i] == parts[i + 1] && parts[1..][j] == parts[j + 1];
    }
  }

  lemma {:induction false} LeavesOfAreDisjoint(parts: seq<Part>, c: nat, area: Unit)
    requires Siblings(parts, c, area)
    ensures UnitsDisjoint(LeavesOf(parts), c)
    decreases parts, 1
  {
    if parts == [] {
    } else {
      LeavesAreDisjoint(parts[0], c);
      FewerSiblings(parts, c, area);
      LeavesOfAreDisjoint(parts[1..], c, area);
      var a, b := Leaves(parts[0]), LeavesOf(parts[1..]);
      forall j, k | 0 <= j < |a| && 0 <= k < |b|
        ensures Apart(a[j], b[k], c)
      {
        var i := PartOfLeaf(parts[1..], b[k]);
        assert parts[1..][i] == parts[i + 1];
        LeavesOfTwoParts(parts[0], parts[i + 1], c, a[j], b[k]);
      }
      DisjointConcat(a, b, c);
    }
  }

  lemma LeavesOfTwoParts(p: Part, q: Part, c: nat, u: Unit, v: Unit)
    requires Partitioned(p, c) && Partitioned(q, c) && Apart(AreaOf(p), AreaOf(q), c) && u in Leaves(p) && v in Leaves(q)
    ensures Apart(u, v, c)
  {
    LeavesAreBelow(p, c, u);
    LeavesAreBelow(q, c, v);
    var a, b, d, e := AreaOf(p).blocks[c], AreaOf(q).blocks[c], u.blocks[c], v.blocks[c];
    assert Shared(AreaOf(p), u, c) && Shared(AreaOf(q), v, c);
    PartsOfDisjoint(a, b, d, e);
  }

  lemma PartsOfDisjoint(a: CompArea, b: CompArea, d: CompArea, e: CompArea)
    requires a.Valid() && b.Valid() && d.Valid() && e.Valid() && Disjoint(a, b) && a.ContainsArea(d) && b.ContainsArea(e)
    ensures Disjoint(d, e)
  {
  }

  /**
   * When a list holds the leaves of a tree of splits, in coding order, traversing the area of any part of the tree begins
   * at the part's first unit and visits its units, in order, up to the first whose owner is another. All of them are
   * visited exactly when they have one owner.
   */
  lemma {:induction false} TraversalVisitsPart(units: seq<Unit>, owners: seq<Place>, c: nat, p: Part, path: seq<nat>, n: Part)
      returns (first: nat, end: nat)
    requires units == Leaves(p) && Partitioned(p, c) && PartAt(p, path) == Some(n) && |owners| == |units|
    ensures StandsAt(units, c, n, first, end)
    ensures VisitsWhileOwned(units, owners, AreaOf(n), first, end)
  {
    var before, behind := StretchOf(units, c, p, path, n);
    first, end := |before|, |before| + |Leaves(n)|;
    StretchVisited(units, owners, c, n, before, behind, end);
  }

  /** Coding units are linked throughout, so all those of a part are visited. */
  lemma {:induction false} CodingUnitsVisitPart(units: seq<Unit>, c: nat, p: Part, path: seq<nat>, n: Part) returns (first: nat, end: nat)
    requires units == Leaves(p) && Partitioned(p, c) && PartAt(p, path) == Some(n)
    ensures StandsAt(units, c, n, first, end)
    ensures VisitsUpTo(units, NoOwners(|units|), AreaOf(n), first + 1, end)
  {
    first, end := TraversalVisitsPart(units, NoOwners(|units|), c, p, path, n);
  }

  /** The units of a part stand between others that are not inside it, and its corner is in the first of them. */
  ghost predicate Stretch(units: seq<Unit>, c: nat, n: Part, before: seq<Unit>, behind: seq<Unit>) {
    && UnitsDisjoint(units, c) && units == before + Leaves(n) + behind
    && HasChannel(AreaOf(n), c) && Leaves(n) != []
    && ContainsPos(Leaves(n)[0], c, AreaOf(n).blocks[c].x, AreaOf(n).blocks[c].y)
    && (forall u | u in Leaves(n) :: ContainsUnit(AreaOf(n), u)) && NoneInside(behind, AreaOf(n))
  }

  lemma {:induction false} StretchOf(units: seq<Unit>, c: nat, p: Part, path: seq<nat>, n: Part) returns (before: seq<Unit>, behind: seq<Unit>)
    requires units == Leaves(p) && Partitioned(p, c) && PartAt(p, path) == Some(n)
    ensures Stretch(units, c, n, before, behind)
  {
    before, behind := PartIsAStretch(p, c, path);
    LeavesAreDisjoint(p, c);
    FirstLeafAtCorner(n, c);
    LeavesInside(n, c);
  }

  /** The part's units are in the list between two positions, and the search at its corner gives the first of them. */
  ghost predicate StandsAt(units: seq<Unit>, c: nat, n: Part, first: nat, end: nat) {
    && HasChannel(AreaOf(n), c) && first < end <= |units| && units[first..end] == Leaves(n)
    && LinearSearch(units, c, AreaOf(n).blocks[c].x, AreaOf(n).blocks[c].y) == first + 1
  }

  lemma StretchVisited(units: seq<Unit>, owners: seq<Place>, c: nat, n: Part, before: seq<Unit>, behind: seq<Unit>, end: nat)
    requires Stretch(units, c, n, before, behind) && |owners| == |units| && end == |before| + |Leaves(n)|
    ensures StandsAt(units, c, n, |before|, end)
    ensures VisitsWhileOwned(units, owners, AreaOf(n), |before|, end)
  {
    assert units[|before|] == Leaves(n)[0];
    FoundAt(units, c, AreaOf(n).blocks[c].x, AreaOf(n).blocks[c].y, |before|);
    VisitsOfStretch(before, Leaves(n), behind, owners, AreaOf(n));
  }

  lemma LeavesInside(n: Part, c: nat)
    requires Partitioned(n, c)
    ensures forall u | u in Leaves(n) :: ContainsUnit(AreaOf(n), u)
  {
    forall u | u in Leaves(n) ensures ContainsUnit(AreaOf(n), u) {
      LeavesAreBelow(n, c, u);
    }
  }

  /** Of disjoint units the search finds the one that contains the position. */
  lemma FoundAt(units: seq<Unit>, c: nat, px: int, py: int, k: nat)
    requires UnitsDisjoint(units, c) && k < |units| && ContainsPos(units[k], c, px, py)
    ensures LinearSearch(units, c, px, py) == k + 1
  {
    LinearSearchMeaning(units, c, px, py);
    var n := LinearSearch(units, c, px, py);
    if n - 1 < k {
      NotInBoth(units, k, n, c, px, py);
    }
  }

  lemma VisitsOfStretch(before: seq<Unit>, m: seq<Unit>, behind: seq<Unit>, owners: seq<Place>, a: Unit)
    requires m != [] && |owners| == |before| + |m| + |behind|
    requires forall u | u in m :: ContainsUnit(a, u)
    requires forall u | u in behind :: !ContainsUnit(a, u)
    ensures VisitsWhileOwned(before + m + behind, owners, a, |before|, |before| + |m|)
  {
    var units, n := before + m + behind, |before| + 1;
    var e := EndOf(units, owners, a, n);
    EndOfStretch(before, m, behind, owners, a, n);
    forall k: nat
      ensures Visits(units, owners, a, n, k) ==> owners[k] == owners[n - 1]
    {
      RunUpToEnd(units, owners, a, n, k);
    }
    RunUpToEnd(units, owners, a, n, e);
    assert Visits(units, owners, a, n, |before| + |m| - 1) <==> e == |before| + |m|;
  }

  /** The links end inside the stretch, at a change of owner, or with it. */
  lemma {:induction false} EndOfStretch(before: seq<Unit>, m: seq<Unit>, behind: seq<Unit>, owners: seq<Place>, a: Unit, from: nat)
    requires |before| < from <= |before| + |m| && |owners| == |before| + |m| + |behind|
    requires forall u | u in m :: ContainsUnit(a, u)
    requires forall u | u in behind :: !ContainsUnit(a, u)
    ensures var e := EndOf(before + m + behind, owners, a, from);
      e <= |before| + |m| && (e < |before| + |m| ==> owners[e - 1] != owners[e])
    decreases |before| + |m| - from
  {
    var units := before + m + behind;
    if from < |before| + |m| {
      assert units[from] == m[from - |before|];
      if owners[from - 1] == owners[from] {
        EndOfStretch(before, m, behind, owners, a, from + 1);
      }
    } else if from < |units| {
      assert units[from] == behind[0];
    }
  }
}
