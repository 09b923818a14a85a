/** Nested coding structures: looking units up, adding them, and taking over what a sub-structure holds. */
module CodingStructure {
  import opened UnitGeometry
  import opened UnitIndex
  import opened UnitTraversal
  import opened CoeffStore
  import opened TransformUnits

  /** An empty index over an area. */
  ghost predicate Blank(index: UnitIndex, areas: seq<CompArea>, scales: seq<UnitScale>)
    requires |scales| <= |areas|
    reads index, index.Repr
  {
    index.Valid() && index.units == [] && index.area == areas[..|scales|] && index.scale == scales
  }

  method NewIndex(areas: seq<CompArea>, scales: seq<UnitScale>) returns (index: UnitIndex)
    requires 1 <= |scales| <= 2 && |scales| <= |areas|
    requires forall c | 0 <= c < |scales| :: scales[c].Valid() && areas[c].Aligned(scales[c])
    ensures Blank(index, areas, scales) && fresh(index.Repr)
  {
    index := new UnitIndex(areas[..|scales|], scales);
  }

  /** Three index maps over the same channels of an area, all of them separate objects. */
  ghost predicate PartsShaped(area: seq<CompArea>, cu: UnitIndex, pu: UnitIndex, tu: TransformUnits) {
    && cu.Shaped() && pu.Shaped() && tu.Shaped()
    && 1 <= |area| && tu.store.area == area
    && |cu.area| <= |area| && cu.area == area[..|cu.area|]
    && pu.area == cu.area && tu.index.area == cu.area
    && pu.scale == cu.scale && tu.index.scale == cu.scale
    && cu.Repr !! pu.Repr && cu.Repr !! tu.Repr && pu.Repr !! tu.Repr
  }

  /** Lists, maps and coefficients are in order. */
  ghost predicate PartsValid(area: seq<CompArea>, cu: UnitIndex, pu: UnitIndex, tu: TransformUnits)
    reads cu.Repr, pu.Repr, tu.Repr
  {
    PartsShaped(area, cu, pu, tu) && cu.Valid() && pu.Valid() && tu.Valid()
  }

  /** Empty lists, maps and coefficients for an area. */
  method NewParts(areas: seq<CompArea>, scales: seq<UnitScale>) returns (cu: UnitIndex, pu: UnitIndex, tu: TransformUnits)
    requires 1 <= |scales| <= 2 && |scales| <= |areas|
    requires forall c | 0 <= c < |scales| :: scales[c].Valid() && areas[c].Aligned(scales[c])
    ensures PartsValid(areas, cu, pu, tu)
    ensures cu.units == pu.units == tu.index.units == [] && cu.scale == scales
    ensures fresh(cu.Repr + pu.Repr + tu.Repr)
  {
    cu := NewIndex(areas, scales);
    pu := NewIndex(areas, scales);
    tu := new TransformUnits(areas, scales);
  }

  class CodingStructure {
    const area: seq<CompArea>
    const cuIdx: UnitIndex
    const puIdx: UnitIndex
    const tus: TransformUnits
    const parent: CodingStructure?
    const isTuEnc: bool
    /** The coding unit each prediction and transform unit was given when it was added: `pu->cu`, `tu->cu`. */
    var puOwners: seq<Place>
    var tuOwners: seq<Place>
    /** This structure and its parts, without the parents. */
    ghost const own: set<object>
    ghost const Repr: set<object>

    ghost predicate Shaped() {
      PartsShaped(area, cuIdx, puIdx, tus) && this in own && cuIdx.Repr <= own && puIdx.Repr <= own && tus.Repr <= own
      && this !in cuIdx.Repr && this !in puIdx.Repr && this !in tus.Repr
    }

    /** This structure's own lists, maps and coefficients are in order. */
    ghost predicate OwnValid()
      requires Shaped()
      reads this, cuIdx.Repr, puIdx.Repr, tus.Repr
    {
      cuIdx.Valid() && puIdx.Valid() && tus.Valid() && |puOwners| == |puIdx.units| && |tuOwners| == |tus.index.units|
    }

    ghost predicate Valid()
      reads this, Repr
      decreases Repr
    {
      && own <= Repr && Shaped()
      && OwnValid()
      && (isTuEnc ==> parent != null)
      && (parent != null ==>
            && parent in Repr && parent.Repr <= Repr && own !! parent.Repr
            && parent.Valid() && |parent.cuIdx.idx| == |cuIdx.idx|)
    }

    constructor (areas: seq<CompArea>, cu: UnitIndex, pu: UnitIndex, tu: TransformUnits)
      requires PartsValid(areas, cu, pu, tu) && pu.units == tu.index.units == []
      ensures Valid() && parent == null && !isTuEnc && area == areas
      ensures cuIdx == cu && puIdx == pu && tus == tu && own == {this} + cu.Repr + pu.Repr + tu.Repr
      ensures Repr == own && fresh(own - cu.Repr - pu.Repr - tu.Repr)
      ensures PartsValid(areas, cu, pu, tu) && puOwners == tuOwners == []
    {
      puOwners, tuOwners := [], [];
      area, cuIdx, puIdx, tus := areas, cu, pu, tu;
      parent, isTuEnc := null, false;
      own := {this} + cu.Repr + pu.Repr + tu.Repr;
      Repr := {this} + cu.Repr + pu.Repr + tu.Repr;
    }

    /** A structure inside another answers through it. */
    constructor Inside(areas: seq<CompArea>, cu: UnitIndex, pu: UnitIndex, tu: TransformUnits, p: CodingStructure, tuEnc: bool)
      requires PartsValid(areas, cu, pu, tu) && pu.units == tu.index.units == []
      requires p.Valid() && |p.cuIdx.idx| == |cu.idx| && (cu.Repr + pu.Repr + tu.Repr) !! p.Repr
      ensures Valid() && parent == p && isTuEnc == tuEnc && area == areas
      ensures cuIdx == cu && puIdx == pu && tus == tu && own == {this} + cu.Repr + pu.Repr + tu.Repr
      ensures Repr == own + p.Repr && fresh(own - cu.Repr - pu.Repr - tu.Repr)
      ensures puOwners == tuOwners == []
    {
      puOwners, tuOwners := [], [];
      area, cuIdx, puIdx, tus := areas, cu, pu, tu;
      parent, isTuEnc := p, tuEnc;
      own := {this} + cu.Repr + pu.Repr + tu.Repr;
      Repr := {this} + cu.Repr + pu.Repr + tu.Repr + p.Repr;
    }

    /** The unit with entry n of this structure's own list. */
    static function Own(n: nat): Place {
      if n != 0 then At(0, n) else Nowhere
    }

    /** The structure some levels up. */
    function Above(level: nat): (cs: CodingStructure?)
      requires Valid()
      reads this, Repr
      ensures cs != null ==> cs in Repr && cs.Repr <= Repr && cs.Valid()
      decreases Repr
    {
      if level == 0 then this else if parent == null then null else parent.Above(level - 1)
    }

    /** `getCU`: from the map, or from the parent for positions outside. */
    function GetCU(c: nat, px: int, py: int): Place
      requires Valid() && c < |cuIdx.idx|
      reads this, Repr
      decreases Repr
    {
      if !area[c].Contains(px, py) then
        if parent != null then Further(parent.GetCU(c, px, py)) else Nowhere
      else Own(cuIdx.Entry(c, px, py))
    }

    function GetPU(c: nat, px: int, py: int): Place
      requires Valid() && c < |cuIdx.idx|
      reads this, Repr
      decreases Repr
    {
      if !area[c].Contains(px, py) then
        if parent != null then Further(parent.GetPU(c, px, py)) else Nowhere
      else Own(puIdx.Entry(c, px, py))
    }

    /** `getTU`: a structure that only encodes transform units also asks its parent where it has none itself. */
    function GetTU(c: nat, px: int, py: int): Place
      requires Valid() && c < |cuIdx.idx|
      reads this, Repr
      decreases Repr
    {
      if !area[c].Contains(px, py) then
        if parent != null then Further(parent.GetTU(c, px, py)) else Nowhere
      else
        var n := tus.index.Entry(c, px, py);
        if n == 0 && isTuEnc then Further(parent.GetTU(c, px, py)) else Own(n)
    }

    /**
     * The coding unit a new prediction or transform unit belongs to: the one at its corner, or the first of all in a
     * structure that only encodes transform units.
     */
    function OwnerOf(u: Unit, ch: nat): Place
      requires Valid()
      reads this, Repr
    {
      if isTuEnc then At(0, 1)
      else if ch < |cuIdx.idx| && ch < |u.blocks| then GetCU(ch, u.blocks[ch].x, u.blocks[ch].y)
      else Nowhere
    }

    function Owners(us: seq<Unit>, ch: nat): (owners: seq<Place>)
      requires Valid()
      reads this, Repr
      ensures |owners| == |us| && forall k | 0 <= k < |us| :: owners[k] == OwnerOf(us[k], ch)
    {
      seq(|us|, k requires 0 <= k < |us| && Valid() reads this, Repr => OwnerOf(us[k], ch))
    }

    twostate lemma ReprStaysValid()
      requires old(Valid()) && unchanged(this) && unchanged(Repr)
      ensures Valid()
    {
    }

    /** While only part of a structure's own state changes, and that part stays in order, all of it does. */
    twostate lemma StaysValid()
      requires old(Valid()) && OwnValid() && unchanged(Repr - own)
      ensures Valid()
    {
      if parent != null {
        assert unchanged(parent.Repr);
      }
    }

    twostate lemma CUsChanged()
      requires old(Valid()) && unchanged(this) && cuIdx.Valid() && unchanged(Repr - {this} - cuIdx.Repr)
      ensures Valid()
    {
      puIdx.StaysValid();
      tus.StaysValid();
      StaysValid();
    }

    twostate lemma PUsChanged()
      requires tuOwners == old(tuOwners)
      requires old(Valid()) && puIdx.Valid() && |puOwners| == |puIdx.units| && unchanged(Repr - {this} - puIdx.Repr)
      ensures Valid()
    {
      cuIdx.StaysValid();
      tus.StaysValid();
      StaysValid();
    }

    twostate lemma TUsChanged()
      requires puOwners == old(puOwners)
      requires old(Valid()) && tus.Valid() && |tuOwners| == |tus.index.units| && unchanged(Repr - {this} - tus.Repr)
      ensures Valid()
    {
      cuIdx.StaysValid();
      puIdx.StaysValid();
      StaysValid();
    }

    /** Looking a coding unit up depends on coding units alone. */
    twostate lemma CUsStay()
      requires old(Valid()) && Valid() && unchanged(cuIdx.Repr + (Repr - own))
      ensures forall c: nat, px: int, py: int | c < |cuIdx.idx| :: GetCU(c, px, py) == old(GetCU(c, px, py))
    {
      if parent != null {
        assert unchanged(parent.Repr);
      }
    }

    /** Owners do too. */
    twostate lemma OwnersStay()
      requires old(Valid()) && Valid() && unchanged(cuIdx.Repr + (Repr - own))
      ensures forall us: seq<Unit>, ch: nat :: Owners(us, ch) == old(Owners(us, ch))
    {
      CUsStay();
    }

    /** No other structure's state is touched: what a parent answers stays the same. */
    method AddCU(u: Unit)
      requires Valid() && cuIdx.Fits(u)
      modifies cuIdx.Repr
      ensures Valid() && cuIdx.units == old(cuIdx.units) + [u]
    {
      cuIdx.Add(u);
      CUsChanged();
    }

    method AddPU(u: Unit, ch: nat)
      requires Valid() && puIdx.Fits(u)
      modifies this`puOwners, puIdx.Repr
      ensures Valid() && puIdx.units == old(puIdx.units) + [u]
      ensures puOwners == old(puOwners) + [old(OwnerOf(u, ch))]
    {
      puOwners := puOwners + [OwnerOf(u, ch)];
      puIdx.Add(u);
      PUsChanged();
    }

    method AddTU(u: Unit, ch: nat)
      requires Valid() && tus.index.Fits(u)
      requires forall i | 0 <= i < |area| :: Packable(tus.index.units + [u], i, area[i])
      modifies this`tuOwners, tus.Repr
      ensures Valid() && tus.index.units == old(tus.index.units) + [u]
      ensures tuOwners == old(tuOwners) + [old(OwnerOf(u, ch))]
    {
      tuOwners := tuOwners + [OwnerOf(u, ch)];
      tus.Add(u);
      TUsChanged();
    }

    method ClearCUs()
      requires Valid()
      modifies cuIdx.Repr
      ensures Valid() && cuIdx.units == []
    {
      cuIdx.Clear();
      CUsChanged();
    }

    method ClearPUs()
      requires Valid()
      modifies this`puOwners, puIdx.Repr
      ensures Valid() && puIdx.units == [] && puOwners == []
    {
      puOwners := [];
      puIdx.Clear();
      PUsChanged();
    }

    /** Also makes all coefficients available again. */
    method ClearTUs()
      requires Valid()
      modifies this`tuOwners, tus.Repr
      ensures Valid() && tus.index.units == [] && tuOwners == []
    {
      tuOwners := [];
      tus.Clear();
      TUsChanged();
    }

    // ---- What lookups answer ----

    /** The same answers by searching the lists, structure by structure, for the unit that contains the position. */
    ghost function FindCU(c: nat, px: int, py: int): Place
      requires Valid() && c < |cuIdx.idx|
      reads this, Repr
      decreases Repr
    {
      if !area[c].Contains(px, py) then
        if parent != null then Further(parent.FindCU(c, px, py)) else Nowhere
      else Own(LinearSearch(cuIdx.units, c, px, py))
    }

    ghost function FindPU(c: nat, px: int, py: int): Place
      requires Valid() && c < |cuIdx.idx|
      reads this, Repr
      decreases Repr
    {
      if !area[c].Contains(px, py) then
        if parent != null then Further(parent.FindPU(c, px, py)) else Nowhere
      else Own(LinearSearch(puIdx.units, c, px, py))
    }

    ghost function FindTU(c: nat, px: int, py: int): Place
      requires Valid() && c < |cuIdx.idx|
      reads this, Repr
      decreases Repr
    {
      if !area[c].Contains(px, py) then
        if parent != null then Further(parent.FindTU(c, px, py)) else Nowhere
      else
        var n := LinearSearch(tus.index.units, c, px, py);
        if n == 0 && isTuEnc then Further(parent.FindTU(c, px, py)) else Own(n)
    }

    /** In each of this structure's lists units are aligned and share no position. */
    ghost predicate ListsOrderly()
      requires Shaped()
      reads cuIdx, puIdx, tus.index
    {
      forall c | 0 <= c < |cuIdx.idx| ::
        && AllAligned(cuIdx.units, c, cuIdx.scale[c]) && UnitsDisjoint(cuIdx.units, c)
        && AllAligned(puIdx.units, c, cuIdx.scale[c]) && UnitsDisjoint(puIdx.units, c)
        && AllAligned(tus.index.units, c, cuIdx.scale[c]) && UnitsDisjoint(tus.index.units, c)
    }

    /** The same here and in all structures around it. */
    ghost predicate Orderly()
      requires Valid()
      reads this, Repr
      decreases Repr
    {
      ListsOrderly() && (parent != null ==> parent.Orderly())
    }

    /** Every lookup through the maps gives what searching the lists gives, at every position and through all parents. */
    lemma {:induction false} LookupsAreSearches(c: nat, px: int, py: int)
      requires Valid() && Orderly() && c < |cuIdx.idx|
      ensures GetCU(c, px, py) == FindCU(c, px, py)
      ensures GetPU(c, px, py) == FindPU(c, px, py)
      ensures GetTU(c, px, py) == FindTU(c, px, py)
      decreases Repr
    {
      if parent != null {
        parent.LookupsAreSearches(c, px, py);
      }
      if area[c].Contains(px, py) {
        cuIdx.EntryIsLinearSearch(c, px, py);
        puIdx.EntryIsLinearSearch(c, px, py);
        tus.index.EntryIsLinearSearch(c, px, py);
      }
    }

    /** Two units whose corners are in this structure's area have the same owner exactly when the same coding units contain both corners. */
    lemma OwnersMeaning(u: Unit, v: Unit, ch: nat)
      requires Valid() && Orderly() && !isTuEnc && ch < |cuIdx.idx| && ch < |u.blocks| && ch < |v.blocks|
      requires area[ch].Contains(u.blocks[ch].x, u.blocks[ch].y) && area[ch].Contains(v.blocks[ch].x, v.blocks[ch].y)
      ensures OwnerOf(u, ch) == OwnerOf(v, ch) <==>
        forall k | 0 <= k < |cuIdx.units| ::
          ContainsPos(cuIdx.units[k], ch, u.blocks[ch].x, u.blocks[ch].y) <==> ContainsPos(cuIdx.units[k], ch, v.blocks[ch].x, v.blocks[ch].y)
    {
      cuIdx.EntryIsLinearSearch(ch, u.blocks[ch].x, u.blocks[ch].y);
      cuIdx.EntryIsLinearSearch(ch, v.blocks[ch].x, v.blocks[ch].y);
      SameFind(cuIdx.units, ch, u.blocks[ch].x, u.blocks[ch].y, v.blocks[ch].x, v.blocks[ch].y);
    }

    /** The owner is a coding unit that contains the corner, if there is one; where only transform units are encoded, the first. */
    lemma OwnerContains(u: Unit, ch: nat)
      requires Valid() && Orderly()
      ensures isTuEnc ==> OwnerOf(u, ch) == At(0, 1)
      ensures !isTuEnc && ch < |cuIdx.idx| && ch < |u.blocks| && area[ch].Contains(u.blocks[ch].x, u.blocks[ch].y) ==>
        match OwnerOf(u, ch)
        case At(level, n) => level == 0 && 0 < n <= |cuIdx.units| && ContainsPos(cuIdx.units[n - 1], ch, u.blocks[ch].x, u.blocks[ch].y)
        case Nowhere => forall k | 0 <= k < |cuIdx.units| :: !ContainsPos(cuIdx.units[k], ch, u.blocks[ch].x, u.blocks[ch].y)
    {
      if ch < |cuIdx.idx| && ch < |u.blocks| && area[ch].Contains(u.blocks[ch].x, u.blocks[ch].y) {
        cuIdx.EntryIsLinearSearch(ch, u.blocks[ch].x, u.blocks[ch].y);
        LinearSearchMeaning(cuIdx.units, ch, u.blocks[ch].x, u.blocks[ch].y);
      }
    }

    /** The position is in this structure's area. */
    ghost predicate Covers(c: nat, px: int, py: int)
      requires Valid()
      reads this, Repr
    {
      c < |cuIdx.idx| && area[c].Contains(px, py)
    }

    /** The position is outside this structure's area, and outside those of the structures around it below a level. */
    ghost predicate OutsideBelow(level: nat, c: nat, px: int, py: int)
      requires Valid()
      reads this, Repr
      decreases level
    {
      level == 0 || (!Covers(c, px, py) && parent != null && parent.OutsideBelow(level - 1, c, px, py))
    }

    /** Here no transform unit can be found: the position is outside, or only these are encoded and none contains it. */
    ghost predicate Passes(c: nat, px: int, py: int)
      requires Valid()
      reads this, Repr
    {
      !Covers(c, px, py) || (isTuEnc && forall k | 0 <= k < |tus.index.units| :: !ContainsPos(tus.index.units[k], c, px, py))
    }

    ghost predicate PassesBelow(level: nat, c: nat, px: int, py: int)
      requires Valid()
      reads this, Repr
      decreases level
    {
      level == 0 || (Passes(c, px, py) && parent != null && parent.PassesBelow(level - 1, c, px, py))
    }

    /** What a lookup in one list answers: the level and a unit of the list that contains the position, or that there is none. */
    static ghost predicate Answers(p: Place, level: nat, units: seq<Unit>, c: nat, px: int, py: int) {
      match p
      case At(l, n) => l == level && 0 < n <= |units| && ContainsPos(units[n - 1], c, px, py)
      case Nowhere => forall k | 0 <= k < |units| :: !ContainsPos(units[k], c, px, py)
    }

    static lemma AnswersFurther(p: Place, level: nat, units: seq<Unit>, c: nat, px: int, py: int, next: nat)
      requires Answers(p, level, units, c, px, py) && next == level + 1
      ensures Answers(Further(p), next, units, c, px, py)
    {
    }

    static lemma SearchAnswers(n: nat, units: seq<Unit>, c: nat, px: int, py: int)
      requires n == LinearSearch(units, c, px, py)
      ensures Answers(Own(n), 0, units, c, px, py)
    {
      LinearSearchMeaning(units, c, px, py);
    }

    lemma HereAnswers(c: nat, px: int, py: int)
      requires Valid() && ListsOrderly() && c < |cuIdx.idx| && Covers(c, px, py)
      ensures Answers(GetCU(c, px, py), 0, cuIdx.units, c, px, py) && Answers(GetPU(c, px, py), 0, puIdx.units, c, px, py)
    {
      cuIdx.EntryIsLinearSearch(c, px, py);
      puIdx.EntryIsLinearSearch(c, px, py);
      SearchAnswers(cuIdx.Entry(c, px, py), cuIdx.units, c, px, py);
      SearchAnswers(puIdx.Entry(c, px, py), puIdx.units, c, px, py);
    }

    lemma ParentAnswers(level: nat, next: nat, cus: seq<Unit>, pus: seq<Unit>, c: nat, px: int, py: int)
      requires Valid() && c < |cuIdx.idx| && !Covers(c, px, py) && parent != null && next == level + 1
      requires Answers(parent.GetCU(c, px, py), level, cus, c, px, py) && Answers(parent.GetPU(c, px, py), level, pus, c, px, py)
      ensures Answers(GetCU(c, px, py), next, cus, c, px, py) && Answers(GetPU(c, px, py), next, pus, c, px, py)
    {
      AnswersFurther(parent.GetCU(c, px, py), level, cus, c, px, py, next);
      AnswersFurther(parent.GetPU(c, px, py), level, pus, c, px, py, next);
    }

    lemma OneFurther(level: nat, next: nat, c: nat, px: int, py: int)
      requires Valid() && Orderly() && c < |cuIdx.idx| && OutsideBelow(next, c, px, py) && next > 0 && level == next - 1
      ensures !Covers(c, px, py) && parent != null && parent.Valid() && parent.Orderly() && c < |parent.cuIdx.idx|
      ensures parent.OutsideBelow(level, c, px, py) && Above(next) == parent.Above(level)
    {
    }

    /** Coding and prediction units are found in the innermost structure whose area contains the position, and in no other. */
    lemma {:induction false} InnermostAnswers(level: nat, home: CodingStructure, c: nat, px: int, py: int)
      requires Valid() && Orderly() && c < |cuIdx.idx| && OutsideBelow(level, c, px, py)
      requires Above(level) == home && home.Covers(c, px, py)
      ensures Answers(GetCU(c, px, py), level, home.cuIdx.units, c, px, py)
      ensures Answers(GetPU(c, px, py), level, home.puIdx.units, c, px, py)
      decreases level
    {
      if level == 0 {
        HereAnswers(c, px, py);
      } else {
        var below := level - 1;
        OneFurther(below, level, c, px, py);
        parent.InnermostAnswers(below, home, c, px, py);
        ParentAnswers(below, level, home.cuIdx.units, home.puIdx.units, c, px, py);
      }
    }

    lemma HereAnswersTU(c: nat, px: int, py: int)
      requires Valid() && ListsOrderly() && c < |cuIdx.idx| && !Passes(c, px, py)
      ensures Answers(GetTU(c, px, py), 0, tus.index.units, c, px, py)
    {
      tus.index.EntryIsLinearSearch(c, px, py);
      SearchAnswers(tus.index.Entry(c, px, py), tus.index.units, c, px, py);
    }

    lemma ParentAnswersTU(level: nat, next: nat, units: seq<Unit>, c: nat, px: int, py: int)
      requires Valid() && ListsOrderly() && c < |cuIdx.idx| && Passes(c, px, py) && parent != null && next == level + 1
      requires Answers(parent.GetTU(c, px, py), level, units, c, px, py)
      ensures Answers(GetTU(c, px, py), next, units, c, px, py)
    {
      if Covers(c, px, py) {
        tus.index.EntryIsLinearSearch(c, px, py);
        LinearSearchMeaning(tus.index.units, c, px, py);
      }
      AnswersFurther(parent.GetTU(c, px, py), level, units, c, px, py, next);
    }

    lemma OneFurtherTU(level: nat, next: nat, c: nat, px: int, py: int)
      requires Valid() && Orderly() && c < |cuIdx.idx| && PassesBelow(next, c, px, py) && next > 0 && level == next - 1
      ensures Passes(c, px, py) && parent != null && parent.Valid() && parent.Orderly() && c < |parent.cuIdx.idx|
      ensures parent.PassesBelow(level, c, px, py) && Above(next) == parent.Above(level)
    {
    }

    /** Transform units are also looked for further out where only transform units are encoded and none is found. */
    lemma {:induction false} FirstToHaveAnswers(level: nat, home: CodingStructure, c: nat, px: int, py: int)
      requires Valid() && Orderly() && c < |cuIdx.idx| && PassesBelow(level, c, px, py)
      requires Above(level) == home && !home.Passes(c, px, py)
      ensures Answers(GetTU(c, px, py), level, home.tus.index.units, c, px, py)
      decreases level
    {
      if level == 0 {
        HereAnswersTU(c, px, py);
      } else {
        var below := level - 1;
        OneFurtherTU(below, level, c, px, py);
        parent.FirstToHaveAnswers(below, home, c, px, py);
        ParentAnswersTU(below, level, home.tus.index.units, c, px, py);
      }
    }

    /**
     * Inside the area, once a list `us` has been taken over behind `own`: each kind of unit is found by searching the
     * own list and then the one taken over.
     */
    lemma AnswersAfterTakeOver(cus: seq<Unit>, moreCUs: seq<Unit>, pus: seq<Unit>, morePUs: seq<Unit>,
                               ts: seq<Unit>, moreTUs: seq<Unit>, c: nat, px: int, py: int)
      requires Valid() && Orderly() && c < |cuIdx.idx| && area[c].Contains(px, py)
      requires cuIdx.units == cus + moreCUs && puIdx.units == pus + morePUs && tus.index.units == ts + moreTUs
      ensures GetCU(c, px, py) == Own(EitherSearch(cus, moreCUs, c, px, py))
      ensures GetPU(c, px, py) == Own(EitherSearch(pus, morePUs, c, px, py))
      ensures var n := EitherSearch(ts, moreTUs, c, px, py);
        GetTU(c, px, py) == if n == 0 && isTuEnc then Further(parent.FindTU(c, px, py)) else Own(n)
    {
      LookupsAreSearches(c, px, py);
      LinearSearchOfConcat(cus, moreCUs, c, px, py);
      LinearSearchOfConcat(pus, morePUs, c, px, py);
      LinearSearchOfConcat(ts, moreTUs, c, px, py);
    }

    /** Whatever the lists hold, the units taken over answer wherever they cover the position, and the own ones elsewhere. */
    lemma LatestAfterTakeOver(cus: seq<Unit>, moreCUs: seq<Unit>, pus: seq<Unit>, morePUs: seq<Unit>,
                              ts: seq<Unit>, moreTUs: seq<Unit>, c: nat, px: int, py: int)
      requires Valid() && c < |cuIdx.idx| && area[c].Contains(px, py)
      requires cuIdx.units == cus + moreCUs && puIdx.units == pus + morePUs && tus.index.units == ts + moreTUs
      ensures GetCU(c, px, py) == Own(NewestFirst(cus, moreCUs, c, cuIdx.scale[c], px, py))
      ensures GetPU(c, px, py) == Own(NewestFirst(pus, morePUs, c, cuIdx.scale[c], px, py))
      ensures var n := NewestFirst(ts, moreTUs, c, cuIdx.scale[c], px, py);
        GetTU(c, px, py) == if n == 0 && isTuEnc then Further(parent.GetTU(c, px, py)) else Own(n)
    {
      cuIdx.EntryAfterTakeOver(cus, moreCUs, c, px, py);
      puIdx.EntryAfterTakeOver(pus, morePUs, c, px, py);
      tus.index.EntryAfterTakeOver(ts, moreTUs, c, px, py);
    }

    // ---- Traversals ----

    lemma AboveParent(level: nat)
      requires Valid() && parent != null
      ensures Above(level + 1) == parent.Above(level)
    {
    }

    /** Position `last` is where the links from a coding unit leave the area. */
    ghost predicate CUsEnd(begin: Place, last: nat, a: Unit)
      requires Valid()
      reads this, Repr
    {
      begin.At? ==>
        var home := Above(begin.level);
        && home != null && 0 < begin.entry <= |home.cuIdx.units|
        && last == EndOf(home.cuIdx.units, NoOwners(|home.cuIdx.units|), a, begin.entry)
    }

    lemma FurtherCUs(begin: Place, last: nat, a: Unit)
      requires Valid() && parent != null && parent.CUsEnd(begin, last, a)
      ensures CUsEnd(Further(begin), last, a)
    {
      if begin.At? {
        AboveParent(begin.level);
      }
    }

    /** Position `last` is where the links from a prediction unit leave the area. */
    ghost predicate PUsEnd(begin: Place, last: nat, a: Unit)
      requires Valid()
      reads this, Repr
    {
      begin.At? ==>
        var home := Above(begin.level);
        && home != null && 0 < begin.entry <= |home.puIdx.units|
        && last == EndOf(home.puIdx.units, home.puOwners, a, begin.entry)
    }

    lemma FurtherPUs(begin: Place, last: nat, a: Unit)
      requires Valid() && parent != null && parent.PUsEnd(begin, last, a)
      ensures PUsEnd(Further(begin), last, a)
    {
      if begin.At? {
        AboveParent(begin.level);
      }
    }

    /** Position `last` is where the links from a transform unit leave the area. */
    ghost predicate TUsEnd(begin: Place, last: nat, a: Unit)
      requires Valid()
      reads this, Repr
    {
      begin.At? ==>
        var home := Above(begin.level);
        && home != null && 0 < begin.entry <= |home.tus.index.units|
        && last == EndOf(home.tus.index.units, home.tuOwners, a, begin.entry)
    }

    lemma FurtherTUs(begin: Place, last: nat, a: Unit)
      requires Valid() && parent != null && parent.TUsEnd(begin, last, a)
      ensures TUsEnd(Further(begin), last, a)
    {
      if begin.At? {
        AboveParent(begin.level);
      }
    }

    /** `traverseCUs`: from the coding unit at the area's corner, here or further out, along the links of its list. */
    method TraverseCUs(a: Unit, c: nat) returns (begin: Place, last: nat)
      requires Valid() && c < |cuIdx.idx| && c < |a.blocks|
      ensures begin == GetCU(c, a.blocks[c].x, a.blocks[c].y) && CUsEnd(begin, last, a)
      decreases Repr
    {
      begin, last := Nowhere, 0;
      var x, y := a.blocks[c].x, a.blocks[c].y;
      if area[c].Contains(x, y) {
        var n := cuIdx.Entry(c, x, y);
        cuIdx.EntryIsLatest(c, x, y);
        if n != 0 {
          begin := At(0, n);
          last := Follow(cuIdx.units, NoOwners(|cuIdx.units|), a, n);
        }
      } else if parent != null {
        begin, last := parent.TraverseCUs(a, c);
        FurtherCUs(begin, last, a);
        begin := Further(begin);
      }
    }

    /** `traversePUs`: the links also end where the coding unit changes. */
    method TraversePUs(a: Unit, c: nat) returns (begin: Place, last: nat)
      requires Valid() && c < |cuIdx.idx| && c < |a.blocks|
      ensures begin == GetPU(c, a.blocks[c].x, a.blocks[c].y) && PUsEnd(begin, last, a)
      decreases Repr
    {
      begin, last := Nowhere, 0;
      var x, y := a.blocks[c].x, a.blocks[c].y;
      if area[c].Contains(x, y) {
        var n := puIdx.Entry(c, x, y);
        puIdx.EntryIsLatest(c, x, y);
        if n != 0 {
          begin := At(0, n);
          last := Follow(puIdx.units, puOwners, a, n);
        }
      } else if parent != null {
        begin, last := parent.TraversePUs(a, c);
        FurtherPUs(begin, last, a);
        begin := Further(begin);
      }
    }

    /** `traverseTUs`: also with the parent's units where this structure only encodes transform units and has none. */
    method TraverseTUs(a: Unit, c: nat) returns (begin: Place, last: nat)
      requires Valid() && c < |cuIdx.idx| && c < |a.blocks|
      ensures begin == GetTU(c, a.blocks[c].x, a.blocks[c].y) && TUsEnd(begin, last, a)
      decreases Repr, 1
    {
      begin, last := Nowhere, 0;
      var x, y := a.blocks[c].x, a.blocks[c].y;
      var n := 0;
      if area[c].Contains(x, y) {
        n := tus.index.Entry(c, x, y);
        tus.index.EntryIsLatest(c, x, y);
      }
      if n != 0 {
        begin := At(0, n);
        last := Follow(tus.index.units, tuOwners, a, n);
      } else if parent != null && (isTuEnc || !area[c].Contains(x, y)) {
        begin, last := TraverseOuterTUs(a, c);
      }
    }

    method TraverseOuterTUs(a: Unit, c: nat) returns (begin: Place, last: nat)
      requires Valid() && c < |cuIdx.idx| && c < |a.blocks| && parent != null
      ensures begin == Further(parent.GetTU(c, a.blocks[c].x, a.blocks[c].y)) && TUsEnd(begin, last, a)
      decreases Repr, 0
    {
      begin, last := parent.TraverseTUs(a, c);
      FurtherTUs(begin, last, a);
      begin := Further(begin);
    }

    // ---- Sub-structures ----

    /** What a sub-structure holds can be taken over: its units go where this one has none. */
    ghost predicate CanUse(sub: CodingStructure)
      requires Shaped()
      reads cuIdx, puIdx, tus, tus.index, sub, sub.cuIdx, sub.puIdx, sub.tus.index
    {
      && sub.cuIdx.scale == cuIdx.scale
      && (!sub.isTuEnc ==> cuIdx.FreeFor(sub.cuIdx.units) && puIdx.FreeFor(sub.puIdx.units))
      && tus.CanTake(sub.tus)
    }

    method AddCUs(us: seq<Unit>)
      requires Valid() && cuIdx.Accepts(us)
      modifies cuIdx.Repr
      ensures Valid() && cuIdx.units == old(cuIdx.units) + us
    {
      cuIdx.AddAll(us);
      CUsChanged();
    }

    method AddPUs(us: seq<Unit>, ch: nat)
      requires Valid() && puIdx.Accepts(us)
      modifies this`puOwners, puIdx.Repr
      ensures Valid() && puIdx.units == old(puIdx.units) + us
      ensures puOwners == old(puOwners) + Owners(us, ch)
    {
      var owners := Owners(us, ch);
      AddOwnedPUs(us, owners);
      OwnersStay();
    }

    method AddOwnedPUs(us: seq<Unit>, owners: seq<Place>)
      requires Valid() && puIdx.Accepts(us)
      requires |owners| == |us|
      modifies this`puOwners, puIdx.Repr
      ensures Valid() && puIdx.units == old(puIdx.units) + us && puOwners == old(puOwners) + owners
    {
      puOwners := puOwners + owners;
      puIdx.AddAll(us);
      PUsChanged();
    }

    /** The owners of other units are not touched. */
    method AddTUs(other: TransformUnits, ch: nat, ghost us: seq<Unit>)
      requires Valid() && other.Valid() && tus.Repr !! other.Repr && this !in other.Repr && tus.CanTake(other)
      modifies this`tuOwners, tus.Repr
      ensures Valid() && tus.index.units == old(tus.index.units) + old(other.index.units)
      ensures tuOwners == old(tuOwners) + Owners(old(other.index.units), ch)
      ensures cuIdx.units == old(cuIdx.units) && puIdx.units == old(puIdx.units)
      ensures Owners(us, ch) == old(Owners(us, ch))
      ensures forall i | 0 <= i < |tus.store.coeffs| :: i < |other.store.coeffs| && tus.Coeffs(i) == old(tus.Coeffs(i)) + old(other.Coeffs(i))
    {
      var owners := Owners(other.index.units, ch);
      AddOwnedTUs(other, owners);
      OwnersStay();
    }

    method AddOwnedTUs(other: TransformUnits, owners: seq<Place>)
      requires Valid() && other.Valid() && tus.Repr !! other.Repr && this !in other.Repr && tus.CanTake(other)
      requires |owners| == |other.index.units|
      modifies this`tuOwners, tus.Repr
      ensures Valid() && tus.index.units == old(tus.index.units) + old(other.index.units) && tuOwners == old(tuOwners) + owners
      ensures forall i | 0 <= i < |tus.store.coeffs| :: i < |other.store.coeffs| && tus.Coeffs(i) == old(tus.Coeffs(i)) + old(other.Coeffs(i))
    {
      tus.AddAll(other);
      tuOwners := tuOwners + owners;
      TUsChanged();
    }

    method AddPredictions(cus: seq<Unit>, pus: seq<Unit>, ch: nat)
      requires Valid() && cuIdx.Accepts(cus) && puIdx.Accepts(pus)
      modifies this`puOwners, cuIdx.Repr, puIdx.Repr
      ensures Valid() && cuIdx.units == old(cuIdx.units) + cus && puIdx.units == old(puIdx.units) + pus
      ensures puOwners == old(puOwners) + Owners(pus, ch)
    {
      AddCUs(cus);
      AddPUs(pus, ch);
    }

    lemma ApartFromParent()
      requires Valid() && parent != null
      ensures parent !in own && parent.cuIdx !in own && parent.puIdx !in own
    {
    }

    /** In a structure that only encodes transform units the first coding unit owns everything. */
    method AddOwnedByFirst(cus: seq<Unit>, pus: seq<Unit>, ch: nat)
      requires Valid() && isTuEnc && puIdx.units == [] && cuIdx.Accepts(cus) && puIdx.Accepts(pus)
      modifies this`puOwners, cuIdx.Repr, puIdx.Repr
      ensures Valid() && cuIdx.units == old(cuIdx.units) + cus && puIdx.units == pus
      ensures forall k | 0 <= k < |puOwners| :: puOwners[k] == At(0, 1)
    {
      AddPredictions(cus, pus, ch);
    }

    lemma AcceptsParents()
      requires Valid() && parent != null && cuIdx.units == puIdx.units == []
      requires area == parent.area && cuIdx.scale == parent.cuIdx.scale
      ensures cuIdx.Accepts(parent.cuIdx.units) && puIdx.Accepts(parent.puIdx.units)
    {
      cuIdx.AcceptsSame(parent.cuIdx);
      puIdx.AcceptsSame(parent.puIdx);
    }

    /** Gives an empty structure analogues of the coding and prediction units of the one around it, over the same area. */
    method StartAsParent(ch: nat)
      requires Valid() && parent != null && isTuEnc && cuIdx.units == puIdx.units == []
      requires area == parent.area && cuIdx.scale == parent.cuIdx.scale
      modifies this`puOwners, cuIdx.Repr, puIdx.Repr
      ensures Valid() && cuIdx.units == parent.cuIdx.units && puIdx.units == parent.puIdx.units
      ensures forall k | 0 <= k < |puOwners| :: puOwners[k] == At(0, 1)
    {
      ApartFromParent();
      AcceptsParents();
      AddOwnedByFirst(parent.cuIdx.units, parent.puIdx.units, ch);
    }

    /** What is taken over of a sub-structure's coding and prediction units. */
    function TakenCUs(sub: CodingStructure): seq<Unit>
      reads sub, sub.cuIdx
    {
      if sub.isTuEnc then [] else sub.cuIdx.units
    }

    function TakenPUs(sub: CodingStructure): seq<Unit>
      reads sub, sub.puIdx
    {
      if sub.isTuEnc then [] else sub.puIdx.units
    }

    /** What is taken over shares no position with what is there. */
    ghost predicate ApartFrom(sub: CodingStructure)
      requires Shaped()
      reads cuIdx, puIdx, tus.index, sub, sub.cuIdx, sub.puIdx, sub.tus.index
    {
      forall c | 0 <= c < |cuIdx.idx| ::
        ListsApart(cuIdx.units, TakenCUs(sub), c) && ListsApart(puIdx.units, TakenPUs(sub), c)
        && ListsApart(tus.index.units, sub.tus.index.units, c)
    }

    /**
     * Takes over a sub-structure's units, each analogue with its own coefficients: coding and prediction units unless
     * the sub-structure was made to encode transform units only, and transform units always. Lookups go on being
     * searches if nothing taken over shares a position with what is there.
     */
    method UseSubStructure(sub: CodingStructure, ch: nat)
      requires Valid() && sub.Valid() && own !! sub.own && CanUse(sub)
      modifies this`puOwners, this`tuOwners, cuIdx.Repr, puIdx.Repr, tus.Repr
      ensures Valid()
      ensures cuIdx.units == old(cuIdx.units) + old(if sub.isTuEnc then [] else sub.cuIdx.units)
      ensures puIdx.units == old(puIdx.units) + old(if sub.isTuEnc then [] else sub.puIdx.units)
      ensures tus.index.units == old(tus.index.units) + old(sub.tus.index.units)
      ensures puOwners == old(puOwners) + Owners(old(if sub.isTuEnc then [] else sub.puIdx.units), ch)
      ensures tuOwners == old(tuOwners) + Owners(old(sub.tus.index.units), ch)
      ensures forall i | 0 <= i < |tus.store.coeffs| :: i < |sub.tus.store.coeffs| && tus.Coeffs(i) == old(tus.Coeffs(i)) + old(sub.tus.Coeffs(i))
      ensures old(Orderly() && sub.ListsOrderly() && ApartFrom(sub)) ==> Orderly()
    {
      TakenIsAccepted(sub);
      UseUnits(TakenCUs(sub), TakenPUs(sub), sub.tus, ch);
      OrderlyAfter(sub);
    }

    lemma TakenIsAccepted(sub: CodingStructure)
      requires Valid() && sub.Valid() && own !! sub.own && CanUse(sub)
      ensures cuIdx.Accepts(TakenCUs(sub)) && puIdx.Accepts(TakenPUs(sub))
      ensures sub.tus.Valid() && own !! sub.tus.Repr && tus.CanTake(sub.tus)
    {
    }

    method UseUnits(cus: seq<Unit>, pus: seq<Unit>, other: TransformUnits, ch: nat)
      requires Valid() && cuIdx.Accepts(cus) && puIdx.Accepts(pus)
      requires other.Valid() && own !! other.Repr && tus.CanTake(other)
      modifies this`puOwners, this`tuOwners, cuIdx.Repr, puIdx.Repr, tus.Repr
      ensures Valid() && cuIdx.units == old(cuIdx.units) + cus && puIdx.units == old(puIdx.units) + pus
      ensures tus.index.units == old(tus.index.units) + old(other.index.units)
      ensures puOwners == old(puOwners) + Owners(pus, ch)
      ensures tuOwners == old(tuOwners) + Owners(old(other.index.units), ch)
      ensures forall i | 0 <= i < |tus.store.coeffs| :: i < |other.store.coeffs| && tus.Coeffs(i) == old(tus.Coeffs(i)) + old(other.Coeffs(i))
    {
      AddPredictions(cus, pus, ch);
      tus.CoeffsStay();
      other.CoeffsStay();
      AddTUs(other, ch, pus);
    }

    twostate lemma OrderlyAfter(sub: CodingStructure)
      requires old(Valid()) && Valid() && sub.Shaped() && unchanged(Repr - own) && sub.cuIdx.scale == cuIdx.scale
      requires cuIdx.units == old(cuIdx.units) + old(TakenCUs(sub)) && puIdx.units == old(puIdx.units) + old(TakenPUs(sub))
      requires tus.index.units == old(tus.index.units) + old(sub.tus.index.units)
      ensures old(Orderly() && sub.ListsOrderly() && ApartFrom(sub)) ==> Orderly()
    {
      if old(Orderly() && sub.ListsOrderly() && ApartFrom(sub)) {
        if parent != null {
          assert unchanged(parent.Repr);
        }
        forall c | 0 <= c < |cuIdx.idx|
          ensures AllAligned(cuIdx.units, c, cuIdx.scale[c]) && UnitsDisjoint(cuIdx.units, c)
          ensures AllAligned(puIdx.units, c, cuIdx.scale[c]) && UnitsDisjoint(puIdx.units, c)
          ensures AllAligned(tus.index.units, c, cuIdx.scale[c]) && UnitsDisjoint(tus.index.units, c)
        {
          TidyConcat(old(cuIdx.units), old(TakenCUs(sub)), c, cuIdx.scale[c]);
          TidyConcat(old(puIdx.units), old(TakenPUs(sub)), c, cuIdx.scale[c]);
          TidyConcat(old(tus.index.units), old(sub.tus.index.units), c, cuIdx.scale[c]);
        }
      }
    }
  }

  lemma TidyConcat(a: seq<Unit>, b: seq<Unit>, c: nat, scale: UnitScale)
    requires scale.Valid() && AllAligned(a, c, scale) && AllAligned(b, c, scale)
    requires UnitsDisjoint(a, c) && UnitsDisjoint(b, c) && ListsApart(a, b, c)
    ensures AllAligned(a + b, c, scale) && UnitsDisjoint(a + b, c)
  {
    DisjointConcat(a, b, c);
  }

  /** Searching one list and then, behind it, another. */
  ghost function EitherSearch(own: seq<Unit>, us: seq<Unit>, c: nat, px: int, py: int): (n: nat) {
    var here, there := LinearSearch(own, c, px, py), LinearSearch(us, c, px, py);
    if here != 0 then here else if there != 0 then |own| + there else 0
  }

  /** For disjoint units, finding the same unit at two positions is being contained in the same units. */
  lemma SameFind(units: seq<Unit>, c: nat, px: int, py: int, qx: int, qy: int)
    requires UnitsDisjoint(units, c)
    ensures LinearSearch(units, c, px, py) == LinearSearch(units, c, qx, qy) <==>
      forall k | 0 <= k < |units| :: ContainsPos(units[k], c, px, py) <==> ContainsPos(units[k], c, qx, qy)
  {
    LinearSearchMeaning(units, c, px, py);
    LinearSearchMeaning(units, c, qx, qy);
    forall k | 0 <= k < |units|
      ensures ContainsPos(units[k], c, px, py) ==> LinearSearch(units, c, px, py) == k + 1
      ensures ContainsPos(units[k], c, qx, qy) ==> LinearSearch(units, c, qx, qy) == k + 1
    {
      if ContainsPos(units[k], c, px, py) {
        FoundAt(units, c, px, py, k);
      }
      if ContainsPos(units[k], c, qx, qy) {
        FoundAt(units, c, qx, qy, k);
      }
    }
  }

  /** `create` for a whole picture. */
  method CreateTop(areas: seq<CompArea>, scales: seq<UnitScale>) returns (cs: CodingStructure)
    requires 1 <= |scales| <= 2 && |scales| <= |areas|
    requires forall c | 0 <= c < |scales| :: scales[c].Valid() && areas[c].Aligned(scales[c])
    ensures cs.Valid() && cs.parent == null && !cs.isTuEnc && cs.area == areas && cs.cuIdx.scale == scales && fresh(cs.Repr)
    ensures cs.cuIdx.units == cs.puIdx.units == cs.tus.index.units == [] && cs.puOwners == cs.tuOwners == []
  {
    var cu, pu, tu := NewParts(areas, scales);
    cs := new CodingStructure(areas, cu, pu, tu);
  }

  /** An empty structure inside another. */
  method CreateInside(p: CodingStructure, areas: seq<CompArea>, tuEnc: bool) returns (sub: CodingStructure)
    requires p.Valid() && |p.cuIdx.idx| <= |areas|
    requires forall c | 0 <= c < |p.cuIdx.idx| :: areas[c].Aligned(p.cuIdx.scale[c])
    ensures sub.Valid() && sub.parent == p && sub.isTuEnc == tuEnc && sub.area == areas && sub.cuIdx.scale == p.cuIdx.scale
    ensures sub.cuIdx.units == sub.puIdx.units == sub.tus.index.units == [] && sub.puOwners == sub.tuOwners == [] && fresh(sub.own)
  {
    var cu, pu, tu := NewParts(areas, p.cuIdx.scale);
    p.ReprStaysValid();
    sub := new CodingStructure.Inside(areas, cu, pu, tu, p, tuEnc);
  }

  /**
   * `initSubStructure`: a structure inside another; one that only encodes transform units starts with analogues of its
   * parent's coding and prediction units.
   */
  method InitSubStructure(p: CodingStructure, areas: seq<CompArea>, tuEnc: bool, ch: nat) returns (sub: CodingStructure)
    requires p.Valid() && |p.cuIdx.idx| <= |areas|
    requires forall c | 0 <= c < |p.cuIdx.idx| :: areas[c].Aligned(p.cuIdx.scale[c])
    requires tuEnc ==> areas == p.area
    ensures sub.Valid() && sub.parent == p && sub.isTuEnc == tuEnc && sub.area == areas && sub.cuIdx.scale == p.cuIdx.scale
    ensures sub.cuIdx.units == (if tuEnc then p.cuIdx.units else []) && sub.puIdx.units == (if tuEnc then p.puIdx.units else [])
    ensures |sub.puOwners| == |sub.puIdx.units| && forall k | 0 <= k < |sub.puOwners| :: sub.puOwners[k] == At(0, 1)
    ensures sub.tus.index.units == [] && sub.tuOwners == [] && fresh(sub.own)
  {
    sub := CreateInside(p, areas, tuEnc);
    if tuEnc {
      sub.StartAsParent(ch);
    }
  }

  /** One unit of an area of one component, eight by eight. */
  function Square(x: int): Unit {
    Unit([CompArea(x, 0, 8, 8)], 0)
  }

  /** A structure for one component, sixteen by eight, with the given coding and prediction units. */
  ghost predicate Holds(cs: CodingStructure, cus: seq<Unit>, pus: seq<Unit>)
    reads cs, cs.Repr
  {
    && cs.Valid() && cs.parent == null && !cs.isTuEnc
    && cs.area == [CompArea(0, 0, 16, 8)] && cs.cuIdx.scale == [UnitScale(2, 2)]
    && cs.cuIdx.units == cus && cs.puIdx.units == pus
  }

  lemma SquareFits(index: UnitIndex, x: int)
    requires index.Valid() && index.area == [CompArea(0, 0, 16, 8)] && index.scale == [UnitScale(2, 2)]
    requires (x == 0 && index.units == []) || (x == 8 && index.units == [Square(0)])
    ensures index.Fits(Square(x))
  {
    index.DisjointUnitsFit(Square(x));
  }

  lemma SquareOwner(cs: CodingStructure, x: int)
    requires Holds(cs, [Square(0), Square(8)], cs.puIdx.units) && (x == 0 || x == 8)
    ensures cs.OwnerOf(Square(x), 0) == At(0, if x == 0 then 1 else 2)
  {
    cs.cuIdx.EntryIsLatest(0, x, 0);
    TwoSquares(x);
  }

  lemma TwoSquares(x: int)
    requires x == 0 || x == 8
    ensures Latest([Square(0), Square(8)], 0, UnitScale(2, 2), Shift(x, 2), 0) == if x == 0 then 1 else 2
  {
    var us := [Square(0), Square(8)];
    assert us[..1] == [Square(0)];
  }

  method TwoSquareCUs() returns (cs: CodingStructure)
    ensures Holds(cs, [Square(0), Square(8)], []) && cs.puOwners == [] && fresh(cs.Repr)
  {
    cs := CreateTop([CompArea(0, 0, 16, 8)], [UnitScale(2, 2)]);
    SquareFits(cs.cuIdx, 0);
    cs.AddCU(Square(0));
    SquareFits(cs.cuIdx, 8);
    cs.AddCU(Square(8));
  }

  method AddSquarePU(cs: CodingStructure, x: int, ghost pus: seq<Unit>)
    requires Holds(cs, [Square(0), Square(8)], pus) && ((x == 0 && pus == []) || (x == 8 && pus == [Square(0)]))
    modifies cs.Repr
    ensures Holds(cs, [Square(0), Square(8)], pus + [Square(x)])
    ensures cs.puOwners == old(cs.puOwners) + [At(0, if x == 0 then 1 else 2)]
  {
    SquareFits(cs.puIdx, x);
    SquareOwner(cs, x);
    cs.AddPU(Square(x), 0);
  }

  /**
   * Two coding units side by side, each with a prediction unit of its size: traversing the prediction units of both
   * areas ends after the first, although the second lies inside as well.
   */
  method TwoCodingUnits() returns (cs: CodingStructure, begin: Place, last: nat)
    ensures Holds(cs, [Square(0), Square(8)], [Square(0), Square(8)]) && cs.puOwners == [At(0, 1), At(0, 2)]
    ensures ContainsUnit(Unit(cs.area, 0), Square(0)) && ContainsUnit(Unit(cs.area, 0), Square(8))
    ensures begin == At(0, 1) && last == 1
  {
    cs := TwoSquareCUs();
    AddSquarePU(cs, 0, []);
    AddSquarePU(cs, 8, [Square(0)]);
    begin, last := TraverseSquares(cs);
    assert Shared(Unit(cs.area, 0), Square(0), 0) && Shared(Unit(cs.area, 0), Square(8), 0);
  }

  method TraverseSquares(cs: CodingStructure) returns (begin: Place, last: nat)
    requires Holds(cs, [Square(0), Square(8)], [Square(0), Square(8)]) && cs.puOwners == [At(0, 1), At(0, 2)]
    ensures begin == At(0, 1) && last == 1
  {
    begin, last := cs.TraversePUs(Unit(cs.area, 0), 0);
    cs.puIdx.EntryIsLatest(0, 0, 0);
    TwoSquares(0);
  }
}
