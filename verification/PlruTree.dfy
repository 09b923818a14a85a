/**
 * Tree pseudo-LRU replacement as a tree of bits. Every inner node remembers which half was used last;
 * the victim is found by going the other way at every node.
 */
module PlruTree {
  import opened Arithmetic

  /** `one` says that the half of the ways with a one in this position was used last. */
  datatype Tree = Leaf | Node(one: bool, zeros: Tree, ones: Tree)

  ghost predicate Perfect(t: Tree, d: nat) {
    if d == 0 then t == Leaf else t.Node? && Perfect(t.zeros, d - 1) && Perfect(t.ones, d - 1)
  }

  /** The way to replace in a set of Pow2(d) ways. */
  function Victim(t: Tree, d: nat): (w: nat)
    requires Perfect(t, d)
    ensures w < Pow2(d)
  {
    if d == 0 then 0
    else if t.one then Victim(t.zeros, d - 1)
    else Pow2(d - 1) + Victim(t.ones, d - 1)
  }

  /** The tree after way w has been used. */
  function Touch(t: Tree, d: nat, w: nat): (r: Tree)
    requires Perfect(t, d) && w < Pow2(d)
    ensures Perfect(r, d)
  {
    if d == 0 then t
    else if w < Pow2(d - 1) then Node(false, Touch(t.zeros, d - 1, w), t.ones)
    else Node(true, t.zeros, Touch(t.ones, d - 1, w - Pow2(d - 1)))
  }

  // ---- Straight misses: the victims go round all ways and the tree comes back to where it was. ----

  /** The tree after k replacements in a row. */
  function Evict(t: Tree, d: nat, k: nat): (r: Tree)
    requires Perfect(t, d)
    ensures Perfect(r, d)
  {
    if k == 0 then t else
      var u := Evict(t, d, k - 1);
      Touch(u, d, Victim(u, d))
  }

  /** The way replaced k replacements from now. */
  function VictimAt(t: Tree, d: nat, k: nat): (w: nat)
    requires Perfect(t, d)
    ensures w < Pow2(d)
  {
    Victim(Evict(t, d, k), d)
  }

  /** Two replacements use each half once and give the root its bit back. */
  lemma {:induction false} EvictTwice(t: Tree, d: nat, m: nat)
    requires Perfect(t, d) && d >= 1
    ensures Evict(t, d, 2 * m) == Node(t.one, Evict(t.zeros, d - 1, m), Evict(t.ones, d - 1, m))
    ensures VictimAt(t, d, 2 * m)
         == if t.one then VictimAt(t.zeros, d - 1, m) else Pow2(d - 1) + VictimAt(t.ones, d - 1, m)
    ensures VictimAt(t, d, 2 * m + 1)
         == if t.one then Pow2(d - 1) + VictimAt(t.ones, d - 1, m) else VictimAt(t.zeros, d - 1, m)
  {
    if m > 0 {
      EvictTwice(t, d, m - 1);
      var u := Evict(t, d, 2 * m - 2);
      var v := Evict(t, d, 2 * m - 1);
      assert v == Touch(u, d, Victim(u, d));
      assert Evict(t, d, 2 * m) == Touch(v, d, Victim(v, d));
    }
    var u := Evict(t, d, 2 * m);
    assert Evict(t, d, 2 * m + 1) == Touch(u, d, Victim(u, d));
  }

  /** After as many replacements as there are ways every bit is what it was. */
  lemma {:induction false} FullTurnRestores(t: Tree, d: nat)
    requires Perfect(t, d)
    ensures Evict(t, d, Pow2(d)) == t
  {
    if d == 0 {
      assert Evict(t, 0, 1) == Touch(Evict(t, 0, 0), 0, 0);
    } else {
      EvictTwice(t, d, Pow2(d - 1));
      FullTurnRestores(t.zeros, d - 1);
      FullTurnRestores(t.ones, d - 1);
    }
  }

  /** When way w is replaced during a full turn. */
  function TurnOf(t: Tree, d: nat, w: nat): (k: nat)
    requires Perfect(t, d) && w < Pow2(d)
    ensures k < Pow2(d)
  {
    if d == 0 then 0
    else if w < Pow2(d - 1) then 2 * TurnOf(t.zeros, d - 1, w) + (if t.one then 0 else 1)
    else 2 * TurnOf(t.ones, d - 1, w - Pow2(d - 1)) + (if t.one then 1 else 0)
  }

  /** In a full turn every way is replaced exactly once. */
  lemma {:induction false} EveryWayOnce(t: Tree, d: nat, w: nat, k: nat)
    requires Perfect(t, d) && w < Pow2(d) && k < Pow2(d)
    ensures VictimAt(t, d, k) == w <==> k == TurnOf(t, d, w)
  {
    if d == 0 {
    } else {
      var m := k / 2;
      EvictTwice(t, d, m);
      if w < Pow2(d - 1) {
        EveryWayOnce(t.zeros, d - 1, w, m);
      } else {
        EveryWayOnce(t.ones, d - 1, w - Pow2(d - 1), m);
      }
    }
  }

  // ---- Recently used ways: each other access turns at most one more bit of a way's path against it. ----

  /** How many nodes on the path to w would send the victim search towards w. */
  function Exposure(t: Tree, d: nat, w: nat): (n: nat)
    requires Perfect(t, d) && w < Pow2(d)
    ensures n <= d
  {
    if d == 0 then 0
    else if w < Pow2(d - 1) then (if t.one then 1 else 0) + Exposure(t.zeros, d - 1, w)
    else (if t.one then 0 else 1) + Exposure(t.ones, d - 1, w - Pow2(d - 1))
  }

  /** A way is the victim exactly when its whole path points at it. */
  lemma {:induction false} VictimIffExposed(t: Tree, d: nat, w: nat)
    requires Perfect(t, d) && w < Pow2(d)
    ensures Victim(t, d) == w <==> Exposure(t, d, w) == d
  {
    if d == 0 {
    } else {
      if w < Pow2(d - 1) {
        VictimIffExposed(t.zeros, d - 1, w);
      } else {
        VictimIffExposed(t.ones, d - 1, w - Pow2(d - 1));
      }
    }
  }

  lemma {:induction false} TouchedIsHidden(t: Tree, d: nat, w: nat)
    requires Perfect(t, d) && w < Pow2(d)
    ensures Exposure(Touch(t, d, w), d, w) == 0
  {
    if d == 0 {
    } else {
      if w < Pow2(d - 1) {
        TouchedIsHidden(t.zeros, d - 1, w);
      } else {
        TouchedIsHidden(t.ones, d - 1, w - Pow2(d - 1));
      }
    }
  }

  lemma {:induction false} ExposureGrowsByOne(t: Tree, d: nat, w: nat, v: nat)
    requires Perfect(t, d) && w < Pow2(d) && v < Pow2(d)
    ensures Exposure(Touch(t, d, v), d, w) <= Exposure(t, d, w) + 1
  {
    if d == 0 {
    } else {
      if w < Pow2(d - 1) && v < Pow2(d - 1) {
        ExposureGrowsByOne(t.zeros, d - 1, w, v);
      } else if w >= Pow2(d - 1) && v >= Pow2(d - 1) {
        ExposureGrowsByOne(t.ones, d - 1, w - Pow2(d - 1), v - Pow2(d - 1));
      }
    }
  }

  /** The tree after a sequence of uses. */
  function TouchAll(t: Tree, d: nat, ws: seq<nat>): (r: Tree)
    requires Perfect(t, d) && forall i | 0 <= i < |ws| :: ws[i] < Pow2(d)
    ensures Perfect(r, d)
    decreases |ws|
  {
    if ws == [] then t else TouchAll(Touch(t, d, ws[0]), d, ws[1..])
  }

  /** One other way from every sibling subtree on the path to w, the nearest first. */
  function Siblings(d: nat, w: nat): (ws: seq<nat>)
    requires w < Pow2(d)
    ensures |ws| == d
    ensures forall i | 0 <= i < d :: ws[i] < Pow2(d) && ws[i] != w
  {
    if d == 0 then []
    else if w < Pow2(d - 1) then Siblings(d - 1, w) + [Pow2(d - 1)]
    else
      var s := Siblings(d - 1, w - Pow2(d - 1));
      seq(d - 1, i requires 0 <= i < d - 1 => Pow2(d - 1) + s[i]) + [0]
  }

  /** The protection lasts no longer: after those d uses of other ways, w is the victim whatever the tree was. */
  lemma {:induction false} SiblingsExpose(t: Tree, d: nat, w: nat)
    requires Perfect(t, d) && w < Pow2(d)
    ensures Victim(TouchAll(t, d, Siblings(d, w)), d) == w
  {
    if d == 0 {
    } else {
      var h := Pow2(d - 1);
      var ws := Siblings(d, w);
      assert ws == ws[..d - 1] + [ws[d - 1]];
      TouchAllAppend(t, d, ws[..d - 1], ws[d - 1]);
      if w < h {
        assert ws[..d - 1] == Siblings(d - 1, w);
        TouchAllZeros(t, d, ws[..d - 1]);
        SiblingsExpose(t.zeros, d - 1, w);
      } else {
        var s := Siblings(d - 1, w - h);
        TouchAllOnes(t, d, ws[..d - 1], s);
        SiblingsExpose(t.ones, d - 1, w - h);
      }
    }
  }

  lemma {:induction false} TouchAllAppend(t: Tree, d: nat, ws: seq<nat>, v: nat)
    requires Perfect(t, d) && v < Pow2(d) && forall i | 0 <= i < |ws| :: ws[i] < Pow2(d)
    ensures TouchAll(t, d, ws + [v]) == Touch(TouchAll(t, d, ws), d, v)
    decreases |ws|
  {
    if ws == [] {
      assert ws + [v] == [v];
      assert [v][1..] == [];
    } else {
      assert (ws + [v])[1..] == ws[1..] + [v];
      TouchAllAppend(Touch(t, d, ws[0]), d, ws[1..], v);
    }
  }

  /** Uses in the lower half act on the lower subtree only. */
  lemma {:induction false} TouchAllZeros(t: Tree, d: nat, ws: seq<nat>)
    requires Perfect(t, d) && d >= 1 && forall i | 0 <= i < |ws| :: ws[i] < Pow2(d - 1)
    ensures var r := TouchAll(t, d, ws);
      r.zeros == TouchAll(t.zeros, d - 1, ws) && r.ones == t.ones
    decreases |ws|
  {
    if ws == [] {
    } else {
      TouchAllZeros(Touch(t, d, ws[0]), d, ws[1..]);
    }
  }

  lemma {:induction false} TouchAllOnes(t: Tree, d: nat, ws: seq<nat>, s: seq<nat>)
    requires Perfect(t, d) && d >= 1 && |s| == |ws|
    requires forall i | 0 <= i < |ws| :: s[i] < Pow2(d - 1) && ws[i] == Pow2(d - 1) + s[i]
    ensures var r := TouchAll(t, d, ws);
      r.ones == TouchAll(t.ones, d - 1, s) && r.zeros == t.zeros
    decreases |ws|
  {
    if ws == [] {
    } else {
      TouchAllOnes(Touch(t, d, ws[0]), d, ws[1..], s[1..]);
    }
  }
}
