/** Decision trees laid out in arrays: a node's right subtree follows it, its left subtree begins 2^depth further on. */
module DecisionTrees {
  import opened Arithmetic
  import opened Options

  /** A tree under construction, with the depth its builder has recorded for it. */
  datatype Builder =
    | Outcome(id: nat, depth: nat)
    | Decision(id: nat, depth: nat, left: Builder, right: Builder)

  function Height(t: Builder): nat {
    match t case Outcome(_, _) => 0 case Decision(_, _, l, r) => 1 + Max(Height(l), Height(r))
  }

  // ---- The `decision` builders: whatever they combine, the recorded depth is the height ----

  /** A decision with this identifier that leads to `on0` for 0 and to `on1` for 1. */
  ghost predicate Decides(t: Builder, id: nat, on0: Shape, on1: Shape) {
    t.Decision? && t.id == id && ShapeOf(t.left) == on0 && ShapeOf(t.right) == on1
  }

  function DecideOutcomes(id: nat, id0: nat, id1: nat): (t: Builder)
    ensures t.depth == Height(t) && Decides(t, id, Leaf(id0), Leaf(id1))
  {
    Decision(id, 1, Outcome(id0, 0), Outcome(id1, 0))
  }

  function DecideLeft(id: nat, sub0: Builder, id1: nat): (t: Builder)
    requires sub0.depth == Height(sub0)
    ensures t.depth == Height(t) && Decides(t, id, ShapeOf(sub0), Leaf(id1))
  {
    Decision(id, sub0.depth + 1, sub0, Outcome(id1, sub0.depth))
  }

  function DecideRight(id: nat, id0: nat, sub1: Builder): (t: Builder)
    requires sub1.depth == Height(sub1)
    ensures t.depth == Height(t) && Decides(t, id, Leaf(id0), ShapeOf(sub1))
  {
    Decision(id, sub1.depth + 1, Outcome(id0, sub1.depth), sub1)
  }

  function DecideBoth(id: nat, sub0: Builder, sub1: Builder): (t: Builder)
    requires sub0.depth == Height(sub0) && sub1.depth == Height(sub1)
    ensures t.depth == Height(t) && Decides(t, id, ShapeOf(sub0), ShapeOf(sub1))
  {
    Decision(id, Max(sub0.depth, sub1.depth) + 1, sub0, sub1)
  }

  // ---- Where nodes go ----

  /** The slots from offset on that a tree of this depth may use. */
  predicate InRange(offset: nat, depth: nat, s: nat) {
    offset <= s < offset + Pow2(depth + 1) - 1
  }

  /** A node in the layout: its subtree and the depth reserved for it. */
  datatype Placed = Placed(tree: Builder, depth: nat)

  /** The node at slot s of a tree laid out at offset. */
  function NodeAt(t: Builder, offset: nat, depth: nat, s: nat): (n: Option<Placed>)
    requires Height(t) <= depth
    ensures n.Some? ==> InRange(offset, depth, s) && Height(n.value.tree) <= n.value.depth
    ensures n.Some? ==> s + Pow2(n.value.depth + 1) <= offset + Pow2(depth + 1)
    ensures s == offset ==> n == Some(Placed(t, depth))
    decreases t
  {
    if s == offset then Some(Placed(t, depth))
    else if t.Outcome? then None
    else if s < offset + Pow2(depth) then NodeAt(t.right, offset + 1, depth - 1, s)
    else NodeAt(t.left, offset + Pow2(depth), depth - 1, s)
  }

  /** The node reached by a path of decisions, `true` for right. */
  function Subtree(t: Builder, path: seq<bool>): (n: Option<Builder>) {
    if path == [] then Some(t)
    else if t.Outcome? then None
    else Subtree(if path[0] then t.right else t.left, path[1..])
  }

  function SlotOf(offset: nat, depth: nat, path: seq<bool>): nat
    requires |path| <= depth
    decreases path
  {
    if path == [] then offset
    else SlotOf(if path[0] then offset + 1 else offset + Pow2(depth), depth - 1, path[1..])
  }

  lemma {:induction false} PathFits(t: Builder, path: seq<bool>)
    requires Subtree(t, path).Some?
    ensures |path| + Height(Subtree(t, path).value) <= Height(t)
  {
    if path == [] {
    } else {
      PathFits(if path[0] then t.right else t.left, path[1..]);
    }
  }

  /** Every node of the tree is in the layout, at the slot of its path and inside the range of its tree. */
  lemma {:induction false} NodeIsAtItsSlot(t: Builder, offset: nat, depth: nat, path: seq<bool>)
    requires Height(t) <= depth && Subtree(t, path).Some? && |path| <= depth
    ensures InRange(offset, depth, SlotOf(offset, depth, path))
    ensures NodeAt(t, offset, depth, SlotOf(offset, depth, path)) == Some(Placed(Subtree(t, path).value, depth - |path|))
  {
    if path == [] {
    } else {
      var s := SlotOf(offset, depth, path);
      PathFits(t, path);
      if path[0] {
        NodeIsAtItsSlot(t.right, offset + 1, depth - 1, path[1..]);
      } else {
        NodeIsAtItsSlot(t.left, offset + Pow2(depth), depth - 1, path[1..]);
      }
    }
  }

  /** One decision further: 1 leads to the very next slot, 0 to the one behind all that 1 leads to. */
  lemma {:induction false} SlotOfNext(offset: nat, depth: nat, path: seq<bool>, on1: bool)
    requires |path| < depth
    ensures SlotOf(offset, depth, path + [on1]) == SlotOf(offset, depth, path) + if on1 then 1 else Pow2(depth - |path|)
    decreases path
  {
    if path == [] {
      assert (path + [on1])[1..] == [];
    } else {
      assert (path + [on1])[1..] == path[1..] + [on1];
      SlotOfNext(if path[0] then offset + 1 else offset + Pow2(depth), depth - 1, path[1..], on1);
    }
  }

  /** Different nodes have different slots: the two subtrees of a node lie in disjoint ranges. */
  lemma {:induction false} SlotsAreDistinct(t: Builder, offset: nat, depth: nat, p: seq<bool>, q: seq<bool>)
    requires Height(t) <= depth && Subtree(t, p).Some? && Subtree(t, q).Some? && |p| <= depth && |q| <= depth
    requires SlotOf(offset, depth, p) == SlotOf(offset, depth, q)
    ensures p == q
  {
    if p != [] && q != [] && p[0] == q[0] {
      if p[0] {
        SlotsAreDistinct(t.right, offset + 1, depth - 1, p[1..], q[1..]);
      } else {
        SlotsAreDistinct(t.left, offset + Pow2(depth), depth - 1, p[1..], q[1..]);
      }
      assert p == [p[0]] + p[1..] && q == [q[0]] + q[1..];
    } else {
      PathRange(t, offset, depth, p);
      PathRange(t, offset, depth, q);
    }
  }

  /** The slot of a path that takes a step lies in the range of the subtree it steps into. */
  lemma PathRange(t: Builder, offset: nat, depth: nat, p: seq<bool>)
    requires Height(t) <= depth && Subtree(t, p).Some? && |p| <= depth
    ensures p == [] ==> SlotOf(offset, depth, p) == offset
    ensures p != [] && p[0] ==> offset < SlotOf(offset, depth, p) < offset + Pow2(depth)
    ensures p != [] && !p[0] ==> offset + Pow2(depth) <= SlotOf(offset, depth, p)
  {
    if p != [] {
      if p[0] {
        NodeIsAtItsSlot(t.right, offset + 1, depth - 1, p[1..]);
      } else {
        NodeIsAtItsSlot(t.left, offset + Pow2(depth), depth - 1, p[1..]);
      }
    }
  }

  // ---- Identifiers ----

  function Ids(t: Builder): set<nat> {
    match t case Outcome(id, _) => {id} case Decision(id, _, l, r) => {id} + Ids(l) + Ids(r)
  }

  predicate UniqueIds(t: Builder) {
    t.Decision? ==> && t.id !in Ids(t.left) && t.id !in Ids(t.right) && Ids(t.left) !! Ids(t.right)
                    && UniqueIds(t.left) && UniqueIds(t.right)
  }

  lemma {:induction false} NodeIdIsInTree(t: Builder, offset: nat, depth: nat, s: nat)
    requires Height(t) <= depth && NodeAt(t, offset, depth, s).Some?
    ensures var id := NodeAt(t, offset, depth, s).value.tree.id;
      && id in Ids(t)
      && (s == offset ==> id == t.id)
      && (s != offset ==> id in Ids(if s < offset + Pow2(depth) then t.right else t.left))
    decreases t
  {
    if s == offset {
    } else {
      if s < offset + Pow2(depth) {
        NodeIdIsInTree(t.right, offset + 1, depth - 1, s);
      } else {
        NodeIdIsInTree(t.left, offset + Pow2(depth), depth - 1, s);
      }
    }
  }

  /** With unique identifiers, two slots with the same identifier are the same slot. */
  lemma {:induction false} SameIdSameSlot(t: Builder, offset: nat, depth: nat, s: nat, u: nat)
    requires Height(t) <= depth && UniqueIds(t)
    requires NodeAt(t, offset, depth, s).Some? && NodeAt(t, offset, depth, u).Some?
    requires NodeAt(t, offset, depth, s).value.tree.id == NodeAt(t, offset, depth, u).value.tree.id
    ensures s == u
    decreases t
  {
    NodeIdIsInTree(t, offset, depth, s);
    NodeIdIsInTree(t, offset, depth, u);
    if s != offset && u != offset {
      if s < offset + Pow2(depth) && u < offset + Pow2(depth) {
        SameIdSameSlot(t.right, offset + 1, depth - 1, s, u);
      } else if s >= offset + Pow2(depth) && u >= offset + Pow2(depth) {
        SameIdSameSlot(t.left, offset + Pow2(depth), depth - 1, s, u);
      }
    }
  }

  // ---- Rebuilding ----

  /** The shape of a tree: what is left of it without the recorded depths. */
  datatype Shape = Leaf(id: nat) | Fork(id: nat, left: Shape, right: Shape)

  function ShapeOf(t: Builder): Shape {
    match t case Outcome(id, _) => Leaf(id) case Decision(id, _, l, r) => Fork(id, ShapeOf(l), ShapeOf(r))
  }

  /** The arrays hold a tree laid out at offset, and nothing else from there to the end of its range. */
  ghost predicate Holds(ids: seq<nat>, hasSub: seq<bool>, t: Builder, offset: nat, depth: nat)
    requires Height(t) <= depth
  {
    && offset + Pow2(depth + 1) - 1 <= |ids| == |hasSub|
    && forall s: nat | InRange(offset, depth, s) && NodeAt(t, offset, depth, s).Some? ::
         var n := NodeAt(t, offset, depth, s).value.tree; ids[s] == n.id && hasSub[s] == n.Decision?
  }

  /** Reads a tree back from the arrays. */
  function Rebuild(ids: seq<nat>, hasSub: seq<bool>, offset: nat, depth: nat): Shape
    requires offset + Pow2(depth + 1) - 1 <= |ids| == |hasSub|
    decreases depth
  {
    if !hasSub[offset] || depth == 0 then Leaf(ids[offset])
    else Fork(ids[offset], Rebuild(ids, hasSub, offset + Pow2(depth), depth - 1), Rebuild(ids, hasSub, offset + 1, depth - 1))
  }

  lemma NodeOfRight(t: Builder, offset: nat, depth: nat, s: nat)
    requires Height(t) <= depth && t.Decision? && InRange(offset + 1, depth - 1, s)
    ensures InRange(offset, depth, s) && NodeAt(t, offset, depth, s) == NodeAt(t.right, offset + 1, depth - 1, s)
  {
    assert Pow2(depth + 1) == 2 * Pow2(depth);
  }

  lemma NodeOfLeft(t: Builder, offset: nat, depth: nat, s: nat)
    requires Height(t) <= depth && t.Decision? && InRange(offset + Pow2(depth), depth - 1, s)
    ensures InRange(offset, depth, s) && NodeAt(t, offset, depth, s) == NodeAt(t.left, offset + Pow2(depth), depth - 1, s)
  {
    assert Pow2(depth + 1) == 2 * Pow2(depth);
  }

  lemma HoldsSubtrees(ids: seq<nat>, hasSub: seq<bool>, t: Builder, offset: nat, depth: nat)
    requires Height(t) <= depth && Holds(ids, hasSub, t, offset, depth) && t.Decision?
    ensures depth >= 1 && Holds(ids, hasSub, t.right, offset + 1, depth - 1)
    ensures Holds(ids, hasSub, t.left, offset + Pow2(depth), depth - 1)
  {
    assert Pow2(depth + 1) == 2 * Pow2(depth);
    forall s: nat | InRange(offset + 1, depth - 1, s) && NodeAt(t.right, offset + 1, depth - 1, s).Some?
      ensures var n := NodeAt(t.right, offset + 1, depth - 1, s).value.tree; ids[s] == n.id && hasSub[s] == n.Decision?
    {
      NodeOfRight(t, offset, depth, s);
    }
    forall s: nat | InRange(offset + Pow2(depth), depth - 1, s) && NodeAt(t.left, offset + Pow2(depth), depth - 1, s).Some?
      ensures var n := NodeAt(t.left, offset + Pow2(depth), depth - 1, s).value.tree; ids[s] == n.id && hasSub[s] == n.Decision?
    {
      NodeOfLeft(t, offset, depth, s);
    }
  }

  /** The arrays determine the tree. */
  lemma {:induction false} RebuildGivesTheTree(ids: seq<nat>, hasSub: seq<bool>, t: Builder, offset: nat, depth: nat)
    requires Height(t) <= depth && Holds(ids, hasSub, t, offset, depth)
    ensures Rebuild(ids, hasSub, offset, depth) == ShapeOf(t)
    decreases t
  {
    assert InRange(offset, depth, offset);
    if t.Decision? {
      HoldsSubtrees(ids, hasSub, t, offset, depth);
      RebuildGivesTheTree(ids, hasSub, t.right, offset + 1, depth - 1);
      RebuildGivesTheTree(ids, hasSub, t.left, offset + Pow2(depth), depth - 1);
    }
  }

  // ---- Availability ----

  /** Some outcome below is available. */
  function AnyAvailable(t: Builder, offset: nat, depth: nat, avail: seq<bool>): bool
    requires Height(t) <= depth && offset + Pow2(depth + 1) - 1 <= |avail|
    decreases t
  {
    if t.Outcome? then avail[offset]
    else AnyAvailable(t.right, offset + 1, depth - 1, avail) || AnyAvailable(t.left, offset + Pow2(depth), depth - 1, avail)
  }

  /** A path of decisions to an outcome whose slot is marked available. */
  ghost predicate LeadsToAvailable(t: Builder, offset: nat, depth: nat, avail: seq<bool>, path: seq<bool>)
    requires Height(t) <= depth && offset + Pow2(depth + 1) - 1 <= |avail|
  {
    && |path| <= depth && Subtree(t, path).Some? && Subtree(t, path).value.Outcome?
    && SlotOf(offset, depth, path) < |avail| && avail[SlotOf(offset, depth, path)]
  }

  lemma {:induction false} AvailableCongruence(t: Builder, offset: nat, depth: nat, a: seq<bool>, b: seq<bool>)
    requires Height(t) <= depth && offset + Pow2(depth + 1) - 1 <= |a| == |b|
    requires forall s: nat | InRange(offset, depth, s) :: a[s] == b[s]
    ensures AnyAvailable(t, offset, depth, a) == AnyAvailable(t, offset, depth, b)
    decreases t
  {
    assert InRange(offset, depth, offset);
    if t.Decision? {
      AvailableCongruence(t.right, offset + 1, depth - 1, a, b);
      AvailableCongruence(t.left, offset + Pow2(depth), depth - 1, a, b);
    }
  }

  /** `avail` after the nodes of a tree have learnt from their outcomes. */
  ghost predicate Reduced(t: Builder, offset: nat, depth: nat, before: seq<bool>, after: seq<bool>)
    requires Height(t) <= depth && offset + Pow2(depth + 1) - 1 <= |before| == |after|
  {
    forall s: nat | s < |after| :: after[s] == Learnt(t, offset, depth, before, s)
  }

  lemma {:induction false} PathToAvailable(t: Builder, offset: nat, depth: nat, avail: seq<bool>) returns (path: seq<bool>)
    requires Height(t) <= depth && offset + Pow2(depth + 1) - 1 <= |avail| && AnyAvailable(t, offset, depth, avail)
    ensures LeadsToAvailable(t, offset, depth, avail, path)
    decreases t
  {
    if t.Outcome? {
      path := [];
    } else if AnyAvailable(t.right, offset + 1, depth - 1, avail) {
      var p := PathToAvailable(t.right, offset + 1, depth - 1, avail);
      path := [true] + p;
      assert path[1..] == p;
    } else {
      var p := PathToAvailable(t.left, offset + Pow2(depth), depth - 1, avail);
      path := [false] + p;
      assert path[1..] == p;
    }
  }

  lemma {:induction false} PathMeansAvailable(t: Builder, offset: nat, depth: nat, avail: seq<bool>, path: seq<bool>)
    requires Height(t) <= depth && offset + Pow2(depth + 1) - 1 <= |avail| && LeadsToAvailable(t, offset, depth, avail, path)
    ensures AnyAvailable(t, offset, depth, avail)
    decreases t
  {
    if t.Outcome? {
    } else if path[0] {
      PathMeansAvailable(t.right, offset + 1, depth - 1, avail, path[1..]);
    } else {
      PathMeansAvailable(t.left, offset + Pow2(depth), depth - 1, avail, path[1..]);
    }
  }

  lemma {:induction false} AvailableMeaning(t: Builder, offset: nat, depth: nat, avail: seq<bool>)
    requires Height(t) <= depth && offset + Pow2(depth + 1) - 1 <= |avail|
    ensures AnyAvailable(t, offset, depth, avail) <==> exists path :: LeadsToAvailable(t, offset, depth, avail, path)
  {
    if AnyAvailable(t, offset, depth, avail) {
      var path := PathToAvailable(t, offset, depth, avail);
    }
    if path :| LeadsToAvailable(t, offset, depth, avail, path) {
      PathMeansAvailable(t, offset, depth, avail, path);
    }
  }

  // ---- The arrays ----

  const MAX_DEPTH_DECISION_TREE: nat := 5
  const MAX_NODES_DECISION_TREE: nat := 64
  /** What a position without a node holds: all bits set. */
  const NO_ID: nat := 0xffff_ffff

  /** How many positions a tree of this depth has. */
  function MaxIds(depth: nat): (n: nat)
    ensures n >= 2
  {
    2 * Pow2(depth)
  }

  lemma DepthFits(depth: nat)
    requires depth <= MAX_DEPTH_DECISION_TREE
    ensures MaxIds(depth) <= MAX_NODES_DECISION_TREE < NO_ID
  {
    Pow2Mono(depth, MAX_DEPTH_DECISION_TREE);
    assert Pow2(2) == 4;
    assert Pow2(4) == 4 * Pow2(2);
    assert Pow2(5) == 32;
  }

  class DecisionTreeTemplate {
    const depth: nat
    const ids: array<nat>
    const hasSub: array<bool>
    const mapping: array<nat>

    predicate Shaped() {
      && depth <= MAX_DEPTH_DECISION_TREE
      && ids.Length == hasSub.Length == mapping.Length == MAX_NODES_DECISION_TREE && ids != mapping
    }

    constructor (d: nat)
      requires d <= MAX_DEPTH_DECISION_TREE
      ensures Shaped() && depth == d && fresh(ids) && fresh(hasSub) && fresh(mapping)
      ensures forall i | 0 <= i < MAX_NODES_DECISION_TREE :: i < MaxIds(d) ==> ids[i] == mapping[i] == NO_ID
    {
      depth := d;
      ids := new nat[MAX_NODES_DECISION_TREE](i => NO_ID);
      hasSub := new bool[MAX_NODES_DECISION_TREE](i => true);
      mapping := new nat[MAX_NODES_DECISION_TREE](i => NO_ID);
    }

    /** The arrays hold a tree, and positions without a node hold no identifier. */
    ghost predicate IsOf(t: Builder)
      requires Shaped() && Height(t) <= depth
      reads ids, hasSub
    {
      DepthFits(depth);
      && Holds(ids[..], hasSub[..], t, 0, depth)
      && forall s: nat | s < MaxIds(depth) && NodeAt(t, 0, depth, s).None? :: ids[s] == NO_ID
    }

    /** The mapping leads from every identifier in use to the one node that carries it. */
    ghost predicate MapsBack(t: Builder)
      requires Shaped() && Height(t) <= depth
      reads ids, mapping
    {
      DepthFits(depth);
      && (forall s: nat | s < MaxIds(depth) && NodeAt(t, 0, depth, s).Some? && NodeAt(t, 0, depth, s).value.tree.id < MaxIds(depth) ::
            mapping[NodeAt(t, 0, depth, s).value.tree.id] == s)
      && (forall id: nat | id < MaxIds(depth) && mapping[id] != NO_ID :: mapping[id] < MaxIds(depth) && ids[mapping[id]] == id)
    }

    /** Writes a tree at offset and nothing outside its range. */
    method CompileAt(offset: nat, d: nat, t: Builder)
      requires Shaped() && Height(t) <= d && offset + Pow2(d + 1) - 1 <= MAX_NODES_DECISION_TREE
      modifies ids, hasSub
      ensures Holds(ids[..], hasSub[..], t, offset, d)
      ensures forall s: nat | s < MAX_NODES_DECISION_TREE && (!InRange(offset, d, s) || NodeAt(t, offset, d, s).None?) ::
        ids[s] == old(ids[s]) && hasSub[s] == old(hasSub[s])
      decreases t
    {
      assert Pow2(d + 1) == 2 * Pow2(d);
      ids[offset] := t.id;
      if t.Decision? {
        hasSub[offset] := true;
        CompileAt(offset + 1, d - 1, t.right);
        CompileAt(offset + Pow2(d), d - 1, t.left);
      } else {
        hasSub[offset] := false;
      }
    }

    /** Enters the positions of identifiers that are small enough; of equal ones the last position stays. */
    method MapIds()
      requires Shaped() && forall i | 0 <= i < MaxIds(depth) && i < MAX_NODES_DECISION_TREE :: mapping[i] == NO_ID
      modifies mapping
      ensures forall s | 0 <= s < MaxIds(depth) && s < MAX_NODES_DECISION_TREE && ids[s] < MaxIds(depth) && ids[s] < MAX_NODES_DECISION_TREE ::
        s <= mapping[ids[s]] < MaxIds(depth) && mapping[ids[s]] < MAX_NODES_DECISION_TREE && ids[mapping[ids[s]]] == ids[s]
      ensures forall id | 0 <= id < MaxIds(depth) && id < MAX_NODES_DECISION_TREE && id !in ids[..] :: mapping[id] == NO_ID
      ensures forall id | 0 <= id < MaxIds(depth) && id < MAX_NODES_DECISION_TREE && mapping[id] != NO_ID ::
        mapping[id] < MaxIds(depth) && mapping[id] < MAX_NODES_DECISION_TREE && ids[mapping[id]] == id
    {
      DepthFits(depth);
      var maxIds := MaxIds(depth);
      for i := 0 to maxIds
        invariant forall s | 0 <= s < i && ids[s] < maxIds :: s <= mapping[ids[s]] < i && ids[mapping[ids[s]]] == ids[s]
        invariant forall id | 0 <= id < maxIds && id !in ids[..] :: mapping[id] == NO_ID
        invariant forall id | 0 <= id < maxIds && mapping[id] != NO_ID :: mapping[id] < i && ids[mapping[id]] == id
      {
        if ids[i] < maxIds {
          assert ids[i] in ids[..];
          mapping[ids[i]] := i;
        }
      }
    }
  }

  /** Compiles a tree; the recorded depth is what the `decision` builders give. */
  method Compile(dtb: Builder) returns (dtt: DecisionTreeTemplate)
    requires dtb.depth == Height(dtb) && dtb.depth <= MAX_DEPTH_DECISION_TREE
    ensures dtt.Shaped() && dtt.depth == dtb.depth && dtt.IsOf(dtb)
    ensures UniqueIds(dtb) ==> dtt.MapsBack(dtb)
    ensures Rebuild(dtt.ids[..], dtt.hasSub[..], 0, dtt.depth) == ShapeOf(dtb)
    ensures HoldsRoot(dtt.ids[..], dtt.hasSub[..], 0, dtb)
    ensures dtb.Decision? ==>
      HoldsRoot(dtt.ids[..], dtt.hasSub[..], 1, dtb.right) && HoldsRoot(dtt.ids[..], dtt.hasSub[..], Pow2(dtt.depth), dtb.left)
  {
    dtt := new DecisionTreeTemplate(dtb.depth);
    DepthFits(dtb.depth);
    dtt.CompileAt(0, dtt.depth, dtb);
    dtt.MapIds();
    RebuildGivesTheTree(dtt.ids[..], dtt.hasSub[..], dtb, 0, dtt.depth);
    FirstSlots(dtt.ids[..], dtt.hasSub[..], dtb, dtt.depth);
    if UniqueIds(dtb) {
      forall s: nat | s < MaxIds(dtt.depth) && NodeAt(dtb, 0, dtt.depth, s).Some? && NodeAt(dtb, 0, dtt.depth, s).value.tree.id < MaxIds(dtt.depth)
        ensures dtt.mapping[NodeAt(dtb, 0, dtt.depth, s).value.tree.id] == s
      {
        MappingInverts(dtt, dtb, s);
      }
    }
  }

  /** Slot s holds the root of a tree. */
  ghost predicate HoldsRoot(ids: seq<nat>, hasSub: seq<bool>, s: nat, t: Builder) {
    s < |ids| == |hasSub| && ids[s] == t.id && hasSub[s] == t.Decision?
  }

  lemma RootIsFirst(ids: seq<nat>, hasSub: seq<bool>, t: Builder, offset: nat, depth: nat)
    requires Height(t) <= depth && Holds(ids, hasSub, t, offset, depth)
    ensures HoldsRoot(ids, hasSub, offset, t)
  {
    assert InRange(offset, depth, offset);
  }

  lemma RootsBelow(ids: seq<nat>, hasSub: seq<bool>, t: Builder, offset: nat, depth: nat, right: nat, left: nat)
    requires Height(t) <= depth && Holds(ids, hasSub, t, offset, depth) && t.Decision?
    requires right == offset + 1 && left == offset + Pow2(depth)
    ensures HoldsRoot(ids, hasSub, right, t.right) && HoldsRoot(ids, hasSub, left, t.left)
  {
    HoldsSubtrees(ids, hasSub, t, offset, depth);
    RootIsFirst(ids, hasSub, t.right, offset + 1, depth - 1);
    RootIsFirst(ids, hasSub, t.left, offset + Pow2(depth), depth - 1);
  }

  /** A tree comes first, what its decision leads to for 1 next, and what it leads to for 0 half way on. */
  lemma FirstSlots(ids: seq<nat>, hasSub: seq<bool>, t: Builder, depth: nat)
    requires Height(t) <= depth && Holds(ids, hasSub, t, 0, depth)
    ensures HoldsRoot(ids, hasSub, 0, t)
    ensures t.Decision? ==> HoldsRoot(ids, hasSub, 1, t.right) && HoldsRoot(ids, hasSub, Pow2(depth), t.left)
  {
    RootIsFirst(ids, hasSub, t, 0, depth);
    if t.Decision? {
      RootsBelow(ids, hasSub, t, 0, depth, 1, Pow2(depth));
    }
  }

  lemma MappingInverts(dtt: DecisionTreeTemplate, t: Builder, s: nat)
    requires dtt.Shaped() && Height(t) <= dtt.depth && dtt.IsOf(t) && UniqueIds(t)
    requires s < MaxIds(dtt.depth) && NodeAt(t, 0, dtt.depth, s).Some? && NodeAt(t, 0, dtt.depth, s).value.tree.id < MaxIds(dtt.depth)
    requires forall s | 0 <= s < MaxIds(dtt.depth) && s < MAX_NODES_DECISION_TREE && dtt.ids[s] < MaxIds(dtt.depth) && dtt.ids[s] < MAX_NODES_DECISION_TREE ::
      s <= dtt.mapping[dtt.ids[s]] < MaxIds(dtt.depth) && dtt.mapping[dtt.ids[s]] < MAX_NODES_DECISION_TREE
      && dtt.ids[dtt.mapping[dtt.ids[s]]] == dtt.ids[s]
    ensures NodeAt(t, 0, dtt.depth, s).value.tree.id < MAX_NODES_DECISION_TREE
    ensures dtt.mapping[NodeAt(t, 0, dtt.depth, s).value.tree.id] == s
  {
    DepthFits(dtt.depth);
    assert dtt.ids[..][s] == dtt.ids[s];
    var u := dtt.mapping[dtt.ids[s]];
    assert dtt.ids[..][u] == dtt.ids[u];
    assert NodeAt(t, 0, dtt.depth, u).Some?;
    SameIdSameSlot(t, 0, dtt.depth, s, u);
  }

  class DecisionTree {
    const dtt: DecisionTreeTemplate
    const isAvail: array<bool>

    constructor (template: DecisionTreeTemplate)
      ensures dtt == template && fresh(isAvail) && isAvail.Length == MAX_NODES_DECISION_TREE
      ensures forall i | 0 <= i < MAX_NODES_DECISION_TREE :: isAvail[i]
    {
      dtt := template;
      isAvail := new bool[MAX_NODES_DECISION_TREE](i => true);
    }

    predicate Shaped() {
      dtt.Shaped() && isAvail.Length == MAX_NODES_DECISION_TREE && isAvail != dtt.hasSub
    }

    /** The position of the node a path leads to. */
    ghost function Place(t: Builder, path: seq<bool>): (s: nat)
      requires Shaped() && Height(t) <= dtt.depth && Subtree(t, path).Some?
      ensures s < MAX_NODES_DECISION_TREE
    {
      DepthFits(dtt.depth);
      PathFits(t, path);
      NodeIsAtItsSlot(t, 0, dtt.depth, path);
      SlotOf(0, dtt.depth, path)
    }

    /**
     * Changes the availability of the outcome with an identifier. In a template compiled from a tree with unique identifiers
     * that is the node that carries the identifier, and no other node's availability changes.
     */
    method SetAvail(id: nat, available: bool, ghost t: Builder)
      requires Shaped() && id < MAX_NODES_DECISION_TREE && dtt.mapping[id] < MAX_NODES_DECISION_TREE
      requires !dtt.hasSub[dtt.mapping[id]]
      modifies isAvail
      ensures isAvail[..] == old(isAvail[..])[dtt.mapping[id] := available]
      ensures id < MaxIds(dtt.depth) && Height(t) <= dtt.depth && dtt.IsOf(t) && dtt.MapsBack(t) ==>
        forall path | Subtree(t, path).Some? ::
          isAvail[Place(t, path)] == if Subtree(t, path).value.id == id then available else old(isAvail[Place(t, path)])
    {
      isAvail[dtt.mapping[id]] := available;
      if id < MaxIds(dtt.depth) && Height(t) <= dtt.depth && dtt.IsOf(t) && dtt.MapsBack(t) {
        forall path | Subtree(t, path).Some?
          ensures Place(t, path) == dtt.mapping[id] <==> Subtree(t, path).value.id == id
        {
          PlaceOfId(id, t, path);
        }
      }
    }

    lemma PlaceOfId(id: nat, t: Builder, path: seq<bool>)
      requires Shaped() && id < MaxIds(dtt.depth) && id < MAX_NODES_DECISION_TREE && dtt.mapping[id] < MAX_NODES_DECISION_TREE
      requires Height(t) <= dtt.depth && dtt.IsOf(t) && dtt.MapsBack(t) && Subtree(t, path).Some?
      ensures Place(t, path) == dtt.mapping[id] <==> Subtree(t, path).value.id == id
    {
      DepthFits(dtt.depth);
      PathFits(t, path);
      NodeIsAtItsSlot(t, 0, dtt.depth, path);
      var s := Place(t, path);
      assert dtt.ids[..][s] == dtt.ids[s];
      assert NodeAt(t, 0, dtt.depth, s).value.tree == Subtree(t, path).value;
    }

    /** Afterwards each node of the tree at offset is available exactly when some outcome below it was. */
    method Reduce(offset: nat, d: nat, ghost t: Builder)
      requires Shaped() && Height(t) <= d && Holds(dtt.ids[..], dtt.hasSub[..], t, offset, d)
      modifies isAvail
      ensures Reduced(t, offset, d, old(isAvail[..]), isAvail[..])
      decreases t
    {
      assert InRange(offset, d, offset);
      assert dtt.hasSub[..][offset] == t.Decision?;
      if !dtt.hasSub[offset] {
        return;
      }
      HoldsSubtrees(dtt.ids[..], dtt.hasSub[..], t, offset, d);
      ghost var before := isAvail[..];
      var avail := false;
      Reduce(offset + 1, d - 1, t.right);
      avail := avail || isAvail[offset + 1];
      ghost var between := isAvail[..];
      Reduce(offset + Pow2(d), d - 1, t.left);
      avail := avail || isAvail[offset + Pow2(d)];
      ghost var mid := isAvail[..];
      isAvail[offset] := avail;
      ReducedFromSubtrees(t, offset, d, before, between, mid, isAvail[..]);
    }

    method ReduceAll(ghost t: Builder)
      requires Shaped() && Height(t) <= dtt.depth && dtt.IsOf(t)
      modifies isAvail
      ensures Pow2(dtt.depth + 1) - 1 <= isAvail.Length && Reduced(t, 0, dtt.depth, old(isAvail[..]), isAvail[..])
    {
      Reduce(0, dtt.depth, t);
    }
  }

  lemma ReducedFromSubtrees(t: Builder, offset: nat, d: nat, before: seq<bool>, between: seq<bool>, mid: seq<bool>, after: seq<bool>)
    requires t.Decision? && Height(t) <= d && offset + Pow2(d + 1) - 1 <= |before| == |between| == |mid|
    requires Reduced(t.right, offset + 1, d - 1, before, between)
    requires Reduced(t.left, offset + Pow2(d), d - 1, between, mid)
    requires after == mid[offset := between[offset + 1] || mid[offset + Pow2(d)]]
    ensures Reduced(t, offset, d, before, after)
  {
    forall s: nat | s < |after|
      ensures after[s] == Learnt(t, offset, d, before, s)
    {
      if s == offset {
        AvailableCongruence(t.left, offset + Pow2(d), d - 1, between, before);
        assert InRange(offset + 1, d - 1, offset + 1) && InRange(offset + Pow2(d), d - 1, offset + Pow2(d));
      } else if s < offset + Pow2(d) {
        assert mid[s] == between[s];
      } else {
        LearntOnLeft(t, offset, d, before, between, s);
      }
    }
  }

  /** What slot s holds after the nodes of a tree have learnt from their outcomes. */
  function Learnt(t: Builder, offset: nat, depth: nat, before: seq<bool>, s: nat): bool
    requires Height(t) <= depth && offset + Pow2(depth + 1) - 1 <= |before| && s < |before|
  {
    if InRange(offset, depth, s) && NodeAt(t, offset, depth, s).Some?
    then var n := NodeAt(t, offset, depth, s).value; AnyAvailable(n.tree, s, n.depth, before)
    else before[s]
  }

  lemma LearntOnLeft(t: Builder, offset: nat, d: nat, before: seq<bool>, between: seq<bool>, s: nat)
    requires t.Decision? && Height(t) <= d && offset + Pow2(d + 1) - 1 <= |before| == |between|
    requires forall u: nat | offset + Pow2(d) <= u < |before| :: between[u] == before[u]
    requires offset + Pow2(d) <= s < |before|
    ensures Learnt(t.left, offset + Pow2(d), d - 1, between, s) == Learnt(t, offset, d, before, s)
  {
    if InRange(offset + Pow2(d), d - 1, s) && NodeAt(t.left, offset + Pow2(d), d - 1, s).Some? {
      var n := NodeAt(t.left, offset + Pow2(d), d - 1, s).value;
      AvailableCongruence(n.tree, s, n.depth, between, before);
    }
  }
}
