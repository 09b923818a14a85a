/** The check of a group-of-pictures table: simulating the coding order until every entry has been seen to work. */
module GopChecker {
  import opened Arithmetic
  import opened StridedBlock
  import opened GopStructure

  /** What is left of a after taking away b as often as possible. */
  function Residue(a: nat, b: nat): nat
    requires b >= 1
  {
    if a < b then a else Residue(a - b, b)
  }

  lemma {:induction false} ResidueIsMod(a: nat, b: nat)
    requires b >= 1
    ensures Residue(a, b) == a % b
  {
    if a < b {
      DivUnique(a, b, 0);
    } else {
      ResidueIsMod(a - b, b);
      var q := (a - b) / b;
      assert a - b == q * b + Residue(a - b, b);
      assert (q + 1) * b == q * b + b;
      DivUnique(a, b, q + 1);
    }
  }

  /** C's remainder: with the sign of the dividend. */
  function Remainder(a: int, b: nat): int
    requires b >= 1
  {
    if a >= 0 then Residue(a, b) else 0 - Residue(-a, b)
  }

  lemma {:induction false} ResidueMeaning(a: nat, b: nat) returns (q: nat)
    requires b >= 1
    ensures a == q * b + Residue(a, b) && Residue(a, b) < b
  {
    q := 0;
    if a >= b {
      var rest := ResidueMeaning(a - b, b);
      q := rest + 1;
    }
  }

  /** What is left after taking away whole multiples: less than b in magnitude, and not of the other sign. */
  lemma RemainderMeaning(a: int, b: nat) returns (q: int)
    requires b >= 1
    ensures a == q * b + Remainder(a, b) && Abs(Remainder(a, b)) < b
    ensures if a >= 0 then Remainder(a, b) >= 0 else Remainder(a, b) <= 0
  {
    if a >= 0 {
      q := ResidueMeaning(a, b);
    } else {
      var wraps: int := ResidueMeaning(-a, b);
      q := -wraps;
    }
  }

  /** `%`. */
  method RemainderOf(a: int, b: nat) returns (r: int)
    requires b >= 1
    ensures r == Remainder(a, b)
  {
    if a >= 0 {
      ResidueIsMod(a, b);
      r := a % b;
    } else {
      ResidueIsMod(-a, b);
      r := -((-a) % b);
    }
  }

  /** The tables agree on everything but the flags: which pictures are referenced, and which are used. */
  ghost predicate SameShape(a: seq<GOPEntry>, b: seq<GOPEntry>, n: nat) {
    n <= |a| && n <= |b| && forall k | 0 <= k < n ::
      && a[k].poc == b[k].poc && a[k].temporalId == b[k].temporalId && a[k].numRefPicsActive == b[k].numRefPicsActive
      && a[k].referencePics == b[k].referencePics && |a[k].used| == |b[k].used| == |b[k].referencePics|
  }

  function CountOK(isOK: seq<bool>): (n: nat)
    ensures n <= |isOK|
  {
    if isOK == [] then 0 else CountOK(isOK[..|isOK| - 1]) + if isOK[|isOK| - 1] then 1 else 0
  }

  lemma {:induction false} CountSet(isOK: seq<bool>, g: nat)
    requires g < |isOK| && !isOK[g]
    ensures CountOK(isOK[g := true]) == CountOK(isOK) + 1
  {
    var n := |isOK| - 1;
    if g < n {
      assert isOK[g := true][..n] == isOK[..n][g := true];
      CountSet(isOK[..n], g);
    } else {
      assert isOK[g := true][..n] == isOK[..n];
    }
  }

  lemma {:induction false} CountAll(isOK: seq<bool>)
    ensures CountOK(isOK) == |isOK| <==> forall g | 0 <= g < |isOK| :: isOK[g]
  {
    if isOK == [] {
    } else {
      CountAll(isOK[..|isOK| - 1]);
    }
  }

  /** Puts a difference and its flag into a list: the search for the place, then one shift to the right. */
  method InsertRef(refs: seq<int>, used: seq<bool>, d: int, u: bool) returns (newRefs: seq<int>, newUsed: seq<bool>)
    requires |refs| == |used|
    ensures newRefs == Inserted(refs, d)
    ensures var p := InsertPoint(refs, d); newUsed == used[..p] + [u] + used[p..]
  {
    var n := |refs|;
    var insertPoint := 0;
    while insertPoint < n && !(refs[insertPoint] < d || refs[insertPoint] > 0)
      invariant 0 <= insertPoint <= n
      invariant forall k | 0 <= k < insertPoint :: !(refs[k] < d || refs[k] > 0)
    {
      insertPoint := insertPoint + 1;
    }
    PointIsFirst(refs, d, insertPoint);
    newRefs := ShiftIn(refs, insertPoint, d, 0);
    newUsed := ShiftIn(used, insertPoint, u, false);
  }

  /** Writes v at position p and moves what was there one place on, over a spare last place. */
  method ShiftIn<T>(s: seq<T>, p: nat, v: T, spare: T) returns (r: seq<T>)
    requires p <= |s|
    ensures r == s[..p] + [v] + s[p..]
  {
    ghost var shifted := s[..p] + [v] + s[p..];
    r := s + [spare];
    var prev := v;
    for j := p to |s| + 1
      invariant |r| == |s| + 1
      invariant forall k | 0 <= k < j :: r[k] == shifted[k]
      invariant forall k | j <= k < |s| :: r[k] == s[k]
      invariant j <= |s| ==> prev == shifted[j]
    {
      var newPrev := r[j];
      r := r[j := prev];
      prev := newPrev;
    }
  }

  lemma PointIsFirst(list: seq<int>, d: int, j: nat)
    requires j <= |list| && (forall k | 0 <= k < j :: !(list[k] < d || list[k] > 0))
    requires j < |list| ==> list[j] < d || list[j] > 0
    ensures InsertPoint(list, d) == j
  {
    InsertPointMeaning(list, d);
    var p := InsertPoint(list, d);
    if p < j {
      assert false;
    } else if j < p {
      assert false;
    }
  }

  lemma SpanIsPositive(a: nat, b: nat)
    requires a >= 1 && b >= 1
    ensures a * b >= 1
  {
    MulMono(1, a, b);
  }

  method CycleOf(n: nat, size: nat) returns (cycle: nat, slot: nat)
    requires size >= 1
    ensures cycle == Cycle(n, size) && slot == Slot(n, size)
  {
    CycleIsDiv(n, size);
    cycle, slot := n / size, n % size;
  }

  method FirstPoc(cycle: nat, span: nat) returns (poc: nat)
    ensures poc == Area(span, cycle)
  {
    AreaIsProduct(span, cycle);
    poc := cycle * span;
  }

  function SetsIn(entries: seq<GOPEntry>): seq<seq<int>> {
    seq(|entries|, i requires 0 <= i < |entries| => entries[i].referencePics)
  }

  lemma SetsInOneMore(entries: seq<GOPEntry>, e: GOPEntry)
    ensures SetsIn(entries + [e]) == SetsIn(entries) + [e.referencePics]
  {
  }

  /** A set's flags when it is made from another: what is taken over keeps its flag, what is added is used. */
  ghost predicate Flagged(refs: seq<int>, used: seq<bool>, newRefs: seq<int>, newUsed: seq<bool>)
    requires |refs| == |used|
  {
    |newUsed| == |newRefs| && forall j | 0 <= j < |newRefs| :: FlagOf(refs, used, newRefs[j], newUsed[j])
  }

  ghost predicate FlagOf(refs: seq<int>, used: seq<bool>, d: int, u: bool)
    requires |refs| == |used|
  {
    if d in refs then exists i :: 0 <= i < |refs| && refs[i] == d && used[i] == u else u
  }

  /** In a set made from one without repetition, what is taken over has the flag it had, and what is added is used. */
  lemma FlagsMeaning(refs: seq<int>, used: seq<bool>, newRefs: seq<int>, newUsed: seq<bool>, j: nat)
    requires |refs| == |used| && Flagged(refs, used, newRefs, newUsed) && Distinct(refs) && j < |newRefs|
    ensures newRefs[j] !in refs ==> newUsed[j]
    ensures forall i | 0 <= i < |refs| && refs[i] == newRefs[j] :: newUsed[j] == used[i]
  {
    assert FlagOf(refs, used, newRefs[j], newUsed[j]);
  }

  lemma InsertedIsFlagged(refs: seq<int>, used: seq<bool>, r: seq<int>, u: seq<bool>, d: int)
    requires |refs| == |used| && Flagged(refs, used, r, u) && d !in refs
    ensures var p := InsertPoint(r, d); Flagged(refs, used, Inserted(r, d), u[..p] + [true] + u[p..])
  {
    var p := InsertPoint(r, d);
    var v := u[..p] + [true] + u[p..];
    forall j | 0 <= j < |r| + 1
      ensures FlagOf(refs, used, Inserted(r, d)[j], v[j])
    {
      if j != p {
        var i := if j < p then j else j - 1;
        assert Inserted(r, d)[j] == r[i] && v[j] == u[i];
      }
    }
  }

  /** Filling up what is available of a set flags it as made from the whole set. */
  lemma FilledIsFlagged(gop: Gop, n: nat, poc: int, temporalId: nat, enough: int, refList: seq<int>, refs: seq<int>, used: seq<bool>,
                        a: seq<int>, aUsed: seq<bool>, newUsed: seq<bool>)
    requires gop.Valid() && |refs| == |used| && a == Available(refs, poc) && Flagged(refs, used, a, aUsed)
    requires Flagged(a, aUsed, Filled(gop, n, poc, temporalId, enough, refList, a), newUsed)
    ensures Flagged(refs, used, Filled(gop, n, poc, temporalId, enough, refList, a), newUsed)
  {
    var newRefs := Filled(gop, n, poc, temporalId, enough, refList, a);
    forall j | 0 <= j < |newRefs|
      ensures FlagOf(refs, used, newRefs[j], newUsed[j])
    {
      var d := newRefs[j];
      assert FlagOf(a, aUsed, d, newUsed[j]);
      if d in a {
        var i :| 0 <= i < |a| && a[i] == d && aUsed[i] == newUsed[j];
        assert FlagOf(refs, used, a[i], aUsed[i]);
      } else {
        FilledIsAvailable(gop, n, poc, temporalId, enough, refList, a, d);
        AvailableMembers(refs, poc, d);
      }
    }
  }

  // ---- Marks in the table ----

  /** Entry k stands for the picture with POC p, in whichever GOP. */
  predicate Stands(gop: Gop, k: nat, p: int)
    requires gop.Valid() && k < gop.size
  {
    Remainder(p, gop.span) == Remainder(gop.table[k].poc, gop.span)
  }

  /** Whether a picture of this temporal layer uses the one with POC p: the last of the first n entries that stand for it says. */
  function Verdict(gop: Gop, n: nat, p: int, temporalId: nat, otherwise: bool): bool
    requires gop.Valid() && n <= gop.size
  {
    if n == 0 then otherwise
    else if Stands(gop, n - 1, p) then gop.table[n - 1].temporalId <= temporalId
    else Verdict(gop, n - 1, p, temporalId, otherwise)
  }

  /** Entry k decides if it stands for the picture and none behind it does; if none at all does, nothing changes. */
  lemma {:induction false} VerdictMeaning(gop: Gop, n: nat, p: int, temporalId: nat, otherwise: bool, k: nat)
    requires gop.Valid() && n <= gop.size
    ensures (forall j | 0 <= j < n :: !Stands(gop, j, p)) ==> Verdict(gop, n, p, temporalId, otherwise) == otherwise
    ensures k < n && Stands(gop, k, p) && (forall j | k < j < n :: !Stands(gop, j, p)) ==>
      Verdict(gop, n, p, temporalId, otherwise) == (gop.table[k].temporalId <= temporalId)
  {
    if n > 0 && !Stands(gop, n - 1, p) {
      VerdictMeaning(gop, n - 1, p, temporalId, otherwise, k);
    }
  }

  /**
   * The marks n entries get when reference picture i of entry cur, with POC p, is found: those of cur's temporal layer
   * that stand for it are referenced, and cur uses it if the last that stands for it is in no higher layer.
   */
  ghost predicate Marked(gop: Gop, before: seq<GOPEntry>, after: seq<GOPEntry>, cur: nat, i: nat, p: int, n: nat)
    requires gop.Valid() && n <= gop.size
    requires gop.size <= |before| && gop.size <= |after| && cur < gop.size && i < |before[cur].used|
  {
    forall k | 0 <= k < gop.size ::
      && after[k].refPic
         == (before[k].refPic || (k < n && gop.table[k].temporalId == gop.table[cur].temporalId && Stands(gop, k, p)))
      && after[k].used
         == if k == cur then before[k].used[i := Verdict(gop, n, p, gop.table[cur].temporalId, before[k].used[i])]
            else before[k].used
  }

  /** Entry k gets referenced by one of the first n reference pictures of entry cur: it is found, and k stands for it. */
  predicate Referenced(gop: Gop, cur: nat, poc: int, refList: seq<int>, n: nat, k: nat)
    requires gop.Valid() && cur < gop.size && k < gop.size && n <= |gop.table[cur].referencePics|
  {
    && gop.table[k].temporalId == gop.table[cur].temporalId
    && exists i :: 0 <= i < n && Found(gop, cur, poc, refList, i) && Stands(gop, k, poc + gop.table[cur].referencePics[i])
  }

  /** Reference picture i of entry cur is in the list. */
  predicate Found(gop: Gop, cur: nat, poc: int, refList: seq<int>, i: nat)
    requires gop.Valid() && cur < gop.size && i < |gop.table[cur].referencePics|
  {
    poc + gop.table[cur].referencePics[i] >= 0 && poc + gop.table[cur].referencePics[i] in refList
  }

  /** The flag of reference picture i of entry cur once it has been looked for. */
  function Flag(gop: Gop, cur: nat, poc: int, refList: seq<int>, i: nat, otherwise: bool): bool
    requires gop.Valid() && cur < gop.size && i < |gop.table[cur].referencePics|
  {
    if Found(gop, cur, poc, refList, i)
    then Verdict(gop, gop.size, poc + gop.table[cur].referencePics[i], gop.table[cur].temporalId, otherwise)
    else otherwise
  }

  /** The marks after the first n reference pictures of entry cur have been looked for. */
  ghost predicate Noted(gop: Gop, before: seq<GOPEntry>, after: seq<GOPEntry>, cur: nat, poc: int, refList: seq<int>, n: nat)
    requires gop.Valid() && cur < gop.size && n <= |gop.table[cur].referencePics|
    requires SameShape(before, gop.table, gop.size) && SameShape(after, gop.table, gop.size)
  {
    && (forall k | 0 <= k < gop.size :: after[k].refPic == (before[k].refPic || Referenced(gop, cur, poc, refList, n, k)))
    && (forall k | 0 <= k < gop.size && k != cur :: after[k].used == before[k].used)
    && (forall i | 0 <= i < |before[cur].used| ::
          after[cur].used[i] == if i < n then Flag(gop, cur, poc, refList, i, before[cur].used[i]) else before[cur].used[i])
  }

  lemma NotedOneMore(gop: Gop, before: seq<GOPEntry>, between: seq<GOPEntry>, after: seq<GOPEntry>, cur: nat, poc: int,
                     refList: seq<int>, i: nat)
    requires gop.Valid() && cur < gop.size && i < |gop.table[cur].referencePics|
    requires SameShape(before, gop.table, gop.size) && SameShape(between, gop.table, gop.size) && SameShape(after, gop.table, gop.size)
    requires Noted(gop, before, between, cur, poc, refList, i)
    requires if Found(gop, cur, poc, refList, i)
             then Marked(gop, between, after, cur, i, poc + gop.table[cur].referencePics[i], gop.size) else after == between
    ensures Noted(gop, before, after, cur, poc, refList, i + 1)
  {
    forall k | 0 <= k < gop.size
      ensures after[k].refPic == (before[k].refPic || Referenced(gop, cur, poc, refList, i + 1, k))
    {
      ReferencedOneMore(gop, cur, poc, refList, i, k);
    }
  }

  lemma ReferencedOneMore(gop: Gop, cur: nat, poc: int, refList: seq<int>, i: nat, k: nat)
    requires gop.Valid() && cur < gop.size && k < gop.size && i < |gop.table[cur].referencePics|
    ensures var now := gop.table[k].temporalId == gop.table[cur].temporalId && Found(gop, cur, poc, refList, i)
                       && Stands(gop, k, poc + gop.table[cur].referencePics[i]);
      Referenced(gop, cur, poc, refList, i + 1, k) <==> Referenced(gop, cur, poc, refList, i, k) || now
  {
  }

  /** Entry k gets referenced while the set of a picture at position cur is filled up: one of its pictures is added. */
  predicate FilledRefers(gop: Gop, m: nat, poc: int, cur: nat, refList: seq<int>, list: seq<int>, k: nat)
    requires gop.Valid() && cur < gop.size && k < gop.size
    decreases m
  {
    m > 0
    && var e := gop.table[cur];
       var next := FilledStep(gop, m - 1, poc, e.temporalId, refList, list);
       || (Useful(gop, m - 1, poc, e.temporalId, refList, list) && k == Slot(m - 1, gop.size) && gop.table[k].temporalId == e.temporalId)
       || (|next| < e.numRefPicsActive && FilledRefers(gop, m - 1, poc, cur, refList, next, k))
  }

  /** While a set is filled up, with pictures m - 1 down to 0 still to come: the marks made and to be made are those of it all. */
  ghost predicate Filling(gop: Gop, before: seq<GOPEntry>, now: seq<GOPEntry>, n: nat, m: nat, poc: int, cur: nat,
                          refList: seq<int>, refs: seq<int>, list: seq<int>)
    requires gop.Valid() && cur < gop.size && gop.size <= |before| && gop.size <= |now|
  {
    forall k | 0 <= k < gop.size ::
      && now[k].used == before[k].used
      && (now[k].refPic || FilledRefers(gop, m, poc, cur, refList, list, k))
         == (before[k].refPic || FilledRefers(gop, n, poc, cur, refList, refs, k))
  }

  lemma FillingNext(gop: Gop, before: seq<GOPEntry>, between: seq<GOPEntry>, now: seq<GOPEntry>, n: nat, m: nat, poc: int, cur: nat,
                    refList: seq<int>, refs: seq<int>, list: seq<int>, next: seq<int>)
    requires gop.Valid() && cur < gop.size && gop.size <= |before| && gop.size <= |between| && gop.size <= |now| && m > 0
    requires Filling(gop, before, between, n, m, poc, cur, refList, refs, list)
    requires next == FilledStep(gop, m - 1, poc, gop.table[cur].temporalId, refList, list)
    requires forall k | 0 <= k < gop.size ::
      && now[k].used == between[k].used
      && now[k].refPic
         == (between[k].refPic
             || (Useful(gop, m - 1, poc, gop.table[cur].temporalId, refList, list) && k == Slot(m - 1, gop.size)
                 && gop.table[k].temporalId == gop.table[cur].temporalId))
    ensures Filling(gop, before, now, n, if |next| >= gop.table[cur].numRefPicsActive then 0 else m - 1, poc, cur, refList, refs, next)
  {
    forall k | 0 <= k < gop.size
      ensures (now[k].refPic
               || FilledRefers(gop, if |next| >= gop.table[cur].numRefPicsActive then 0 else m - 1, poc, cur, refList, next, k))
           == (between[k].refPic || FilledRefers(gop, m, poc, cur, refList, list, k))
    {
    }
  }

  /** What references an entry that way: a picture coded before, of the same layer, that filling up adds to the set. */
  lemma {:induction false} FilledRefersMeaning(gop: Gop, m: nat, poc: int, cur: nat, refList: seq<int>, list: seq<int>, k: nat)
    returns (j: nat)
    requires gop.Valid() && cur < gop.size && k < gop.size && FilledRefers(gop, m, poc, cur, refList, list, k)
    ensures j < m && Slot(j, gop.size) == k && gop.table[k].temporalId == gop.table[cur].temporalId
    ensures PocOf(gop, j) - poc !in list
    ensures PocOf(gop, j) - poc in Filled(gop, m, poc, gop.table[cur].temporalId, gop.table[cur].numRefPicsActive, refList, list)
    decreases m
  {
    var e := gop.table[cur];
    var next := FilledStep(gop, m - 1, poc, e.temporalId, refList, list);
    OneFilled(gop, m, poc, e.temporalId, e.numRefPicsActive, refList, list, next);
    if Useful(gop, m - 1, poc, e.temporalId, refList, list) && k == Slot(m - 1, gop.size) && gop.table[k].temporalId == e.temporalId {
      j := m - 1;
      AddedStays(gop, j, poc, e.temporalId, e.numRefPicsActive, refList, list, next);
    } else {
      j := FilledRefersMeaning(gop, m - 1, poc, cur, refList, next, k);
      StepMembers(gop, m - 1, poc, e.temporalId, refList, list, PocOf(gop, j) - poc);
    }
  }

  lemma AddedStays(gop: Gop, j: nat, poc: int, temporalId: nat, enough: int, refList: seq<int>, list: seq<int>, next: seq<int>)
    requires gop.Valid() && Useful(gop, j, poc, temporalId, refList, list) && next == FilledStep(gop, j, poc, temporalId, refList, list)
    ensures PocOf(gop, j) - poc in next && PocOf(gop, j) - poc in Filled(gop, j, poc, temporalId, enough, refList, next)
  {
    InsertedMembers(list, PocOf(gop, j) - poc, PocOf(gop, j) - poc);
    FilledLosesNone(gop, j, poc, temporalId, enough, refList, next, PocOf(gop, j) - poc);
  }

  /** Entry k gets referenced while a picture with this entry and POC is coded as picture n. */
  predicate StepRefers(gop: Gop, n: nat, cur: nat, poc: int, refList: seq<int>, complete: bool, k: nat)
    requires gop.Valid() && cur < gop.size && k < gop.size
  {
    var refs := gop.table[cur].referencePics;
    || Referenced(gop, cur, poc, refList, |refs|, k)
    || (!complete && FilledRefers(gop, n, poc, cur, refList, Available(refs, poc), k))
  }

  /** The marks coding picture n leaves in the table. */
  ghost predicate StepMarks(gop: Gop, before: seq<GOPEntry>, after: seq<GOPEntry>, n: nat, cur: nat, poc: int, refList: seq<int>,
                            complete: bool)
    requires gop.Valid() && cur < gop.size
    requires SameShape(before, gop.table, gop.size) && SameShape(after, gop.table, gop.size)
  {
    forall k | 0 <= k < gop.size ::
      && after[k].refPic == (before[k].refPic || StepRefers(gop, n, cur, poc, refList, complete, k))
      && forall i | 0 <= i < |before[k].used| ::
           after[k].used[i] == if k == cur then Flag(gop, k, poc, refList, i, before[k].used[i]) else before[k].used[i]
  }

  /** Entry k is marked as referenced after n pictures. */
  predicate RefPicAt(gop: Gop, field: bool, n: nat, k: nat)
    requires gop.Valid() && k < gop.size
  {
    if n == 0 then gop.table[k].refPic
    else
      var refList := RefListAt(gop, field, n - 1);
      || RefPicAt(gop, field, n - 1, k)
      || (EntryOf(gop, n - 1).poc >= 0
          && StepRefers(gop, n - 1, Slot(n - 1, gop.size), PocOf(gop, n - 1), refList, Complete(gop, n - 1, refList), k))
  }

  /** The flag of reference picture i of entry k after n pictures. */
  function UsedAt(gop: Gop, field: bool, n: nat, k: nat, i: nat): bool
    requires gop.Valid() && k < gop.size && i < |gop.table[k].referencePics|
  {
    if n == 0 then gop.table[k].used[i]
    else
      var before := UsedAt(gop, field, n - 1, k, i);
      if k == Slot(n - 1, gop.size) && EntryOf(gop, n - 1).poc >= 0
      then Flag(gop, k, PocOf(gop, n - 1), RefListAt(gop, field, n - 1), i, before) else before
  }

  /** The table carries the marks of n pictures. */
  ghost predicate HoldsMarks(gop: Gop, field: bool, list: seq<GOPEntry>, n: nat)
    requires gop.Valid() && SameShape(list, gop.table, gop.size)
  {
    forall k | 0 <= k < gop.size ::
      && list[k].refPic == RefPicAt(gop, field, n, k)
      && forall i | 0 <= i < |list[k].used| :: list[k].used[i] == UsedAt(gop, field, n, k, i)
  }

  lemma MarksNext(gop: Gop, field: bool, before: seq<GOPEntry>, after: seq<GOPEntry>, n: nat, n1: nat, cur: nat, poc: int,
                  refList: seq<int>, complete: bool)
    requires gop.Valid() && n1 == n + 1 && cur == Slot(n, gop.size) && poc == PocOf(gop, n) && EntryOf(gop, n).poc >= 0
    requires refList == RefListAt(gop, field, n) && complete == Complete(gop, n, refList)
    requires SameShape(before, gop.table, gop.size) && SameShape(after, gop.table, gop.size)
    requires HoldsMarks(gop, field, before, n) && StepMarks(gop, before, after, n, cur, poc, refList, complete)
    ensures HoldsMarks(gop, field, after, n1)
  {
    forall k | 0 <= k < gop.size
      ensures after[k].refPic == RefPicAt(gop, field, n1, k)
      ensures forall i | 0 <= i < |after[k].used| :: after[k].used[i] == UsedAt(gop, field, n1, k, i)
    {
      RefPicNext(gop, field, n, n1, k);
      forall i | 0 <= i < |after[k].used|
        ensures after[k].used[i] == UsedAt(gop, field, n1, k, i)
      {
        UsedNext(gop, field, n, n1, k, i);
      }
    }
  }

  lemma RefPicNext(gop: Gop, field: bool, n: nat, n1: nat, k: nat)
    requires gop.Valid() && k < gop.size && n1 == n + 1 && EntryOf(gop, n).poc >= 0
    ensures var refList := RefListAt(gop, field, n);
      RefPicAt(gop, field, n1, k)
      == (RefPicAt(gop, field, n, k)
          || StepRefers(gop, n, Slot(n, gop.size), PocOf(gop, n), refList, Complete(gop, n, refList), k))
  {
  }

  lemma UsedNext(gop: Gop, field: bool, n: nat, n1: nat, k: nat, i: nat)
    requires gop.Valid() && k < gop.size && n1 == n + 1 && EntryOf(gop, n).poc >= 0 && i < |gop.table[k].referencePics|
    ensures UsedAt(gop, field, n1, k, i)
         == if k == Slot(n, gop.size) then Flag(gop, k, PocOf(gop, n), RefListAt(gop, field, n), i, UsedAt(gop, field, n, k, i))
            else UsedAt(gop, field, n, k, i)
  {
  }

  /** A picture without an entry leaves no marks. */
  lemma NoMarks(gop: Gop, field: bool, list: seq<GOPEntry>, n: nat, n1: nat)
    requires gop.Valid() && n1 == n + 1 && EntryOf(gop, n).poc < 0
    requires SameShape(list, gop.table, gop.size) && HoldsMarks(gop, field, list, n)
    ensures HoldsMarks(gop, field, list, n1)
  {
  }

  class GopChecker {
    const size: nat
    /** By how much POCs rise from one GOP to the next: the GOP size times the multiple factor. */
    const span: nat
    const isField: bool
    /** The table, and behind it the entries made for pictures that cannot use theirs. */
    var gopList: seq<GOPEntry>
    var extraRPSs: nat

    constructor (table: seq<GOPEntry>, multipleFactor: nat, field: bool)
      requires |table| >= 1 && multipleFactor >= 1 && forall k | 0 <= k < |table| :: |table[k].referencePics| == |table[k].used|
      ensures size == |table| && span == |table| * multipleFactor && isField == field && gopList == table && extraRPSs == 0
      ensures Checks(Gop(size, span, table))
    {
      SpanIsPositive(|table|, multipleFactor);
      size, span, isField := |table|, |table| * multipleFactor, field;
      gopList, extraRPSs := table, 0;
    }

    /** The object checks this table. */
    ghost predicate Checks(gop: Gop)
      reads this
    {
      && gop.Valid() && |gop.table| == size == gop.size && span == gop.span
      && |gopList| == size + extraRPSs && SameShape(gopList, gop.table, size)
    }

    /** Table position and POC of picture n, as the loop computes them. */
    method Position(ghost gop: Gop, n: nat) returns (curGOP: nat, curPOC: int)
      requires Checks(gop)
      ensures curGOP == Slot(n, size) && curPOC == PocOf(gop, n)
    {
      var cycle;
      cycle, curGOP := CycleOf(n, size);
      var base := FirstPoc(cycle, span);
      curPOC := base + gopList[curGOP].poc;
    }

    /** Notes in the table that reference picture i of entry cur has been found: its POC is absPOC. */
    method MarkRef(ghost gop: Gop, cur: nat, i: nat, absPOC: int)
      requires Checks(gop) && cur < size && i < |gopList[cur].referencePics|
      modifies this`gopList
      ensures Checks(gop) && gopList[size..] == old(gopList[size..])
      ensures Marked(gop, old(gopList), gopList, cur, i, absPOC, size)
    {
      ghost var before := gopList;
      for k := 0 to size
        invariant Checks(gop) && gopList[size..] == before[size..]
        invariant Marked(gop, before, gopList, cur, i, absPOC, k)
      {
        MarkEntry(gop, cur, i, absPOC, k);
      }
    }

    /** The marks of one entry. */
    method MarkEntry(ghost gop: Gop, cur: nat, i: nat, absPOC: int, k: nat)
      requires Checks(gop) && cur < size && i < |gopList[cur].referencePics| && k < size
      modifies this`gopList
      ensures Checks(gop) && gopList[size..] == old(gopList[size..])
      ensures forall j | 0 <= j < size ::
        && gopList[j].refPic
           == (old(gopList[j].refPic) || (j == k && gop.table[j].temporalId == gop.table[cur].temporalId && Stands(gop, k, absPOC)))
        && gopList[j].used
           == if j == cur && Stands(gop, k, absPOC)
              then old(gopList[j].used)[i := gop.table[k].temporalId <= gop.table[cur].temporalId] else old(gopList[j].used)
    {
      var own := RemainderOf(absPOC, span);
      var entrys := RemainderOf(gopList[k].poc, span);
      if own == entrys {
        if gopList[k].temporalId == gopList[cur].temporalId {
          gopList := gopList[k := gopList[k].(refPic := true)];
        }
        gopList := gopList[cur := gopList[cur].(used := gopList[cur].used[i := gopList[k].temporalId <= gopList[cur].temporalId])];
      }
    }

    /** Looks for the reference pictures of entry cur; notes those found. */
    method CheckRefs(ghost gop: Gop, cur: nat, curPOC: int, refList: seq<int>) returns (beforeI: bool, missing: bool)
      requires Checks(gop) && cur < size
      modifies this`gopList
      ensures Checks(gop) && gopList[size..] == old(gopList[size..])
      ensures Noted(gop, old(gopList), gopList, cur, curPOC, refList, |gop.table[cur].referencePics|)
      ensures beforeI == BeforeI(gop.table[cur].referencePics, curPOC)
      ensures missing == Missing(gop.table[cur].referencePics, curPOC, refList)
    {
      beforeI, missing := false, false;
      ghost var before := gopList;
      for i := 0 to |gopList[cur].referencePics|
        invariant Checks(gop) && gopList[size..] == before[size..]
        invariant Noted(gop, before, gopList, cur, curPOC, refList, i)
        invariant beforeI == BeforeI(gop.table[cur].referencePics[..i], curPOC)
        invariant missing == Missing(gop.table[cur].referencePics[..i], curPOC, refList)
      {
        ghost var between := gopList;
        var absPOC := curPOC + gopList[cur].referencePics[i];
        if absPOC < 0 {
          beforeI := true;
        } else if absPOC in refList {
          MarkRef(gop, cur, i, absPOC);
        } else {
          missing := true;
        }
        NotedOneMore(gop, before, between, gopList, cur, curPOC, refList, i);
        OneMoreRef(gop.table[cur].referencePics, i, curPOC, refList);
      }
      assert gop.table[cur].referencePics[..|gop.table[cur].referencePics|] == gop.table[cur].referencePics;
    }

    static lemma OneMoreRef(refs: seq<int>, i: nat, poc: int, refList: seq<int>)
      requires i < |refs|
      ensures BeforeI(refs[..i + 1], poc) <==> BeforeI(refs[..i], poc) || poc + refs[i] < 0
      ensures Missing(refs[..i + 1], poc, refList) <==> Missing(refs[..i], poc, refList) || (poc + refs[i] >= 0 && poc + refs[i] !in refList)
    {
      var a, b := refs[..i], refs[..i + 1];
      forall k: nat | k < i ensures RefPoc(b, poc, k) == RefPoc(a, poc, k) {
      }
      assert RefPoc(b, poc, i) == poc + refs[i];
    }

    /** The reference pictures that are available at all, with their flags. */
    method TakeAvailable(refs: seq<int>, used: seq<bool>, poc: int) returns (newRefs: seq<int>, newUsed: seq<bool>)
      requires |refs| == |used|
      ensures newRefs == Available(refs, poc) && Flagged(refs, used, newRefs, newUsed)
    {
      newRefs, newUsed := [], [];
      for i := 0 to |refs|
        invariant newRefs == Available(refs[..i], poc) && Flagged(refs, used, newRefs, newUsed)
      {
        if poc + refs[i] >= 0 {
          assert FlagOf(refs, used, refs[i], used[i]);
          newRefs, newUsed := newRefs + [refs[i]], newUsed + [used[i]];
        }
        assert refs[..i + 1][..i] == refs[..i];
      }
      assert refs[..|refs|] == refs;
    }

    /** Steps backwards through the pictures coded before picture n and adds useful ones until there are enough. */
    method FillUp(ghost gop: Gop, n: nat, curGOP: nat, curPOC: int, refList: seq<int>, refs: seq<int>, used: seq<bool>)
      returns (newRefs: seq<int>, newUsed: seq<bool>)
      requires Checks(gop) && curGOP < size && |refs| == |used|
      modifies this`gopList
      ensures Checks(gop) && gopList[size..] == old(gopList[size..])
      ensures newRefs == Filled(gop, n, curPOC, gop.table[curGOP].temporalId, gop.table[curGOP].numRefPicsActive, refList, refs)
      ensures Flagged(refs, used, newRefs, newUsed)
      ensures forall k | 0 <= k < size ::
        && gopList[k].used == old(gopList[k].used)
        && gopList[k].refPic == (old(gopList[k].refPic) || FilledRefers(gop, n, curPOC, curGOP, refList, refs, k))
    {
      ghost var before := gopList;
      ghost var temporalId, enough := gop.table[curGOP].temporalId, gop.table[curGOP].numRefPicsActive;
      ghost var all := Filled(gop, n, curPOC, temporalId, enough, refList, refs);
      newRefs, newUsed := refs, used;
      var m, done := n, false;
      while m > 0 && !done
        invariant 0 <= m <= n && Checks(gop) && gopList[size..] == old(gopList[size..])
        invariant Grown(refs, used, newRefs, newUsed)
        invariant if done then newRefs == all else Filled(gop, m, curPOC, temporalId, enough, refList, newRefs) == all
        invariant Filling(gop, before, gopList, n, if done then 0 else m, curPOC, curGOP, refList, refs, newRefs)
        decreases m, !done
      {
        m := m - 1;
        ghost var between, list := gopList, newRefs;
        newRefs, newUsed := Consider(gop, m, curGOP, curPOC, refList, newRefs, newUsed, refs, used);
        done := |newRefs| >= gopList[curGOP].numRefPicsActive;
        FillingNext(gop, before, between, gopList, n, m + 1, curPOC, curGOP, refList, refs, list, newRefs);
      }
    }

    /** A set that has been added to. */
    ghost predicate Grown(refs: seq<int>, used: seq<bool>, newRefs: seq<int>, newUsed: seq<bool>)
      requires |refs| == |used|
    {
      Flagged(refs, used, newRefs, newUsed) && forall d | d in refs :: d in newRefs
    }

    /** Adds picture m if it is useful. */
    method Consider(ghost gop: Gop, m: nat, curGOP: nat, curPOC: int, refList: seq<int>, refs: seq<int>, used: seq<bool>,
                    ghost first: seq<int>, ghost firstUsed: seq<bool>)
      returns (newRefs: seq<int>, newUsed: seq<bool>)
      requires Checks(gop) && curGOP < size && |first| == |firstUsed| && Grown(first, firstUsed, refs, used)
      modifies this`gopList
      ensures Checks(gop) && gopList[size..] == old(gopList[size..]) && Grown(first, firstUsed, newRefs, newUsed)
      ensures newRefs == FilledStep(gop, m, curPOC, gop.table[curGOP].temporalId, refList, refs)
      ensures forall k | 0 <= k < size ::
        && gopList[k].used == old(gopList[k].used)
        && gopList[k].refPic
           == (old(gopList[k].refPic)
               || (Useful(gop, m, curPOC, gop.table[curGOP].temporalId, refList, refs) && k == Slot(m, size)
                   && gop.table[k].temporalId == gop.table[curGOP].temporalId))
    {
      newRefs, newUsed := refs, used;
      var offGOP, offPOC := Position(gop, m);
      if offPOC >= 0 && gopList[offGOP].temporalId <= gopList[curGOP].temporalId {
        if offPOC in refList && offPOC - curPOC !in newRefs {
          newRefs, newUsed := AddPicture(gop, offGOP, curGOP, offPOC - curPOC, refs, used, first, firstUsed);
        }
      }
    }

    /** Adds an entry's picture, d away, to the set. */
    method AddPicture(ghost gop: Gop, offGOP: nat, curGOP: nat, d: int, refs: seq<int>, used: seq<bool>,
                      ghost first: seq<int>, ghost firstUsed: seq<bool>)
      returns (newRefs: seq<int>, newUsed: seq<bool>)
      requires Checks(gop) && offGOP < size && curGOP < size && gop.table[offGOP].temporalId <= gop.table[curGOP].temporalId
      requires |first| == |firstUsed| && Grown(first, firstUsed, refs, used) && d !in refs
      modifies this`gopList
      ensures Checks(gop) && gopList[size..] == old(gopList[size..])
      ensures Grown(first, firstUsed, newRefs, newUsed) && newRefs == Inserted(refs, d)
      ensures forall k | 0 <= k < size ::
        && gopList[k].used == old(gopList[k].used)
        && gopList[k].refPic
           == (old(gopList[k].refPic) || (k == offGOP && gop.table[k].temporalId == gop.table[curGOP].temporalId))
    {
      var u := gopList[offGOP].temporalId <= gopList[curGOP].temporalId;
      ReferTo(gop, offGOP, curGOP);
      newRefs, newUsed := InsertRef(refs, used, d, u);
      InsertedIsFlagged(first, firstUsed, refs, used, d);
      InsertedKeepsAll(refs, d, first);
    }

    /** Notes that an entry of the same temporal layer is referenced. */
    method ReferTo(ghost gop: Gop, offGOP: nat, curGOP: nat)
      requires Checks(gop) && offGOP < size && curGOP < size
      modifies this`gopList
      ensures Checks(gop) && gopList[size..] == old(gopList[size..])
      ensures forall k | 0 <= k < size ::
        && gopList[k].used == old(gopList[k].used)
        && gopList[k].refPic
           == (old(gopList[k].refPic) || (k == offGOP && gop.table[k].temporalId == gop.table[curGOP].temporalId))
    {
      if gopList[offGOP].temporalId == gopList[curGOP].temporalId {
        gopList := gopList[offGOP := gopList[offGOP].(refPic := true)];
      }
    }

    static lemma InsertedKeepsAll(list: seq<int>, d: int, first: seq<int>)
      requires forall e | e in first :: e in list
      ensures forall e | e in first :: e in Inserted(list, d)
    {
      forall e | e in first
        ensures e in Inserted(list, d)
      {
        InsertedMembers(list, d, e);
      }
    }

    /** Codes for predicting a set of picture curPOC from the last extra entry. */
    method PredictFrom(from: GOPEntry, curPOC: int, refs: seq<int>, used: seq<bool>) returns (idc: seq<nat>)
      requires |refs| == |used|
      ensures idc == IdcsOf(refs, used, Candidates(from.referencePics, from.poc - curPOC))
    {
      ghost var all := IdcsOf(refs, used, Candidates(from.referencePics, from.poc - curPOC));
      idc := [];
      for i := 0 to |from.referencePics| + 1
        invariant idc == all[..i]
      {
        var deltaPOC := if i != |from.referencePics| then from.referencePics[i] else 0;
        var absPOCref := from.poc + deltaPOC;
        var refIdc := 0;
        for j := 0 to |refs|
          invariant refIdc == IdcOf(refs[..j], used[..j], absPOCref - curPOC)
        {
          if absPOCref - curPOC == refs[j] {
            refIdc := if used[j] then 1 else 2;
          }
          assert refs[..j + 1][..j] == refs[..j] && used[..j + 1][..j] == used[..j];
        }
        assert refs[..|refs|] == refs && used[..|refs|] == used;
        idc := idc + [refIdc];
      }
    }

    /** The reference pictures of the entry to make, with their flags. */
    method ExtraRefs(ghost gop: Gop, n: nat, curGOP: nat, curPOC: int, refList: seq<int>) returns (refs: seq<int>, used: seq<bool>)
      requires Checks(gop) && curGOP == Slot(n, size) && curPOC == PocOf(gop, n) && !Complete(gop, n, refList)
      modifies this`gopList
      ensures Checks(gop) && gopList[size..] == old(gopList[size..])
      ensures refs == RefsOf(gop, n, refList)
      ensures Flagged(gop.table[curGOP].referencePics, old(gopList[curGOP].used), refs, used)
      ensures forall k | 0 <= k < size ::
        && gopList[k].used == old(gopList[k].used)
        && gopList[k].refPic
           == (old(gopList[k].refPic)
               || FilledRefers(gop, n, curPOC, curGOP, refList, Available(gop.table[curGOP].referencePics, curPOC), k))
    {
      ghost var e, was := gop.table[curGOP], gopList[curGOP].used;
      var some, someUsed := TakeAvailable(gopList[curGOP].referencePics, gopList[curGOP].used, curPOC);
      refs, used := FillUp(gop, n, curGOP, curPOC, refList, some, someUsed);
      FilledIsFlagged(gop, n, curPOC, e.temporalId, e.numRefPicsActive, refList, e.referencePics, was, some, someUsed, used);
    }

    /** Makes an entry for picture n with the reference pictures that are available and others instead of those that are not. */
    method MakeExtra(ghost gop: Gop, n: nat, curGOP: nat, curPOC: int, refList: seq<int>)
      requires Checks(gop) && curGOP == Slot(n, size) && curPOC == PocOf(gop, n) && !Complete(gop, n, refList)
      modifies this`gopList, this`extraRPSs
      ensures Checks(gop) && extraRPSs == old(extraRPSs) + 1
      ensures gopList[size..] == old(gopList[size..]) + [gopList[size + old(extraRPSs)]]
      ensures var e := gopList[size + old(extraRPSs)];
        && e.poc == curPOC && e.referencePics == RefsOf(gop, n, refList)
        && Flagged(gop.table[curGOP].referencePics, old(gopList[curGOP].used), e.referencePics, e.used)
        && e.interRPSPrediction == (old(extraRPSs) > 0)
        && (old(extraRPSs) > 0 ==>
              var from := old(gopList[|gopList| - 1]);
              && e.deltaRPS == from.poc - curPOC
              && e.refIdc == IdcsOf(e.referencePics, e.used, Candidates(from.referencePics, e.deltaRPS)))
      ensures forall k | 0 <= k < size ::
        && gopList[k].used == old(gopList[k].used)
        && gopList[k].refPic
           == (old(gopList[k].refPic)
               || FilledRefers(gop, n, curPOC, curGOP, refList, Available(gop.table[curGOP].referencePics, curPOC), k))
    {
      ghost var extras := gopList[size..];
      var entry := gopList[curGOP];
      var refs, used := ExtraRefs(gop, n, curGOP, curPOC, refList);
      entry := entry.(referencePics := refs, used := used, poc := curPOC);
      if extraRPSs == 0 {
        entry := entry.(interRPSPrediction := false, refIdc := []);
      } else {
        var from := gopList[size + extraRPSs - 1];
        assert from == extras[extraRPSs - 1];
        var idc := PredictFrom(from, curPOC, refs, used);
        entry := entry.(interRPSPrediction := true, refIdc := idc, deltaRPS := from.poc - curPOC);
      }
      gopList := gopList + [entry];
      extraRPSs := extraRPSs + 1;
    }

    /** The pictures kept for the next one. */
    method KeepRefs(refs: seq<int>, curPOC: int) returns (refList: seq<int>)
      ensures refList == Kept(refs, curPOC)
    {
      refList := [];
      for i := 0 to |refs|
        invariant refList == (var a := Available(refs[..i], curPOC); seq(|a|, j requires 0 <= j < |a| => curPOC + a[j]))
      {
        var absPOC := curPOC + refs[i];
        if absPOC >= 0 {
          refList := refList + [absPOC];
        }
        assert refs[..i + 1][..i] == refs[..i];
      }
      assert refs[..|refs|] == refs;
      refList := refList + [curPOC];
    }

    /** The extra entries hold the sets made so far. */
    ghost predicate HoldsExtras(gop: Gop, n: nat)
      requires gop.Valid()
      reads this
    {
      |gopList| == size + extraRPSs && SetsIn(gopList[size..]) == ExtraSets(gop, isField, n)
    }

    /** Makes the entry and knows it as the next of the extra sets. */
    method RecordExtra(ghost gop: Gop, n: nat, curGOP: nat, curPOC: int, refList: seq<int>)
      requires Checks(gop) && curGOP == Slot(n, size) && curPOC == PocOf(gop, n) && refList == RefListAt(gop, isField, n)
      requires !Complete(gop, n, refList) && HoldsExtras(gop, n)
      modifies this`gopList, this`extraRPSs
      ensures Checks(gop) && HoldsExtras(gop, n + 1) && extraRPSs == old(extraRPSs) + 1
      ensures gopList[size + old(extraRPSs)].referencePics == RefsOf(gop, n, refList)
      ensures forall k | 0 <= k < size ::
        && gopList[k].used == old(gopList[k].used)
        && gopList[k].refPic
           == (old(gopList[k].refPic)
               || FilledRefers(gop, n, curPOC, curGOP, refList, Available(gop.table[curGOP].referencePics, curPOC), k))
    {
      ghost var before := gopList[size..];
      MakeExtra(gop, n, curGOP, curPOC, refList);
      SetsInOneMore(before, gopList[size + extraRPSs - 1]);
      ExtraSetsNext(gop, isField, n);
    }

    /** Codes picture n: either its entry or an extra entry made for it says what is kept. */
    method CodePicture(ghost gop: Gop, n: nat, curGOP: nat, curPOC: int, refList: seq<int>)
      returns (complete: bool, missing: bool, newList: seq<int>)
      requires Checks(gop) && curGOP == Slot(n, size) && curPOC == PocOf(gop, n) && refList == RefListAt(gop, isField, n)
      requires HoldsExtras(gop, n)
      modifies this`gopList, this`extraRPSs
      ensures Checks(gop) && HoldsExtras(gop, n + 1)
      ensures complete == Complete(gop, n, refList) && missing == Missing(EntryOf(gop, n).referencePics, curPOC, refList)
      ensures newList == RefListAt(gop, isField, n + 1)
      ensures StepMarks(gop, old(gopList), gopList, n, curGOP, curPOC, refList, complete)
    {
      var beforeI;
      beforeI, missing := CheckRefs(gop, curGOP, curPOC, refList);
      complete := !beforeI && !missing;
      var entry := curGOP;
      if !complete {
        entry := size + extraRPSs;
        RecordExtra(gop, n, curGOP, curPOC, refList);
      }
      ExtraSetsNext(gop, isField, n);
      newList := KeepRefs(gopList[entry].referencePics, curPOC);
    }

    /** Which table positions have been seen to work among the first n pictures, and how many. */
    ghost predicate Tallied(gop: Gop, n: nat, isOK: seq<bool>, numOK: nat)
      requires gop.Valid()
    {
      && |isOK| == gop.size && numOK == CountOK(isOK)
      && forall g | 0 <= g < gop.size :: isOK[g] == Seen(gop, isField, g, n)
    }

    /** One more picture: its position is seen if it was complete. */
    lemma TallyOneMore(gop: Gop, n: nat, isOK: seq<bool>, numOK: nat)
      requires gop.Valid() && Tallied(gop, n, isOK, numOK)
      ensures var g := Slot(n, gop.size);
        var complete := Complete(gop, n, RefListAt(gop, isField, n));
        if complete && !isOK[g] then Tallied(gop, n + 1, isOK[g := true], numOK + 1) else Tallied(gop, n + 1, isOK, numOK)
    {
      var g := Slot(n, gop.size);
      if Complete(gop, n, RefListAt(gop, isField, n)) && !isOK[g] {
        CountSet(isOK, g);
      }
    }

    static lemma SlotFromSettled(gop: Gop, g: nat)
      requires gop.Valid() && g < gop.size
      ensures Slot(Settled(gop) + g, gop.size) == g
    {
      CycleStart(Deepest(gop.table, gop.size), gop.size);
      FromCycleStart(Settled(gop), g, gop.size);
    }

    /** One GOP after reference pictures can no longer lie before the start, every position has been seen. */
    lemma AllSeen(gop: Gop, n: nat, g: nat)
      requires gop.Valid() && g < gop.size && NoFailure(gop, isField, n) && n >= Settled(gop) + gop.size
      ensures Seen(gop, isField, g, n)
    {
      var k := Settled(gop) + g;
      SlotFromSettled(gop, g);
      FailureFree(gop, isField, k, n);
      CompleteFromSettled(gop, g, k);
      SeenFrom(gop, g, k, n);
    }

    lemma SeenFrom(gop: Gop, g: nat, k: nat, n: nat)
      requires gop.Valid() && SeenAt(gop, isField, g, k) && k < n
      ensures Seen(gop, isField, g, n)
    {
      SeenStays(gop, isField, g, k + 1, n);
    }

    lemma CompleteFromSettled(gop: Gop, g: nat, k: nat)
      requires gop.Valid() && k >= Settled(gop) && !Fails(gop, isField, k) && Slot(k, gop.size) == g
      ensures SeenAt(gop, isField, g, k)
    {
      NothingBeforeI(gop, k);
    }

    lemma NotAllSeenYet(gop: Gop, n: nat, isOK: seq<bool>, numOK: nat)
      requires gop.Valid() && Tallied(gop, n, isOK, numOK) && numOK != gop.size && NoFailure(gop, isField, n)
      ensures n < Settled(gop) + gop.size && Unseen(gop, isField, n)
    {
      CountAll(isOK);
      if n >= Settled(gop) + gop.size {
        forall g | 0 <= g < gop.size
          ensures isOK[g]
        {
          AllSeen(gop, n, g);
        }
      }
    }

    lemma NoneLeftUnseen(gop: Gop, n: nat, isOK: seq<bool>, numOK: nat)
      requires gop.Valid() && Tallied(gop, n, isOK, numOK) && numOK == gop.size
      ensures !Unseen(gop, isField, n)
    {
      CountAll(isOK);
    }

    /** Nothing has failed so far, and everything kept agrees with the coding order. */
    ghost predicate Ongoing(gop: Gop, n: nat, refList: seq<int>, isOK: seq<bool>, numOK: nat)
      reads this
    {
      && Checks(gop) && n <= Settled(gop) + size && NoFailure(gop, isField, n)
      && refList == RefListAt(gop, isField, n) && HoldsExtras(gop, n) && Tallied(gop, n, isOK, numOK)
      && HoldsMarks(gop, isField, gopList, n)
    }

    /** Codes a picture that has an entry; the table carries its marks too. */
    method CodeAndMark(ghost gop: Gop, n: nat, curGOP: nat, curPOC: int, refList: seq<int>)
      returns (complete: bool, missing: bool, newList: seq<int>)
      requires Checks(gop) && curGOP == Slot(n, size) && curPOC == PocOf(gop, n) && refList == RefListAt(gop, isField, n)
      requires HoldsExtras(gop, n) && HoldsMarks(gop, isField, gopList, n) && EntryOf(gop, n).poc >= 0
      modifies this`gopList, this`extraRPSs
      ensures Checks(gop) && HoldsExtras(gop, n + 1) && HoldsMarks(gop, isField, gopList, n + 1)
      ensures complete == Complete(gop, n, refList) && missing == Fails(gop, isField, n)
      ensures newList == RefListAt(gop, isField, n + 1)
    {
      ghost var before := gopList;
      complete, missing, newList := CodePicture(gop, n, curGOP, curPOC, refList);
      MarksNext(gop, isField, before, gopList, n, n + 1, curGOP, curPOC, refList, complete);
    }

    /** One picture of the coding order. */
    method Round(ghost gop: Gop, n: nat, refList: seq<int>, isOK: seq<bool>, numOK: nat)
      returns (errorGOP: bool, newList: seq<int>, newOK: seq<bool>, newNum: nat)
      requires Ongoing(gop, n, refList, isOK, numOK) && numOK != size
      modifies this`gopList, this`extraRPSs
      ensures Checks(gop) && errorGOP == Fails(gop, isField, n) && n < Settled(gop) + size
      ensures HoldsMarks(gop, isField, gopList, n + 1) && Unseen(gop, isField, n)
      ensures !errorGOP ==> Ongoing(gop, n + 1, newList, newOK, newNum)
    {
      newList, newOK, newNum := refList, isOK, numOK;
      NotAllSeenYet(gop, n, isOK, numOK);
      TallyOneMore(gop, n, isOK, numOK);
      var curGOP, curPOC := Position(gop, n);
      if gopList[curGOP].poc < 0 {
        errorGOP := true;
        NoMarks(gop, isField, gopList, n, n + 1);
      } else {
        var complete;
        complete, errorGOP, newList := CodeAndMark(gop, n, curGOP, curPOC, refList);
        if complete && !isOK[curGOP] {
          newNum := numOK + 1;
          newOK := isOK[curGOP := true];
        }
      }
    }

    /** How a check that coded so many pictures can have ended. */
    ghost predicate Outcome(gop: Gop, errorGOP: bool, coded: nat)
      requires gop.Valid()
    {
      && 0 < coded <= Settled(gop) + gop.size && Unseen(gop, isField, coded - 1)
      && if errorGOP then NoFailure(gop, isField, coded - 1) && Fails(gop, isField, coded - 1)
         else NoFailure(gop, isField, coded) && !Unseen(gop, isField, coded)
    }

    /** The state of the loop after so many pictures. */
    ghost predicate Running(gop: Gop, errorGOP: bool, verifiedGOP: bool, coded: nat, refList: seq<int>, isOK: seq<bool>, numOK: nat)
      reads this
    {
      && Checks(gop) && HoldsMarks(gop, isField, gopList, coded)
      && (coded > 0 ==> Unseen(gop, isField, coded - 1))
      && if errorGOP then Outcome(gop, true, coded)
         else Ongoing(gop, coded, refList, isOK, numOK) && verifiedGOP == (numOK == size)
    }

    lemma Begins(gop: Gop, n: nat)
      requires Checks(gop) && gopList == gop.table && extraRPSs == 0 && n == 0
      ensures Running(gop, false, false, n, if isField then [0, 1] else [0], seq(size, i => false), 0)
    {
      NoneOK(size);
    }

    lemma EndsWithError(gop: Gop, n: nat, n1: nat)
      requires gop.Valid() && n1 == n + 1 && n < Settled(gop) + gop.size && Unseen(gop, isField, n)
      requires NoFailure(gop, isField, n) && Fails(gop, isField, n)
      ensures Outcome(gop, true, n1)
    {
    }

    /** One turn of the loop. */
    method Turn(ghost gop: Gop, n: nat, refList: seq<int>, isOK: seq<bool>, numOK: nat)
      returns (errorGOP: bool, verifiedGOP: bool, newList: seq<int>, newOK: seq<bool>, newNum: nat)
      requires Running(gop, false, false, n, refList, isOK, numOK)
      modifies this`gopList, this`extraRPSs
      ensures n < Settled(gop) + size
      ensures Running(gop, errorGOP, verifiedGOP, n + 1, newList, newOK, newNum)
    {
      errorGOP, newList, newOK, newNum := Round(gop, n, refList, isOK, numOK);
      verifiedGOP := newNum == size;
      if errorGOP {
        EndsWithError(gop, n, n + 1);
      }
    }

    lemma Ends(gop: Gop, errorGOP: bool, verifiedGOP: bool, coded: nat, refList: seq<int>, isOK: seq<bool>, numOK: nat)
      requires Running(gop, errorGOP, verifiedGOP, coded, refList, isOK, numOK) && (errorGOP || verifiedGOP) && coded > 0
      ensures Outcome(gop, errorGOP, coded) && (!errorGOP ==> HoldsExtras(gop, coded))
    {
      if !errorGOP {
        NoneLeftUnseen(gop, coded, isOK, numOK);
      }
    }

    /**
     * Codes pictures until every table position has been seen with all its reference pictures or a picture fails. It
     * always ends: at the latest one GOP after reference pictures can no longer have negative POCs.
     */
    method Verify() returns (errorGOP: bool, coded: nat)
      requires extraRPSs == 0 && Checks(Gop(size, span, gopList))
      modifies this`gopList, this`extraRPSs
      ensures Outcome(Gop(size, span, old(gopList)), errorGOP, coded)
      ensures Checks(Gop(size, span, old(gopList)))
      ensures HoldsMarks(Gop(size, span, old(gopList)), isField, gopList, coded)
      ensures !errorGOP ==> HoldsExtras(Gop(size, span, old(gopList)), coded)
    {
      ghost var gop := Gop(size, span, gopList);
      var verifiedGOP;
      errorGOP, verifiedGOP, coded := false, false, 0;
      var refList := if isField then [0, 1] else [0];
      var isOK, numOK := seq(size, i => false), 0;
      Begins(gop, coded);
      while !verifiedGOP && !errorGOP
        invariant Running(gop, errorGOP, verifiedGOP, coded, refList, isOK, numOK)
        invariant errorGOP || verifiedGOP ==> coded > 0
        decreases Settled(gop) + size - coded, !errorGOP
      {
        errorGOP, verifiedGOP, refList, isOK, numOK := Turn(gop, coded, refList, isOK, numOK);
        coded := coded + 1;
      }
      Ends(gop, errorGOP, verifiedGOP, coded, refList, isOK, numOK);
    }

    static lemma {:induction false} NoneOK(n: nat)
      ensures CountOK(seq(n, i => false)) == 0
    {
      if n > 0 {
        assert seq(n, i => false)[..n - 1] == seq(n - 1, i => false);
        NoneOK(n - 1);
      }
    }
  }
}
