/** Coding order of a group-of-pictures table, and which reference pictures each picture keeps. */
module GopStructure {
  import opened Arithmetic
  import opened StridedBlock

  /** One picture of the table. Reference pictures are POC differences; `used` says which of them this picture uses. */
  datatype GOPEntry = GOPEntry(poc: int, temporalId: nat, refPic: bool, numRefPicsActive: int,
                               referencePics: seq<int>, used: seq<bool>,
                               interRPSPrediction: bool, deltaRPS: int, refIdc: seq<nat>)

  /** The first `size` entries of the table are one GOP; the next GOP's POCs lie `span` higher. */
  datatype Gop = Gop(size: nat, span: nat, table: seq<GOPEntry>) {
    predicate Valid() {
      size >= 1 && span >= 1 && size <= |table| && forall k | 0 <= k < |table| :: |table[k].referencePics| == |table[k].used|
    }
  }

  // ---- Coding order ----

  /** Position in the table of picture n of the coding order. */
  function Slot(n: nat, size: nat): (g: nat)
    requires size >= 1
    ensures g < size
  {
    if n == 0 then 0 else if Slot(n - 1, size) + 1 == size then 0 else Slot(n - 1, size) + 1
  }

  /** How many whole GOPs come before it. */
  function Cycle(n: nat, size: nat): nat
    requires size >= 1
  {
    if n == 0 then 0 else if Slot(n - 1, size) + 1 == size then Cycle(n - 1, size) + 1 else Cycle(n - 1, size)
  }

  lemma {:induction false} CycleAndSlot(n: nat, size: nat)
    requires size >= 1
    ensures Area(size, Cycle(n, size)) + Slot(n, size) == n
  {
    if n == 0 {
    } else {
      CycleAndSlot(n - 1, size);
    }
  }

  lemma CycleIsDiv(n: nat, size: nat)
    requires size >= 1
    ensures n / size == Cycle(n, size) && n % size == Slot(n, size)
  {
    CycleAndSlot(n, size);
    AreaIsProduct(size, Cycle(n, size));
    DivUnique(n, size, Cycle(n, size));
  }

  /** The pictures from the start of a GOP on. */
  lemma {:induction false} FromCycleStart(n: nat, k: nat, size: nat)
    requires size >= 1 && k <= size && Slot(n, size) == 0
    ensures Slot(n + k, size) == (if k < size then k else 0)
    ensures Cycle(n + k, size) == (if k < size then Cycle(n, size) else Cycle(n, size) + 1)
  {
    if k == 0 {
    } else {
      FromCycleStart(n, k - 1, size);
    }
  }

  lemma {:induction false} CycleStart(q: nat, size: nat)
    requires size >= 1
    ensures Slot(Area(size, q), size) == 0 && Cycle(Area(size, q), size) == q
  {
    if q == 0 {
    } else {
      CycleStart(q - 1, size);
      FromCycleStart(Area(size, q - 1), size, size);
    }
  }

  lemma {:induction false} CycleMono(m: nat, n: nat, size: nat)
    requires size >= 1 && m <= n
    ensures Cycle(m, size) <= Cycle(n, size)
  {
    if m >= n {
    } else {
      CycleMono(m, n - 1, size);
    }
  }

  /** POC of picture n of the coding order. */
  function PocOf(gop: Gop, n: nat): int
    requires gop.Valid()
  {
    Area(gop.span, Cycle(n, gop.size)) + gop.table[Slot(n, gop.size)].poc
  }

  function EntryOf(gop: Gop, n: nat): GOPEntry
    requires gop.Valid()
  {
    gop.table[Slot(n, gop.size)]
  }

  // ---- One step ----

  /** POC of reference picture i. */
  function RefPoc(refs: seq<int>, poc: int, i: nat): int
    requires i < |refs|
  {
    poc + refs[i]
  }

  /** Some reference picture would have a negative POC. */
  predicate BeforeI(refs: seq<int>, poc: int) {
    exists i {:trigger RefPoc(refs, poc, i)} :: 0 <= i < |refs| && RefPoc(refs, poc, i) < 0
  }

  /** Some reference picture with a POC that is not negative is not in the list. */
  predicate Missing(refs: seq<int>, poc: int, refList: seq<int>) {
    exists i {:trigger RefPoc(refs, poc, i)} :: 0 <= i < |refs| && RefPoc(refs, poc, i) >= 0 && RefPoc(refs, poc, i) !in refList
  }

  /** With none missing and none before the start, what is referred to is in the list. */
  lemma Present(refs: seq<int>, poc: int, refList: seq<int>, d: int)
    requires d in refs
    ensures !BeforeI(refs, poc) ==> poc + d >= 0
    ensures !Missing(refs, poc, refList) && poc + d >= 0 ==> poc + d in refList
  {
    var i :| 0 <= i < |refs| && refs[i] == d;
    assert RefPoc(refs, poc, i) == poc + d;
  }

  /** The reference pictures whose POC is not negative, in order. */
  function Available(refs: seq<int>, poc: int): (r: seq<int>)
    ensures |r| <= |refs|
  {
    if refs == [] then []
    else
      var r := Available(refs[..|refs| - 1], poc);
      var d := refs[|refs| - 1];
      if poc + d >= 0 then r + [d] else r
  }

  /** Leaving pictures out does not change the order of the others. */
  lemma {:induction false} AvailableStaysOrdered(refs: seq<int>, poc: int)
    requires Ordered(refs)
    ensures Ordered(Available(refs, poc))
  {
    if refs == [] {
    } else {
      var init, d := refs[..|refs| - 1], refs[|refs| - 1];
      assert refs == init + [d];
      AvailableStaysOrdered(init, poc);
      forall i | 0 <= i < |Available(init, poc)|
        ensures var a := Available(init, poc)[i]; if a < 0 then d < a || d > 0 else 0 < a < d
      {
        var a := Available(init, poc)[i];
        AvailableMembers(init, poc, a);
        var j :| 0 <= j < |init| && init[j] == a;
        assert refs[j] == a && refs[|init|] == d;
      }
    }
  }

  lemma {:induction false} AvailableMembers(refs: seq<int>, poc: int, d: int)
    ensures d in Available(refs, poc) <==> d in refs && poc + d >= 0
  {
    if refs == [] {
    } else {
      var rest := refs[..|refs| - 1];
      AvailableMembers(rest, poc, d);
      assert refs == rest + [refs[|refs| - 1]];
    }
  }

  /** Where a difference goes: before the first that is smaller or positive. */
  function InsertPoint(list: seq<int>, d: int): (j: nat)
    ensures j <= |list|
  {
    if list == [] then 0 else if list[0] < d || list[0] > 0 then 0 else 1 + InsertPoint(list[1..], d)
  }

  lemma {:induction false} InsertPointMeaning(list: seq<int>, d: int)
    ensures var j := InsertPoint(list, d);
      && (forall k | 0 <= k < j :: !(list[k] < d || list[k] > 0))
      && (j < |list| ==> list[j] < d || list[j] > 0)
  {
    if list == [] {
    } else if !(list[0] < d || list[0] > 0) {
      InsertPointMeaning(list[1..], d);
      forall k | 0 <= k < InsertPoint(list, d)
        ensures !(list[k] < d || list[k] > 0)
      {
        if k > 0 {
          assert list[k] == list[1..][k - 1];
        }
      }
    }
  }

  function Inserted(list: seq<int>, d: int): (r: seq<int>)
    ensures |r| == |list| + 1
  {
    var j := InsertPoint(list, d);
    list[..j] + [d] + list[j..]
  }

  lemma InsertedMembers(list: seq<int>, d: int, e: int)
    ensures e in Inserted(list, d) <==> e == d || e in list
  {
    var j := InsertPoint(list, d);
    assert list == list[..j] + list[j..];
  }

  /** Picture m is worth adding to the reference pictures of a picture with this POC and temporal layer. */
  predicate Useful(gop: Gop, m: nat, poc: int, temporalId: nat, refList: seq<int>, list: seq<int>)
    requires gop.Valid()
  {
    PocOf(gop, m) >= 0 && EntryOf(gop, m).temporalId <= temporalId && PocOf(gop, m) in refList && PocOf(gop, m) - poc !in list
  }

  ghost predicate Distinct(list: seq<int>) {
    forall i, j | 0 <= i < j < |list| :: list[i] != list[j]
  }

  lemma InsertedIsDistinct(list: seq<int>, d: int)
    requires Distinct(list) && d !in list
    ensures Distinct(Inserted(list, d))
  {
  }

  /** One step of filling up. */
  function FilledStep(gop: Gop, m: nat, poc: int, temporalId: nat, refList: seq<int>, list: seq<int>): (next: seq<int>)
    requires gop.Valid()
    ensures |list| <= |next| <= |list| + 1
  {
    if Useful(gop, m, poc, temporalId, refList, list) then Inserted(list, PocOf(gop, m) - poc) else list
  }

  /** What a step leaves in the list: what was there, and a picture that is available. */
  lemma StepMembers(gop: Gop, m: nat, poc: int, temporalId: nat, refList: seq<int>, list: seq<int>, d: int)
    requires gop.Valid()
    ensures d in list ==> d in FilledStep(gop, m, poc, temporalId, refList, list)
    ensures d in FilledStep(gop, m, poc, temporalId, refList, list) && d !in list ==> poc + d in refList && poc + d >= 0
  {
    if Useful(gop, m, poc, temporalId, refList, list) {
      InsertedMembers(list, PocOf(gop, m) - poc, d);
    }
  }

  lemma StepIsDistinct(gop: Gop, m: nat, poc: int, temporalId: nat, refList: seq<int>, list: seq<int>)
    requires gop.Valid() && Distinct(list)
    ensures Distinct(FilledStep(gop, m, poc, temporalId, refList, list))
  {
    if Useful(gop, m, poc, temporalId, refList, list) {
      InsertedIsDistinct(list, PocOf(gop, m) - poc);
    }
  }

  /** Steps backwards in coding order over pictures m - 1 down to 0, adding until there are enough. */
  function Filled(gop: Gop, m: nat, poc: int, temporalId: nat, enough: int, refList: seq<int>, list: seq<int>): (r: seq<int>)
    requires gop.Valid()
    decreases m
  {
    if m == 0 then list
    else
      var next := FilledStep(gop, m - 1, poc, temporalId, refList, list);
      if |next| >= enough then next else Filled(gop, m - 1, poc, temporalId, enough, refList, next)
  }

  lemma OneFilled(gop: Gop, m: nat, poc: int, temporalId: nat, enough: int, refList: seq<int>, list: seq<int>, next: seq<int>)
    requires gop.Valid() && m > 0 && FilledStep(gop, m - 1, poc, temporalId, refList, list) == next
    ensures Filled(gop, m, poc, temporalId, enough, refList, list)
         == if |next| >= enough then next else Filled(gop, m - 1, poc, temporalId, enough, refList, next)
  {
  }

  /** All reference pictures are there: the entry can be used as it is. */
  predicate Complete(gop: Gop, n: nat, refList: seq<int>)
    requires gop.Valid()
  {
    var refs := EntryOf(gop, n).referencePics;
    !BeforeI(refs, PocOf(gop, n)) && !Missing(refs, PocOf(gop, n), refList)
  }

  /** That is, all its reference pictures are in the list and none has a negative POC. */
  lemma CompleteMeaning(gop: Gop, n: nat, refList: seq<int>)
    requires gop.Valid()
    ensures Complete(gop, n, refList) <==>
      forall d | d in EntryOf(gop, n).referencePics :: PocOf(gop, n) + d >= 0 && PocOf(gop, n) + d in refList
  {
    var refs, poc := EntryOf(gop, n).referencePics, PocOf(gop, n);
    forall d | d in refs
      ensures Complete(gop, n, refList) ==> poc + d >= 0 && poc + d in refList
    {
      Present(refs, poc, refList, d);
    }
    forall i | 0 <= i < |refs|
      ensures refs[i] in refs && RefPoc(refs, poc, i) == poc + refs[i]
    {
    }
  }

  /** The reference pictures of picture n: those of its entry, or of the extra set made for it. */
  function RefsOf(gop: Gop, n: nat, refList: seq<int>): seq<int>
    requires gop.Valid()
  {
    var e := EntryOf(gop, n);
    if Complete(gop, n, refList) then e.referencePics
    else Filled(gop, n, PocOf(gop, n), e.temporalId, e.numRefPicsActive, refList, Available(e.referencePics, PocOf(gop, n)))
  }

  /** Their POCs, as far as they are not negative, and the picture itself. */
  function Kept(refs: seq<int>, poc: int): (r: seq<int>) {
    var a := Available(refs, poc);
    seq(|a|, i requires 0 <= i < |a| => poc + a[i]) + [poc]
  }

  /** The list of available pictures before picture n is coded. */
  function RefListAt(gop: Gop, field: bool, n: nat): seq<int>
    requires gop.Valid()
  {
    if n == 0 then (if field then [0, 1] else [0])
    else Kept(RefsOf(gop, n - 1, RefListAt(gop, field, n - 1)), PocOf(gop, n - 1))
  }

  /** Coding picture n fails: its entry is no entry, or a reference picture is missing. */
  predicate Fails(gop: Gop, field: bool, n: nat)
    requires gop.Valid()
  {
    EntryOf(gop, n).poc < 0 || Missing(EntryOf(gop, n).referencePics, PocOf(gop, n), RefListAt(gop, field, n))
  }

  lemma NoFailureMeaning(gop: Gop, field: bool, n: nat)
    requires gop.Valid()
    ensures NoFailure(gop, field, n) <==> forall k: nat | k < n :: !Fails(gop, field, k)
  {
    if NoFailure(gop, field, n) {
      forall k: nat | k < n ensures !Fails(gop, field, k) {
        FailureFree(gop, field, k, n);
      }
    }
    if forall k: nat | k < n :: !Fails(gop, field, k) {
      NoFailureUpTo(gop, field, n);
    }
  }

  /** A picture fails exactly when its entry is no entry or one of its reference pictures, from the start on, is not in the list. */
  lemma FailsMeaning(gop: Gop, field: bool, n: nat)
    requires gop.Valid()
    ensures Fails(gop, field, n) <==>
      || gop.table[n % gop.size].poc < 0
      || exists d :: d in gop.table[n % gop.size].referencePics && PocOf(gop, n) + d >= 0 && PocOf(gop, n) + d !in RefListAt(gop, field, n)
  {
    CycleIsDiv(n, gop.size);
    var refs, poc, refList := EntryOf(gop, n).referencePics, PocOf(gop, n), RefListAt(gop, field, n);
    forall d | d in refs
      ensures !Missing(refs, poc, refList) && poc + d >= 0 ==> poc + d in refList
    {
      Present(refs, poc, refList, d);
    }
    forall i | 0 <= i < |refs|
      ensures refs[i] in refs && RefPoc(refs, poc, i) == poc + refs[i]
    {
    }
  }

  /** POCs rise by the span from GOP to GOP. */
  lemma PocMeaning(gop: Gop, n: nat)
    requires gop.Valid()
    ensures PocOf(gop, n) == n / gop.size * gop.span + gop.table[n % gop.size].poc
  {
    CycleIsDiv(n, gop.size);
    AreaIsProduct(gop.span, Cycle(n, gop.size));
  }

  /** The list after a picture: the picture, and of its reference pictures those from the start on. */
  lemma ListMeaning(gop: Gop, field: bool, n: nat, p: int)
    requires gop.Valid()
    ensures p in RefListAt(gop, field, 0) <==> p == 0 || (field && p == 1)
    ensures p in RefListAt(gop, field, n + 1) <==>
      p == PocOf(gop, n) || (p >= 0 && p - PocOf(gop, n) in RefsOf(gop, n, RefListAt(gop, field, n)))
  {
    KeptIff(RefsOf(gop, n, RefListAt(gop, field, n)), PocOf(gop, n), p);
  }

  lemma KeptIff(refs: seq<int>, poc: int, p: int)
    ensures p in Kept(refs, poc) <==> p == poc || (p >= 0 && p - poc in refs)
  {
    var a := Available(refs, poc);
    AvailableMembers(refs, poc, p - poc);
    if p - poc in a {
      var i :| 0 <= i < |a| && a[i] == p - poc;
      assert Kept(refs, poc)[i] == p;
    }
    assert Kept(refs, poc)[|a|] == poc;
  }

  // ---- Only pictures already coded are kept ----

  /** Whatever filling up adds is available. */
  lemma {:induction false} FilledIsAvailable(gop: Gop, m: nat, poc: int, temporalId: nat, enough: int, refList: seq<int>, list: seq<int>, d: int)
    requires gop.Valid() && d in Filled(gop, m, poc, temporalId, enough, refList, list) && d !in list
    ensures poc + d in refList && poc + d >= 0
    decreases m
  {
    if m == 0 {
    } else {
      var next := FilledStep(gop, m - 1, poc, temporalId, refList, list);
      StepMembers(gop, m - 1, poc, temporalId, refList, list, d);
      if |next| < enough && d !in next {
        FilledIsAvailable(gop, m - 1, poc, temporalId, enough, refList, next, d);
      }
    }
  }

  /** In a step that does not fail every reference picture, of an entry or of an extra set, is in the list. */
  lemma RefIsAvailable(gop: Gop, n: nat, refList: seq<int>, d: int)
    requires gop.Valid() && !Missing(EntryOf(gop, n).referencePics, PocOf(gop, n), refList)
    requires d in RefsOf(gop, n, refList)
    ensures PocOf(gop, n) + d in refList && PocOf(gop, n) + d >= 0
  {
    var e, poc := EntryOf(gop, n), PocOf(gop, n);
    var some := Available(e.referencePics, poc);
    if Complete(gop, n, refList) {
      Present(e.referencePics, poc, refList, d);
    } else {
      AvailableMembers(e.referencePics, poc, d);
      if d in some {
        Present(e.referencePics, poc, refList, d);
      } else {
        FilledIsAvailable(gop, n, poc, e.temporalId, e.numRefPicsActive, refList, some, d);
      }
    }
  }

  /** A POC that is available before picture n: one of the pictures coded before, or of those there from the start. */
  predicate Coded(gop: Gop, field: bool, n: nat, p: int)
    requires gop.Valid()
  {
    if n == 0 then p == 0 || (field && p == 1) else Coded(gop, field, n - 1, p) || PocOf(gop, n - 1) == p
  }

  lemma {:induction false} CodedMeaning(gop: Gop, field: bool, n: nat, p: int)
    requires gop.Valid()
    ensures Coded(gop, field, n, p) <==> p == 0 || (field && p == 1) || exists k: nat :: k < n && PocOf(gop, k) == p
  {
    if n == 0 {
    } else {
      CodedMeaning(gop, field, n - 1, p);
      assert PocOf(gop, n - 1) == p ==> exists k: nat :: k < n && PocOf(gop, k) == p;
    }
  }

  /** None of the first n pictures fails. */
  predicate NoFailure(gop: Gop, field: bool, n: nat)
    requires gop.Valid()
  {
    n == 0 || (NoFailure(gop, field, n - 1) && !Fails(gop, field, n - 1))
  }

  lemma KeptPicture(refs: seq<int>, poc: int, p: int)
    requires p in Kept(refs, poc) && p != poc
    ensures p - poc in refs
  {
    var a := Available(refs, poc);
    var i :| 0 <= i < |Kept(refs, poc)| && Kept(refs, poc)[i] == p;
    assert i < |a| && a[i] == p - poc;
    AvailableMembers(refs, poc, a[i]);
  }

  /** What is kept besides the picture itself was in the list before. */
  lemma KeptIsAvailable(gop: Gop, n: nat, refList: seq<int>, p: int)
    requires gop.Valid() && !Missing(EntryOf(gop, n).referencePics, PocOf(gop, n), refList)
    requires p in Kept(RefsOf(gop, n, refList), PocOf(gop, n)) && p != PocOf(gop, n)
    ensures p in refList
  {
    KeptPicture(RefsOf(gop, n, refList), PocOf(gop, n), p);
    RefIsAvailable(gop, n, refList, p - PocOf(gop, n));
  }

  /** As long as nothing has failed, the list holds only pictures already coded. */
  lemma {:induction false} OnlyCodedPicturesAreKept(gop: Gop, field: bool, n: nat, p: int)
    requires gop.Valid() && NoFailure(gop, field, n) && p in RefListAt(gop, field, n)
    ensures Coded(gop, field, n, p)
  {
    if n == 0 {
    } else {
      var before, poc := RefListAt(gop, field, n - 1), PocOf(gop, n - 1);
      if p != poc {
        KeptIsAvailable(gop, n - 1, before, p);
        OnlyCodedPicturesAreKept(gop, field, n - 1, p);
      }
    }
  }

  // ---- Extra reference picture sets ----

  lemma {:induction false} AvailableIsDistinct(refs: seq<int>, poc: int)
    requires Distinct(refs)
    ensures Distinct(Available(refs, poc))
  {
    if refs == [] {
    } else {
      var init, d := refs[..|refs| - 1], refs[|refs| - 1];
      AvailableIsDistinct(init, poc);
      assert d !in init;
      AvailableMembers(init, poc, d);
    }
  }

  /** Filling up repeats no picture. */
  lemma {:induction false} FilledIsDistinct(gop: Gop, m: nat, poc: int, temporalId: nat, enough: int, refList: seq<int>, list: seq<int>)
    requires gop.Valid() && Distinct(list)
    ensures Distinct(Filled(gop, m, poc, temporalId, enough, refList, list))
    decreases m
  {
    if m == 0 {
    } else {
      StepIsDistinct(gop, m - 1, poc, temporalId, refList, list);
      FilledIsDistinct(gop, m - 1, poc, temporalId, enough, refList, FilledStep(gop, m - 1, poc, temporalId, refList, list));
    }
  }

  /** The set of a picture, taken from the table or made, repeats no picture if its entry does not. */
  lemma RefsAreDistinct(gop: Gop, n: nat, refList: seq<int>)
    requires gop.Valid() && Distinct(EntryOf(gop, n).referencePics)
    ensures Distinct(RefsOf(gop, n, refList))
  {
    var e, poc := EntryOf(gop, n), PocOf(gop, n);
    AvailableIsDistinct(e.referencePics, poc);
    FilledIsDistinct(gop, n, poc, e.temporalId, e.numRefPicsActive, refList, Available(e.referencePics, poc));
  }

  /** Filling up loses no picture. */
  lemma {:induction false} FilledLosesNone(gop: Gop, m: nat, poc: int, temporalId: nat, enough: int, refList: seq<int>, list: seq<int>, d: int)
    requires gop.Valid() && d in list
    ensures d in Filled(gop, m, poc, temporalId, enough, refList, list)
    decreases m
  {
    if m == 0 {
    } else {
      StepMembers(gop, m - 1, poc, temporalId, refList, list, d);
      FilledLosesNone(gop, m - 1, poc, temporalId, enough, refList, FilledStep(gop, m - 1, poc, temporalId, refList, list), d);
    }
  }

  /** Filling up stops once there are enough: at most one picture goes beyond what was there or was asked for. */
  lemma {:induction false} FilledLength(gop: Gop, m: nat, poc: int, temporalId: nat, enough: int, refList: seq<int>, list: seq<int>)
    requires gop.Valid()
    ensures |list| <= |Filled(gop, m, poc, temporalId, enough, refList, list)| <= Max(|list| + 1, enough)
    decreases m
  {
    if m == 0 {
    } else {
      FilledLength(gop, m - 1, poc, temporalId, enough, refList, FilledStep(gop, m - 1, poc, temporalId, refList, list));
    }
  }

  /** Filling up that ends with too few pictures has left out none that is useful. */
  lemma {:induction false} FilledIsComplete(gop: Gop, m: nat, poc: int, temporalId: nat, enough: int, refList: seq<int>, list: seq<int>, k: nat)
    requires gop.Valid() && k < m && |Filled(gop, m, poc, temporalId, enough, refList, list)| < enough
    ensures !Useful(gop, k, poc, temporalId, refList, Filled(gop, m, poc, temporalId, enough, refList, list))
    decreases m
  {
    var next := FilledStep(gop, m - 1, poc, temporalId, refList, list);
    var r := Filled(gop, m, poc, temporalId, enough, refList, list);
    assert |next| < enough && r == Filled(gop, m - 1, poc, temporalId, enough, refList, next);
    if k < m - 1 {
      FilledIsComplete(gop, m - 1, poc, temporalId, enough, refList, next, k);
    } else {
      StepUsesUp(gop, k, poc, temporalId, refList, list);
      UselessThroughout(gop, k, poc, temporalId, enough, refList, next, r);
    }
  }

  /** Nor is it when more pictures have been filled in. */
  lemma UselessThroughout(gop: Gop, k: nat, poc: int, temporalId: nat, enough: int, refList: seq<int>, list: seq<int>, more: seq<int>)
    requires gop.Valid() && !Useful(gop, k, poc, temporalId, refList, list)
    requires more == Filled(gop, k, poc, temporalId, enough, refList, list)
    ensures !Useful(gop, k, poc, temporalId, refList, more)
  {
    var d := PocOf(gop, k) - poc;
    if d in list {
      FilledLosesNone(gop, k, poc, temporalId, enough, refList, list, d);
    }
    StaysUseless(gop, k, poc, temporalId, refList, list, more);
  }

  /** After its step a picture is not useful any more. */
  lemma StepUsesUp(gop: Gop, k: nat, poc: int, temporalId: nat, refList: seq<int>, list: seq<int>)
    requires gop.Valid()
    ensures !Useful(gop, k, poc, temporalId, refList, FilledStep(gop, k, poc, temporalId, refList, list))
  {
    if Useful(gop, k, poc, temporalId, refList, list) {
      InsertedMembers(list, PocOf(gop, k) - poc, PocOf(gop, k) - poc);
    }
  }

  lemma StaysUseless(gop: Gop, k: nat, poc: int, temporalId: nat, refList: seq<int>, list: seq<int>, more: seq<int>)
    requires gop.Valid() && !Useful(gop, k, poc, temporalId, refList, list)
    requires PocOf(gop, k) - poc in list ==> PocOf(gop, k) - poc in more
    ensures !Useful(gop, k, poc, temporalId, refList, more)
  {
  }

  /**
   * Where an added picture comes from: a picture coded before, in no higher temporal layer and in the list; and no
   * picture coded later that could have been added has been left out.
   */
  lemma {:induction false} FilledFrom(gop: Gop, m: nat, poc: int, temporalId: nat, enough: int, refList: seq<int>, list: seq<int>, d: int)
    returns (k: nat)
    requires gop.Valid() && d in Filled(gop, m, poc, temporalId, enough, refList, list) && d !in list
    ensures k < m && PocOf(gop, k) == poc + d >= 0 && EntryOf(gop, k).temporalId <= temporalId && PocOf(gop, k) in refList
    ensures forall j | k < j < m && PocOf(gop, j) >= 0 && EntryOf(gop, j).temporalId <= temporalId && PocOf(gop, j) in refList ::
      PocOf(gop, j) - poc in Filled(gop, m, poc, temporalId, enough, refList, list)
    decreases m
  {
    var next := FilledStep(gop, m - 1, poc, temporalId, refList, list);
    OneFilled(gop, m, poc, temporalId, enough, refList, list, next);
    if d in next {
      k := m - 1;
      StepAddsPicture(gop, k, poc, temporalId, refList, list, d);
    } else {
      k := FilledFrom(gop, m - 1, poc, temporalId, enough, refList, next, d);
      StepTakes(gop, m - 1, poc, temporalId, enough, refList, list, next);
    }
  }

  lemma StepAddsPicture(gop: Gop, k: nat, poc: int, temporalId: nat, refList: seq<int>, list: seq<int>, d: int)
    requires gop.Valid() && d in FilledStep(gop, k, poc, temporalId, refList, list) && d !in list
    ensures PocOf(gop, k) == poc + d >= 0 && EntryOf(gop, k).temporalId <= temporalId && PocOf(gop, k) in refList
  {
    if Useful(gop, k, poc, temporalId, refList, list) {
      InsertedMembers(list, PocOf(gop, k) - poc, d);
    }
  }

  /** A picture that can be added is there after its step, and stays. */
  lemma StepTakes(gop: Gop, k: nat, poc: int, temporalId: nat, enough: int, refList: seq<int>, list: seq<int>, next: seq<int>)
    requires gop.Valid() && next == FilledStep(gop, k, poc, temporalId, refList, list)
    ensures PocOf(gop, k) >= 0 && EntryOf(gop, k).temporalId <= temporalId && PocOf(gop, k) in refList ==>
      PocOf(gop, k) - poc in Filled(gop, k, poc, temporalId, enough, refList, next)
  {
    var d := PocOf(gop, k) - poc;
    StepUsesUp(gop, k, poc, temporalId, refList, list);
    if d in next {
      FilledLosesNone(gop, k, poc, temporalId, enough, refList, next, d);
    }
  }

  /** The set made for a picture keeps what its entry's set has from the start on. */
  lemma MadeSetKeeps(gop: Gop, n: nat, refList: seq<int>, d: int)
    requires gop.Valid() && !Complete(gop, n, refList) && d in EntryOf(gop, n).referencePics && PocOf(gop, n) + d >= 0
    ensures d in RefsOf(gop, n, refList)
  {
    var e, poc := EntryOf(gop, n), PocOf(gop, n);
    AvailableMembers(e.referencePics, poc, d);
    FilledLosesNone(gop, n, poc, e.temporalId, e.numRefPicsActive, refList, Available(e.referencePics, poc), d);
  }

  /**
   * Anything else in it is a picture coded before, in the list and in no higher temporal layer, and the pictures coded
   * latest come first: none coded after it that is in the list and in no higher layer has been left out.
   */
  lemma MadeSetIsLatest(gop: Gop, n: nat, refList: seq<int>, d: int) returns (k: nat)
    requires gop.Valid() && !Complete(gop, n, refList) && d in RefsOf(gop, n, refList)
    requires !(d in EntryOf(gop, n).referencePics && PocOf(gop, n) + d >= 0)
    ensures k < n && PocOf(gop, k) == PocOf(gop, n) + d >= 0 && PocOf(gop, k) in refList
    ensures EntryOf(gop, k).temporalId <= EntryOf(gop, n).temporalId
    ensures forall j | k < j < n && PocOf(gop, j) >= 0 && PocOf(gop, j) in refList && EntryOf(gop, j).temporalId <= EntryOf(gop, n).temporalId ::
      PocOf(gop, j) - PocOf(gop, n) in RefsOf(gop, n, refList)
  {
    var e, poc := EntryOf(gop, n), PocOf(gop, n);
    AvailableMembers(e.referencePics, poc, d);
    k := FilledFrom(gop, n, poc, e.temporalId, e.numRefPicsActive, refList, Available(e.referencePics, poc), d);
  }

  /** When it still has fewer pictures than the entry wants active, it has all that are in the list and in no higher layer. */
  lemma MadeSetLeavesNoneOut(gop: Gop, n: nat, refList: seq<int>, k: nat)
    requires gop.Valid() && !Complete(gop, n, refList) && |RefsOf(gop, n, refList)| < EntryOf(gop, n).numRefPicsActive
    requires k < n && PocOf(gop, k) >= 0 && PocOf(gop, k) in refList && EntryOf(gop, k).temporalId <= EntryOf(gop, n).temporalId
    ensures PocOf(gop, k) - PocOf(gop, n) in RefsOf(gop, n, refList)
  {
    var e, poc := EntryOf(gop, n), PocOf(gop, n);
    FilledIsComplete(gop, n, poc, e.temporalId, e.numRefPicsActive, refList, Available(e.referencePics, poc), k);
  }

  /** The order of reference picture sets: earlier pictures nearest first, then later pictures nearest first. */
  ghost predicate Ordered(list: seq<int>) {
    forall i, j | 0 <= i < j < |list| :: if list[i] < 0 then list[j] < list[i] || list[j] > 0 else 0 < list[i] < list[j]
  }

  /**
   * Inserting keeps this order exactly for earlier pictures, and for a later picture only where it comes before all
   * others: a later picture is put in front of everything.
   */
  lemma InsertionOrder(list: seq<int>, d: int)
    requires Ordered(list) && d != 0 && d !in list && 0 !in list
    ensures Ordered(Inserted(list, d)) <==> d < 0 || list == [] || list[0] > d
  {
    var j := InsertPoint(list, d);
    InsertPointMeaning(list, d);
    var r := Inserted(list, d);
    if d < 0 {
      InsertedEarlier(list, d);
    } else if list != [] {
      assert j == 0;
      assert r[0] == d && r[1] == list[0];
      if list[0] > d {
        forall i, k | 0 <= i < k < |r|
          ensures 0 < r[i] < r[k]
        {
          assert r[k] == list[k - 1];
          if i > 0 {
            assert r[i] == list[i - 1];
          }
        }
      }
    }
  }

  lemma InsertedEarlier(list: seq<int>, d: int)
    requires Ordered(list) && d < 0 && d !in list && 0 !in list
    ensures Ordered(Inserted(list, d))
  {
    var j, r := InsertPoint(list, d), Inserted(list, d);
    InsertPointMeaning(list, d);
    forall i, k | 0 <= i < k < |r|
      ensures if r[i] < 0 then r[k] < r[i] || r[k] > 0 else 0 < r[i] < r[k]
    {
      if k == j {
        assert r[i] == list[i];
      } else if i == j {
        assert r[k] == list[k - 1];
        if k - 1 > j {
          assert list[j] in list;
        }
      }
    }
  }

  /** A table whose second picture gets such a set: POC 1 refers to POC 0 and, out of order, first to POC 2. */
  function LaterFirst(enough: int): Gop {
    Gop(2, 2, [Entry(2, [-2], enough), Entry(1, [-1, -2], enough)])
  }

  function Entry(poc: int, refs: seq<int>, enough: int): GOPEntry {
    GOPEntry(poc, 0, false, enough, refs, seq(|refs|, i => true), false, 0, [])
  }

  /** Of this table the second picture gets a set whose later picture is in front, so the sets made are not always ordered. */
  lemma GeneratedSetsCanBeDisordered(enough: int)
    requires enough >= 2
    ensures var gop := LaterFirst(enough);
      && gop.Valid() && NoFailure(gop, false, 1) && RefListAt(gop, false, 1) == [0, 2] && !Fails(gop, false, 1)
      && RefsOf(gop, 1, RefListAt(gop, false, 1)) == [1, -1] && !Ordered([1, -1])
  {
    var gop := LaterFirst(enough);
    FirstGop(gop, 0);
    FirstGop(gop, 1);
    FirstPicture(gop, 0, [0]);
    SecondPicture(gop, 1, [0, 2], enough);
    var r := [1, -1];
    assert r[0] == 1 && r[1] == -1;
  }

  lemma FirstGop(gop: Gop, n: nat)
    requires gop.Valid() && n < gop.size
    ensures EntryOf(gop, n) == gop.table[n] && PocOf(gop, n) == gop.table[n].poc
  {
    FromCycleStart(0, n, gop.size);
  }

  lemma FirstPicture(gop: Gop, n: nat, refList: seq<int>)
    requires gop.Valid() && PocOf(gop, n) == 2 && EntryOf(gop, n).referencePics == [-2] && refList == [0]
    ensures Complete(gop, n, refList) && Kept(RefsOf(gop, n, refList), PocOf(gop, n)) == [0, 2]
  {
    OneRef(-2, 2, refList);
  }

  /** A set of one picture, taken apart. */
  lemma OneRef(r: int, poc: int, refList: seq<int>)
    ensures BeforeI([r], poc) <==> poc + r < 0
    ensures Missing([r], poc, refList) <==> poc + r >= 0 && poc + r !in refList
    ensures Available([r], poc) == if poc + r >= 0 then [r] else []
    ensures poc + r >= 0 ==> Kept([r], poc) == [poc + r, poc]
  {
    var refs := [r];
    assert refs[0] == r && refs[..0] == [];
    assert RefPoc(refs, poc, 0) == poc + r;
    assert Available(refs, poc) == if poc + r >= 0 then refs else [];
  }

  lemma SecondPicture(gop: Gop, n: nat, refList: seq<int>, enough: int)
    requires gop.Valid() && n == 1 && enough >= 2 && refList == [0, 2]
    requires PocOf(gop, n) == 1 && EntryOf(gop, n).referencePics == [-1, -2]
    requires EntryOf(gop, n).temporalId == 0 && EntryOf(gop, n).numRefPicsActive == enough
    requires PocOf(gop, n - 1) == 2 && EntryOf(gop, n - 1).temporalId == 0
    ensures !Missing(EntryOf(gop, n).referencePics, PocOf(gop, n), refList) && RefsOf(gop, n, refList) == [1, -1]
  {
    var refs, some := [-1, -2], [-1];
    RefPair(-1, -2, 1, refList);
    assert Available(refs, 1) == some;
    assert Filled(gop, n, 1, 0, enough, refList, some) == FilledStep(gop, n - 1, 1, 0, refList, some);
    assert some[0] == -1 && InsertPoint(some, 1) == 0 && Inserted(some, 1) == [1, -1];
  }

  /** Sets of one or two pictures, taken apart. */
  lemma TwoRefs(refs: seq<int>, poc: int)
    ensures |refs| == 1 ==> Available(refs, poc) == if poc + refs[0] >= 0 then refs else []
    ensures |refs| == 2 ==>
      Available(refs, poc)
      == (if poc + refs[0] >= 0 then [refs[0]] else []) + (if poc + refs[1] >= 0 then [refs[1]] else [])
  {
    if |refs| == 1 {
      assert refs[..0] == [] && refs == [refs[0]];
    } else if |refs| == 2 {
      var one := refs[..1];
      assert one[..0] == [] && one == [refs[0]];
    }
  }

  // ---- How long it can take ----

  /** The furthest any reference picture of the first n entries reaches back. */
  function Deepest(table: seq<GOPEntry>, n: nat): (d: nat)
    requires n <= |table|
  {
    if n == 0 then 0 else Max(Deepest(table, n - 1), Back(table[n - 1].referencePics))
  }

  function Back(refs: seq<int>): (d: nat) {
    if refs == [] then 0 else Max(Back(refs[..|refs| - 1]), -refs[|refs| - 1])
  }

  lemma {:induction false} BackBounds(refs: seq<int>, i: nat)
    requires i < |refs|
    ensures -refs[i] <= Back(refs)
  {
    if i >= |refs| - 1 {
    } else {
      BackBounds(refs[..|refs| - 1], i);
    }
  }

  lemma {:induction false} DeepestBounds(table: seq<GOPEntry>, n: nat, k: nat)
    requires k < n <= |table|
    ensures Back(table[k].referencePics) <= Deepest(table, n)
  {
    if k >= n - 1 {
    } else {
      DeepestBounds(table, n - 1, k);
    }
  }

  /** From this picture of the coding order on no reference picture can have a negative POC. */
  function Settled(gop: Gop): nat
    requires gop.Valid()
  {
    Area(gop.size, Deepest(gop.table, gop.size))
  }

  lemma {:induction false} AreaAtLeast(w: nat, q: nat)
    requires w >= 1
    ensures Area(w, q) >= q
  {
    if q == 0 {
    } else {
      AreaAtLeast(w, q - 1);
    }
  }

  lemma NothingBeforeI(gop: Gop, n: nat)
    requires gop.Valid() && n >= Settled(gop) && EntryOf(gop, n).poc >= 0
    ensures !BeforeI(EntryOf(gop, n).referencePics, PocOf(gop, n))
  {
    var q := Deepest(gop.table, gop.size);
    CycleStart(q, gop.size);
    CycleMono(Settled(gop), n, gop.size);
    AreaAtLeast(gop.span, Cycle(n, gop.size));
    var refs := EntryOf(gop, n).referencePics;
    forall i | 0 <= i < |refs|
      ensures RefPoc(refs, PocOf(gop, n), i) >= 0
    {
      BackBounds(refs, i);
      DeepestBounds(gop.table, gop.size, Slot(n, gop.size));
    }
  }

  // ---- What a check has seen ----

  /** Picture k is at table position g and has all its reference pictures. */
  predicate SeenAt(gop: Gop, field: bool, g: nat, k: nat)
    requires gop.Valid()
  {
    Slot(k, gop.size) == g && Complete(gop, k, RefListAt(gop, field, k))
  }

  /** Among the first n pictures there is one like that. */
  predicate Seen(gop: Gop, field: bool, g: nat, n: nat)
    requires gop.Valid()
  {
    n > 0 && (Seen(gop, field, g, n - 1) || SeenAt(gop, field, g, n - 1))
  }

  lemma {:induction false} SeenWitness(gop: Gop, field: bool, g: nat, n: nat) returns (k: nat)
    requires gop.Valid() && Seen(gop, field, g, n)
    ensures k < n && SeenAt(gop, field, g, k)
  {
    if SeenAt(gop, field, g, n - 1) {
      k := n - 1;
    } else {
      k := SeenWitness(gop, field, g, n - 1);
    }
  }

  lemma SeenIff(gop: Gop, field: bool, g: nat, n: nat)
    requires gop.Valid()
    ensures Seen(gop, field, g, n) <==> exists k: nat :: k < n && SeenAt(gop, field, g, k)
  {
    if Seen(gop, field, g, n) {
      var k := SeenWitness(gop, field, g, n);
    }
    if k: nat :| k < n && SeenAt(gop, field, g, k) {
      SeenStays(gop, field, g, k + 1, n);
    }
  }

  lemma SeenAtMeaning(gop: Gop, field: bool, g: nat, k: nat)
    requires gop.Valid() && g < gop.size
    ensures SeenAt(gop, field, g, k) <==>
      && k % gop.size == g
      && forall d | d in gop.table[g].referencePics :: PocOf(gop, k) + d >= 0 && PocOf(gop, k) + d in RefListAt(gop, field, k)
  {
    CycleIsDiv(k, gop.size);
    CompleteMeaning(gop, k, RefListAt(gop, field, k));
  }

  /** Some position of the table has not been seen among the first n pictures. */
  predicate Unseen(gop: Gop, field: bool, n: nat)
    requires gop.Valid()
  {
    exists g: nat :: g < gop.size && !Seen(gop, field, g, n)
  }

  lemma {:induction false} SeenStays(gop: Gop, field: bool, g: nat, m: nat, n: nat)
    requires gop.Valid() && m <= n && Seen(gop, field, g, m)
    ensures Seen(gop, field, g, n)
  {
    if m == n {
    } else {
      SeenStays(gop, field, g, m, n - 1);
    }
  }

  /** The reference picture sets made for the pictures among the first n that could not use their entry's. */
  function ExtraSets(gop: Gop, field: bool, n: nat): seq<seq<int>>
    requires gop.Valid()
  {
    if n == 0 then []
    else
      var refList := RefListAt(gop, field, n - 1);
      ExtraSets(gop, field, n - 1) + if Complete(gop, n - 1, refList) then [] else [RefsOf(gop, n - 1, refList)]
  }

  lemma ExtraSetsNext(gop: Gop, field: bool, n: nat)
    requires gop.Valid()
    ensures var refList := RefListAt(gop, field, n);
      ExtraSets(gop, field, n + 1)
      == ExtraSets(gop, field, n) + if Complete(gop, n, refList) then [] else [RefsOf(gop, n, refList)]
  {
  }

  // ---- How long a verified table stays valid ----

  lemma {:induction false} FailureFree(gop: Gop, field: bool, k: nat, n: nat)
    requires gop.Valid() && k < n && NoFailure(gop, field, n)
    ensures !Fails(gop, field, k)
  {
    if k == n - 1 {
    } else {
      FailureFree(gop, field, k, n - 1);
    }
  }

  /** One GOP later the same position comes, with all POCs higher by the span. */
  lemma {:induction false} NextGop(gop: Gop, n: nat, m: nat)
    requires gop.Valid() && m == n + gop.size
    ensures EntryOf(gop, m) == EntryOf(gop, n) && PocOf(gop, m) == PocOf(gop, n) + gop.span
  {
    NextCycle(n, gop.size);
  }

  lemma {:induction false} NextCycle(n: nat, size: nat)
    requires size >= 1
    ensures Slot(n + size, size) == Slot(n, size) && Cycle(n + size, size) == Cycle(n, size) + 1
  {
    if n == 0 {
      FromCycleStart(0, size, size);
    } else {
      NextCycle(n - 1, size);
    }
  }

  lemma KeptMembers(refs: seq<int>, poc: int, p: int)
    requires !BeforeI(refs, poc)
    ensures p in Kept(refs, poc) <==> p - poc in refs || p == poc
  {
    KeptIff(refs, poc, p);
    if p - poc in refs {
      Present(refs, poc, [], p - poc);
    }
  }

  /** Once no reference picture can lie before the start, a picture that does not fail alone says what is kept. */
  lemma KeptBySettled(gop: Gop, field: bool, n: nat, n1: nat)
    requires gop.Valid() && n >= Settled(gop) && !Fails(gop, field, n) && n1 == n + 1
    ensures !BeforeI(EntryOf(gop, n).referencePics, PocOf(gop, n))
    ensures RefListAt(gop, field, n1) == Kept(EntryOf(gop, n).referencePics, PocOf(gop, n))
  {
    NothingBeforeI(gop, n);
    ListOfComplete(gop, field, n, n1);
  }

  lemma ListOfComplete(gop: Gop, field: bool, n: nat, n1: nat)
    requires gop.Valid() && Complete(gop, n, RefListAt(gop, field, n)) && n1 > 0 && n == n1 - 1
    ensures RefListAt(gop, field, n1) == Kept(EntryOf(gop, n).referencePics, PocOf(gop, n))
  {
  }

  /** What is missing does not change when all POCs rise alike. */
  lemma MissingRises(refs: seq<int>, poc: int, later: int, kept: seq<int>, keptPoc: int, keptLater: int)
    requires !BeforeI(refs, poc) && !BeforeI(kept, keptPoc) && later - poc == keptLater - keptPoc >= 0
    ensures Missing(refs, later, Kept(kept, keptLater)) <==> Missing(refs, poc, Kept(kept, keptPoc))
  {
    forall i | 0 <= i < |kept|
      ensures RefPoc(kept, keptLater, i) >= 0
    {
      assert RefPoc(kept, keptPoc, i) >= 0;
    }
    forall i | 0 <= i < |refs|
      ensures RefPoc(refs, poc, i) >= 0 && RefPoc(refs, later, i) >= 0
      ensures RefPoc(refs, poc, i) in Kept(kept, keptPoc) <==> RefPoc(refs, later, i) in Kept(kept, keptLater)
    {
      KeptMembers(kept, keptPoc, poc + refs[i]);
      KeptMembers(kept, keptLater, later + refs[i]);
    }
  }

  /** Pictures n and m one GOP apart that said what is kept, and the pictures n1 and m1 behind them: those fail alike. */
  lemma SameFailure(gop: Gop, field: bool, n: nat, n1: nat, m: nat, m1: nat)
    requires gop.Valid() && n1 >= Settled(gop)
    requires EntryOf(gop, m).referencePics == EntryOf(gop, n).referencePics && PocOf(gop, m) == PocOf(gop, n) + gop.span
    requires EntryOf(gop, m1) == EntryOf(gop, n1) && PocOf(gop, m1) == PocOf(gop, n1) + gop.span
    requires !BeforeI(EntryOf(gop, n).referencePics, PocOf(gop, n))
    requires RefListAt(gop, field, n1) == Kept(EntryOf(gop, n).referencePics, PocOf(gop, n))
    requires RefListAt(gop, field, m1) == Kept(EntryOf(gop, m).referencePics, PocOf(gop, m))
    ensures Fails(gop, field, m1) <==> Fails(gop, field, n1)
  {
    var e, poc := EntryOf(gop, n1), PocOf(gop, n1);
    if e.poc >= 0 {
      NothingBeforeI(gop, n1);
      MissingRises(e.referencePics, poc, PocOf(gop, m1), EntryOf(gop, n).referencePics, PocOf(gop, n), PocOf(gop, m));
    }
  }

  lemma FailsRepeats(gop: Gop, field: bool, n: nat, n1: nat, m: nat, m1: nat)
    requires gop.Valid() && n >= Settled(gop) && n1 == n + 1 && m == n + gop.size && m1 == m + 1
    requires !Fails(gop, field, n) && !Fails(gop, field, m)
    ensures Fails(gop, field, m1) <==> Fails(gop, field, n1)
  {
    NextGop(gop, n, m);
    NextGop(gop, n1, m1);
    KeptBySettled(gop, field, n, n1);
    KeptBySettled(gop, field, m, m1);
    SameFailure(gop, field, n, n1, m, m1);
  }

  /** A picture past the first GOP that settled fails only if one before it did. */
  lemma {:induction false} NeverFails(gop: Gop, field: bool, first: nat, k: nat)
    requires gop.Valid() && first > Settled(gop) + gop.size && NoFailure(gop, field, first)
    ensures !Fails(gop, field, k)
  {
    if k < first {
      FailureFree(gop, field, k, first);
    } else {
      var m, n1, n := k - 1, k - gop.size, k - 1 - gop.size;
      NeverFails(gop, field, first, n);
      NeverFails(gop, field, first, n1);
      NeverFails(gop, field, first, m);
      FailsRepeats(gop, field, n, n1, m, k);
    }
  }

  lemma OneMoreWithoutFailure(gop: Gop, field: bool, n: nat, n1: nat)
    requires gop.Valid() && NoFailure(gop, field, n) && !Fails(gop, field, n) && n1 == n + 1
    ensures NoFailure(gop, field, n1)
  {
  }

  lemma {:induction false} NoFailureUpTo(gop: Gop, field: bool, n: nat)
    requires gop.Valid() && forall k: nat | k < n :: !Fails(gop, field, k)
    ensures NoFailure(gop, field, n)
  {
    if n == 0 {
    } else {
      NoFailureUpTo(gop, field, n - 1);
      OneMoreWithoutFailure(gop, field, n - 1, n);
    }
  }

  // ---- A verified table that fails later ----

  /** Two pictures a GOP, the first referring further back than any GOP keeps. */
  function Unlucky(): Gop {
    Gop(2, 2, [Entry(2, [-5], 4), Entry(1, [-2, 1], 4)])
  }

  /** Pictures 2q and 2q + 1 of a table of two. */
  lemma {:induction false} TwoPerGop(gop: Gop, q: nat, n: nat, n1: nat)
    requires gop.Valid() && gop.size == gop.span == 2 && n == 2 * q && n1 == n + 1
    ensures EntryOf(gop, n) == gop.table[0] && PocOf(gop, n) == n + gop.table[0].poc && Slot(n, gop.size) == 0
    ensures EntryOf(gop, n1) == gop.table[1] && PocOf(gop, n1) == n + gop.table[1].poc && Slot(n1, gop.size) == 1
  {
    if q == 0 {
      FirstGop(gop, n);
      FirstGop(gop, n1);
    } else {
      TwoPerGop(gop, q - 1, n - 2, n - 1);
      NextGop(gop, n - 2, n);
      NextGop(gop, n - 1, n1);
      NextCycle(n - 2, gop.size);
      NextCycle(n - 1, gop.size);
    }
  }

  /** A picture that refers five back, where there is nothing: it keeps what the pictures before it left, latest first. */
  lemma FarBack(gop: Gop, n: nat, refList: seq<int>, kept: seq<int>)
    requires gop.Valid() && EntryOf(gop, n).referencePics == [-5] && 0 <= PocOf(gop, n) < 5 && EntryOf(gop, n).poc >= 0
    requires kept == Filled(gop, n, PocOf(gop, n), EntryOf(gop, n).temporalId, EntryOf(gop, n).numRefPicsActive, refList, [])
    ensures !Complete(gop, n, refList) && !Missing([-5], PocOf(gop, n), refList) && RefsOf(gop, n, refList) == kept
  {
    OneRef(-5, PocOf(gop, n), refList);
  }

  lemma NothingToFill(gop: Gop, n: nat, refList: seq<int>, list: seq<int>, poc: int)
    requires gop.Valid() && n == 1 && list == [1] && poc == 1 && PocOf(gop, n - 1) == 2
    ensures Filled(gop, n, poc, 0, 4, refList, list) == list
  {
    assert list[0] == 1;
    assert FilledStep(gop, n - 1, poc, 0, refList, list) == list;
  }

  lemma TwoToFill(gop: Gop, n: nat, refList: seq<int>, poc: int)
    requires gop.Valid() && n == 2 && poc == 4 && PocOf(gop, n - 1) == 1 && PocOf(gop, n - 2) == 2 && refList == [2, 1]
    requires EntryOf(gop, n - 1).temporalId == 0 && EntryOf(gop, n - 2).temporalId == 0
    ensures Filled(gop, n, poc, 0, 4, refList, []) == [-2, -3]
  {
    var none: seq<int>, one, two := [], [-3], [-2, -3];
    assert refList[0] == 2 && refList[1] == 1;
    FillNext(gop, n - 1, poc, refList, none, one);
    assert one[0] == -3 && InsertPoint(one, -2) == 0;
    FillNext(gop, n - 2, poc, refList, one, two);
    OneFilled(gop, n, poc, 0, 4, refList, none, one);
    OneFilled(gop, n - 1, poc, 0, 4, refList, one, two);
  }

  lemma FillNext(gop: Gop, m: nat, poc: int, refList: seq<int>, list: seq<int>, more: seq<int>)
    requires gop.Valid() && PocOf(gop, m) >= 0 && EntryOf(gop, m).temporalId == 0 && PocOf(gop, m) in refList
    requires PocOf(gop, m) - poc !in list && more == Inserted(list, PocOf(gop, m) - poc)
    ensures FilledStep(gop, m, poc, 0, refList, list) == more
  {
  }

  /** Two references, taken apart. */
  lemma RefPair(a: int, b: int, poc: int, refList: seq<int>)
    ensures BeforeI([a, b], poc) <==> poc + a < 0 || poc + b < 0
    ensures Missing([a, b], poc, refList) <==> (poc + a >= 0 && poc + a !in refList) || (poc + b >= 0 && poc + b !in refList)
    ensures Available([a, b], poc) == (if poc + a >= 0 then [a] else []) + (if poc + b >= 0 then [b] else [])
    ensures poc + a >= 0 && poc + b >= 0 ==> Kept([a, b], poc) == [poc + a, poc + b, poc]
  {
    var refs := [a, b];
    assert RefPoc(refs, poc, 0) == poc + a && RefPoc(refs, poc, 1) == poc + b;
    TwoRefs(refs, poc);
  }

  lemma {:induction false} NextList(gop: Gop, field: bool, n: nat, n1: nat, refList: seq<int>, refs: seq<int>)
    requires gop.Valid() && n1 == n + 1 && RefListAt(gop, field, n) == refList && RefsOf(gop, n, refList) == refs
    ensures RefListAt(gop, field, n1) == Kept(refs, PocOf(gop, n))
  {
  }

  /** The first two pictures, and the list behind them. */
  lemma UnluckyStart(gop: Gop, n0: nat, n1: nat, n2: nat)
    requires gop == Unlucky() && n0 == 0 && n1 == 1 && n2 == 2
    ensures gop.Valid() && RefListAt(gop, false, n2) == [2, 1]
    ensures !Fails(gop, false, n0) && !Fails(gop, false, n1) && !Complete(gop, n0, RefListAt(gop, false, n0))
  {
    TwoPerGop(gop, 0, n0, n1);
    FarBack(gop, n0, [0], []);
    NextList(gop, false, n0, n1, [0], []);
    assert Kept([], 2) == [2];
    RefPair(-2, 1, 1, [2]);
    NothingToFill(gop, n1, [2], [1], 1);
    assert RefsOf(gop, n1, [2]) == [1];
    OneRef(1, 1, [2]);
    NextList(gop, false, n1, n2, [2], [1]);
  }

  /** The second two. */
  lemma UnluckyMiddle(gop: Gop, n1: nat, n2: nat, n3: nat, n4: nat)
    requires gop == Unlucky() && gop.Valid() && n1 == 1 && n2 == 2 && n3 == 3 && n4 == 4 && RefListAt(gop, false, n2) == [2, 1]
    ensures RefListAt(gop, false, n4) == [1, 4, 3]
    ensures !Fails(gop, false, n2) && !Fails(gop, false, n3)
    ensures !Complete(gop, n2, RefListAt(gop, false, n2)) && SeenAt(gop, false, 1, n3)
  {
    TwoPerGop(gop, 0, n2 - 2, n1);
    TwoPerGop(gop, 1, n2, n3);
    TwoToFill(gop, n2, [2, 1], 4);
    FarBack(gop, n2, [2, 1], [-2, -3]);
    RefPair(-2, -3, 4, [2, 1]);
    NextList(gop, false, n2, n3, [2, 1], [-2, -3]);
    RefPair(-2, 1, 3, [2, 1, 4]);
    NextList(gop, false, n3, n4, [2, 1, 4], [-2, 1]);
  }

  lemma FailsWith(gop: Gop, field: bool, n: nat, refList: seq<int>, refs: seq<int>, poc: int)
    requires gop.Valid() && RefListAt(gop, field, n) == refList && EntryOf(gop, n).poc >= 0
    requires EntryOf(gop, n).referencePics == refs && PocOf(gop, n) == poc
    ensures Fails(gop, field, n) <==> Missing(refs, poc, refList)
    ensures Complete(gop, n, refList) <==> !Missing(refs, poc, refList) && !BeforeI(refs, poc)
    ensures Complete(gop, n, refList) ==> RefsOf(gop, n, refList) == refs
  {
  }

  /** The fifth picture finds what it refers to, the sixth does not. */
  lemma FifthPicture(gop: Gop, n4: nat, n5: nat)
    requires gop.Valid() && RefListAt(gop, false, n4) == [1, 4, 3] && n5 == n4 + 1
    requires EntryOf(gop, n4).referencePics == [-5] && PocOf(gop, n4) == 6 && EntryOf(gop, n4).poc >= 0 && Slot(n4, gop.size) == 0
    ensures !Fails(gop, false, n4) && SeenAt(gop, false, 0, n4) && RefListAt(gop, false, n5) == [1, 6]
  {
    OneRef(-5, 6, [1, 4, 3]);
    FailsWith(gop, false, n4, [1, 4, 3], [-5], 6);
    NextList(gop, false, n4, n5, [1, 4, 3], [-5]);
  }

  lemma SixthPicture(gop: Gop, n5: nat)
    requires gop.Valid() && RefListAt(gop, false, n5) == [1, 6]
    requires EntryOf(gop, n5).referencePics == [-2, 1] && PocOf(gop, n5) == 5 && EntryOf(gop, n5).poc >= 0
    ensures Fails(gop, false, n5)
  {
    RefPair(-2, 1, 5, [1, 6]);
    FailsWith(gop, false, n5, [1, 6], [-2, 1], 5);
  }

  /** The check stops without an error after five pictures, both positions having been seen; the sixth picture fails. */
  lemma VerifiedTablesCanFail() returns (gop: Gop, coded: nat)
    ensures gop == Unlucky() && gop.Valid() && coded == 5
    ensures NoFailure(gop, false, coded) && Unseen(gop, false, coded - 1) && !Unseen(gop, false, coded) && Fails(gop, false, coded)
  {
    gop, coded := Unlucky(), 5;
    UnluckyRun(gop, coded - 5, coded - 4, coded - 3, coded - 2, coded - 1, coded);
  }

  lemma UnluckyRun(gop: Gop, n0: nat, n1: nat, n2: nat, n3: nat, n4: nat, n5: nat)
    requires gop == Unlucky() && gop.Valid() && n0 == 0 && n1 == 1 && n2 == 2 && n3 == 3 && n4 == 4 && n5 == 5
    ensures NoFailure(gop, false, n5) && Unseen(gop, false, n4) && !Unseen(gop, false, n5) && Fails(gop, false, n5)
  {
    UnluckyStart(gop, n0, n1, n2);
    UnluckyMiddle(gop, n1, n2, n3, n4);
    UnluckyEnd(gop, n4, n5);
    FiveWithoutFailure(gop, n0, n1, n2, n3, n4, n5);
    FirstUnseen(gop, n0, n1, n2, n3, n4);
    BothSeen(gop, n3, n4, n5);
  }

  lemma UnluckyEnd(gop: Gop, n4: nat, n5: nat)
    requires gop == Unlucky() && gop.Valid() && n4 == 4 && n5 == 5 && RefListAt(gop, false, n4) == [1, 4, 3]
    ensures !Fails(gop, false, n4) && SeenAt(gop, false, 0, n4) && Fails(gop, false, n5)
  {
    TwoPerGop(gop, 2, n4, n5);
    FifthPicture(gop, n4, n5);
    SixthPicture(gop, n5);
  }

  lemma BothSeen(gop: Gop, n3: nat, n4: nat, n5: nat)
    requires gop.Valid() && gop.size == 2 && n4 == n3 + 1 && n5 == n4 + 1
    requires SeenAt(gop, false, 0, n4) && SeenAt(gop, false, 1, n3)
    ensures !Unseen(gop, false, n5)
  {
    SeenNext(gop, false, 1, n3, n4);
    SeenStays(gop, false, 1, n4, n5);
    SeenNext(gop, false, 0, n4, n5);
    NoneUnseen(gop, n5);
  }

  lemma NoneUnseen(gop: Gop, n: nat)
    requires gop.Valid() && gop.size == 2 && Seen(gop, false, 0, n) && Seen(gop, false, 1, n)
    ensures !Unseen(gop, false, n)
  {
    forall g: nat | g < gop.size
      ensures Seen(gop, false, g, n)
    {
      assert g == 0 || g == 1;
    }
  }

  lemma SeenNext(gop: Gop, field: bool, g: nat, n: nat, n1: nat)
    requires gop.Valid() && SeenAt(gop, field, g, n) && n1 == n + 1
    ensures Seen(gop, field, g, n1)
  {
  }

  lemma FiveWithoutFailure(gop: Gop, n0: nat, n1: nat, n2: nat, n3: nat, n4: nat, n5: nat)
    requires gop.Valid() && n0 == 0 && n1 == 1 && n2 == 2 && n3 == 3 && n4 == 4 && n5 == 5
    requires !Fails(gop, false, n0) && !Fails(gop, false, n1) && !Fails(gop, false, n2) && !Fails(gop, false, n3) && !Fails(gop, false, n4)
    ensures NoFailure(gop, false, n5)
  {
    OneMoreWithoutFailure(gop, false, n0, n1);
    OneMoreWithoutFailure(gop, false, n1, n2);
    OneMoreWithoutFailure(gop, false, n2, n3);
    OneMoreWithoutFailure(gop, false, n3, n4);
    OneMoreWithoutFailure(gop, false, n4, n5);
  }

  lemma FirstUnseen(gop: Gop, n0: nat, n1: nat, n2: nat, n3: nat, n4: nat)
    requires gop == Unlucky() && gop.Valid() && n0 == 0 && n1 == 1 && n2 == 2 && n3 == 3 && n4 == 4
    requires !Complete(gop, n0, RefListAt(gop, false, n0)) && !Complete(gop, n2, RefListAt(gop, false, n2))
    ensures Unseen(gop, false, n4)
  {
    TwoPerGop(gop, 0, n0, n1);
    TwoPerGop(gop, 1, n2, n3);
    if Seen(gop, false, 0, n4) {
      var k := SeenWitness(gop, false, 0, n4);
    }
  }

  /** A table is valid for ever if and only if none of the pictures up to one GOP and one picture past the settled one fails. */
  lemma ValidForEverIff(gop: Gop, field: bool)
    requires gop.Valid()
    ensures (forall n: nat :: NoFailure(gop, field, n)) <==> NoFailure(gop, field, Settled(gop) + gop.size + 1)
  {
    if NoFailure(gop, field, Settled(gop) + gop.size + 1) {
      forall k: nat ensures !Fails(gop, field, k) {
        NeverFails(gop, field, Settled(gop) + gop.size + 1, k);
      }
      forall n: nat ensures NoFailure(gop, field, n) {
        NoFailureUpTo(gop, field, n);
      }
    }
  }

  // ---- Predicting one set from another ----

  /** How a difference is coded: 0 when it is not in the set, 1 when it is and is used, 2 when it is kept unused. */
  function IdcOf(refs: seq<int>, used: seq<bool>, d: int): nat
    requires |refs| == |used|
  {
    if refs == [] then 0
    else
      var n := |refs| - 1;
      if refs[n] == d then (if used[n] then 1 else 2) else IdcOf(refs[..n], used[..n], d)
  }

  /** Of a difference that is there more than once the last one counts; in a set without repetition there is only one. */
  lemma {:induction false} IdcMeaning(refs: seq<int>, used: seq<bool>, d: int)
    requires |refs| == |used|
    ensures IdcOf(refs, used, d) == 0 <==> d !in refs
    ensures IdcOf(refs, used, d) == 1 ==> exists i :: 0 <= i < |refs| && refs[i] == d && used[i]
    ensures IdcOf(refs, used, d) == 2 ==> exists i :: 0 <= i < |refs| && refs[i] == d && !used[i]
    ensures IdcOf(refs, used, d) <= 2
  {
    if refs == [] {
    } else {
      IdcMeaning(refs[..|refs| - 1], used[..|refs| - 1], d);
    }
  }

  /** The differences a set can be predicted from: those of another set and the picture that set belongs to. */
  function Candidates(from: seq<int>, deltaRPS: int): (c: seq<int>)
    ensures |c| == |from| + 1
  {
    seq(|from| + 1, i requires 0 <= i < |from| + 1 => deltaRPS + if i < |from| then from[i] else 0)
  }

  /** In POCs: the other set's picture, which has the difference deltaRPS, and the pictures it refers to. */
  lemma CandidatesMeaning(from: seq<int>, fromPoc: int, poc: int, d: int)
    ensures d in Candidates(from, fromPoc - poc) <==> poc + d == fromPoc || poc + d - fromPoc in from
  {
    var c := Candidates(from, fromPoc - poc);
    assert c[|from|] == fromPoc - poc;
    if poc + d - fromPoc in from {
      var i :| 0 <= i < |from| && from[i] == poc + d - fromPoc;
      assert c[i] == d;
    }
  }

  function IdcsOf(refs: seq<int>, used: seq<bool>, candidates: seq<int>): (r: seq<nat>)
    requires |refs| == |used|
    ensures |r| == |candidates|
  {
    seq(|candidates|, i requires 0 <= i < |candidates| => IdcOf(refs, used, candidates[i]))
  }

  /** In a set without repetition a code says whether its picture is in the set and, if so, with which flag. */
  lemma PredictionFlags(refs: seq<int>, used: seq<bool>, candidates: seq<int>, i: nat, j: nat)
    requires |refs| == |used| && Distinct(refs) && i < |candidates| && j < |refs| && candidates[i] == refs[j]
    ensures IdcsOf(refs, used, candidates)[i] == if used[j] then 1 else 2
  {
    IdcMeaning(refs, used, refs[j]);
    assert IdcsOf(refs, used, candidates)[i] == IdcOf(refs, used, refs[j]);
  }

  /** What the codes select is the part of the set among the candidates; so nothing is lost exactly when all of it is. */
  lemma PredictionSelects(refs: seq<int>, used: seq<bool>, candidates: seq<int>, d: int)
    requires |refs| == |used|
    ensures (exists i :: 0 <= i < |candidates| && IdcsOf(refs, used, candidates)[i] != 0 && candidates[i] == d)
      <==> d in refs && d in candidates
  {
    IdcMeaning(refs, used, d);
    if d in candidates {
      var i :| 0 <= i < |candidates| && candidates[i] == d;
      assert IdcsOf(refs, used, candidates)[i] == IdcOf(refs, used, d);
    }
  }
}
