/** When the decoder writes which pictures: bumping in output order, and flushing. */
module DecoderOutput {

  /** A picture in the list; the identity tells pictures with equal POC apart. */
  datatype Pic = Pic(id: nat, poc: int, needed: bool, referenced: bool, reconstructed: bool)

  const MAX_INT: int := 2147483647

  /** Still to be written, in output order behind the last one written. */
  predicate Waiting(p: Pic, last: int) {
    p.needed && p.poc > last
  }

  function WaitingOf(pics: seq<Pic>, last: int): (w: seq<Pic>) {
    if pics == [] then [] else (if Waiting(pics[0], last) then [pics[0]] else []) + WaitingOf(pics[1..], last)
  }

  /** How many pictures occupy the buffer: waiting, or kept for reference. */
  function Fullness(pics: seq<Pic>, last: int): (n: nat)
    ensures n <= |pics|
  {
    if pics == [] then 0 else (if Waiting(pics[0], last) || pics[0].referenced then 1 else 0) + Fullness(pics[1..], last)
  }

  /** Both counts are of positions in the list: of pictures that wait, and of pictures that wait or are referenced. */
  lemma CountsMeaning(pics: seq<Pic>, last: int)
    ensures |WaitingOf(pics, last)| == |set i | 0 <= i < |pics| && pics[i].needed && pics[i].poc > last|
    ensures Fullness(pics, last) == |set i | 0 <= i < |pics| && ((pics[i].needed && pics[i].poc > last) || pics[i].referenced)|
  {
    assert pics[0..] == pics;
    CountsFrom(pics, last, 0);
    var waiting := set i | 0 <= i < |pics| && pics[i].needed && pics[i].poc > last;
    var held := set i | 0 <= i < |pics| && ((pics[i].needed && pics[i].poc > last) || pics[i].referenced);
    assert waiting == PositionsWaiting(pics, last, 0);
    assert held == PositionsHeld(pics, last, 0);
  }

  ghost function PositionsWaiting(pics: seq<Pic>, last: int, k: nat): set<int> {
    set i | k <= i < |pics| && pics[i].needed && pics[i].poc > last
  }

  ghost function PositionsHeld(pics: seq<Pic>, last: int, k: nat): set<int> {
    set i | k <= i < |pics| && ((pics[i].needed && pics[i].poc > last) || pics[i].referenced)
  }

  lemma {:induction false} CountsFrom(pics: seq<Pic>, last: int, k: nat)
    requires k <= |pics|
    ensures |WaitingOf(pics[k..], last)| == |PositionsWaiting(pics, last, k)|
    ensures Fullness(pics[k..], last) == |PositionsHeld(pics, last, k)|
    decreases |pics| - k
  {
    if k < |pics| {
      CountsFrom(pics, last, k + 1);
      OneMorePosition(pics, last, k, k + 1);
      assert pics[k..][0] == pics[k] && pics[k..][1..] == pics[k + 1..];
    }
  }

  lemma OneMorePosition(pics: seq<Pic>, last: int, k: nat, next: nat)
    requires k < |pics| && next == k + 1
    ensures |PositionsWaiting(pics, last, k)| == |PositionsWaiting(pics, last, next)| + if Waiting(pics[k], last) then 1 else 0
    ensures |PositionsHeld(pics, last, k)|
         == |PositionsHeld(pics, last, next)| + if Waiting(pics[k], last) || pics[k].referenced then 1 else 0
  {
    assert PositionsWaiting(pics, last, k) == PositionsWaiting(pics, last, next) + if Waiting(pics[k], last) then {k} else {};
    assert PositionsHeld(pics, last, k)
        == PositionsHeld(pics, last, next) + if Waiting(pics[k], last) || pics[k].referenced then {k} else {};
  }

  /** A picture once it has been written: its buffer is free unless it is still referenced. */
  function Shown(p: Pic): Pic {
    p.(needed := false, reconstructed := p.reconstructed && p.referenced)
  }

  datatype Outcome = Outcome(pics: seq<Pic>, last: int, written: seq<Pic>)

  /** One pass over the list: writes waiting pictures as long as more than maxReorder wait or more than maxBuffering are held. */
  function Bump(pics: seq<Pic>, last: int, waiting: int, held: int, maxReorder: nat, maxBuffering: nat): (o: Outcome)
    ensures |o.pics| == |pics|
  {
    if pics == [] then Outcome([], last, [])
    else
      var p := pics[0];
      if Waiting(p, last) && (waiting > maxReorder || held > maxBuffering) then
        var o := Bump(pics[1..], p.poc, waiting - 1, if p.referenced then held else held - 1, maxReorder, maxBuffering);
        Outcome([Shown(p)] + o.pics, o.last, [p] + o.written)
      else
        var o := Bump(pics[1..], last, waiting, held, maxReorder, maxBuffering);
        Outcome([p] + o.pics, o.last, o.written)
  }

  /** What a call writes and leaves. */
  function Output(pics: seq<Pic>, last: int, maxReorder: nat, maxBuffering: nat): Outcome {
    Bump(pics, last, |WaitingOf(pics, last)|, Fullness(pics, last), maxReorder, maxBuffering)
  }

  /** A pass that has come to picture i of the list v, having written `out`, will end in `all`. */
  ghost predicate OnTrack(all: Outcome, v: seq<Pic>, i: nat, last: int, waiting: int, held: int, maxReorder: nat, maxBuffering: nat,
                          out: seq<Pic>)
    requires i <= |v|
  {
    var o := Bump(v[i..], last, waiting, held, maxReorder, maxBuffering);
    all == Outcome(v[..i] + o.pics, o.last, out + o.written)
  }

  lemma TrackStarts(v: seq<Pic>, last: int, waiting: nat, held: nat, maxReorder: nat, maxBuffering: nat)
    requires waiting == |WaitingOf(v, last)| && held == Fullness(v, last)
    ensures OnTrack(Output(v, last, maxReorder, maxBuffering), v, 0, last, waiting, held, maxReorder, maxBuffering, [])
  {
    assert v[0..] == v && v[..0] == [];
  }

  lemma TrackEnds(all: Outcome, v: seq<Pic>, last: int, waiting: int, held: int, maxReorder: nat, maxBuffering: nat, out: seq<Pic>)
    requires OnTrack(all, v, |v|, last, waiting, held, maxReorder, maxBuffering, out)
    ensures all == Outcome(v, last, out)
  {
    assert v[|v|..] == [] && v[..|v|] == v;
  }

  lemma WritePastOne(all: Outcome, v: seq<Pic>, i: nat, last: int, waiting: int, held: int, maxReorder: nat, maxBuffering: nat, out: seq<Pic>,
                     w: seq<Pic>, next: nat, newWaiting: int, newHeld: int)
    requires i < |v| && OnTrack(all, v, i, last, waiting, held, maxReorder, maxBuffering, out)
    requires Waiting(v[i], last) && (waiting > maxReorder || held > maxBuffering)
    requires w == v[i := Shown(v[i])] && next == i + 1
    requires newWaiting == waiting - 1 && newHeld == if v[i].referenced then held else held - 1
    ensures OnTrack(all, w, next, v[i].poc, newWaiting, newHeld, maxReorder, maxBuffering, out + [v[i]])
  {
    assert v[i..][1..] == v[next..] == w[next..] && v[i..][0] == v[i];
    var o := Bump(w[next..], v[i].poc, newWaiting, newHeld, maxReorder, maxBuffering);
    assert w[..next] == v[..i] + [Shown(v[i])];
    assert (v[..i] + [Shown(v[i])]) + o.pics == v[..i] + ([Shown(v[i])] + o.pics);
    assert (out + [v[i]]) + o.written == out + ([v[i]] + o.written);
  }

  lemma PassOne(all: Outcome, v: seq<Pic>, i: nat, last: int, waiting: int, held: int, maxReorder: nat, maxBuffering: nat, out: seq<Pic>,
                next: nat)
    requires i < |v| && OnTrack(all, v, i, last, waiting, held, maxReorder, maxBuffering, out)
    requires !(Waiting(v[i], last) && (waiting > maxReorder || held > maxBuffering))
    requires next == i + 1
    ensures OnTrack(all, v, next, last, waiting, held, maxReorder, maxBuffering, out)
  {
    assert v[i..][1..] == v[next..] && v[i..][0] == v[i];
    var o := Bump(v[next..], last, waiting, held, maxReorder, maxBuffering);
    assert v[..next] + o.pics == v[..i] + ([v[i]] + o.pics);
  }

  // ---- The counters ----

  /** How a signed counter reads where it is compared with an unsigned limit. */
  function AsUnsigned(v: int): int {
    if v < 0 then v + 0x1_0000_0000 else v
  }

  /** The counters are at least what still waits and what is still held among the pictures to come. */
  ghost predicate Counted(pics: seq<Pic>, last: int, waiting: int, held: int) {
    waiting >= |WaitingOf(pics, last)| && held >= Fullness(pics, last)
  }

  lemma {:induction false} FewerHeld(pics: seq<Pic>, last: int, newLast: int)
    requires last <= newLast
    ensures Fullness(pics, newLast) <= Fullness(pics, last)
  {
    if pics == [] {
    } else {
      FewerHeld(pics[1..], last, newLast);
    }
  }

  /** They stay so, and so never become negative: compared with unsigned limits they mean what they say. */
  lemma CountersStayTrue(pics: seq<Pic>, last: int, waiting: int, held: int, newWaiting: int, newHeld: int)
    requires pics != [] && Counted(pics, last, waiting, held)
    requires newWaiting == waiting - 1 && newHeld == if pics[0].referenced then held else held - 1
    ensures AsUnsigned(waiting) == waiting && AsUnsigned(held) == held
    ensures Counted(pics[1..], last, waiting, held)
    ensures Waiting(pics[0], last) ==> Counted(pics[1..], pics[0].poc, newWaiting, newHeld)
  {
    if Waiting(pics[0], last) {
      FewerWait(pics[1..], last, pics[0].poc);
      FewerHeld(pics[1..], last, pics[0].poc);
    }
  }

  /**
   * A pass keeps every picture in its place: as it was, or written, and then it is no longer needed and its buffer is
   * free unless it is referenced.
   */
  lemma {:induction false} PassLeaves(pics: seq<Pic>, last: int, waiting: int, held: int, maxReorder: nat, maxBuffering: nat, i: nat)
    requires i < |pics|
    ensures var o, p := Bump(pics, last, waiting, held, maxReorder, maxBuffering), pics[i];
      o.pics[i] == p || (p in o.written && o.pics[i] == Pic(p.id, p.poc, false, p.referenced, p.reconstructed && p.referenced))
  {
    var p, rest := pics[0], pics[1..];
    if Waiting(p, last) && (waiting > maxReorder || held > maxBuffering) {
      if i > 0 {
        PassLeaves(rest, p.poc, waiting - 1, if p.referenced then held else held - 1, maxReorder, maxBuffering, i - 1);
      }
    } else if i > 0 {
      PassLeaves(rest, last, waiting, held, maxReorder, maxBuffering, i - 1);
    }
  }

  // ---- Output order ----

  /** POCs that increase from above a bound; `top` is the last of them, or the bound. */
  ghost predicate Climbs(written: seq<Pic>, bound: int, top: int) {
    if written == [] then top == bound else written[0].poc > bound && Climbs(written[1..], written[0].poc, top)
  }

  /** Whatever the list, pictures are written with increasing POCs, beyond the last one written before. */
  lemma {:induction false} WrittenPocsIncrease(pics: seq<Pic>, last: int, waiting: int, held: int, maxReorder: nat, maxBuffering: nat)
    ensures var o := Bump(pics, last, waiting, held, maxReorder, maxBuffering); Climbs(o.written, last, o.last) && o.last >= last
  {
    if pics == [] {
    } else {
      var p := pics[0];
      if Waiting(p, last) && (waiting > maxReorder || held > maxBuffering) {
        var h := if p.referenced then held else held - 1;
        WrittenPocsIncrease(pics[1..], p.poc, waiting - 1, h, maxReorder, maxBuffering);
        var o := Bump(pics[1..], p.poc, waiting - 1, h, maxReorder, maxBuffering);
        assert ([p] + o.written)[1..] == o.written;
      } else {
        WrittenPocsIncrease(pics[1..], last, waiting, held, maxReorder, maxBuffering);
      }
    }
  }

  ghost predicate Sorted(pics: seq<Pic>) {
    forall i, j | 0 <= i < j < |pics| :: pics[i].poc < pics[j].poc
  }

  lemma {:induction false} WaitingIsPart(pics: seq<Pic>, last: int, p: Pic)
    ensures p in WaitingOf(pics, last) <==> p in pics && Waiting(p, last)
  {
    if pics == [] {
    } else {
      WaitingIsPart(pics[1..], last, p);
      assert p in pics <==> p == pics[0] || p in pics[1..];
    }
  }

  /** In a sorted list the waiting pictures are sorted; other pictures may be anywhere. */
  lemma {:induction false} SortedListsWaitInOrder(pics: seq<Pic>, last: int)
    requires Sorted(pics)
    ensures Sorted(WaitingOf(pics, last))
  {
    if pics == [] {
    } else {
      assert forall i | 0 <= i < |pics[1..]| :: pics[1..][i] == pics[i + 1];
      SortedListsWaitInOrder(pics[1..], last);
      forall p | p in WaitingOf(pics[1..], last)
        ensures p.poc > pics[0].poc
      {
        WaitingIsPart(pics[1..], last, p);
      }
      SortedCons(pics[0], WaitingOf(pics[1..], last));
    }
  }

  lemma SortedCons(p: Pic, w: seq<Pic>)
    ensures Sorted([p] + w) <==> Sorted(w) && forall q | q in w :: q.poc > p.poc
  {
    var s := [p] + w;
    if Sorted(s) {
      assert forall i | 0 <= i < |w| :: w[i] == s[i + 1] && s[0].poc < s[i + 1].poc;
    }
  }

  /** When what waits behind a picture has higher POCs, none of it stops waiting when that picture is written. */
  lemma {:induction false} WaitingBehind(pics: seq<Pic>, last: int, poc: int)
    requires last < poc && forall p | p in WaitingOf(pics, last) :: p.poc > poc
    ensures WaitingOf(pics, poc) == WaitingOf(pics, last) && Fullness(pics, poc) == Fullness(pics, last)
  {
    if pics == [] {
    } else {
      assert forall p | p in WaitingOf(pics[1..], last) :: p in WaitingOf(pics, last);
      assert Waiting(pics[0], last) ==> pics[0] in WaitingOf(pics, last);
      WaitingBehind(pics[1..], last, poc);
    }
  }

  /** The rest of a list whose waiting pictures are sorted, also once its first picture has been written. */
  lemma InOrderBehind(pics: seq<Pic>, last: int)
    requires pics != [] && Sorted(WaitingOf(pics, last))
    ensures var p, rest := pics[0], pics[1..];
      && Sorted(WaitingOf(rest, last))
      && WaitingOf(pics, last) == (if Waiting(p, last) then [p] + WaitingOf(rest, last) else WaitingOf(rest, last))
      && (Waiting(p, last) ==> WaitingOf(rest, p.poc) == WaitingOf(rest, last) && Fullness(rest, p.poc) == Fullness(rest, last))
  {
    var p, rest := pics[0], pics[1..];
    if Waiting(p, last) {
      SortedCons(p, WaitingOf(rest, last));
      WaitingBehind(rest, last, p.poc);
    } else {
      assert [] + WaitingOf(rest, last) == WaitingOf(rest, last);
    }
  }

  lemma WaitingOfCons(p: Pic, rest: seq<Pic>, last: int)
    ensures WaitingOf([p] + rest, last) == (if Waiting(p, last) then [p] else []) + WaitingOf(rest, last)
    ensures Fullness([p] + rest, last) == (if Waiting(p, last) || p.referenced then 1 else 0) + Fullness(rest, last)
  {
    assert ([p] + rest)[1..] == rest;
  }

  /** Where a pass stands at the end: what it wrote and what still waits are what waited, and why it stopped. */
  ghost predicate Stopped(o: Outcome, entry: seq<Pic>, before: nat, maxReorder: nat, maxBuffering: nat) {
    && o.written + WaitingOf(o.pics, o.last) == entry
    && (WaitingOf(o.pics, o.last) == []
        || (|WaitingOf(o.pics, o.last)| <= maxReorder && before + Fullness(o.pics, o.last) <= maxBuffering))
  }

  lemma StoppedBehindWritten(p: Pic, o: Outcome, last: int, entry: seq<Pic>, before: nat, maxReorder: nat, maxBuffering: nat)
    requires Stopped(o, entry, before + (if p.referenced then 1 else 0), maxReorder, maxBuffering)
    ensures Stopped(Outcome([Shown(p)] + o.pics, o.last, [p] + o.written), [p] + entry, before, maxReorder, maxBuffering)
  {
    WaitingOfCons(Shown(p), o.pics, o.last);
    assert ([p] + o.written) + WaitingOf(o.pics, o.last) == [p] + (o.written + WaitingOf(o.pics, o.last));
  }

  lemma StoppedBehindPassed(p: Pic, o: Outcome, last: int, entry: seq<Pic>, before: nat, maxReorder: nat, maxBuffering: nat)
    requires Stopped(o, entry, before + (if p.referenced then 1 else 0), maxReorder, maxBuffering)
    requires !Waiting(p, last) && o.last >= last
    ensures Stopped(Outcome([p] + o.pics, o.last, o.written), entry, before, maxReorder, maxBuffering)
  {
    WaitingOfCons(p, o.pics, o.last);
  }

  /**
   * When the waiting pictures are sorted by POC: what a pass writes is a prefix of them, the rest of them still wait,
   * and it stops with nothing waiting or with both limits met.
   */
  lemma {:induction false} PassInOrder(pics: seq<Pic>, last: int, waiting: int, held: int, before: nat, maxReorder: nat, maxBuffering: nat)
    requires Sorted(WaitingOf(pics, last)) && waiting == |WaitingOf(pics, last)| && held == before + Fullness(pics, last)
    ensures Stopped(Bump(pics, last, waiting, held, maxReorder, maxBuffering), WaitingOf(pics, last), before, maxReorder, maxBuffering)
  {
    if waiting <= maxReorder && held <= maxBuffering {
      NothingOverLimit(pics, last, waiting, held, maxReorder, maxBuffering);
    } else if pics != [] {
      var p, rest := pics[0], pics[1..];
      var kept := before + if p.referenced then 1 else 0;
      InOrderBehind(pics, last);
      if Waiting(p, last) {
        var h := if p.referenced then held else held - 1;
        PassInOrder(rest, p.poc, waiting - 1, h, kept, maxReorder, maxBuffering);
        StoppedBehindWritten(p, Bump(rest, p.poc, waiting - 1, h, maxReorder, maxBuffering), last, WaitingOf(rest, p.poc),
                             before, maxReorder, maxBuffering);
      } else {
        PassInOrder(rest, last, waiting, held, kept, maxReorder, maxBuffering);
        WrittenPocsIncrease(rest, last, waiting, held, maxReorder, maxBuffering);
        StoppedBehindPassed(p, Bump(rest, last, waiting, held, maxReorder, maxBuffering), last, WaitingOf(rest, last),
                            before, maxReorder, maxBuffering);
      }
    }
  }

  lemma {:induction false} NothingOverLimit(pics: seq<Pic>, last: int, waiting: int, held: int, maxReorder: nat, maxBuffering: nat)
    requires waiting <= maxReorder && held <= maxBuffering
    ensures Bump(pics, last, waiting, held, maxReorder, maxBuffering) == Outcome(pics, last, [])
  {
    if pics == [] {
    } else {
      NothingOverLimit(pics[1..], last, waiting, held, maxReorder, maxBuffering);
    }
  }

  /** The pictures an output call writes when the waiting ones are sorted, and why it stopped. */
  lemma OutputInOrder(pics: seq<Pic>, last: int, maxReorder: nat, maxBuffering: nat)
    requires Sorted(WaitingOf(pics, last))
    ensures Stopped(Output(pics, last, maxReorder, maxBuffering), WaitingOf(pics, last), 0, maxReorder, maxBuffering)
  {
    PassInOrder(pics, last, |WaitingOf(pics, last)|, Fullness(pics, last), 0, maxReorder, maxBuffering);
  }

  /** What a call writes and what still waits afterwards are, in order, what waited before: no picture is lost. */
  ghost predicate LosesNone(pics: seq<Pic>, last: int, maxReorder: nat, maxBuffering: nat) {
    var o := Output(pics, last, maxReorder, maxBuffering);
    o.written + WaitingOf(o.pics, o.last) == WaitingOf(pics, last)
  }

  /** No limits make a call lose a picture if and only if the waiting pictures are sorted by POC. */
  lemma NothingIsLostIffInOrder(pics: seq<Pic>, last: int)
    ensures (forall maxReorder: nat, maxBuffering: nat :: LosesNone(pics, last, maxReorder, maxBuffering))
       <==> Sorted(WaitingOf(pics, last))
  {
    if Sorted(WaitingOf(pics, last)) {
      forall maxReorder: nat, maxBuffering: nat
        ensures LosesNone(pics, last, maxReorder, maxBuffering)
      {
        OutputInOrder(pics, last, maxReorder, maxBuffering);
      }
    } else {
      var waiting, held := |WaitingOf(pics, last)|, Fullness(pics, last);
      GreedyLeavesNone(pics, last, waiting, held, 0, 0);
      WrittenPocsIncrease(pics, last, waiting, held, 0, 0);
      var o := Output(pics, last, 0, 0);
      ClimbIsSorted(o.written, last, o.last);
      assert o.written + [] == o.written;
      assert !LosesNone(pics, last, 0, 0);
    }
  }

  lemma {:induction false} ClimbIsSorted(w: seq<Pic>, bound: int, top: int)
    requires Climbs(w, bound, top)
    ensures Sorted(w) && forall p | p in w :: p.poc > bound
  {
    if w == [] {
    } else {
      ClimbIsSorted(w[1..], w[0].poc, top);
      assert w == [w[0]] + w[1..];
      SortedCons(w[0], w[1..]);
    }
  }

  /** Fewer pictures wait behind a later one. */
  lemma {:induction false} FewerWait(pics: seq<Pic>, last: int, poc: int)
    requires last <= poc
    ensures |WaitingOf(pics, poc)| <= |WaitingOf(pics, last)|
  {
    if pics == [] {
    } else {
      FewerWait(pics[1..], last, poc);
    }
  }

  /** With no reordering allowed a pass leaves nothing waiting. */
  lemma {:induction false} GreedyLeavesNone(pics: seq<Pic>, last: int, waiting: int, held: int, maxReorder: nat, maxBuffering: nat)
    requires waiting >= |WaitingOf(pics, last)| && maxReorder == 0
    ensures var o := Bump(pics, last, waiting, held, maxReorder, maxBuffering); WaitingOf(o.pics, o.last) == []
  {
    if pics == [] {
    } else {
      var p, rest := pics[0], pics[1..];
      if Waiting(p, last) {
        var h := if p.referenced then held else held - 1;
        FewerWait(rest, last, p.poc);
        GreedyLeavesNone(rest, p.poc, waiting - 1, h, maxReorder, maxBuffering);
        var o := Bump(rest, p.poc, waiting - 1, h, maxReorder, maxBuffering);
        WaitingOfCons(Shown(p), o.pics, o.last);
      } else {
        GreedyLeavesNone(rest, last, waiting, held, maxReorder, maxBuffering);
        WrittenPocsIncrease(rest, last, waiting, held, maxReorder, maxBuffering);
        var o := Bump(rest, last, waiting, held, maxReorder, maxBuffering);
        WaitingOfCons(p, o.pics, o.last);
      }
    }
  }

  /** One such loss: a pass writes past a waiting picture, which then no longer waits although it is needed. */
  lemma UnsortedListsLosePictures()
    ensures var late, early := Pic(1, 5, true, false, true), Pic(2, 3, true, false, true);
      var o := Output([late, early], 0, 0, 0);
      o.written == [late] && WaitingOf(o.pics, o.last) == [] && o.pics[1].needed
  {
    var late, early := Pic(1, 5, true, false, true), Pic(2, 3, true, false, true);
    assert [late, early] == [late] + ([early] + []);
    WaitingOfCons(early, [], 0);
    WaitingOfCons(late, [early] + [], 0);
    var rest := [early];
    assert !Waiting(early, 5) && rest[1..] == [];
    var o := Bump(rest, 5, 1, 1, 0, 0);
    assert Bump(rest[1..], 5, 1, 1, 0, 0) == Outcome([], 5, []);
    assert o.pics == rest && o.written == [] && o.last == 5;
    assert [late, early][1..] == rest;
    WaitingOfCons(Shown(late), rest, 5);
    WaitingOfCons(early, [], 5);
    assert [early] + [] == rest;
  }

  /** At each write more than the allowed number waited or were held. */
  predicate Justified(written: seq<Pic>, waiting: int, held: int, maxReorder: nat, maxBuffering: nat) {
    if written == [] then true
    else
      && (waiting > maxReorder || held > maxBuffering)
      && Justified(written[1..], waiting - 1, if written[0].referenced then held else held - 1, maxReorder, maxBuffering)
  }

  /** No picture is written before a limit makes it necessary. */
  lemma {:induction false} EveryWriteIsJustified(pics: seq<Pic>, last: int, waiting: int, held: int, maxReorder: nat, maxBuffering: nat)
    ensures Justified(Bump(pics, last, waiting, held, maxReorder, maxBuffering).written, waiting, held, maxReorder, maxBuffering)
  {
    if pics == [] {
    } else {
      var p := pics[0];
      if Waiting(p, last) && (waiting > maxReorder || held > maxBuffering) {
        var h := if p.referenced then held else held - 1;
        EveryWriteIsJustified(pics[1..], p.poc, waiting - 1, h, maxReorder, maxBuffering);
        var o := Bump(pics[1..], p.poc, waiting - 1, h, maxReorder, maxBuffering);
        assert ([p] + o.written)[1..] == o.written;
      } else {
        EveryWriteIsJustified(pics[1..], last, waiting, held, maxReorder, maxBuffering);
      }
    }
  }

  // ---- Flushing ----

  /** All pictures still needed, in list order. */
  function Needed(pics: seq<Pic>): seq<Pic> {
    if pics == [] then [] else (if pics[0].needed then [pics[0]] else []) + Needed(pics[1..])
  }

  // ---- Whole runs ----

  /**
   * What happens to the list: a picture arrives anywhere in it, the decoder changes which pictures it refers to or has
   * reconstructed, gives up a picture that is not needed for output, or calls for output or a flush.
   */
  datatype Event =
    | Arrive(pic: Pic, at: nat)
    | Refer(at: nat, referenced: bool, reconstructed: bool)
    | Release(at: nat)
    | Write(maxReorder: nat, maxBuffering: nat)
    | Flush

  /** `due` are the pictures that arrived needed for output, `written` all written so far, `climb` those since the last flush. */
  datatype State = State(pics: seq<Pic>, last: int, due: set<nat>, seen: set<nat>, written: seq<Pic>, climb: seq<Pic>)

  predicate Enabled(s: State, e: Event) {
    match e
    case Arrive(pic, at) => at <= |s.pics| && pic.id !in s.seen && pic.poc > -MAX_INT
    case Refer(at, _, _) => at < |s.pics|
    case Release(at) => at < |s.pics| && !s.pics[at].needed
    case _ => true
  }

  function Next(s: State, e: Event): State
    requires Enabled(s, e)
  {
    match e
    case Arrive(pic, at) =>
      s.(pics := s.pics[..at] + [pic] + s.pics[at..], seen := s.seen + {pic.id}, due := s.due + if pic.needed then {pic.id} else {})
    case Refer(at, referenced, reconstructed) =>
      s.(pics := s.pics[at := s.pics[at].(referenced := referenced, reconstructed := reconstructed)])
    case Release(at) => s.(pics := s.pics[..at] + s.pics[at + 1..])
    case Write(maxReorder, maxBuffering) =>
      var o := Output(s.pics, s.last, maxReorder, maxBuffering);
      s.(pics := o.pics, last := o.last, written := s.written + o.written, climb := s.climb + o.written)
    case Flush =>
      if s.pics == [] then s else s.(pics := [], last := -MAX_INT, written := s.written + Needed(s.pics), climb := [])
  }

  /** Picture identities that a list still has to write. */
  function Owed(pics: seq<Pic>): set<nat> {
    if pics == [] then {} else (if pics[0].needed then {pics[0].id} else {}) + Owed(pics[1..])
  }

  function IdsOf(pics: seq<Pic>): set<nat> {
    if pics == [] then {} else {pics[0].id} + IdsOf(pics[1..])
  }

  /** No identity twice. */
  predicate DistinctIds(pics: seq<Pic>) {
    pics == [] || (pics[0].id !in IdsOf(pics[1..]) && DistinctIds(pics[1..]))
  }

  /** What holds in every state of every run. */
  ghost predicate Inv(s: State) {
    && DistinctIds(s.pics) && DistinctIds(s.written)
    && IdsOf(s.pics) <= s.seen && IdsOf(s.written) <= s.seen
    && Owed(s.pics) !! IdsOf(s.written)
    && s.due == Owed(s.pics) + IdsOf(s.written)
    && Climbs(s.climb, -MAX_INT, s.last)
  }

  lemma {:induction false} IdsOfConcat(a: seq<Pic>, b: seq<Pic>)
    ensures IdsOf(a + b) == IdsOf(a) + IdsOf(b) && Owed(a + b) == Owed(a) + Owed(b)
    ensures DistinctIds(a + b) <==> DistinctIds(a) && DistinctIds(b) && IdsOf(a) !! IdsOf(b)
  {
    if a == [] {
      assert a + b == b;
    } else {
      assert (a + b)[1..] == a[1..] + b;
      IdsOfConcat(a[1..], b);
    }
  }

  lemma {:induction false} OwedAreIds(pics: seq<Pic>)
    ensures Owed(pics) <= IdsOf(pics)
  {
    if pics == [] {
    } else {
      OwedAreIds(pics[1..]);
    }
  }

  lemma {:induction false} NeededAreOwed(pics: seq<Pic>)
    ensures IdsOf(Needed(pics)) == Owed(pics) && (DistinctIds(pics) ==> DistinctIds(Needed(pics)))
  {
    if pics == [] {
    } else {
      NeededAreOwed(pics[1..]);
      OwedAreIds(pics[1..]);
      IdsOfConcat(if pics[0].needed then [pics[0]] else [], Needed(pics[1..]));
    }
  }

  /** What a list held and owed is what it holds and owes after a pass, apart from what was written. */
  ghost predicate Splits(pics: seq<Pic>, o: Outcome) {
    && IdsOf(o.pics) == IdsOf(pics) && DistinctIds(o.pics) && DistinctIds(o.written)
    && Owed(o.pics) !! IdsOf(o.written) && Owed(pics) == Owed(o.pics) + IdsOf(o.written)
  }

  lemma SplitsWithWritten(p: Pic, rest: seq<Pic>, o: Outcome)
    requires Splits(rest, o) && p.needed && p.id !in IdsOf(rest)
    ensures Splits([p] + rest, Outcome([Shown(p)] + o.pics, o.last, [p] + o.written))
  {
    OwedAreIds(rest);
    IdsOfConcat([p], rest);
    IdsOfConcat([Shown(p)], o.pics);
    IdsOfConcat([p], o.written);
  }

  lemma SplitsWithPassed(p: Pic, rest: seq<Pic>, o: Outcome)
    requires Splits(rest, o) && p.id !in IdsOf(rest)
    ensures Splits([p] + rest, Outcome([p] + o.pics, o.last, o.written))
  {
    OwedAreIds(rest);
    IdsOfConcat([p], rest);
    IdsOfConcat([p], o.pics);
  }

  /** A pass splits what a list owes into what it writes and what it still owes. */
  lemma {:induction false} BumpSplitsOwed(pics: seq<Pic>, last: int, waiting: int, held: int, maxReorder: nat, maxBuffering: nat)
    requires DistinctIds(pics)
    ensures Splits(pics, Bump(pics, last, waiting, held, maxReorder, maxBuffering))
  {
    if pics == [] {
    } else {
      var p, rest := pics[0], pics[1..];
      assert pics == [p] + rest;
      if Waiting(p, last) && (waiting > maxReorder || held > maxBuffering) {
        var h := if p.referenced then held else held - 1;
        BumpSplitsOwed(rest, p.poc, waiting - 1, h, maxReorder, maxBuffering);
        SplitsWithWritten(p, rest, Bump(rest, p.poc, waiting - 1, h, maxReorder, maxBuffering));
      } else {
        BumpSplitsOwed(rest, last, waiting, held, maxReorder, maxBuffering);
        SplitsWithPassed(p, rest, Bump(rest, last, waiting, held, maxReorder, maxBuffering));
      }
    }
  }

  lemma {:induction false} ClimbsOn(a: seq<Pic>, b: seq<Pic>, bound: int, middle: int, top: int)
    requires Climbs(a, bound, middle) && Climbs(b, middle, top)
    ensures Climbs(a + b, bound, top)
  {
    if a == [] {
      assert a + b == b;
    } else {
      assert (a + b)[1..] == a[1..] + b;
      ClimbsOn(a[1..], b, a[0].poc, middle, top);
    }
  }

  lemma EveryStepKeepsInv(s: State, e: Event)
    requires Inv(s) && Enabled(s, e)
    ensures Inv(Next(s, e))
  {
    match e {
      case Arrive(pic, at) => ArriveKeepsInv(s, pic, at);
      case Refer(at, referenced, reconstructed) => ReferKeepsInv(s, at, referenced, reconstructed);
      case Release(at) => ReleaseKeepsInv(s, at);
      case Write(maxReorder, maxBuffering) =>
        var w, h := |WaitingOf(s.pics, s.last)|, Fullness(s.pics, s.last);
        BumpSplitsOwed(s.pics, s.last, w, h, maxReorder, maxBuffering);
        WrittenPocsIncrease(s.pics, s.last, w, h, maxReorder, maxBuffering);
        var o := Output(s.pics, s.last, maxReorder, maxBuffering);
        ClimbsOn(s.climb, o.written, -MAX_INT, s.last, o.last);
        IdsOfConcat(s.written, o.written);
        OwedAreIds(s.pics);
      case Flush =>
        NeededAreOwed(s.pics);
        IdsOfConcat(s.written, Needed(s.pics));
        OwedAreIds(s.pics);
    }
  }

  lemma ArriveKeepsInv(s: State, pic: Pic, at: nat)
    requires Inv(s) && Enabled(s, Arrive(pic, at))
    ensures Inv(Next(s, Arrive(pic, at)))
  {
    PutIn(s.pics[..at], pic, s.pics[at..], s.pics);
  }

  /** One more picture in a list adds its identity, and owes it if it is needed. */
  lemma PutIn(a: seq<Pic>, pic: Pic, b: seq<Pic>, pics: seq<Pic>)
    requires pics == a + b
    ensures IdsOf(a + [pic] + b) == IdsOf(pics) + {pic.id}
    ensures Owed(a + [pic] + b) == Owed(pics) + if pic.needed then {pic.id} else {}
    ensures DistinctIds(pics) && pic.id !in IdsOf(pics) ==> DistinctIds(a + [pic] + b)
  {
    assert a + [pic] + b == a + ([pic] + b);
    IdsOfConcat(a, b);
    IdsOfConcat([pic], b);
    IdsOfConcat(a, [pic] + b);
  }

  lemma ReferKeepsInv(s: State, at: nat, referenced: bool, reconstructed: bool)
    requires Inv(s) && Enabled(s, Refer(at, referenced, reconstructed))
    ensures Inv(Next(s, Refer(at, referenced, reconstructed)))
  {
    var a, p, b := s.pics[..at], s.pics[at], s.pics[at + 1..];
    var q := p.(referenced := referenced, reconstructed := reconstructed);
    assert s.pics == a + ([p] + b) && s.pics[at := q] == a + ([q] + b);
    IdsOfConcat([p], b);
    IdsOfConcat([q], b);
    IdsOfConcat(a, [p] + b);
    IdsOfConcat(a, [q] + b);
  }

  lemma ReleaseKeepsInv(s: State, at: nat)
    requires Inv(s) && Enabled(s, Release(at))
    ensures Inv(Next(s, Release(at)))
  {
    var a, p, b := s.pics[..at], s.pics[at], s.pics[at + 1..];
    assert s.pics == a + ([p] + b);
    IdsOfConcat([p], b);
    IdsOfConcat(a, [p] + b);
    IdsOfConcat(a, b);
  }

  const START := State([], -MAX_INT, {}, {}, [], [])

  /** The state after a run of events, those that are not possible being skipped. */
  function Run(events: seq<Event>): State {
    if events == [] then START
    else
      var s, e := Run(events[..|events| - 1]), events[|events| - 1];
      if Enabled(s, e) then Next(s, e) else s
  }

  lemma {:induction false} EveryRunKeepsInv(events: seq<Event>)
    ensures Inv(Run(events))
  {
    if events == [] {
    } else {
      var s, e := Run(events[..|events| - 1]), events[|events| - 1];
      EveryRunKeepsInv(events[..|events| - 1]);
      if Enabled(s, e) {
        EveryStepKeepsInv(s, e);
      }
    }
  }

  /**
   * In every run no picture is written twice, only pictures needed for output are written, and between flushes POCs
   * increase; after a final flush exactly the pictures that were needed have been written.
   */
  lemma EveryNeededPictureIsWrittenOnce(events: seq<Event>)
    ensures DistinctIds(Run(events).written) && IdsOf(Run(events).written) <= Run(events).due
    ensures Climbs(Run(events).climb, -MAX_INT, Run(events).last)
    ensures var s := Run(events + [Flush]); DistinctIds(s.written) && IdsOf(s.written) == s.due
  {
    EveryRunKeepsInv(events);
    EveryRunKeepsInv(events + [Flush]);
    assert (events + [Flush])[..|events|] == events;
  }
}
