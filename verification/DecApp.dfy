/** The decoder application's picture list, updated in place while pictures are written. */
module DecApp {
  import opened DecoderOutput

  class Picture {
    const id: nat
    const poc: int
    var neededForOutput: bool
    var referenced: bool
    var reconstructed: bool

    constructor (i: nat, p: int, needed: bool)
      ensures id == i && poc == p && neededForOutput == needed && referenced && reconstructed
    {
      id, poc, neededForOutput, referenced, reconstructed := i, p, needed, true, true;
    }

    ghost function View(): Pic
      reads this
    {
      Pic(id, poc, neededForOutput, referenced, reconstructed)
    }
  }

  ghost function ViewOf(list: seq<Picture>): (v: seq<Pic>)
    reads list
    ensures |v| == |list| && forall i | 0 <= i < |list| :: v[i] == list[i].View()
  {
    if list == [] then [] else [list[0].View()] + ViewOf(list[1..])
  }

  ghost predicate NoPictureTwice(list: seq<Picture>) {
    forall i, j | 0 <= i < j < |list| :: list[i] != list[j]
  }

  class DecApp {
    /** POC of the last picture written, and the pictures in the order they went to the file. */
    var pocLastDisplay: int
    var file: seq<Picture>
    ghost var written: seq<Pic>

    /** The file holds the pictures written, each as often and where it was written. */
    ghost predicate Valid()
      reads this
    {
      |file| == |written| && forall i | 0 <= i < |file| :: file[i].id == written[i].id && file[i].poc == written[i].poc
    }

    constructor ()
      ensures Valid() && pocLastDisplay == -MAX_INT && file == [] && written == []
    {
      pocLastDisplay, file, written := -MAX_INT, [], [];
    }

    /** How many pictures wait and how many are held. */
    method CountPictures(list: seq<Picture>) returns (numPicsNotYetDisplayed: nat, dpbFullness: nat)
      ensures numPicsNotYetDisplayed == |WaitingOf(ViewOf(list), pocLastDisplay)|
      ensures dpbFullness == Fullness(ViewOf(list), pocLastDisplay)
    {
      numPicsNotYetDisplayed, dpbFullness := 0, 0;
      ghost var all := ViewOf(list);
      for i := 0 to |list|
        invariant numPicsNotYetDisplayed + |WaitingOf(all[i..], pocLastDisplay)| == |WaitingOf(all, pocLastDisplay)|
        invariant dpbFullness + Fullness(all[i..], pocLastDisplay) == Fullness(all, pocLastDisplay)
      {
        assert all[i..][0] == list[i].View() && all[i..][1..] == all[i + 1..];
        var pcPic := list[i];
        if pcPic.neededForOutput && pcPic.poc > pocLastDisplay {
          numPicsNotYetDisplayed := numPicsNotYetDisplayed + 1;
          dpbFullness := dpbFullness + 1;
        } else if pcPic.referenced {
          dpbFullness := dpbFullness + 1;
        }
      }
    }

    /** Writes one picture and frees it unless it is referenced. */
    method WritePicture(pcPic: Picture)
      requires Valid()
      modifies this, pcPic
      ensures Valid() && file == old(file) + [pcPic] && written == old(written) + [old(pcPic.View())]
      ensures pocLastDisplay == pcPic.poc && pcPic.View() == Shown(old(pcPic.View()))
    {
      file, written := file + [pcPic], written + [pcPic.View()];
      pocLastDisplay := pcPic.poc;
      if !pcPic.referenced && pcPic.reconstructed {
        pcPic.reconstructed := false;
      }
      pcPic.neededForOutput := false;
    }

    /** Writes picture i of a list; the others stay as they are. */
    method WriteAt(list: seq<Picture>, i: nat)
      requires Valid() && NoPictureTwice(list) && i < |list|
      modifies this, list[i]
      ensures Valid() && file == old(file) + [list[i]]
      ensures written == old(written) + [old(ViewOf(list))[i]] && pocLastDisplay == list[i].poc
      ensures ViewOf(list) == old(ViewOf(list))[i := Shown(old(ViewOf(list))[i])]
    {
      ghost var v := ViewOf(list);
      WritePicture(list[i]);
      forall j | 0 <= j < |list|
        ensures ViewOf(list)[j] == v[i := Shown(v[i])][j]
      {
        assert j != i ==> list[j].View() == old(list[j].View());
      }
    }

    /** `xWriteOutput`, frame pictures, with the limits of the highest temporal layer decoded. */
    method WriteOutput(list: seq<Picture>, maxReorder: nat, maxBuffering: nat)
      requires Valid() && NoPictureTwice(list)
      modifies this, list
      ensures Valid() && old(file) <= file
      ensures var o := Output(old(ViewOf(list)), old(pocLastDisplay), maxReorder, maxBuffering);
        ViewOf(list) == o.pics && pocLastDisplay == o.last && written == old(written) + o.written
    {
      if list == [] {
        return;
      }
      var num, held := CountPictures(list);
      ghost var all := Output(ViewOf(list), pocLastDisplay, maxReorder, maxBuffering);
      ghost var start := written;
      ghost var out: seq<Pic> := [];
      var waiting: int, dpbFullness: int := num, held;
      var i := 0;
      TrackStarts(ViewOf(list), pocLastDisplay, num, held, maxReorder, maxBuffering);
      assert ViewOf(list)[0..] == ViewOf(list);
      while i < |list|
        invariant 0 <= i <= |list| && written == start + out && Valid() && old(file) <= file
        invariant i <= |ViewOf(list)| && OnTrack(all, ViewOf(list), i, pocLastDisplay, waiting, dpbFullness, maxReorder, maxBuffering, out)
        invariant Counted(ViewOf(list)[i..], pocLastDisplay, waiting, dpbFullness)
      {
        i, waiting, dpbFullness, out := VisitPicture(list, i, all, start, out, waiting, dpbFullness, maxReorder, maxBuffering);
      }
      TrackEnds(all, ViewOf(list), pocLastDisplay, waiting, dpbFullness, maxReorder, maxBuffering, out);
    }

    /** The counters are signed and the limits unsigned; as they never become negative, both read the same. */
    method VisitPicture(list: seq<Picture>, i: nat, ghost all: Outcome, ghost start: seq<Pic>, ghost out: seq<Pic>,
                        waiting: int, dpbFullness: int, maxReorder: nat, maxBuffering: nat)
      returns (next: nat, newWaiting: int, newFullness: int, ghost newOut: seq<Pic>)
      requires Valid() && NoPictureTwice(list) && i < |list| && written == start + out
      requires OnTrack(all, ViewOf(list), i, pocLastDisplay, waiting, dpbFullness, maxReorder, maxBuffering, out)
      requires Counted(ViewOf(list)[i..], pocLastDisplay, waiting, dpbFullness)
      modifies this, list
      ensures next == i + 1 && OnTrack(all, ViewOf(list), next, pocLastDisplay, newWaiting, newFullness, maxReorder, maxBuffering, newOut)
      ensures Counted(ViewOf(list)[next..], pocLastDisplay, newWaiting, newFullness)
      ensures written == start + newOut && Valid() && old(file) <= file
    {
      next, newWaiting, newFullness, newOut := i + 1, waiting, dpbFullness, out;
      var pcPic := list[i];
      ghost var left, held := waiting - 1, if pcPic.referenced then dpbFullness else dpbFullness - 1;
      ghost var v := ViewOf(list);
      FromHere(v, i, Shown(v[i]));
      CountersStayTrue(v[i..], pocLastDisplay, waiting, dpbFullness, left, held);
      if pcPic.neededForOutput && pcPic.poc > pocLastDisplay
         && (AsUnsigned(waiting) > maxReorder || AsUnsigned(dpbFullness) > maxBuffering) {
        ghost var shown := v[i := Shown(v[i])];
        WritePastOne(all, v, i, pocLastDisplay, waiting, dpbFullness, maxReorder, maxBuffering, out, shown, next, left, held);
        newWaiting, newOut := waiting - 1, out + [v[i]];
        if !pcPic.referenced {
          newFullness := dpbFullness - 1;
        }
        WriteAt(list, i);
        assert ViewOf(list) == shown;
      } else {
        PassOne(all, v, i, pocLastDisplay, waiting, dpbFullness, maxReorder, maxBuffering, out, next);
      }
    }

    method FlushPicture(list: seq<Picture>, i: nat, ghost before: seq<Pic>)
      requires Valid() && NoPictureTwice(list) && i < |list| == |before| && ViewOf(list)[i..] == before[i..]
      modifies this, list
      ensures Valid() && old(file) <= file
      ensures ViewOf(list)[i + 1..] == before[i + 1..]
      ensures written + Needed(before[i + 1..]) == old(written) + Needed(before[i..])
    {
      ghost var v, p, rest, was := ViewOf(list), before[i], Needed(before[i + 1..]), written;
      NeededFrom(before, i);
      NextTail(v, before, i);
      if list[i].neededForOutput {
        WriteAt(list, i);
        FromHere(v, i, Shown(v[i]));
        assert was + ([p] + rest) == (was + [p]) + rest;
      }
    }

    /** `xFlushOutput`, frame pictures: everything needed is written, in list order, and the list is emptied. */
    method FlushOutput(list: seq<Picture>) returns (newList: seq<Picture>)
      requires Valid() && NoPictureTwice(list)
      modifies this, list
      ensures Valid() && old(file) <= file
      ensures newList == [] && written == old(written) + Needed(old(ViewOf(list)))
      ensures list != [] ==> pocLastDisplay == -MAX_INT
      ensures list == [] ==> pocLastDisplay == old(pocLastDisplay)
    {
      newList := [];
      if list == [] {
        return;
      }
      ghost var before := ViewOf(list);
      var i := 0;
      assert before[0..] == before;
      while i < |list|
        invariant 0 <= i <= |list| && Valid() && old(file) <= file
        invariant ViewOf(list)[i..] == before[i..]
        invariant old(written) + Needed(before) == written + Needed(before[i..])
      {
        FlushPicture(list, i, before);
        i := i + 1;
      }
      assert before[|list|..] == [];
      pocLastDisplay := -MAX_INT;
    }
  }

  lemma NeededFrom(pics: seq<Pic>, i: nat)
    requires i < |pics|
    ensures Needed(pics[i..]) == (if pics[i].needed then [pics[i]] else []) + Needed(pics[i + 1..])
  {
    assert pics[i..][0] == pics[i] && pics[i..][1..] == pics[i + 1..];
  }

  lemma NextTail(a: seq<Pic>, b: seq<Pic>, i: nat)
    requires i < |a| == |b| && a[i..] == b[i..]
    ensures a[i + 1..] == b[i + 1..] && a[i] == b[i]
  {
    assert a[i] == a[i..][0] && b[i] == b[i..][0];
    assert a[i + 1..] == a[i..][1..] && b[i + 1..] == b[i..][1..];
  }

  lemma FromHere(v: seq<Pic>, i: nat, p: Pic)
    requires i < |v|
    ensures v[i..] != [] && v[i..][0] == v[i] && v[i..][1..] == v[i + 1..] == v[i := p][i + 1..]
  {
  }
}
