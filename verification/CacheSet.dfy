/** One set of the cache as a value: its lines, and the packed tree bits that choose what to replace. */
module CacheSet {
  import opened Arithmetic
  import opened PlruTree
  import opened PlruWord

  /** What a cache line is looked up by: line address, picture order count and colour component. */
  datatype Key = Key(addr: nat, poc: int, comp: int)

  datatype Line = Empty | Filled(key: Key)

  datatype Set = Set(lines: seq<Line>, tree: Word)

  /** The first way at or after `from` that holds the key, or the number of ways. */
  function FindWay(lines: seq<Line>, key: Key, from: nat): (w: nat)
    requires from <= |lines|
    ensures from <= w <= |lines|
    ensures w < |lines| ==> lines[w] == Filled(key)
    ensures forall i | from <= i < w :: lines[i] != Filled(key)
    decreases |lines| - from
  {
    if from == |lines| || lines[from] == Filled(key) then from else FindWay(lines, key, from + 1)
  }

  predicate Hit(s: Set, key: Key) {
    Filled(key) in s.lines
  }

  /** One access to a set of Pow2(d) ways. */
  function Access(s: Set, d: nat, key: Key): (r: Set)
    requires |s.lines| == Pow2(d)
    ensures |r.lines| == Pow2(d)
  {
    var w := FindWay(s.lines, key, 0);
    if w < |s.lines| then
      Set(s.lines, WordTouch(s.tree, d, w))
    else
      var v := WordVictim(s.tree, d);
      Set(s.lines[v := Filled(key)], WordTouch(s.tree, d, v))
  }

  function Run(s: Set, d: nat, keys: seq<Key>): (r: Set)
    requires |s.lines| == Pow2(d)
    ensures |r.lines| == Pow2(d)
    decreases |keys|
  {
    if keys == [] then s else Run(Access(s, d, keys[0]), d, keys[1..])
  }

  /** Which of the accesses hit. */
  function Trace(s: Set, d: nat, keys: seq<Key>): (r: seq<bool>)
    requires |s.lines| == Pow2(d)
    ensures |r| == |keys|
    decreases |keys|
  {
    if keys == [] then [] else [Hit(s, keys[0])] + Trace(Access(s, d, keys[0]), d, keys[1..])
  }

  // ---- No key is cached twice, and every key is in the set its address selects ----

  ghost predicate Unique(s: Set) {
    forall i, j | 0 <= i < j < |s.lines| && s.lines[i].Filled? :: s.lines[i] != s.lines[j]
  }

  ghost predicate Placed(s: Set, e: nat, numCacheLine: nat)
    requires numCacheLine >= 1
  {
    forall i | 0 <= i < |s.lines| && s.lines[i].Filled? :: s.lines[i].key.addr % numCacheLine == e
  }

  /** An access keeps both properties and leaves its key in the set, touched last. */
  lemma AccessKeeps(s: Set, d: nat, key: Key, e: nat, numCacheLine: nat) returns (w: nat)
    requires |s.lines| == Pow2(d) && numCacheLine >= 1
    requires Unique(s) && Placed(s, e, numCacheLine) && key.addr % numCacheLine == e
    ensures Unique(Access(s, d, key)) && Placed(Access(s, d, key), e, numCacheLine)
    ensures w < Pow2(d) && Access(s, d, key).lines[w] == Filled(key)
    ensures Exposure(TreeOf(Access(s, d, key).tree, 0, d), d, w) == 0
  {
    var f := FindWay(s.lines, key, 0);
    w := if f < |s.lines| then f else WordVictim(s.tree, d);
    TouchedIsHidden(TreeOf(s.tree, 0, d), d, w);
  }

  /** The same for the key's way alone, in any set. */
  lemma AccessTouches(s: Set, d: nat, key: Key) returns (w: nat)
    requires |s.lines| == Pow2(d)
    ensures w < Pow2(d) && Access(s, d, key).lines[w] == Filled(key)
    ensures Exposure(TreeOf(Access(s, d, key).tree, 0, d), d, w) == 0
  {
    var f := FindWay(s.lines, key, 0);
    w := if f < |s.lines| then f else WordVictim(s.tree, d);
    TouchedIsHidden(TreeOf(s.tree, 0, d), d, w);
  }

  // ---- Straight misses replace the whole set ----

  lemma {:induction false} MissesFollowTheTree(s: Set, d: nat, keys: seq<Key>, n: nat)
    requires |s.lines| == Pow2(d) && n <= |keys| <= Pow2(d)
    requires forall i | 0 <= i < |keys| :: !Trace(s, d, keys)[i]
    ensures Run(s, d, keys[..n]).tree == WordEvict(s.tree, d, n)
    ensures forall k | 0 <= k < n :: Run(s, d, keys[..n]).lines[WordVictim(WordEvict(s.tree, d, k), d)] == Filled(keys[k])
  {
    if n > 0 {
      MissesFollowTheTree(s, d, keys, n - 1);
      var u := Run(s, d, keys[..n - 1]);
      assert keys[..n] == keys[..n - 1] + [keys[n - 1]];
      RunAppend(s, d, keys[..n - 1], keys[n - 1]);
      TraceAt(s, d, keys, n - 1);
      forall k | 0 <= k < n - 1
        ensures WordVictim(WordEvict(s.tree, d, k), d) != WordVictim(WordEvict(s.tree, d, n - 1), d)
      {
        VictimsDiffer(s.tree, d, k, n - 1);
      }
    } else {
      assert keys[..0] == [];
    }
  }

  lemma VictimsDiffer(b: Word, d: nat, j: nat, k: nat)
    requires j < k < Pow2(d)
    ensures WordVictim(WordEvict(b, d, j), d) != WordVictim(WordEvict(b, d, k), d)
  {
    FullTurn(b, d);
    var w := WordVictim(WordEvict(b, d, k), d);
    assert k == TurnOf(TreeOf(b, 0, d), d, w);
  }

  lemma {:induction false} RunAppend(s: Set, d: nat, keys: seq<Key>, key: Key)
    requires |s.lines| == Pow2(d)
    ensures Run(s, d, keys + [key]) == Access(Run(s, d, keys), d, key)
    decreases |keys|
  {
    if keys == [] {
      assert (keys + [key])[1..] == [];
    } else {
      assert (keys + [key])[1..] == keys[1..] + [key];
      RunAppend(Access(s, d, keys[0]), d, keys[1..], key);
    }
  }

  lemma {:induction false} TraceAt(s: Set, d: nat, keys: seq<Key>, n: nat)
    requires |s.lines| == Pow2(d) && n < |keys|
    ensures Trace(s, d, keys)[n] == Hit(Run(s, d, keys[..n]), keys[n])
    decreases |keys|
  {
    if n > 0 {
      assert keys[..n][1..] == keys[1..][..n - 1];
      TraceAt(Access(s, d, keys[0]), d, keys[1..], n - 1);
    } else {
      assert keys[..0] == [];
    }
  }

  /**
   * As many misses in a row as there are ways replace the whole set, whatever the tree bits were: every way
   * ends with one of the missed keys, each key in its own way, and the tree bits are back where they started.
   */
  lemma MissesReplaceWholeSet(s: Set, d: nat, keys: seq<Key>)
    requires |s.lines| == Pow2(d) == |keys|
    requires forall i | 0 <= i < |keys| :: !Trace(s, d, keys)[i]
    ensures Run(s, d, keys).tree == s.tree
    ensures forall w: nat | w < Pow2(d) :: Run(s, d, keys).lines[w] == Filled(keys[TurnOf(TreeOf(s.tree, 0, d), d, w)])
  {
    MissesFollowTheTree(s, d, keys, |keys|);
    assert keys[..|keys|] == keys;
    FullTurn(s.tree, d);
    forall w: nat | w < Pow2(d)
      ensures Run(s, d, keys).lines[w] == Filled(keys[TurnOf(TreeOf(s.tree, 0, d), d, w)])
    {
      var k := TurnOf(TreeOf(s.tree, 0, d), d, w);
      assert WordVictim(WordEvict(s.tree, d, k), d) == w;
    }
  }

  // ---- A line just used survives as many accesses as the tree is deep ----

  lemma {:induction false} HiddenLineStays(s: Set, d: nat, w: nat, keys: seq<Key>)
    requires |s.lines| == Pow2(d) && w < Pow2(d)
    requires Exposure(TreeOf(s.tree, 0, d), d, w) + |keys| <= d
    ensures Run(s, d, keys).lines[w] == s.lines[w]
    decreases |keys|
  {
    if keys == [] {
    } else {
      var t := TreeOf(s.tree, 0, d);
      var f := FindWay(s.lines, keys[0], 0);
      var v := if f < |s.lines| then f else WordVictim(s.tree, d);
      VictimIffExposed(t, d, w);
      ExposureGrowsByOne(t, d, w, v);
      HiddenLineStays(Access(s, d, keys[0]), d, w, keys[1..]);
    }
  }

  /** After an access, the next d accesses of any kind to a set of Pow2(d) ways leave its key cached. */
  lemma RecentKeySurvives(s: Set, d: nat, key: Key, keys: seq<Key>)
    requires |s.lines| == Pow2(d) && |keys| <= d
    ensures Hit(Run(Access(s, d, key), d, keys), key)
  {
    var w := AccessTouches(s, d, key);
    var u := Access(s, d, key);
    HiddenLineStays(u, d, w, keys);
    assert Run(u, d, keys).lines[w] == Filled(key);
  }

  /** In a full set, d hits on the siblings of way w and one miss do evict w, however recently it was used. */
  lemma SurvivalIsTight(s: Set, d: nat, w: nat, newKey: Key)
    requires |s.lines| == Pow2(d) && w < Pow2(d) && Unique(s)
    requires forall i | 0 <= i < |s.lines| :: s.lines[i].Filled?
    requires !Hit(s, newKey)
    ensures var others := seq(d, i requires 0 <= i < d => s.lines[Siblings(d, w)[i]].key);
      s.lines[w].key !in others && Run(s, d, others + [newKey]).lines[w] == Filled(newKey)
  {
    var ws := Siblings(d, w);
    var others := seq(d, i requires 0 <= i < d => s.lines[ws[i]].key);
    forall i | 0 <= i < d ensures others[i] != s.lines[w].key {
      assert s.lines[ws[i]] != s.lines[w];
    }
    RunAppend(s, d, others, newKey);
    HitsTouch(s, d, ws, others);
    SiblingsExpose(TreeOf(s.tree, 0, d), d, w);
  }

  /** In a set without duplicates a key is found at its own way. */
  lemma KeyIsFoundWhereItIs(s: Set, w: nat, key: Key)
    requires Unique(s) && w < |s.lines| && s.lines[w] == Filled(key)
    ensures FindWay(s.lines, key, 0) == w
  {
    var f := FindWay(s.lines, key, 0);
    assert !(f < w);
  }

  /** Hits leave the lines alone and touch the tree. */
  lemma {:induction false} HitsTouch(s: Set, d: nat, ws: seq<nat>, keys: seq<Key>)
    requires |s.lines| == Pow2(d) && Unique(s) && |ws| == |keys|
    requires forall i | 0 <= i < |ws| :: ws[i] < Pow2(d) && s.lines[ws[i]] == Filled(keys[i])
    ensures Run(s, d, keys).lines == s.lines
    ensures TreeOf(Run(s, d, keys).tree, 0, d) == TouchAll(TreeOf(s.tree, 0, d), d, ws)
    decreases |keys|
  {
    if keys == [] {
    } else {
      KeyIsFoundWhereItIs(s, ws[0], keys[0]);
      HitsTouch(Access(s, d, keys[0]), d, ws[1..], keys[1..]);
    }
  }

  // ---- With one or two ways the policy is exactly least recently used ----

  /** The keys of an LRU cache of n entries, most recently used first, after an access. */
  function LruAccess(l: seq<Key>, n: nat, key: Key): seq<Key>
    requires n >= 1
  {
    [key] + Without(l, key)[..Min(n - 1, |Without(l, key)|)]
  }

  function Without(l: seq<Key>, key: Key): seq<Key> {
    if l == [] then [] else if l[0] == key then l[1..] else [l[0]] + Without(l[1..], key)
  }

  function LruTrace(l: seq<Key>, n: nat, keys: seq<Key>): seq<bool>
    requires n >= 1
    decreases |keys|
  {
    if keys == [] then [] else [keys[0] in l] + LruTrace(LruAccess(l, n, keys[0]), n, keys[1..])
  }

  /** A set of one or two ways holds what LRU would hold, the next victim being the least recent. */
  ghost predicate MatchesLru(s: Set, d: nat, l: seq<Key>)
    requires d <= 1 && |s.lines| == Pow2(d)
  {
    if d == 0 then |l| <= 1 && s.lines[0] == (if |l| == 1 then Filled(l[0]) else Empty)
    else PairMatches(s.lines, WordVictim(s.tree, d), l)
  }

  lemma MatchesLruStep(s: Set, d: nat, l: seq<Key>, key: Key)
    requires d <= 1 && |s.lines| == Pow2(d) && MatchesLru(s, d, l)
    ensures Hit(s, key) <==> key in l
    ensures MatchesLru(Access(s, d, key), d, LruAccess(l, |s.lines|, key))
  {
    if d == 1 {
      MatchesLruStepTwo(s, d, l, key);
    } else {
      assert Pow2(0) == 1;
    }
  }

  /** An LRU pair keeps the accessed key and the one that was most recent before. */
  lemma LruPair(l: seq<Key>, key: Key)
    requires |l| <= 2 && (|l| == 2 ==> l[0] != l[1])
    ensures LruAccess(l, 2, key) == if |l| == 0 then [key] else if key == l[0] then l else [key, l[0]]
  {
    if |l| == 2 {
      assert l == [l[0], l[1]] && l[1..] == [l[1]] && l[1..][1..] == [];
    } else if |l| == 1 {
      assert l[1..] == [];
    }
  }

  /** Two lines of which v is the next victim hold what an LRU pair holds. */
  ghost predicate PairMatches(lines: seq<Line>, v: nat, l: seq<Key>) {
    && |lines| == 2 && v < 2 && |l| <= 2
    && lines[1 - v] == (if |l| >= 1 then Filled(l[0]) else Empty)
    && lines[v] == (if |l| == 2 then Filled(l[1]) else Empty)
    && (|l| == 2 ==> l[0] != l[1])
  }

  lemma PairStep(lines: seq<Line>, v: nat, l: seq<Key>, key: Key)
    requires PairMatches(lines, v, l)
    ensures var w := FindWay(lines, key, 0); var u := if w < 2 then w else v;
      && (w < 2 <==> key in l) && (w < 2 <==> Filled(key) in lines)
      && PairMatches(if w < 2 then lines else lines[v := Filled(key)], 1 - u, LruAccess(l, 2, key))
  {
    LruPair(l, key);
  }

  lemma MatchesLruStepTwo(s: Set, d: nat, l: seq<Key>, key: Key)
    requires d == 1 && |s.lines| == Pow2(d) && MatchesLru(s, d, l)
    ensures Hit(s, key) <==> key in l
    ensures MatchesLru(Access(s, d, key), d, LruAccess(l, 2, key))
  {
    AccessPair(s, d, key);
    PairStep(s.lines, WordVictim(s.tree, d), l, key);
  }

  /** An access to two ways: the lines after it, and the way not used becomes the victim. */
  lemma AccessPair(s: Set, d: nat, key: Key)
    requires d == 1 && |s.lines| == Pow2(d)
    ensures |s.lines| == 2
    ensures var w, v, r := FindWay(s.lines, key, 0), WordVictim(s.tree, d), Access(s, d, key);
      && v < 2
      && r.lines == (if w < 2 then s.lines else s.lines[v := Filled(key)])
      && WordVictim(r.tree, d) == 1 - (if w < 2 then w else v)
  {
    var w, v := FindWay(s.lines, key, 0), WordVictim(s.tree, d);
    TwoWays(TreeOf(s.tree, 0, d), d, if w < 2 then w else v);
  }

  /** With two ways, the victim is always the one not used last. */
  lemma TwoWays(t: Tree, d: nat, w: nat)
    requires d == 1 && Perfect(t, d) && w < 2
    ensures Pow2(d) == 2 && Victim(t, d) < 2 && Victim(Touch(t, d, w), d) == 1 - w
  {
    assert Pow2(0) == 1;
    assert t.zeros == Leaf && t.ones == Leaf;
  }

  lemma {:induction false} LruTraceFrom(s: Set, d: nat, l: seq<Key>, keys: seq<Key>)
    requires d <= 1 && |s.lines| == Pow2(d) && MatchesLru(s, d, l)
    ensures Trace(s, d, keys) == LruTrace(l, Pow2(d), keys)
    decreases |keys|
  {
    if keys == [] {
    } else {
      MatchesLruStep(s, d, l, keys[0]);
      LruTraceFrom(Access(s, d, keys[0]), d, LruAccess(l, Pow2(d), keys[0]), keys[1..]);
    }
  }

  /** From a cleared set of one or two ways, with any tree bits, hits and misses are exactly those of LRU. */
  lemma SmallSetsAreLru(s: Set, d: nat, keys: seq<Key>)
    requires d <= 1 && |s.lines| == Pow2(d)
    requires forall i | 0 <= i < |s.lines| :: s.lines[i] == Empty
    ensures Trace(s, d, keys) == LruTrace([], Pow2(d), keys)
  {
    LruTraceFrom(s, d, [], keys);
  }

  // ---- With more ways it is not ----

  function LruRun(l: seq<Key>, n: nat, keys: seq<Key>): seq<Key>
    requires n >= 1
    decreases |keys|
  {
    if keys == [] then l else LruRun(LruAccess(l, n, keys[0]), n, keys[1..])
  }

  lemma {:induction false} LruTraceAt(l: seq<Key>, n: nat, keys: seq<Key>, k: nat)
    requires n >= 1 && k < |keys|
    ensures |LruTrace(l, n, keys)| == |keys| && LruTrace(l, n, keys)[k] == (keys[k] in LruRun(l, n, keys[..k]))
    decreases k
  {
    LruTraceLength(l, n, keys);
    if k == 0 {
      assert keys[..0] == [];
    } else {
      assert keys[..k][1..] == keys[1..][..k - 1];
      LruTraceAt(LruAccess(l, n, keys[0]), n, keys[1..], k - 1);
    }
  }

  lemma {:induction false} LruTraceLength(l: seq<Key>, n: nat, keys: seq<Key>)
    requires n >= 1
    ensures |LruTrace(l, n, keys)| == |keys|
    decreases |keys|
  {
    if keys == [] {
    } else {
      LruTraceLength(LruAccess(l, n, keys[0]), n, keys[1..]);
    }
  }

  lemma {:induction false} LruRunConcat(l: seq<Key>, n: nat, a: seq<Key>, b: seq<Key>)
    requires n >= 1
    ensures LruRun(l, n, a + b) == LruRun(LruRun(l, n, a), n, b)
    decreases |a|
  {
    if a == [] {
      assert a + b == b;
    } else {
      assert (a + b)[1..] == a[1..] + b;
      LruRunConcat(LruAccess(l, n, a[0]), n, a[1..], b);
    }
  }

  lemma {:induction false} WithoutKeepsPlace(l: seq<Key>, key: Key, i: nat) returns (j: nat)
    requires i < |l| && l[i] != key
    ensures j <= i && j < |Without(l, key)| && Without(l, key)[j] == l[i]
    decreases |l|
  {
    if l[0] == key {
      j := i - 1;
    } else if i == 0 {
      j := 0;
    } else {
      j := WithoutKeepsPlace(l[1..], key, i - 1);
      j := j + 1;
    }
  }

  /** A key moves at most one place back with each access. */
  lemma LruMovesByOne(l: seq<Key>, n: nat, key: Key, i: nat) returns (j: nat)
    requires i < |l| && i + 1 < n
    ensures j <= i + 1 && j < |LruAccess(l, n, key)| && LruAccess(l, n, key)[j] == l[i]
  {
    if l[i] == key {
      j := 0;
    } else {
      j := WithoutKeepsPlace(l, key, i);
      j := j + 1;
    }
  }

  /** LRU keeps a key for as many accesses as there are entries behind it. */
  lemma {:induction false} LruKeeps(l: seq<Key>, n: nat, keys: seq<Key>, i: nat)
    requires i < |l| && i + |keys| < n
    ensures l[i] in LruRun(l, n, keys)
    decreases |keys|
  {
    if keys == [] {
    } else {
      var j := LruMovesByOne(l, n, keys[0], i);
      LruKeeps(LruAccess(l, n, keys[0]), n, keys[1..], j);
    }
  }

  lemma {:induction false} RunConcat(s: Set, d: nat, a: seq<Key>, b: seq<Key>)
    requires |s.lines| == Pow2(d)
    ensures Run(s, d, a + b) == Run(Run(s, d, a), d, b)
    decreases |a|
  {
    if a == [] {
      assert a + b == b;
    } else {
      assert (a + b)[1..] == a[1..] + b;
      RunConcat(Access(s, d, a[0]), d, a[1..], b);
    }
  }

  /** A set holds what it held or what has been accessed. */
  lemma {:induction false} RunHolds(s: Set, d: nat, keys: seq<Key>, key: Key)
    requires |s.lines| == Pow2(d) && Hit(Run(s, d, keys), key)
    ensures Hit(s, key) || key in keys
    decreases |keys|
  {
    if keys == [] {
    } else {
      RunHolds(Access(s, d, keys[0]), d, keys[1..], key);
    }
  }

  /** As many different keys as there are ways. */
  function Fresh(n: nat): (keys: seq<Key>)
    ensures |keys| == n && forall i | 0 <= i < n :: keys[i] == Key(i, 0, 0)
  {
    seq(n, i requires 0 <= i < n => Key(i, 0, 0))
  }

  ghost predicate Cleared(s: Set) {
    forall i | 0 <= i < |s.lines| :: s.lines[i] == Empty
  }

  lemma FreshMiss(s: Set, d: nat, n: nat, i: nat)
    requires |s.lines| == Pow2(d) && Cleared(s) && i < n
    ensures !Trace(s, d, Fresh(n))[i]
  {
    var keys := Fresh(n);
    TraceAt(s, d, keys, i);
    if Hit(Run(s, d, keys[..i]), keys[i]) {
      RunHolds(s, d, keys[..i], keys[i]);
      assert false;
    }
  }

  /** Once filled with different keys a set holds each of them once. */
  lemma FilledSet(s: Set, d: nat, n: nat) returns (w: nat)
    requires |s.lines| == Pow2(d) == n && Cleared(s)
    ensures var r := Run(s, d, Fresh(n));
      && Unique(r) && (forall i | 0 <= i < n :: r.lines[i].Filled?) && w < n && r.lines[w] == Filled(Key(n - 1, 0, 0))
  {
    var keys := Fresh(n);
    forall i | 0 <= i < n ensures !Trace(s, d, keys)[i] {
      FreshMiss(s, d, n, i);
    }
    MissesReplaceWholeSet(s, d, keys);
    var t, r := TreeOf(s.tree, 0, d), Run(s, d, keys);
    w := LastTurn(s.tree, d, n);
    forall i, j | 0 <= i < j < n
      ensures r.lines[i] != r.lines[j]
    {
      TurnsDiffer(s.tree, d, i, j);
      assert r.lines[i] == Filled(keys[TurnOf(t, d, i)]) && r.lines[j] == Filled(keys[TurnOf(t, d, j)]);
    }
  }

  lemma LastTurn(b: Word, d: nat, n: nat) returns (w: nat)
    requires n == Pow2(d)
    ensures w < n && TurnOf(TreeOf(b, 0, d), d, w) == n - 1
  {
    FullTurn(b, d);
    w := WordVictim(WordEvict(b, d, n - 1), d);
  }

  lemma TurnsDiffer(b: Word, d: nat, i: nat, j: nat)
    requires i < j < Pow2(d)
    ensures TurnOf(TreeOf(b, 0, d), d, i) != TurnOf(TreeOf(b, 0, d), d, j)
  {
    FullTurn(b, d);
    var k := TurnOf(TreeOf(b, 0, d), d, i);
    assert WordVictim(WordEvict(b, d, k), d) == i;
  }

  /** In a full set without duplicates, d hits and a miss evict any way's key. */
  lemma Evicted(r: Set, d: nat, w: nat, newKey: Key) returns (others: seq<Key>)
    requires |r.lines| == Pow2(d) && w < Pow2(d) && Unique(r) && !Hit(r, newKey)
    requires forall i | 0 <= i < |r.lines| :: r.lines[i].Filled?
    ensures |others| == d && !Hit(Run(r, d, others + [newKey]), r.lines[w].key)
  {
    var ws := Siblings(d, w);
    others := seq(d, i requires 0 <= i < d => r.lines[ws[i]].key);
    SurvivalIsTight(r, d, w, newKey);
    RunAppend(r, d, others, newKey);
    HitsTouch(r, d, ws, others);
    var u := Run(r, d, others);
    assert u.lines == r.lines;
    OneReplaced(u, d, w, newKey);
  }

  lemma OneReplaced(u: Set, d: nat, w: nat, newKey: Key)
    requires |u.lines| == Pow2(d) && w < Pow2(d) && Unique(u) && !Hit(u, newKey) && u.lines[w].Filled?
    requires Access(u, d, newKey).lines[w] == Filled(newKey)
    ensures !Hit(Access(u, d, newKey), u.lines[w].key)
  {
    assert FindWay(u.lines, newKey, 0) == |u.lines|;
    var v := WordVictim(u.tree, d);
    assert v == w;
  }

  lemma {:induction false} MoreWaysThanDepth(d: nat)
    requires d >= 2
    ensures d + 2 <= Pow2(d)
  {
    if d == 2 {
      assert Pow2(2) == 2 * Pow2(1) && Pow2(1) == 2 * Pow2(0);
    } else {
      MoreWaysThanDepth(d - 1);
    }
  }

  /** From a cleared set of four or more ways, with any tree bits, some accesses hit under LRU and miss here. */
  lemma BigSetsAreNotLru(s: Set, d: nat) returns (keys: seq<Key>)
    requires d >= 2 && |s.lines| == Pow2(d) && Cleared(s)
    ensures Trace(s, d, keys) != LruTrace([], Pow2(d), keys)
  {
    var n := Pow2(d);
    MoreWaysThanDepth(d);
    var fill, last, newKey := Fresh(n), Key(n - 1, 0, 0), Key(n, 0, 0);
    var w := FilledSet(s, d, n);
    var r := Run(s, d, fill);
    if Hit(r, newKey) {
      RunHolds(s, d, fill, newKey);
      assert false;
    }
    var others := Evicted(r, d, w, newKey);
    var before := fill + (others + [newKey]);
    keys := before + [last];
    assert keys[..|before|] == before && keys[|before|] == last;
    TraceAt(s, d, keys, |before|);
    RunConcat(s, d, fill, others + [newKey]);
    LruTraceAt([], n, keys, |before|);
    LruKeepsLast(n, fill, others + [newKey]);
  }

  lemma LruKeepsLast(n: nat, fill: seq<Key>, more: seq<Key>)
    requires fill != [] && |more| < n
    ensures fill[|fill| - 1] in LruRun([], n, fill + more)
  {
    var init, last := fill[..|fill| - 1], fill[|fill| - 1];
    assert fill == init + [last];
    LruRunConcat([], n, init, [last]);
    var l := LruRun([], n, init);
    assert LruRun(l, n, [last]) == LruAccess(l, n, last) by { assert [last][1..] == []; }
    LruRunConcat([], n, fill, more);
    LruKeeps(LruRun([], n, fill), n, more, 0);
  }

  /** One or two ways is exactly when the policy is LRU. */
  lemma LruIffSmall(d: nat)
    ensures (forall s: Set, keys: seq<Key> | |s.lines| == Pow2(d) && Cleared(s) :: Trace(s, d, keys) == LruTrace([], Pow2(d), keys))
       <==> d <= 1
  {
    if d <= 1 {
      forall s: Set, keys: seq<Key> | |s.lines| == Pow2(d) && Cleared(s)
        ensures Trace(s, d, keys) == LruTrace([], Pow2(d), keys)
      {
        SmallSetsAreLru(s, d, keys);
      }
    } else {
      var s := Set(seq(Pow2(d), i => Empty), {});
      var keys := BigSetsAreNotLru(s, d);
    }
  }

  // ---- The whole cache: accesses to different sets do not meet ----

  function WholeAccess(sets: seq<Set>, d: nat, key: Key): (r: seq<Set>)
    requires |sets| >= 1 && forall e | 0 <= e < |sets| :: |sets[e].lines| == Pow2(d)
    ensures |r| == |sets| && forall e | 0 <= e < |r| :: |r[e].lines| == Pow2(d)
  {
    var e := key.addr % |sets|;
    sets[e := Access(sets[e], d, key)]
  }

  function WholeRun(sets: seq<Set>, d: nat, keys: seq<Key>): (r: seq<Set>)
    requires |sets| >= 1 && forall e | 0 <= e < |sets| :: |sets[e].lines| == Pow2(d)
    ensures |r| == |sets| && forall e | 0 <= e < |r| :: |r[e].lines| == Pow2(d)
    decreases |keys|
  {
    if keys == [] then sets else WholeRun(WholeAccess(sets, d, keys[0]), d, keys[1..])
  }

  /** The accesses of a run that go to set e of n. */
  function Selected(keys: seq<Key>, n: nat, e: nat): seq<Key>
    requires n >= 1
  {
    if keys == [] then []
    else if keys[0].addr % n == e then [keys[0]] + Selected(keys[1..], n, e)
    else Selected(keys[1..], n, e)
  }

  /** A set ends a run of the whole cache as if it had seen its own accesses alone. */
  lemma {:induction false} SetsRunAlone(sets: seq<Set>, d: nat, keys: seq<Key>, e: nat)
    requires e < |sets| && forall f | 0 <= f < |sets| :: |sets[f].lines| == Pow2(d)
    ensures WholeRun(sets, d, keys)[e] == Run(sets[e], d, Selected(keys, |sets|, e))
    decreases |keys|
  {
    if keys == [] {
    } else {
      SetsRunAlone(WholeAccess(sets, d, keys[0]), d, keys[1..], e);
    }
  }

  ghost predicate WholeConsistent(sets: seq<Set>)
    requires |sets| >= 1
  {
    forall e | 0 <= e < |sets| :: Unique(sets[e]) && Placed(sets[e], e, |sets|)
  }

  /** In every run of the whole cache from consistent sets, no key is ever cached twice or in a wrong set. */
  lemma {:induction false} RunsStayConsistent(sets: seq<Set>, d: nat, keys: seq<Key>)
    requires |sets| >= 1 && forall e | 0 <= e < |sets| :: |sets[e].lines| == Pow2(d)
    requires WholeConsistent(sets)
    ensures WholeConsistent(WholeRun(sets, d, keys))
    decreases |keys|
  {
    if keys == [] {
    } else {
      var e := keys[0].addr % |sets|;
      var w := AccessKeeps(sets[e], d, keys[0], e, |sets|);
      var after := WholeAccess(sets, d, keys[0]);
      assert after == sets[e := Access(sets[e], d, keys[0])];
      RunsStayConsistent(after, d, keys[1..]);
    }
  }

  /** A key survives any run of the whole cache with at most d accesses to its own set. */
  lemma RecentKeySurvivesWholeRun(sets: seq<Set>, d: nat, key: Key, keys: seq<Key>)
    requires |sets| >= 1 && forall e | 0 <= e < |sets| :: |sets[e].lines| == Pow2(d)
    requires |Selected(keys, |sets|, key.addr % |sets|)| <= d
    ensures Hit(WholeRun(WholeAccess(sets, d, key), d, keys)[key.addr % |sets|], key)
  {
    var e := key.addr % |sets|;
    SetsRunAlone(WholeAccess(sets, d, key), d, keys, e);
    RecentKeySurvives(sets[e], d, key, Selected(keys, |sets|, e));
  }
}
