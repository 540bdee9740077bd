/** The times AcceptBlock compares a block's with: GetMedianTimePast and FutureDrift (src/main.h). */
module BlockTime {
  import opened Wrappers
  import opened Transactions
  import opened BlockTree

  const MEDIAN_TIME_SPAN: nat := 11

  function FutureDrift(nTime: int): int {
    nTime + 10 * 60
  }

  /** The times of the block p, if there is one, and the blocks below it, n at most, the lowest first. */
  function LastTimes(t: Tree, p: Option<Hash>, n: nat): (s: seq<nat>)
    requires t.Valid() && (p.Some? ==> p.value in t.nodes)
    ensures |s| <= n && (n > 0 && p.Some? ==> s != [])
    decreases n
  {
    if n == 0 || p == None then [] else LastTimes(t, t.nodes[p.value].pprev, n - 1) + [t.nodes[p.value].block.nTime]
  }

  predicate Ordered(s: seq<nat>) {
    forall i, j :: 0 <= i < j < |s| ==> s[i] <= s[j]
  }

  /** x put into its place. */
  function Insert(s: seq<nat>, x: nat): (r: seq<nat>)
    requires Ordered(s)
    ensures Ordered(r) && multiset(r) == multiset(s) + multiset{x}
  {
    hide Ordered;
    if s == [] || s[|s| - 1] <= x then
      AppendedInOrder(s, x);
      s + [x]
    else
      var front, last := s[..|s| - 1], s[|s| - 1];
      FrontInOrder(s);
      var r := Insert(front, x);
      InsertedBelow(front, x, r, last);
      r + [last]
  }

  lemma AppendedInOrder(s: seq<nat>, x: nat)
    requires Ordered(s) && (s != [] ==> s[|s| - 1] <= x)
    ensures Ordered(s + [x])
  {
  }

  lemma FrontInOrder(s: seq<nat>)
    requires Ordered(s) && s != []
    ensures var front, last := s[..|s| - 1], s[|s| - 1];
            s == front + [last] && Ordered(front) && forall i :: 0 <= i < |front| ==> front[i] <= last
  {
  }

  lemma InsertedBelow(front: seq<nat>, x: nat, r: seq<nat>, last: nat)
    requires Ordered(r) && multiset(r) == multiset(front) + multiset{x} && x <= last
    requires forall i :: 0 <= i < |front| ==> front[i] <= last
    ensures Ordered(r + [last])
  {
    forall i | 0 <= i < |r|
      ensures r[i] <= last
    {
      assert r[i] in multiset(r);
    }
  }

  /** What std::sort makes of the times. */
  function Sort(s: seq<nat>): (r: seq<nat>)
    ensures Ordered(r) && multiset(r) == multiset(s) && |r| == |s|
  {
    if s == [] then []
    else
      assert s == s[..|s| - 1] + [s[|s| - 1]];
      var r := Insert(Sort(s[..|s| - 1]), s[|s| - 1]);
      assert |multiset(r)| == |multiset(s)|;
      r
  }

  function MedianTime(t: Tree, h: Hash): nat
    requires t.Valid() && h in t.nodes
  {
    var s := Sort(LastTimes(t, Some(h), MEDIAN_TIME_SPAN));
    s[|s| / 2]
  }

  /** GetMedianTimePast's loop: the times are collected from the top down. */
  method CollectTimes(t: Tree, pindex: Hash, nSpan: nat) returns (pbegin: seq<nat>)
    requires t.Valid() && pindex in t.nodes
    ensures pbegin == LastTimes(t, Some(pindex), nSpan)
  {
    pbegin := [];
    var p := Some(pindex);
    var i := 0;
    while i < nSpan && p.Some?
      invariant i <= nSpan && (p.Some? ==> p.value in t.nodes)
      invariant LastTimes(t, p, nSpan - i) + pbegin == LastTimes(t, Some(pindex), nSpan)
    {
      var nBlockTime := t.nodes[p.value].block.nTime;
      ghost var below := LastTimes(t, t.nodes[p.value].pprev, nSpan - i - 1);
      assert (below + [nBlockTime]) + pbegin == below + ([nBlockTime] + pbegin);
      pbegin := [nBlockTime] + pbegin;
      p := t.nodes[p.value].pprev;
      i := i + 1;
    }
    assert [] + pbegin == pbegin;
  }

  // ------------------------------------------------------------------ what a median is

  /** The blocks at the top n heights of h's branch. */
  ghost function Top(t: Tree, h: Hash, n: nat): set<Hash>
    requires t.Valid() && h in t.nodes
  {
    set a | a in t.nodes && t.Ancestor(a, h) && t.nodes[a].nHeight + n > t.nodes[h].nHeight
  }

  ghost function EarlierThan(t: Tree, h: Hash, n: nat, x: int): set<Hash>
    requires t.Valid() && h in t.nodes
  {
    set a | a in Top(t, h, n) && a in t.nodes && t.nodes[a].block.nTime < x
  }

  ghost function LaterThan(t: Tree, h: Hash, n: nat, x: int): set<Hash>
    requires t.Valid() && h in t.nodes
  {
    set a | a in Top(t, h, n) && a in t.nodes && t.nodes[a].block.nTime > x
  }

  /** x is the time of one of the last eleven blocks; half of them at most are earlier, and fewer than half later. */
  ghost predicate IsMedian(t: Tree, h: Hash, x: nat)
    requires t.Valid() && h in t.nodes
  {
    var n := Min(MEDIAN_TIME_SPAN, t.nodes[h].nHeight + 1);
    && |Top(t, h, MEDIAN_TIME_SPAN)| == n
    && (exists a :: a in Top(t, h, MEDIAN_TIME_SPAN) && a in t.nodes && t.nodes[a].block.nTime == x)
    && |EarlierThan(t, h, MEDIAN_TIME_SPAN, x)| <= n / 2
    && |LaterThan(t, h, MEDIAN_TIME_SPAN, x)| <= n - 1 - n / 2
  }

  /** How many of the numbers are smaller than x. */
  function Smaller(s: seq<nat>, x: int): (k: nat)
    ensures k <= |s|
  {
    if s == [] then 0 else Smaller(s[..|s| - 1], x) + if s[|s| - 1] < x then 1 else 0
  }

  lemma {:induction false} InsertCounts(s: seq<nat>, y: nat, x: int)
    requires Ordered(s)
    ensures Smaller(Insert(s, y), x) == Smaller(s, x) + if y < x then 1 else 0
    decreases |s|
  {
    if s == [] || s[|s| - 1] <= y {
      assert (s + [y])[..|s|] == s;
    } else {
      var front, last := s[..|s| - 1], s[|s| - 1];
      InsertCounts(front, y, x);
      var r := Insert(front, y);
      assert Insert(s, y) == r + [last] && (r + [last])[..|r|] == r;
    }
  }

  lemma {:induction false} SortCounts(s: seq<nat>, x: int)
    ensures Smaller(Sort(s), x) == Smaller(s, x)
    decreases |s|
  {
    hide Insert, Ordered;
    if s != [] {
      SortCounts(s[..|s| - 1], x);
      InsertCounts(Sort(s[..|s| - 1]), s[|s| - 1], x);
    }
  }

  /** In order, those before place i and no others may be smaller than what stands there. */
  lemma {:induction false} OrderedCounts(s: seq<nat>, n: nat, i: nat)
    requires Ordered(s) && i < |s| && n <= |s|
    ensures Smaller(s[..n], s[i]) <= i && Smaller(s[..n], s[i] + 1) >= Min(n, i + 1)
  {
    if n > 0 {
      OrderedCounts(s, n - 1, i);
      assert s[..n][..n - 1] == s[..n - 1] && s[..n][n - 1] == s[n - 1];
    }
  }

  lemma TopStep(t: Tree, h: Hash, n: nat)
    requires t.Valid() && h in t.nodes && n > 0
    ensures Top(t, h, 0) == {} && h in Top(t, h, n)
    ensures h == t.genesis ==> Top(t, h, n) == {h}
    ensures h != t.genesis ==> var p := t.nodes[h].pprev.value;
            p in t.nodes && Top(t, h, n) == Top(t, p, n - 1) + {h} && h !in Top(t, p, n - 1)
  {
    AncestorSelf(t, h);
    forall a | a in t.nodes && t.Ancestor(a, h)
      ensures t.nodes[a].nHeight <= t.nodes[h].nHeight
    {
      AncestorHeight(t, a, h);
    }
    if h != t.genesis {
      var p := t.nodes[h].pprev.value;
      OneBelow(t, h);
      forall a | a in t.nodes && t.Ancestor(a, p)
        ensures t.nodes[a].nHeight <= t.nodes[p].nHeight
      {
        AncestorHeight(t, a, p);
      }
    }
  }

  lemma OneBelow(t: Tree, h: Hash)
    requires t.Valid() && h in t.nodes && h != t.genesis
    ensures var p := t.nodes[h].pprev.value;
            p in t.nodes && t.nodes[h].nHeight == t.nodes[p].nHeight + 1 && forall a :: t.Ancestor(a, h) <==> a == h || t.Ancestor(a, p)
  {
  }

  lemma EarlierStep(t: Tree, h: Hash, n: nat, x: int)
    requires t.Valid() && h in t.nodes && n > 0
    ensures EarlierThan(t, h, 0, x) == {}
    ensures var own := if t.nodes[h].block.nTime < x then {h} else {};
            if h == t.genesis then EarlierThan(t, h, n, x) == own
            else var p := t.nodes[h].pprev.value;
                 p in t.nodes && EarlierThan(t, h, n, x) == EarlierThan(t, p, n - 1, x) + own && h !in EarlierThan(t, p, n - 1, x)
  {
    TopStep(t, h, n);
    hide Top, Tree.Ancestor;
  }

  /** Counting the blocks is counting the times. */
  lemma {:induction false} BlocksAreTimes(t: Tree, h: Hash, n: nat, x: int)
    requires t.Valid() && h in t.nodes
    ensures |Top(t, h, n)| == |LastTimes(t, Some(h), n)| == Min(n, t.nodes[h].nHeight + 1)
    ensures |EarlierThan(t, h, n, x)| == Smaller(LastTimes(t, Some(h), n), x)
    decreases n
  {
    hide Top, EarlierThan, LastTimes, Smaller, Tree.Ancestor, Tree.Valid;
    if n == 0 {
      NothingAtZero(t, h, x);
    } else {
      TopStep(t, h, n);
      EarlierStep(t, h, n, x);
      TimesStep(t, h, n, x);
      OnlyGenesisAtZero(t, h);
      NothingAtZero(t, h, x);
      if h != t.genesis {
        ParentIs(t, h);
        BlocksAreTimes(t, t.nodes[h].pprev.value, n - 1, x);
      }
    }
  }

  lemma NothingAtZero(t: Tree, h: Hash, x: int)
    requires t.Valid() && h in t.nodes
    ensures Top(t, h, 0) == {} == EarlierThan(t, h, 0, x) && LastTimes(t, Some(h), 0) == [] && Smaller([], x) == 0
  {
    TopStep(t, h, 1);
  }

  lemma ParentIs(t: Tree, h: Hash)
    requires t.Valid() && h in t.nodes && h != t.genesis
    ensures t.nodes[h].pprev.Some? && t.nodes[h].pprev.value in t.nodes && t.nodes[h].nHeight == t.nodes[t.nodes[h].pprev.value].nHeight + 1
  {
  }

  lemma TimesStep(t: Tree, h: Hash, n: nat, x: int)
    requires t.Valid() && h in t.nodes && n > 0
    ensures var below, all := LastTimes(t, t.nodes[h].pprev, n - 1), LastTimes(t, Some(h), n);
            |all| == |below| + 1 && Smaller(all, x) == Smaller(below, x) + if t.nodes[h].block.nTime < x then 1 else 0
    ensures h == t.genesis ==> LastTimes(t, t.nodes[h].pprev, n - 1) == []
  {
    var below, nTime := LastTimes(t, t.nodes[h].pprev, n - 1), t.nodes[h].block.nTime;
    assert (below + [nTime])[..|below|] == below;
  }

  lemma MiddleCounts(s: seq<nat>)
    requires Ordered(s) && s != []
    ensures Smaller(s, s[|s| / 2]) <= |s| / 2 < Smaller(s, s[|s| / 2] + 1)
  {
    hide Smaller, Ordered;
    var i := |s| / 2;
    OrderedCounts(s, |s|, i);
    assert s[..|s|] == s;
  }

  lemma EarlierOrLater(t: Tree, h: Hash, n: nat, x: int)
    requires t.Valid() && h in t.nodes
    ensures |Top(t, h, n)| == |EarlierThan(t, h, n, x + 1)| + |LaterThan(t, h, n, x)|
  {
    hide Top;
    var early, late := EarlierThan(t, h, n, x + 1), LaterThan(t, h, n, x);
    forall a | a in Top(t, h, n)
      ensures a in t.nodes
    {
      TopIsIndexed(t, h, n, a);
    }
    assert Top(t, h, n) == early + late && early !! late;
  }

  lemma TopIsIndexed(t: Tree, h: Hash, n: nat, a: Hash)
    requires t.Valid() && h in t.nodes && a in Top(t, h, n)
    ensures a in t.nodes
  {
  }

  /** The middle one of the sorted times is a median of the blocks' times. */
  lemma MedianIsMiddle(t: Tree, h: Hash)
    requires t.Valid() && h in t.nodes
    ensures IsMedian(t, h, MedianTime(t, h))
  {
    MiddleIs(t, h, MEDIAN_TIME_SPAN);
  }

  lemma MiddleIs(t: Tree, h: Hash, span: nat)
    requires t.Valid() && h in t.nodes && span > 0
    ensures var s := Sort(LastTimes(t, Some(h), span)); var x, n := s[|s| / 2], |s|;
            && |Top(t, h, span)| == n == Min(span, t.nodes[h].nHeight + 1)
            && (exists a :: a in Top(t, h, span) && a in t.nodes && t.nodes[a].block.nTime == x)
            && |EarlierThan(t, h, span, x)| <= n / 2 && |LaterThan(t, h, span, x)| <= n - 1 - n / 2
  {
    hide LastTimes, Sort, Smaller, EarlierThan, LaterThan, Top, Tree.Valid, Tree.Ancestor, Ordered;
    var times := LastTimes(t, Some(h), span);
    var s := Sort(times);
    var x := s[|s| / 2];
    BlocksAreTimes(t, h, span, x);
    BlocksAreTimes(t, h, span, x + 1);
    SortCounts(times, x);
    SortCounts(times, x + 1);
    MiddleCounts(s);
    EarlierOrLater(t, h, span, x);
    assert x in multiset(s);
    TimeIsInTop(t, h, span, x);
  }

  lemma {:induction false} TimeIsInTop(t: Tree, h: Hash, n: nat, x: nat)
    requires t.Valid() && h in t.nodes && x in LastTimes(t, Some(h), n)
    ensures exists a :: a in Top(t, h, n) && a in t.nodes && t.nodes[a].block.nTime == x
    decreases n
  {
    TopStep(t, h, n);
    hide Top;
    if t.nodes[h].block.nTime != x {
      var p := t.nodes[h].pprev;
      assert p.Some? && x in LastTimes(t, p, n - 1);
      TimeIsInTop(t, p.value, n - 1, x);
      var a :| a in Top(t, p.value, n - 1) && a in t.nodes && t.nodes[a].block.nTime == x;
      assert a in Top(t, h, n);
    }
  }

  /** GetMedianTimePast: the middle one of the last times, sorted. */
  method MedianTimePast(t: Tree, pindex: Hash) returns (nTime: nat)
    requires t.Valid() && pindex in t.nodes
    ensures nTime == MedianTime(t, pindex) && IsMedian(t, pindex, nTime)
  {
    MedianIsMiddle(t, pindex);
    hide LastTimes, Ordered, IsMedian;
    var pbegin := CollectTimes(t, pindex, MEDIAN_TIME_SPAN);
    pbegin := Sort(pbegin);
    return pbegin[|pbegin| / 2];
  }

  /** AcceptBlock's two tests of a block's time against the block below it. */
  predicate TimeOk(t: Tree, prev: Hash, nTime: nat)
    requires t.Valid() && prev in t.nodes
  {
    nTime > MedianTime(t, prev) && FutureDrift(nTime) >= t.nodes[prev].block.nTime
  }

  lemma EarlierGrows(t: Tree, h: Hash, n: nat, x: int, y: int)
    requires t.Valid() && h in t.nodes && x <= y
    ensures |EarlierThan(t, h, n, x)| <= |EarlierThan(t, h, n, y)|
  {
    hide Top;
    SubsetSize(EarlierThan(t, h, n, x), EarlierThan(t, h, n, y));
  }

  lemma MedianCounts(t: Tree, h: Hash, x: nat)
    requires t.Valid() && h in t.nodes && IsMedian(t, h, x)
    ensures var n := |Top(t, h, MEDIAN_TIME_SPAN)|;
            |EarlierThan(t, h, MEDIAN_TIME_SPAN, x)| <= n / 2 && |LaterThan(t, h, MEDIAN_TIME_SPAN, x)| <= n - 1 - n / 2
  {
    hide Top, EarlierThan, LaterThan, Tree.Valid;
  }

  /** To be after the median is to be after more than half of the last eleven blocks. */
  lemma AfterMedianIff(t: Tree, h: Hash, nTime: nat)
    requires t.Valid() && h in t.nodes
    ensures nTime > MedianTime(t, h) <==> 2 * |EarlierThan(t, h, MEDIAN_TIME_SPAN, nTime)| > |Top(t, h, MEDIAN_TIME_SPAN)|
  {
    hide *;
    var x := MedianTime(t, h);
    MedianIsMiddle(t, h);
    MedianCounts(t, h, x);
    EarlierOrLater(t, h, MEDIAN_TIME_SPAN, x);
    if nTime > x {
      EarlierGrows(t, h, MEDIAN_TIME_SPAN, x + 1, nTime);
    } else {
      EarlierGrows(t, h, MEDIAN_TIME_SPAN, nTime, x);
    }
  }

  /** A block later than every block below it passes. */
  lemma LaterIsOk(t: Tree, prev: Hash, nTime: nat)
    requires t.Valid() && prev in t.nodes && forall a :: t.Ancestor(a, prev) && a in t.nodes ==> t.nodes[a].block.nTime < nTime
    ensures TimeOk(t, prev, nTime)
  {
    hide MedianTime;
    MedianIsMiddle(t, prev);
    AncestorSelf(t, prev);
  }

  /** More blocks change nothing below. */
  lemma TopStable(t: Tree, u: Tree, h: Hash, n: nat, x: int)
    requires t.Valid() && u.Valid() && t.genesis == u.genesis && h in t.nodes
    requires forall a :: a in t.nodes ==> a in u.nodes && u.nodes[a] == t.nodes[a]
    ensures h in u.nodes && Top(u, h, n) == Top(t, h, n) && EarlierThan(u, h, n, x) == EarlierThan(t, h, n, x)
  {
    BranchStable(t, u, h);
    forall a | t.Ancestor(a, h)
      ensures a in t.nodes
    {
      AncestorHeight(t, a, h);
    }
  }
}
