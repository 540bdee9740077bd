/** Which entry a full tried bucket loses: what SelectTried returns in terms of the bucket and the random draws
    (src/addrman.cpp). */
module AddrEviction {
  import opened Wrappers
  import opened AddrTable
  import opened AddrTried
  import opened AddrOps

  // ------------------------------------------------------------------ the draws

  /** The bucket after the first n rounds of the shuffle. */
  function Shuffled(v: seq<nat>, rand: nat -> nat, n: nat): (w: seq<nat>)
    requires n <= |v|
    ensures |w| == |v|
  {
    if n == 0 then v else Swapped(Shuffled(v, rand, n - 1), n - 1, Pick(rand, |v|, n - 1))
  }

  /** The entry drawn in round j. */
  function DrawnIn(v: seq<nat>, rand: nat -> nat, j: nat): nat
    requires j < |v|
  {
    Shuffled(v, rand, j)[Pick(rand, |v|, j)]
  }

  /** A drawn entry stays in the slot of its round. */
  lemma {:induction false} DrawnStays(v: seq<nat>, rand: nat -> nat, n: nat, j: nat)
    requires j < n <= |v|
    ensures Shuffled(v, rand, n)[j] == DrawnIn(v, rand, j)
  {
    if j < n - 1 {
      DrawnStays(v, rand, n - 1, j);
    }
  }

  lemma {:induction false} ShuffledPermutes(v: seq<nat>, rand: nat -> nat, n: nat)
    requires n <= |v|
    ensures Permuted(v, Shuffled(v, rand, n))
  {
    hide Permuted, Swapped;
    if n == 0 {
      PermutedReflexive(v);
    } else {
      ShuffledPermutes(v, rand, n - 1);
      SwappedPermutes(Shuffled(v, rand, n - 1), n - 1, Pick(rand, |v|, n - 1));
      PermutedTransitive(v, Shuffled(v, rand, n - 1), Shuffled(v, rand, n));
    }
  }

  lemma {:induction false} ShuffledKnown(m: map<nat, AddrInfo>, v: seq<nat>, rand: nat -> nat, n: nat)
    requires Known(m, v) && n <= |v|
    ensures Known(m, Shuffled(v, rand, n))
  {
    if n > 0 {
      ShuffledKnown(m, v, rand, n - 1);
    }
  }

  /** How many rounds there are. */
  function Rounds(size: nat): nat {
    Min(TRIED_ENTRIES_INSPECT_ON_EVICT, size)
  }

  /** When the entries drawn in the first n rounds were last successful. */
  function LastSuccesses(m: map<nat, AddrInfo>, v: seq<nat>, rand: nat -> nat, n: nat): (xs: seq<int>)
    requires n <= |v|
    ensures |xs| == n
  {
    if n == 0 then []
    else
      var id := DrawnIn(v, rand, n - 1);
      LastSuccesses(m, v, rand, n - 1) + [if id in m then m[id].nLastSuccess else 0]
  }

  /** The first position of a least value. */
  function FirstLeast(xs: seq<int>): (j: nat)
    requires xs != []
    ensures j < |xs| && (forall i :: 0 <= i < |xs| ==> xs[j] <= xs[i]) && forall i :: 0 <= i < j ==> xs[j] < xs[i]
  {
    var n := |xs| - 1;
    if n == 0 then 0
    else
      var j := FirstLeast(xs[..n]);
      if xs[n] < xs[j] then n else j
  }

  /** The first of n rounds that draws a least recently successful entry. */
  function OldestRound(m: map<nat, AddrInfo>, v: seq<nat>, rand: nat -> nat, n: nat): (j: nat)
    requires 0 < n <= |v|
    ensures j < n
  {
    FirstLeast(LastSuccesses(m, v, rand, n))
  }

  lemma {:induction false} LastSuccessAt(m: map<nat, AddrInfo>, v: seq<nat>, rand: nat -> nat, n: nat, j: nat)
    requires j < n <= |v|
    ensures LastSuccesses(m, v, rand, n)[j] == var id := DrawnIn(v, rand, j); if id in m then m[id].nLastSuccess else 0
  {
    hide DrawnIn;
    if j < n - 1 {
      LastSuccessAt(m, v, rand, n - 1, j);
    }
  }

  /** One more round. */
  lemma OldestRoundNext(m: map<nat, AddrInfo>, v: seq<nat>, rand: nat -> nat, n: nat)
    requires 0 < n < |v|
    ensures var j, id, last := OldestRound(m, v, rand, n), DrawnIn(v, rand, OldestRound(m, v, rand, n)), DrawnIn(v, rand, n);
            id in m && last in m ==>
              OldestRound(m, v, rand, n + 1) == if m[last].nLastSuccess < m[id].nLastSuccess then n else j
  {
    hide DrawnIn;
    var xs := LastSuccesses(m, v, rand, n + 1);
    assert xs[..n] == LastSuccesses(m, v, rand, n);
    LastSuccessAt(m, v, rand, n + 1, n);
    LastSuccessAt(m, v, rand, n, OldestRound(m, v, rand, n));
  }

  // ------------------------------------------------------------------ what SelectTried returns

  /** The loop of SelectTried after n rounds, in terms of the draws. */
  predicate After(m: map<nat, AddrInfo>, v: seq<nat>, rand: nat -> nat, c: Choice, n: nat)
    requires n <= |v|
  {
    && c.bucket == Shuffled(v, rand, n)
    && if n == 0 then c.oldest == None && c.pos == -1
       else var j := OldestRound(m, v, rand, n); c.pos == Pick(rand, |v|, j) && c.oldest == Some(DrawnIn(v, rand, j)) && c.slot == j
  }

  lemma {:induction false} InspectAfter(m: map<nat, AddrInfo>, v: seq<nat>, rand: nat -> nat, c: Choice, n: nat)
    requires Known(m, v) && n <= Rounds(|v|) && After(m, v, rand, c, n)
    ensures Known(m, c.bucket) && (c.oldest.Some? ==> c.oldest.value in m)
    ensures After(m, v, rand, Inspect(m, c, rand, n), Rounds(|v|))
    decreases |v| - n
  {
    AfterKnown(m, v, rand, c, n);
    if n < Rounds(|v|) {
      hide After, InspectOne;
      AfterOneMore(m, v, rand, c, n);
      InspectAfter(m, v, rand, InspectOne(m, c, rand, n), n + 1);
    }
  }

  lemma AfterKnown(m: map<nat, AddrInfo>, v: seq<nat>, rand: nat -> nat, c: Choice, n: nat)
    requires Known(m, v) && n <= |v| && After(m, v, rand, c, n)
    ensures Known(m, c.bucket) && (c.oldest.Some? ==> c.oldest.value in m) && |c.bucket| == |v|
  {
    hide OldestRound, Shuffled;
    ShuffledKnown(m, v, rand, n);
    if n > 0 {
      ShuffledKnown(m, v, rand, OldestRound(m, v, rand, n));
    }
  }

  /** One more round of SelectTried. */
  lemma AfterOneMore(m: map<nat, AddrInfo>, v: seq<nat>, rand: nat -> nat, c: Choice, n: nat)
    requires Known(m, v) && n < |v| && After(m, v, rand, c, n) && Known(m, c.bucket) && (c.oldest.Some? ==> c.oldest.value in m)
    ensures n < |c.bucket| && After(m, v, rand, InspectOne(m, c, rand, n), n + 1)
  {
    hide Swapped, Pick, LastSuccesses, FirstLeast;
    if n > 0 {
      OldestRoundNext(m, v, rand, n);
      hide OldestRound;
    }
  }

  /** SelectTried returns the slot that the first least recently successful of the drawn entries was drawn from. */
  lemma SelectTriedIs(m: map<nat, AddrInfo>, v: seq<nat>, rand: nat -> nat)
    requires Known(m, v) && v != []
    ensures var c, j := SelectTried(m, v, rand), OldestRound(m, v, rand, Rounds(|v|));
            c.bucket == Shuffled(v, rand, Rounds(|v|)) && c.pos == Pick(rand, |v|, j)
  {
    InspectAfter(m, v, rand, NO_CHOICE.(bucket := v), 0);
  }

  /** That entry is in the returned slot if and only if its draw did not move it. */
  lemma ReturnsOldestIff(m: map<nat, AddrInfo>, v: seq<nat>, rand: nat -> nat)
    requires Known(m, v) && NoRepeats(v) && v != []
    ensures var c, j := SelectTried(m, v, rand), OldestRound(m, v, rand, Rounds(|v|));
            && 0 <= c.pos < |c.bucket|
            && (c.bucket[c.pos] == DrawnIn(v, rand, j) <==> rand(j) % (|v| - j) == 0)
  {
    hide SelectTried, OldestRound, DrawnIn, Shuffled;
    SelectTriedIs(m, v, rand);
    var w, j := Shuffled(v, rand, Rounds(|v|)), OldestRound(m, v, rand, Rounds(|v|));
    ShuffledPermutes(v, rand, Rounds(|v|));
    OldestInRange(m, v, rand);
    DrawnStays(v, rand, Rounds(|v|), j);
    assert NoRepeats(w);
    var p := Pick(rand, |v|, j);
    assert p != j ==> w[p] != w[j];
  }

  lemma OldestInRange(m: map<nat, AddrInfo>, v: seq<nat>, rand: nat -> nat)
    requires v != []
    ensures OldestRound(m, v, rand, Rounds(|v|)) < Rounds(|v|) <= |v|
  {
  }

  // ------------------------------------------------------------------ which entry MakeTried replaces

  /** An id about to be moved to a tried bucket that is full. */
  predicate Crowded(k: Buckets, s: Table, id: nat, origin: nat) {
    Inv(k, s) && Promotable(s, id, origin) && |s.vvTried[k.Tried(s.mapInfo[id].addr)]| == TRIED_BUCKET_SIZE
  }

  function Full(k: Buckets, s: Table, id: nat): (v: seq<nat>)
    requires Inv(k, s) && id in s.mapInfo
  {
    s.vvTried[k.Tried(s.mapInfo[id].addr)]
  }

  lemma FullFacts(k: Buckets, s: Table, id: nat, origin: nat)
    requires Crowded(k, s, id, origin)
    ensures var v := Full(k, s, id); |v| == TRIED_BUCKET_SIZE && Known(s.mapInfo, v) && NoRepeats(v)
    ensures forall i :: 0 <= i < TRIED_BUCKET_SIZE ==> s.mapInfo[Full(k, s, id)[i]].fInTried
  {
    hide IdsOk, RandomOk, CountsOk, StatsOk, NewOk;
  }

  /** The entry that leaves the tried tables. */
  function Leaving(k: Buckets, s: Table, id: nat, origin: nat, rand: nat -> nat): nat
    requires Crowded(k, s, id, origin)
  {
    FullFacts(k, s, id, origin);
    var v := Full(k, s, id);
    Shuffled(v, rand, 4)[Pick(rand, |v|, OldestRound(s.mapInfo, v, rand, 4))]
  }

  /** MakeTried takes exactly that entry of the full bucket out of the tried tables. */
  lemma OneLeaves(k: Buckets, s: Table, id: nat, origin: nat, rand: nat -> nat, x: nat)
    requires Crowded(k, s, id, origin) && x in Full(k, s, id)
    ensures var t := MakeTried(k, s, id, origin, rand);
            x in t.mapInfo && (t.mapInfo[x].fInTried <==> x != Leaving(k, s, id, origin, rand))
  {
    FullFacts(k, s, id, origin);
    var v, b := Full(k, s, id), k.Tried(s.mapInfo[id].addr);
    SelectTriedIs(s.mapInfo, v, rand);
    ReadyToExchange(k, s, id, origin, rand);
    hide IdsOk, RandomOk, CountsOk, StatsOk, NewPlaced, NewCounted, NewSized, SelectTried, Exchange, Shuffled, OldestRound, NoRepeats;
    var c := SelectTried(s.mapInfo, v, rand);
    var u := Reorder(s, b, c.bucket);
    var b', gone := ReplacedEntry(k, u, id, origin, c.pos);
    hide TriedOk, NewOk, InvP, Promotable;
    ExchangeInfo(k, u, id, origin, c.pos, b, gone);
    var i :| 0 <= i < |v| && v[i] == x;
  }

  /** The least recently successful entry it looked at is the one replaced if and only if the round that first drew such
      an entry drew it from its own slot. */
  lemma OldestLeavesIff(k: Buckets, s: Table, id: nat, origin: nat, rand: nat -> nat)
    requires Crowded(k, s, id, origin)
    ensures var v := Full(k, s, id);
            |v| == TRIED_BUCKET_SIZE && Known(s.mapInfo, v) &&
            var j := OldestRound(s.mapInfo, v, rand, 4);
            (Leaving(k, s, id, origin, rand) == DrawnIn(v, rand, j) <==> rand(j) % (TRIED_BUCKET_SIZE - j) == 0)
  {
    hide InvP, Shuffled, DrawnIn, OldestRound, SelectTried, NoRepeats, Known, Pick;
    FullFacts(k, s, id, origin);
    SelectTriedIs(s.mapInfo, Full(k, s, id), rand);
    ReturnsOldestIff(s.mapInfo, Full(k, s, id), rand);
  }

  // ------------------------------------------------------------------ a newer one may leave

  /** Round 0 draws slot p and the other rounds draw their own slots. */
  function DrawFirst(p: nat): nat -> nat {
    (i: nat) => if i == 0 then p else 0
  }

  /** A round that draws its own slot changes nothing. */
  lemma IdleRound(v: seq<nat>, rand: nat -> nat, n: nat)
    requires n < |v| && rand(n) == 0
    ensures Pick(rand, |v|, n) == n
    ensures Shuffled(v, rand, n + 1) == Shuffled(v, rand, n) && DrawnIn(v, rand, n) == Shuffled(v, rand, n)[n]
  {
    hide Shuffled;
    assert Shuffled(v, rand, n + 1) == Swapped(Shuffled(v, rand, n), n, n) by {
      NextRound(v, rand, n);
    }
  }

  lemma NextRound(v: seq<nat>, rand: nat -> nat, n: nat)
    requires n < |v|
    ensures Shuffled(v, rand, n + 1) == Swapped(Shuffled(v, rand, n), n, Pick(rand, |v|, n)) && Shuffled(v, rand, 0) == v
  {
    hide Swapped, Pick;
  }

  lemma DrawFirstShuffles(v: seq<nat>, p: nat)
    requires |v| == TRIED_BUCKET_SIZE && 4 <= p < |v|
    ensures Shuffled(v, DrawFirst(p), 4) == Swapped(v, 0, p) && DrawnIn(v, DrawFirst(p), 0) == v[p]
    ensures forall j :: 1 <= j < 4 ==> DrawnIn(v, DrawFirst(p), j) == v[j]
    ensures Pick(DrawFirst(p), |v|, 0) == p
  {
    var rand := DrawFirst(p);
    assert Pick(rand, |v|, 0) == p;
    NextRound(v, rand, 0);
    SwappedElsewhere(v, p);
    hide Shuffled, Swapped, Pick;
    IdleRound(v, rand, 1);
    IdleRound(v, rand, 2);
    IdleRound(v, rand, 3);
    assert DrawnIn(v, rand, 0) == v[p];
    hide DrawnIn;
  }

  lemma SwappedElsewhere(v: seq<nat>, p: nat)
    requires 0 < p < |v|
    ensures forall j :: 0 < j < |v| && j != p ==> Swapped(v, 0, p)[j] == v[j]
  {
  }

  lemma DrawFirstOldest(m: map<nat, AddrInfo>, v: seq<nat>, p: nat)
    requires Known(m, v) && |v| == TRIED_BUCKET_SIZE && 4 <= p < |v|
    requires forall j :: 0 <= j < 4 ==> m[v[p]].nLastSuccess < m[v[j]].nLastSuccess
    ensures OldestRound(m, v, DrawFirst(p), 4) == 0
  {
    DrawFirstShuffles(v, p);
    hide Shuffled, DrawnIn, Pick, LastSuccesses;
    var rand := DrawFirst(p);
    forall j | 0 <= j < 4
      ensures LastSuccesses(m, v, rand, 4)[j] == m[if j == 0 then v[p] else v[j]].nLastSuccess
    {
      LastSuccessAt(m, v, rand, 4, j);
    }
  }

  /** In every full bucket with an entry older than the first four, there are draws for which that entry is looked at
      and stays, and the entry in slot 0, which is newer and was not looked at, leaves. */
  lemma NewerMayLeave(k: Buckets, s: Table, id: nat, origin: nat, p: nat)
    requires Crowded(k, s, id, origin) && 4 <= p < TRIED_BUCKET_SIZE
    requires var v := Full(k, s, id);
             |v| == TRIED_BUCKET_SIZE && Known(s.mapInfo, v) &&
             forall j :: 0 <= j < 4 ==> s.mapInfo[v[p]].nLastSuccess < s.mapInfo[v[j]].nLastSuccess
    ensures var v, t := Full(k, s, id), MakeTried(k, s, id, origin, DrawFirst(p));
            && v[p] in t.mapInfo && t.mapInfo[v[p]].fInTried
            && v[0] in t.mapInfo && !t.mapInfo[v[0]].fInTried
  {
    hide InvP, Shuffled, DrawnIn, OldestRound, MakeTried, Pick;
    var v, rand := Full(k, s, id), DrawFirst(p);
    FullFacts(k, s, id, origin);
    DrawFirstShuffles(v, p);
    DrawFirstOldest(s.mapInfo, v, p);
    assert Leaving(k, s, id, origin, rand) == v[0];
    assert v[0] != v[p] && v[0] in v && v[p] in v;
    hide Leaving, Full, NoRepeats, Known;
    OneLeaves(k, s, id, origin, rand, v[0]);
    OneLeaves(k, s, id, origin, rand, v[p]);
  }

  // ------------------------------------------------------------------ an example

  function Upto(n: nat): (r: set<nat>)
    ensures |r| == n && forall i :: i in r <==> 0 <= i < n
  {
    if n == 0 then {}
    else
      assert n - 1 !in Upto(n - 1);
      Upto(n - 1) + {n - 1}
  }

  function ExampleInfo(size: nat, id: nat): AddrInfo {
    AddrInfo(Service(id as NetAddr, 0), {}, 0, 0, 0, if id == size - 1 then 1 else 2, 0, if id < size then 0 else 1, id < size, id)
  }

  /** As many entries in one tried bucket as that size, and one more in a new bucket; the last of the tried ones is the least
      recently successful. */
  function Example(size: nat): Table {
    var ids := Upto(size + 1);
    Table(size + 1, map id | id in ids :: ExampleInfo(size, id), map id | id in ids :: id as NetAddr := id, seq(size + 1, i => i),
          size, seq(TRIED_BUCKET_COUNT, b => if b == 0 then seq(size, i => i) else []),
          1, seq(NEW_BUCKET_COUNT, b => if b == 0 then {size} else {}))
  }

  /** All addresses hash to bucket 0. */
  ghost predicate ToBucketZero(k: Buckets) {
    && (forall a :: k.Tried(a) == 0) && forall a, source :: k.New(a, source) == 0
  }

  lemma ExampleEntries(size: nat)
    requires size <= TRIED_BUCKET_SIZE
    ensures var s := Example(size); IdsOk(s) && RandomOk(s) && StatsOk(s) && CountsOk(s)
  {
    hide Upto;
    var s := Example(size);
    assert TriedIds(s) == Upto(size);
    assert NewIds(s) == {size};
  }

  lemma ExampleTried(k: Buckets, size: nat)
    requires size <= TRIED_BUCKET_SIZE && ToBucketZero(k)
    ensures TriedOk(k, Example(size))
  {
    hide Upto;
    var s := Example(size);
    assert s.vvTried[0] == seq(size, i => i);
    forall id | id in s.mapInfo && s.mapInfo[id].fInTried
      ensures id in s.vvTried[0]
    {
      assert s.vvTried[0][id] == id;
    }
  }

  lemma ExampleNew(size: nat)
    ensures NewOk(Example(size), None)
  {
    hide Upto;
    var s := Example(size);
    InOneBucket(s.vvNew, size, 0, |s.vvNew|);
    assert s.vvNew[..|s.vvNew|] == s.vvNew;
    assert CountedOk(s, None, size);
  }

  lemma ExampleCrowded(k: Buckets, size: nat)
    requires size == TRIED_BUCKET_SIZE && ToBucketZero(k)
    ensures var s := Example(size); Crowded(k, s, size, 0) && |Full(k, s, size)| == size && forall j :: 0 <= j < size ==> Full(k, s, size)[j] == j
  {
    ExampleEntries(size);
    ExampleTried(k, size);
    ExampleNew(size);
    hide IdsOk, RandomOk, StatsOk, CountsOk, TriedOk, NewOk, Upto;
    assert Promotable(Example(size), size, 0);
  }

  /** The last of the tried entries is the least recently successful. */
  lemma ExampleAges(size: nat)
    requires size > 0
    ensures var m := Example(size).mapInfo;
            && (forall i :: 0 <= i < size ==> i in m) && m[size - 1].nLastSuccess == 1
            && forall i :: 0 <= i < size - 1 ==> m[i].nLastSuccess == 2
  {
    hide Upto;
  }

  lemma CrowdedIs(k: Buckets, s: Table, id: nat, origin: nat)
    requires Crowded(k, s, id, origin)
    ensures Inv(k, s) && id in s.mapInfo
  {
    hide InvP;
  }

  lemma ReplacesNewerAt(k: Buckets, size: nat)
    requires size == TRIED_BUCKET_SIZE && ToBucketZero(k)
    ensures Crowded(k, Example(size), size, 0)
    ensures var s, t := Example(size), MakeTried(k, Example(size), size, 0, DrawFirst(size - 1));
            && 0 in s.mapInfo && size - 1 in s.mapInfo && s.mapInfo[size - 1].nLastSuccess < s.mapInfo[0].nLastSuccess
            && size - 1 in t.mapInfo && t.mapInfo[size - 1].fInTried && 0 in t.mapInfo && !t.mapInfo[0].fInTried
  {
    hide ToBucketZero, InvP, Full, MakeTried, Upto, Promotable, Example, Known, DrawFirst;
    ExampleCrowded(k, size);
    ExampleAges(size);
    var s := Example(size);
    CrowdedIs(k, s, size, 0);
    FullFacts(k, s, size, 0);
    assert forall j :: 0 <= j < 4 ==> Full(k, s, size)[j] == j;
    NewerMayLeave(k, s, size, 0, size - 1);
  }

  /** Good_ on such a table can replace a more recently successful entry and keep the older one it looked at. */
  lemma ReplacesNewer() returns (k: Buckets, s: Table)
    ensures Crowded(k, s, 64, 0)
    ensures var t := MakeTried(k, s, 64, 0, DrawFirst(63));
            && 0 in s.mapInfo && 63 in s.mapInfo && s.mapInfo[63].nLastSuccess < s.mapInfo[0].nLastSuccess
            && 63 in t.mapInfo && t.mapInfo[63].fInTried && 0 in t.mapInfo && !t.mapInfo[0].fInTried
  {
    hide Crowded, MakeTried, Example;
    k, s := Buckets(_ => 0, (_, _) => 0), Example(TRIED_BUCKET_SIZE);
    ReplacesNewerAt(k, TRIED_BUCKET_SIZE);
  }
}
