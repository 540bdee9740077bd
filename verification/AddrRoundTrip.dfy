/** Writing a consistent address table and reading it back (src/addrman.h). */
module AddrRoundTrip {
  import opened Wrappers
  import opened AddrTable
  import opened AddrTried
  import opened AddrExact
  import opened AddrSaved
  import opened AddrReload

  // ------------------------------------------------------------------ the buckets of a file

  /** How many of the first n lists have x. */
  function CountIn(lists: seq<seq<nat>>, x: nat, n: nat): (r: nat)
    requires n <= |lists|
  {
    if n == 0 then 0 else CountIn(lists, x, n - 1) + if x in lists[n - 1] then 1 else 0
  }

  lemma {:induction false} CountInGrows(lists: seq<seq<nat>>, x: nat, m: nat, n: nat)
    requires m <= n <= |lists|
    ensures CountIn(lists, x, m) <= CountIn(lists, x, n)
  {
    if m < n {
      CountInGrows(lists, x, m, n - 1);
    }
  }

  /** The entries after reading some positions of a bucket. */
  predicate CountedOnce(t: Table, u: Table, seen: seq<nat>) {
    && u.mapInfo.Keys == t.mapInfo.Keys
    && forall x :: x in t.mapInfo ==> u.mapInfo[x] == t.mapInfo[x].(nRefCount := t.mapInfo[x].nRefCount + if x in seen then 1 else 0)
  }

  /** The entries after reading the first n buckets. */
  predicate CountedTimes(t: Table, u: Table, lists: seq<seq<nat>>, n: nat)
    requires n <= |lists|
  {
    && u.mapInfo.Keys == t.mapInfo.Keys
    && forall x :: x in t.mapInfo ==> u.mapInfo[x] == t.mapInfo[x].(nRefCount := t.mapInfo[x].nRefCount + CountIn(lists, x, n))
  }

  predicate Countable(t: Table, list: seq<nat>) {
    Known(t.mapInfo, list) && NoRepeats(list) && LowCounts(t, list)
  }

  predicate LowCounts(t: Table, list: seq<nat>)
    requires Known(t.mapInfo, list)
  {
    forall i :: 0 <= i < |list| ==> t.mapInfo[list[i]].nRefCount < NEW_BUCKETS_PER_ADDRESS
  }

  /** t after the positions in seen have been read into its bucket b. */
  predicate BucketRead(t: Table, u: Table, b: nat, seen: seq<nat>)
    requires b < |t.vvNew|
  {
    u == t.(mapInfo := u.mapInfo, vvNew := t.vvNew[b := t.vvNew[b] + Elements(seen)]) && CountedOnce(t, u, seen)
  }

  lemma {:induction false} LoadBucketIs(t: Table, b: nat, list: seq<nat>, n: nat)
    requires b < |t.vvNew| && n <= |list| && Countable(t, list)
    ensures BucketRead(t, LoadBucket(t, b, list, n, true), b, list[..n])
  {
    hide BucketRead, Elements, LowCounts, Known, NoRepeats;
    if n > 0 {
      var u, x := LoadBucket(t, b, list, n - 1, true), list[n - 1];
      LoadBucketIs(t, b, list, n - 1);
      NextCountable(t, list, n);
      LoadPosition(t, u, b, list[..n - 1], x);
      BucketKeeps(t, u, b, list[..n - 1]);
      assert EntryOf(u.mapInfo, x) == u.mapInfo[x];
      assert list[..n] == list[..n - 1] + [list[n - 1]];
    } else {
      NothingRead(t, b);
      assert list[..n] == [];
    }
  }

  lemma BucketKeeps(t: Table, u: Table, b: nat, seen: seq<nat>)
    requires b < |t.vvNew| && BucketRead(t, u, b, seen)
    ensures u.mapInfo.Keys == t.mapInfo.Keys
  {
  }

  lemma NothingRead(t: Table, b: nat)
    requires b < |t.vvNew|
    ensures BucketRead(t, t, b, [])
  {
    assert t.vvNew[b] + Elements([]) == t.vvNew[b];
  }

  lemma NextCountable(t: Table, list: seq<nat>, n: nat)
    requires Countable(t, list) && 0 < n <= |list|
    ensures var x := list[n - 1]; x in t.mapInfo && x !in list[..n - 1] && t.mapInfo[x].nRefCount < NEW_BUCKETS_PER_ADDRESS
  {
  }

  lemma LoadPosition(t: Table, u: Table, b: nat, seen: seq<nat>, x: nat)
    requires x in t.mapInfo && x !in seen && t.mapInfo[x].nRefCount < NEW_BUCKETS_PER_ADDRESS && b < |t.vvNew|
    requires BucketRead(t, u, b, seen)
    ensures u.mapInfo[x].nRefCount < NEW_BUCKETS_PER_ADDRESS
    ensures BucketRead(t, u.(mapInfo := u.mapInfo[x := u.mapInfo[x].(nRefCount := u.mapInfo[x].nRefCount + 1)],
                             vvNew := u.vvNew[b := u.vvNew[b] + {x}]), b, seen + [x])
  {
    assert Elements(seen + [x]) == Elements(seen) + {x};
    assert t.vvNew[b] + Elements(seen) + {x} == t.vvNew[b] + Elements(seen + [x]);
    assert forall y :: y in seen + [x] <==> y in seen || y == x;
  }

  /** Lists that can be read without skipping a position. */
  predicate Readable(t: Table, lists: seq<seq<nat>>) {
    && |lists| == |t.vvNew| && (forall b :: 0 <= b < |lists| ==> Known(t.mapInfo, lists[b]) && NoRepeats(lists[b]) && t.vvNew[b] == {})
    && (forall x :: x in t.mapInfo ==> t.mapInfo[x].nRefCount == 0 && CountIn(lists, x, |lists|) <= NEW_BUCKETS_PER_ADDRESS)
  }

  predicate Filled(u: Table, lists: seq<seq<nat>>, n: nat)
    requires n <= |lists| == |u.vvNew|
  {
    forall b :: 0 <= b < |lists| ==> u.vvNew[b] == if b < n then Elements(lists[b]) else {}
  }

  predicate BucketsRead(t: Table, u: Table, lists: seq<seq<nat>>, n: nat)
    requires n <= |lists| == |u.vvNew|
  {
    CountedTimes(t, u, lists, n) && Filled(u, lists, n)
  }

  lemma {:induction false} LoadBucketsIs(t: Table, lists: seq<seq<nat>>, n: nat)
    requires Readable(t, lists) && n <= |lists|
    ensures forall b :: 0 <= b < |lists| ==> Known(t.mapInfo, lists[b])
    ensures BucketsRead(t, LoadBuckets(t, lists, n, true), lists, n)
  {
    hide Readable, Countable, Known, BucketsRead, BucketRead;
    ReadableKnown(t, lists);
    if n == 0 {
      CountedNone(t, lists);
    } else {
      LoadBucketsIs(t, lists, n - 1);
      var u, list := LoadBuckets(t, lists, n - 1, true), lists[n - 1];
      BucketReadable(t, u, lists, n);
      LoadBucketIs(u, n - 1, list, |list|);
      assert list[..|list|] == list;
      BucketsReadMore(t, u, LoadBucket(u, n - 1, list, |list|, true), lists, n);
    }
  }

  lemma BucketsReadMore(t: Table, u: Table, w: Table, lists: seq<seq<nat>>, n: nat)
    requires 0 < n <= |lists| == |u.vvNew| && BucketsRead(t, u, lists, n - 1) && BucketRead(u, w, n - 1, lists[n - 1])
    ensures BucketsRead(t, w, lists, n)
  {
    hide CountedTimes, CountedOnce;
    CountedMore(t, u, w, lists, n);
    assert {} + Elements(lists[n - 1]) == Elements(lists[n - 1]);
  }

  lemma ReadableKnown(t: Table, lists: seq<seq<nat>>)
    requires Readable(t, lists)
    ensures |lists| == |t.vvNew| && forall b :: 0 <= b < |lists| ==> Known(t.mapInfo, lists[b]) && t.vvNew[b] == {}
  {
  }

  lemma CountedNone(t: Table, lists: seq<seq<nat>>)
    requires |lists| == |t.vvNew| && forall b :: 0 <= b < |lists| ==> t.vvNew[b] == {}
    ensures BucketsRead(t, t, lists, 0)
  {
  }

  lemma BucketReadable(t: Table, u: Table, lists: seq<seq<nat>>, n: nat)
    requires Readable(t, lists) && 0 < n <= |lists| == |u.vvNew| && BucketsRead(t, u, lists, n - 1)
    ensures Known(u.mapInfo, lists[n - 1]) && Countable(u, lists[n - 1])
  {
    var list := lists[n - 1];
    assert Known(t.mapInfo, list);
    forall i | 0 <= i < |list|
      ensures list[i] in u.mapInfo && u.mapInfo[list[i]].nRefCount < NEW_BUCKETS_PER_ADDRESS
    {
      CountInGrows(lists, list[i], n, |lists|);
    }
  }

  lemma CountedMore(t: Table, u: Table, w: Table, lists: seq<seq<nat>>, n: nat)
    requires 0 < n <= |lists| && CountedTimes(t, u, lists, n - 1) && CountedOnce(u, w, lists[n - 1])
    ensures CountedTimes(t, w, lists, n)
  {
  }

  // ------------------------------------------------------------------ what the writer leaves in the file

  predicate AllNew(m: map<nat, AddrInfo>, v: set<nat>) {
    forall id :: id in v ==> id in m && Selected(m[id], false)
  }

  /** The positions written for a bucket are those of its entries, each once. */
  predicate Positions(list: seq<nat>, v: set<nat>, news: seq<nat>) {
    && (forall j :: 0 <= j < |list| ==> list[j] < |news| && news[list[j]] in v)
    && (forall i, j :: 0 <= i < j < |list| ==> list[i] < list[j])
    && (forall x :: 0 <= x < |news| && news[x] in v ==> x in list)
  }

  /** When as many new entries are there as the table claims, each is written under its position. */
  lemma PositionIs(s: Table, id: nat)
    requires s.nNew == |Where(s, false)| && id in s.mapInfo && Selected(s.mapInfo[id], false)
    ensures Position(s, id) == UnkId(s.mapInfo, id)
  {
    UnkIdIsPosition(s.mapInfo, false, id, Top(s.mapInfo.Keys));
  }

  lemma {:induction false} ListedIs(s: Table, v: set<nat>, n: nat)
    requires AllNew(s.mapInfo, v) && s.nNew == |Where(s, false)|
    ensures Positions(Listed(s, v, n), v, IdsWhere(s.mapInfo, false, n))
  {
    hide Where, Position;
    if n > 0 {
      ListedIs(s, v, n - 1);
      if n - 1 in v {
        PositionIs(s, n - 1);
      }
    }
  }

  /** Above the greatest id of a bucket nothing is listed. */
  lemma {:induction false} ListedBeyond(s: Table, v: set<nat>, m: nat, n: nat)
    requires IsTop(v, m) && m <= n
    ensures Listed(s, v, n) == Listed(s, v, m)
  {
    if m < n {
      ListedBeyond(s, v, m, n - 1);
    }
  }

  lemma BucketWritten(s: Table, v: set<nat>)
    requires AllNew(s.mapInfo, v) && s.nNew == |Where(s, false)|
    ensures Positions(Listed(s, v, Top(v)), v, Where(s, false))
  {
    var n := Top(s.mapInfo.Keys);
    assert Top(v) <= n by {
      assert IsTop(v, Top(v)) && IsTop(s.mapInfo.Keys, n);
    }
    ListedIs(s, v, n);
    ListedBeyond(s, v, Top(v), n);
  }

  lemma AllAreNew(s: Table)
    requires Savable(s)
    ensures |s.vvNew| == NEW_BUCKET_COUNT && forall b :: 0 <= b < |s.vvNew| ==> AllNew(s.mapInfo, s.vvNew[b])
  {
    SelectedIs(s);
    assert NewPlaced(s);
    hide Selected, CountsOk, DistinctAddrs, NewCounted;
  }

  lemma SavedBuckets(s: Table)
    requires Savable(s)
    ensures var f := Save(s);
            && |f.buckets| == |s.vvNew| == NEW_BUCKET_COUNT
            && forall b :: 0 <= b < |s.vvNew| ==> Positions(f.buckets[b], s.vvNew[b], Where(s, false))
  {
    hide Savable, Positions, Listed, IsRenaming, Where, Top, StripAll, Cut, NewPlaced, AllNew;
    IdsAreRenaming(s);
    AllAreNew(s);
    forall b | 0 <= b < |s.vvNew|
      ensures Positions(Listed(s, s.vvNew[b], Top(s.vvNew[b])), s.vvNew[b], Where(s, false))
    {
      BucketWritten(s, s.vvNew[b]);
    }
  }

  lemma PositionBelow(list: seq<nat>, v: set<nat>, news: seq<nat>, i: nat)
    requires Positions(list, v, news) && i < |list|
    ensures list[i] < |news|
  {
  }

  lemma SavedInfos(s: Table)
    requires s.nNew == |Where(s, false)| && s.nTried == |Where(s, true)|
    ensures var f := Save(s);
            && |f.newInfos| == |Where(s, false)| && |Infos(f)| == |Ids(s)|
            && forall i :: 0 <= i < |Ids(s)| ==> Infos(f)[i] == Strip(s.mapInfo[Ids(s)[i]])
  {
  }

  lemma SavedComplete(s: Table)
    requires Savable(s)
    ensures Complete(Save(s)) && |Save(s).newInfos| == s.nNew
  {
    var f := Save(s);
    IdsAreRenaming(s);
    SavedInfos(s);
    SavedBuckets(s);
    hide Savable, Positions, NoRepeats;
    forall b, i | 0 <= b < |f.buckets| && 0 <= i < |f.buckets[b]|
      ensures f.buckets[b][i] < |f.newInfos|
    {
      PositionBelow(f.buckets[b], s.vvNew[b], Where(s, false), i);
    }
  }

  // ------------------------------------------------------------------ reading it back

  /** Every position of a bucket's list is counted once for each bucket that has its entry. */
  lemma {:induction false} CountIsRefCount(lists: seq<seq<nat>>, v: seq<set<nat>>, news: seq<nat>, x: nat, n: nat)
    requires |lists| == |v| && n <= |v| && forall b :: 0 <= b < |v| ==> Positions(lists[b], v[b], news)
    ensures CountIn(lists, x, n) == if x < |news| then RefCount(v[..n], news[x]) else 0
  {
    if n > 0 {
      CountIsRefCount(lists, v, news, x, n - 1);
      assert v[..n][..n - 1] == v[..n - 1];
      InList(lists[n - 1], v[n - 1], news, x);
    }
  }

  lemma InList(list: seq<nat>, v: set<nat>, news: seq<nat>, x: nat)
    requires Positions(list, v, news)
    ensures x in list <==> x < |news| && news[x] in v
  {
  }

  /** What the entries of the file are, in terms of the table it was written from. */
  predicate Written(s: Table, f: Saved, ids: seq<nat>) {
    && IsRenaming(s, ids) && |Infos(f)| == |ids| && |f.newInfos| == s.nNew == f.nNew && f.nTried == s.nTried
    && forall i :: 0 <= i < |ids| ==> Infos(f)[i] == Strip(s.mapInfo[ids[i]])
  }

  lemma SaveWrites(s: Table)
    requires Savable(s)
    ensures Written(s, Save(s), Ids(s))
  {
    IdsAreRenaming(s);
    SavedInfos(s);
    hide Savable, IsRenaming;
  }

  lemma WrittenDistinct(s: Table, f: Saved, ids: seq<nat>)
    requires DistinctAddrs(s) && Written(s, f, ids)
    ensures DistinctIps(f)
  {
    forall i, j | 0 <= i < j < |Infos(f)|
      ensures Infos(f)[i].addr.ip != Infos(f)[j].addr.ip
    {
      assert ids[i] != ids[j];
    }
  }

  /** Distinct values that all occur in a list are no more than the list is long. */
  lemma {:induction false} DistinctFit(w: seq<nat>, v: seq<nat>)
    requires NoRepeats(w) && NoRepeats(v) && forall i :: 0 <= i < |w| ==> w[i] in v
    ensures |w| <= |v|
  {
    DistinctCount(w);
    DistinctCount(v);
    SubsetSize(set i | 0 <= i < |w| :: w[i], set i | 0 <= i < |v| :: v[i]);
  }

  function Through(ids: seq<nat>, v: seq<nat>): (w: seq<nat>)
    requires forall j :: 0 <= j < |v| ==> v[j] < |ids|
    ensures |w| == |v| && forall j :: 0 <= j < |v| ==> w[j] == ids[v[j]]
  {
    if v == [] then [] else Through(ids, v[..|v| - 1]) + [ids[v[|v| - 1]]]
  }

  /** What the tried entries of bucket b in the file were called before. */
  lemma TriedInWas(k: Buckets, s: Table, f: Saved, ids: seq<nat>, b: nat)
    requires TriedOk(k, s) && Written(s, f, ids) && b < TRIED_BUCKET_COUNT && |f.triedInfos| == s.nTried
    ensures SameBucket(s.vvTried[b], TriedIn(k, f, b, |f.triedInfos|), ids)
  {
    var v := TriedIn(k, f, b, |f.triedInfos|);
    TriedInIs(k, f, b, |f.triedInfos|);
    hide NoRepeats, Infos;
    forall j | 0 <= j < |v|
      ensures v[j] < |ids| && ids[v[j]] in s.vvTried[b]
    {
      TriedEntry(s, f, ids, v[j]);
    }
    forall i | 0 <= i < |ids| && ids[i] in s.vvTried[b]
      ensures i in v
    {
      assert s.mapInfo[ids[i]].fInTried && k.Tried(s.mapInfo[ids[i]].addr) == b;
      TriedEntry(s, f, ids, i);
      assert |f.newInfos| + (i - |f.newInfos|) in v;
    }
    ThroughFits(ids, v, s.vvTried[b]);
  }

  lemma TriedEntry(s: Table, f: Saved, ids: seq<nat>, i: nat)
    requires Written(s, f, ids) && i < |ids| && |f.newInfos| <= i && |f.triedInfos| == s.nTried
    ensures s.mapInfo[ids[i]].fInTried && f.triedInfos[i - |f.newInfos|] == Strip(s.mapInfo[ids[i]])
  {
    assert Infos(f)[i] == Strip(s.mapInfo[ids[i]]);
  }

  lemma ThroughFits(ids: seq<nat>, v: seq<nat>, to: seq<nat>)
    requires NoRepeats(ids) && NoRepeats(v) && NoRepeats(to) && forall j :: 0 <= j < |v| ==> v[j] < |ids| && ids[v[j]] in to
    ensures |v| <= |to|
  {
    var w := Through(ids, v);
    forall i, j | 0 <= i < j < |w|
      ensures w[i] != w[j]
    {
      assert v[i] != v[j];
    }
    DistinctFit(w, to);
  }

  /** The state before the buckets are read: nothing is lost, and the buckets can be read without skipping. */
  lemma ReadUpToBuckets(k: Buckets, s: Table)
    requires Savable(s) && TriedOk(k, s)
    ensures var f := Save(s);
            && Complete(f) && Written(s, f, Ids(s))
            && TriedTo(k, f, LoadTried(k, f, |f.triedInfos|), |f.triedInfos|)
  {
    var f := Save(s);
    SavedComplete(s);
    SaveWrites(s);
    WrittenDistinct(s, f, Ids(s));
    hide Savable, Written, DistinctIps, TriedOk, TriedTo, TriedIn, LoadTried;
    assert Fits(k, f) by {
      forall b | 0 <= b < TRIED_BUCKET_COUNT
        ensures |TriedIn(k, f, b, |f.triedInfos|)| <= TRIED_BUCKET_SIZE
      {
        TriedInWas(k, s, f, Ids(s), b);
      }
    }
    LoadTriedTo(k, f, |f.triedInfos|);
  }

  /** The counts of the saved buckets are the reference counts. */
  lemma SavedCounts(s: Table, x: nat)
    requires Savable(s) && x < |Ids(s)| && |Save(s).buckets| == NEW_BUCKET_COUNT
    ensures CountIn(Save(s).buckets, x, NEW_BUCKET_COUNT) == s.mapInfo[Ids(s)[x]].nRefCount
    ensures CountIn(Save(s).buckets, x, NEW_BUCKET_COUNT) <= NEW_BUCKETS_PER_ADDRESS
  {
    hide Savable, Positions, CountIn, RefCount, IdsWhere, NoRepeats, Save;
    SavedBuckets(s);
    IdsAreRenaming(s);
    CountsAre(s, Ids(s)[x]);
    CountIsRefCount(Save(s).buckets, s.vvNew, Where(s, false), x, NEW_BUCKET_COUNT);
    assert s.vvNew[..NEW_BUCKET_COUNT] == s.vvNew;
  }

  lemma CountsAre(s: Table, id: nat)
    requires Savable(s) && id in s.mapInfo
    ensures s.mapInfo[id].nRefCount == if s.mapInfo[id].fInTried then 0 else RefCount(s.vvNew, id)
    ensures s.mapInfo[id].nRefCount <= NEW_BUCKETS_PER_ADDRESS
  {
    hide CountsOk, DistinctAddrs, NewPlaced;
    assert !s.mapInfo[id].fInTried ==> CountedOk(s, None, id);
  }

  lemma LoadedFacts(k: Buckets, f: Saved, t: Table)
    requires TriedTo(k, f, t, |f.triedInfos|)
    ensures |t.vvNew| == NEW_BUCKET_COUNT && forall b :: 0 <= b < NEW_BUCKET_COUNT ==> t.vvNew[b] == {}
    ensures forall x :: x in t.mapInfo <==> 0 <= x < |Infos(f)|
    ensures forall x :: x in t.mapInfo ==> t.mapInfo[x].nRefCount == 0
  {
  }

  lemma SavedReadable(k: Buckets, s: Table, t: Table)
    requires Savable(s) && Complete(Save(s)) && Written(s, Save(s), Ids(s)) && TriedTo(k, Save(s), t, |Save(s).triedInfos|)
    ensures Readable(t, Save(s).buckets)
  {
    hide Savable, TriedTo, Positions, NoRepeats, Save, IsRenaming;
    var f := Save(s);
    SavedBuckets(s);
    LoadedFacts(k, f, t);
    forall b | 0 <= b < |f.buckets|
      ensures Known(t.mapInfo, f.buckets[b]) && NoRepeats(f.buckets[b])
    {
      PositionsDistinct(f.buckets[b], s.vvNew[b], Where(s, false));
    }
    forall x | x in t.mapInfo
      ensures CountIn(f.buckets, x, |f.buckets|) <= NEW_BUCKETS_PER_ADDRESS
    {
      SavedCounts(s, x);
    }
  }

  lemma PositionsDistinct(list: seq<nat>, v: set<nat>, news: seq<nat>)
    requires Positions(list, v, news)
    ensures NoRepeats(list) && forall j :: 0 <= j < |list| ==> list[j] < |news|
  {
  }

  /** Saved address tables reload faithfully: no entry is lost, every entry keeps its buckets and its count, and the
      only differences are the ids, the order of vRandom and of the tried buckets, and nLastTry. */
  lemma ReloadRenames(k: Buckets, s: Table)
    requires Savable(s) && TriedOk(k, s)
    ensures Complete(Save(s)) && Renamed(s, Load(k, Save(s)), Ids(s))
  {
    hide Savable, Save, Written, TriedTo, LoadTried, LoadBuckets, Readable, SameEntries, SameNew, SameTriedBuckets, Complete,
      CountedTimes, Filled, TriedOk;
    var f, ids := Save(s), Ids(s);
    ReadUpToBuckets(k, s);
    CompleteIsUsual(f);
    var u := LoadTried(k, f, |f.triedInfos|);
    SavedReadable(k, s, u);
    LoadBucketsIs(u, f.buckets, |f.buckets|);
    var t := Load(k, f);
    WrittenSizes(s);
    CountsAllMatch(s, f, ids);
    LoadedAll(k, s, f, u, ids);
    ReloadedEntries(s, f, u, t, ids);
    ReloadedNew(s, t);
    ReloadedTried(k, s, f, u, t, ids);
  }

  lemma CompleteIsUsual(f: Saved)
    requires Complete(f)
    ensures Loadable(f) && Usual(f)
  {
  }

  /** A consistent manager is consistent again after reloading. */
  lemma SavedTablesReload(k: Buckets, s: Table)
    requires Inv(k, s)
    ensures Complete(Save(s))
    ensures var t := Load(k, Save(s)); Renamed(s, t, Ids(s)) && Inv(k, t)
  {
    InvSavable(k, s);
    hide Savable, Save, Renamed, IdsOk, RandomOk, CountsOk, StatsOk, NewOk, TriedOk;
    ReloadRenames(k, s);
    RenamedInv(k, s, Load(k, Save(s)), Ids(s));
  }

  lemma WrittenSizes(s: Table)
    requires Savable(s)
    ensures |Save(s).buckets| == NEW_BUCKET_COUNT && |Save(s).triedInfos| == s.nTried && IsRenaming(s, Ids(s))
  {
    SavedComplete(s);
    SaveWrites(s);
  }

  lemma CountsAllMatch(s: Table, f: Saved, ids: seq<nat>)
    requires Savable(s) && f == Save(s) && ids == Ids(s) && |f.buckets| == NEW_BUCKET_COUNT
    ensures CountsMatch(s, f, ids)
  {
    hide Savable, Save, CountIn;
    forall i | 0 <= i < |ids|
      ensures CountIn(f.buckets, i, |f.buckets|) == s.mapInfo[ids[i]].nRefCount
    {
      SavedCounts(s, i);
    }
  }

  lemma LoadedAll(k: Buckets, s: Table, f: Saved, u: Table, ids: seq<nat>)
    requires Written(s, f, ids) && TriedTo(k, f, u, |f.triedInfos|)
    ensures LoadedTo(f, u, |ids|) && u.nIdCount == |ids| && u.nNew == f.nNew && u.nTried == f.nTried && Known(s.mapInfo, ids)
  {
    hide LoadedTo, TriedIn, NoRepeats;
  }

  /** The positions in the file's buckets add up to the reference counts. */
  predicate CountsMatch(s: Table, f: Saved, ids: seq<nat>) {
    Known(s.mapInfo, ids) && forall i :: 0 <= i < |ids| ==> CountIn(f.buckets, i, |f.buckets|) == s.mapInfo[ids[i]].nRefCount
  }

  lemma ReloadedEntries(s: Table, f: Saved, u: Table, t: Table, ids: seq<nat>)
    requires CountsMatch(s, f, ids) && |f.buckets| == |t.vvNew| && t == u.(mapInfo := t.mapInfo, vvNew := t.vvNew)
    requires u.nIdCount == |ids| && u.nNew == f.nNew && u.nTried == f.nTried
    requires CountedTimes(u, t, f.buckets, |f.buckets|) && LoadedTo(f, u, |ids|) && Written(s, f, ids)
    ensures SameEntries(s, t, ids)
  {
    hide NoRepeats, Infos, Addressed, Written, SameAddresses, CountIn, CountedTimes, LoadedTo, CountsMatch, Known;
    WrittenCounts(s, f, ids);
    MatchesAt(s, f, ids);
    ReloadedAddresses(s, f, u, t, ids);
    CountedKeys(u, t, f.buckets);
    LoadedKeys(f, u, |ids|);
    forall i | 0 <= i < |ids|
      ensures t.mapInfo[i] == s.mapInfo[ids[i]].(nLastTry := 0, nRandomPos := i)
    {
      ReloadedEntry(s, f, u, t, ids, i);
    }
  }

  lemma WrittenCounts(s: Table, f: Saved, ids: seq<nat>)
    requires Written(s, f, ids)
    ensures f.nNew == s.nNew && f.nTried == s.nTried
  {
    hide IsRenaming, Infos;
  }

  lemma MatchesAt(s: Table, f: Saved, ids: seq<nat>)
    requires CountsMatch(s, f, ids)
    ensures Known(s.mapInfo, ids) && forall i :: 0 <= i < |ids| ==> ids[i] in s.mapInfo
    ensures forall i :: 0 <= i < |ids| ==> CountIn(f.buckets, i, |f.buckets|) == s.mapInfo[ids[i]].nRefCount
  {
    hide CountIn;
  }

  lemma CountedKeys(u: Table, t: Table, lists: seq<seq<nat>>)
    requires CountedTimes(u, t, lists, |lists|)
    ensures forall i :: i in t.mapInfo <==> i in u.mapInfo
  {
    hide CountIn;
  }

  lemma LoadedKeys(f: Saved, t: Table, n: nat)
    requires LoadedTo(f, t, n)
    ensures (forall i :: i in t.mapInfo <==> 0 <= i < n) && |t.vRandom| == n && forall i :: 0 <= i < n ==> t.vRandom[i] == i
  {
    hide Addressed;
  }

  lemma ReloadedEntry(s: Table, f: Saved, u: Table, t: Table, ids: seq<nat>, i: nat)
    requires Written(s, f, ids) && i < |ids| && LoadedTo(f, u, |ids|) && |f.buckets| <= |t.vvNew| && CountedTimes(u, t, f.buckets, |f.buckets|)
    requires CountIn(f.buckets, i, |f.buckets|) == s.mapInfo[ids[i]].nRefCount
    ensures t.mapInfo[i] == s.mapInfo[ids[i]].(nLastTry := 0, nRandomPos := i)
  {
    hide NoRepeats, Addressed, Infos, CountIn;
    assert Infos(f)[i] == Strip(s.mapInfo[ids[i]]);
    assert u.mapInfo[i] == Restore(Infos(f)[i], i, |f.newInfos| <= i);
  }

  lemma ReloadedAddresses(s: Table, f: Saved, u: Table, t: Table, ids: seq<nat>)
    requires Written(s, f, ids) && LoadedTo(f, u, |ids|) && t.mapAddr == u.mapAddr
    ensures SameAddresses(s, t, ids)
  {
    hide NoRepeats, Infos;
    forall i | 0 <= i < |ids|
      ensures Infos(f)[i].addr == s.mapInfo[ids[i]].addr
    {
      assert Infos(f)[i] == Strip(s.mapInfo[ids[i]]);
    }
  }

  lemma ReloadedNew(s: Table, t: Table)
    requires Savable(s) && |Save(s).buckets| == |t.vvNew| && Filled(t, Save(s).buckets, |Save(s).buckets|)
    ensures SameNew(s, t, Ids(s))
  {
    var lists, news := Save(s).buckets, Where(s, false);
    SavedBuckets(s);
    IdsAreRenaming(s);
    SelectedIs(s);
    assert NewPlaced(s);
    hide Savable, Save, NoRepeats, Positions, Selected, IdsWhere;
    forall b | 0 <= b < |t.vvNew|
      ensures SameSet(s.vvNew[b], t.vvNew[b], Ids(s))
    {
      assert Positions(lists[b], s.vvNew[b], news) && t.vvNew[b] == Elements(lists[b]);
      NewestFirst(s, news, b);
      PositionsSame(lists[b], s.vvNew[b], news, Ids(s));
    }
  }

  /** Only entries among the first, new ones are in a new bucket. */
  lemma NewestFirst(s: Table, news: seq<nat>, b: nat)
    requires IsRenaming(s, Ids(s)) && |news| == s.nNew && NewPlaced(s) && b < |s.vvNew|
    ensures forall i :: 0 <= i < |Ids(s)| && Ids(s)[i] in s.vvNew[b] ==> i < |news|
  {
  }

  lemma PositionsSame(list: seq<nat>, v: set<nat>, news: seq<nat>, ids: seq<nat>)
    requires Positions(list, v, news) && news <= ids && forall i :: 0 <= i < |ids| && ids[i] in v ==> i < |news|
    ensures SameSet(v, Elements(list), ids)
  {
  }

  lemma ReloadedTried(k: Buckets, s: Table, f: Saved, u: Table, t: Table, ids: seq<nat>)
    requires TriedOk(k, s) && Written(s, f, ids) && |f.triedInfos| == s.nTried
    requires TriedTo(k, f, u, |f.triedInfos|) && t.vvTried == u.vvTried
    ensures SameTriedBuckets(s, t, ids)
  {
    assert |s.vvTried| == TRIED_BUCKET_COUNT;
    hide TriedOk, Written, LoadedTo, SameBucket;
    forall b | 0 <= b < TRIED_BUCKET_COUNT
      ensures SameBucket(s.vvTried[b], t.vvTried[b], ids)
    {
      TriedInWas(k, s, f, ids, b);
    }
  }
}
