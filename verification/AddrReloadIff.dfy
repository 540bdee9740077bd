/** Exactly which address tables that pass Check_ are read back as they were written (src/addrman.cpp, src/addrman.h). */
module AddrReloadIff {
  import opened AddrTable
  import opened AddrTried
  import opened AddrCheck
  import opened AddrExact
  import opened AddrSaved
  import opened AddrReload
  import opened AddrRoundTrip

  // ------------------------------------------------------------------ what reading always does

  /** Tried entries exist and are where they belong. */
  predicate Placed(k: Buckets, t: Table) {
    && (forall id :: id in t.mapInfo ==> id < t.nIdCount) && TriedInPlace(k, t)
    && forall b, i :: 0 <= b < |t.vvTried| && 0 <= i < |t.vvTried[b]| ==> t.vvTried[b][i] in t.mapInfo
  }

  lemma {:induction false} LoadNewIds(k: Buckets, f: Saved, n: nat)
    requires n <= |f.newInfos|
    ensures forall id :: id in LoadNew(k, f, n).mapInfo ==> id < n
  {
    if n > 0 {
      LoadNewIds(k, f, n - 1);
      assert LoadNew(k, f, n).mapInfo.Keys == LoadNew(k, f, n - 1).mapInfo.Keys + {n - 1};
    }
  }

  lemma LoadOnePlaced(k: Buckets, t: Table, i: SavedInfo)
    requires |t.vvTried| == TRIED_BUCKET_COUNT && Placed(k, t)
    ensures Placed(k, LoadOne(k, t, i))
  {
    var u, b := LoadOne(k, t, i), k.Tried(i.addr);
    forall c, j | 0 <= c < |u.vvTried| && 0 <= j < |u.vvTried[c]|
      ensures u.vvTried[c][j] in u.mapInfo && k.Tried(u.mapInfo[u.vvTried[c][j]].addr) == c
    {
      if c != b || j < |t.vvTried[c]| {
        assert u.vvTried[c][j] == t.vvTried[c][j];
      }
    }
  }

  /** Whatever the file holds, reading puts every tried entry into its own bucket and overfills none. */
  lemma {:induction false} LoadTriedPlaced(k: Buckets, f: Saved, n: nat)
    requires n <= |f.triedInfos|
    ensures Placed(k, LoadTried(k, f, n))
  {
    if n == 0 {
      LoadNewShape(k, f, |f.newInfos|);
      LoadNewIds(k, f, |f.newInfos|);
    } else {
      hide Placed, LoadOne;
      LoadTriedPlaced(k, f, n - 1);
      LoadOnePlaced(k, LoadTried(k, f, n - 1), f.triedInfos[n - 1]);
    }
  }

  /** The same ids, with the same addresses. */
  predicate SameAddrs(t: Table, u: Table) {
    u.mapInfo.Keys == t.mapInfo.Keys && u.vvTried == t.vvTried && forall x :: x in t.mapInfo ==> u.mapInfo[x].addr == t.mapInfo[x].addr
  }

  lemma {:induction false} LoadBucketAddrs(t: Table, b: nat, list: seq<nat>, n: nat, usual: bool)
    requires b < |t.vvNew| && n <= |list| && Known(t.mapInfo, list)
    ensures SameAddrs(t, LoadBucket(t, b, list, n, usual))
  {
    if n > 0 {
      LoadBucketAddrs(t, b, list, n - 1, usual);
    }
  }

  lemma {:induction false} LoadBucketsAddrs(t: Table, lists: seq<seq<nat>>, n: nat, usual: bool)
    requires n <= |lists| == |t.vvNew| && forall b :: 0 <= b < |lists| ==> Known(t.mapInfo, lists[b])
    ensures SameAddrs(t, LoadBuckets(t, lists, n, usual))
  {
    hide Known, LoadBucket, SameAddrs;
    if n > 0 {
      LoadBucketsAddrs(t, lists, n - 1, usual);
      SameIds(t, LoadBuckets(t, lists, n - 1, usual));
      KnownStays(t, LoadBuckets(t, lists, n - 1, usual), lists[n - 1]);
      LoadBucketAddrs(LoadBuckets(t, lists, n - 1, usual), n - 1, lists[n - 1], |lists[n - 1]|, usual);
      SameAddrsTwice(t, LoadBuckets(t, lists, n - 1, usual), LoadBuckets(t, lists, n, usual));
    } else {
      SameAddrsTwice(t, t, t);
    }
  }

  lemma SameIds(t: Table, u: Table)
    requires SameAddrs(t, u)
    ensures u.mapInfo.Keys == t.mapInfo.Keys
  {
  }

  lemma SameAddrsTwice(t: Table, u: Table, w: Table)
    ensures SameAddrs(t, t)
    ensures SameAddrs(t, u) && SameAddrs(u, w) ==> SameAddrs(t, w)
  {
  }

  lemma LoadPlaced(k: Buckets, f: Saved)
    requires Complete(f)
    ensures TriedInPlace(k, Load(k, f))
  {
    LoadTriedPlaced(k, f, |f.triedInfos|);
    var t := LoadTried(k, f, |f.triedInfos|);
    LoadBucketsAddrs(t, f.buckets, |f.buckets|, Usual(f));
    hide LoadTried, LoadBuckets, Complete;
  }

  // ------------------------------------------------------------------ what a passed Check_ leaves to ask

  lemma PassedSavable(s: Table)
    requires Passes(s) && BucketCounts(s)
    ensures Savable(s) && StatsOk(s)
  {
    PassedEntries(s);
    PassedNew(s);
    hide Passes, CountsOk, DistinctAddrs, TriedUncounted, NewPlaced, NewCounted, StatsOk, IdsInPlace;
  }

  lemma PassedBuckets(s: Table)
    requires Passes(s)
    ensures forall b :: 0 <= b < |s.vvTried| ==> NoRepeats(s.vvTried[b])
  {
    AllCrossedOff(TriedIds(s), s.vvTried);
    hide CrossOffAll, CountDownAll, NoRepeats;
  }

  /** A bucket is no larger than its renamed copy. */
  lemma RenamedNoSmaller(v: seq<nat>, w: seq<nat>, ids: seq<nat>)
    requires NoRepeats(ids) && NoRepeats(v) && SameBucket(v, w, ids) && forall j :: 0 <= j < |v| ==> v[j] in ids
    ensures |v| <= |w|
  {
    var u := Through(ids, w);
    forall i, j | 0 <= i < j < |u|
      ensures u[i] != u[j]
    {
      assert w[i] != w[j];
    }
    forall j | 0 <= j < |v|
      ensures v[j] in u
    {
      var i :| 0 <= i < |ids| && ids[i] == v[j];
      assert i in w;
      var m :| 0 <= m < |w| && w[m] == i;
      assert u[m] == v[j];
    }
    DistinctFit(v, u);
  }

  /** If a renamed copy has its tried entries in place, so has the original. */
  lemma RenamedWasPlaced(k: Buckets, s: Table, t: Table, ids: seq<nat>)
    requires Renamed(s, t, ids) && TriedInPlace(k, t)
    requires forall b :: 0 <= b < |s.vvTried| ==> NoRepeats(s.vvTried[b])
    requires forall b, i :: 0 <= b < |s.vvTried| && 0 <= i < |s.vvTried[b]| ==> s.vvTried[b][i] in s.mapInfo
    ensures TriedInPlace(k, s)
  {
    hide SameNew, NoRepeats;
    forall b | 0 <= b < |s.vvTried|
      ensures |s.vvTried[b]| <= TRIED_BUCKET_SIZE
    {
      assert SameBucket(s.vvTried[b], t.vvTried[b], ids);
      RenamedNoSmaller(s.vvTried[b], t.vvTried[b], ids);
    }
    forall b, i | 0 <= b < |s.vvTried| && 0 <= i < |s.vvTried[b]|
      ensures k.Tried(s.mapInfo[s.vvTried[b][i]].addr) == b
    {
      assert SameBucket(s.vvTried[b], t.vvTried[b], ids);
      var x := s.vvTried[b][i];
      assert x in ids;
      var j :| 0 <= j < |ids| && ids[j] == x;
      assert j in t.vvTried[b];
      var m :| 0 <= m < |t.vvTried[b]| && t.vvTried[b][m] == j;
    }
  }

  lemma PassedAreEntries(s: Table)
    requires Passes(s)
    ensures forall b, i :: 0 <= b < |s.vvTried| && 0 <= i < |s.vvTried[b]| ==> s.vvTried[b][i] in s.mapInfo
  {
    AllCrossedOff(TriedIds(s), s.vvTried);
    hide CrossOffAll, CountDownAll, NoRepeats;
    forall b, i | 0 <= b < |s.vvTried| && 0 <= i < |s.vvTried[b]|
      ensures s.vvTried[b][i] in TriedIds(s)
    {
      assert s.vvTried[b][i] in s.vvTried[b];
    }
  }

  /** A table that passes Check_ and has the usual number of buckets reloads faithfully if and only if every tried entry
      is in the bucket its address hashes to and no tried bucket is too large. Then the reloaded table passes too. */
  lemma PassedReloadsIff(k: Buckets, s: Table)
    requires Passes(s) && BucketCounts(s)
    ensures Complete(Save(s))
    ensures Renamed(s, Load(k, Save(s)), Ids(s)) <==> TriedInPlace(k, s)
    ensures TriedInPlace(k, s) ==> Passes(Load(k, Save(s)))
  {
    PassedSavable(s);
    SavedComplete(s);
    hide Passes, Savable, Save, Renamed, TriedInPlace, Load, TriedOk, StatsOk, BucketCounts;
    var t := Load(k, Save(s));
    if TriedInPlace(k, s) {
      PassedTried(k, s);
      ReloadRenames(k, s);
      PassedNew(s);
      RenamedSound(k, s, t, Ids(s));
      SoundPasses(k, t);
    }
    if Renamed(s, t, Ids(s)) {
      LoadPlaced(k, Save(s));
      PassedBuckets(s);
      PassedAreEntries(s);
      RenamedWasPlaced(k, s, t, Ids(s));
    }
  }

  /** A single tried entry, kept in bucket b. */
  function Single(a: Service, b: nat): (s: Table)
    requires b < TRIED_BUCKET_COUNT
    ensures |s.vvTried| == TRIED_BUCKET_COUNT && |s.vvNew| == NEW_BUCKET_COUNT
    ensures s.vvTried[b] == [0] && forall c :: 0 <= c < |s.vvTried| && c != b ==> s.vvTried[c] == []
    ensures s.mapInfo.Keys == {0} && s.mapInfo[0].addr == a && s.mapInfo[0].fInTried
    ensures forall c :: 0 <= c < |s.vvNew| ==> s.vvNew[c] == {}
  {
    Table(1, map[0 := AddrInfo(a, {}, 0, 0, 0, 1, 0, 0, true, 0)], map[a.ip := 0], [0],
          1, seq(TRIED_BUCKET_COUNT, c => if c == b then [0] else []), 0, seq(NEW_BUCKET_COUNT, _ => {}))
  }

  lemma SingleParts(a: Service, b: nat)
    requires b < TRIED_BUCKET_COUNT
    ensures var s := Single(a, b); IdsOk(s) && RandomOk(s) && CountsOk(s) && StatsOk(s) && s.mapInfo[0].nRefCount == 0
  {
    var s := Single(a, b);
    assert TriedIds(s) == {0} && NewIds(s) == {};
  }

  /** For a manager whose address hash leads to that bucket nothing is wrong with it. */
  lemma SingleIsSound(k: Buckets, a: Service, b: nat)
    requires b < TRIED_BUCKET_COUNT && k.Tried(a) == b
    ensures Sound(k, Single(a, b))
  {
    SingleParts(a, b);
    hide Single, IdsOk, RandomOk, CountsOk, StatsOk, RefCount;
  }

  /** Check_ does not notice an entry in the wrong bucket, and it comes back in another one. */
  lemma MisplacedPasses(k: Buckets, a: Service, b: nat)
    requires b < TRIED_BUCKET_COUNT && b != k.Tried(a)
    ensures var s := Single(a, b);
            Passes(s) && Complete(Save(s)) && !Renamed(s, Load(k, Save(s)), Ids(s))
  {
    hide Single, Passes, Save, Renamed, Load, Ids, Sound;
    var s, other := Single(a, b), Buckets(_ => b, k.newHash);
    SingleIsSound(other, a, b);
    SoundPasses(other, s);
    assert s.vvTried[b][0] == 0 && 0 in s.mapInfo;
    assert !TriedInPlace(k, s);
    PassedReloadsIff(k, s);
  }
}
