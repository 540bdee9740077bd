/** Reading a file that was written with another number of new buckets: the buckets are rebuilt (src/addrman.h). */
module AddrRebuild {
  import opened Wrappers
  import opened AddrTable
  import opened AddrTried
  import opened AddrCheck
  import opened AddrExact
  import opened AddrSaved
  import opened AddrReload
  import opened AddrRoundTrip

  function OwnBucket(k: Buckets, info: AddrInfo): (b: nat)
    ensures b < NEW_BUCKET_COUNT
  {
    k.New(info.addr, info.source)
  }

  function OwnSet(k: Buckets, m: map<nat, AddrInfo>, b: nat): set<nat> {
    set id | id in m && !m[id].fInTried && OwnBucket(k, m[id]) == b
  }

  function Once(info: AddrInfo): AddrInfo {
    if info.fInTried then info else info.(nRefCount := 1)
  }

  function OnceAll(m: map<nat, AddrInfo>): (c: map<nat, AddrInfo>)
    ensures c.Keys == m.Keys && forall id :: id in m ==> c[id] == Once(m[id])
  {
    map id | id in m :: Once(m[id])
  }

  function OwnSets(k: Buckets, m: map<nat, AddrInfo>): (v: seq<set<nat>>)
    ensures |v| == NEW_BUCKET_COUNT && forall b :: 0 <= b < NEW_BUCKET_COUNT ==> v[b] == OwnSet(k, m, b)
  {
    seq(NEW_BUCKET_COUNT, b requires 0 <= b => OwnSet(k, m, b))
  }

  /** The table with every new entry in one bucket only, that of its own source. */
  function Rebuilt(k: Buckets, s: Table): Table {
    s.(mapInfo := OnceAll(s.mapInfo), vvNew := OwnSets(k, s.mapInfo))
  }

  // ------------------------------------------------------------------ the rebuilt table is sound

  lemma InOwnBucketOnly(k: Buckets, s: Table, id: nat)
    requires id in s.mapInfo && !s.mapInfo[id].fInTried
    ensures forall c :: 0 <= c < NEW_BUCKET_COUNT ==> (id in Rebuilt(k, s).vvNew[c] <==> c == OwnBucket(k, s.mapInfo[id]))
  {
    hide OnceAll, OwnSets, Once, OwnBucket;
  }

  lemma RebuiltCountedOne(k: Buckets, s: Table, id: nat)
    requires id in s.mapInfo && !s.mapInfo[id].fInTried
    ensures id in Rebuilt(k, s).mapInfo && CountedOk(Rebuilt(k, s), None, id)
  {
    hide OnceAll, OwnSets, RefCount, OwnSet, OwnBucket;
    var v := Rebuilt(k, s).vvNew;
    InOwnBucketOnly(k, s, id);
    InOneBucket(v, id, OwnBucket(k, s.mapInfo[id]), |v|);
    assert v[..|v|] == v;
  }

  lemma RebuiltCounted(k: Buckets, s: Table)
    ensures NewPlaced(Rebuilt(k, s)) && NewCounted(Rebuilt(k, s), None)
  {
    var t := Rebuilt(k, s);
    hide OnceAll, OwnSets, RefCount, CountedOk;
    forall id | id in t.mapInfo && !t.mapInfo[id].fInTried
      ensures CountedOk(t, None, id)
    {
      RebuiltCountedOne(k, s, id);
    }
    forall b, id | 0 <= b < |t.vvNew| && id in t.vvNew[b]
      ensures id in t.mapInfo && !t.mapInfo[id].fInTried
    {
      assert t.vvNew[b] == OwnSet(k, s.mapInfo, b);
    }
  }

  lemma RebuiltTried(k: Buckets, s: Table)
    requires TriedOk(k, s) && StatsOk(s)
    ensures TriedOk(k, Rebuilt(k, s)) && StatsOk(Rebuilt(k, s))
  {
    hide OnceAll, OwnSets, OwnSet, NoRepeats;
  }

  lemma RebuiltRenaming(k: Buckets, s: Table, ids: seq<nat>)
    requires IsRenaming(s, ids)
    ensures IsRenaming(Rebuilt(k, s), ids)
  {
    hide OnceAll, OwnSets, OwnSet, NoRepeats;
  }

  // ------------------------------------------------------------------ reading

  /** f is g written with another number of buckets. */
  predicate OtherCount(f: Saved, g: Saved) {
    && f == g.(nUBuckets := f.nUBuckets, buckets := f.buckets) && Usual(g) && !Usual(f)
    && f.nUBuckets == |f.buckets| <= NEW_BUCKET_COUNT && NoneDangling(f)
  }

  /** What the two reads have in common, and how they differ. */
  ghost predicate Ahead(k: Buckets, f: Saved, t: Table, u: Table, n: nat)
    requires n <= |f.newInfos|
  {
    SameRest(t, u) && CountedBelow(t.mapInfo, u.mapInfo, n) && InBuckets(k, f, u.vvNew, n)
  }

  predicate SameRest(t: Table, u: Table) {
    && u.nIdCount == t.nIdCount && u.mapAddr == t.mapAddr && u.vRandom == t.vRandom && u.nTried == t.nTried && u.vvTried == t.vvTried
    && u.nNew == t.nNew
  }

  /** The entries below n have been counted once. */
  ghost predicate CountedBelow(m: map<nat, AddrInfo>, c: map<nat, AddrInfo>, n: nat) {
    && (forall i :: i in c <==> i in m)
    && forall i :: i in m ==> c[i] == if i < n then m[i].(nRefCount := 1) else m[i]
  }

  ghost predicate InBuckets(k: Buckets, f: Saved, v: seq<set<nat>>, n: nat)
    requires n <= |f.newInfos|
  {
    |v| == NEW_BUCKET_COUNT && forall b :: 0 <= b < NEW_BUCKET_COUNT ==> InBucket(k, f, v[b], b, n)
  }

  ghost predicate InBucket(k: Buckets, f: Saved, v: set<nat>, b: nat, n: nat)
    requires n <= |f.newInfos|
  {
    (forall i :: i in v ==> i < n) && forall i :: 0 <= i < n ==> (i in v <==> k.New(f.newInfos[i].addr, f.newInfos[i].source) == b)
  }

  lemma CountedOneMore(m: map<nat, AddrInfo>, c: map<nat, AddrInfo>, n: nat, info: AddrInfo)
    requires CountedBelow(m, c, n)
    ensures CountedBelow(m[n := info], c[n := info.(nRefCount := 1)], n + 1)
  {
  }

  lemma CountedAbove(m: map<nat, AddrInfo>, c: map<nat, AddrInfo>, n: nat, x: nat, info: AddrInfo)
    requires CountedBelow(m, c, n) && n <= x
    ensures CountedBelow(m[x := info], c[x := info], n)
  {
  }

  lemma InBucketsMore(k: Buckets, f: Saved, v: seq<set<nat>>, n: nat)
    requires n < |f.newInfos| && InBuckets(k, f, v, n)
    ensures var b := k.New(f.newInfos[n].addr, f.newInfos[n].source); InBuckets(k, f, v[b := v[b] + {n}], n + 1)
  {
    var b := k.New(f.newInfos[n].addr, f.newInfos[n].source);
    var w := v[b := v[b] + {n}];
    forall c | 0 <= c < NEW_BUCKET_COUNT
      ensures InBucket(k, f, w[c], c, n + 1)
    {
      assert InBucket(k, f, v[c], c, n);
    }
  }

  lemma AheadOneNew(k: Buckets, f: Saved, t: Table, u: Table, n: nat)
    requires n < |f.newInfos| && |t.vvNew| == NEW_BUCKET_COUNT && Ahead(k, f, t, u, n) && forall x :: x in t.mapInfo ==> x < n
    ensures |u.vvNew| == NEW_BUCKET_COUNT
    ensures Ahead(k, f, LoadOneNew(k, t, f.newInfos[n], n, true), LoadOneNew(k, u, f.newInfos[n], n, false), n + 1)
    ensures forall x :: x in LoadOneNew(k, t, f.newInfos[n], n, true).mapInfo ==> x < n + 1
  {
    InBucketsMore(k, f, u.vvNew, n);
    CountedOneMore(t.mapInfo, u.mapInfo, n, Restore(f.newInfos[n], |t.vRandom|, false));
    hide CountedBelow, InBucket;
    var info := Restore(f.newInfos[n], |t.vRandom|, false);
    assert u.mapInfo[n := info][n := info.(nRefCount := 1)] == u.mapInfo[n := info.(nRefCount := 1)];
  }

  lemma {:induction false} AheadNew(k: Buckets, f: Saved, g: Saved, n: nat)
    requires OtherCount(f, g) && n <= |f.newInfos|
    ensures Ahead(k, f, LoadNew(k, g, n), LoadNew(k, f, n), n) && forall x :: x in LoadNew(k, g, n).mapInfo ==> x < n
  {
    hide *;
    OtherFacts(f, g);
    if n > 0 {
      AheadNew(k, f, g, n - 1);
      AheadOneNew(k, f, LoadNew(k, g, n - 1), LoadNew(k, f, n - 1), n - 1);
      LoadNewStep(k, f, n);
      LoadNewStep(k, g, n);
    } else {
      LoadNewStarts(k, f, g);
      AheadNone(k, f, LoadNew(k, g, 0));
    }
  }

  lemma OtherFacts(f: Saved, g: Saved)
    requires OtherCount(f, g)
    ensures f.newInfos == g.newInfos && f.triedInfos == g.triedInfos && f.nNew == g.nNew && f.nTried == g.nTried && Usual(g) && !Usual(f)
  {
  }

  lemma LoadNewStep(k: Buckets, f: Saved, n: nat)
    requires 0 < n <= |f.newInfos|
    ensures LoadNew(k, f, n) == LoadOneNew(k, LoadNew(k, f, n - 1), f.newInfos[n - 1], n - 1, Usual(f))
  {
  }

  lemma LoadNewStarts(k: Buckets, f: Saved, g: Saved)
    requires f.nNew == g.nNew && f.nTried == g.nTried
    ensures var t := LoadNew(k, g, 0);
            LoadNew(k, f, 0) == t && t.mapInfo == map[] && forall b :: 0 <= b < NEW_BUCKET_COUNT ==> t.vvNew[b] == {}
  {
  }

  lemma AheadNone(k: Buckets, f: Saved, t: Table)
    requires |t.vvNew| == NEW_BUCKET_COUNT && t.mapInfo == map[] && forall b :: 0 <= b < NEW_BUCKET_COUNT ==> t.vvNew[b] == {}
    ensures Ahead(k, f, t, t, 0)
  {
  }

  lemma AheadOneTried(k: Buckets, f: Saved, t: Table, u: Table, i: SavedInfo)
    requires |t.vvTried| == TRIED_BUCKET_COUNT && Ahead(k, f, t, u, |f.newInfos|) && |f.newInfos| <= t.nIdCount
    ensures |u.vvTried| == TRIED_BUCKET_COUNT
    ensures Ahead(k, f, LoadOne(k, t, i), LoadOne(k, u, i), |f.newInfos|) && |f.newInfos| <= LoadOne(k, t, i).nIdCount
  {
    CountedAbove(t.mapInfo, u.mapInfo, |f.newInfos|, t.nIdCount, Restore(i, |t.vRandom|, true));
    hide InBuckets, CountedBelow;
  }

  lemma {:induction false} AheadTried(k: Buckets, f: Saved, g: Saved, n: nat)
    requires OtherCount(f, g) && n <= |f.triedInfos|
    ensures Ahead(k, f, LoadTried(k, g, n), LoadTried(k, f, n), |f.newInfos|) && |f.newInfos| <= LoadTried(k, g, n).nIdCount
  {
    hide *;
    OtherFacts(f, g);
    if n > 0 {
      AheadTried(k, f, g, n - 1);
      AheadOneTried(k, f, LoadTried(k, g, n - 1), LoadTried(k, f, n - 1), f.triedInfos[n - 1]);
      LoadTriedStep(k, f, n);
      LoadTriedStep(k, g, n);
    } else {
      AheadNew(k, f, g, |f.newInfos|);
      AheadAfterNew(k, f, LoadNew(k, g, |f.newInfos|), LoadNew(k, f, |f.newInfos|));
      LoadTriedStarts(k, f);
      LoadTriedStarts(k, g);
    }
  }

  lemma LoadTriedStep(k: Buckets, f: Saved, n: nat)
    requires 0 < n <= |f.triedInfos|
    ensures LoadTried(k, f, n) == LoadOne(k, LoadTried(k, f, n - 1), f.triedInfos[n - 1])
  {
  }

  lemma LoadTriedStarts(k: Buckets, f: Saved)
    ensures LoadTried(k, f, 0) == LoadNew(k, f, |f.newInfos|).(nIdCount := |f.newInfos|)
  {
  }

  lemma AheadAfterNew(k: Buckets, f: Saved, t: Table, u: Table)
    requires Ahead(k, f, t, u, |f.newInfos|)
    ensures Ahead(k, f, t.(nIdCount := |f.newInfos|), u.(nIdCount := |f.newInfos|), |f.newInfos|)
  {
    hide InBuckets, CountedBelow;
  }

  /** The positions in the file's buckets are read and forgotten. */
  lemma {:induction false} BucketForgotten(t: Table, b: nat, list: seq<nat>, n: nat)
    requires b < |t.vvNew| && n <= |list| && Known(t.mapInfo, list)
    ensures LoadBucket(t, b, list, n, false) == t
  {
    if n > 0 {
      BucketForgotten(t, b, list, n - 1);
      assert t.mapInfo[list[n - 1] := t.mapInfo[list[n - 1]]] == t.mapInfo;
    }
  }

  lemma {:induction false} BucketsForgotten(t: Table, lists: seq<seq<nat>>, n: nat)
    requires n <= |lists| <= |t.vvNew| && forall b :: 0 <= b < |lists| ==> Known(t.mapInfo, lists[b])
    ensures LoadBuckets(t, lists, n, false) == t
  {
    hide LoadBucket, Known;
    if n > 0 {
      BucketsForgotten(t, lists, n - 1);
      BucketForgotten(t, n - 1, lists[n - 1], |lists[n - 1]|);
    }
  }

  lemma LoadIsTried(k: Buckets, f: Saved, g: Saved)
    requires OtherCount(f, g) && Loadable(f)
    ensures Load(k, f) == LoadTried(k, f, |f.triedInfos|)
  {
    hide LoadTried, LoadBuckets;
    var t := LoadTried(k, f, |f.triedInfos|);
    forall b | 0 <= b < |f.buckets|
      ensures Known(t.mapInfo, f.buckets[b])
    {
    }
    BucketsForgotten(t, f.buckets, |f.buckets|);
  }

  // ------------------------------------------------------------------ what comes back

  lemma RebuiltEntry(k: Buckets, s: Table, g: Saved, f: Saved, t: Table, u: Table, ids: seq<nat>, i: nat)
    requires Written(s, g, ids) && TriedUncounted(s) && f.newInfos == g.newInfos && |f.newInfos| == s.nNew && i < |ids|
    requires LoadedTo(g, t, |ids|) && Ahead(k, f, t, u, |f.newInfos|)
    ensures u.mapInfo[i] == Rebuilt(k, s).mapInfo[ids[i]].(nLastTry := 0, nRandomPos := i)
  {
    hide NoRepeats, Addressed, Infos, InBuckets, SameRest, OnceAll, OwnSets, OwnSet;
    assert Infos(g)[i] == Strip(s.mapInfo[ids[i]]);
    assert t.mapInfo[i] == Restore(Infos(g)[i], i, |g.newInfos| <= i);
    assert s.mapInfo[ids[i]].fInTried <==> s.nNew <= i;
  }

  lemma RebuiltAddresses(k: Buckets, s: Table, g: Saved, t: Table, ids: seq<nat>)
    requires Written(s, g, ids) && LoadedTo(g, t, |ids|)
    ensures Known(Rebuilt(k, s).mapInfo, ids) && SameAddresses(Rebuilt(k, s), t, ids)
  {
    hide NoRepeats, Infos, OnceAll, OwnSets, Addressed, SameAddresses;
    ReloadedAddresses(s, g, t, t, ids);
    RebuiltSameAddresses(k, s, t, ids);
  }

  lemma RebuiltSameAddresses(k: Buckets, s: Table, t: Table, ids: seq<nat>)
    requires Known(s.mapInfo, ids) && SameAddresses(s, t, ids)
    ensures Known(Rebuilt(k, s).mapInfo, ids) && SameAddresses(Rebuilt(k, s), t, ids)
  {
    hide OwnSets, SameAddresses;
    AddressesCarry(s, Rebuilt(k, s), t, ids);
  }

  lemma AddressesCarry(s: Table, r: Table, t: Table, ids: seq<nat>)
    requires Known(s.mapInfo, ids) && Known(r.mapInfo, ids) && SameAddresses(s, t, ids)
    requires forall i :: 0 <= i < |ids| ==> r.mapInfo[ids[i]].addr == s.mapInfo[ids[i]].addr
    ensures SameAddresses(r, t, ids)
  {
    hide Known;
  }

  lemma RebuiltSets(k: Buckets, s: Table, g: Saved, f: Saved, t: Table, u: Table, ids: seq<nat>)
    requires Written(s, g, ids) && f.newInfos == g.newInfos && |f.newInfos| == s.nNew && Ahead(k, f, t, u, |f.newInfos|)
    ensures SameNew(Rebuilt(k, s), u, ids)
  {
    hide NoRepeats, OnceAll, OwnSets, OwnSet, SameSet, InBucket, CountedBelow, SameRest, Written, IsRenaming;
    forall b | 0 <= b < NEW_BUCKET_COUNT
      ensures SameSet(OwnSet(k, s.mapInfo, b), u.vvNew[b], ids)
    {
      assert InBucket(k, f, u.vvNew[b], b, |f.newInfos|);
      RebuiltSet(k, s, g, f, u.vvNew[b], ids, b);
    }
  }

  lemma RebuiltSet(k: Buckets, s: Table, g: Saved, f: Saved, w: set<nat>, ids: seq<nat>, b: nat)
    requires Written(s, g, ids) && f.newInfos == g.newInfos && |f.newInfos| == s.nNew && InBucket(k, f, w, b, |f.newInfos|)
    ensures SameSet(OwnSet(k, s.mapInfo, b), w, ids)
  {
    NewInfosAre(s, g, ids);
    hide Written, NoRepeats, Strip, OwnBucket;
    assert IsRenaming(s, ids) by {
      WrittenIsRenaming(s, g, ids);
    }
    forall i | 0 <= i < |f.newInfos|
      ensures k.New(f.newInfos[i].addr, f.newInfos[i].source) == OwnBucket(k, s.mapInfo[ids[i]])
    {
      OwnBucketIs(k, s.mapInfo[ids[i]]);
    }
  }

  lemma OwnBucketIs(k: Buckets, info: AddrInfo)
    ensures k.New(Strip(info).addr, Strip(info).source) == OwnBucket(k, info)
  {
  }

  lemma WrittenIsRenaming(s: Table, g: Saved, ids: seq<nat>)
    requires Written(s, g, ids)
    ensures IsRenaming(s, ids)
  {
    hide IsRenaming;
  }

  lemma NewInfosAre(s: Table, g: Saved, ids: seq<nat>)
    requires Written(s, g, ids)
    ensures |g.newInfos| <= |ids| && Known(s.mapInfo, ids) && forall i :: 0 <= i < |g.newInfos| ==> g.newInfos[i] == Strip(s.mapInfo[ids[i]])
  {
    hide NoRepeats, Strip;
    forall i | 0 <= i < |g.newInfos|
      ensures g.newInfos[i] == Strip(s.mapInfo[ids[i]])
    {
      assert Infos(g)[i] == Strip(s.mapInfo[ids[i]]);
    }
  }

  lemma AheadSame(k: Buckets, f: Saved, t: Table, u: Table, n: nat)
    requires n <= |f.newInfos| && Ahead(k, f, t, u, n)
    ensures u == t.(mapInfo := u.mapInfo, vvNew := u.vvNew) && u.mapInfo.Keys == t.mapInfo.Keys
  {
    hide InBucket;
  }

  /** A file with another number of buckets, but otherwise as s would be written, is read as s with every new entry in the
      bucket of its own source, and only there. */
  lemma ReloadRebuilds(k: Buckets, s: Table, f: Saved)
    requires Savable(s) && TriedOk(k, s) && OtherCount(f, Save(s))
    ensures Loadable(f) && Renamed(Rebuilt(k, s), Load(k, f), Ids(s))
  {
    hide Savable, TriedOk, Save, Written, TriedTo, LoadTried, Rebuilt, Ahead, SameEntries, SameNew, SameTriedBuckets, SameAddresses, IsRenaming,
         LoadedTo, Known;
    var g, ids := Save(s), Ids(s);
    ReadUpToBuckets(k, s);
    WrittenSizes(s);
    OtherIsLoadable(f, g);
    LoadIsTried(k, f, g);
    AheadTried(k, f, g, |f.triedInfos|);
    var t, u := LoadTried(k, g, |g.triedInfos|), Load(k, f);
    LoadedAll(k, s, g, t, ids);
    KnownLength(s, g, ids);
    AheadSame(k, f, t, u, |f.newInfos|);
    RebuiltRenaming(k, s, ids);
    RebuiltSame(k, s, g, f, t, u, ids);
    RebuiltSets(k, s, g, f, t, u, ids);
    ReloadedTried(k, s, g, t, u, ids);
    RebuiltCountsSame(k, s);
    SameTriedIs(s, Rebuilt(k, s), u, ids);
  }

  lemma SameTriedIs(s: Table, r: Table, u: Table, ids: seq<nat>)
    requires SameTriedBuckets(s, u, ids) && r.vvTried == s.vvTried
    ensures SameTriedBuckets(r, u, ids)
  {
    hide SameBucket;
  }

  lemma OtherIsLoadable(f: Saved, g: Saved)
    requires OtherCount(f, g) && Complete(g)
    ensures Loadable(f) && |f.newInfos| == f.nNew == g.nNew && f.newInfos == g.newInfos && f.triedInfos == g.triedInfos
  {
  }

  lemma RebuiltSame(k: Buckets, s: Table, g: Saved, f: Saved, t: Table, u: Table, ids: seq<nat>)
    requires Written(s, g, ids) && Savable(s) && f.newInfos == g.newInfos && |f.newInfos| == s.nNew
    requires LoadedTo(g, t, |ids|) && Ahead(k, f, t, u, |f.newInfos|)
    requires t.nIdCount == |ids| && t.nNew == s.nNew && t.nTried == s.nTried
    ensures Known(Rebuilt(k, s).mapInfo, ids) && SameEntries(Rebuilt(k, s), u, ids)
  {
    hide *;
    SavableUncounted(s);
    RebuiltAddresses(k, s, g, t, ids);
    LoadedKeys(g, t, |ids|);
    AheadSame(k, f, t, u, |f.newInfos|);
    AddressesSame(Rebuilt(k, s), t, u, ids);
    RebuiltCountsSame(k, s);
    KnownLength(s, g, ids);
    KnownIn(Rebuilt(k, s), ids);
    forall i | 0 <= i < |ids|
      ensures i in u.mapInfo && u.mapInfo[i] == Rebuilt(k, s).mapInfo[ids[i]].(nLastTry := 0, nRandomPos := i)
    {
      RebuiltEntry(k, s, g, f, t, u, ids, i);
    }
    EntriesAre(Rebuilt(k, s), u, ids);
  }

  lemma KnownIn(s: Table, ids: seq<nat>)
    requires Known(s.mapInfo, ids)
    ensures forall i :: 0 <= i < |ids| ==> ids[i] in s.mapInfo
  {
  }

  lemma EntriesAre(s: Table, t: Table, ids: seq<nat>)
    requires Known(s.mapInfo, ids) && SameAddresses(s, t, ids)
    requires t.nIdCount == |ids| == |t.vRandom| && t.nNew == s.nNew && t.nTried == s.nTried
    requires (forall i :: i in t.mapInfo <==> 0 <= i < |ids|) && forall i :: 0 <= i < |ids| ==> t.vRandom[i] == i
    requires forall i :: 0 <= i < |ids| ==> t.mapInfo[i] == s.mapInfo[ids[i]].(nLastTry := 0, nRandomPos := i)
    ensures SameEntries(s, t, ids)
  {
    hide SameAddresses;
  }

  lemma RebuiltCountsSame(k: Buckets, s: Table)
    ensures Rebuilt(k, s).nNew == s.nNew && Rebuilt(k, s).nTried == s.nTried && Rebuilt(k, s).vvTried == s.vvTried
  {
  }

  lemma KnownLength(s: Table, g: Saved, ids: seq<nat>)
    requires Written(s, g, ids)
    ensures Known(s.mapInfo, ids) && |g.newInfos| == s.nNew
  {
  }

  lemma AddressesSame(s: Table, t: Table, u: Table, ids: seq<nat>)
    requires Known(s.mapInfo, ids) && SameAddresses(s, t, ids) && u.mapAddr == t.mapAddr
    ensures SameAddresses(s, u, ids)
  {
  }

  lemma SavableUncounted(s: Table)
    requires Savable(s)
    ensures TriedUncounted(s)
  {
    hide NewPlaced, NewCounted, CountsOk, DistinctAddrs;
  }

  // ------------------------------------------------------------------ whether that is consistent

  /** Renaming makes no set smaller. */
  lemma {:induction false} RenamedSetNoSmaller(v: set<nat>, w: set<nat>, ids: seq<nat>)
    requires (forall i :: 0 <= i < |ids| && ids[i] in v ==> i in w) && forall id :: id in v ==> id in ids
    ensures |v| <= |w|
  {
    if v != {} {
      var id :| id in v;
      var i :| 0 <= i < |ids| && ids[i] == id;
      RenamedSetNoSmaller(v - {id}, w - {i}, ids);
    }
  }

  lemma RenamedSizesIff(s: Table, t: Table, ids: seq<nat>)
    requires Renamed(s, t, ids) && NewPlaced(s)
    ensures NewSized(t) <==> NewSized(s)
  {
    if NewSized(s) {
      RenamedSizes(s, t, ids);
    }
    hide SameEntries, SameTriedBuckets, NoRepeats;
    if NewSized(t) {
      forall b | 0 <= b < |s.vvNew|
        ensures |s.vvNew[b]| <= NEW_BUCKET_SIZE
      {
        assert SameSet(s.vvNew[b], t.vvNew[b], ids);
        RenamedSetNoSmaller(s.vvNew[b], t.vvNew[b], ids);
      }
    }
  }

  /** The rebuilt tables always pass Check_. They are consistent if and only if no more entries share an own bucket than a
      bucket may hold: this reader, unlike Add_, does not look at the size. */
  lemma RebuiltIsConsistentIff(k: Buckets, s: Table, f: Saved)
    requires Inv(k, s) && OtherCount(f, Save(s))
    ensures Loadable(f) && Passes(Load(k, f))
    ensures Inv(k, Load(k, f)) <==> forall b :: 0 <= b < NEW_BUCKET_COUNT ==> |OwnSet(k, s.mapInfo, b)| <= NEW_BUCKET_SIZE
  {
    hide Save, Rebuilt, Savable, Renamed, TriedOk, StatsOk, IdsOk, RandomOk, CountsOk, NewPlaced, NewCounted, NewSized, OtherCount, Load,
         OwnSet, Passes;
    InvSavable(k, s);
    ReloadRebuilds(k, s, f);
    RebuiltTried(k, s);
    RebuiltCounted(k, s);
    RenamedSound(k, Rebuilt(k, s), Load(k, f), Ids(s));
    SoundPasses(k, Load(k, f));
    RenamedSizesIff(Rebuilt(k, s), Load(k, f), Ids(s));
    SizedIs(k, s);
    BucketsStay(k, s, Load(k, f), Ids(s));
  }

  lemma SizedIs(k: Buckets, s: Table)
    ensures NewSized(Rebuilt(k, s)) <==> forall b :: 0 <= b < NEW_BUCKET_COUNT ==> |OwnSet(k, s.mapInfo, b)| <= NEW_BUCKET_SIZE
  {
    hide OnceAll, OwnSets, OwnSet;
  }

  lemma BucketsStay(k: Buckets, s: Table, t: Table, ids: seq<nat>)
    requires Renamed(Rebuilt(k, s), t, ids)
    ensures |t.vvNew| == NEW_BUCKET_COUNT
  {
    hide OnceAll, OwnSets, OwnSet, SameEntries, SameTriedBuckets, IsRenaming;
  }

  function CrammedInfo(id: nat): AddrInfo {
    AddrInfo(Service(id as NetAddr, 0), {}, 0, 0, 0, 0, 0, 1, false, id)
  }

  /** One new entry more than a bucket of that size may hold, in two buckets, as when the last but one was added again from a
      second source, which put it into bucket 1 too, and the last one then took its place in bucket 0. */
  function Crammed(size: nat): Table
    requires size > 0
  {
    var ids := Between(0, size + 1);
    Table(size + 1, map id | id in ids :: CrammedInfo(id), map id | id in ids :: id as NetAddr := id, seq(size + 1, i => i),
          0, seq(TRIED_BUCKET_COUNT, _ => []),
          size + 1, seq(NEW_BUCKET_COUNT, b => if b == 0 then ids - {size - 1} else if b == 1 then {size - 1} else {}))
  }

  lemma CrammedEntries(k: Buckets, size: nat)
    requires size > 0
    ensures var s := Crammed(size); IdsOk(s) && RandomOk(s) && StatsOk(s) && CountsOk(s) && TriedOk(k, s)
  {
    hide Between;
    var s := Crammed(size);
    assert TriedIds(s) == {};
    assert NewIds(s) == Between(0, size + 1);
  }

  lemma CrammedNew(size: nat)
    requires 0 < size <= NEW_BUCKET_SIZE
    ensures NewOk(Crammed(size), None)
  {
    hide Between;
    var s := Crammed(size);
    forall id | id in s.mapInfo
      ensures CountedOk(s, None, id)
    {
      InOneBucket(s.vvNew, id, if id == size - 1 then 1 else 0, |s.vvNew|);
      assert s.vvNew[..|s.vvNew|] == s.vvNew;
    }
  }

  lemma CrammedShare(k: Buckets, size: nat)
    requires size > 0 && forall a :: k.New(a, 0) == 0
    ensures OwnSet(k, Crammed(size).mapInfo, 0) == Between(0, size + 1)
  {
    hide Between;
  }

  /** A consistent manager whose file, written with no bucket at all, comes back inconsistent. */
  lemma RebuiltMayOverfill() returns (k: Buckets, s: Table, f: Saved)
    ensures Inv(k, s) && OtherCount(f, Save(s)) && Loadable(f) && !Inv(k, Load(k, f))
  {
    hide Save, IdsOk, RandomOk, CountsOk, StatsOk, TriedOk, NewOk, Between, Load, Crammed;
    k, s := Buckets(_ => 0, (_, source) => source as nat), Crammed(NEW_BUCKET_SIZE);
    CrammedEntries(k, NEW_BUCKET_SIZE);
    CrammedNew(NEW_BUCKET_SIZE);
    InvSavable(k, s);
    SavedComplete(s);
    ghost var g := Save(s);
    f := Saved(g.nNew, g.nTried, 0, g.newInfos, g.triedInfos, []);
    RebuiltIsConsistentIff(k, s, f);
    forall a
      ensures k.New(a, 0) == 0
    {
      assert k.newHash(a, 0) == 0;
    }
    CrammedShare(k, NEW_BUCKET_SIZE);
  }
}
