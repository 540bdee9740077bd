/** A saved address table reloads to the same table up to a renaming of the ids (src/addrman.h). */
module AddrReload {
  import opened Wrappers
  import opened AddrTable
  import opened AddrTried
  import opened AddrCheck
  import opened AddrExact
  import opened AddrSaved

  // ------------------------------------------------------------------ the renaming

  /** The old id of each new one: the new entries first, then the tried ones. */
  ghost function Ids(s: Table): (ids: seq<nat>)
    ensures Known(s.mapInfo, ids)
  {
    Where(s, false) + Where(s, true)
  }

  predicate IsRenaming(s: Table, ids: seq<nat>) {
    && Known(s.mapInfo, ids) && NoRepeats(ids) && (forall id :: id in s.mapInfo ==> id in ids)
    && 0 <= s.nNew <= |ids| == s.nNew + s.nTried
    && forall i :: 0 <= i < |ids| ==> (s.mapInfo[ids[i]].fInTried <==> s.nNew <= i)
  }

  /** t is s with id ids[i] renamed to i and the memory-only fields of the entries computed anew. */
  ghost predicate Renamed(s: Table, t: Table, ids: seq<nat>) {
    IsRenaming(s, ids) && SameEntries(s, t, ids) && SameNew(s, t, ids) && SameTriedBuckets(s, t, ids)
  }

  ghost predicate SameEntries(s: Table, t: Table, ids: seq<nat>)
    requires Known(s.mapInfo, ids)
  {
    && t.nIdCount == |ids| && t.nNew == s.nNew && t.nTried == s.nTried
    && (forall i :: i in t.mapInfo <==> 0 <= i < |ids|)
    && (forall i :: 0 <= i < |ids| ==> t.mapInfo[i] == s.mapInfo[ids[i]].(nLastTry := 0, nRandomPos := i))
    && |t.vRandom| == |ids| && (forall i :: 0 <= i < |ids| ==> t.vRandom[i] == i)
    && SameAddresses(s, t, ids)
  }

  predicate SameAddresses(s: Table, t: Table, ids: seq<nat>)
    requires Known(s.mapInfo, ids)
  {
    && (forall a :: a in t.mapAddr ==> t.mapAddr[a] < |ids| && s.mapInfo[ids[t.mapAddr[a]]].addr.ip == a)
    && (forall i :: 0 <= i < |ids| ==> s.mapInfo[ids[i]].addr.ip in t.mapAddr && t.mapAddr[s.mapInfo[ids[i]].addr.ip] == i)
  }

  predicate SameNew(s: Table, t: Table, ids: seq<nat>) {
    |t.vvNew| == |s.vvNew| && forall b :: 0 <= b < |t.vvNew| ==> SameSet(s.vvNew[b], t.vvNew[b], ids)
  }

  predicate SameSet(v: set<nat>, w: set<nat>, ids: seq<nat>) {
    (forall i :: i in w ==> i < |ids| && ids[i] in v) && (forall i :: 0 <= i < |ids| && ids[i] in v ==> i in w)
  }

  predicate SameTriedBuckets(s: Table, t: Table, ids: seq<nat>) {
    |t.vvTried| == |s.vvTried| && forall b :: 0 <= b < |t.vvTried| ==> SameBucket(s.vvTried[b], t.vvTried[b], ids)
  }

  predicate SameBucket(v: seq<nat>, w: seq<nat>, ids: seq<nat>) {
    && NoRepeats(w) && |w| <= TRIED_BUCKET_SIZE
    && (forall j :: 0 <= j < |w| ==> w[j] < |ids| && ids[w[j]] in v) && (forall i :: 0 <= i < |ids| && ids[i] in v ==> i in w)
  }

  /** What the writer needs of a table. */
  predicate Savable(s: Table) {
    && CountsOk(s) && DistinctAddrs(s) && TriedUncounted(s)
    && |s.vvNew| == NEW_BUCKET_COUNT && NewPlaced(s) && NewCounted(s, None)
  }

  lemma InvSavable(k: Buckets, s: Table)
    requires Inv(k, s)
    ensures Savable(s)
  {
    hide RandomOk, CountsOk, StatsOk, NewPlaced, NewCounted;
  }

  lemma IdsAreRenaming(s: Table)
    requires Savable(s)
    ensures IsRenaming(s, Ids(s)) && |Where(s, false)| == s.nNew && |Where(s, true)| == s.nTried
  {
    var news, trieds := Where(s, false), Where(s, true);
    ListsOf(s, false);
    ListsOf(s, true);
    CountIds(s, news, false);
    CountIds(s, trieds, true);
    assert CountsOk(s);
    hide Savable, CountsOk, NewIds, TriedIds, Lists;
    ListsJoin(s, news, trieds);
  }

  lemma ListsJoin(s: Table, news: seq<nat>, trieds: seq<nat>)
    requires Lists(s, news, false) && Lists(s, trieds, true) && |news| == s.nNew && |trieds| == s.nTried
    ensures IsRenaming(s, news + trieds)
  {
    var ids := news + trieds;
    forall id | id in s.mapInfo
      ensures id in ids
    {
      assert id in news || id in trieds;
    }
  }

  predicate Lists(s: Table, ids: seq<nat>, tried: bool) {
    && (forall i :: 0 <= i < |ids| ==> ids[i] in s.mapInfo && s.mapInfo[ids[i]].fInTried == tried)
    && (forall i, j :: 0 <= i < j < |ids| ==> ids[i] < ids[j])
    && (forall id :: id in s.mapInfo && s.mapInfo[id].fInTried == tried ==> id in ids)
  }

  /** What the two loops of the writer select. */
  lemma ListsOf(s: Table, tried: bool)
    requires Savable(s)
    ensures Lists(s, Where(s, tried), tried)
  {
    SelectedIs(s);
    IdsWhereAll(s.mapInfo, tried, Top(s.mapInfo.Keys));
    hide Savable, IdsWhere, Selected;
  }

  lemma SelectedIs(s: Table)
    requires Savable(s)
    ensures forall id, tried :: id in s.mapInfo ==> (Selected(s.mapInfo[id], tried) <==> s.mapInfo[id].fInTried == tried)
  {
    hide CountsOk, DistinctAddrs, NewPlaced;
    forall id | id in s.mapInfo && !s.mapInfo[id].fInTried
      ensures s.mapInfo[id].nRefCount != 0
    {
      assert CountedOk(s, None, id);
    }
  }

  lemma CountIds(s: Table, ids: seq<nat>, tried: bool)
    requires Lists(s, ids, tried)
    ensures |ids| == |if tried then TriedIds(s) else NewIds(s)|
  {
    DistinctCount(ids);
    assert (set i | 0 <= i < |ids| :: ids[i]) == if tried then TriedIds(s) else NewIds(s);
  }

  // ------------------------------------------------------------------ a renamed table is as good as the original

  lemma {:induction false} RenamedCount(v: seq<set<nat>>, w: seq<set<nat>>, i: nat, id: nat)
    requires |v| == |w| && forall b :: 0 <= b < |v| ==> (i in w[b] <==> id in v[b])
    ensures RefCount(w, i) == RefCount(v, id)
  {
    if v != [] {
      RenamedCount(v[..|v| - 1], w[..|w| - 1], i, id);
    }
  }

  /** A renamed set is as large as the original. */
  lemma {:induction false} RenamedSize(v: set<nat>, w: set<nat>, ids: seq<nat>)
    requires NoRepeats(ids) && forall i :: i in w ==> i < |ids| && ids[i] in v
    ensures |w| <= |v|
  {
    if w != {} {
      var i :| i in w;
      RenamedSize(v - {ids[i]}, w - {i}, ids);
    }
  }

  lemma RenamedIds(s: Table, t: Table, ids: seq<nat>)
    requires Renamed(s, t, ids)
    ensures IdsOk(t) && RandomOk(t)
  {
    hide SameNew, SameTriedBuckets;
  }

  lemma RenamedCounts(s: Table, t: Table, ids: seq<nat>)
    requires Renamed(s, t, ids)
    ensures CountsOk(t)
  {
    hide SameNew, SameTriedBuckets, NoRepeats;
    assert NewIds(t) == Between(0, s.nNew) by {
      assert forall i :: 0 <= i < |ids| ==> t.mapInfo[i].fInTried == (s.nNew <= i);
    }
    assert TriedIds(t) == Between(s.nNew, |ids|) by {
      assert forall i :: 0 <= i < |ids| ==> t.mapInfo[i].fInTried == (s.nNew <= i);
    }
  }

  function Between(a: nat, b: nat): (r: set<nat>)
    requires a <= b
    ensures |r| == b - a && forall i :: i in r <==> a <= i < b
  {
    if a == b then {} else Between(a, b - 1) + {b - 1}
  }

  lemma RenamedStats(s: Table, t: Table, ids: seq<nat>)
    requires StatsOk(s) && Renamed(s, t, ids)
    ensures StatsOk(t)
  {
    hide SameNew, SameTriedBuckets, NoRepeats;
  }

  lemma RenamedTried(k: Buckets, s: Table, t: Table, ids: seq<nat>)
    requires TriedOk(k, s) && Renamed(s, t, ids)
    ensures TriedOk(k, t)
  {
    hide SameNew, NoRepeats;
    forall b, j | 0 <= b < |t.vvTried| && 0 <= j < |t.vvTried[b]|
      ensures
        && t.vvTried[b][j] in t.mapInfo
        && t.mapInfo[t.vvTried[b][j]].fInTried && k.Tried(t.mapInfo[t.vvTried[b][j]].addr) == b
    {
      assert SameBucket(s.vvTried[b], t.vvTried[b], ids);
      var i := t.vvTried[b][j];
      assert ids[i] in s.vvTried[b];
    }
    forall i | i in t.mapInfo && t.mapInfo[i].fInTried
      ensures t.mapInfo[i].nRefCount == 0 && i in t.vvTried[k.Tried(t.mapInfo[i].addr)]
    {
      var b := k.Tried(s.mapInfo[ids[i]].addr);
      assert SameBucket(s.vvTried[b], t.vvTried[b], ids);
      assert ids[i] in s.vvTried[b];
    }
  }

  lemma RenamedSizes(s: Table, t: Table, ids: seq<nat>)
    requires NewSized(s) && Renamed(s, t, ids)
    ensures NewSized(t)
  {
    hide SameEntries, SameTriedBuckets;
    forall b | 0 <= b < |t.vvNew|
      ensures |t.vvNew[b]| <= NEW_BUCKET_SIZE
    {
      assert SameSet(s.vvNew[b], t.vvNew[b], ids);
      RenamedSize(s.vvNew[b], t.vvNew[b], ids);
    }
  }

  lemma RenamedNew(s: Table, t: Table, ids: seq<nat>)
    requires NewPlaced(s) && NewCounted(s, None) && Renamed(s, t, ids)
    ensures NewPlaced(t) && NewCounted(t, None)
  {
    hide SameTriedBuckets, NoRepeats, RefCount;
    forall b, i: nat | 0 <= b < |t.vvNew| && i in t.vvNew[b]
      ensures i in t.mapInfo && !t.mapInfo[i].fInTried
    {
      assert SameSet(s.vvNew[b], t.vvNew[b], ids);
      assert i < |ids|;
      assert ids[i] in s.vvNew[b];
    }
    forall i | i in t.mapInfo && !t.mapInfo[i].fInTried
      ensures CountedOk(t, None, i)
    {
      assert CountedOk(s, None, ids[i]);
      assert forall b :: 0 <= b < |t.vvNew| ==> SameSet(s.vvNew[b], t.vvNew[b], ids);
      RenamedCount(s.vvNew, t.vvNew, i, ids[i]);
    }
  }

  /** The renamed table is as sound as the original. */
  lemma RenamedSound(k: Buckets, s: Table, t: Table, ids: seq<nat>)
    requires StatsOk(s) && TriedOk(k, s) && NewPlaced(s) && NewCounted(s, None) && Renamed(s, t, ids)
    ensures Sound(k, t)
  {
    hide IdsOk, RandomOk, CountsOk, StatsOk, TriedOk, NewPlaced, NewCounted, Renamed;
    RenamedIds(s, t, ids);
    RenamedCounts(s, t, ids);
    RenamedStats(s, t, ids);
    RenamedTried(k, s, t, ids);
    RenamedNew(s, t, ids);
  }

  lemma RenamedInv(k: Buckets, s: Table, t: Table, ids: seq<nat>)
    requires Inv(k, s) && Renamed(s, t, ids)
    ensures Inv(k, t)
  {
    hide IdsOk, RandomOk, CountsOk, StatsOk, TriedOk, NewPlaced, NewCounted, NewSized, IsRenaming, SameEntries, SameTriedBuckets;
    RenamedSound(k, s, t, ids);
    RenamedSizes(s, t, ids);
  }

  // ------------------------------------------------------------------ the entries

  function Infos(f: Saved): seq<SavedInfo> {
    f.newInfos + f.triedInfos
  }

  predicate DistinctIps(f: Saved) {
    forall i, j :: 0 <= i < j < |Infos(f)| ==> Infos(f)[i].addr.ip != Infos(f)[j].addr.ip
  }

  /** The first n entries have been read, each under its position. */
  ghost predicate LoadedTo(f: Saved, t: Table, n: nat) {
    && n <= |Infos(f)|
    && (forall i :: i in t.mapInfo <==> 0 <= i < n)
    && (forall i :: 0 <= i < n ==> t.mapInfo[i] == Restore(Infos(f)[i], i, |f.newInfos| <= i))
    && |t.vRandom| == n && (forall i :: 0 <= i < n ==> t.vRandom[i] == i)
    && Addressed(f, t, n)
  }

  predicate Addressed(f: Saved, t: Table, n: nat)
    requires n <= |Infos(f)|
  {
    && (forall a :: a in t.mapAddr ==> t.mapAddr[a] < n && Infos(f)[t.mapAddr[a]].addr.ip == a)
    && (forall i :: 0 <= i < n ==> Infos(f)[i].addr.ip in t.mapAddr && t.mapAddr[Infos(f)[i].addr.ip] == i)
  }

  lemma LoadedOneMore(f: Saved, t: Table, u: Table, n: nat)
    requires DistinctIps(f) && LoadedTo(f, t, n) && n < |Infos(f)|
    requires u.mapInfo == t.mapInfo[n := Restore(Infos(f)[n], n, |f.newInfos| <= n)]
    requires u.vRandom == t.vRandom + [n] && u.mapAddr == t.mapAddr[Infos(f)[n].addr.ip := n]
    ensures LoadedTo(f, u, n + 1)
  {
    AddressedOneMore(f, t, u, n);
    hide Addressed, DistinctIps;
  }

  lemma AddressedOneMore(f: Saved, t: Table, u: Table, n: nat)
    requires DistinctIps(f) && n < |Infos(f)| && Addressed(f, t, n)
    requires u.mapAddr == t.mapAddr[Infos(f)[n].addr.ip := n]
    ensures Addressed(f, u, n + 1)
  {
    var all := Infos(f);
    hide Infos;
    forall i | 0 <= i < n
      ensures all[i].addr.ip != all[n].addr.ip
    {
    }
  }

  lemma {:induction false} LoadNewTo(k: Buckets, f: Saved, n: nat)
    requires DistinctIps(f) && Usual(f) && n <= |f.newInfos|
    ensures var t := LoadNew(k, f, n); LoadedTo(f, t, n) && t.nNew == f.nNew && t.nTried == f.nTried
  {
    hide LoadedTo, DistinctIps;
    if n == 0 {
      LoadedNone(k, f);
    } else {
      LoadNewTo(k, f, n - 1);
      LoadedLength(f, LoadNew(k, f, n - 1), n - 1);
      LoadedOneMore(f, LoadNew(k, f, n - 1), LoadNew(k, f, n), n - 1);
    }
  }

  lemma LoadedNone(k: Buckets, f: Saved)
    ensures LoadedTo(f, LoadNew(k, f, 0), 0)
  {
  }

  lemma LoadedLength(f: Saved, t: Table, n: nat)
    requires LoadedTo(f, t, n)
    ensures |t.vRandom| == n <= |Infos(f)|
  {
  }

  /** The ids of the first n tried entries of the file that belong in bucket b. */
  function TriedIn(k: Buckets, f: Saved, b: nat, n: nat): seq<nat>
    requires n <= |f.triedInfos|
  {
    if n == 0 then []
    else if k.Tried(f.triedInfos[n - 1].addr) == b then TriedIn(k, f, b, n - 1) + [|f.newInfos| + n - 1]
    else TriedIn(k, f, b, n - 1)
  }

  lemma {:induction false} TriedInIs(k: Buckets, f: Saved, b: nat, n: nat)
    requires n <= |f.triedInfos|
    ensures var v := TriedIn(k, f, b, n);
            && NoRepeats(v)
            && (forall j :: 0 <= j < |v| ==> |f.newInfos| <= v[j] < |f.newInfos| + n && k.Tried(f.triedInfos[v[j] - |f.newInfos|].addr) == b)
            && (forall i :: 0 <= i < n && k.Tried(f.triedInfos[i].addr) == b ==> |f.newInfos| + i in v)
  {
    if n > 0 {
      TriedInIs(k, f, b, n - 1);
    }
  }

  lemma {:induction false} TriedInGrows(k: Buckets, f: Saved, b: nat, m: nat, n: nat)
    requires m <= n <= |f.triedInfos|
    ensures |TriedIn(k, f, b, m)| <= |TriedIn(k, f, b, n)|
  {
    if m < n {
      TriedInGrows(k, f, b, m, n - 1);
    }
  }

  /** No tried bucket of the file is too large, so no entry is lost. */
  predicate Fits(k: Buckets, f: Saved) {
    forall b :: 0 <= b < TRIED_BUCKET_COUNT ==> |TriedIn(k, f, b, |f.triedInfos|)| <= TRIED_BUCKET_SIZE
  }

  /** The state after n tried entries when none is lost. */
  ghost predicate TriedTo(k: Buckets, f: Saved, t: Table, n: nat)
    requires n <= |f.triedInfos|
  {
    && LoadedTo(f, t, |f.newInfos| + n) && t.nIdCount == |f.newInfos| + n && t.nNew == f.nNew && t.nTried == f.nTried
    && |t.vvTried| == TRIED_BUCKET_COUNT && (forall b :: 0 <= b < TRIED_BUCKET_COUNT ==> t.vvTried[b] == TriedIn(k, f, b, n))
    && |t.vvNew| == NEW_BUCKET_COUNT && (forall b :: 0 <= b < NEW_BUCKET_COUNT ==> t.vvNew[b] == {})
  }

  lemma LoadOneTo(k: Buckets, f: Saved, t: Table, n: nat)
    requires DistinctIps(f) && Fits(k, f) && n < |f.triedInfos| && TriedTo(k, f, t, n)
    ensures TriedTo(k, f, LoadOne(k, t, f.triedInfos[n]), n + 1)
  {
    hide LoadedTo, DistinctIps;
    var info := f.triedInfos[n];
    var b, u := k.Tried(info.addr), LoadOne(k, t, info);
    TriedInGrows(k, f, b, n + 1, |f.triedInfos|);
    assert |t.vvTried[b]| < TRIED_BUCKET_SIZE;
    LoadedLength(f, t, |f.newInfos| + n);
    assert Infos(f)[|f.newInfos| + n] == info;
    LoadedOneMore(f, t, u, |f.newInfos| + n);
  }

  lemma {:induction false} LoadTriedTo(k: Buckets, f: Saved, n: nat)
    requires DistinctIps(f) && Usual(f) && Fits(k, f) && n <= |f.triedInfos|
    ensures TriedTo(k, f, LoadTried(k, f, n), n)
  {
    hide TriedTo, DistinctIps, Fits;
    if n == 0 {
      LoadTriedStart(k, f);
    } else {
      LoadTriedTo(k, f, n - 1);
      LoadOneTo(k, f, LoadTried(k, f, n - 1), n - 1);
    }
  }

  lemma LoadTriedStart(k: Buckets, f: Saved)
    requires DistinctIps(f) && Usual(f)
    ensures TriedTo(k, f, LoadTried(k, f, 0), 0)
  {
    hide DistinctIps, LoadNew, LoadedTo;
    LoadNewTo(k, f, |f.newInfos|);
    LoadNewShape(k, f, |f.newInfos|);
    LoadedIgnoresCount(f, LoadNew(k, f, |f.newInfos|), |f.newInfos|);
  }

  lemma LoadedIgnoresCount(f: Saved, t: Table, n: nat)
    requires LoadedTo(f, t, n)
    ensures LoadedTo(f, t.(nIdCount := n), n)
  {
  }
}
