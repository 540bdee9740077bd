/** The elementary changes of the address tables and why each keeps the invariant (src/addrman.cpp). Every proof treats
    the six parts of the invariant one at a time. */
module AddrSteps {
  import opened Wrappers
  import opened AddrTable

  // ------------------------------------------------------------------ what each part of the invariant looks at

  predicate SameKeys(s: Table, t: Table) {
    t.mapInfo.Keys == s.mapInfo.Keys
  }

  lemma IdsFrame(s: Table, t: Table)
    requires IdsOk(s) && SameKeys(s, t) && t.nIdCount == s.nIdCount && t.mapAddr == s.mapAddr
    requires forall id :: id in s.mapInfo ==> t.mapInfo[id].addr == s.mapInfo[id].addr
    ensures IdsOk(t)
  {
  }

  lemma RandomFrame(s: Table, t: Table)
    requires RandomOk(s) && SameKeys(s, t) && t.vRandom == s.vRandom
    requires forall id :: id in s.mapInfo ==> t.mapInfo[id].nRandomPos == s.mapInfo[id].nRandomPos
    ensures RandomOk(t)
  {
  }

  lemma CountsFrame(s: Table, t: Table)
    requires CountsOk(s) && SameKeys(s, t) && t.nTried == s.nTried && t.nNew == s.nNew
    requires forall id :: id in s.mapInfo ==> t.mapInfo[id].fInTried == s.mapInfo[id].fInTried
    ensures CountsOk(t)
  {
    assert TriedIds(t) == TriedIds(s) && NewIds(t) == NewIds(s);
  }

  /** The tried tables do not depend on the new entries. */
  lemma TriedFrame(k: Buckets, s: Table, t: Table)
    requires TriedOk(k, s) && t.vvTried == s.vvTried
    requires forall id :: id in s.mapInfo && s.mapInfo[id].fInTried ==> id in t.mapInfo && SameTried(s.mapInfo[id], t.mapInfo[id])
    requires forall id :: id in t.mapInfo && t.mapInfo[id].fInTried ==> id in s.mapInfo && s.mapInfo[id].fInTried
    ensures TriedOk(k, t)
  {
    forall b, i | 0 <= b < |t.vvTried| && 0 <= i < |t.vvTried[b]|
      ensures
        && t.vvTried[b][i] in t.mapInfo
        && t.mapInfo[t.vvTried[b][i]].fInTried && k.Tried(t.mapInfo[t.vvTried[b][i]].addr) == b
    {
      var id := s.vvTried[b][i];
      assert id in s.mapInfo && s.mapInfo[id].fInTried;
      assert SameTried(s.mapInfo[id], t.mapInfo[id]);
    }
    forall id | id in t.mapInfo && t.mapInfo[id].fInTried
      ensures t.mapInfo[id].nRefCount == 0 && id in t.vvTried[k.Tried(t.mapInfo[id].addr)]
    {
      assert SameTried(s.mapInfo[id], t.mapInfo[id]);
    }
  }

  predicate SameTried(a: AddrInfo, b: AddrInfo) {
    a.addr == b.addr && a.nRefCount == b.nRefCount && a.fInTried == b.fInTried
  }

  /** The new buckets do not depend on the tried entries. */
  lemma NewFrame(s: Table, t: Table, p: Option<nat>)
    requires NewOk(s, p) && SameKeys(s, t) && t.vvNew == s.vvNew
    requires forall id :: id in s.mapInfo ==> SameTried(s.mapInfo[id], t.mapInfo[id])
    ensures NewOk(t, p)
  {
    forall id | id in t.mapInfo && !t.mapInfo[id].fInTried
      ensures CountedOk(t, p, id)
    {
      assert SameTried(s.mapInfo[id], t.mapInfo[id]);
      assert CountedOk(s, p, id);
    }
    forall b, id | 0 <= b < |t.vvNew| && id in t.vvNew[b]
      ensures id in t.mapInfo && !t.mapInfo[id].fInTried
    {
      assert SameTried(s.mapInfo[id], t.mapInfo[id]);
    }
  }

  lemma StatsFrame(s: Table, t: Table)
    requires StatsOk(s) && t.mapInfo.Keys <= s.mapInfo.Keys
    requires forall id :: id in t.mapInfo ==> SameStats(s.mapInfo[id], t.mapInfo[id])
    ensures StatsOk(t)
  {
  }

  predicate SameStats(a: AddrInfo, b: AddrInfo) {
    a.nLastTry == b.nLastTry && a.nLastSuccess == b.nLastSuccess && a.fInTried == b.fInTried
  }

  // ------------------------------------------------------------------ statistics

  predicate SameLinks(a: AddrInfo, b: AddrInfo) {
    SameTried(a, b) && a.nRandomPos == b.nRandomPos
  }

  predicate GoodStats(info: AddrInfo) {
    info.nLastTry >= 0 && info.nLastSuccess >= 0 && (info.fInTried ==> info.nLastSuccess != 0)
  }

  function SetInfo(s: Table, id: nat, info: AddrInfo): Table {
    s.(mapInfo := s.mapInfo[id := info])
  }

  lemma SetInfoStats(s: Table, id: nat, info: AddrInfo)
    requires StatsOk(s) && GoodStats(info)
    ensures StatsOk(SetInfo(s, id, info))
  {
  }

  /** Changing statistics changes no index. */
  lemma SetInfoKeeps(k: Buckets, s: Table, p: Option<nat>, id: nat, info: AddrInfo)
    requires InvP(k, s, p) && id in s.mapInfo && SameLinks(info, s.mapInfo[id]) && GoodStats(info)
    ensures InvP(k, SetInfo(s, id, info), p)
  {
    hide IdsOk, RandomOk, CountsOk, StatsOk, TriedOk, NewOk;
    var t := SetInfo(s, id, info);
    SetInfoStats(s, id, info);
    assert SameKeys(s, t);
    IdsFrame(s, t);
    RandomFrame(s, t);
    CountsFrame(s, t);
    TriedFrame(k, s, t);
    NewFrame(s, t, p);
  }

  // ------------------------------------------------------------------ vRandom

  /** SwapRandom. */
  function SwapRandom(s: Table, p1: nat, p2: nat): Table
    requires p1 < |s.vRandom| && p2 < |s.vRandom| && s.vRandom[p1] in s.mapInfo && s.vRandom[p2] in s.mapInfo
  {
    if p1 == p2 then s
    else
      var id1, id2 := s.vRandom[p1], s.vRandom[p2];
      var m := s.mapInfo[id1 := s.mapInfo[id1].(nRandomPos := p2)];
      s.(mapInfo := m[id2 := m[id2].(nRandomPos := p1)], vRandom := s.vRandom[p1 := id2][p2 := id1])
  }

  /** Two tables that differ only in vRandom and the positions in it. */
  predicate SameButRandom(s: Table, t: Table) {
    && t == s.(mapInfo := t.mapInfo, vRandom := t.vRandom)
    && SameKeys(s, t)
    && forall id :: id in s.mapInfo ==> t.mapInfo[id] == s.mapInfo[id].(nRandomPos := t.mapInfo[id].nRandomPos)
  }

  lemma SwapRandomSame(s: Table, p1: nat, p2: nat)
    requires p1 < |s.vRandom| && p2 < |s.vRandom| && s.vRandom[p1] in s.mapInfo && s.vRandom[p2] in s.mapInfo
    ensures SameButRandom(s, SwapRandom(s, p1, p2))
  {
  }

  lemma SwapRandomOk(s: Table, p1: nat, p2: nat)
    requires RandomOk(s) && p1 < |s.vRandom| && p2 < |s.vRandom|
    ensures var t := SwapRandom(s, p1, p2); RandomOk(t) && |t.vRandom| == |s.vRandom|
  {
    if p1 != p2 {
      var t := SwapRandom(s, p1, p2);
      var id1, id2 := s.vRandom[p1], s.vRandom[p2];
      assert s.mapInfo[id1].nRandomPos == p1 && s.mapInfo[id2].nRandomPos == p2;
      forall i | 0 <= i < |t.vRandom|
        ensures t.vRandom[i] in t.mapInfo && t.mapInfo[t.vRandom[i]].nRandomPos == i
      {
        assert s.vRandom[i] in s.mapInfo && s.mapInfo[s.vRandom[i]].nRandomPos == i;
      }
      forall id | id in t.mapInfo
        ensures 0 <= t.mapInfo[id].nRandomPos < |t.vRandom| && t.vRandom[t.mapInfo[id].nRandomPos] == id
      {
        assert s.vRandom[s.mapInfo[id].nRandomPos] == id;
      }
    }
  }

  /** Nothing but RandomOk looks at vRandom. */
  lemma RandomIndependent(k: Buckets, s: Table, t: Table, p: Option<nat>)
    requires InvP(k, s, p) && SameButRandom(s, t) && RandomOk(t)
    ensures InvP(k, t, p)
  {
    hide IdsOk, RandomOk, CountsOk, TriedOk, NewOk;
    IdsFrame(s, t);
    CountsFrame(s, t);
    TriedFrame(k, s, t);
    NewFrame(s, t, p);
  }

  lemma SwapRandomKeeps(k: Buckets, s: Table, p: Option<nat>, p1: nat, p2: nat)
    requires InvP(k, s, p) && p1 < |s.vRandom| && p2 < |s.vRandom|
    ensures InvP(k, SwapRandom(s, p1, p2), p)
  {
    hide IdsOk, CountsOk, StatsOk, TriedOk, NewOk, SwapRandom, SameButRandom;
    SwapRandomOk(s, p1, p2);
    SwapRandomSame(s, p1, p2);
    RandomIndependent(k, s, SwapRandom(s, p1, p2), p);
  }

  // ------------------------------------------------------------------ a new entry

  /** Create, and the counting Add_ does next: the entry exists, is counted, and is in no bucket yet. */
  function CreateCounted(s: Table, info: AddrInfo): Table {
    var id := s.nIdCount;
    s.(nIdCount := id + 1,
       mapInfo := s.mapInfo[id := info.(nRefCount := 1, fInTried := false, nRandomPos := |s.vRandom|)],
       mapAddr := s.mapAddr[info.addr.ip := id],
       vRandom := s.vRandom + [id],
       nNew := s.nNew + 1)
  }

  lemma CreateIds(s: Table, info: AddrInfo)
    requires IdsOk(s) && info.addr.ip !in s.mapAddr
    ensures IdsOk(CreateCounted(s, info)) && s.nIdCount !in s.mapInfo
  {
  }

  lemma CreateRandom(s: Table, info: AddrInfo)
    requires RandomOk(s) && s.nIdCount !in s.mapInfo
    ensures RandomOk(CreateCounted(s, info))
  {
  }

  lemma CreateCounts(s: Table, info: AddrInfo)
    requires CountsOk(s) && s.nIdCount !in s.mapInfo
    ensures CountsOk(CreateCounted(s, info))
  {
    var t := CreateCounted(s, info);
    assert TriedIds(t) == TriedIds(s) && NewIds(t) == NewIds(s) + {s.nIdCount};
  }

  lemma CreateNew(s: Table, info: AddrInfo)
    requires NewOk(s, None) && s.nIdCount !in s.mapInfo
    ensures NewOk(CreateCounted(s, info), Some(s.nIdCount))
  {
    var id, t := s.nIdCount, CreateCounted(s, info);
    assert forall b :: 0 <= b < |s.vvNew| ==> id !in s.vvNew[b];
    RefCountZero(s.vvNew, id);
    forall x | x in t.mapInfo && !t.mapInfo[x].fInTried
      ensures CountedOk(t, Some(id), x)
    {
      if x != id {
        assert CountedOk(s, None, x);
      }
    }
  }

  lemma CreateKeeps(k: Buckets, s: Table, info: AddrInfo)
    requires Inv(k, s) && info.addr.ip !in s.mapAddr && info.nLastTry == 0 && info.nLastSuccess == 0
    ensures InvP(k, CreateCounted(s, info), Some(s.nIdCount))
  {
    hide IdsOk, RandomOk, CountsOk, TriedOk, NewOk;
    CreateIds(s, info);
    CreateRandom(s, info);
    CreateCounts(s, info);
    TriedFrame(k, s, CreateCounted(s, info));
    CreateNew(s, info);
  }

  /** Add_ raising the count of an entry it already knows. */
  function Bump(s: Table, id: nat): Table
    requires id in s.mapInfo
  {
    SetInfo(s, id, s.mapInfo[id].(nRefCount := s.mapInfo[id].nRefCount + 1))
  }

  lemma BumpNew(s: Table, id: nat)
    requires NewOk(s, None) && id in s.mapInfo && !s.mapInfo[id].fInTried && s.mapInfo[id].nRefCount < NEW_BUCKETS_PER_ADDRESS
    ensures NewOk(Bump(s, id), Some(id))
  {
    forall x | x in s.mapInfo && !s.mapInfo[x].fInTried
      ensures CountedOk(Bump(s, id), Some(id), x)
    {
      assert CountedOk(s, None, x);
    }
  }

  lemma BumpKeeps(k: Buckets, s: Table, id: nat)
    requires Inv(k, s) && id in s.mapInfo && !s.mapInfo[id].fInTried && s.mapInfo[id].nRefCount < NEW_BUCKETS_PER_ADDRESS
    ensures InvP(k, Bump(s, id), Some(id))
  {
    hide IdsOk, RandomOk, CountsOk, TriedOk, NewOk;
    var t := Bump(s, id);
    assert SameKeys(s, t);
    IdsFrame(s, t);
    RandomFrame(s, t);
    CountsFrame(s, t);
    TriedFrame(k, s, t);
    BumpNew(s, id);
  }

  /** Putting the pending entry into a bucket. */
  function Insert(s: Table, b: nat, id: nat): Table
    requires b < |s.vvNew|
  {
    s.(vvNew := s.vvNew[b := s.vvNew[b] + {id}])
  }

  lemma InsertNew(s: Table, b: nat, id: nat)
    requires NewOk(s, Some(id)) && b < |s.vvNew| && id !in s.vvNew[b] && |s.vvNew[b]| < NEW_BUCKET_SIZE
    ensures NewOk(Insert(s, b, id), None)
  {
    forall x | x in s.mapInfo && !s.mapInfo[x].fInTried
      ensures CountedOk(Insert(s, b, id), None, x)
    {
      assert CountedOk(s, Some(id), x);
      RefCountUpdate(s.vvNew, b, s.vvNew[b] + {id}, x);
    }
  }

  /** Room in the bucket pays for the pending count. */
  lemma InsertKeeps(k: Buckets, s: Table, b: nat, id: nat)
    requires InvP(k, s, Some(id)) && b < |s.vvNew| && id !in s.vvNew[b] && |s.vvNew[b]| < NEW_BUCKET_SIZE
    ensures Inv(k, Insert(s, b, id))
  {
    hide IdsOk, RandomOk, CountsOk, TriedOk, NewOk;
    var t := Insert(s, b, id);
    IdsFrame(s, t);
    RandomFrame(s, t);
    CountsFrame(s, t);
    TriedFrame(k, s, t);
    InsertNew(s, b, id);
  }

  // ------------------------------------------------------------------ releasing a reference

  /** Delete an entry: move it to the end of vRandom, pop it, and erase it from the maps. */
  function Erase(s: Table, id: nat): Table
    requires id in s.mapInfo && RandomOk(s)
  {
    var t := SwapRandom(s, s.mapInfo[id].nRandomPos, |s.vRandom| - 1);
    t.(vRandom := t.vRandom[..|t.vRandom| - 1], mapAddr := t.mapAddr - {s.mapInfo[id].addr.ip}, mapInfo := t.mapInfo - {id})
  }

  /** What is left of the table after Erase, apart from the positions in vRandom. */
  predicate Erased(s: Table, t: Table, id: nat)
    requires id in s.mapInfo
  {
    && t.mapInfo.Keys == s.mapInfo.Keys - {id}
    && t == s.(mapInfo := t.mapInfo, vRandom := t.vRandom, mapAddr := s.mapAddr - {s.mapInfo[id].addr.ip})
    && forall x :: x in t.mapInfo ==> t.mapInfo[x] == s.mapInfo[x].(nRandomPos := t.mapInfo[x].nRandomPos)
  }

  lemma EraseRandom(s: Table, id: nat)
    requires id in s.mapInfo && RandomOk(s)
    ensures RandomOk(Erase(s, id)) && Erased(s, Erase(s, id), id)
  {
    hide SwapRandom;
    var p := s.mapInfo[id].nRandomPos;
    var u := SwapRandom(s, p, |s.vRandom| - 1);
    SwapRandomOk(s, p, |s.vRandom| - 1);
    SwapRandomSame(s, p, |s.vRandom| - 1);
    SwapRandomMoves(s, p);
    var t := Erase(s, id);
    forall i | 0 <= i < |t.vRandom|
      ensures t.vRandom[i] in t.mapInfo && t.mapInfo[t.vRandom[i]].nRandomPos == i
    {
      assert u.vRandom[i] in u.mapInfo && u.mapInfo[u.vRandom[i]].nRandomPos == i;
    }
    forall x | x in t.mapInfo
      ensures 0 <= t.mapInfo[x].nRandomPos < |t.vRandom| && t.vRandom[t.mapInfo[x].nRandomPos] == x
    {
      assert u.vRandom[u.mapInfo[x].nRandomPos] == x;
    }
  }

  lemma SwapRandomMoves(s: Table, p: nat)
    requires p < |s.vRandom| && RandomOk(s)
    ensures SwapRandom(s, p, |s.vRandom| - 1).vRandom[|s.vRandom| - 1] == s.vRandom[p]
  {
  }

  /** What ShrinkNew does to the id it picks in bucket b: one reference less, and gone with the last one. */
  function Release(s: Table, b: nat, id: nat): Table
    requires b < |s.vvNew| && id in s.mapInfo && RandomOk(s)
  {
    var t := if s.mapInfo[id].nRefCount == 1 then var e := Erase(s, id); e.(nNew := e.nNew - 1)
             else SetInfo(s, id, s.mapInfo[id].(nRefCount := s.mapInfo[id].nRefCount - 1));
    t.(vvNew := t.vvNew[b := t.vvNew[b] - {id}])
  }

  lemma ReleaseKeeps(k: Buckets, s: Table, p: Option<nat>, b: nat, id: nat)
    requires InvP(k, s, p) && b < |s.vvNew| && id in s.vvNew[b] && id in s.mapInfo && p != Some(id)
    ensures InvP(k, Release(s, b, id), p)
  {
    hide IdsOk, RandomOk, CountsOk, StatsOk, TriedOk, NewOk;
    if s.mapInfo[id].nRefCount == 1 {
      ReleaseLast(k, s, p, b, id);
    } else {
      ReleaseOne(k, s, p, b, id);
    }
  }

  lemma ReleaseOneNew(s: Table, p: Option<nat>, b: nat, id: nat)
    requires NewOk(s, p) && b < |s.vvNew| && id in s.vvNew[b] && id in s.mapInfo && p != Some(id)
    requires s.mapInfo[id].nRefCount != 1 && RandomOk(s)
    ensures NewOk(Release(s, b, id), p)
  {
    hide RandomOk;
    var t := Release(s, b, id);
    forall x | x in t.mapInfo && !t.mapInfo[x].fInTried
      ensures CountedOk(t, p, x)
    {
      assert CountedOk(s, p, x);
      RefCountUpdate(s.vvNew, b, s.vvNew[b] - {id}, x);
    }
  }

  lemma NotTried(s: Table, p: Option<nat>, b: nat, id: nat)
    requires NewOk(s, p) && b < |s.vvNew| && id in s.vvNew[b]
    ensures id in s.mapInfo && !s.mapInfo[id].fInTried
  {
  }

  lemma ReleaseOne(k: Buckets, s: Table, p: Option<nat>, b: nat, id: nat)
    requires InvP(k, s, p) && b < |s.vvNew| && id in s.vvNew[b] && id in s.mapInfo && p != Some(id)
    requires s.mapInfo[id].nRefCount != 1
    ensures InvP(k, Release(s, b, id), p)
  {
    hide IdsOk, RandomOk, CountsOk, StatsOk, TriedOk, NewOk, Erase;
    NotTried(s, p, b, id);
    var t := Release(s, b, id);
    assert SameKeys(s, t);
    StatsFrame(s, t);
    IdsFrame(s, t);
    RandomFrame(s, t);
    CountsFrame(s, t);
    TriedFrame(k, s, t);
    ReleaseOneNew(s, p, b, id);
  }

  lemma EraseIds(s: Table, t: Table, id: nat)
    requires IdsOk(s) && id in s.mapInfo && Erased(s, t, id)
    ensures IdsOk(t)
  {
  }

  lemma EraseCounts(s: Table, t: Table, id: nat)
    requires CountsOk(s) && id in s.mapInfo && !s.mapInfo[id].fInTried && Erased(s, t, id)
    ensures CountsOk(t.(nNew := t.nNew - 1))
  {
    assert TriedIds(t) == TriedIds(s) && NewIds(t) == NewIds(s) - {id};
    var u := t.(nNew := t.nNew - 1);
    assert TriedIds(u) == TriedIds(t) && NewIds(u) == NewIds(t);
  }

  lemma EraseNew(s: Table, t: Table, p: Option<nat>, b: nat, id: nat)
    requires NewOk(s, p) && b < |s.vvNew| && id in s.vvNew[b] && id in s.mapInfo && p != Some(id)
    requires s.mapInfo[id].nRefCount == 1 && Erased(s, t, id)
    ensures NewOk(t.(vvNew := t.vvNew[b := t.vvNew[b] - {id}]), p)
  {
    var u := t.(vvNew := t.vvNew[b := t.vvNew[b] - {id}]);
    assert CountedOk(s, p, id);
    RefCountUpdate(s.vvNew, b, s.vvNew[b] - {id}, id);
    RefCountZero(u.vvNew, id);
    forall x | x in u.mapInfo && !u.mapInfo[x].fInTried
      ensures CountedOk(u, p, x)
    {
      assert CountedOk(s, p, x);
      RefCountUpdate(s.vvNew, b, s.vvNew[b] - {id}, x);
    }
  }

  lemma ReleaseLast(k: Buckets, s: Table, p: Option<nat>, b: nat, id: nat)
    requires InvP(k, s, p) && b < |s.vvNew| && id in s.vvNew[b] && id in s.mapInfo && p != Some(id)
    requires s.mapInfo[id].nRefCount == 1
    ensures InvP(k, Release(s, b, id), p)
  {
    hide IdsOk, RandomOk, CountsOk, StatsOk, TriedOk, NewOk, Erase;
    NotTried(s, p, b, id);
    var e, t := Erase(s, id), Release(s, b, id);
    EraseRandom(s, id);
    StatsFrame(s, t);
    EraseIds(s, e, id);
    IdsFrame(e, t);
    RandomFrame(e, t);
    EraseCounts(s, e, id);
    CountsFrame(e.(nNew := e.nNew - 1), t);
    TriedFrame(k, s, t);
    EraseNew(s, e, p, b, id);
    NewFrame(e.(vvNew := e.vvNew[b := e.vvNew[b] - {id}]), t, p);
  }
}
