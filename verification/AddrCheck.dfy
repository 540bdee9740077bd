/** Check_, the consistency check the authors wrote for the address tables (src/addrman.cpp), and that the invariant
    makes it pass. */
module AddrCheck {
  import opened Wrappers
  import opened AddrTable

  /** mapAddr[ip] as operator[] reads it: an address that is missing reads as id 0. */
  function AddrAt(mapAddr: map<NetAddr, nat>, ip: NetAddr): nat {
    if ip in mapAddr then mapAddr[ip] else 0
  }

  /** The tests of the first loop. */
  predicate EntryOk(s: Table, id: nat)
    requires id in s.mapInfo
  {
    var info := s.mapInfo[id];
    && (info.fInTried ==> info.nLastSuccess != 0 && info.nRefCount == 0)
    && (!info.fInTried ==> 0 < info.nRefCount <= NEW_BUCKETS_PER_ADDRESS)
    && AddrAt(s.mapAddr, info.addr.ip) == id
    && 0 <= info.nRandomPos < |s.vRandom| && s.vRandom[info.nRandomPos] == id
    && info.nLastTry >= 0 && info.nLastSuccess >= 0
  }

  /** setTried after the entries of a tried bucket have been crossed off; None if one was not in it. */
  function CrossOff(ids: set<nat>, v: seq<nat>): Option<set<nat>> {
    if v == [] then Some(ids)
    else
      var r := CrossOff(ids, v[..|v| - 1]);
      if r.Some? && v[|v| - 1] in r.value then Some(r.value - {v[|v| - 1]}) else None
  }

  function CrossOffAll(ids: set<nat>, vs: seq<seq<nat>>): Option<set<nat>> {
    if vs == [] then Some(ids)
    else
      var r := CrossOffAll(ids, vs[..|vs| - 1]);
      if r.Some? then CrossOff(r.value, vs[|vs| - 1]) else None
  }

  /** mapNew once the ids of a new bucket have been counted down, an id gone with its last reference; None if one was
      not in it. */
  function CountDown(m: map<nat, int>, v: set<nat>): Option<map<nat, int>> {
    if v <= m.Keys then Some(map id | id in m && !(id in v && m[id] == 1) :: if id in v then m[id] - 1 else m[id]) else None
  }

  function CountDownAll(m: map<nat, int>, vs: seq<set<nat>>): Option<map<nat, int>> {
    if vs == [] then Some(m)
    else
      var r := CountDownAll(m, vs[..|vs| - 1]);
      if r.Some? then CountDown(r.value, vs[|vs| - 1]) else None
  }

  function NewCounts(s: Table): map<nat, int> {
    map id | id in s.mapInfo && !s.mapInfo[id].fInTried :: s.mapInfo[id].nRefCount
  }

  /** The tables for which Check_ returns zero. */
  predicate Passes(s: Table) {
    && |s.vRandom| == s.nTried + s.nNew
    && (forall id :: id in s.mapInfo ==> EntryOk(s, id))
    && CountsOk(s)
    && CrossOffAll(TriedIds(s), s.vvTried) == Some({})
    && CountDownAll(NewCounts(s), s.vvNew) == Some(map[])
  }

  // ------------------------------------------------------------------ the invariant makes it pass

  lemma {:induction false} CrossOffIs(ids: set<nat>, v: seq<nat>)
    requires NoRepeats(v) && forall x :: x in v ==> x in ids
    ensures CrossOff(ids, v) == Some(ids - Elements(v))
  {
    if v == [] {
      assert ids - Elements(v) == ids;
    } else {
      var n := |v| - 1;
      CrossOffIs(ids, v[..n]);
      assert v == v[..n] + [v[n]];
      assert v[n] !in v[..n];
      assert ids - Elements(v) == ids - Elements(v[..n]) - {v[n]};
    }
  }

  /** The tried ids that belong in bucket n or later. */
  function TriedFrom(k: Buckets, s: Table, n: nat): set<nat> {
    set id | id in s.mapInfo && s.mapInfo[id].fInTried && n <= k.Tried(s.mapInfo[id].addr)
  }

  lemma {:induction false} TriedCrossedOff(k: Buckets, s: Table, n: nat)
    requires TriedOk(k, s) && n <= |s.vvTried|
    ensures CrossOffAll(TriedIds(s), s.vvTried[..n]) == Some(TriedFrom(k, s, n))
  {
    if n == 0 {
      assert TriedFrom(k, s, 0) == TriedIds(s);
    } else {
      TriedCrossedOff(k, s, n - 1);
      var v := s.vvTried[n - 1];
      assert s.vvTried[..n][..n - 1] == s.vvTried[..n - 1];
      forall x | x in v
        ensures x in TriedFrom(k, s, n - 1) && k.Tried(s.mapInfo[x].addr) == n - 1
      {
        var i :| 0 <= i < |v| && v[i] == x;
        assert s.vvTried[n - 1][i] == x;
      }
      CrossOffIs(TriedFrom(k, s, n - 1), v);
      assert TriedFrom(k, s, n - 1) - Elements(v) == TriedFrom(k, s, n);
    }
  }

  /** mapNew once every id has been counted down some number of times. */
  ghost predicate CountedBy(m: map<nat, int>, r: map<nat, int>, times: map<nat, nat>) {
    && times.Keys == m.Keys
    && (forall id :: id in m ==> times[id] <= m[id])
    && (forall id :: id in r <==> id in m && times[id] < m[id])
    && (forall id :: id in r ==> r[id] == m[id] - times[id])
  }

  /** How often each id has been seen in the buckets vs. */
  function Times(m: map<nat, int>, vs: seq<set<nat>>): map<nat, nat> {
    map id | id in m :: RefCount(vs, id)
  }

  /** One more bucket can be counted down exactly when every id in it still has a reference left. */
  lemma CountBucket(m: map<nat, int>, r: map<nat, int>, times: map<nat, nat>, more: map<nat, nat>, v: set<nat>)
    requires CountedBy(m, r, times) && more.Keys == times.Keys
    requires forall id :: id in times ==> more[id] == times[id] + if id in v then 1 else 0
    ensures CountDown(r, v).Some? <==> forall id :: id in v ==> id in m && times[id] < m[id]
    ensures CountDown(r, v).Some? ==> CountedBy(m, CountDown(r, v).value, more)
  {
  }

  lemma TimesNext(m: map<nat, int>, vs: seq<set<nat>>)
    requires vs != []
    ensures var front, last := vs[..|vs| - 1], vs[|vs| - 1];
            Times(m, vs).Keys == Times(m, front).Keys == m.Keys
            && forall id :: id in m ==> Times(m, vs)[id] == Times(m, front)[id] + if id in last then 1 else 0
  {
  }

  lemma {:induction false} NewCountedDown(s: Table, n: nat)
    requires NewPlaced(s) && NewCounted(s, None) && n <= |s.vvNew|
    ensures var r := CountDownAll(NewCounts(s), s.vvNew[..n]);
            r.Some? && CountedBy(NewCounts(s), r.value, Times(NewCounts(s), s.vvNew[..n]))
  {
    var m := NewCounts(s);
    if n == 0 {
      CountedNone(s);
    } else {
      var all, vs, v := s.vvNew[..n], s.vvNew[..n - 1], s.vvNew[n - 1];
      NewCountedDown(s, n - 1);
      assert all[..n - 1] == vs && all[n - 1] == v;
      TimesNext(m, all);
      forall id | id in v
        ensures id in m && Times(m, vs)[id] < m[id]
      {
        MoreToCome(s, n, id);
      }
      hide CountedBy, Times, NewPlaced, NewCounted, CountDown;
      CountBucket(m, CountDownAll(m, vs).value, Times(m, vs), Times(m, all), v);
    }
  }

  lemma CountedNone(s: Table)
    requires NewCounted(s, None)
    ensures CountedBy(NewCounts(s), NewCounts(s), Times(NewCounts(s), s.vvNew[..0]))
  {
    forall id | id in NewCounts(s)
      ensures NewCounts(s)[id] > 0
    {
      assert CountedOk(s, None, id);
    }
  }

  lemma {:induction false} RefCountGrows(v: seq<set<nat>>, m: nat, n: nat, id: nat)
    requires m <= n <= |v|
    ensures RefCount(v[..m], id) <= RefCount(v[..n], id)
  {
    if m < n {
      assert v[..n][..n - 1] == v[..n - 1];
      RefCountGrows(v, m, n - 1, id);
    }
  }

  lemma MoreToCome(s: Table, n: nat, id: nat)
    requires NewPlaced(s) && NewCounted(s, None) && 0 < n <= |s.vvNew| && id in s.vvNew[n - 1]
    ensures id in NewCounts(s) && RefCount(s.vvNew[..n - 1], id) < NewCounts(s)[id]
  {
    assert CountedOk(s, None, id);
    assert s.vvNew[..n][..n - 1] == s.vvNew[..n - 1] && s.vvNew[..|s.vvNew|] == s.vvNew;
    RefCountGrows(s.vvNew, n, |s.vvNew|, id);
  }

  /** The invariant without the sizes of the new buckets. */
  predicate Sound(k: Buckets, s: Table) {
    IdsOk(s) && RandomOk(s) && CountsOk(s) && StatsOk(s) && TriedOk(k, s) && NewPlaced(s) && NewCounted(s, None)
  }

  lemma SoundPasses(k: Buckets, s: Table)
    requires Sound(k, s)
    ensures Passes(s)
  {
    hide NewCounts, EntryOk, CountDownAll, CrossOffAll, RandomOk, IdsOk, StatsOk, TriedOk, NewPlaced, NewCounted;
    SoundEntries(k, s);
    SoundTried(k, s);
    SoundNew(s);
  }

  lemma SoundEntries(k: Buckets, s: Table)
    requires Sound(k, s)
    ensures |s.vRandom| == s.nTried + s.nNew && forall id :: id in s.mapInfo ==> EntryOk(s, id)
  {
    hide NewPlaced;
    RandomIsEveryId(s);
    forall id | id in s.mapInfo
      ensures EntryOk(s, id)
    {
      assert !s.mapInfo[id].fInTried ==> CountedOk(s, None, id);
    }
  }

  lemma SoundTried(k: Buckets, s: Table)
    requires TriedOk(k, s)
    ensures CrossOffAll(TriedIds(s), s.vvTried) == Some({})
  {
    TriedCrossedOff(k, s, |s.vvTried|);
    assert s.vvTried[..|s.vvTried|] == s.vvTried;
    assert TriedFrom(k, s, |s.vvTried|) == {};
  }

  lemma SoundNew(s: Table)
    requires NewPlaced(s) && NewCounted(s, None)
    ensures CountDownAll(NewCounts(s), s.vvNew) == Some(map[])
  {
    hide RefCount, CountDownAll;
    NewCountedDown(s, |s.vvNew|);
    assert s.vvNew[..|s.vvNew|] == s.vvNew;
    forall id | id in NewCounts(s)
      ensures RefCount(s.vvNew, id) == NewCounts(s)[id]
    {
      assert CountedOk(s, None, id);
    }
    assert CountDownAll(NewCounts(s), s.vvNew).value == map[];
  }

  /** Every state the invariant admits passes the authors' own check. */
  lemma InvPasses(k: Buckets, s: Table)
    requires Inv(k, s)
    ensures Passes(s)
  {
    hide Passes, IdsOk, RandomOk, CountsOk, StatsOk, TriedOk, NewPlaced, NewCounted;
    SoundPasses(k, s);
  }
}
