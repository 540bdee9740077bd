/** The operations of the address manager as functions of the tables, and why each keeps the invariant
    (src/addrman.cpp). What GetRandInt draws, the clock and IsTerrible are parameters. */
module AddrOps {
  import opened Wrappers
  import opened AddrTable
  import opened AddrSteps
  import opened AddrTried

  const GETADDR_MAX_PCT: nat := 23
  const GETADDR_MAX: nat := 2500

  /** An address as a peer announces it: a CAddress without its memory-only field. */
  datatype Address = Address(service: Service, nServices: set<nat>, nTime: nat)

  /** Assignment of a 64-bit time to the 32-bit nTime field. */
  function U32(t: int): (r: nat) {
    t % 0x1_0000_0000
  }

  function Max(a: int, b: int): int {
    if a < b then b else a
  }

  // ------------------------------------------------------------------ ShrinkNew

  /** The first deletable id of a bucket, in the order of std::set. */
  function FirstTerrible(m: map<nat, AddrInfo>, v: set<nat>, terrible: AddrInfo -> bool, n: nat): (r: Option<nat>)
    ensures r.Some? ==> r.value in v && r.value < n && r.value in m && terrible(m[r.value])
    ensures r.Some? ==> forall id :: id in v && id < r.value && id in m ==> !terrible(m[id])
    ensures r.None? ==> forall id :: id in v && id < n && id in m ==> !terrible(m[id])
  {
    if n == 0 then None
    else
      var before := FirstTerrible(m, v, terrible, n - 1);
      if before.Some? then before
      else if n - 1 in v && n - 1 in m && terrible(m[n - 1]) then Some(n - 1)
      else None
  }

  /** How many ids of the bucket come before n. */
  function Rank(v: set<nat>, n: nat): (r: nat) {
    if n == 0 then 0 else Rank(v, n - 1) + if n - 1 in v then 1 else 0
  }

  lemma {:induction false} RankIsCount(v: set<nat>, n: nat)
    ensures Rank(v, n) == |set id | id in v && id < n|
  {
    var below := set id | id in v && id < n;
    if n == 0 {
      assert below == {};
    } else {
      RankIsCount(v, n - 1);
      var before := set id | id in v && id < n - 1;
      assert below == if n - 1 in v then before + {n - 1} else before;
    }
  }

  /** The oldest entry among those whose position in the bucket was drawn, the first one on a tie. */
  function OldestDrawn(m: map<nat, AddrInfo>, v: set<nat>, drawn: set<nat>, n: nat): (r: Option<nat>)
    ensures r.Some? ==> r.value in v && r.value < n && r.value in m
    ensures r.Some? ==> forall id :: id in v && id < n && id in m && Rank(v, id) in drawn ==> m[r.value].nTime <= m[id].nTime
    ensures r.None? ==> forall id :: id in v && id < n && id in m ==> Rank(v, id) !in drawn
  {
    if n == 0 then None
    else
      var before := OldestDrawn(m, v, drawn, n - 1);
      if n - 1 in v && n - 1 in m && Rank(v, n - 1) in drawn && (before.None? || m[n - 1].nTime < m[before.value].nTime) then Some(n - 1)
      else before
  }

  /** Every position in the bucket is some entry's. */
  lemma {:induction false} RankReached(v: set<nat>, n: nat, r: nat) returns (id: nat)
    requires r < Rank(v, n)
    ensures id in v && id < n && Rank(v, id) == r
  {
    if r < Rank(v, n - 1) {
      id := RankReached(v, n - 1, r);
    } else {
      id := n - 1;
    }
  }

  /** The entry ShrinkNew drops from a bucket. */
  function Victim(s: Table, b: nat, terrible: AddrInfo -> bool, drawn: set<nat>): Option<nat>
    requires b < |s.vvNew|
  {
    var first := FirstTerrible(s.mapInfo, s.vvNew[b], terrible, s.nIdCount);
    if first.Some? then first else OldestDrawn(s.mapInfo, s.vvNew[b], drawn, s.nIdCount)
  }

  /** One of the four draws is a position in the bucket, so ShrinkNew always finds something to drop. */
  lemma VictimExists(k: Buckets, s: Table, p: Option<nat>, b: nat, terrible: AddrInfo -> bool, drawn: set<nat>, n0: nat)
    requires InvP(k, s, p) && b < |s.vvNew| && n0 in drawn && n0 < |s.vvNew[b]|
    ensures Victim(s, b, terrible, drawn).Some?
    ensures Victim(s, b, terrible, drawn).value in s.vvNew[b] && Victim(s, b, terrible, drawn).value in s.mapInfo
  {
    hide RandomOk, CountsOk, StatsOk, TriedOk, NewCounted;
    var v := s.vvNew[b];
    RankIsCount(v, s.nIdCount);
    assert (set id | id in v && id < s.nIdCount) == v by {
      forall id | id in v
        ensures id < s.nIdCount
      {
        assert id in s.mapInfo;
      }
    }
    var id := RankReached(v, s.nIdCount, n0);
  }

  /** How many ids of the bucket are smaller. */
  ghost function PlaceInOrder(v: set<nat>, id: nat): nat {
    |set x | x in v && x < id|
  }

  lemma {:induction false} OldestWasDrawn(m: map<nat, AddrInfo>, v: set<nat>, drawn: set<nat>, n: nat)
    ensures OldestDrawn(m, v, drawn, n).Some? ==> Rank(v, OldestDrawn(m, v, drawn, n).value) in drawn
  {
    if n > 0 {
      OldestWasDrawn(m, v, drawn, n - 1);
    }
  }

  lemma AllIdsAreSmall(k: Buckets, s: Table, p: Option<nat>, b: nat)
    requires InvP(k, s, p) && b < |s.vvNew|
    ensures forall id :: id in s.vvNew[b] ==> id < s.nIdCount && id in s.mapInfo
  {
    hide RandomOk, CountsOk, StatsOk, TriedOk, NewCounted;
    forall id | id in s.vvNew[b]
      ensures id < s.nIdCount && id in s.mapInfo
    {
      assert id in s.mapInfo;
    }
  }

  /** An entry at one of the four places that were drawn, and no entry at any of these is older. */
  ghost predicate OldestOfFour(m: map<nat, AddrInfo>, v: set<nat>, rand: nat -> nat, id: nat)
    requires v != {} && forall x :: x in v ==> x in m
  {
    && id in v && (exists i: nat :: i < 4 && PlaceInOrder(v, id) == rand(i) % |v|)
    && forall i: nat, x :: i < 4 && x in v && PlaceInOrder(v, x) == rand(i) % |v| ==> m[id].nTime <= m[x].nTime
  }

  /** The first deletable entry. */
  predicate FirstDeletable(m: map<nat, AddrInfo>, v: set<nat>, terrible: AddrInfo -> bool, id: nat)
    requires forall x :: x in v ==> x in m
  {
    id in v && terrible(m[id]) && forall x :: x in v && x < id ==> !terrible(m[x])
  }

  lemma OldestIsOfFour(m: map<nat, AddrInfo>, v: set<nat>, rand: nat -> nat, n: nat)
    requires v != {} && (forall x :: x in v ==> x in m && x < n) && OldestDrawn(m, v, Drawn(rand, |v|), n).Some?
    ensures OldestOfFour(m, v, rand, OldestDrawn(m, v, Drawn(rand, |v|), n).value)
  {
    var drawn := Drawn(rand, |v|);
    OldestWasDrawn(m, v, drawn, n);
    DrawnAreFour(rand, |v|);
    var oldest := OldestDrawn(m, v, drawn, n).value;
    forall x
      ensures Rank(v, x) == PlaceInOrder(v, x)
    {
      RankIsCount(v, x);
    }
    hide Rank, PlaceInOrder, OldestDrawn, Drawn;
    forall i: nat, x | i < 4 && x in v && PlaceInOrder(v, x) == rand(i) % |v|
      ensures m[oldest].nTime <= m[x].nTime
    {
      assert Rank(v, x) in drawn;
    }
  }

  lemma DrawnAreFour(rand: nat -> nat, size: nat)
    requires size > 0
    ensures forall r :: r in Drawn(rand, size) <==> exists i: nat :: i < 4 && r == rand(i) % size
  {
    forall r | r in Drawn(rand, size)
      ensures exists i: nat :: i < 4 && r == rand(i) % size
    {
      assert r == rand(0) % size || r == rand(1) % size || r == rand(2) % size || r == rand(3) % size;
    }
  }

  /** ShrinkNew drops the first deletable entry of the bucket, or when there is none the oldest of four. */
  lemma VictimIsOldestOfFour(k: Buckets, s: Table, p: Option<nat>, b: nat, terrible: AddrInfo -> bool, rand: nat -> nat)
    requires InvP(k, s, p) && b < |s.vvNew| && s.vvNew[b] != {}
    ensures var v := s.vvNew[b];
            var victim := Victim(s, b, terrible, Drawn(rand, |v|));
            && victim.Some? && (forall x :: x in v ==> x in s.mapInfo)
            && if exists x :: x in v && terrible(s.mapInfo[x]) then FirstDeletable(s.mapInfo, v, terrible, victim.value)
               else OldestOfFour(s.mapInfo, v, rand, victim.value)
  {
    var v := s.vvNew[b];
    AllIdsAreSmall(k, s, p, b);
    VictimExists(k, s, p, b, terrible, Drawn(rand, |v|), rand(0) % |v|);
    hide InvP, OldestDrawn, OldestOfFour, Drawn;
    if FirstTerrible(s.mapInfo, v, terrible, s.nIdCount).None? {
      OldestIsOfFour(s.mapInfo, v, rand, s.nIdCount);
    }
  }

  // ------------------------------------------------------------------ Add_

  function NewInfo(addr: Address, source: NetAddr, nTimePenalty: int): AddrInfo {
    AddrInfo(addr.service, addr.nServices, U32(Max(0, addr.nTime - nTimePenalty)), 0, source, 0, 0, 0, false, -1)
  }

  /** The periodic update of an entry that is already known. */
  function Refreshed(info: AddrInfo, addr: Address, nTimePenalty: int, now: int): AddrInfo {
    var nUpdateInterval := if now - addr.nTime < 24 * 60 * 60 then 60 * 60 else 24 * 60 * 60;
    var nTime := if addr.nTime != 0 && (info.nTime == 0 || info.nTime < addr.nTime - nUpdateInterval - nTimePenalty)
                 then U32(Max(0, addr.nTime - nTimePenalty)) else info.nTime;
    info.(nTime := nTime, nServices := info.nServices + addr.nServices)
  }

  /** Whether Add_ goes on to give a known entry one more reference; coin is what the stochastic test draws. */
  predicate WantsMore(info: AddrInfo, addr: Address, coin: nat) {
    && !(addr.nTime == 0 || (info.nTime != 0 && addr.nTime <= info.nTime))
    && !info.fInTried
    && info.nRefCount != NEW_BUCKETS_PER_ADDRESS
    && !(info.nRefCount > 0 && coin % Pow2(info.nRefCount) != 0)
  }

  /** The part of Add_ after the count of id has been raised, in the bucket b that does not have it. */
  function Place(s: Table, b: nat, id: nat, terrible: AddrInfo -> bool, drawn: set<nat>): Table
    requires b < |s.vvNew| && RandomOk(s)
  {
    var victim := Victim(s, b, terrible, drawn);
    if |s.vvNew[b]| == NEW_BUCKET_SIZE && victim.Some? && victim.value in s.mapInfo
    then var t := Release(s, b, victim.value); if b < |t.vvNew| then Insert(t, b, id) else t
    else Insert(s, b, id)
  }

  lemma PlaceKeeps(k: Buckets, s: Table, b: nat, id: nat, terrible: AddrInfo -> bool, drawn: set<nat>, n0: nat)
    requires InvP(k, s, Some(id)) && b < |s.vvNew| && id !in s.vvNew[b] && |s.vvNew[b]| <= NEW_BUCKET_SIZE
    requires n0 in drawn && n0 < NEW_BUCKET_SIZE
    ensures Inv(k, Place(s, b, id, terrible, drawn))
  {
    hide IdsOk, RandomOk, CountsOk, StatsOk, TriedOk, NewOk, Victim, Release, Insert;
    if |s.vvNew[b]| == NEW_BUCKET_SIZE {
      VictimExists(k, s, Some(id), b, terrible, drawn, n0);
      var victim := Victim(s, b, terrible, drawn).value;
      ReleaseKeeps(k, s, Some(id), b, victim);
      ReleaseShrinks(s, b, victim);
      InsertKeeps(k, Release(s, b, victim), b, id);
    } else {
      InsertKeeps(k, s, b, id);
    }
  }

  lemma ReleaseShrinks(s: Table, b: nat, id: nat)
    requires b < |s.vvNew| && id in s.mapInfo && RandomOk(s)
    ensures Release(s, b, id).vvNew == s.vvNew[b := s.vvNew[b] - {id}]
  {
    EraseRandom(s, id);
    hide Erase, RandomOk;
  }

  /** The positions ShrinkNew inspects in a bucket of the given size. */
  function Drawn(rand: nat -> nat, size: nat): set<nat>
    requires size > 0
  {
    {rand(0) % size, rand(1) % size, rand(2) % size, rand(3) % size}
  }

  /** Add_, once the entry id exists and its bucket is chosen. */
  function AddReference(k: Buckets, s: Table, id: nat, b: nat, terrible: AddrInfo -> bool, rand: nat -> nat): (t: Table)
    requires Inv(k, s) && id in s.mapInfo && !s.mapInfo[id].fInTried && s.mapInfo[id].nRefCount < NEW_BUCKETS_PER_ADDRESS
    requires b < NEW_BUCKET_COUNT
    ensures Inv(k, t)
  {
    if id in s.vvNew[b] then s
    else
      BumpKeeps(k, s, id);
      PlaceKeeps(k, Bump(s, id), b, id, terrible, Drawn(rand, NEW_BUCKET_SIZE), rand(0) % NEW_BUCKET_SIZE);
      Place(Bump(s, id), b, id, terrible, Drawn(rand, NEW_BUCKET_SIZE))
  }

  function AddKnown(k: Buckets, s: Table, id: nat, addr: Address, source: NetAddr, nTimePenalty: int, now: int, coin: nat,
                    terrible: AddrInfo -> bool, rand: nat -> nat): (t: Table)
    requires Inv(k, s) && id in s.mapInfo
    ensures Inv(k, t)
  {
    var info := Refreshed(s.mapInfo[id], addr, nTimePenalty, now);
    SetInfoKeeps(k, s, None, id, info);
    if WantsMore(info, addr, coin) then
      assert CountedOk(SetInfo(s, id, info), None, id);
      AddReference(k, SetInfo(s, id, info), id, k.New(info.addr, source), terrible, rand)
    else SetInfo(s, id, info)
  }

  /** The update of a known entry only moves its time forward: past the old one by more than an hour, or by more than a day when
      the announcement is older than a day; and whatever is newer by more than that, after the penalty, moves it. */
  lemma RefreshedMovesForward(info: AddrInfo, addr: Address, nTimePenalty: nat, now: int)
    requires addr.nTime < 0x1_0000_0000 && info.nTime >= 0
    ensures var r, hours := Refreshed(info, addr, nTimePenalty, now), if now - addr.nTime < 24 * 3600 then 1 else 24;
            && r == info.(nTime := r.nTime, nServices := info.nServices + addr.nServices)
            && r.nTime >= info.nTime
            && (info.nTime != 0 && r.nTime != info.nTime ==> r.nTime > info.nTime + hours * 3600)
            && (0 < addr.nTime && addr.nTime - nTimePenalty > info.nTime + hours * 3600 ==> r.nTime == addr.nTime - nTimePenalty)
  {
  }

  /** A known entry gets one more reference, in the bucket of its address and the announcing source, when the announced time is
      newer than its own, it is not tried, it has fewer than four, and the draw is one of every 2^n, for n references so far;
      otherwise no bucket changes. */
  lemma KnownGainsReference(k: Buckets, s: Table, id: nat, addr: Address, source: NetAddr, nTimePenalty: int, now: int, coin: nat,
                            terrible: AddrInfo -> bool, rand: nat -> nat)
    requires Inv(k, s) && id in s.mapInfo
    ensures var t, was := AddKnown(k, s, id, addr, source, nTimePenalty, now, coin, terrible, rand), s.mapInfo[id];
            var nTime := Refreshed(was, addr, nTimePenalty, now).nTime;
            if addr.nTime > 0 && (nTime == 0 || addr.nTime > nTime) && !was.fInTried && 0 <= was.nRefCount < 4
               && coin % Pow2(was.nRefCount) == 0
            then id in t.vvNew[k.New(was.addr, source)]
            else t.vvNew == s.vvNew
  {
    var info := Refreshed(s.mapInfo[id], addr, nTimePenalty, now);
    var t := SetInfo(s, id, info);
    SetInfoKeeps(k, s, None, id, info);
    if !info.fInTried {
      CountInRange(k, s, id);
    }
    hide InvP, Place, Release, AddReference, Inv;
    if WantsMore(info, addr, coin) {
      ReferencedThere(k, t, id, k.New(info.addr, source), terrible, rand);
    }
  }

  lemma CountInRange(k: Buckets, s: Table, id: nat)
    requires Inv(k, s) && id in s.mapInfo && !s.mapInfo[id].fInTried
    ensures 0 <= s.mapInfo[id].nRefCount <= NEW_BUCKETS_PER_ADDRESS
  {
    assert CountedOk(s, None, id);
  }

  lemma ReferencedThere(k: Buckets, s: Table, id: nat, b: nat, terrible: AddrInfo -> bool, rand: nat -> nat)
    requires Inv(k, s) && id in s.mapInfo && !s.mapInfo[id].fInTried && s.mapInfo[id].nRefCount < NEW_BUCKETS_PER_ADDRESS
    requires b < NEW_BUCKET_COUNT
    ensures var t := AddReference(k, s, id, b, terrible, rand); b < |t.vvNew| && id in t.vvNew[b]
  {
    hide Place, IdsOk, CountsOk, StatsOk, TriedOk, NewPlaced, NewCounted;
    if id !in s.vvNew[b] {
      BumpKeeps(k, s, id);
      PlacedThere(Bump(s, id), b, id, terrible, Drawn(rand, NEW_BUCKET_SIZE));
    }
  }

  /** The id is in its bucket then, no other bucket has changed, and no entry but the victim of ShrinkNew. */
  lemma PlacedThere(s: Table, b: nat, id: nat, terrible: AddrInfo -> bool, drawn: set<nat>)
    requires b < |s.vvNew| && RandomOk(s)
    ensures var t := Place(s, b, id, terrible, drawn);
            && |t.vvNew| == |s.vvNew| && id in t.vvNew[b] && (forall c :: 0 <= c < |s.vvNew| && c != b ==> t.vvNew[c] == s.vvNew[c])
            && forall x :: x in s.mapInfo && Some(x) != Victim(s, b, terrible, drawn) ==>
                 x in t.mapInfo && t.mapInfo[x] == s.mapInfo[x].(nRandomPos := t.mapInfo[x].nRandomPos)
  {
    var victim := Victim(s, b, terrible, drawn);
    if victim.Some? && victim.value in s.mapInfo {
      ReleaseShrinks(s, b, victim.value);
      OthersRemain(s, b, victim.value);
    }
    hide Victim, Release, RandomOk;
  }

  lemma OthersRemain(s: Table, b: nat, id: nat)
    requires b < |s.vvNew| && id in s.mapInfo && RandomOk(s)
    ensures var t := Release(s, b, id);
            forall x :: x in s.mapInfo && x != id ==> x in t.mapInfo && t.mapInfo[x] == s.mapInfo[x].(nRandomPos := t.mapInfo[x].nRandomPos)
  {
    EraseRandom(s, id);
    hide Erase, RandomOk;
  }

  lemma FreshId(s: Table, b: nat)
    requires IdsOk(s) && NewPlaced(s) && b < |s.vvNew|
    ensures s.nIdCount !in s.mapInfo && s.nIdCount !in s.vvNew[b]
  {
    assert s.nIdCount in s.vvNew[b] ==> s.nIdCount in s.mapInfo;
  }

  function AddUnknown(k: Buckets, s: Table, addr: Address, source: NetAddr, nTimePenalty: int,
                      terrible: AddrInfo -> bool, rand: nat -> nat): (t: Table)
    requires Inv(k, s) && addr.service.ip !in s.mapAddr
    ensures Inv(k, t)
  {
    var info, id := NewInfo(addr, source, nTimePenalty), s.nIdCount;
    var b := k.New(info.addr, source);
    CreateKeeps(k, s, info);
    FreshId(s, b);
    PlaceKeeps(k, CreateCounted(s, info), b, id, terrible, Drawn(rand, NEW_BUCKET_SIZE), rand(0) % NEW_BUCKET_SIZE);
    Place(CreateCounted(s, info), b, id, terrible, Drawn(rand, NEW_BUCKET_SIZE))
  }

  /** The entry is in one bucket only, untried, once referenced, with what was announced. */
  predicate NewEntry(t: Table, id: nat, addr: Address, source: NetAddr, nTimePenalty: nat, at: nat) {
    && id in t.mapInfo && (forall b :: 0 <= b < |t.vvNew| ==> (id in t.vvNew[b] <==> b == at))
    && var e := t.mapInfo[id];
       && e.addr == addr.service && e.source == source && e.nServices == addr.nServices && !e.fInTried && e.nRefCount == 1
       && e.nTime == (if addr.nTime < nTimePenalty then 0 else addr.nTime - nTimePenalty)
       && e.nLastTry == e.nLastSuccess == e.nAttempts == 0
  }

  /** A new entry is in the bucket of its address and source and in no other, untried, once referenced, with the announced time less
      the penalty. */
  lemma NewEntersBucket(k: Buckets, s: Table, addr: Address, source: NetAddr, nTimePenalty: nat, terrible: AddrInfo -> bool, rand: nat -> nat)
    requires Inv(k, s) && addr.service.ip !in s.mapAddr && addr.nTime < 0x1_0000_0000
    ensures var t, id := AddUnknown(k, s, addr, source, nTimePenalty, terrible, rand), s.nIdCount;
            id !in s.mapInfo && NewEntry(t, id, addr, source, nTimePenalty, k.New(addr.service, source))
  {
    var info, id := NewInfo(addr, source, nTimePenalty), s.nIdCount;
    var b, u, drawn := k.New(info.addr, source), CreateCounted(s, info), Drawn(rand, NEW_BUCKET_SIZE);
    hide Inv, InvP, RandomOk, Victim, Place, Drawn, AddUnknown, U32;
    CreatedNowhere(k, s, info);
    AddUnknownPlaces(k, s, addr, source, nTimePenalty, terrible, rand);
    NotVictim(u, b, id, terrible, drawn);
    PlacedThere(u, b, id, terrible, drawn);
    var t := AddUnknown(k, s, addr, source, nTimePenalty, terrible, rand);
    hide *;
    EntryIsNew(s, addr, source, nTimePenalty, t, b);
  }

  lemma EntryIsNew(s: Table, addr: Address, source: NetAddr, nTimePenalty: nat, t: Table, at: nat)
    requires var u, id := CreateCounted(s, NewInfo(addr, source, nTimePenalty)), s.nIdCount;
             && at < |u.vvNew| == |t.vvNew| && id in t.vvNew[at] && (forall c :: 0 <= c < |u.vvNew| && c != at ==> t.vvNew[c] == u.vvNew[c])
             && id in t.mapInfo && t.mapInfo[id] == u.mapInfo[id].(nRandomPos := t.mapInfo[id].nRandomPos)
    requires addr.nTime < 0x1_0000_0000 && forall c :: 0 <= c < |s.vvNew| ==> s.nIdCount !in s.vvNew[c]
    ensures NewEntry(t, s.nIdCount, addr, source, nTimePenalty, at)
  {
  }

  lemma AddUnknownPlaces(k: Buckets, s: Table, addr: Address, source: NetAddr, nTimePenalty: int, terrible: AddrInfo -> bool, rand: nat -> nat)
    requires Inv(k, s) && addr.service.ip !in s.mapAddr && k.New(addr.service, source) < |s.vvNew|
    requires RandomOk(CreateCounted(s, NewInfo(addr, source, nTimePenalty)))
    ensures AddUnknown(k, s, addr, source, nTimePenalty, terrible, rand)
         == Place(CreateCounted(s, NewInfo(addr, source, nTimePenalty)), k.New(addr.service, source), s.nIdCount, terrible,
                  Drawn(rand, NEW_BUCKET_SIZE))
  {
    hide Inv, InvP, RandomOk, Place, CreateCounted;
  }

  lemma CreatedNowhere(k: Buckets, s: Table, info: AddrInfo)
    requires Inv(k, s) && info.addr.ip !in s.mapAddr && info.nLastTry == 0 && info.nLastSuccess == 0
    ensures s.nIdCount !in s.mapInfo && RandomOk(CreateCounted(s, info)) && |s.vvNew| == NEW_BUCKET_COUNT
    ensures forall c :: 0 <= c < |s.vvNew| ==> s.nIdCount !in s.vvNew[c]
  {
    hide RandomOk, CountsOk, StatsOk, TriedOk, NewCounted;
    CreateKeeps(k, s, info);
    forall c | 0 <= c < |s.vvNew|
      ensures s.nIdCount !in s.vvNew[c]
    {
      FreshId(s, c);
    }
    hide IdsOk;
  }

  lemma NotVictim(s: Table, b: nat, id: nat, terrible: AddrInfo -> bool, drawn: set<nat>)
    requires b < |s.vvNew| && id !in s.vvNew[b]
    ensures Victim(s, b, terrible, drawn) != Some(id)
  {
  }

  // ------------------------------------------------------------------ Good_

  /** MakeTried, given what SelectTried draws if it is called. */
  function MakeTried(k: Buckets, s: Table, id: nat, origin: nat, rand: nat -> nat): Table
    requires Inv(k, s) && Promotable(s, id, origin)
  {
    var b := k.Tried(s.mapInfo[id].addr);
    if |s.vvTried[b]| < TRIED_BUCKET_SIZE then Promote(k, s, id)
    else
      ReadyToExchange(k, s, id, origin, rand);
      var c := SelectTried(s.mapInfo, s.vvTried[b], rand);
      Exchange(k, Reorder(s, b, c.bucket), id, origin, c.pos)
  }

  lemma ReadyToExchange(k: Buckets, s: Table, id: nat, origin: nat, rand: nat -> nat)
    requires Inv(k, s) && Promotable(s, id, origin)
    requires |s.vvTried[k.Tried(s.mapInfo[id].addr)]| >= TRIED_BUCKET_SIZE
    ensures var b := k.Tried(s.mapInfo[id].addr);
            && Known(s.mapInfo, s.vvTried[b])
            && var c := SelectTried(s.mapInfo, s.vvTried[b], rand);
               var t := Reorder(s, b, c.bucket);
               && 0 <= c.pos < |t.vvTried[b]| && Inv(k, t) && Promotable(t, id, origin) && |t.vvTried| == TRIED_BUCKET_COUNT
               && |t.vvNew| == NEW_BUCKET_COUNT && t.vvTried[b][c.pos] in t.mapInfo
  {
    hide IdsOk, RandomOk, CountsOk, StatsOk, SelectTried, NewPlaced, NewCounted;
    var b := k.Tried(s.mapInfo[id].addr);
    assert NoRepeats(s.vvTried[b]);
    SelectTriedIsSlot(s.mapInfo, s.vvTried[b], rand);
    var c := SelectTried(s.mapInfo, s.vvTried[b], rand);
    ReorderKeeps(k, s, None, b, c.bucket);
    var t := Reorder(s, b, c.bucket);
    assert t.vvTried[b][c.pos] in t.mapInfo;
  }

  lemma MakeTriedKeeps(k: Buckets, s: Table, id: nat, origin: nat, rand: nat -> nat)
    requires Inv(k, s) && Promotable(s, id, origin)
    ensures var t := MakeTried(k, s, id, origin, rand);
            Inv(k, t) && id in t.mapInfo && t.mapInfo[id] == s.mapInfo[id].(nRefCount := 0, fInTried := true)
  {
    hide IdsOk, RandomOk, CountsOk, StatsOk, NewPlaced, NewCounted;
    var b := k.Tried(s.mapInfo[id].addr);
    if |s.vvTried[b]| < TRIED_BUCKET_SIZE {
      hide TriedOk, NewOk;
      PromoteKeeps(k, s, id, origin);
    } else {
      ReadyToExchange(k, s, id, origin, rand);
      var c := SelectTried(s.mapInfo, s.vvTried[b], rand);
      var t := Reorder(s, b, c.bucket);
      hide SelectTried, Exchange;
      var b', gone := ReplacedEntry(k, t, id, origin, c.pos);
      hide TriedOk, NewOk, Reorder;
      ExchangeKeeps(k, t, id, origin, c.pos);
      ExchangeInfo(k, t, id, origin, c.pos, b, gone);
    }
  }

  function Around(n: nat, nRnd: nat, size: nat): (b: nat)
    requires size > 0
    ensures b < size
  {
    (n + nRnd) % size
  }

  /** The first new bucket that has the id, looking round from a random one. */
  function FindBucket(v: seq<set<nat>>, id: nat, nRnd: nat, n: nat): (r: Option<nat>)
    requires n <= |v|
    ensures r.Some? ==> r.value < |v| && id in v[r.value]
    ensures r.None? ==> forall m :: n <= m < |v| ==> id !in v[Around(m, nRnd, |v|)]
    decreases |v| - n
  {
    if n == |v| then None
    else if id in v[Around(n, nRnd, |v|)] then Some(Around(n, nRnd, |v|))
    else FindBucket(v, id, nRnd, n + 1)
  }

  /** "If no bucket is found, something bad happened": it cannot. */
  lemma BucketIsFound(s: Table, id: nat, nRnd: nat)
    requires NewOk(s, None) && id in s.mapInfo && !s.mapInfo[id].fInTried && nRnd < |s.vvNew|
    ensures FindBucket(s.vvNew, id, nRnd, 0).Some?
  {
    var v := s.vvNew;
    assert CountedOk(s, None, id);
    RefCountZero(v, id);
    var b :| 0 <= b < |v| && id in v[b];
    var m := if b >= nRnd then b - nRnd else b - nRnd + |v|;
    assert Around(m, nRnd, |v|) == b;
  }

  function Stamped(info: AddrInfo, nTime: int): AddrInfo {
    info.(nLastSuccess := nTime, nLastTry := nTime, nTime := U32(nTime), nAttempts := 0)
  }

  /** Good_, for an entry found under the exact service. */
  function MarkGood(k: Buckets, s: Table, id: nat, nTime: int, nRnd: nat, rand: nat -> nat): Table
    requires Inv(k, s) && id in s.mapInfo && nTime > 0 && nRnd < NEW_BUCKET_COUNT
  {
    var t := SetInfo(s, id, Stamped(s.mapInfo[id], nTime));
    StampedKeeps(k, s, id, nTime, nRnd);
    if t.mapInfo[id].fInTried then t else MakeTried(k, t, id, FindBucket(t.vvNew, id, nRnd, 0).value, rand)
  }

  lemma StampedKeeps(k: Buckets, s: Table, id: nat, nTime: int, nRnd: nat)
    requires Inv(k, s) && id in s.mapInfo && nTime > 0 && nRnd < NEW_BUCKET_COUNT
    ensures var t := SetInfo(s, id, Stamped(s.mapInfo[id], nTime));
            && Inv(k, t) && |t.vvNew| == NEW_BUCKET_COUNT
            && (!t.mapInfo[id].fInTried ==>
                  FindBucket(t.vvNew, id, nRnd, 0).Some? && Promotable(t, id, FindBucket(t.vvNew, id, nRnd, 0).value))
  {
    hide IdsOk, RandomOk, CountsOk, StatsOk, TriedOk, NewPlaced, NewCounted, FindBucket;
    SetInfoKeeps(k, s, None, id, Stamped(s.mapInfo[id], nTime));
    var t := SetInfo(s, id, Stamped(s.mapInfo[id], nTime));
    if !t.mapInfo[id].fInTried {
      BucketIsFound(t, id, nRnd);
    }
  }

  /** After Good_ the entry is in the tried tables and the invariant holds. */
  lemma MarkGoodKeeps(k: Buckets, s: Table, id: nat, nTime: int, nRnd: nat, rand: nat -> nat)
    requires Inv(k, s) && id in s.mapInfo && nTime > 0 && nRnd < NEW_BUCKET_COUNT
    ensures var t := MarkGood(k, s, id, nTime, nRnd, rand);
            && Inv(k, t) && id in t.mapInfo && t.mapInfo[id].fInTried && t.mapInfo[id].addr == s.mapInfo[id].addr
            && t.mapInfo[id] == s.mapInfo[id].(nLastSuccess := nTime, nLastTry := nTime, nTime := U32(nTime), nAttempts := 0,
                                               fInTried := true, nRefCount := t.mapInfo[id].nRefCount)
  {
    hide Inv, MakeTried, FindBucket, Promotable;
    StampedKeeps(k, s, id, nTime, nRnd);
    var t := SetInfo(s, id, Stamped(s.mapInfo[id], nTime));
    if !t.mapInfo[id].fInTried {
      MakeTriedKeeps(k, t, id, FindBucket(t.vvNew, id, nRnd, 0).value, rand);
    }
  }

  // ------------------------------------------------------------------ GetAddr_

  /** vRandom after the first n rounds of the shuffle in GetAddr_. */
  function Shuffle(k: Buckets, s: Table, rand: nat -> nat, n: nat): (t: Table)
    requires Inv(k, s) && n <= |s.vRandom|
    ensures Inv(k, t) && |t.vRandom| == |s.vRandom|
  {
    hide IdsOk, RandomOk, CountsOk, StatsOk, TriedOk, NewOk, SwapRandom, SameButRandom;
    if n == 0 then s
    else
      var u := Shuffle(k, s, rand, n - 1);
      ShuffleStep(k, u, rand, n - 1);
      SwapRandom(u, n - 1, Pick(rand, |u.vRandom|, n - 1))
  }

  lemma ShuffleStep(k: Buckets, u: Table, rand: nat -> nat, i: nat)
    requires Inv(k, u) && i < |u.vRandom|
    ensures var p := Pick(rand, |u.vRandom|, i);
            && u.vRandom[i] in u.mapInfo && u.vRandom[p] in u.mapInfo
            && Inv(k, SwapRandom(u, i, p)) && SameButRandom(u, SwapRandom(u, i, p)) && |SwapRandom(u, i, p).vRandom| == |u.vRandom|
            && SwapRandom(u, i, p).vRandom[..i] == u.vRandom[..i]
  {
    hide IdsOk, CountsOk, StatsOk, TriedOk, NewOk;
    var p := Pick(rand, |u.vRandom|, i);
    assert u.vRandom[i] in u.mapInfo && u.vRandom[p] in u.mapInfo;
    hide RandomOk, SameButRandom;
    SwapRandomKeeps(k, u, None, i, p);
    SwapRandomSame(u, i, p);
  }

  /** The shuffle only reorders: every entry keeps everything but its place. */
  lemma {:induction false} ShuffleSame(k: Buckets, s: Table, rand: nat -> nat, n: nat)
    requires Inv(k, s) && n <= |s.vRandom|
    ensures SameButRandom(s, Shuffle(k, s, rand, n))
  {
    hide Inv, SwapRandom, SameButRandom;
    if n == 0 {
      SameReflexive(s);
    } else {
      var u := Shuffle(k, s, rand, n - 1);
      ShuffleSame(k, s, rand, n - 1);
      ShuffleStep(k, u, rand, n - 1);
      SameTransitive(s, u, Shuffle(k, s, rand, n));
    }
  }

  lemma SameReflexive(s: Table)
    ensures SameButRandom(s, s)
  {
  }

  lemma SameTransitive(s: Table, t: Table, u: Table)
    requires SameButRandom(s, t) && SameButRandom(t, u)
    ensures SameButRandom(s, u)
  {
  }

  // ------------------------------------------------------------------ runs

  /** The id of the entry with exactly this address and port. */
  function Exact(s: Table, addr: Service): (r: Option<nat>)
    ensures r.Some? ==> r.value in s.mapInfo && s.mapInfo[r.value].addr == addr
  {
    if addr.ip in s.mapAddr && s.mapAddr[addr.ip] in s.mapInfo && s.mapInfo[s.mapAddr[addr.ip]].addr == addr
    then Some(s.mapAddr[addr.ip]) else None
  }

  /** GetAddr_ hands out at most a fixed share of the entries. */
  function ShareSize(n: nat): (r: nat)
    ensures r <= n && r <= GETADDR_MAX
  {
    if GETADDR_MAX_PCT * n / 100 > GETADDR_MAX then GETADDR_MAX else GETADDR_MAX_PCT * n / 100
  }

  datatype Op =
    | Add(addr: Address, source: NetAddr, nTimePenalty: int, now: int, coin: nat, terrible: AddrInfo -> bool, rand: nat -> nat)
    | Good(service: Service, nTime: int, nRnd: nat, rand: nat -> nat)
    | Attempt(service: Service, nTime: int)
    | Connected(service: Service, nTime: int)
    | GetAddr(rand: nat -> nat)

  /** The times the code is called with. */
  predicate Timely(op: Op) {
    match op
    case Good(_, nTime, nRnd, _) => nTime > 0 && nRnd < NEW_BUCKET_COUNT
    case Attempt(_, nTime) => nTime >= 0
    case _ => true
  }

  /** What an operation does to the tables; isRoutable is CNetAddr::IsRoutable. */
  function Step(k: Buckets, isRoutable: NetAddr -> bool, s: Table, op: Op): Table
    requires Inv(k, s) && Timely(op)
  {
    match op
    case Add(addr, source, nTimePenalty, now, coin, terrible, rand) =>
      if !isRoutable(addr.service.ip) then s
      else if addr.service.ip in s.mapAddr && s.mapAddr[addr.service.ip] in s.mapInfo then
        AddKnown(k, s, s.mapAddr[addr.service.ip], addr, source, nTimePenalty, now, coin, terrible, rand)
      else if addr.service.ip in s.mapAddr then s
      else AddUnknown(k, s, addr, source, nTimePenalty, terrible, rand)
    case Good(service, nTime, nRnd, rand) =>
      var id := Exact(s, service);
      if id.Some? then MarkGood(k, s, id.value, nTime, nRnd, rand) else s
    case Attempt(service, nTime) =>
      var id := Exact(s, service);
      if id.Some? then SetInfo(s, id.value, Attempted(s.mapInfo[id.value], nTime)) else s
    case Connected(service, nTime) =>
      var id := Exact(s, service);
      if id.Some? then SetInfo(s, id.value, Seen(s.mapInfo[id.value], nTime)) else s
    case GetAddr(rand) => Shuffle(k, s, rand, ShareSize(|s.vRandom|))
  }

  function Attempted(info: AddrInfo, nTime: int): AddrInfo {
    info.(nLastTry := nTime, nAttempts := info.nAttempts + 1)
  }

  function Seen(info: AddrInfo, nTime: int): AddrInfo {
    if nTime - info.nTime > 20 * 60 then info.(nTime := U32(nTime)) else info
  }

  lemma StepKeeps(k: Buckets, isRoutable: NetAddr -> bool, s: Table, op: Op)
    requires Inv(k, s) && Timely(op)
    ensures Inv(k, Step(k, isRoutable, s, op))
  {
    hide IdsOk, RandomOk, CountsOk, TriedOk, NewOk, AddKnown, AddUnknown, MarkGood, Shuffle;
    match op
    case Good(service, nTime, nRnd, rand) =>
      if Exact(s, service).Some? {
        MarkGoodKeeps(k, s, Exact(s, service).value, nTime, nRnd, rand);
      }
    case Attempt(service, nTime) =>
      var id := Exact(s, service);
      if id.Some? {
        SetInfoKeeps(k, s, None, id.value, Attempted(s.mapInfo[id.value], nTime));
      }
    case Connected(service, nTime) =>
      var id := Exact(s, service);
      if id.Some? {
        SetInfoKeeps(k, s, None, id.value, Seen(s.mapInfo[id.value], nTime));
      }
    case _ =>
  }

  function NoEntries(): Table {
    Table(0, map[], map[], [], 0, seq(TRIED_BUCKET_COUNT, _ => []), 0, seq(NEW_BUCKET_COUNT, _ => {}))
  }

  function Run(k: Buckets, isRoutable: NetAddr -> bool, ops: seq<Op>): (s: Table)
    requires forall op :: op in ops ==> Timely(op)
    ensures Inv(k, s)
  {
    if ops == [] then
      EmptyInv(k);
      NoEntries()
    else
      var before := Run(k, isRoutable, ops[..|ops| - 1]);
      StepKeeps(k, isRoutable, before, ops[|ops| - 1]);
      Step(k, isRoutable, before, ops[|ops| - 1])
  }

  lemma EmptyInv(k: Buckets)
    ensures Inv(k, NoEntries())
  {
    assert TriedIds(NoEntries()) == {} && NewIds(NoEntries()) == {};
  }
}
