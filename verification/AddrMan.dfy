/** CAddrMan with its fields updated in place (src/addrman.h, src/addrman.cpp). */
module AddrManager {
  import opened Wrappers
  import opened AddrTable
  import opened AddrSteps
  import opened AddrTried
  import opened AddrOps
  import opened AddrCheck
  import opened AddrSaved
  import opened AddrReload
  import opened AddrRoundTrip

  lemma FirstTerribleStable(m: map<nat, AddrInfo>, v: set<nat>, terrible: AddrInfo -> bool, i: nat, n: nat)
    requires i <= n && FirstTerrible(m, v, terrible, i).Some?
    ensures FirstTerrible(m, v, terrible, n) == FirstTerrible(m, v, terrible, i)
  {
    if i < n {
      FirstTerribleStable(m, v, terrible, i, n - 1);
    }
  }

  /** An address as it is handed out: the CAddress part of an entry. */
  datatype CAddress = CAddress(service: Service, nServices: set<nat>, nTime: int, nLastTry: int)

  function AddressOf(info: AddrInfo): CAddress {
    CAddress(info.addr, info.nServices, info.nTime, info.nLastTry)
  }

  class CAddrMan {
    const k: Buckets
    const isRoutable: NetAddr -> bool
    var nIdCount: nat
    var mapInfo: map<nat, AddrInfo>
    var mapAddr: map<NetAddr, nat>
    var vRandom: seq<nat>
    var nTried: int
    var vvTried: seq<seq<nat>>
    var nNew: int
    var vvNew: seq<set<nat>>

    function Tables(): Table
      reads this
    {
      Table(nIdCount, mapInfo, mapAddr, vRandom, nTried, vvTried, nNew, vvNew)
    }

    predicate Valid()
      reads this
    {
      Inv(k, Tables())
    }

    constructor (k: Buckets, isRoutable: NetAddr -> bool)
      ensures this.k == k && this.isRoutable == isRoutable && Tables() == NoEntries() && Valid()
    {
      this.k, this.isRoutable := k, isRoutable;
      nIdCount, mapInfo, mapAddr, vRandom := 0, map[], map[], [];
      nTried, vvTried, nNew, vvNew := 0, seq(TRIED_BUCKET_COUNT, _ => []), 0, seq(NEW_BUCKET_COUNT, _ => {});
      new;
      assert Tables() == NoEntries();
      EmptyInv(k);
    }

    method Find(addr: NetAddr) returns (id: Option<nat>)
      ensures id == if addr in mapAddr && mapAddr[addr] in mapInfo then Some(mapAddr[addr]) else None
    {
      if addr !in mapAddr {
        return None;
      }
      var found := mapAddr[addr];
      if found in mapInfo {
        return Some(found);
      }
      return None;
    }

    /** The entry for exactly this address and port, as Good_, Attempt_ and Connected_ look it up. */
    method FindExact(addr: Service) returns (id: Option<nat>)
      ensures id == Exact(Tables(), addr)
    {
      id := Find(addr.ip);
      if id.None? {
        return None;
      }
      if mapInfo[id.value].addr != addr {
        return None;
      }
    }

    method Create(addr: Address, source: NetAddr) returns (id: nat)
      modifies this
      ensures id == old(nIdCount)
      ensures Tables() == old(Tables()).(
                nIdCount := id + 1,
                mapInfo := old(mapInfo)[id := AddrInfo(addr.service, addr.nServices, addr.nTime, 0, source, 0, 0, 0, false, |old(vRandom)|)],
                mapAddr := old(mapAddr)[addr.service.ip := id], vRandom := old(vRandom) + [id])
    {
      id := nIdCount;
      nIdCount := nIdCount + 1;
      mapInfo := mapInfo[id := AddrInfo(addr.service, addr.nServices, addr.nTime, 0, source, 0, 0, 0, false, -1)];
      mapAddr := mapAddr[addr.service.ip := id];
      mapInfo := mapInfo[id := mapInfo[id].(nRandomPos := |vRandom|)];
      vRandom := vRandom + [id];
    }

    method SwapRandom(p1: nat, p2: nat)
      requires p1 < |vRandom| && p2 < |vRandom| && vRandom[p1] in mapInfo && vRandom[p2] in mapInfo
      modifies `mapInfo, `vRandom
      ensures Tables() == AddrSteps.SwapRandom(old(Tables()), p1, p2)
    {
      if p1 == p2 {
        return;
      }
      var id1, id2 := vRandom[p1], vRandom[p2];
      mapInfo := mapInfo[id1 := mapInfo[id1].(nRandomPos := p2)];
      mapInfo := mapInfo[id2 := mapInfo[id2].(nRandomPos := p1)];
      vRandom := vRandom[p1 := id2];
      vRandom := vRandom[p2 := id1];
    }

    /** The last lines of both branches of ShrinkNew. */
    method Drop(b: nat, id: nat)
      requires RandomOk(Tables()) && id in mapInfo && b < |vvNew|
      modifies this
      ensures Tables() == Release(old(Tables()), b, id)
    {
      hide RandomOk, Erase;
      EraseCounted(Tables(), id);
      mapInfo := mapInfo[id := mapInfo[id].(nRefCount := mapInfo[id].nRefCount - 1)];
      if mapInfo[id].nRefCount == 0 {
        Forget(id);
      }
      vvNew := vvNew[b := vvNew[b] - {id}];
    }

    /** An entry without references leaves all indexes. */
    method Forget(id: nat)
      requires RandomOk(Tables()) && id in mapInfo
      modifies `mapInfo, `mapAddr, `vRandom, `nNew
      ensures Tables() == var e := Erase(old(Tables()), id); e.(nNew := e.nNew - 1)
    {
      var ip := mapInfo[id].addr.ip;
      SwapRandom(mapInfo[id].nRandomPos, |vRandom| - 1);
      vRandom := vRandom[..|vRandom| - 1];
      mapAddr := mapAddr - {ip};
      mapInfo := mapInfo - {id};
      nNew := nNew - 1;
    }

    method ShrinkNew(b: nat, terrible: AddrInfo -> bool, rand: nat -> nat, ghost p: Option<nat>) returns (r: int)
      requires InvP(k, Tables(), p) && b < |vvNew| && vvNew[b] != {}
      modifies this
      ensures var v := Victim(old(Tables()), b, terrible, Drawn(rand, |old(vvNew)[b]|));
              v.Some? && v.value in old(mapInfo) && Tables() == Release(old(Tables()), b, v.value)
      ensures r == 0 <==> exists id :: id in old(vvNew)[b] && id in old(mapInfo) && terrible(old(mapInfo)[id])
    {
      hide InvP;
      var vNew := vvNew[b];
      assert RandomOk(Tables()) && IdsOk(Tables()) && NewPlaced(Tables()) by {
        PartsOf(k, Tables(), p);
      }
      VictimExists(k, Tables(), p, b, terrible, Drawn(rand, |vNew|), rand(0) % |vNew|);
      var it := FindTerrible(vNew, terrible);
      if it.Some? {
        Drop(b, it.value);
        return 0;
      }
      NoneTerrible(Tables(), b, terrible);
      var oldest := FindOldest(vNew, Drawn(rand, |vNew|));
      Drop(b, oldest.value);
      return 1;
    }

    /** The first loop of ShrinkNew; ids are visited in increasing order. */
    method FindTerrible(vNew: set<nat>, terrible: AddrInfo -> bool) returns (found: Option<nat>)
      requires forall id :: id in vNew ==> id in mapInfo
      ensures found == FirstTerrible(mapInfo, vNew, terrible, nIdCount)
    {
      found := None;
      for it := 0 to nIdCount
        invariant found == None && FirstTerrible(mapInfo, vNew, terrible, it) == None
      {
        if it in vNew {
          if terrible(mapInfo[it]) {
            assert FirstTerrible(mapInfo, vNew, terrible, it + 1) == Some(it);
            FirstTerribleStable(mapInfo, vNew, terrible, it + 1, nIdCount);
            return Some(it);
          }
        }
      }
    }

    /** The second loop of ShrinkNew. */
    method FindOldest(vNew: set<nat>, drawn: set<nat>) returns (oldest: Option<nat>)
      requires forall id :: id in vNew ==> id in mapInfo
      ensures oldest == OldestDrawn(mapInfo, vNew, drawn, nIdCount)
    {
      var nI := 0;
      oldest := None;
      for it := 0 to nIdCount
        invariant nI == Rank(vNew, it) && oldest == OldestDrawn(mapInfo, vNew, drawn, it)
      {
        if it in vNew {
          if nI in drawn {
            if oldest.None? || mapInfo[it].nTime < mapInfo[oldest.value].nTime {
              oldest := Some(it);
            }
          }
          nI := nI + 1;
        }
      }
    }

    method SelectTried(b: nat, rand: nat -> nat) returns (nOldestPos: int)
      requires b < |vvTried| && Known(mapInfo, vvTried[b])
      modifies `vvTried
      ensures var c := AddrTried.SelectTried(mapInfo, old(vvTried)[b], rand);
              vvTried == old(vvTried)[b := c.bucket] && nOldestPos == c.pos
    {
      var vTried := vvTried[b];
      ghost var c := NO_CHOICE.(bucket := vTried);
      var nOldest: Option<nat> := None;
      nOldestPos := -1;
      var i := 0;
      while i < TRIED_ENTRIES_INSPECT_ON_EVICT && i < |vTried|
        invariant i <= |vTried| && c.bucket == vTried && c.oldest == nOldest && c.pos == nOldestPos
        invariant Known(mapInfo, vTried) && (nOldest.Some? ==> nOldest.value in mapInfo)
        invariant Inspect(mapInfo, c, rand, i) == AddrTried.SelectTried(mapInfo, old(vvTried)[b], rand)
        invariant i <= TRIED_ENTRIES_INSPECT_ON_EVICT
        decreases |vTried| - i
      {
        c := InspectOne(mapInfo, c, rand, i);
        var nPos := rand(i) % (|vTried| - i) + i;
        var nTemp := vTried[nPos];
        vTried := vTried[nPos := vTried[i]];
        vTried := vTried[i := nTemp];
        if nOldest.None? || mapInfo[nTemp].nLastSuccess < mapInfo[nOldest.value].nLastSuccess {
          nOldest, nOldestPos := Some(nTemp), nPos;
        }
        i := i + 1;
      }
      vvTried := vvTried[b := vTried];
    }

    method MakeTried(id: nat, nOrigin: nat, rand: nat -> nat)
      requires Valid() && Promotable(Tables(), id, nOrigin)
      modifies this
      ensures Tables() == AddrOps.MakeTried(k, old(Tables()), id, nOrigin, rand)
    {
      ghost var s := Tables();
      MakeTriedFacts(k, s, id, nOrigin, rand);
      hide Inv, Promotable, Known, AddrTried.SelectTried, Without, RefCount;
      RemoveFromNew(id);
      assert mapInfo[id].nRefCount == 0;
      var b := k.Tried(mapInfo[id].addr);
      if |vvTried[b]| < TRIED_BUCKET_SIZE {
        Append(id, b);
        return;
      }
      Replace(id, nOrigin, b, rand, s);
    }

    method Append(id: nat, b: nat)
      requires id in mapInfo && b < |vvTried|
      modifies `vvTried, `nTried, `mapInfo
      ensures Tables() == old(Tables()).(vvTried := old(vvTried)[b := old(vvTried)[b] + [id]], nTried := old(nTried) + 1,
                                         mapInfo := old(mapInfo)[id := old(mapInfo)[id].(fInTried := true)])
    {
      vvTried := vvTried[b := vvTried[b] + [id]];
      nTried := nTried + 1;
      mapInfo := mapInfo[id := mapInfo[id].(fInTried := true)];
    }

    /** Taking an id out of all new buckets. */
    method RemoveFromNew(id: nat)
      requires id in mapInfo && mapInfo[id].nRefCount == RefCount(vvNew, id)
      modifies `vvNew, `nNew, `mapInfo
      ensures Tables() == old(Tables()).(vvNew := Without(old(vvNew), id), nNew := old(nNew) - 1,
                                         mapInfo := old(mapInfo)[id := old(mapInfo)[id].(nRefCount := 0)])
    {
      hide Removed, RemovedInfo;
      var n := |vvNew|;
      ghost var v, m := vvNew, mapInfo;
      NothingRemoved(v, m, id);
      for b := 0 to n
        modifies `vvNew, `mapInfo
        invariant vvNew == Removed(v, id, b) && mapInfo == RemovedInfo(v, m, id, b)
      {
        OneMoreRemoved(v, m, id, b);
        RemoveFromBucket(id, b);
      }
      nNew := nNew - 1;
      AllRemoved(v, m, id);
    }

    method RemoveFromBucket(id: nat, b: nat)
      requires id in mapInfo && b < |vvNew|
      modifies `vvNew, `mapInfo
      ensures vvNew == old(vvNew)[b := old(vvNew)[b] - {id}]
      ensures var info := old(mapInfo)[id];
              mapInfo == old(mapInfo)[id := info.(nRefCount := info.nRefCount - if id in old(vvNew)[b] then 1 else 0)]
    {
      if id in vvNew[b] {
        vvNew := vvNew[b := vvNew[b] - {id}];
        mapInfo := mapInfo[id := mapInfo[id].(nRefCount := mapInfo[id].nRefCount - 1)];
      } else {
        assert vvNew[b] - {id} == vvNew[b] && vvNew[b := vvNew[b]] == vvNew;
        assert mapInfo[id := mapInfo[id]] == mapInfo;
      }
    }

    /** MakeTried when the tried bucket is full. */
    method Replace(id: nat, nOrigin: nat, b: nat, rand: nat -> nat, ghost s: Table)
      requires Inv(k, s) && Promotable(s, id, nOrigin) && b == k.Tried(s.mapInfo[id].addr) && |s.vvTried[b]| >= TRIED_BUCKET_SIZE
      requires Tables() == s.(vvNew := Without(s.vvNew, id), nNew := s.nNew - 1, mapInfo := s.mapInfo[id := s.mapInfo[id].(nRefCount := 0)])
      modifies this
      ensures Tables() == AddrOps.MakeTried(k, s, id, nOrigin, rand)
    {
      hide Inv, Promotable, AddrTried.SelectTried, Known, Exchange, Without, AddrOps.MakeTried;
      ReplaceFacts(k, s, mapInfo, id, nOrigin, b, rand);
      ghost var t := Reorder(s, b, AddrTried.SelectTried(s.mapInfo, s.vvTried[b], rand).bucket);
      var nPos := SelectTried(b, rand);
      Displace(id, nOrigin, b, nPos, t);
    }

    /** The last part of MakeTried: the entry in slot nPos goes back to a new bucket and id takes its place. */
    method Displace(id: nat, nOrigin: nat, b: nat, nPos: nat, ghost t: Table)
      requires id in t.mapInfo && b == k.Tried(t.mapInfo[id].addr) && |t.vvTried| == TRIED_BUCKET_COUNT
      requires |t.vvNew| == NEW_BUCKET_COUNT && nOrigin < |t.vvNew| && nPos < |t.vvTried[b]| && t.vvTried[b][nPos] in t.mapInfo
      requires t.vvTried[b][nPos] != id
      requires Tables() == t.(vvNew := Without(t.vvNew, id), nNew := t.nNew - 1, mapInfo := t.mapInfo[id := t.mapInfo[id].(nRefCount := 0)])
      modifies `mapInfo, `vvNew, `vvTried, `nNew
      ensures Tables() == Exchange(k, t, id, nOrigin, nPos)
    {
      hide Without;
      var gone := vvTried[b][nPos];
      MoveBack(gone, nOrigin);
      vvTried := vvTried[b := Put(vvTried[b], nPos, id)];
      // nTried stays: one entry has replaced another
      mapInfo := mapInfo[id := mapInfo[id].(fInTried := true)];
      assert mapInfo == Exchange(k, t, id, nOrigin, nPos).mapInfo;
    }

    /** A tried entry goes to its own new bucket, or to nOrigin if that is full. */
    method MoveBack(gone: nat, nOrigin: nat)
      requires gone in mapInfo && |vvNew| == NEW_BUCKET_COUNT && nOrigin < |vvNew|
      modifies `mapInfo, `vvNew, `nNew
      ensures mapInfo == old(mapInfo)[gone := old(mapInfo)[gone].(fInTried := false, nRefCount := 1)] && nNew == old(nNew) + 1
      ensures var own := k.New(mapInfo[gone].addr, mapInfo[gone].source);
              var to := if |old(vvNew)[own]| < NEW_BUCKET_SIZE then own else nOrigin;
              vvNew == old(vvNew)[to := old(vvNew)[to] + {gone}]
    {
      var nUBucket := k.New(mapInfo[gone].addr, mapInfo[gone].source);
      mapInfo := mapInfo[gone := mapInfo[gone].(fInTried := false, nRefCount := 1)];
      if |vvNew[nUBucket]| < NEW_BUCKET_SIZE {
        vvNew := vvNew[nUBucket := vvNew[nUBucket] + {gone}];
      } else {
        vvNew := vvNew[nOrigin := vvNew[nOrigin] + {gone}];
      }
      nNew := nNew + 1;
    }

    method Good(addr: Service, nTime: int, nRnd: nat, rand: nat -> nat)
      requires Valid() && nTime > 0 && nRnd < NEW_BUCKET_COUNT
      modifies this
      ensures Valid() && Tables() == Step(k, isRoutable, old(Tables()), Op.Good(addr, nTime, nRnd, rand))
      ensures var id := Exact(old(Tables()), addr);
              id.Some? ==> id.value in mapInfo && mapInfo[id.value].addr == addr && mapInfo[id.value].fInTried
    {
      hide Inv, MarkGood, Exact;
      ghost var s := Tables();
      var id := FindExact(addr);
      if id.None? {
        return;
      }
      MarkGoodKeeps(k, s, id.value, nTime, nRnd, rand);
      mapInfo := mapInfo[id.value := Stamped(mapInfo[id.value], nTime)];
      StampedKeeps(k, s, id.value, nTime, nRnd);
      GoodStep(k, s, id.value, nTime, nRnd, rand);
      if mapInfo[id.value].fInTried {
        return;
      }
      var nUBucket := FindNewBucket(id.value, nRnd);
      MakeTried(id.value, nUBucket.value, rand);
    }

    method FindNewBucket(id: nat, nRnd: nat) returns (nUBucket: Option<nat>)
      ensures nUBucket == FindBucket(vvNew, id, nRnd, 0)
    {
      nUBucket := None;
      for n := 0 to |vvNew|
        invariant FindBucket(vvNew, id, nRnd, 0) == FindBucket(vvNew, id, nRnd, n)
      {
        var nB := (n + nRnd) % |vvNew|;
        if id in vvNew[nB] {
          return Some(nB);
        }
      }
    }

    method Attempt(addr: Service, nTime: int)
      requires Valid() && nTime >= 0
      modifies this
      ensures Valid() && Tables() == Step(k, isRoutable, old(Tables()), Op.Attempt(addr, nTime))
    {
      hide Inv, Exact;
      StepKeeps(k, isRoutable, Tables(), Op.Attempt(addr, nTime));
      var id := FindExact(addr);
      if id.Some? {
        mapInfo := mapInfo[id.value := mapInfo[id.value].(nLastTry := nTime, nAttempts := mapInfo[id.value].nAttempts + 1)];
      }
    }

    method Connected(addr: Service, nTime: int)
      requires Valid()
      modifies this
      ensures Valid() && Tables() == Step(k, isRoutable, old(Tables()), Op.Connected(addr, nTime))
    {
      hide Inv, Exact;
      ghost var s := Tables();
      StepKeeps(k, isRoutable, s, Op.Connected(addr, nTime));
      var id := FindExact(addr);
      if id.None? {
        return;
      }
      if nTime - mapInfo[id.value].nTime > 20 * 60 {
        mapInfo := mapInfo[id.value := mapInfo[id.value].(nTime := U32(nTime))];
      } else {
        assert mapInfo == mapInfo[id.value := mapInfo[id.value]];
      }
    }

    /** The addresses handed out are those now at the front of vRandom; the entries themselves only change places. */
    method GetAddr(rand: nat -> nat) returns (vAddr: seq<CAddress>)
      requires Valid()
      modifies this
      ensures Valid() && Tables() == Step(k, isRoutable, old(Tables()), Op.GetAddr(rand))
      ensures |vAddr| == ShareSize(|old(vRandom)|) && |vAddr| <= |vRandom|
      ensures SameButRandom(old(Tables()), Tables())
      ensures forall i :: 0 <= i < |vAddr| ==> vRandom[i] in mapInfo && vAddr[i] == AddressOf(mapInfo[vRandom[i]])
    {
      ghost var s := Tables();
      hide InvP, Shuffle, Step, ShareSize, SameButRandom;
      var nNodes := Share(|vRandom|);
      ShuffleStart(k, s, rand);
      StepKeeps(k, isRoutable, s, Op.GetAddr(rand));
      GetAddrStep(k, isRoutable, s, rand);
      ShuffleSame(k, s, rand, ShareSize(|s.vRandom|));
      vAddr := [];
      for n := 0 to nNodes
        invariant |vRandom| == |s.vRandom| && |vAddr| == n && nNodes == ShareSize(|s.vRandom|)
        invariant Tables() == Shuffle(k, s, rand, n)
        invariant forall i :: 0 <= i < n ==> vRandom[i] in mapInfo && vAddr[i] == AddressOf(mapInfo[vRandom[i]])
      {
        var a := ShuffleOne(n, rand, s);
        vAddr := vAddr + [a];
      }
    }

    /** How many addresses GetAddr_ returns. */
    static method Share(n: nat) returns (nNodes: nat)
      ensures nNodes == ShareSize(n)
    {
      nNodes := GETADDR_MAX_PCT * n / 100;
      if nNodes > GETADDR_MAX {
        nNodes := GETADDR_MAX;
      }
    }

    /** One round of GetAddr_. */
    method ShuffleOne(n: nat, rand: nat -> nat, ghost s: Table) returns (addr: CAddress)
      requires Inv(k, s) && n < |s.vRandom| && Tables() == Shuffle(k, s, rand, n)
      modifies `mapInfo, `vRandom
      ensures Tables() == Shuffle(k, s, rand, n + 1) && |vRandom| == |old(vRandom)|
      ensures vRandom[n] in mapInfo && addr == AddressOf(mapInfo[vRandom[n]])
      ensures forall i :: 0 <= i < n ==> vRandom[i] == old(vRandom)[i]
      ensures forall x :: x in old(mapInfo) ==> x in mapInfo && AddressOf(mapInfo[x]) == AddressOf(old(mapInfo)[x])
    {
      hide InvP, AddrSteps.SwapRandom, SameButRandom;
      ghost var u := Tables();
      ShuffleStep(k, u, rand, n);
      var nRndPos := rand(n) % (|vRandom| - n) + n;
      SwapRandom(n, nRndPos);
      PartsOf(k, Tables(), None);
      FrontStays(u, Tables(), n);
      addr := AddressOf(mapInfo[vRandom[n]]);
    }

    /** The periodic update of a known entry. */
    static method Refresh(known: AddrInfo, addr: Address, nTimePenalty: int, now: int) returns (info: AddrInfo)
      ensures info == Refreshed(known, addr, nTimePenalty, now)
    {
      hide U32, Max;
      info := known;
      var fCurrentlyOnline := now - addr.nTime < 24 * 60 * 60;
      var nUpdateInterval := if fCurrentlyOnline then 60 * 60 else 24 * 60 * 60;
      if addr.nTime != 0 && (info.nTime == 0 || info.nTime < addr.nTime - nUpdateInterval - nTimePenalty) {
        info := info.(nTime := U32(Max(0, addr.nTime - nTimePenalty)));
      }
      info := info.(nServices := info.nServices + addr.nServices);
    }

    /** The tests Add_ makes before it gives a known entry one more reference. */
    static method TestMore(info: AddrInfo, addr: Address, coin: nat) returns (more: bool)
      requires 0 <= info.nRefCount
      ensures more == WantsMore(info, addr, coin)
    {
      if addr.nTime == 0 || (info.nTime != 0 && addr.nTime <= info.nTime) {
        return false;
      }
      if info.fInTried {
        return false;
      }
      if info.nRefCount == NEW_BUCKETS_PER_ADDRESS {
        return false;
      }
      var nFactor := 1;
      for n := 0 to info.nRefCount
        invariant nFactor == Pow2(n)
      {
        nFactor := nFactor * 2;
      }
      if nFactor > 1 && coin % nFactor != 0 {
        return false;
      }
      return true;
    }

    method AddAgain(id: nat, addr: Address, source: NetAddr, nTimePenalty: int, now: int, coin: nat,
                    terrible: AddrInfo -> bool, rand: nat -> nat)
      requires Valid() && id in mapInfo
      modifies this
      ensures Tables() == AddKnown(k, old(Tables()), id, addr, source, nTimePenalty, now, coin, terrible, rand)
    {
      hide InvP, AddReference, WantsMore, Refreshed;
      ghost var s := Tables();
      CountBounds(k, s, id);
      var info := Refresh(mapInfo[id], addr, nTimePenalty, now);
      RefreshedLinks(s.mapInfo[id], addr, nTimePenalty, now);
      mapInfo := mapInfo[id := info];
      AddKnownIs(k, s, id, addr, source, nTimePenalty, now, coin, terrible, rand);
      assert Tables() == SetInfo(s, id, info);
      hide AddKnown, SetInfo;
      var more := TestMore(info, addr, coin);
      if more {
        Reference(id, k.New(info.addr, source), terrible, rand);
      }
    }

    /** The last lines of Add_ for a known entry. */
    method Reference(id: nat, b: nat, terrible: AddrInfo -> bool, rand: nat -> nat)
      requires Valid() && b < NEW_BUCKET_COUNT && id in mapInfo && !mapInfo[id].fInTried
      requires mapInfo[id].nRefCount < NEW_BUCKETS_PER_ADDRESS
      modifies this
      ensures Tables() == AddReference(k, old(Tables()), id, b, terrible, rand)
    {
      hide InvP, Place;
      ghost var s := Tables();
      Sizes(k, s, None);
      if id !in vvNew[b] {
        BumpKeeps(k, s, id);
        mapInfo := mapInfo[id := mapInfo[id].(nRefCount := mapInfo[id].nRefCount + 1)];
        assert Tables() == Bump(s, id);
        PlaceIn(b, id, terrible, rand);
      }
    }

    /** Making room and inserting. */
    method PlaceIn(b: nat, id: nat, terrible: AddrInfo -> bool, rand: nat -> nat)
      requires InvP(k, Tables(), Some(id)) && b < NEW_BUCKET_COUNT && b < |vvNew| && id !in vvNew[b]
      modifies this
      ensures RandomOk(old(Tables())) && Tables() == Place(old(Tables()), b, id, terrible, Drawn(rand, NEW_BUCKET_SIZE))
    {
      ghost var s := Tables();
      PartsOf(k, s, Some(id));
      hide InvP, RandomOk, Victim, Release;
      if |vvNew[b]| == NEW_BUCKET_SIZE {
        var _ := ShrinkNew(b, terrible, rand, Some(id));
        ReleaseShrinks(s, b, Victim(s, b, terrible, Drawn(rand, NEW_BUCKET_SIZE)).value);
      }
      vvNew := vvNew[b := vvNew[b] + {id}];
    }

    method AddNew(addr: Address, source: NetAddr, nTimePenalty: int, terrible: AddrInfo -> bool, rand: nat -> nat)
      requires Valid() && addr.service.ip !in mapAddr
      modifies this
      ensures Tables() == AddUnknown(k, old(Tables()), addr, source, nTimePenalty, terrible, rand)
    {
      hide InvP, Place;
      ghost var s := Tables();
      Sizes(k, s, None);
      var id := Create(addr, source);
      mapInfo := mapInfo[id := mapInfo[id].(nTime := U32(Max(0, mapInfo[id].nTime - nTimePenalty)))];
      nNew := nNew + 1;
      mapInfo := mapInfo[id := mapInfo[id].(nRefCount := mapInfo[id].nRefCount + 1)];
      CreateKeeps(k, s, NewInfo(addr, source, nTimePenalty));
      var b := k.New(addr.service, source);
      FreshIn(k, s, b);
      assert Tables() == CreateCounted(s, NewInfo(addr, source, nTimePenalty));
      PlaceIn(b, id, terrible, rand);
    }

    method Add(addr: Address, source: NetAddr, nTimePenalty: int, now: int, coin: nat, terrible: AddrInfo -> bool, rand: nat -> nat)
      returns (fNew: bool)
      requires Valid()
      modifies this
      ensures Valid()
      ensures Tables() == Step(k, isRoutable, old(Tables()), Op.Add(addr, source, nTimePenalty, now, coin, terrible, rand))
      ensures fNew <==> isRoutable(addr.service.ip) && addr.service.ip !in old(mapAddr)
    {
      hide Inv, AddReference;
      ghost var s := Tables();
      StepKeeps(k, isRoutable, s, Op.Add(addr, source, nTimePenalty, now, coin, terrible, rand));
      if !isRoutable(addr.service.ip) {
        return false;
      }
      var found := Find(addr.service.ip);
      AddrKnown(k, s, addr.service.ip);
      if found.Some? {
        AddAgain(found.value, addr, source, nTimePenalty, now, coin, terrible, rand);
        return false;
      }
      AddNew(addr, source, nTimePenalty, terrible, rand);
      return true;
    }

    // ---------------------------------------------------------------- saving and loading

    /** The writer, whatever the tables hold: a count that is too small cuts the entries off. */
    method Write() returns (f: Saved)
      ensures f == Save(Tables())
    {
      hide Unk, StripAll, ListedAll, Cut, Where, Top, Save;
      var n := EndOf(mapInfo.Keys);
      var newInfos, mapUnkIds := WriteNew(n);
      var triedInfos := WriteTried(n);
      var buckets := WriteBuckets(mapUnkIds);
      f := Saved(nNew, nTried, NEW_BUCKET_COUNT, newInfos, triedInfos, buckets);
      SaveIs(Tables());
    }

    /** Where going through the ids in order ends. */
    static method EndOf(ids: set<nat>) returns (n: nat)
      ensures n == Top(ids)
    {
      n := 0;
      var todo := ids;
      while todo != {}
        invariant todo <= ids && IsTop(ids - todo, n)
      {
        var id :| id in todo;
        assert ids - (todo - {id}) == ids - todo + {id};
        todo := todo - {id};
        if id >= n {
          n := id + 1;
        }
      }
      assert ids - todo == ids;
    }

    method WriteNew(n: nat) returns (infos: seq<SavedInfo>, mapUnkIds: map<nat, nat>)
      requires n == Top(mapInfo.Keys)
      ensures infos == StripAll(mapInfo, Cut(Where(Tables(), false), nNew)) && Unk(Tables(), mapUnkIds)
    {
      hide Unk, UnkBelow, IdsWhere, StripAll, Cut, Where, Top, Position, Strip;
      infos, mapUnkIds := [], map[];
      WhereStarts(mapInfo, false);
      UnkNone(Tables());
      var nIds, it := 0, 0;
      while it < n
        invariant it <= n && nIds == |IdsWhere(mapInfo, false, it)| && infos == StripAll(mapInfo, IdsWhere(mapInfo, false, it))
        invariant UnkBelow(Tables(), mapUnkIds, it) && (0 <= nNew ==> nIds <= nNew)
      {
        if it in mapInfo {
          if nIds == nNew {
            CutAt(Tables(), false, it, nNew);
            UnkCut(Tables(), mapUnkIds, it);
            return;
          }
          WhereStep(mapInfo, false, it);
          UnkMore(Tables(), mapUnkIds, it, nIds);
          mapUnkIds := mapUnkIds[it := nIds];
          if mapInfo[it].nRefCount != 0 {
            infos := infos + [Strip(mapInfo[it])];
            nIds := nIds + 1;
          }
        } else {
          WhereSkip(mapInfo, false, it);
          UnkSkip(Tables(), mapUnkIds, it);
        }
        it := it + 1;
      }
      CutNot(Tables(), false, nNew);
      UnkAll(Tables(), mapUnkIds, n);
    }

    method WriteTried(n: nat) returns (infos: seq<SavedInfo>)
      requires n == Top(mapInfo.Keys)
      ensures infos == StripAll(mapInfo, Cut(Where(Tables(), true), nTried))
    {
      hide Unk, UnkBelow, IdsWhere, StripAll, Cut, Where, Top, Position, Strip;
      infos := [];
      WhereStarts(mapInfo, true);
      var nIds, it := 0, 0;
      while it < n
        invariant it <= n && nIds == |IdsWhere(mapInfo, true, it)| && infos == StripAll(mapInfo, IdsWhere(mapInfo, true, it))
        invariant 0 <= nTried ==> nIds <= nTried
      {
        if it in mapInfo {
          if nIds == nTried {
            CutAt(Tables(), true, it, nTried);
            return;
          }
          WhereStep(mapInfo, true, it);
          if mapInfo[it].fInTried {
            infos := infos + [Strip(mapInfo[it])];
            nIds := nIds + 1;
          }
        } else {
          WhereSkip(mapInfo, true, it);
        }
        it := it + 1;
      }
      CutNot(Tables(), true, nTried);
    }

    method WriteBuckets(mapUnkIds: map<nat, nat>) returns (buckets: seq<seq<nat>>)
      requires Unk(Tables(), mapUnkIds)
      ensures buckets == ListedAll(Tables(), vvNew)
    {
      hide Unk, Listed, Top;
      buckets := [];
      for b := 0 to |vvNew|
        invariant buckets == ListedAll(Tables(), vvNew[..b])
      {
        var list := WriteBucket(vvNew[b], mapUnkIds);
        buckets := buckets + [list];
        assert vvNew[..b + 1][..b] == vvNew[..b];
      }
      assert vvNew[..|vvNew|] == vvNew;
    }

    method WriteBucket(vNew: set<nat>, mapUnkIds: map<nat, nat>) returns (list: seq<nat>)
      requires Unk(Tables(), mapUnkIds)
      ensures list == Listed(Tables(), vNew, Top(vNew))
    {
      hide Top, Position;
      var n := EndOf(vNew);
      list := [];
      for it := 0 to n
        invariant list == Listed(Tables(), vNew, it)
      {
        if it in vNew {
          var nIndex := if it in mapUnkIds then mapUnkIds[it] else 0;
          list := list + [nIndex];
        }
      }
    }

    /** Reading replaces all tables; nKey, and so the buckets, is the one in the file. */
    method Read(f: Saved)
      requires Loadable(f)
      modifies this
      ensures Tables() == Load(k, f)
    {
      nNew, nTried := f.nNew, f.nTried;
      nIdCount, mapInfo, mapAddr, vRandom := 0, map[], map[], [];
      vvTried, vvNew := seq(TRIED_BUCKET_COUNT, _ => []), seq(NEW_BUCKET_COUNT, _ => {});
      ReadNew(f);
      nIdCount := |f.newInfos|;
      ReadTried(f);
      ReadBuckets(f);
    }

    method ReadNew(f: Saved)
      requires Tables() == LoadNew(k, f, 0)
      modifies this
      ensures Tables() == LoadNew(k, f, |f.newInfos|)
    {
      hide LoadOneNew;
      for n := 0 to |f.newInfos|
        invariant Tables() == LoadNew(k, f, n)
      {
        ReadOneNew(f.newInfos[n], n, f.nUBuckets == NEW_BUCKET_COUNT);
      }
    }

    method ReadOneNew(info: SavedInfo, n: nat, usual: bool)
      requires |vvNew| == NEW_BUCKET_COUNT
      modifies this
      ensures Tables() == LoadOneNew(k, old(Tables()), info, n, usual)
    {
      mapInfo := mapInfo[n := Restore(info, -1, false)];
      mapAddr := mapAddr[info.addr.ip := n];
      mapInfo := mapInfo[n := mapInfo[n].(nRandomPos := |vRandom|)];
      vRandom := vRandom + [n];
      if !usual {
        var b := k.New(info.addr, info.source);
        vvNew := vvNew[b := vvNew[b] + {n}];
        mapInfo := mapInfo[n := mapInfo[n].(nRefCount := mapInfo[n].nRefCount + 1)];
      }
    }

    method ReadTried(f: Saved)
      requires Tables() == LoadTried(k, f, 0)
      modifies this
      ensures Tables() == LoadTried(k, f, |f.triedInfos|)
    {
      hide LoadOne;
      var nLost := 0;
      for n := 0 to |f.triedInfos|
        invariant Tables().(nTried := nTried - nLost) == LoadTried(k, f, n) && |vvTried| == TRIED_BUCKET_COUNT
      {
        var fKept := ReadOneTried(f.triedInfos[n], nLost);
        nLost := nLost + if fKept then 0 else 1;
      }
      nTried := nTried - nLost;
    }

    /** One turn of that loop, on tables whose count still includes what was lost. */
    method ReadOneTried(info: SavedInfo, ghost nLost: nat) returns (fKept: bool)
      requires |vvTried| == TRIED_BUCKET_COUNT
      modifies `vRandom, `mapInfo, `mapAddr, `vvTried, `nIdCount
      ensures Tables().(nTried := nTried - nLost - if fKept then 0 else 1) == LoadOne(k, old(Tables()).(nTried := nTried - nLost), info)
      ensures |vvTried| == TRIED_BUCKET_COUNT
    {
      var b := k.Tried(info.addr);
      fKept := |vvTried[b]| < TRIED_BUCKET_SIZE;
      if fKept {
        KeepTried(info, b);
      }
    }

    method KeepTried(info: SavedInfo, b: nat)
      requires b == k.Tried(info.addr) && |vvTried| == TRIED_BUCKET_COUNT && |vvTried[b]| < TRIED_BUCKET_SIZE
      modifies `vRandom, `mapInfo, `mapAddr, `vvTried, `nIdCount
      ensures Tables() == LoadOne(k, old(Tables()), info)
    {
      mapInfo := mapInfo[nIdCount := Restore(info, |vRandom|, true)];
      vRandom := vRandom + [nIdCount];
      mapAddr := mapAddr[info.addr.ip := nIdCount];
      vvTried := vvTried[b := vvTried[b] + [nIdCount]];
      nIdCount := nIdCount + 1;
    }

    method ReadBuckets(f: Saved)
      requires Loadable(f) && Tables() == LoadTried(k, f, |f.triedInfos|)
      modifies `mapInfo, `vvNew
      ensures Tables() == Load(k, f)
    {
      hide LoadTried, LoadBucket;
      ghost var t := Tables();
      for b := 0 to |f.buckets|
        invariant Tables() == LoadBuckets(t, f.buckets, b, Usual(f))
      {
        ReadBucket(b, f.buckets[b], f.nUBuckets == NEW_BUCKET_COUNT);
      }
    }

    method ReadBucket(b: nat, list: seq<nat>, usual: bool)
      requires b < |vvNew|
      modifies `mapInfo, `vvNew
      ensures Tables() == LoadBucket(old(Tables()), b, list, |list|, usual)
    {
      ghost var u := Tables();
      for n := 0 to |list|
        invariant Tables() == LoadBucket(u, b, list, n, usual)
      {
        var nIndex := list[n];
        if nIndex !in mapInfo {
          mapInfo := mapInfo[nIndex := BLANK];
        } else {
          assert mapInfo[nIndex := mapInfo[nIndex]] == mapInfo;
        }
        if usual && mapInfo[nIndex].nRefCount < NEW_BUCKETS_PER_ADDRESS {
          mapInfo := mapInfo[nIndex := mapInfo[nIndex].(nRefCount := mapInfo[nIndex].nRefCount + 1)];
          vvNew := vvNew[b := vvNew[b] + {nIndex}];
        }
      }
    }

    /** Writing and reading back: the manager that reads is consistent again and holds the same entries. */
    method Reload(other: CAddrMan)
      requires Valid() && other.k == k && other != this
      modifies other
      ensures other.Valid() && Renamed(Tables(), other.Tables(), Ids(Tables()))
    {
      SavedTablesReload(k, Tables());
      hide Inv, Renamed;
      var f := Write();
      other.Read(f);
    }

    // ---------------------------------------------------------------- Check_

    /** Check_ looks addresses up with operator[], so it enters those that are missing. */
    method Check() returns (err: int)
      modifies `mapAddr
      ensures err == 0 <==> Passes(old(Tables()))
      ensures LookedUp(mapInfo, old(mapAddr), mapAddr)
      ensures old(Valid()) ==> err == 0 && Tables() == old(Tables())
    {
      hide Inv, CrossOffAll, CountDownAll, EntryOk, NewCounts, TriedIds, NewIds, LookedUp;
      ghost var s := Tables();
      NothingLookedUp(mapInfo, mapAddr);
      if Valid() {
        InvPasses(k, s);
        NothingMissing(k, s);
      }
      if |vRandom| != nTried + nNew {
        return -7;
      }
      var setTried, mapNew;
      err, setTried, mapNew := CheckEntries();
      if err != 0 {
        return;
      }
      CountsAreSizes(s);
      if |setTried| != nTried {
        return -9;
      }
      if |mapNew| != nNew {
        return -10;
      }
      var restTried := CheckTriedBuckets(setTried);
      if restTried.None? {
        return -11;
      }
      var restNew := CheckNewBuckets(mapNew);
      if restNew.None? {
        return -12;
      }
      if restTried.value != {} {
        return -13;
      }
      if restNew.value != map[] {
        return -15;
      }
    }

    method CheckEntry(id: nat) returns (err: int)
      requires id in mapInfo
      modifies `mapAddr
      ensures err == 0 <==> EntryOk(old(Tables()), id)
      ensures LookedUp(mapInfo, old(mapAddr), mapAddr)
    {
      var info := mapInfo[id];
      if info.fInTried {
        if info.nLastSuccess == 0 {
          return -1;
        }
        if info.nRefCount != 0 {
          return -2;
        }
      } else {
        if info.nRefCount < 0 || info.nRefCount > NEW_BUCKETS_PER_ADDRESS {
          return -3;
        }
        if info.nRefCount == 0 {
          return -4;
        }
      }
      if info.addr.ip !in mapAddr {
        mapAddr := mapAddr[info.addr.ip := 0];
      }
      if mapAddr[info.addr.ip] != id {
        return -5;
      }
      if info.nRandomPos < 0 || info.nRandomPos >= |vRandom| || vRandom[info.nRandomPos] != id {
        return -14;
      }
      if info.nLastTry < 0 {
        return -6;
      }
      if info.nLastSuccess < 0 {
        return -8;
      }
      return 0;
    }

    method CheckEntries() returns (err: int, setTried: set<nat>, mapNew: map<nat, int>)
      modifies `mapAddr
      ensures err == 0 <==> forall id :: id in mapInfo ==> EntryOk(old(Tables()), id)
      ensures err == 0 ==> setTried == TriedIds(old(Tables())) && mapNew == NewCounts(old(Tables()))
      ensures LookedUp(mapInfo, old(mapAddr), mapAddr)
    {
      hide EntryOk, LookedUp;
      NothingLookedUp(mapInfo, mapAddr);
      err, setTried, mapNew := 0, {}, map[];
      ghost var s := Tables();
      var todo := mapInfo.Keys;
      while todo != {}
        invariant todo <= mapInfo.Keys && err == 0 && forall id :: id in mapInfo && id !in todo ==> EntryOk(s, id)
        invariant setTried == set id | id in mapInfo && id !in todo && mapInfo[id].fInTried
        invariant mapNew == map id | id in mapInfo && id !in todo && !mapInfo[id].fInTried :: mapInfo[id].nRefCount
        invariant LookedUp(mapInfo, s.mapAddr, mapAddr)
        decreases todo
      {
        var it :| it in todo;
        ghost var u := Tables();
        err := CheckEntry(it);
        LookedUpMore(mapInfo, s.mapAddr, u.mapAddr, mapAddr);
        SameAnswer(s, u, it);
        if err != 0 {
          return;
        }
        if mapInfo[it].fInTried {
          setTried := setTried + {it};
        } else {
          mapNew := mapNew[it := mapInfo[it].nRefCount];
        }
        todo := todo - {it};
      }
    }

    method CheckTriedBuckets(setTried: set<nat>) returns (rest: Option<set<nat>>)
      ensures rest == CrossOffAll(setTried, vvTried)
    {
      rest := Some(setTried);
      for b := 0 to |vvTried|
        invariant rest.Some? && rest == CrossOffAll(setTried, vvTried[..b])
      {
        assert vvTried[..b + 1][..b] == vvTried[..b];
        rest := CheckTriedBucket(rest.value, vvTried[b]);
        if rest.None? {
          LostForAll(setTried, vvTried, b + 1);
          return;
        }
      }
      assert vvTried[..|vvTried|] == vvTried;
    }

    static method CheckTriedBucket(ids: set<nat>, v: seq<nat>) returns (rest: Option<set<nat>>)
      ensures rest == CrossOff(ids, v)
    {
      rest := Some(ids);
      for i := 0 to |v|
        invariant rest.Some? && rest == CrossOff(ids, v[..i])
      {
        assert v[..i + 1][..i] == v[..i];
        if v[i] !in rest.value {
          LostFor(ids, v, i + 1);
          return None;
        }
        rest := Some(rest.value - {v[i]});
      }
      assert v[..|v|] == v;
    }

    method CheckNewBuckets(mapNew: map<nat, int>) returns (rest: Option<map<nat, int>>)
      ensures rest == CountDownAll(mapNew, vvNew)
    {
      hide CountDown;
      rest := Some(mapNew);
      for b := 0 to |vvNew|
        invariant rest.Some? && rest == CountDownAll(mapNew, vvNew[..b])
      {
        assert vvNew[..b + 1][..b] == vvNew[..b];
        rest := CheckNewBucket(rest.value, vvNew[b]);
        if rest.None? {
          MissingForAll(mapNew, vvNew, b + 1);
          return;
        }
      }
      assert vvNew[..|vvNew|] == vvNew;
    }

    static method CheckNewBucket(m: map<nat, int>, v: set<nat>) returns (rest: Option<map<nat, int>>)
      ensures rest == CountDown(m, v)
    {
      CountedNothing(m);
      var c := m;
      var todo := v;
      assert v - todo == {};
      while todo != {}
        invariant todo <= v && CountDown(m, v - todo) == Some(c)
        decreases todo
      {
        var it :| it in todo;
        CountedOneMore(m, v, todo, it, c);
        if it !in c {
          return None;
        }
        ghost var was := c;
        c := c[it := c[it] - 1];
        if c[it] == 0 {
          c := c - {it};
          assert c == was - {it};
        }
        todo := todo - {it};
      }
      assert v - {} == v;
      rest := Some(c);
    }
  }

  lemma CountedNothing(m: map<nat, int>)
    ensures CountDown(m, {}) == Some(m)
  {
    assert CountDown(m, {}).value == m;
  }

  /** Counting down one more id of the bucket. */
  lemma CountedOneMore(m: map<nat, int>, v: set<nat>, todo: set<nat>, it: nat, c: map<nat, int>)
    requires todo <= v && it in todo && CountDown(m, v - todo) == Some(c)
    ensures it !in c ==> CountDown(m, v).None?
    ensures it in c ==> CountDown(m, v - (todo - {it})) == Some(if c[it] == 1 then c - {it} else c[it := c[it] - 1])
  {
    var more := v - (todo - {it});
    assert more == v - todo + {it};
    if it in c {
      assert CountDown(m, more).value == if c[it] == 1 then c - {it} else c[it := c[it] - 1];
    }
  }

  /** b is a after operator[] has looked some entries' addresses up in it. */
  ghost predicate LookedUp(m: map<nat, AddrInfo>, a: map<NetAddr, nat>, b: map<NetAddr, nat>) {
    && (forall ip :: ip in a ==> ip in b && b[ip] == a[ip])
    && (forall ip :: ip in b && ip !in a ==> b[ip] == 0 && exists id :: id in m && m[id].addr.ip == ip)
  }

  lemma NothingLookedUp(m: map<nat, AddrInfo>, a: map<NetAddr, nat>)
    ensures LookedUp(m, a, a)
  {
  }

  lemma LookedUpMore(m: map<nat, AddrInfo>, a: map<NetAddr, nat>, b: map<NetAddr, nat>, c: map<NetAddr, nat>)
    requires LookedUp(m, a, b) && LookedUp(m, b, c)
    ensures LookedUp(m, a, c)
  {
  }

  /** Looking an address up twice gives the same answer. */
  lemma SameAnswer(s: Table, u: Table, id: nat)
    requires u == s.(mapAddr := u.mapAddr) && LookedUp(s.mapInfo, s.mapAddr, u.mapAddr) && id in s.mapInfo
    ensures EntryOk(u, id) <==> EntryOk(s, id)
  {
  }

  /** A consistent manager has no address missing. */
  lemma NothingMissing(k: Buckets, s: Table)
    requires Inv(k, s)
    ensures forall b :: LookedUp(s.mapInfo, s.mapAddr, b) ==> b == s.mapAddr
  {
    hide RandomOk, CountsOk, StatsOk, TriedOk, NewOk;
  }

  lemma PartsOf(k: Buckets, s: Table, p: Option<nat>)
    requires InvP(k, s, p)
    ensures RandomOk(s) && IdsOk(s) && NewPlaced(s)
  {
    hide RandomOk, IdsOk, CountsOk, StatsOk, TriedOk, NewPlaced, NewCounted;
  }

  lemma NoneTerrible(s: Table, b: nat, terrible: AddrInfo -> bool)
    requires IdsOk(s) && b < |s.vvNew| && FirstTerrible(s.mapInfo, s.vvNew[b], terrible, s.nIdCount).None?
    ensures !exists id :: id in s.vvNew[b] && id in s.mapInfo && terrible(s.mapInfo[id])
  {
  }

  /** Counting an entry down before erasing it leaves no trace. */
  lemma EraseCounted(s: Table, id: nat)
    requires RandomOk(s) && id in s.mapInfo
    ensures var u := SetInfo(s, id, s.mapInfo[id].(nRefCount := s.mapInfo[id].nRefCount - 1));
            RandomOk(u) && Erase(u, id) == Erase(s, id)
  {
    assert s.vRandom[s.mapInfo[id].nRandomPos] == id;
    hide SwapRandom, RandomOk;
    CountedRandom(s, id);
    SwapRandomSame(s, s.mapInfo[id].nRandomPos, |s.vRandom| - 1);
    SwapIgnoresCount(s, id, s.mapInfo[id].nRandomPos, |s.vRandom| - 1);
  }

  lemma CountedRandom(s: Table, id: nat)
    requires RandomOk(s) && id in s.mapInfo
    ensures RandomOk(SetInfo(s, id, s.mapInfo[id].(nRefCount := s.mapInfo[id].nRefCount - 1)))
  {
    var u := SetInfo(s, id, s.mapInfo[id].(nRefCount := s.mapInfo[id].nRefCount - 1));
    assert SameKeys(s, u);
    RandomFrame(s, u);
  }

  lemma SwapIgnoresCount(s: Table, id: nat, p1: nat, p2: nat)
    requires id in s.mapInfo && p1 < |s.vRandom| && p2 < |s.vRandom| && s.vRandom[p1] in s.mapInfo && s.vRandom[p2] in s.mapInfo
    ensures var u := SetInfo(s, id, s.mapInfo[id].(nRefCount := s.mapInfo[id].nRefCount - 1));
            var s', u' := SwapRandom(s, p1, p2), SwapRandom(u, p1, p2);
            u'.mapInfo - {id} == s'.mapInfo - {id} && u' == s'.(mapInfo := u'.mapInfo)
  {
    var u := SetInfo(s, id, s.mapInfo[id].(nRefCount := s.mapInfo[id].nRefCount - 1));
    var s', u' := SwapRandom(s, p1, p2), SwapRandom(u, p1, p2);
    assert u'.mapInfo.Keys == s'.mapInfo.Keys;
    assert forall x :: x in s.mapInfo && x != id ==> u'.mapInfo[x] == s'.mapInfo[x];
  }

  lemma MakeTriedFacts(k: Buckets, s: Table, id: nat, origin: nat, rand: nat -> nat)
    requires Inv(k, s) && Promotable(s, id, origin)
    ensures s.mapInfo[id].nRefCount == RefCount(s.vvNew, id) && |s.vvTried| == TRIED_BUCKET_COUNT
  {
    hide IdsOk, RandomOk, CountsOk, StatsOk;
    assert CountedOk(s, None, id);
  }

  /** What MakeTried relies on when it replaces an entry; m is mapInfo at that point. */
  lemma ReplaceFacts(k: Buckets, s: Table, m: map<nat, AddrInfo>, id: nat, origin: nat, b: nat, rand: nat -> nat)
    requires Inv(k, s) && Promotable(s, id, origin) && b == k.Tried(s.mapInfo[id].addr) && |s.vvTried[b]| >= TRIED_BUCKET_SIZE
    requires m == s.mapInfo[id := s.mapInfo[id].(nRefCount := 0)]
    ensures |s.vvTried| == TRIED_BUCKET_COUNT && |s.vvNew| == NEW_BUCKET_COUNT && id in s.mapInfo && origin < |s.vvNew|
    ensures Known(s.mapInfo, s.vvTried[b]) && Known(m, s.vvTried[b])
    ensures var c := SelectTried(s.mapInfo, s.vvTried[b], rand);
            && SelectTried(m, s.vvTried[b], rand) == c
            && 0 <= c.pos < |c.bucket| && c.bucket[c.pos] != id && c.bucket[c.pos] in s.mapInfo
            && MakeTried(k, s, id, origin, rand) == Exchange(k, Reorder(s, b, c.bucket), id, origin, c.pos)
  {
    ReadyToExchange(k, s, id, origin, rand);
    hide IdsOk, RandomOk, CountsOk, StatsOk, NewPlaced, NewCounted, SelectTried, TriedOk, NewOk, Known;
    SelectIgnores(s.mapInfo, m, s.vvTried[b], rand);
    var c := SelectTried(s.mapInfo, s.vvTried[b], rand);
    var b', gone := ReplacedEntry(k, Reorder(s, b, c.bucket), id, origin, c.pos);
  }

  /** SelectTried only looks at the success times of the bucket's own entries. */
  lemma {:induction false} InspectIgnores(m: map<nat, AddrInfo>, m': map<nat, AddrInfo>, c: Choice, rand: nat -> nat, i: nat)
    requires Known(m, c.bucket) && i <= |c.bucket| && (c.oldest.Some? ==> c.oldest.value in m) && m'.Keys == m.Keys
    requires forall x :: x in m ==> m'[x].nLastSuccess == m[x].nLastSuccess
    ensures Known(m', c.bucket) && Inspect(m', c, rand, i) == Inspect(m, c, rand, i)
    decreases |c.bucket| - i
  {
    if i < TRIED_ENTRIES_INSPECT_ON_EVICT && i < |c.bucket| {
      var d := InspectOne(m, c, rand, i);
      InspectIgnores(m, m', d, rand, i + 1);
    }
  }

  lemma SelectIgnores(m: map<nat, AddrInfo>, m': map<nat, AddrInfo>, v: seq<nat>, rand: nat -> nat)
    requires Known(m, v) && m'.Keys == m.Keys && forall x :: x in m ==> m'[x].nLastSuccess == m[x].nLastSuccess
    ensures Known(m', v) && SelectTried(m', v, rand) == SelectTried(m, v, rand)
  {
    InspectIgnores(m, m', NO_CHOICE.(bucket := v), rand, 0);
  }

  lemma GoodStep(k: Buckets, s: Table, id: nat, nTime: int, nRnd: nat, rand: nat -> nat)
    requires Inv(k, s) && id in s.mapInfo && nTime > 0 && nRnd < NEW_BUCKET_COUNT
    ensures var t := SetInfo(s, id, Stamped(s.mapInfo[id], nTime));
            && Inv(k, t)
            && (t.mapInfo[id].fInTried ==> MarkGood(k, s, id, nTime, nRnd, rand) == t)
            && (!t.mapInfo[id].fInTried ==>
                  var origin := FindBucket(t.vvNew, id, nRnd, 0);
                  && origin.Some? && Promotable(t, id, origin.value)
                  && MarkGood(k, s, id, nTime, nRnd, rand) == MakeTried(k, t, id, origin.value, rand))
  {
    hide Inv, FindBucket, Promotable, MakeTried;
    StampedKeeps(k, s, id, nTime, nRnd);
  }

  /** The new buckets without an id in the first b of them, and the entry that counts the rest. */
  function Removed(v: seq<set<nat>>, id: nat, b: nat): seq<set<nat>>
    requires b <= |v|
  {
    Without(v[..b], id) + v[b..]
  }

  function RemovedInfo(v: seq<set<nat>>, m: map<nat, AddrInfo>, id: nat, b: nat): map<nat, AddrInfo>
    requires b <= |v| && id in m
  {
    m[id := m[id].(nRefCount := m[id].nRefCount - RefCount(v[..b], id))]
  }

  lemma NothingRemoved(v: seq<set<nat>>, m: map<nat, AddrInfo>, id: nat)
    requires id in m
    ensures Removed(v, id, 0) == v && RemovedInfo(v, m, id, 0) == m
  {
    assert m[id := m[id]] == m;
  }

  /** One more bucket without the id. */
  lemma OneMoreRemoved(v: seq<set<nat>>, m: map<nat, AddrInfo>, id: nat, b: nat)
    requires b < |v| && id in m
    ensures var w, c := Removed(v, id, b), RemovedInfo(v, m, id, b);
            && |w| == |v| && id in c && Removed(v, id, b + 1) == w[b := w[b] - {id}]
            && RemovedInfo(v, m, id, b + 1) == c[id := c[id].(nRefCount := c[id].nRefCount - if id in w[b] then 1 else 0)]
  {
    assert v[..b + 1][..b] == v[..b] && v[..b + 1][b] == v[b];
    var w := Removed(v, id, b);
    assert w[b] == v[b] && w[b := v[b] - {id}] == Without(v[..b], id) + [v[b] - {id}] + v[b + 1..];
  }

  lemma AllRemoved(v: seq<set<nat>>, m: map<nat, AddrInfo>, id: nat)
    requires id in m && m[id].nRefCount == RefCount(v, id)
    ensures Removed(v, id, |v|) == Without(v, id) && RemovedInfo(v, m, id, |v|) == m[id := m[id].(nRefCount := 0)]
  {
    assert v[..|v|] == v;
  }

  lemma FrontStays(u: Table, t: Table, n: nat)
    requires SameButRandom(u, t) && RandomOk(t) && n < |t.vRandom| == |u.vRandom| && t.vRandom[..n] == u.vRandom[..n]
    ensures forall i :: 0 <= i < n ==> t.vRandom[i] == u.vRandom[i]
    ensures forall i :: 0 <= i <= n ==> t.vRandom[i] in t.mapInfo
    ensures forall x :: x in u.mapInfo ==> x in t.mapInfo && AddressOf(t.mapInfo[x]) == AddressOf(u.mapInfo[x])
  {
    assert forall i :: 0 <= i < n ==> t.vRandom[..n][i] == u.vRandom[..n][i];
  }

  lemma AddrKnown(k: Buckets, s: Table, ip: NetAddr)
    requires Inv(k, s)
    ensures ip in s.mapAddr ==> s.mapAddr[ip] in s.mapInfo
  {
    hide RandomOk, CountsOk, StatsOk, TriedOk, NewOk;
  }

  lemma CountBounds(k: Buckets, s: Table, id: nat)
    requires Inv(k, s) && id in s.mapInfo
    ensures 0 <= s.mapInfo[id].nRefCount <= NEW_BUCKETS_PER_ADDRESS
  {
    hide IdsOk, RandomOk, CountsOk, StatsOk, NewPlaced;
    assert !s.mapInfo[id].fInTried ==> CountedOk(s, None, id);
  }

  lemma Sizes(k: Buckets, s: Table, p: Option<nat>)
    requires InvP(k, s, p)
    ensures |s.vvNew| == NEW_BUCKET_COUNT && |s.vvTried| == TRIED_BUCKET_COUNT
  {
    hide IdsOk, RandomOk, CountsOk, StatsOk, NewPlaced, NewCounted;
  }

  lemma FreshIn(k: Buckets, s: Table, b: nat)
    requires Inv(k, s) && b < |s.vvNew|
    ensures s.nIdCount !in s.vvNew[b]
  {
    PartsOf(k, s, None);
    hide Inv;
    FreshId(s, b);
  }

  lemma RefreshedLinks(info: AddrInfo, addr: Address, nTimePenalty: int, now: int)
    ensures var r := Refreshed(info, addr, nTimePenalty, now);
            SameLinks(r, info) && r.nRefCount == info.nRefCount && r.fInTried == info.fInTried
  {
  }

  lemma AddKnownIs(k: Buckets, s: Table, id: nat, addr: Address, source: NetAddr, nTimePenalty: int, now: int, coin: nat,
                   terrible: AddrInfo -> bool, rand: nat -> nat)
    requires Inv(k, s) && id in s.mapInfo
    ensures var info := Refreshed(s.mapInfo[id], addr, nTimePenalty, now);
            var t := SetInfo(s, id, info);
            && Inv(k, t)
            && (!WantsMore(info, addr, coin) ==> AddKnown(k, s, id, addr, source, nTimePenalty, now, coin, terrible, rand) == t)
            && (WantsMore(info, addr, coin) ==>
                  && !info.fInTried && info.nRefCount < NEW_BUCKETS_PER_ADDRESS
                  && AddKnown(k, s, id, addr, source, nTimePenalty, now, coin, terrible, rand) ==
                     AddReference(k, t, id, k.New(info.addr, source), terrible, rand))
  {
    CountBounds(k, s, id);
    StatsGood(k, s, id);
    hide InvP, AddReference;
    RefreshedLinks(s.mapInfo[id], addr, nTimePenalty, now);
    SetInfoKeeps(k, s, None, id, Refreshed(s.mapInfo[id], addr, nTimePenalty, now));
  }

  lemma StatsGood(k: Buckets, s: Table, id: nat)
    requires Inv(k, s) && id in s.mapInfo
    ensures GoodStats(s.mapInfo[id])
  {
    hide IdsOk, RandomOk, CountsOk, TriedOk, NewOk;
  }

  lemma ShuffleStart(k: Buckets, s: Table, rand: nat -> nat)
    requires Inv(k, s)
    ensures Shuffle(k, s, rand, 0) == s
  {
    hide InvP;
  }

  lemma GetAddrStep(k: Buckets, isRoutable: NetAddr -> bool, s: Table, rand: nat -> nat)
    requires Inv(k, s)
    ensures Step(k, isRoutable, s, Op.GetAddr(rand)) == Shuffle(k, s, rand, ShareSize(|s.vRandom|))
  {
    hide InvP, Shuffle, ShareSize;
  }

  /** mapUnkIds as the loop over the buckets reads it: operator[] gives 0 for an id the first loop has not seen. */
  ghost predicate Unk(s: Table, ids: map<nat, nat>) {
    forall id :: 0 <= id ==> Position(s, id) == if id in ids then ids[id] else 0
  }

  /** mapUnkIds when the first loop has reached n. */
  ghost predicate UnkBelow(s: Table, ids: map<nat, nat>, n: nat) {
    && (forall id :: id in ids <==> id in s.mapInfo && id < n)
    && (forall id :: id in ids ==> ids[id] == UnkId(s.mapInfo, id) == Position(s, id))
  }

  lemma UnkNone(s: Table)
    ensures UnkBelow(s, map[], 0)
  {
  }

  lemma UnkMore(s: Table, ids: map<nat, nat>, n: nat, nIds: nat)
    requires UnkBelow(s, ids, n) && n in s.mapInfo && nIds == |IdsWhere(s.mapInfo, false, n)| && (0 <= s.nNew ==> nIds < s.nNew)
    ensures UnkBelow(s, ids[n := nIds], n + 1)
  {
    hide IdsWhere;
  }

  lemma UnkSkip(s: Table, ids: map<nat, nat>, n: nat)
    requires UnkBelow(s, ids, n) && n !in s.mapInfo
    ensures UnkBelow(s, ids, n + 1)
  {
    hide UnkId, Position;
  }

  lemma UnkAll(s: Table, ids: map<nat, nat>, n: nat)
    requires UnkBelow(s, ids, n) && n == Top(s.mapInfo.Keys)
    ensures Unk(s, ids)
  {
    hide UnkId;
    assert IsTop(s.mapInfo.Keys, n);
  }

  lemma UnkCut(s: Table, ids: map<nat, nat>, n: nat)
    requires UnkBelow(s, ids, n) && s.nNew == |IdsWhere(s.mapInfo, false, n)|
    ensures Unk(s, ids)
  {
    forall id | 0 <= id && id !in ids
      ensures Position(s, id) == 0
    {
      if id in s.mapInfo {
        WhereGrows(s.mapInfo, false, n, id);
      }
    }
  }

  lemma WhereStarts(m: map<nat, AddrInfo>, tried: bool)
    ensures IdsWhere(m, tried, 0) == [] && StripAll(m, []) == []
  {
  }

  lemma WhereStep(m: map<nat, AddrInfo>, tried: bool, n: nat)
    requires n in m
    ensures Known(m, IdsWhere(m, tried, n)) && Known(m, IdsWhere(m, tried, n + 1))
    ensures var more := if tried then m[n].fInTried else m[n].nRefCount != 0;
            && |IdsWhere(m, tried, n + 1)| == |IdsWhere(m, tried, n)| + (if more then 1 else 0)
            && StripAll(m, IdsWhere(m, tried, n + 1)) == StripAll(m, IdsWhere(m, tried, n)) + if more then [Strip(m[n])] else []
  {
  }

  lemma WhereSkip(m: map<nat, AddrInfo>, tried: bool, n: nat)
    requires n !in m
    ensures IdsWhere(m, tried, n + 1) == IdsWhere(m, tried, n)
  {
  }

  lemma {:induction false} WhereGrows(m: map<nat, AddrInfo>, tried: bool, i: nat, n: nat)
    requires i <= n
    ensures IdsWhere(m, tried, i) <= IdsWhere(m, tried, n)
  {
    if i < n {
      WhereGrows(m, tried, i, n - 1);
    }
  }

  /** A loop that leaves early has written the first entries. */
  lemma CutAt(s: Table, tried: bool, it: nat, n: int)
    requires it <= Top(s.mapInfo.Keys) && n == |IdsWhere(s.mapInfo, tried, it)|
    ensures Cut(Where(s, tried), n) == IdsWhere(s.mapInfo, tried, it)
  {
    WhereGrows(s.mapInfo, tried, it, Top(s.mapInfo.Keys));
  }

  lemma CutNot(s: Table, tried: bool, n: int)
    requires 0 <= n ==> |IdsWhere(s.mapInfo, tried, Top(s.mapInfo.Keys))| <= n
    ensures Cut(Where(s, tried), n) == IdsWhere(s.mapInfo, tried, Top(s.mapInfo.Keys))
  {
  }

  lemma SaveIs(s: Table)
    ensures Save(s) == Saved(s.nNew, s.nTried, NEW_BUCKET_COUNT, StripAll(s.mapInfo, Cut(Where(s, false), s.nNew)),
                             StripAll(s.mapInfo, Cut(Where(s, true), s.nTried)), ListedAll(s, s.vvNew))
  {
  }

  lemma CountsAreSizes(s: Table)
    ensures CountsOk(s) <==> |TriedIds(s)| == s.nTried && |NewCounts(s)| == s.nNew
  {
    assert NewCounts(s).Keys == NewIds(s);
  }

  lemma {:induction false} LostFor(ids: set<nat>, v: seq<nat>, i: nat)
    requires i <= |v| && CrossOff(ids, v[..i]).None?
    ensures CrossOff(ids, v).None?
    decreases |v| - i
  {
    if i < |v| {
      assert v[..i + 1][..i] == v[..i];
      LostFor(ids, v, i + 1);
    } else {
      assert v[..i] == v;
    }
  }

  lemma {:induction false} LostForAll(ids: set<nat>, vs: seq<seq<nat>>, b: nat)
    requires b <= |vs| && CrossOffAll(ids, vs[..b]).None?
    ensures CrossOffAll(ids, vs).None?
    decreases |vs| - b
  {
    if b < |vs| {
      assert vs[..b + 1][..b] == vs[..b];
      LostForAll(ids, vs, b + 1);
    } else {
      assert vs[..b] == vs;
    }
  }

  lemma {:induction false} MissingForAll(m: map<nat, int>, vs: seq<set<nat>>, b: nat)
    requires b <= |vs| && CountDownAll(m, vs[..b]).None?
    ensures CountDownAll(m, vs).None?
    decreases |vs| - b
  {
    if b < |vs| {
      assert vs[..b + 1][..b] == vs[..b];
      MissingForAll(m, vs, b + 1);
    } else {
      assert vs[..b] == vs;
    }
  }
}
