/** The five indexes of the address manager as one value, the invariant they share, and the steps that keep it
    (src/addrman.h, src/addrman.cpp). */
module AddrTable {
  import opened Wrappers

  const TRIED_BUCKET_COUNT: nat := 64
  const TRIED_BUCKET_SIZE: nat := 64
  const NEW_BUCKET_COUNT: nat := 256
  const NEW_BUCKET_SIZE: nat := 64
  const NEW_BUCKETS_PER_ADDRESS: nat := 4
  const TRIED_ENTRIES_INSPECT_ON_EVICT: nat := 4

  /** A CNetAddr, compared by its bytes only. */
  newtype NetAddr = x: int | 0 <= x

  datatype Service = Service(ip: NetAddr, port: nat)

  /** CAddrInfo: an address with its statistics and its place in the indexes; nServices is the set of service bits. */
  datatype AddrInfo = AddrInfo(addr: Service, nServices: set<nat>, nTime: int, nLastTry: int, source: NetAddr,
                               nLastSuccess: int, nAttempts: int, nRefCount: int, fInTried: bool, nRandomPos: int)

  /** The fields of CAddrMan. mapInfo is the table; every other field can be computed from it and the buckets. */
  datatype Table = Table(nIdCount: nat, mapInfo: map<nat, AddrInfo>, mapAddr: map<NetAddr, nat>, vRandom: seq<nat>,
                         nTried: int, vvTried: seq<seq<nat>>, nNew: int, vvNew: seq<set<nat>>)

  /** The bucket hashes, keyed by nKey. */
  datatype Buckets = Buckets(triedHash: Service -> nat, newHash: (Service, NetAddr) -> nat) {
    function Tried(a: Service): (b: nat)
      ensures b < TRIED_BUCKET_COUNT
    {
      triedHash(a) % TRIED_BUCKET_COUNT
    }

    function New(a: Service, source: NetAddr): (b: nat)
      ensures b < NEW_BUCKET_COUNT
    {
      newHash(a, source) % NEW_BUCKET_COUNT
    }
  }

  /** In how many buckets the id is. */
  function RefCount(v: seq<set<nat>>, id: nat): nat {
    if v == [] then 0 else RefCount(v[..|v| - 1], id) + if id in v[|v| - 1] then 1 else 0
  }

  lemma {:induction false} RefCountUpdate(v: seq<set<nat>>, b: nat, s: set<nat>, id: nat)
    requires b < |v|
    ensures RefCount(v[b := s], id) == RefCount(v, id) + (if id in s then 1 else 0) - (if id in v[b] then 1 else 0)
  {
    var n := |v| - 1;
    if b == n {
      assert v[b := s][..n] == v[..n];
    } else {
      RefCountUpdate(v[..n], b, s, id);
      assert v[b := s][..n] == v[..n][b := s];
    }
  }

  lemma {:induction false} RefCountZero(v: seq<set<nat>>, id: nat)
    ensures RefCount(v, id) == 0 <==> forall b :: 0 <= b < |v| ==> id !in v[b]
  {
    if v != [] {
      var n := |v| - 1;
      RefCountZero(v[..n], id);
      assert forall b :: 0 <= b < n ==> v[..n][b] == v[b];
      if forall b :: 0 <= b < |v| ==> id !in v[b] {
        assert id !in v[n];
      }
    }
  }

  /** An id that is in one bucket only is counted once. */
  lemma {:induction false} InOneBucket(v: seq<set<nat>>, id: nat, b: nat, n: nat)
    requires n <= |v| && b < |v| && forall c :: 0 <= c < |v| ==> (id in v[c] <==> c == b)
    ensures RefCount(v[..n], id) == if b < n then 1 else 0
  {
    if n > 0 {
      InOneBucket(v, id, b, n - 1);
      assert v[..n][..n - 1] == v[..n - 1];
    }
  }

  function TriedIds(s: Table): set<nat> {
    set id | id in s.mapInfo && s.mapInfo[id].fInTried
  }

  function NewIds(s: Table): set<nat> {
    set id | id in s.mapInfo && !s.mapInfo[id].fInTried
  }

  // ------------------------------------------------------------------ the invariant

  predicate IdsOk(s: Table) {
    IdsKnown(s) && AddrsKnown(s)
  }

  predicate IdsKnown(s: Table) {
    && (forall id :: id in s.mapInfo ==> id < s.nIdCount)
    && (forall id :: id in s.mapInfo ==> s.mapInfo[id].addr.ip in s.mapAddr && s.mapAddr[s.mapInfo[id].addr.ip] == id)
  }

  predicate AddrsKnown(s: Table) {
    forall a :: a in s.mapAddr ==> s.mapAddr[a] in s.mapInfo && s.mapInfo[s.mapAddr[a]].addr.ip == a
  }

  predicate RandomOk(s: Table) {
    && (forall id :: id in s.mapInfo ==> 0 <= s.mapInfo[id].nRandomPos < |s.vRandom| && s.vRandom[s.mapInfo[id].nRandomPos] == id)
    && (forall i :: 0 <= i < |s.vRandom| ==> s.vRandom[i] in s.mapInfo && s.mapInfo[s.vRandom[i]].nRandomPos == i)
  }

  predicate CountsOk(s: Table) {
    s.nTried == |TriedIds(s)| && s.nNew == |NewIds(s)|
  }

  predicate StatsOk(s: Table) {
    forall id :: id in s.mapInfo ==>
      && s.mapInfo[id].nLastTry >= 0 && s.mapInfo[id].nLastSuccess >= 0
      && (s.mapInfo[id].fInTried ==> s.mapInfo[id].nLastSuccess != 0)
  }

  function Elements(v: seq<nat>): (s: set<nat>)
    ensures forall x :: x in s <==> x in v
  {
    set x | x in v
  }

  predicate NoRepeats(v: seq<nat>) {
    forall i, j :: 0 <= i < j < |v| ==> v[i] != v[j]
  }

  predicate TriedOk(k: Buckets, s: Table) {
    && |s.vvTried| == TRIED_BUCKET_COUNT
    && (forall b :: 0 <= b < |s.vvTried| ==> |s.vvTried[b]| <= TRIED_BUCKET_SIZE && NoRepeats(s.vvTried[b]))
    && (forall b, i :: 0 <= b < |s.vvTried| && 0 <= i < |s.vvTried[b]| ==>
          && s.vvTried[b][i] in s.mapInfo
          && s.mapInfo[s.vvTried[b][i]].fInTried && k.Tried(s.mapInfo[s.vvTried[b][i]].addr) == b)
    && (forall id :: id in s.mapInfo && s.mapInfo[id].fInTried ==>
          s.mapInfo[id].nRefCount == 0 && id in s.vvTried[k.Tried(s.mapInfo[id].addr)])
  }

  /** The new buckets and reference counts agree. While Add_ works on an id, that id's count is one ahead. */
  predicate NewOk(s: Table, pending: Option<nat>) {
    && |s.vvNew| == NEW_BUCKET_COUNT && NewSized(s) && NewPlaced(s) && NewCounted(s, pending)
    && (pending.Some? ==> pending.value in s.mapInfo && !s.mapInfo[pending.value].fInTried)
  }

  predicate NewSized(s: Table) {
    forall b :: 0 <= b < |s.vvNew| ==> |s.vvNew[b]| <= NEW_BUCKET_SIZE
  }

  predicate NewPlaced(s: Table) {
    forall b, id :: 0 <= b < |s.vvNew| && id in s.vvNew[b] ==> id in s.mapInfo && !s.mapInfo[id].fInTried
  }

  predicate NewCounted(s: Table, pending: Option<nat>) {
    forall id :: id in s.mapInfo && !s.mapInfo[id].fInTried ==> CountedOk(s, pending, id)
  }

  predicate CountedOk(s: Table, pending: Option<nat>, id: nat)
    requires id in s.mapInfo
  {
    && 1 <= s.mapInfo[id].nRefCount <= NEW_BUCKETS_PER_ADDRESS
    && s.mapInfo[id].nRefCount == RefCount(s.vvNew, id) + if pending == Some(id) then 1 else 0
  }

  /** The state between two operations (pending None), or inside Add_ (pending the id being added). */
  predicate InvP(k: Buckets, s: Table, pending: Option<nat>) {
    IdsOk(s) && RandomOk(s) && CountsOk(s) && StatsOk(s) && TriedOk(k, s) && NewOk(s, pending)
  }

  predicate Inv(k: Buckets, s: Table) {
    InvP(k, s, None)
  }

  /** What Check_ counts first: vRandom lists every id exactly once. */
  lemma RandomIsEveryId(s: Table)
    requires RandomOk(s) && CountsOk(s)
    ensures |s.vRandom| == |s.mapInfo| == s.nTried + s.nNew
  {
    var ids := set i | 0 <= i < |s.vRandom| :: s.vRandom[i];
    assert ids == s.mapInfo.Keys by {
      forall id | id in s.mapInfo
        ensures id in ids
      {
        assert s.vRandom[s.mapInfo[id].nRandomPos] == id;
      }
    }
    DistinctCount(s.vRandom);
    assert s.mapInfo.Keys == TriedIds(s) + NewIds(s);
    assert |TriedIds(s) + NewIds(s)| == |TriedIds(s)| + |NewIds(s)|;
  }

  lemma {:induction false} DistinctCount(v: seq<nat>)
    requires NoRepeats(v)
    ensures |set i | 0 <= i < |v| :: v[i]| == |v|
  {
    var all := set i | 0 <= i < |v| :: v[i];
    if v == [] {
      assert all == {};
    } else {
      var n := |v| - 1;
      DistinctCount(v[..n]);
      var front := set i | 0 <= i < n :: v[..n][i];
      assert all == front + {v[n]} by {
        assert forall i :: 0 <= i < n ==> v[..n][i] == v[i] && v[i] in front;
      }
      assert v[n] !in front;
    }
  }
}
