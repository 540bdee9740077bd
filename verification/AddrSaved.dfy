/** The saved form of the address tables, as IMPLEMENT_SERIALIZE of CAddrMan writes and reads it (src/addrman.h). */
module AddrSaved {
  import opened AddrTable
  import opened AddrTried

  /** The fields of a CAddrInfo that are written; the others are memory only. */
  datatype SavedInfo = SavedInfo(addr: Service, nServices: set<nat>, nTime: int, source: NetAddr, nLastSuccess: int, nAttempts: int)

  /** The file after nKey. A bucket is the list of positions of its entries among the new ones. */
  datatype Saved = Saved(nNew: int, nTried: int, nUBuckets: nat, newInfos: seq<SavedInfo>, triedInfos: seq<SavedInfo>,
                         buckets: seq<seq<nat>>)

  function Strip(info: AddrInfo): SavedInfo {
    SavedInfo(info.addr, info.nServices, info.nTime, info.source, info.nLastSuccess, info.nAttempts)
  }

  /** A CAddrInfo as it is after reading: Init and then the saved fields. */
  function Restore(i: SavedInfo, nRandomPos: int, fInTried: bool): AddrInfo {
    AddrInfo(i.addr, i.nServices, i.nTime, 0, i.source, i.nLastSuccess, i.nAttempts, 0, fInTried, nRandomPos)
  }

  // ------------------------------------------------------------------ writing

  /** Which entries the first and the second loop write. */
  predicate Selected(info: AddrInfo, tried: bool) {
    if tried then info.fInTried else info.nRefCount != 0
  }

  /** The ids below n that a loop writes, in the order of std::map. */
  function IdsWhere(m: map<nat, AddrInfo>, tried: bool, n: nat): (ids: seq<nat>)
    ensures Known(m, ids)
  {
    if n == 0 then []
    else if n - 1 in m && Selected(m[n - 1], tried) then IdsWhere(m, tried, n - 1) + [n - 1]
    else IdsWhere(m, tried, n - 1)
  }

  lemma {:induction false} IdsWhereAll(m: map<nat, AddrInfo>, tried: bool, n: nat)
    ensures var ids := IdsWhere(m, tried, n);
            && (forall i :: 0 <= i < |ids| ==> ids[i] < n && Selected(m[ids[i]], tried))
            && (forall i, j :: 0 <= i < j < |ids| ==> ids[i] < ids[j])
            && (forall id :: id in m && id < n && Selected(m[id], tried) ==> id in ids)
  {
    if n > 0 {
      IdsWhereAll(m, tried, n - 1);
    }
  }

  /** Just above the greatest id. */
  predicate IsTop(ids: set<nat>, n: nat) {
    (forall id :: id in ids ==> id < n) && (n == 0 || n - 1 in ids)
  }

  ghost function Top(ids: set<nat>): (n: nat)
    ensures IsTop(ids, n)
  {
    if ids == {} then 0
    else
      var id :| id in ids;
      var n := Top(ids - {id});
      assert forall x :: x in ids ==> x == id || x in ids - {id};
      if id < n then n else id + 1
  }

  /** Everything a loop would write, if it went through the whole table. */
  ghost function Where(s: Table, tried: bool): (ids: seq<nat>)
    ensures Known(s.mapInfo, ids)
  {
    IdsWhere(s.mapInfo, tried, Top(s.mapInfo.Keys))
  }

  /** What it does write: it leaves when it has written as many as the table claims to have. */
  function Cut(ids: seq<nat>, n: int): (r: seq<nat>)
    ensures r <= ids
  {
    if 0 <= n < |ids| then ids[..n] else ids
  }

  /** The position of an entry among the new ones before it. */
  function UnkId(m: map<nat, AddrInfo>, id: nat): nat {
    |IdsWhere(m, false, id)|
  }

  /** mapUnkIds[id]: the position, if the first loop has come as far as that id, and 0 for any other number. */
  function Position(s: Table, id: nat): nat {
    if id in s.mapInfo && !(0 <= s.nNew <= UnkId(s.mapInfo, id)) then UnkId(s.mapInfo, id) else 0
  }

  lemma {:induction false} UnkIdIsPosition(m: map<nat, AddrInfo>, tried: bool, id: nat, n: nat)
    requires id in m && id < n && Selected(m[id], tried)
    ensures var ids := IdsWhere(m, tried, n); var p := |IdsWhere(m, tried, id)|; p < |ids| && ids[p] == id
  {
    if id < n - 1 {
      UnkIdIsPosition(m, tried, id, n - 1);
    }
  }

  function StripAll(m: map<nat, AddrInfo>, ids: seq<nat>): (infos: seq<SavedInfo>)
    requires Known(m, ids)
    ensures |infos| == |ids| && forall i :: 0 <= i < |ids| ==> infos[i] == Strip(m[ids[i]])
  {
    if ids == [] then [] else StripAll(m, ids[..|ids| - 1]) + [Strip(m[ids[|ids| - 1]])]
  }

  /** The positions written for a bucket, its ids taken in the order of std::set. */
  function Listed(s: Table, v: set<nat>, n: nat): seq<nat> {
    if n == 0 then []
    else Listed(s, v, n - 1) + if n - 1 in v then [Position(s, n - 1)] else []
  }

  ghost function ListedAll(s: Table, v: seq<set<nat>>): (lists: seq<seq<nat>>)
    ensures |lists| == |v| && forall b :: 0 <= b < |v| ==> lists[b] == Listed(s, v[b], Top(v[b]))
  {
    if v == [] then [] else ListedAll(s, v[..|v| - 1]) + [Listed(s, v[|v| - 1], Top(v[|v| - 1]))]
  }

  ghost function Save(s: Table): Saved {
    Saved(s.nNew, s.nTried, NEW_BUCKET_COUNT, StripAll(s.mapInfo, Cut(Where(s, false), s.nNew)),
          StripAll(s.mapInfo, Cut(Where(s, true), s.nTried)), ListedAll(s, s.vvNew))
  }

  // ------------------------------------------------------------------ reading

  /** A file that holds as many entries and buckets as it says. The reader takes a reference to each bucket, so there
      are not more than it has. */
  predicate Loadable(f: Saved) {
    f.nNew == |f.newInfos| && f.nTried == |f.triedInfos| && |f.buckets| == f.nUBuckets <= NEW_BUCKET_COUNT
  }

  predicate NoneDangling(f: Saved) {
    forall b, i :: 0 <= b < |f.buckets| && 0 <= i < |f.buckets[b]| ==> f.buckets[b][i] < |f.newInfos|
  }

  /** The current number of buckets, and no dangling position. */
  predicate Complete(f: Saved) {
    Loadable(f) && Usual(f) && NoneDangling(f)
  }

  predicate Usual(f: Saved) {
    f.nUBuckets == NEW_BUCKET_COUNT
  }

  /** Reading one more new entry. With another number of buckets it goes into the bucket of its own source at once. */
  function LoadOneNew(k: Buckets, t: Table, i: SavedInfo, n: nat, usual: bool): Table
    requires |t.vvNew| == NEW_BUCKET_COUNT
  {
    var u := t.(mapInfo := t.mapInfo[n := Restore(i, |t.vRandom|, false)], mapAddr := t.mapAddr[i.addr.ip := n], vRandom := t.vRandom + [n]);
    if usual then u
    else
      var b := k.New(i.addr, i.source);
      u.(mapInfo := u.mapInfo[n := u.mapInfo[n].(nRefCount := 1)], vvNew := u.vvNew[b := u.vvNew[b] + {n}])
  }

  /** The tables after the first n new entries have been read. */
  function LoadNew(k: Buckets, f: Saved, n: nat): (t: Table)
    requires n <= |f.newInfos|
    ensures |t.vvTried| == TRIED_BUCKET_COUNT && |t.vvNew| == NEW_BUCKET_COUNT
  {
    if n == 0 then
      Table(0, map[], map[], [], f.nTried, seq(TRIED_BUCKET_COUNT, _ => []), f.nNew, seq(NEW_BUCKET_COUNT, _ => {}))
    else LoadOneNew(k, LoadNew(k, f, n - 1), f.newInfos[n - 1], n - 1, Usual(f))
  }

  /** One round of the second loop: the entry is kept if its tried bucket has room, else it is lost. */
  function LoadOne(k: Buckets, t: Table, i: SavedInfo): Table
    requires |t.vvTried| == TRIED_BUCKET_COUNT
  {
    var b := k.Tried(i.addr);
    if |t.vvTried[b]| < TRIED_BUCKET_SIZE then
      t.(mapInfo := t.mapInfo[t.nIdCount := Restore(i, |t.vRandom|, true)], mapAddr := t.mapAddr[i.addr.ip := t.nIdCount],
         vRandom := t.vRandom + [t.nIdCount], vvTried := t.vvTried[b := t.vvTried[b] + [t.nIdCount]], nIdCount := t.nIdCount + 1)
    else t.(nTried := t.nTried - 1)
  }

  function LoadTried(k: Buckets, f: Saved, n: nat): (t: Table)
    requires n <= |f.triedInfos|
    ensures |t.vvTried| == TRIED_BUCKET_COUNT && |t.vvNew| == NEW_BUCKET_COUNT
    ensures forall i :: 0 <= i < |f.newInfos| ==> i in t.mapInfo
  {
    if n == 0 then
      LoadNewShape(k, f, |f.newInfos|);
      LoadNew(k, f, |f.newInfos|).(nIdCount := |f.newInfos|)
    else LoadOne(k, LoadTried(k, f, n - 1), f.triedInfos[n - 1])
  }

  lemma {:induction false} LoadNewShape(k: Buckets, f: Saved, n: nat)
    requires n <= |f.newInfos|
    ensures Shaped(LoadNew(k, f, n), n, Usual(f))
  {
    if n > 0 {
      LoadNewShape(k, f, n - 1);
      OneNewShape(k, LoadNew(k, f, n - 1), f.newInfos[n - 1], n - 1, Usual(f));
    }
  }

  predicate Shaped(t: Table, n: nat, usual: bool) {
    && (forall i :: 0 <= i < n ==> i in t.mapInfo) && (forall b :: 0 <= b < |t.vvTried| ==> t.vvTried[b] == [])
    && (usual ==> forall b :: 0 <= b < |t.vvNew| ==> t.vvNew[b] == {})
  }

  lemma OneNewShape(k: Buckets, t: Table, i: SavedInfo, n: nat, usual: bool)
    requires |t.vvNew| == NEW_BUCKET_COUNT && Shaped(t, n, usual)
    ensures Shaped(LoadOneNew(k, t, i, n, usual), n + 1, usual)
  {
  }

  /** A default CAddrInfo: what operator[] enters for an unknown id. */
  const BLANK := AddrInfo(Service(0, 0), {0}, 100_000_000, 0, 0, 0, 0, 0, false, -1)

  function EntryOf(m: map<nat, AddrInfo>, id: nat): AddrInfo {
    if id in m then m[id] else BLANK
  }

  /** The tables after the first n positions of bucket b have been read. */
  function LoadBucket(t: Table, b: nat, list: seq<nat>, n: nat, usual: bool): (u: Table)
    requires b < |t.vvNew| && n <= |list|
    ensures u == t.(mapInfo := u.mapInfo, vvNew := u.vvNew) && |u.vvNew| == |t.vvNew|
  {
    if n == 0 then t
    else
      var u, nIndex := LoadBucket(t, b, list, n - 1, usual), list[n - 1];
      var info := EntryOf(u.mapInfo, nIndex);
      if usual && info.nRefCount < NEW_BUCKETS_PER_ADDRESS then
        u.(mapInfo := u.mapInfo[nIndex := info.(nRefCount := info.nRefCount + 1)], vvNew := u.vvNew[b := u.vvNew[b] + {nIndex}])
      else u.(mapInfo := u.mapInfo[nIndex := info])
  }

  function LoadBuckets(t: Table, lists: seq<seq<nat>>, n: nat, usual: bool): (u: Table)
    requires n <= |lists| <= |t.vvNew|
    ensures u == t.(mapInfo := u.mapInfo, vvNew := u.vvNew) && |u.vvNew| == |t.vvNew|
  {
    if n == 0 then t
    else LoadBucket(LoadBuckets(t, lists, n - 1, usual), n - 1, lists[n - 1], |lists[n - 1]|, usual)
  }

  function Load(k: Buckets, f: Saved): Table
    requires Loadable(f)
  {
    LoadBuckets(LoadTried(k, f, |f.triedInfos|), f.buckets, |f.buckets|, Usual(f))
  }
}
