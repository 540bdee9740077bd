/** Moving an entry to the tried tables, and choosing the one it replaces (src/addrman.cpp). */
module AddrTried {
  import opened Wrappers
  import opened AddrTable
  import opened AddrSteps

  // ------------------------------------------------------------------ SelectTried

  /** The bucket after the shuffle; the returned slot; the oldest entry seen and the slot the shuffle left it in. */
  datatype Choice = Choice(bucket: seq<nat>, pos: int, oldest: Option<nat>, slot: nat)

  predicate Known(m: map<nat, AddrInfo>, v: seq<nat>) {
    forall i :: 0 <= i < |v| ==> v[i] in m
  }

  lemma KnownStays(t: Table, u: Table, list: seq<nat>)
    requires Known(t.mapInfo, list) && u.mapInfo.Keys == t.mapInfo.Keys
    ensures Known(u.mapInfo, list)
  {
  }

  function Swapped(v: seq<nat>, i: nat, j: nat): seq<nat>
    requires i < |v| && j < |v|
  {
    v[j := v[i]][i := v[j]]
  }

  function Pick(rand: nat -> nat, n: nat, i: nat): (j: nat)
    requires i < n
    ensures i <= j < n
  {
    rand(i) % (n - i) + i
  }

  /** The rest of the loop of SelectTried from round i on; rand(i) is what GetRandInt draws in round i. */
  function Inspect(m: map<nat, AddrInfo>, c: Choice, rand: nat -> nat, i: nat): Choice
    requires Known(m, c.bucket) && i <= |c.bucket| && (c.oldest.Some? ==> c.oldest.value in m)
    decreases |c.bucket| - i
  {
    if i >= TRIED_ENTRIES_INSPECT_ON_EVICT || i == |c.bucket| then c
    else Inspect(m, InspectOne(m, c, rand, i), rand, i + 1)
  }

  function InspectOne(m: map<nat, AddrInfo>, c: Choice, rand: nat -> nat, i: nat): Choice
    requires Known(m, c.bucket) && i < |c.bucket| && (c.oldest.Some? ==> c.oldest.value in m)
  {
    var nPos := Pick(rand, |c.bucket|, i);
    var nTemp := c.bucket[nPos];
    var v := Swapped(c.bucket, i, nPos);
    if c.oldest.None? || m[nTemp].nLastSuccess < m[c.oldest.value].nLastSuccess then Choice(v, nPos, Some(nTemp), i)
    else c.(bucket := v)
  }

  const NO_CHOICE := Choice([], -1, None, 0)

  function SelectTried(m: map<nat, AddrInfo>, v: seq<nat>, rand: nat -> nat): Choice
    requires Known(m, v)
  {
    Inspect(m, NO_CHOICE.(bucket := v), rand, 0)
  }

  predicate Permuted(v: seq<nat>, w: seq<nat>) {
    |v| == |w| && multiset(v) == multiset(w) && (NoRepeats(v) ==> NoRepeats(w))
  }

  lemma SwappedPermutes(v: seq<nat>, i: nat, j: nat)
    requires i < |v| && j < |v|
    ensures Permuted(v, Swapped(v, i, j))
  {
  }

  /** After i rounds: the oldest entry seen is the least recently successful of the first i slots, and lies in one. */
  predicate Tracked(m: map<nat, AddrInfo>, c: Choice, i: nat) {
    && i <= |c.bucket| && Known(m, c.bucket)
    && (i == 0 <==> c.oldest.None?)
    && (i > 0 ==> 0 <= c.pos < |c.bucket| && c.slot < i && c.oldest == Some(c.bucket[c.slot]) && IsOldest(m, c, i))
  }

  predicate IsOldest(m: map<nat, AddrInfo>, c: Choice, i: nat)
    requires c.slot < i <= |c.bucket| && Known(m, c.bucket)
  {
    forall j :: 0 <= j < i ==> m[c.bucket[c.slot]].nLastSuccess <= m[c.bucket[j]].nLastSuccess
  }

  lemma {:induction false} InspectOk(m: map<nat, AddrInfo>, c: Choice, rand: nat -> nat, i: nat)
    requires Tracked(m, c, i) && i <= TRIED_ENTRIES_INSPECT_ON_EVICT
    ensures var d := Inspect(m, c, rand, i);
            && Permuted(c.bucket, d.bucket) && |d.bucket| == |c.bucket|
            && Tracked(m, d, if |c.bucket| < TRIED_ENTRIES_INSPECT_ON_EVICT then |c.bucket| else TRIED_ENTRIES_INSPECT_ON_EVICT)
    decreases |c.bucket| - i
  {
    hide Permuted, IsOldest, InspectOne;
    if i < TRIED_ENTRIES_INSPECT_ON_EVICT && i < |c.bucket| {
      InspectOneOk(m, c, rand, i);
      var d := InspectOne(m, c, rand, i);
      InspectOk(m, d, rand, i + 1);
      PermutedTransitive(c.bucket, d.bucket, Inspect(m, d, rand, i + 1).bucket);
    } else {
      PermutedReflexive(c.bucket);
    }
  }

  lemma PermutedReflexive(v: seq<nat>)
    ensures Permuted(v, v)
  {
  }

  lemma PermutedTransitive(u: seq<nat>, v: seq<nat>, w: seq<nat>)
    requires Permuted(u, v) && Permuted(v, w)
    ensures Permuted(u, w)
  {
  }

  lemma InspectOneOk(m: map<nat, AddrInfo>, c: Choice, rand: nat -> nat, i: nat)
    requires Tracked(m, c, i) && i < |c.bucket|
    ensures var d := InspectOne(m, c, rand, i);
            Permuted(c.bucket, d.bucket) && |d.bucket| == |c.bucket| && Tracked(m, d, i + 1)
  {
    hide Permuted;
    var d, nPos := InspectOne(m, c, rand, i), Pick(rand, |c.bucket|, i);
    SwappedPermutes(c.bucket, i, nPos);
    assert forall j :: 0 <= j < i ==> d.bucket[j] == c.bucket[j];
    assert d.bucket[i] == c.bucket[nPos];
    hide Swapped, Pick;
  }

  /** SelectTried only reorders the bucket and returns one of its slots; no entry it looked at is older than the oldest. */
  lemma SelectTriedIsSlot(m: map<nat, AddrInfo>, v: seq<nat>, rand: nat -> nat)
    requires Known(m, v) && NoRepeats(v) && v != []
    ensures var c := SelectTried(m, v, rand);
            && Permuted(v, c.bucket) && 0 <= c.pos < |v| && c.oldest.Some?
            && (forall j :: 0 <= j < TRIED_ENTRIES_INSPECT_ON_EVICT && j < |v| && c.oldest.value in m && c.bucket[j] in m ==>
                  m[c.oldest.value].nLastSuccess <= m[c.bucket[j]].nLastSuccess)
  {
    InspectOk(m, NO_CHOICE.(bucket := v), rand, 0);
  }

  // ------------------------------------------------------------------ reordering a tried bucket

  function Reorder(s: Table, b: nat, v: seq<nat>): Table
    requires b < |s.vvTried|
  {
    s.(vvTried := s.vvTried[b := v])
  }

  lemma ReorderTried(k: Buckets, s: Table, b: nat, v: seq<nat>)
    requires TriedOk(k, s) && b < |s.vvTried| && Permuted(s.vvTried[b], v)
    ensures TriedOk(k, Reorder(s, b, v))
  {
    var t := Reorder(s, b, v);
    forall x: nat
      ensures x in v <==> x in s.vvTried[b]
    {
      assert (x in multiset(v)) == (x in v) && (x in multiset(s.vvTried[b])) == (x in s.vvTried[b]);
    }
    forall i | 0 <= i < |v|
      ensures v[i] in s.mapInfo && s.mapInfo[v[i]].fInTried && k.Tried(s.mapInfo[v[i]].addr) == b
    {
      assert v[i] in s.vvTried[b];
    }
  }

  lemma ReorderKeeps(k: Buckets, s: Table, p: Option<nat>, b: nat, v: seq<nat>)
    requires InvP(k, s, p) && b < |s.vvTried| && Permuted(s.vvTried[b], v)
    ensures InvP(k, Reorder(s, b, v), p)
  {
    hide IdsOk, RandomOk, CountsOk, StatsOk, TriedOk, NewOk, Permuted;
    var t := Reorder(s, b, v);
    IdsFrame(s, t);
    RandomFrame(s, t);
    CountsFrame(s, t);
    StatsFrame(s, t);
    ReorderTried(k, s, b, v);
    NewFrame(s, t, p);
  }

  // ------------------------------------------------------------------ MakeTried

  /** The new buckets once an id has been taken out of all of them. */
  function Without(v: seq<set<nat>>, id: nat): (w: seq<set<nat>>)
    ensures |w| == |v|
  {
    if v == [] then [] else Without(v[..|v| - 1], id) + [v[|v| - 1] - {id}]
  }

  lemma {:induction false} WithoutAt(v: seq<set<nat>>, id: nat, b: nat)
    requires b < |v|
    ensures Without(v, id)[b] == v[b] - {id}
  {
    if b < |v| - 1 {
      WithoutAt(v[..|v| - 1], id, b);
    }
  }

  lemma {:induction false} WithoutCount(v: seq<set<nat>>, id: nat, x: nat)
    ensures RefCount(Without(v, id), x) == if x == id then 0 else RefCount(v, x)
  {
    if v != [] {
      var n := |v| - 1;
      WithoutCount(v[..n], id, x);
      assert Without(v, id)[..n] == Without(v[..n], id);
    }
  }

  /** MakeTried when the tried bucket has room. */
  function Promote(k: Buckets, s: Table, id: nat): Table
    requires id in s.mapInfo && |s.vvTried| == TRIED_BUCKET_COUNT
  {
    var b := k.Tried(s.mapInfo[id].addr);
    s.(vvNew := Without(s.vvNew, id), nNew := s.nNew - 1,
       vvTried := s.vvTried[b := s.vvTried[b] + [id]], nTried := s.nTried + 1,
       mapInfo := s.mapInfo[id := s.mapInfo[id].(nRefCount := 0, fInTried := true)])
  }

  function Put(v: seq<nat>, pos: nat, id: nat): seq<nat>
    requires pos < |v|
  {
    v[pos := id]
  }

  /** The new bucket the replaced entry goes to: its own if there is room, else one that the promoted id leaves. */
  function EvictTo(k: Buckets, s: Table, id: nat, gone: nat, origin: nat): nat
    requires gone in s.mapInfo && |s.vvNew| == NEW_BUCKET_COUNT
  {
    var own := k.New(s.mapInfo[gone].addr, s.mapInfo[gone].source);
    if |Without(s.vvNew, id)[own]| < NEW_BUCKET_SIZE then own else origin
  }

  /** MakeTried when the tried bucket is full and slot pos of it is to be replaced. */
  function Exchange(k: Buckets, s: Table, id: nat, origin: nat, pos: nat): Table
    requires id in s.mapInfo && |s.vvTried| == TRIED_BUCKET_COUNT && |s.vvNew| == NEW_BUCKET_COUNT && origin < |s.vvNew|
    requires pos < |s.vvTried[k.Tried(s.mapInfo[id].addr)]| && s.vvTried[k.Tried(s.mapInfo[id].addr)][pos] in s.mapInfo
  {
    var b := k.Tried(s.mapInfo[id].addr);
    var gone := s.vvTried[b][pos];
    var to := EvictTo(k, s, id, gone, origin);
    var v := Without(s.vvNew, id);
    s.(vvNew := v[to := v[to] + {gone}],
       vvTried := s.vvTried[b := Put(s.vvTried[b], pos, id)],
       mapInfo := s.mapInfo[id := s.mapInfo[id].(nRefCount := 0, fInTried := true)]
                  [gone := s.mapInfo[gone].(nRefCount := 1, fInTried := false)])
  }

  /** An id that MakeTried may be called for. */
  predicate Promotable(s: Table, id: nat, origin: nat) {
    id in s.mapInfo && origin < |s.vvNew| && id in s.vvNew[origin] && s.mapInfo[id].nLastSuccess != 0
  }

  lemma PromoteCounts(k: Buckets, s: Table, id: nat)
    requires CountsOk(s) && id in s.mapInfo && !s.mapInfo[id].fInTried && |s.vvTried| == TRIED_BUCKET_COUNT
    ensures CountsOk(Promote(k, s, id))
  {
    var t := Promote(k, s, id);
    assert TriedIds(t) == TriedIds(s) + {id} && NewIds(t) == NewIds(s) - {id};
  }

  lemma PromoteTried(k: Buckets, s: Table, id: nat)
    requires TriedOk(k, s) && id in s.mapInfo && !s.mapInfo[id].fInTried
    requires |s.vvTried[k.Tried(s.mapInfo[id].addr)]| < TRIED_BUCKET_SIZE
    ensures TriedOk(k, Promote(k, s, id))
  {
    var t, b := Promote(k, s, id), k.Tried(s.mapInfo[id].addr);
    hide Without;
    assert id !in s.vvTried[b];
    assert NoRepeats(t.vvTried[b]);
    forall c, i | 0 <= c < |t.vvTried| && 0 <= i < |t.vvTried[c]|
      ensures
        && t.vvTried[c][i] in t.mapInfo
        && t.mapInfo[t.vvTried[c][i]].fInTried && k.Tried(t.mapInfo[t.vvTried[c][i]].addr) == c
    {
      if c != b || i < |s.vvTried[b]| {
        assert t.vvTried[c][i] == s.vvTried[c][i];
      }
    }
  }

  lemma PromoteNew(k: Buckets, s: Table, id: nat)
    requires NewOk(s, None) && id in s.mapInfo && |s.vvTried| == TRIED_BUCKET_COUNT
    ensures NewOk(Promote(k, s, id), None)
  {
    var t := Promote(k, s, id);
    forall b | 0 <= b < |t.vvNew|
      ensures t.vvNew[b] == s.vvNew[b] - {id} && |t.vvNew[b]| <= |s.vvNew[b]|
    {
      WithoutAt(s.vvNew, id, b);
    }
    forall x | x in t.mapInfo && !t.mapInfo[x].fInTried
      ensures CountedOk(t, None, x)
    {
      assert CountedOk(s, None, x);
      WithoutCount(s.vvNew, id, x);
    }
  }

  lemma PromoteKeeps(k: Buckets, s: Table, id: nat, origin: nat)
    requires Inv(k, s) && Promotable(s, id, origin) && |s.vvTried| == TRIED_BUCKET_COUNT
    requires |s.vvTried[k.Tried(s.mapInfo[id].addr)]| < TRIED_BUCKET_SIZE
    ensures Inv(k, Promote(k, s, id))
  {
    hide IdsOk, RandomOk, CountsOk, TriedOk, NewOk, Without;
    NotTried(s, None, origin, id);
    var t := Promote(k, s, id);
    assert SameKeys(s, t);
    IdsFrame(s, t);
    RandomFrame(s, t);
    PromoteCounts(k, s, id);
    PromoteTried(k, s, id);
    PromoteNew(k, s, id);
  }

  /** The facts about the replaced entry that the parts of the proof share. */
  lemma ReplacedEntry(k: Buckets, s: Table, id: nat, origin: nat, pos: nat) returns (b: nat, gone: nat)
    requires TriedOk(k, s) && NewOk(s, None) && Promotable(s, id, origin)
    requires pos < |s.vvTried[k.Tried(s.mapInfo[id].addr)]|
    ensures b == k.Tried(s.mapInfo[id].addr) && gone == s.vvTried[b][pos]
    ensures !s.mapInfo[id].fInTried && gone in s.mapInfo && s.mapInfo[gone].fInTried && gone != id
    ensures k.Tried(s.mapInfo[gone].addr) == b
  {
    NotTried(s, None, origin, id);
    b := k.Tried(s.mapInfo[id].addr);
    gone := s.vvTried[b][pos];
  }

  lemma ExchangeCounts(k: Buckets, s: Table, id: nat, origin: nat, pos: nat, b: nat, gone: nat)
    requires id in s.mapInfo && |s.vvTried| == TRIED_BUCKET_COUNT && |s.vvNew| == NEW_BUCKET_COUNT && origin < |s.vvNew|
    requires b == k.Tried(s.mapInfo[id].addr) && pos < |s.vvTried[b]| && gone == s.vvTried[b][pos]
    requires gone in s.mapInfo && s.mapInfo[gone].fInTried && !s.mapInfo[id].fInTried
    requires CountsOk(s)
    ensures CountsOk(Exchange(k, s, id, origin, pos))
  {
    hide TriedOk, NewOk, Exchange, Without, EvictTo;
    ExchangeInfo(k, s, id, origin, pos, b, gone);
    var t := Exchange(k, s, id, origin, pos);
    assert TriedIds(t) == TriedIds(s) - {gone} + {id} && NewIds(t) == NewIds(s) - {id} + {gone};
  }

  lemma ExchangeInfo(k: Buckets, s: Table, id: nat, origin: nat, pos: nat, b: nat, gone: nat)
    requires id in s.mapInfo && |s.vvTried| == TRIED_BUCKET_COUNT && |s.vvNew| == NEW_BUCKET_COUNT && origin < |s.vvNew|
    requires b == k.Tried(s.mapInfo[id].addr) && pos < |s.vvTried[b]| && gone == s.vvTried[b][pos] && gone in s.mapInfo && gone != id
    ensures var t := Exchange(k, s, id, origin, pos);
            && SameKeys(s, t) && t == s.(mapInfo := t.mapInfo, vvNew := t.vvNew, vvTried := t.vvTried)
            && t.mapInfo[id] == s.mapInfo[id].(nRefCount := 0, fInTried := true)
            && t.mapInfo[gone] == s.mapInfo[gone].(nRefCount := 1, fInTried := false)
            && (forall x :: x in s.mapInfo && x != id && x != gone ==> t.mapInfo[x] == s.mapInfo[x])
            && t.vvTried == s.vvTried[b := Put(s.vvTried[b], pos, id)]
  {
  }

  lemma ExchangeTried(k: Buckets, s: Table, id: nat, origin: nat, pos: nat)
    requires TriedOk(k, s) && NewOk(s, None) && Promotable(s, id, origin)
    requires pos < |s.vvTried[k.Tried(s.mapInfo[id].addr)]|
    ensures TriedOk(k, Exchange(k, s, id, origin, pos))
  {
    var b, gone := ReplacedEntry(k, s, id, origin, pos);
    var t := Exchange(k, s, id, origin, pos);
    hide NewOk, Exchange, Without, EvictTo;
    ExchangeInfo(k, s, id, origin, pos, b, gone);
    assert id !in s.vvTried[b];
    ReplaceDistinct(s.vvTried[b], pos, id);
    hide NoRepeats;
    forall c, i | 0 <= c < |t.vvTried| && 0 <= i < |t.vvTried[c]|
      ensures
        && t.vvTried[c][i] in t.mapInfo
        && t.mapInfo[t.vvTried[c][i]].fInTried && k.Tried(t.mapInfo[t.vvTried[c][i]].addr) == c
    {
      if c != b {
        assert k.Tried(s.mapInfo[s.vvTried[c][i]].addr) == c;
      } else if i != pos {
        assert t.vvTried[c][i] == s.vvTried[c][i];
        assert s.vvTried[b][i] != gone;
      }
    }
    forall x | x in t.mapInfo && t.mapInfo[x].fInTried
      ensures t.mapInfo[x].nRefCount == 0 && x in t.vvTried[k.Tried(t.mapInfo[x].addr)]
    {
      if x != id {
        assert x in s.vvTried[k.Tried(s.mapInfo[x].addr)];
      }
    }
  }

  /** Putting a fresh id in one slot takes only the id that was there out. */
  lemma ReplaceDistinct(v: seq<nat>, pos: nat, id: nat)
    requires NoRepeats(v) && id !in v && pos < |v|
    ensures NoRepeats(Put(v, pos, id)) && id in Put(v, pos, id)
    ensures forall i :: 0 <= i < |v| && i != pos ==> v[i] != v[pos]
    ensures forall x :: x in v && x != v[pos] ==> x in Put(v, pos, id)
  {
    var w := Put(v, pos, id);
    assert w[pos] == id;
    forall x | x in v && x != v[pos]
      ensures x in w
    {
      var i :| 0 <= i < |v| && v[i] == x;
      assert w[i] == x;
    }
  }

  /** The new buckets afterwards: id is in none, the replaced entry in one, and none is overfull. */
  lemma ExchangeBuckets(k: Buckets, s: Table, id: nat, origin: nat, pos: nat, b: nat, gone: nat) returns (to: nat)
    requires NewOk(s, None) && Promotable(s, id, origin) && |s.vvTried| == TRIED_BUCKET_COUNT
    requires b == k.Tried(s.mapInfo[id].addr) && pos < |s.vvTried[b]| && gone == s.vvTried[b][pos] && gone in s.mapInfo
    ensures to < |s.vvNew| && Exchange(k, s, id, origin, pos).vvNew == Without(s.vvNew, id)[to := Without(s.vvNew, id)[to] + {gone}]
    ensures forall c :: 0 <= c < |s.vvNew| ==>
              && Exchange(k, s, id, origin, pos).vvNew[c] == s.vvNew[c] - {id} + (if c == to then {gone} else {})
              && |Exchange(k, s, id, origin, pos).vvNew[c]| <= NEW_BUCKET_SIZE
  {
    to := EvictTo(k, s, id, gone, origin);
    ExchangeRoom(k, s, id, origin, gone);
    var w := Exchange(k, s, id, origin, pos).vvNew;
    hide EvictTo;
    forall c | 0 <= c < |s.vvNew|
      ensures w[c] == s.vvNew[c] - {id} + (if c == to then {gone} else {}) && |w[c]| <= NEW_BUCKET_SIZE
    {
      WithoutAt(s.vvNew, id, c);
    }
  }

  lemma ExchangeNew(k: Buckets, s: Table, id: nat, origin: nat, pos: nat, b: nat, gone: nat)
    requires NewOk(s, None) && Promotable(s, id, origin) && |s.vvTried| == TRIED_BUCKET_COUNT
    requires b == k.Tried(s.mapInfo[id].addr) && pos < |s.vvTried[b]| && gone == s.vvTried[b][pos]
    requires gone in s.mapInfo && s.mapInfo[gone].fInTried && gone != id
    ensures NewOk(Exchange(k, s, id, origin, pos), None)
  {
    hide Exchange, Without, NewPlaced, NewCounted;
    var to := ExchangeBuckets(k, s, id, origin, pos, b, gone);
    ExchangeInfo(k, s, id, origin, pos, b, gone);
    ExchangePlaced(s, Exchange(k, s, id, origin, pos), id, to, gone);
    ExchangeCounted(s, Exchange(k, s, id, origin, pos), id, to, gone);
  }

  lemma ExchangePlaced(s: Table, t: Table, id: nat, to: nat, gone: nat)
    requires NewPlaced(s) && SameKeys(s, t) && gone in s.mapInfo && !t.mapInfo[gone].fInTried && |t.vvNew| == |s.vvNew|
    requires forall x :: x in s.mapInfo && x != id && x != gone ==> t.mapInfo[x] == s.mapInfo[x]
    requires forall c :: 0 <= c < |s.vvNew| ==> t.vvNew[c] == s.vvNew[c] - {id} + (if c == to then {gone} else {})
    ensures NewPlaced(t)
  {
    forall c, x | 0 <= c < |t.vvNew| && x in t.vvNew[c]
      ensures x in t.mapInfo && !t.mapInfo[x].fInTried
    {
      if x != gone {
        assert x in s.vvNew[c] && x != id;
        assert x in s.mapInfo && !s.mapInfo[x].fInTried;
        assert t.mapInfo[x] == s.mapInfo[x];
      }
    }
  }

  lemma ExchangeCounted(s: Table, t: Table, id: nat, to: nat, gone: nat)
    requires NewPlaced(s) && NewCounted(s, None) && SameKeys(s, t) && id in s.mapInfo && gone in s.mapInfo && gone != id
    requires s.mapInfo[gone].fInTried && to < |s.vvNew|
    requires t.mapInfo[id].fInTried && t.mapInfo[gone] == s.mapInfo[gone].(nRefCount := 1, fInTried := false)
    requires forall x :: x in s.mapInfo && x != id && x != gone ==> t.mapInfo[x] == s.mapInfo[x]
    requires t.vvNew == Without(s.vvNew, id)[to := Without(s.vvNew, id)[to] + {gone}]
    ensures NewCounted(t, None)
  {
    hide Without;
    forall x | x in t.mapInfo && !t.mapInfo[x].fInTried
      ensures CountedOk(t, None, x)
    {
      ExchangeCount(s.vvNew, id, to, gone, x);
      assert x != gone ==> CountedOk(s, None, x);
    }
  }

  lemma ExchangeCount(v: seq<set<nat>>, id: nat, to: nat, gone: nat, x: nat)
    requires to < |v| && gone != id && forall c :: 0 <= c < |v| ==> gone !in v[c]
    ensures RefCount(Without(v, id)[to := Without(v, id)[to] + {gone}], x) ==
            if x == id then 0 else if x == gone then 1 else RefCount(v, x)
  {
    var w := Without(v, id);
    WithoutAt(v, id, to);
    WithoutCount(v, id, x);
    RefCountZero(v, gone);
    RefCountUpdate(w, to, w[to] + {gone}, x);
  }

  /** "There is certainly place there": the bucket the promoted id came from is not full once the id has left. */
  lemma ExchangeRoom(k: Buckets, s: Table, id: nat, origin: nat, gone: nat)
    requires NewOk(s, None) && Promotable(s, id, origin) && gone in s.mapInfo
    ensures var to := EvictTo(k, s, id, gone, origin); to < |s.vvNew| && |Without(s.vvNew, id)[to]| < NEW_BUCKET_SIZE
  {
    WithoutAt(s.vvNew, id, origin);
  }

  lemma ExchangeKeeps(k: Buckets, s: Table, id: nat, origin: nat, pos: nat)
    requires Inv(k, s) && Promotable(s, id, origin) && |s.vvTried| == TRIED_BUCKET_COUNT && |s.vvNew| == NEW_BUCKET_COUNT
    requires pos < |s.vvTried[k.Tried(s.mapInfo[id].addr)]| && s.vvTried[k.Tried(s.mapInfo[id].addr)][pos] in s.mapInfo
    ensures Inv(k, Exchange(k, s, id, origin, pos))
  {
    hide IdsOk, RandomOk, CountsOk, StatsOk, TriedOk, NewOk, Without, Exchange, EvictTo;
    var b, gone := ReplacedEntry(k, s, id, origin, pos);
    var t := Exchange(k, s, id, origin, pos);
    ExchangeStats(k, s, id, origin, pos, b, gone);
    ExchangeCounts(k, s, id, origin, pos, b, gone);
    ExchangeTried(k, s, id, origin, pos);
    ExchangeNew(k, s, id, origin, pos, b, gone);
  }

  lemma ExchangeStats(k: Buckets, s: Table, id: nat, origin: nat, pos: nat, b: nat, gone: nat)
    requires IdsOk(s) && RandomOk(s) && StatsOk(s) && Promotable(s, id, origin)
    requires |s.vvTried| == TRIED_BUCKET_COUNT && |s.vvNew| == NEW_BUCKET_COUNT
    requires b == k.Tried(s.mapInfo[id].addr) && pos < |s.vvTried[b]| && gone == s.vvTried[b][pos] && gone in s.mapInfo && gone != id
    ensures var t := Exchange(k, s, id, origin, pos); IdsOk(t) && RandomOk(t) && StatsOk(t)
  {
    hide IdsOk, RandomOk, Exchange;
    var t := Exchange(k, s, id, origin, pos);
    ExchangeInfo(k, s, id, origin, pos, b, gone);
    IdsFrame(s, t);
    RandomFrame(s, t);
  }
}
