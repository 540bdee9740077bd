/** Exactly what a passed Check_ says of the address tables, and what it leaves open (src/addrman.cpp). */
module AddrExact {
  import opened Wrappers
  import opened AddrTable
  import opened AddrCheck

  /** Every tried entry is in the bucket its address hashes to, and no tried bucket is too large. */
  predicate TriedInPlace(k: Buckets, s: Table) {
    && (forall b :: 0 <= b < |s.vvTried| ==> |s.vvTried[b]| <= TRIED_BUCKET_SIZE)
    && (forall b, i :: 0 <= b < |s.vvTried| && 0 <= i < |s.vvTried[b]| && s.vvTried[b][i] in s.mapInfo ==>
          k.Tried(s.mapInfo[s.vvTried[b][i]].addr) == b)
  }

  predicate BucketCounts(s: Table) {
    |s.vvTried| == TRIED_BUCKET_COUNT && |s.vvNew| == NEW_BUCKET_COUNT
  }

  /** Ids come from nIdCount; mapAddr holds nothing but the addresses of entries, and entry 0's among them. */
  predicate IdsInPlace(s: Table) {
    && (forall id :: id in s.mapInfo ==> id < s.nIdCount)
    && (0 in s.mapInfo ==> s.mapInfo[0].addr.ip in s.mapAddr)
    && AddrsKnown(s)
  }

  /** What Check_ does not look at: the number and sizes of the buckets, which tried bucket an entry is in, unused ids,
      addresses left over in mapAddr, and a missing address of entry 0, which reads as 0 too. */
  predicate Unchecked(k: Buckets, s: Table) {
    BucketCounts(s) && TriedInPlace(k, s) && NewSized(s) && IdsInPlace(s)
  }

  // ------------------------------------------------------------------ vRandom

  /** A list with as many values as places has no repeats. */
  lemma {:induction false} CountedIsDistinct(v: seq<nat>)
    ensures |Elements(v)| <= |v| && (|Elements(v)| == |v| ==> NoRepeats(v))
  {
    if v == [] {
      assert Elements(v) == {};
    } else {
      var front, last := v[..|v| - 1], v[|v| - 1];
      CountedIsDistinct(front);
      assert v == front + [last];
      assert Elements(v) == Elements(front) + {last};
      if last in front {
        assert Elements(v) == Elements(front);
      }
    }
  }

  /** Every entry has its own place in vRandom and there are no more places than entries, so every place is taken. */
  lemma PlacesAreTaken(s: Table)
    requires |s.vRandom| == |s.mapInfo|
    requires forall id :: id in s.mapInfo ==> 0 <= s.mapInfo[id].nRandomPos < |s.vRandom| && s.vRandom[s.mapInfo[id].nRandomPos] == id
    ensures RandomOk(s)
  {
    var v, ids := s.vRandom, s.mapInfo.Keys;
    forall id | id in ids
      ensures id in Elements(v)
    {
      assert v[s.mapInfo[id].nRandomPos] == id;
    }
    CountedIsDistinct(v);
    assert |ids| == |s.mapInfo|;
    SameSize(ids, Elements(v));
    forall i | 0 <= i < |v|
      ensures v[i] in s.mapInfo && s.mapInfo[v[i]].nRandomPos == i
    {
      assert v[i] in Elements(v);
      var p := s.mapInfo[v[i]].nRandomPos;
      assert v[p] == v[i];
    }
  }

  lemma SameSize(a: set<nat>, b: set<nat>)
    requires a <= b && |b| <= |a|
    ensures a == b
  {
    assert b == a + (b - a);
    assert |b| == |a| + |b - a|;
  }

  // ------------------------------------------------------------------ the tried buckets

  lemma {:induction false} CrossedOff(ids: set<nat>, v: seq<nat>)
    requires CrossOff(ids, v).Some?
    ensures NoRepeats(v) && (forall x :: x in v ==> x in ids) && CrossOff(ids, v).value == ids - Elements(v)
  {
    if v == [] {
      assert Elements(v) == {};
    } else {
      var front, last := v[..|v| - 1], v[|v| - 1];
      CrossedOff(ids, front);
      assert v == front + [last];
      assert Elements(v) == Elements(front) + {last};
    }
  }

  /** The ids in the tried buckets. */
  ghost predicate InBuckets(vs: seq<seq<nat>>, x: nat) {
    exists b :: 0 <= b < |vs| && x in vs[b]
  }

  lemma {:induction false} AllCrossedOff(ids: set<nat>, vs: seq<seq<nat>>)
    requires CrossOffAll(ids, vs).Some?
    ensures forall b :: 0 <= b < |vs| ==> NoRepeats(vs[b]) && forall x :: x in vs[b] ==> x in ids
    ensures forall x :: x in CrossOffAll(ids, vs).value <==> x in ids && !InBuckets(vs, x)
  {
    if vs != [] {
      var front, last := vs[..|vs| - 1], vs[|vs| - 1];
      AllCrossedOff(ids, front);
      CrossedOff(CrossOffAll(ids, front).value, last);
      forall x
        ensures InBuckets(vs, x) <==> InBuckets(front, x) || x in last
      {
        if InBuckets(front, x) {
          var b :| 0 <= b < |front| && x in front[b];
          assert x in vs[b];
        }
      }
    }
  }

  lemma PassedTried(k: Buckets, s: Table)
    requires Passes(s) && BucketCounts(s) && TriedInPlace(k, s)
    ensures TriedOk(k, s)
  {
    AllCrossedOff(TriedIds(s), s.vvTried);
    hide CrossOffAll, CountDownAll, NoRepeats;
    forall b, i | 0 <= b < |s.vvTried| && 0 <= i < |s.vvTried[b]|
      ensures s.vvTried[b][i] in TriedIds(s)
    {
      assert s.vvTried[b][i] in s.vvTried[b];
    }
    forall id | id in s.mapInfo && s.mapInfo[id].fInTried
      ensures s.mapInfo[id].nRefCount == 0 && id in s.vvTried[k.Tried(s.mapInfo[id].addr)]
    {
      assert EntryOk(s, id);
      assert InBuckets(s.vvTried, id);
      var b :| 0 <= b < |s.vvTried| && id in s.vvTried[b];
      var i :| 0 <= i < |s.vvTried[b]| && s.vvTried[b][i] == id;
    }
  }

  // ------------------------------------------------------------------ the new buckets

  lemma {:induction false} AllCountedDown(m: map<nat, int>, vs: seq<set<nat>>)
    requires CountDownAll(m, vs).Some?
    requires forall id :: id in m ==> m[id] > 0
    ensures CountedBy(m, CountDownAll(m, vs).value, Times(m, vs))
    ensures forall b, id :: 0 <= b < |vs| && id in vs[b] ==> id in m
  {
    if vs == [] {
      assert CountedBy(m, m, Times(m, vs));
    } else {
      var front, last := vs[..|vs| - 1], vs[|vs| - 1];
      AllCountedDown(m, front);
      TimesNext(m, vs);
      hide CountedBy, Times, CountDown;
      CountBucket(m, CountDownAll(m, front).value, Times(m, front), Times(m, vs), last);
    }
  }

  /** Counted down to nothing: every new entry is in as many buckets as its count says. */
  lemma CountsAreExact(s: Table)
    requires CountedBy(NewCounts(s), map[], Times(NewCounts(s), s.vvNew))
    requires forall id :: id in NewCounts(s) ==> 0 < NewCounts(s)[id] <= NEW_BUCKETS_PER_ADDRESS
    ensures NewCounted(s, None)
  {
    hide RefCount;
    var m := NewCounts(s);
    forall id | id in s.mapInfo && !s.mapInfo[id].fInTried
      ensures CountedOk(s, None, id)
    {
      assert id in m;
    }
  }

  lemma PassedNew(s: Table)
    requires Passes(s)
    ensures NewPlaced(s) && NewCounted(s, None)
  {
    PassedParts(s);
    BoundedCounts(s);
    hide Passes, CountDownAll, CountedBy, Times, EntryOk;
    AllCountedDown(NewCounts(s), s.vvNew);
    forall b, id | 0 <= b < |s.vvNew| && id in s.vvNew[b]
      ensures id in s.mapInfo && !s.mapInfo[id].fInTried
    {
      assert id in NewCounts(s);
    }
    CountsAreExact(s);
  }

  lemma BoundedCounts(s: Table)
    requires forall id :: id in s.mapInfo ==> EntryOk(s, id)
    ensures forall id :: id in NewCounts(s) ==> 0 < NewCounts(s)[id] <= NEW_BUCKETS_PER_ADDRESS
  {
  }

  lemma PassedParts(s: Table)
    requires Passes(s)
    ensures |s.vRandom| == s.nTried + s.nNew && CountsOk(s) && forall id :: id in s.mapInfo ==> EntryOk(s, id)
    ensures CountDownAll(NewCounts(s), s.vvNew) == Some(map[])
  {
    hide CountDownAll, CrossOffAll, CountsOk, EntryOk;
  }

  // ------------------------------------------------------------------ all together

  predicate TriedUncounted(s: Table) {
    forall id :: id in s.mapInfo && s.mapInfo[id].fInTried ==> s.mapInfo[id].nRefCount == 0
  }

  /** No two entries have the same address. */
  predicate DistinctAddrs(s: Table) {
    forall x, y :: x in s.mapInfo && y in s.mapInfo && s.mapInfo[x].addr.ip == s.mapInfo[y].addr.ip ==> x == y
  }

  lemma EntriesTell(s: Table)
    requires forall id :: id in s.mapInfo ==> EntryOk(s, id)
    ensures StatsOk(s) && TriedUncounted(s) && DistinctAddrs(s)
    ensures forall id :: id in s.mapInfo ==> AddrAt(s.mapAddr, s.mapInfo[id].addr.ip) == id
    ensures forall id :: id in s.mapInfo ==> 0 <= s.mapInfo[id].nRandomPos < |s.vRandom| && s.vRandom[s.mapInfo[id].nRandomPos] == id
  {
  }

  lemma EntryTotal(s: Table)
    requires CountsOk(s)
    ensures s.nTried + s.nNew == |s.mapInfo|
  {
    assert s.mapInfo.Keys == TriedIds(s) + NewIds(s);
    assert |TriedIds(s) + NewIds(s)| == |TriedIds(s)| + |NewIds(s)|;
  }

  lemma PassedEntries(s: Table)
    requires Passes(s)
    ensures RandomOk(s) && StatsOk(s) && CountsOk(s) && TriedUncounted(s) && DistinctAddrs(s)
    ensures IdsInPlace(s) ==> IdsOk(s)
  {
    PassedParts(s);
    EntriesTell(s);
    EntryTotal(s);
    hide Passes, CountsOk, EntryOk, StatsOk, TriedUncounted, DistinctAddrs;
    PlacesAreTaken(s);
  }

  /** A table satisfies the invariant exactly when Check_ returns zero and what Check_ does not look at is in order. */
  lemma CheckIsInvariant(k: Buckets, s: Table)
    ensures Inv(k, s) <==> Passes(s) && Unchecked(k, s)
  {
    if Inv(k, s) {
      InvPasses(k, s);
      hide Passes, RandomOk, CountsOk, StatsOk, NewPlaced, NewCounted;
    } else if Passes(s) && Unchecked(k, s) {
      PassedEntries(s);
      PassedTried(k, s);
      PassedNew(s);
      hide Passes, IdsOk, RandomOk, CountsOk, StatsOk, TriedOk, NewPlaced, NewCounted, TriedInPlace, NewSized, IdsInPlace;
      assert false;
    }
  }
}
