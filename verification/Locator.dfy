/** Block locators: how few hashes describe a branch, and how close to the fork they lead (src/main.cpp). */
module Locator {
  import opened Wrappers
  import opened Transactions
  import opened BlockTree
  import opened MainChain

  function Log2(n: nat): nat {
    if n < 2 then 0 else 1 + Log2(n / 2)
  }

  lemma {:induction false} PowLog(k: nat, n: nat)
    requires Pow2(k) <= n
    ensures k <= Log2(n)
  {
    if k > 0 {
      assert Pow2(k) == 2 * Pow2(k - 1);
      PowLog(k - 1, n / 2);
    }
  }

  /** The step nStep that Set takes back after it has pushed n hashes. */
  function Step(n: nat): (s: nat)
    ensures s > 0
  {
    if n <= 11 then 1 else Pow2(n - 11)
  }

  /** How far back entry j of a locator lies. */
  function Offset(j: nat): nat {
    if j == 0 then 0 else Offset(j - 1) + Step(j)
  }

  /** Ten single steps, and then each step twice the one before. */
  lemma {:induction false} OffsetIs(j: nat)
    ensures Offset(j) == if j <= 11 then j else 9 + Pow2(j - 10)
  {
    if j > 0 {
      OffsetIs(j - 1);
      if j > 11 {
        assert Pow2(j - 10) == 2 * Pow2(j - 11);
        assert j == 12 ==> Pow2(1) == 2 * Pow2(0);
      }
    }
  }

  lemma OffsetStep(n: nat)
    ensures Offset(n + 1) == Offset(n) + Step(n + 1) && Offset(0) == 0
  {
    hide Step;
  }

  // ------------------------------------------------------------------ Set

  /** Following pprev k times. */
  function StepBack(t: Tree, o: Option<Hash>, k: nat): (r: Option<Hash>)
    requires t.Valid() && (o.Some? ==> o.value in t.nodes)
    ensures r.Some? ==> r.value in t.nodes && o.Some? && t.nodes[r.value].nHeight + k == t.nodes[o.value].nHeight
    ensures r.None? ==> o.None? || t.nodes[o.value].nHeight < k
    decreases k
  {
    if o == None || k == 0 then o else StepBack(t, t.nodes[o.value].pprev, k - 1)
  }

  lemma {:induction false} StepBackOnBranch(t: Tree, h: Hash, x: Hash, k: nat)
    requires t.Valid() && h in t.nodes && t.Ancestor(x, h) && x in t.nodes
    ensures StepBack(t, Some(x), k).Some? ==> t.Ancestor(StepBack(t, Some(x), k).value, h)
    decreases k
  {
    if k > 0 && x != t.genesis {
      StepToParent(t, x, h);
      StepBackOnBranch(t, h, t.nodes[x].pprev.value, k - 1);
    }
  }

  /** What Set pushes from here on, once n hashes have been pushed. */
  function Entries(t: Tree, o: Option<Hash>, n: nat): seq<Hash>
    requires t.Valid() && (o.Some? ==> o.value in t.nodes)
    decreases if o.Some? then t.nodes[o.value].nHeight + 1 else 0
  {
    if o == None then [t.genesis] else [o.value] + Entries(t, StepBack(t, o, Step(n + 1)), n + 1)
  }

  /** CBlockLocator::Set. */
  method Set(t: Tree, h: Hash) returns (vHave: seq<Hash>)
    requires t.Valid() && h in t.nodes
    ensures vHave == Entries(t, Some(h), 0)
  {
    hide Entries, StepBack, Step;
    vHave := [];
    var nStep := 1;
    StepAtMost(1);
    var pindex := Some(h);
    while pindex.Some?
      invariant pindex.Some? ==> pindex.value in t.nodes
      invariant nStep == Step(|vHave| + 1) && (|vHave| > 0 || pindex.Some?)
      invariant Entries(t, Some(h), 0) == vHave + Entries(t, pindex, |vHave|)
      decreases if pindex.Some? then t.nodes[pindex.value].nHeight + 1 else 0
    {
      EntriesStep(t, pindex.value, |vHave|);
      vHave := vHave + [pindex.value];
      pindex := WalkBack(t, pindex, nStep);
      if |vHave| > 10 {
        StepDoubles(|vHave|);
        nStep := nStep * 2;
      } else {
        StepAtMost(|vHave|);
        StepAtMost(|vHave| + 1);
      }
    }
    EntriesStep(t, h, |vHave| - 1);
    vHave := vHave + [t.genesis];
  }

  /** The inner loop of Set: nStep times pprev, or until there is none. */
  method WalkBack(t: Tree, o: Option<Hash>, nStep: nat) returns (pindex: Option<Hash>)
    requires t.Valid() && (o.Some? ==> o.value in t.nodes)
    ensures pindex == StepBack(t, o, nStep)
  {
    pindex := o;
    var i := 0;
    while pindex.Some? && i < nStep
      invariant i <= nStep && (pindex.Some? ==> pindex.value in t.nodes)
      invariant StepBack(t, pindex, nStep - i) == StepBack(t, o, nStep)
      decreases nStep - i
    {
      pindex := t.nodes[pindex.value].pprev;
      i := i + 1;
    }
  }

  lemma StepAtMost(n: nat)
    requires n <= 11
    ensures Step(n) == 1
  {
  }

  lemma StepDoubles(n: nat)
    requires n > 10
    ensures Step(n + 1) == 2 * Step(n)
  {
    assert n == 11 ==> Pow2(1) == 2 * Pow2(0);
  }

  /** The hashes at the offsets that stay within the branch, and then the genesis block. */
  ghost predicate IsLocator(t: Tree, h: Hash, v: seq<Hash>, n: nat)
    requires t.Valid() && h in t.nodes
  {
    var top := t.nodes[h].nHeight;
    && |v| > 0 && v[|v| - 1] == t.genesis
    && top < Offset(n + |v| - 1) && (|v| > 1 ==> Offset(n + |v| - 2) <= top)
    && forall j :: 0 <= j < |v| - 1 ==> v[j] in t.nodes && t.nodes[v[j]].nHeight == top - Offset(n + j) && t.Ancestor(v[j], h)
  }

  lemma {:induction false} EntriesAre(t: Tree, h: Hash, x: Hash, n: nat)
    requires t.Valid() && h in t.nodes && x in t.nodes && t.Ancestor(x, h)
    requires t.nodes[x].nHeight == t.nodes[h].nHeight - Offset(n)
    ensures IsLocator(t, h, Entries(t, Some(x), n), n)
    decreases t.nodes[x].nHeight
  {
    hide Offset, IsLocator, Step, Entries, StepBack;
    OffsetStep(n);
    EntriesStep(t, x, n);
    var next := StepBack(t, Some(x), Step(n + 1));
    if next.Some? {
      StepBackOnBranch(t, h, x, Step(n + 1));
      EntriesAre(t, h, next.value, n + 1);
    }
    LocatorMore(t, h, x, Entries(t, next, n + 1), n);
  }

  lemma EntriesStep(t: Tree, x: Hash, n: nat)
    requires t.Valid() && x in t.nodes
    ensures Entries(t, Some(x), n) == [x] + Entries(t, StepBack(t, Some(x), Step(n + 1)), n + 1)
    ensures Entries(t, None, n + 1) == [t.genesis]
  {
    hide StepBack, Step;
  }

  lemma LocatorMore(t: Tree, h: Hash, x: Hash, rest: seq<Hash>, n: nat)
    requires t.Valid() && h in t.nodes && x in t.nodes && t.Ancestor(x, h)
    requires t.nodes[x].nHeight == t.nodes[h].nHeight - Offset(n)
    requires IsLocator(t, h, rest, n + 1) || (rest == [t.genesis] && t.nodes[h].nHeight < Offset(n + 1))
    ensures IsLocator(t, h, [x] + rest, n)
  {
    hide Offset;
    var v := [x] + rest;
    assert n + |v| - 1 == n + 1 + |rest| - 1 && n + |v| - 2 == n + 1 + |rest| - 2;
    forall j | 0 <= j < |v| - 1
      ensures v[j] in t.nodes && t.nodes[v[j]].nHeight == t.nodes[h].nHeight - Offset(n + j) && t.Ancestor(v[j], h)
    {
      if j > 0 {
        assert v[j] == rest[j - 1];
        assert n + 1 + (j - 1) == n + j;
      }
    }
  }

  /** A locator has at most 13 + log2(height + 1) entries. */
  lemma LocatorIsShort(t: Tree, h: Hash)
    requires t.Valid() && h in t.nodes
    ensures var v := Entries(t, Some(h), 0);
            IsLocator(t, h, v, 0) && |v| <= 13 + Log2(t.nodes[h].nHeight + 1)
  {
    hide Entries, Step, Offset, IsLocator, Log2;
    var v := Entries(t, Some(h), 0);
    AncestorSelf(t, h);
    OffsetStep(0);
    EntriesAre(t, h, h, 0);
    LastOffset(t, h, v);
    if |v| > 1 {
      ShortEnough(|v|, t.nodes[h].nHeight);
    }
  }

  lemma LastOffset(t: Tree, h: Hash, v: seq<Hash>)
    requires t.Valid() && h in t.nodes && IsLocator(t, h, v, 0)
    ensures |v| > 1 ==> Offset(|v| - 2) <= t.nodes[h].nHeight
  {
    hide Offset;
  }

  lemma ShortEnough(n: nat, top: nat)
    requires n > 1 && Offset(n - 2) <= top
    ensures n <= 13 + Log2(top + 1)
  {
    hide Log2;
    if n > 13 {
      OffsetIs(n - 2);
      PowLog(n - 12, top + 1);
    }
  }

  // ------------------------------------------------------------------ GetBlockIndex

  /** The first hash that names a main-chain block, or the genesis block. */
  function FirstInMainChain(t: Tree, pnext: Links, pindexBest: Hash, v: seq<Hash>): Hash {
    if v == [] then t.genesis
    else if v[0] in t.nodes && IsInMainChain(pnext, pindexBest, v[0]) then v[0]
    else FirstInMainChain(t, pnext, pindexBest, v[1..])
  }

  /** CBlockLocator::GetBlockIndex. */
  method GetBlockIndex(t: Tree, pnext: Links, pindexBest: Hash, vHave: seq<Hash>) returns (pindex: Hash)
    ensures pindex == FirstInMainChain(t, pnext, pindexBest, vHave)
  {
    for i := 0 to |vHave|
      invariant FirstInMainChain(t, pnext, pindexBest, vHave) == FirstInMainChain(t, pnext, pindexBest, vHave[i..])
    {
      var hash := vHave[i];
      assert vHave[i..][1..] == vHave[i + 1..];
      if hash in t.nodes {
        if IsInMainChain(pnext, pindexBest, hash) {
          return hash;
        }
      }
    }
    return t.genesis;
  }

  /** A block of the branch of h is on the main chain exactly when it is not above the fork. */
  lemma OnMainChainBelowFork(t: Tree, h: Hash, best: Hash, x: Hash)
    requires t.Valid() && h in t.nodes && best in t.nodes && x in t.nodes && t.Ancestor(x, h)
    ensures Fork(t, h, best) in t.nodes
    ensures IsInMainChain(LinkMap(t, best), best, x) <==> t.nodes[x].nHeight <= t.nodes[Fork(t, h, best)].nHeight
  {
    var f := Fork(t, h, best);
    ForkIsLowestCommonAncestor(t, h, best);
    hide Fork;
    InMainChainIffAncestor(t, best, x);
    if t.nodes[x].nHeight <= t.nodes[f].nHeight {
      AncestorsComparable(t, x, f, h);
      AncestorTransitive(t, x, f, best);
    } else if t.Ancestor(x, best) {
      AncestorHeight(t, x, f);
    }
  }

  /** The first offset that is not less than d overshoots by little. */
  lemma OffsetGap(j: nat, d: nat)
    requires d <= Offset(j) && (j > 0 ==> Offset(j - 1) < d)
    ensures Offset(j) <= d || Offset(j) <= 2 * d - 11
  {
    OffsetIs(j);
    if j > 0 {
      OffsetIs(j - 1);
      if j > 11 {
        assert Pow2(j - 10) == 2 * Pow2(j - 11);
        assert j == 12 ==> Pow2(1) == 2 * Pow2(0);
      }
    }
  }

  lemma {:induction false} FirstFound(t: Tree, h: Hash, best: Hash, v: seq<Hash>, n: nat)
    requires t.Valid() && h in t.nodes && best in t.nodes && IsLocator(t, h, v, n) && Fork(t, h, best) in t.nodes
    requires t.nodes[Fork(t, h, best)].nHeight <= t.nodes[h].nHeight
    requires n > 0 ==> Offset(n - 1) < t.nodes[h].nHeight - t.nodes[Fork(t, h, best)].nHeight
    ensures var r := FirstInMainChain(t, LinkMap(t, best), best, v);
            var d := t.nodes[h].nHeight - t.nodes[Fork(t, h, best)].nHeight;
            r == t.genesis ||
            (r in t.nodes && t.Ancestor(r, h) && t.Ancestor(r, best)
             && var depth := t.nodes[h].nHeight - t.nodes[r].nHeight;
                d <= depth && (depth <= d || depth <= 2 * d - 11))
    decreases |v|
  {
    hide Fork, LinkMap, IsInMainChain, Offset, IsLocator;
    var f := Fork(t, h, best);
    var d := t.nodes[h].nHeight - t.nodes[f].nHeight;
    FirstEntry(t, h, v, n);
    if |v| > 1 {
      var x := v[0];
      OffsetStep(n);
      OnMainChainBelowFork(t, h, best, x);
      InMainChainIffAncestor(t, best, x);
      if IsInMainChain(LinkMap(t, best), best, x) {
        OffsetGap(n, d);
      } else {
        LocatorTail(t, h, v, n);
        FirstFound(t, h, best, v[1..], n + 1);
      }
    } else {
      GenesisOnly(t, LinkMap(t, best), best, v);
    }
  }

  lemma FirstEntry(t: Tree, h: Hash, v: seq<Hash>, n: nat)
    requires t.Valid() && h in t.nodes && IsLocator(t, h, v, n)
    ensures |v| > 1 ==> v[0] in t.nodes && t.nodes[v[0]].nHeight == t.nodes[h].nHeight - Offset(n) && t.Ancestor(v[0], h)
    ensures |v| <= 1 ==> v == [t.genesis]
  {
    hide Offset;
  }

  lemma LocatorTail(t: Tree, h: Hash, v: seq<Hash>, n: nat)
    requires t.Valid() && h in t.nodes && IsLocator(t, h, v, n) && |v| > 1
    ensures IsLocator(t, h, v[1..], n + 1)
  {
    hide Offset;
    forall j | 0 <= j < |v[1..]| - 1
      ensures v[1..][j] in t.nodes && t.nodes[v[1..][j]].nHeight == t.nodes[h].nHeight - Offset(n + 1 + j) && t.Ancestor(v[1..][j], h)
    {
      assert v[1..][j] == v[j + 1] && n + (j + 1) == n + 1 + j;
    }
    assert n + 1 + |v[1..]| - 1 == n + |v| - 1 && n + 1 + |v[1..]| - 2 == n + |v| - 2;
  }

  lemma GenesisOnly(t: Tree, pnext: Links, best: Hash, v: seq<Hash>)
    requires v == [t.genesis]
    ensures FirstInMainChain(t, pnext, best, v) == t.genesis
  {
    assert v[1..] == [];
  }

  /** If d blocks of the branch of h are off the main chain, its locator leads to a main-chain block of the branch that
      is at most max(d, 2d - 11) below h, or to the genesis block. */
  lemma LocatorFindsNearFork(t: Tree, h: Hash, best: Hash)
    requires t.Valid() && h in t.nodes && best in t.nodes
    ensures Fork(t, h, best) in t.nodes
    ensures var r := FirstInMainChain(t, LinkMap(t, best), best, Entries(t, Some(h), 0));
            var d := t.nodes[h].nHeight - t.nodes[Fork(t, h, best)].nHeight;
            r == t.genesis ||
            (r in t.nodes && t.Ancestor(r, h) && t.Ancestor(r, best)
             && var depth := t.nodes[h].nHeight - t.nodes[r].nHeight;
                d <= depth && (depth <= d || depth <= 2 * d - 11))
  {
    ForkIsLowestCommonAncestor(t, h, best);
    hide Fork;
    AncestorHeight(t, Fork(t, h, best), h);
    LocatorIsShort(t, h);
    FirstFound(t, h, best, Entries(t, Some(h), 0), 0);
  }
}
