/** The Merkle tree of a block as one flat list of hashes, and the branches taken from it (src/main.h). */
module Merkle {
  import opened Wrappers
  import opened Transactions

  /** The hash of two hashes. */
  type Pair = (Hash, Hash) -> Hash

  /** The level above: neighbours are paired, an odd last one with itself. */
  function NextLevel(pair: Pair, v: seq<Hash>): (r: seq<Hash>)
    ensures |r| == (|v| + 1) / 2
  {
    seq((|v| + 1) / 2, i requires 0 <= i < (|v| + 1) / 2 => pair(v[2 * i], v[Min(2 * i + 1, |v| - 1)]))
  }

  /** Leaf i is hashed with its sibling. */
  lemma PairAt(pair: Pair, v: seq<Hash>, i: nat)
    requires i < |v|
    ensures NextLevel(pair, v)[i / 2] == if i % 2 == 0 then pair(v[i], v[Min(i + 1, |v| - 1)]) else pair(v[i - 1], v[i])
  {
    assert 2 * (i / 2) == if i % 2 == 0 then i else i - 1;
  }

  function Root(pair: Pair, v: seq<Hash>): Hash
    decreases |v|
  {
    if v == [] then 0 else if |v| == 1 then v[0] else Root(pair, NextLevel(pair, v))
  }

  /** All levels one after another, as vMerkleTree holds them. */
  function Flat(pair: Pair, v: seq<Hash>): seq<Hash>
    decreases |v|
  {
    if |v| <= 1 then v else v + Flat(pair, NextLevel(pair, v))
  }

  lemma {:induction false} FlatEndsInRoot(pair: Pair, v: seq<Hash>)
    requires v != []
    ensures Flat(pair, v) != [] && Flat(pair, v)[|Flat(pair, v)| - 1] == Root(pair, v)
    decreases |v|
  {
    if |v| > 1 {
      FlatEndsInRoot(pair, NextLevel(pair, v));
    }
  }

  /** nIndex ^ 1. */
  function Sibling(i: nat): nat {
    if i % 2 == 0 then i + 1 else i - 1
  }

  /** The hashes beside the path from leaf i to the root. */
  function Branch(pair: Pair, v: seq<Hash>, i: nat): seq<Hash>
    decreases |v|
  {
    if |v| <= 1 then [] else [v[Min(Sibling(i), |v| - 1)]] + Branch(pair, NextLevel(pair, v), i / 2)
  }

  /** What CheckMerkleBranch computes for an index that is not -1; halving rounds down, as an arithmetic shift does. */
  function Fold(pair: Pair, hash: Hash, branch: seq<Hash>, i: int): Hash
    decreases |branch|
  {
    if branch == [] then hash
    else Fold(pair, if i % 2 == 1 then pair(branch[0], hash) else pair(hash, branch[0]), branch[1..], i / 2)
  }

  lemma FlatSplits(pair: Pair, below: seq<Hash>, level: seq<Hash>)
    requires |level| > 1
    ensures below + Flat(pair, level) == (below + level) + Flat(pair, NextLevel(pair, level))
  {
    hide NextLevel;
    var rest := Flat(pair, NextLevel(pair, level));
    assert Flat(pair, level) == level + rest;
    hide Flat;
    assert below + (level + rest) == (below + level) + rest;
  }

  lemma FlatSmall(pair: Pair, level: seq<Hash>, below: seq<Hash>)
    requires |level| <= 1
    ensures below + Flat(pair, level) == below + level && Root(pair, []) == 0 && Flat(pair, []) == []
  {
  }

  // ------------------------------------------------------------------ the methods

  method BuildMerkleTree(pair: Pair, leaves: seq<Hash>) returns (vMerkleTree: seq<Hash>, root: Hash)
    ensures vMerkleTree == Flat(pair, leaves) && root == Root(pair, leaves)
  {
    hide NextLevel, Flat, Root;
    vMerkleTree := [];
    for i := 0 to |leaves|
      invariant vMerkleTree == leaves[..i]
    {
      vMerkleTree := vMerkleTree + [leaves[i]];
    }
    ghost var below: seq<Hash>, level := [], leaves;
    var j, nSize := 0, |leaves|;
    while nSize > 1
      invariant j == |below| && nSize == |level| && vMerkleTree == below + level
      invariant Flat(pair, leaves) == below + Flat(pair, level) && (level == [] <==> leaves == [])
      decreases nSize
    {
      vMerkleTree := AddLevel(pair, vMerkleTree, below, level, j, nSize);
      FlatSplits(pair, below, level);
      below, level := below + level, NextLevel(pair, level);
      j, nSize := j + nSize, (nSize + 1) / 2;
    }
    FlatSmall(pair, level, below);
    if leaves != [] {
      FlatEndsInRoot(pair, leaves);
    }
    root := if vMerkleTree == [] then 0 else vMerkleTree[|vMerkleTree| - 1];
  }

  /** The inner loop of BuildMerkleTree: hash the level that starts at j in pairs. */
  method AddLevel(pair: Pair, tree: seq<Hash>, ghost below: seq<Hash>, ghost level: seq<Hash>, j: nat, nSize: nat) returns (vMerkleTree: seq<Hash>)
    requires tree == below + level && j == |below| && nSize == |level| > 1
    ensures vMerkleTree == below + level + NextLevel(pair, level)
  {
    hide NextLevel;
    vMerkleTree := tree;
    ghost var next := NextLevel(pair, level);
    var i := 0;
    while i < nSize
      invariant 0 <= i <= nSize + 1 && i % 2 == 0 && vMerkleTree == below + level + next[..i / 2]
      decreases nSize - i
    {
      var i2 := Min(i + 1, nSize - 1);
      assert vMerkleTree[j + i] == level[i] && vMerkleTree[j + i2] == level[i2];
      PairAt(pair, level, i);
      vMerkleTree := vMerkleTree + [pair(vMerkleTree[j + i], vMerkleTree[j + i2])];
      assert next[..i / 2 + 1] == next[..i / 2] + [next[i / 2]];
      i := i + 2;
    }
    assert next[..i / 2] == next;
  }

  method GetMerkleBranch(pair: Pair, vMerkleTree: seq<Hash>, ghost leaves: seq<Hash>, nLeaves: nat, nIndex: nat) returns (branch: seq<Hash>)
    requires vMerkleTree == Flat(pair, leaves) && nLeaves == |leaves|
    ensures branch == Branch(pair, leaves, nIndex)
  {
    hide NextLevel, Flat, Root, Branch, Sibling;
    branch := [];
    ghost var below: seq<Hash>, level := [], leaves;
    var j, nSize, k := 0, nLeaves, nIndex;
    while nSize > 1
      invariant j == |below| && nSize == |level| && vMerkleTree == below + Flat(pair, level)
      invariant Branch(pair, leaves, nIndex) == branch + Branch(pair, level, k)
      decreases nSize
    {
      FlatSplits(pair, below, level);
      BranchStep(pair, level, k);
      var i := Min(Sibling(k), nSize - 1);
      assert vMerkleTree[j + i] == (below + level)[j + i] == level[i];
      branch := branch + [vMerkleTree[j + i]];
      k := k / 2;
      below, level := below + level, NextLevel(pair, level);
      j, nSize := j + nSize, (nSize + 1) / 2;
    }
    BranchEnds(pair, level, k);
  }

  lemma BranchStep(pair: Pair, v: seq<Hash>, i: nat)
    requires |v| > 1
    ensures 0 <= Min(Sibling(i), |v| - 1) < |v|
    ensures Branch(pair, v, i) == [v[Min(Sibling(i), |v| - 1)]] + Branch(pair, NextLevel(pair, v), i / 2)
  {
    hide NextLevel;
  }

  lemma BranchEnds(pair: Pair, v: seq<Hash>, i: nat)
    requires |v| <= 1
    ensures Branch(pair, v, i) == []
  {
  }

  method CheckMerkleBranch(pair: Pair, hash: Hash, branch: seq<Hash>, nIndex: int) returns (r: Hash)
    ensures r == if nIndex == -1 then 0 else Fold(pair, hash, branch, nIndex)
  {
    if nIndex == -1 {
      return 0;
    }
    r := hash;
    var n := nIndex;
    for i := 0 to |branch|
      invariant Fold(pair, r, branch[i..], n) == Fold(pair, hash, branch, nIndex)
    {
      var otherside := branch[i];
      assert branch[i..][1..] == branch[i + 1..];
      if n % 2 == 1 {
        r := pair(otherside, r);
      } else {
        r := pair(r, otherside);
      }
      n := n / 2;
    }
  }

  // ------------------------------------------------------------------ what the trees and branches are for

  /** Every leaf's branch leads to the root. */
  lemma {:induction false} BranchLeadsToRoot(pair: Pair, v: seq<Hash>, i: nat)
    requires i < |v|
    ensures Fold(pair, v[i], Branch(pair, v, i), i) == Root(pair, v)
    decreases |v|
  {
    if |v| > 1 {
      var next := NextLevel(pair, v);
      hide NextLevel;
      PairAt(pair, v, i);
      BranchLeadsToRoot(pair, next, i / 2);
      assert Branch(pair, v, i)[1..] == Branch(pair, next, i / 2);
    }
  }

  /** Building a tree, taking leaf i's branch from it and checking that branch gives the tree's root. */
  method BuildAndCheck(pair: Pair, leaves: seq<Hash>, i: nat) returns (root: Hash, checked: Hash)
    requires i < |leaves|
    ensures checked == root == Root(pair, leaves)
  {
    var tree;
    tree, root := BuildMerkleTree(pair, leaves);
    var branch := GetMerkleBranch(pair, tree, leaves, |leaves|, i);
    checked := CheckMerkleBranch(pair, leaves[i], branch, i);
    BranchLeadsToRoot(pair, leaves, i);
  }

  ghost predicate Injective(pair: Pair) {
    forall a, b, c, d :: pair(a, b) == pair(c, d) ==> a == c && b == d
  }

  lemma Unpair(pair: Pair, s: Hash, h: Hash, s': Hash, h': Hash, left: bool)
    requires Injective(pair) && if left then pair(s, h) == pair(s', h') else pair(h, s) == pair(h', s')
    ensures s == s' && h == h'
  {
  }

  /** A branch of the right length that leads to the root proves what it claims: the hash is leaf i. */
  lemma {:induction false} BranchProvesLeaf(pair: Pair, v: seq<Hash>, h: Hash, branch: seq<Hash>, i: nat)
    requires Injective(pair) && i < |v| && |branch| == |Branch(pair, v, i)| && Fold(pair, h, branch, i) == Root(pair, v)
    ensures h == v[i] && branch == Branch(pair, v, i)
    decreases |v|
  {
    if |v| > 1 {
      var next := NextLevel(pair, v);
      hide NextLevel, Injective;
      assert Branch(pair, v, i)[1..] == Branch(pair, next, i / 2);
      var up := if i % 2 == 1 then pair(branch[0], h) else pair(h, branch[0]);
      BranchProvesLeaf(pair, next, up, branch[1..], i / 2);
      PairAt(pair, v, i);
      Unpair(pair, branch[0], h, v[if i % 2 == 1 then i - 1 else Min(i + 1, |v| - 1)], v[i], i % 2 == 1);
      assert branch == [branch[0]] + branch[1..];
    }
  }

  /** Lists of the same length with the same root are equal. */
  lemma {:induction false} SameRootSameLeaves(pair: Pair, v: seq<Hash>, w: seq<Hash>)
    requires Injective(pair) && |v| == |w| && Root(pair, v) == Root(pair, w)
    ensures v == w
    decreases |v|
  {
    if |v| > 1 {
      SameRootSameLeaves(pair, NextLevel(pair, v), NextLevel(pair, w));
      hide NextLevel, Injective, Root;
      forall i | 0 <= i < |v|
        ensures v[i] == w[i]
      {
        PairAt(pair, v, i);
        PairAt(pair, w, i);
        var o := if i % 2 == 1 then i - 1 else Min(i + 1, |v| - 1);
        Unpair(pair, v[o], v[i], w[o], w[i], i % 2 == 1);
      }
    }
  }

  /** Lists of different lengths can have the same root: repeating the last of an odd number of leaves changes nothing. */
  lemma RepeatedLeafKeepsRoot(pair: Pair, v: seq<Hash>)
    requires |v| > 1 && |v| % 2 == 1
    ensures Root(pair, v + [v[|v| - 1]]) == Root(pair, v)
  {
    var w := v + [v[|v| - 1]];
    hide NextLevel;
    SameNextLevel(pair, v, w);
  }

  lemma SameNextLevel(pair: Pair, v: seq<Hash>, w: seq<Hash>)
    requires |v| % 2 == 1 && w == v + [v[|v| - 1]]
    ensures NextLevel(pair, w) == NextLevel(pair, v)
  {
    hide NextLevel;
    var a, b := NextLevel(pair, w), NextLevel(pair, v);
    assert |a| == |b|;
    forall i | 0 <= i < |b|
      ensures a[i] == b[i]
    {
      PairAt(pair, v, 2 * i);
      PairAt(pair, w, 2 * i);
      assert 2 * i / 2 == i && 2 * i % 2 == 0;
    }
  }
}
