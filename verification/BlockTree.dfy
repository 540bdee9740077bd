/** The tree of known blocks: mapBlockIndex with its pprev links, branches and forks (src/main.h, src/main.cpp).
    Pointers to CBlockIndex objects are block hashes. */
module BlockTree {
  import opened Wrappers
  import opened Transactions

  datatype Block = Block(hash: Hash, hashPrevBlock: Hash, nTime: nat, nBits: nat, vtx: seq<Tx>) {
    predicate IsProofOfStake() {
      |vtx| > 1 && vtx[1].IsBeanStake()
    }
  }

  /** The part of a CBlockIndex that never changes once the block is indexed, with the block it points to on disk. */
  datatype BlockIndex = BlockIndex(pprev: Option<Hash>, nHeight: nat, nFile: nat, nBlockPos: nat,
                                   nChainTrust: nat, block: Block)

  datatype Tree = Tree(genesis: Hash, nodes: map<Hash, BlockIndex>) {
    ghost predicate Valid() {
      && genesis in nodes
      && nodes[genesis].pprev == None && nodes[genesis].nHeight == 0
      && forall h :: h in nodes && h != genesis ==> LinksToParent(h)
    }

    ghost predicate LinksToParent(h: Hash)
      requires h in nodes
    {
      && nodes[h].pprev.Some?
      && nodes[h].pprev.value in nodes
      && nodes[h].nHeight == nodes[nodes[h].pprev.value].nHeight + 1
      && nodes[h].nChainTrust >= nodes[nodes[h].pprev.value].nChainTrust
      && nodes[h].block.hashPrevBlock == nodes[h].pprev.value
    }

    /** The blocks from genesis up to and including `h`. */
    ghost function Branch(h: Hash): (s: seq<Hash>)
      requires Valid() && h in nodes
      ensures |s| == nodes[h].nHeight + 1
      ensures s[|s| - 1] == h && s[0] == genesis
      ensures forall k :: 0 <= k < |s| ==> s[k] in nodes && nodes[s[k]].nHeight == k
      decreases nodes[h].nHeight
    {
      if h == genesis then [h] else Branch(nodes[h].pprev.value) + [h]
    }

    /** a is h or an ancestor of h. */
    ghost predicate Ancestor(a: Hash, h: Hash)
      requires Valid() && h in nodes
    {
      a in Branch(h)
    }

    /** f is the lowest common ancestor of a and b. */
    ghost predicate IsFork(f: Hash, a: Hash, b: Hash)
      requires Valid() && a in nodes && b in nodes
    {
      && Ancestor(f, a) && Ancestor(f, b)
      && forall x :: Ancestor(x, a) && Ancestor(x, b) ==> f in nodes && Ancestor(x, f)
    }
  }

  /** Every prefix of a branch is the branch of its last block. */
  lemma {:induction false} BranchPrefix(t: Tree, h: Hash, k: nat)
    requires t.Valid() && h in t.nodes && k < |t.Branch(h)|
    ensures t.Branch(h)[k] in t.nodes
    ensures t.Branch(t.Branch(h)[k]) == t.Branch(h)[..k + 1]
    decreases t.nodes[h].nHeight
  {
    if k < |t.Branch(h)| - 1 {
      BranchPrefix(t, t.nodes[h].pprev.value, k);
    }
  }

  /** A block of a branch sits in it at its own height. */
  lemma AncestorHeight(t: Tree, a: Hash, h: Hash)
    requires t.Valid() && h in t.nodes && t.Ancestor(a, h)
    ensures a in t.nodes && t.nodes[a].nHeight <= t.nodes[h].nHeight
    ensures t.Branch(h)[t.nodes[a].nHeight] == a
    ensures t.Branch(a) == t.Branch(h)[..t.nodes[a].nHeight + 1]
  {
    var k :| 0 <= k < |t.Branch(h)| && t.Branch(h)[k] == a;
    BranchPrefix(t, h, k);
  }

  lemma AncestorSelf(t: Tree, h: Hash)
    requires t.Valid() && h in t.nodes
    ensures t.Ancestor(h, h)
  {
    assert t.Branch(h)[|t.Branch(h)| - 1] == h;
  }

  lemma GenesisIsAncestor(t: Tree, h: Hash)
    requires t.Valid() && h in t.nodes
    ensures t.Ancestor(t.genesis, h)
  {
    assert t.Branch(h)[0] == t.genesis;
  }

  lemma AncestorTransitive(t: Tree, a: Hash, b: Hash, c: Hash)
    requires t.Valid() && c in t.nodes && t.Ancestor(b, c) && b in t.nodes && t.Ancestor(a, b)
    ensures t.Ancestor(a, c)
  {
    AncestorHeight(t, b, c);
    AncestorHeight(t, a, b);
    assert t.Branch(c)[t.nodes[a].nHeight] == a;
  }

  /** Two ancestors of one block are on one line. */
  lemma AncestorsComparable(t: Tree, a: Hash, b: Hash, c: Hash)
    requires t.Valid() && c in t.nodes && t.Ancestor(a, c) && t.Ancestor(b, c)
    requires a in t.nodes && b in t.nodes && t.nodes[a].nHeight <= t.nodes[b].nHeight
    ensures t.Ancestor(a, b)
  {
    AncestorHeight(t, a, c);
    AncestorHeight(t, b, c);
    assert t.Branch(b)[t.nodes[a].nHeight] == a;
  }

  /** A branch has one block at each height. */
  lemma OneAtHeight(t: Tree, a: Hash, b: Hash, c: Hash)
    requires t.Valid() && c in t.nodes && t.Ancestor(a, c) && t.Ancestor(b, c)
    ensures a in t.nodes && b in t.nodes && (t.nodes[a].nHeight == t.nodes[b].nHeight ==> a == b)
  {
    AncestorHeight(t, a, c);
    AncestorHeight(t, b, c);
  }

  /** Trust never decreases towards the tip. */
  lemma {:induction false} AncestorTrust(t: Tree, a: Hash, h: Hash)
    requires t.Valid() && h in t.nodes && t.Ancestor(a, h)
    ensures a in t.nodes && t.nodes[a].nChainTrust <= t.nodes[h].nChainTrust
    decreases t.nodes[h].nHeight
  {
    if a != h {
      AncestorTrust(t, a, t.nodes[h].pprev.value);
    }
  }

  lemma StepToParent(t: Tree, a: Hash, h: Hash)
    requires t.Valid() && h in t.nodes && t.Ancestor(a, h) && a in t.nodes && a != t.genesis
    ensures t.Ancestor(t.nodes[a].pprev.value, h)
    ensures forall x :: t.Ancestor(x, a) && x != a ==> t.Ancestor(x, t.nodes[a].pprev.value)
  {
    AncestorHeight(t, a, h);
    var k := t.nodes[a].nHeight;
    assert t.Branch(h)[k - 1] == t.Branch(a)[k - 1] == t.nodes[a].pprev.value;
  }

  /** Where the branches of a and b part, found from the tips downward. */
  ghost function Fork(t: Tree, a: Hash, b: Hash): Hash
    requires t.Valid() && a in t.nodes && b in t.nodes
    decreases t.nodes[a].nHeight + t.nodes[b].nHeight
  {
    if a == b then a
    else if t.nodes[b].nHeight > t.nodes[a].nHeight then Fork(t, a, t.nodes[b].pprev.value)
    else
      assert a != t.genesis by { OnlyGenesisAtZero(t, b); }
      Fork(t, t.nodes[a].pprev.value, b)
  }

  lemma OnlyGenesisAtZero(t: Tree, h: Hash)
    requires t.Valid() && h in t.nodes
    ensures t.nodes[h].nHeight == 0 <==> h == t.genesis
  {
  }

  /** The fork is the lowest common ancestor. */
  lemma {:induction false} ForkIsLowestCommonAncestor(t: Tree, a: Hash, b: Hash)
    requires t.Valid() && a in t.nodes && b in t.nodes
    ensures var f := Fork(t, a, b); f in t.nodes && t.IsFork(f, a, b)
    decreases t.nodes[a].nHeight + t.nodes[b].nHeight
  {
    if a == b {
      assert t.Branch(a)[|t.Branch(a)| - 1] == a;
    } else if t.nodes[b].nHeight > t.nodes[a].nHeight {
      ForkIsLowestCommonAncestor(t, a, t.nodes[b].pprev.value);
      HighIsNotCommon(t, a, b);
    } else {
      OnlyGenesisAtZero(t, b);
      ForkIsLowestCommonAncestor(t, t.nodes[a].pprev.value, b);
      HighIsNotCommon(t, b, a);
    }
  }

  /** A block at least as high as b, and not b, is not on b's branch, so all it shares with b it shares through its parent. */
  lemma HighIsNotCommon(t: Tree, b: Hash, a: Hash)
    requires t.Valid() && a in t.nodes && b in t.nodes && a != b && t.nodes[a].nHeight >= t.nodes[b].nHeight && a != t.genesis
    ensures forall x :: t.Ancestor(x, a) && t.Ancestor(x, b) ==> t.Ancestor(x, t.nodes[a].pprev.value)
    ensures forall x :: t.Ancestor(x, t.nodes[a].pprev.value) ==> t.Ancestor(x, a)
  {
    if t.Ancestor(a, b) {
      AncestorHeight(t, a, b);
    }
  }

  /** A block of b's branch is on a's branch too exactly when it is not above the fork. */
  lemma CommonIsBelowFork(t: Tree, a: Hash, b: Hash, x: Hash)
    requires t.Valid() && a in t.nodes && b in t.nodes && x in t.nodes && t.Ancestor(x, b)
    ensures Fork(t, a, b) in t.nodes && (t.Ancestor(x, a) <==> t.nodes[x].nHeight <= t.nodes[Fork(t, a, b)].nHeight)
  {
    var f := Fork(t, a, b);
    ForkIsLowestCommonAncestor(t, a, b);
    hide Fork;
    if t.nodes[x].nHeight <= t.nodes[f].nHeight {
      AncestorsComparable(t, x, f, b);
      AncestorTransitive(t, x, f, a);
    } else if t.Ancestor(x, a) {
      AncestorHeight(t, x, f);
    }
  }

  /** Reorganize's search for the fork. Neither of its two "pprev is null" errors can occur. */
  method FindFork(t: Tree, pindexBest: Hash, pindexNew: Hash) returns (pfork: Hash)
    requires t.Valid() && pindexBest in t.nodes && pindexNew in t.nodes
    ensures pfork == Fork(t, pindexBest, pindexNew)
  {
    pfork := pindexBest;
    var plonger := pindexNew;
    while pfork != plonger
      invariant pfork in t.nodes && plonger in t.nodes
      invariant Fork(t, pfork, plonger) == Fork(t, pindexBest, pindexNew)
      decreases t.nodes[pfork].nHeight
    {
      while t.nodes[plonger].nHeight > t.nodes[pfork].nHeight
        invariant plonger in t.nodes
        invariant Fork(t, pfork, plonger) == Fork(t, pindexBest, pindexNew)
        decreases t.nodes[plonger].nHeight
      {
        match t.nodes[plonger].pprev {
          case None =>
            assert false;
          case Some(p) =>
            plonger := p;
        }
      }
      if pfork == plonger {
        break;
      }
      match t.nodes[pfork].pprev {
        case None =>
          assert false;
        case Some(p) =>
          pfork := p;
      }
    }
  }

  /** Adding a leaf leaves every existing branch alone. */
  lemma {:induction false} BranchStable(t: Tree, u: Tree, h: Hash)
    requires t.Valid() && u.Valid() && t.genesis == u.genesis && h in t.nodes
    requires forall x :: x in t.nodes ==> x in u.nodes && u.nodes[x] == t.nodes[x]
    ensures h in u.nodes && u.Branch(h) == t.Branch(h)
    decreases t.nodes[h].nHeight
  {
    if h != t.genesis {
      BranchStable(t, u, t.nodes[h].pprev.value);
    }
  }
}
