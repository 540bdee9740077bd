/** Which blocks could become the tip, and where SetBestChain's first phase stops on the way to one (src/main.cpp). */
module TipChoice {
  import opened Wrappers
  import opened Transactions
  import opened BlockTree
  import opened BlockConnection
  import opened MoneySupply
  import opened Replay
  import opened MainChain

  // ------------------------------------------------------------------ branches that connect

  /** Every block of h's branch that is not on the best branch connects. */
  ghost predicate Adoptable(r: BlockRules, t: Tree, disk: Disk, best: Hash, h: Hash, fCheckSigs: bool)
    requires t.Valid() && best in t.nodes && h in t.nodes
  {
    forall x :: t.Ancestor(x, h) && !t.Ancestor(x, best) ==> BlockConnectsAt(r, t, disk, x, fCheckSigs)
  }

  ghost predicate BlockConnectsAt(r: BlockRules, t: Tree, disk: Disk, x: Hash, fCheckSigs: bool)
    requires t.Valid()
  {
    x in t.nodes && (x == t.genesis || Connects(r, t, disk, x, fCheckSigs))
  }

  /** AllConnect, block by block. */
  lemma {:induction false} AllConnectEach(r: BlockRules, t: Tree, disk: Disk, fork: Hash, tip: Hash, fCheckSigs: bool)
    requires t.Valid() && tip in t.nodes && fork in t.nodes && t.Ancestor(fork, tip)
    ensures AllConnect(r, t, disk, fork, tip, fCheckSigs)
        <==> forall x :: t.Ancestor(x, tip) && x in t.nodes && t.nodes[x].nHeight > t.nodes[fork].nHeight
               ==> BlockConnectsAt(r, t, disk, x, fCheckSigs)
    decreases t.nodes[tip].nHeight
  {
    hide Connects;
    AncestorSelf(t, tip);
    AncestorHeight(t, fork, tip);
    if tip == fork {
      forall x | t.Ancestor(x, tip) && x in t.nodes
        ensures t.nodes[x].nHeight <= t.nodes[fork].nHeight
      {
        AncestorHeight(t, x, tip);
      }
    } else {
      var p := t.nodes[tip].pprev.value;
      OnlyOneAtHeight(t, fork, tip);
      StepToParent(t, tip, tip);
      AllConnectEach(r, t, disk, fork, p, fCheckSigs);
      assert forall x :: t.Ancestor(x, tip) <==> x == tip || t.Ancestor(x, p);
    }
  }

  lemma OnlyOneAtHeight(t: Tree, a: Hash, h: Hash)
    requires t.Valid() && h in t.nodes && a in t.nodes && t.Ancestor(a, h) && a != h
    ensures t.nodes[a].nHeight < t.nodes[h].nHeight && h != t.genesis && t.Ancestor(a, t.nodes[h].pprev.value)
  {
    AncestorHeight(t, a, h);
  }

  /** To be adoptable is to connect above the fork. */
  lemma AdoptableIs(r: BlockRules, t: Tree, disk: Disk, best: Hash, h: Hash, fCheckSigs: bool)
    requires t.Valid() && best in t.nodes && h in t.nodes
    ensures var f := Fork(t, best, h);
            f in t.nodes && t.Ancestor(f, h) && (Adoptable(r, t, disk, best, h, fCheckSigs) <==> AllConnect(r, t, disk, f, h, fCheckSigs))
  {
    var f := Fork(t, best, h);
    ForkIsLowestCommonAncestor(t, best, h);
    AllConnectEach(r, t, disk, f, h, fCheckSigs);
    hide Fork, BlockConnectsAt, AllConnect;
    forall x | t.Ancestor(x, h)
      ensures x in t.nodes && (t.Ancestor(x, best) <==> t.nodes[x].nHeight <= t.nodes[f].nHeight)
    {
      AncestorHeight(t, x, h);
      CommonIsBelowFork(t, best, h, x);
    }
  }

  lemma AdoptableDown(r: BlockRules, t: Tree, disk: Disk, best: Hash, mid: Hash, h: Hash, fCheckSigs: bool)
    requires t.Valid() && best in t.nodes && h in t.nodes && mid in t.nodes && t.Ancestor(mid, h)
    requires Adoptable(r, t, disk, best, h, fCheckSigs)
    ensures Adoptable(r, t, disk, best, mid, fCheckSigs)
  {
    hide BlockConnectsAt;
    forall x | t.Ancestor(x, mid) && !t.Ancestor(x, best)
      ensures BlockConnectsAt(r, t, disk, x, fCheckSigs)
    {
      AncestorTransitive(t, x, mid, h);
    }
  }

  /** What connects above b, once everything up to b connects above a, connects above a. */
  lemma AdoptableThrough(r: BlockRules, t: Tree, disk: Disk, a: Hash, b: Hash, h: Hash, fCheckSigs: bool)
    requires t.Valid() && a in t.nodes && b in t.nodes && h in t.nodes
    requires Adoptable(r, t, disk, a, b, fCheckSigs) && Adoptable(r, t, disk, b, h, fCheckSigs)
    ensures Adoptable(r, t, disk, a, h, fCheckSigs)
  {
  }

  lemma AdoptableUnchecked(r: BlockRules, t: Tree, disk: Disk, best: Hash, h: Hash)
    requires t.Valid() && best in t.nodes && h in t.nodes && Adoptable(r, t, disk, best, h, true)
    ensures Adoptable(r, t, disk, best, h, false)
  {
    hide Connects;
    forall x | t.Ancestor(x, h) && !t.Ancestor(x, best)
      ensures BlockConnectsAt(r, t, disk, x, false)
    {
      assert BlockConnectsAt(r, t, disk, x, true);
      if x != t.genesis {
        SignaturesOnlyRefuse(r, t, disk, x);
      }
    }
  }

  /** New blocks do not change which of the old ones could become the tip. */
  lemma AdoptableStable(r: BlockRules, t: Tree, u: Tree, disk: Disk, best: Hash, h: Hash, fCheckSigs: bool)
    requires t.Valid() && u.Valid() && Grows(t, u) && best in t.nodes && h in t.nodes
    ensures best in u.nodes && h in u.nodes
    ensures Adoptable(r, u, disk, best, h, fCheckSigs) <==> Adoptable(r, t, disk, best, h, fCheckSigs)
  {
    hide Connects;
    BranchStable(t, u, best);
    BranchStable(t, u, h);
    forall x | t.Ancestor(x, h)
      ensures BlockConnectsAt(r, u, disk, x, fCheckSigs) <==> BlockConnectsAt(r, t, disk, x, fCheckSigs)
    {
      AncestorHeight(t, x, h);
      if x != t.genesis {
        ConnectsStable(r, t, u, disk, x, fCheckSigs);
      }
    }
  }

  // ------------------------------------------------------------------ the first phase of SetBestChain

  /** The block at which SetBestChain's first phase stops: back from the new tip for as long as the parent has more trust
      than the best block. */
  ghost function Intermediate(t: Tree, pindexBest: Hash, h: Hash): Hash
    requires t.Valid() && pindexBest in t.nodes && h in t.nodes
    decreases t.nodes[h].nHeight
  {
    if h != t.genesis && t.nodes[t.nodes[h].pprev.value].nChainTrust > t.nodes[pindexBest].nChainTrust
    then Intermediate(t, pindexBest, t.nodes[h].pprev.value) else h
  }

  /** mid is on the way from the fork to the new tip, strictly above the fork. */
  ghost predicate AboveFork(t: Tree, pindexBest: Hash, pindexNew: Hash, mid: Hash)
    requires t.Valid() && pindexBest in t.nodes && pindexNew in t.nodes
  {
    var fork := Fork(t, pindexBest, pindexNew);
    && mid in t.nodes && t.Ancestor(mid, pindexNew) && t.Ancestor(fork, mid) && mid != fork
  }

  /** A block with more trust than the best one is not on the best branch. */
  lemma NewTipIsAboveFork(t: Tree, pindexBest: Hash, pindexNew: Hash)
    requires t.Valid() && pindexBest in t.nodes && pindexNew in t.nodes
    requires t.nodes[pindexNew].nChainTrust > t.nodes[pindexBest].nChainTrust
    ensures AboveFork(t, pindexBest, pindexNew, pindexNew)
  {
    ForkIsLowestCommonAncestor(t, pindexBest, pindexNew);
    AncestorTrust(t, Fork(t, pindexBest, pindexNew), pindexBest);
    AncestorSelf(t, pindexNew);
  }

  /** Walking back while the parent has more trust than the best block never reaches the fork. */
  lemma IntermediateStep(t: Tree, pindexBest: Hash, pindexNew: Hash, mid: Hash)
    requires t.Valid() && pindexBest in t.nodes && pindexNew in t.nodes
    requires AboveFork(t, pindexBest, pindexNew, mid)
    ensures mid != t.genesis
    ensures t.nodes[t.nodes[mid].pprev.value].nChainTrust > t.nodes[pindexBest].nChainTrust
            ==> AboveFork(t, pindexBest, pindexNew, t.nodes[mid].pprev.value)
  {
    var fork := Fork(t, pindexBest, pindexNew);
    ForkIsLowestCommonAncestor(t, pindexBest, pindexNew);
    AncestorTrust(t, fork, pindexBest);
    AncestorHeight(t, fork, mid);
    OnlyGenesisAtZero(t, mid);
    StepToParent(t, mid, pindexNew);
  }

  /** A block above the fork has the same fork. */
  lemma ForkIsSame(t: Tree, pindexBest: Hash, pindexNew: Hash, mid: Hash)
    requires t.Valid() && pindexBest in t.nodes && pindexNew in t.nodes
    requires AboveFork(t, pindexBest, pindexNew, mid)
    ensures Fork(t, pindexBest, mid) == Fork(t, pindexBest, pindexNew)
  {
    var f, g := Fork(t, pindexBest, pindexNew), Fork(t, pindexBest, mid);
    ForkIsLowestCommonAncestor(t, pindexBest, pindexNew);
    ForkIsLowestCommonAncestor(t, pindexBest, mid);
    AncestorTransitive(t, g, mid, pindexNew);
    AncestorHeight(t, g, f);
    AncestorHeight(t, f, g);
  }

  /** The intermediate block of a heavier one is on its branch above the same fork, heavier than the best block too, and its
      parent is not. */
  lemma {:induction false} IntermediateIs(t: Tree, pindexBest: Hash, h: Hash)
    requires t.Valid() && pindexBest in t.nodes && h in t.nodes && t.nodes[h].nChainTrust > t.nodes[pindexBest].nChainTrust
    ensures var mid := Intermediate(t, pindexBest, h);
            && mid in t.nodes && t.Ancestor(mid, h) && mid != t.genesis
            && t.nodes[mid].nChainTrust > t.nodes[pindexBest].nChainTrust
            && t.nodes[t.nodes[mid].pprev.value].nChainTrust <= t.nodes[pindexBest].nChainTrust
            && Fork(t, pindexBest, mid) == Fork(t, pindexBest, h)
    decreases t.nodes[h].nHeight
  {
    hide Fork;
    NewTipIsAboveFork(t, pindexBest, h);
    IntermediateStep(t, pindexBest, h, h);
    AncestorSelf(t, h);
    var p := t.nodes[h].pprev.value;
    if t.nodes[p].nChainTrust > t.nodes[pindexBest].nChainTrust {
      IntermediateIs(t, pindexBest, p);
      ForkIsSame(t, pindexBest, h, p);
    }
  }

  /** For a child of the best block there is one block to connect. */
  lemma ChildOfBest(r: BlockRules, t: Tree, disk: Disk, best: Hash, b: Hash, fCheckSigs: bool)
    requires t.Valid() && best in t.nodes && b in t.nodes && b != t.genesis && t.nodes[b].block.hashPrevBlock == best
    ensures t.nodes[b].pprev == Some(best) && Intermediate(t, best, b) == b
    ensures Adoptable(r, t, disk, best, b, fCheckSigs) <==> Connects(r, t, disk, b, fCheckSigs)
  {
    hide Connects;
    AncestorSelf(t, best);
    AncestorSelf(t, b);
    StepToParent(t, b, b);
    AdoptableIs(r, t, disk, best, b, fCheckSigs);
    assert Fork(t, best, b) == best;
  }

  // ------------------------------------------------------------------ the heaviest branch that connects

  /** No block with more trust than the best one could be adopted: some block of its branch does not connect. */
  ghost predicate Heaviest(r: BlockRules, t: Tree, disk: Disk, best: Hash, fCheckSigs: bool)
    requires t.Valid() && best in t.nodes
  {
    forall h :: h in t.nodes && t.nodes[h].nChainTrust > t.nodes[best].nChainTrust ==> !Adoptable(r, t, disk, best, h, fCheckSigs)
  }

  /** The tree has grown without changing what could be adopted before. */
  ghost predicate ChoicesKept(r: BlockRules, t: Tree, u: Tree, disk: Disk, best: Hash)
    requires t.Valid()
  {
    && u.Valid() && Grows(t, u) && best in t.nodes && best in u.nodes
    && forall h, sigs :: h in t.nodes ==> h in u.nodes && (Adoptable(r, u, disk, best, h, sigs) <==> Adoptable(r, t, disk, best, h, sigs))
  }

  lemma GrowingKeepsChoices(r: BlockRules, t: Tree, u: Tree, disk: Disk, best: Hash)
    requires t.Valid() && u.Valid() && Grows(t, u) && best in t.nodes
    ensures ChoicesKept(r, t, u, disk, best)
  {
    hide Adoptable;
    forall h, sigs | h in t.nodes
      ensures h in u.nodes && (Adoptable(r, u, disk, best, h, sigs) <==> Adoptable(r, t, disk, best, h, sigs))
    {
      AdoptableStable(r, t, u, disk, best, h, sigs);
    }
  }

  /** What SetBestChain does to the tip when block h has just been indexed. */
  ghost predicate Moved(r: BlockRules, u: Tree, disk: Disk, best: Hash, best': Hash, h: Hash, fCheckSigs: bool, ok: bool)
    requires u.Valid() && best in u.nodes && h in u.nodes
  {
    if u.nodes[h].nChainTrust > u.nodes[best].nChainTrust then
      && Intermediate(u, best, h) in u.nodes
      && (ok <==> Adoptable(r, u, disk, best, Intermediate(u, best, h), fCheckSigs)) && best' == (if ok then h else best)
    else
      ok && best' == best
  }

  /** When the tip was the heaviest, no postponed block is ever connected: the blocks up to the intermediate one connect
      only if it is the new block itself. */
  lemma NothingPostponed(r: BlockRules, t: Tree, u: Tree, disk: Disk, best: Hash, h: Hash, fCheckSigs: bool)
    requires t.Valid() && ChoicesKept(r, t, u, disk, best) && Heaviest(r, t, disk, best, fCheckSigs)
    requires h in u.nodes && u.nodes[h].nChainTrust > u.nodes[best].nChainTrust && forall x :: x in u.nodes ==> x == h || x in t.nodes
    requires Intermediate(u, best, h) in u.nodes && Adoptable(r, u, disk, best, Intermediate(u, best, h), fCheckSigs)
    ensures Intermediate(u, best, h) == h
  {
    hide Adoptable, Intermediate, ChoicesKept;
    KeptTrees(r, t, u, disk, best);
    IntermediateIs(u, best, h);
    StillRejected(r, t, u, disk, best, Intermediate(u, best, h), fCheckSigs);
  }

  lemma KeptTrees(r: BlockRules, t: Tree, u: Tree, disk: Disk, best: Hash)
    requires t.Valid() && ChoicesKept(r, t, u, disk, best)
    ensures u.Valid() && Grows(t, u) && best in t.nodes && best in u.nodes
  {
  }

  lemma StillRejected(r: BlockRules, t: Tree, u: Tree, disk: Disk, best: Hash, x: Hash, fCheckSigs: bool)
    requires t.Valid() && ChoicesKept(r, t, u, disk, best) && Heaviest(r, t, disk, best, fCheckSigs)
    requires x in u.nodes && u.nodes[x].nChainTrust > u.nodes[best].nChainTrust
    ensures x in t.nodes ==> !Adoptable(r, u, disk, best, x, fCheckSigs)
  {
    hide Adoptable;
  }

  /** What could be adopted after the tip has moved could have been adopted before. */
  lemma AdoptedBefore(r: BlockRules, u: Tree, disk: Disk, best: Hash, best': Hash, x: Hash, sigs: bool, sigs': bool)
    requires u.Valid() && best in u.nodes && best' in u.nodes && x in u.nodes && (sigs ==> sigs')
    requires best' == best || Adoptable(r, u, disk, best, best', sigs)
    requires Adoptable(r, u, disk, best', x, sigs')
    ensures Adoptable(r, u, disk, best, x, sigs)
  {
    hide Adoptable;
    if sigs != sigs' {
      AdoptableUnchecked(r, u, disk, best', x);
    }
    if best' != best {
      AdoptableThrough(r, u, disk, best, best', x, sigs);
    }
  }

  /** The tip stays the heaviest, as long as the checks do not get weaker. */
  lemma StaysHeaviest(r: BlockRules, t: Tree, u: Tree, disk: Disk, best: Hash, best': Hash, h: Hash, sigs: bool, sigs': bool, ok: bool)
    requires t.Valid() && ChoicesKept(r, t, u, disk, best) && Heaviest(r, t, disk, best, sigs)
    requires h in u.nodes && best' in u.nodes && forall x :: x in u.nodes ==> x == h || x in t.nodes
    requires Moved(r, u, disk, best, best', h, sigs, ok) && (sigs ==> sigs')
    ensures Heaviest(r, u, disk, best', sigs')
  {
    hide Adoptable, Intermediate;
    if u.nodes[h].nChainTrust > u.nodes[best].nChainTrust {
      if ok {
        NothingPostponed(r, t, u, disk, best, h, sigs);
      } else {
        NotAdopted(r, u, disk, best, h, sigs);
      }
    }
    forall x | x in u.nodes && u.nodes[x].nChainTrust > u.nodes[best'].nChainTrust
      ensures !Adoptable(r, u, disk, best', x, sigs')
    {
      StillRejected(r, t, u, disk, best, x, sigs);
      if Adoptable(r, u, disk, best', x, sigs') {
        AdoptedBefore(r, u, disk, best, best', x, sigs, sigs');
      }
    }
  }

  lemma NotAdopted(r: BlockRules, u: Tree, disk: Disk, best: Hash, h: Hash, fCheckSigs: bool)
    requires u.Valid() && best in u.nodes && h in u.nodes && u.nodes[h].nChainTrust > u.nodes[best].nChainTrust
    requires Intermediate(u, best, h) in u.nodes && !Adoptable(r, u, disk, best, Intermediate(u, best, h), fCheckSigs)
    ensures !Adoptable(r, u, disk, best, h, fCheckSigs)
  {
    hide Adoptable, Intermediate;
    IntermediateIs(u, best, h);
    if Adoptable(r, u, disk, best, h, fCheckSigs) {
      AdoptableDown(r, u, disk, best, Intermediate(u, best, h), h, fCheckSigs);
    }
  }
}
