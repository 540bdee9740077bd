/** The chain state and the operations that move its tip: SetBestChainInner, Reorganize, SetBestChain, AcceptBlock and
    FindBlockByHeight (src/main.cpp). A database transaction is a copy of the index that replaces it on commit. */
module ChainStateMachine {
  import opened Wrappers
  import opened Transactions
  import opened BlockTree
  import opened BlockTime
  import opened TxInputs
  import opened BlockConnection
  import opened Targets
  import opened MoneySupply
  import opened BeanbaseHeight
  import opened Replay
  import opened BranchLaws
  import opened MainChain
  import opened TipChoice
  import StakeModifier

  /** Listing one more block on the way down. */
  lemma {:induction false} DownOneMore(t: Tree, tip: Hash, mid: Hash)
    requires t.Valid() && tip in t.nodes && mid in t.nodes && t.Ancestor(mid, tip) && mid != t.genesis
    ensures var p := t.nodes[mid].pprev.value; t.Ancestor(p, tip) && Down(t, tip, p) == Down(t, tip, mid) + [mid]
    decreases t.nodes[tip].nHeight
  {
    var p := t.nodes[mid].pprev.value;
    StepToParent(t, mid, tip);
    if tip != mid {
      DownOneMore(t, t.nodes[tip].pprev.value, mid);
      AncestorHeight(t, mid, tip);
    } else {
      AncestorSelf(t, p);
      assert Down(t, p, p) == [];
    }
  }

  /** The tree of the genesis block. */
  lemma GenesisTree(r: BlockRules, disk: Disk, limit: bool -> nat, t: Tree, fCheckSigs: bool)
    requires t.genesis in t.nodes && t.nodes == map[t.genesis := t.nodes[t.genesis]] && t.nodes[t.genesis].pprev == None
    requires t.nodes[t.genesis].nHeight == 0 && t.nodes[t.genesis].block.nBits < 0x1_0000_0000
    ensures t.Valid() && TreeAccepted(t, disk) && StandsAt(r, t, disk, map[], map[t.genesis := 0], t.genesis)
    ensures LinkMap(t, t.genesis) == map[] && CompactBits(t) && TrustSummed(t) && TargetsRequired(t, limit)
    ensures Heaviest(r, t, disk, t.genesis, fCheckSigs)
  {
    hide BlockTrust, RequiredBits, Adoptable;
  }

  function Abs(x: int): int {
    if x < 0 then -x else x
  }

  lemma ParentIsBelow(t: Tree, h: Hash)
    requires t.Valid() && h in t.nodes && t.nodes[h].nHeight > 0
    ensures h != t.genesis && t.nodes[h].pprev.Some?
    ensures var p := t.nodes[h].pprev.value; p in t.nodes && t.nodes[p].nHeight < t.nodes[h].nHeight
  {
  }

  /** The two walking loops of FindBlockByHeight. */
  method WalkToHeight(t: Tree, pnext: Links, pindexBest: Hash, start: Hash, nHeight: nat) returns (pblockindex: Hash)
    requires t.Valid() && pindexBest in t.nodes && pnext == LinkMap(t, pindexBest)
    requires nHeight <= t.nodes[pindexBest].nHeight && t.Ancestor(start, pindexBest)
    ensures t.Ancestor(pblockindex, pindexBest) && pblockindex == t.Branch(pindexBest)[nHeight]
  {
    hide LinkMap, Tree.Branch, Tree.Valid, Tree.Ancestor;
    pblockindex := start;
    AncestorHeight(t, start, pindexBest);
    while t.nodes[pblockindex].nHeight > nHeight
      invariant pblockindex in t.nodes && t.Ancestor(pblockindex, pindexBest)
      decreases t.nodes[pblockindex].nHeight
    {
      ParentIsBelow(t, pblockindex);
      StepToParent(t, pblockindex, pindexBest);
      pblockindex := t.nodes[pblockindex].pprev.value;
    }
    while t.nodes[pblockindex].nHeight < nHeight
      invariant pblockindex in t.nodes && t.Ancestor(pblockindex, pindexBest) && t.nodes[pblockindex].nHeight <= nHeight
      decreases nHeight - t.nodes[pblockindex].nHeight
    {
      NextOnBranch(t, pindexBest, pblockindex);
      pblockindex := pnext[pblockindex];
    }
    AncestorHeight(t, pblockindex, pindexBest);
  }

  class ChainState {
    const rules: BlockRules
    const limit: bool -> nat            // the easiest target allowed: proof-of-bean (true) or proof-of-work (false)
    const checkpoints: map<nat, Hash>   // the hardened checkpoints by height
    const contextOk: Block -> bool      // AcceptBlock's version, finality, synchronised checkpoint and kernel checks
    const disk: Disk                    // block files: append-only, so their final content says what any read returns
    const hash: (Hash, nat) -> nat      // the hash of a proof hash and a stake modifier
    var tree: Tree                      // mapBlockIndex
    var pnext: Links
    var nMoneySupply: map<Hash, int>
    var txdb: Index
    var hashBestChain: Hash
    var pindexBest: Hash
    var nBestHeight: int
    var nBestChainTrust: nat
    var pblockindexFBBHLast: Option<Hash>
    var mapTx: map<Hash, Tx>            // mempool.mapTx
    var stake: map<Hash, StakeModifier.StakeInfo>
    var setStakeSeen: set<(OutPoint, nat)>

    /** The database, the links and the recorded supplies all stand at block b. */
    ghost predicate At(b: Hash)
      reads this
    {
      && tree.Valid() && b in tree.nodes && TreeAccepted(tree, disk) && HashesIdentify(disk)
      && StandsAt(rules, tree, disk, txdb, nMoneySupply, b)
      && pnext == LinkMap(tree, b)
    }

    /** The state is what connecting every block from genesis to the best block gives. */
    ghost predicate Consistent()
      reads this
    {
      && At(pindexBest)
      && hashBestChain == pindexBest
      && nBestHeight == tree.nodes[pindexBest].nHeight
      && nBestChainTrust == tree.nodes[pindexBest].nChainTrust
      && (pblockindexFBBHLast.Some? ==> tree.Ancestor(pblockindexFBBHLast.value, pindexBest))
      && CompactBits(tree) && TrustSummed(tree) && TargetsRequired(tree, limit)
      && StakeOk(Kernel())
    }

    /** The block index as the stake modifiers see it. */
    ghost function Kernel(): StakeModifier.Kernel
      reads this
    {
      StakeModifier.Kernel(tree, stake, hash)
    }

    /** Every indexed branch with more trust than the best one has a block that does not connect. */
    ghost predicate TipIsHeaviest()
      reads this
    {
      tree.Valid() && pindexBest in tree.nodes && Heaviest(rules, tree, disk, pindexBest, FCheckSigs())
    }

    predicate FCheckSigs()
      reads this
    {
      nBestHeight >= rules.tx.nBlocksEstimate
    }

    /** The state after LoadBlockIndex has stored the genesis block: it is the tip, and nothing is indexed. */
    constructor (rules: BlockRules, limit: bool -> nat, checkpoints: map<nat, Hash>, contextOk: Block -> bool, disk: Disk,
                 hash: (Hash, nat) -> nat, genesis: Block, hashProof: Hash, nFile: nat, nBlockPos: nat)
      requires HashesIdentify(disk) && genesis.nBits < 0x1_0000_0000
      ensures Consistent() && TipIsHeaviest() && pindexBest == genesis.hash && txdb == map[] && pnext == map[]
      ensures tree == Tree(genesis.hash, map[genesis.hash := BlockIndex(None, 0, nFile, nBlockPos, BlockTrust(genesis.nBits), genesis)])
      ensures this.rules == rules && this.limit == limit && this.checkpoints == checkpoints && this.contextOk == contextOk
      ensures this.disk == disk && this.hash == hash
    {
      this.rules, this.limit, this.checkpoints, this.contextOk := rules, limit, checkpoints, contextOk;
      this.disk, this.hash := disk, hash;
      var node := BlockIndex(None, 0, nFile, nBlockPos, BlockTrust(genesis.nBits), genesis);
      tree := Tree(genesis.hash, map[genesis.hash := node]);
      pnext, nMoneySupply, txdb := map[], map[genesis.hash := 0], map[];
      hashBestChain, pindexBest, nBestHeight, nBestChainTrust := genesis.hash, genesis.hash, 0, BlockTrust(genesis.nBits);
      pblockindexFBBHLast, mapTx := None, map[];
      stake, setStakeSeen := map[genesis.hash := StakeModifier.StakeInfo(hashProof, EntropyBit(genesis), 0, true)], {};
      new;
      hide BlockTrust, RequiredBits, Adoptable, HashesIdentify, StandsAt, LinkMap, TreeAccepted, TrustSummed, TargetsRequired, CompactBits, Heaviest;
      GenesisTree(rules, disk, limit, tree, FCheckSigs());
    }

    /** In every consistent state the best block's money supply is the total of all unspent outputs. */
    lemma MoneyIsConserved()
      requires Consistent()
      ensures pindexBest in nMoneySupply && nMoneySupply[pindexBest] == Total(txdb, disk)
    {
      hide BranchGood, ReplayIndex, LinkMap, SupplyAt, TreeAccepted, HashesIdentify, TrustSummed, TargetsRequired;
      AncestorSelf(tree, pindexBest);
      SupplyIsTotalUnspent(rules, tree, disk, pindexBest);
    }

    /** And no unspent output is worth more than it. */
    lemma OutputsWithinSupply(op: OutPoint)
      requires Consistent() && Unspent(txdb, op)
      ensures pindexBest in nMoneySupply && 0 <= DiskValue(txdb, disk, op) <= nMoneySupply[pindexBest]
    {
      hide BranchGood, ReplayIndex, LinkMap, SupplyAt, TreeAccepted, HashesIdentify, TrustSummed, TargetsRequired, DiskValue, Unspent;
      AncestorSelf(tree, pindexBest);
      OutputWithinSupply(rules, tree, disk, pindexBest, op);
    }

    /** In every consistent state the money supply keeps the cap of its height, but for what stray beanstakes mint. */
    lemma SupplyIsBounded()
      requires Consistent()
      ensures pindexBest in nMoneySupply
      ensures nMoneySupply[pindexBest] <= SupplyCap(nBestHeight) + StrayMintAt(rules.tx, tree, disk, pindexBest)
      ensures NoStrayStakes(tree, pindexBest) ==> nMoneySupply[pindexBest] <= SupplyCap(nBestHeight)
    {
      hide BranchGood, ReplayIndex, LinkMap, SupplyAt, TreeAccepted, HashesIdentify, TrustSummed, TargetsRequired, SupplyCap;
      AncestorSelf(tree, pindexBest);
      SupplyBound(rules, tree, disk, pindexBest);
    }

    /** In every consistent state the best branch spends beanbases and beanstakes only as deep as the maturity asks. */
    lemma SpendsAreMature(b: Place, i: nat, a: Place)
      requires Consistent() && Spends(tree, pindexBest, b, i, a) && (TxAt(tree, a).IsBeanBase() || TxAt(tree, a).IsBeanStake())
      ensures HeightOf(tree, b) - HeightOf(tree, a) >= rules.tx.nBeanbaseMaturity
    {
      hide BranchGood, ReplayIndex, LinkMap, TreeAccepted, HashesIdentify, TrustSummed, TargetsRequired, SupplyRecorded, Spends, TxAt, HeightOf;
      SpendsMature(rules, tree, disk, pindexBest, b, i, a);
    }

    /** And it spends no output twice. */
    lemma NothingIsSpentTwice(a: Place, i: nat, b: Place, j: nat)
      requires Consistent() && OnBranch(tree, pindexBest, a) && OnBranch(tree, pindexBest, b)
      requires !TxAt(tree, a).IsBeanBase() && !TxAt(tree, b).IsBeanBase() && i < |TxAt(tree, a).vin| && j < |TxAt(tree, b).vin|
      requires TxAt(tree, a).vin[i].prevout == TxAt(tree, b).vin[j].prevout
      ensures a == b && i == j
    {
      hide BranchGood, ReplayIndex, LinkMap, TreeAccepted, HashesIdentify, TrustSummed, TargetsRequired, SupplyRecorded;
      SpentOnce(rules, tree, disk, pindexBest, a, i, b, j);
    }

    /** In every consistent state a block is in the main chain exactly when it is the tip or an ancestor of it. */
    lemma MainChainIsBestBranch(h: Hash)
      requires Consistent()
      ensures IsInMainChain(pnext, pindexBest, h) <==> tree.Ancestor(h, pindexBest)
    {
      hide StandsAt, LinkMap, TreeAccepted, HashesIdentify, TrustSummed, TargetsRequired;
      InMainChainIffAncestor(tree, pindexBest, h);
    }

    /** FindBlockByHeight, with the last answer cached: start at genesis, the tip or the cached block, whichever is
        nearest, and follow pprev or pnext. */
    method FindBlockByHeight(nHeight: nat) returns (pblockindex: Hash)
      requires Consistent() && nHeight <= nBestHeight
      modifies this`pblockindexFBBHLast
      ensures Consistent()
      ensures pblockindex == tree.Branch(pindexBest)[nHeight]
    {
      hide StandsAt, LinkMap, TreeAccepted, HashesIdentify, TrustSummed, TargetsRequired;
      pblockindex := NearestStart(nHeight);
      pblockindex := WalkToHeight(tree, pnext, pindexBest, pblockindex, nHeight);
      pblockindexFBBHLast := Some(pblockindex);
    }

    /** Where FindBlockByHeight starts: genesis, the tip or the cached block, whichever is nearest. */
    method NearestStart(nHeight: nat) returns (pblockindex: Hash)
      requires Consistent()
      ensures tree.Ancestor(pblockindex, pindexBest)
    {
      hide StandsAt, LinkMap, TreeAccepted, HashesIdentify, TrustSummed, TargetsRequired;
      GenesisIsAncestor(tree, pindexBest);
      AncestorSelf(tree, pindexBest);
      pblockindex := if nHeight < nBestHeight / 2 then tree.genesis else pindexBest;
      match pblockindexFBBHLast {
        case None =>
        case Some(last) =>
          AncestorHeight(tree, last, pindexBest);
          if Abs(nHeight - tree.nodes[pblockindex].nHeight) > Abs(nHeight - tree.nodes[last].nHeight) {
            pblockindex := last;
          }
      }
    }

    /** SetBestChainInner: connect block b on top of the chain being built, in its own database transaction. */
    method SetBestChainInner(b: Hash) returns (ok: bool)
      requires tree.Valid() && b in tree.nodes && b != tree.genesis && At(tree.nodes[b].pprev.value)
      modifies this`txdb, this`pnext, this`nMoneySupply
      ensures ok <==> Connects(rules, tree, disk, b, FCheckSigs())
      ensures ok ==> At(b)
      ensures !ok ==> txdb == old(txdb) && pnext == old(pnext) && nMoneySupply == old(nMoneySupply)
      ensures old(nMoneySupply.Keys) <= nMoneySupply.Keys
    {
      hide Connects, BranchGood, ReplayIndex, TreeAccepted, HashesIdentify, SupplyRecorded;
      var p := tree.nodes[b].pprev.value;
      var batch, supply;
      ok, batch, supply := AdvanceTip(rules, tree, disk, mapTx, txdb, p, b, nBestHeight, nMoneySupply);
      if !ok {
        return;
      }
      txdb := batch;
      nMoneySupply := supply;
      pnext := pnext[p := b];
    }

    /** Reorganize: switch from the best branch to pindexNew's in one database transaction. It succeeds exactly when
        every block above the fork connects; otherwise the database and the links are untouched. */
    method Reorganize(pindexNew: Hash) returns (ok: bool)
      requires At(pindexBest) && pindexNew in tree.nodes
      modifies this`txdb, this`pnext, this`nMoneySupply
      ensures ok <==> Adoptable(rules, tree, disk, pindexBest, pindexNew, FCheckSigs())
      ensures ok ==> At(pindexNew)
      ensures !ok ==> txdb == old(txdb) && pnext == old(pnext) && At(pindexBest)
      ensures old(nMoneySupply.Keys) <= nMoneySupply.Keys
    {
      hide Connects, BranchGood, ReplayIndex, TreeAccepted, HashesIdentify, SupplyRecorded, BranchRecorded, AllConnect, Fork, Up, Down, LinkMap,
           Adoptable;
      var pfork := FindFork(tree, pindexBest, pindexNew);
      AdoptableIs(rules, tree, disk, pindexBest, pindexNew, FCheckSigs());
      ForkIsLowestCommonAncestor(tree, pindexBest, pindexNew);
      var vDisconnect := ListDown(tree, pindexBest, pfork);
      var vConnect := ListDown(tree, pindexNew, pfork);
      ReversedDownIsUp(tree, pindexNew, pfork);
      vConnect := Reverse(vConnect);
      var batch, supply;
      ok, batch := DisconnectPath(rules, tree, disk, txdb, pindexBest, pfork, vDisconnect);
      if !ok {
        return;
      }
      BranchRecordedDown(tree, nMoneySupply, pfork, pindexBest);
      ok, batch, supply := ConnectPath(rules, tree, disk, mapTx, batch, pfork, pindexNew, vConnect, nBestHeight, nMoneySupply);
      BranchRecordedMore(tree, nMoneySupply, supply, pindexBest);
      nMoneySupply := supply;
      if !ok {
        return;
      }
      txdb := batch;
      var links := UnlinkPath(tree, pnext, pindexBest, pfork, vDisconnect);
      links := LinkPath(tree, links, pfork, pindexNew, vConnect);
      pnext := links;
    }

    /** Where the second phase has stopped: every block up to `reached` connects, and the next one, if there is one, does
        not. */
    ghost predicate StopsAt(best: Hash, mid: Hash, tip: Hash, reached: Hash, fCheckSigs: bool)
      reads this
    {
      && tree.Valid() && best in tree.nodes && tip in tree.nodes && reached in tree.nodes
      && tree.Ancestor(mid, reached) && tree.Ancestor(reached, tip)
      && Adoptable(rules, tree, disk, best, reached, fCheckSigs)
      && (reached != tip ==> NextFails(rules, tree, disk, reached, tip, fCheckSigs))
    }

    /** Index and links stand at `reached`: at the tip, or where the second phase has stopped on the way to block h. */
    ghost predicate StandsWhere(best: Hash, h: Hash, reached: Hash, fCheckSigs: bool)
      requires tree.Valid() && best in tree.nodes && h in tree.nodes
      reads this
    {
      && At(reached)
      && (if pindexBest == h then StopsAt(best, Intermediate(tree, best, h), h, reached, fCheckSigs) else reached == pindexBest)
    }

    /** SetBestChain: make pindexNew, which has more trust than the best block, the best one. A long new branch is
        connected in two phases: Reorganize up to `mid`, the first block that beats the old best, then the postponed rest
        one block at a time.
        - It returns true if and only if the blocks up to `mid` connect; otherwise nothing but some recorded supplies has
          changed.
        - The state is consistent afterwards unless the blocks up to `mid` connect and one of the postponed ones does not.
          Then the tip has moved all the same, and database and links stand at `reached`, the last block that connects. */
    method SetBestChain(pindexNew: Hash) returns (ok: bool, ghost reached: Hash)
      requires Consistent() && pindexNew in tree.nodes && tree.nodes[pindexNew].nChainTrust > nBestChainTrust
      modifies this`txdb, this`pnext, this`nMoneySupply, this`hashBestChain, this`pindexBest, this`nBestHeight,
               this`nBestChainTrust, this`pblockindexFBBHLast
      ensures var mid, sigs := Intermediate(tree, old(pindexBest), pindexNew), old(FCheckSigs());
              && mid in tree.nodes
              && (ok <==> Adoptable(rules, tree, disk, old(pindexBest), mid, sigs))
              && (Consistent() <==> (ok ==> Adoptable(rules, tree, disk, old(pindexBest), pindexNew, sigs)))
              && (ok ==> StopsAt(old(pindexBest), mid, pindexNew, reached, sigs))
      ensures ok ==> pindexBest == pindexNew && nBestHeight == tree.nodes[pindexNew].nHeight
                     && nBestChainTrust == tree.nodes[pindexNew].nChainTrust && At(reached)
      ensures !ok ==> txdb == old(txdb) && pnext == old(pnext) && pindexBest == old(pindexBest) && hashBestChain == old(hashBestChain)
                      && nBestHeight == old(nBestHeight) && nBestChainTrust == old(nBestChainTrust)
                      && pblockindexFBBHLast == old(pblockindexFBBHLast)
      ensures old(nMoneySupply.Keys) <= nMoneySupply.Keys
    {
      hide Connects, BranchGood, ReplayIndex, TreeAccepted, HashesIdentify, StandsAt, LinkMap, TrustSummed, TargetsRequired, CompactBits,
           StakeOk, Intermediate, Adoptable, NextFails;
      reached := pindexNew;
      IntermediateIs(tree, pindexBest, pindexNew);
      AncestorSelf(tree, pindexNew);
      if tree.nodes[pindexNew].block.hashPrevBlock == hashBestChain {
        NewTipIsNotGenesis(tree, pindexBest, pindexNew);
        ChildOfBest(rules, tree, disk, pindexBest, pindexNew, FCheckSigs());
        ok := SetBestChainInner(pindexNew);
      } else {
        ok, reached := SwitchBranch(pindexNew);
      }
      if !ok {
        return;
      }
      NewBest(pindexNew, reached);
    }

    /** The last lines of SetBestChain, whether or not database and links have reached the new tip. */
    method NewBest(pindexNew: Hash, ghost reached: Hash)
      requires At(reached) && reached in tree.nodes && pindexNew in tree.nodes && tree.Ancestor(reached, pindexNew)
      requires CompactBits(tree) && TrustSummed(tree) && TargetsRequired(tree, limit) && StakeOk(Kernel())
      modifies this`hashBestChain, this`pindexBest, this`nBestHeight, this`nBestChainTrust, this`pblockindexFBBHLast
      ensures pindexBest == pindexNew && nBestHeight == tree.nodes[pindexNew].nHeight
              && nBestChainTrust == tree.nodes[pindexNew].nChainTrust && At(reached)
      ensures Consistent() <==> reached == pindexNew
    {
      hide TreeAccepted, HashesIdentify, StandsAt, LinkMap, TrustSummed, TargetsRequired, CompactBits, StakeOk;
      hashBestChain := pindexNew;
      pindexBest := pindexNew;
      pblockindexFBBHLast := None;
      nBestHeight := tree.nodes[pindexBest].nHeight;
      nBestChainTrust := tree.nodes[pindexNew].nChainTrust;
      if reached != pindexNew {
        LinksTellBranchesApart(tree, reached, pindexNew);
      }
    }

    /** SetBestChain when the new tip is not a child of the best block: Reorganize up to the first block that beats the
        old best, then connect the postponed rest. */
    method SwitchBranch(pindexNew: Hash) returns (ok: bool, ghost reached: Hash)
      requires At(pindexBest) && pindexNew in tree.nodes
      requires tree.nodes[pindexNew].nChainTrust > tree.nodes[pindexBest].nChainTrust
      modifies this`txdb, this`pnext, this`nMoneySupply
      ensures var mid, sigs := Intermediate(tree, pindexBest, pindexNew), FCheckSigs();
              && mid in tree.nodes
              && (ok <==> Adoptable(rules, tree, disk, pindexBest, mid, sigs))
              && (ok ==> StopsAt(pindexBest, mid, pindexNew, reached, sigs) && At(reached))
              && (ok ==> (reached == pindexNew <==> Adoptable(rules, tree, disk, pindexBest, pindexNew, sigs)))
              && (Adoptable(rules, tree, disk, pindexBest, pindexNew, sigs) ==> ok)
      ensures !ok ==> txdb == old(txdb) && pnext == old(pnext) && At(pindexBest)
      ensures old(nMoneySupply.Keys) <= nMoneySupply.Keys
    {
      hide Connects, BranchGood, ReplayIndex, TreeAccepted, HashesIdentify, StandsAt, LinkMap, Down, Up, Intermediate, Adoptable, NextFails;
      reached := pindexNew;
      NewTipIsAboveFork(tree, pindexBest, pindexNew);
      IntermediateIs(tree, pindexBest, pindexNew);
      var pindexIntermediate, vpindexSecondary := ListPostponed(pindexNew);
      if Adoptable(rules, tree, disk, pindexBest, pindexNew, FCheckSigs()) {
        AdoptableDown(rules, tree, disk, pindexBest, pindexIntermediate, pindexNew, FCheckSigs());
      }
      ok := Reorganize(pindexIntermediate);
      if !ok {
        return;
      }
      ReversedDownIsUp(tree, pindexNew, pindexIntermediate);
      reached := ConnectPostponed(pindexIntermediate, pindexNew, Reverse(vpindexSecondary));
    }

    /** SetBestChain's walk back to the first block of the new chain that beats the old best: it stops strictly above
        the fork. */
    method ListPostponed(pindexNew: Hash) returns (pindexIntermediate: Hash, vpindexSecondary: seq<Hash>)
      requires tree.Valid() && pindexBest in tree.nodes && pindexNew in tree.nodes
      requires AboveFork(tree, pindexBest, pindexNew, pindexNew)
      ensures pindexIntermediate == Intermediate(tree, pindexBest, pindexNew)
      ensures AboveFork(tree, pindexBest, pindexNew, pindexIntermediate)
      ensures vpindexSecondary == Down(tree, pindexNew, pindexIntermediate)
    {
      hide Fork;
      pindexIntermediate, vpindexSecondary := pindexNew, [];
      IntermediateStep(tree, pindexBest, pindexNew, pindexIntermediate);
      while tree.nodes[pindexIntermediate].pprev.Some?
            && tree.nodes[tree.nodes[pindexIntermediate].pprev.value].nChainTrust > tree.nodes[pindexBest].nChainTrust
        invariant AboveFork(tree, pindexBest, pindexNew, pindexIntermediate)
        invariant Intermediate(tree, pindexBest, pindexIntermediate) == Intermediate(tree, pindexBest, pindexNew)
        invariant vpindexSecondary == Down(tree, pindexNew, pindexIntermediate)
        invariant tree.nodes[pindexIntermediate].pprev.Some?
        decreases tree.nodes[pindexIntermediate].nHeight
      {
        IntermediateStep(tree, pindexBest, pindexNew, pindexIntermediate);
        DownOneMore(tree, pindexNew, pindexIntermediate);
        vpindexSecondary := vpindexSecondary + [pindexIntermediate];
        pindexIntermediate := tree.nodes[pindexIntermediate].pprev.value;
        IntermediateStep(tree, pindexBest, pindexNew, pindexIntermediate);
      }
    }

    /** SetBestChain's second phase: it stops, without an error, at the first block that does not connect. */
    method ConnectPostponed(mid: Hash, pindexNew: Hash, v: seq<Hash>) returns (ghost reached: Hash)
      requires At(mid) && mid in tree.nodes && pindexNew in tree.nodes && tree.Ancestor(mid, pindexNew)
      requires pindexBest in tree.nodes && AboveFork(tree, pindexBest, pindexNew, mid)
      requires Adoptable(rules, tree, disk, pindexBest, mid, FCheckSigs())
      requires v == Up(tree, mid, pindexNew)
      modifies this`txdb, this`pnext, this`nMoneySupply
      ensures StopsAt(pindexBest, mid, pindexNew, reached, FCheckSigs()) && At(reached)
      ensures reached == pindexNew <==> Adoptable(rules, tree, disk, pindexBest, pindexNew, FCheckSigs())
      ensures old(nMoneySupply.Keys) <= nMoneySupply.Keys
    {
      hide Connects, TreeAccepted, HashesIdentify, LinkMap, StandsAt, Up, Adoptable, AboveFork;
      reached := mid;
      UpEnds(tree, mid, pindexNew);
      AncestorSelf(tree, mid);
      var i := 0;
      while i < |v|
        invariant 0 <= i <= |v|
        invariant reached == if i == 0 then mid else v[i - 1]
        invariant i == |v| ==> reached == pindexNew
        invariant At(reached) && tree.Ancestor(mid, reached) && tree.Ancestor(reached, pindexNew)
        invariant Adoptable(rules, tree, disk, pindexBest, reached, FCheckSigs())
        invariant old(nMoneySupply.Keys) <= nMoneySupply.Keys
      {
        PostponedStep(rules, tree, disk, pindexBest, mid, pindexNew, reached, i, FCheckSigs());
        var ok := SetBestChainInner(v[i]);
        if !ok {
          return;
        }
        reached := v[i];
        i := i + 1;
      }
    }

    /** The memory pool may change at any time: nothing else depends on it. */
    method SetPool(pool: map<Hash, Tx>)
      requires Consistent()
      modifies this`mapTx
      ensures mapTx == pool && Consistent() && TipIsHeaviest() == old(TipIsHeaviest())
    {
      hide StandsAt, LinkMap, TreeAccepted, HashesIdentify, TargetsRequired, TrustSummed, StakeOk, Heaviest, CompactBits;
      mapTx := pool;
    }

    /** AcceptBlock, from CheckBlock on: check the block against the chain and index it. The block has been written to
        the block files at (nFile, nBlockPos). Index and links end up at `reached`. */
    method AcceptBlock(block: Block, hashProof: Hash, nFile: nat, nBlockPos: nat)
      returns (ok: bool, indexed: bool, ghost reached: Hash)
      requires Consistent() && BlockWellFormed(rules, block) && block.nBits < 0x1_0000_0000
      requires forall h :: h in tree.nodes ==> tree.nodes[h].nHeight < 0x7FFF_FFFF
      requires OnDisk(disk, BlockIndex(None, 0, nFile, nBlockPos, 0, block))
      modifies this
      ensures indexed <==> old(MayBeIndexed(tree, limit, checkpoints, contextOk, block))
      ensures !indexed ==> !ok && tree == old(tree) && Consistent() && TipIsHeaviest() == old(TipIsHeaviest())
      ensures indexed ==> old(block.hashPrevBlock in tree.nodes) && tree == WithNode(old(tree), block, nFile, nBlockPos)
      ensures indexed ==> tree.Valid() && old(pindexBest) in tree.nodes && block.hash in tree.nodes
                          && Moved(rules, tree, disk, old(pindexBest), pindexBest, block.hash, old(FCheckSigs()), ok)
                          && (Consistent() <==> (pindexBest == block.hash ==>
                                Adoptable(rules, tree, disk, old(pindexBest), block.hash, old(FCheckSigs()))))
                          && StandsWhere(old(pindexBest), block.hash, reached, old(FCheckSigs()))
      ensures !indexed ==> reached == pindexBest
      ensures !ok ==> Consistent() && txdb == old(txdb) && pnext == old(pnext) && pindexBest == old(pindexBest)
      ensures old(TipIsHeaviest()) ==> Consistent() && ((old(FCheckSigs()) ==> FCheckSigs()) ==> TipIsHeaviest())
    {
      hide MayBeIndexed, StandsAt, LinkMap, TreeAccepted, HashesIdentify, TargetsRequired, TrustSummed, StakeOk, Adoptable, Heaviest, Moved,
           NodeAccepted, RequiredBits, NewNode, StopsAt, Intermediate;
      reached := pindexBest;
      indexed := CheckAccept(tree, limit, checkpoints, contextOk, block);
      if !indexed {
        return false, indexed, reached;
      }
      AcceptedNode(tree, disk, limit, checkpoints, contextOk, block, nFile, nBlockPos);
      ok, reached := AddToBlockIndex(block, hashProof, nFile, nBlockPos);
    }

    /** AddToBlockIndex: insert the block and, if it has more trust than the tip, try to make it the tip.
        - The tip moves, to the new block, exactly when it is heavier and the blocks up to the intermediate one connect.
        - The state is consistent afterwards unless then one of the postponed blocks does not connect. That cannot happen
          when the tip was the heaviest.
        - The tip stays the heaviest as long as the height does not fall below the one up to which signatures are not
          checked. */
    method AddToBlockIndex(block: Block, hashProof: Hash, nFile: nat, nBlockPos: nat) returns (ok: bool, ghost reached: Hash)
      requires Consistent() && block.hash !in tree.nodes && block.hashPrevBlock in tree.nodes && block.nBits < 0x1_0000_0000
      requires var node := NewNode(tree, block, nFile, nBlockPos);
               && NodeAccepted(disk, node)
               && block.nBits == RequiredBits(tree, block.hashPrevBlock, block.IsProofOfStake(), limit(block.IsProofOfStake()))
      modifies this
      ensures tree == WithNode(old(tree), block, nFile, nBlockPos) && tree.Valid()
      ensures NewStake(old(Kernel()), stake, block, hashProof) && setStakeSeen == old(setStakeSeen) + SeenStake(block)
      ensures old(pindexBest) in tree.nodes && block.hash in tree.nodes
              && Moved(rules, tree, disk, old(pindexBest), pindexBest, block.hash, old(FCheckSigs()), ok)
              && (Consistent() <==> (pindexBest == block.hash ==>
                    Adoptable(rules, tree, disk, old(pindexBest), block.hash, old(FCheckSigs()))))
              && StandsWhere(old(pindexBest), block.hash, reached, old(FCheckSigs()))
      ensures !ok ==> Consistent() && txdb == old(txdb) && pnext == old(pnext) && pindexBest == old(pindexBest)
      ensures old(TipIsHeaviest()) ==> Consistent() && ((old(FCheckSigs()) ==> FCheckSigs()) ==> TipIsHeaviest())
    {
      hide NewNode, NodeAccepted, RequiredBits, At, StandsAt, LinkMap, TreeAccepted, HashesIdentify, TargetsRequired, TrustSummed, StakeOk,
           CompactBits, Adoptable, Heaviest, Intermediate, StopsAt, ChoicesKept, NewStake;
      ok, reached := true, pindexBest;
      InsertBlock(block, hashProof, nFile, nBlockPos);
      KeptTrees(rules, old(tree), tree, disk, pindexBest);
      if tree.nodes[block.hash].nChainTrust > nBestChainTrust {
        ok, reached := SetBestChain(block.hash);
        if !ok {
          reached := pindexBest;
        }
        if ok && old(TipIsHeaviest()) {
          NothingPostponed(rules, old(tree), tree, disk, old(pindexBest), block.hash, old(FCheckSigs()));
        }
      }
      if old(TipIsHeaviest()) && (old(FCheckSigs()) ==> FCheckSigs()) {
        StaysHeaviest(rules, old(tree), tree, disk, old(pindexBest), pindexBest, block.hash, old(FCheckSigs()), FCheckSigs(), ok);
      }
    }

    /** The first half of AddToBlockIndex: make the CBlockIndex, with the stake modifier that follows from its
        ancestors', and insert it. The modifier can always be computed. */
    method InsertBlock(block: Block, hashProof: Hash, nFile: nat, nBlockPos: nat)
      requires Consistent() && block.hash !in tree.nodes && block.hashPrevBlock in tree.nodes && block.nBits < 0x1_0000_0000
      requires var node := NewNode(tree, block, nFile, nBlockPos);
               && NodeAccepted(disk, node)
               && block.nBits == RequiredBits(tree, block.hashPrevBlock, block.IsProofOfStake(), limit(block.IsProofOfStake()))
      modifies this`tree, this`stake, this`setStakeSeen
      ensures tree == WithNode(old(tree), block, nFile, nBlockPos)
      ensures Consistent() && old(tree).Valid() && ChoicesKept(rules, old(tree), tree, disk, pindexBest)
      ensures NewStake(old(Kernel()), stake, block, hashProof) && setStakeSeen == old(setStakeSeen) + SeenStake(block)
    {
      hide LinkMap, NewNode, NodeAccepted, RequiredBits, StandsAt, NextModifier, TreeAccepted, TargetsRequired, TrustSummed, HashesIdentify,
           ChoicesKept;
      var nStakeModifier, fGenerated := ComputeModifier(block.hashPrevBlock);
      stake := stake[block.hash := StakeModifier.StakeInfo(hashProof, EntropyBit(block), nStakeModifier, fGenerated)];
      InsertNode(block, nFile, nBlockPos);
      setStakeSeen := setStakeSeen + SeenStake(block);
    }

    /** mapBlockIndex.insert, for a block whose stake modifier is set. */
    method InsertNode(block: Block, nFile: nat, nBlockPos: nat)
      requires Consistent() && block.hash !in tree.nodes && block.hashPrevBlock in tree.nodes && block.nBits < 0x1_0000_0000
      requires block.hash in stake
      requires var node := NewNode(tree, block, nFile, nBlockPos);
               && NodeAccepted(disk, node)
               && block.nBits == RequiredBits(tree, block.hashPrevBlock, block.IsProofOfStake(), limit(block.IsProofOfStake()))
      modifies this`tree
      ensures tree == WithNode(old(tree), block, nFile, nBlockPos)
      ensures Consistent() && old(tree).Valid() && ChoicesKept(rules, old(tree), tree, disk, pindexBest)
    {
      hide LinkMap, RequiredBits, BlockTrust, NodeAccepted, StandsAt, TreeAccepted, TargetsRequired, TrustSummed, HashesIdentify, ChoicesKept;
      var grown := WithNode(tree, block, nFile, nBlockPos);
      GrownTree(tree, disk, limit, block, nFile, nBlockPos);
      StandsAtStable(rules, tree, grown, disk, txdb, nMoneySupply, pindexBest);
      BranchStable(tree, grown, pindexBest);
      GrowingKeepsChoices(rules, tree, grown, disk, pindexBest);
      tree := grown;
    }

    /** ComputeNextStakeModifier on the block index. Genesis has a modifier, so there always is a last one. */
    method ComputeModifier(pindexPrev: Hash) returns (nStakeModifier: nat, fGenerated: bool)
      requires StakeOk(Kernel()) && pindexPrev in tree.nodes
      ensures NextModifier(Kernel(), pindexPrev, nStakeModifier, fGenerated)
    {
      hide StakeModifier.NewModifier;
      ghost var k := Kernel();
      LastExists(k, pindexPrev);
      var ok;
      ghost var cands, picks;
      ok, nStakeModifier, fGenerated, cands, picks :=
        StakeModifier.ComputeNextStakeModifier(StakeModifier.Kernel(tree, stake, hash), Some(pindexPrev));
    }
  }

  // ------------------------------------------------------------------ stake modifiers

  /** Every indexed block has its entropy bit and modifier, and genesis has generated one. */
  ghost predicate StakeOk(k: StakeModifier.Kernel) {
    k.Valid() && k.stake[k.t.genesis].fGenerated
  }

  /** The modifier that follows on block p: a new one in a new interval, else the last one. */
  ghost predicate NextModifier(k: StakeModifier.Kernel, p: Hash, m: nat, fGenerated: bool)
    requires k.Valid() && p in k.t.nodes
  {
    var g := StakeModifier.LastGenerated(k, p);
    && g.Some?
    && (fGenerated <==> k.Time(g.value) / StakeModifier.MODIFIER_INTERVAL < k.Time(p) / StakeModifier.MODIFIER_INTERVAL)
    && (!fGenerated ==> m == k.stake[g.value].nStakeModifier)
    && (fGenerated ==> exists cands, picks :: StakeModifier.NewModifier(k, p, k.stake[g.value].nStakeModifier, m, cands, picks))
  }

  lemma {:induction false} LastExists(k: StakeModifier.Kernel, h: Hash)
    requires StakeOk(k) && h in k.t.nodes
    ensures StakeModifier.LastGenerated(k, h).Some?
    decreases k.t.nodes[h].nHeight
  {
    if h != k.t.genesis && !k.stake[h].fGenerated {
      LastExists(k, k.t.nodes[h].pprev.value);
    }
  }

  /** The stake information after a block has been indexed: its own, and what was there. */
  ghost predicate NewStake(k: StakeModifier.Kernel, stake: map<Hash, StakeModifier.StakeInfo>, block: Block, hashProof: Hash)
    requires k.Valid() && block.hashPrevBlock in k.t.nodes
  {
    && block.hash in stake && stake == k.stake[block.hash := stake[block.hash]]
    && stake[block.hash].hashProof == hashProof && stake[block.hash].nStakeEntropyBit == block.hash as int % 2
    && NextModifier(k, block.hashPrevBlock, stake[block.hash].nStakeModifier, stake[block.hash].fGenerated)
  }

  /** CBlock::GetStakeEntropyBit: the last bit of the block hash. */
  function EntropyBit(block: Block): nat {
    block.hash as int % 2
  }

  /** What a proof-of-bean block enters into setStakeSeen. */
  function SeenStake(block: Block): set<(OutPoint, nat)> {
    if block.IsProofOfStake() then {(block.vtx[1].vin[0].prevout, block.vtx[1].nTime)} else {}
  }

  // ------------------------------------------------------------------ how the tip moves

  /** The next block on the way from `reached` to the tip does not connect. */
  ghost predicate NextFails(r: BlockRules, t: Tree, disk: Disk, reached: Hash, tip: Hash, fCheckSigs: bool)
    requires t.Valid() && tip in t.nodes
  {
    exists n :: t.Ancestor(n, tip) && n in t.nodes && n != t.genesis && t.nodes[n].pprev == Some(reached)
                && !Connects(r, t, disk, n, fCheckSigs)
  }

  lemma NewTipIsNotGenesis(t: Tree, pindexBest: Hash, h: Hash)
    requires t.Valid() && pindexBest in t.nodes && h in t.nodes && t.nodes[h].nChainTrust > t.nodes[pindexBest].nChainTrust
    ensures h != t.genesis
  {
    GenesisIsAncestor(t, pindexBest);
    AncestorTrust(t, t.genesis, pindexBest);
  }

  /** Checkpoints::CheckHardened. */
  predicate CheckHardened(checkpoints: map<nat, Hash>, nHeight: nat, hash: Hash) {
    nHeight in checkpoints ==> hash == checkpoints[nHeight]
  }

  /** A block AcceptBlock indexes: new, on a known parent, with proof-of-work only up to its last height, the required
      target, a time after the last ones, the hash of a checkpoint at its height, and its height in the beanbase. */
  ghost predicate MayBeIndexed(t: Tree, limit: bool -> nat, checkpoints: map<nat, Hash>, contextOk: Block -> bool, block: Block)
    requires t.Valid() && CompactBits(t) && |block.vtx| > 0 && |block.vtx[0].vin| > 0
    requires forall h :: h in t.nodes ==> t.nodes[h].nHeight < 0x7FFF_FFFF
  {
    && block.hash !in t.nodes && block.hashPrevBlock in t.nodes && contextOk(block)
    && var nHeight := t.nodes[block.hashPrevBlock].nHeight + 1;
       && (!block.IsProofOfStake() ==> nHeight <= LAST_POW_BLOCK)
       && block.nBits == RequiredBits(t, block.hashPrevBlock, block.IsProofOfStake(), limit(block.IsProofOfStake()))
       && TimeOk(t, block.hashPrevBlock, block.nTime)
       && CheckHardened(checkpoints, nHeight, block.hash)
       && HeightScript(nHeight) <= block.vtx[0].vin[0].scriptSig
  }

  /** AcceptBlock's checks of a block against the tree. */
  method CheckAccept(t: Tree, limit: bool -> nat, checkpoints: map<nat, Hash>, contextOk: Block -> bool, block: Block)
    returns (ok: bool)
    requires t.Valid() && CompactBits(t) && |block.vtx| > 0 && |block.vtx[0].vin| > 0
    requires forall h :: h in t.nodes ==> t.nodes[h].nHeight < 0x7FFF_FFFF
    ensures ok <==> MayBeIndexed(t, limit, checkpoints, contextOk, block)
  {
    hide RequiredBits, HeightScript, MedianTime, IsMedian, CompactBits, Tree.Valid;
    if block.hash in t.nodes {
      return false;
    }
    if block.hashPrevBlock !in t.nodes {
      return false;
    }
    var nHeight := t.nodes[block.hashPrevBlock].nHeight + 1;
    if !block.IsProofOfStake() && nHeight > LAST_POW_BLOCK {
      return false;
    }
    var nRequired := GetNextTargetRequired(t, block.hashPrevBlock, block.IsProofOfStake(), limit(block.IsProofOfStake()));
    if block.nBits != nRequired {
      return false;
    }
    var nPastTimeLimit := MedianTimePast(t, block.hashPrevBlock);
    if block.nTime <= nPastTimeLimit || FutureDrift(block.nTime) < t.nodes[block.hashPrevBlock].block.nTime {
      return false;
    }
    if !CheckHardened(checkpoints, nHeight, block.hash) || !contextOk(block) {
      return false;
    }
    return HeightScript(nHeight) <= block.vtx[0].vin[0].scriptSig;
  }

  /** The CBlockIndex of a new block. */
  function NewNode(t: Tree, block: Block, nFile: nat, nBlockPos: nat): BlockIndex
    requires block.hashPrevBlock in t.nodes && block.nBits < 0x1_0000_0000
  {
    var prev := t.nodes[block.hashPrevBlock];
    BlockIndex(Some(block.hashPrevBlock), prev.nHeight + 1, nFile, nBlockPos, prev.nChainTrust + BlockTrust(block.nBits), block)
  }

  function WithNode(t: Tree, block: Block, nFile: nat, nBlockPos: nat): Tree
    requires block.hashPrevBlock in t.nodes && block.nBits < 0x1_0000_0000
  {
    t.(nodes := t.nodes[block.hash := NewNode(t, block, nFile, nBlockPos)])
  }

  lemma SamePlace(a: BlockIndex, b: BlockIndex, k: nat)
    requires a.nFile == b.nFile && a.nBlockPos == b.nBlockPos && a.block == b.block && k < |a.block.vtx|
    ensures TxPos(a, k) == TxPos(b, k)
  {
  }

  lemma AcceptedNode(t: Tree, disk: Disk, limit: bool -> nat, checkpoints: map<nat, Hash>, contextOk: Block -> bool, block: Block,
                     nFile: nat, nBlockPos: nat)
    requires t.Valid() && CompactBits(t) && |block.vtx| > 0 && |block.vtx[0].vin| > 0 && block.nBits < 0x1_0000_0000
    requires forall h :: h in t.nodes ==> t.nodes[h].nHeight < 0x7FFF_FFFF
    requires OnDisk(disk, BlockIndex(None, 0, nFile, nBlockPos, 0, block))
    requires MayBeIndexed(t, limit, checkpoints, contextOk, block)
    ensures block.hashPrevBlock in t.nodes && block.hash !in t.nodes
    ensures NodeAccepted(disk, NewNode(t, block, nFile, nBlockPos))
    ensures block.nBits == RequiredBits(t, block.hashPrevBlock, block.IsProofOfStake(), limit(block.IsProofOfStake()))
  {
    hide BlockTrust, RequiredBits, TimeOk, CheckHardened, HeightScript, TxPos;
    var node := NewNode(t, block, nFile, nBlockPos);
    forall k | 0 <= k < |block.vtx|
      ensures TxPos(node, k) in disk && disk[TxPos(node, k)] == block.vtx[k]
    {
      SamePlace(node, BlockIndex(None, 0, nFile, nBlockPos, 0, block), k);
    }
  }

  /** Inserting an accepted block keeps everything known about the tree. */
  lemma GrownTree(t: Tree, disk: Disk, limit: bool -> nat, block: Block, nFile: nat, nBlockPos: nat)
    requires t.Valid() && TreeAccepted(t, disk) && TrustSummed(t) && TargetsRequired(t, limit)
    requires block.hash !in t.nodes && block.hashPrevBlock in t.nodes && block.nBits < 0x1_0000_0000
    requires NodeAccepted(disk, NewNode(t, block, nFile, nBlockPos))
    requires block.nBits == RequiredBits(t, block.hashPrevBlock, block.IsProofOfStake(), limit(block.IsProofOfStake()))
    ensures var u := WithNode(t, block, nFile, nBlockPos);
            u.Valid() && Grows(t, u) && TreeAccepted(u, disk) && TrustSummed(u) && TargetsRequired(u, limit)
  {
    hide RequiredBits, BlockTrust, NodeAccepted;
    var u := WithNode(t, block, nFile, nBlockPos);
    assert u.Valid() && CompactBits(u);
    forall h | h in u.nodes && h != u.genesis
      ensures var b := u.nodes[h].block;
              b.nBits == RequiredBits(u, u.nodes[h].pprev.value, b.IsProofOfStake(), limit(b.IsProofOfStake()))
    {
      var b, p := u.nodes[h].block, u.nodes[h].pprev.value;
      RequiredBitsStable(t, u, p, b.IsProofOfStake(), limit(b.IsProofOfStake()));
    }
  }

  /** One step of the second phase, on the tree. */
  lemma PostponedStep(r: BlockRules, t: Tree, disk: Disk, best: Hash, mid: Hash, tip: Hash, cur: Hash, i: nat, fCheckSigs: bool)
    requires t.Valid() && best in t.nodes && tip in t.nodes && mid in t.nodes && t.Ancestor(mid, tip) && i < |Up(t, mid, tip)|
    requires AboveFork(t, best, tip, mid)
    requires cur in t.nodes && t.Ancestor(mid, cur) && cur == if i == 0 then mid else Up(t, mid, tip)[i - 1]
    ensures var b := Up(t, mid, tip)[i];
            && b in t.nodes && b != t.genesis && t.nodes[b].pprev == Some(cur)
            && t.Ancestor(mid, b) && t.Ancestor(b, tip) && cur != tip
            && (i == |Up(t, mid, tip)| - 1 ==> b == tip)
            && (Adoptable(r, t, disk, best, b, fCheckSigs)
                <==> Adoptable(r, t, disk, best, cur, fCheckSigs) && Connects(r, t, disk, b, fCheckSigs))
            && (Adoptable(r, t, disk, best, tip, fCheckSigs) ==> Adoptable(r, t, disk, best, b, fCheckSigs))
            && (!Connects(r, t, disk, b, fCheckSigs) ==> NextFails(r, t, disk, cur, tip, fCheckSigs))
  {
    hide Connects, Up, Fork;
    var b := Up(t, mid, tip)[i];
    UpStep(t, mid, tip, cur, i);
    ProperBelow(t, cur, b, tip);
    OneMoreConnects(r, t, disk, best, mid, tip, b, fCheckSigs);
    hide Adoptable;
    if Adoptable(r, t, disk, best, tip, fCheckSigs) {
      AdoptableDown(r, t, disk, best, b, tip, fCheckSigs);
    }
  }

  /** Above the fork, one more block can be adopted exactly when its parent can and it connects. */
  lemma OneMoreConnects(r: BlockRules, t: Tree, disk: Disk, best: Hash, mid: Hash, tip: Hash, b: Hash, fCheckSigs: bool)
    requires t.Valid() && best in t.nodes && tip in t.nodes && AboveFork(t, best, tip, mid)
    requires b in t.nodes && b != t.genesis && t.Ancestor(mid, b) && t.Ancestor(b, tip)
    ensures Adoptable(r, t, disk, best, b, fCheckSigs)
       <==> Adoptable(r, t, disk, best, t.nodes[b].pprev.value, fCheckSigs) && Connects(r, t, disk, b, fCheckSigs)
  {
    hide Connects;
    AncestorSelf(t, b);
    NotOnBest(t, best, tip, mid, b);
    assert forall x :: t.Ancestor(x, b) <==> x == b || t.Ancestor(x, t.nodes[b].pprev.value);
  }

  lemma NotOnBest(t: Tree, best: Hash, tip: Hash, mid: Hash, b: Hash)
    requires t.Valid() && best in t.nodes && tip in t.nodes && AboveFork(t, best, tip, mid)
    requires b in t.nodes && t.Ancestor(mid, b) && t.Ancestor(b, tip)
    ensures !t.Ancestor(b, best)
  {
    var fork := Fork(t, best, tip);
    ForkIsLowestCommonAncestor(t, best, tip);
    hide Fork;
    if t.Ancestor(b, best) {
      AncestorHeight(t, b, fork);
      AncestorHeight(t, mid, b);
      AncestorHeight(t, fork, mid);
    }
  }

  lemma ProperBelow(t: Tree, p: Hash, b: Hash, tip: Hash)
    requires t.Valid() && tip in t.nodes && b in t.nodes && t.Ancestor(b, tip) && b != t.genesis && t.nodes[b].pprev == Some(p)
    ensures p != tip
  {
    AncestorHeight(t, b, tip);
  }
}
