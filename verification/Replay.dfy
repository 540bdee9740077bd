/** The reference meaning of the chain state: the transaction index built by connecting every block of a branch in
    order. Genesis is never connected: SetBestChain only records it, so its own outputs are not indexed. */
module Replay {
  import opened Transactions
  import opened BlockTree
  import opened TxInputs
  import opened BlockConnection
  import opened BlockUndo
  import opened MoneySupply
  import opened BeanbaseHeight

  const LAST_POW_BLOCK: nat := 10_000

  /** The index after connecting the branch of b, block by block. */
  ghost function ReplayIndex(t: Tree, b: Hash): Index
    requires t.Valid() && b in t.nodes
    decreases t.nodes[b].nHeight
  {
    if b == t.genesis then map[] else ConnectEffect(ReplayIndex(t, t.nodes[b].pprev.value), t.nodes[b])
  }

  /** What AcceptBlock has checked of a block it stored: it is on disk, proof-of-work ends at height 10000, and the
      beanbase script starts with the height. */
  ghost predicate NodeAccepted(disk: Disk, node: BlockIndex) {
    && OnDisk(disk, node)
    && (!node.block.IsProofOfStake() ==> node.nHeight <= LAST_POW_BLOCK)
    && node.nHeight < 0x8000_0000
    && |node.block.vtx| > 0 && |node.block.vtx[0].vin| > 0
    && HeightScript(node.nHeight) <= node.block.vtx[0].vin[0].scriptSig
  }

  ghost predicate TreeAccepted(t: Tree, disk: Disk) {
    forall h :: h in t.nodes && h != t.genesis ==> NodeAccepted(disk, t.nodes[h])
  }

  /** The hash of a transaction identifies it. */
  ghost predicate HashesIdentify(disk: Disk) {
    forall p, q :: p in disk && q in disk && disk[p].hash == disk[q].hash ==> disk[p] == disk[q]
  }

  /** Block b connects on top of its parent's branch, whether or not its signatures have been checked. */
  ghost predicate BlockGood(r: BlockRules, t: Tree, disk: Disk, b: Hash)
    requires t.Valid() && b in t.nodes && b != t.genesis
  {
    var ix, node := ReplayIndex(t, t.nodes[b].pprev.value), t.nodes[b];
    && Applicable(ix, node) && BlockWellFormed(r, node.block) && RewardOk(r, Store(ix, disk, map[]), node)
    && TxsOk(r.tx, t, Store(ix, disk, map[]), b, |node.block.vtx|, false)
  }

  /** Every block of b's branch connects. */
  ghost predicate BranchGood(r: BlockRules, t: Tree, disk: Disk, b: Hash)
    requires t.Valid() && b in t.nodes
    decreases t.nodes[b].nHeight
  {
    b == t.genesis || (BranchGood(r, t, disk, t.nodes[b].pprev.value) && BlockGood(r, t, disk, b))
  }

  // ------------------------------------------------------------------ no txid repeats along a branch

  /** An indexed transaction has spent all its inputs. */
  ghost predicate InputsSpent(ix: Index, disk: Disk) {
    forall h :: h in ix ==> TxInputsSpent(ix, ix[h], disk)
  }

  ghost predicate TxInputsSpent(ix: Index, e: TxIndex, disk: Disk) {
    e.pos in disk && (!disk[e.pos].IsBeanBase() ==>
      forall i :: 0 <= i < |disk[e.pos].vin| ==> OutPointSpent(ix, disk[e.pos].vin[i].prevout))
  }

  predicate OutPointSpent(ix: Index, op: OutPoint) {
    InRange(ix, op) && ix[op.hash].vSpent[op.n] != NullPos
  }

  /** An indexed beanbase carries a height of the branch. */
  ghost predicate BeanbasesBelow(ix: Index, disk: Disk, nHeight: nat) {
    forall h :: h in ix ==> ix[h].pos in disk && (disk[ix[h].pos].IsBeanBase() ==> CarriesHeightUpTo(disk[ix[h].pos], nHeight))
  }

  ghost predicate CarriesHeightUpTo(tx: Tx, nHeight: nat) {
    |tx.vin| > 0 && exists k: nat :: k <= nHeight && CarriesHeight(tx, k)
  }

  ghost predicate CarriesHeight(tx: Tx, k: nat) {
    k < 0x8000_0000 && |tx.vin| > 0 && HeightScript(k) <= tx.vin[0].scriptSig
  }

  lemma IndexedHasSpent(ix: Index, disk: Disk, tx: Tx, pos: DiskTxPos)
    requires Backed(ix, disk) && HashesIdentify(disk) && InputsSpent(ix, disk)
    requires pos in disk && disk[pos] == tx && tx.hash in ix && !tx.IsBeanBase()
    ensures forall i :: 0 <= i < |tx.vin| ==> OutPointSpent(ix, tx.vin[i].prevout)
  {
    assert EntryBacked(ix[tx.hash], tx.hash, disk);
    assert TxInputsSpent(ix, ix[tx.hash], disk);
  }

  /** A transaction whose inputs are unspent is not yet indexed: had it been, it would have spent them itself. */
  lemma SpenderIsNew(ix: Index, disk: Disk, tx: Tx, pos: DiskTxPos)
    requires Backed(ix, disk) && HashesIdentify(disk) && InputsSpent(ix, disk)
    requires pos in disk && disk[pos] == tx
    requires !tx.IsBeanBase() && tx.vin != [] && TxSpendsUnspent(ix, tx)
    ensures tx.hash !in ix
  {
    assert Unspent(ix, tx.vin[0].prevout);
    if tx.hash in ix {
      IndexedHasSpent(ix, disk, tx, pos);
      assert false;
    }
  }

  /** A beanbase with a new height is not yet indexed. */
  lemma BeanbaseIsNew(ix: Index, disk: Disk, tx: Tx, pos: DiskTxPos, nHeight: nat)
    requires Backed(ix, disk) && HashesIdentify(disk) && BeanbasesBelow(ix, disk, nHeight)
    requires pos in disk && disk[pos] == tx && tx.IsBeanBase() && CarriesHeight(tx, nHeight + 1)
    ensures tx.hash !in ix
  {
    if tx.hash in ix {
      assert EntryBacked(ix[tx.hash], tx.hash, disk);
      var k: nat :| k <= nHeight && CarriesHeight(tx, k);
      HeightScriptPrefixFree(k, nHeight + 1, tx.vin[0].scriptSig);
      assert false;
    }
  }

  /** Connecting a new transaction keeps "indexed transactions have spent their inputs". */
  lemma ConnectTxKeepsInputsSpent(ix: Index, disk: Disk, tx: Tx, pos: DiskTxPos)
    requires InputsSpent(ix, disk) && tx.hash !in ix && pos in disk && disk[pos] == tx && pos != NullPos
    requires !tx.IsBeanBase() ==> TxSpendsUnspent(ix, tx)
    ensures InputsSpent(ConnectTx(ix, tx, pos), disk)
  {
    var c := ConnectTx(ix, tx, pos);
    forall h | h in c
      ensures TxInputsSpent(c, c[h], disk)
    {
      if h in ix {
        assert TxInputsSpent(ix, ix[h], disk);
        assert c[h].pos == ix[h].pos;
      }
      forall i | 0 <= i < |disk[c[h].pos].vin| && !disk[c[h].pos].IsBeanBase()
        ensures OutPointSpent(c, disk[c[h].pos].vin[i].prevout)
      {
        var op := disk[c[h].pos].vin[i].prevout;
        if h in ix && h != tx.hash {
          assert OutPointSpent(ix, op);
        } else {
          assert Unspent(ix, tx.vin[i].prevout);
        }
      }
    }
  }

  lemma ConnectTxKeepsBeanbases(ix: Index, disk: Disk, tx: Tx, pos: DiskTxPos, nHeight: nat)
    requires BeanbasesBelow(ix, disk, nHeight) && pos in disk && disk[pos] == tx
    requires tx.IsBeanBase() ==> CarriesHeight(tx, nHeight)
    ensures BeanbasesBelow(ConnectTx(ix, tx, pos), disk, nHeight)
  {
  }

  lemma BeanbasesBelowHigher(ix: Index, disk: Disk, nHeight: nat)
    requires BeanbasesBelow(ix, disk, nHeight)
    ensures BeanbasesBelow(ix, disk, nHeight + 1)
  {
    forall h | h in ix && disk[ix[h].pos].IsBeanBase()
      ensures CarriesHeightUpTo(disk[ix[h].pos], nHeight + 1)
    {
      var k: nat :| k <= nHeight && CarriesHeight(disk[ix[h].pos], k);
    }
  }

  /** Everything the index of a good branch satisfies. */
  ghost predicate IndexInvariant(ix: Index, disk: Disk, nHeight: nat) {
    Backed(ix, disk) && InputsSpent(ix, disk) && BeanbasesBelow(ix, disk, nHeight)
  }

  lemma EmptyIndexInvariant(disk: Disk)
    ensures IndexInvariant(map[], disk, 0) && Total(map[], disk) == 0
  {
  }

  /** The first k transactions of the block spend only outputs that are unspent when they come. */
  ghost predicate FirstSpendUnspent(ix: Index, node: BlockIndex, k: nat)
    requires k <= |node.block.vtx|
  {
    forall j :: 0 <= j < k && !node.block.vtx[j].IsBeanBase() ==> TxSpendsUnspent(ConnectTxs(ix, node, j), node.block.vtx[j])
  }

  lemma FirstFewer(ix: Index, node: BlockIndex, k: nat)
    requires 0 < k <= |node.block.vtx| && FirstSpendUnspent(ix, node, k)
    ensures FirstSpendUnspent(ix, node, k - 1)
    ensures !node.block.vtx[k - 1].IsBeanBase() ==> TxSpendsUnspent(ConnectTxs(ix, node, k - 1), node.block.vtx[k - 1])
  {
    hide ConnectTxs, TxSpendsUnspent;
  }

  /** Walking through a block at height nHeight: each transaction is new when it comes. */
  lemma {:induction false} FirstTxsAreNew(r: BlockRules, disk: Disk, ix: Index, node: BlockIndex, k: nat)
    requires HashesIdentify(disk) && NodeAccepted(disk, node) && node.nHeight > 0
    requires IndexInvariant(ix, disk, node.nHeight - 1)
    requires k <= |node.block.vtx| && FirstSpendUnspent(ix, node, k) && BlockWellFormed(r, node.block)
    ensures Backed(ConnectTxs(ix, node, k), disk) && InputsSpent(ConnectTxs(ix, node, k), disk)
    ensures forall j :: 0 <= j < k ==> node.block.vtx[j].hash !in ix
    decreases k
  {
    hide ConnectTx, BlockWellFormed, Backed, InputsSpent, TxSpendsUnspent, HashesIdentify, NodeAccepted, BeanbasesBelow, FirstSpendUnspent;
    if k > 0 {
      FirstFewer(ix, node, k);
      FirstTxsAreNew(r, disk, ix, node, k - 1);
      var tx, c, pos := node.block.vtx[k - 1], ConnectTxs(ix, node, k - 1), TxPos(node, k - 1);
      NextTxIsNew(r, disk, ix, node, k - 1);
      ConnectTxBacked(c, disk, tx, pos);
      ConnectTxKeepsInputsSpent(c, disk, tx, pos);
    }
  }

  lemma BlockTxsAreNew(r: BlockRules, disk: Disk, ix: Index, node: BlockIndex, k: nat)
    requires HashesIdentify(disk) && NodeAccepted(disk, node) && node.nHeight > 0
    requires IndexInvariant(ix, disk, node.nHeight - 1)
    requires Applicable(ix, node) && BlockWellFormed(r, node.block) && k <= |node.block.vtx|
    ensures Backed(ConnectTxs(ix, node, k), disk) && InputsSpent(ConnectTxs(ix, node, k), disk)
    ensures forall j :: 0 <= j < k ==> node.block.vtx[j].hash !in ix
  {
    hide ConnectTxs, BlockWellFormed, Backed, InputsSpent, TxSpendsUnspent, HashesIdentify, NodeAccepted, BeanbasesBelow, NoLiveDuplicate;
    FirstTxsAreNew(r, disk, ix, node, k);
  }

  lemma NextTxIsNew(r: BlockRules, disk: Disk, ix: Index, node: BlockIndex, k: nat)
    requires HashesIdentify(disk) && NodeAccepted(disk, node) && node.nHeight > 0
    requires BeanbasesBelow(ix, disk, node.nHeight - 1) && Backed(ix, disk)
    requires k < |node.block.vtx| && BlockWellFormed(r, node.block)
    requires !node.block.vtx[k].IsBeanBase() ==> TxSpendsUnspent(ConnectTxs(ix, node, k), node.block.vtx[k])
    requires Backed(ConnectTxs(ix, node, k), disk) && InputsSpent(ConnectTxs(ix, node, k), disk)
    ensures node.block.vtx[k].hash !in ConnectTxs(ix, node, k) && node.block.vtx[k].hash !in ix
    ensures var pos := TxPos(node, k); pos in disk && disk[pos] == node.block.vtx[k]
  {
    var tx, pos := node.block.vtx[k], TxPos(node, k);
    ConnectedSoFar(ix, node, k);
    assert WellFormed(tx);
    if tx.IsBeanBase() {
      assert k == 0;
      assert CarriesHeight(tx, node.nHeight);
      BeanbaseIsNew(ix, disk, tx, pos, node.nHeight - 1);
    } else {
      SpenderIsNew(ConnectTxs(ix, node, k), disk, tx, pos);
    }
  }

  lemma {:induction false} BlockKeepsBeanbases(r: BlockRules, disk: Disk, ix: Index, node: BlockIndex, k: nat)
    requires NodeAccepted(disk, node) && BlockWellFormed(r, node.block) && k <= |node.block.vtx|
    requires BeanbasesBelow(ix, disk, node.nHeight)
    ensures BeanbasesBelow(ConnectTxs(ix, node, k), disk, node.nHeight)
  {
    if k > 0 {
      BlockKeepsBeanbases(r, disk, ix, node, k - 1);
      ConnectTxKeepsBeanbases(ConnectTxs(ix, node, k - 1), disk, node.block.vtx[k - 1], TxPos(node, k - 1), node.nHeight);
    }
  }

  /** The index of a good branch satisfies the invariant. */
  lemma {:induction false} ReplayInvariant(r: BlockRules, t: Tree, disk: Disk, b: Hash)
    requires t.Valid() && TreeAccepted(t, disk) && HashesIdentify(disk) && b in t.nodes && BranchGood(r, t, disk, b)
    ensures IndexInvariant(ReplayIndex(t, b), disk, t.nodes[b].nHeight)
    decreases t.nodes[b].nHeight
  {
    hide TxsOk, RewardOk, Applicable, BlockWellFormed, ConnectTxs, BeanbasesBelow, Backed, InputsSpent, NodeAccepted, HashesIdentify;
    if b == t.genesis {
      EmptyIndexInvariant(disk);
    } else {
      var p, node := t.nodes[b].pprev.value, t.nodes[b];
      var ix := ReplayIndex(t, p);
      ReplayInvariant(r, t, disk, p);
      BlockTxsAreNew(r, disk, ix, node, |node.block.vtx|);
      BeanbasesBelowHigher(ix, disk, node.nHeight - 1);
      BlockKeepsBeanbases(r, disk, ix, node, |node.block.vtx|);
    }
  }

  /** No txid repeats along a good branch: none of the next block's transactions is indexed. The code only rejects
      repeats that are not completely spent; the height in the beanbase and the spent inputs rule out the rest. */
  lemma NoTxidRepeats(r: BlockRules, t: Tree, disk: Disk, b: Hash)
    requires t.Valid() && TreeAccepted(t, disk) && HashesIdentify(disk) && b in t.nodes && b != t.genesis
    requires BranchGood(r, t, disk, b)
    ensures forall k :: 0 <= k < |t.nodes[b].block.vtx| ==> t.nodes[b].block.vtx[k].hash !in ReplayIndex(t, t.nodes[b].pprev.value)
  {
    hide TxsOk, RewardOk, Applicable, BlockWellFormed, ConnectTxs, BeanbasesBelow, Backed, InputsSpent, NodeAccepted, HashesIdentify;
    var p, node := t.nodes[b].pprev.value, t.nodes[b];
    ReplayInvariant(r, t, disk, p);
    BlockTxsAreNew(r, disk, ReplayIndex(t, p), node, |node.block.vtx|);
  }

  /** Disconnecting the last block of a good branch never fails and gives back the index of its parent. */
  lemma DisconnectReplays(r: BlockRules, t: Tree, disk: Disk, b: Hash)
    requires t.Valid() && TreeAccepted(t, disk) && HashesIdentify(disk) && b in t.nodes && b != t.genesis
    requires BranchGood(r, t, disk, b)
    ensures BlockReleasable(ReplayIndex(t, b), t.nodes[b].block.vtx)
    ensures DisconnectEffect(ReplayIndex(t, b), t.nodes[b].block.vtx) == ReplayIndex(t, t.nodes[b].pprev.value)
  {
    NoTxidRepeats(r, t, disk, b);
    var ix := ReplayIndex(t, t.nodes[b].pprev.value);
    DisconnectAfterConnect(ix, t.nodes[b]);
    UndoIsExactIff(ix, t.nodes[b]);
  }

  // ------------------------------------------------------------------ money along a branch

  /** The money supply ConnectBlock records along the branch of b. */
  ghost function SupplyAt(r: Rules, t: Tree, disk: Disk, b: Hash): int
    requires t.Valid() && b in t.nodes
    decreases t.nodes[b].nHeight
  {
    if b == t.genesis then 0
    else
      var p := t.nodes[b].pprev.value;
      SupplyAt(r, t, disk, p) + Minted(r, Store(ReplayIndex(t, p), disk, map[]), t.nodes[b])
  }

  /** Conservation: the recorded money supply is the total of all unspent outputs. */
  lemma {:induction false} SupplyIsTotalUnspent(r: BlockRules, t: Tree, disk: Disk, b: Hash)
    requires t.Valid() && TreeAccepted(t, disk) && HashesIdentify(disk) && b in t.nodes && BranchGood(r, t, disk, b)
    ensures SupplyAt(r.tx, t, disk, b) == Total(ReplayIndex(t, b), disk)
    decreases t.nodes[b].nHeight
  {
    if b != t.genesis {
      var p, node := t.nodes[b].pprev.value, t.nodes[b];
      SupplyIsTotalUnspent(r, t, disk, p);
      ReplayInvariant(r, t, disk, p);
      forall j | 0 <= j < |node.block.vtx|
        ensures DistinctPrevouts(node.block.vtx[j].vin)
      {
        assert WellFormed(node.block.vtx[j]);
      }
      BlockConservesMoney(r.tx, Store(ReplayIndex(t, p), disk, map[]), node);
    }
  }

  function SupplyCap(nHeight: nat): int {
    if nHeight <= LAST_POW_BLOCK then POW_SUBSIDY * nHeight
    else POW_SUBSIDY * LAST_POW_BLOCK + POS_SUBSIDY * (nHeight - LAST_POW_BLOCK)
  }

  predicate NoStrayStake(block: Block) {
    !block.IsProofOfStake() ==> forall j :: 0 <= j < |block.vtx| ==> !block.vtx[j].IsBeanStake()
  }

  /** No proof-of-work block of the branch holds a beanstake. */
  ghost predicate NoStrayStakes(t: Tree, b: Hash)
    requires t.Valid() && b in t.nodes
    decreases t.nodes[b].nHeight
  {
    b == t.genesis || (NoStrayStakes(t, t.nodes[b].pprev.value) && NoStrayStake(t.nodes[b].block))
  }

  /** What stray beanstakes mint along the branch of b. */
  ghost function StrayMintAt(r: Rules, t: Tree, disk: Disk, b: Hash): int
    requires t.Valid() && b in t.nodes
    decreases t.nodes[b].nHeight
  {
    if b == t.genesis then 0
    else
      var p := t.nodes[b].pprev.value;
      StrayMintAt(r, t, disk, p) + StrayMint(r, Store(ReplayIndex(t, p), disk, map[]), t.nodes[b])
  }

  lemma {:induction false} NoStrayMint(r: Rules, t: Tree, disk: Disk, b: Hash)
    requires t.Valid() && b in t.nodes && NoStrayStakes(t, b)
    ensures StrayMintAt(r, t, disk, b) == 0
    decreases t.nodes[b].nHeight
  {
    if b != t.genesis {
      var p, node := t.nodes[b].pprev.value, t.nodes[b];
      NoStrayMint(r, t, disk, p);
      if !node.block.IsProofOfStake() {
        NoStake(r, Store(ReplayIndex(t, p), disk, map[]), node, |node.block.vtx|);
      }
    }
  }

  lemma CapStep(nHeight: nat, isProofOfStake: bool)
    requires !isProofOfStake ==> nHeight + 1 <= LAST_POW_BLOCK
    ensures SupplyCap(nHeight) + (if isProofOfStake then POS_SUBSIDY else POW_SUBSIDY) <= SupplyCap(nHeight + 1)
  {
  }

  lemma BlockKeepsCap(r: BlockRules, t: Tree, disk: Disk, b: Hash)
    requires t.Valid() && b in t.nodes && b != t.genesis && NodeAccepted(disk, t.nodes[b]) && BlockGood(r, t, disk, b)
    ensures var p := t.nodes[b].pprev.value;
            var s := Store(ReplayIndex(t, p), disk, map[]);
            SupplyCap(t.nodes[p].nHeight) + Minted(r.tx, s, t.nodes[b]) <= SupplyCap(t.nodes[b].nHeight) + StrayMint(r.tx, s, t.nodes[b])
  {
    var p := t.nodes[b].pprev.value;
    BlockMintBound(r, Store(ReplayIndex(t, p), disk, map[]), t.nodes[b]);
    CapStep(t.nodes[p].nHeight, t.nodes[b].block.IsProofOfStake());
  }

  /** The supply bound: 100000 beans a block up to height 10000, then 1000 beans a block. What beanstakes in
      proof-of-work blocks mint comes on top, and is nothing when no proof-of-work block holds one. */
  lemma {:induction false} SupplyBound(r: BlockRules, t: Tree, disk: Disk, b: Hash)
    requires t.Valid() && TreeAccepted(t, disk) && b in t.nodes && BranchGood(r, t, disk, b)
    ensures SupplyAt(r.tx, t, disk, b) <= SupplyCap(t.nodes[b].nHeight) + StrayMintAt(r.tx, t, disk, b)
    ensures NoStrayStakes(t, b) ==> SupplyAt(r.tx, t, disk, b) <= SupplyCap(t.nodes[b].nHeight)
    decreases t.nodes[b].nHeight
  {
    hide NodeAccepted, BlockGood, ReplayIndex, SupplyCap;
    if b != t.genesis {
      SupplyBound(r, t, disk, t.nodes[b].pprev.value);
      BlockKeepsCap(r, t, disk, b);
    } else {
      assert SupplyCap(0) == 0 by {
        CapAtGenesis();
      }
    }
    if NoStrayStakes(t, b) {
      NoStrayMint(r.tx, t, disk, b);
    }
  }

  lemma CapAtGenesis()
    ensures SupplyCap(0) == 0
  {
  }

  // ------------------------------------------------------------------ growing the tree

  /** The tree u has every block of t, unchanged. */
  ghost predicate Grows(t: Tree, u: Tree) {
    t.genesis == u.genesis && forall x :: x in t.nodes ==> x in u.nodes && u.nodes[x] == t.nodes[x]
  }

  /** New blocks change nothing about the old branches. */
  lemma {:induction false} ReplayStable(r: BlockRules, t: Tree, u: Tree, disk: Disk, b: Hash)
    requires t.Valid() && u.Valid() && Grows(t, u) && b in t.nodes
    ensures b in u.nodes && ReplayIndex(u, b) == ReplayIndex(t, b)
    ensures BranchGood(r, u, disk, b) <==> BranchGood(r, t, disk, b)
    ensures SupplyAt(r.tx, u, disk, b) == SupplyAt(r.tx, t, disk, b)
    decreases t.nodes[b].nHeight
  {
    hide TxsOk, ConnectTxs, BlockWellFormed, Applicable;
    if b != t.genesis {
      var p := t.nodes[b].pprev.value;
      ReplayStable(r, t, u, disk, p);
      TxsOkStable(r.tx, t, u, Store(ReplayIndex(t, p), disk, map[]), b, |t.nodes[b].block.vtx|, false);
    }
  }

  // ------------------------------------------------------------------ the memory pool plays no part

  lemma InputsIgnoreMempool(s: Store, vin: seq<TxIn>)
    requires Backed(s.txdb, s.disk)
    ensures InputsFrom(s, vin) == InputsFrom(s.(mapTx := map[]), vin)
  {
    forall h | h in s.txdb
      ensures Fetch(s, map[], true, h) == Fetch(s.(mapTx := map[]), map[], true, h)
    {
      assert EntryBacked(s.txdb[h], h, s.disk);
    }
  }

  /** ConnectBlock's totals come from the index and the block files alone. */
  lemma {:induction false} TallyIgnoresMempool(r: Rules, s: Store, node: BlockIndex, k: nat)
    requires Backed(s.txdb, s.disk) && OnDisk(s.disk, node) && k <= |node.block.vtx|
    ensures Tally(r, s, node, k) == Tally(r, s.(mapTx := map[]), node, k)
    ensures Backed(ConnectTxs(s.txdb, node, k), s.disk)
  {
    if k > 0 {
      TallyIgnoresMempool(r, s, node, k - 1);
      InputsIgnoreMempool(ViewAt(s, node, k - 1), node.block.vtx[k - 1].vin);
      ConnectTxBacked(ConnectTxs(s.txdb, node, k - 1), s.disk, node.block.vtx[k - 1], TxPos(node, k - 1));
    }
  }

  lemma TxAcceptedIgnoresMempool(r: Rules, t: Tree, b: Hash, s: Store, tx: Tx, fCheckSigs: bool)
    requires t.Valid() && b in t.nodes && Backed(s.txdb, s.disk)
    ensures TxAccepted(r, t, b, s, tx, fCheckSigs) <==> TxAccepted(r, t, b, s.(mapTx := map[]), tx, fCheckSigs)
  {
    hide InputsConnectable;
    InputsIgnoreMempool(s, tx.vin);
    forall h
      ensures Fetch(s, map[], true, h) == Fetch(s.(mapTx := map[]), map[], true, h)
    {
      if h in s.txdb {
        assert EntryBacked(s.txdb[h], h, s.disk);
      }
    }
  }

  lemma {:induction false} TxsOkIgnoresMempool(r: Rules, t: Tree, s: Store, b: Hash, n: nat, fCheckSigs: bool)
    requires t.Valid() && b in t.nodes && n <= |t.nodes[b].block.vtx| && Backed(s.txdb, s.disk) && OnDisk(s.disk, t.nodes[b])
    ensures TxsOk(r, t, s, b, n, fCheckSigs) <==> TxsOk(r, t, s.(mapTx := map[]), b, n, fCheckSigs)
  {
    hide Backed, OnDisk, TxAccepted, Tally;
    if n > 0 {
      var node, k := t.nodes[b], n - 1;
      TxsOkIgnoresMempool(r, t, s, b, k, fCheckSigs);
      TallyIgnoresMempool(r, s, node, k);
      TallyIgnoresMempool(r, s, node, n);
      TxAcceptedIgnoresMempool(r, t, b, ViewAt(s, node, k), node.block.vtx[k], fCheckSigs);
    }
  }

  /** Whether ConnectBlock accepts a block does not depend on the memory pool. */
  lemma ConnectingIgnoresMempool(r: BlockRules, t: Tree, s: Store, b: Hash, fCheckSigs: bool)
    requires t.Valid() && b in t.nodes && Backed(s.txdb, s.disk) && OnDisk(s.disk, t.nodes[b])
    ensures BlockConnects(r, t, s, b, fCheckSigs) <==> BlockConnects(r, t, s.(mapTx := map[]), b, fCheckSigs)
    ensures Minted(r.tx, s, t.nodes[b]) == Minted(r.tx, s.(mapTx := map[]), t.nodes[b])
  {
    hide Backed, OnDisk, TxsOk, Tally, BlockWellFormed;
    TxsOkIgnoresMempool(r.tx, t, s, b, |t.nodes[b].block.vtx|, fCheckSigs);
    TallyIgnoresMempool(r.tx, s, t.nodes[b], |t.nodes[b].block.vtx|);
  }

  /** The checks of ConnectBlock at block b, against its parent's replayed index. */
  ghost predicate Connects(r: BlockRules, t: Tree, disk: Disk, b: Hash, fCheckSigs: bool)
    requires t.Valid() && b in t.nodes && b != t.genesis
  {
    BlockConnects(r, t, Store(ReplayIndex(t, t.nodes[b].pprev.value), disk, map[]), b, fCheckSigs)
  }

  /** A block that connects on a good branch makes a longer good branch. */
  lemma ConnectExtends(r: BlockRules, t: Tree, disk: Disk, b: Hash, fCheckSigs: bool)
    requires t.Valid() && TreeAccepted(t, disk) && HashesIdentify(disk) && b in t.nodes && b != t.genesis
    requires BranchGood(r, t, disk, t.nodes[b].pprev.value) && Connects(r, t, disk, b, fCheckSigs)
    ensures BranchGood(r, t, disk, b)
  {
    hide Applicable, BlockWellFormed, TxsOk;
    AcceptedIsApplicable(r, t, Store(ReplayIndex(t, t.nodes[b].pprev.value), disk, map[]), b, fCheckSigs);
    if fCheckSigs {
      SignaturesOnlyRefuse(r, t, disk, b);
    }
  }

  // ------------------------------------------------------------------ what else a connecting block does not depend on

  /** A block that connects with its signatures checked connects without checking them. */
  lemma SignaturesOnlyRefuse(r: BlockRules, t: Tree, disk: Disk, b: Hash)
    requires t.Valid() && b in t.nodes && b != t.genesis && Connects(r, t, disk, b, true)
    ensures Connects(r, t, disk, b, false)
  {
    hide TxsOk, BlockWellFormed;
    FewerChecks(r.tx, t, Store(ReplayIndex(t, t.nodes[b].pprev.value), disk, map[]), b, |t.nodes[b].block.vtx|);
  }

  lemma {:induction false} FewerChecks(r: Rules, t: Tree, s: Store, b: Hash, n: nat)
    requires t.Valid() && b in t.nodes && n <= |t.nodes[b].block.vtx| && TxsOk(r, t, s, b, n, true)
    ensures TxsOk(r, t, s, b, n, false)
  {
    if n > 0 {
      FewerChecks(r, t, s, b, n - 1);
      hide ConnectTxs, Tally, InputsFrom, InputsSane, NoDoubleSpend, PaysFee, SignaturesValid;
    }
  }

  lemma ImmatureStable(t: Tree, u: Tree, b: Hash, nMaturity: nat, pos: DiskTxPos)
    requires t.Valid() && u.Valid() && Grows(t, u) && b in t.nodes
    ensures Immature(u, b, nMaturity, pos) <==> Immature(t, b, nMaturity, pos)
  {
    BranchStable(t, u, b);
    hide TreeAccepted;
    forall a | t.Ancestor(a, b)
      ensures AtDepthBelow(u, a, b, nMaturity) == AtDepthBelow(t, a, b, nMaturity) && LocatedIn(u, a, pos) == LocatedIn(t, a, pos)
    {
      AncestorHeight(t, a, b);
    }
  }

  lemma TxAcceptedStable(r: Rules, t: Tree, u: Tree, b: Hash, s: Store, tx: Tx, fCheckSigs: bool)
    requires t.Valid() && u.Valid() && Grows(t, u) && b in t.nodes && b in u.nodes
    ensures TxAccepted(r, u, b, s, tx, fCheckSigs) <==> TxAccepted(r, t, b, s, tx, fCheckSigs)
  {
    var inputs := InputsFrom(s, tx.vin);
    hide InputsFrom, Immature, NoDoubleSpend, PaysFee, SignaturesValid, ValueIn;
    forall i | 0 <= i < |tx.vin|
      ensures InputSane(r, u, b, inputs, tx, i) <==> InputSane(r, t, b, inputs, tx, i)
    {
      var op := tx.vin[i].prevout;
      if PrevoutInRange(inputs, op) {
        ImmatureStable(t, u, b, r.nBeanbaseMaturity, inputs[op.hash].0.pos);
      }
    }
  }

  lemma {:induction false} TxsOkStable(r: Rules, t: Tree, u: Tree, s: Store, b: Hash, n: nat, fCheckSigs: bool)
    requires t.Valid() && u.Valid() && Grows(t, u) && b in t.nodes && b in u.nodes && n <= |t.nodes[b].block.vtx|
    ensures u.nodes[b] == t.nodes[b] && (TxsOk(r, u, s, b, n, fCheckSigs) <==> TxsOk(r, t, s, b, n, fCheckSigs))
  {
    hide TxAccepted, Tally;
    if n > 0 {
      TxsOkStable(r, t, u, s, b, n - 1, fCheckSigs);
      TxAcceptedStable(r, t, u, b, ViewAt(s, t.nodes[b], n - 1), t.nodes[b].block.vtx[n - 1], fCheckSigs);
    }
  }

  /** New blocks do not change which of the old ones connect. */
  lemma ConnectsStable(r: BlockRules, t: Tree, u: Tree, disk: Disk, b: Hash, fCheckSigs: bool)
    requires t.Valid() && u.Valid() && Grows(t, u) && b in t.nodes && b != t.genesis
    ensures b in u.nodes && (Connects(r, u, disk, b, fCheckSigs) <==> Connects(r, t, disk, b, fCheckSigs))
  {
    hide TxsOk, BlockWellFormed, ReplayIndex;
    var p := t.nodes[b].pprev.value;
    ReplayStable(r, t, u, disk, p);
    TxsOkStable(r.tx, t, u, Store(ReplayIndex(t, p), disk, map[]), b, |t.nodes[b].block.vtx|, fCheckSigs);
  }
}
