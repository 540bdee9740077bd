/** The block built from the miner's list: ConnectBlock accepts it exactly when its beanbase claims no more than the subsidy
    and the fees the miner counted (src/miner.cpp, src/main.cpp). */
module Template {
  import opened Wrappers
  import opened Transactions
  import opened BlockTree
  import opened TxInputs
  import opened BlockConnection
  import opened BlockUndo
  import opened MoneySupply
  import opened Replay
  import opened TipChoice
  import opened Assembly

  // ------------------------------------------------------------------ the list itself

  /** A transaction on disk with the hash of a listed one is that one. */
  ghost predicate Identified(disk: Disk, vtx: seq<Tx>) {
    forall k, p :: 0 <= k < |vtx| && p in disk && disk[p].hash == vtx[k].hash ==> disk[p] == vtx[k]
  }

  lemma SpentStays(ix: Index, tx: Tx, op: OutPoint)
    requires OutPointSpent(ix, op) && tx.hash != op.hash
    ensures OutPointSpent(ConnectTx(ix, tx, MEMPOOL_POS), op)
  {
  }

  lemma {:induction false} SpentUntil(ix: Index, vtx: seq<Tx>, op: OutPoint, j: nat, k: nat)
    requires j <= k <= |vtx| && OutPointSpent(PoolView(ix, vtx[..j]), op)
    requires forall m :: j <= m < k ==> vtx[m].hash != op.hash
    ensures OutPointSpent(PoolView(ix, vtx[..k]), op)
  {
    if j < k {
      SpentUntil(ix, vtx, op, j, k - 1);
      assert vtx[..k][..k - 1] == vtx[..k - 1];
      SpentStays(PoolView(ix, vtx[..k - 1]), vtx[k - 1], op);
    }
  }

  lemma NotBoth(ix: Index, op: OutPoint)
    ensures OutPointSpent(ix, op) ==> !Unspent(ix, op)
  {
  }

  lemma FollowerFindsUnspent(r: Rules, t: Tree, best: Hash, s: Store, front: seq<Tx>, tx: Tx, nBlockSize: nat)
    requires t.Valid() && best in t.nodes && CanFollow(r, t, best, s, front, tx, nBlockSize)
    ensures TxSpendsUnspent(PoolView(s.txdb, front), tx) && !tx.IsBeanBase() && !tx.IsBeanStake()
  {
    hide TxAccepted, PoolView, TxSpendsUnspent;
    AcceptedTxSpendsUnspent(r, t, best, StoreAfter(s, front), tx, true);
  }

  lemma FindsUnspent(r: Rules, t: Tree, best: Hash, s: Store, vtx: seq<Tx>, k: nat, i: nat)
    requires t.Valid() && best in t.nodes && Assembled(r, t, best, s, vtx) && k < |vtx| && i < |vtx[k].vin|
    ensures Unspent(PoolView(s.txdb, vtx[..k]), vtx[k].vin[i].prevout) && vtx[k].vin[i].prevout.hash in PoolView(s.txdb, vtx[..k])
    ensures !vtx[k].IsBeanBase()
  {
    hide Assembled, CanFollow, PoolView;
    AssembledAt(r, t, best, s, vtx, k);
    FollowerFindsUnspent(r, t, best, s, vtx[..k], vtx[k], 1000 + SumSize(vtx[..k]));
  }

  /** No listed transaction is indexed already: had it been, its inputs would have been spent. */
  lemma {:induction false} ListedAreNew(r: Rules, t: Tree, best: Hash, s: Store, vtx: seq<Tx>, n: nat)
    requires t.Valid() && best in t.nodes && Assembled(r, t, best, s, vtx) && n <= |vtx|
    requires Backed(s.txdb, s.disk) && InputsSpent(s.txdb, s.disk) && Identified(s.disk, vtx)
    requires forall k :: 0 <= k < |vtx| ==> vtx[k].vin != []
    ensures forall k :: 0 <= k < n ==> vtx[k].hash !in s.txdb
  {
    hide Assembled, Backed, InputsSpent, PoolView, OutPointSpent, Unspent;
    if n > 0 {
      var k := n - 1;
      ListedAreNew(r, t, best, s, vtx, k);
      FindsUnspent(r, t, best, s, vtx, k, 0);
      if vtx[k].hash in s.txdb {
        var op := vtx[k].vin[0].prevout;
        WasSpent(r, t, best, s, vtx, k);
        SpentUntil(s.txdb, vtx, op, 0, k);
        NotBoth(PoolView(s.txdb, vtx[..k]), op);
        assert false;
      }
    }
  }

  lemma WasSpent(r: Rules, t: Tree, best: Hash, s: Store, vtx: seq<Tx>, k: nat)
    requires t.Valid() && best in t.nodes && Assembled(r, t, best, s, vtx) && k < |vtx|
    requires Backed(s.txdb, s.disk) && InputsSpent(s.txdb, s.disk) && Identified(s.disk, vtx)
    requires vtx[k].vin != [] && vtx[k].hash in s.txdb
    ensures var op := vtx[k].vin[0].prevout; op.hash in s.txdb && OutPointSpent(PoolView(s.txdb, vtx[..0]), op)
  {
    FindsUnspent(r, t, best, s, vtx, k, 0);
    hide Assembled, Unspent;
    assert EntryBacked(s.txdb[vtx[k].hash], vtx[k].hash, s.disk);
    assert TxInputsSpent(s.txdb, s.txdb[vtx[k].hash], s.disk);
    assert vtx[..0] == [];
  }

  /** No outpoint is spent by two transactions of the list. */
  lemma NoDoubleSpendInList(r: Rules, t: Tree, best: Hash, s: Store, vtx: seq<Tx>, j: nat, k: nat, a: nat, b: nat)
    requires t.Valid() && best in t.nodes && Assembled(r, t, best, s, vtx) && DistinctTxids(vtx)
    requires Backed(s.txdb, s.disk) && InputsSpent(s.txdb, s.disk) && Identified(s.disk, vtx)
    requires forall m :: 0 <= m < |vtx| ==> vtx[m].vin != []
    requires j < k < |vtx| && a < |vtx[j].vin| && b < |vtx[k].vin|
    ensures vtx[j].vin[a].prevout != vtx[k].vin[b].prevout
  {
    hide Assembled, Backed, InputsSpent, Identified, PoolView, OutPointSpent, Unspent;
    var op := vtx[j].vin[a].prevout;
    ListedAreNew(r, t, best, s, vtx, |vtx|);
    FindsUnspent(r, t, best, s, vtx, j, a);
    FindsUnspent(r, t, best, s, vtx, k, b);
    PoolViewKeys(s.txdb, vtx[..j]);
    NotListedYet(s, vtx, j);
    LeavesSpent(s.txdb, vtx, j, a);
    SpentUntil(s.txdb, vtx, op, j + 1, k);
    NotBoth(PoolView(s.txdb, vtx[..k]), op);
  }

  lemma NotListedYet(s: Store, vtx: seq<Tx>, k: nat)
    requires DistinctTxids(vtx) && k < |vtx| && forall m :: 0 <= m < |vtx| ==> vtx[m].hash !in s.txdb
    ensures forall m :: k <= m < |vtx| ==> vtx[m].hash !in PoolView(s.txdb, vtx[..k])
  {
    PoolViewKeys(s.txdb, vtx[..k]);
  }

  lemma LeavesSpent(ix: Index, vtx: seq<Tx>, j: nat, a: nat)
    requires j < |vtx| && a < |vtx[j].vin| && Unspent(PoolView(ix, vtx[..j]), vtx[j].vin[a].prevout) && !vtx[j].IsBeanBase()
    requires vtx[j].hash !in PoolView(ix, vtx[..j])
    ensures OutPointSpent(PoolView(ix, vtx[..j + 1]), vtx[j].vin[a].prevout)
  {
    assert vtx[..j + 1][..j] == vtx[..j];
  }

  // ------------------------------------------------------------------ the miner's view and ConnectBlock's

  predicate SameSlots(e: TxIndex, f: TxIndex) {
    |e.vSpent| == |f.vSpent| && forall n :: 0 <= n < |e.vSpent| ==> (e.vSpent[n] == NullPos <==> f.vSpent[n] == NullPos)
  }

  /** The position is not inside the block. */
  predicate Outside(node: BlockIndex, pos: DiskTxPos) {
    pos.DiskTxPos? ==> pos.nFile != node.nFile || pos.nBlockPos != node.nBlockPos
  }

  /** Where the miner looks in the memory pool, ConnectBlock looks into the new block; otherwise both look into the same
      older block. */
  ghost predicate SamePlace(s: Store, node: BlockIndex, p: DiskTxPos, c: DiskTxPos, h: Hash) {
    && c != MEMPOOL_POS && c in s.disk
    && if p == MEMPOOL_POS then h in s.mapTx && s.disk[c] == s.mapTx[h] && !s.mapTx[h].IsBeanBase() && !s.mapTx[h].IsBeanStake()
       else c == p && Outside(node, p)
  }

  /** pv is the miner's view of the index and cv ConnectBlock's, which has the beanbase too. */
  ghost predicate Mirrors(s: Store, node: BlockIndex, pv: Index, cv: Index, base: Hash) {
    && base !in pv && (forall h :: h in cv <==> h in pv || h == base)
    && forall h :: h in pv ==> SameSlots(pv[h], cv[h]) && SamePlace(s, node, pv[h].pos, cv[h].pos, h)
  }

  /** All indexed transactions lie in older blocks. */
  ghost predicate Older(ix: Index, node: BlockIndex) {
    forall h :: h in ix ==> Outside(node, ix[h].pos)
  }

  lemma MirrorsStart(s: Store, node: BlockIndex, base: Tx, pos: DiskTxPos)
    requires Backed(s.txdb, s.disk) && Older(s.txdb, node) && base.hash !in s.txdb && base.IsBeanBase()
    ensures Mirrors(s, node, s.txdb, ConnectTx(s.txdb, base, pos), base.hash)
  {
    forall h | h in s.txdb
      ensures SamePlace(s, node, s.txdb[h].pos, s.txdb[h].pos, h)
    {
      assert EntryBacked(s.txdb[h], h, s.disk);
    }
  }

  lemma MirrorsMore(s: Store, node: BlockIndex, pv: Index, cv: Index, base: Hash, tx: Tx, pos: DiskTxPos)
    requires Mirrors(s, node, pv, cv, base) && !tx.IsBeanBase() && !tx.IsBeanStake() && tx.hash != base
    requires pos != MEMPOOL_POS && pos != NullPos && pos in s.disk && s.disk[pos] == tx && tx.hash in s.mapTx && s.mapTx[tx.hash] == tx
    ensures Mirrors(s, node, ConnectTx(pv, tx, MEMPOOL_POS), ConnectTx(cv, tx, pos), base)
  {
    var pv', cv' := ConnectTx(pv, tx, MEMPOOL_POS), ConnectTx(cv, tx, pos);
    forall h | h in pv'
      ensures SameSlots(pv'[h], cv'[h]) && SamePlace(s, node, pv'[h].pos, cv'[h].pos, h)
    {
      if h != tx.hash {
        assert SameSlots(pv[h], cv[h]) && SamePlace(s, node, pv[h].pos, cv[h].pos, h);
      }
    }
  }

  /** What the miner fetches ConnectBlock fetches too, with the same slots taken. */
  ghost predicate SameFetch(node: BlockIndex, p: (TxIndex, Tx), c: (TxIndex, Tx)) {
    && c.1 == p.1 && SameSlots(p.0, c.0)
    && (p.1.IsBeanBase() || p.1.IsBeanStake() ==> c.0.pos == p.0.pos && Outside(node, p.0.pos))
  }

  lemma FetchSame(s: Store, node: BlockIndex, pv: Index, cv: Index, base: Hash, h: Hash)
    requires Mirrors(s, node, pv, cv, base) && Fetch(s.(txdb := pv), map[], true, h).Some?
    ensures Fetch(s.(txdb := cv), map[], true, h).Some?
    ensures SameFetch(node, Fetch(s.(txdb := pv), map[], true, h).value, Fetch(s.(txdb := cv), map[], true, h).value)
  {
    assert SameSlots(pv[h], cv[h]) && SamePlace(s, node, pv[h].pos, cv[h].pos, h);
    hide SameSlots, Outside;
  }

  ghost predicate SameInputs(node: BlockIndex, p: map<Hash, (TxIndex, Tx)>, c: map<Hash, (TxIndex, Tx)>) {
    p.Keys == c.Keys && forall h :: h in p ==> SameFetch(node, p[h], c[h])
  }

  lemma InputsSame(s: Store, node: BlockIndex, pv: Index, cv: Index, base: Hash, vin: seq<TxIn>)
    requires Mirrors(s, node, pv, cv, base) && AllFound(s.(txdb := pv), map[], true, vin)
    ensures AllFound(s.(txdb := cv), map[], true, vin)
    ensures SameInputs(node, InputsFrom(s.(txdb := pv), vin), InputsFrom(s.(txdb := cv), vin))
  {
    hide Mirrors, Fetch, SameFetch;
    forall h | h in PrevHashes(vin)
      ensures Fetch(s.(txdb := pv), map[], true, h).Some? && Fetch(s.(txdb := cv), map[], true, h).Some?
      ensures SameFetch(node, Fetch(s.(txdb := pv), map[], true, h).value, Fetch(s.(txdb := cv), map[], true, h).value)
    {
      var i :| 0 <= i < |vin| && vin[i].prevout.hash == h;
      FetchSame(s, node, pv, cv, base, h);
    }
  }

  lemma {:induction false} ValueInSame(node: BlockIndex, p: map<Hash, (TxIndex, Tx)>, c: map<Hash, (TxIndex, Tx)>, vin: seq<TxIn>)
    requires SameInputs(node, p, c)
    ensures ValueIn(c, vin) == ValueIn(p, vin)
  {
    hide SameSlots, Outside;
    if vin != [] {
      ValueInSame(node, p, c, vin[..|vin| - 1]);
    }
  }

  lemma {:induction false} SigOpsSame(r: Rules, node: BlockIndex, p: map<Hash, (TxIndex, Tx)>, c: map<Hash, (TxIndex, Tx)>, vin: seq<TxIn>, tx: Tx)
    requires SameInputs(node, p, c)
    ensures P2shSigOps(r, c, vin, tx) == P2shSigOps(r, p, vin, tx)
  {
    hide SameSlots, Outside;
    if vin != [] {
      SigOpsSame(r, node, p, c, vin[..|vin| - 1], tx);
    }
  }

  /** The block is one deeper than its parent, so what was deep enough for the parent still is. */
  lemma StillMature(t: Tree, u: Tree, best: Hash, b: Hash, nMaturity: nat, pos: DiskTxPos)
    requires t.Valid() && u.Valid() && Grows(t, u) && best in t.nodes && b in u.nodes && b != u.genesis && u.nodes[b].pprev == Some(best)
    requires !Immature(t, best, nMaturity, pos) && Outside(u.nodes[b], pos)
    ensures !Immature(u, b, nMaturity, pos)
  {
    ImmatureStable(t, u, best, nMaturity, pos);
    if Immature(u, b, nMaturity, pos) {
      var a :| u.Ancestor(a, b) && AtDepthBelow(u, a, b, nMaturity) && LocatedIn(u, a, pos);
      assert a != b;
      assert u.Ancestor(a, best);
      assert AtDepthBelow(u, a, best, nMaturity);
    }
  }

  lemma InputStillSane(r: Rules, t: Tree, u: Tree, best: Hash, b: Hash, p: map<Hash, (TxIndex, Tx)>, c: map<Hash, (TxIndex, Tx)>, tx: Tx, i: nat)
    requires t.Valid() && u.Valid() && Grows(t, u) && best in t.nodes && b in u.nodes && b != u.genesis && u.nodes[b].pprev == Some(best)
    requires SameInputs(u.nodes[b], p, c) && i < |tx.vin| && InputSane(r, t, best, p, tx, i)
    ensures InputSane(r, u, b, c, tx, i)
  {
    hide Immature, Outside, ValueIn;
    var op := tx.vin[i].prevout;
    assert SameFetch(u.nodes[b], p[op.hash], c[op.hash]);
    ValueInSame(u.nodes[b], p, c, tx.vin[..i + 1]);
    if p[op.hash].1.IsBeanBase() || p[op.hash].1.IsBeanStake() {
      StillMature(t, u, best, b, r.nBeanbaseMaturity, p[op.hash].0.pos);
    }
  }

  lemma SlotsStillFree(node: BlockIndex, p: map<Hash, (TxIndex, Tx)>, c: map<Hash, (TxIndex, Tx)>, vin: seq<TxIn>)
    requires SameInputs(node, p, c) && AllInRange(p, vin)
    ensures AllInRange(c, vin) && (NoDoubleSpend(c, vin) <==> NoDoubleSpend(p, vin))
    ensures forall i :: 0 <= i < |vin| ==> c[vin[i].prevout.hash].1 == p[vin[i].prevout.hash].1
  {
    hide Outside;
    forall i | 0 <= i < |vin|
      ensures SameFetch(node, p[vin[i].prevout.hash], c[vin[i].prevout.hash])
    {
    }
  }

  /** What the miner has accepted ConnectBlock accepts. */
  lemma AcceptedToo(r: Rules, t: Tree, u: Tree, best: Hash, b: Hash, s: Store, pv: Index, cv: Index, base: Hash, tx: Tx)
    requires t.Valid() && u.Valid() && Grows(t, u) && best in t.nodes && b in u.nodes && b != u.genesis && u.nodes[b].pprev == Some(best)
    requires Mirrors(s, u.nodes[b], pv, cv, base) && TxAccepted(r, t, best, s.(txdb := pv), tx, true) && !tx.IsBeanBase()
    ensures TxAccepted(r, u, b, s.(txdb := cv), tx, true)
    ensures SameInputs(u.nodes[b], InputsFrom(s.(txdb := pv), tx.vin), InputsFrom(s.(txdb := cv), tx.vin))
  {
    hide Mirrors, Fetch, InputsFrom, InputSane, NoDoubleSpend, SameInputs, AllFound, ValueIn, Grows, GetMinFee, SumOut;
    var p, c := InputsFrom(s.(txdb := pv), tx.vin), InputsFrom(s.(txdb := cv), tx.vin);
    InputsSame(s, u.nodes[b], pv, cv, base, tx.vin);
    SlotsStillFree(u.nodes[b], p, c, tx.vin);
    ValueInSame(u.nodes[b], p, c, tx.vin);
    forall i | 0 <= i < |tx.vin|
      ensures InputSane(r, u, b, c, tx, i)
    {
      InputStillSane(r, t, u, best, b, p, c, tx, i);
    }
  }

  // ------------------------------------------------------------------ the block

  /** Block b of u is a beanbase and the listed transactions, on top of best, in a place of its own in the block files. */
  ghost predicate Framed(t: Tree, u: Tree, best: Hash, b: Hash, s: Store, vtx: seq<Tx>) {
    && t.Valid() && u.Valid() && Grows(t, u) && best in t.nodes && b in u.nodes && b != u.genesis && u.nodes[b].pprev == Some(best)
    && |u.nodes[b].block.vtx| > 0 && u.nodes[b].block.vtx[0].IsBeanBase() && u.nodes[b].block.vtx[1..] == vtx
    && NodeAccepted(s.disk, u.nodes[b]) && Older(s.txdb, u.nodes[b])
  }

  /** The listed transactions are the pooled ones of their hashes, and the pool only holds well-formed ones. */
  ghost predicate FromPool(s: Store, vtx: seq<Tx>) {
    forall k :: 0 <= k < |vtx| ==> vtx[k].hash in s.mapTx && s.mapTx[vtx[k].hash] == vtx[k] && WellFormed(vtx[k])
  }

  /** Everything known when the miner has finished and the block has been stored. */
  ghost predicate Mined(r: Rules, t: Tree, u: Tree, best: Hash, b: Hash, s: Store, vtx: seq<Tx>) {
    && Framed(t, u, best, b, s, vtx) && FromPool(s, vtx)
    && Assembled(r, t, best, s, vtx) && DistinctTxids(vtx)
    && HashesIdentify(s.disk) && IndexInvariant(s.txdb, s.disk, t.nodes[best].nHeight)
  }

  lemma OwnPlaces(r: Rules, t: Tree, u: Tree, best: Hash, b: Hash, s: Store, vtx: seq<Tx>, k: nat)
    requires Mined(r, t, u, best, b, s, vtx) && k <= |vtx|
    ensures var node := u.nodes[b];
            && |node.block.vtx| == |vtx| + 1 && (k > 0 ==> node.block.vtx[k] == vtx[k - 1])
            && TxPos(node, k) in s.disk && s.disk[TxPos(node, k)] == node.block.vtx[k]
            && TxPos(node, k).DiskTxPos? && TxPos(node, k) != MEMPOOL_POS
  {
    hide Assembled, IndexInvariant, HashesIdentify, FromPool, DistinctTxids, Grows, Older;
    assert u.nodes[b].block.vtx == [u.nodes[b].block.vtx[0]] + vtx;
    hide TxPos;
    assert TxPos(u.nodes[b], k).nTxPos >= 81 by {
      PlaceBeyondHeader(u.nodes[b], k);
    }
  }

  lemma PlaceBeyondHeader(node: BlockIndex, k: nat)
    requires k <= |node.block.vtx|
    ensures TxPos(node, k).DiskTxPos? && TxPos(node, k).nTxPos >= 81
  {
  }

  lemma OneOfThatHash(disk: Disk, pos: DiskTxPos, tx: Tx)
    requires HashesIdentify(disk) && pos in disk && disk[pos] == tx
    ensures forall p :: p in disk && disk[p].hash == tx.hash ==> disk[p] == tx
  {
  }

  lemma MinedIs(r: Rules, t: Tree, u: Tree, best: Hash, b: Hash, s: Store, vtx: seq<Tx>)
    requires Mined(r, t, u, best, b, s, vtx)
    ensures t.Valid() && best in t.nodes && b in u.nodes && |u.nodes[b].block.vtx| > 0 && u.nodes[b].block.vtx[0].IsBeanBase()
    ensures Assembled(r, t, best, s, vtx) && HashesIdentify(s.disk)
  {
    hide Assembled, HashesIdentify, IndexInvariant, FromPool;
  }

  lemma ListedIsIdentified(r: Rules, t: Tree, u: Tree, best: Hash, b: Hash, s: Store, vtx: seq<Tx>, k: nat)
    requires Mined(r, t, u, best, b, s, vtx) && k < |vtx|
    ensures !vtx[k].IsBeanBase() && !vtx[k].IsBeanStake() && vtx[k].hash != u.nodes[b].block.vtx[0].hash
    ensures forall p :: p in s.disk && s.disk[p].hash == vtx[k].hash ==> s.disk[p] == vtx[k]
  {
    hide *;
    MinedIs(r, t, u, best, b, s, vtx);
    OwnPlaces(r, t, u, best, b, s, vtx, 0);
    OwnPlaces(r, t, u, best, b, s, vtx, k + 1);
    OneOfThatHash(s.disk, TxPos(u.nodes[b], k + 1), vtx[k]);
    AssembledAt(r, t, best, s, vtx, k);
    FollowerFindsUnspent(r, t, best, s, vtx[..k], vtx[k], 1000 + SumSize(vtx[..k]));
  }

  /** A listed transaction is the only one of its hash on disk, and is not the beanbase. */
  lemma ListIsIdentified(r: Rules, t: Tree, u: Tree, best: Hash, b: Hash, s: Store, vtx: seq<Tx>)
    requires Mined(r, t, u, best, b, s, vtx)
    ensures Identified(s.disk, vtx)
    ensures forall k :: 0 <= k < |vtx| ==> !vtx[k].IsBeanBase() && !vtx[k].IsBeanStake() && vtx[k].hash != u.nodes[b].block.vtx[0].hash
  {
    hide Mined;
    MinedIs(r, t, u, best, b, s, vtx);
    forall k | 0 <= k < |vtx|
      ensures !vtx[k].IsBeanBase() && !vtx[k].IsBeanStake() && vtx[k].hash != u.nodes[b].block.vtx[0].hash
      ensures forall p :: p in s.disk && s.disk[p].hash == vtx[k].hash ==> s.disk[p] == vtx[k]
    {
      ListedIsIdentified(r, t, u, best, b, s, vtx, k);
    }
  }

  /** None of the block's transactions is indexed. */
  lemma BlockIsNew(r: Rules, t: Tree, u: Tree, best: Hash, b: Hash, s: Store, vtx: seq<Tx>)
    requires Mined(r, t, u, best, b, s, vtx)
    ensures u.nodes[b].block.vtx[0].hash !in s.txdb && forall k :: 0 <= k < |vtx| ==> vtx[k].hash !in s.txdb
  {
    ListIsIdentified(r, t, u, best, b, s, vtx);
    OwnPlaces(r, t, u, best, b, s, vtx, 0);
    hide TxPos, Assembled, Older, Grows, HashesIdentify, Backed, InputsSpent, BeanbasesBelow, Identified;
    assert CarriesHeight(u.nodes[b].block.vtx[0], t.nodes[best].nHeight + 1);
    BeanbaseIsNew(s.txdb, s.disk, u.nodes[b].block.vtx[0], TxPos(u.nodes[b], 0), t.nodes[best].nHeight);
    ListedAreNew(r, t, best, s, vtx, |vtx|);
  }

  lemma {:induction false} Mirrored(r: Rules, t: Tree, u: Tree, best: Hash, b: Hash, s: Store, vtx: seq<Tx>, k: nat)
    requires Mined(r, t, u, best, b, s, vtx) && k <= |vtx| && |u.nodes[b].block.vtx| == |vtx| + 1
    ensures Mirrors(s, u.nodes[b], PoolView(s.txdb, vtx[..k]), ConnectTxs(s.txdb, u.nodes[b], k + 1), u.nodes[b].block.vtx[0].hash)
  {
    hide TxPos, Assembled, Mirrors, ConnectTx, Mined;
    MinedIs(r, t, u, best, b, s, vtx);
    OwnPlaces(r, t, u, best, b, s, vtx, k);
    var node := u.nodes[b];
    if k == 0 {
      MirroredStart(r, t, u, best, b, s, vtx);
      assert ConnectTxs(s.txdb, node, 0) == s.txdb;
      assert vtx[..0] == [];
    } else {
      Mirrored(r, t, u, best, b, s, vtx, k - 1);
      ListedFacts(r, t, u, best, b, s, vtx, k - 1);
      MirrorsMore(s, node, PoolView(s.txdb, vtx[..k - 1]), ConnectTxs(s.txdb, node, k), node.block.vtx[0].hash, vtx[k - 1], TxPos(node, k));
      assert vtx[..k][..k - 1] == vtx[..k - 1];
    }
  }

  lemma MirroredStart(r: Rules, t: Tree, u: Tree, best: Hash, b: Hash, s: Store, vtx: seq<Tx>)
    requires Mined(r, t, u, best, b, s, vtx)
    ensures Mirrors(s, u.nodes[b], s.txdb, ConnectTx(s.txdb, u.nodes[b].block.vtx[0], TxPos(u.nodes[b], 0)), u.nodes[b].block.vtx[0].hash)
  {
    BlockIsNew(r, t, u, best, b, s, vtx);
    hide TxPos, Assembled, Mirrors, ConnectTx, Grows, HashesIdentify, Backed, Older;
    MirrorsStart(s, u.nodes[b], u.nodes[b].block.vtx[0], TxPos(u.nodes[b], 0));
  }

  lemma ListedFacts(r: Rules, t: Tree, u: Tree, best: Hash, b: Hash, s: Store, vtx: seq<Tx>, k: nat)
    requires Mined(r, t, u, best, b, s, vtx) && k < |vtx|
    ensures !vtx[k].IsBeanBase() && !vtx[k].IsBeanStake() && vtx[k].hash != u.nodes[b].block.vtx[0].hash
    ensures vtx[k].hash in s.mapTx && s.mapTx[vtx[k].hash] == vtx[k] && vtx[k].hash !in s.txdb
  {
    ListIsIdentified(r, t, u, best, b, s, vtx);
    BlockIsNew(r, t, u, best, b, s, vtx);
    hide Assembled, Grows, HashesIdentify, Older, Identified, IndexInvariant, Framed;
  }

  /** Listed transaction k passes ConnectBlock's input checks. */
  lemma ListedAccepted(r: Rules, t: Tree, u: Tree, best: Hash, b: Hash, s: Store, vtx: seq<Tx>, k: nat)
    requires Mined(r, t, u, best, b, s, vtx) && u.Valid() && b in u.nodes && k < |vtx| && |u.nodes[b].block.vtx| == |vtx| + 1
    ensures TxAccepted(r, u, b, ViewAt(s, u.nodes[b], k + 1), vtx[k], true)
    ensures SameInputs(u.nodes[b], InputsFrom(StoreAfter(s, vtx[..k]), vtx[k].vin), InputsFrom(ViewAt(s, u.nodes[b], k + 1), vtx[k].vin))
  {
    var node := u.nodes[b];
    Mirrored(r, t, u, best, b, s, vtx, k);
    MinedAt(r, t, u, best, b, s, vtx, k);
    hide TxAccepted, Mirrors, ConnectTxs, PoolView, SameInputs, Mined, InputsFrom, Grows;
    AcceptedToo(r, t, u, best, b, s, PoolView(s.txdb, vtx[..k]), ConnectTxs(s.txdb, node, k + 1), node.block.vtx[0].hash, vtx[k]);
  }

  lemma MinedAt(r: Rules, t: Tree, u: Tree, best: Hash, b: Hash, s: Store, vtx: seq<Tx>, k: nat)
    requires Mined(r, t, u, best, b, s, vtx) && k < |vtx|
    ensures t.Valid() && u.Valid() && Grows(t, u) && best in t.nodes && b in u.nodes && b != u.genesis && u.nodes[b].pprev == Some(best)
    ensures TxAccepted(r, t, best, StoreAfter(s, vtx[..k]), vtx[k], true) && !vtx[k].IsBeanBase() && !vtx[k].IsBeanStake()
  {
    hide Assembled, TxAccepted, IndexInvariant, HashesIdentify, FromPool, NodeAccepted, PoolView;
    AssembledAt(r, t, best, s, vtx, k);
  }

  /** One more transaction adds the same to both counts. */
  lemma SameStep(r: Rules, s: Store, node: BlockIndex, vtx: seq<Tx>, k: nat)
    requires k < |vtx| && |node.block.vtx| == |vtx| + 1 && node.block.vtx[k + 1] == vtx[k] && !vtx[k].IsBeanBase() && !vtx[k].IsBeanStake()
    requires SameInputs(node, InputsFrom(StoreAfter(s, vtx[..k]), vtx[k].vin), InputsFrom(ViewAt(s, node, k + 1), vtx[k].vin))
    ensures var a, c := Tally(r, s, node, k + 1), Tally(r, s, node, k + 2);
            && c.nFees == a.nFees + FeeAfter(s, vtx[..k], vtx[k]) && c.nSigOps == a.nSigOps + SigOpsAfter(r, s, vtx[..k], vtx[k])
  {
    hide SameInputs, InputsFrom, ValueIn, P2shSigOps, SumOut, ConnectTxs, PoolView;
    var tx, p, c := vtx[k], InputsFrom(StoreAfter(s, vtx[..k]), vtx[k].vin), InputsFrom(ViewAt(s, node, k + 1), vtx[k].vin);
    ValueInSame(node, p, c, tx.vin);
    SigOpsSame(r, node, p, c, tx.vin, tx);
  }

  lemma FirstTotals(r: Rules, s: Store, node: BlockIndex)
    requires |node.block.vtx| > 0 && node.block.vtx[0].IsBeanBase()
    ensures var a := Tally(r, s, node, 1); a.nFees == 0 && a.nSigOps == node.block.vtx[0].sigOps
  {
    hide InputsFrom, SumOut;
    assert Tally(r, s, node, 0) == Totals(0, 0, 0, 0, 0);
  }

  lemma TotalsStep(r: Rules, s: Store, vtx: seq<Tx>, k: nat)
    requires k < |vtx|
    ensures TotalFees(s, vtx[..0]) == 0 && TotalSigOps(r, s, vtx[..0]) == 0
    ensures TotalFees(s, vtx[..k + 1]) == TotalFees(s, vtx[..k]) + FeeAfter(s, vtx[..k], vtx[k])
    ensures TotalSigOps(r, s, vtx[..k + 1]) == TotalSigOps(r, s, vtx[..k]) + SigOpsAfter(r, s, vtx[..k], vtx[k])
  {
    hide FeeAfter, SigOpsAfter;
    assert vtx[..k + 1][..k] == vtx[..k] && vtx[..k + 1][k] == vtx[k];
  }

  /** ConnectBlock counts the fees and sigops that the miner has counted. */
  lemma {:induction false} SameTotals(r: Rules, t: Tree, u: Tree, best: Hash, b: Hash, s: Store, vtx: seq<Tx>, k: nat)
    requires Mined(r, t, u, best, b, s, vtx) && b in u.nodes && k <= |vtx| && |u.nodes[b].block.vtx| == |vtx| + 1
    ensures var a := Tally(r, s, u.nodes[b], k + 1);
            a.nFees == TotalFees(s, vtx[..k]) && a.nSigOps == u.nodes[b].block.vtx[0].sigOps + TotalSigOps(r, s, vtx[..k])
  {
    hide *;
    MinedIs(r, t, u, best, b, s, vtx);
    if k == 0 {
      FirstTotals(r, s, u.nodes[b]);
      NoTotals(r, s, vtx);
    } else {
      SameTotals(r, t, u, best, b, s, vtx, k - 1);
      OwnPlaces(r, t, u, best, b, s, vtx, k);
      MinedAt(r, t, u, best, b, s, vtx, k - 1);
      ListedAccepted(r, t, u, best, b, s, vtx, k - 1);
      SameStep(r, s, u.nodes[b], vtx, k - 1);
      TotalsStep(r, s, vtx, k - 1);
    }
  }

  lemma NoTotals(r: Rules, s: Store, vtx: seq<Tx>)
    ensures TotalFees(s, vtx[..0]) == 0 && TotalSigOps(r, s, vtx[..0]) == 0
  {
  }

  lemma {:induction false} SigOpsGrow(r: Rules, s: Store, vtx: seq<Tx>, k: nat)
    requires k <= |vtx|
    ensures SumSigOps(vtx) <= TotalSigOps(r, s, vtx) && TotalSigOps(r, s, vtx[..k]) <= TotalSigOps(r, s, vtx)
    decreases |vtx|
  {
    hide InputsFrom, P2shSigOps;
    if k < |vtx| {
      SigOpsGrow(r, s, vtx[..|vtx| - 1], k);
      assert vtx[..|vtx| - 1][..k] == vtx[..k];
    } else {
      assert vtx[..k] == vtx;
      if vtx != [] {
        SigOpsGrow(r, s, vtx[..|vtx| - 1], |vtx| - 1);
      }
    }
  }

  /** Every transaction of the block passes ConnectBlock's checks. */
  lemma StepPasses(r: Rules, t: Tree, u: Tree, best: Hash, b: Hash, s: Store, vtx: seq<Tx>, k: nat)
    requires Mined(r, t, u, best, b, s, vtx) && u.Valid() && b in u.nodes && k <= |vtx| && |u.nodes[b].block.vtx| == |vtx| + 1
    requires u.nodes[b].block.vtx[0].sigOps + TotalSigOps(r, s, vtx) <= MAX_BLOCK_SIGOPS
    ensures TxStepOk(r, u, s, b, k, true)
  {
    hide Mined, Tally, TotalSigOps, TotalFees, ConnectTxs, InputsConnectable, InputsFrom, SameInputs, AllFound, AllInRange, PoolView, TxPos,
         Tree.Valid;
    SameTotals(r, t, u, best, b, s, vtx, k);
    SigOpsGrow(r, s, vtx, k);
    MinedIs(r, t, u, best, b, s, vtx);
    BlockIsNew(r, t, u, best, b, s, vtx);
    OwnPlaces(r, t, u, best, b, s, vtx, k);
    if k > 0 {
      ListedAccepted(r, t, u, best, b, s, vtx, k - 1);
    }
  }

  lemma {:induction false} BlockTxsOk(r: Rules, t: Tree, u: Tree, best: Hash, b: Hash, s: Store, vtx: seq<Tx>, n: nat)
    requires Mined(r, t, u, best, b, s, vtx) && u.Valid() && b in u.nodes && n <= |u.nodes[b].block.vtx| == |vtx| + 1
    requires u.nodes[b].block.vtx[0].sigOps + TotalSigOps(r, s, vtx) <= MAX_BLOCK_SIGOPS
    ensures TxsOk(r, u, s, b, n, true)
  {
    hide Mined, TxStepOk, TotalSigOps, Tree.Valid;
    if n > 0 {
      BlockTxsOk(r, t, u, best, b, s, vtx, n - 1);
      StepPasses(r, t, u, best, b, s, vtx, n - 1);
    }
  }

  /** What is left to the miner of a block: a well-formed beanbase within the room kept for it, a header that is in order, and
      a time no earlier than its transactions'. */
  ghost predicate Sealed(r: BlockRules, block: Block) {
    && 0 < |block.vtx| <= MAX_BLOCK_SIZE && r.headerOk(block)
    && WellFormed(block.vtx[0]) && block.vtx[0].sigOps <= 100
    && forall k :: 0 <= k < |block.vtx| ==> block.vtx[k].nTime <= block.nTime
  }

  lemma FramedIsWellFormed(r: BlockRules, block: Block, base: Tx, vtx: seq<Tx>)
    requires Sealed(r, block) && block.vtx == [base] + vtx && base.IsBeanBase()
    requires forall k :: 0 <= k < |vtx| ==> WellFormed(vtx[k]) && !vtx[k].IsBeanBase() && !vtx[k].IsBeanStake() && vtx[k].hash != base.hash
    requires DistinctTxids(vtx) && base.sigOps + SumSigOps(vtx) <= MAX_BLOCK_SIGOPS
    ensures BlockWellFormed(r, block) && !block.IsProofOfStake()
  {
    hide WellFormed, SumSigOps, DistinctTxids, Tx.IsBeanBase, Tx.IsBeanStake;
    SigOpsInFront(base, vtx);
    FramedDistinct(base, vtx);
    assert block.vtx[0] == base;
    assert |block.vtx| > 1 ==> block.vtx[1] == vtx[0];
    forall i | 1 <= i < |block.vtx|
      ensures WellFormed(block.vtx[i]) && !block.vtx[i].IsBeanBase()
    {
      assert block.vtx[i] == vtx[i - 1];
    }
  }

  lemma FramedDistinct(base: Tx, vtx: seq<Tx>)
    requires DistinctTxids(vtx) && forall k :: 0 <= k < |vtx| ==> vtx[k].hash != base.hash
    ensures DistinctTxids([base] + vtx)
  {
    var all := [base] + vtx;
    assert forall i :: 1 <= i < |all| ==> all[i] == vtx[i - 1];
  }

  lemma MinedIsWellFormed(r: BlockRules, t: Tree, u: Tree, best: Hash, b: Hash, s: Store, vtx: seq<Tx>)
    requires Mined(r.tx, t, u, best, b, s, vtx) && b in u.nodes && Sealed(r, u.nodes[b].block)
    requires u.nodes[b].block.vtx[0].sigOps + TotalSigOps(r.tx, s, vtx) <= MAX_BLOCK_SIGOPS
    ensures BlockWellFormed(r, u.nodes[b].block) && !u.nodes[b].block.IsProofOfStake()
  {
    hide *;
    MinedIs(r.tx, t, u, best, b, s, vtx);
    ListIsIdentified(r.tx, t, u, best, b, s, vtx);
    ListIsWellFormed(r.tx, t, u, best, b, s, vtx);
    SigOpsGrow(r.tx, s, vtx, 0);
    FramedIsWellFormed(r, u.nodes[b].block, u.nodes[b].block.vtx[0], vtx);
  }

  lemma ListIsWellFormed(r: Rules, t: Tree, u: Tree, best: Hash, b: Hash, s: Store, vtx: seq<Tx>)
    requires Mined(r, t, u, best, b, s, vtx) && b in u.nodes && |u.nodes[b].block.vtx| > 0
    ensures u.nodes[b].block.vtx == [u.nodes[b].block.vtx[0]] + vtx && DistinctTxids(vtx) && forall k :: 0 <= k < |vtx| ==> WellFormed(vtx[k])
  {
    hide Assembled, WellFormed, IndexInvariant, HashesIdentify, NodeAccepted, Older, Grows, DistinctTxids;
  }

  lemma {:induction false} SigOpsInFront(tx: Tx, vtx: seq<Tx>)
    ensures SumSigOps([tx] + vtx) == tx.sigOps + SumSigOps(vtx)
  {
    if vtx == [] {
      assert [tx] + vtx == [tx] && [tx][..0] == [];
      assert SumSigOps([]) == 0;
    } else {
      SigOpsInFront(tx, vtx[..|vtx| - 1]);
      assert ([tx] + vtx)[..|vtx|] == [tx] + vtx[..|vtx| - 1];
    }
  }

  /** ConnectBlock accepts the mined block exactly when the beanbase takes no more than the subsidy and the fees the miner
      has counted. */
  lemma MinedConnects(r: BlockRules, t: Tree, u: Tree, best: Hash, b: Hash, s: Store, vtx: seq<Tx>)
    requires Mined(r.tx, t, u, best, b, s, vtx) && b in u.nodes && u.Valid() && Sealed(r, u.nodes[b].block)
    requires 100 + TotalSigOps(r.tx, s, vtx) < MAX_BLOCK_SIGOPS
    ensures BlockConnects(r, u, s, b, true) <==> SumOut(u.nodes[b].block.vtx[0].vout) <= POW_SUBSIDY + TotalFees(s, vtx)
  {
    hide Mined, TxsOk, BlockWellFormed, SumOut, Tally, TotalFees, TotalSigOps, TxPos, Tree.Valid;
    SealedRoom(r, u.nodes[b].block);
    MinedIsWellFormed(r, t, u, best, b, s, vtx);
    OwnPlaces(r.tx, t, u, best, b, s, vtx, 0);
    BlockTxsOk(r.tx, t, u, best, b, s, vtx, |vtx| + 1);
    SameTotals(r.tx, t, u, best, b, s, vtx, |vtx|);
    assert vtx[..|vtx|] == vtx;
  }

  lemma SealedRoom(r: BlockRules, block: Block)
    requires Sealed(r, block)
    ensures |block.vtx| > 0 && block.vtx[0].sigOps <= 100
  {
  }

  /** A block mined on the tip of a good branch, on the index that stands there, could become the next tip exactly when the
      beanbase takes no more than that; SetBestChain would connect it in one step. */
  lemma MinedBecomesTip(r: BlockRules, t: Tree, u: Tree, best: Hash, b: Hash, s: Store, vtx: seq<Tx>)
    requires Framed(t, u, best, b, s, vtx) && FromPool(s, vtx) && Assembled(r.tx, t, best, s, vtx) && DistinctTxids(vtx)
    requires TreeAccepted(t, s.disk) && HashesIdentify(s.disk) && BranchGood(r, t, s.disk, best) && s.txdb == ReplayIndex(t, best)
    requires Sealed(r, u.nodes[b].block) && 100 + TotalSigOps(r.tx, s, vtx) < MAX_BLOCK_SIGOPS
    ensures Intermediate(u, best, b) == b
    ensures best in u.nodes && (Adoptable(r, u, s.disk, best, b, true)
                                <==> SumOut(u.nodes[b].block.vtx[0].vout) <= POW_SUBSIDY + TotalFees(s, vtx))
  {
    ReplayInvariant(r, t, s.disk, best);
    ReplayStable(r, t, u, s.disk, best);
    MinedConnects(r, t, u, best, b, s, vtx);
    hide Assembled, FromPool, DistinctTxids, TreeAccepted, HashesIdentify, BranchGood, ReplayIndex, BlockConnects, Adoptable, Minted, Sealed,
         InputsSpent, BeanbasesBelow;
    ConnectingIgnoresMempool(r, u, s, b, true);
    ChildOfBest(r, u, s.disk, best, b, true);
  }
}
