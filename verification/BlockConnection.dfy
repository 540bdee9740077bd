/** Connecting a block to the transaction index: CheckBlock and ConnectBlock (src/main.cpp). */
module BlockConnection {
  import opened Transactions
  import opened BlockTree
  import opened TxInputs

  const POW_SUBSIDY: int := 100_000 * BEAN
  const POS_SUBSIDY: int := 1_000 * BEAN

  /** Settings and oracles of the block checks. */
  datatype BlockRules = BlockRules(tx: Rules,
                                   headerOk: Block -> bool,        // size, proof of work, time and Merkle root
                                   beanAge: (Tx, Index) -> bool)   // GetBeanAge succeeds

  predicate DistinctTxids(vtx: seq<Tx>) {
    forall i, j :: 0 <= i < j < |vtx| ==> vtx[i].hash != vtx[j].hash
  }

  function SumSigOps(vtx: seq<Tx>): nat {
    if vtx == [] then 0 else SumSigOps(vtx[..|vtx| - 1]) + vtx[|vtx| - 1].sigOps
  }

  /** What CheckBlock guarantees about a block on its own. */
  predicate BlockWellFormed(r: BlockRules, b: Block) {
    && 0 < |b.vtx| <= MAX_BLOCK_SIZE
    && r.headerOk(b)
    && b.vtx[0].IsBeanBase()
    && (forall i :: 1 <= i < |b.vtx| ==> !b.vtx[i].IsBeanBase())
    && (b.IsProofOfStake() ==>
          && |b.vtx[0].vout| == 1 && b.vtx[0].vout[0].IsEmpty()
          && forall i :: 2 <= i < |b.vtx| ==> !b.vtx[i].IsBeanStake())
    && (forall i :: 0 <= i < |b.vtx| ==> WellFormed(b.vtx[i]) && b.vtx[i].nTime <= b.nTime)
    && DistinctTxids(b.vtx)
    && SumSigOps(b.vtx) <= MAX_BLOCK_SIGOPS
  }

  /** The set of txids CheckBlock collects. */
  function Txids(vtx: seq<Tx>): set<Hash> {
    set i | 0 <= i < |vtx| :: vtx[i].hash
  }

  lemma DistinctOneMore(vtx: seq<Tx>, tx: Tx)
    ensures Txids(vtx + [tx]) == Txids(vtx) + {tx.hash}
    ensures DistinctTxids(vtx + [tx]) <==> DistinctTxids(vtx) && tx.hash !in Txids(vtx)
  {
    var all := vtx + [tx];
    assert forall i :: 0 <= i < |vtx| ==> all[i] == vtx[i];
    assert all[|vtx|] == tx;
    if tx.hash in Txids(vtx) {
      var i :| 0 <= i < |vtx| && vtx[i].hash == tx.hash;
      assert all[i].hash == all[|vtx|].hash;
    }
  }

  /** CheckBlock counts the distinct txids; all are distinct exactly when the count is the number of transactions. */
  lemma {:induction false} CountTxids(vtx: seq<Tx>)
    ensures |Txids(vtx)| <= |vtx|
    ensures |Txids(vtx)| == |vtx| <==> DistinctTxids(vtx)
  {
    if vtx != [] {
      var front, tx := vtx[..|vtx| - 1], vtx[|vtx| - 1];
      CountTxids(front);
      DistinctOneMore(front, tx);
      assert vtx == front + [tx];
      if tx.hash in Txids(front) {
        assert Txids(front) + {tx.hash} == Txids(front);
      }
    }
  }

  /** CBlock::CheckBlock, without the block signature. */
  method CheckBlock(r: BlockRules, b: Block) returns (ok: bool)
    ensures ok <==> BlockWellFormed(r, b)
  {
    if |b.vtx| == 0 || |b.vtx| > MAX_BLOCK_SIZE || !r.headerOk(b) {
      return false;
    }
    ok := CheckLayout(b);
    if !ok {
      return false;
    }
    for i := 0 to |b.vtx|
      invariant forall k :: 0 <= k < i ==> WellFormed(b.vtx[k]) && b.vtx[k].nTime <= b.nTime
    {
      var good := CheckTransaction(b.vtx[i]);
      if !good {
        return false;
      }
      if b.nTime < b.vtx[i].nTime {
        return false;
      }
    }
    ok := CheckCounts(b);
  }

  /** The beanbase and beansprout places of CheckBlock. */
  method CheckLayout(b: Block) returns (ok: bool)
    requires |b.vtx| > 0
    ensures ok <==> && b.vtx[0].IsBeanBase()
                    && (forall i :: 1 <= i < |b.vtx| ==> !b.vtx[i].IsBeanBase())
                    && (b.IsProofOfStake() ==>
                          && |b.vtx[0].vout| == 1 && b.vtx[0].vout[0].IsEmpty()
                          && forall i :: 2 <= i < |b.vtx| ==> !b.vtx[i].IsBeanStake())
  {
    if !b.vtx[0].IsBeanBase() {
      return false;
    }
    for i := 1 to |b.vtx|
      invariant forall k :: 1 <= k < i ==> !b.vtx[k].IsBeanBase()
    {
      if b.vtx[i].IsBeanBase() {
        return false;
      }
    }
    if b.IsProofOfStake() {
      if |b.vtx[0].vout| != 1 || !b.vtx[0].vout[0].IsEmpty() {
        return false;
      }
      for i := 2 to |b.vtx|
        invariant forall k :: 2 <= k < i ==> !b.vtx[k].IsBeanStake()
      {
        if b.vtx[i].IsBeanStake() {
          return false;
        }
      }
    }
    return true;
  }

  /** The duplicate-txid and sigop counts of CheckBlock. */
  method CheckCounts(b: Block) returns (ok: bool)
    ensures ok <==> DistinctTxids(b.vtx) && SumSigOps(b.vtx) <= MAX_BLOCK_SIGOPS
  {
    var uniqueTx: set<Hash> := {};
    var nSigOps := 0;
    for i := 0 to |b.vtx|
      invariant uniqueTx == Txids(b.vtx[..i])
      invariant nSigOps == SumSigOps(b.vtx[..i])
    {
      assert b.vtx[..i + 1] == b.vtx[..i] + [b.vtx[i]];
      DistinctOneMore(b.vtx[..i], b.vtx[i]);
      uniqueTx := uniqueTx + {b.vtx[i].hash};
      nSigOps := nSigOps + b.vtx[i].sigOps;
    }
    assert b.vtx[..|b.vtx|] == b.vtx;
    CountTxids(b.vtx);
    if |uniqueTx| != |b.vtx| {
      return false;
    }
    return nSigOps <= MAX_BLOCK_SIGOPS;
  }

  function CompactSizeLength(n: nat): nat {
    if n < 253 then 1 else if n <= 0xFFFF then 3 else if n <= 0xFFFF_FFFF then 5 else 9
  }

  function SumSize(vtx: seq<Tx>): nat {
    if vtx == [] then 0 else SumSize(vtx[..|vtx| - 1]) + vtx[|vtx| - 1].size
  }

  /** Where transaction k of a block lies in the block file: after the 80 header bytes, the transaction count and
      the transactions before it. */
  function TxPos(node: BlockIndex, k: nat): DiskTxPos
    requires k <= |node.block.vtx|
  {
    DiskTxPos(node.nFile, node.nBlockPos,
              node.nBlockPos + 80 + CompactSizeLength(|node.block.vtx|) + SumSize(node.block.vtx[..k]))
  }

  /** What connecting one transaction does to the index: its inputs are marked spent by it, and it is entered with
      every output unspent. */
  function ConnectTx(ix: Index, tx: Tx, pos: DiskTxPos): Index {
    (if tx.IsBeanBase() then ix else Mark(ix, Prevouts(tx.vin), pos))[tx.hash := Fresh(pos, |tx.vout|)]
  }

  /** The index after the first k transactions of a block. */
  function ConnectTxs(ix: Index, node: BlockIndex, k: nat): Index
    requires k <= |node.block.vtx|
  {
    if k == 0 then ix else ConnectTx(ConnectTxs(ix, node, k - 1), node.block.vtx[k - 1], TxPos(node, k - 1))
  }

  /** The index after a whole block. */
  function ConnectEffect(ix: Index, node: BlockIndex): Index {
    ConnectTxs(ix, node, |node.block.vtx|)
  }

  /** The inputs of a transaction as the index `s.txdb` presents them. */
  function InputsFrom(s: Store, vin: seq<TxIn>): map<Hash, (TxIndex, Tx)> {
    map h | h in PrevHashes(vin) && Fetch(s, map[], true, h).Some? :: Fetch(s, map[], true, h).value
  }

  /** The transaction is accepted against the index `s.txdb`. */
  ghost predicate TxAccepted(r: Rules, t: Tree, b: Hash, s: Store, tx: Tx, fCheckSigs: bool)
    requires t.Valid() && b in t.nodes
  {
    !tx.IsBeanBase() ==>
      && AllFound(s, map[], true, tx.vin)
      && AllInRange(InputsFrom(s, tx.vin), tx.vin)
      && InputsConnectable(r, t, b, InputsFrom(s, tx.vin), tx, fCheckSigs)
  }

  /** BIP 30: an older transaction with this txid must be completely spent. */
  predicate NoLiveDuplicate(ix: Index, h: Hash) {
    h in ix ==> forall n :: 0 <= n < |ix[h].vSpent| ==> ix[h].vSpent[n] != NullPos
  }

  function P2shSigOps(r: Rules, inputs: map<Hash, (TxIndex, Tx)>, vin: seq<TxIn>, tx: Tx): nat
  {
    if vin == [] then 0
    else
      var last := vin[|vin| - 1];
      var op := last.prevout;
      P2shSigOps(r, inputs, vin[..|vin| - 1], tx)
      + (if op.hash in inputs && op.n < |inputs[op.hash].1.vout| then r.p2shSigOps(inputs[op.hash].1.vout[op.n], last) else 0)
  }

  /** The running totals of ConnectBlock. */
  datatype Totals = Totals(nValueIn: int, nValueOut: int, nFees: int, nStakeReward: int, nSigOps: nat)

  /** The totals with one more transaction. */
  function AddTx(r: Rules, a: Totals, tx: Tx, inputs: map<Hash, (TxIndex, Tx)>): Totals {
    if tx.IsBeanBase() then
      a.(nValueOut := a.nValueOut + SumOut(tx.vout), nSigOps := a.nSigOps + tx.sigOps)
    else
      var nIn, nOut := ValueIn(inputs, tx.vin), SumOut(tx.vout);
      Totals(a.nValueIn + nIn, a.nValueOut + nOut,
             if tx.IsBeanStake() then a.nFees else a.nFees + nIn - nOut,
             if tx.IsBeanStake() then nOut - nIn else a.nStakeReward,
             a.nSigOps + tx.sigOps + P2shSigOps(r, inputs, tx.vin, tx))
  }

  /** The totals after the first k transactions. */
  function Tally(r: Rules, s: Store, node: BlockIndex, k: nat): Totals
    requires k <= |node.block.vtx|
  {
    if k == 0 then Totals(0, 0, 0, 0, 0)
    else
      var tx := node.block.vtx[k - 1];
      AddTx(r, Tally(r, s, node, k - 1), tx, InputsFrom(ViewAt(s, node, k - 1), tx.vin))
  }

  /** The databases as transaction k of the block sees them. */
  function ViewAt(s: Store, node: BlockIndex, k: nat): Store
    requires k <= |node.block.vtx|
  {
    s.(txdb := ConnectTxs(s.txdb, node, k))
  }

  /** Transaction k passes ConnectBlock's checks. */
  ghost predicate TxStepOk(r: Rules, t: Tree, s: Store, b: Hash, k: nat, fCheckSigs: bool)
    requires t.Valid() && b in t.nodes && k < |t.nodes[b].block.vtx|
  {
    var node := t.nodes[b];
    && NoLiveDuplicate(s.txdb, node.block.vtx[k].hash)
    && TxAccepted(r, t, b, ViewAt(s, node, k), node.block.vtx[k], fCheckSigs)
    && Tally(r, s, node, k + 1).nSigOps <= MAX_BLOCK_SIGOPS
  }

  /** The first n transactions pass ConnectBlock's checks. */
  ghost predicate TxsOk(r: Rules, t: Tree, s: Store, b: Hash, n: nat, fCheckSigs: bool)
    requires t.Valid() && b in t.nodes && n <= |t.nodes[b].block.vtx|
  {
    n == 0 || (TxsOk(r, t, s, b, n - 1, fCheckSigs) && TxStepOk(r, t, s, b, n - 1, fCheckSigs))
  }

  lemma {:induction false} TxsOkAt(r: Rules, t: Tree, s: Store, b: Hash, n: nat, fCheckSigs: bool, k: nat)
    requires t.Valid() && b in t.nodes && k < n <= |t.nodes[b].block.vtx| && TxsOk(r, t, s, b, n, fCheckSigs)
    ensures TxStepOk(r, t, s, b, k, fCheckSigs)
    decreases n
  {
    if k < n - 1 {
      TxsOkAt(r, t, s, b, n - 1, fCheckSigs, k);
    }
  }

  /** The block pays its maker no more than the subsidy and the fees. */
  predicate RewardOk(r: BlockRules, s: Store, node: BlockIndex) {
    var all := Tally(r.tx, s, node, |node.block.vtx|);
    if node.block.IsProofOfStake() then
      && r.beanAge(node.block.vtx[1], s.txdb)
      && all.nStakeReward <= POS_SUBSIDY + all.nFees
    else
      |node.block.vtx| > 0 && SumOut(node.block.vtx[0].vout) <= POW_SUBSIDY + all.nFees
  }

  /** ConnectBlock accepts the block b on top of the index s.txdb. */
  ghost predicate BlockConnects(r: BlockRules, t: Tree, s: Store, b: Hash, fCheckSigs: bool)
    requires t.Valid() && b in t.nodes
  {
    && BlockWellFormed(r, t.nodes[b].block)
    && TxsOk(r.tx, t, s, b, |t.nodes[b].block.vtx|, fCheckSigs)
    && RewardOk(r, s, t.nodes[b])
  }

  // ------------------------------------------------------------------ the loop of ConnectBlock

  /** Reading through the queued changes is reading the view. */
  lemma FetchThroughQueue(s: Store, queued: Index, h: Hash)
    ensures Fetch(s, queued, true, h) == Fetch(s.(txdb := s.txdb + queued), map[], true, h)
  {
  }

  lemma FetchedIsInputsFrom(s: Store, queued: Index, vin: seq<TxIn>)
    ensures var v := s.(txdb := s.txdb + queued);
            && (AllFound(s, queued, true, vin) <==> AllFound(v, map[], true, vin))
            && (AllFound(s, queued, true, vin) ==> Fetched(s, queued, true, vin) == InputsFrom(v, vin)
                                                   && InputsFrom(v, vin).Keys == PrevHashes(vin))
  {
    var v := s.(txdb := s.txdb + queued);
    forall h
      ensures Fetch(s, queued, true, h) == Fetch(v, map[], true, h)
    {
      FetchThroughQueue(s, queued, h);
    }
    if AllFound(s, queued, true, vin) {
      forall h | h in PrevHashes(vin)
        ensures Fetch(s, queued, true, h).Some?
      {
        var i :| 0 <= i < |vin| && vin[i].prevout.hash == h;
      }
    }
  }

  lemma MarkElsewhere(e: TxIndex, h: Hash, vin: seq<TxIn>, v: DiskTxPos)
    requires h !in PrevHashes(vin)
    ensures MarkEntry(e, h, Prevouts(vin), v) == e
  {
    assert MarkEntry(e, h, Prevouts(vin), v).vSpent == e.vSpent;
  }

  lemma FetchedEntry(s: Store, queued: Index, vin: seq<TxIn>, h: Hash)
    requires AllFound(s, queued, true, vin) && h in PrevHashes(vin)
    ensures h in s.txdb + queued && Fetched(s, queued, true, vin)[h].0 == (s.txdb + queued)[h]
  {
    var i :| 0 <= i < |vin| && vin[i].prevout.hash == h;
    assert Fetch(s, queued, true, vin[i].prevout.hash).Some?;
  }

  /** Writing the marked entries into the queue marks the view. */
  lemma QueueMarksView(s: Store, queued: Index, vin: seq<TxIn>, pos: DiskTxPos)
    requires AllFound(s, queued, true, vin)
    ensures s.txdb + (queued + MarkFetched(Fetched(s, queued, true, vin), Prevouts(vin), pos))
         == Mark(s.txdb + queued, Prevouts(vin), pos)
  {
    QueueMarks(s.txdb, queued, Fetched(s, queued, true, vin), vin, pos) by {
      forall h | h in PrevHashes(vin)
        ensures h in s.txdb + queued && Fetched(s, queued, true, vin)[h].0 == (s.txdb + queued)[h]
      {
        FetchedEntry(s, queued, vin, h);
      }
    }
  }

  lemma QueueMarks(txdb: Index, queued: Index, inputs: map<Hash, (TxIndex, Tx)>, vin: seq<TxIn>, pos: DiskTxPos)
    requires inputs.Keys == PrevHashes(vin)
    requires forall h :: h in PrevHashes(vin) ==> h in txdb + queued && inputs[h].0 == (txdb + queued)[h]
    ensures txdb + (queued + MarkFetched(inputs, Prevouts(vin), pos)) == Mark(txdb + queued, Prevouts(vin), pos)
  {
    var view := txdb + queued;
    forall h | h in view && h !in PrevHashes(vin)
      ensures MarkEntry(view[h], h, Prevouts(vin), pos) == view[h]
    {
      MarkElsewhere(view[h], h, vin, pos);
    }
  }

  /** ConnectBlock's BIP 30 loop. */
  method CheckNoLiveDuplicate(txdb: Index, h: Hash) returns (ok: bool)
    ensures ok <==> NoLiveDuplicate(txdb, h)
  {
    if h in txdb {
      for n := 0 to |txdb[h].vSpent|
        invariant forall k :: 0 <= k < n ==> txdb[h].vSpent[k] != NullPos
      {
        if txdb[h].vSpent[n] == NullPos {
          return false;
        }
      }
    }
    return true;
  }

  /** The body of ConnectBlock's loop for a transaction with inputs: fetch them, add to the totals, spend them. */
  method ConnectBlockTx(r: Rules, t: Tree, pindex: Hash, fCheckSigs: bool, s: Store, queued: Index, tx: Tx,
                        posThisTx: DiskTxPos, totals: Totals)
    returns (ok: bool, queued': Index, totals': Totals)
    requires t.Valid() && pindex in t.nodes && !tx.IsBeanBase() && posThisTx != NullPos
    ensures ok <==> var v := s.(txdb := s.txdb + queued);
                    && TxAccepted(r, t, pindex, v, tx, fCheckSigs)
                    && AddTx(r, totals, tx, InputsFrom(v, tx.vin)).nSigOps <= MAX_BLOCK_SIGOPS
    ensures ok ==> var v := s.(txdb := s.txdb + queued);
                   && totals' == AddTx(r, totals, tx, InputsFrom(v, tx.vin))
                   && s.txdb + queued' == Mark(v.txdb, Prevouts(tx.vin), posThisTx)
  {
    queued', totals' := queued, totals;
    var inputs, fInvalid;
    ok, inputs, fInvalid := FetchInputs(s, queued, tx, true, false);
    FetchedIsInputsFrom(s, queued, tx.vin);
    if !ok {
      return false, queued', totals';
    }
    totals' := AddTx(r, totals, tx, inputs);
    if totals'.nSigOps > MAX_BLOCK_SIGOPS {
      return false, queued', totals';
    }
    ok, queued' := ConnectInputs(r, t, pindex, if fCheckSigs then r.nBlocksEstimate else -1, inputs, queued, tx, posThisTx, true, false);
    if ok {
      QueueMarksView(s, queued, tx.vin, posThisTx);
    }
  }

  lemma QueueEntry(txdb: Index, queued: Index, h: Hash, e: TxIndex)
    ensures txdb + queued[h := e] == (txdb + queued)[h := e]
  {
  }

  /** UpdateTxIndex for every queued change. */
  method WriteQueued(txdb: Index, queued: Index) returns (db: Index)
    ensures db == txdb + queued
  {
    db := txdb;
    var todo: set<Hash> := queued.Keys;
    while todo != {}
      invariant todo <= queued.Keys
      invariant db.Keys == txdb.Keys + (queued.Keys - todo)
      invariant forall h :: h in queued && h !in todo ==> h in db && db[h] == queued[h]
      invariant forall h :: h in db && (h !in queued || h in todo) ==> h in txdb && db[h] == txdb[h]
      decreases todo
    {
      var h :| h in todo;
      db := db[h := queued[h]];
      todo := todo - {h};
    }
  }

  /** One turn of ConnectBlock's loop. */
  method ConnectBlockStep(r: Rules, t: Tree, pindex: Hash, fCheckSigs: bool, s: Store, k: nat, queued: Index, totals: Totals)
    returns (ok: bool, queued': Index, totals': Totals)
    requires t.Valid() && pindex in t.nodes && k < |t.nodes[pindex].block.vtx|
    requires s.txdb + queued == ConnectTxs(s.txdb, t.nodes[pindex], k) && totals == Tally(r, s, t.nodes[pindex], k)
    ensures ok <==> TxStepOk(r, t, s, pindex, k, fCheckSigs)
    ensures ok ==> s.txdb + queued' == ConnectTxs(s.txdb, t.nodes[pindex], k + 1)
                   && totals' == Tally(r, s, t.nodes[pindex], k + 1)
  {
    queued', totals' := queued, totals;
    var node := t.nodes[pindex];
    var tx := node.block.vtx[k];
    ok := CheckNoLiveDuplicate(s.txdb, tx.hash);
    if !ok {
      return false, queued', totals';
    }
    if totals.nSigOps + tx.sigOps > MAX_BLOCK_SIGOPS {
      return false, queued', totals';
    }
    var posThisTx := TxPos(node, k);
    assert ViewAt(s, node, k) == s.(txdb := s.txdb + queued);
    if tx.IsBeanBase() {
      totals' := AddTx(r, totals, tx, map[]);
    } else {
      ok, queued', totals' := ConnectBlockTx(r, t, pindex, fCheckSigs, s, queued, tx, posThisTx, totals);
      if !ok {
        return false, queued', totals';
      }
    }
    QueueEntry(s.txdb, queued', tx.hash, Fresh(posThisTx, |tx.vout|));
    queued' := queued'[tx.hash := Fresh(posThisTx, |tx.vout|)];
    return true, queued', totals';
  }

  /** ConnectBlock's loop over the transactions. */
  method ConnectBlockTxs(r: Rules, t: Tree, pindex: Hash, fCheckSigs: bool, s: Store)
    returns (ok: bool, queued: Index, totals: Totals)
    requires t.Valid() && pindex in t.nodes
    ensures ok <==> TxsOk(r, t, s, pindex, |t.nodes[pindex].block.vtx|, fCheckSigs)
    ensures ok ==> s.txdb + queued == ConnectEffect(s.txdb, t.nodes[pindex])
                   && totals == Tally(r, s, t.nodes[pindex], |t.nodes[pindex].block.vtx|)
  {
    hide TxStepOk, AddTx, ConnectTx, InputsFrom;
    ok, queued, totals := true, map[], Totals(0, 0, 0, 0, 0);
    var node := t.nodes[pindex];
    var n := |node.block.vtx|;
    var k := 0;
    while k < n
      invariant 0 <= k <= n
      invariant s.txdb + queued == ConnectTxs(s.txdb, node, k)
      invariant totals == Tally(r, s, node, k)
      invariant TxsOk(r, t, s, pindex, k, fCheckSigs)
    {
      ok, queued, totals := ConnectBlockStep(r, t, pindex, fCheckSigs, s, k, queued, totals);
      if !ok {
        if TxsOk(r, t, s, pindex, n, fCheckSigs) {
          TxsOkAt(r, t, s, pindex, n, fCheckSigs, k);
        }
        return;
      }
      k := k + 1;
    }
    ok := true;
  }

  /** CBlock::ConnectBlock with fJustCheck off. On success the transaction index holds the block's effect and the
      money supply has grown by what the block's outputs exceed its inputs; on failure nothing is written. */
  method ConnectBlock(r: BlockRules, t: Tree, s: Store, pindex: Hash, nBestHeight: int, nPrevSupply: int)
    returns (ok: bool, txdb: Index, nMint: int, nMoneySupply: int)
    requires t.Valid() && pindex in t.nodes
    ensures ok <==> BlockConnects(r, t, s, pindex, nBestHeight >= r.tx.nBlocksEstimate)
    ensures ok ==> txdb == ConnectEffect(s.txdb, t.nodes[pindex])
    ensures ok ==> var all := Tally(r.tx, s, t.nodes[pindex], |t.nodes[pindex].block.vtx|);
                   && nMint == all.nValueOut - all.nValueIn + all.nFees
                   && nMoneySupply == nPrevSupply + all.nValueOut - all.nValueIn
    ensures !ok ==> txdb == s.txdb
  {
    txdb, nMint, nMoneySupply := s.txdb, 0, 0;
    var node := t.nodes[pindex];
    ok := CheckBlock(r, node.block);
    if !ok {
      return;
    }
    var queued, totals;
    ok, queued, totals := ConnectBlockTxs(r.tx, t, pindex, nBestHeight >= r.tx.nBlocksEstimate, s);
    if !ok {
      return;
    }
    ok := CheckReward(r, s, node, totals);
    if !ok {
      return;
    }
    nMint := totals.nValueOut - totals.nValueIn + totals.nFees;
    nMoneySupply := nPrevSupply + totals.nValueOut - totals.nValueIn;
    txdb := WriteQueued(s.txdb, queued);
  }

  /** The reward rules at the end of ConnectBlock. */
  method CheckReward(r: BlockRules, s: Store, node: BlockIndex, totals: Totals) returns (ok: bool)
    requires |node.block.vtx| > 0 && totals == Tally(r.tx, s, node, |node.block.vtx|)
    ensures ok <==> RewardOk(r, s, node)
  {
    if !node.block.IsProofOfStake() {
      var nReward := POW_SUBSIDY + totals.nFees;
      if SumOut(node.block.vtx[0].vout) > nReward {
        return false;
      }
    }
    if node.block.IsProofOfStake() {
      if !r.beanAge(node.block.vtx[1], s.txdb) {
        return false;
      }
      var nCalculatedStakeReward := POS_SUBSIDY + totals.nFees;
      if totals.nStakeReward > nCalculatedStakeReward {
        return false;
      }
    }
    return true;
  }
}
