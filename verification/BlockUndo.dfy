/** Disconnecting a block, and what it undoes: DisconnectInputs and DisconnectBlock (src/main.cpp). */
module BlockUndo {
  import opened Transactions
  import opened BlockTree
  import opened TxInputs
  import opened BlockConnection

  /** What disconnecting a transaction does to the index: its inputs are released and its own entry is erased. */
  function DisconnectTx(ix: Index, tx: Tx): Index {
    (if tx.IsBeanBase() then ix else Mark(ix, Prevouts(tx.vin), NullPos)) - {tx.hash}
  }

  predicate Releasable(ix: Index, tx: Tx) {
    tx.IsBeanBase() || forall i :: 0 <= i < |tx.vin| ==> InRange(ix, tx.vin[i].prevout)
  }

  /** The index when transactions k and later of a block have been disconnected, last one first. */
  function DisconnectTxs(ix: Index, vtx: seq<Tx>, k: nat): Index
    requires k <= |vtx|
    decreases |vtx| - k
  {
    if k == |vtx| then ix else DisconnectTx(DisconnectTxs(ix, vtx, k + 1), vtx[k])
  }

  function DisconnectEffect(ix: Index, vtx: seq<Tx>): Index {
    DisconnectTxs(ix, vtx, 0)
  }

  /** Transactions i and later of the block can be disconnected, last one first. */
  predicate ReleasableFrom(ix: Index, vtx: seq<Tx>, i: nat)
    requires i <= |vtx|
    decreases |vtx| - i
  {
    i == |vtx| || (ReleasableFrom(ix, vtx, i + 1) && Releasable(DisconnectTxs(ix, vtx, i + 1), vtx[i]))
  }

  predicate BlockReleasable(ix: Index, vtx: seq<Tx>) {
    ReleasableFrom(ix, vtx, 0)
  }

  lemma {:induction false} ReleasableFromLater(ix: Index, vtx: seq<Tx>, i: nat, j: nat)
    requires i <= j <= |vtx| && ReleasableFrom(ix, vtx, i)
    ensures ReleasableFrom(ix, vtx, j)
    decreases j - i
  {
    if i < j {
      ReleasableFromLater(ix, vtx, i + 1, j);
    }
  }

  /** CTransaction::DisconnectInputs. */
  method DisconnectInputs(txdb: Index, tx: Tx) returns (ok: bool, db: Index)
    ensures ok <==> Releasable(txdb, tx)
    ensures ok ==> db == DisconnectTx(txdb, tx)
  {
    db := txdb;
    if !tx.IsBeanBase() {
      assert Prevouts(tx.vin[..0]) == {};
      MarkNothing(txdb, NullPos);
      for i := 0 to |tx.vin|
        invariant forall k :: 0 <= k < i ==> InRange(txdb, tx.vin[k].prevout)
        invariant db == Mark(txdb, Prevouts(tx.vin[..i]), NullPos)
      {
        var prevout := tx.vin[i].prevout;
        if prevout.hash !in db {
          return false, db;
        }
        var txindex := db[prevout.hash];
        if prevout.n >= |txindex.vSpent| {
          return false, db;
        }
        ReleaseOneMore(txdb, tx.vin, i);
        txindex := txindex.(vSpent := txindex.vSpent[prevout.n := NullPos]);
        db := db[prevout.hash := txindex];
      }
      assert tx.vin[..|tx.vin|] == tx.vin;
    }
    db := db - {tx.hash};
    return true, db;
  }

  lemma ReleaseOneMore(ix: Index, vin: seq<TxIn>, i: nat)
    requires i < |vin| && InRange(ix, vin[i].prevout)
    ensures var op, m := vin[i].prevout, Mark(ix, Prevouts(vin[..i]), NullPos);
            && InRange(m, op)
            && Mark(ix, Prevouts(vin[..i + 1]), NullPos) == m[op.hash := m[op.hash].(vSpent := m[op.hash].vSpent[op.n := NullPos])]
  {
    MarkOneMore(ix, Prevouts(vin[..i]), vin[i].prevout, NullPos);
    assert vin[..i + 1] == vin[..i] + [vin[i]];
    assert Prevouts(vin[..i + 1]) == Prevouts(vin[..i]) + {vin[i].prevout};
  }

  /** CBlock::DisconnectBlock, on the transaction index. */
  method DisconnectBlock(txdb: Index, block: Block) returns (ok: bool, db: Index)
    ensures ok <==> BlockReleasable(txdb, block.vtx)
    ensures ok ==> db == DisconnectEffect(txdb, block.vtx)
  {
    db := txdb;
    var i := |block.vtx|;
    while i > 0
      invariant 0 <= i <= |block.vtx|
      invariant db == DisconnectTxs(txdb, block.vtx, i)
      invariant ReleasableFrom(txdb, block.vtx, i)
    {
      i := i - 1;
      ok, db := DisconnectInputs(db, block.vtx[i]);
      if !ok {
        if BlockReleasable(txdb, block.vtx) {
          ReleasableFromLater(txdb, block.vtx, 0, i);
        }
        return;
      }
    }
    return true, db;
  }

  // ------------------------------------------------------------------ undo

  /** The transactions of the block spend only outputs that are unspent when they come. */
  ghost predicate SpendsUnspent(ix: Index, node: BlockIndex) {
    forall k :: 0 <= k < |node.block.vtx| && !node.block.vtx[k].IsBeanBase() ==> TxSpendsUnspent(ConnectTxs(ix, node, k), node.block.vtx[k])
  }

  predicate TxSpendsUnspent(ix: Index, tx: Tx) {
    forall i :: 0 <= i < |tx.vin| ==> Unspent(ix, tx.vin[i].prevout)
  }

  /** What ConnectBlock guarantees about a block it accepted, as far as the index is concerned. */
  ghost predicate Applicable(ix: Index, node: BlockIndex) {
    && SpendsUnspent(ix, node)
    && DistinctTxids(node.block.vtx)
    && forall k :: 0 <= k < |node.block.vtx| ==> NoLiveDuplicate(ix, node.block.vtx[k].hash)
  }

  lemma AcceptedTxSpendsUnspent(r: Rules, t: Tree, b: Hash, s: Store, tx: Tx, fCheckSigs: bool)
    requires t.Valid() && b in t.nodes && TxAccepted(r, t, b, s, tx, fCheckSigs) && !tx.IsBeanBase()
    ensures TxSpendsUnspent(s.txdb, tx)
  {
    var inputs := InputsFrom(s, tx.vin);
    forall i | 0 <= i < |tx.vin|
      ensures Unspent(s.txdb, tx.vin[i].prevout)
    {
      var op := tx.vin[i].prevout;
      assert Fetch(s, map[], true, op.hash).Some?;
      assert PrevoutInRange(inputs, op);
      assert inputs[op.hash].0 == s.txdb[op.hash];
    }
  }

  lemma AcceptedIsApplicable(r: BlockRules, t: Tree, s: Store, b: Hash, fCheckSigs: bool)
    requires t.Valid() && b in t.nodes && BlockConnects(r, t, s, b, fCheckSigs)
    ensures Applicable(s.txdb, t.nodes[b])
  {
    var node := t.nodes[b];
    forall k | 0 <= k < |node.block.vtx|
      ensures NoLiveDuplicate(s.txdb, node.block.vtx[k].hash)
      ensures !node.block.vtx[k].IsBeanBase() ==> TxSpendsUnspent(ConnectTxs(s.txdb, node, k), node.block.vtx[k])
    {
      TxsOkAt(r.tx, t, s, b, |node.block.vtx|, fCheckSigs, k);
      if !node.block.vtx[k].IsBeanBase() {
        AcceptedTxSpendsUnspent(r.tx, t, b, ViewAt(s, node, k), node.block.vtx[k], fCheckSigs);
      }
    }
  }

  lemma ConnectTxCreates(ix: Index, tx: Tx, pos: DiskTxPos)
    requires pos != NullPos
    ensures ConnectTx(ix, tx, pos).Keys == ix.Keys + {tx.hash}
    ensures forall op: OutPoint :: op.hash != tx.hash && Unspent(ConnectTx(ix, tx, pos), op) ==> Unspent(ix, op)
  {
  }

  /** Connecting k transactions adds their txids and creates no unspent output among the older transactions. */
  lemma {:induction false} ConnectedSoFar(ix: Index, node: BlockIndex, k: nat)
    requires k <= |node.block.vtx|
    ensures ConnectTxs(ix, node, k).Keys == ix.Keys + Txids(node.block.vtx[..k])
    ensures forall op: OutPoint :: op.hash !in Txids(node.block.vtx[..k]) && Unspent(ConnectTxs(ix, node, k), op) ==> Unspent(ix, op)
  {
    hide ConnectTx;
    if k == 0 {
      assert Txids(node.block.vtx[..0]) == {};
    } else {
      hide Txids;
      ConnectedSoFar(ix, node, k - 1);
      var vtx := node.block.vtx;
      assert vtx[..k] == vtx[..k - 1] + [vtx[k - 1]];
      DistinctOneMore(vtx[..k - 1], vtx[k - 1]);
      ConnectTxCreates(ConnectTxs(ix, node, k - 1), vtx[k - 1], TxPos(node, k - 1));
    }
  }

  /** Releasing what was just spent, in an index from which other entries h are missing. */
  lemma ReleaseUndoesSpend(ix: Index, vin: seq<TxIn>, pos: DiskTxPos)
    requires forall i :: 0 <= i < |vin| ==> Unspent(ix, vin[i].prevout)
    ensures Mark(Mark(ix, Prevouts(vin), pos), Prevouts(vin), NullPos) == ix
  {
    var m := Mark(Mark(ix, Prevouts(vin), pos), Prevouts(vin), NullPos);
    forall h | h in ix
      ensures m[h] == ix[h]
    {
      assert m[h].vSpent == ix[h].vSpent;
    }
  }

  /** Marking commutes with leaving entries out. */
  lemma MarkMinus(ix: Index, ops: set<OutPoint>, v: DiskTxPos, hs: set<Hash>)
    ensures Mark(ix - hs, ops, v) == Mark(ix, ops, v) - hs
  {
  }

  /** One step back: without the entries of later transactions, disconnecting transaction k restores the index before it. */
  lemma DisconnectOne(ix: Index, tx: Tx, pos: DiskTxPos, hs: set<Hash>)
    requires !tx.IsBeanBase() ==> TxSpendsUnspent(ix, tx)
    requires !tx.IsBeanBase() ==> forall i :: 0 <= i < |tx.vin| ==> tx.vin[i].prevout.hash !in hs + {tx.hash}
    ensures Releasable(ConnectTx(ix, tx, pos) - hs, tx)
    ensures DisconnectTx(ConnectTx(ix, tx, pos) - hs, tx) == ix - (hs + {tx.hash})
  {
    if tx.IsBeanBase() {
      assert ConnectTx(ix, tx, pos) - hs - {tx.hash} == ix - (hs + {tx.hash});
    } else {
      var m := Mark(ix, Prevouts(tx.vin), pos);
      var all := hs + {tx.hash};
      assert ConnectTx(ix, tx, pos) - all == m - all;
      MarkMinus(ConnectTx(ix, tx, pos), Prevouts(tx.vin), NullPos, hs);
      MarkMinus(ConnectTx(ix, tx, pos), Prevouts(tx.vin), NullPos, all);
      MarkMinus(m, Prevouts(tx.vin), NullPos, all);
      ReleaseUndoesSpend(ix, tx.vin, pos);
      assert DisconnectTx(ConnectTx(ix, tx, pos) - hs, tx) == Mark(ConnectTx(ix, tx, pos), Prevouts(tx.vin), NullPos) - all;
    }
  }

  lemma EarlierAndLaterDiffer(vtx: seq<Tx>, k: nat, h: Hash)
    requires DistinctTxids(vtx) && k <= |vtx| && h in Txids(vtx[k..])
    ensures h !in Txids(vtx[..k])
  {
    var j :| 0 <= j < |vtx[k..]| && vtx[k..][j].hash == h;
    assert vtx[k + j].hash == h;
  }

  /** Before transaction k no output of transaction k or of a later one is unspent: their txids are new or fully spent. */
  lemma LaterOutputsNotUnspent(ix: Index, node: BlockIndex, k: nat, op: OutPoint)
    requires Applicable(ix, node) && k <= |node.block.vtx| && op.hash in Txids(node.block.vtx[k..])
    ensures !Unspent(ConnectTxs(ix, node, k), op)
  {
    var vtx := node.block.vtx;
    var j :| 0 <= j < |vtx[k..]| && vtx[k..][j].hash == op.hash;
    assert NoLiveDuplicate(ix, vtx[k + j].hash);
    EarlierAndLaterDiffer(vtx, k, op.hash);
    ConnectedSoFar(ix, node, k);
  }

  /** The inputs of transaction k are not outputs of transaction k or of a later one. */
  lemma InputsComeEarlier(ix: Index, node: BlockIndex, k: nat)
    requires Applicable(ix, node) && k < |node.block.vtx|
    ensures var tx := node.block.vtx[k];
            !tx.IsBeanBase() ==>
              && TxSpendsUnspent(ConnectTxs(ix, node, k), tx)
              && forall i :: 0 <= i < |tx.vin| ==> tx.vin[i].prevout.hash !in Txids(node.block.vtx[k..])
  {
    var tx := node.block.vtx[k];
    if tx.IsBeanBase() {
      return;
    }
    forall i | 0 <= i < |tx.vin|
      ensures tx.vin[i].prevout.hash !in Txids(node.block.vtx[k..])
    {
      assert Unspent(ConnectTxs(ix, node, k), tx.vin[i].prevout);
      if tx.vin[i].prevout.hash in Txids(node.block.vtx[k..]) {
        LaterOutputsNotUnspent(ix, node, k, tx.vin[i].prevout);
      }
    }
  }

  /** Going back through the block from its end. */
  lemma {:induction false} DisconnectedSoFar(ix: Index, node: BlockIndex, k: nat)
    requires Applicable(ix, node) && k <= |node.block.vtx|
    ensures ReleasableFrom(ConnectEffect(ix, node), node.block.vtx, k)
    ensures DisconnectTxs(ConnectEffect(ix, node), node.block.vtx, k) == ConnectTxs(ix, node, k) - Txids(node.block.vtx[k..])
    decreases |node.block.vtx| - k
  {
    hide ConnectTx, DisconnectTx, Applicable, Releasable;
    var vtx := node.block.vtx;
    if k == |vtx| {
      assert Txids(vtx[k..]) == {};
    } else {
      hide Txids;
      DisconnectedSoFar(ix, node, k + 1);
      assert vtx[k..] == [vtx[k]] + vtx[k + 1..];
      TxidsHead(vtx[k], vtx[k + 1..]);
      InputsComeEarlier(ix, node, k);
      DisconnectOne(ConnectTxs(ix, node, k), vtx[k], TxPos(node, k), Txids(vtx[k + 1..]));
    }
  }

  lemma TxidsHead(tx: Tx, vtx: seq<Tx>)
    ensures Txids([tx] + vtx) == Txids(vtx) + {tx.hash}
  {
    var all := [tx] + vtx;
    assert all[0] == tx;
    assert forall k :: 0 <= k < |vtx| ==> all[k + 1] == vtx[k];
  }

  /** DisconnectBlock after ConnectBlock never fails, and leaves the old index without the block's own txids. */
  lemma DisconnectAfterConnect(ix: Index, node: BlockIndex)
    requires Applicable(ix, node)
    ensures BlockReleasable(ConnectEffect(ix, node), node.block.vtx)
    ensures DisconnectEffect(ConnectEffect(ix, node), node.block.vtx) == ix - Txids(node.block.vtx)
  {
    DisconnectedSoFar(ix, node, 0);
    assert node.block.vtx[0..] == node.block.vtx;
  }

  /** The index is restored exactly if and only if none of the block's txids was indexed before. */
  lemma UndoIsExactIff(ix: Index, node: BlockIndex)
    requires Applicable(ix, node)
    ensures DisconnectEffect(ConnectEffect(ix, node), node.block.vtx) == ix
        <==> forall k :: 0 <= k < |node.block.vtx| ==> node.block.vtx[k].hash !in ix
  {
    DisconnectAfterConnect(ix, node);
    var vtx := node.block.vtx;
    var back := ix - Txids(vtx);
    if forall k :: 0 <= k < |vtx| ==> vtx[k].hash !in ix {
      assert back == ix;
    } else {
      var k :| 0 <= k < |vtx| && vtx[k].hash in ix;
      assert vtx[k].hash in Txids(vtx) && vtx[k].hash !in back;
    }
  }

  /** Whatever was indexed before, the set of unspent outpoints is restored. */
  lemma UndoRestoresUnspent(ix: Index, node: BlockIndex, op: OutPoint)
    requires Applicable(ix, node)
    ensures Unspent(DisconnectEffect(ConnectEffect(ix, node), node.block.vtx), op) <==> Unspent(ix, op)
  {
    DisconnectAfterConnect(ix, node);
    if op.hash in Txids(node.block.vtx) {
      assert node.block.vtx[0..] == node.block.vtx;
      LaterOutputsNotUnspent(ix, node, 0, op);
    }
  }
}
