/** Money conservation: what connecting a block does to the total of all unspent outputs (src/main.cpp). */
module MoneySupply {
  import opened Wrappers
  import opened Transactions
  import opened BlockTree
  import opened TxInputs
  import opened BlockConnection
  import opened BlockUndo

  type Disk = map<DiskTxPos, Tx>

  /** Every index entry points to its transaction on disk and has one slot per output. */
  predicate Backed(ix: Index, disk: Disk) {
    forall h :: h in ix ==> EntryBacked(ix[h], h, disk)
  }

  predicate EntryBacked(e: TxIndex, h: Hash, disk: Disk) {
    e.pos != MEMPOOL_POS && e.pos in disk && disk[e.pos].hash == h && |e.vSpent| == |disk[e.pos].vout|
  }

  /** The block's transactions are on disk where TxPos says they are. */
  predicate OnDisk(disk: Disk, node: BlockIndex) {
    forall k :: 0 <= k < |node.block.vtx| ==> TxPos(node, k) in disk && disk[TxPos(node, k)] == node.block.vtx[k]
  }

  /** The amount of the first n outputs whose slot is null. */
  function UnspentValue(vSpent: seq<DiskTxPos>, vout: seq<TxOut>, n: nat): int
    requires n <= |vSpent| == |vout|
  {
    if n == 0 then 0
    else UnspentValue(vSpent, vout, n - 1) + if vSpent[n - 1] == NullPos then vout[n - 1].nValue else 0
  }

  function EntryValue(e: TxIndex, disk: Disk): int {
    if e.pos in disk && |e.vSpent| == |disk[e.pos].vout| then UnspentValue(e.vSpent, disk[e.pos].vout, |e.vSpent|) else 0
  }

  /** The amount of all unspent outputs of the index. */
  ghost function Total(ix: Index, disk: Disk): int {
    if ix == map[] then 0
    else
      var h :| h in ix;
      EntryValue(ix[h], disk) + Total(ix - {h}, disk)
  }

  /** Any entry can be taken out of the total. */
  lemma {:induction false} TotalSplit(ix: Index, disk: Disk, h: Hash)
    requires h in ix
    ensures Total(ix, disk) == EntryValue(ix[h], disk) + Total(ix - {h}, disk)
    decreases ix
  {
    var g :| g in ix && Total(ix, disk) == EntryValue(ix[g], disk) + Total(ix - {g}, disk);
    if g != h {
      TotalSplit(ix - {g}, disk, h);
      TotalSplit(ix - {h}, disk, g);
      assert ix - {g} - {h} == ix - {h} - {g};
    }
  }

  /** Writing one entry changes the total by the difference of the entries. */
  lemma TotalUpdate(ix: Index, disk: Disk, h: Hash, e: TxIndex)
    ensures Total(ix[h := e], disk)
         == Total(ix, disk) + EntryValue(e, disk) - (if h in ix then EntryValue(ix[h], disk) else 0)
  {
    TotalSplit(ix[h := e], disk, h);
    if h in ix {
      TotalSplit(ix, disk, h);
      assert ix[h := e] - {h} == ix - {h};
    } else {
      assert ix[h := e] - {h} == ix;
    }
  }

  lemma {:induction false} FreshValue(pos: DiskTxPos, vout: seq<TxOut>, n: nat)
    requires n <= |vout|
    ensures UnspentValue(Fresh(pos, |vout|).vSpent, vout, n) == SumOut(vout[..n])
  {
    if n > 0 {
      FreshValue(pos, vout, n - 1);
      assert vout[..n][..n - 1] == vout[..n - 1];
    }
  }

  lemma {:induction false} DeadValue(vSpent: seq<DiskTxPos>, vout: seq<TxOut>, n: nat)
    requires n <= |vSpent| == |vout|
    requires forall k :: 0 <= k < |vSpent| ==> vSpent[k] != NullPos
    ensures UnspentValue(vSpent, vout, n) == 0
  {
    if n > 0 {
      DeadValue(vSpent, vout, n - 1);
    }
  }

  lemma {:induction false} SpendSlotValue(vSpent: seq<DiskTxPos>, vout: seq<TxOut>, n: nat, i: nat, v: DiskTxPos)
    requires n <= |vSpent| == |vout| && i < |vSpent| && vSpent[i] == NullPos && v != NullPos
    ensures UnspentValue(vSpent[i := v], vout, n) == UnspentValue(vSpent, vout, n) - if i < n then vout[i].nValue else 0
  {
    if n > 0 {
      SpendSlotValue(vSpent, vout, n - 1, i, v);
    }
  }

  /** Spending one unspent outpoint lowers the total by its amount. */
  lemma SpendOneTotal(ix: Index, disk: Disk, op: OutPoint, v: DiskTxPos)
    requires Backed(ix, disk) && Unspent(ix, op) && v != NullPos
    ensures var e := ix[op.hash].(vSpent := ix[op.hash].vSpent[op.n := v]);
            && op.n < |disk[ix[op.hash].pos].vout|
            && Total(ix[op.hash := e], disk) == Total(ix, disk) - disk[ix[op.hash].pos].vout[op.n].nValue
  {
    var was := ix[op.hash];
    assert EntryBacked(was, op.hash, disk);
    TotalUpdate(ix, disk, op.hash, was.(vSpent := was.vSpent[op.n := v]));
    SpendSlotValue(was.vSpent, disk[was.pos].vout, |was.vSpent|, op.n, v);
  }

  lemma MarkKeepsBacked(ix: Index, disk: Disk, ops: set<OutPoint>, v: DiskTxPos)
    requires Backed(ix, disk)
    ensures Backed(Mark(ix, ops, v), disk)
  {
    var m := Mark(ix, ops, v);
    forall h | h in m
      ensures EntryBacked(m[h], h, disk)
    {
      assert EntryBacked(ix[h], h, disk);
    }
  }

  /** The amount of the outpoint, read from disk. */
  function DiskValue(ix: Index, disk: Disk, op: OutPoint): int {
    if op.hash in ix && ix[op.hash].pos in disk && op.n < |disk[ix[op.hash].pos].vout|
    then disk[ix[op.hash].pos].vout[op.n].nValue else 0
  }

  function DiskValueIn(ix: Index, disk: Disk, vin: seq<TxIn>): int {
    if vin == [] then 0
    else DiskValueIn(ix, disk, vin[..|vin| - 1]) + DiskValue(ix, disk, vin[|vin| - 1].prevout)
  }

  lemma SpendLastTotal(ix: Index, disk: Disk, vin: seq<TxIn>, txin: TxIn, v: DiskTxPos)
    requires Backed(ix, disk) && v != NullPos && Unspent(ix, txin.prevout) && txin.prevout !in Prevouts(vin)
    ensures Total(Mark(ix, Prevouts(vin + [txin]), v), disk)
         == Total(Mark(ix, Prevouts(vin), v), disk) - DiskValue(ix, disk, txin.prevout)
  {
    var m, op := Mark(ix, Prevouts(vin), v), txin.prevout;
    MarkStep(ix, vin, txin, v);
    MarkKeepsBacked(ix, disk, Prevouts(vin), v);
    SpendOneTotal(m, disk, op, v);
    assert m[op.hash].pos == ix[op.hash].pos;
  }

  lemma LastPrevoutIsNew(vin: seq<TxIn>)
    requires DistinctPrevouts(vin) && vin != []
    ensures vin[|vin| - 1].prevout !in Prevouts(vin[..|vin| - 1])
  {
  }

  /** Spending the inputs of a transaction lowers the total by what they are worth. */
  lemma {:induction false} SpendAllTotal(ix: Index, disk: Disk, vin: seq<TxIn>, v: DiskTxPos)
    requires Backed(ix, disk) && DistinctPrevouts(vin) && v != NullPos
    requires forall i :: 0 <= i < |vin| ==> Unspent(ix, vin[i].prevout)
    ensures Total(Mark(ix, Prevouts(vin), v), disk) == Total(ix, disk) - DiskValueIn(ix, disk, vin)
  {
    if vin == [] {
      assert Prevouts(vin) == {};
      MarkNothing(ix, v);
    } else {
      var front, last := vin[..|vin| - 1], vin[|vin| - 1];
      SpendAllTotal(ix, disk, front, v);
      LastPrevoutIsNew(vin);
      SpendLastTotal(ix, disk, front, last, v);
      assert vin == front + [last];
    }
  }

  /** The amount ConnectBlock reads through FetchInputs is the amount on disk. */
  lemma FetchedValue(s: Store, op: OutPoint, vin: seq<TxIn>)
    requires Backed(s.txdb, s.disk) && op.hash in s.txdb && op.hash in PrevHashes(vin)
    ensures PrevValue(InputsFrom(s, vin), op) == DiskValue(s.txdb, s.disk, op)
  {
    assert EntryBacked(s.txdb[op.hash], op.hash, s.disk);
    assert Fetch(s, map[], true, op.hash) == Some((s.txdb[op.hash], s.disk[s.txdb[op.hash].pos]));
  }

  lemma {:induction false} FetchedValueIn(s: Store, vin: seq<TxIn>, i: nat)
    requires Backed(s.txdb, s.disk) && i <= |vin|
    requires forall k :: 0 <= k < |vin| ==> vin[k].prevout.hash in s.txdb
    ensures ValueIn(InputsFrom(s, vin), vin[..i]) == DiskValueIn(s.txdb, s.disk, vin[..i])
  {
    if i > 0 {
      FetchedValueIn(s, vin, i - 1);
      assert vin[..i][..i - 1] == vin[..i - 1];
      assert vin[..i][i - 1] == vin[i - 1];
      FetchedValue(s, vin[i - 1].prevout, vin);
    }
  }

  /** Spending the inputs of an accepted transaction lowers the total by what ConnectBlock reads they are worth. */
  lemma SpentTotal(s: Store, tx: Tx, pos: DiskTxPos)
    requires Backed(s.txdb, s.disk) && TxSpendsUnspent(s.txdb, tx) && DistinctPrevouts(tx.vin) && pos != NullPos
    ensures Total(Mark(s.txdb, Prevouts(tx.vin), pos), s.disk) == Total(s.txdb, s.disk) - ValueIn(InputsFrom(s, tx.vin), tx.vin)
  {
    hide Backed, DistinctPrevouts, Mark, InputsFrom;
    SpendAllTotal(s.txdb, s.disk, tx.vin, pos);
    assert forall i :: 0 <= i < |tx.vin| ==> Unspent(s.txdb, tx.vin[i].prevout);
    FetchedValueIn(s, tx.vin, |tx.vin|);
    assert tx.vin[..|tx.vin|] == tx.vin;
  }

  /** Connecting one transaction changes the total of unspent outputs by its outputs less its inputs. */
  lemma ConnectTxTotal(s: Store, tx: Tx, pos: DiskTxPos)
    requires Backed(s.txdb, s.disk) && NoLiveDuplicate(s.txdb, tx.hash)
    requires !tx.IsBeanBase() ==> TxSpendsUnspent(s.txdb, tx) && DistinctPrevouts(tx.vin)
    requires pos.DiskTxPos? && pos != MEMPOOL_POS && pos in s.disk && s.disk[pos] == tx
    ensures Total(ConnectTx(s.txdb, tx, pos), s.disk) == Total(s.txdb, s.disk) + SumOut(tx.vout)
            - if tx.IsBeanBase() then 0 else ValueIn(InputsFrom(s, tx.vin), tx.vin)
  {
    hide Backed, NoLiveDuplicate, TxSpendsUnspent, DistinctPrevouts, Total, ValueIn, SumOut, InputsFrom;
    var ix := s.txdb;
    var m := if tx.IsBeanBase() then ix else Mark(ix, Prevouts(tx.vin), pos);
    if !tx.IsBeanBase() {
      SpentTotal(s, tx, pos);
    }
    TotalUpdate(m, s.disk, tx.hash, Fresh(pos, |tx.vout|));
    FreshValue(pos, tx.vout, |tx.vout|);
    assert tx.vout[..|tx.vout|] == tx.vout;
    if tx.hash in ix {
      DeadEntry(ix, s.disk, tx, pos);
    }
  }

  /** A completely spent entry is worth nothing, and stays so when more is spent. */
  lemma DeadEntry(ix: Index, disk: Disk, tx: Tx, pos: DiskTxPos)
    requires Backed(ix, disk) && tx.hash in ix && NoLiveDuplicate(ix, tx.hash) && pos != NullPos
    ensures EntryValue(ix[tx.hash], disk) == 0
    ensures EntryValue(Mark(ix, Prevouts(tx.vin), pos)[tx.hash], disk) == 0
  {
    assert EntryBacked(ix[tx.hash], tx.hash, disk);
    var vout := disk[ix[tx.hash].pos].vout;
    DeadValue(ix[tx.hash].vSpent, vout, |vout|);
    DeadValue(Mark(ix, Prevouts(tx.vin), pos)[tx.hash].vSpent, vout, |vout|);
  }

  lemma ConnectTxBacked(ix: Index, disk: Disk, tx: Tx, pos: DiskTxPos)
    requires Backed(ix, disk) && pos != MEMPOOL_POS && pos in disk && disk[pos] == tx
    ensures Backed(ConnectTx(ix, tx, pos), disk)
  {
    MarkKeepsBacked(ix, disk, Prevouts(tx.vin), pos);
    var c := ConnectTx(ix, tx, pos);
    forall h | h in c
      ensures EntryBacked(c[h], h, disk)
    {
      if h != tx.hash {
        assert EntryBacked((if tx.IsBeanBase() then ix else Mark(ix, Prevouts(tx.vin), pos))[h], h, disk);
      }
    }
  }

  /** Before transaction k of an accepted block comes, an older transaction of its txid is completely spent. */
  lemma DuplicateStaysDead(ix: Index, node: BlockIndex, k: nat)
    requires Applicable(ix, node) && k < |node.block.vtx|
    ensures NoLiveDuplicate(ConnectTxs(ix, node, k), node.block.vtx[k].hash)
  {
    var h, c := node.block.vtx[k].hash, ConnectTxs(ix, node, k);
    assert node.block.vtx[k..][0].hash == h;
    if h in c {
      forall n | 0 <= n < |c[h].vSpent|
        ensures c[h].vSpent[n] != NullPos
      {
        LaterOutputsNotUnspent(ix, node, k, OutPoint(h, n));
      }
    }
  }

  /** The money total after k transactions is the old total plus what ConnectBlock has tallied. */
  lemma {:induction false} ConnectTxsTotal(r: Rules, s: Store, node: BlockIndex, k: nat)
    requires Backed(s.txdb, s.disk) && OnDisk(s.disk, node) && Applicable(s.txdb, node) && k <= |node.block.vtx|
    requires forall j :: 0 <= j < |node.block.vtx| ==> DistinctPrevouts(node.block.vtx[j].vin)
    ensures Backed(ConnectTxs(s.txdb, node, k), s.disk)
    ensures Total(ConnectTxs(s.txdb, node, k), s.disk)
         == Total(s.txdb, s.disk) + Tally(r, s, node, k).nValueOut - Tally(r, s, node, k).nValueIn
  {
    if k > 0 {
      ConnectTxsTotal(r, s, node, k - 1);
      DuplicateStaysDead(s.txdb, node, k - 1);
      ConnectTxTotal(ViewAt(s, node, k - 1), node.block.vtx[k - 1], TxPos(node, k - 1));
      ConnectTxBacked(ConnectTxs(s.txdb, node, k - 1), s.disk, node.block.vtx[k - 1], TxPos(node, k - 1));
    }
  }

  /** What ConnectBlock adds to the money supply. */
  function Minted(r: Rules, s: Store, node: BlockIndex): int {
    var all := Tally(r, s, node, |node.block.vtx|);
    all.nValueOut - all.nValueIn
  }

  /** Conservation, one block: the money supply moves by exactly what the total of unspent outputs moves. */
  lemma BlockConservesMoney(r: Rules, s: Store, node: BlockIndex)
    requires Backed(s.txdb, s.disk) && OnDisk(s.disk, node) && Applicable(s.txdb, node)
    requires forall j :: 0 <= j < |node.block.vtx| ==> DistinctPrevouts(node.block.vtx[j].vin)
    ensures Backed(ConnectEffect(s.txdb, node), s.disk)
    ensures Total(ConnectEffect(s.txdb, node), s.disk) - Total(s.txdb, s.disk) == Minted(r, s, node)
  {
    ConnectTxsTotal(r, s, node, |node.block.vtx|);
  }

  // ------------------------------------------------------------------ how much a block can mint

  /** What the beanstake transactions among the first k pay out beyond what they take in. */
  function StakeMint(r: Rules, s: Store, node: BlockIndex, k: nat): int
    requires k <= |node.block.vtx|
  {
    if k == 0 then 0
    else
      var tx := node.block.vtx[k - 1];
      StakeMint(r, s, node, k - 1)
      + if tx.IsBeanStake() then SumOut(tx.vout) - ValueIn(InputsFrom(ViewAt(s, node, k - 1), tx.vin), tx.vin) else 0
  }

  /** Minting splits into the beanbase less the fees, and the beanstakes. */
  lemma {:induction false} TallySplits(r: BlockRules, s: Store, node: BlockIndex, k: nat)
    requires BlockWellFormed(r, node.block) && 0 < k <= |node.block.vtx|
    ensures var a := Tally(r.tx, s, node, k);
            a.nValueOut - a.nValueIn == SumOut(node.block.vtx[0].vout) - a.nFees + StakeMint(r.tx, s, node, k)
  {
    if k > 1 {
      TallySplits(r, s, node, k - 1);
    } else {
      assert Tally(r.tx, s, node, 0) == Totals(0, 0, 0, 0, 0);
    }
  }

  /** In a proof-of-bean block the one beanstake is transaction 1. */
  lemma {:induction false} OneStake(r: BlockRules, s: Store, node: BlockIndex, k: nat)
    requires BlockWellFormed(r, node.block) && node.block.IsProofOfStake() && k <= |node.block.vtx|
    ensures StakeMint(r.tx, s, node, k) == if k < 2 then 0 else Tally(r.tx, s, node, k).nStakeReward
  {
    if k == 1 {
      assert StakeMint(r.tx, s, node, 0) == 0;
    } else if k > 1 {
      OneStake(r, s, node, k - 1);
    }
  }

  lemma {:induction false} NoStake(r: Rules, s: Store, node: BlockIndex, k: nat)
    requires k <= |node.block.vtx|
    requires forall j :: 0 <= j < |node.block.vtx| ==> !node.block.vtx[j].IsBeanStake()
    ensures StakeMint(r, s, node, k) == 0
  {
    if k > 0 {
      NoStake(r, s, node, k - 1);
    }
  }

  /** An accepted proof-of-bean block mints at most 1000 beans. */
  lemma ProofOfStakeMintBound(r: BlockRules, s: Store, node: BlockIndex)
    requires BlockWellFormed(r, node.block) && RewardOk(r, s, node) && node.block.IsProofOfStake()
    ensures Minted(r.tx, s, node) <= POS_SUBSIDY
  {
    TallySplits(r, s, node, |node.block.vtx|);
    OneStake(r, s, node, |node.block.vtx|);
    var vout := node.block.vtx[0].vout;
    assert SumOut(vout) == SumOut(vout[..0]) + vout[0].nValue;
  }

  /** A proof-of-work block mints what its beanbase takes beyond the fees, and whatever stray beanstakes mint, which
      no check bounds: it stays within 100000 beans exactly when the stray beanstakes stay within the unused reward. */
  lemma ProofOfWorkMintBound(r: BlockRules, s: Store, node: BlockIndex)
    requires BlockWellFormed(r, node.block) && RewardOk(r, s, node) && !node.block.IsProofOfStake()
    ensures var unused := POW_SUBSIDY + Tally(r.tx, s, node, |node.block.vtx|).nFees - SumOut(node.block.vtx[0].vout);
            && unused >= 0
            && (Minted(r.tx, s, node) <= POW_SUBSIDY <==> StakeMint(r.tx, s, node, |node.block.vtx|) <= unused)
    ensures (forall j :: 0 <= j < |node.block.vtx| ==> !node.block.vtx[j].IsBeanStake()) ==> Minted(r.tx, s, node) <= POW_SUBSIDY
  {
    TallySplits(r, s, node, |node.block.vtx|);
    if forall j :: 0 <= j < |node.block.vtx| ==> !node.block.vtx[j].IsBeanStake() {
      NoStake(r.tx, s, node, |node.block.vtx|);
    }
  }

  /** What the beanstakes of a proof-of-work block mint: the amount no check bounds. */
  function StrayMint(r: Rules, s: Store, node: BlockIndex): int {
    if node.block.IsProofOfStake() then 0 else StakeMint(r, s, node, |node.block.vtx|)
  }

  /** An accepted block mints at most its subsidy and what stray beanstakes mint. */
  lemma BlockMintBound(r: BlockRules, s: Store, node: BlockIndex)
    requires BlockWellFormed(r, node.block) && RewardOk(r, s, node)
    ensures Minted(r.tx, s, node) <= (if node.block.IsProofOfStake() then POS_SUBSIDY else POW_SUBSIDY) + StrayMint(r.tx, s, node)
  {
    if node.block.IsProofOfStake() {
      ProofOfStakeMintBound(r, s, node);
    } else {
      hide BlockWellFormed, Tally;
      TallySplits(r, s, node, |node.block.vtx|) by {
        assert |node.block.vtx| > 0;
      }
    }
  }
}
