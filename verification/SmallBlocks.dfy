/** Small blocks for the examples: beanbases, and transactions that spend the first one (src/main.cpp). */
module SmallBlocks {
  import opened Transactions
  import opened BlockTree
  import opened TxInputs
  import opened BlockConnection
  import opened BeanbaseHeight
  import opened Replay

  /** The checks this model does not look into pass, but for signatures. */
  ghost predicate Plain(r: BlockRules) {
    && (forall o, i :: r.tx.p2shSigOps(o, i) == 0) && (forall b :: r.headerOk(b)) && forall tx, ix :: r.beanAge(tx, ix)
  }

  /** One transaction has a bad signature. */
  function Refusing(nBeanbaseMaturity: nat, nBlocksEstimate: nat, refused: Hash): (r: BlockRules)
    ensures Plain(r) && r.tx.nBeanbaseMaturity == nBeanbaseMaturity && r.tx.nBlocksEstimate == nBlocksEstimate
    ensures forall txPrev, tx, i :: 0 <= i ==> (r.tx.verifySignature(txPrev, tx, i) <==> tx.hash != refused)
  {
    BlockRules(Rules(nBeanbaseMaturity, nBlocksEstimate, (_, tx: Tx, _) => tx.hash != refused, (_, _) => 0), _ => true, (_, _) => true)
  }

  /** The beanbase of a block at height k. */
  function Beanbase(hash: Hash, k: nat, vout: seq<TxOut>): Tx
    requires k <= LAST_POW_BLOCK
  {
    Tx(hash, 0, [TxIn(OutPoint(0, NULL_N), HeightScript(k) + [0, 0])], vout, 100, 0)
  }

  const FUNDS := [TxOut(2 * MIN_TX_FEE, [0]), TxOut(1, [0])]
  const NOTHING := [TxOut(0, [0])]

  /** The first one pays out, the others claim nothing. */
  function BeanbaseAt(k: nat): Tx
    requires k <= LAST_POW_BLOCK
  {
    Beanbase(k as Hash, k, if k == 1 then FUNDS else NOTHING)
  }

  lemma Sums()
    ensures SumOut(FUNDS) == 2 * MIN_TX_FEE + 1 && SumOut(NOTHING) == 0
  {
    assert SumOut([]) == 0;
    assert NOTHING[..0] == [];
    assert FUNDS[..1] == [FUNDS[0]] && FUNDS[..1][..0] == [];
    assert SumOut(FUNDS[..1]) == 2 * MIN_TX_FEE;
  }

  /** A block of one beanbase that claims no more than the subsidy. */
  predicate OnlyBeanbase(b: Block) {
    && |b.vtx| == 1 && b.vtx[0].IsBeanBase() && WellFormed(b.vtx[0]) && b.vtx[0].nTime <= b.nTime && b.vtx[0].sigOps == 0
    && SumOut(b.vtx[0].vout) <= POW_SUBSIDY
  }

  lemma OnlyBeanbaseTotals(s: Store, node: BlockIndex, r: Rules)
    requires OnlyBeanbase(node.block)
    ensures Tally(r, s, node, 1) == Totals(0, SumOut(node.block.vtx[0].vout), 0, 0, 0)
    ensures SumSigOps(node.block.vtx) == 0
  {
    hide SumOut;
    assert Tally(r, s, node, 0) == Totals(0, 0, 0, 0, 0);
    assert node.block.vtx[..0] == [];
  }

  lemma OnlyBeanbaseEffect(ix: Index, node: BlockIndex, tx: Tx)
    requires OnlyBeanbase(node.block) && node.block.vtx == [tx]
    ensures ConnectEffect(ix, node) == ix[tx.hash := Fresh(TxPos(node, 0), |tx.vout|)]
  {
    hide SumOut, TxPos;
    assert ConnectTxs(ix, node, 0) == ix;
  }

  lemma OnlyBeanbaseConnects(r: BlockRules, t: Tree, s: Store, b: Hash, fCheckSigs: bool)
    requires Plain(r) && t.Valid() && b in t.nodes && OnlyBeanbase(t.nodes[b].block) && t.nodes[b].block.vtx[0].hash !in s.txdb
    ensures BlockConnects(r, t, s, b, fCheckSigs)
  {
    OnlyBeanbaseTotals(s, t.nodes[b], r.tx);
    hide SumOut, Tally;
    assert TxsOk(r.tx, t, s, b, 0, fCheckSigs);
  }

  /** A transaction whose only input is output i of the first beanbase. */
  predicate SpendsFunds(s: Store, tx: Tx, i: nat, pos: DiskTxPos) {
    && |tx.vin| == 1 && tx.vin[0].prevout == OutPoint(1, i) && i < 2
    && pos != NullPos && pos != MEMPOOL_POS && pos in s.disk && s.disk[pos] == BeanbaseAt(1)
    && 1 in s.txdb && s.txdb[1].pos == pos && |s.txdb[1].vSpent| == 2 && s.txdb[1].vSpent[i] == NullPos
  }

  lemma OneInput(s: Store, tx: Tx, i: nat, pos: DiskTxPos)
    requires SpendsFunds(s, tx, i, pos)
    ensures AllFound(s, map[], true, tx.vin) && InputsFrom(s, tx.vin) == map[1 := (s.txdb[1], BeanbaseAt(1))]
    ensures ValueIn(InputsFrom(s, tx.vin), tx.vin) == FUNDS[i].nValue
  {
    hide HeightScript;
    assert PrevHashes(tx.vin) == {1};
    assert tx.vin[..0] == [];
  }

  lemma OneInputAccepted(r: Rules, t: Tree, b: Hash, s: Store, tx: Tx, i: nat, pos: DiskTxPos, fCheckSigs: bool)
    requires t.Valid() && b in t.nodes && SpendsFunds(s, tx, i, pos) && !tx.IsBeanBase() && !Immature(t, b, r.nBeanbaseMaturity, pos)
    requires tx.IsBeanStake() || (SumOut(tx.vout) == FUNDS[i].nValue - MIN_TX_FEE && tx.size == 100)
    ensures TxAccepted(r, t, b, s, tx, fCheckSigs) <==> (fCheckSigs ==> r.verifySignature(BeanbaseAt(1), tx, 0))
  {
    OneInput(s, tx, i, pos);
    hide SumOut, Fetch, Immature, HeightScript;
    assert tx.vin[..1] == tx.vin;
    assert GetMinFee(tx, 1) <= MIN_TX_FEE || tx.size != 100;
  }

  /** What such a transaction adds to the totals. */
  lemma NextTotals(r: BlockRules, s: Store, node: BlockIndex, k: nat, i: nat, pos: DiskTxPos, nOut: int)
    requires Plain(r) && k < |node.block.vtx| && SpendsFunds(ViewAt(s, node, k), node.block.vtx[k], i, pos) && !node.block.vtx[k].IsBeanBase()
    requires SumOut(node.block.vtx[k].vout) == nOut
    ensures var a, stake, nIn := Tally(r.tx, s, node, k), node.block.vtx[k].IsBeanStake(), FUNDS[i].nValue;
            Tally(r.tx, s, node, k + 1)
            == Totals(a.nValueIn + nIn, a.nValueOut + nOut, if stake then a.nFees else a.nFees + nIn - nOut,
                      if stake then nOut - nIn else a.nStakeReward, a.nSigOps + node.block.vtx[k].sigOps)
  {
    var v, tx := ViewAt(s, node, k), node.block.vtx[k];
    OneInput(v, tx, i, pos);
    NoScriptSigOps(r, InputsFrom(v, tx.vin), tx);
    hide SumOut, InputsFrom, ConnectTxs, ValueIn, P2shSigOps, ViewAt, SpendsFunds;
  }

  lemma NoScriptSigOps(r: BlockRules, inputs: map<Hash, (TxIndex, Tx)>, tx: Tx)
    requires Plain(r) && |tx.vin| == 1
    ensures P2shSigOps(r.tx, inputs, tx.vin, tx) == 0
  {
    assert tx.vin[..0] == [];
  }
}
