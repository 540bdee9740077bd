/** ConnectBlock's verdict on a whole block, told by the ledger alone (src/main.cpp). */
module BlockLedger {
  import opened Transactions
  import opened BlockTree
  import opened TxInputs
  import opened BlockConnection
  import opened BlockUndo
  import opened MoneySupply
  import opened Replay
  import opened BranchLaws
  import opened Ledger

  /** from[k] says for each input of transaction k of block h where the output it names stands. */
  ghost predicate Sourced(t: Tree, h: Hash, from: seq<seq<Place>>) {
    && h in t.nodes && |from| <= |t.nodes[h].block.vtx|
    && forall k :: 0 <= k < |from| && !t.nodes[h].block.vtx[k].IsBeanBase() ==> OutputsExist(t, t.nodes[h].block.vtx[k].vin, from[k])
  }

  /** The signature operations in the scripts that the named outputs hide behind a script hash. */
  ghost function HiddenSigOps(r: Rules, t: Tree, vin: seq<TxIn>, from: seq<Place>): nat
    requires OutputsExist(t, vin, from)
  {
    if vin == [] then 0
    else
      var n := |vin| - 1;
      HiddenSigOps(r, t, vin[..n], from[..n]) + r.p2shSigOps(TxAt(t, from[n]).vout[vin[n].prevout.n], vin[n])
  }

  /** All signature operations of the first transactions of a block. */
  ghost function BlockSigOps(r: Rules, t: Tree, h: Hash, from: seq<seq<Place>>): nat
    requires Sourced(t, h, from)
  {
    if from == [] then 0
    else
      var n := |from| - 1;
      var tx := t.nodes[h].block.vtx[n];
      BlockSigOps(r, t, h, from[..n]) + tx.sigOps + if tx.IsBeanBase() then 0 else HiddenSigOps(r, t, tx.vin, from[n])
  }

  /** What the inputs of the first transactions are worth above their outputs, beanbases and beanstakes aside. */
  ghost function BlockFees(t: Tree, h: Hash, from: seq<seq<Place>>): int
    requires Sourced(t, h, from)
  {
    if from == [] then 0
    else
      var n := |from| - 1;
      var tx := t.nodes[h].block.vtx[n];
      BlockFees(t, h, from[..n]) + if tx.IsBeanBase() || tx.IsBeanStake() then 0 else Worth(t, tx.vin, from[n]) - SumOut(tx.vout)
  }

  /** The ledger allows the first transactions of a block, whose inputs stand where `from` says. */
  ghost predicate AllAllowed(r: Rules, t: Tree, h: Hash, from: seq<seq<Place>>, fCheckSigs: bool)
    requires t.Valid() && h in t.nodes
  {
    && |from| <= |t.nodes[h].block.vtx|
    && forall k :: 0 <= k < |from| && !t.nodes[h].block.vtx[k].IsBeanBase() ==> Allowed(r, t, Place(h, k), from[k], fCheckSigs)
  }

  lemma AllowedAreSourced(r: Rules, t: Tree, h: Hash, from: seq<seq<Place>>, fCheckSigs: bool)
    requires t.Valid() && h in t.nodes && AllAllowed(r, t, h, from, fCheckSigs)
    ensures Sourced(t, h, from)
  {
    hide Allowed, OutputsExist;
    forall k | 0 <= k < |from| && !t.nodes[h].block.vtx[k].IsBeanBase()
      ensures OutputsExist(t, t.nodes[h].block.vtx[k].vin, from[k])
    {
      AllowedExist(r, t, Place(h, k), from[k], fCheckSigs);
    }
  }

  /** The maker of the block takes no more than the subsidy and the fees. */
  ghost predicate TakesItsDue(r: BlockRules, t: Tree, h: Hash, from: seq<seq<Place>>)
    requires t.Valid() && h != t.genesis && Sourced(t, h, from) && |from| == |t.nodes[h].block.vtx|
  {
    var vtx := t.nodes[h].block.vtx;
    if t.nodes[h].block.IsProofOfStake() then
      && r.beanAge(vtx[1], ReplayIndex(t, t.nodes[h].pprev.value))
      && SumOut(vtx[1].vout) <= Worth(t, vtx[1].vin, from[1]) + POS_SUBSIDY + BlockFees(t, h, from)
    else
      |vtx| > 0 && SumOut(vtx[0].vout) <= POW_SUBSIDY + BlockFees(t, h, from)
  }

  /** The ledger allows the block. */
  ghost predicate BlockAllowed(r: BlockRules, t: Tree, h: Hash, from: seq<seq<Place>>, fCheckSigs: bool)
    requires t.Valid() && h in t.nodes && h != t.genesis
  {
    && |from| == |t.nodes[h].block.vtx| && AllAllowed(r.tx, t, h, from, fCheckSigs) && Sourced(t, h, from)
    && BlockSigOps(r.tx, t, h, from) <= MAX_BLOCK_SIGOPS
    && TakesItsDue(r, t, h, from)
  }

  // ------------------------------------------------------------------ the running totals of ConnectBlock

  ghost function OnParent(t: Tree, disk: Disk, h: Hash): Store
    requires t.Valid() && h in t.nodes && h != t.genesis
  {
    Store(ReplayIndex(t, t.nodes[h].pprev.value), disk, map[])
  }

  lemma {:induction false} HiddenAre(r: Rules, t: Tree, vin: seq<TxIn>, from: seq<Place>, inputs: map<Hash, (TxIndex, Tx)>, tx: Tx)
    requires OutputsExist(t, vin, from)
    requires forall i :: 0 <= i < |vin| ==> vin[i].prevout.hash in inputs && inputs[vin[i].prevout.hash].1 == TxAt(t, from[i])
    ensures P2shSigOps(r, inputs, vin, tx) == HiddenSigOps(r, t, vin, from)
    decreases |vin|
  {
    hide TxAt;
    if vin != [] {
      var n := |vin| - 1;
      HiddenAre(r, t, vin[..n], from[..n], inputs, tx);
    }
  }

  /** What ConnectBlock adds for a transaction is what the ledger says of it. */
  lemma TotalsOfTx(r: BlockRules, t: Tree, disk: Disk, b: Place, from: seq<Place>, fCheckSigs: bool)
    requires Reached(r, t, disk, b) && b.k < |t.nodes[b.block].block.vtx| && Allowed(r.tx, t, b, from, fCheckSigs)
    ensures OutputsExist(t, TxAt(t, b).vin, from)
    ensures var tx, inputs := TxAt(t, b), InputsFrom(Store(IndexBelow(t, b), disk, map[]), TxAt(t, b).vin);
            ValueIn(inputs, tx.vin) == Worth(t, tx.vin, from) && P2shSigOps(r.tx, inputs, tx.vin, tx) == HiddenSigOps(r.tx, t, tx.vin, from)
  {
    var tx, inputs := TxAt(t, b), InputsFrom(Store(IndexBelow(t, b), disk, map[]), TxAt(t, b).vin);
    ReachedParts(r, t, disk, b);
    AllowedFrom(r.tx, t, b, from, fCheckSigs);
    AllowedExist(r.tx, t, b, from, fCheckSigs);
    AllPresented(r, t, disk, b, from);
    hide Reached, Allowed, IndexBelow, InputsFrom, TxAt, Below, AllFound, ValueIn, Worth, P2shSigOps, HiddenSigOps, TxPos, SpentBelow;
    forall i | 0 <= i < |tx.vin|
      ensures tx.vin[i].prevout.hash in inputs && inputs[tx.vin[i].prevout.hash].1 == TxAt(t, from[i])
    {
      assert PresentsOne(t, b, tx.vin[i].prevout, from[i], inputs);
    }
    WorthIs(t, tx.vin, from, inputs);
    HiddenAre(r.tx, t, tx.vin, from, inputs, tx);
  }

  lemma ReachedEarlier(r: BlockRules, t: Tree, disk: Disk, h: Hash, k: nat)
    requires Reached(r, t, disk, Place(h, k + 1))
    ensures Reached(r, t, disk, Place(h, k))
  {
    hide Connected, BlockWellFormed, TxStepOk, ReplayIndex;
  }

  /** What a transaction adds to the totals, as the ledger has it. */
  ghost predicate Adds(r: Rules, t: Tree, before: Totals, after: Totals, tx: Tx, from: seq<Place>) {
    if tx.IsBeanBase() then after == before.(nValueOut := before.nValueOut + SumOut(tx.vout), nSigOps := before.nSigOps + tx.sigOps)
    else
      && OutputsExist(t, tx.vin, from)
      && after.nSigOps == before.nSigOps + tx.sigOps + HiddenSigOps(r, t, tx.vin, from)
      && after.nFees == before.nFees + (if tx.IsBeanStake() then 0 else Worth(t, tx.vin, from) - SumOut(tx.vout))
      && after.nStakeReward == if tx.IsBeanStake() then SumOut(tx.vout) - Worth(t, tx.vin, from) else before.nStakeReward
  }

  lemma TallyStep(r: Rules, t: Tree, disk: Disk, b: Place)
    requires t.Valid() && b.block in t.nodes && b.block != t.genesis && b.k < |t.nodes[b.block].block.vtx|
    ensures var s, node := OnParent(t, disk, b.block), t.nodes[b.block];
            Tally(r, s, node, b.k + 1)
            == AddTx(r, Tally(r, s, node, b.k), TxAt(t, b), InputsFrom(Store(IndexBelow(t, b), disk, map[]), TxAt(t, b).vin))
  {
    hide ReplayIndex, ConnectTxs, InputsFrom, AddTx, Tree.Valid;
    assert ViewAt(OnParent(t, disk, b.block), t.nodes[b.block], b.k) == Store(IndexBelow(t, b), disk, map[]);
  }

  lemma AddTxAdds(r: Rules, t: Tree, before: Totals, tx: Tx, inputs: map<Hash, (TxIndex, Tx)>, from: seq<Place>)
    requires !tx.IsBeanBase() ==> OutputsExist(t, tx.vin, from) && ValueIn(inputs, tx.vin) == Worth(t, tx.vin, from)
                                  && P2shSigOps(r, inputs, tx.vin, tx) == HiddenSigOps(r, t, tx.vin, from)
    ensures Adds(r, t, before, AddTx(r, before, tx, inputs), tx, from)
  {
    hide OutputsExist, ValueIn, P2shSigOps, Worth, HiddenSigOps, SumOut;
  }

  lemma TallyMore(r: BlockRules, t: Tree, disk: Disk, b: Place, from: seq<Place>, fCheckSigs: bool)
    requires t.Valid() && b.block in t.nodes && b.block != t.genesis && b.k < |t.nodes[b.block].block.vtx|
    requires Reached(r, t, disk, b) && (!TxAt(t, b).IsBeanBase() ==> Allowed(r.tx, t, b, from, fCheckSigs))
    ensures var s, node := OnParent(t, disk, b.block), t.nodes[b.block];
            Adds(r.tx, t, Tally(r.tx, s, node, b.k), Tally(r.tx, s, node, b.k + 1), TxAt(t, b), from)
  {
    hide *;
    var tx, s := TxAt(t, b), Store(IndexBelow(t, b), disk, map[]);
    if !tx.IsBeanBase() {
      TotalsOfTx(r, t, disk, b, from, fCheckSigs);
    }
    TallyStep(r.tx, t, disk, b);
    AddTxAdds(r.tx, t, Tally(r.tx, OnParent(t, disk, b.block), t.nodes[b.block], b.k), tx, InputsFrom(s, tx.vin), from);
  }

  lemma AllowedLess(r: Rules, t: Tree, h: Hash, from: seq<seq<Place>>, fCheckSigs: bool)
    requires t.Valid() && h in t.nodes && from != [] && AllAllowed(r, t, h, from, fCheckSigs)
    ensures var n := |from| - 1;
            && AllAllowed(r, t, h, from[..n], fCheckSigs) && n < |t.nodes[h].block.vtx|
            && (!t.nodes[h].block.vtx[n].IsBeanBase() ==> Allowed(r, t, Place(h, n), from[n], fCheckSigs))
  {
    hide Allowed, Tree.Valid;
  }

  lemma AllowedMore(r: Rules, t: Tree, h: Hash, from: seq<seq<Place>>, one: seq<Place>, fCheckSigs: bool)
    requires t.Valid() && h in t.nodes && AllAllowed(r, t, h, from, fCheckSigs) && |from| < |t.nodes[h].block.vtx|
    requires !t.nodes[h].block.vtx[|from|].IsBeanBase() ==> Allowed(r, t, Place(h, |from|), one, fCheckSigs)
    ensures AllAllowed(r, t, h, from + [one], fCheckSigs)
  {
    hide Allowed, Tree.Valid;
  }

  lemma LedgerMore(r: Rules, t: Tree, h: Hash, from: seq<seq<Place>>)
    requires Sourced(t, h, from) && from != []
    ensures var n := |from| - 1;
            var tx := t.nodes[h].block.vtx[n];
            && Sourced(t, h, from[..n]) && (!tx.IsBeanBase() ==> OutputsExist(t, tx.vin, from[n]))
            && BlockSigOps(r, t, h, from) == BlockSigOps(r, t, h, from[..n]) + tx.sigOps
                                             + (if tx.IsBeanBase() then 0 else HiddenSigOps(r, t, tx.vin, from[n]))
            && BlockFees(t, h, from) == BlockFees(t, h, from[..n])
                                        + (if tx.IsBeanBase() || tx.IsBeanStake() then 0 else Worth(t, tx.vin, from[n]) - SumOut(tx.vout))
  {
    hide OutputsExist, HiddenSigOps, Worth, SumOut;
  }

  lemma TotalsMore(r: Rules, t: Tree, before: Totals, after: Totals, h: Hash, from: seq<seq<Place>>)
    requires Sourced(t, h, from) && from != []
    requires Adds(r, t, before, after, t.nodes[h].block.vtx[|from| - 1], from[|from| - 1])
    requires Sourced(t, h, from[..|from| - 1])
    requires before.nFees == BlockFees(t, h, from[..|from| - 1]) && before.nSigOps == BlockSigOps(r, t, h, from[..|from| - 1])
    ensures after.nFees == BlockFees(t, h, from) && after.nSigOps == BlockSigOps(r, t, h, from)
  {
    hide OutputsExist, SumOut, Worth, HiddenSigOps;
  }

  lemma NoTotals(r: Rules, t: Tree, disk: Disk, h: Hash)
    requires t.Valid() && h in t.nodes && h != t.genesis
    ensures Sourced(t, h, [])
    ensures var all := Tally(r, OnParent(t, disk, h), t.nodes[h], 0); all.nFees == BlockFees(t, h, []) && all.nSigOps == BlockSigOps(r, t, h, [])
  {
  }

  /** The totals are the ledger's. */
  lemma {:induction false} TotalsAre(r: BlockRules, t: Tree, disk: Disk, h: Hash, from: seq<seq<Place>>, fCheckSigs: bool)
    requires t.Valid() && h in t.nodes && h != t.genesis && AllAllowed(r.tx, t, h, from, fCheckSigs)
    requires |from| > 0 ==> Reached(r, t, disk, Place(h, |from| - 1))
    ensures Sourced(t, h, from)
    ensures var all := Tally(r.tx, OnParent(t, disk, h), t.nodes[h], |from|);
            all.nFees == BlockFees(t, h, from) && all.nSigOps == BlockSigOps(r.tx, t, h, from)
    decreases |from|
  {
    hide *;
    AllowedAreSourced(r.tx, t, h, from, fCheckSigs);
    if from == [] {
      NoTotals(r.tx, t, disk, h);
    } else {
      var n := |from| - 1;
      AllowedLess(r.tx, t, h, from, fCheckSigs);
      LedgerMore(r.tx, t, h, from);
      if n > 0 {
        ReachedEarlier(r, t, disk, h, n - 1);
      }
      TotalsAre(r, t, disk, h, from[..n], fCheckSigs);
      TxIs(t, Place(h, n));
      TallyMore(r, t, disk, Place(h, n), from[n], fCheckSigs);
      var s, node := OnParent(t, disk, h), t.nodes[h];
      TotalsMore(r.tx, t, Tally(r.tx, s, node, n), Tally(r.tx, s, node, n + 1), h, from);
    }
  }

  lemma TxIs(t: Tree, a: Place)
    requires a.block in t.nodes && a.k < |t.nodes[a.block].block.vtx|
    ensures TxAt(t, a) == t.nodes[a.block].block.vtx[a.k]
  {
  }

  // ------------------------------------------------------------------ the verdict

  /** When ConnectBlock has accepted the first n transactions, the ledger allows them. */
  lemma {:induction false} AcceptedAreAllowed(r: BlockRules, t: Tree, disk: Disk, h: Hash, n: nat, fCheckSigs: bool)
    returns (from: seq<seq<Place>>)
    requires Reached(r, t, disk, Place(h, 0)) && OwnFiles(t, h) && n <= |t.nodes[h].block.vtx|
    requires TxsOk(r.tx, t, OnParent(t, disk, h), h, n, fCheckSigs)
    ensures |from| == n && AllAllowed(r.tx, t, h, from, fCheckSigs)
  {
    hide *;
    ReachedParts(r, t, disk, Place(h, 0));
    if n == 0 {
      from := [];
      NoneAllowed(r.tx, t, h, fCheckSigs);
    } else {
      var b := Place(h, n - 1);
      LastAccepted(r.tx, t, disk, b, fCheckSigs);
      NextReached(r, t, disk, h, n - 1, fCheckSigs);
      from := AcceptedAreAllowed(r, t, disk, h, n - 1, fCheckSigs);
      var one: seq<Place> := [];
      TxIs(t, b);
      if !TxAt(t, b).IsBeanBase() {
        AcceptedIff(r, t, disk, b, fCheckSigs);
        one :| Allowed(r.tx, t, b, one, fCheckSigs);
      }
      AllowedMore(r.tx, t, h, from, one, fCheckSigs);
      from := from + [one];
    }
  }

  lemma NoneAllowed(r: Rules, t: Tree, h: Hash, fCheckSigs: bool)
    requires t.Valid() && h in t.nodes
    ensures AllAllowed(r, t, h, [], fCheckSigs)
  {
  }

  lemma LastAccepted(r: Rules, t: Tree, disk: Disk, b: Place, fCheckSigs: bool)
    requires t.Valid() && b.block in t.nodes && b.block != t.genesis && b.k < |t.nodes[b.block].block.vtx|
    requires TxsOk(r, t, OnParent(t, disk, b.block), b.block, b.k + 1, fCheckSigs)
    ensures TxsOk(r, t, OnParent(t, disk, b.block), b.block, b.k, fCheckSigs)
    ensures TxAccepted(r, t, b.block, Store(IndexBelow(t, b), disk, map[]), TxAt(t, b), fCheckSigs)
  {
    hide TxAccepted, Tally, NoLiveDuplicate, ConnectTxs, ReplayIndex;
    assert ViewAt(OnParent(t, disk, b.block), t.nodes[b.block], b.k) == Store(IndexBelow(t, b), disk, map[]);
  }

  lemma NextReached(r: BlockRules, t: Tree, disk: Disk, h: Hash, n: nat, fCheckSigs: bool)
    requires Reached(r, t, disk, Place(h, 0)) && n <= |t.nodes[h].block.vtx|
    requires TxsOk(r.tx, t, OnParent(t, disk, h), h, n, fCheckSigs)
    ensures Reached(r, t, disk, Place(h, n))
  {
    hide Connected, BlockWellFormed, TxsOk, ReplayIndex;
    if fCheckSigs {
      FewerChecks(r.tx, t, OnParent(t, disk, h), h, n);
    }
  }

  /** What the ledger allows ConnectBlock accepts; its search for an older transaction with the same txid finds none. */
  lemma {:induction false} AllowedAreAccepted(r: BlockRules, t: Tree, disk: Disk, h: Hash, from: seq<seq<Place>>, fCheckSigs: bool)
    requires Reached(r, t, disk, Place(h, 0)) && OwnFiles(t, h) && AllAllowed(r.tx, t, h, from, fCheckSigs)
    requires Sourced(t, h, from) && BlockSigOps(r.tx, t, h, from) <= MAX_BLOCK_SIGOPS
    ensures TxsOk(r.tx, t, OnParent(t, disk, h), h, |from|, fCheckSigs)
    decreases |from|
  {
    hide *;
    ReachedParts(r, t, disk, Place(h, 0));
    if from == [] {
      NoneOk(r.tx, t, OnParent(t, disk, h), h, fCheckSigs);
    } else {
      var n := |from| - 1;
      AllowedLess(r.tx, t, h, from, fCheckSigs);
      LedgerMore(r.tx, t, h, from);
      AllowedAreAccepted(r, t, disk, h, from[..n], fCheckSigs);
      NextReached(r, t, disk, h, n, fCheckSigs);
      TotalsAre(r, t, disk, h, from, fCheckSigs);
      TxIs(t, Place(h, n));
      StepAllowed(r, t, disk, Place(h, n), from[n], fCheckSigs);
      OneMoreOk(r.tx, t, OnParent(t, disk, h), h, n, fCheckSigs);
    }
  }

  lemma NoneOk(r: Rules, t: Tree, s: Store, h: Hash, fCheckSigs: bool)
    requires t.Valid() && h in t.nodes
    ensures TxsOk(r, t, s, h, 0, fCheckSigs)
  {
  }

  lemma OneMoreOk(r: Rules, t: Tree, s: Store, h: Hash, n: nat, fCheckSigs: bool)
    requires t.Valid() && h in t.nodes && n < |t.nodes[h].block.vtx| && TxsOk(r, t, s, h, n, fCheckSigs)
    requires TxStepOk(r, t, s, h, n, fCheckSigs)
    ensures TxsOk(r, t, s, h, n + 1, fCheckSigs)
  {
    hide TxStepOk;
  }

  lemma StepAllowed(r: BlockRules, t: Tree, disk: Disk, b: Place, from: seq<Place>, fCheckSigs: bool)
    requires Reached(r, t, disk, b) && b.k < |t.nodes[b.block].block.vtx| && OwnFiles(t, b.block)
    requires !TxAt(t, b).IsBeanBase() ==> Allowed(r.tx, t, b, from, fCheckSigs)
    requires Tally(r.tx, OnParent(t, disk, b.block), t.nodes[b.block], b.k + 1).nSigOps <= MAX_BLOCK_SIGOPS
    ensures TxStepOk(r.tx, t, OnParent(t, disk, b.block), b.block, b.k, fCheckSigs)
  {
    hide Reached, Allowed, OwnFiles, Tally, InputsConnectable, AllFound, AllInRange, InputsFrom, ReplayIndex, ConnectTxs;
    ReachedParts(r, t, disk, b);
    if !TxAt(t, b).IsBeanBase() {
      AcceptedIff(r, t, disk, b, fCheckSigs);
    }
    NextIsNew(r, t, disk, b, fCheckSigs);
    assert ViewAt(OnParent(t, disk, b.block), t.nodes[b.block], b.k) == Store(IndexBelow(t, b), disk, map[]);
  }

  /** No accepted transaction has the txid of an older one. */
  lemma NextIsNew(r: BlockRules, t: Tree, disk: Disk, b: Place, fCheckSigs: bool)
    requires Reached(r, t, disk, b) && b.k < |t.nodes[b.block].block.vtx|
    requires TxAccepted(r.tx, t, b.block, Store(IndexBelow(t, b), disk, map[]), TxAt(t, b), fCheckSigs)
    ensures TxAt(t, b).hash !in ReplayIndex(t, t.nodes[b.block].pprev.value)
  {
    var p, node := t.nodes[b.block].pprev.value, t.nodes[b.block];
    InOrderBelow(r, t, disk, b);
    hide TxAccepted, ConnectTxs, ReplayIndex, TxsOk, TxSpendsUnspent, HashesIdentify, BeanbasesBelow, Backed, InputsSpent, BlockWellFormed,
         BranchGood, NodeAccepted;
    ReplayInvariant(r, t, disk, p);
    if !TxAt(t, b).IsBeanBase() {
      AcceptedTxSpendsUnspent(r.tx, t, b.block, Store(IndexBelow(t, b), disk, map[]), TxAt(t, b), fCheckSigs);
    }
    NextTxIsNew(r, disk, ReplayIndex(t, p), node, b.k);
  }

  /** The reward is what the beanstake pays out above its inputs. */
  ghost predicate Rewards(t: Tree, vtx: seq<Tx>, from: seq<seq<Place>>, nStakeReward: int) {
    |vtx| > 1 && |from| > 1 && OutputsExist(t, vtx[1].vin, from[1]) && nStakeReward == SumOut(vtx[1].vout) - Worth(t, vtx[1].vin, from[1])
  }

  lemma {:induction false} StakeTakes(r: BlockRules, t: Tree, disk: Disk, h: Hash, from: seq<seq<Place>>, n: nat, fCheckSigs: bool)
    requires t.Valid() && h in t.nodes && h != t.genesis && 2 <= n <= |from| <= |t.nodes[h].block.vtx|
    requires AllAllowed(r.tx, t, h, from, fCheckSigs) && t.nodes[h].block.IsProofOfStake() && Reached(r, t, disk, Place(h, n))
    ensures Rewards(t, t.nodes[h].block.vtx, from, Tally(r.tx, OnParent(t, disk, h), t.nodes[h], n).nStakeReward)
  {
    hide *;
    var b := Place(h, n - 1);
    ReachedEarlier(r, t, disk, h, n - 1);
    InPlace(r, t, disk, h, n - 1);
    AllowedAt(r.tx, t, h, from, n - 1, fCheckSigs);
    TxIs(t, b);
    TallyMore(r, t, disk, b, from[n - 1], fCheckSigs);
    var s, node := OnParent(t, disk, h), t.nodes[h];
    RewardMore(r.tx, t, Tally(r.tx, s, node, n - 1), Tally(r.tx, s, node, n), node.block.vtx, from, n - 1);
    if n > 2 {
      StakeTakes(r, t, disk, h, from, n - 1, fCheckSigs);
    }
  }

  lemma RewardMore(r: Rules, t: Tree, before: Totals, after: Totals, vtx: seq<Tx>, from: seq<seq<Place>>, k: nat)
    requires 1 <= k < |vtx| && k < |from| && Adds(r, t, before, after, vtx[k], from[k]) && !vtx[k].IsBeanBase()
    ensures vtx[k].IsBeanStake() && k == 1 ==> Rewards(t, vtx, from, after.nStakeReward)
    ensures !vtx[k].IsBeanStake() ==> after.nStakeReward == before.nStakeReward
  {
    hide OutputsExist, SumOut, Worth, HiddenSigOps;
  }

  lemma AllowedAt(r: Rules, t: Tree, h: Hash, from: seq<seq<Place>>, k: nat, fCheckSigs: bool)
    requires t.Valid() && h in t.nodes && k < |from| && AllAllowed(r, t, h, from, fCheckSigs)
    ensures k < |t.nodes[h].block.vtx|
    ensures !t.nodes[h].block.vtx[k].IsBeanBase() ==> Allowed(r, t, Place(h, k), from[k], fCheckSigs)
  {
    hide Allowed, Tree.Valid;
  }

  /** Only the first transaction is a beanbase, and in a proof-of-bean block only the second a beanstake. */
  lemma InPlace(r: BlockRules, t: Tree, disk: Disk, h: Hash, k: nat)
    requires Reached(r, t, disk, Place(h, k)) && 1 <= k < |t.nodes[h].block.vtx| && t.nodes[h].block.IsProofOfStake()
    ensures !t.nodes[h].block.vtx[k].IsBeanBase() && (t.nodes[h].block.vtx[k].IsBeanStake() <==> k == 1)
  {
    hide Connected, TxsOk, DistinctTxids;
  }

  lemma DueIff(r: BlockRules, t: Tree, disk: Disk, h: Hash, from: seq<seq<Place>>)
    requires t.Valid() && h in t.nodes && h != t.genesis && |from| == |t.nodes[h].block.vtx| && Sourced(t, h, from)
    requires var all := Tally(r.tx, OnParent(t, disk, h), t.nodes[h], |from|);
             && all.nFees == BlockFees(t, h, from)
             && (t.nodes[h].block.IsProofOfStake() ==> Rewards(t, t.nodes[h].block.vtx, from, all.nStakeReward))
    ensures RewardOk(r, OnParent(t, disk, h), t.nodes[h]) <==> TakesItsDue(r, t, h, from)
  {
    hide Tally, BlockFees, OutputsExist, Worth, SumOut, ReplayIndex, Tree.Valid;
  }

  lemma TwoAtLeast(b: Block)
    requires b.IsProofOfStake()
    ensures |b.vtx| >= 2
  {
  }

  lemma RewardIff(r: BlockRules, t: Tree, disk: Disk, h: Hash, from: seq<seq<Place>>, fCheckSigs: bool)
    requires t.Valid() && h in t.nodes && h != t.genesis && |from| == |t.nodes[h].block.vtx|
    requires AllAllowed(r.tx, t, h, from, fCheckSigs) && Sourced(t, h, from) && Reached(r, t, disk, Place(h, |from|))
    ensures RewardOk(r, OnParent(t, disk, h), t.nodes[h]) <==> TakesItsDue(r, t, h, from)
  {
    hide *;
    if |from| > 0 {
      ReachedEarlier(r, t, disk, h, |from| - 1);
    }
    TotalsAre(r, t, disk, h, from, fCheckSigs);
    if t.nodes[h].block.IsProofOfStake() {
      TwoAtLeast(t.nodes[h].block);
      StakeTakes(r, t, disk, h, from, |from|, fCheckSigs);
    }
    DueIff(r, t, disk, h, from);
  }

  /** On a branch that connects, ConnectBlock accepts a block exactly when it is in order by itself and the ledger allows it. */
  lemma ConnectsIff(r: BlockRules, t: Tree, disk: Disk, h: Hash, fCheckSigs: bool)
    requires t.Valid() && h in t.nodes && h != t.genesis && Connected(r, t, disk, t.nodes[h].pprev.value) && OwnFiles(t, h)
    ensures Connects(r, t, disk, h, fCheckSigs)
       <==> BlockWellFormed(r, t.nodes[h].block) && exists from :: BlockAllowed(r, t, h, from, fCheckSigs)
  {
    var n := |t.nodes[h].block.vtx|;
    hide Connected, BlockWellFormed, TxsOk, RewardOk, OwnFiles, AllAllowed, Sourced, BlockSigOps, TakesItsDue, Tally, Reached, ReplayIndex;
    if BlockWellFormed(r, t.nodes[h].block) {
      StartReached(r, t, disk, h);
      if Connects(r, t, disk, h, fCheckSigs) {
        var from := AcceptedAreAllowed(r, t, disk, h, n, fCheckSigs);
        NextReached(r, t, disk, h, n, fCheckSigs);
        if n > 0 {
          ReachedEarlier(r, t, disk, h, n - 1);
        }
        TotalsAre(r, t, disk, h, from, fCheckSigs);
        RewardIff(r, t, disk, h, from, fCheckSigs);
        WithinSigOps(r, t, disk, h, fCheckSigs);
        assert BlockAllowed(r, t, h, from, fCheckSigs);
      }
      if from :| BlockAllowed(r, t, h, from, fCheckSigs) {
        AllowedAreAccepted(r, t, disk, h, from, fCheckSigs);
        NextReached(r, t, disk, h, n, fCheckSigs);
        RewardIff(r, t, disk, h, from, fCheckSigs);
      }
    }
  }

  lemma StartReached(r: BlockRules, t: Tree, disk: Disk, h: Hash)
    requires t.Valid() && h in t.nodes && h != t.genesis && Connected(r, t, disk, t.nodes[h].pprev.value)
    requires BlockWellFormed(r, t.nodes[h].block)
    ensures Reached(r, t, disk, Place(h, 0))
  {
    hide Connected, BlockWellFormed, ReplayIndex;
  }

  lemma WithinSigOps(r: BlockRules, t: Tree, disk: Disk, h: Hash, fCheckSigs: bool)
    requires t.Valid() && h in t.nodes && h != t.genesis && Connects(r, t, disk, h, fCheckSigs)
    ensures Tally(r.tx, OnParent(t, disk, h), t.nodes[h], |t.nodes[h].block.vtx|).nSigOps <= MAX_BLOCK_SIGOPS
  {
    hide ReplayIndex, Tally, TxAccepted, NoLiveDuplicate, RewardOk;
  }
}
