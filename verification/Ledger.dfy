/** The transaction index read as a ledger (src/main.cpp). What ConnectBlock looks up in the index, slot by slot, is put here in terms
    of the branch alone: which transactions stand below, what their outputs are worth, and who has spent them. */
module Ledger {
  import opened Wrappers
  import opened Transactions
  import opened BlockTree
  import opened TxInputs
  import opened BlockConnection
  import opened BlockUndo
  import opened MoneySupply
  import opened Replay
  import opened BranchLaws

  /** ConnectBlock has come to place b: the branch below its block connects, and the block's earlier transactions were accepted. */
  ghost predicate Reached(r: BlockRules, t: Tree, disk: Disk, b: Place) {
    && t.Valid() && b.block in t.nodes && b.block != t.genesis && b.k <= |t.nodes[b.block].block.vtx|
    && Connected(r, t, disk, t.nodes[b.block].pprev.value) && BlockWellFormed(r, t.nodes[b.block].block)
    && TxsOk(r.tx, t, Store(ReplayIndex(t, t.nodes[b.block].pprev.value), disk, map[]), b.block, b.k, false)
  }

  /** Place a comes before b on b's branch. */
  ghost predicate Below(t: Tree, a: Place, b: Place)
    requires t.Valid() && b.block in t.nodes
  {
    OnBranch(t, b.block, a) && Before(t, a, b)
  }

  /** Some transaction before b spends the output. */
  ghost predicate SpentBelow(t: Tree, b: Place, op: OutPoint)
    requires t.Valid() && b.block in t.nodes
  {
    exists c: Place, i: nat :: Below(t, c, b) && SpendsAt(t, c, i, op)
  }

  predicate SpendsAt(t: Tree, c: Place, i: nat, op: OutPoint)
    requires c.block in t.nodes && c.k < |t.nodes[c.block].block.vtx|
  {
    !TxAt(t, c).IsBeanBase() && i < |TxAt(t, c).vin| && TxAt(t, c).vin[i].prevout == op
  }

  // ------------------------------------------------------------------ the index below a place

  lemma FirstAccepted(r: Rules, t: Tree, s: Store, b: Hash, n: nat, fCheckSigs: bool)
    requires t.Valid() && b in t.nodes && n <= |t.nodes[b].block.vtx| && TxsOk(r, t, s, b, n, fCheckSigs)
    ensures FirstSpendUnspent(s.txdb, t.nodes[b], n)
  {
    hide TxsOk, TxAccepted, ConnectTxs, TxSpendsUnspent, Tally;
    var node := t.nodes[b];
    forall k | 0 <= k < n && !node.block.vtx[k].IsBeanBase()
      ensures TxSpendsUnspent(ConnectTxs(s.txdb, node, k), node.block.vtx[k])
    {
      TxsOkAt(r, t, s, b, n, fCheckSigs, k);
      AcceptedTxSpendsUnspent(r, t, b, ViewAt(s, node, k), node.block.vtx[k], fCheckSigs);
    }
  }

  lemma InOrderBelow(r: BlockRules, t: Tree, disk: Disk, b: Place)
    requires Reached(r, t, disk, b)
    ensures Backed(IndexBelow(t, b), disk) && InputsSpent(IndexBelow(t, b), disk)
    ensures forall j :: 0 <= j < b.k ==> t.nodes[b.block].block.vtx[j].hash !in ReplayIndex(t, t.nodes[b.block].pprev.value)
  {
    var p, node := t.nodes[b.block].pprev.value, t.nodes[b.block];
    hide ConnectTxs, ReplayIndex, NodeAccepted, BlockWellFormed, TxsOk, Backed, InputsSpent, HashesIdentify, BeanbasesBelow, BranchGood,
         FirstSpendUnspent;
    ReplayInvariant(r, t, disk, p);
    FirstAccepted(r.tx, t, Store(ReplayIndex(t, p), disk, map[]), b.block, b.k, false);
    FirstTxsAreNew(r, disk, ReplayIndex(t, p), node, b.k);
  }

  lemma BelowParts(t: Tree, a: Place, b: Place)
    requires t.Valid() && b.block in t.nodes && b.block != t.genesis && Below(t, a, b)
    ensures var p := t.nodes[b.block].pprev.value;
            p in t.nodes && ((a.block == b.block && a.k < b.k) || (a.block != b.block && OnBranch(t, p, a)))
  {
    AncestorHeight(t, a.block, b.block);
    AncestorSelf(t, b.block);
  }

  /** Below a place every txid stands once. */
  lemma OnceBelow(r: BlockRules, t: Tree, disk: Disk, b: Place, a: Place, c: Place)
    requires Reached(r, t, disk, b) && Below(t, a, b) && Below(t, c, b) && TxAt(t, a).hash == TxAt(t, c).hash
    requires b.k <= |t.nodes[b.block].block.vtx|
    ensures a == c
  {
    var p := t.nodes[b.block].pprev.value;
    BelowParts(t, a, b);
    BelowParts(t, c, b);
    InOrderBelow(r, t, disk, b);
    hide Connected, TxsOk, TreeAccepted, Below, IndexBelow, ReplayIndex, Backed, InputsSpent, OnBranch, DistinctTxids;
    if a.block == b.block && c.block == b.block {
      if a.k != c.k {
        DifferInBlock(t.nodes[b.block].block.vtx, if a.k < c.k then a.k else c.k, if a.k < c.k then c.k else a.k);
      }
    } else if a.block == b.block {
      IndexedOnBranch(t, p, c);
    } else if c.block == b.block {
      IndexedOnBranch(t, p, a);
    } else {
      TxidHasOnePlace(r, t, disk, p, a, c);
    }
  }

  lemma IndexedOnBranch(t: Tree, tip: Hash, a: Place)
    requires t.Valid() && tip in t.nodes && OnBranch(t, tip, a)
    ensures TxAt(t, a).hash in ReplayIndex(t, tip)
  {
    hide ReplayIndex;
    IndexedAfter(t, a);
    StaysIndexed(t, a.block, tip);
  }

  lemma IndexedIfBelow(t: Tree, a: Place, b: Place)
    requires t.Valid() && b.block in t.nodes && b.block != t.genesis && b.k <= |t.nodes[b.block].block.vtx| && Below(t, a, b)
    ensures TxAt(t, a).hash in IndexBelow(t, b)
  {
    var p, node := t.nodes[b.block].pprev.value, t.nodes[b.block];
    BelowParts(t, a, b);
    hide ConnectTxs, ReplayIndex, Txids, OnBranch, Below;
    ConnectedSoFar(ReplayIndex(t, p), node, b.k);
    if a.block == b.block {
      TxidAmong(node.block.vtx[..b.k], a.k);
    } else {
      IndexedOnBranch(t, p, a);
    }
  }

  /** The entry of a transaction below is where the transaction is, and has a slot for each of its outputs. */
  lemma EntryIs(r: BlockRules, t: Tree, disk: Disk, b: Place, a: Place)
    requires Reached(r, t, disk, b) && Below(t, a, b)
    ensures var ix, h, pos := IndexBelow(t, b), TxAt(t, a).hash, TxPos(t.nodes[a.block], a.k);
            && h in ix && ix[h].pos == pos && pos != MEMPOOL_POS && pos in disk && disk[pos] == TxAt(t, a)
            && |ix[h].vSpent| == |TxAt(t, a).vout|
  {
    var ix, h := IndexBelow(t, b), TxAt(t, a).hash;
    IndexedIfBelow(t, a, b);
    InOrderBelow(r, t, disk, b);
    var c := EntryBelow(t, b, h);
    hide Connected, TxsOk, IndexBelow, InputsSpent, OnBranch, TxPos, BlockWellFormed, ReplayIndex;
    OnceBelow(r, t, disk, b, a, c);
    OnDiskAt(t, disk, b.block, a);
    assert EntryBacked(ix[h], h, disk);
  }

  // ------------------------------------------------------------------ what is unspent

  /** A slot is taken by a transaction of the block, or was taken before. */
  lemma {:induction false} SlotInBlock(ix: Index, node: BlockIndex, k: nat, op: OutPoint)
    requires k <= |node.block.vtx| && OutPointSpent(ConnectTxs(ix, node, k), op)
    ensures OutPointSpent(ix, op)
            || exists j :: 0 <= j < k && !node.block.vtx[j].IsBeanBase() && op in Prevouts(node.block.vtx[j].vin)
  {
    hide TxPos;
    if k > 0 {
      var tx := node.block.vtx[k - 1];
      if !tx.IsBeanBase() && op in Prevouts(tx.vin) {
      } else {
        assert OutPointSpent(ConnectTxs(ix, node, k - 1), op);
        SlotInBlock(ix, node, k - 1, op);
      }
    }
  }

  lemma {:induction false} SlotOnBranch(t: Tree, tip: Hash, op: OutPoint) returns (c: Place, i: nat)
    requires t.Valid() && tip in t.nodes && OutPointSpent(ReplayIndex(t, tip), op)
    ensures OnBranch(t, tip, c) && SpendsAt(t, c, i, op)
    decreases t.nodes[tip].nHeight
  {
    hide ConnectTxs;
    var p, node := t.nodes[tip].pprev.value, t.nodes[tip];
    AncestorSelf(t, tip);
    SlotInBlock(ReplayIndex(t, p), node, |node.block.vtx|, op);
    if OutPointSpent(ReplayIndex(t, p), op) {
      c, i := SlotOnBranch(t, p, op);
    } else {
      var j :| 0 <= j < |node.block.vtx| && !node.block.vtx[j].IsBeanBase() && op in Prevouts(node.block.vtx[j].vin);
      c := Place(tip, j);
      i :| 0 <= i < |node.block.vtx[j].vin| && node.block.vtx[j].vin[i].prevout == op;
    }
  }

  lemma SlotTaken(t: Tree, b: Place, op: OutPoint)
    requires t.Valid() && b.block in t.nodes && b.block != t.genesis && b.k <= |t.nodes[b.block].block.vtx|
    requires OutPointSpent(IndexBelow(t, b), op)
    ensures SpentBelow(t, b, op)
  {
    hide ConnectTxs, ReplayIndex;
    var p, node := t.nodes[b.block].pprev.value, t.nodes[b.block];
    AncestorSelf(t, b.block);
    SlotInBlock(ReplayIndex(t, p), node, b.k, op);
    var c: Place, i: nat;
    if OutPointSpent(ReplayIndex(t, p), op) {
      c, i := SlotOnBranch(t, p, op);
      AncestorHeight(t, c.block, p);
    } else {
      var j :| 0 <= j < b.k && !node.block.vtx[j].IsBeanBase() && op in Prevouts(node.block.vtx[j].vin);
      c := Place(b.block, j);
      i :| 0 <= i < |node.block.vtx[j].vin| && node.block.vtx[j].vin[i].prevout == op;
    }
    assert Below(t, c, b) && SpendsAt(t, c, i, op);
  }

  lemma SpenderTakesSlot(r: BlockRules, t: Tree, disk: Disk, b: Place, c: Place, i: nat, op: OutPoint)
    requires Reached(r, t, disk, b) && Below(t, c, b) && SpendsAt(t, c, i, op)
    ensures OutPointSpent(IndexBelow(t, b), op)
  {
    InOrderBelow(r, t, disk, b);
    IndexedIfBelow(t, c, b);
    OnDiskAt(t, disk, b.block, c);
    hide BranchGood, TxsOk, IndexBelow, TxPos, BlockWellFormed, ReplayIndex, OutPointSpent;
    IndexedHasSpent(IndexBelow(t, b), disk, TxAt(t, c), TxPos(t.nodes[c.block], c.k));
  }

  /** The unspent outputs of the index are exactly the outputs of the transactions below that none of them spends. */
  lemma UnspentIff(r: BlockRules, t: Tree, disk: Disk, b: Place, op: OutPoint)
    requires Reached(r, t, disk, b)
    ensures Unspent(IndexBelow(t, b), op)
       <==> (exists a :: Below(t, a, b) && TxAt(t, a).hash == op.hash && op.n < |TxAt(t, a).vout|) && !SpentBelow(t, b, op)
  {
    var ix := IndexBelow(t, b);
    hide Reached, IndexBelow, TreeAccepted, OnBranch, TxPos;
    ReachedParts(r, t, disk, b);
    if op.hash in ix {
      var a := EntryBelow(t, b, op.hash);
      EntryIs(r, t, disk, b, a);
    }
    forall a | Below(t, a, b) && TxAt(t, a).hash == op.hash
      ensures op.hash in ix && |ix[op.hash].vSpent| == |TxAt(t, a).vout|
    {
      EntryIs(r, t, disk, b, a);
    }
    if OutPointSpent(ix, op) {
      SlotTaken(t, b, op);
    }
    forall c: Place, i: nat | Below(t, c, b) && SpendsAt(t, c, i, op)
      ensures OutPointSpent(ix, op)
    {
      SpenderTakesSlot(r, t, disk, b, c, i, op);
    }
  }

  lemma ReachedParts(r: BlockRules, t: Tree, disk: Disk, b: Place)
    requires Reached(r, t, disk, b)
    ensures t.Valid() && b.block in t.nodes && b.block != t.genesis && b.k <= |t.nodes[b.block].block.vtx|
    ensures TreeAccepted(t, disk) && HashesIdentify(disk)
  {
  }

  // ------------------------------------------------------------------ what is accepted

  /** Input i of the transaction at b may spend the output of the transaction at a. */
  ghost predicate MaySpend(r: Rules, t: Tree, b: Place, i: nat, a: Place, fCheckSigs: bool)
    requires t.Valid() && b.block in t.nodes && b.k < |t.nodes[b.block].block.vtx| && i < |TxAt(t, b).vin|
  {
    var tx, op := TxAt(t, b), TxAt(t, b).vin[i].prevout;
    && Below(t, a, b) && TxAt(t, a).hash == op.hash && op.n < |TxAt(t, a).vout|
    && !SpentBelow(t, b, op)
    && (TxAt(t, a).IsBeanBase() || TxAt(t, a).IsBeanStake() ==> HeightOf(t, b) - HeightOf(t, a) >= r.nBeanbaseMaturity)
    && TxAt(t, a).nTime <= tx.nTime
    && MoneyRange(TxAt(t, a).vout[op.n].nValue)
    && (fCheckSigs ==> r.verifySignature(TxAt(t, a), tx, i))
  }

  /** The outputs that the inputs name are there. */
  ghost predicate OutputsExist(t: Tree, vin: seq<TxIn>, from: seq<Place>) {
    && |from| == |vin|
    && forall i :: 0 <= i < |vin| ==> from[i].block in t.nodes && from[i].k < |t.nodes[from[i].block].block.vtx|
                                      && vin[i].prevout.n < |TxAt(t, from[i]).vout|
  }

  /** What the first n inputs are worth. */
  ghost function WorthOfFirst(t: Tree, vin: seq<TxIn>, from: seq<Place>, n: nat): int
    requires OutputsExist(t, vin, from) && n <= |vin|
  {
    Worth(t, vin[..n], from[..n])
  }

  /** Every input may spend from its place, the inputs are distinct, their amounts add up within range, and a transaction that is no
      beanstake pays its fee. */
  ghost predicate Allowed(r: Rules, t: Tree, b: Place, from: seq<Place>, fCheckSigs: bool)
    requires t.Valid() && b.block in t.nodes && b.k < |t.nodes[b.block].block.vtx|
  {
    var tx := TxAt(t, b);
    && |from| == |tx.vin| && (forall i :: 0 <= i < |tx.vin| ==> MaySpend(r, t, b, i, from[i], fCheckSigs))
    && DistinctPrevouts(tx.vin)
    && (forall n :: 0 < n <= |tx.vin| ==> MoneyRange(WorthOfFirst(t, tx.vin, from, n)))
    && (!tx.IsBeanStake() ==>
          Min((1 + tx.size / 1000) * MIN_TX_FEE, MAX_MONEY) <= WorthOfFirst(t, tx.vin, from, |tx.vin|) - SumOut(tx.vout) <= MAX_MONEY)
  }

  /** The inputs as FetchInputs presents them are the transactions at their places. */
  ghost predicate Presents(t: Tree, b: Place, from: seq<Place>, inputs: map<Hash, (TxIndex, Tx)>)
    requires t.Valid() && b.block in t.nodes && b.k < |t.nodes[b.block].block.vtx|
  {
    var tx := TxAt(t, b);
    && |from| == |tx.vin|
    && forall i :: 0 <= i < |tx.vin| ==> PresentsOne(t, b, tx.vin[i].prevout, from[i], inputs)
  }

  ghost predicate PresentsOne(t: Tree, b: Place, op: OutPoint, a: Place, inputs: map<Hash, (TxIndex, Tx)>)
    requires t.Valid() && b.block in t.nodes
  {
    && Below(t, a, b) && TxAt(t, a).hash == op.hash && op.hash in inputs && inputs[op.hash].1 == TxAt(t, a)
    && inputs[op.hash].0.pos == TxPos(t.nodes[a.block], a.k) && |inputs[op.hash].0.vSpent| == |TxAt(t, a).vout|
    && (op.n < |TxAt(t, a).vout| ==> (inputs[op.hash].0.vSpent[op.n] == NullPos <==> !SpentBelow(t, b, op)))
  }

  lemma PresentedOne(r: BlockRules, t: Tree, disk: Disk, b: Place, vin: seq<TxIn>, i: nat, a: Place)
    requires Reached(r, t, disk, b) && i < |vin| && Below(t, a, b) && TxAt(t, a).hash == vin[i].prevout.hash
    ensures Fetch(Store(IndexBelow(t, b), disk, map[]), map[], true, vin[i].prevout.hash).Some?
    ensures PresentsOne(t, b, vin[i].prevout, a, InputsFrom(Store(IndexBelow(t, b), disk, map[]), vin))
  {
    var op := vin[i].prevout;
    hide Reached, IndexBelow, TxPos, OnBranch, SpentBelow, Before, Below, InputsFrom, Fetch;
    ReachedParts(r, t, disk, b);
    BelowIsThere(t, a, b);
    EntryIs(r, t, disk, b, a);
    UnspentIff(r, t, disk, b, op);
    FetchedAt(Store(IndexBelow(t, b), disk, map[]), vin, i);
    if op.n < |TxAt(t, a).vout| {
      assert Below(t, a, b) && TxAt(t, a).hash == op.hash && op.n < |TxAt(t, a).vout|;
    }
  }

  lemma FetchedAt(s: Store, vin: seq<TxIn>, i: nat)
    requires i < |vin|
    requires var h := vin[i].prevout.hash; h in s.txdb && s.txdb[h].pos != MEMPOOL_POS && s.txdb[h].pos in s.disk
    ensures var h, inputs := vin[i].prevout.hash, InputsFrom(s, vin);
            && Fetch(s, map[], true, h).Some?
            && h in inputs && inputs[h] == (s.txdb[h], s.disk[s.txdb[h].pos])
  {
  }

  lemma BelowIsThere(t: Tree, a: Place, b: Place)
    requires t.Valid() && b.block in t.nodes && Below(t, a, b)
    ensures a.block in t.nodes && a.k < |t.nodes[a.block].block.vtx|
  {
  }

  lemma RangeIff(t: Tree, b: Place, from: seq<Place>, inputs: map<Hash, (TxIndex, Tx)>)
    requires t.Valid() && b.block in t.nodes && b.k < |t.nodes[b.block].block.vtx| && Presents(t, b, from, inputs)
    ensures AllInRange(inputs, TxAt(t, b).vin) <==> OutputsExist(t, TxAt(t, b).vin, from)
  {
    var vin := TxAt(t, b).vin;
    hide TxPos, SpentBelow, Before, Tree.Ancestor, Tree.Valid;
    forall i | 0 <= i < |vin|
      ensures PrevoutInRange(inputs, vin[i].prevout) <==> vin[i].prevout.n < |TxAt(t, from[i]).vout|
      ensures from[i].block in t.nodes && from[i].k < |t.nodes[from[i].block].block.vtx|
    {
      assert PresentsOne(t, b, vin[i].prevout, from[i], inputs);
    }
  }

  lemma WorthPresented(t: Tree, b: Place, from: seq<Place>, inputs: map<Hash, (TxIndex, Tx)>, n: nat)
    requires t.Valid() && b.block in t.nodes && b.k < |t.nodes[b.block].block.vtx| && Presents(t, b, from, inputs)
    requires OutputsExist(t, TxAt(t, b).vin, from) && n <= |TxAt(t, b).vin|
    ensures var vin := TxAt(t, b).vin;
            ValueIn(inputs, vin[..n]) == WorthOfFirst(t, vin, from, n)
  {
    var vin := TxAt(t, b).vin;
    hide TxPos, SpentBelow, Before, Tree.Ancestor, Tree.Valid, Worth, ValueIn, TxAt;
    forall i | 0 <= i < n
      ensures vin[..n][i].prevout.hash in inputs && inputs[vin[..n][i].prevout.hash].1 == TxAt(t, from[..n][i])
    {
      assert PresentsOne(t, b, vin[i].prevout, from[i], inputs);
    }
    WorthIs(t, vin[..n], from[..n], inputs);
  }

  /** ConnectInputs' checks of one input, and what they mean. */
  lemma SaneIff(r: Rules, t: Tree, b: Place, from: seq<Place>, inputs: map<Hash, (TxIndex, Tx)>, i: nat, fCheckSigs: bool)
    requires t.Valid() && b.block in t.nodes && b.k < |t.nodes[b.block].block.vtx| && OwnFiles(t, b.block)
    requires Presents(t, b, from, inputs) && OutputsExist(t, TxAt(t, b).vin, from) && i < |TxAt(t, b).vin|
    requires AllInRange(inputs, TxAt(t, b).vin)
    ensures var tx := TxAt(t, b); var op := tx.vin[i].prevout;
            && PrevoutInRange(inputs, op)
            && (PassesAt(r, t, b.block, inputs, tx, i, fCheckSigs) <==> MaySpendInRange(r, t, b, i, from, fCheckSigs))
  {
    var tx, op, a := TxAt(t, b), TxAt(t, b).vin[i].prevout, from[i];
    assert PresentsOne(t, b, op, a, inputs);
    WorthPresented(t, b, from, inputs, i + 1);
    AncestorSelf(t, b.block);
    ImmatureByHeight(t, b.block, a, b.block, r.nBeanbaseMaturity);
    hide Immature, WorthOfFirst, ValueIn, SpentBelow, TxPos, Presents, OwnFiles, Tree.Valid, Tree.Ancestor, OutputsExist;
  }

  /** Input i passes ConnectInputs' loops, its slot is null, and its signature is valid if that is checked. */
  ghost predicate PassesAt(r: Rules, t: Tree, b: Hash, inputs: map<Hash, (TxIndex, Tx)>, tx: Tx, i: nat, fCheckSigs: bool)
    requires t.Valid() && b in t.nodes && i < |tx.vin|
  {
    var op := tx.vin[i].prevout;
    && InputSane(r, t, b, inputs, tx, i)
    && PrevoutInRange(inputs, op) && inputs[op.hash].0.vSpent[op.n] == NullPos
    && (fCheckSigs ==> r.verifySignature(inputs[op.hash].1, tx, i))
  }

  lemma ConnectableParts(r: Rules, t: Tree, b: Hash, inputs: map<Hash, (TxIndex, Tx)>, tx: Tx, fCheckSigs: bool)
    requires t.Valid() && b in t.nodes && AllInRange(inputs, tx.vin) && !tx.IsBeanBase()
    ensures InputsConnectable(r, t, b, inputs, tx, fCheckSigs)
       <==> (forall i :: 0 <= i < |tx.vin| ==> PassesAt(r, t, b, inputs, tx, i, fCheckSigs)) && DistinctPrevouts(tx.vin) && PaysFee(inputs, tx)
  {
    hide InputSane, PaysFee, DistinctPrevouts;
    if forall i :: 0 <= i < |tx.vin| ==> PassesAt(r, t, b, inputs, tx, i, fCheckSigs) {
      forall i | 0 <= i < |tx.vin|
        ensures InputSane(r, t, b, inputs, tx, i) && inputs[tx.vin[i].prevout.hash].0.vSpent[tx.vin[i].prevout.n] == NullPos
        ensures fCheckSigs ==> r.verifySignature(inputs[tx.vin[i].prevout.hash].1, tx, i)
      {
        assert PassesAt(r, t, b, inputs, tx, i, fCheckSigs);
      }
    }
  }

  lemma FeeIff(t: Tree, b: Place, from: seq<Place>, inputs: map<Hash, (TxIndex, Tx)>)
    requires t.Valid() && b.block in t.nodes && b.k < |t.nodes[b.block].block.vtx| && Presents(t, b, from, inputs)
    requires OutputsExist(t, TxAt(t, b).vin, from)
    ensures PaysFee(inputs, TxAt(t, b)) <==> PaysWorth(t, b, from)
  {
    var tx := TxAt(t, b);
    WorthPresented(t, b, from, inputs, |tx.vin|);
    assert tx.vin[..|tx.vin|] == tx.vin;
    MinFeeIs(tx, 1);
    hide WorthOfFirst, ValueIn, Presents, OutputsExist, SumOut, GetMinFee;
  }

  /** Everything ConnectInputs looks at, when the inputs are presented. */
  lemma ConnectableIff(r: Rules, t: Tree, b: Place, from: seq<Place>, inputs: map<Hash, (TxIndex, Tx)>, fCheckSigs: bool)
    requires t.Valid() && b.block in t.nodes && b.k < |t.nodes[b.block].block.vtx| && OwnFiles(t, b.block)
    requires Presents(t, b, from, inputs) && !TxAt(t, b).IsBeanBase()
    ensures AllInRange(inputs, TxAt(t, b).vin) && InputsConnectable(r, t, b.block, inputs, TxAt(t, b), fCheckSigs)
       <==> Allowed(r, t, b, from, fCheckSigs)
  {
    var tx := TxAt(t, b);
    hide *;
    RangeIff(t, b, from, inputs);
    if OutputsExist(t, tx.vin, from) {
      ConnectableParts(r, t, b.block, inputs, tx, fCheckSigs);
      AllowedParts(r, t, b, from, fCheckSigs);
      forall i | 0 <= i < |tx.vin|
        ensures PassesAt(r, t, b.block, inputs, tx, i, fCheckSigs) <==> MaySpendInRange(r, t, b, i, from, fCheckSigs)
      {
        SaneIff(r, t, b, from, inputs, i, fCheckSigs);
      }
      FeeIff(t, b, from, inputs);
    } else if Allowed(r, t, b, from, fCheckSigs) {
      AllowedExist(r, t, b, from, fCheckSigs);
    }
  }

  ghost predicate MaySpendInRange(r: Rules, t: Tree, b: Place, i: nat, from: seq<Place>, fCheckSigs: bool)
    requires t.Valid() && b.block in t.nodes && b.k < |t.nodes[b.block].block.vtx| && i < |TxAt(t, b).vin|
    requires OutputsExist(t, TxAt(t, b).vin, from)
  {
    MaySpend(r, t, b, i, from[i], fCheckSigs) && MoneyRange(WorthOfFirst(t, TxAt(t, b).vin, from, i + 1))
  }

  /** A transaction that is no beanstake pays its fee, in range. */
  ghost predicate PaysWorth(t: Tree, b: Place, from: seq<Place>)
    requires b.block in t.nodes && b.k < |t.nodes[b.block].block.vtx| && OutputsExist(t, TxAt(t, b).vin, from)
  {
    var tx := TxAt(t, b);
    !tx.IsBeanStake() ==>
      Min((1 + tx.size / 1000) * MIN_TX_FEE, MAX_MONEY) <= WorthOfFirst(t, tx.vin, from, |tx.vin|) - SumOut(tx.vout) <= MAX_MONEY
  }

  lemma AllowedParts(r: Rules, t: Tree, b: Place, from: seq<Place>, fCheckSigs: bool)
    requires t.Valid() && b.block in t.nodes && b.k < |t.nodes[b.block].block.vtx| && OutputsExist(t, TxAt(t, b).vin, from)
    ensures Allowed(r, t, b, from, fCheckSigs)
       <==> (forall i :: 0 <= i < |TxAt(t, b).vin| ==> MaySpendInRange(r, t, b, i, from, fCheckSigs))
            && DistinctPrevouts(TxAt(t, b).vin) && PaysWorth(t, b, from)
  {
    hide MaySpend, WorthOfFirst, DistinctPrevouts, TxAt, SumOut, MoneyRange;
    var n := |TxAt(t, b).vin|;
    if forall i :: 0 <= i < n ==> MaySpendInRange(r, t, b, i, from, fCheckSigs) {
      forall k | 0 < k <= n
        ensures MoneyRange(WorthOfFirst(t, TxAt(t, b).vin, from, k))
      {
        assert MaySpendInRange(r, t, b, k - 1, from, fCheckSigs);
      }
      forall i | 0 <= i < n
        ensures MaySpend(r, t, b, i, from[i], fCheckSigs)
      {
        assert MaySpendInRange(r, t, b, i, from, fCheckSigs);
      }
    }
    if Allowed(r, t, b, from, fCheckSigs) {
      forall i | 0 <= i < n
        ensures MaySpendInRange(r, t, b, i, from, fCheckSigs)
      {
        assert MoneyRange(WorthOfFirst(t, TxAt(t, b).vin, from, i + 1));
      }
    }
  }

  lemma AllowedExist(r: Rules, t: Tree, b: Place, from: seq<Place>, fCheckSigs: bool)
    requires t.Valid() && b.block in t.nodes && b.k < |t.nodes[b.block].block.vtx| && Allowed(r, t, b, from, fCheckSigs)
    ensures OutputsExist(t, TxAt(t, b).vin, from)
  {
    hide SpentBelow, WorthOfFirst, Tree.Ancestor;
  }

  // ------------------------------------------------------------------ ConnectBlock's check of a transaction is the ledger's

  /** Where the inputs of an accepted transaction come from. */
  lemma FoundBelow(r: Rules, t: Tree, s: Store, b: Place, n: nat, fCheckSigs: bool) returns (from: seq<Place>)
    requires t.Valid() && b.block in t.nodes && b.block != t.genesis && b.k < |t.nodes[b.block].block.vtx| && n <= |TxAt(t, b).vin|
    requires s.txdb == IndexBelow(t, b) && AllFound(s, map[], true, TxAt(t, b).vin)
    ensures |from| == n && forall i :: 0 <= i < n ==> Below(t, from[i], b) && TxAt(t, from[i]).hash == TxAt(t, b).vin[i].prevout.hash
  {
    from := [];
    if n > 0 {
      from := FoundBelow(r, t, s, b, n - 1, fCheckSigs);
      assert Fetch(s, map[], true, TxAt(t, b).vin[n - 1].prevout.hash).Some?;
      hide IndexBelow;
      var a := EntryBelow(t, b, TxAt(t, b).vin[n - 1].prevout.hash);
      from := from + [a];
    }
  }

  lemma AllPresented(r: BlockRules, t: Tree, disk: Disk, b: Place, from: seq<Place>)
    requires Reached(r, t, disk, b) && b.k < |t.nodes[b.block].block.vtx| && |from| == |TxAt(t, b).vin|
    requires forall i :: 0 <= i < |from| ==> Below(t, from[i], b) && TxAt(t, from[i]).hash == TxAt(t, b).vin[i].prevout.hash
    ensures var s := Store(IndexBelow(t, b), disk, map[]);
            AllFound(s, map[], true, TxAt(t, b).vin) && Presents(t, b, from, InputsFrom(s, TxAt(t, b).vin))
  {
    var s, vin := Store(IndexBelow(t, b), disk, map[]), TxAt(t, b).vin;
    hide Reached, IndexBelow, InputsFrom, Below, PresentsOne, Fetch;
    forall i | 0 <= i < |vin|
      ensures Fetch(s, map[], true, vin[i].prevout.hash).Some? && PresentsOne(t, b, vin[i].prevout, from[i], InputsFrom(s, vin))
    {
      PresentedOne(r, t, disk, b, vin, i, from[i]);
    }
  }

  /** ConnectBlock accepts a transaction exactly when the ledger allows it: there are places below from which its inputs may spend. */
  lemma AcceptedIff(r: BlockRules, t: Tree, disk: Disk, b: Place, fCheckSigs: bool)
    requires Reached(r, t, disk, b) && b.k < |t.nodes[b.block].block.vtx| && OwnFiles(t, b.block) && !TxAt(t, b).IsBeanBase()
    ensures TxAccepted(r.tx, t, b.block, Store(IndexBelow(t, b), disk, map[]), TxAt(t, b), fCheckSigs)
       <==> exists from :: Allowed(r.tx, t, b, from, fCheckSigs)
  {
    var s, vin := Store(IndexBelow(t, b), disk, map[]), TxAt(t, b).vin;
    ReachedParts(r, t, disk, b);
    hide Reached, IndexBelow, InputsFrom, Allowed, Presents, AllFound, InputsConnectable, OwnFiles, Below, AllInRange, TxAt;
    if AllFound(s, map[], true, vin) {
      var from := FoundBelow(r.tx, t, s, b, |vin|, fCheckSigs);
      AllPresented(r, t, disk, b, from);
      ConnectableIff(r.tx, t, b, from, InputsFrom(s, vin), fCheckSigs);
    }
    if from :| Allowed(r.tx, t, b, from, fCheckSigs) {
      AllowedFrom(r.tx, t, b, from, fCheckSigs);
      AllPresented(r, t, disk, b, from);
      ConnectableIff(r.tx, t, b, from, InputsFrom(s, vin), fCheckSigs);
    }
  }

  lemma AllowedFrom(r: Rules, t: Tree, b: Place, from: seq<Place>, fCheckSigs: bool)
    requires t.Valid() && b.block in t.nodes && b.k < |t.nodes[b.block].block.vtx| && Allowed(r, t, b, from, fCheckSigs)
    ensures |from| == |TxAt(t, b).vin|
    ensures forall i :: 0 <= i < |from| ==> Below(t, from[i], b) && TxAt(t, from[i]).hash == TxAt(t, b).vin[i].prevout.hash
  {
    hide SpentBelow, WorthOfFirst, Below;
  }
}
