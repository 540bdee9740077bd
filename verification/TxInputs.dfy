/** The transaction index and the two functions that read and spend it: FetchInputs and ConnectInputs (src/main.cpp). */
module TxInputs {
  import opened Wrappers
  import opened Transactions
  import opened BlockTree

  /** A position on disk. NullPos is CDiskTxPos().IsNull(); the special mark (1,1,1) means "look in the memory pool". */
  datatype DiskTxPos = NullPos | DiskTxPos(nFile: nat, nBlockPos: nat, nTxPos: nat)

  const MEMPOOL_POS := DiskTxPos(1, 1, 1)

  /** CTxIndex: where a transaction is, and which transaction spends each of its outputs. */
  datatype TxIndex = TxIndex(pos: DiskTxPos, vSpent: seq<DiskTxPos>)

  type Index = map<Hash, TxIndex>

  /** CTxIndex(pos, nOutputs): a freshly indexed transaction with nothing spent. */
  function Fresh(pos: DiskTxPos, nOutputs: nat): TxIndex {
    TxIndex(pos, seq(nOutputs, _ => NullPos))
  }

  predicate InRange(ix: Index, op: OutPoint) {
    op.hash in ix && op.n < |ix[op.hash].vSpent|
  }

  /** The outpoint exists and its vSpent slot is null. */
  predicate Unspent(ix: Index, op: OutPoint) {
    InRange(ix, op) && ix[op.hash].vSpent[op.n] == NullPos
  }

  /** The entry of transaction h with the slots of the outpoints in `ops` set to `v`. */
  function MarkEntry(e: TxIndex, h: Hash, ops: set<OutPoint>, v: DiskTxPos): TxIndex {
    e.(vSpent := seq(|e.vSpent|, n requires 0 <= n < |e.vSpent| => if OutPoint(h, n) in ops then v else e.vSpent[n]))
  }

  /** The index with the slots of the outpoints in `ops` set to `v`, and nothing else changed. */
  function Mark(ix: Index, ops: set<OutPoint>, v: DiskTxPos): Index {
    map h | h in ix :: MarkEntry(ix[h], h, ops, v)
  }

  lemma MarkNothing(ix: Index, v: DiskTxPos)
    ensures Mark(ix, {}, v) == ix
  {
    forall h | h in ix
      ensures MarkEntry(ix[h], h, {}, v) == ix[h]
    {
      assert MarkEntry(ix[h], h, {}, v).vSpent == ix[h].vSpent;
    }
  }

  /** Writing one slot on top of a batch is marking the larger batch. */
  lemma MarkOneMore(ix: Index, ops: set<OutPoint>, op: OutPoint, v: DiskTxPos)
    requires InRange(ix, op)
    ensures InRange(Mark(ix, ops, v), op)
    ensures var e := Mark(ix, ops, v)[op.hash];
            Mark(ix, ops + {op}, v) == Mark(ix, ops, v)[op.hash := e.(vSpent := e.vSpent[op.n := v])]
  {
    var m := Mark(ix, ops, v);
    var e := m[op.hash];
    var r := m[op.hash := e.(vSpent := e.vSpent[op.n := v])];
    forall h | h in ix
      ensures MarkEntry(ix[h], h, ops + {op}, v) == r[h]
    {
      assert MarkEntry(ix[h], h, ops + {op}, v).vSpent == r[h].vSpent;
    }
  }

  /** The databases FetchInputs reads: the transaction index, the block files and the memory pool. */
  datatype Store = Store(txdb: Index, disk: map<DiskTxPos, Tx>, mapTx: map<Hash, Tx>)

  /** Settings and functions this model does not look into. */
  datatype Rules = Rules(
    nBeanbaseMaturity: nat,
    nBlocksEstimate: nat,                      // Checkpoints::GetTotalBlocksEstimate()
    verifySignature: (Tx, Tx, nat) -> bool,    // VerifySignature(txPrev, tx, i, 0)
    p2shSigOps: (TxOut, TxIn) -> nat)          // sigops of a pay-to-script-hash input, 0 otherwise

  /** The index entry FetchInputs uses for the previous transaction h. */
  function FetchEntry(s: Store, testPool: Index, pooled: bool, h: Hash): Option<TxIndex> {
    if pooled && h in testPool then Some(testPool[h])
    else if h in s.txdb then Some(s.txdb[h])
    else None
  }

  /** The index entry and transaction FetchInputs returns for the previous transaction h, if it can find them. */
  function Fetch(s: Store, testPool: Index, pooled: bool, h: Hash): Option<(TxIndex, Tx)> {
    var found := FetchEntry(s, testPool, pooled, h);
    if found == None && pooled then None
    else if found == None || found.value.pos == MEMPOOL_POS then
      if h !in s.mapTx then None
      else Some((if found == None then Fresh(NullPos, |s.mapTx[h].vout|) else found.value, s.mapTx[h]))
    else if found.value.pos !in s.disk then None
    else Some((found.value, s.disk[found.value.pos]))
  }

  predicate PrevoutInRange(inputs: map<Hash, (TxIndex, Tx)>, op: OutPoint) {
    op.hash in inputs && op.n < |inputs[op.hash].1.vout| && op.n < |inputs[op.hash].0.vSpent|
  }

  function PrevHashes(vin: seq<TxIn>): (s: set<Hash>)
    ensures forall i :: 0 <= i < |vin| ==> vin[i].prevout.hash in s
  {
    set i | 0 <= i < |vin| :: vin[i].prevout.hash
  }

  predicate AllFound(s: Store, testPool: Index, pooled: bool, vin: seq<TxIn>) {
    forall i :: 0 <= i < |vin| ==> Fetch(s, testPool, pooled, vin[i].prevout.hash).Some?
  }

  function Fetched(s: Store, testPool: Index, pooled: bool, vin: seq<TxIn>): (m: map<Hash, (TxIndex, Tx)>)
    requires AllFound(s, testPool, pooled, vin)
    ensures m.Keys == PrevHashes(vin)
  {
    map h | h in PrevHashes(vin) :: Fetch(s, testPool, pooled, h).value
  }

  predicate AllInRange(inputs: map<Hash, (TxIndex, Tx)>, vin: seq<TxIn>) {
    forall i :: 0 <= i < |vin| ==> PrevoutInRange(inputs, vin[i].prevout)
  }

  /** FetchInputs on one previous transaction: read its index entry, then the transaction itself. */
  method FetchOne(s: Store, testPool: Index, pooled: bool, h: Hash)
    returns (ok: bool, txindex: TxIndex, txPrev: Tx)
    ensures ok <==> Fetch(s, testPool, pooled, h).Some?
    ensures ok ==> Fetch(s, testPool, pooled, h).value == (txindex, txPrev)
  {
    txindex, txPrev := TxIndex(NullPos, []), Tx(0, 0, [], [], 0, 0);
    var fFound := true;
    if pooled && h in testPool {
      txindex := testPool[h];
    } else {
      fFound := h in s.txdb;
      if fFound {
        txindex := s.txdb[h];
      }
    }
    if !fFound && pooled {
      return false, txindex, txPrev;
    }
    if !fFound || txindex.pos == MEMPOOL_POS {
      if h !in s.mapTx {
        return false, txindex, txPrev;
      }
      txPrev := s.mapTx[h];
      if !fFound {
        txindex := Fresh(NullPos, |txPrev.vout|);
      }
    } else {
      if txindex.pos !in s.disk {
        return false, txindex, txPrev;
      }
      txPrev := s.disk[txindex.pos];
    }
    return true, txindex, txPrev;
  }

  /** The first loop of FetchInputs: find every previous transaction once. */
  method FindInputs(s: Store, testPool: Index, pooled: bool, vin: seq<TxIn>)
    returns (ok: bool, inputs: map<Hash, (TxIndex, Tx)>)
    ensures ok <==> AllFound(s, testPool, pooled, vin)
    ensures ok ==> inputs == Fetched(s, testPool, pooled, vin)
  {
    inputs := map[];
    for i := 0 to |vin|
      invariant forall k :: 0 <= k < i ==> Fetch(s, testPool, pooled, vin[k].prevout.hash).Some?
      invariant forall k :: 0 <= k < i ==> vin[k].prevout.hash in inputs
      invariant forall h :: h in inputs ==> h in PrevHashes(vin)
      invariant forall h :: h in inputs ==> Fetch(s, testPool, pooled, h) == Some(inputs[h])
    {
      var h := vin[i].prevout.hash;
      if h !in inputs {
        var found, txindex, txPrev := FetchOne(s, testPool, pooled, h);
        if !found {
          return false, inputs;
        }
        inputs := inputs[h := (txindex, txPrev)];
      }
    }
    forall h | h in PrevHashes(vin)
      ensures h in inputs
    {
      var k :| 0 <= k < |vin| && vin[k].prevout.hash == h;
    }
    assert forall h :: h in inputs <==> h in PrevHashes(vin);
    assert inputs == Fetched(s, testPool, pooled, vin);
    return true, inputs;
  }

  /** CTransaction::FetchInputs. It succeeds when every previous transaction is found and has the wanted output;
      fInvalid distinguishes a missing output from a missing transaction. */
  method FetchInputs(s: Store, testPool: Index, tx: Tx, fBlock: bool, fMiner: bool)
    returns (ok: bool, inputs: map<Hash, (TxIndex, Tx)>, fInvalid: bool)
    ensures !tx.IsBeanBase() ==>
              var pooled := fBlock || fMiner;
              && (ok <==> AllFound(s, testPool, pooled, tx.vin) && AllInRange(Fetched(s, testPool, pooled, tx.vin), tx.vin))
              && (fInvalid <==> AllFound(s, testPool, pooled, tx.vin) && !AllInRange(Fetched(s, testPool, pooled, tx.vin), tx.vin))
              && (ok ==> inputs == Fetched(s, testPool, pooled, tx.vin))
    ensures tx.IsBeanBase() ==> ok && inputs == map[] && !fInvalid
  {
    fInvalid := false;
    inputs := map[];
    if tx.IsBeanBase() {
      return true, inputs, fInvalid;
    }
    ok, inputs := FindInputs(s, testPool, fBlock || fMiner, tx.vin);
    if !ok {
      return;
    }
    for i := 0 to |tx.vin|
      invariant forall k :: 0 <= k < i ==> PrevoutInRange(inputs, tx.vin[k].prevout)
    {
      if !PrevoutInRange(inputs, tx.vin[i].prevout) {
        return false, inputs, true;
      }
    }
  }

  /** GetOutputFor(txin).nValue. */
  function PrevValue(inputs: map<Hash, (TxIndex, Tx)>, op: OutPoint): int {
    if op.hash in inputs && op.n < |inputs[op.hash].1.vout| then inputs[op.hash].1.vout[op.n].nValue else 0
  }

  /** CTransaction::GetValueIn on the first i inputs. */
  function ValueIn(inputs: map<Hash, (TxIndex, Tx)>, vin: seq<TxIn>): int {
    if vin == [] then 0
    else ValueIn(inputs, vin[..|vin| - 1]) + PrevValue(inputs, vin[|vin| - 1].prevout)
  }

  /** The block at which a beanbase or beansprout output is confirmed is too close below `b`. */
  ghost predicate Immature(t: Tree, b: Hash, nMaturity: nat, pos: DiskTxPos)
    requires t.Valid() && b in t.nodes
  {
    exists a :: t.Ancestor(a, b) && AtDepthBelow(t, a, b, nMaturity) && LocatedIn(t, a, pos)
  }

  predicate AtDepthBelow(t: Tree, a: Hash, b: Hash, nMaturity: nat) {
    a in t.nodes && b in t.nodes && t.nodes[b].nHeight - t.nodes[a].nHeight < nMaturity
  }

  predicate LocatedIn(t: Tree, a: Hash, pos: DiskTxPos) {
    a in t.nodes && pos.DiskTxPos? && t.nodes[a].nBlockPos == pos.nBlockPos && t.nodes[a].nFile == pos.nFile
  }

  /** The position lies in h or in an ancestor of h above height k. */
  predicate FoundAbove(t: Tree, h: Hash, k: int, pos: DiskTxPos)
    requires t.Valid() && h in t.nodes
    decreases t.nodes[h].nHeight
  {
    t.nodes[h].nHeight > k && (LocatedIn(t, h, pos) || (h != t.genesis && FoundAbove(t, t.nodes[h].pprev.value, k, pos)))
  }

  lemma {:induction false} FoundAboveIsAncestor(t: Tree, h: Hash, k: int, pos: DiskTxPos)
    requires t.Valid() && h in t.nodes
    ensures FoundAbove(t, h, k, pos) <==> exists a :: t.Ancestor(a, h) && a in t.nodes && t.nodes[a].nHeight > k && LocatedIn(t, a, pos)
    decreases t.nodes[h].nHeight
  {
    AncestorSelf(t, h);
    if h != t.genesis {
      var p := t.nodes[h].pprev.value;
      FoundAboveIsAncestor(t, p, k, pos);
      StepToParent(t, h, h);
      if FoundAbove(t, p, k, pos) {
        var a :| t.Ancestor(a, p) && a in t.nodes && t.nodes[a].nHeight > k && LocatedIn(t, a, pos);
        AncestorHeight(t, a, p);
        assert t.Ancestor(a, h);
      }
    }
  }

  lemma FoundMeansImmature(t: Tree, b: Hash, nMaturity: nat, pos: DiskTxPos)
    requires t.Valid() && b in t.nodes
    ensures FoundAbove(t, b, t.nodes[b].nHeight - nMaturity, pos) <==> Immature(t, b, nMaturity, pos)
  {
    var k := t.nodes[b].nHeight - nMaturity;
    FoundAboveIsAncestor(t, b, k, pos);
    assert forall a :: a in t.nodes ==> (AtDepthBelow(t, a, b, nMaturity) <==> t.nodes[a].nHeight > k);
  }

  /** ConnectInputs' walk from the block being connected down to the maturity depth. */
  method CheckMature(t: Tree, pindexBlock: Hash, nMaturity: nat, pos: DiskTxPos) returns (ok: bool)
    requires t.Valid() && pindexBlock in t.nodes
    ensures ok <==> !Immature(t, pindexBlock, nMaturity, pos)
  {
    ghost var k := t.nodes[pindexBlock].nHeight - nMaturity;
    FoundMeansImmature(t, pindexBlock, nMaturity, pos);
    hide Immature;
    var pindex := Some(pindexBlock);
    while pindex.Some? && t.nodes[pindexBlock].nHeight - t.nodes[pindex.value].nHeight < nMaturity
      invariant pindex.Some? ==> pindex.value in t.nodes
      invariant FoundAbove(t, pindexBlock, k, pos) <==> pindex.Some? && FoundAbove(t, pindex.value, k, pos)
      decreases if pindex.Some? then t.nodes[pindex.value].nHeight + 1 else 0
    {
      if LocatedIn(t, pindex.value, pos) {
        return false;
      }
      pindex := t.nodes[pindex.value].pprev;
    }
    return true;
  }

  /** Everything ConnectInputs asks of one input before any signature is checked. */
  ghost predicate InputSane(r: Rules, t: Tree, b: Hash, inputs: map<Hash, (TxIndex, Tx)>, tx: Tx, i: nat)
    requires t.Valid() && b in t.nodes && i < |tx.vin|
  {
    var op := tx.vin[i].prevout;
    && PrevoutInRange(inputs, op)
    && (inputs[op.hash].1.IsBeanBase() || inputs[op.hash].1.IsBeanStake() ==>
          !Immature(t, b, r.nBeanbaseMaturity, inputs[op.hash].0.pos))
    && inputs[op.hash].1.nTime <= tx.nTime
    && MoneyRange(PrevValue(inputs, op))
    && MoneyRange(ValueIn(inputs, tx.vin[..i + 1]))
  }

  ghost predicate InputsSane(r: Rules, t: Tree, b: Hash, inputs: map<Hash, (TxIndex, Tx)>, tx: Tx)
    requires t.Valid() && b in t.nodes
  {
    forall i :: 0 <= i < |tx.vin| ==> InputSane(r, t, b, inputs, tx, i)
  }

  /** All outpoints the transaction spends are unspent, and it spends none twice. */
  predicate NoDoubleSpend(inputs: map<Hash, (TxIndex, Tx)>, vin: seq<TxIn>)
    requires AllInRange(inputs, vin)
  {
    && DistinctPrevouts(vin)
    && forall i :: 0 <= i < |vin| ==> inputs[vin[i].prevout.hash].0.vSpent[vin[i].prevout.n] == NullPos
  }

  predicate SignaturesValid(r: Rules, inputs: map<Hash, (TxIndex, Tx)>, tx: Tx)
    requires AllInRange(inputs, tx.vin)
  {
    forall i :: 0 <= i < |tx.vin| ==> r.verifySignature(inputs[tx.vin[i].prevout.hash].1, tx, i)
  }

  /** A transaction that is not a beanstake pays at least the minimum fee out of its inputs. */
  predicate PaysFee(inputs: map<Hash, (TxIndex, Tx)>, tx: Tx) {
    !tx.IsBeanStake() ==>
      var nTxFee := ValueIn(inputs, tx.vin) - SumOut(tx.vout);
      0 <= nTxFee && GetMinFee(tx, 1) <= nTxFee && MoneyRange(nTxFee)
  }

  /** What ConnectInputs accepts. fBlock below the checkpoint estimate skips the signatures. */
  ghost predicate InputsConnectable(r: Rules, t: Tree, b: Hash, inputs: map<Hash, (TxIndex, Tx)>, tx: Tx, fCheckSigs: bool)
    requires t.Valid() && b in t.nodes
  {
    !tx.IsBeanBase() ==>
      && InputsSane(r, t, b, inputs, tx)
      && AllInRange(inputs, tx.vin)
      && NoDoubleSpend(inputs, tx.vin)
      && (fCheckSigs ==> SignaturesValid(r, inputs, tx))
      && PaysFee(inputs, tx)
  }

  function Entries(inputs: map<Hash, (TxIndex, Tx)>): Index {
    map h | h in inputs :: inputs[h].0
  }

  /** The fetched entries with every spent outpoint marked, as ConnectInputs writes them back. */
  function MarkFetched(inputs: map<Hash, (TxIndex, Tx)>, ops: set<OutPoint>, v: DiskTxPos): Index {
    map h | h in inputs :: MarkEntry(inputs[h].0, h, ops, v)
  }

  /** The body of the first loop of ConnectInputs on input i. */
  method CheckInputSane(r: Rules, t: Tree, pindexBlock: Hash, inputs: map<Hash, (TxIndex, Tx)>, tx: Tx, i: nat, nValueIn: int)
    returns (ok: bool, nValueIn': int)
    requires t.Valid() && pindexBlock in t.nodes && i < |tx.vin| && nValueIn == ValueIn(inputs, tx.vin[..i])
    ensures ok <==> InputSane(r, t, pindexBlock, inputs, tx, i)
    ensures ok ==> nValueIn' == ValueIn(inputs, tx.vin[..i + 1])
  {
    nValueIn' := nValueIn;
    var op := tx.vin[i].prevout;
    assert tx.vin[..i + 1][..i] == tx.vin[..i];
    if !PrevoutInRange(inputs, op) {
      return false, nValueIn';
    }
    var txPrev := inputs[op.hash].1;
    if txPrev.IsBeanBase() || txPrev.IsBeanStake() {
      var mature := CheckMature(t, pindexBlock, r.nBeanbaseMaturity, inputs[op.hash].0.pos);
      if !mature {
        return false, nValueIn';
      }
    }
    if txPrev.nTime > tx.nTime {
      return false, nValueIn';
    }
    nValueIn' := nValueIn' + txPrev.vout[op.n].nValue;
    if !MoneyRange(txPrev.vout[op.n].nValue) || !MoneyRange(nValueIn') {
      return false, nValueIn';
    }
    return true, nValueIn';
  }

  /** The first loop of ConnectInputs: the inexpensive checks. */
  method CheckInputsSane(r: Rules, t: Tree, pindexBlock: Hash, inputs: map<Hash, (TxIndex, Tx)>, tx: Tx)
    returns (ok: bool, nValueIn: int)
    requires t.Valid() && pindexBlock in t.nodes
    ensures ok <==> InputsSane(r, t, pindexBlock, inputs, tx)
    ensures ok ==> nValueIn == ValueIn(inputs, tx.vin)
  {
    nValueIn := 0;
    var i := 0;
    while i < |tx.vin|
      invariant 0 <= i <= |tx.vin|
      invariant forall k :: 0 <= k < i ==> InputSane(r, t, pindexBlock, inputs, tx, k)
      invariant nValueIn == ValueIn(inputs, tx.vin[..i])
    {
      ok, nValueIn := CheckInputSane(r, t, pindexBlock, inputs, tx, i, nValueIn);
      if !ok {
        return;
      }
      i := i + 1;
    }
    assert tx.vin[..|tx.vin|] == tx.vin;
    return true, nValueIn;
  }

  /** The first i inputs of tx pass the checks of the spending loop. */
  predicate SpendableUpTo(r: Rules, inputs: map<Hash, (TxIndex, Tx)>, tx: Tx, i: nat, fCheckSigs: bool)
    requires i <= |tx.vin| && AllInRange(inputs, tx.vin)
  {
    && NoDoubleSpend(inputs, tx.vin[..i])
    && (fCheckSigs ==> forall k :: 0 <= k < i ==> r.verifySignature(inputs[tx.vin[k].prevout.hash].1, tx, k))
  }

  lemma NoDoubleSpendOneMore(inputs: map<Hash, (TxIndex, Tx)>, vin: seq<TxIn>, txin: TxIn)
    requires AllInRange(inputs, vin + [txin]) && AllInRange(inputs, vin)
    ensures PrevoutInRange(inputs, txin.prevout)
    ensures NoDoubleSpend(inputs, vin + [txin]) <==>
            && NoDoubleSpend(inputs, vin) && txin.prevout !in Prevouts(vin)
            && inputs[txin.prevout.hash].0.vSpent[txin.prevout.n] == NullPos
  {
    var all := vin + [txin];
    assert all[|vin|] == txin;
    assert forall k :: 0 <= k < |vin| ==> all[k] == vin[k];
  }

  /** One turn of the spending loop, on the index entries: the slot shows whether the outpoint was spent before or
      earlier in this transaction. */
  lemma MarkStep(entries: Index, vin: seq<TxIn>, txin: TxIn, v: DiskTxPos)
    requires InRange(entries, txin.prevout) && v != NullPos
    ensures var op, m := txin.prevout, Mark(entries, Prevouts(vin), v);
            && InRange(m, op)
            && (m[op.hash].vSpent[op.n] == NullPos <==> entries[op.hash].vSpent[op.n] == NullPos && op !in Prevouts(vin))
            && Mark(entries, Prevouts(vin + [txin]), v) == m[op.hash := m[op.hash].(vSpent := m[op.hash].vSpent[op.n := v])]
    ensures PrevHashes(vin + [txin]) == PrevHashes(vin) + {txin.prevout.hash}
  {
    MarkOneMore(entries, Prevouts(vin), txin.prevout, v);
    var all := vin + [txin];
    assert all[|vin|] == txin;
    assert forall k :: 0 <= k < |vin| ==> all[k] == vin[k];
    assert Prevouts(vin + [txin]) == Prevouts(vin) + {txin.prevout};
  }

  /** One turn of the spending loop: the mutated entries show a double spend exactly when there is one. */
  lemma SpendStep(r: Rules, inputs: map<Hash, (TxIndex, Tx)>, tx: Tx, i: nat, fCheckSigs: bool, v: DiskTxPos)
    requires i < |tx.vin| && AllInRange(inputs, tx.vin) && v != NullPos
    ensures var op, m := tx.vin[i].prevout, Mark(Entries(inputs), Prevouts(tx.vin[..i]), v);
            && InRange(m, op)
            && (SpendableUpTo(r, inputs, tx, i, fCheckSigs) ==>
                 (SpendableUpTo(r, inputs, tx, i + 1, fCheckSigs) <==>
                   && m[op.hash].vSpent[op.n] == NullPos
                   && (fCheckSigs ==> r.verifySignature(inputs[op.hash].1, tx, i))))
            && Mark(Entries(inputs), Prevouts(tx.vin[..i + 1]), v)
               == m[op.hash := m[op.hash].(vSpent := m[op.hash].vSpent[op.n := v])]
    ensures PrevHashes(tx.vin[..i + 1]) == PrevHashes(tx.vin[..i]) + {tx.vin[i].prevout.hash}
  {
    assert tx.vin[..i + 1] == tx.vin[..i] + [tx.vin[i]];
    NoDoubleSpendOneMore(inputs, tx.vin[..i], tx.vin[i]);
    MarkStep(Entries(inputs), tx.vin[..i], tx.vin[i], v);
  }

  lemma SpendablePrefix(r: Rules, inputs: map<Hash, (TxIndex, Tx)>, tx: Tx, i: nat, fCheckSigs: bool)
    requires i <= |tx.vin| && AllInRange(inputs, tx.vin) && NoDoubleSpend(inputs, tx.vin)
    requires fCheckSigs ==> SignaturesValid(r, inputs, tx)
    ensures SpendableUpTo(r, inputs, tx, i, fCheckSigs)
  {
  }

  /** Pending changes with the entries of the hashes in hs written over them. */
  function Overlay(pool: Index, entries: Index, hs: set<Hash>): Index {
    pool + map h | h in hs && h in entries :: entries[h]
  }

  /** The body of the spending loop on input i: refuse a double spend, check the signature, mark the outpoint and
      write the changed entry back. */
  method SpendInput(r: Rules, inputs: map<Hash, (TxIndex, Tx)>, entries: Index, mapTestPool: Index, tx: Tx, i: nat,
                    posThisTx: DiskTxPos, fCheckSigs: bool, fWriteBack: bool)
    returns (ok: bool, entries': Index, testPool: Index)
    requires i < |tx.vin| && InRange(entries, tx.vin[i].prevout) && tx.vin[i].prevout.hash in inputs
    ensures var op := tx.vin[i].prevout;
            && (ok <==> entries[op.hash].vSpent[op.n] == NullPos
                        && (fCheckSigs ==> r.verifySignature(inputs[op.hash].1, tx, i)))
            && (ok ==> entries' == entries[op.hash := entries[op.hash].(vSpent := entries[op.hash].vSpent[op.n := posThisTx])])
            && (ok ==> testPool == if fWriteBack then mapTestPool[op.hash := entries'[op.hash]] else mapTestPool)
  {
    entries', testPool := entries, mapTestPool;
    var op := tx.vin[i].prevout;
    var txindex := entries[op.hash];
    if txindex.vSpent[op.n] != NullPos {
      return false, entries', testPool;
    }
    if fCheckSigs {
      if !r.verifySignature(inputs[op.hash].1, tx, i) {
        return false, entries', testPool;
      }
    }
    txindex := txindex.(vSpent := txindex.vSpent[op.n := posThisTx]);
    entries' := entries'[op.hash := txindex];
    if fWriteBack {
      testPool := testPool[op.hash := txindex];
    }
    return true, entries', testPool;
  }

  /** The second loop of ConnectInputs. */
  method SpendInputs(r: Rules, inputs: map<Hash, (TxIndex, Tx)>, mapTestPool: Index, tx: Tx, posThisTx: DiskTxPos,
                     fCheckSigs: bool, fWriteBack: bool)
    returns (ok: bool, testPool: Index)
    requires AllInRange(inputs, tx.vin) && inputs.Keys == PrevHashes(tx.vin) && posThisTx != NullPos
    ensures ok <==> NoDoubleSpend(inputs, tx.vin) && (fCheckSigs ==> SignaturesValid(r, inputs, tx))
    ensures ok ==> testPool == if fWriteBack
                               then Overlay(mapTestPool, Mark(Entries(inputs), Prevouts(tx.vin), posThisTx), PrevHashes(tx.vin))
                               else mapTestPool
  {
    testPool := mapTestPool;
    var entries := Entries(inputs);
    SpendStart(r, inputs, mapTestPool, tx, fCheckSigs, posThisTx);
    var i := 0;
    while i < |tx.vin|
      invariant 0 <= i <= |tx.vin|
      invariant entries == Mark(Entries(inputs), Prevouts(tx.vin[..i]), posThisTx)
      invariant SpendableUpTo(r, inputs, tx, i, fCheckSigs)
      invariant testPool == if fWriteBack then Overlay(mapTestPool, entries, PrevHashes(tx.vin[..i])) else mapTestPool
    {
      SpendStep(r, inputs, tx, i, fCheckSigs, posThisTx);
      ghost var was := entries;
      ok, entries, testPool := SpendInput(r, inputs, entries, testPool, tx, i, posThisTx, fCheckSigs, fWriteBack);
      if !ok {
        if NoDoubleSpend(inputs, tx.vin) && (fCheckSigs ==> SignaturesValid(r, inputs, tx)) {
          SpendablePrefix(r, inputs, tx, i + 1, fCheckSigs);
        }
        return false, testPool;
      }
      OverlayStep(mapTestPool, was, entries, PrevHashes(tx.vin[..i]), tx.vin[i].prevout.hash);
      i := i + 1;
    }
    return true, testPool;
  }

  lemma SpendStart(r: Rules, inputs: map<Hash, (TxIndex, Tx)>, pool: Index, tx: Tx, fCheckSigs: bool, v: DiskTxPos)
    requires AllInRange(inputs, tx.vin) && inputs.Keys == PrevHashes(tx.vin)
    ensures Mark(Entries(inputs), Prevouts(tx.vin[..0]), v) == Entries(inputs)
    ensures SpendableUpTo(r, inputs, tx, 0, fCheckSigs)
    ensures Overlay(pool, Entries(inputs), PrevHashes(tx.vin[..0])) == pool
    ensures tx.vin[..|tx.vin|] == tx.vin
  {
    assert Prevouts(tx.vin[..0]) == {};
    MarkNothing(Entries(inputs), v);
  }

  lemma OverlayStep(pool: Index, entries: Index, entries': Index, hs: set<Hash>, h: Hash)
    requires h in entries && h in entries' && entries' == entries[h := entries'[h]]
    ensures Overlay(pool, entries', hs + {h}) == Overlay(pool, entries, hs)[h := entries'[h]]
  {
  }

  lemma OverlayAll(inputs: map<Hash, (TxIndex, Tx)>, pool: Index, vin: seq<TxIn>, v: DiskTxPos)
    requires inputs.Keys == PrevHashes(vin)
    ensures Overlay(pool, Mark(Entries(inputs), Prevouts(vin), v), PrevHashes(vin)) == pool + MarkFetched(inputs, Prevouts(vin), v)
  {
    assert Mark(Entries(inputs), Prevouts(vin), v) == MarkFetched(inputs, Prevouts(vin), v);
  }

  /** CTransaction::ConnectInputs. */
  method ConnectInputs(r: Rules, t: Tree, pindexBlock: Hash, nBestHeight: int, inputs: map<Hash, (TxIndex, Tx)>,
                       mapTestPool: Index, tx: Tx, posThisTx: DiskTxPos, fBlock: bool, fMiner: bool)
    returns (ok: bool, testPool: Index)
    requires t.Valid() && pindexBlock in t.nodes && posThisTx != NullPos
    requires !tx.IsBeanBase() ==> inputs.Keys == PrevHashes(tx.vin)
    ensures ok <==> InputsConnectable(r, t, pindexBlock, inputs, tx, !(fBlock && nBestHeight < r.nBlocksEstimate))
    ensures ok ==> testPool == if !tx.IsBeanBase() && (fBlock || fMiner)
                               then mapTestPool + MarkFetched(inputs, Prevouts(tx.vin), posThisTx) else mapTestPool
  {
    hide NoDoubleSpend, InputsSane, SignaturesValid, MarkFetched;
    testPool := mapTestPool;
    if tx.IsBeanBase() {
      return true, testPool;
    }
    var nValueIn;
    ok, nValueIn := CheckInputsSane(r, t, pindexBlock, inputs, tx);
    if !ok {
      return false, testPool;
    }
    SaneInRange(r, t, pindexBlock, inputs, tx);
    ok, testPool := SpendInputs(r, inputs, mapTestPool, tx, posThisTx,
                                !(fBlock && nBestHeight < r.nBlocksEstimate), fBlock || fMiner);
    if !ok {
      return false, testPool;
    }
    OverlayAll(inputs, mapTestPool, tx.vin, posThisTx);
    ok := CheckFee(tx, nValueIn);
  }

  /** The fee checks at the end of ConnectInputs. */
  method CheckFee(tx: Tx, nValueIn: int) returns (ok: bool)
    ensures ok <==> !tx.IsBeanStake() ==>
                      var nTxFee := nValueIn - SumOut(tx.vout);
                      0 <= nTxFee && GetMinFee(tx, 1) <= nTxFee && MoneyRange(nTxFee)
  {
    if !tx.IsBeanStake() {
      var nValueOut := SumOut(tx.vout);
      if nValueIn < nValueOut {
        return false;
      }
      var nTxFee := nValueIn - nValueOut;
      if nTxFee < GetMinFee(tx, 1) {
        return false;
      }
      if !MoneyRange(nTxFee) {
        return false;
      }
    }
    return true;
  }

  lemma SaneInRange(r: Rules, t: Tree, b: Hash, inputs: map<Hash, (TxIndex, Tx)>, tx: Tx)
    requires t.Valid() && b in t.nodes && InputsSane(r, t, b, inputs, tx)
    ensures AllInRange(inputs, tx.vin)
  {
    forall i | 0 <= i < |tx.vin|
      ensures PrevoutInRange(inputs, tx.vin[i].prevout)
    {
      assert InputSane(r, t, b, inputs, tx, i);
    }
  }
}
