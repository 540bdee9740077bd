/** What connecting the blocks of a branch guarantees about their transactions, told by blocks, heights and txids (src/main.cpp).
    Genesis is never connected, so its own transactions are not among them. */
module BranchLaws {
  import opened Wrappers
  import opened Transactions
  import opened BlockTree
  import opened TxInputs
  import opened BlockConnection
  import opened BlockUndo
  import opened MoneySupply
  import opened Replay

  /** Transaction k of a block. */
  datatype Place = Place(block: Hash, k: nat)

  /** The place is in a block of tip's branch. */
  ghost predicate OnBranch(t: Tree, tip: Hash, a: Place)
    requires t.Valid() && tip in t.nodes
  {
    t.Ancestor(a.block, tip) && a.block in t.nodes && a.block != t.genesis && a.k < |t.nodes[a.block].block.vtx|
  }

  function TxAt(t: Tree, a: Place): Tx
    requires a.block in t.nodes && a.k < |t.nodes[a.block].block.vtx|
  {
    t.nodes[a.block].block.vtx[a.k]
  }

  function HeightOf(t: Tree, a: Place): nat
    requires a.block in t.nodes
  {
    t.nodes[a.block].nHeight
  }

  predicate Before(t: Tree, a: Place, b: Place)
    requires a.block in t.nodes && b.block in t.nodes
  {
    HeightOf(t, a) < HeightOf(t, b) || (a.block == b.block && a.k < b.k)
  }

  /** A branch all of whose blocks connect, with its files. */
  ghost predicate Connected(r: BlockRules, t: Tree, disk: Disk, tip: Hash) {
    t.Valid() && tip in t.nodes && TreeAccepted(t, disk) && HashesIdentify(disk) && BranchGood(r, t, disk, tip)
  }

  lemma {:induction false} ConnectedDown(r: BlockRules, t: Tree, disk: Disk, tip: Hash, b: Hash)
    requires Connected(r, t, disk, tip) && t.Ancestor(b, tip) && b in t.nodes
    ensures Connected(r, t, disk, b)
    decreases t.nodes[tip].nHeight
  {
    hide BlockGood, TreeAccepted, HashesIdentify;
    if b != tip {
      ConnectedDown(r, t, disk, t.nodes[tip].pprev.value, b);
    }
  }

  // ------------------------------------------------------------------ where indexed transactions are

  /** Below a place: the index its transaction is connected on. */
  ghost function IndexBelow(t: Tree, a: Place): Index
    requires t.Valid() && a.block in t.nodes && a.block != t.genesis && a.k <= |t.nodes[a.block].block.vtx|
  {
    ConnectTxs(ReplayIndex(t, t.nodes[a.block].pprev.value), t.nodes[a.block], a.k)
  }

  /** An entry points to the transaction of the block that made it, or is the old one. */
  lemma {:induction false} EntryInBlock(ix: Index, node: BlockIndex, k: nat, h: Hash) returns (j: nat)
    requires k <= |node.block.vtx| && h in ConnectTxs(ix, node, k)
    ensures j <= k
    ensures j < k ==> node.block.vtx[j].hash == h && ConnectTxs(ix, node, k)[h].pos == TxPos(node, j)
    ensures j == k ==> h in ix && ConnectTxs(ix, node, k)[h].pos == ix[h].pos
  {
    hide TxPos;
    if k == 0 {
      j := 0;
    } else if node.block.vtx[k - 1].hash == h {
      j := k - 1;
    } else {
      j := EntryInBlock(ix, node, k - 1, h);
      if j == k - 1 {
        j := k;
      }
    }
  }

  /** What is indexed when the blocks up to tip are connected is a transaction of the branch. */
  lemma {:induction false} EntryOnBranch(t: Tree, tip: Hash, h: Hash) returns (a: Place)
    requires t.Valid() && tip in t.nodes && h in ReplayIndex(t, tip)
    ensures OnBranch(t, tip, a) && TxAt(t, a).hash == h && ReplayIndex(t, tip)[h].pos == TxPos(t.nodes[a.block], a.k)
    decreases t.nodes[tip].nHeight
  {
    hide ConnectTxs, TxPos;
    var p, node := t.nodes[tip].pprev.value, t.nodes[tip];
    AncestorSelf(t, tip);
    var k := |node.block.vtx|;
    var j := EntryInBlock(ReplayIndex(t, p), node, k, h);
    if j < k {
      a := Place(tip, j);
    } else {
      a := EntryOnBranch(t, p, h);
    }
  }

  lemma EntryBelow(t: Tree, b: Place, h: Hash) returns (a: Place)
    requires t.Valid() && b.block in t.nodes && b.block != t.genesis && b.k <= |t.nodes[b.block].block.vtx| && h in IndexBelow(t, b)
    ensures OnBranch(t, b.block, a) && Before(t, a, b)
    ensures TxAt(t, a).hash == h && IndexBelow(t, b)[h].pos == TxPos(t.nodes[a.block], a.k)
  {
    hide ConnectTxs, TxPos, ReplayIndex;
    var p, node := t.nodes[b.block].pprev.value, t.nodes[b.block];
    AncestorSelf(t, b.block);
    var j := EntryInBlock(ReplayIndex(t, p), node, b.k, h);
    if j < b.k {
      a := Place(b.block, j);
    } else {
      a := EntryOnBranch(t, p, h);
      AncestorHeight(t, a.block, p);
    }
  }

  /** Indexed transactions stay indexed. */
  lemma {:induction false} StaysIndexed(t: Tree, b: Hash, tip: Hash)
    requires t.Valid() && tip in t.nodes && b in t.nodes && t.Ancestor(b, tip)
    ensures ReplayIndex(t, b).Keys <= ReplayIndex(t, tip).Keys
    decreases t.nodes[tip].nHeight
  {
    hide ConnectTxs;
    if b != tip {
      StaysIndexed(t, b, t.nodes[tip].pprev.value);
      ConnectedSoFar(ReplayIndex(t, t.nodes[tip].pprev.value), t.nodes[tip], |t.nodes[tip].block.vtx|);
    }
  }

  lemma IndexedAfter(t: Tree, a: Place)
    requires t.Valid() && a.block in t.nodes && a.block != t.genesis && a.k < |t.nodes[a.block].block.vtx|
    ensures TxAt(t, a).hash in ReplayIndex(t, a.block)
  {
    hide ConnectTxs;
    var vtx := t.nodes[a.block].block.vtx;
    ConnectedSoFar(ReplayIndex(t, t.nodes[a.block].pprev.value), t.nodes[a.block], |vtx|);
    assert vtx[..|vtx|] == vtx && TxAt(t, a).hash in Txids(vtx);
  }

  /** A transaction is indexed below every later place of the branch. */
  lemma IndexedBelow(t: Tree, tip: Hash, a: Place, b: Place)
    requires t.Valid() && tip in t.nodes && OnBranch(t, tip, a) && OnBranch(t, tip, b) && Before(t, a, b)
    ensures TxAt(t, a).hash in IndexBelow(t, b)
  {
    hide ConnectTxs, ReplayIndex, Txids;
    var p, node := t.nodes[b.block].pprev.value, t.nodes[b.block];
    ConnectedSoFar(ReplayIndex(t, p), node, b.k);
    if HeightOf(t, a) < HeightOf(t, b) {
      StepToParent(t, b.block, tip);
      AncestorsComparable(t, a.block, p, tip);
      IndexedAfter(t, a);
      StaysIndexed(t, a.block, p);
    } else {
      TxidAmong(node.block.vtx[..b.k], a.k);
    }
  }

  lemma TxidAmong(vtx: seq<Tx>, k: nat)
    requires k < |vtx|
    ensures vtx[k].hash in Txids(vtx)
  {
  }

  // ------------------------------------------------------------------ no transaction stands at two places

  lemma OneOfTwo(t: Tree, tip: Hash, a: Place, b: Place)
    requires t.Valid() && tip in t.nodes && OnBranch(t, tip, a) && OnBranch(t, tip, b)
    ensures a == b || Before(t, a, b) || Before(t, b, a)
  {
    AncestorHeight(t, a.block, tip);
    AncestorHeight(t, b.block, tip);
  }

  lemma LaterIsNew(r: BlockRules, t: Tree, disk: Disk, tip: Hash, a: Place, b: Place)
    requires Connected(r, t, disk, tip) && OnBranch(t, tip, a) && OnBranch(t, tip, b) && Before(t, a, b)
    ensures TxAt(t, a).hash != TxAt(t, b).hash
  {
    ConnectedDown(r, t, disk, tip, b.block);
    hide TreeAccepted, HashesIdentify, ReplayIndex, BranchGood, DistinctTxids;
    if HeightOf(t, a) < HeightOf(t, b) {
      var p := t.nodes[b.block].pprev.value;
      StepToParent(t, b.block, tip);
      AncestorsComparable(t, a.block, p, tip);
      IndexedAfter(t, a);
      StaysIndexed(t, a.block, p);
      NoTxidRepeats(r, t, disk, b.block);
    } else {
      BlockInOrder(r, t, disk, b.block);
      DifferInBlock(t.nodes[b.block].block.vtx, a.k, b.k);
    }
  }

  lemma BlockInOrder(r: BlockRules, t: Tree, disk: Disk, b: Hash)
    requires Connected(r, t, disk, b) && b != t.genesis
    ensures BlockWellFormed(r, t.nodes[b].block) && DistinctTxids(t.nodes[b].block.vtx)
  {
    hide TreeAccepted, HashesIdentify, TxsOk, ReplayIndex, NoLiveDuplicate, DistinctTxids;
    assert BlockGood(r, t, disk, b);
  }

  lemma DifferInBlock(vtx: seq<Tx>, i: nat, j: nat)
    requires DistinctTxids(vtx) && i < j < |vtx|
    ensures vtx[i].hash != vtx[j].hash
  {
  }

  /** On a branch that connects every txid stands at one place only. */
  lemma TxidHasOnePlace(r: BlockRules, t: Tree, disk: Disk, tip: Hash, a: Place, b: Place)
    requires Connected(r, t, disk, tip) && OnBranch(t, tip, a) && OnBranch(t, tip, b) && TxAt(t, a).hash == TxAt(t, b).hash
    ensures a == b
  {
    OneOfTwo(t, tip, a, b);
    hide Connected, OnBranch;
    if Before(t, a, b) {
      LaterIsNew(r, t, disk, tip, a, b);
    } else if Before(t, b, a) {
      LaterIsNew(r, t, disk, tip, b, a);
    }
  }

  // ------------------------------------------------------------------ what a spender spends

  /** b is no beanbase, and its input i spends an output of a. */
  ghost predicate Spends(t: Tree, tip: Hash, b: Place, i: nat, a: Place)
    requires t.Valid() && tip in t.nodes
  {
    && OnBranch(t, tip, a) && OnBranch(t, tip, b)
    && !TxAt(t, b).IsBeanBase() && i < |TxAt(t, b).vin| && TxAt(t, b).vin[i].prevout.hash == TxAt(t, a).hash
  }

  /** Everything connected below a place is in order, and the place itself was accepted. */
  lemma AcceptedThere(r: BlockRules, t: Tree, disk: Disk, tip: Hash, b: Place)
    requires Connected(r, t, disk, tip) && OnBranch(t, tip, b)
    ensures var s := Store(IndexBelow(t, b), disk, map[]);
            && Backed(s.txdb, disk) && InputsSpent(s.txdb, disk) && TxAccepted(r.tx, t, b.block, s, TxAt(t, b), false)
            && (!TxAt(t, b).IsBeanBase() ==> TxSpendsUnspent(s.txdb, TxAt(t, b)))
  {
    ConnectedDown(r, t, disk, tip, b.block);
    var p, node := t.nodes[b.block].pprev.value, t.nodes[b.block];
    var ix := ReplayIndex(t, p);
    hide TxAccepted, ConnectTxs, ReplayIndex, NodeAccepted, BlockWellFormed, RewardOk, Backed, InputsSpent, HashesIdentify, Tally,
         BeanbasesBelow;
    ReplayInvariant(r, t, disk, p);
    BlockTxsAreNew(r, disk, ix, node, b.k);
    TxsOkAt(r.tx, t, Store(ix, disk, map[]), b.block, |node.block.vtx|, false, b.k);
  }

  /** The input as ConnectInputs sees it is the transaction at the other place. */
  lemma InputIs(r: BlockRules, t: Tree, disk: Disk, tip: Hash, b: Place, i: nat, a: Place)
    requires Connected(r, t, disk, tip) && Spends(t, tip, b, i, a)
    ensures var h, inputs := TxAt(t, a).hash, InputsFrom(Store(IndexBelow(t, b), disk, map[]), TxAt(t, b).vin);
            h in IndexBelow(t, b) && h in inputs && inputs[h] == (IndexBelow(t, b)[h], TxAt(t, a))
    ensures IndexBelow(t, b)[TxAt(t, a).hash].pos == TxPos(t.nodes[a.block], a.k) && Before(t, a, b)
  {
    var s, h := Store(IndexBelow(t, b), disk, map[]), TxAt(t, a).hash;
    AcceptedThere(r, t, disk, tip, b);
    InputFound(r.tx, t, b.block, s, TxAt(t, b), i);
    var from := EntryBelow(t, b, h);
    hide TxAccepted, IndexBelow, BranchGood, HashesIdentify, Backed, InputsSpent, TxPos, Fetch;
    AncestorTransitive(t, from.block, b.block, tip);
    TxidHasOnePlace(r, t, disk, tip, from, a);
    OnDiskAt(t, disk, tip, a);
  }

  lemma OnDiskAt(t: Tree, disk: Disk, tip: Hash, a: Place)
    requires t.Valid() && tip in t.nodes && TreeAccepted(t, disk) && OnBranch(t, tip, a)
    ensures var pos := TxPos(t.nodes[a.block], a.k); pos in disk && disk[pos] == TxAt(t, a)
  {
    hide TxPos, Tree.Ancestor;
    assert NodeAccepted(disk, t.nodes[a.block]);
  }

  lemma InputFound(r: Rules, t: Tree, b: Hash, s: Store, tx: Tx, i: nat)
    requires t.Valid() && b in t.nodes && TxAccepted(r, t, b, s, tx, false) && !tx.IsBeanBase() && i < |tx.vin| && Backed(s.txdb, s.disk)
    ensures var h, inputs := tx.vin[i].prevout.hash, InputsFrom(s, tx.vin);
            h in s.txdb && s.txdb[h].pos in s.disk && h in inputs && inputs[h] == (s.txdb[h], s.disk[s.txdb[h].pos])
    ensures InputSane(r, t, b, InputsFrom(s, tx.vin), tx, i)
  {
    var h := tx.vin[i].prevout.hash;
    hide Immature, NoDoubleSpend, PaysFee, SignaturesValid, ValueIn;
    assert Fetch(s, map[], true, h).Some?;
    assert EntryBacked(s.txdb[h], h, s.disk);
  }

  /** Every input of every transaction spends an output that an earlier transaction of the branch has. */
  lemma SpendsEarlierOutput(r: BlockRules, t: Tree, disk: Disk, tip: Hash, b: Place, i: nat) returns (a: Place)
    requires Connected(r, t, disk, tip) && OnBranch(t, tip, b) && !TxAt(t, b).IsBeanBase() && i < |TxAt(t, b).vin|
    ensures Spends(t, tip, b, i, a) && Before(t, a, b) && TxAt(t, b).vin[i].prevout.n < |TxAt(t, a).vout|
  {
    AcceptedThere(r, t, disk, tip, b);
    var s := Store(IndexBelow(t, b), disk, map[]);
    InputFound(r.tx, t, b.block, s, TxAt(t, b), i);
    a := EntryBelow(t, b, TxAt(t, b).vin[i].prevout.hash);
    hide TxAccepted, IndexBelow, BranchGood, HashesIdentify, Backed, InputsSpent, TxPos, TreeAccepted, InputSane;
    AncestorTransitive(t, a.block, b.block, tip);
    InputIs(r, t, disk, tip, b, i, a);
    SaneInRange(r.tx, t, b.block, InputsFrom(s, TxAt(t, b).vin), TxAt(t, b), i);
  }

  lemma SaneInRange(r: Rules, t: Tree, b: Hash, inputs: map<Hash, (TxIndex, Tx)>, tx: Tx, i: nat)
    requires t.Valid() && b in t.nodes && i < |tx.vin| && InputSane(r, t, b, inputs, tx, i)
    ensures var op := tx.vin[i].prevout; op.hash in inputs && op.n < |inputs[op.hash].1.vout|
  {
  }

  /** What is spent of a beanbase or a beanstake is as deep as the maturity asks. */
  lemma SpendsMature(r: BlockRules, t: Tree, disk: Disk, tip: Hash, b: Place, i: nat, a: Place)
    requires Connected(r, t, disk, tip) && Spends(t, tip, b, i, a) && (TxAt(t, a).IsBeanBase() || TxAt(t, a).IsBeanStake())
    ensures HeightOf(t, b) - HeightOf(t, a) >= r.tx.nBeanbaseMaturity
  {
    var s := Store(IndexBelow(t, b), disk, map[]);
    AcceptedThere(r, t, disk, tip, b);
    InputFound(r.tx, t, b.block, s, TxAt(t, b), i);
    InputIs(r, t, disk, tip, b, i, a);
    hide TxAccepted, IndexBelow, BranchGood, HashesIdentify, Backed, InputsSpent, TreeAccepted, InputsFrom, ValueIn, SumSize;
    AncestorHeight(t, a.block, tip);
    AncestorHeight(t, b.block, tip);
    AncestorsComparable(t, a.block, b.block, tip);
    assert LocatedIn(t, a.block, TxPos(t.nodes[a.block], a.k));
    assert !Immature(t, b.block, r.tx.nBeanbaseMaturity, TxPos(t.nodes[a.block], a.k));
  }

  /** No transaction is earlier than one whose output it spends, or later than its block. */
  lemma SpendsInTime(r: BlockRules, t: Tree, disk: Disk, tip: Hash, b: Place, i: nat, a: Place)
    requires Connected(r, t, disk, tip) && Spends(t, tip, b, i, a)
    ensures TxAt(t, a).nTime <= TxAt(t, b).nTime <= t.nodes[b.block].block.nTime
  {
    ConnectedDown(r, t, disk, tip, b.block);
    AcceptedThere(r, t, disk, tip, b);
    InputFound(r.tx, t, b.block, Store(IndexBelow(t, b), disk, map[]), TxAt(t, b), i);
    InputIs(r, t, disk, tip, b, i, a);
    hide TxAccepted, IndexBelow, HashesIdentify, Backed, InputsSpent, TreeAccepted, InputsFrom, ValueIn, Immature, TxPos, Applicable,
         TxsOk, ReplayIndex, BranchGood;
    BlockInOrder(r, t, disk, b.block);
  }

  /** An output is spent once: no two inputs on a branch name the same one. */
  lemma SpentOnce(r: BlockRules, t: Tree, disk: Disk, tip: Hash, a: Place, i: nat, b: Place, j: nat)
    requires Connected(r, t, disk, tip) && OnBranch(t, tip, a) && OnBranch(t, tip, b) && !TxAt(t, a).IsBeanBase() && !TxAt(t, b).IsBeanBase()
    requires i < |TxAt(t, a).vin| && j < |TxAt(t, b).vin| && TxAt(t, a).vin[i].prevout == TxAt(t, b).vin[j].prevout
    ensures a == b && i == j
  {
    OneOfTwo(t, tip, a, b);
    ConnectedDown(r, t, disk, tip, a.block);
    hide Connected;
    if Before(t, a, b) {
      LaterCannotSpend(r, t, disk, tip, a, i, b, j);
    } else if Before(t, b, a) {
      LaterCannotSpend(r, t, disk, tip, b, j, a, i);
    } else {
      DistinctInputs(r, t, disk, a);
    }
  }

  lemma DistinctInputs(r: BlockRules, t: Tree, disk: Disk, a: Place)
    requires Connected(r, t, disk, a.block) && a.block != t.genesis && a.k < |t.nodes[a.block].block.vtx|
    ensures DistinctPrevouts(TxAt(t, a).vin)
  {
    BlockInOrder(r, t, disk, a.block);
    hide Connected;
    assert WellFormed(t.nodes[a.block].block.vtx[a.k]);
  }

  lemma LaterCannotSpend(r: BlockRules, t: Tree, disk: Disk, tip: Hash, a: Place, i: nat, b: Place, j: nat)
    requires Connected(r, t, disk, tip) && OnBranch(t, tip, a) && OnBranch(t, tip, b) && !TxAt(t, a).IsBeanBase() && !TxAt(t, b).IsBeanBase()
    requires i < |TxAt(t, a).vin| && j < |TxAt(t, b).vin| && TxAt(t, a).vin[i].prevout == TxAt(t, b).vin[j].prevout
    ensures !Before(t, a, b)
  {
    if Before(t, a, b) {
      AcceptedThere(r, t, disk, tip, b);
      IndexedBelow(t, tip, a, b);
      OnDiskAt(t, disk, tip, a);
      hide BranchGood, TreeAccepted, IndexBelow, TxAccepted, TxPos;
      IndexedHasSpent(IndexBelow(t, b), disk, TxAt(t, a), TxPos(t.nodes[a.block], a.k));
      assert false;
    }
  }

  // ------------------------------------------------------------------ maturity, by heights

  /** Every block of the branch has its own place in the files. */
  ghost predicate OwnFiles(t: Tree, tip: Hash)
    requires t.Valid() && tip in t.nodes
  {
    forall x, y :: t.Ancestor(x, tip) && t.Ancestor(y, tip) && x in t.nodes && y in t.nodes && x != y ==>
      t.nodes[x].nFile != t.nodes[y].nFile || t.nodes[x].nBlockPos != t.nodes[y].nBlockPos
  }

  /** With blocks at places of their own, ConnectInputs' walk refuses exactly what lies less than the maturity deep. */
  lemma ImmatureByHeight(t: Tree, tip: Hash, a: Place, b: Hash, nMaturity: nat)
    requires t.Valid() && tip in t.nodes && OwnFiles(t, tip) && OnBranch(t, tip, a) && t.Ancestor(b, tip) && b in t.nodes
    requires HeightOf(t, a) <= t.nodes[b].nHeight
    ensures Immature(t, b, nMaturity, TxPos(t.nodes[a.block], a.k)) <==> t.nodes[b].nHeight - HeightOf(t, a) < nMaturity
  {
    hide OwnFiles, SumSize;
    var pos := TxPos(t.nodes[a.block], a.k);
    AncestorsComparable(t, a.block, b, tip);
    assert LocatedIn(t, a.block, pos);
    forall x | t.Ancestor(x, b) && LocatedIn(t, x, pos)
      ensures x == a.block
    {
      AncestorTransitive(t, x, b, tip);
      OnlyPlace(t, tip, x, a.block);
    }
  }

  lemma OnlyPlace(t: Tree, tip: Hash, x: Hash, y: Hash)
    requires t.Valid() && tip in t.nodes && OwnFiles(t, tip) && t.Ancestor(x, tip) && t.Ancestor(y, tip) && x in t.nodes && y in t.nodes
    requires t.nodes[x].nFile == t.nodes[y].nFile && t.nodes[x].nBlockPos == t.nodes[y].nBlockPos
    ensures x == y
  {
  }

  // ------------------------------------------------------------------ signatures and fees

  /** Where signatures were checked, every input carries a valid one for the output it spends. */
  lemma SpendsSigned(r: BlockRules, t: Tree, disk: Disk, tip: Hash, b: Place, i: nat, a: Place)
    requires Connected(r, t, disk, tip) && Spends(t, tip, b, i, a) && Connects(r, t, disk, b.block, true)
    ensures r.tx.verifySignature(TxAt(t, a), TxAt(t, b), i)
  {
    InputIs(r, t, disk, tip, b, i, a);
    AcceptedChecked(r, t, disk, b);
    hide Connected, IndexBelow, InputsFrom, Connects, InputsSane, NoDoubleSpend, PaysFee;
  }

  lemma AcceptedChecked(r: BlockRules, t: Tree, disk: Disk, b: Place)
    requires t.Valid() && b.block in t.nodes && b.block != t.genesis && b.k < |t.nodes[b.block].block.vtx| && Connects(r, t, disk, b.block, true)
    ensures TxAccepted(r.tx, t, b.block, Store(IndexBelow(t, b), disk, map[]), TxAt(t, b), true)
  {
    hide TxAccepted, ConnectTxs, ReplayIndex, BlockWellFormed, RewardOk, Tally;
    var node := t.nodes[b.block];
    TxsOkAt(r.tx, t, Store(ReplayIndex(t, node.pprev.value), disk, map[]), b.block, |node.block.vtx|, true, b.k);
  }

  /** The amounts of the outputs that inputs name, when from[i] is the place input i spends from. */
  function Worth(t: Tree, vin: seq<TxIn>, from: seq<Place>): int
    requires |from| == |vin|
    requires forall i :: 0 <= i < |vin| ==> from[i].block in t.nodes && from[i].k < |t.nodes[from[i].block].block.vtx|
                                            && vin[i].prevout.n < |TxAt(t, from[i]).vout|
  {
    if vin == [] then 0
    else
      var n := |vin| - 1;
      Worth(t, vin[..n], from[..n]) + TxAt(t, from[n]).vout[vin[n].prevout.n].nValue
  }

  ghost predicate SpendsAll(t: Tree, tip: Hash, b: Place, from: seq<Place>)
    requires t.Valid() && tip in t.nodes
  {
    && OnBranch(t, tip, b) && |from| == |TxAt(t, b).vin|
    && forall i :: 0 <= i < |from| ==> Spends(t, tip, b, i, from[i]) && TxAt(t, b).vin[i].prevout.n < |TxAt(t, from[i]).vout|
  }

  lemma {:induction false} WorthIs(t: Tree, vin: seq<TxIn>, from: seq<Place>, inputs: map<Hash, (TxIndex, Tx)>)
    requires |from| == |vin|
    requires forall i :: 0 <= i < |vin| ==> from[i].block in t.nodes && from[i].k < |t.nodes[from[i].block].block.vtx|
                                            && vin[i].prevout.n < |TxAt(t, from[i]).vout|
    requires forall i :: 0 <= i < |vin| ==> vin[i].prevout.hash in inputs && inputs[vin[i].prevout.hash].1 == TxAt(t, from[i])
    ensures ValueIn(inputs, vin) == Worth(t, vin, from)
    decreases |vin|
  {
    hide TxAt;
    if vin != [] {
      var n := |vin| - 1;
      WorthIs(t, vin[..n], from[..n], inputs);
    }
  }

  /** Every transaction but beanbases and beanstakes pays a base fee for each thousand bytes it has begun. */
  lemma PaysBaseFees(r: BlockRules, t: Tree, disk: Disk, tip: Hash, b: Place, from: seq<Place>)
    requires Connected(r, t, disk, tip) && SpendsAll(t, tip, b, from) && !TxAt(t, b).IsBeanBase() && !TxAt(t, b).IsBeanStake()
    ensures var tx := TxAt(t, b);
            Worth(t, tx.vin, from) - SumOut(tx.vout) >= Min((1 + tx.size / 1000) * MIN_TX_FEE, MAX_MONEY)
  {
    var tx, inputs := TxAt(t, b), InputsFrom(Store(IndexBelow(t, b), disk, map[]), TxAt(t, b).vin);
    AcceptedThere(r, t, disk, tip, b);
    hide Connected, IndexBelow, InputsFrom, SumOut, InputsSane, NoDoubleSpend, SignaturesValid, Worth;
    forall i | 0 <= i < |tx.vin|
      ensures tx.vin[i].prevout.hash in inputs && inputs[tx.vin[i].prevout.hash].1 == TxAt(t, from[i])
    {
      InputIs(r, t, disk, tip, b, i, from[i]);
    }
    WorthIs(t, tx.vin, from, inputs);
    MinFeeIs(tx, 1);
  }

  // ------------------------------------------------------------------ amounts

  lemma {:induction false} SlotsWorth(vSpent: seq<DiskTxPos>, vout: seq<TxOut>, n: nat)
    requires n <= |vSpent| == |vout| && forall i :: 0 <= i < |vout| ==> MoneyRange(vout[i].nValue)
    ensures 0 <= UnspentValue(vSpent, vout, n) && forall i :: 0 <= i < n && vSpent[i] == NullPos ==> vout[i].nValue <= UnspentValue(vSpent, vout, n)
  {
    if n > 0 {
      SlotsWorth(vSpent, vout, n - 1);
    }
  }

  ghost predicate NoneNegative(ix: Index, disk: Disk) {
    forall h :: h in ix ==> EntryValue(ix[h], disk) >= 0
  }

  lemma {:induction false} TotalAtLeast(ix: Index, disk: Disk)
    requires NoneNegative(ix, disk)
    ensures 0 <= Total(ix, disk) && forall h :: h in ix ==> EntryValue(ix[h], disk) <= Total(ix, disk)
    decreases ix
  {
    hide EntryValue;
    if h :| h in ix {
      TotalSplit(ix, disk, h);
      TotalAtLeast(ix - {h}, disk);
      forall g | g in ix
        ensures EntryValue(ix[g], disk) <= Total(ix, disk)
      {
        if g != h {
          assert g in ix - {h};
        }
      }
    }
  }

  lemma EntryWorth(r: BlockRules, t: Tree, disk: Disk, tip: Hash, h: Hash)
    requires Connected(r, t, disk, tip) && h in ReplayIndex(t, tip)
    ensures var e := ReplayIndex(t, tip)[h];
            && e.pos in disk && |e.vSpent| == |disk[e.pos].vout| && EntryValue(e, disk) >= 0
            && forall i :: 0 <= i < |e.vSpent| && e.vSpent[i] == NullPos ==> 0 <= disk[e.pos].vout[i].nValue <= EntryValue(e, disk)
  {
    var a := EntryOnBranch(t, tip, h);
    hide ReplayIndex, TxPos, HashesIdentify, UnspentValue, InputsSpent, BeanbasesBelow, BranchGood, TreeAccepted, DistinctTxids;
    ReplayInvariant(r, t, disk, tip);
    ConnectedDown(r, t, disk, tip, a.block);
    BlockInOrder(r, t, disk, a.block);
    OnDiskAt(t, disk, tip, a);
    assert EntryBacked(ReplayIndex(t, tip)[h], h, disk);
    assert WellFormed(TxAt(t, a));
    SlotsWorth(ReplayIndex(t, tip)[h].vSpent, TxAt(t, a).vout, |TxAt(t, a).vout|);
  }

  /** No unspent output is worth less than nothing or more than the money supply. */
  lemma OutputWithinSupply(r: BlockRules, t: Tree, disk: Disk, tip: Hash, op: OutPoint)
    requires Connected(r, t, disk, tip) && Unspent(ReplayIndex(t, tip), op)
    ensures 0 <= DiskValue(ReplayIndex(t, tip), disk, op) <= SupplyAt(r.tx, t, disk, tip)
  {
    var ix := ReplayIndex(t, tip);
    hide ReplayIndex, BranchGood, TreeAccepted, HashesIdentify, EntryValue;
    forall h | h in ix
      ensures EntryValue(ix[h], disk) >= 0
    {
      EntryWorth(r, t, disk, tip, h);
    }
    TotalAtLeast(ix, disk);
    EntryWorth(r, t, disk, tip, op.hash);
    SupplyIsTotalUnspent(r, t, disk, tip);
  }
}
