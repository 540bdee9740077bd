/** A branch on which a beanstake in a proof-of-work block lifts the money supply over its schedule (src/main.cpp). */
module Witness {
  import opened Wrappers
  import opened Transactions
  import opened BlockTree
  import opened TxInputs
  import opened BlockConnection
  import opened MoneySupply
  import opened BeanbaseHeight
  import opened Replay
  import opened MainChain
  import opened SmallBlocks

  /** Every check this model does not look into passes, and signatures are checked at every height. */
  function Lenient(nBeanbaseMaturity: nat): (r: BlockRules)
    ensures Plain(r) && r.tx.nBeanbaseMaturity == nBeanbaseMaturity && r.tx.nBlocksEstimate == 0
  {
    Refusing(nBeanbaseMaturity, 0, 0)
  }

  /** A chain of n blocks above genesis that hold a beanbase each, but for the last, whose transactions are given. Block k
      has hash k. */
  datatype Chain = Chain(n: nat, last: seq<Tx>) {
    predicate Valid() {
      && 2 <= n <= LAST_POW_BLOCK
      && 0 < |last| <= 3
      && (forall i :: 0 <= i < |last| ==> last[i].hash as int == n + i && last[i].size == 100 && last[i].sigOps == 0)
      && last[0].vin == BeanbaseAt(n).vin
      && last[0].IsBeanBase()
      && (|last| > 1 ==> !last[1].IsBeanStake())
    }

    function Vtx(k: nat): seq<Tx>
      requires Valid() && k <= n
    {
      if k == n then last else if k == 0 then [] else [BeanbaseAt(k)]
    }

    function Node(k: nat): BlockIndex
      requires Valid() && k <= n
    {
      BlockIndex(if k == 0 then None else Some((k - 1) as Hash), k, 0, 1000 * k, k,
                 Block(k as Hash, if k == 0 then 0 else (k - 1) as Hash, 0, 0, Vtx(k)))
    }

    function Nodes(k: nat): (m: map<Hash, BlockIndex>)
      requires Valid() && k <= n
      ensures forall h :: h in m <==> 0 <= h as int <= k
      ensures forall h :: h in m ==> m[h] == Node(h as int)
    {
      if k == 0 then map[0 := Node(0)] else Nodes(k - 1)[k as Hash := Node(k)]
    }

    function Blocks(): (t: Tree)
      requires Valid()
      ensures t.genesis == 0 && t.Valid() && (forall h :: h in t.nodes <==> 0 <= h as int <= n)
      ensures forall h :: h in t.nodes ==> t.nodes[h] == Node(h as int)
    {
      Tree(0, Nodes(n))
    }

    function TxOf(h: Hash): Tx
      requires Valid()
    {
      if h as int < n then BeanbaseAt(h as int) else if h as int - n < |last| then last[h as int - n] else last[0]
    }

    /** The block files up to block k, and the first i transactions of the last block. */
    function FilesBelow(k: nat): Disk
      requires Valid() && k < n
    {
      if k == 0 then map[] else FilesBelow(k - 1)[TxPos(Node(k), 0) := BeanbaseAt(k)]
    }

    function FilesUpTo(i: nat): Disk
      requires Valid() && i <= |last|
    {
      if i == 0 then FilesBelow(n - 1) else FilesUpTo(i - 1)[TxPos(Node(n), i - 1) := last[i - 1]]
    }

    function Files(): Disk
      requires Valid()
    {
      FilesUpTo(|last|)
    }

    lemma {:induction false} FilesBelowAre(k: nat)
      requires Valid() && k < n
      ensures forall p :: p in FilesBelow(k) ==> p.DiskTxPos? && p.nBlockPos <= 1000 * k && FilesBelow(k)[p] == TxOf(FilesBelow(k)[p].hash)
      ensures forall j :: 1 <= j <= k ==> TxPos(Node(j), 0) in FilesBelow(k) && FilesBelow(k)[TxPos(Node(j), 0)] == BeanbaseAt(j)
    {
      hide HeightScript;
      if k > 0 {
        FilesBelowAre(k - 1);
      }
    }

    lemma {:induction false} SizeOfLast(i: nat)
      requires Valid() && i <= |last|
      ensures SumSize(last[..i]) == 100 * i
    {
      if i > 0 {
        SizeOfLast(i - 1);
        assert last[..i][..i - 1] == last[..i - 1];
      }
    }

    lemma LastPositions()
      requires Valid()
      ensures forall i :: 0 <= i <= |last| ==> TxPos(Node(n), i) == DiskTxPos(0, 1000 * n, 1000 * n + 81 + 100 * i)
    {
      hide HeightScript;
      forall i | 0 <= i <= |last|
        ensures SumSize(last[..i]) == 100 * i
      {
        SizeOfLast(i);
      }
    }

    lemma {:induction false} FilesAre(i: nat)
      requires Valid() && i <= |last|
      ensures forall p :: p in FilesUpTo(i) ==> FilesUpTo(i)[p] == TxOf(FilesUpTo(i)[p].hash)
      ensures forall j :: 1 <= j < n ==> TxPos(Node(j), 0) in FilesUpTo(i) && FilesUpTo(i)[TxPos(Node(j), 0)] == BeanbaseAt(j)
      ensures forall j :: 0 <= j < i ==> TxPos(Node(n), j) in FilesUpTo(i) && FilesUpTo(i)[TxPos(Node(n), j)] == last[j]
    {
      hide Node, TxPos, TxOf, BeanbaseAt;
      PositionsDiffer(i);
      if i == 0 {
        FilesBelowAre(n - 1);
      } else {
        FilesAre(i - 1);
      }
    }

    lemma PositionsDiffer(i: nat)
      requires Valid() && i <= |last|
      ensures forall j :: 1 <= j < n ==> TxPos(Node(j), 0).nBlockPos == 1000 * j
      ensures forall j :: 0 <= j <= i ==> TxPos(Node(n), j).nBlockPos == 1000 * n
      ensures forall j :: 0 <= j < i - 1 ==> TxPos(Node(n), j) != TxPos(Node(n), i - 1)
      ensures i > 0 ==> last[i - 1] == TxOf(last[i - 1].hash)
    {
      hide HeightScript;
      LastPositions();
    }

    lemma NodeIsAccepted(k: nat)
      requires Valid() && 1 <= k <= n
      ensures NodeAccepted(Files(), Node(k))
    {
      hide HeightScript, TxPos, FilesUpTo;
      FilesAre(|last|);
      assert Vtx(k)[0].vin == BeanbaseAt(k).vin;
    }

    /** The chain is one AcceptBlock has checked, and its transactions have different hashes. */
    lemma Accepted()
      requires Valid()
      ensures TreeAccepted(Blocks(), Files()) && HashesIdentify(Files())
    {
      hide Node, NodeAccepted, FilesUpTo, TxOf;
      FilesAre(|last|);
      var t := Blocks();
      forall h | h in t.nodes && h != t.genesis
        ensures NodeAccepted(Files(), t.nodes[h])
      {
        NodeIsAccepted(h as int);
      }
    }

    // ------------------------------------------------------------------ the blocks with nothing but a beanbase

    lemma FillerIsWellFormed(k: nat)
      requires Valid() && 1 <= k < n
      ensures Node(k).block.vtx == [BeanbaseAt(k)] && OnlyBeanbase(Node(k).block)
      ensures SumOut(BeanbaseAt(k).vout) == if k == 1 then 2 * MIN_TX_FEE + 1 else 0
    {
      Sums();
      HeightScriptLength(k);
      hide HeightScript, SumOut;
      assert WellFormed(BeanbaseAt(k));
    }

    ghost function IndexAt(k: nat): Index
      requires Valid() && k <= n
    {
      ReplayIndex(Blocks(), k as Hash)
    }

    lemma IndexStep(k: nat)
      requires Valid() && 1 <= k <= n
      ensures IndexAt(k) == ConnectEffect(IndexAt(k - 1), Node(k))
    {
      hide ConnectTxs, TxPos, Vtx;
    }

    lemma FillerStep(k: nat)
      requires Valid() && 1 <= k < n
      ensures IndexAt(k) == IndexAt(k - 1)[k as Hash := Fresh(TxPos(Node(k), 0), if k == 1 then 2 else 1)]
    {
      hide ConnectTxs, TxPos, OnlyBeanbase, IndexAt, Node, HeightScript;
      IndexStep(k);
      FillerIsWellFormed(k);
      OnlyBeanbaseEffect(IndexAt(k - 1), Node(k), BeanbaseAt(k));
    }

    /** The index below the last block holds no later hash, and the first beanbase has nothing spent. */
    lemma {:induction false} IndexBelow(k: nat)
      requires Valid() && k < n
      ensures forall h :: h in IndexAt(k) ==> h as int <= k
      ensures k >= 1 ==> 1 in IndexAt(k) && IndexAt(k)[1] == Fresh(TxPos(Node(1), 0), 2)
    {
      hide IndexAt, Node, TxPos, Fresh, Valid;
      if k == 0 {
        NothingAtGenesis();
      } else {
        IndexBelow(k - 1);
        FillerStep(k);
        var b: Hash := k as Hash;
        assert b as int == k && (k == 1 <==> b == 1);
      }
    }

    lemma NothingAtGenesis()
      requires Valid()
      ensures IndexAt(0) == map[]
    {
    }

    lemma NodeIs(k: nat)
      requires Valid() && 1 <= k <= n
      ensures var t := Blocks(); k as Hash in t.nodes && t.nodes[k as Hash] == Node(k) && k as Hash != t.genesis
      ensures Node(k).pprev == Some((k - 1) as Hash) && Node(k).block.vtx == Vtx(k)
    {
      hide Vtx;
    }

    lemma BeanbaseIsNewAt(k: nat)
      requires Valid() && 1 <= k < n
      ensures BeanbaseAt(k).hash !in IndexAt(k - 1)
    {
      hide IndexAt, HeightScript;
      IndexBelow(k - 1);
    }

    lemma FillerConnects(m: nat, k: nat)
      requires Valid() && 1 <= k < n
      ensures var t := Blocks(); k as Hash in t.nodes && k as Hash != t.genesis && Connects(Lenient(m), t, Files(), k as Hash, true)
    {
      hide Vtx, SumOut, ReplayIndex, FilesUpTo, OnlyBeanbase, Node, BlockConnects, Valid, BeanbaseAt, HeightScript;
      NodeIs(k);
      FillerIsWellFormed(k);
      BeanbaseIsNewAt(k);
      OnlyBeanbaseConnects(Lenient(m), Blocks(), Store(IndexAt(k - 1), Files(), map[]), k as Hash, true);
    }
  }

  // ------------------------------------------------------------------ a beanstake that mints

  function Payment(n: nat): Tx {
    Tx((n + 1) as Hash, 0, [TxIn(OutPoint(1, 0), [])], [TxOut(MIN_TX_FEE, [0])], 100, 0)
  }

  function Stray(n: nat): Tx {
    Tx((n + 2) as Hash, 0, [TxIn(OutPoint(1, 1), [])], [TxOut(0, []), TxOut(MAX_MONEY, [0])], 100, 0)
  }

  /** Long enough for the first beanbase to mature; the last block spends both its outputs, the second in a beanstake. */
  function Straying(m: nat): Chain
    requires m + 2 <= LAST_POW_BLOCK
  {
    Chain(m + 2, [BeanbaseAt(m + 2), Payment(m + 2), Stray(m + 2)])
  }

  lemma StrayingIsValid(m: nat)
    requires m + 2 <= LAST_POW_BLOCK
    ensures Straying(m).Valid()
  {
    hide HeightScript;
  }

  lemma StraySums(n: nat)
    ensures SumOut(Payment(n).vout) == MIN_TX_FEE && SumOut(Stray(n).vout) == MAX_MONEY
  {
    assert SumOut([]) == 0;
    assert Payment(n).vout[..0] == [];
    assert Stray(n).vout[..1] == [TxOut(0, [])] && Stray(n).vout[..1][..0] == [];
    assert SumOut(Stray(n).vout[..1]) == 0;
  }

  lemma StrayingIsWellFormed(m: nat)
    requires m + 2 <= LAST_POW_BLOCK
    ensures var c := Straying(m);
            c.Valid() && BlockWellFormed(Lenient(m), c.Node(c.n).block) && !c.Node(c.n).block.IsProofOfStake()
  {
    var c, n := Straying(m), m + 2;
    StrayingIsValid(m);
    Sums();
    StraySums(n);
    HeightScriptLength(n);
    hide SumOut, HeightScript;
    assert c.Node(n).block.vtx == c.last;
    assert WellFormed(BeanbaseAt(n)) && WellFormed(Payment(n)) && WellFormed(Stray(n));
    NoSigOps(c.last);
  }

  lemma {:induction false} NoSigOps(vtx: seq<Tx>)
    requires forall tx :: tx in vtx ==> tx.sigOps == 0
    ensures SumSigOps(vtx) == 0
  {
    if vtx != [] {
      NoSigOps(vtx[..|vtx| - 1]);
    }
  }

  /** The last block of the chain on an index in which the first beanbase, at pos, has nothing spent. */
  ghost predicate AtLast(s: Store, node: BlockIndex, n: nat, pos: DiskTxPos) {
    && 2 <= n <= LAST_POW_BLOCK && node.block.vtx == [BeanbaseAt(n), Payment(n), Stray(n)]
    && pos != NullPos && pos != MEMPOOL_POS && pos in s.disk && s.disk[pos] == BeanbaseAt(1)
    && (forall h :: h in s.txdb ==> h as int < n) && 1 in s.txdb && s.txdb[1] == Fresh(pos, 2)
  }

  /** Before the payment and before the beanstake, the output each of them spends is unspent. */
  lemma FundsLeft(s: Store, node: BlockIndex, n: nat, pos: DiskTxPos, k: nat)
    requires AtLast(s, node, n, pos) && (k == 1 || k == 2)
    ensures var v := ConnectTxs(s.txdb, node, k);
            1 in v && v[1].pos == pos && |v[1].vSpent| == 2 && v[1].vSpent[k - 1] == NullPos
  {
    hide TxPos, HeightScript;
    AfterBeanbase(s, node, n, pos);
    PaymentSpends(n);
  }

  lemma PaymentSpends(n: nat)
    ensures Prevouts(Payment(n).vin) == {OutPoint(1, 0)}
  {
    assert Payment(n).vin[0].prevout == OutPoint(1, 0);
  }

  lemma AfterBeanbase(s: Store, node: BlockIndex, n: nat, pos: DiskTxPos)
    requires AtLast(s, node, n, pos)
    ensures var v := ConnectTxs(s.txdb, node, 1); 1 in v && v[1] == Fresh(pos, 2)
  {
    hide TxPos, HeightScript;
    assert ConnectTxs(s.txdb, node, 0) == s.txdb;
  }

  /** The payment and the beanstake are accepted when their turns come. */
  lemma SpenderAccepted(m: nat, t: Tree, b: Hash, s: Store, n: nat, pos: DiskTxPos, k: nat)
    requires t.Valid() && b in t.nodes && AtLast(s, t.nodes[b], n, pos) && !Immature(t, b, m, pos) && (k == 1 || k == 2)
    ensures var v, tx := ViewAt(s, t.nodes[b], k), t.nodes[b].block.vtx[k];
            SpendsFunds(v, tx, k - 1, pos) && TxAccepted(Lenient(m).tx, t, b, v, tx, true)
  {
    FundsLeft(s, t.nodes[b], n, pos, k);
    StraySums(n);
    hide SumOut, HeightScript, ConnectTxs, TxAccepted, Immature;
    OneInputAccepted(Lenient(m).tx, t, b, ViewAt(s, t.nodes[b], k), t.nodes[b].block.vtx[k], k - 1, pos, true);
  }

  lemma StrayTotals(m: nat, s: Store, node: BlockIndex, n: nat, pos: DiskTxPos)
    requires AtLast(s, node, n, pos)
    requires forall k :: 1 <= k <= 2 ==> SpendsFunds(ViewAt(s, node, k), node.block.vtx[k], k - 1, pos)
    ensures Tally(Lenient(m).tx, s, node, 1) == Totals(0, 0, 0, 0, 0)
    ensures Tally(Lenient(m).tx, s, node, 2) == Totals(2 * MIN_TX_FEE, MIN_TX_FEE, MIN_TX_FEE, 0, 0)
    ensures Tally(Lenient(m).tx, s, node, 3) == Totals(2 * MIN_TX_FEE + 1, MIN_TX_FEE + MAX_MONEY, MIN_TX_FEE, MAX_MONEY - 1, 0)
  {
    Sums();
    StraySums(n);
    FirstTotals(m, s, node, n, pos);
    hide Tally, SumOut, SpendsFunds, ViewAt, HeightScript;
    NextTotals(Lenient(m), s, node, 1, 0, pos, MIN_TX_FEE);
    NextTotals(Lenient(m), s, node, 2, 1, pos, MAX_MONEY);
  }

  lemma FirstTotals(m: nat, s: Store, node: BlockIndex, n: nat, pos: DiskTxPos)
    requires AtLast(s, node, n, pos)
    ensures Tally(Lenient(m).tx, s, node, 1) == Totals(0, 0, 0, 0, 0)
  {
    Sums();
    hide SumOut, HeightScript, InputsFrom, ConnectTxs;
    assert Tally(Lenient(m).tx, s, node, 0) == Totals(0, 0, 0, 0, 0);
  }

  /** The block is accepted, and mints all the money there may be. */
  lemma StrayConnects(m: nat, t: Tree, b: Hash, s: Store, n: nat, pos: DiskTxPos)
    requires t.Valid() && b in t.nodes && AtLast(s, t.nodes[b], n, pos) && !Immature(t, b, m, pos)
    requires BlockWellFormed(Lenient(m), t.nodes[b].block) && !t.nodes[b].block.IsProofOfStake()
    ensures BlockConnects(Lenient(m), t, s, b, true)
    ensures Minted(Lenient(m).tx, s, t.nodes[b]) == MAX_MONEY - MIN_TX_FEE - 1
  {
    hide Tally, SumOut, ConnectTxs, TxAccepted, BlockWellFormed, TxPos, Immature, HeightScript, SpendsFunds;
    var r := Lenient(m);
    SpenderAccepted(m, t, b, s, n, pos, 1);
    SpenderAccepted(m, t, b, s, n, pos, 2);
    StrayTotals(m, s, t.nodes[b], n, pos);
    FirstAccepted(m, t, b, s, n, pos);
    assert TxsOk(r.tx, t, s, b, 0, true);
    assert TxsOk(r.tx, t, s, b, 1, true);
    assert TxsOk(r.tx, t, s, b, 2, true);
    assert TxsOk(r.tx, t, s, b, 3, true);
  }

  lemma FirstAccepted(m: nat, t: Tree, b: Hash, s: Store, n: nat, pos: DiskTxPos)
    requires t.Valid() && b in t.nodes && AtLast(s, t.nodes[b], n, pos)
    ensures TxAccepted(Lenient(m).tx, t, b, ViewAt(s, t.nodes[b], 0), t.nodes[b].block.vtx[0], true)
    ensures forall k :: 0 <= k < 3 ==> NoLiveDuplicate(s.txdb, t.nodes[b].block.vtx[k].hash)
    ensures SumOut(t.nodes[b].block.vtx[0].vout) == 0
  {
    Sums();
    hide SumOut, HeightScript;
  }

  /** The funds are deep enough to be spent. */
  lemma FundsAreMature(m: nat)
    requires m + 2 <= LAST_POW_BLOCK
    ensures var c := Straying(m);
            c.Valid() && var t := c.Blocks(); c.n as Hash in t.nodes && !Immature(t, c.n as Hash, m, TxPos(c.Node(1), 0))
  {
    StrayingIsValid(m);
    var c := Straying(m);
    var t, pos := c.Blocks(), TxPos(c.Node(1), 0);
    hide HeightScript, TxPos, Chain.Valid;
    forall a | t.Ancestor(a, c.n as Hash) && LocatedIn(t, a, pos)
      ensures !AtDepthBelow(t, a, c.n as Hash, m)
    {
      AncestorHeight(t, a, c.n as Hash);
      assert t.nodes[a] == c.Node(a as int);
      assert pos.nBlockPos == 1000 by {
        c.PositionsDiffer(0);
      }
    }
  }

  lemma FundsOnDisk(c: Chain)
    requires c.Valid()
    ensures var pos := TxPos(c.Node(1), 0);
            pos.DiskTxPos? && pos != MEMPOOL_POS && pos in c.Files() && c.Files()[pos] == BeanbaseAt(1)
  {
    hide Chain.FilesUpTo, Chain.Node, HeightScript, Chain.TxOf, BeanbaseAt;
    c.FilesAre(|c.last|);
    c.PositionsDiffer(0);
  }

  /** The last block on the index of the branch below it. */
  lemma LastStore(m: nat)
    requires m + 2 <= LAST_POW_BLOCK
    ensures var c := Straying(m);
            c.Valid() && AtLast(Store(c.IndexAt(c.n - 1), c.Files(), map[]), c.Node(c.n), c.n, TxPos(c.Node(1), 0))
  {
    hide *;
    StrayingVtx(m);
    var c := Straying(m);
    FundsOnDisk(c);
    c.NodeIs(c.n);
    c.IndexBelow(c.n - 1);
    AtLastIs(Store(c.IndexAt(c.n - 1), c.Files(), map[]), c.Node(c.n), c.n, TxPos(c.Node(1), 0));
  }

  lemma StrayingVtx(m: nat)
    requires m + 2 <= LAST_POW_BLOCK
    ensures var c := Straying(m);
            c.Valid() && 2 <= c.n == m + 2 && c.Vtx(c.n) == [BeanbaseAt(c.n), Payment(c.n), Stray(c.n)]
  {
    StrayingIsValid(m);
  }

  lemma AtLastIs(s: Store, node: BlockIndex, n: nat, pos: DiskTxPos)
    requires 2 <= n <= LAST_POW_BLOCK && node.block.vtx == [BeanbaseAt(n), Payment(n), Stray(n)]
    requires pos.DiskTxPos? && pos != MEMPOOL_POS && pos in s.disk && s.disk[pos] == BeanbaseAt(1)
    requires (forall h :: h in s.txdb ==> h as int <= n - 1) && 1 in s.txdb && s.txdb[1] == Fresh(pos, 2)
    ensures AtLast(s, node, n, pos)
  {
  }

  lemma LastConnects(m: nat)
    requires m + 2 <= LAST_POW_BLOCK
    ensures var c := Straying(m);
            c.Valid() &&
            var t, b := c.Blocks(), c.n as Hash;
            && b in t.nodes && b != t.genesis && Connects(Lenient(m), t, c.Files(), b, true)
            && Minted(Lenient(m).tx, Store(c.IndexAt(c.n - 1), c.Files(), map[]), c.Node(c.n)) == MAX_MONEY - MIN_TX_FEE - 1
  {
    hide Chain.FilesUpTo, Chain.Node, HeightScript, AtLast, BlockConnects, BlockWellFormed, Minted, ReplayIndex, Immature, TxPos;
    StrayingIsWellFormed(m);
    FundsAreMature(m);
    LastStore(m);
    var c := Straying(m);
    c.NodeIs(c.n);
    StrayConnects(m, c.Blocks(), c.n as Hash, Store(c.IndexAt(c.n - 1), c.Files(), map[]), c.n, TxPos(c.Node(1), 0));
  }

  // ------------------------------------------------------------------ the whole branch

  /** Every block of b's branch connects on its parent, and the money supply recorded for b is nMoneySupply. */
  ghost predicate ConnectedTo(r: BlockRules, t: Tree, disk: Disk, b: Hash, nMoneySupply: int) {
    && t.Valid() && b in t.nodes && t.Ancestor(t.genesis, b)
    && BranchGood(r, t, disk, b) && AllConnect(r, t, disk, t.genesis, b, true) && SupplyAt(r.tx, t, disk, b) == nMoneySupply
  }

  lemma ConnectedAtGenesis(r: BlockRules, t: Tree, disk: Disk)
    requires t.Valid()
    ensures ConnectedTo(r, t, disk, t.genesis, 0)
  {
    hide BlockGood, Connects, Minted;
    AncestorSelf(t, t.genesis);
  }

  lemma ConnectedOneMore(r: BlockRules, t: Tree, disk: Disk, p: Hash, b: Hash, nMoneySupply: int)
    requires t.Valid() && TreeAccepted(t, disk) && HashesIdentify(disk) && b in t.nodes && b != t.genesis && t.nodes[b].pprev == Some(p)
    requires ConnectedTo(r, t, disk, p, nMoneySupply) && Connects(r, t, disk, b, true)
    ensures ConnectedTo(r, t, disk, b, nMoneySupply + Minted(r.tx, Store(ReplayIndex(t, p), disk, map[]), t.nodes[b]))
  {
    hide Connects, BlockGood, ReplayIndex, Minted, TreeAccepted, HashesIdentify;
    GenesisIsAncestor(t, b);
    ConnectExtends(r, t, disk, b, true);
  }

  function FillerSupply(k: nat): int {
    if k == 0 then 0 else 2 * MIN_TX_FEE + 1
  }

  lemma FillerMints(m: nat, c: Chain, k: nat, s: Store)
    requires c.Valid() && 1 <= k < c.n
    ensures FillerSupply(k - 1) + Minted(Lenient(m).tx, s, c.Node(k)) == FillerSupply(k)
  {
    c.FillerIsWellFormed(k);
    OnlyBeanbaseTotals(s, c.Node(k), Lenient(m).tx);
    hide Tally, Chain.Node, Chain.Valid, HeightScript;
  }

  /** The money supply stays small up to the last block. */
  lemma {:induction false} FillersConnected(m: nat, c: Chain, k: nat)
    requires c.Valid() && k < c.n
    ensures ConnectedTo(Lenient(m), c.Blocks(), c.Files(), k as Hash, FillerSupply(k))
  {
    hide *;
    if k == 0 {
      ConnectedAtGenesis(Lenient(m), c.Blocks(), c.Files());
      NoFillerSupply();
    } else {
      FillersConnected(m, c, k - 1);
      c.NodeIs(k);
      c.FillerConnects(m, k);
      c.Accepted();
      FillerMints(m, c, k, Store(ReplayIndex(c.Blocks(), (k - 1) as Hash), c.Files(), map[]));
      ConnectedOneMore(Lenient(m), c.Blocks(), c.Files(), (k - 1) as Hash, k as Hash, FillerSupply(k - 1));
    }
  }

  lemma NoFillerSupply()
    ensures FillerSupply(0) == 0
  {
  }

  /** Whatever the maturity, there is a branch of proof-of-work blocks that all connect and that lifts the money supply
      over the schedule of its height. */
  lemma StrayStakeExceedsCap(m: nat) returns (r: BlockRules, c: Chain)
    requires m + 2 <= LAST_POW_BLOCK
    ensures r.tx.nBeanbaseMaturity == m && c.Valid() && c.n == m + 2
    ensures var t, disk, b := c.Blocks(), c.Files(), c.n as Hash;
            && TreeAccepted(t, disk) && HashesIdentify(disk)
            && ConnectedTo(r, t, disk, b, MAX_MONEY + MIN_TX_FEE) && MAX_MONEY + MIN_TX_FEE > SupplyCap(c.n)
  {
    hide ConnectedTo, Connects, ReplayIndex, TreeAccepted, HashesIdentify, Minted, Chain.Node, Chain.Valid, Chain.Blocks, Chain.Files,
         Tree.Valid;
    r, c := Lenient(m), Straying(m);
    StrayingIsValid(m);
    c.Accepted();
    c.NodeIs(c.n);
    FillersConnected(m, c, c.n - 1);
    LastConnects(m);
    ConnectedOneMore(r, c.Blocks(), c.Files(), (c.n - 1) as Hash, c.n as Hash, 2 * MIN_TX_FEE + 1);
  }
}
