/** A run of the node that ends with a failed postponed block (src/main.cpp). The main branch comes on time up to the last
    checkpoint, and its next block is refused for a bad signature. Nine blocks that came a second apart, on a block ten below the
    checkpoint, then carry more trust: the tip moves below the checkpoint estimate. When the refused block is extended, it
    connects after all, and the block on top of it does not. All blocks are proof-of-work on the main network's limit. */
module FailedSwitch {
  import opened Wrappers
  import opened Transactions
  import opened BlockTree
  import opened BlockTime
  import opened TxInputs
  import opened BlockConnection
  import opened BigNum
  import opened Targets
  import opened FastTargets
  import opened MoneySupply
  import opened BeanbaseHeight
  import opened Replay
  import opened TipChoice
  import opened SmallBlocks
  import opened ChainStateMachine
  import opened ChainRun

  // ------------------------------------------------------------------ the blocks

  /** Blocks 1 to fork + 10 are on one another, and block fork + 11, which is refused, is on them. Blocks fork + 12 to fork + 20
      are the fast ones, on block fork. Block fork + 21 is on the refused one. */
  datatype Scene = Scene(fork: nat) {
    ghost predicate Valid() {
      1 <= fork && fork + 12 <= LAST_POW_BLOCK
    }

    /** The block at the checkpoint. */
    function Checkpoint(): nat {
      fork + 10
    }

    function Refused(): nat {
      fork + 11
    }

    predicate Fast(id: nat) {
      fork + 12 <= id <= fork + 20
    }

    function Last(): nat {
      fork + 21
    }

    function Parent(id: nat): (p: nat)
      requires 1 <= id <= Last()
      ensures p < id && (Fast(id) ==> p == fork || Fast(p))
    {
      if id == fork + 12 then fork else if id == Last() then Refused() else id - 1
    }

    function Height(id: nat): (h: nat)
      requires id <= Last()
      ensures h <= fork + 12 && (id > 0 ==> h == Height(Parent(id)) + 1)
    {
      if Fast(id) then id - 11 else if id == Last() then fork + 12 else id
    }

    function Time(id: nat): (t: nat)
      requires id <= Last()
      ensures id > 0 ==> t > Time(Parent(id))
    {
      if Fast(id) then 60 * fork + (id - fork - 11) else 60 * Height(id)
    }

    function BitsOf(id: nat): (nBits: nat)
      ensures nBits < 0x1_0000_0000
    {
      Bits(Faster(if Fast(id) then id - fork - 11 else 1))
    }

    /** What the beanbase of a block pays out: the first one funds, and only the last one takes more than it may. */
    function Payout(id: nat): seq<TxOut> {
      if id == 1 then FUNDS else if id == Last() then [TxOut(POW_SUBSIDY + 1, [0])] else NOTHING
    }

    function Base(id: nat): Tx
      requires Valid() && id <= Last()
    {
      Beanbase(id as Hash, Height(id), Payout(id)).(nTime := if id == 1 then 0 else Time(id))
    }

    /** The transaction with the bad signature spends the first output of block 1. */
    function Payment(): Tx {
      Tx((Last() + 1) as Hash, 60 * Refused(), [TxIn(OutPoint(1, 0), [])], [TxOut(MIN_TX_FEE, [0])], 100, 0)
    }

    function Vtx(id: nat): seq<Tx>
      requires Valid() && id <= Last()
    {
      if id == 0 then [] else if id == Refused() then [Base(id), Payment()] else [Base(id)]
    }

    function BlockOf(id: nat): Block
      requires Valid() && id <= Last()
    {
      Block(id as Hash, if id == 0 then 0 else Parent(id) as Hash, Time(id), BitsOf(id), Vtx(id))
    }

    /** The chain trust of a block. */
    function Trust(id: nat): nat
      requires id <= Last()
    {
      BlockTrust(BitsOf(id)) + if id == 0 then 0 else Trust(Parent(id))
    }

    lemma BlockTrustIs(id: nat)
      ensures BlockTrust(BitsOf(id)) == Weight(if Fast(id) then id - fork - 11 else 1)
    {
      hide BlockTrust, Bits, Faster;
    }

    lemma OneMore(k: nat, w: nat)
      ensures (k + 1) * w == k * w + w
    {
    }

    lemma {:induction false} TrustFast(id: nat)
      requires Fast(id)
      ensures Trust(id) == Trust(fork) + RowTrust(id - fork - 11)
    {
      hide BlockTrust, BitsOf, Weight;
      BlockTrustIs(id);
      var i := id - fork - 11;
      assert RowTrust(i) == RowTrust(i - 1) + Weight(i);
      if Parent(id) == fork {
        assert RowTrust(0) == 0;
      } else {
        TrustFast(Parent(id));
      }
    }

    function Node(id: nat): BlockIndex
      requires Valid() && id <= Last()
    {
      BlockIndex(if id == 0 then None else Some(Parent(id) as Hash), Height(id), 0, 1000 * id, Trust(id), BlockOf(id))
    }

    function NodeOf(h: Hash): BlockIndex
      requires Valid() && 0 <= h as int <= Last()
    {
      Node(h as int)
    }

    function Nodes(n: nat): (m: map<Hash, BlockIndex>)
      requires Valid() && n <= Last()
      ensures forall h :: h in m <==> 0 <= h as int <= n
      ensures forall h :: h in m ==> m[h] == Node(h as int)
    {
      map h: Hash | 0 <= h <= n as Hash :: NodeOf(h)
    }

    lemma NodesLink(id: nat)
      requires Valid() && id <= Last()
      ensures Node(id).nHeight == Height(id) && Node(id).nChainTrust == Trust(id) && Node(id).block == BlockOf(id)
      ensures Node(id).nFile == 0 && Node(id).nBlockPos == 1000 * id
      ensures id == 0 ==> Node(id).pprev == None && Node(id).nHeight == 0
      ensures id > 0 ==>
                && Node(id).pprev == Some(Parent(id) as Hash) && Node(id).block.hashPrevBlock == Parent(id) as Hash
                && Node(id).nHeight == Node(Parent(id)).nHeight + 1 && Node(id).nChainTrust >= Node(Parent(id)).nChainTrust
    {
      hide BlockTrust, Vtx, BitsOf, Base;
    }

    /** The tree of the first n blocks. */
    ghost function Blocks(n: nat): (t: Tree)
      requires Valid() && n <= Last()
      ensures t.genesis == 0 && t.Valid() && (forall h :: h in t.nodes <==> 0 <= h as int <= n)
      ensures forall h :: h in t.nodes ==> t.nodes[h] == Node(h as int)
    {
      NodesMakeTree(n);
      Tree(0, Nodes(n))
    }

    lemma NodesMakeTree(n: nat)
      requires Valid() && n <= Last()
      ensures Tree(0, Nodes(n)).Valid()
    {
      NodesLink(0);
      hide Node, Valid, Nodes, Tree.LinksToParent;
      var t := Tree(0, Nodes(n));
      forall h | h in t.nodes && h != t.genesis
        ensures t.LinksToParent(h)
      {
        NodeLinks(t, n, h as int);
      }
    }

    lemma NodeLinks(t: Tree, n: nat, id: nat)
      requires Valid() && 1 <= id <= n <= Last() && t.nodes == Nodes(n)
      ensures id as Hash in t.nodes && t.LinksToParent(id as Hash)
    {
      NodesLink(id);
      hide Node, Valid, Nodes;
      assert Parent(id) as Hash in t.nodes;
    }

    lemma NodeAt(n: nat, id: nat)
      requires Valid() && id <= n <= Last()
      ensures var t, h := Blocks(n), id as Hash;
              && h in t.nodes && t.nodes[h] == Node(id) && t.nodes[h].nChainTrust == Trust(id) && t.nodes[h].nHeight == Height(id)
              && (h == t.genesis <==> id == 0) && t.nodes[h].block == BlockOf(id)
              && t.nodes[h].pprev == (if id == 0 then None else Some(Parent(id) as Hash))
    {
      NodesLink(id);
      hide Trust, Vtx, Nodes;
    }

    // ---------------------------------------------------------------- branches

    lemma OneLess(n: nat, id: nat, a: Hash)
      requires Valid() && 1 <= id <= n <= Last()
      ensures var t := Blocks(n);
              && id as Hash in t.nodes && Parent(id) as Hash in t.nodes
              && (t.Ancestor(a, id as Hash) <==> a == id as Hash || t.Ancestor(a, Parent(id) as Hash))
    {
      NodeAt(n, id);
      hide Node, Nodes, Valid, Blocks;
    }

    /** Who can be on the branch of block id. */
    lemma {:induction false} AncestorIs(n: nat, id: nat, a: Hash)
      requires Valid() && id <= n <= Last() && id as Hash in Blocks(n).nodes && Blocks(n).Ancestor(a, id as Hash)
      ensures 0 <= a as int <= id && Time(a as int) <= Time(id) && (Fast(id) ==> a as int <= fork || Fast(a as int))
      decreases id
    {
      hide Node, Nodes, Valid, Blocks;
      NodeAt(n, id);
      if id > 0 {
        OneLess(n, id, a);
        if a != id as Hash {
          AncestorIs(n, Parent(id), a);
        }
      }
    }

    // ---------------------------------------------------------------- the block files

    function FilesOf(id: nat): Disk
      requires Valid() && 1 <= id <= Last()
    {
      if id == Refused() then map[TxPos(Node(id), 0) := Base(id), TxPos(Node(id), 1) := Payment()] else map[TxPos(Node(id), 0) := Base(id)]
    }

    function Files(n: nat): Disk
      requires Valid() && n <= Last()
    {
      if n == 0 then map[] else Files(n - 1) + FilesOf(n)
    }

    lemma FilesOfAre(id: nat)
      requires Valid() && 1 <= id <= Last()
      ensures OnDisk(FilesOf(id), Node(id))
      ensures forall p :: p in FilesOf(id) ==> p.DiskTxPos? && p.nBlockPos == 1000 * id && (FilesOf(id)[p] == Base(id) || FilesOf(id)[p] == Payment())
    {
      hide Trust, HeightScript, Payout, BitsOf;
      var v := Vtx(id);
      assert v[..0] == [] && v[..1] == [v[0]] && v[..1][..0] == [];
      assert SumSize(v[..1]) == 100;
    }

    /** Every transaction by its hash. */
    function TxOf(h: Hash): Tx
      requires Valid()
    {
      if 0 <= h as int <= Last() then Base(h as int) else Payment()
    }

    lemma {:induction false} FilesAre(n: nat)
      requires Valid() && n <= Last()
      ensures forall p :: p in Files(n) ==> p.DiskTxPos? && p.nBlockPos <= 1000 * n && Files(n)[p] == TxOf(Files(n)[p].hash)
      ensures forall id :: 1 <= id <= n ==> OnDisk(Files(n), Node(id))
    {
      hide Node, Base, Payment, OnDisk, FilesOf;
      if n > 0 {
        FilesAre(n - 1);
        FilesOfAre(n);
        forall id | 1 <= id <= n
          ensures OnDisk(Files(n), Node(id))
        {
          StillOnDisk(n, id);
        }
        Identified(n);
      }
    }

    lemma Identified(n: nat)
      requires Valid() && 1 <= n <= Last()
      ensures Base(n) == TxOf(Base(n).hash) && Payment() == TxOf(Payment().hash)
    {
      hide HeightScript, Payout;
    }

    lemma StillOnDisk(n: nat, id: nat)
      requires Valid() && 1 <= id <= n <= Last()
      requires if id < n then OnDisk(Files(n - 1), Node(id)) else OnDisk(FilesOf(n), Node(n))
      requires forall p :: p in FilesOf(n) ==> p.DiskTxPos? && p.nBlockPos == 1000 * n
      ensures OnDisk(Files(n), Node(id))
    {
      hide FilesOf, Vtx, Trust, BitsOf;
    }

    lemma FilesIdentify()
      requires Valid()
      ensures HashesIdentify(Files(Last()))
    {
      FilesAre(Last());
      hide TxOf, Files;
    }

    lemma FundsOnDisk()
      requires Valid()
      ensures var pos := TxPos(Node(1), 0);
              pos.DiskTxPos? && pos != MEMPOOL_POS && pos in Files(Last()) && Files(Last())[pos] == BeanbaseAt(1) && pos.nBlockPos == 1000
    {
      FilesAre(Last());
      NodesLink(1);
      BaseOne();
      hide Files, Node, HeightScript, Base;
      assert OnDisk(Files(Last()), Node(1));
    }

    lemma BaseOne()
      requires Valid()
      ensures Base(1) == BeanbaseAt(1) && |Base(1).vout| == 2 && Vtx(1) == [Base(1)]
    {
      hide HeightScript;
    }

    // ---------------------------------------------------------------- which blocks connect

    /** A block of one beanbase that claims no more than it may. */
    predicate Plainly(id: nat) {
      1 <= id <= Last() && id != Refused() && id != Last()
    }

    lemma BaseIsWellFormed(id: nat)
      requires Valid() && 1 <= id <= Last()
      ensures WellFormed(Base(id)) && Base(id).sigOps == 0 && Base(id).nTime <= Time(id) && Base(id).vout == Payout(id)
    {
      PayoutInRange(id);
      hide HeightScript, SumOut, Payout;
      BeanbaseIsWellFormed(id as Hash, Height(id), Payout(id), if id == 1 then 0 else Time(id));
    }

    lemma PayoutInRange(id: nat)
      requires 1 <= id <= Last()
      ensures Payout(id) != [] && MoneyRange(SumOut(Payout(id))) && forall i :: 0 <= i < |Payout(id)| ==> MoneyRange(Payout(id)[i].nValue)
    {
      Sums();
      LastSum();
      hide SumOut;
    }

    lemma LastSum()
      ensures SumOut(Payout(Last())) == POW_SUBSIDY + 1
    {
      assert SumOut([]) == 0;
      assert Payout(Last())[..0] == [];
    }

    lemma PlainIsWellFormed(id: nat)
      requires Valid() && Plainly(id)
      ensures Node(id).block.vtx == [Base(id)] && OnlyBeanbase(Node(id).block)
    {
      Sums();
      BaseIsWellFormed(id);
      BaseHash(id);
      NodesLink(id);
      hide Trust, HeightScript, SumOut, BitsOf, Node, WellFormed, Base;
    }

    ghost function IndexAt(id: nat): Index
      requires Valid() && id <= Last()
    {
      ReplayIndex(Blocks(Last()), id as Hash)
    }

    lemma IndexStep(id: nat)
      requires Valid() && Plainly(id)
      ensures IndexAt(id) == IndexAt(Parent(id))[id as Hash := Fresh(TxPos(Node(id), 0), |Base(id).vout|)]
    {
      NodeAt(Last(), id);
      PlainIsWellFormed(id);
      BaseHash(id);
      OnlyBeanbaseEffect(IndexAt(Parent(id)), Node(id), Base(id));
      hide ConnectTxs, TxPos, Vtx, Trust, OnlyBeanbase, Base, Node;
    }

    lemma BaseHash(id: nat)
      requires Valid() && id <= Last()
      ensures Base(id).hash == id as Hash && Base(id).IsBeanBase()
    {
      hide HeightScript;
    }

    lemma IndexAtGenesis()
      requires Valid()
      ensures IndexAt(0) == map[]
    {
      hide Node;
    }

    /** The index holds the beanbases of the blocks so far, and the funds are not spent. */
    lemma {:induction false} IndexIs(id: nat)
      requires Valid() && (id == 0 || Plainly(id))
      ensures forall h :: h in IndexAt(id) ==> h as int <= id
      ensures id >= 1 ==> 1 in IndexAt(id) && IndexAt(id)[1] == Fresh(TxPos(Node(1), 0), 2)
    {
      hide IndexAt, Node, TxPos, Fresh, Base;
      if id == 0 {
        IndexAtGenesis();
      } else {
        IndexIs(Parent(id));
        IndexStep(id);
        BaseOne();
        var b: Hash := id as Hash;
        assert b as int == id && (id == 1 <==> b == 1);
      }
    }

    lemma PlainConnects(id: nat, r: BlockRules, fCheckSigs: bool)
      requires Valid() && Plainly(id) && Plain(r)
      ensures var t := Blocks(Last());
              id as Hash in t.nodes && id as Hash != t.genesis && Connects(r, t, Files(Last()), id as Hash, fCheckSigs)
    {
      NodeAt(Last(), id);
      PlainIsWellFormed(id);
      BaseHash(id);
      IndexIs(Parent(id));
      hide Vtx, SumOut, ReplayIndex, Files, OnlyBeanbase, Node, BlockConnects, Plain, HeightScript, Base;
      OnlyBeanbaseConnects(r, Blocks(Last()), Store(IndexAt(Parent(id)), Files(Last()), map[]), id as Hash, fCheckSigs);
    }

    // ---------------------------------------------------------------- the block with the bad signature

    /** The checks outside this model pass, but for the payment's signature. Signatures are checked from the checkpoint on, and the
        funds have matured by then. */
    ghost predicate Strict(r: BlockRules) {
      && Plain(r) && r.tx.nBlocksEstimate == Checkpoint() && r.tx.nBeanbaseMaturity <= Checkpoint()
      && forall txPrev, tx, i :: 0 <= i ==> (r.tx.verifySignature(txPrev, tx, i) <==> tx.hash != (Last() + 1) as Hash)
    }

    lemma RefusedVtx()
      requires Valid()
      ensures var node := Node(Refused());
              && node.block.vtx == [Base(Refused()), Payment()] && |node.block.vtx| == 2 && Base(Refused()).vout == NOTHING
              && !Payment().IsBeanBase() && !Payment().IsBeanStake() && !node.block.IsProofOfStake() && Parent(Refused()) == Checkpoint()
    {
      NodesLink(Refused());
      hide HeightScript, Trust, BitsOf;
    }

    lemma PaymentSum()
      ensures SumOut(Payment().vout) == MIN_TX_FEE
    {
      assert SumOut([]) == 0;
      assert Payment().vout[..0] == [];
    }

    lemma RefusedIsWellFormed(r: BlockRules)
      requires Valid() && Plain(r)
      ensures BlockWellFormed(r, Node(Refused()).block)
    {
      PaymentIsWellFormed();
      RefusedVtx();
      NodesLink(Refused());
      BaseHash(Refused());
      BaseIsWellFormed(Refused());
      hide Trust, HeightScript, SumOut, BitsOf, Node, BlockWellFormed, Base, WellFormed;
      TwoAreWellFormed(r, Node(Refused()).block, Base(Refused()), Payment());
    }

    lemma PaymentIsWellFormed()
      ensures WellFormed(Payment())
    {
      PaymentSum();
      hide SumOut;
    }

    /** Before the payment comes, the funds are there. */
    lemma PaymentSpends(s: Store)
      requires Valid() && s.disk == Files(Last()) && s.txdb == IndexAt(Checkpoint())
      ensures |Node(Refused()).block.vtx| == 2 && SpendsFunds(ViewAt(s, Node(Refused()), 1), Payment(), 0, TxPos(Node(1), 0))
      ensures Base(Refused()).hash !in s.txdb && Payment().hash !in s.txdb
    {
      hide IndexAt, Files, TxPos, Base, HeightScript, ConnectTxs, Node, Fresh, SpendsFunds, Payment;
      IndexIs(Checkpoint());
      FundsOnDisk();
      RefusedVtx();
      AfterBase(s.txdb);
      BaseHash(Refused());
      PaymentHash();
      var b: Hash := Refused() as Hash;
      assert b as int == Refused() && b != 1;
      FundsThere(ViewAt(s, Node(Refused()), 1), TxPos(Node(1), 0));
    }

    lemma PaymentHash()
      ensures Payment().hash as int == Last() + 1
    {
    }

    lemma FundsThere(v: Store, pos: DiskTxPos)
      requires pos.DiskTxPos? && pos != MEMPOOL_POS && pos in v.disk && v.disk[pos] == BeanbaseAt(1)
      requires 1 in v.txdb && v.txdb[1] == Fresh(pos, 2)
      ensures SpendsFunds(v, Payment(), 0, pos)
    {
    }

    lemma AfterBase(ix: Index)
      requires Valid()
      ensures |Node(Refused()).block.vtx| == 2
      ensures ConnectTxs(ix, Node(Refused()), 1) == ix[Refused() as Hash := Fresh(TxPos(Node(Refused()), 0), 1)]
    {
      RefusedVtx();
      BaseHash(Refused());
      hide TxPos, Node, Base;
      assert ConnectTxs(ix, Node(Refused()), 0) == ix;
    }

    lemma PaymentTotals(r: BlockRules, s: Store)
      requires Valid() && Plain(r) && |Node(Refused()).block.vtx| == 2
      requires SpendsFunds(ViewAt(s, Node(Refused()), 1), Payment(), 0, TxPos(Node(1), 0))
      ensures Tally(r.tx, s, Node(Refused()), 1) == Totals(0, 0, 0, 0, 0)
      ensures Tally(r.tx, s, Node(Refused()), 2) == Totals(2 * MIN_TX_FEE, MIN_TX_FEE, MIN_TX_FEE, 0, 0)
    {
      PaymentSum();
      RefusedVtx();
      FirstTotals(r, s);
      PaymentSigOps();
      hide Tally, SumOut, SpendsFunds, ViewAt, HeightScript, Node, Base, TxPos, Payment;
      NextTotals(r, s, Node(Refused()), 1, 0, TxPos(Node(1), 0), MIN_TX_FEE);
    }

    lemma PaymentSigOps()
      ensures Payment().sigOps == 0 && FUNDS[0].nValue == 2 * MIN_TX_FEE
    {
    }

    lemma FirstTotals(r: BlockRules, s: Store)
      requires Valid() && |Node(Refused()).block.vtx| == 2
      ensures Tally(r.tx, s, Node(Refused()), 1) == Totals(0, 0, 0, 0, 0)
    {
      Sums();
      RefusedVtx();
      BaseHash(Refused());
      hide SumOut, HeightScript, InputsFrom, ConnectTxs, Node;
      assert Tally(r.tx, s, Node(Refused()), 0) == Totals(0, 0, 0, 0, 0);
    }

    lemma FundsAreMature(nMaturity: nat)
      requires Valid() && nMaturity <= Checkpoint()
      ensures var t := Blocks(Last()); Refused() as Hash in t.nodes && !Immature(t, Refused() as Hash, nMaturity, TxPos(Node(1), 0))
    {
      hide Node, Nodes, Blocks, Tree.Ancestor, Tree.Valid, TxPos;
      var t, b, pos := Blocks(Last()), Refused() as Hash, TxPos(Node(1), 0);
      NodeAt(Last(), Refused());
      FundsOnDisk();
      forall a | t.Ancestor(a, b) && LocatedIn(t, a, pos)
        ensures !AtDepthBelow(t, a, b, nMaturity)
      {
        AncestorIs(Last(), Refused(), a);
        NodeAt(Last(), a as int);
        NodesLink(a as int);
        assert a as int == 1;
      }
    }

    lemma PaymentTxsOk(r: BlockRules, s: Store, fCheckSigs: bool)
      requires Valid() && Strict(r)
      requires s.disk == Files(Last()) && s.txdb == IndexAt(Checkpoint())
      ensures var t, b := Blocks(Last()), Refused() as Hash;
              && b in t.nodes && t.nodes[b] == Node(Refused()) && |Node(Refused()).block.vtx| == 2
              && (TxsOk(r.tx, t, s, b, 2, fCheckSigs) <==> !fCheckSigs)
    {
      hide Vtx, SumOut, ReplayIndex, Files, Node, HeightScript, Tally, TxAccepted, SpendsFunds, ConnectTxs, TxPos, Base, Payment,
           Valid, Immature, Plain;
      var t, b, node := Blocks(Last()), Refused() as Hash, Node(Refused());
      NodeAt(Last(), Refused());
      RefusedVtx();
      PaymentSpends(s);
      PaymentTotals(r, s);
      PaymentSum();
      PaymentHash();
      BaseHash(Refused());
      FundsAreMature(r.tx.nBeanbaseMaturity);
      PaymentSize();
      OneInputAccepted(r.tx, t, b, ViewAt(s, node, 1), Payment(), 0, TxPos(Node(1), 0), fCheckSigs);
      NoLiveDuplicates(s.txdb, node);
      FirstAccepted(r.tx, t, b, ViewAt(s, node, 0), Base(Refused()), fCheckSigs);
      assert TxsOk(r.tx, t, s, b, 0, fCheckSigs);
      assert TxsOk(r.tx, t, s, b, 1, fCheckSigs);
    }

    lemma PaymentSize()
      ensures Payment().size == 100 && MIN_TX_FEE == FUNDS[0].nValue - MIN_TX_FEE
    {
    }

    lemma NoLiveDuplicates(ix: Index, node: BlockIndex)
      ensures forall k :: 0 <= k < |node.block.vtx| && node.block.vtx[k].hash !in ix ==> NoLiveDuplicate(ix, node.block.vtx[k].hash)
    {
    }

    lemma FirstAccepted(r: Rules, t: Tree, b: Hash, s: Store, tx: Tx, fCheckSigs: bool)
      requires t.Valid() && b in t.nodes && tx.IsBeanBase()
      ensures TxAccepted(r, t, b, s, tx, fCheckSigs)
    {
    }

    /** The refused block connects exactly when signatures are not checked. */
    lemma RefusedConnects(r: BlockRules, fCheckSigs: bool)
      requires Valid() && Strict(r)
      ensures var t, b := Blocks(Last()), Refused() as Hash;
              b in t.nodes && b != t.genesis && (Connects(r, t, Files(Last()), b, fCheckSigs) <==> !fCheckSigs)
    {
      hide Vtx, SumOut, ReplayIndex, Files, Node, HeightScript, Tally, TxsOk, SpendsFunds, TxPos, Base, Payment, BlockWellFormed;
      NodeAt(Last(), Refused());
      RefusedIsWellFormed(r);
      RefusedVtx();
      Sums();
      var s := Store(IndexAt(Checkpoint()), Files(Last()), map[]);
      PaymentTxsOk(r, s, fCheckSigs);
      PaymentSpends(s);
      PaymentTotals(r, s);
    }

    // ---------------------------------------------------------------- the last block

    lemma LastVtx()
      requires Valid()
      ensures Node(Last()).block.vtx == [Base(Last())] && |Base(Last()).vout| == 1
      ensures SumOut(Base(Last()).vout) == POW_SUBSIDY + 1
    {
      NodesLink(Last());
      LastSum();
      hide HeightScript, Trust, BitsOf, SumOut;
    }

    lemma LastIsWellFormed(r: BlockRules)
      requires Valid() && Plain(r)
      ensures BlockWellFormed(r, Node(Last()).block)
    {
      LastVtx();
      NodesLink(Last());
      BaseHash(Last());
      BaseIsWellFormed(Last());
      hide HeightScript, SumOut, BlockWellFormed, Node, BitsOf, Trust, Base, WellFormed;
      OneIsWellFormed(r, Node(Last()).block, Base(Last()));
    }

    /** It pays its maker too much. */
    lemma LastDoesNotConnect(r: BlockRules, fCheckSigs: bool)
      requires Valid() && Plain(r)
      ensures var t, b := Blocks(Last()), Last() as Hash; b in t.nodes && b != t.genesis && !Connects(r, t, Files(Last()), b, fCheckSigs)
    {
      NodeAt(Last(), Last());
      LastVtx();
      BaseHash(Last());
      hide HeightScript, ReplayIndex, BlockWellFormed, TxsOk, SumOut, Node, Files, Base;
      var s, node := Store(ReplayIndex(Blocks(Last()), Node(Last()).pprev.value), Files(Last()), map[]), Node(Last());
      assert Tally(r.tx, s, node, 0) == Totals(0, 0, 0, 0, 0);
    }

    // ---------------------------------------------------------------- what each block does to the tip

    /** The best block after block id has come in. */
    function Best(id: nat): (b: nat)
      ensures b <= id
    {
      if Checkpoint() < id < fork + 20 then Checkpoint() else id
    }

    /** Where the first phase of SetBestChain stops. */
    function Mid(id: nat): (m: nat)
      ensures m <= id
    {
      if id == Last() then Refused() else id
    }

    /** Whether signatures are checked when block id comes in. */
    predicate Checked(id: nat)
      requires 1 <= id <= Last()
    {
      Checkpoint() < id < Last()
    }

    lemma CheckedIs(id: nat)
      requires 1 <= id <= Last()
      ensures Checked(id) <==> Height(Best(id - 1)) >= Checkpoint()
    {
    }

    lemma EachConnects(r: BlockRules, id: nat, fCheckSigs: bool)
      requires Valid() && Strict(r) && id < Last() && (id == Refused() ==> !fCheckSigs)
      ensures BlockConnectsAt(r, Blocks(Last()), Files(Last()), id as Hash, fCheckSigs)
    {
      hide Node, Nodes, Connects, Files, Plain;
      NodeAt(Last(), id);
      if id == Refused() {
        RefusedConnects(r, fCheckSigs);
      } else if id > 0 {
        PlainConnects(id, r, fCheckSigs);
      }
    }

    /** The blocks below the refused one and the fast ones could become the tip, whatever is checked; the refused one if
        signatures are not checked. */
    lemma CanBeAdopted(r: BlockRules, best: nat, id: nat, fCheckSigs: bool)
      requires Valid() && Strict(r) && best <= Last() && id < Last() && (id == Refused() ==> !fCheckSigs)
      ensures var t := Blocks(Last());
              && best as Hash in t.nodes && id as Hash in t.nodes
              && Adoptable(r, t, Files(Last()), best as Hash, id as Hash, fCheckSigs)
    {
      hide Node, Nodes, Files, Strict, Tree.Ancestor, Blocks, Tree.Valid, BlockConnectsAt;
      var t := Blocks(Last());
      NodeAt(Last(), id);
      NodeAt(Last(), best);
      forall x | t.Ancestor(x, id as Hash)
        ensures BlockConnectsAt(r, t, Files(Last()), x, fCheckSigs)
      {
        AncestorIs(Last(), id, x);
        EachConnects(r, x as int, fCheckSigs);
      }
    }

    /** A block that does not connect could not, unless it is on the best branch already. */
    lemma CannotBeAdopted(r: BlockRules, best: nat, id: nat, fCheckSigs: bool)
      requires Valid() && Strict(r) && best <= Last() && (best < id || (Fast(best) && id == Refused()))
      requires id == Last() || (id == Refused() && fCheckSigs)
      ensures var t := Blocks(Last());
              && best as Hash in t.nodes && id as Hash in t.nodes
              && !Adoptable(r, t, Files(Last()), best as Hash, id as Hash, fCheckSigs)
    {
      hide Node, Nodes, Files, Tree.Ancestor, Blocks, Tree.Valid, Connects, Plain;
      var t, h := Blocks(Last()), id as Hash;
      NodeAt(Last(), id);
      NodeAt(Last(), best);
      AncestorSelf(t, h);
      if t.Ancestor(h, best as Hash) {
        AncestorIs(Last(), best, h);
      }
      if id == Last() {
        LastDoesNotConnect(r, fCheckSigs);
      } else {
        RefusedConnects(r, fCheckSigs);
      }
      assert !BlockConnectsAt(r, t, Files(Last()), h, fCheckSigs);
    }

    lemma BlocksGrow(n: nat)
      requires Valid() && n <= Last()
      ensures Grows(Blocks(n), Blocks(Last()))
    {
      hide Node, Nodes, Valid;
    }

    /** What SetBestChain is up against when block id has come in. */
    lemma Outcome(r: BlockRules, id: nat)
      requires Valid() && Strict(r) && 1 <= id <= Last()
      ensures var u, best, mid, h, sigs := Blocks(id), Best(id - 1) as Hash, Mid(id) as Hash, id as Hash, Checked(id);
              && best in u.nodes && h in u.nodes && mid in u.nodes
              && (Adoptable(r, u, Files(Last()), best, mid, sigs) <==> id != Refused())
              && (Adoptable(r, u, Files(Last()), best, h, sigs) <==> id != Refused() && id != Last())
    {
      hide Node, Nodes, Adoptable, Files, Strict, Blocks, Grows;
      BlocksGrow(id);
      NodeAt(id, id);
      NodeAt(id, Best(id - 1));
      NodeAt(id, Mid(id));
      var u, best, sigs := Blocks(id), Best(id - 1), Checked(id);
      if id == Refused() {
        CannotBeAdopted(r, best, id, sigs);
      } else if id == Last() {
        CannotBeAdopted(r, best, id, sigs);
        CanBeAdopted(r, best, Refused(), sigs);
      } else {
        CanBeAdopted(r, best, id, sigs);
      }
      AdoptableStable(r, u, Blocks(Last()), Files(Last()), best as Hash, Mid(id) as Hash, sigs);
      AdoptableStable(r, u, Blocks(Last()), Files(Last()), best as Hash, id as Hash, sigs);
    }

    // ---------------------------------------------------------------- which branch is heavier

    lemma OnTimeAdds(id: nat, w: nat)
      requires 1 <= id <= Last() && !Fast(id) && w == Weight(1)
      ensures Trust(id) == Trust(Parent(id)) + w
    {
      hide BlockTrust, BitsOf, Weight;
      BlockTrustIs(id);
    }

    lemma {:induction false} OnTimeFromFork(k: nat, w: nat)
      requires k <= 11 && w == Weight(1)
      ensures Trust(fork + k) == Trust(fork) + k * w
    {
      hide BlockTrust, BitsOf, Weight, Trust;
      if k > 0 {
        OnTimeFromFork(k - 1, w);
        OnTimeAdds(fork + k, w);
        OneMore(k - 1, w);
      }
    }

    /** What the main branch and the fast one carry above the fork. */
    lemma AboveTheFork(w: nat)
      requires w == Weight(1)
      ensures w > 0 && Trust(Checkpoint()) == Trust(fork) + 10 * w && Trust(Refused()) == Trust(fork) + 11 * w
      ensures RowTrust(8) <= 10 * w < RowTrust(9) < 11 * w
    {
      hide Trust, Weight, RowTrust;
      NineBeatTen();
      OnTimeFromFork(10, w);
      OnTimeFromFork(11, w);
    }

    /** Eight of the fast blocks are not enough. */
    predicate Heavier(id: nat) {
      !(Fast(id) && id < fork + 20)
    }

    lemma HeavierOnTime(id: nat, w: nat)
      requires 1 <= id <= Refused() && w == Weight(1)
      ensures Parent(id) == Best(id - 1) && Trust(id) > Trust(Parent(id))
    {
      hide Weight, RowTrust, Trust;
      AboveTheFork(w);
      OnTimeAdds(id, w);
    }

    lemma HeavierFast(id: nat, w: nat)
      requires Fast(id) && w == Weight(1)
      ensures Trust(id) > Trust(Checkpoint()) <==> Heavier(id)
      ensures Heavier(id) ==> Trust(Parent(id)) <= Trust(Checkpoint())
    {
      hide Weight, RowTrust, Trust;
      AboveTheFork(w);
      TrustFast(id);
      if id == fork + 20 {
        TrustFast(id - 1);
      } else {
        RowTrustGrows(id - fork - 11, 8);
      }
    }

    lemma HeavierLast(w: nat)
      requires w == Weight(1)
      ensures Trust(Last()) > Trust(Refused()) > Trust(fork + 20) >= Trust(Checkpoint())
    {
      hide Weight, RowTrust, Trust;
      AboveTheFork(w);
      OnTimeAdds(Last(), w);
      TrustFast(fork + 20);
    }

    lemma HeavierIs(id: nat)
      requires 1 <= id <= Last()
      ensures Trust(id) > Trust(Best(id - 1)) <==> Heavier(id)
      ensures Heavier(id) && id != Last() ==> Trust(Parent(id)) <= Trust(Best(id - 1))
      ensures id == Last() ==> Trust(Parent(id)) > Trust(Best(id - 1)) >= Trust(Parent(Parent(id)))
    {
      hide Trust, Weight;
      if Fast(id) {
        HeavierFast(id, Weight(1));
      } else if id == Last() {
        HeavierLast(Weight(1));
      } else {
        HeavierOnTime(id, Weight(1));
      }
    }

    /** The intermediate blocks. */
    lemma MidIs(id: nat)
      requires Valid() && 1 <= id <= Last()
      ensures var u, best, h := Blocks(id), Best(id - 1) as Hash, id as Hash;
              && best in u.nodes && h in u.nodes
              && (u.nodes[h].nChainTrust > u.nodes[best].nChainTrust <==> Heavier(id))
              && (Heavier(id) ==> Intermediate(u, best, h) == Mid(id) as Hash)
    {
      hide Trust, Nodes, Node, Blocks, Tree.Valid;
      HeavierIs(id);
      NodeAt(id, id);
      NodeAt(id, Best(id - 1));
      NodeAt(id, Parent(id));
      if id == Last() {
        NodeAt(id, Parent(Parent(id)));
      }
    }

    // ---------------------------------------------------------------- AcceptBlock's checks

    lemma Kind(id: nat)
      requires Valid() && id <= Last()
      ensures !BlockOf(id).IsProofOfStake()
    {
      hide HeightScript, BitsOf, Payout;
    }

    lemma LastIndexIs(n: nat, id: nat)
      requires Valid() && id <= n <= Last()
      ensures id as Hash in Blocks(n).nodes && LastBlockIndex(Blocks(n), id as Hash, false) == id as Hash
    {
      hide Node, Nodes, Blocks, Vtx, Block.IsProofOfStake, BlockOf;
      Kind(id);
      NodeAt(n, id);
    }

    /** The required target follows from the block below and the one below that, unless one of them is genesis. */
    lemma LastTwoIs(id: nat)
      requires Valid() && 1 <= id <= Last()
      ensures var p := Parent(id);
              LastTwo(Blocks(id - 1), p as Hash, false)
              == if p == 0 || Parent(p) == 0 then None else Some((p as Hash, Parent(p) as Hash))
    {
      hide Node, Nodes, Blocks, LastBlockIndex, Vtx;
      var n, p := id - 1, Parent(id);
      LastIndexIs(n, p);
      NodeAt(n, p);
      if p > 0 {
        LastIndexIs(n, Parent(p));
        NodeAt(n, Parent(p));
      }
    }

    lemma SpacingIs(n: nat, p: nat)
      requires Valid() && 1 <= p <= n <= Last()
      ensures var t := Blocks(n);
              && p as Hash in t.nodes && Parent(p) as Hash in t.nodes && t.nodes[p as Hash].block.nBits == BitsOf(p)
              && ActualSpacing(t, (p as Hash, Parent(p) as Hash)) == if Fast(p) then 1 else TARGET_SPACING
    {
      NodeAt(n, p);
      NodeAt(n, Parent(p));
      hide Node, Nodes, Blocks, Vtx, BitsOf;
    }

    lemma BitsAreCompact(n: nat)
      requires Valid() && n <= Last()
      ensures CompactBits(Blocks(n))
    {
      hide Nodes, Vtx, Trust, Faster, Bits;
    }

    /** Every block has the target the code asks for. */
    lemma Required(limit: nat, id: nat)
      requires Valid() && limit == (TWO_TO_256 - 1) / 0x10_0000 && 1 <= id <= Last()
      ensures CompactBits(Blocks(id - 1)) && RequiredBits(Blocks(id - 1), Parent(id) as Hash, false, limit) == BitsOf(id)
    {
      hide *;
      var p := Parent(id);
      BitsAreCompact(id - 1);
      TwoBelow(id);
      RowBits(id);
      RowBits(p);
      AfterFast(id);
      if Fast(p) {
        RequiredFast(Blocks(id - 1), p as Hash, limit, p - fork - 11);
      } else {
        RequiredOnTime(Blocks(id - 1), p as Hash, limit);
      }
    }

    lemma TwoBelow(id: nat)
      requires Valid() && 1 <= id <= Last()
      ensures var t, p := Blocks(id - 1), Parent(id);
              && p as Hash in t.nodes
              && var two := LastTwo(t, p as Hash, false);
                 && (two.Some? ==> ActualSpacing(t, two.value) == (if Fast(p) then 1 else TARGET_SPACING)
                                   && t.nodes[two.value.0].block.nBits == BitsOf(p))
                 && (Fast(p) ==> two.Some?)
    {
      hide Node, Nodes, Blocks, BitsOf, ActualSpacing, LastTwo, Tree.Valid, Parent, Fast;
      LastTwoIs(id);
      NodeAt(id - 1, Parent(id));
      if Parent(id) > 0 {
        SpacingIs(id - 1, Parent(id));
      }
    }

    lemma AfterFast(id: nat)
      requires 1 <= id <= Last()
      ensures Fast(Parent(id)) ==> Parent(id) == id - 1 && Fast(id) && 1 <= id - 1 - fork - 11 < 9
      ensures !Fast(Parent(id)) ==> !Fast(id) || id == fork + 12
    {
    }

    lemma RowBits(id: nat)
      ensures Fast(id) ==> BitsOf(id) == Bits(Faster(id - fork - 11))
      ensures !Fast(id) || id == fork + 12 ==> BitsOf(id) == Bits(0xF_FFFF)
    {
      hide Bits;
    }

    lemma OnTimeOk(n: nat, id: nat)
      requires Valid() && 1 <= id <= Last() && n == id - 1
      ensures Parent(id) as Hash in Blocks(n).nodes && TimeOk(Blocks(n), Parent(id) as Hash, Time(id))
    {
      hide Node, Nodes, Blocks, TimeOk, Tree.Valid, Tree.Ancestor, Vtx, BitsOf;
      var t, p := Blocks(n), Parent(id) as Hash;
      NodeAt(n, Parent(id));
      forall a | t.Ancestor(a, p) && a in t.nodes
        ensures t.nodes[a].block.nTime < Time(id)
      {
        AncestorIs(n, Parent(id), a);
        NodeAt(n, a as int);
      }
      LaterIsOk(t, p, Time(id));
    }

    lemma NodesGrow(id: nat)
      requires Valid() && 1 <= id <= Last()
      ensures var t := Blocks(id - 1); id as Hash !in t.nodes && Blocks(id) == t.(nodes := t.nodes[id as Hash := Node(id)])
    {
      hide Node, Valid;
      var t, u := Blocks(id - 1), Blocks(id);
      forall h
        ensures h in u.nodes <==> h in t.nodes || h == id as Hash
      {
      }
    }

    lemma NewNodeIs(id: nat)
      requires Valid() && 1 <= id <= Last()
      ensures var prev, b := Node(Parent(id)), BlockOf(id);
              b.nBits < 0x1_0000_0000 && b.hashPrevBlock == Parent(id) as Hash && b.hash == id as Hash && b.nTime == Time(id) &&
              b.vtx == Vtx(id) && b.nBits == BitsOf(id) &&
              Node(id) == BlockIndex(Some(b.hashPrevBlock), prev.nHeight + 1, 0, 1000 * id, prev.nChainTrust + BlockTrust(b.nBits), b)
    {
      hide Vtx, BlockTrust, BitsOf;
    }

    lemma BaseStarts(id: nat)
      requires Valid() && 1 <= id <= Last()
      ensures |Vtx(id)| > 0 && |Vtx(id)[0].vin| > 0 && HeightScript(Height(id)) <= Vtx(id)[0].vin[0].scriptSig
    {
      hide HeightScript, Payout;
    }

    lemma Low(n: nat)
      requires Valid() && n <= Last()
      ensures LowTree(Blocks(n), fork + 12)
    {
      hide Vtx, Trust, Nodes;
    }

    /** The settings of the run: the main network's limit, the checkpoint, no proof-of-bean blocks, and the block files. */
    ghost predicate Fits(s: Settings)
      requires Valid()
    {
      && Strict(s.rules) && s.limit(false) == (TWO_TO_256 - 1) / 0x10_0000
      && s.checkpoints == map[Checkpoint() := Checkpoint() as Hash] && (forall b :: s.contextOk(b) <==> !b.IsProofOfStake())
      && s.disk == Files(Last())
    }

    function EventOf(id: nat): Event
      requires Valid() && id <= Last()
    {
      Received(BlockOf(id), 0, 0, 1000 * id)
    }

    /** Only the block at the checkpoint has its height, of those that come. */
    lemma PassesCheckpoint(id: nat)
      requires Valid() && 1 <= id <= Last()
      ensures CheckHardened(map[Checkpoint() := Checkpoint() as Hash], Height(id), id as Hash) && Height(id) <= LAST_POW_BLOCK
    {
    }

    lemma MayComeIn(s: Settings, id: nat)
      requires Valid() && Fits(s) && 1 <= id <= Last()
      ensures var t, b := Blocks(id - 1), BlockOf(id);
              && CompactBits(t) && |b.vtx| > 0 && |b.vtx[0].vin| > 0 && (forall h :: h in t.nodes ==> t.nodes[h].nHeight < 0x7FFF_FFFF)
              && MayBeIndexed(t, s.limit, s.checkpoints, s.contextOk, b)
    {
      hide RequiredBits, HeightScript, BlockTrust, Nodes, Base, CompactBits, Node, Vtx, Blocks, Block.IsProofOfStake, BlockOf, TimeOk, BitsOf,
           Tree.Valid, CheckHardened, Parent, Height, Time, Strict, Files;
      BitsAreCompact(id - 1);
      Required(s.limit(false), id);
      Kind(id);
      BaseStarts(id);
      NewNodeIs(id);
      NodesGrow(id);
      Low(id - 1);
      NodeAt(id - 1, Parent(id));
      OnTimeOk(id - 1, id);
      PassesCheckpoint(id);
      HeightStep(id);
    }

    lemma HeightStep(id: nat)
      requires 1 <= id <= Last()
      ensures Height(id) == Height(Parent(id)) + 1
    {
    }

    lemma AllWellFormed(r: BlockRules, id: nat)
      requires Valid() && Plain(r) && 1 <= id <= Last()
      ensures BlockWellFormed(r, BlockOf(id))
    {
      NodesLink(id);
      hide BlockWellFormed, Node, BlockOf, Base, OnlyBeanbase;
      if id == Refused() {
        RefusedIsWellFormed(r);
      } else if id == Last() {
        LastIsWellFormed(r);
      } else {
        PlainIsWellFormed(id);
        BaseHash(id);
        BaseIsWellFormed(id);
        TimeOfBlock(id);
        hide WellFormed;
        OneIsWellFormed(r, BlockOf(id), Base(id));
      }
    }

    lemma TimeOfBlock(id: nat)
      requires Valid() && id <= Last()
      ensures BlockOf(id).nTime == Time(id)
    {
    }

    lemma IsIndexed(s: Settings, id: nat)
      requires Valid() && Fits(s) && 1 <= id <= Last()
      ensures var t, e := Blocks(id - 1), EventOf(id);
              CompactBits(t) && Indexes(s, t, e) && Grown(s, t, e) == Blocks(id) && e.block.hash == id as Hash
    {
      hide Strict, Blocks, Nodes, Node, Files, BlockOf, BlockWellFormed, MayBeIndexed, Tree.Valid, CompactBits, LowTree, Vtx, BlockTrust,
           Parent, Height, Time, BitsOf, WithNode;
      BitsAreCompact(id - 1);
      StrictIs(s.rules);
      MayComeIn(s, id);
      AllWellFormed(s.rules, id);
      NewNodeIs(id);
      Low(id - 1);
      LowFits(Blocks(id - 1));
      WithBlock(id);
    }

    lemma WithBlock(id: nat)
      requires Valid() && 1 <= id <= Last()
      ensures var t, b := Blocks(id - 1), BlockOf(id);
              b.hashPrevBlock in t.nodes && b.nBits < 0x1_0000_0000 && WithNode(t, b, 0, 1000 * id) == Blocks(id)
    {
      hide Blocks, Nodes, Node, BlockOf, Tree.Valid, Vtx, BlockTrust, Parent, Height, Time, BitsOf;
      NewNodeIs(id);
      NodesGrow(id);
      NodeAt(id - 1, Parent(id));
    }

    lemma LowFits(t: Tree)
      requires Valid() && LowTree(t, fork + 12)
      ensures LowTree(t, 0x7FFF_FFFE)
    {
    }

    lemma StrictIs(r: BlockRules)
      requires Strict(r)
      ensures Plain(r) && r.tx.nBlocksEstimate == Checkpoint()
    {
    }

    /** The tree and the tip after block id. */
    ghost function At(id: nat): (m: Moment)
      requires Valid() && id <= Last()
      ensures Sound(m)
    {
      BitsAreCompact(id);
      Moment(Blocks(id), Best(id) as Hash)
    }

    /** What each block does: all but the last leave the state whole. */
    lemma BlockComes(s: Settings, id: nat)
      requires Valid() && Fits(s) && 1 <= id <= Last()
      ensures After(s, At(id - 1), EventOf(id)) == At(id)
      ensures Breaks(s, At(id - 1), EventOf(id)) <==> id == Last()
    {
      hide Strict, Blocks, Nodes, Node, Files, BlockOf, Tree.Valid, CompactBits, Vtx, Adoptable, Intermediate, Indexes, Grown;
      IsIndexed(s, id);
      StrictIs(s.rules);
      MidIs(id);
      Outcome(s.rules, id);
      CheckedIs(id);
      NodeAt(id - 1, Best(id - 1));
    }

    // ---------------------------------------------------------------- the run

    function Events(n: nat): (events: seq<Event>)
      requires Valid() && n <= Last()
      ensures |events| == n
    {
      if n == 0 then [] else Events(n - 1) + [EventOf(n)]
    }

    lemma {:induction false} EventAt(n: nat, i: nat)
      requires Valid() && i < n <= Last()
      ensures Events(n)[i] == EventOf(i + 1)
    {
      hide EventOf;
      if i < n - 1 {
        EventAt(n - 1, i);
      }
    }

    lemma {:induction false} PlayIs(s: Settings, n: nat)
      requires Valid() && Fits(s) && n <= Last()
      ensures Play(s, At(0), Events(Last())[..n]) == At(n)
    {
      hide *;
      if n == 0 {
        PlayNothing(s, At(0), Events(Last()));
      } else {
        PlayIs(s, n - 1);
        EventAt(Last(), n - 1);
        PlayOneMore(s, At(0), Events(Last()), n - 1);
        BlockComes(s, n);
      }
    }

    lemma FewBlocks()
      requires Valid()
      ensures Last() < 0x7FFF_FFFF
    {
    }

    lemma AtLast()
      requires Valid()
      ensures At(Last()) == Moment(Blocks(Last()), Last() as Hash)
    {
      hide Blocks;
    }

    lemma StoredAt(id: nat)
      requires Valid() && 1 <= id <= Last()
      ensures Possible(Files(Last()), EventOf(id))
    {
      FilesAre(Last());
      NodesLink(id);
      NewNodeIs(id);
      hide Files, Node, BlockOf, TxPos;
      SamePlaces(Files(Last()), Node(id), BlockIndex(None, 0, 0, 1000 * id, 0, BlockOf(id)));
    }

    /** Genesis, as the constructor stores it. */
    lemma Start()
      requires Valid()
      ensures BlockOf(0).nBits < 0x1_0000_0000 && Genesis(BlockOf(0), 0, 0) == At(0)
    {
      hide BlockTrust, BitsOf;
      NodeAt(0, 0);
      var t := Blocks(0);
      assert t.nodes == map[0 := Node(0)];
    }

    /** On the way from the refused block to the last one there are only these two. */
    lemma OnTheWay(h: Hash)
      requires Valid() && h in Blocks(Last()).nodes && Last() as Hash in Blocks(Last()).nodes
      requires Blocks(Last()).Ancestor(Refused() as Hash, h) && Blocks(Last()).Ancestor(h, Last() as Hash)
      ensures h == Refused() as Hash || h == Last() as Hash
    {
      hide Blocks, Nodes, Node, Tree.Valid, Tree.Ancestor;
      OneLess(Last(), Last(), h);
      if h != Last() as Hash {
        AncestorIs(Last(), Refused(), h);
        AncestorIs(Last(), h as int, Refused() as Hash);
      }
    }

    /** Where index and links stand in the end: at the block refused before. */
    lemma ReachedIs(c: ChainState, reached: Hash)
      requires Valid() && Fits(Of(c)) && Breaks(Of(c), At(Last() - 1), EventOf(Last()))
      requires c.tree == Blocks(Last()) && StandsAfterBreak(c, At(Last() - 1), EventOf(Last()), reached)
      ensures reached == Refused() as Hash && c.At(reached)
    {
      hide Strict, Blocks, Nodes, Node, Files, BlockOf, Tree.Valid, Tree.Ancestor, CompactBits, Vtx, Adoptable, Intermediate, Indexes, Grown,
           Breaks, NextFails, ChainState.At, SigsChecked, BitsOf, Parent, Height, Time, Sound;
      IsIndexed(Of(c), Last());
      StrictIs(c.rules);
      MidIs(Last());
      EndsChecked(Of(c));
      Outcome(c.rules, Last());
      OnTheWay(reached);
    }

    lemma EndsChecked(s: Settings)
      requires Valid() && Fits(s)
      ensures SigsChecked(s, At(Last() - 1)) <==> Checked(Last())
    {
      hide Strict, Blocks, Nodes, Node, Files;
      EstimateIs(s);
      CheckedIs(Last());
      NodeAt(Last() - 1, Best(Last() - 1));
    }

    lemma SigsAt(s: Settings, id: nat)
      requires Valid() && Fits(s) && id <= Last()
      ensures SigsChecked(s, At(id)) <==> Checkpoint() <= id < fork + 20 || id == Last()
    {
      hide Fits, Blocks, Nodes, Node, Sound;
      EstimateIs(s);
      NodeAt(id, Best(id));
    }

    lemma SignaturesFall(s: Settings)
      requires Valid() && Fits(s)
      ensures |Events(Last())| == Last() && Falls(s, At(0), Events(Last()), fork + 19)
    {
      hide Fits, EventOf, Play, After, Sound, Events, SigsChecked, At;
      PlayIs(s, fork + 19);
      PlayIs(s, fork + 20);
      SigsAt(s, fork + 19);
      SigsAt(s, fork + 20);
    }

    lemma EstimateIs(s: Settings)
      requires Valid() && Fits(s)
      ensures s.rules.tx.nBlocksEstimate == Checkpoint() && s.disk == Files(Last())
    {
      hide Files;
    }

    lemma FitsIs(s: Settings, nMaturity: nat)
      requires Valid() && nMaturity <= Checkpoint()
      requires s.rules == Refusing(nMaturity, Checkpoint(), (Last() + 1) as Hash)
      requires s.limit(false) == (TWO_TO_256 - 1) / 0x10_0000 && s.checkpoints == map[Checkpoint() := Checkpoint() as Hash]
      requires (forall b :: s.contextOk(b) <==> !b.IsProofOfStake()) && s.disk == Files(Last())
      ensures Fits(s)
    {
      hide Files;
    }

    lemma AllReceived(s: Settings)
      requires Valid() && Fits(s)
      ensures forall e :: e in Events(Last()) ==> e.Received? && Possible(s.disk, e)
    {
      hide *;
      var events := Events(Last());
      EstimateIs(s);
      forall e | e in events
        ensures e.Received? && Possible(s.disk, e)
      {
        var i :| 0 <= i < |events| && events[i] == e;
        EventAt(Last(), i);
        StoredAt(i + 1);
        EventIs(i + 1);
      }
    }

    lemma EventIs(id: nat)
      requires Valid() && 1 <= id <= Last()
      ensures EventOf(id).Received? && EventOf(id).block.hash == id as Hash && EventOf(id).block.hashPrevBlock == Parent(id) as Hash
    {
      NewNodeIs(id);
      hide BlockOf;
    }

    lemma BreaksAt(s: Settings, i: nat)
      requires Valid() && Fits(s) && i < Last()
      ensures Breaks(s, Play(s, At(0), Events(Last())[..i]), Events(Last())[i]) <==> i == Last() - 1
    {
      hide *;
      EventAt(Last(), i);
      PlayIs(s, i);
      BlockComes(s, i + 1);
    }

    /** Only the last event breaks the state. */
    lemma BreaksInTheEnd(s: Settings)
      requires Valid() && Fits(s)
      ensures var events := Events(Last());
              && Play(s, At(0), events) == At(Last())
              && forall i :: 0 <= i < |events| ==> (Breaks(s, Play(s, At(0), events[..i]), events[i]) <==> i == |events| - 1)
    {
      hide *;
      var events := Events(Last());
      forall i | 0 <= i < |events|
        ensures Breaks(s, Play(s, At(0), events[..i]), events[i]) <==> i == |events| - 1
      {
        BreaksAt(s, i);
      }
      PlayIs(s, Last());
      assert events[..Last()] == events;
    }

    lemma LastEvent()
      requires Valid()
      ensures var events := Events(Last());
              && |events| > 0 && events[|events| - 1].Received?
              && events[|events| - 1].block.hash == Last() as Hash == At(Last()).best
              && events[|events| - 1].block.hashPrevBlock == Refused() as Hash
    {
      hide Events, Blocks, Nodes, Node, BlockOf, EventOf;
      EventAt(Last(), Last() - 1);
      EventIs(Last());
    }

    /** The start is the genesis block alone. */
    lemma StartsAlone()
      requires Valid()
      ensures At(0).best == At(0).tree.genesis == 0 && At(0).tree.nodes.Keys == {0 as Hash}
    {
      hide Node;
    }
  }

  lemma OneIsWellFormed(r: BlockRules, b: Block, tx: Tx)
    requires Plain(r) && b.vtx == [tx] && tx.IsBeanBase() && WellFormed(tx) && tx.nTime <= b.nTime && tx.sigOps == 0
    ensures BlockWellFormed(r, b)
  {
    hide WellFormed;
    assert b.vtx[..0] == [];
    assert SumSigOps(b.vtx) == 0;
  }

  lemma {:induction false} BeanbaseIsWellFormed(hash: Hash, k: nat, vout: seq<TxOut>, nTime: nat)
    requires k <= LAST_POW_BLOCK && vout != [] && MoneyRange(SumOut(vout))
    requires forall i :: 0 <= i < |vout| ==> MoneyRange(vout[i].nValue)
    ensures WellFormed(Beanbase(hash, k, vout).(nTime := nTime)) && Beanbase(hash, k, vout).sigOps == 0
  {
    HeightScriptLength(k);
    hide SumOut;
  }

  lemma TwoAreWellFormed(r: BlockRules, b: Block, base: Tx, tx: Tx)
    requires Plain(r) && b.vtx == [base, tx] && base.IsBeanBase() && !tx.IsBeanBase() && !tx.IsBeanStake() && base.hash != tx.hash
    requires WellFormed(base) && WellFormed(tx) && base.nTime <= b.nTime && tx.nTime <= b.nTime && base.sigOps == tx.sigOps == 0
    ensures BlockWellFormed(r, b)
  {
    hide WellFormed;
    assert b.vtx[..1] == [base] && b.vtx[..1][..0] == [];
    assert SumSigOps([base]) == 0;
    assert SumSigOps(b.vtx) == 0;
  }

  lemma SamePlaces(disk: Disk, a: BlockIndex, b: BlockIndex)
    requires OnDisk(disk, a) && a.nFile == b.nFile && a.nBlockPos == b.nBlockPos && a.block == b.block
    ensures OnDisk(disk, b)
  {
    forall k | 0 <= k < |b.block.vtx|
      ensures TxPos(b, k) in disk && disk[TxPos(b, k)] == b.block.vtx[k]
    {
      SamePlace(a, b, k);
    }
  }

  // ------------------------------------------------------------------ the whole run

  /** One block of the run. */
  method Receive(c: ChainState, scene: Scene, id: nat) returns (ghost reached: Hash)
    requires scene.Valid() && scene.Fits(Of(c)) && 1 <= id <= scene.Last()
    requires c.Consistent() && Now(c) == scene.At(id - 1) && LowTree(c.tree, id - 1)
    modifies c
    ensures Now(c) == scene.At(id) && LowTree(c.tree, id) && (c.Consistent() <==> id != scene.Last())
    ensures id == scene.Last() ==> c.At(scene.Refused() as Hash)
  {
    hide *;
    NowIs(c);
    scene.EstimateIs(Of(c));
    OfIs(c);
    scene.FewBlocks();
    scene.StoredAt(id);
    scene.BlockComes(Of(c), id);
    reached := Handle(c, scene.EventOf(id), id - 1);
    NowIs(c);
    if id == scene.Last() {
      scene.AtLast();
      scene.ReachedIs(c, reached);
    }
  }

  lemma OfIs(c: ChainState)
    ensures Of(c).disk == c.disk
  {
  }

  lemma NowIs(c: ChainState)
    ensures Now(c) == Moment(c.tree, c.pindexBest)
  {
  }

  lemma SceneFits(scene: Scene, nCheckpoint: nat)
    requires 11 <= nCheckpoint <= LAST_POW_BLOCK - 2 && scene == Scene(nCheckpoint - 10)
    ensures scene.Valid() && scene.Checkpoint() == nCheckpoint && scene.Last() == nCheckpoint + 11
    ensures scene.fork + 19 == nCheckpoint + 9
  {
  }

  /** For every checkpoint height from 11 to 9998, every maturity up to it, and the limit of the main network, there is a run of
      received blocks from genesis on, none of them proof-of-bean, that ends in a state that is not consistent. Each event but
      the last leaves the state consistent. The last one makes its block the tip, although that does not connect, and index and
      links stand at its parent. */
  method FailingRun(nCheckpoint: nat, nMaturity: nat, limit: bool -> nat)
    returns (c: ChainState, ghost start: Moment, ghost events: seq<Event>)
    requires 11 <= nCheckpoint <= LAST_POW_BLOCK - 2 && nMaturity <= nCheckpoint && limit(false) == (TWO_TO_256 - 1) / 0x10_0000
    ensures fresh(c) && c.limit == limit && Plain(c.rules)
    ensures c.rules.tx.nBlocksEstimate == nCheckpoint && c.rules.tx.nBeanbaseMaturity == nMaturity
    ensures (exists h: Hash :: c.checkpoints == map[nCheckpoint := h]) && forall b :: c.contextOk(b) <==> !b.IsProofOfStake()
    ensures HashesIdentify(c.disk) && forall e :: e in events ==> e.Received? && Possible(c.disk, e)
    ensures Sound(start) && start.best == start.tree.genesis && start.tree.nodes.Keys == {start.best}
    ensures |events| == nCheckpoint + 11 && Now(c) == Play(Of(c), start, events)
    ensures forall i :: 0 <= i < |events| ==> (Breaks(Of(c), Play(Of(c), start, events[..i]), events[i]) <==> i == |events| - 1)
    ensures Falls(Of(c), start, events, |events| - 2)
    ensures c.pindexBest == events[|events| - 1].block.hash && !c.Consistent() && c.At(events[|events| - 1].block.hashPrevBlock)
  {
    hide *;
    var scene := Scene(nCheckpoint - 10);
    SceneFits(scene, nCheckpoint);
    var r := Refusing(nMaturity, nCheckpoint, (nCheckpoint + 12) as Hash);
    var genesis, disk := scene.BlockOf(0), scene.Files(scene.Last());
    scene.FilesIdentify();
    scene.Start();
    c := new ChainState(r, limit, map[nCheckpoint := nCheckpoint as Hash], (b: Block) => !b.IsProofOfStake(), disk, (_, _) => 0, genesis, 0, 0, 0);
    start, events := scene.At(0), scene.Events(scene.Last());
    AtStart(c, genesis, 0, 0);
    scene.FitsIs(Of(c), nMaturity);
    ghost var reached;
    for id := 1 to scene.Last() + 1
      invariant fresh(c) && scene.Fits(Of(c)) && Now(c) == scene.At(id - 1) && LowTree(c.tree, id - 1)
      invariant c.Consistent() <==> id <= scene.Last()
      invariant id == scene.Last() + 1 ==> c.At(scene.Refused() as Hash)
    {
      reached := Receive(c, scene, id);
    }
    NowIs(c);
    scene.SignaturesFall(Of(c));
    scene.AllReceived(Of(c));
    scene.BreaksInTheEnd(Of(c));
    scene.LastEvent();
    scene.StartsAlone();
  }
}
