/** What a list of pooled transactions must satisfy to be put into a block in that order (src/miner.cpp). */
module Assembly {
  import opened Wrappers
  import opened Transactions
  import opened BlockTree
  import opened TxInputs
  import opened BlockConnection

  /** The transaction index once the listed transactions have been tentatively connected. */
  function PoolView(ix: Index, vtx: seq<Tx>): Index {
    if vtx == [] then ix else ConnectTx(PoolView(ix, vtx[..|vtx| - 1]), vtx[|vtx| - 1], MEMPOOL_POS)
  }

  function StoreAfter(s: Store, vtx: seq<Tx>): Store {
    s.(txdb := PoolView(s.txdb, vtx))
  }

  /** What the last transaction of the list pays: its inputs, as the index shows them then, minus its outputs. */
  function FeeAfter(s: Store, vtx: seq<Tx>, tx: Tx): int {
    ValueIn(InputsFrom(StoreAfter(s, vtx), tx.vin), tx.vin) - SumOut(tx.vout)
  }

  function TotalFees(s: Store, vtx: seq<Tx>): int {
    if vtx == [] then 0
    else TotalFees(s, vtx[..|vtx| - 1]) + FeeAfter(s, vtx[..|vtx| - 1], vtx[|vtx| - 1])
  }

  function SigOpsAfter(r: Rules, s: Store, vtx: seq<Tx>, tx: Tx): nat {
    tx.sigOps + P2shSigOps(r, InputsFrom(StoreAfter(s, vtx), tx.vin), tx.vin, tx)
  }

  function TotalSigOps(r: Rules, s: Store, vtx: seq<Tx>): nat {
    if vtx == [] then 0
    else TotalSigOps(r, s, vtx[..|vtx| - 1]) + SigOpsAfter(r, s, vtx[..|vtx| - 1], vtx[|vtx| - 1])
  }

  /** tx can follow the listed transactions: all its inputs are there and unspent, and it pays enough for a block that
      already has nBlockSize bytes. */
  ghost predicate CanFollow(r: Rules, t: Tree, best: Hash, s: Store, vtx: seq<Tx>, tx: Tx, nBlockSize: nat)
    requires t.Valid() && best in t.nodes
  {
    && !tx.IsBeanBase() && !tx.IsBeanStake()
    && TxAccepted(r, t, best, StoreAfter(s, vtx), tx, true)
    && FeeAfter(s, vtx, tx) >= GetMinFee(tx, nBlockSize)
  }

  /** Every transaction of the list can follow those before it; 1000 bytes are reserved for the rest of the block. */
  ghost predicate Assembled(r: Rules, t: Tree, best: Hash, s: Store, vtx: seq<Tx>)
    requires t.Valid() && best in t.nodes
  {
    vtx == [] ||
    (var front := vtx[..|vtx| - 1];
     Assembled(r, t, best, s, front) && CanFollow(r, t, best, s, front, vtx[|vtx| - 1], 1000 + SumSize(front)))
  }

  lemma {:induction false} AssembledAt(r: Rules, t: Tree, best: Hash, s: Store, vtx: seq<Tx>, k: nat)
    requires t.Valid() && best in t.nodes && Assembled(r, t, best, s, vtx) && k < |vtx|
    ensures CanFollow(r, t, best, s, vtx[..k], vtx[k], 1000 + SumSize(vtx[..k]))
  {
    hide CanFollow;
    if k < |vtx| - 1 {
      AssembledAt(r, t, best, s, vtx[..|vtx| - 1], k);
      assert vtx[..|vtx| - 1][..k] == vtx[..k];
    }
  }

  lemma {:induction false} PoolViewKeys(ix: Index, vtx: seq<Tx>)
    ensures PoolView(ix, vtx).Keys == ix.Keys + Txids(vtx)
  {
    if vtx == [] {
      assert Txids(vtx) == {};
    } else {
      PoolViewKeys(ix, vtx[..|vtx| - 1]);
      DistinctOneMore(vtx[..|vtx| - 1], vtx[|vtx| - 1]);
      assert vtx == vtx[..|vtx| - 1] + [vtx[|vtx| - 1]];
    }
  }

  /** Every transaction comes after all its unconfirmed parents: what an input names is in the index already or is an
      earlier transaction of the list. */
  lemma ParentsComeFirst(r: Rules, t: Tree, best: Hash, s: Store, vtx: seq<Tx>, k: nat, i: nat)
    requires t.Valid() && best in t.nodes && Assembled(r, t, best, s, vtx) && k < |vtx| && i < |vtx[k].vin|
    ensures vtx[k].vin[i].prevout.hash in s.txdb || exists j :: 0 <= j < k && vtx[j].hash == vtx[k].vin[i].prevout.hash
  {
    hide Assembled, InputsConnectable, AllInRange, PoolView;
    AssembledAt(r, t, best, s, vtx, k);
    PoolViewKeys(s.txdb, vtx[..k]);
    var h := vtx[k].vin[i].prevout.hash;
    assert Fetch(StoreAfter(s, vtx[..k]), map[], true, h).Some?;
    if h !in s.txdb {
      var j :| 0 <= j < |vtx[..k]| && vtx[..k][j].hash == h;
      assert vtx[j].hash == h;
    }
  }

  /** What each transaction of the list pays: a base fee for each thousand bytes begun, and at least twice that when it takes the
      block past half the size that is generated. */
  lemma FullBlocksCostMore(r: Rules, t: Tree, best: Hash, s: Store, vtx: seq<Tx>, k: nat)
    requires t.Valid() && best in t.nodes && Assembled(r, t, best, s, vtx) && k < |vtx|
    ensures var tx := vtx[k];
            var base, fTwice := (1 + tx.size / 1000) * MIN_TX_FEE, 2 * (1000 + SumSize(vtx[..k]) + tx.size) >= MAX_BLOCK_SIZE_GEN;
            FeeAfter(s, vtx[..k], tx) >= Min(if fTwice then 2 * base else base, MAX_MONEY)
  {
    hide *;
    AssembledAt(r, t, best, s, vtx, k);
    FollowerPays(r, t, best, s, vtx[..k], vtx[k], 1000 + SumSize(vtx[..k]));
    MinFeeIs(vtx[k], 1000 + SumSize(vtx[..k]));
  }

  lemma FollowerPays(r: Rules, t: Tree, best: Hash, s: Store, vtx: seq<Tx>, tx: Tx, nBlockSize: nat)
    requires t.Valid() && best in t.nodes && CanFollow(r, t, best, s, vtx, tx, nBlockSize)
    ensures FeeAfter(s, vtx, tx) >= GetMinFee(tx, nBlockSize)
  {
    hide TxAccepted, FeeAfter, GetMinFee;
  }
}
