/** Transactions, their context-free checks and amounts (src/main.h, src/core.h, src/main.cpp). */
module Transactions {
  import opened Wrappers

  type Byte = x: int | 0 <= x < 256
  type Script = seq<Byte>

  /** A uint256 that is a hash. Hashes are only ever compared. */
  newtype Hash = x: int | 0 <= x

  const BEAN: int := 100_000_000
  const MAX_MONEY: int := 21_000_000_000 * BEAN
  const MAX_BLOCK_SIZE: int := 20_000_000
  const MAX_BLOCK_SIZE_GEN: int := MAX_BLOCK_SIZE / 2
  const MAX_BLOCK_SIGOPS: int := MAX_BLOCK_SIZE / 50
  const MIN_TX_FEE: int := 1_000_000
  const NULL_N: nat := 0xFFFF_FFFF

  predicate MoneyRange(nValue: int) {
    0 <= nValue <= MAX_MONEY
  }

  datatype OutPoint = OutPoint(hash: Hash, n: nat) {
    predicate IsNull() {
      hash == 0 && n == NULL_N
    }
  }

  datatype TxIn = TxIn(prevout: OutPoint, scriptSig: Script)

  datatype TxOut = TxOut(nValue: int, scriptPubKey: Script) {
    predicate IsEmpty() {
      nValue == 0 && scriptPubKey == []
    }
  }

  /** `hash`, `size` and `sigOps` stand for GetHash(), the serialized size and GetLegacySigOpCount(). */
  datatype Tx = Tx(hash: Hash, nTime: nat, vin: seq<TxIn>, vout: seq<TxOut>, size: nat, sigOps: nat) {
    predicate IsBeanBase() {
      |vin| == 1 && vin[0].prevout.IsNull() && |vout| >= 1
    }

    predicate IsBeanStake() {
      |vin| > 0 && !vin[0].prevout.IsNull() && |vout| >= 2 && vout[0].IsEmpty()
    }
  }

  /** The sum of the amounts of a list of outputs. */
  function SumOut(vout: seq<TxOut>): int {
    if vout == [] then 0 else SumOut(vout[..|vout| - 1]) + vout[|vout| - 1].nValue
  }

  lemma {:induction false} SumOutPrefix(vout: seq<TxOut>, i: nat)
    requires i <= |vout|
    requires forall o :: o in vout ==> 0 <= o.nValue
    ensures 0 <= SumOut(vout[..i]) <= SumOut(vout)
    decreases |vout|
  {
    if i == |vout| {
      assert vout[..i] == vout;
      if i > 0 {
        SumOutPrefix(vout[..i - 1], i - 1);
        assert vout[..i - 1][..i - 1] == vout[..i - 1];
      }
    } else {
      var front := vout[..|vout| - 1];
      SumOutPrefix(front, i);
      assert front[..i] == vout[..i];
    }
  }

  predicate DistinctPrevouts(vin: seq<TxIn>) {
    forall i, j :: 0 <= i < j < |vin| ==> vin[i].prevout != vin[j].prevout
  }

  function Prevouts(vin: seq<TxIn>): (s: set<OutPoint>)
    ensures forall i :: 0 <= i < |vin| ==> vin[i].prevout in s
  {
    set i | 0 <= i < |vin| :: vin[i].prevout
  }

  /** What the context-free checks guarantee about a transaction. */
  predicate WellFormed(tx: Tx) {
    && tx.vin != [] && tx.vout != []
    && tx.size <= MAX_BLOCK_SIZE
    && (forall i :: 0 <= i < |tx.vout| ==> MoneyRange(tx.vout[i].nValue))
    && MoneyRange(SumOut(tx.vout))
    && (!tx.IsBeanBase() && !tx.IsBeanStake() ==> forall i :: 0 <= i < |tx.vout| ==> !tx.vout[i].IsEmpty())
    && DistinctPrevouts(tx.vin)
    && if tx.IsBeanBase() then 2 <= |tx.vin[0].scriptSig| <= 100
       else forall i :: 0 <= i < |tx.vin| ==> !tx.vin[i].prevout.IsNull()
  }

  /** CTransaction::CheckTransaction. */
  method CheckTransaction(tx: Tx) returns (ok: bool)
    ensures ok <==> WellFormed(tx)
  {
    if tx.vin == [] || tx.vout == [] || tx.size > MAX_BLOCK_SIZE {
      return false;
    }
    ok := CheckOutputs(tx);
    if !ok {
      return false;
    }
    ok := CheckInputs(tx);
  }

  /** The output loop of CheckTransaction: its running total stays in range exactly when every amount and the whole
      sum do. */
  method CheckOutputs(tx: Tx) returns (ok: bool)
    ensures ok <==> && (forall i :: 0 <= i < |tx.vout| ==> MoneyRange(tx.vout[i].nValue))
                    && MoneyRange(SumOut(tx.vout))
                    && (!tx.IsBeanBase() && !tx.IsBeanStake() ==> forall i :: 0 <= i < |tx.vout| ==> !tx.vout[i].IsEmpty())
  {
    var nValueOut := 0;
    for i := 0 to |tx.vout|
      invariant forall k :: 0 <= k < i ==> MoneyRange(tx.vout[k].nValue)
      invariant !tx.IsBeanBase() && !tx.IsBeanStake() ==> forall k :: 0 <= k < i ==> !tx.vout[k].IsEmpty()
      invariant nValueOut == SumOut(tx.vout[..i]) && MoneyRange(nValueOut)
    {
      var txout := tx.vout[i];
      if txout.IsEmpty() && !tx.IsBeanBase() && !tx.IsBeanStake() {
        return false;
      }
      if txout.nValue < 0 {
        return false;
      }
      if txout.nValue > MAX_MONEY {
        return false;
      }
      nValueOut := nValueOut + txout.nValue;
      assert tx.vout[..i + 1][..i] == tx.vout[..i];
      if !MoneyRange(nValueOut) {
        if forall k :: 0 <= k < |tx.vout| ==> MoneyRange(tx.vout[k].nValue) {
          SumOutPrefix(tx.vout, i + 1);
        }
        return false;
      }
    }
    assert tx.vout[..|tx.vout|] == tx.vout;
    return true;
  }

  /** The second half of CheckTransaction: duplicate inputs, null inputs, beanbase script size. */
  method CheckInputs(tx: Tx) returns (ok: bool)
    requires tx.vin != []
    ensures ok <==> DistinctPrevouts(tx.vin)
                    && if tx.IsBeanBase() then 2 <= |tx.vin[0].scriptSig| <= 100
                       else forall i :: 0 <= i < |tx.vin| ==> !tx.vin[i].prevout.IsNull()
  {
    var vInOutPoints: set<OutPoint> := {};
    for i := 0 to |tx.vin|
      invariant DistinctPrevouts(tx.vin[..i])
      invariant forall op :: op in vInOutPoints <==> exists k :: 0 <= k < i && tx.vin[k].prevout == op
    {
      if tx.vin[i].prevout in vInOutPoints {
        return false;
      }
      vInOutPoints := vInOutPoints + {tx.vin[i].prevout};
    }
    assert tx.vin[..|tx.vin|] == tx.vin;
    if tx.IsBeanBase() {
      if |tx.vin[0].scriptSig| < 2 || |tx.vin[0].scriptSig| > 100 {
        return false;
      }
    } else {
      for i := 0 to |tx.vin|
        invariant forall k :: 0 <= k < i ==> !tx.vin[k].prevout.IsNull()
      {
        if tx.vin[i].prevout.IsNull() {
          return false;
        }
      }
    }
    return true;
  }

  /** GetMinFee in GMF_BLOCK mode; the dust clause of the source can never fire, since the fee already
      starts at one whole base fee. */
  function GetMinFee(tx: Tx, nBlockSize: nat): int {
    var nNewBlockSize := nBlockSize + tx.size;
    var nMinFee := (1 + tx.size / 1000) * MIN_TX_FEE;
    if nBlockSize != 1 && nNewBlockSize >= MAX_BLOCK_SIZE_GEN / 2 && nNewBlockSize >= MAX_BLOCK_SIZE_GEN then MAX_MONEY
    else
      var raised := if nBlockSize != 1 && nNewBlockSize >= MAX_BLOCK_SIZE_GEN / 2
                    then nMinFee * (MAX_BLOCK_SIZE_GEN / (MAX_BLOCK_SIZE_GEN - nNewBlockSize)) else nMinFee;
      if MoneyRange(raised) then raised else MAX_MONEY
  }

  /** The fee by the fullness of the block: alone, or in a block less than half full, a base fee for each thousand bytes begun;
      at least twice that from then on, and out of reach in a full block. */
  lemma MinFeeIs(tx: Tx, nBlockSize: nat)
    ensures var base, n := (1 + tx.size / 1000) * MIN_TX_FEE, nBlockSize + tx.size;
            && (nBlockSize == 1 || 2 * n < MAX_BLOCK_SIZE_GEN ==> GetMinFee(tx, nBlockSize) == Min(base, MAX_MONEY))
            && (nBlockSize != 1 && 2 * n >= MAX_BLOCK_SIZE_GEN ==> Min(2 * base, MAX_MONEY) <= GetMinFee(tx, nBlockSize) <= MAX_MONEY)
            && (nBlockSize != 1 && n >= MAX_BLOCK_SIZE_GEN ==> GetMinFee(tx, nBlockSize) == MAX_MONEY)
  {
    var base, n := (1 + tx.size / 1000) * MIN_TX_FEE, nBlockSize + tx.size;
    if 2 * n >= MAX_BLOCK_SIZE_GEN > n {
      Doubled(MAX_BLOCK_SIZE_GEN, MAX_BLOCK_SIZE_GEN - n, base);
    }
  }

  lemma Doubled(all: nat, left: nat, base: nat)
    requires 0 < left && 2 * left <= all
    ensures base * (all / left) >= 2 * base
  {
    assert all / left >= 2;
    assert base * (all / left) == 2 * base + base * (all / left - 2);
  }

  lemma MinFeeInSecondHalf(tx: Tx, nBlockSize: nat)
    requires nBlockSize != 1 && 2 * (nBlockSize + tx.size) >= MAX_BLOCK_SIZE_GEN > nBlockSize + tx.size
    ensures var left := MAX_BLOCK_SIZE_GEN - nBlockSize - tx.size;
            GetMinFee(tx, nBlockSize) == Min((1 + tx.size / 1000) * MIN_TX_FEE * (MAX_BLOCK_SIZE_GEN / left), MAX_MONEY)
  {
    Doubled(MAX_BLOCK_SIZE_GEN, MAX_BLOCK_SIZE_GEN - nBlockSize - tx.size, (1 + tx.size / 1000) * MIN_TX_FEE);
  }

  /** A fuller block never asks for less. */
  lemma MinFeeGrows(tx: Tx, nBlockSize: nat, nLarger: nat)
    requires 1 < nBlockSize <= nLarger
    ensures GetMinFee(tx, nBlockSize) <= GetMinFee(tx, nLarger)
  {
    hide GetMinFee;
    MinFeeIs(tx, nBlockSize);
    MinFeeIs(tx, nLarger);
    var n, m := nBlockSize + tx.size, nLarger + tx.size;
    if 2 * n >= MAX_BLOCK_SIZE_GEN > m {
      MinFeeInSecondHalf(tx, nBlockSize);
      MinFeeInSecondHalf(tx, nLarger);
      Steeper(MAX_BLOCK_SIZE_GEN, MAX_BLOCK_SIZE_GEN - n, MAX_BLOCK_SIZE_GEN - m, (1 + tx.size / 1000) * MIN_TX_FEE);
    }
  }

  lemma Steeper(all: nat, left: nat, less: nat, base: nat)
    requires 0 < less <= left
    ensures base * (all / left) <= base * (all / less)
  {
    var q, k := all / left, all / less;
    Times(less, left, q);
    if q > k {
      Times(k + 1, q, less);
      assert false;
    }
    Times(q, k, base);
  }

  lemma Times(a: nat, b: nat, c: nat)
    requires a <= b
    ensures c * a <= c * b && a * c <= b * c
  {
  }
}
