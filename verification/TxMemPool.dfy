/** CTxMemPool with its two maps updated in place (src/main.h, src/main.cpp). */
module TxMemPool {
  import opened Wrappers
  import opened Transactions
  import opened BlockTree
  import opened TxInputs
  import opened Mempool

  /** Standardness tests this model does not look into. */
  datatype Policy = Policy(standard: Tx -> bool, inputsStandard: Tx -> bool)

  /** What accept asks of a transaction before it looks at the transactions it spends. */
  predicate Acceptable(policy: Policy, m: Pool, next: map<OutPoint, InPoint>, txdb: Index, tx: Tx, fCheckInputs: bool) {
    && WellFormed(tx) && !tx.IsBeanBase() && !tx.IsBeanStake() && policy.standard(tx)
    && tx.hash !in m && (fCheckInputs ==> tx.hash !in txdb) && NoConflict(next, tx)
  }

  /** The fees and inputs accept demands. Its rate limiter for fees below MIN_RELAY_TX_FEE is never reached, since
      the minimum fee is never below that. */
  ghost predicate InputsOk(r: Rules, policy: Policy, t: Tree, best: Hash, s: Store, tx: Tx)
    requires t.Valid() && best in t.nodes
  {
    && AllFound(s, map[], false, tx.vin)
    && var inputs := Fetched(s, map[], false, tx.vin);
       && AllInRange(inputs, tx.vin)
       && policy.inputsStandard(tx)
       && ValueIn(inputs, tx.vin) - SumOut(tx.vout) >= GetMinFee(tx, 1000)
       && InputsConnectable(r, t, best, inputs, tx, true)
  }

  /** What a transaction pays to be pooled: a base fee for each thousand bytes begun, and at least twice that when it takes half the size
      that is generated. */
  lemma PooledPays(r: Rules, policy: Policy, t: Tree, best: Hash, s: Store, tx: Tx)
    requires t.Valid() && best in t.nodes && InputsOk(r, policy, t, best, s, tx)
    ensures var base, fTwice := (1 + tx.size / 1000) * MIN_TX_FEE, 2 * (1000 + tx.size) >= MAX_BLOCK_SIZE_GEN;
            ValueIn(Fetched(s, map[], false, tx.vin), tx.vin) - SumOut(tx.vout) >= Min(if fTwice then 2 * base else base, MAX_MONEY)
  {
    hide InputsConnectable, AllFound, AllInRange, Fetched, ValueIn, SumOut, GetMinFee;
    MinFeeIs(tx, 1000);
  }

  /** The part of accept that looks at the spent transactions. */
  method CheckPoolInputs(r: Rules, policy: Policy, t: Tree, best: Hash, s: Store, tx: Tx)
    returns (ok: bool, fMissingInputs: bool)
    requires t.Valid() && best in t.nodes && !tx.IsBeanBase()
    ensures ok <==> InputsOk(r, policy, t, best, s, tx)
    ensures fMissingInputs <==> !AllFound(s, map[], false, tx.vin)
  {
    hide InputsConnectable;
    fMissingInputs := false;
    var inputs, fInvalid;
    ok, inputs, fInvalid := FetchInputs(s, map[], tx, false, false);
    if !ok {
      fMissingInputs := !fInvalid;
      return;
    }
    if !policy.inputsStandard(tx) {
      return false, fMissingInputs;
    }
    var nFees := ValueIn(inputs, tx.vin) - SumOut(tx.vout);
    if nFees < GetMinFee(tx, 1000) {
      return false, fMissingInputs;
    }
    var testPool;
    ok, testPool := ConnectInputs(r, t, best, t.nodes[best].nHeight, inputs, map[], tx, MEMPOOL_POS, false, false);
  }

  /** g descends from a pooled transaction that spends one of the first n inputs of tx and is not tx. */
  ghost predicate Conflicted(m: Pool, next: map<OutPoint, InPoint>, tx: Tx, n: nat, g: Hash) {
    exists i :: 0 <= i < n && i < |tx.vin| && ConflictAt(m, next, tx, i) && Descends(m, g, next[tx.vin[i].prevout].ptx)
  }

  predicate ConflictAt(m: Pool, next: map<OutPoint, InPoint>, tx: Tx, i: nat)
    requires i < |tx.vin|
  {
    var op := tx.vin[i].prevout;
    op in next && next[op].ptx in m && m[next[op].ptx] != tx
  }

  class CTxMemPool {
    var mapTx: Pool
    var mapNextTx: map<OutPoint, InPoint>

    predicate Valid()
      reads this
    {
      Keyed(mapTx) && Inverse(mapTx, mapNextTx)
    }

    constructor ()
      ensures Valid() && mapTx == map[] && mapNextTx == map[]
    {
      mapTx, mapNextTx := map[], map[];
    }

    method AddUnchecked(hash: Hash, tx: Tx)
      requires Valid() && hash == tx.hash && hash !in mapTx && DistinctPrevouts(tx.vin) && NoConflict(mapNextTx, tx)
      modifies this
      ensures Valid() && mapTx == old(mapTx)[hash := tx] && mapNextTx == Added(old(mapNextTx), tx, |tx.vin|)
    {
      hide Inverse, Keyed, NoConflict, DistinctPrevouts;
      AddedKeepsValid(mapTx, mapNextTx, tx);
      ghost var next := mapNextTx;
      mapTx := mapTx[hash := tx];
      for i := 0 to |tx.vin|
        invariant mapTx == old(mapTx)[hash := tx] && mapNextTx == Added(next, tx, i)
      {
        mapNextTx := mapNextTx[tx.vin[i].prevout := InPoint(hash, i)];
      }
    }

    /** accept, with the disabled replacement of older versions left out. */
    method Accept(r: Rules, policy: Policy, t: Tree, best: Hash, txdb: Index, disk: map<DiskTxPos, Tx>, tx: Tx, fCheckInputs: bool)
      returns (ok: bool, fMissingInputs: bool)
      requires Valid() && t.Valid() && best in t.nodes
      modifies this
      ensures Valid()
      ensures ok <==> && Acceptable(policy, old(mapTx), old(mapNextTx), txdb, tx, fCheckInputs)
                      && (fCheckInputs ==> InputsOk(r, policy, t, best, Store(txdb, disk, old(mapTx)), tx))
      ensures fMissingInputs <==> && Acceptable(policy, old(mapTx), old(mapNextTx), txdb, tx, fCheckInputs)
                                  && fCheckInputs && !AllFound(Store(txdb, disk, old(mapTx)), map[], false, tx.vin)
      ensures ok ==> mapTx == old(mapTx)[tx.hash := tx] && mapNextTx == Added(old(mapNextTx), tx, |tx.vin|)
      ensures !ok ==> mapTx == old(mapTx) && mapNextTx == old(mapNextTx)
    {
      hide InputsOk, Inverse, Keyed, Added;
      fMissingInputs := false;
      ok := CheckTransaction(tx);
      if !ok {
        return;
      }
      if tx.IsBeanBase() || tx.IsBeanStake() {
        return false, fMissingInputs;
      }
      if !policy.standard(tx) {
        return false, fMissingInputs;
      }
      if tx.hash in mapTx {
        return false, fMissingInputs;
      }
      if fCheckInputs && tx.hash in txdb {
        return false, fMissingInputs;
      }
      ok := FindConflict(tx);
      if !ok {
        return;
      }
      if fCheckInputs {
        ok, fMissingInputs := CheckPoolInputs(r, policy, t, best, Store(txdb, disk, mapTx), tx);
        if !ok {
          return;
        }
      }
      AddUnchecked(tx.hash, tx);
      ok := true;
    }

    method FindConflict(tx: Tx) returns (ok: bool)
      ensures ok <==> NoConflict(mapNextTx, tx)
    {
      for i := 0 to |tx.vin|
        invariant forall k :: 0 <= k < i ==> tx.vin[k].prevout !in mapNextTx
      {
        if tx.vin[i].prevout in mapNextTx {
          return false;
        }
      }
      return true;
    }

    /** remove. The ghost result is the set of transactions that left the pool: with fRecursive exactly tx and what
        descends from it. */
    method Remove(tx: Tx, fRecursive: bool, ghost rank: Hash -> nat) returns (ghost removed: set<Hash>)
      requires Valid() && Acyclic(mapTx, rank) && (tx.hash in mapTx ==> mapTx[tx.hash] == tx)
      modifies this
      ensures Valid() && mapTx == old(mapTx) - removed && mapNextTx == Without(old(mapNextTx), removed)
      ensures tx.hash !in old(mapTx) ==> removed == {}
      ensures tx.hash in old(mapTx) && !fRecursive ==> removed == {tx.hash}
      ensures tx.hash in old(mapTx) && fRecursive ==> forall g :: g in removed <==> Descends(old(mapTx), g, tx.hash)
      decreases Above(mapTx, rank, tx.hash)
    {
      hide Inverse, Keyed, Acyclic, Descends, Cleared;
      ghost var m, next := mapTx, mapNextTx;
      removed := {};
      assert m - removed == m && Without(next, removed) == next;
      if tx.hash in mapTx {
        if fRecursive {
          ClearedNone(m, tx.hash);
          for i := 0 to |tx.vout|
            invariant Valid() && mapTx == m - removed && mapNextTx == Without(next, removed)
            invariant Cleared(m, tx.hash, removed, i) && tx.hash in mapTx
          {
            var op := OutPoint(tx.hash, i);
            if op in mapNextTx {
              ghost var before := removed;
              var child := mapTx[PoolSpender(mapTx, mapNextTx, op)];
              ChildRanks(m, rank, removed, mapTx, next, op, child);
              ghost var r := Remove(child, true, rank);
              removed := removed + r;
              ClearedChild(m, rank, tx.hash, before, child.hash, r, i, next);
              WithoutTwice(next, before, r);
            } else {
              ClearedNext(m, next, tx.hash, removed, i);
            }
          }
        }
        EraseOne(tx);
        WithoutTwice(next, removed, {tx.hash});
        if fRecursive {
          ClearedAll(m, tx.hash, removed, |tx.vout|);
        }
        removed := removed + {tx.hash};
      }
    }

    /** removeConflicts: afterwards nobody but tx spends its inputs, and exactly the conflicting transactions and
        their descendants are gone. */
    method RemoveConflicts(tx: Tx, ghost rank: Hash -> nat) returns (ghost removed: set<Hash>)
      requires Valid() && Acyclic(mapTx, rank)
      modifies this
      ensures Valid() && mapTx == old(mapTx) - removed && mapNextTx == Without(old(mapNextTx), removed)
      ensures forall g :: g in removed <==> Conflicted(old(mapTx), old(mapNextTx), tx, |tx.vin|, g)
      ensures forall i :: 0 <= i < |tx.vin| && tx.vin[i].prevout in mapNextTx ==>
                mapNextTx[tx.vin[i].prevout].ptx in mapTx && mapTx[mapNextTx[tx.vin[i].prevout].ptx] == tx
    {
      hide Inverse, Keyed, Acyclic, Conflicted, Closed, Descends;
      ghost var m, next := mapTx, mapNextTx;
      removed := {};
      assert m - removed == m && Without(next, removed) == next;
      NoneConflicted(m, next, tx);
      for i := 0 to |tx.vin|
        invariant Valid() && mapTx == m - removed && mapNextTx == Without(next, removed) && Closed(m, removed)
        invariant forall g :: g in removed <==> Conflicted(m, next, tx, i, g)
      {
        var op := tx.vin[i].prevout;
        ghost var r := {};
        ghost var before := removed;
        AcyclicWithout(m, rank, removed);
        if op in mapNextTx {
          var txConflict := mapTx[PoolSpender(mapTx, mapNextTx, op)];
          if txConflict != tx {
            r := Remove(txConflict, true, rank);
            removed := removed + r;
            WithoutTwice(next, before, r);
          }
        }
        ConflictNext(m, next, tx, i, before, r);
      }
      NoConflictLeft(m, next, tx, removed);
    }

    /** The last lines of remove. */
    method EraseOne(tx: Tx)
      requires Valid() && tx.hash in mapTx && mapTx[tx.hash] == tx
      modifies this
      ensures Valid() && mapTx == old(mapTx) - {tx.hash} && mapNextTx == Without(old(mapNextTx), {tx.hash})
    {
      ErasedIsWithout(mapTx, mapNextTx, tx.hash);
      WithoutInverse(mapTx, mapNextTx, {tx.hash});
      assert Keyed(mapTx - {tx.hash});
      hide Inverse, Keyed, Without;
      EraseInputs(tx);
      mapTx := mapTx - {tx.hash};
    }

    method EraseInputs(tx: Tx)
      modifies `mapNextTx
      ensures mapNextTx == old(mapNextTx) - Prevouts(tx.vin)
    {
      ghost var next := mapNextTx;
      for i := 0 to |tx.vin|
        invariant mapNextTx == next - Prevouts(tx.vin[..i])
      {
        mapNextTx := mapNextTx - {tx.vin[i].prevout};
        assert Prevouts(tx.vin[..i + 1]) == Prevouts(tx.vin[..i]) + {tx.vin[i].prevout} by {
          assert forall k :: 0 <= k < i ==> tx.vin[..i + 1][k] == tx.vin[..i][k];
          assert tx.vin[..i + 1][i] == tx.vin[i];
        }
      }
      assert tx.vin[..|tx.vin|] == tx.vin;
    }
  }

  lemma AddedKeepsValid(m: Pool, next: map<OutPoint, InPoint>, tx: Tx)
    requires Keyed(m) && Inverse(m, next) && tx.hash !in m && DistinctPrevouts(tx.vin) && NoConflict(next, tx)
    ensures Keyed(m[tx.hash := tx]) && Inverse(m[tx.hash := tx], Added(next, tx, |tx.vin|))
  {
    AddedInverse(m, next, tx);
    hide Inverse, NoConflict, DistinctPrevouts;
  }

  function PoolSpender(m: Pool, next: map<OutPoint, InPoint>, op: OutPoint): (h: Hash)
    requires Keyed(m) && Inverse(m, next) && op in next
    ensures h in m && m[h].hash == h
  {
    next[op].ptx
  }

  // ------------------------------------------------------------------ the loop of remove

  /** What a recursive removal may still reach. */
  ghost function Above(m: Pool, rank: Hash -> nat, h: Hash): set<Hash> {
    set g | g in m && rank(g) >= rank(h)
  }

  /** What the first i outputs of h have taken with them. */
  ghost predicate Cleared(m: Pool, h: Hash, removed: set<Hash>, i: nat) {
    && h in m && h !in removed && Closed(m, removed)
    && (forall g :: g in removed ==> Descends(m, g, h))
    && forall c, j :: c in m && 0 <= j < |m[c].vin| && m[c].vin[j].prevout.hash == h && m[c].vin[j].prevout.n < i ==> c in removed
  }

  lemma ClearedNone(m: Pool, h: Hash)
    requires h in m
    ensures Cleared(m, h, {}, 0)
  {
  }

  /** Output i of h has no spender left. */
  lemma ClearedNext(m: Pool, next: map<OutPoint, InPoint>, h: Hash, removed: set<Hash>, i: nat)
    requires Inverse(m, next) && Cleared(m, h, removed, i) && OutPoint(h, i) !in Without(next, removed)
    ensures Cleared(m, h, removed, i + 1) && h in m && h !in removed
  {
    hide Closed, Descends;
    forall c, j | c in m && 0 <= j < |m[c].vin| && m[c].vin[j].prevout.hash == h && m[c].vin[j].prevout.n < i + 1
      ensures c in removed
    {
      if m[c].vin[j].prevout.n == i {
        assert next[OutPoint(h, i)] == InPoint(c, j);
      }
    }
  }

  /** The spender of output i of h is one rank up, in what is left of the pool. */
  lemma ChildRanks(m: Pool, rank: Hash -> nat, removed: set<Hash>, left: Pool, next: map<OutPoint, InPoint>, op: OutPoint, child: Tx)
    requires Keyed(m) && Inverse(m, next) && Acyclic(m, rank) && left == m - removed
    requires op in Without(next, removed) && op.hash in left && op.n < |m[op.hash].vout|
    requires child.hash == next[op].ptx && child.hash in left && left[child.hash] == child
    ensures Acyclic(left, rank) && Spends(m, child.hash, op.hash) && rank(op.hash) < rank(child.hash)
    ensures Above(left, rank, child.hash) < Above(m, rank, op.hash)
  {
    assert m[child.hash].vin[next[op].n].prevout == op;
    forall g, h | Spends(left, g, h)
      ensures rank(h) < rank(g)
    {
      assert Spends(m, g, h);
    }
    assert op.hash in Above(m, rank, op.hash) && op.hash !in Above(left, rank, child.hash);
  }

  lemma ClearedChild(m: Pool, rank: Hash -> nat, h: Hash, removed: set<Hash>, c: Hash, r: set<Hash>, i: nat, next: map<OutPoint, InPoint>)
    requires Inverse(m, next) && Acyclic(m, rank) && Cleared(m, h, removed, i) && Spends(m, c, h) && c !in removed
    requires OutPoint(h, i) in next && next[OutPoint(h, i)].ptx == c
    requires forall g :: g in r <==> Descends(m - removed, g, c)
    ensures Cleared(m, h, removed + r, i + 1) && m - removed - r == m - (removed + r) && h in m && h !in removed + r
  {
    forall g
      ensures g in removed + r <==> g in removed || Descends(m, g, c)
    {
      DescendsWithout(m, removed, g, c);
    }
    hide Descends;
    ChildClosed(m, removed, c, removed + r);
    forall g | g in removed + r
      ensures Descends(m, g, h) && g != h
    {
      if g !in removed {
        DescendsStep(m, g, c, h);
        DescendsRank(m, rank, g, c);
      }
    }
    DescendsSelf(m, c);
    hide Closed, Spends, Acyclic;
    forall d, j | d in m && 0 <= j < |m[d].vin| && m[d].vin[j].prevout.hash == h && m[d].vin[j].prevout.n < i + 1
      ensures d in removed + r
    {
      if m[d].vin[j].prevout.n == i {
        assert next[OutPoint(h, i)] == InPoint(d, j);
      }
    }
  }

  lemma ChildClosed(m: Pool, removed: set<Hash>, c: Hash, all: set<Hash>)
    requires Closed(m, removed) && forall g :: g in all <==> g in removed || Descends(m, g, c)
    ensures Closed(m, all)
  {
    hide Descends;
    forall g, d | d in all && Spends(m, g, d)
      ensures g in all
    {
      if d !in removed {
        DescendantsClosed(m, c, g, d);
      }
    }
  }

  lemma ClearedAll(m: Pool, h: Hash, removed: set<Hash>, n: nat)
    requires Cleared(m, h, removed, n) && n == |m[h].vout|
    ensures forall g :: g in removed + {h} <==> Descends(m, g, h)
  {
    DescendsSelf(m, h);
    forall g | Descends(m, g, h) && g != h
      ensures g in removed
    {
      var c := DescendsThrough(m, g, h);
      assert c in removed;
      DescendsWithout(m, removed, g, c);
      DescendsInPool(m, g, c);
      CutOff(m, removed, g, c);
    }
  }

  /** What descends from a member of a closed set is in the set. */
  lemma CutOff(m: Pool, removed: set<Hash>, g: Hash, c: Hash)
    requires Closed(m, removed) && c in removed && Descends(m, g, c)
    ensures g in removed
  {
    var p :| Path(m, p) && p[0] == c && p[|p| - 1] == g;
    ClosedHasPath(m, removed, p, 0, |p| - 1);
  }

  // ------------------------------------------------------------------ the loop of removeConflicts

  lemma NoneConflicted(m: Pool, next: map<OutPoint, InPoint>, tx: Tx)
    ensures Closed(m, {}) && forall g :: !Conflicted(m, next, tx, 0, g)
  {
  }

  lemma AcyclicWithout(m: Pool, rank: Hash -> nat, removed: set<Hash>)
    requires Acyclic(m, rank)
    ensures Acyclic(m - removed, rank)
  {
    forall g, h | Spends(m - removed, g, h)
      ensures rank(h) < rank(g)
    {
      assert Spends(m, g, h);
    }
  }

  /** One more input: r is what removing its other spender takes out, if there still is one. */
  lemma ConflictNext(m: Pool, next: map<OutPoint, InPoint>, tx: Tx, i: nat, removed: set<Hash>, r: set<Hash>)
    requires Keyed(m) && Inverse(m, next) && i < |tx.vin| && Closed(m, removed)
    requires forall g :: g in removed <==> Conflicted(m, next, tx, i, g)
    requires var op := tx.vin[i].prevout;
             if op in next && next[op].ptx !in removed && m[next[op].ptx] != tx
             then forall g :: g in r <==> Descends(m - removed, g, next[op].ptx) else r == {}
    ensures Closed(m, removed + r) && m - removed - r == m - (removed + r)
    ensures forall g :: g in removed + r <==> Conflicted(m, next, tx, i + 1, g)
  {
    var op := tx.vin[i].prevout;
    if ConflictAt(m, next, tx, i) {
      var c := next[op].ptx;
      forall g
        ensures g in removed + r <==> g in removed || Descends(m, g, c)
      {
        DescendsWithout(m, removed, g, c);
        if c in removed && Descends(m, g, c) {
          CutOff(m, removed, g, c);
        }
      }
      ChildClosed(m, removed, c, removed + r);
    } else {
      assert removed + r == removed;
    }
    hide Descends;
    forall g
      ensures Conflicted(m, next, tx, i + 1, g) <==> Conflicted(m, next, tx, i, g) || (ConflictAt(m, next, tx, i) && Descends(m, g, next[op].ptx))
    {
    }
  }

  lemma NoConflictLeft(m: Pool, next: map<OutPoint, InPoint>, tx: Tx, removed: set<Hash>)
    requires Inverse(m, next) && forall g :: g in removed <==> Conflicted(m, next, tx, |tx.vin|, g)
    ensures forall i :: 0 <= i < |tx.vin| && tx.vin[i].prevout in Without(next, removed) ==>
              next[tx.vin[i].prevout].ptx in m - removed && m[next[tx.vin[i].prevout].ptx] == tx
  {
    forall i | 0 <= i < |tx.vin| && tx.vin[i].prevout in Without(next, removed)
      ensures next[tx.vin[i].prevout].ptx in m - removed && m[next[tx.vin[i].prevout].ptx] == tx
    {
      var c := next[tx.vin[i].prevout].ptx;
      if m[c] != tx {
        DescendsSelf(m, c);
        assert ConflictAt(m, next, tx, i);
      }
    }
  }
}
