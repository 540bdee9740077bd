/** The memory pool: pooled transactions and the index of their inputs (src/main.h, src/main.cpp). */
module Mempool {
  import opened Transactions

  type Pool = map<Hash, Tx>

  /** CInPoint: input n of the pooled transaction ptx. */
  datatype InPoint = InPoint(ptx: Hash, n: nat)

  predicate Keyed(m: Pool) {
    forall h :: h in m ==> m[h].hash == h
  }

  /** mapNextTx is exactly the inverse of the pooled inputs. */
  predicate Inverse(m: Pool, next: map<OutPoint, InPoint>) {
    && (forall h, i :: h in m && 0 <= i < |m[h].vin| ==> m[h].vin[i].prevout in next && next[m[h].vin[i].prevout] == InPoint(h, i))
    && (forall op :: op in next ==> next[op].ptx in m && next[op].n < |m[next[op].ptx].vin| && m[next[op].ptx].vin[next[op].n].prevout == op)
  }

  /** So no outpoint is spent twice in the pool. */
  lemma OneSpender(m: Pool, next: map<OutPoint, InPoint>, g: Hash, i: nat, h: Hash, j: nat)
    requires Inverse(m, next) && g in m && h in m && i < |m[g].vin| && j < |m[h].vin|
    requires m[g].vin[i].prevout == m[h].vin[j].prevout
    ensures g == h && i == j
  {
  }

  // ------------------------------------------------------------------ who depends on whom

  /** Pooled g spends an output that pooled h has. */
  predicate Spends(m: Pool, g: Hash, h: Hash) {
    g in m && h in m && exists i :: 0 <= i < |m[g].vin| && m[g].vin[i].prevout.hash == h && m[g].vin[i].prevout.n < |m[h].vout|
  }

  /** Each transaction of the path spends the one before it. */
  predicate Path(m: Pool, p: seq<Hash>) {
    p != [] && p[0] in m && forall i :: 0 < i < |p| ==> Spends(m, p[i], p[i - 1])
  }

  /** g is h or spends from it through pooled transactions. */
  ghost predicate Descends(m: Pool, g: Hash, h: Hash) {
    exists p :: Path(m, p) && p[0] == h && p[|p| - 1] == g
  }

  /** Spending has no cycles: rank grows along it. That holds because a transaction names its inputs by their hashes. */
  ghost predicate Acyclic(m: Pool, rank: Hash -> nat) {
    forall g, h :: Spends(m, g, h) ==> rank(h) < rank(g)
  }

  ghost predicate Closed(m: Pool, r: set<Hash>) {
    forall g, h :: h in r && Spends(m, g, h) ==> g in r
  }

  lemma DescendsSelf(m: Pool, h: Hash)
    requires h in m
    ensures Descends(m, h, h)
  {
    assert Path(m, [h]);
  }

  lemma DescendsStep(m: Pool, g: Hash, c: Hash, h: Hash)
    requires Descends(m, g, c) && Spends(m, c, h)
    ensures Descends(m, g, h)
  {
    var p :| Path(m, p) && p[0] == c && p[|p| - 1] == g;
    var q := [h] + p;
    forall i | 0 < i < |q|
      ensures Spends(m, q[i], q[i - 1])
    {
      assert i > 1 ==> Spends(m, p[i - 1], p[i - 2]);
    }
    assert Path(m, q);
  }

  /** A closed set that has one transaction of a path has all that follow it. */
  lemma {:induction false} ClosedHasPath(m: Pool, r: set<Hash>, p: seq<Hash>, i: nat, j: nat)
    requires Closed(m, r) && Path(m, p) && i <= j < |p| && p[i] in r
    ensures p[j] in r
  {
    if i < j {
      ClosedHasPath(m, r, p, i, j - 1);
      assert Spends(m, p[j], p[j - 1]);
    }
  }

  lemma DescendsInPool(m: Pool, g: Hash, h: Hash)
    requires Descends(m, g, h)
    ensures g in m && h in m
  {
    var p :| Path(m, p) && p[0] == h && p[|p| - 1] == g;
    assert |p| > 1 ==> Spends(m, p[|p| - 1], p[|p| - 2]);
  }

  /** Taking a closed set out of the pool only cuts the paths through it. */
  lemma DescendsWithout(m: Pool, r: set<Hash>, g: Hash, h: Hash)
    requires Closed(m, r)
    ensures Descends(m - r, g, h) <==> Descends(m, g, h) && g !in r
  {
    var n := m - r;
    if Descends(n, g, h) {
      var p :| Path(n, p) && p[0] == h && p[|p| - 1] == g;
      forall i | 0 < i < |p|
        ensures Spends(m, p[i], p[i - 1])
      {
        assert Spends(n, p[i], p[i - 1]);
      }
      assert Path(m, p);
      DescendsInPool(n, g, h);
    }
    if Descends(m, g, h) && g !in r {
      var p :| Path(m, p) && p[0] == h && p[|p| - 1] == g;
      forall i | 0 <= i < |p|
        ensures p[i] in n
      {
        assert i > 0 ==> Spends(m, p[i], p[i - 1]);
        if p[i] in r {
          ClosedHasPath(m, r, p, i, |p| - 1);
        }
      }
      forall i | 0 < i < |p|
        ensures Spends(n, p[i], p[i - 1])
      {
        assert Spends(m, p[i], p[i - 1]) && p[i] in n && p[i - 1] in n;
      }
      assert Path(n, p);
    }
  }

  lemma DescendantsClosed(m: Pool, h: Hash, g: Hash, c: Hash)
    requires Descends(m, c, h) && Spends(m, g, c)
    ensures Descends(m, g, h)
  {
    var p :| Path(m, p) && p[0] == h && p[|p| - 1] == c;
    var q := p + [g];
    forall i | 0 < i < |q|
      ensures Spends(m, q[i], q[i - 1])
    {
      assert i < |p| ==> Spends(m, p[i], p[i - 1]);
    }
    assert Path(m, q);
  }

  /** Whatever descends from h and is not h descends from one that spends h. */
  lemma DescendsThrough(m: Pool, g: Hash, h: Hash) returns (c: Hash)
    requires Descends(m, g, h) && g != h
    ensures Spends(m, c, h) && Descends(m, g, c)
  {
    var p :| Path(m, p) && p[0] == h && p[|p| - 1] == g;
    c := p[1];
    assert Spends(m, p[1], p[0]);
    forall i | 0 < i < |p[1..]|
      ensures Spends(m, p[1..][i], p[1..][i - 1])
    {
      assert Spends(m, p[i + 1], p[i]);
    }
    assert Path(m, p[1..]);
  }

  lemma DescendsRank(m: Pool, rank: Hash -> nat, g: Hash, h: Hash)
    requires Acyclic(m, rank) && Descends(m, g, h)
    ensures rank(h) <= rank(g) && (g != h ==> rank(h) < rank(g))
  {
    var p :| Path(m, p) && p[0] == h && p[|p| - 1] == g;
    PathRank(m, rank, p, |p| - 1);
  }

  lemma {:induction false} PathRank(m: Pool, rank: Hash -> nat, p: seq<Hash>, i: nat)
    requires Acyclic(m, rank) && Path(m, p) && i < |p|
    ensures rank(p[0]) + i <= rank(p[i])
  {
    if i > 0 {
      PathRank(m, rank, p, i - 1);
      assert Spends(m, p[i], p[i - 1]);
    }
  }

  // ------------------------------------------------------------------ what the operations do to the index

  /** mapNextTx without the inputs of the transactions in r. */
  function Without(next: map<OutPoint, InPoint>, r: set<Hash>): map<OutPoint, InPoint> {
    map op | op in next && next[op].ptx !in r :: next[op]
  }

  lemma WithoutInverse(m: Pool, next: map<OutPoint, InPoint>, r: set<Hash>)
    requires Inverse(m, next)
    ensures Inverse(m - r, Without(next, r))
  {
  }

  /** Erasing the inputs of one transaction from mapNextTx erases exactly its own entries. */
  lemma ErasedIsWithout(m: Pool, next: map<OutPoint, InPoint>, h: Hash)
    requires Inverse(m, next) && h in m
    ensures next - Prevouts(m[h].vin) == Without(next, {h})
  {
    var erased := next - Prevouts(m[h].vin);
    forall op | op in next
      ensures op in Prevouts(m[h].vin) <==> next[op].ptx == h
    {
      if next[op].ptx == h {
        assert m[h].vin[next[op].n].prevout == op;
      }
    }
  }

  lemma WithoutTwice(next: map<OutPoint, InPoint>, r: set<Hash>, s: set<Hash>)
    ensures Without(Without(next, r), s) == Without(next, r + s)
  {
  }

  function Added(next: map<OutPoint, InPoint>, tx: Tx, n: nat): map<OutPoint, InPoint>
    requires n <= |tx.vin|
  {
    if n == 0 then next else Added(next, tx, n - 1)[tx.vin[n - 1].prevout := InPoint(tx.hash, n - 1)]
  }

  /** op is one of the first n inputs of tx. */
  predicate AmongFirst(tx: Tx, n: nat, op: OutPoint)
    requires n <= |tx.vin|
  {
    exists i :: 0 <= i < n && tx.vin[i].prevout == op
  }

  /** r is next with the first n inputs of tx entered. */
  ghost predicate IsAdded(next: map<OutPoint, InPoint>, tx: Tx, n: nat, r: map<OutPoint, InPoint>)
    requires n <= |tx.vin|
  {
    && (forall i :: 0 <= i < n ==> tx.vin[i].prevout in r && r[tx.vin[i].prevout] == InPoint(tx.hash, i))
    && (forall op :: op in r ==> AmongFirst(tx, n, op) || op in next)
    && (forall op :: op in next && !AmongFirst(tx, n, op) ==> op in r && r[op] == next[op])
  }

  lemma {:induction false} AddedIs(next: map<OutPoint, InPoint>, tx: Tx, n: nat)
    requires n <= |tx.vin| && DistinctPrevouts(tx.vin)
    ensures IsAdded(next, tx, n, Added(next, tx, n))
  {
    hide IsAdded, DistinctPrevouts;
    if n > 0 {
      AddedIs(next, tx, n - 1);
      AddedOneMore(next, tx, n - 1, Added(next, tx, n - 1));
    } else {
      AddedNone(next, tx);
    }
  }

  lemma AddedNone(next: map<OutPoint, InPoint>, tx: Tx)
    ensures IsAdded(next, tx, 0, next)
  {
  }

  lemma AddedOneMore(next: map<OutPoint, InPoint>, tx: Tx, n: nat, r: map<OutPoint, InPoint>)
    requires n < |tx.vin| && DistinctPrevouts(tx.vin) && IsAdded(next, tx, n, r)
    ensures IsAdded(next, tx, n + 1, r[tx.vin[n].prevout := InPoint(tx.hash, n)])
  {
    var last := tx.vin[n].prevout;
    forall op
      ensures AmongFirst(tx, n + 1, op) <==> AmongFirst(tx, n, op) || op == last
    {
      assert tx.vin[n].prevout == last;
    }
    hide AmongFirst;
  }

  /** None of the inputs of tx is spent in the pool. */
  predicate NoConflict(next: map<OutPoint, InPoint>, tx: Tx) {
    forall i :: 0 <= i < |tx.vin| ==> tx.vin[i].prevout !in next
  }

  lemma AddedInverse(m: Pool, next: map<OutPoint, InPoint>, tx: Tx)
    requires Inverse(m, next) && tx.hash !in m && DistinctPrevouts(tx.vin) && NoConflict(next, tx)
    ensures Inverse(m[tx.hash := tx], Added(next, tx, |tx.vin|))
  {
    var r := Added(next, tx, |tx.vin|);
    AddedIs(next, tx, |tx.vin|);
    hide Added;
    forall op | op in next
      ensures !AmongFirst(tx, |tx.vin|, op) && op in r && r[op] == next[op]
    {
    }
    AddedBack(next, tx, r);
    hide AmongFirst, IsAdded, NoConflict, DistinctPrevouts;
    AddedInputs(m, next, tx, r);
    AddedOutPoints(m, next, tx, r);
  }

  lemma AddedInputs(m: Pool, next: map<OutPoint, InPoint>, tx: Tx, r: map<OutPoint, InPoint>)
    requires Inverse(m, next) && tx.hash !in m && forall op :: op in next ==> op in r && r[op] == next[op]
    requires forall i :: 0 <= i < |tx.vin| ==> tx.vin[i].prevout in r && r[tx.vin[i].prevout] == InPoint(tx.hash, i)
    ensures var n := m[tx.hash := tx];
            forall h, i :: h in n && 0 <= i < |n[h].vin| ==> n[h].vin[i].prevout in r && r[n[h].vin[i].prevout] == InPoint(h, i)
  {
    var n := m[tx.hash := tx];
    forall h, i | h in n && 0 <= i < |n[h].vin|
      ensures n[h].vin[i].prevout in r && r[n[h].vin[i].prevout] == InPoint(h, i)
    {
      if h != tx.hash {
        assert m[h].vin[i].prevout in next;
      }
    }
  }

  lemma AddedOutPoints(m: Pool, next: map<OutPoint, InPoint>, tx: Tx, r: map<OutPoint, InPoint>)
    requires Inverse(m, next) && tx.hash !in m && forall op :: op in next ==> op in r && r[op] == next[op]
    requires forall op :: op in r && op !in next ==> r[op].ptx == tx.hash && r[op].n < |tx.vin| && tx.vin[r[op].n].prevout == op
    ensures var n := m[tx.hash := tx];
            forall op :: op in r ==> r[op].ptx in n && r[op].n < |n[r[op].ptx].vin| && n[r[op].ptx].vin[r[op].n].prevout == op
  {
    var n := m[tx.hash := tx];
    forall op | op in r
      ensures r[op].ptx in n && r[op].n < |n[r[op].ptx].vin| && n[r[op].ptx].vin[r[op].n].prevout == op
    {
      if op in next {
        assert next[op].ptx in m;
      }
    }
  }

  lemma AddedBack(next: map<OutPoint, InPoint>, tx: Tx, r: map<OutPoint, InPoint>)
    requires IsAdded(next, tx, |tx.vin|, r)
    ensures forall i :: 0 <= i < |tx.vin| ==> tx.vin[i].prevout in r && r[tx.vin[i].prevout] == InPoint(tx.hash, i)
    ensures forall op :: op in r && op !in next ==> r[op].ptx == tx.hash && r[op].n < |tx.vin| && tx.vin[r[op].n].prevout == op
  {
    forall op | op in r && op !in next
      ensures r[op].ptx == tx.hash && r[op].n < |tx.vin| && tx.vin[r[op].n].prevout == op
    {
      var i :| 0 <= i < |tx.vin| && tx.vin[i].prevout == op;
    }
  }
}
