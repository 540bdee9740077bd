/** CreateNewBlock: choosing pooled transactions for a block in an order that respects their dependencies (src/miner.cpp). */
module Miner {
  import opened Transactions
  import opened BlockTree
  import opened TxInputs
  import opened BlockConnection
  import opened Mempool
  import opened Assembly

  /** bean * 144 / 250: below this priority the miner looks at fees. */
  const FREE_PRIORITY := 57_600_000.0

  /** The settings of the miner; priorities and fee rates are values to be compared and nothing more. */
  datatype Config = Config(nBlockMaxSize: int, nBlockPrioritySize: int, nBlockMinSize: int, nMinTxFee: real, nTimeLimit: int,
                           isFinal: Tx -> bool, priority: Tx -> real, feePerKb: Tx -> real)

  datatype TxPriority = TxPriority(dPriority: real, dFeePerKb: real, ptx: Hash)

  /** TxPriorityCompare. */
  predicate Less(byFee: bool, a: TxPriority, b: TxPriority) {
    if byFee then
      if a.dFeePerKb == b.dFeePerKb then a.dPriority < b.dPriority else a.dFeePerKb < b.dFeePerKb
    else
      if a.dPriority == b.dPriority then a.dFeePerKb < b.dFeePerKb else a.dPriority < b.dPriority
  }

  /** A transaction waiting for others in the pool; the object is known by the hash of its transaction. */
  datatype COrphan = COrphan(dPriority: real, dFeePerKb: real, setDependsOn: set<Hash>)

  /** vecPriority, vOrphan and mapDependers. */
  datatype Sched = Sched(queue: seq<TxPriority>, orphans: map<Hash, COrphan>, dependers: map<Hash, seq<Hash>>)

  // ------------------------------------------------------------------ what waits for what

  /** ReadFromDisk finds the output in the chain. */
  predicate Readable(s: Store, op: OutPoint) {
    op.hash in s.txdb && s.txdb[op.hash].pos in s.disk && op.n < |s.disk[s.txdb[op.hash].pos].vout|
  }

  /** The pooled transactions tx has to wait for. */
  function Waits(s: Store, vin: seq<TxIn>): set<Hash> {
    if vin == [] then {}
    else Waits(s, vin[..|vin| - 1]) + if Readable(s, vin[|vin| - 1].prevout) then {} else {vin[|vin| - 1].prevout.hash}
  }

  /** Neither in the chain nor in the pool. "This should never happen." */
  predicate Gone(s: Store, op: OutPoint) {
    !Readable(s, op) && op.hash !in s.mapTx
  }

  predicate SomeGone(s: Store, vin: seq<TxIn>) {
    exists i :: 0 <= i < |vin| && Gone(s, vin[i].prevout)
  }

  /** The pooled transactions the miner considers. */
  predicate Candidate(c: Config, s: Store, h: Hash) {
    h in s.mapTx && !s.mapTx[h].IsBeanBase() && !s.mapTx[h].IsBeanStake() && c.isFinal(s.mapTx[h]) && !SomeGone(s, s.mapTx[h].vin)
  }

  /** The input loop is well defined on these inputs. Up to the first input that is gone it reads outputs of pooled
      transactions, which must exist; and at that input it drops the entry it has made for the transaction, which must
      not have been made yet, since mapDependers would still name it. */
  predicate Scannable(s: Store, vin: seq<TxIn>) {
    forall i :: 0 <= i < |vin| && (forall j :: 0 <= j < i ==> !Gone(s, vin[j].prevout)) ==> ScanDefined(s, vin, i)
  }

  predicate ScanDefined(s: Store, vin: seq<TxIn>, i: nat)
    requires i < |vin|
  {
    var op := vin[i].prevout;
    Readable(s, op) || (if op.hash in s.mapTx then op.n < |s.mapTx[op.hash].vout| else forall j :: 0 <= j < i ==> Readable(s, vin[j].prevout))
  }

  predicate AllScannable(s: Store) {
    forall h :: h in s.mapTx ==> Scannable(s, s.mapTx[h].vin)
  }

  function WaitsOf(s: Store, h: Hash): set<Hash>
    requires h in s.mapTx
  {
    Waits(s, s.mapTx[h].vin)
  }

  // ------------------------------------------------------------------ the scheduler's invariant

  function Queued(q: seq<TxPriority>): (r: set<Hash>)
    ensures forall h :: h in r <==> exists i :: 0 <= i < |q| && q[i].ptx == h
  {
    set i | 0 <= i < |q| :: q[i].ptx
  }

  predicate NoRepeats(q: seq<TxPriority>) {
    forall i, j :: 0 <= i < j < |q| ==> q[i].ptx != q[j].ptx
  }

  predicate Ready(sc: Sched, h: Hash) {
    h in sc.orphans ==> sc.orphans[h].setDependsOn == {}
  }

  /** The queue and what was taken from it are, without repeats, the candidates that wait for nothing. */
  ghost predicate QueueOk(c: Config, s: Store, sc: Sched, considered: set<Hash>) {
    && NoRepeats(sc.queue) && Queued(sc.queue) !! considered
    && forall h :: h in Queued(sc.queue) + considered <==> Candidate(c, s, h) && Ready(sc, h)
  }

  /** The orphans are the candidates with unconfirmed parents, each waiting for those that are not in the block. */
  ghost predicate Waiting(c: Config, s: Store, orphans: map<Hash, COrphan>, chosen: set<Hash>) {
    && (forall h :: h in orphans <==> Candidate(c, s, h) && WaitsOf(s, h) != {})
    && (forall h :: h in orphans ==> orphans[h].setDependsOn == WaitsOf(s, h) - chosen)
  }

  /** The same while the orphans in `told` have learnt that h is in the block, and the others have not. */
  ghost predicate Telling(c: Config, s: Store, orphans: map<Hash, COrphan>, chosen: set<Hash>, told: seq<Hash>, h: Hash) {
    && (forall o :: o in orphans <==> Candidate(c, s, o) && WaitsOf(s, o) != {})
    && (forall o :: o in orphans ==> orphans[o].setDependsOn == WaitsOf(s, o) - chosen - if o in told then {h} else {})
  }

  /** Entries and orphans carry the priority and fee rate of their transaction. */
  predicate PricesOk(c: Config, s: Store, sc: Sched) {
    && (forall i :: 0 <= i < |sc.queue| && sc.queue[i].ptx in s.mapTx ==> sc.queue[i] == Entry(c, s.mapTx[sc.queue[i].ptx], sc.queue[i].ptx))
    && (forall h :: h in sc.orphans && h in s.mapTx ==>
          sc.orphans[h].dPriority == c.priority(s.mapTx[h]) && sc.orphans[h].dFeePerKb == c.feePerKb(s.mapTx[h]))
  }

  function Entry(c: Config, tx: Tx, h: Hash): TxPriority {
    TxPriority(c.priority(tx), c.feePerKb(tx), h)
  }

  ghost predicate SchedOk(c: Config, s: Store, sc: Sched, chosen: set<Hash>, considered: set<Hash>) {
    QueueOk(c, s, sc, considered) && Waiting(c, s, sc.orphans, chosen) && DependersOk(s, sc) && PricesOk(c, s, sc)
  }

  // ------------------------------------------------------------------ the queue

  /** rest is the queue without one occurrence of best. */
  predicate Popped(queue: seq<TxPriority>, best: TxPriority, rest: seq<TxPriority>) {
    exists i :: 0 <= i < |queue| && best == queue[i] && rest == queue[..i] + queue[i + 1..]
  }

  /** pop_heap and pop_back: some entry with no greater one. */
  method PopBest(queue: seq<TxPriority>, byFee: bool) returns (best: TxPriority, rest: seq<TxPriority>)
    requires queue != []
    ensures Popped(queue, best, rest)
    ensures forall j :: 0 <= j < |queue| ==> !Less(byFee, best, queue[j])
    ensures byFee ==> forall j :: 0 <= j < |queue| ==>
              queue[j].dFeePerKb <= best.dFeePerKb && (queue[j].dFeePerKb == best.dFeePerKb ==> queue[j].dPriority <= best.dPriority)
    ensures !byFee ==> forall j :: 0 <= j < |queue| ==>
              queue[j].dPriority <= best.dPriority && (queue[j].dPriority == best.dPriority ==> queue[j].dFeePerKb <= best.dFeePerKb)
  {
    var k := 0;
    for i := 1 to |queue|
      invariant k < |queue| && forall j :: 0 <= j < i ==> !Less(byFee, queue[k], queue[j])
    {
      if Less(byFee, queue[k], queue[i]) {
        k := i;
      }
    }
    assert exists i :: 0 <= i < |queue| && forall j :: 0 <= j < |queue| ==> !Less(byFee, queue[i], queue[j]);
    var i :| 0 <= i < |queue| && forall j :: 0 <= j < |queue| ==> !Less(byFee, queue[i], queue[j]);
    best, rest := queue[i], queue[..i] + queue[i + 1..];
  }

  lemma PoppedQueue(queue: seq<TxPriority>, best: TxPriority, rest: seq<TxPriority>)
    requires NoRepeats(queue) && Popped(queue, best, rest)
    ensures NoRepeats(rest) && Queued(rest) == Queued(queue) - {best.ptx} && best.ptx in Queued(queue)
  {
    var i :| 0 <= i < |queue| && best == queue[i] && rest == queue[..i] + queue[i + 1..];
    assert forall j :: 0 <= j < |rest| ==> rest[j] == queue[if j < i then j else j + 1];
    hide Queued;
    PoppedFrom(queue, i, rest);
    PoppedAll(queue, i, rest);
  }

  lemma PoppedFrom(queue: seq<TxPriority>, i: nat, rest: seq<TxPriority>)
    requires NoRepeats(queue) && i < |queue| && |rest| == |queue| - 1
    requires forall j :: 0 <= j < |rest| ==> rest[j] == queue[if j < i then j else j + 1]
    ensures forall h :: h in Queued(rest) ==> h in Queued(queue) && h != queue[i].ptx
    ensures queue[i].ptx in Queued(queue)
  {
    forall h | h in Queued(rest)
      ensures h in Queued(queue) && h != queue[i].ptx
    {
      var j :| 0 <= j < |rest| && rest[j].ptx == h;
      var k := if j < i then j else j + 1;
      assert queue[k].ptx == h && k != i;
    }
  }

  lemma PoppedAll(queue: seq<TxPriority>, i: nat, rest: seq<TxPriority>)
    requires i < |queue| && |rest| == |queue| - 1
    requires forall j :: 0 <= j < |rest| ==> rest[j] == queue[if j < i then j else j + 1]
    ensures forall h :: h in Queued(queue) && h != queue[i].ptx ==> h in Queued(rest)
  {
    forall h | h in Queued(queue) && h != queue[i].ptx
      ensures h in Queued(rest)
    {
      var j :| 0 <= j < |queue| && queue[j].ptx == h;
      var k := if j < i then j else j - 1;
      assert rest[k] == queue[j];
    }
  }

  lemma PushedQueue(queue: seq<TxPriority>, e: TxPriority)
    requires NoRepeats(queue) && e.ptx !in Queued(queue)
    ensures NoRepeats(queue + [e]) && Queued(queue + [e]) == Queued(queue) + {e.ptx}
  {
    var q := queue + [e];
    forall h
      ensures h in Queued(q) <==> h in Queued(queue) || h == e.ptx
    {
      if h in Queued(queue) {
        var i :| 0 <= i < |queue| && queue[i].ptx == h;
        assert q[i].ptx == h;
      }
      assert q[|queue|].ptx == e.ptx;
    }
  }

  // ------------------------------------------------------------------ filling the queue

  /** What the input loop adds to mapDependers for transaction h. */
  ghost predicate Told(before: map<Hash, seq<Hash>>, after: map<Hash, seq<Hash>>, h: Hash, waits: set<Hash>) {
    && (forall p :: p in before ==> p in after && forall x :: x in before[p] ==> x in after[p])
    && (forall p :: p in waits ==> p in after && h in after[p])
    && (forall p, x :: p in after && x in after[p] ==> (x == h && p in waits) || (p in before && x in before[p]))
  }

  /** The input loop of CreateNewBlock for one pooled transaction. */
  method ScanInputs(s: Store, tx: Tx, dependers: map<Hash, seq<Hash>>)
    returns (fMissingInputs: bool, waits: set<Hash>, dependers': map<Hash, seq<Hash>>)
    requires Scannable(s, tx.vin)
    ensures fMissingInputs <==> SomeGone(s, tx.vin)
    ensures fMissingInputs ==> dependers' == dependers
    ensures !fMissingInputs ==> waits == Waits(s, tx.vin) && Told(dependers, dependers', tx.hash, waits)
  {
    hide Told, Waits, Readable;
    fMissingInputs, waits, dependers' := false, {}, dependers;
    NothingTold(s, dependers, tx);
    for i := 0 to |tx.vin|
      invariant waits == Waits(s, tx.vin[..i]) && Told(dependers, dependers', tx.hash, waits) && !fMissingInputs
      invariant forall j :: 0 <= j < i ==> !Gone(s, tx.vin[j].prevout)
      invariant (forall j :: 0 <= j < i ==> Readable(s, tx.vin[j].prevout)) ==> dependers' == dependers
    {
      WaitsMore(s, tx.vin, i);
      var op := tx.vin[i].prevout;
      assert ScanDefined(s, tx.vin, i);
      if !Readable(s, op) {
        if op.hash !in s.mapTx {
          assert Gone(s, tx.vin[i].prevout);
          return true, waits, dependers';
        }
        var was := if op.hash in dependers' then dependers'[op.hash] else [];
        ToldMore(dependers, dependers', tx.hash, waits, op.hash);
        dependers' := dependers'[op.hash := was + [tx.hash]];
        waits := waits + {op.hash};
      }
    }
    assert tx.vin[..|tx.vin|] == tx.vin;
  }

  lemma NothingTold(s: Store, dependers: map<Hash, seq<Hash>>, tx: Tx)
    ensures Waits(s, tx.vin[..0]) == {} && Told(dependers, dependers, tx.hash, {})
  {
  }

  lemma WaitsMore(s: Store, vin: seq<TxIn>, i: nat)
    requires i < |vin|
    ensures Waits(s, vin[..i + 1]) == Waits(s, vin[..i]) + if Readable(s, vin[i].prevout) then {} else {vin[i].prevout.hash}
  {
    assert vin[..i + 1][..i] == vin[..i];
  }

  lemma ToldMore(before: map<Hash, seq<Hash>>, after: map<Hash, seq<Hash>>, h: Hash, waits: set<Hash>, p: Hash)
    requires Told(before, after, h, waits)
    ensures Told(before, after[p := (if p in after then after[p] else []) + [h]], h, waits + {p})
  {
  }

  /** The scheduler once the pooled transactions in `done` have been looked at. */
  ghost predicate Filled(c: Config, s: Store, sc: Sched, done: set<Hash>) {
    FilledQueue(c, s, sc.queue, done) && FilledOrphans(c, s, sc.orphans, done) && DependersOk(s, sc) && PricesOk(c, s, sc)
  }

  ghost predicate FilledQueue(c: Config, s: Store, queue: seq<TxPriority>, done: set<Hash>) {
    NoRepeats(queue) && forall h :: h in Queued(queue) <==> h in done && Candidate(c, s, h) && WaitsOf(s, h) == {}
  }

  ghost predicate FilledOrphans(c: Config, s: Store, orphans: map<Hash, COrphan>, done: set<Hash>) {
    && (forall h :: h in orphans <==> h in done && Candidate(c, s, h) && WaitsOf(s, h) != {})
    && (forall h :: h in orphans ==> orphans[h].setDependsOn == WaitsOf(s, h))
  }

  /** mapDependers leads from every transaction to the orphans that wait for it. */
  predicate DependersOk(s: Store, sc: Sched) {
    && (forall h, p :: h in sc.orphans && h in s.mapTx && p in WaitsOf(s, h) ==> p in sc.dependers && h in sc.dependers[p])
    && (forall p, i :: p in sc.dependers && 0 <= i < |sc.dependers[p]| ==> sc.dependers[p][i] in sc.orphans)
  }

  /** The first loop of CreateNewBlock. */
  method FillQueue(c: Config, s: Store) returns (sc: Sched)
    requires Keyed(s.mapTx) && AllScannable(s)
    ensures Filled(c, s, sc, s.mapTx.Keys)
  {
    hide Filled, Keyed, AllScannable, Scannable, SomeGone, Waits, Told;
    sc := Sched([], map[], map[]);
    FilledNone(c, s);
    var todo := s.mapTx.Keys;
    while todo != {}
      invariant todo <= s.mapTx.Keys && Filled(c, s, sc, s.mapTx.Keys - todo)
      decreases todo
    {
      var h :| h in todo;
      var tx := s.mapTx[h];
      ghost var done := s.mapTx.Keys - todo;
      if tx.IsBeanBase() || tx.IsBeanStake() || !c.isFinal(tx) {
        FilledSkip(c, s, sc, done, h);
      } else {
        PooledScannable(s, h);
        var fMissingInputs, waits, dependers := ScanInputs(s, tx, sc.dependers);
        if fMissingInputs {
          FilledSkip(c, s, sc, done, h);
        } else {
          FilledMore(c, s, sc, done, h, waits, dependers);
        }
        if fMissingInputs {
        } else if waits != {} {
          sc := sc.(orphans := sc.orphans[h := COrphan(c.priority(tx), c.feePerKb(tx), waits)], dependers := dependers);
        } else {
          sc := sc.(queue := sc.queue + [Entry(c, tx, h)], dependers := dependers);
        }
      }
      assert s.mapTx.Keys - (todo - {h}) == done + {h};
      todo := todo - {h};
    }
    assert s.mapTx.Keys - {} == s.mapTx.Keys;
  }

  lemma FilledNone(c: Config, s: Store)
    ensures Filled(c, s, Sched([], map[], map[]), s.mapTx.Keys - s.mapTx.Keys)
  {
  }

  lemma FilledSkip(c: Config, s: Store, sc: Sched, done: set<Hash>, h: Hash)
    requires Filled(c, s, sc, done) && h in s.mapTx
    requires !Candidate(c, s, h)
    ensures Filled(c, s, sc, done + {h})
  {
  }

  lemma PooledScannable(s: Store, h: Hash)
    requires AllScannable(s) && Keyed(s.mapTx) && h in s.mapTx
    ensures s.mapTx[h].hash == h && Scannable(s, s.mapTx[h].vin)
  {
  }

  lemma FilledMore(c: Config, s: Store, sc: Sched, done: set<Hash>, h: Hash, waits: set<Hash>, dependers: map<Hash, seq<Hash>>)
    requires Filled(c, s, sc, done) && h in s.mapTx && h !in done && Candidate(c, s, h)
    requires waits == WaitsOf(s, h) && Told(sc.dependers, dependers, h, waits)
    ensures waits != {} ==> Filled(c, s, sc.(orphans := sc.orphans[h := COrphan(c.priority(s.mapTx[h]), c.feePerKb(s.mapTx[h]), waits)],
                                             dependers := dependers), done + {h})
    ensures waits == {} ==> Filled(c, s, sc.(queue := sc.queue + [Entry(c, s.mapTx[h], h)], dependers := dependers), done + {h})
  {
    hide WaitsOf, Candidate;
    PricesMore(c, s, sc, h, waits, dependers);
    hide PricesOk;
    if waits == {} {
      QueueMore(c, s, sc.queue, done, h);
      hide FilledQueue;
      ToldNothing(s, sc, h, dependers);
    } else {
      var orphan := COrphan(c.priority(s.mapTx[h]), c.feePerKb(s.mapTx[h]), waits);
      hide FilledQueue, DependersOk, Told;
      QueueSame(c, s, sc.queue, done, h);
      ToldOrphan(s, sc, h, waits, dependers, orphan);
    }
  }

  lemma PricesMore(c: Config, s: Store, sc: Sched, h: Hash, waits: set<Hash>, dependers: map<Hash, seq<Hash>>)
    requires PricesOk(c, s, sc) && h in s.mapTx
    ensures PricesOk(c, s, sc.(orphans := sc.orphans[h := COrphan(c.priority(s.mapTx[h]), c.feePerKb(s.mapTx[h]), waits)], dependers := dependers))
    ensures PricesOk(c, s, sc.(queue := sc.queue + [Entry(c, s.mapTx[h], h)], dependers := dependers))
  {
  }

  lemma QueueSame(c: Config, s: Store, queue: seq<TxPriority>, done: set<Hash>, h: Hash)
    requires FilledQueue(c, s, queue, done) && h in s.mapTx && WaitsOf(s, h) != {}
    ensures FilledQueue(c, s, queue, done + {h})
  {
  }

  lemma QueueMore(c: Config, s: Store, queue: seq<TxPriority>, done: set<Hash>, h: Hash)
    requires FilledQueue(c, s, queue, done) && h !in done && Candidate(c, s, h) && WaitsOf(s, h) == {}
    ensures FilledQueue(c, s, queue + [Entry(c, s.mapTx[h], h)], done + {h})
  {
    PushedQueue(queue, Entry(c, s.mapTx[h], h));
  }

  lemma ToldNothing(s: Store, sc: Sched, h: Hash, dependers: map<Hash, seq<Hash>>)
    requires DependersOk(s, sc) && Told(sc.dependers, dependers, h, {})
    ensures DependersOk(s, sc.(dependers := dependers))
  {
    forall p, i | p in dependers && 0 <= i < |dependers[p]|
      ensures dependers[p][i] in sc.orphans
    {
      assert dependers[p][i] in dependers[p];
    }
  }

  lemma ToldOrphan(s: Store, sc: Sched, h: Hash, waits: set<Hash>, dependers: map<Hash, seq<Hash>>, orphan: COrphan)
    requires DependersOk(s, sc) && Told(sc.dependers, dependers, h, waits) && h in s.mapTx && waits == WaitsOf(s, h)
    ensures DependersOk(s, sc.(orphans := sc.orphans[h := orphan], dependers := dependers))
  {
    forall p, i | p in dependers && 0 <= i < |dependers[p]|
      ensures dependers[p][i] in sc.orphans[h := orphan]
    {
      assert dependers[p][i] in dependers[p];
    }
  }

  lemma FilledIsOk(c: Config, s: Store, sc: Sched)
    requires Filled(c, s, sc, s.mapTx.Keys)
    ensures SchedOk(c, s, sc, {}, {})
  {
    hide DependersOk, WaitsOf, NoRepeats, PricesOk;
  }

  // ------------------------------------------------------------------ taking from the queue

  lemma PoppedQueueOk(c: Config, s: Store, sc: Sched, considered: set<Hash>, best: TxPriority, rest: seq<TxPriority>)
    requires QueueOk(c, s, sc, considered)
    requires Popped(sc.queue, best, rest)
    ensures QueueOk(c, s, sc.(queue := rest), considered + {best.ptx}) && best.ptx in Queued(sc.queue) && best.ptx !in considered
  {
    hide Popped, NoRepeats, Queued, Candidate;
    PoppedQueue(sc.queue, best, rest);
    var t := sc.(queue := rest);
    assert forall h :: Ready(t, h) <==> Ready(sc, h);
    hide Ready;
  }

  lemma PoppedOk(c: Config, s: Store, sc: Sched, chosen: set<Hash>, considered: set<Hash>, best: TxPriority, rest: seq<TxPriority>)
    requires SchedOk(c, s, sc, chosen, considered)
    requires Popped(sc.queue, best, rest)
    ensures SchedOk(c, s, sc.(queue := rest), chosen, considered + {best.ptx})
    ensures Candidate(c, s, best.ptx) && best.ptx !in considered && WaitsOf(s, best.ptx) <= chosen
    ensures best == Entry(c, s.mapTx[best.ptx], best.ptx)
  {
    QueueIsLine(c, s, sc, chosen, considered);
    hide Popped, QueueOk, Waiting, PricesOk, Queued, SomeGone, WaitsOf, DependersOk;
    PoppedQueueOk(c, s, sc, considered, best, rest);
    PricesPopped(c, s, sc, best, rest);
    DependersIgnoreQueue(s, sc, rest);
  }

  lemma DependersIgnoreQueue(s: Store, sc: Sched, queue: seq<TxPriority>)
    requires DependersOk(s, sc)
    ensures DependersOk(s, sc.(queue := queue))
  {
  }

  lemma PricesPopped(c: Config, s: Store, sc: Sched, best: TxPriority, rest: seq<TxPriority>)
    requires PricesOk(c, s, sc) && Popped(sc.queue, best, rest)
    ensures PricesOk(c, s, sc.(queue := rest)) && (best.ptx in s.mapTx ==> best == Entry(c, s.mapTx[best.ptx], best.ptx))
  {
    hide Entry;
    var i :| 0 <= i < |sc.queue| && best == sc.queue[i] && rest == sc.queue[..i] + sc.queue[i + 1..];
    assert forall j :: 0 <= j < |rest| ==> rest[j] == sc.queue[if j < i then j else j + 1];
  }

  /** Telling one orphan that h is in the block; it joins the queue when it was waiting for h alone. */
  function TellOne(sc: Sched, o: Hash, h: Hash): Sched
    requires o in sc.orphans
  {
    var orphan := sc.orphans[o];
    if orphan.setDependsOn == {} then sc
    else
      var left := orphan.setDependsOn - {h};
      sc.(orphans := sc.orphans[o := orphan.(setDependsOn := left)],
          queue := if left == {} then sc.queue + [TxPriority(orphan.dPriority, orphan.dFeePerKb, o)] else sc.queue)
  }

  lemma TellOneOk(c: Config, s: Store, sc: Sched, chosen: set<Hash>, considered: set<Hash>, told: seq<Hash>, o: Hash, h: Hash)
    requires QueueOk(c, s, sc, considered) && Telling(c, s, sc.orphans, chosen, told, h) && DependersOk(s, sc) && o in sc.orphans
    requires PricesOk(c, s, sc)
    ensures var t := TellOne(sc, o, h);
            QueueOk(c, s, t, considered) && Telling(c, s, t.orphans, chosen, told + [o], h) && DependersOk(s, t) && PricesOk(c, s, t)
  {
    hide Candidate, Telling, DependersOk, WaitsOf, PricesOk;
    TellingMore(c, s, sc, chosen, told, o, h);
    PricesTold(c, s, sc, o, h);
    var t := TellOne(sc, o, h);
    assert forall x :: x != o ==> (Ready(t, x) <==> Ready(sc, x));
    if sc.orphans[o].setDependsOn != {} {
      assert !Ready(sc, o) && (Ready(t, o) <==> sc.orphans[o].setDependsOn - {h} == {});
      PushedQueue(sc.queue, TxPriority(sc.orphans[o].dPriority, sc.orphans[o].dFeePerKb, o)) by {
        assert o !in Queued(sc.queue) + considered;
      }
      assert Candidate(c, s, o);
    }
    hide NoRepeats, Queued, Ready;
  }

  lemma PricesTold(c: Config, s: Store, sc: Sched, o: Hash, h: Hash)
    requires PricesOk(c, s, sc) && o in sc.orphans
    ensures PricesOk(c, s, TellOne(sc, o, h))
  {
  }

  lemma TellingMore(c: Config, s: Store, sc: Sched, chosen: set<Hash>, told: seq<Hash>, o: Hash, h: Hash)
    requires Telling(c, s, sc.orphans, chosen, told, h) && DependersOk(s, sc) && o in sc.orphans
    ensures var t := TellOne(sc, o, h); Telling(c, s, t.orphans, chosen, told + [o], h) && DependersOk(s, t)
    ensures Candidate(c, s, o)
  {
    hide Candidate, WaitsOf;
    var t := TellOne(sc, o, h);
    assert t.orphans.Keys == sc.orphans.Keys;
    assert forall x :: x in told + [o] <==> x in told || x == o;
  }

  method TellOrphan(sc: Sched, o: Hash, h: Hash) returns (sc': Sched)
    requires o in sc.orphans
    ensures sc' == TellOne(sc, o, h) && sc'.dependers == sc.dependers
  {
    sc' := sc;
    var porphan := sc.orphans[o];
    if porphan.setDependsOn != {} {
      porphan := porphan.(setDependsOn := porphan.setDependsOn - {h});
      sc' := sc'.(orphans := sc'.orphans[o := porphan]);
      if porphan.setDependsOn == {} {
        sc' := sc'.(queue := sc'.queue + [TxPriority(porphan.dPriority, porphan.dFeePerKb, o)]);
      }
    }
  }

  /** The schedule when the listed orphans have been told. */
  ghost predicate ToldOk(c: Config, s: Store, sc: Sched, chosen: set<Hash>, considered: set<Hash>, told: seq<Hash>, h: Hash) {
    QueueOk(c, s, sc, considered) && Telling(c, s, sc.orphans, chosen, told, h) && DependersOk(s, sc) && PricesOk(c, s, sc)
  }

  /** The loop over mapDependers[h]. An orphan that spends two outputs of h is listed twice and still queued once. */
  method Tell(c: Config, s: Store, sc: Sched, h: Hash, ghost chosen: set<Hash>, ghost considered: set<Hash>) returns (sc': Sched)
    requires SchedOk(c, s, sc, chosen, considered)
    ensures SchedOk(c, s, sc', chosen + {h}, considered)
  {
    hide SchedOk, ToldOk, TellOne;
    sc' := sc;
    TellNone(c, s, sc, chosen, considered, h);
    if h in sc.dependers {
      var list := sc.dependers[h];
      for j := 0 to |list|
        invariant ToldOk(c, s, sc', chosen, considered, list[..j], h) && sc'.dependers == sc.dependers
      {
        TellNext(c, s, sc', chosen, considered, list, j, h);
        sc' := TellOrphan(sc', list[j], h);
      }
      assert list[..|list|] == list;
      TellAll(c, s, sc', chosen, considered, list, h);
    } else {
      TellAll(c, s, sc', chosen, considered, [], h);
    }
  }

  lemma TellNone(c: Config, s: Store, sc: Sched, chosen: set<Hash>, considered: set<Hash>, h: Hash)
    requires SchedOk(c, s, sc, chosen, considered)
    ensures ToldOk(c, s, sc, chosen, considered, [], h)
    ensures h in sc.dependers ==> sc.dependers[h][..0] == []
  {
    hide QueueOk, DependersOk, PricesOk;
    TellingStart(c, s, sc.orphans, chosen, h);
  }

  lemma TellNext(c: Config, s: Store, sc: Sched, chosen: set<Hash>, considered: set<Hash>, list: seq<Hash>, j: nat, h: Hash)
    requires j < |list| && h in sc.dependers && list == sc.dependers[h] && ToldOk(c, s, sc, chosen, considered, list[..j], h)
    ensures list[j] in sc.orphans && ToldOk(c, s, TellOne(sc, list[j], h), chosen, considered, list[..j + 1], h)
  {
    hide QueueOk, Telling, DependersOk, PricesOk, TellOne;
    ListedIsOrphan(s, sc, h, j);
    TellOneOk(c, s, sc, chosen, considered, list[..j], list[j], h);
    assert list[..j + 1] == list[..j] + [list[j]];
  }

  lemma TellAll(c: Config, s: Store, sc: Sched, chosen: set<Hash>, considered: set<Hash>, told: seq<Hash>, h: Hash)
    requires ToldOk(c, s, sc, chosen, considered, told, h) && told == if h in sc.dependers then sc.dependers[h] else []
    ensures SchedOk(c, s, sc, chosen + {h}, considered)
  {
    hide QueueOk, Telling, DependersOk, PricesOk, Waiting;
    TellingEnd(c, s, sc, chosen, told, h);
  }

  lemma ListedIsOrphan(s: Store, sc: Sched, h: Hash, j: nat)
    requires DependersOk(s, sc) && h in sc.dependers && j < |sc.dependers[h]|
    ensures sc.dependers[h][j] in sc.orphans
  {
  }

  lemma TellingStart(c: Config, s: Store, orphans: map<Hash, COrphan>, chosen: set<Hash>, h: Hash)
    requires Waiting(c, s, orphans, chosen)
    ensures Telling(c, s, orphans, chosen, [], h)
  {
    hide Candidate, WaitsOf;
  }

  lemma TellingEnd(c: Config, s: Store, sc: Sched, chosen: set<Hash>, told: seq<Hash>, h: Hash)
    requires Telling(c, s, sc.orphans, chosen, told, h) && DependersOk(s, sc)
    requires told == if h in sc.dependers then sc.dependers[h] else []
    ensures Waiting(c, s, sc.orphans, chosen + {h})
  {
    hide WaitsOf;
    forall o | o in sc.orphans
      ensures sc.orphans[o].setDependsOn == WaitsOf(s, o) - (chosen + {h})
    {
      if h in WaitsOf(s, o) {
        assert o in told;
      }
    }
  }

  // ------------------------------------------------------------------ filling the block

  /** tx passes every test CreateNewBlock makes while the block holds vtx. */
  ghost predicate Takes(c: Config, r: Rules, t: Tree, best: Hash, s: Store, vtx: seq<Tx>, tx: Tx, byFee: bool)
    requires t.Valid() && best in t.nodes
  {
    var nBlockSize := 1000 + SumSize(vtx);
    && nBlockSize + tx.size < c.nBlockMaxSize
    && 100 + TotalSigOps(r, s, vtx) + tx.sigOps < MAX_BLOCK_SIGOPS
    && tx.nTime <= c.nTimeLimit
    && !(byFee && c.feePerKb(tx) < c.nMinTxFee && nBlockSize + tx.size >= c.nBlockMinSize)
    && CanFollow(r, t, best, s, vtx, tx, nBlockSize)
    && 100 + TotalSigOps(r, s, vtx) + SigOpsAfter(r, s, vtx, tx) < MAX_BLOCK_SIGOPS
  }

  /** The tests before the inputs are fetched. */
  predicate Fits(c: Config, tx: Tx, nBlockSize: int, nBlockSigOps: int, byFee: bool) {
    && nBlockSize + tx.size < c.nBlockMaxSize && nBlockSigOps + tx.sigOps < MAX_BLOCK_SIGOPS
    && tx.nTime <= c.nTimeLimit
    && !(byFee && c.feePerKb(tx) < c.nMinTxFee && nBlockSize + tx.size >= c.nBlockMinSize)
  }

  method PassesLimits(c: Config, e: TxPriority, tx: Tx, nBlockSize: int, nBlockSigOps: int, byFee: bool) returns (ok: bool)
    requires e.dFeePerKb == c.feePerKb(tx)
    ensures ok <==> Fits(c, tx, nBlockSize, nBlockSigOps, byFee)
  {
    if nBlockSize + tx.size >= c.nBlockMaxSize {
      return false;
    }
    if nBlockSigOps + tx.sigOps >= MAX_BLOCK_SIGOPS {
      return false;
    }
    if tx.nTime > c.nTimeLimit {
      return false;
    }
    if byFee && e.dFeePerKb < c.nMinTxFee && nBlockSize + tx.size >= c.nBlockMinSize {
      return false;
    }
    return true;
  }

  /** Fetching and tentatively spending the inputs; the test pool is kept only on success. */
  method TryConnect(r: Rules, t: Tree, best: Hash, s: Store, ghost vtx: seq<Tx>, testPool: Index, tx: Tx, nBlockSize: nat, nBlockSigOps: int)
    returns (ok: bool, testPool': Index, nTxFees: int, nTxSigOps: int)
    requires t.Valid() && best in t.nodes && !tx.IsBeanBase() && !tx.IsBeanStake() && s.txdb + testPool == PoolView(s.txdb, vtx)
    ensures ok <==> CanFollow(r, t, best, s, vtx, tx, nBlockSize) && nBlockSigOps + SigOpsAfter(r, s, vtx, tx) < MAX_BLOCK_SIGOPS
    ensures ok ==> s.txdb + testPool' == ConnectTx(PoolView(s.txdb, vtx), tx, MEMPOOL_POS)
    ensures ok ==> nTxFees == FeeAfter(s, vtx, tx) && nTxSigOps == SigOpsAfter(r, s, vtx, tx)
    ensures !ok ==> testPool' == testPool
  {
    hide InputsConnectable, MarkFetched, PoolView, AllInRange;
    nTxFees, nTxSigOps, testPool' := 0, tx.sigOps, testPool;
    var inputs, fInvalid;
    ok, inputs, fInvalid := FetchInputs(s, testPool, tx, false, true);
    FetchedIsInputsFrom(s, testPool, tx.vin);
    assert StoreAfter(s, vtx) == s.(txdb := s.txdb + testPool);
    if !ok {
      return;
    }
    nTxFees := ValueIn(inputs, tx.vin) - SumOut(tx.vout);
    if nTxFees < GetMinFee(tx, nBlockSize) {
      return false, testPool', nTxFees, nTxSigOps;
    }
    nTxSigOps := nTxSigOps + P2shSigOps(r, inputs, tx.vin, tx);
    if nBlockSigOps + nTxSigOps >= MAX_BLOCK_SIGOPS {
      return false, testPool', nTxFees, nTxSigOps;
    }
    var pool;
    ok, pool := ConnectInputs(r, t, best, t.nodes[best].nHeight, inputs, testPool, tx, MEMPOOL_POS, false, true);
    if !ok {
      return;
    }
    QueueMarksView(s, testPool, tx.vin, MEMPOOL_POS);
    QueueEntry(s.txdb, pool, tx.hash, Fresh(MEMPOOL_POS, |tx.vout|));
    testPool' := pool[tx.hash := Fresh(MEMPOOL_POS, |tx.vout|)];
  }

  // ------------------------------------------------------------------ the run of the main loop

  /** One turn: the transaction taken from the queue, and the order in force. */
  datatype Turn = Turn(ptx: Hash, byFee: bool)

  function Seen(turns: seq<Turn>): (r: set<Hash>)
    ensures forall i :: 0 <= i < |turns| ==> turns[i].ptx in r
  {
    set i | 0 <= i < |turns| :: turns[i].ptx
  }

  /** The block after these turns: each transaction joins it exactly when it passes every test at its turn. */
  ghost function Built(c: Config, r: Rules, t: Tree, best: Hash, s: Store, turns: seq<Turn>): seq<Tx>
    requires t.Valid() && best in t.nodes
  {
    if turns == [] then []
    else
      var front, last := Built(c, r, t, best, s, turns[..|turns| - 1]), turns[|turns| - 1];
      if last.ptx in s.mapTx && Takes(c, r, t, best, s, front, s.mapTx[last.ptx], last.byFee) then front + [s.mapTx[last.ptx]] else front
  }

  /** The order after a turn: by fee once a transaction that passes the first tests makes the block larger than the
      priority part, or has too low a priority. */
  predicate SwitchesTo(c: Config, byFee: bool, nBlockSize: int, nBlockSigOps: int, tx: Tx) {
    byFee || (Fits(c, tx, nBlockSize, nBlockSigOps, byFee) && (nBlockSize + tx.size >= c.nBlockPrioritySize || c.priority(tx) < FREE_PRIORITY))
  }

  /** The order in force after these turns. */
  ghost predicate ByFee(c: Config, r: Rules, t: Tree, best: Hash, s: Store, turns: seq<Turn>)
    requires t.Valid() && best in t.nodes
  {
    if turns == [] then c.nBlockPrioritySize <= 0
    else
      var front, last := turns[..|turns| - 1], turns[|turns| - 1];
      var vtx := Built(c, r, t, best, s, front);
      if last.ptx in s.mapTx
      then SwitchesTo(c, ByFee(c, r, t, best, s, front), 1000 + SumSize(vtx), 100 + TotalSigOps(r, s, vtx), s.mapTx[last.ptx])
      else ByFee(c, r, t, best, s, front)
  }

  /** A candidate whose turn has not come yet and all of whose parents are confirmed or in the block. */
  ghost predicate InLineFor(c: Config, s: Store, chosen: set<Hash>, seen: set<Hash>, h: Hash) {
    Candidate(c, s, h) && h !in seen && WaitsOf(s, h) <= chosen
  }

  /** h is next in line: no one else who could be next exceeds it in the order in force. */
  ghost predicate IsNext(c: Config, s: Store, chosen: set<Hash>, seen: set<Hash>, turn: Turn) {
    && InLineFor(c, s, chosen, seen, turn.ptx) && turn.ptx in s.mapTx
    && forall h :: InLineFor(c, s, chosen, seen, h) && h in s.mapTx ==>
         !Less(turn.byFee, Entry(c, s.mapTx[turn.ptx], turn.ptx), Entry(c, s.mapTx[h], h))
  }

  /** Every turn goes to one that is next in line, under the order in force then. */
  ghost predicate Greedy(c: Config, r: Rules, t: Tree, best: Hash, s: Store, turns: seq<Turn>)
    requires t.Valid() && best in t.nodes
  {
    turns == [] ||
    (var front, last := turns[..|turns| - 1], turns[|turns| - 1];
     && Greedy(c, r, t, best, s, front)
     && last.byFee == ByFee(c, r, t, best, s, front)
     && IsNext(c, s, Txids(Built(c, r, t, best, s, front)), Seen(front), last))
  }

  /** Nobody is left in line. */
  ghost predicate Finished(c: Config, r: Rules, t: Tree, best: Hash, s: Store, turns: seq<Turn>)
    requires t.Valid() && best in t.nodes
  {
    forall h :: !InLineFor(c, s, Txids(Built(c, r, t, best, s, turns)), Seen(turns), h)
  }

  lemma SeenMore(turns: seq<Turn>, turn: Turn)
    ensures Seen(turns + [turn]) == Seen(turns) + {turn.ptx}
  {
    var all := turns + [turn];
    assert forall i :: 0 <= i < |turns| ==> all[i] == turns[i];
    assert all[|turns|] == turn;
  }

  /** One more turn. */
  lemma TurnMore(c: Config, r: Rules, t: Tree, best: Hash, s: Store, turns: seq<Turn>, turn: Turn)
    requires t.Valid() && best in t.nodes && turn.ptx in s.mapTx
    ensures var vtx, tx := Built(c, r, t, best, s, turns), s.mapTx[turn.ptx];
            && Built(c, r, t, best, s, turns + [turn]) == (if Takes(c, r, t, best, s, vtx, tx, turn.byFee) then vtx + [tx] else vtx)
            && (ByFee(c, r, t, best, s, turns + [turn])
                <==> SwitchesTo(c, ByFee(c, r, t, best, s, turns), 1000 + SumSize(vtx), 100 + TotalSigOps(r, s, vtx), tx))
            && (Greedy(c, r, t, best, s, turns + [turn])
                <==> Greedy(c, r, t, best, s, turns) && turn.byFee == ByFee(c, r, t, best, s, turns)
                     && IsNext(c, s, Txids(vtx), Seen(turns), turn))
  {
    hide *;
    var all := turns + [turn];
    assert all[..|turns|] == turns && all[|turns|] == turn;
    BuiltMore(c, r, t, best, s, all);
    ByFeeMore(c, r, t, best, s, all);
    GreedyMore(c, r, t, best, s, all);
  }

  lemma BuiltMore(c: Config, r: Rules, t: Tree, best: Hash, s: Store, all: seq<Turn>)
    requires t.Valid() && best in t.nodes && all != [] && all[|all| - 1].ptx in s.mapTx
    ensures var front, last := all[..|all| - 1], all[|all| - 1];
            var vtx, tx := Built(c, r, t, best, s, front), s.mapTx[last.ptx];
            Built(c, r, t, best, s, all) == if Takes(c, r, t, best, s, vtx, tx, last.byFee) then vtx + [tx] else vtx
  {
    hide Takes;
  }

  lemma ByFeeMore(c: Config, r: Rules, t: Tree, best: Hash, s: Store, all: seq<Turn>)
    requires t.Valid() && best in t.nodes && all != [] && all[|all| - 1].ptx in s.mapTx
    ensures var front, last := all[..|all| - 1], all[|all| - 1];
            var vtx := Built(c, r, t, best, s, front);
            ByFee(c, r, t, best, s, all)
            <==> SwitchesTo(c, ByFee(c, r, t, best, s, front), 1000 + SumSize(vtx), 100 + TotalSigOps(r, s, vtx), s.mapTx[last.ptx])
  {
    hide SwitchesTo, Built, SumSize, TotalSigOps;
  }

  lemma GreedyMore(c: Config, r: Rules, t: Tree, best: Hash, s: Store, all: seq<Turn>)
    requires t.Valid() && best in t.nodes && all != []
    ensures var front, last := all[..|all| - 1], all[|all| - 1];
            Greedy(c, r, t, best, s, all)
            <==> Greedy(c, r, t, best, s, front) && last.byFee == ByFee(c, r, t, best, s, front)
                 && IsNext(c, s, Txids(Built(c, r, t, best, s, front)), Seen(front), last)
  {
    hide ByFee, Built, Txids, Seen, IsNext;
  }

  lemma {:induction false} TurnIsNext(c: Config, r: Rules, t: Tree, best: Hash, s: Store, turns: seq<Turn>, i: nat)
    requires t.Valid() && best in t.nodes && Greedy(c, r, t, best, s, turns) && i < |turns|
    ensures turns[i].byFee == ByFee(c, r, t, best, s, turns[..i])
    ensures IsNext(c, s, Txids(Built(c, r, t, best, s, turns[..i])), Seen(turns[..i]), turns[i])
    decreases |turns|
  {
    hide IsNext, ByFee, Built, Txids, Seen;
    var front := turns[..|turns| - 1];
    if i < |turns| - 1 {
      TurnIsNext(c, r, t, best, s, front, i);
      assert front[..i] == turns[..i];
    }
  }

  /** Every turn goes to a transaction that none in line exceeds: in fee rate when fees count, and in priority among those of
      the same rate; otherwise in priority, and in fee rate among those of the same priority. */
  lemma TurnGoesToGreatest(c: Config, r: Rules, t: Tree, best: Hash, s: Store, turns: seq<Turn>, i: nat, h: Hash)
    requires t.Valid() && best in t.nodes && Greedy(c, r, t, best, s, turns) && i < |turns|
    requires InLineFor(c, s, Txids(Built(c, r, t, best, s, turns[..i])), Seen(turns[..i]), h)
    ensures h in s.mapTx && turns[i].ptx in s.mapTx
    ensures var other, taken := s.mapTx[h], s.mapTx[turns[i].ptx];
            if turns[i].byFee then
              && c.feePerKb(other) <= c.feePerKb(taken)
              && (c.feePerKb(other) == c.feePerKb(taken) ==> c.priority(other) <= c.priority(taken))
            else
              && c.priority(other) <= c.priority(taken)
              && (c.priority(other) == c.priority(taken) ==> c.feePerKb(other) <= c.feePerKb(taken))
  {
    TurnIsNext(c, r, t, best, s, turns, i);
    CandidatePooled(c, s, h);
    hide Greedy, Built, Txids, Seen, InLineFor;
  }

  /** At turn j a transaction came up that passes the first tests and ends the part of the block filled by priority. */
  ghost predicate EndsPriorityPart(c: Config, r: Rules, t: Tree, best: Hash, s: Store, turns: seq<Turn>, j: nat)
    requires t.Valid() && best in t.nodes && j < |turns|
  {
    && turns[j].ptx in s.mapTx
    && var vtx, tx := Built(c, r, t, best, s, turns[..j]), s.mapTx[turns[j].ptx];
       && 1000 + SumSize(vtx) + tx.size < c.nBlockMaxSize && 100 + TotalSigOps(r, s, vtx) + tx.sigOps < MAX_BLOCK_SIGOPS
       && tx.nTime <= c.nTimeLimit
       && (1000 + SumSize(vtx) + tx.size >= c.nBlockPrioritySize || c.priority(tx) < 57_600_000.0)
  }

  lemma SameEnd(c: Config, r: Rules, t: Tree, best: Hash, s: Store, turns: seq<Turn>, j: nat)
    requires t.Valid() && best in t.nodes && j < |turns| - 1
    ensures EndsPriorityPart(c, r, t, best, s, turns[..|turns| - 1], j) <==> EndsPriorityPart(c, r, t, best, s, turns, j)
  {
    hide Built, SumSize, TotalSigOps, Tree.Valid;
    assert turns[..|turns| - 1][..j] == turns[..j];
  }

  lemma ByFeeFirst(c: Config, r: Rules, t: Tree, best: Hash, s: Store)
    requires t.Valid() && best in t.nodes
    ensures ByFee(c, r, t, best, s, []) <==> c.nBlockPrioritySize <= 0
  {
  }

  lemma LastMayEnd(c: Config, r: Rules, t: Tree, best: Hash, s: Store, turns: seq<Turn>)
    requires t.Valid() && best in t.nodes && turns != [] && turns[|turns| - 1].ptx in s.mapTx
    ensures ByFee(c, r, t, best, s, turns)
       <==> EndsPriorityPart(c, r, t, best, s, turns, |turns| - 1) || ByFee(c, r, t, best, s, turns[..|turns| - 1])
  {
    hide Built, SumSize, TotalSigOps, ByFee, Tree.Valid;
    ByFeeMore(c, r, t, best, s, turns);
  }

  /** Fees count from the start when there is no part filled by priority, and otherwise once that part has ended. */
  lemma {:induction false} FeesCountIff(c: Config, r: Rules, t: Tree, best: Hash, s: Store, turns: seq<Turn>)
    requires t.Valid() && best in t.nodes && forall i :: 0 <= i < |turns| ==> turns[i].ptx in s.mapTx
    ensures ByFee(c, r, t, best, s, turns)
       <==> c.nBlockPrioritySize <= 0 || exists j :: 0 <= j < |turns| && EndsPriorityPart(c, r, t, best, s, turns, j)
    decreases |turns|
  {
    hide *;
    if turns == [] {
      ByFeeFirst(c, r, t, best, s);
    } else {
      var n := |turns| - 1;
      var front := turns[..n];
      FeesCountIff(c, r, t, best, s, front);
      LastMayEnd(c, r, t, best, s, turns);
      forall j | 0 <= j < n
        ensures EndsPriorityPart(c, r, t, best, s, front, j) <==> EndsPriorityPart(c, r, t, best, s, turns, j)
      {
        SameEnd(c, r, t, best, s, turns, j);
      }
    }
  }

  /** While fees count, one of too low a rate joins only as long as the block stays smaller than the minimum size. */
  lemma CheapJoinsSmallBlock(c: Config, r: Rules, t: Tree, best: Hash, s: Store, turns: seq<Turn>, turn: Turn)
    requires t.Valid() && best in t.nodes && turn.ptx in s.mapTx && turn.byFee && c.feePerKb(s.mapTx[turn.ptx]) < c.nMinTxFee
    requires Built(c, r, t, best, s, turns + [turn]) != Built(c, r, t, best, s, turns)
    ensures 1000 + SumSize(Built(c, r, t, best, s, turns + [turn])) < c.nBlockMinSize
  {
    TurnMore(c, r, t, best, s, turns, turn);
    var vtx := Built(c, r, t, best, s, turns);
    OneMore(r, t, best, s, vtx, s.mapTx[turn.ptx]);
    hide Built, SumSize, TotalSigOps, ByFee, Greedy, CanFollow, SigOpsAfter;
  }

  /** A transaction that had its turn and is not in the block failed a test at its very turn. */
  lemma {:induction false} LeftOutFailed(c: Config, r: Rules, t: Tree, best: Hash, s: Store, turns: seq<Turn>, h: Hash) returns (i: nat)
    requires t.Valid() && best in t.nodes && Greedy(c, r, t, best, s, turns)
    requires h in Seen(turns) && Keyed(s.mapTx) && h !in Txids(Built(c, r, t, best, s, turns))
    ensures i < |turns| && turns[i].ptx == h && h in s.mapTx
    ensures turns[i].byFee == ByFee(c, r, t, best, s, turns[..i])
    ensures !Takes(c, r, t, best, s, Built(c, r, t, best, s, turns[..i]), s.mapTx[h], turns[i].byFee)
  {
    hide Takes, IsNext, SwitchesTo, SumSize, TotalSigOps, ByFee, Built, Txids;
    var n := |turns| - 1;
    var front, last := turns[..n], turns[n];
    assert turns == front + [last];
    SeenMore(front, last);
    NextIsPooled(c, s, Txids(Built(c, r, t, best, s, front)), Seen(front), last);
    TurnMore(c, r, t, best, s, front, last);
    var vtx := Built(c, r, t, best, s, front);
    DistinctOneMore(vtx, s.mapTx[last.ptx]);
    if last.ptx == h {
      i := n;
    } else {
      i := LeftOutFailed(c, r, t, best, s, front, h);
      assert front[..i] == turns[..i];
    }
  }

  lemma NextIsPooled(c: Config, s: Store, chosen: set<Hash>, seen: set<Hash>, turn: Turn)
    requires IsNext(c, s, chosen, seen, turn)
    ensures turn.ptx in s.mapTx && turn.ptx !in seen
  {
  }

  /** The block so far, with its running totals. */
  datatype Draft = Draft(vtx: seq<Tx>, mapTestPool: Index, nBlockSize: nat, nBlockSigOps: int, nFees: int)

  ghost predicate BlockOk(c: Config, r: Rules, t: Tree, best: Hash, s: Store, d: Draft)
    requires t.Valid() && best in t.nodes
  {
    && Assembled(r, t, best, s, d.vtx) && s.txdb + d.mapTestPool == PoolView(s.txdb, d.vtx)
    && d.nBlockSize == 1000 + SumSize(d.vtx) && d.nBlockSigOps == 100 + TotalSigOps(r, s, d.vtx) && d.nFees == TotalFees(s, d.vtx)
    && (d.vtx != [] ==> d.nBlockSize < c.nBlockMaxSize) && d.nBlockSigOps < MAX_BLOCK_SIGOPS
    && DistinctTxids(d.vtx) && AllPooled(c, s, d.vtx)
  }

  predicate AllPooled(c: Config, s: Store, vtx: seq<Tx>) {
    forall k :: 0 <= k < |vtx| ==> vtx[k].hash in s.mapTx && vtx[k] == s.mapTx[vtx[k].hash] && Candidate(c, s, vtx[k].hash) && vtx[k].nTime <= c.nTimeLimit
  }

  lemma BlockStart(c: Config, r: Rules, t: Tree, best: Hash, s: Store)
    requires t.Valid() && best in t.nodes
    ensures BlockOk(c, r, t, best, s, Draft([], map[], 1000, 100, 0)) && Txids([]) == {} && Seen([]) == {}
  {
    assert s.txdb + map[] == s.txdb;
  }

  lemma BlockMore(c: Config, r: Rules, t: Tree, best: Hash, s: Store, d: Draft, tx: Tx, mapTestPool: Index, byFee: bool)
    requires t.Valid() && best in t.nodes && BlockOk(c, r, t, best, s, d)
    requires Takes(c, r, t, best, s, d.vtx, tx, byFee) && Candidate(c, s, tx.hash) && s.mapTx[tx.hash] == tx && tx.hash !in Txids(d.vtx)
    requires s.txdb + mapTestPool == ConnectTx(PoolView(s.txdb, d.vtx), tx, MEMPOOL_POS)
    ensures BlockOk(c, r, t, best, s, Draft(d.vtx + [tx], mapTestPool, d.nBlockSize + tx.size,
                                            d.nBlockSigOps + SigOpsAfter(r, s, d.vtx, tx), d.nFees + FeeAfter(s, d.vtx, tx)))
    ensures Txids(d.vtx + [tx]) == Txids(d.vtx) + {tx.hash}
  {
    hide CanFollow, ConnectTx, DistinctTxids, Txids, Candidate, SigOpsAfter, FeeAfter, Assembled, TotalFees, TotalSigOps, PoolView,
      SumSize, AllPooled;
    DistinctOneMore(d.vtx, tx);
    OneMore(r, t, best, s, d.vtx, tx);
    PooledMore(c, s, d.vtx, tx);
  }

  lemma OneMore(r: Rules, t: Tree, best: Hash, s: Store, vtx: seq<Tx>, tx: Tx)
    requires t.Valid() && best in t.nodes
    ensures PoolView(s.txdb, vtx + [tx]) == ConnectTx(PoolView(s.txdb, vtx), tx, MEMPOOL_POS)
    ensures SumSize(vtx + [tx]) == SumSize(vtx) + tx.size
    ensures TotalFees(s, vtx + [tx]) == TotalFees(s, vtx) + FeeAfter(s, vtx, tx)
    ensures TotalSigOps(r, s, vtx + [tx]) == TotalSigOps(r, s, vtx) + SigOpsAfter(r, s, vtx, tx)
    ensures Assembled(r, t, best, s, vtx + [tx]) <==> Assembled(r, t, best, s, vtx) && CanFollow(r, t, best, s, vtx, tx, 1000 + SumSize(vtx))
  {
    hide CanFollow, ConnectTx, SigOpsAfter, FeeAfter;
    var all := vtx + [tx];
    assert all[..|all| - 1] == vtx && all[|all| - 1] == tx;
  }

  lemma PooledMore(c: Config, s: Store, vtx: seq<Tx>, tx: Tx)
    requires AllPooled(c, s, vtx) && Candidate(c, s, tx.hash) && s.mapTx[tx.hash] == tx && tx.nTime <= c.nTimeLimit
    ensures AllPooled(c, s, vtx + [tx])
  {
    hide Candidate;
    assert tx.hash in s.mapTx by {
      CandidatePooled(c, s, tx.hash);
    }
  }

  /** One turn of the main loop, after e has been popped: take it or leave it. */
  method Consider(c: Config, r: Rules, t: Tree, best: Hash, s: Store, sc: Sched, e: TxPriority, byFee: bool, d: Draft,
                  ghost considered: set<Hash>)
    returns (sc': Sched, byFee': bool, d': Draft)
    requires t.Valid() && best in t.nodes && Keyed(s.mapTx)
    requires Candidate(c, s, e.ptx) && e == Entry(c, s.mapTx[e.ptx], e.ptx) && e.ptx !in considered && Txids(d.vtx) <= considered
    requires SchedOk(c, s, sc, Txids(d.vtx), considered + {e.ptx}) && BlockOk(c, r, t, best, s, d)
    ensures SchedOk(c, s, sc', Txids(d'.vtx), considered + {e.ptx}) && BlockOk(c, r, t, best, s, d') && Txids(d'.vtx) <= considered + {e.ptx}
    ensures var tx := s.mapTx[e.ptx];
            && d'.vtx == (if Takes(c, r, t, best, s, d.vtx, tx, byFee) then d.vtx + [tx] else d.vtx)
            && byFee' == SwitchesTo(c, byFee, 1000 + SumSize(d.vtx), 100 + TotalSigOps(r, s, d.vtx), tx)
  {
    hide SchedOk, BlockOk, CanFollow, PoolView, SigOpsAfter, FeeAfter, ConnectTx, SomeGone;
    sc', byFee', d' := sc, byFee, d;
    var tx := s.mapTx[e.ptx];
    DraftFacts(c, r, t, best, s, d);
    var ok := PassesLimits(c, e, tx, d.nBlockSize, d.nBlockSigOps, byFee);
    if !ok {
      return;
    }
    if !byFee && (d.nBlockSize + tx.size >= c.nBlockPrioritySize || e.dPriority < FREE_PRIORITY) {
      byFee' := true;
    }
    var testPool, nTxFees, nTxSigOps;
    ok, testPool, nTxFees, nTxSigOps := TryConnect(r, t, best, s, d.vtx, d.mapTestPool, tx, d.nBlockSize, d.nBlockSigOps);
    if !ok {
      return;
    }
    BlockMore(c, r, t, best, s, d, tx, testPool, byFee);
    d' := Draft(d.vtx + [tx], testPool, d.nBlockSize + tx.size, d.nBlockSigOps + nTxSigOps, d.nFees + nTxFees);
    sc' := Tell(c, s, sc, tx.hash, Txids(d.vtx), considered + {e.ptx});
  }

  lemma DraftFacts(c: Config, r: Rules, t: Tree, best: Hash, s: Store, d: Draft)
    requires t.Valid() && best in t.nodes && BlockOk(c, r, t, best, s, d)
    ensures s.txdb + d.mapTestPool == PoolView(s.txdb, d.vtx)
    ensures d.nBlockSize == 1000 + SumSize(d.vtx) && d.nBlockSigOps == 100 + TotalSigOps(r, s, d.vtx)
  {
  }

  /** Those in the queue are exactly those who could be next, with their own priorities and fee rates. */
  lemma QueueIsLine(c: Config, s: Store, sc: Sched, chosen: set<Hash>, considered: set<Hash>)
    requires SchedOk(c, s, sc, chosen, considered)
    ensures forall h :: h in Queued(sc.queue) <==> InLineFor(c, s, chosen, considered, h)
  {
    hide DependersOk, PricesOk, NoRepeats, Queued, WaitsOf, Candidate;
    forall h
      ensures h in Queued(sc.queue) <==> InLineFor(c, s, chosen, considered, h)
    {
      if Candidate(c, s, h) {
        CandidatePooled(c, s, h);
        Covered(WaitsOf(s, h), chosen);
      }
      assert h in Queued(sc.queue) + considered <==> h in Queued(sc.queue) || h in considered;
    }
  }

  /** What is popped is next in line. */
  lemma PoppedIsNext(c: Config, s: Store, sc: Sched, chosen: set<Hash>, considered: set<Hash>, e: TxPriority, byFee: bool)
    requires SchedOk(c, s, sc, chosen, considered) && e in sc.queue
    requires forall j :: 0 <= j < |sc.queue| ==> !Less(byFee, e, sc.queue[j])
    ensures IsNext(c, s, chosen, considered, Turn(e.ptx, byFee))
  {
    QueueIsLine(c, s, sc, chosen, considered);
    hide QueueOk, Waiting, DependersOk, Candidate, WaitsOf, Less;
    var i :| 0 <= i < |sc.queue| && sc.queue[i] == e;
    LineIsPooled(c, s, chosen, considered, e.ptx);
    forall h | InLineFor(c, s, chosen, considered, h) && h in s.mapTx
      ensures !Less(byFee, Entry(c, s.mapTx[e.ptx], e.ptx), Entry(c, s.mapTx[h], h))
    {
      var j :| 0 <= j < |sc.queue| && sc.queue[j].ptx == h;
    }
  }

  lemma LineIsPooled(c: Config, s: Store, chosen: set<Hash>, considered: set<Hash>, h: Hash)
    requires InLineFor(c, s, chosen, considered, h)
    ensures h in s.mapTx
  {
    hide SomeGone;
  }

  /** The state of the main loop after these turns. */
  ghost predicate Midway(c: Config, r: Rules, t: Tree, best: Hash, s: Store, sc: Sched, d: Draft, byFee: bool, turns: seq<Turn>)
    requires t.Valid() && best in t.nodes
  {
    && SchedOk(c, s, sc, Txids(d.vtx), Seen(turns)) && Seen(turns) <= s.mapTx.Keys && Txids(d.vtx) <= Seen(turns)
    && BlockOk(c, r, t, best, s, d)
    && Greedy(c, r, t, best, s, turns) && d.vtx == Built(c, r, t, best, s, turns) && byFee == ByFee(c, r, t, best, s, turns)
  }

  /** CreateNewBlock's transactions and the fees they pay. `turns` is the run of its main loop. */
  method CreateNewBlock(c: Config, r: Rules, t: Tree, best: Hash, s: Store) returns (vtx: seq<Tx>, nFees: int, ghost turns: seq<Turn>)
    requires t.Valid() && best in t.nodes && Keyed(s.mapTx) && AllScannable(s)
    ensures Greedy(c, r, t, best, s, turns) && Finished(c, r, t, best, s, turns) && vtx == Built(c, r, t, best, s, turns)
    ensures Assembled(r, t, best, s, vtx) && nFees == TotalFees(s, vtx)
    ensures vtx != [] ==> 1000 + SumSize(vtx) < c.nBlockMaxSize
    ensures 100 + TotalSigOps(r, s, vtx) < MAX_BLOCK_SIGOPS
    ensures DistinctTxids(vtx) && AllPooled(c, s, vtx)
  {
    hide Midway, AllScannable, Keyed, Filled, Seen;
    var sc := FillQueue(c, s);
    var d, fSortedByFee := Draft([], map[], 1000, 100, 0), c.nBlockPrioritySize <= 0;
    turns := [];
    MidwayStarts(c, r, t, best, s, sc);
    while sc.queue != []
      invariant Midway(c, r, t, best, s, sc, d, fSortedByFee, turns)
      decreases s.mapTx.Keys - Seen(turns)
    {
      sc, d, fSortedByFee, turns := TakeTurn(c, r, t, best, s, sc, d, fSortedByFee, turns);
    }
    MidwayEnds(c, r, t, best, s, sc, d, fSortedByFee, turns);
    vtx, nFees := d.vtx, d.nFees;
  }

  /** One turn: take a best entry from the queue and consider it. */
  method TakeTurn(c: Config, r: Rules, t: Tree, best: Hash, s: Store, sc: Sched, d: Draft, fSortedByFee: bool, ghost turns: seq<Turn>)
    returns (sc': Sched, d': Draft, fSortedByFee': bool, ghost turns': seq<Turn>)
    requires t.Valid() && best in t.nodes && Keyed(s.mapTx) && sc.queue != [] && Midway(c, r, t, best, s, sc, d, fSortedByFee, turns)
    ensures Midway(c, r, t, best, s, sc', d', fSortedByFee', turns') && s.mapTx.Keys - Seen(turns') < s.mapTx.Keys - Seen(turns)
  {
    hide Midway, SchedOk, BlockOk, Keyed, Candidate, Takes, SwitchesTo, Seen, Txids, Entry, Popped;
    var e, rest := PopBest(sc.queue, fSortedByFee);
    TurnStarts(c, r, t, best, s, sc, d, fSortedByFee, turns, e, rest);
    sc', fSortedByFee', d' := Consider(c, r, t, best, s, sc.(queue := rest), e, fSortedByFee, d, Seen(turns));
    TurnEnds(c, r, t, best, s, sc, d, fSortedByFee, turns, e.ptx, sc', d', fSortedByFee');
    turns' := turns + [Turn(e.ptx, fSortedByFee)];
  }

  lemma TurnStarts(c: Config, r: Rules, t: Tree, best: Hash, s: Store, sc: Sched, d: Draft, byFee: bool, turns: seq<Turn>,
                   e: TxPriority, rest: seq<TxPriority>)
    requires t.Valid() && best in t.nodes && Midway(c, r, t, best, s, sc, d, byFee, turns)
    requires Popped(sc.queue, e, rest) && e in sc.queue && forall j :: 0 <= j < |sc.queue| ==> !Less(byFee, e, sc.queue[j])
    ensures SchedOk(c, s, sc.(queue := rest), Txids(d.vtx), Seen(turns) + {e.ptx}) && BlockOk(c, r, t, best, s, d)
    ensures e.ptx in s.mapTx && Candidate(c, s, e.ptx) && e == Entry(c, s.mapTx[e.ptx], e.ptx)
    ensures e.ptx !in Seen(turns) && Txids(d.vtx) <= Seen(turns)
    ensures IsNext(c, s, Txids(d.vtx), Seen(turns), Turn(e.ptx, byFee))
  {
    hide SchedOk, BlockOk, Candidate, Greedy, Built, ByFee, IsNext, Seen, Txids, Entry, Popped, Less;
    PoppedIsNext(c, s, sc, Txids(d.vtx), Seen(turns), e, byFee);
    PoppedOk(c, s, sc, Txids(d.vtx), Seen(turns), e, rest);
    CandidatePooled(c, s, e.ptx);
  }

  lemma TurnEnds(c: Config, r: Rules, t: Tree, best: Hash, s: Store, sc: Sched, d: Draft, byFee: bool, turns: seq<Turn>, h: Hash,
                 sc': Sched, d': Draft, byFee': bool)
    requires t.Valid() && best in t.nodes && Midway(c, r, t, best, s, sc, d, byFee, turns)
    requires h in s.mapTx && h !in Seen(turns) && IsNext(c, s, Txids(d.vtx), Seen(turns), Turn(h, byFee))
    requires SchedOk(c, s, sc', Txids(d'.vtx), Seen(turns) + {h}) && BlockOk(c, r, t, best, s, d') && Txids(d'.vtx) <= Seen(turns) + {h}
    requires var tx := s.mapTx[h];
             && d'.vtx == (if Takes(c, r, t, best, s, d.vtx, tx, byFee) then d.vtx + [tx] else d.vtx)
             && byFee' == SwitchesTo(c, byFee, 1000 + SumSize(d.vtx), 100 + TotalSigOps(r, s, d.vtx), tx)
    ensures var turns' := turns + [Turn(h, byFee)];
            Midway(c, r, t, best, s, sc', d', byFee', turns') && s.mapTx.Keys - Seen(turns') < s.mapTx.Keys - Seen(turns)
  {
    hide SchedOk, BlockOk, Takes, SwitchesTo, Greedy, Built, ByFee, IsNext, Seen, Txids, SumSize, TotalSigOps;
    TurnMore(c, r, t, best, s, turns, Turn(h, byFee));
    SeenMore(turns, Turn(h, byFee));
    OneLessToSee(s.mapTx.Keys, Seen(turns), h);
  }

  lemma OneLessToSee(all: set<Hash>, seen: set<Hash>, h: Hash)
    requires h in all && h !in seen && seen <= all
    ensures all - (seen + {h}) < all - seen && seen + {h} <= all
  {
    assert h in all - seen && h !in all - (seen + {h});
  }

  lemma MidwayStarts(c: Config, r: Rules, t: Tree, best: Hash, s: Store, sc: Sched)
    requires t.Valid() && best in t.nodes && Filled(c, s, sc, s.mapTx.Keys)
    ensures Midway(c, r, t, best, s, sc, Draft([], map[], 1000, 100, 0), c.nBlockPrioritySize <= 0, [])
  {
    hide SchedOk, BlockOk, Filled, Greedy, Built, ByFee, Seen;
    FilledIsOk(c, s, sc);
    BlockStart(c, r, t, best, s);
    NoTurns(c, r, t, best, s);
  }

  lemma MidwayEnds(c: Config, r: Rules, t: Tree, best: Hash, s: Store, sc: Sched, d: Draft, fSortedByFee: bool, turns: seq<Turn>)
    requires t.Valid() && best in t.nodes && sc.queue == [] && Midway(c, r, t, best, s, sc, d, fSortedByFee, turns)
    ensures Greedy(c, r, t, best, s, turns) && Finished(c, r, t, best, s, turns) && d.vtx == Built(c, r, t, best, s, turns)
    ensures Assembled(r, t, best, s, d.vtx) && d.nFees == TotalFees(s, d.vtx)
    ensures d.vtx != [] ==> 1000 + SumSize(d.vtx) < c.nBlockMaxSize
    ensures 100 + TotalSigOps(r, s, d.vtx) < MAX_BLOCK_SIGOPS && DistinctTxids(d.vtx) && AllPooled(c, s, d.vtx)
  {
    hide SchedOk, BlockOk, Greedy, Built, ByFee, Seen, InLineFor;
    QueueIsLine(c, s, sc, Txids(d.vtx), Seen(turns));
    BlockDone(c, r, t, best, s, d);
  }

  lemma NoTurns(c: Config, r: Rules, t: Tree, best: Hash, s: Store)
    requires t.Valid() && best in t.nodes
    ensures Greedy(c, r, t, best, s, []) && Built(c, r, t, best, s, []) == [] && ByFee(c, r, t, best, s, []) == (c.nBlockPrioritySize <= 0)
  {
  }

  lemma CandidatePooled(c: Config, s: Store, h: Hash)
    requires Candidate(c, s, h)
    ensures h in s.mapTx
  {
  }

  lemma BlockDone(c: Config, r: Rules, t: Tree, best: Hash, s: Store, d: Draft)
    requires t.Valid() && best in t.nodes && BlockOk(c, r, t, best, s, d)
    ensures Assembled(r, t, best, s, d.vtx) && d.nFees == TotalFees(s, d.vtx)
    ensures d.vtx != [] ==> 1000 + SumSize(d.vtx) < c.nBlockMaxSize
    ensures 100 + TotalSigOps(r, s, d.vtx) < MAX_BLOCK_SIGOPS && DistinctTxids(d.vtx) && AllPooled(c, s, d.vtx)
  {
    hide Assembled, TotalFees, TotalSigOps, SumSize, DistinctTxids, AllPooled, PoolView;
  }

  lemma Covered(a: set<Hash>, b: set<Hash>)
    ensures a - b == {} <==> a <= b
  {
    if a - b == {} {
      forall x | x in a
        ensures x in b
      {
        assert x in b || x in a - b;
      }
    }
  }
}
