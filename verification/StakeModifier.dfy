/** The choice of the 64 blocks whose entropy bits make up the next stake modifier (src/kernel.cpp). */
module StakeModifier {
  import opened Wrappers
  import opened Transactions
  import opened BlockTree
  import BigNum

  const MODIFIER_INTERVAL: int := 600
  const MODIFIER_INTERVAL_RATIO: int := 3

  /** The fields of a CBlockIndex that stake modifiers are made from. */
  datatype StakeInfo = StakeInfo(hashProof: Hash, nStakeEntropyBit: nat, nStakeModifier: nat, fGenerated: bool)

  /** The block index, and the hash of a proof hash and a modifier. */
  datatype Kernel = Kernel(t: Tree, stake: map<Hash, StakeInfo>, hash: (Hash, nat) -> nat) {
    ghost predicate Valid() {
      && t.Valid() && t.nodes.Keys <= stake.Keys
      && forall h :: h in stake ==> stake[h].nStakeEntropyBit <= 1
    }

    function Time(h: Hash): nat
      requires h in t.nodes
    {
      t.nodes[h].block.nTime
    }

    /** hashSelection: proof-of-stake blocks are always favoured. */
    function SelectionHash(h: Hash, nStakeModifierPrev: nat): nat
      requires h in t.nodes && h in stake
    {
      var raw := hash(stake[h].hashProof, nStakeModifierPrev);
      if t.nodes[h].block.IsProofOfStake() then raw / 0x1_0000_0000 else raw
    }
  }

  /** A candidate with its block time. */
  datatype Stamp = Stamp(nTime: nat, hash: Hash)

  /** GetStakeModifierSelectionIntervalSection. */
  function Section(nSection: nat): (r: int)
    requires nSection < 64
    ensures r > 0
  {
    MODIFIER_INTERVAL * 63 / (63 + (63 - nSection) * (MODIFIER_INTERVAL_RATIO - 1))
  }

  /** The sections of the first n rounds together. */
  function Sections(n: nat): (r: int)
    requires n <= 64
    ensures r >= n
  {
    if n == 0 then 0 else Sections(n - 1) + Section(n - 1)
  }

  // ------------------------------------------------------------------ one round

  predicate Usable(k: Kernel, cands: seq<Stamp>) {
    && (forall i :: 0 <= i < |cands| ==> cands[i].hash in k.t.nodes && cands[i].hash in k.stake && k.Time(cands[i].hash) == cands[i].nTime)
    && (forall i, j :: 0 <= i < j < |cands| ==> cands[i].nTime <= cands[j].nTime)
  }

  predicate Eligible(cands: seq<Stamp>, selected: set<Hash>, stop: int, i: nat)
    requires i < |cands|
  {
    cands[i].hash !in selected && cands[i].nTime <= stop
  }

  /** Candidate i is the first one of least selection hash among the unselected candidates up to the stop time; if
      there are none of those, it is the first unselected one. */
  ghost predicate IsPick(k: Kernel, cands: seq<Stamp>, selected: set<Hash>, stop: int, prev: nat, i: nat)
    requires Usable(k, cands) && i < |cands|
  {
    && cands[i].hash !in selected
    && if exists j :: 0 <= j < |cands| && Eligible(cands, selected, stop, j) then
         && Eligible(cands, selected, stop, i)
         && forall j :: 0 <= j < |cands| && Eligible(cands, selected, stop, j) ==> NotBefore(k, cands, prev, i, j)
       else
         forall j :: 0 <= j < i ==> cands[j].hash in selected
  }

  /** j has no smaller selection hash than i, and a larger one if it comes first. */
  predicate NotBefore(k: Kernel, cands: seq<Stamp>, prev: nat, i: nat, j: nat)
    requires Usable(k, cands) && i < |cands| && j < |cands|
  {
    var a, b := k.SelectionHash(cands[i].hash, prev), k.SelectionHash(cands[j].hash, prev);
    a <= b && (j < i ==> a < b)
  }

  ghost predicate PicksHash(k: Kernel, cands: seq<Stamp>, selected: set<Hash>, stop: int, prev: nat, h: Hash)
    requires Usable(k, cands)
  {
    exists i :: 0 <= i < |cands| && cands[i].hash == h && IsPick(k, cands, selected, stop, prev, i)
  }

  /** So the pick is determined. */
  lemma PickIsUnique(k: Kernel, cands: seq<Stamp>, selected: set<Hash>, stop: int, prev: nat, i: nat, j: nat)
    requires Usable(k, cands) && i < |cands| && j < |cands|
    requires IsPick(k, cands, selected, stop, prev, i) && IsPick(k, cands, selected, stop, prev, j)
    ensures i == j
  {
    if exists m :: 0 <= m < |cands| && Eligible(cands, selected, stop, m) {
      assert NotBefore(k, cands, prev, i, j) && NotBefore(k, cands, prev, j, i);
    }
  }

  /** What the pick means for the hashes of proof and modifier. Among candidates of one kind the least hash wins; a proof-of-work
      candidate only wins against a proof-of-bean one whose hash is 2^32 times as large, and the other way round any smaller
      ratio is enough. */
  lemma PickFavoursStake(k: Kernel, cands: seq<Stamp>, selected: set<Hash>, stop: int, prev: nat, i: nat, j: nat)
    requires Usable(k, cands) && i < |cands| && j < |cands|
    requires IsPick(k, cands, selected, stop, prev, i) && Eligible(cands, selected, stop, j)
    ensures var a, b := cands[i].hash, cands[j].hash;
            var won, lost := k.hash(k.stake[a].hashProof, prev), k.hash(k.stake[b].hashProof, prev);
            match (k.t.nodes[a].block.IsProofOfStake(), k.t.nodes[b].block.IsProofOfStake())
            case (false, false) => won <= lost
            case (false, true) => won * 0x1_0000_0000 <= lost
            case (true, false) => won < (lost + 1) * 0x1_0000_0000
            case (true, true) => won / 0x1_0000_0000 <= lost / 0x1_0000_0000
  {
    assert NotBefore(k, cands, prev, i, j);
  }

  /** The rounds' sections grow, from a third of the interval in the first round to the whole of it in the last. */
  lemma SectionsGrow(n: nat, m: nat)
    requires n <= m < 64
    ensures Section(n) <= Section(m) && 3 * Section(0) == Section(63) == MODIFIER_INTERVAL
  {
    var a, b := 63 + (63 - n) * 2, 63 + (63 - m) * 2;
    assert b <= a;
    FewerParts(MODIFIER_INTERVAL * 63, b, a);
  }

  lemma FewerParts(all: nat, b: nat, a: nat)
    requires 0 < b <= a
    ensures all / a <= all / b
  {
    assert all == a * (all / a) + all % a;
    assert b * (all / a) <= a * (all / a);
    BigNum.DivUnique(all, b, all / b, all % b);
    if all / a > all / b {
      BigNum.MulLe(b, all / b + 1, all / a);
    }
  }

  /** The best unselected candidate among the first n, while none beyond the stop time has made the loop break. */
  ghost predicate BestSoFar(k: Kernel, cands: seq<Stamp>, selected: set<Hash>, stop: int, prev: nat, n: nat, best: Option<nat>)
    requires Usable(k, cands) && n <= |cands|
  {
    match best
    case None => forall j :: 0 <= j < n ==> cands[j].hash in selected
    case Some(b) =>
      && b < n && cands[b].hash !in selected
      && (cands[b].nTime > stop ==> forall j :: 0 <= j < n && j != b ==> cands[j].hash in selected)
      && (cands[b].nTime <= stop ==> forall j :: 0 <= j < n && cands[j].hash !in selected ==> NotBefore(k, cands, prev, b, j))
  }

  /** SelectBlockFromCandidates. */
  method SelectBlockFromCandidates(k: Kernel, cands: seq<Stamp>, selected: set<Hash>, stop: int, prev: nat)
    returns (ok: bool, pick: Hash)
    ensures Usable(k, cands) ==> (ok <==> exists i :: 0 <= i < |cands| && cands[i].hash !in selected)
    ensures Usable(k, cands) && ok ==> PicksHash(k, cands, selected, stop, prev, pick)
  {
    var fSelected, hashBest := false, 0;
    ok, pick := false, 0;
    ghost var at: nat := 0;
    ghost var usable := Usable(k, cands);
    var i := 0;
    while i < |cands|
      invariant i <= |cands|
      invariant usable ==> BestSoFar(k, cands, selected, stop, prev, i, if fSelected then Some(at) else None)
      invariant usable && fSelected ==> pick == cands[at].hash && hashBest == k.SelectionHash(pick, prev)
    {
      var h := cands[i].hash;
      if h !in k.t.nodes || h !in k.stake {
        return false, pick;
      }
      if fSelected && k.Time(h) > stop {
        break;
      }
      if h !in selected {
        var hashSelection := k.SelectionHash(h, prev);
        if fSelected && hashSelection < hashBest {
          hashBest, pick := hashSelection, h;
          at := i;
        } else if !fSelected {
          fSelected, hashBest, pick := true, hashSelection, h;
          at := i;
        }
      }
      i := i + 1;
    }
    ok := fSelected;
    if usable && ok {
      BestIsPick(k, cands, selected, stop, prev, i, at);
    }
  }

  lemma BestIsPick(k: Kernel, cands: seq<Stamp>, selected: set<Hash>, stop: int, prev: nat, n: nat, b: nat)
    requires Usable(k, cands) && n <= |cands| && BestSoFar(k, cands, selected, stop, prev, n, Some(b))
    requires n < |cands| ==> cands[n].nTime > stop
    ensures b < |cands| && IsPick(k, cands, selected, stop, prev, b)
  {
    if exists j :: 0 <= j < |cands| && Eligible(cands, selected, stop, j) {
      var j :| 0 <= j < |cands| && Eligible(cands, selected, stop, j);
      assert j < n;
    } else {
      assert !Eligible(cands, selected, stop, b);
    }
  }

  // ------------------------------------------------------------------ the bits

  function Bit(m: nat, r: nat): nat {
    m / Pow2(r) % 2
  }

  /** m | (bit << r), for bit 0 or 1. */
  function OrBit(m: nat, bit: nat, r: nat): nat {
    if bit == 1 && Bit(m, r) == 0 then m + Pow2(r) else m
  }

  lemma {:induction false} Pow2Splits(a: nat, b: nat)
    ensures Pow2(a + b) == Pow2(a) * Pow2(b)
  {
    if b > 0 {
      Pow2Splits(a, b - 1);
      assert Pow2(a + b) == 2 * Pow2(a + b - 1);
      calc {
        Pow2(a) * Pow2(b);
        Pow2(a) * (2 * Pow2(b - 1));
        2 * (Pow2(a) * Pow2(b - 1));
      }
    }
  }

  lemma BelowHasNoBit(m: nat, r: nat)
    requires m < Pow2(r)
    ensures Bit(m, r) == 0
  {
    BigNum.DivUnique(m, Pow2(r), 0, m);
  }

  /** Setting bit n of a number below 2^n keeps the lower bits and sets that one. */
  lemma OrBitSets(m: nat, bit: nat, n: nat)
    requires m < Pow2(n) && bit <= 1
    ensures OrBit(m, bit, n) < Pow2(n + 1) && Bit(OrBit(m, bit, n), n) == bit
    ensures forall r :: 0 <= r < n ==> Bit(OrBit(m, bit, n), r) == Bit(m, r)
  {
    BelowHasNoBit(m, n);
    if bit == 1 {
      var p := Pow2(n);
      BigNum.DivUnique(m + p, p, 1, m);
      forall r | 0 <= r < n
        ensures Bit(m + p, r) == Bit(m, r)
      {
        AddHigherBit(m, r, n);
      }
    }
  }

  lemma AddHigherBit(m: nat, r: nat, n: nat)
    requires r < n
    ensures Bit(m + Pow2(n), r) == Bit(m, r)
  {
    var q, half := Pow2(r), Pow2(n - r - 1);
    Pow2Splits(r, n - r);
    assert Pow2(n - r) == 2 * half;
    DivAdds(m, q, 2 * half);
    EvenShift(m / q, half);
  }

  lemma EvenShift(x: nat, half: nat)
    ensures (x + 2 * half) % 2 == x % 2
  {
  }

  lemma DivAdds(m: nat, q: nat, c: nat)
    requires q > 0
    ensures (m + q * c) / q == m / q + c
  {
    var d := m / q;
    assert m + q * c == q * (d + c) + m % q by {
      assert m == q * d + m % q;
      assert q * (d + c) == q * d + q * c;
    }
    BigNum.DivUnique(m + q * c, q, d + c, m % q);
  }

  // ------------------------------------------------------------------ the candidates

  /** GetLastStakeModifier: the nearest block at or above h that generated a modifier. */
  function LastGenerated(k: Kernel, h: Hash): (g: Option<Hash>)
    requires k.Valid() && h in k.t.nodes
    ensures g.Some? ==> g.value in k.t.nodes && k.stake[g.value].fGenerated
    decreases k.t.nodes[h].nHeight
  {
    if k.stake[h].fGenerated then Some(h)
    else if k.t.nodes[h].pprev == None then None
    else LastGenerated(k, k.t.nodes[h].pprev.value)
  }

  /** It is the highest block of the branch that generated a modifier, if any did. */
  lemma {:induction false} LastGeneratedIs(k: Kernel, h: Hash)
    requires k.Valid() && h in k.t.nodes
    ensures var g := LastGenerated(k, h);
            && (g.Some? ==> k.t.Ancestor(g.value, h))
            && forall a :: k.t.Ancestor(a, h) && a in k.t.nodes && k.stake[a].fGenerated ==>
                 g.Some? && k.t.nodes[a].nHeight <= k.t.nodes[g.value].nHeight
    decreases k.t.nodes[h].nHeight
  {
    AncestorSelf(k.t, h);
    if k.stake[h].fGenerated {
      forall a | k.t.Ancestor(a, h)
        ensures a in k.t.nodes && k.t.nodes[a].nHeight <= k.t.nodes[h].nHeight
      {
        AncestorHeight(k.t, a, h);
      }
    } else if h != k.t.genesis {
      var p := k.t.nodes[h].pprev.value;
      LastGeneratedIs(k, p);
      assert forall a :: k.t.Ancestor(a, h) <==> a == h || k.t.Ancestor(a, p);
    }
  }

  method GetLastStakeModifier(k: Kernel, pindexPrev: Hash) returns (ok: bool, nStakeModifier: nat, nModifierTime: nat)
    requires k.Valid() && pindexPrev in k.t.nodes
    ensures ok <==> LastGenerated(k, pindexPrev).Some?
    ensures ok ==> var g := LastGenerated(k, pindexPrev).value; nStakeModifier == k.stake[g].nStakeModifier && nModifierTime == k.Time(g)
  {
    var pindex := pindexPrev;
    while k.t.nodes[pindex].pprev.Some? && !k.stake[pindex].fGenerated
      invariant pindex in k.t.nodes && LastGenerated(k, pindex) == LastGenerated(k, pindexPrev)
      decreases k.t.nodes[pindex].nHeight
    {
      pindex := k.t.nodes[pindex].pprev.value;
    }
    if !k.stake[pindex].fGenerated {
      return false, 0, 0;
    }
    return true, k.stake[pindex].nStakeModifier, k.Time(pindex);
  }

  /** The blocks from h up the branch as long as none is older than start, latest first. */
  function Window(k: Kernel, h: Hash, start: int): (w: seq<Stamp>)
    requires k.Valid() && h in k.t.nodes
    decreases k.t.nodes[h].nHeight
  {
    if k.Time(h) < start then []
    else [Stamp(k.Time(h), h)] + if k.t.nodes[h].pprev == None then [] else Window(k, k.t.nodes[h].pprev.value, start)
  }

  /** The window holds exactly the blocks of the branch from which on, up to h, none is older than start. */
  lemma {:induction false} WindowIs(k: Kernel, h: Hash, start: int, a: Hash)
    requires k.Valid() && h in k.t.nodes && a in k.t.nodes
    ensures Stamp(k.Time(a), a) in Window(k, h, start)
       <==> k.t.Ancestor(a, h)
            && forall b :: k.t.Ancestor(b, h) && b in k.t.nodes && k.t.nodes[b].nHeight >= k.t.nodes[a].nHeight ==> k.Time(b) >= start
    decreases k.t.nodes[h].nHeight
  {
    AncestorSelf(k.t, h);
    if k.Time(h) < start {
      if k.t.Ancestor(a, h) {
        AncestorHeight(k.t, a, h);
      }
    } else if h == k.t.genesis {
      assert k.t.Branch(h) == [h];
    } else {
      var p := k.t.nodes[h].pprev.value;
      WindowIs(k, p, start, a);
      WindowBelow(k, p, start, h);
      assert forall b :: k.t.Ancestor(b, h) <==> b == h || k.t.Ancestor(b, p);
      if a == h {
        OnlyTop(k, h);
      } else if k.t.Ancestor(a, p) {
        AncestorHeight(k.t, a, p);
      }
    }
  }

  lemma OnlyTop(k: Kernel, h: Hash)
    requires k.Valid() && h in k.t.nodes
    ensures forall b :: k.t.Ancestor(b, h) && b in k.t.nodes && k.t.nodes[b].nHeight >= k.t.nodes[h].nHeight ==> b == h
  {
    forall b | k.t.Ancestor(b, h) && b in k.t.nodes && k.t.nodes[b].nHeight >= k.t.nodes[h].nHeight
      ensures b == h
    {
      AncestorSelf(k.t, h);
      OneAtHeight(k.t, b, h, h);
      AncestorHeight(k.t, b, h);
    }
  }

  /** Blocks above p are not in p's window. */
  lemma WindowBelow(k: Kernel, p: Hash, start: int, h: Hash)
    requires k.Valid() && p in k.t.nodes && h in k.t.nodes && k.t.nodes[h].nHeight > k.t.nodes[p].nHeight
    ensures Stamp(k.Time(h), h) !in Window(k, p, start)
    decreases k.t.nodes[p].nHeight
  {
    if k.Time(p) >= start && k.t.nodes[p].pprev.Some? {
      WindowBelow(k, k.t.nodes[p].pprev.value, start, h);
    }
  }

  predicate DistinctStamps(v: seq<Stamp>) {
    forall i, j :: 0 <= i < j < |v| ==> v[i].hash != v[j].hash
  }

  lemma {:induction false} WindowIsDistinct(k: Kernel, h: Hash, start: int)
    requires k.Valid() && h in k.t.nodes
    ensures var w := Window(k, h, start);
            && DistinctStamps(w)
            && forall i :: 0 <= i < |w| ==> w[i].hash in k.t.nodes && k.t.nodes[w[i].hash].nHeight == k.t.nodes[h].nHeight - i
                                            && w[i].nTime == k.Time(w[i].hash)
    decreases k.t.nodes[h].nHeight
  {
    if k.Time(h) >= start && k.t.nodes[h].pprev.Some? {
      WindowIsDistinct(k, k.t.nodes[h].pprev.value, start);
    }
  }

  function WindowFrom(k: Kernel, o: Option<Hash>, start: int): seq<Stamp>
    requires k.Valid() && (o.Some? ==> o.value in k.t.nodes)
  {
    if o == None then [] else Window(k, o.value, start)
  }

  lemma WindowStep(k: Kernel, h: Hash, start: int)
    requires k.Valid() && h in k.t.nodes
    ensures k.t.nodes[h].pprev.Some? ==> k.t.nodes[h].pprev.value in k.t.nodes && k.t.nodes[k.t.nodes[h].pprev.value].nHeight < k.t.nodes[h].nHeight
    ensures Window(k, h, start) == if k.Time(h) < start then [] else [Stamp(k.Time(h), h)] + WindowFrom(k, k.t.nodes[h].pprev, start)
  {
  }

  method CollectWindow(k: Kernel, pindexPrev: Hash, start: int) returns (v: seq<Stamp>)
    requires k.Valid() && pindexPrev in k.t.nodes
    ensures v == Window(k, pindexPrev, start)
  {
    v := [];
    var pindex := Some(pindexPrev);
    while pindex.Some? && k.Time(pindex.value) >= start
      invariant pindex.Some? ==> pindex.value in k.t.nodes
      invariant Window(k, pindexPrev, start) == v + WindowFrom(k, pindex, start)
      decreases if pindex.Some? then k.t.nodes[pindex.value].nHeight + 1 else 0
    {
      WindowStep(k, pindex.value, start);
      hide Window;
      v := v + [Stamp(k.Time(pindex.value), pindex.value)];
      pindex := k.t.nodes[pindex.value].pprev;
    }
    if pindex.Some? {
      WindowStep(k, pindex.value, start);
    }
  }

  // ------------------------------------------------------------------ sorting them

  /** operator< of pairs. */
  predicate Before(a: Stamp, b: Stamp) {
    a.nTime < b.nTime || (a.nTime == b.nTime && a.hash < b.hash)
  }

  predicate Sorted(v: seq<Stamp>) {
    forall i, j :: 0 <= i < j < |v| ==> !Before(v[j], v[i])
  }

  /** Sorted is by time, and at the same time by hash. */
  lemma SortedIs(v: seq<Stamp>, i: nat, j: nat)
    requires Sorted(v) && i < j < |v|
    ensures v[i].nTime < v[j].nTime || (v[i].nTime == v[j].nTime && v[i].hash <= v[j].hash)
  {
  }

  function Insert(v: seq<Stamp>, e: Stamp): (r: seq<Stamp>)
    ensures multiset(r) == multiset(v) + multiset{e} && |r| == |v| + 1
  {
    if v == [] || Before(v[|v| - 1], e) then v + [e]
    else
      assert v == v[..|v| - 1] + [v[|v| - 1]];
      Insert(v[..|v| - 1], e) + [v[|v| - 1]]
  }

  lemma {:induction false} InsertSorts(v: seq<Stamp>, e: Stamp)
    requires Sorted(v)
    ensures Sorted(Insert(v, e))
  {
    if v != [] && !Before(v[|v| - 1], e) {
      var front, last := v[..|v| - 1], v[|v| - 1];
      InsertSorts(front, e);
      var r := Insert(front, e);
      forall i | 0 <= i < |r|
        ensures !Before(last, r[i])
      {
        assert r[i] in multiset(r);
        assert r[i] in multiset(front) || r[i] == e;
        assert r[i] in front || r[i] == e;
      }
    }
  }

  /** std::sort: any sorted rearrangement. */
  method Sort(v: seq<Stamp>) returns (r: seq<Stamp>)
    ensures Sorted(r) && multiset(r) == multiset(v)
  {
    r := [];
    for i := 0 to |v|
      invariant Sorted(r) && multiset(r) == multiset(v[..i])
    {
      assert v[..i + 1] == v[..i] + [v[i]];
      InsertSorts(r, v[i]);
      r := Insert(r, v[i]);
    }
    assert v[..|v|] == v;
  }

  lemma {:induction false} DistinctCounts(v: seq<Stamp>, x: Stamp)
    requires DistinctStamps(v)
    ensures multiset(v)[x] <= 1
  {
    if v != [] {
      var front := v[..|v| - 1];
      DistinctCounts(front, x);
      assert v == front + [v[|v| - 1]];
      if v[|v| - 1] == x {
        assert x !in front;
      }
    }
  }

  lemma {:induction false} CountsDistinct(v: seq<Stamp>)
    requires forall x :: multiset(v)[x] <= 1
    ensures forall i, j :: 0 <= i < j < |v| ==> v[i] != v[j]
  {
    if v != [] {
      var front, last := v[..|v| - 1], v[|v| - 1];
      assert v == front + [last];
      assert forall x :: multiset(front)[x] <= multiset(v)[x];
      CountsDistinct(front);
      assert last !in multiset(front);
    }
  }

  /** The sorted candidates are usable: known, distinct, in time order. */
  lemma SortedCandidates(k: Kernel, h: Hash, start: int, v: seq<Stamp>)
    requires k.Valid() && h in k.t.nodes && Sorted(v) && multiset(v) == multiset(Window(k, h, start))
    ensures Usable(k, v) && DistinctStamps(v)
  {
    var w := Window(k, h, start);
    WindowIsDistinct(k, h, start);
    forall x
      ensures multiset(v)[x] <= 1
    {
      DistinctCounts(w, x);
    }
    CountsDistinct(v);
    forall i | 0 <= i < |v|
      ensures v[i].hash in k.t.nodes && v[i].hash in k.stake && v[i].nTime == k.Time(v[i].hash)
    {
      assert v[i] in multiset(v);
      assert v[i] in w;
    }
    forall i, j | 0 <= i < j < |v|
      ensures v[i].hash != v[j].hash
    {
      assert v[i] != v[j];
    }
  }

  // ------------------------------------------------------------------ the rounds

  function Chosen(cands: seq<Stamp>, picks: seq<nat>): (r: set<Hash>)
    requires forall i :: 0 <= i < |picks| ==> picks[i] < |cands|
  {
    set i | 0 <= i < |picks| :: cands[picks[i]].hash
  }

  /** Round n picks among the candidates not picked before, up to its own stop time. */
  ghost predicate Rounds(k: Kernel, cands: seq<Stamp>, start: int, prev: nat, picks: seq<nat>)
    requires Usable(k, cands) && |picks| <= 64
    ensures Rounds(k, cands, start, prev, picks) ==> forall i :: 0 <= i < |picks| ==> picks[i] < |cands|
  {
    picks == [] ||
    (var front, last := picks[..|picks| - 1], picks[|picks| - 1];
     && Rounds(k, cands, start, prev, front)
     && last < |cands|
     && IsPick(k, cands, Chosen(cands, front), start + Sections(|picks|), prev, last))
  }

  /** No block is picked twice. */
  lemma {:induction false} PicksAreDistinct(k: Kernel, cands: seq<Stamp>, start: int, prev: nat, picks: seq<nat>)
    requires Usable(k, cands) && |picks| <= 64 && Rounds(k, cands, start, prev, picks)
    ensures forall i, j :: 0 <= i < j < |picks| ==> cands[picks[i]].hash != cands[picks[j]].hash
  {
    if picks != [] {
      var front, last := picks[..|picks| - 1], picks[|picks| - 1];
      PicksAreDistinct(k, cands, start, prev, front);
      forall i | 0 <= i < |front|
        ensures cands[picks[i]].hash != cands[last].hash
      {
        assert cands[front[i]].hash in Chosen(cands, front);
      }
      assert forall i :: 0 <= i < |front| ==> picks[i] == front[i];
    }
  }

  /** The chain determines every pick. */
  lemma {:induction false} RoundsAreUnique(k: Kernel, cands: seq<Stamp>, start: int, prev: nat, a: seq<nat>, b: seq<nat>)
    requires Usable(k, cands) && |a| == |b| <= 64 && Rounds(k, cands, start, prev, a) && Rounds(k, cands, start, prev, b)
    ensures a == b
  {
    hide IsPick, Usable, Chosen;
    if a != [] {
      RoundsAreUnique(k, cands, start, prev, a[..|a| - 1], b[..|b| - 1]);
      PickIsUnique(k, cands, Chosen(cands, a[..|a| - 1]), start + Sections(|a|), prev, a[|a| - 1], b[|b| - 1]);
      assert a == a[..|a| - 1] + [a[|a| - 1]] && b == b[..|b| - 1] + [b[|b| - 1]];
    }
  }

  /** While fewer blocks are picked than there are, one is left: "unable to select" cannot happen. */
  lemma SomeLeft(cands: seq<Stamp>, picks: seq<nat>)
    requires DistinctStamps(cands) && |picks| < |cands| && forall i :: 0 <= i < |picks| ==> picks[i] < |cands|
    ensures exists i :: 0 <= i < |cands| && cands[i].hash !in Chosen(cands, picks)
  {
    ChosenSize(cands, picks);
    var all := set i | 0 <= i < |cands| :: cands[i].hash;
    AllSize(cands);
    if forall i :: 0 <= i < |cands| ==> cands[i].hash in Chosen(cands, picks) {
      SubsetSize(all, Chosen(cands, picks));
    }
  }

  lemma {:induction false} ChosenSize(cands: seq<Stamp>, picks: seq<nat>)
    requires forall i :: 0 <= i < |picks| ==> picks[i] < |cands|
    ensures |Chosen(cands, picks)| <= |picks|
  {
    if picks == [] {
      assert Chosen(cands, picks) == {};
    } else {
      var front, last := picks[..|picks| - 1], picks[|picks| - 1];
      ChosenSize(cands, front);
      ChosenMore(cands, front, last);
      assert picks == front + [last];
    }
  }

  lemma ChosenMore(cands: seq<Stamp>, picks: seq<nat>, at: nat)
    requires at < |cands| && forall i :: 0 <= i < |picks| ==> picks[i] < |cands|
    ensures Chosen(cands, picks + [at]) == Chosen(cands, picks) + {cands[at].hash}
  {
    var all := picks + [at];
    assert forall i :: 0 <= i < |picks| ==> all[i] == picks[i];
    assert all[|picks|] == at;
  }

  lemma {:induction false} AllSize(cands: seq<Stamp>)
    requires DistinctStamps(cands)
    ensures |set i | 0 <= i < |cands| :: cands[i].hash| == |cands|
  {
    var all := set i | 0 <= i < |cands| :: cands[i].hash;
    if cands == [] {
      assert all == {};
    } else {
      var n := |cands| - 1;
      AllSize(cands[..n]);
      var front := set i | 0 <= i < n :: cands[..n][i].hash;
      assert all == front + {cands[n].hash} by {
        assert forall i :: 0 <= i < n ==> cands[..n][i] == cands[i] && cands[i].hash in front;
      }
    }
  }

  /** The modifier made of the entropy bits of the picks, the first in bit 0. */
  function Modifier(k: Kernel, cands: seq<Stamp>, picks: seq<nat>): nat
    requires Usable(k, cands) && forall i :: 0 <= i < |picks| ==> picks[i] < |cands|
  {
    if picks == [] then 0
    else OrBit(Modifier(k, cands, picks[..|picks| - 1]), k.stake[cands[picks[|picks| - 1]].hash].nStakeEntropyBit, |picks| - 1)
  }

  /** Bit r of the modifier is the entropy bit of the block picked in round r, and there are no higher bits. */
  lemma {:induction false} ModifierBits(k: Kernel, cands: seq<Stamp>, picks: seq<nat>)
    requires k.Valid() && Usable(k, cands) && forall i :: 0 <= i < |picks| ==> picks[i] < |cands|
    ensures Modifier(k, cands, picks) < Pow2(|picks|)
    ensures forall r :: 0 <= r < |picks| ==> Bit(Modifier(k, cands, picks), r) == k.stake[cands[picks[r]].hash].nStakeEntropyBit
  {
    hide Bit, OrBit, Usable;
    if picks != [] {
      var front, last := picks[..|picks| - 1], picks[|picks| - 1];
      ModifierBits(k, cands, front);
      UsableAt(k, cands, last);
      OrBitSets(Modifier(k, cands, front), k.stake[cands[last].hash].nStakeEntropyBit, |front|);
      assert forall r :: 0 <= r < |front| ==> picks[r] == front[r];
    }
  }

  /** What ComputeNextStakeModifier must return after pindexPrev when a new modifier is due. */
  ghost predicate NewModifier(k: Kernel, h: Hash, prev: nat, m: nat, cands: seq<Stamp>, picks: seq<nat>)
    requires k.Valid() && h in k.t.nodes
  {
    var start := k.Time(h) / MODIFIER_INTERVAL * MODIFIER_INTERVAL - Sections(64);
    && Sorted(cands) && multiset(cands) == multiset(Window(k, h, start))
    && |picks| == Min(64, |cands|)
    && Usable(k, cands) && Rounds(k, cands, start, prev, picks) && m == Modifier(k, cands, picks)
  }

  /** ComputeNextStakeModifier. `cands` and `picks` say which blocks were considered and which were selected. */
  method ComputeNextStakeModifier(k: Kernel, pindexPrev: Option<Hash>)
    returns (ok: bool, nStakeModifier: nat, fGenerated: bool, ghost cands: seq<Stamp>, ghost picks: seq<nat>)
    requires k.Valid() && (pindexPrev.Some? ==> pindexPrev.value in k.t.nodes)
    ensures pindexPrev == None ==> ok && fGenerated && nStakeModifier == 0
    ensures pindexPrev.Some? ==>
              var h := pindexPrev.value;
              var g := LastGenerated(k, h);
              && (ok <==> g.Some?)
              && (ok ==> (fGenerated <==> k.Time(g.value) / MODIFIER_INTERVAL < k.Time(h) / MODIFIER_INTERVAL))
              && (ok && !fGenerated ==> nStakeModifier == k.stake[g.value].nStakeModifier)
              && (ok && fGenerated ==> NewModifier(k, h, k.stake[g.value].nStakeModifier, nStakeModifier, cands, picks))
  {
    hide Usable, Rounds, DistinctStamps, Sorted, Window, LastGenerated, Sections, Modifier;
    ok, nStakeModifier, fGenerated, cands, picks := true, 0, false, [], [];
    if pindexPrev == None {
      fGenerated := true;
      return;
    }
    var h := pindexPrev.value;
    var nModifierTime;
    ok, nStakeModifier, nModifierTime := GetLastStakeModifier(k, h);
    if !ok {
      return;
    }
    if nModifierTime / MODIFIER_INTERVAL >= k.Time(h) / MODIFIER_INTERVAL {
      return;
    }
    var nSelectionInterval := SelectionInterval();
    var nSelectionIntervalStart := k.Time(h) / MODIFIER_INTERVAL * MODIFIER_INTERVAL - nSelectionInterval;
    var v := CollectWindow(k, h, nSelectionIntervalStart);
    v := Sort(v);
    SortedCandidates(k, h, nSelectionIntervalStart, v);
    cands := v;
    ok, nStakeModifier, picks := RunRounds(k, v, nSelectionIntervalStart, nStakeModifier);
    fGenerated := true;
  }

  /** GetStakeModifierSelectionInterval. */
  method SelectionInterval() returns (n: int)
    ensures n == Sections(64)
  {
    n := 0;
    for nSection := 0 to 64
      invariant n == Sections(nSection)
    {
      n := n + Section(nSection);
    }
  }

  /** The rounds of ComputeNextStakeModifier. */
  method RunRounds(k: Kernel, v: seq<Stamp>, start: int, prev: nat) returns (ok: bool, m: nat, ghost picks: seq<nat>)
    requires k.Valid() && Usable(k, v) && DistinctStamps(v)
    ensures ok && |picks| == Min(64, |v|) && Rounds(k, v, start, prev, picks) && m == Modifier(k, v, picks)
  {
    hide Usable, IsPick, DistinctStamps, Section, Kernel.Valid;
    m, picks := 0, [];
    var stop := start;
    var selected: set<Hash> := {};
    for nRound := 0 to Min(64, |v|)
      invariant |picks| == nRound && Rounds(k, v, start, prev, picks) && m == Modifier(k, v, picks)
      invariant stop == start + Sections(nRound) && selected == Chosen(v, picks)
    {
      stop := stop + Section(nRound);
      SomeLeft(v, picks);
      var found, pick := SelectBlockFromCandidates(k, v, selected, stop, prev);
      if !found {
        return false, m, picks;
      }
      ghost var at: nat :| at < |v| && v[at].hash == pick && IsPick(k, v, selected, stop, prev, at);
      UsableAt(k, v, at);
      ChosenMore(v, picks, at);
      ghost var more := picks + [at];
      assert more[..|more| - 1] == picks;
      m := OrBit(m, k.stake[pick].nStakeEntropyBit, nRound);
      selected := selected + {pick};
      picks := more;
    }
    ok := true;
  }

  lemma UsableAt(k: Kernel, v: seq<Stamp>, i: nat)
    requires Usable(k, v) && i < |v|
    ensures v[i].hash in k.t.nodes && v[i].hash in k.stake
  {
  }

  /** There is only one sorted arrangement. */
  lemma {:induction false} SortedIsUnique(a: seq<Stamp>, b: seq<Stamp>)
    requires Sorted(a) && Sorted(b) && multiset(a) == multiset(b)
    ensures a == b
  {
    assert |multiset(a)| == |a| && |multiset(b)| == |b|;
    hide Sorted, Before;
    if a != [] {
      LastIsGreatest(a, b);
      LastIsGreatest(b, a);
      NeitherBefore(a[|a| - 1], b[|b| - 1]);
      Front(a);
      Front(b);
      SortedIsUnique(a[..|a| - 1], b[..|b| - 1]);
    }
  }

  lemma NeitherBefore(a: Stamp, b: Stamp)
    requires !Before(a, b) && !Before(b, a)
    ensures a == b
  {
  }

  lemma Front(v: seq<Stamp>)
    requires Sorted(v) && v != []
    ensures v == v[..|v| - 1] + [v[|v| - 1]] && Sorted(v[..|v| - 1])
    ensures multiset(v[..|v| - 1]) == multiset(v) - multiset{v[|v| - 1]}
  {
    assert v == v[..|v| - 1] + [v[|v| - 1]];
  }

  lemma LastIsGreatest(a: seq<Stamp>, b: seq<Stamp>)
    requires Sorted(a) && multiset(a) == multiset(b) && |a| == |b| > 0
    ensures !Before(a[|a| - 1], b[|b| - 1])
  {
    assert b[|b| - 1] in multiset(b);
    assert b[|b| - 1] in a;
    var i :| 0 <= i < |a| && a[i] == b[|b| - 1];
  }

  /** Everybody who knows the chain computes the same modifier. */
  lemma ModifierIsDetermined(k: Kernel, h: Hash, prev: nat, m: nat, cands: seq<Stamp>, picks: seq<nat>,
                             m': nat, cands': seq<Stamp>, picks': seq<nat>)
    requires k.Valid() && h in k.t.nodes
    requires NewModifier(k, h, prev, m, cands, picks) && NewModifier(k, h, prev, m', cands', picks')
    ensures m == m'
  {
    hide Usable, Rounds, Sorted, Window, Sections;
    SortedIsUnique(cands, cands');
    RoundsAreUnique(k, cands, k.Time(h) / MODIFIER_INTERVAL * MODIFIER_INTERVAL - Sections(64), prev, picks, picks');
  }
}
