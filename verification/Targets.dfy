/** Proof-of-work and proof-of-bean targets: GetLastBlockIndex, GetNextTargetRequired and GetBlockTrust (src/main.cpp). */
module Targets {
  import opened Wrappers
  import opened Transactions
  import opened BigNum
  import opened BlockTree

  const TARGET_SPACING: nat := 60
  const TARGET_TIMESPAN: nat := 3600
  const INTERVAL: nat := TARGET_TIMESPAN / TARGET_SPACING

  /** The nearest block at or below h of the wanted kind, or genesis. */
  function LastBlockIndex(t: Tree, h: Hash, fProofOfStake: bool): (r: Hash)
    requires t.Valid() && h in t.nodes
    ensures r in t.nodes
    decreases t.nodes[h].nHeight
  {
    if h == t.genesis || t.nodes[h].block.IsProofOfStake() == fProofOfStake then h
    else LastBlockIndex(t, t.nodes[h].pprev.value, fProofOfStake)
  }

  /** GetLastBlockIndex. */
  method GetLastBlockIndex(t: Tree, h: Hash, fProofOfStake: bool) returns (pindex: Hash)
    requires t.Valid() && h in t.nodes
    ensures pindex in t.nodes && pindex == LastBlockIndex(t, h, fProofOfStake) && LastOfKind(t, h, fProofOfStake, pindex)
  {
    LastBlockIndexIs(t, h, fProofOfStake);
    hide LastOfKind;
    pindex := h;
    while t.nodes[pindex].pprev.Some? && t.nodes[pindex].block.IsProofOfStake() != fProofOfStake
      invariant pindex in t.nodes && LastBlockIndex(t, pindex, fProofOfStake) == LastBlockIndex(t, h, fProofOfStake)
      decreases t.nodes[pindex].nHeight
    {
      pindex := t.nodes[pindex].pprev.value;
    }
  }

  predicate Kind(t: Tree, a: Hash, fProofOfStake: bool) {
    a in t.nodes && t.nodes[a].block.IsProofOfStake() == fProofOfStake
  }

  /** p is the highest block of the wanted kind on h's branch, or genesis if there is none above genesis. */
  ghost predicate LastOfKind(t: Tree, h: Hash, fProofOfStake: bool, p: Hash)
    requires t.Valid() && h in t.nodes
  {
    && t.Ancestor(p, h) && p in t.nodes && (p == t.genesis || Kind(t, p, fProofOfStake))
    && forall a :: t.Ancestor(a, h) && a in t.nodes && t.nodes[a].nHeight > t.nodes[p].nHeight ==> !Kind(t, a, fProofOfStake)
  }

  lemma {:induction false} LastBlockIndexIs(t: Tree, h: Hash, fProofOfStake: bool)
    requires t.Valid() && h in t.nodes
    ensures LastOfKind(t, h, fProofOfStake, LastBlockIndex(t, h, fProofOfStake))
    decreases t.nodes[h].nHeight
  {
    AncestorSelf(t, h);
    if h == t.genesis || t.nodes[h].block.IsProofOfStake() == fProofOfStake {
      forall a | t.Ancestor(a, h) && a in t.nodes
        ensures t.nodes[a].nHeight <= t.nodes[h].nHeight
      {
        AncestorHeight(t, a, h);
      }
    } else {
      var p := t.nodes[h].pprev.value;
      LastBlockIndexIs(t, p, fProofOfStake);
      assert forall a :: t.Ancestor(a, h) <==> a == h || t.Ancestor(a, p);
    }
  }

  /** The unclamped new target: the old one scaled by how long the last interval took. */
  function Retarget(target: int, nActualSpacing: int): int {
    Quotient(target * ((INTERVAL - 1) * TARGET_SPACING + nActualSpacing + nActualSpacing), (INTERVAL + 1) * TARGET_SPACING)
  }

  /** BN_div truncates toward zero. */
  function Quotient(a: int, b: int): int
    requires b > 0
  {
    if a >= 0 then a / b else -((-a) / b)
  }

  function Clamp(target: int, limit: int): int {
    if target <= 0 || target > limit then limit else target
  }

  /** The two blocks of the wanted kind GetNextTargetRequired compares, if the chain is that long. */
  function LastTwo(t: Tree, pindexLast: Hash, fProofOfStake: bool): (r: Option<(Hash, Hash)>)
    requires t.Valid() && pindexLast in t.nodes
    ensures r.Some? ==> r.value.0 in t.nodes && r.value.1 in t.nodes
  {
    var prev := LastBlockIndex(t, pindexLast, fProofOfStake);
    if t.nodes[prev].pprev == None then None
    else
      var prevPrev := LastBlockIndex(t, t.nodes[prev].pprev.value, fProofOfStake);
      if t.nodes[prevPrev].pprev == None then None else Some((prev, prevPrev))
  }

  /** The time between two blocks, or the wanted spacing when the clock ran backwards. */
  function ActualSpacing(t: Tree, two: (Hash, Hash)): int
    requires two.0 in t.nodes && two.1 in t.nodes
  {
    var d := t.nodes[two.0].block.nTime - t.nodes[two.1].block.nTime;
    if d < 0 then TARGET_SPACING else d
  }

  /** A block's compact target is a 32-bit field. */
  ghost predicate CompactBits(t: Tree) {
    forall h :: h in t.nodes ==> t.nodes[h].block.nBits < 0x1_0000_0000
  }

  /** The required target of the next block: the last one rescaled by the last spacing, clamped, and encoded. */
  ghost function RequiredBits(t: Tree, pindexLast: Hash, fProofOfStake: bool, limit: nat): nat
    requires t.Valid() && CompactBits(t) && pindexLast in t.nodes
  {
    match LastTwo(t, pindexLast, fProofOfStake)
    case None => GetCompact(limit)
    case Some(two) => GetCompact(Clamp(Retarget(SetCompact(t.nodes[two.0].block.nBits), ActualSpacing(t, two)), limit))
  }

  /** GetNextTargetRequired, for a block on top of pindexLast. */
  method GetNextTargetRequired(t: Tree, pindexLast: Hash, fProofOfStake: bool, limit: nat) returns (nBits: nat)
    requires t.Valid() && CompactBits(t) && pindexLast in t.nodes
    ensures nBits == RequiredBits(t, pindexLast, fProofOfStake, limit)
  {
    hide SetCompact, GetCompact, LastOfKind;
    var pindexPrev := GetLastBlockIndex(t, pindexLast, fProofOfStake);
    if t.nodes[pindexPrev].pprev == None {
      return GetCompact(limit);
    }
    var pindexPrevPrev := GetLastBlockIndex(t, t.nodes[pindexPrev].pprev.value, fProofOfStake);
    if t.nodes[pindexPrevPrev].pprev == None {
      return GetCompact(limit);
    }
    var nActualSpacing := t.nodes[pindexPrev].block.nTime - t.nodes[pindexPrevPrev].block.nTime;
    if nActualSpacing < 0 {
      nActualSpacing := TARGET_SPACING;
    }
    var bnNew := SetCompact(t.nodes[pindexPrev].block.nBits);
    bnNew := bnNew * ((INTERVAL - 1) * TARGET_SPACING + nActualSpacing + nActualSpacing);
    bnNew := Quotient(bnNew, (INTERVAL + 1) * TARGET_SPACING);
    if bnNew <= 0 || bnNew > limit {
      bnNew := limit;
    }
    return GetCompact(bnNew);
  }

  /** What a required nBits decodes to: a positive target no easier than the limit. */
  lemma RequiredTargetInRange(t: Tree, pindexLast: Hash, fProofOfStake: bool, limit: nat)
    requires t.Valid() && CompactBits(t) && pindexLast in t.nodes
    requires 0 < limit < TWO_TO_256
    ensures 0 < SetCompact(RequiredBits(t, pindexLast, fProofOfStake, limit)) <= limit
  {
    hide SetCompact, GetCompact;
    Uint256Length(limit);
    match LastTwo(t, pindexLast, fProofOfStake) {
      case None =>
        CompactLoss(limit);
      case Some(two) =>
        var target := Clamp(Retarget(SetCompact(t.nodes[two.0].block.nBits), ActualSpacing(t, two)), limit);
        assert 0 < target <= limit;
        SizeMonotone(target, limit);
        CompactLoss(target);
    }
  }

  /** On-time blocks leave a canonical target alone. */
  lemma OnTimeKeepsTarget(t: Tree, pindexLast: Hash, fProofOfStake: bool, limit: nat, two: (Hash, Hash))
    requires t.Valid() && CompactBits(t) && pindexLast in t.nodes
    requires LastTwo(t, pindexLast, fProofOfStake) == Some(two) && ActualSpacing(t, two) == TARGET_SPACING
    requires var nBits := t.nodes[two.0].block.nBits; 0 < SetCompact(nBits) <= limit && GetCompact(SetCompact(nBits)) == nBits
    ensures RequiredBits(t, pindexLast, fProofOfStake, limit) == t.nodes[two.0].block.nBits
  {
    hide SetCompact, GetCompact;
    var target := SetCompact(t.nodes[two.0].block.nBits);
    assert (INTERVAL - 1) * TARGET_SPACING + TARGET_SPACING + TARGET_SPACING == 3660 == (INTERVAL + 1) * TARGET_SPACING;
    assert target * 3660 / 3660 == target;
  }

  /** One retarget, before it is encoded, keeps at least 59/61 of the old target, however fast the blocks came. */
  lemma RetargetFloor(target: int, nActualSpacing: int)
    requires target >= 0 && nActualSpacing >= 0
    ensures Retarget(target, nActualSpacing) >= 59 * target / 61
  {
    var f := 3540 + nActualSpacing + nActualSpacing;
    assert (INTERVAL - 1) * TARGET_SPACING + nActualSpacing + nActualSpacing == f;
    assert (INTERVAL + 1) * TARGET_SPACING == 3660;
    assert target * f >= target * 3540 by { MulLe(target, 3540, f); }
    assert target * 3540 / 3660 >= 59 * target / 61;
    assert target * f / 3660 >= target * 3540 / 3660;
  }

  // ------------------------------------------------------------------ what the target follows from

  /** a is a block of the wanted kind on h's branch above genesis. */
  ghost predicate Counts(t: Tree, h: Hash, fProofOfStake: bool, a: Hash)
    requires t.Valid() && h in t.nodes
  {
    t.Ancestor(a, h) && a in t.nodes && a != t.genesis && Kind(t, a, fProofOfStake)
  }

  /** p and q, from the top down, are the last two such blocks. */
  ghost predicate AreLastTwo(t: Tree, h: Hash, fProofOfStake: bool, p: Hash, q: Hash)
    requires t.Valid() && h in t.nodes
  {
    && Counts(t, h, fProofOfStake, p) && Counts(t, h, fProofOfStake, q) && t.nodes[q].nHeight < t.nodes[p].nHeight
    && forall a :: Counts(t, h, fProofOfStake, a) ==> a == p || t.nodes[a].nHeight <= t.nodes[q].nHeight
  }

  ghost predicate AtMostOne(t: Tree, h: Hash, fProofOfStake: bool)
    requires t.Valid() && h in t.nodes
  {
    forall a, b :: Counts(t, h, fProofOfStake, a) && Counts(t, h, fProofOfStake, b) ==> a == b
  }

  /** A block that counts is not above the block found, nor beside it. */
  lemma FoundIsHigher(t: Tree, h: Hash, fProofOfStake: bool, p: Hash, a: Hash)
    requires t.Valid() && h in t.nodes && LastOfKind(t, h, fProofOfStake, p) && Counts(t, h, fProofOfStake, a)
    ensures p != t.genesis && (t.nodes[a].nHeight < t.nodes[p].nHeight || a == p)
  {
    hide Tree.Valid, Tree.Ancestor;
    OneAtHeight(t, a, p, h);
    OnlyGenesisAtZero(t, a);
    OnlyGenesisAtZero(t, p);
  }

  /** The block found counts and is the highest that does, if any does. */
  lemma FoundCounts(t: Tree, h: Hash, fProofOfStake: bool)
    requires t.Valid() && h in t.nodes
    ensures var p := LastBlockIndex(t, h, fProofOfStake);
            && t.Ancestor(p, h)
            && ((exists a :: Counts(t, h, fProofOfStake, a)) ==> p != t.genesis && Counts(t, h, fProofOfStake, p))
            && forall a :: Counts(t, h, fProofOfStake, a) ==> t.nodes[a].nHeight < t.nodes[p].nHeight || a == p
  {
    hide Tree.Valid, Tree.Ancestor, LastBlockIndex;
    var p := LastBlockIndex(t, h, fProofOfStake);
    LastBlockIndexIs(t, h, fProofOfStake);
    forall a | Counts(t, h, fProofOfStake, a)
      ensures p != t.genesis && Counts(t, h, fProofOfStake, p) && (t.nodes[a].nHeight < t.nodes[p].nHeight || a == p)
    {
      FoundIsHigher(t, h, fProofOfStake, p, a);
    }
  }

  /** The highest block of a kind is the one found. */
  lemma HighestIsLast(t: Tree, h: Hash, fProofOfStake: bool, p: Hash)
    requires t.Valid() && h in t.nodes && Counts(t, h, fProofOfStake, p)
    requires forall a :: Counts(t, h, fProofOfStake, a) ==> t.nodes[a].nHeight <= t.nodes[p].nHeight
    ensures LastBlockIndex(t, h, fProofOfStake) == p
  {
    hide Tree.Valid, Tree.Ancestor, LastBlockIndex, Kind;
    FoundCounts(t, h, fProofOfStake);
  }

  lemma NoneIsGenesis(t: Tree, h: Hash, fProofOfStake: bool)
    requires t.Valid() && h in t.nodes && forall a :: !Counts(t, h, fProofOfStake, a)
    ensures LastBlockIndex(t, h, fProofOfStake) == t.genesis
  {
    LastBlockIndexIs(t, h, fProofOfStake);
    assert !Counts(t, h, fProofOfStake, LastBlockIndex(t, h, fProofOfStake));
  }

  /** Below p the branch has what h's branch has below p. */
  lemma CountsBelow(t: Tree, h: Hash, fProofOfStake: bool, p: Hash, a: Hash)
    requires t.Valid() && h in t.nodes && t.Ancestor(p, h) && p in t.nodes && p != t.genesis
    ensures t.nodes[p].pprev.Some? && t.nodes[p].pprev.value in t.nodes
    ensures Counts(t, t.nodes[p].pprev.value, fProofOfStake, a)
       <==> Counts(t, h, fProofOfStake, a) && t.nodes[a].nHeight < t.nodes[p].nHeight
  {
    var below := t.nodes[p].pprev.value;
    StepToParent(t, p, h);
    if t.Ancestor(a, below) {
      AncestorHeight(t, a, below);
      AncestorTransitive(t, a, below, h);
    } else if Counts(t, h, fProofOfStake, a) && t.nodes[a].nHeight < t.nodes[p].nHeight {
      AncestorsComparable(t, a, below, h);
    }
  }

  lemma LastTwoAre(t: Tree, h: Hash, fProofOfStake: bool, p: Hash, q: Hash)
    requires t.Valid() && h in t.nodes && AreLastTwo(t, h, fProofOfStake, p, q)
    ensures LastTwo(t, h, fProofOfStake) == Some((p, q))
  {
    hide LastBlockIndex, Kind, Tree.Ancestor;
    HighestIsLast(t, h, fProofOfStake, p);
    forall a
      ensures t.nodes[p].pprev.Some? && t.nodes[p].pprev.value in t.nodes
      ensures Counts(t, t.nodes[p].pprev.value, fProofOfStake, a)
         <==> Counts(t, h, fProofOfStake, a) && t.nodes[a].nHeight < t.nodes[p].nHeight
    {
      CountsBelow(t, h, fProofOfStake, p, a);
    }
    HighestIsLast(t, t.nodes[p].pprev.value, fProofOfStake, q);
  }

  lemma LastTwoAreNot(t: Tree, h: Hash, fProofOfStake: bool)
    requires t.Valid() && h in t.nodes && AtMostOne(t, h, fProofOfStake)
    ensures LastTwo(t, h, fProofOfStake) == None
  {
    hide LastBlockIndex, Kind, Tree.Ancestor;
    if p :| Counts(t, h, fProofOfStake, p) {
      HighestIsLast(t, h, fProofOfStake, p);
      forall a
        ensures t.nodes[p].pprev.Some? && t.nodes[p].pprev.value in t.nodes
        ensures !Counts(t, t.nodes[p].pprev.value, fProofOfStake, a)
      {
        CountsBelow(t, h, fProofOfStake, p, a);
      }
      NoneIsGenesis(t, t.nodes[p].pprev.value, fProofOfStake);
    } else {
      NoneIsGenesis(t, h, fProofOfStake);
    }
  }

  /** From two blocks of the kind on, the next target is the last one's, scaled by (59 + 2 s) / 61 when the last two are s
      minutes apart, and within the limit; a last block that is earlier than the one before counts as on time. */
  lemma TargetFollowsLastTwo(t: Tree, h: Hash, fProofOfStake: bool, limit: nat, p: Hash, q: Hash)
    requires t.Valid() && CompactBits(t) && h in t.nodes && AreLastTwo(t, h, fProofOfStake, p, q)
    ensures var last, before := t.nodes[p].block, t.nodes[q].block;
            var s := if last.nTime < before.nTime then 60 else last.nTime - before.nTime;
            var scaled := SetCompact(last.nBits) * (59 * 60 + 2 * s);
            var target := if scaled >= 0 then scaled / (61 * 60) else -(-scaled / (61 * 60));
            RequiredBits(t, h, fProofOfStake, limit) == GetCompact(if 0 < target <= limit then target else limit)
  {
    hide GetCompact, SetCompact, LastTwo, AreLastTwo;
    LastTwoAre(t, h, fProofOfStake, p, q);
    assert (INTERVAL - 1) * TARGET_SPACING == 59 * 60 && (INTERVAL + 1) * TARGET_SPACING == 61 * 60;
  }

  /** Before that it is the limit. */
  lemma TargetOfFirst(t: Tree, h: Hash, fProofOfStake: bool, limit: nat)
    requires t.Valid() && CompactBits(t) && h in t.nodes && AtMostOne(t, h, fProofOfStake)
    ensures RequiredBits(t, h, fProofOfStake, limit) == GetCompact(limit)
  {
    hide GetCompact, SetCompact, LastTwo, AtMostOne;
    LastTwoAreNot(t, h, fProofOfStake);
  }

  /** One of the two is always the case. */
  lemma OneOrTwo(t: Tree, h: Hash, fProofOfStake: bool)
    requires t.Valid() && h in t.nodes
    ensures AtMostOne(t, h, fProofOfStake) <==> !exists p, q :: AreLastTwo(t, h, fProofOfStake, p, q)
  {
    hide Kind, Tree.Ancestor, Tree.Valid, LastBlockIndex, LastOfKind;
    var p := LastBlockIndex(t, h, fProofOfStake);
    FoundCounts(t, h, fProofOfStake);
    if !AtMostOne(t, h, fProofOfStake) {
      forall a
        ensures t.nodes[p].pprev.Some? && t.nodes[p].pprev.value in t.nodes
        ensures Counts(t, t.nodes[p].pprev.value, fProofOfStake, a)
           <==> Counts(t, h, fProofOfStake, a) && t.nodes[a].nHeight < t.nodes[p].nHeight
      {
        CountsBelow(t, h, fProofOfStake, p, a);
      }
      FoundCounts(t, t.nodes[p].pprev.value, fProofOfStake);
      assert AreLastTwo(t, h, fProofOfStake, p, LastBlockIndex(t, t.nodes[p].pprev.value, fProofOfStake));
    }
  }

  /** CBlockIndex::GetBlockTrust: the expected number of hashes a block of this target takes. */
  function BlockTrust(nBits: nat): nat
    requires nBits < 0x1_0000_0000
  {
    var target := SetCompact(nBits);
    if target <= 0 then 0 else TWO_TO_256 / (target + 1) % TWO_TO_256
  }

  /** A block whose target is in range carries positive trust. */
  lemma TrustPositive(nBits: nat)
    requires nBits < 0x1_0000_0000 && 0 < SetCompact(nBits) < TWO_TO_256
    ensures 0 < BlockTrust(nBits) && BlockTrust(nBits) == TWO_TO_256 / (SetCompact(nBits) + 1)
  {
    hide SetCompact;
    QuotientRange(TWO_TO_256, SetCompact(nBits) + 1);
  }

  lemma QuotientRange(a: nat, d: nat)
    requires 2 <= d <= a
    ensures 1 <= a / d < a
  {
    var q := a / d;
    assert a == d * q + a % d;
    MulLe(q, 2, d);
  }

  /** The tree's chain trust is the sum of its blocks' trust. */
  ghost predicate TrustSummed(t: Tree) {
    t.Valid() && CompactBits(t) &&
    forall h :: h in t.nodes && h != t.genesis ==>
      t.nodes[h].nChainTrust == t.nodes[t.nodes[h].pprev.value].nChainTrust + BlockTrust(t.nodes[h].block.nBits)
  }

  /** Every block's compact target is the one GetNextTargetRequired asked for. */
  ghost predicate TargetsRequired(t: Tree, limit: bool -> nat) {
    t.Valid() && CompactBits(t) &&
    forall h :: h in t.nodes && h != t.genesis ==>
      var b := t.nodes[h].block;
      b.nBits == RequiredBits(t, t.nodes[h].pprev.value, b.IsProofOfStake(), limit(b.IsProofOfStake()))
  }

  /** Chain trust strictly increases towards the tip. */
  lemma {:induction false} ChainTrustIncreases(t: Tree, limit: bool -> nat, a: Hash, h: Hash)
    requires TrustSummed(t) && TargetsRequired(t, limit)
    requires forall stake: bool :: 0 < limit(stake) < TWO_TO_256
    requires h in t.nodes && t.Ancestor(a, h) && a != h
    ensures a in t.nodes && t.nodes[a].nChainTrust < t.nodes[h].nChainTrust
    decreases t.nodes[h].nHeight
  {
    hide BlockTrust, RequiredBits, SetCompact;
    var p, b := t.nodes[h].pprev.value, t.nodes[h].block;
    RequiredTargetInRange(t, p, b.IsProofOfStake(), limit(b.IsProofOfStake()));
    TrustPositive(b.nBits);
    if a != p {
      ChainTrustIncreases(t, limit, a, p);
    }
  }

  lemma {:induction false} LastBlockIndexStable(t: Tree, u: Tree, h: Hash, fProofOfStake: bool)
    requires t.Valid() && u.Valid() && t.genesis == u.genesis && h in t.nodes
    requires forall x :: x in t.nodes ==> x in u.nodes && u.nodes[x] == t.nodes[x]
    ensures h in u.nodes && LastBlockIndex(u, h, fProofOfStake) == LastBlockIndex(t, h, fProofOfStake)
    decreases t.nodes[h].nHeight
  {
    if h != t.genesis && t.nodes[h].block.IsProofOfStake() != fProofOfStake {
      LastBlockIndexStable(t, u, t.nodes[h].pprev.value, fProofOfStake);
    }
  }

  /** New blocks change no earlier block's required target. */
  lemma RequiredBitsStable(t: Tree, u: Tree, h: Hash, fProofOfStake: bool, limit: nat)
    requires t.Valid() && u.Valid() && t.genesis == u.genesis && h in t.nodes && CompactBits(t) && CompactBits(u)
    requires forall x :: x in t.nodes ==> x in u.nodes && u.nodes[x] == t.nodes[x]
    ensures h in u.nodes && RequiredBits(u, h, fProofOfStake, limit) == RequiredBits(t, h, fProofOfStake, limit)
  {
    hide SetCompact, GetCompact;
    LastBlockIndexStable(t, u, h, fProofOfStake);
    var prev := LastBlockIndex(t, h, fProofOfStake);
    if prev != t.genesis {
      LastBlockIndexStable(t, u, t.nodes[prev].pprev.value, fProofOfStake);
    }
  }
}
