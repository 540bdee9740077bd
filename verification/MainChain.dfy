/** The pnext links of the main chain, and the two phases of Reorganize (src/main.h, src/main.cpp). */
module MainChain {
  import opened Wrappers
  import opened Transactions
  import opened BlockTree
  import opened TxInputs
  import opened BlockConnection
  import opened BlockUndo
  import opened MoneySupply
  import opened Replay

  type Links = map<Hash, Hash>

  /** The pnext links that trace exactly genesis..b: a block without a successor is absent. */
  ghost function LinkMap(t: Tree, b: Hash): Links
    requires t.Valid() && b in t.nodes
    decreases t.nodes[b].nHeight
  {
    if b == t.genesis then map[] else LinkMap(t, t.nodes[b].pprev.value)[t.nodes[b].pprev.value := b]
  }

  /** CBlockIndex::IsInMainChain: the block has a pnext or is the best block. */
  predicate IsInMainChain(pnext: Links, pindexBest: Hash, h: Hash) {
    h in pnext || h == pindexBest
  }

  /** The links lead from each block of the branch to the next, and from nowhere else. */
  lemma {:induction false} LinksTraceBranch(t: Tree, b: Hash)
    requires t.Valid() && b in t.nodes
    ensures forall k :: 0 <= k < t.nodes[b].nHeight ==> t.Branch(b)[k] in LinkMap(t, b) && LinkMap(t, b)[t.Branch(b)[k]] == t.Branch(b)[k + 1]
    ensures forall h :: h in LinkMap(t, b) ==> h in t.nodes && t.nodes[h].nHeight < t.nodes[b].nHeight && t.Branch(b)[t.nodes[h].nHeight] == h
    decreases t.nodes[b].nHeight
  {
    if b != t.genesis {
      LinksTraceBranch(t, t.nodes[b].pprev.value);
    }
  }

  /** Following pnext from a block of the branch below its tip leads to its successor in the branch. */
  lemma NextOnBranch(t: Tree, b: Hash, h: Hash)
    requires t.Valid() && b in t.nodes && t.Ancestor(h, b) && h in t.nodes && t.nodes[h].nHeight < t.nodes[b].nHeight
    ensures h in LinkMap(t, b)
    ensures var n := LinkMap(t, b)[h]; t.Ancestor(n, b) && n in t.nodes && t.nodes[n].nHeight == t.nodes[h].nHeight + 1
  {
    hide LinkMap;
    LinksTraceBranch(t, b);
    AncestorHeight(t, h, b);
    assert LinkMap(t, b)[t.Branch(b)[t.nodes[h].nHeight]] == t.Branch(b)[t.nodes[h].nHeight + 1];
  }

  /** A block is in the main chain if and only if it is the best block or an ancestor of it. */
  lemma InMainChainIffAncestor(t: Tree, pindexBest: Hash, h: Hash)
    requires t.Valid() && pindexBest in t.nodes
    ensures IsInMainChain(LinkMap(t, pindexBest), pindexBest, h) <==> t.Ancestor(h, pindexBest)
  {
    LinksTraceBranch(t, pindexBest);
    var br := t.Branch(pindexBest);
    if t.Ancestor(h, pindexBest) {
      var k :| 0 <= k < |br| && br[k] == h;
    }
  }

  /** Unlinking the last block of a branch leaves the links of the branch below it. */
  lemma UnlinkLast(t: Tree, b: Hash)
    requires t.Valid() && b in t.nodes && b != t.genesis
    ensures LinkMap(t, b) - {t.nodes[b].pprev.value} == LinkMap(t, t.nodes[b].pprev.value)
  {
    LinksTraceBranch(t, t.nodes[b].pprev.value);
  }

  /** New blocks change no old links. */
  lemma {:induction false} LinksStable(t: Tree, u: Tree, b: Hash)
    requires t.Valid() && u.Valid() && Grows(t, u) && b in t.nodes
    ensures b in u.nodes && LinkMap(u, b) == LinkMap(t, b)
    decreases t.nodes[b].nHeight
  {
    if b != t.genesis {
      LinksStable(t, u, t.nodes[b].pprev.value);
    }
  }

  // ------------------------------------------------------------------ the lists of Reorganize

  /** The blocks from `tip` down to just above `fork`, tip first. */
  ghost function Down(t: Tree, tip: Hash, fork: Hash): seq<Hash>
    requires t.Valid() && tip in t.nodes && t.Ancestor(fork, tip)
    decreases t.nodes[tip].nHeight
  {
    if tip == fork then [] else [tip] + Down(t, t.nodes[tip].pprev.value, fork)
  }

  /** The blocks from just above `fork` up to `tip`. */
  ghost function Up(t: Tree, fork: Hash, tip: Hash): seq<Hash>
    requires t.Valid() && tip in t.nodes && t.Ancestor(fork, tip)
    decreases t.nodes[tip].nHeight
  {
    if tip == fork then [] else Up(t, fork, t.nodes[tip].pprev.value) + [tip]
  }

  /** The loop that lists what to disconnect, and what to connect before it is reversed. */
  method ListDown(t: Tree, tip: Hash, fork: Hash) returns (v: seq<Hash>)
    requires t.Valid() && tip in t.nodes && t.Ancestor(fork, tip)
    ensures v == Down(t, tip, fork)
  {
    v := [];
    var pindex := tip;
    while pindex != fork
      invariant pindex in t.nodes && t.Ancestor(fork, pindex)
      invariant Down(t, tip, fork) == v + Down(t, pindex, fork)
      decreases t.nodes[pindex].nHeight
    {
      v := v + [pindex];
      pindex := t.nodes[pindex].pprev.value;
    }
  }

  lemma ReverseCons<T>(x: T, s: seq<T>)
    ensures Reverse([x] + s) == Reverse(s) + [x]
  {
  }

  lemma {:induction false} ReversedDownIsUp(t: Tree, tip: Hash, fork: Hash)
    requires t.Valid() && tip in t.nodes && t.Ancestor(fork, tip)
    ensures Reverse(Down(t, tip, fork)) == Up(t, fork, tip)
    decreases t.nodes[tip].nHeight
  {
    if tip != fork {
      var p := t.nodes[tip].pprev.value;
      ReversedDownIsUp(t, p, fork);
      ReverseCons(tip, Down(t, p, fork));
    }
  }

  /** Going up, each block's parent is the one before it, and the first one's parent is the fork. */
  lemma {:induction false} UpParents(t: Tree, fork: Hash, tip: Hash, i: nat)
    requires t.Valid() && tip in t.nodes && t.Ancestor(fork, tip) && i < |Up(t, fork, tip)|
    ensures var v := Up(t, fork, tip);
            && v[i] in t.nodes && v[i] != t.genesis && t.Ancestor(v[i], tip)
            && t.nodes[v[i]].pprev == Some(if i == 0 then fork else v[i - 1])
            && (i == |v| - 1 ==> v[i] == tip)
    decreases t.nodes[tip].nHeight
  {
    var p := t.nodes[tip].pprev.value;
    var front := Up(t, fork, p);
    if i < |front| {
      UpParents(t, fork, p, i);
    } else {
      assert t.Branch(tip)[|t.Branch(tip)| - 1] == tip;
      if i > 0 {
        UpParents(t, fork, p, i - 1);
      }
    }
  }

  // ------------------------------------------------------------------ the index side

  /** Disconnecting the best block of a good branch: DisconnectBlock succeeds and yields the parent's index. */
  method DisconnectTip(r: BlockRules, t: Tree, disk: Disk, txdb: Index, b: Hash) returns (ok: bool, db: Index)
    requires t.Valid() && TreeAccepted(t, disk) && HashesIdentify(disk)
    requires b in t.nodes && b != t.genesis && BranchGood(r, t, disk, b) && txdb == ReplayIndex(t, b)
    ensures ok && db == ReplayIndex(t, t.nodes[b].pprev.value) && BranchGood(r, t, disk, t.nodes[b].pprev.value)
  {
    DisconnectReplays(r, t, disk, b);
    ok, db := DisconnectBlock(txdb, t.nodes[b].block);
  }

  /** Reorganize's first loop on the database: disconnect the shorter branch. It cannot fail on a good branch. */
  method DisconnectPath(r: BlockRules, t: Tree, disk: Disk, txdb: Index, tip: Hash, fork: Hash, v: seq<Hash>)
    returns (ok: bool, db: Index)
    requires t.Valid() && TreeAccepted(t, disk) && HashesIdentify(disk)
    requires tip in t.nodes && t.Ancestor(fork, tip) && v == Down(t, tip, fork)
    requires BranchGood(r, t, disk, tip) && txdb == ReplayIndex(t, tip)
    ensures ok && fork in t.nodes && db == ReplayIndex(t, fork) && BranchGood(r, t, disk, fork)
  {
    hide BranchGood, ReplayIndex;
    db := txdb;
    var i := 0;
    ghost var at := tip;
    while i < |v|
      invariant 0 <= i <= |v|
      invariant at in t.nodes && t.Ancestor(fork, at) && v[i..] == Down(t, at, fork)
      invariant BranchGood(r, t, disk, at) && db == ReplayIndex(t, at)
    {
      assert v[i..][0] == at && v[i..][1..] == v[i + 1..];
      ok, db := DisconnectTip(r, t, disk, db, v[i]);
      if !ok {
        return;
      }
      i := i + 1;
      at := t.nodes[at].pprev.value;
    }
    return true, db;
  }

  /** Every recorded nMoneySupply is the supply along that block's branch. */
  ghost predicate SupplyRecorded(r: BlockRules, t: Tree, disk: Disk, supply: map<Hash, int>)
    requires t.Valid()
  {
    forall h :: h in supply ==> h in t.nodes && supply[h] == SupplyAt(r.tx, t, disk, h)
  }

  lemma MintIs(r: BlockRules, t: Tree, disk: Disk, s: Store, b: Hash)
    requires t.Valid() && b in t.nodes && b != t.genesis && s.disk == disk && s.txdb == ReplayIndex(t, t.nodes[b].pprev.value)
    requires Backed(s.txdb, disk) && OnDisk(disk, t.nodes[b])
    ensures var all := Tally(r.tx, s, t.nodes[b], |t.nodes[b].block.vtx|);
            all.nValueOut - all.nValueIn == SupplyAt(r.tx, t, disk, b) - SupplyAt(r.tx, t, disk, t.nodes[b].pprev.value)
  {
    hide Backed, OnDisk;
    ConnectingIgnoresMempool(r, t, s, b, true);
  }

  /** Connecting one block on top of its parent's index, as SetBestChainInner and Reorganize do. */
  method ConnectTip(r: BlockRules, t: Tree, disk: Disk, mapTx: map<Hash, Tx>, txdb: Index, b: Hash, nBestHeight: int,
                    nPrevSupply: int)
    returns (ok: bool, db: Index, nMoneySupply: int)
    requires t.Valid() && TreeAccepted(t, disk) && HashesIdentify(disk) && b in t.nodes && b != t.genesis
    requires BranchGood(r, t, disk, t.nodes[b].pprev.value) && txdb == ReplayIndex(t, t.nodes[b].pprev.value)
    requires nPrevSupply == SupplyAt(r.tx, t, disk, t.nodes[b].pprev.value)
    ensures ok <==> Connects(r, t, disk, b, nBestHeight >= r.tx.nBlocksEstimate)
    ensures ok ==> db == ReplayIndex(t, b) && BranchGood(r, t, disk, b) && nMoneySupply == SupplyAt(r.tx, t, disk, b)
    ensures !ok ==> db == txdb
  {
    hide BlockConnects, Minted, BranchGood, HashesIdentify;
    var nMint;
    ReplayInvariant(r, t, disk, t.nodes[b].pprev.value);
    ConnectingIgnoresMempool(r, t, Store(txdb, disk, mapTx), b, nBestHeight >= r.tx.nBlocksEstimate);
    ok, db, nMint, nMoneySupply := ConnectBlock(r, t, Store(txdb, disk, mapTx), b, nBestHeight, nPrevSupply);
    MintIs(r, t, disk, Store(txdb, disk, mapTx), b);
    if ok {
      ConnectExtends(r, t, disk, b, nBestHeight >= r.tx.nBlocksEstimate);
    }
  }

  /** The database and the recorded money supplies stand at block b. */
  ghost predicate StandsAt(r: BlockRules, t: Tree, disk: Disk, txdb: Index, supply: map<Hash, int>, b: Hash)
    requires t.Valid()
  {
    && b in t.nodes && BranchGood(r, t, disk, b) && txdb == ReplayIndex(t, b)
    && SupplyRecorded(r, t, disk, supply) && BranchRecorded(t, supply, b)
  }

  /** nMoneySupply has been recorded for every block of the branch. */
  ghost predicate BranchRecorded(t: Tree, supply: map<Hash, int>, b: Hash)
    requires t.Valid() && b in t.nodes
  {
    forall x :: t.Ancestor(x, b) ==> x in supply
  }

  lemma BranchRecordedUp(t: Tree, supply: map<Hash, int>, p: Hash, b: Hash, nMoneySupply: int)
    requires t.Valid() && b in t.nodes && p in t.nodes && b != t.genesis && t.nodes[b].pprev == Some(p)
    requires BranchRecorded(t, supply, p)
    ensures p in supply && BranchRecorded(t, supply[b := nMoneySupply], b)
  {
    AncestorSelf(t, p);
    forall x | t.Ancestor(x, b)
      ensures x in supply[b := nMoneySupply]
    {
      if x != b {
        assert t.Ancestor(x, p);
      }
    }
  }

  lemma BranchRecordedMore(t: Tree, supply: map<Hash, int>, supply': map<Hash, int>, b: Hash)
    requires t.Valid() && b in t.nodes && BranchRecorded(t, supply, b) && supply.Keys <= supply'.Keys
    ensures BranchRecorded(t, supply', b)
  {
  }

  lemma BranchRecordedDown(t: Tree, supply: map<Hash, int>, a: Hash, b: Hash)
    requires t.Valid() && b in t.nodes && a in t.nodes && t.Ancestor(a, b) && BranchRecorded(t, supply, b)
    ensures BranchRecorded(t, supply, a)
  {
    forall x | t.Ancestor(x, a)
      ensures x in supply
    {
      AncestorTransitive(t, x, a, b);
    }
  }

  /** ConnectTip, writing down the block's nMoneySupply. */
  method AdvanceTip(r: BlockRules, t: Tree, disk: Disk, mapTx: map<Hash, Tx>, txdb: Index, p: Hash, b: Hash, nBestHeight: int,
                    supply: map<Hash, int>)
    returns (ok: bool, db: Index, supply': map<Hash, int>)
    requires t.Valid() && TreeAccepted(t, disk) && HashesIdentify(disk) && b in t.nodes && b != t.genesis
    requires t.nodes[b].pprev == Some(p) && StandsAt(r, t, disk, txdb, supply, p)
    ensures ok <==> Connects(r, t, disk, b, nBestHeight >= r.tx.nBlocksEstimate)
    ensures ok ==> StandsAt(r, t, disk, db, supply', b)
    ensures !ok ==> db == txdb && supply' == supply
    ensures supply.Keys <= supply'.Keys
  {
    hide Connects, BranchGood, ReplayIndex, SupplyAt, BranchRecorded, TreeAccepted, HashesIdentify;
    BranchRecordedUp(t, supply, p, b, 0);
    var nMoneySupply;
    ok, db, nMoneySupply := ConnectTip(r, t, disk, mapTx, txdb, b, nBestHeight, supply[p]);
    supply' := if ok then supply[b := nMoneySupply] else supply;
    BranchRecordedUp(t, supply, p, b, nMoneySupply);
  }

  /** Every block above the fork connects on top of its parent. */
  ghost predicate AllConnect(r: BlockRules, t: Tree, disk: Disk, fork: Hash, tip: Hash, fCheckSigs: bool)
    requires t.Valid() && tip in t.nodes && t.Ancestor(fork, tip)
    decreases t.nodes[tip].nHeight
  {
    tip == fork ||
    (AllConnect(r, t, disk, fork, t.nodes[tip].pprev.value, fCheckSigs) && Connects(r, t, disk, tip, fCheckSigs))
  }

  lemma {:induction false} AllConnectBelow(r: BlockRules, t: Tree, disk: Disk, fork: Hash, mid: Hash, tip: Hash, fCheckSigs: bool)
    requires t.Valid() && tip in t.nodes && t.Ancestor(mid, tip) && mid in t.nodes && t.Ancestor(fork, mid) && t.Ancestor(fork, tip)
    requires AllConnect(r, t, disk, fork, tip, fCheckSigs)
    ensures AllConnect(r, t, disk, fork, mid, fCheckSigs)
    decreases t.nodes[tip].nHeight
  {
    if mid != tip {
      AncestorHeight(t, fork, mid);
      AncestorHeight(t, mid, tip);
      AllConnectBelow(r, t, disk, fork, mid, t.nodes[tip].pprev.value, fCheckSigs);
    }
  }

  lemma UpEnds(t: Tree, fork: Hash, tip: Hash)
    requires t.Valid() && tip in t.nodes && t.Ancestor(fork, tip)
    ensures |Up(t, fork, tip)| == 0 <==> fork == tip
  {
  }

  /** Stepping up from `cur` to the next block of a list that leads to the tip. */
  lemma UpStep(t: Tree, fork: Hash, tip: Hash, cur: Hash, i: nat)
    requires t.Valid() && tip in t.nodes && t.Ancestor(fork, tip) && i < |Up(t, fork, tip)|
    requires cur in t.nodes && t.Ancestor(fork, cur) && cur == if i == 0 then fork else Up(t, fork, tip)[i - 1]
    ensures var b := Up(t, fork, tip)[i];
            && b in t.nodes && b != t.genesis && b != fork && t.nodes[b].pprev == Some(cur)
            && t.Ancestor(fork, b) && t.Ancestor(b, tip) && (i == |Up(t, fork, tip)| - 1 ==> b == tip)
  {
    UpParents(t, fork, tip, i);
    AncestorHeight(t, fork, cur);
  }

  /** Reorganize's second loop on the database: connect the longer branch above the fork. */
  method ConnectPath(r: BlockRules, t: Tree, disk: Disk, mapTx: map<Hash, Tx>, txdb: Index, fork: Hash, tip: Hash, v: seq<Hash>,
                     nBestHeight: int, supply: map<Hash, int>)
    returns (ok: bool, db: Index, supply': map<Hash, int>)
    requires t.Valid() && TreeAccepted(t, disk) && HashesIdentify(disk)
    requires tip in t.nodes && t.Ancestor(fork, tip) && v == Up(t, fork, tip)
    requires StandsAt(r, t, disk, txdb, supply, fork)
    ensures ok <==> AllConnect(r, t, disk, fork, tip, nBestHeight >= r.tx.nBlocksEstimate)
    ensures ok ==> StandsAt(r, t, disk, db, supply', tip)
    ensures SupplyRecorded(r, t, disk, supply') && supply.Keys <= supply'.Keys
  {
    hide Connects, BranchGood, ReplayIndex, SupplyAt, BranchRecorded, TreeAccepted, HashesIdentify;
    db, supply' := txdb, supply;
    ghost var sigs := nBestHeight >= r.tx.nBlocksEstimate;
    var i := 0;
    var cur := fork;
    AncestorSelf(t, fork);
    while i < |v|
      invariant 0 <= i <= |v|
      invariant cur == if i == 0 then fork else v[i - 1]
      invariant i == |v| ==> cur == tip
      invariant StandsAt(r, t, disk, db, supply', cur) && supply.Keys <= supply'.Keys
      invariant t.Ancestor(fork, cur) && AllConnect(r, t, disk, fork, cur, sigs)
    {
      UpStep(t, fork, tip, cur, i);
      ok, db, supply' := AdvanceTip(r, t, disk, mapTx, db, cur, v[i], nBestHeight, supply');
      if !ok {
        if AllConnect(r, t, disk, fork, tip, sigs) {
          AllConnectBelow(r, t, disk, fork, v[i], tip, sigs);
        }
        return;
      }
      cur := v[i];
      i := i + 1;
    }
    ok := true;
  }

  // ------------------------------------------------------------------ the pnext side

  /** Reorganize's loop that clears the pnext links of the shorter branch. */
  method UnlinkPath(t: Tree, pnext: Links, tip: Hash, fork: Hash, v: seq<Hash>) returns (links: Links)
    requires t.Valid() && tip in t.nodes && t.Ancestor(fork, tip) && v == Down(t, tip, fork) && pnext == LinkMap(t, tip)
    ensures fork in t.nodes && links == LinkMap(t, fork)
  {
    links := pnext;
    var i := 0;
    ghost var at := tip;
    while i < |v|
      invariant 0 <= i <= |v|
      invariant at in t.nodes && t.Ancestor(fork, at) && v[i..] == Down(t, at, fork)
      invariant links == LinkMap(t, at)
    {
      assert v[i..][0] == at && v[i..][1..] == v[i + 1..];
      UnlinkLast(t, at);
      if t.nodes[v[i]].pprev.Some? {
        links := links - {t.nodes[v[i]].pprev.value};
      }
      i := i + 1;
      at := t.nodes[at].pprev.value;
    }
  }

  /** Reorganize's loop that sets the pnext links of the longer branch. */
  method LinkPath(t: Tree, pnext: Links, fork: Hash, tip: Hash, v: seq<Hash>) returns (links: Links)
    requires t.Valid() && tip in t.nodes && t.Ancestor(fork, tip) && v == Up(t, fork, tip)
    requires fork in t.nodes && pnext == LinkMap(t, fork)
    ensures links == LinkMap(t, tip)
  {
    links := pnext;
    var i := 0;
    ghost var cur := fork;
    AncestorSelf(t, fork);
    while i < |v|
      invariant 0 <= i <= |v|
      invariant cur == if i == 0 then fork else v[i - 1]
      invariant i == |v| ==> cur == tip
      invariant cur in t.nodes && t.Ancestor(fork, cur) && links == LinkMap(t, cur)
    {
      UpStep(t, fork, tip, cur, i);
      if t.nodes[v[i]].pprev.Some? {
        links := links[t.nodes[v[i]].pprev.value := v[i]];
      }
      cur := v[i];
      i := i + 1;
    }
  }

  /** Where links end tells branches apart: a proper ancestor has no link in its own branch, but one in the longer. */
  lemma LinksTellBranchesApart(t: Tree, a: Hash, b: Hash)
    requires t.Valid() && b in t.nodes && a in t.nodes && t.Ancestor(a, b) && a != b
    ensures LinkMap(t, a) != LinkMap(t, b)
  {
    LinksTraceBranch(t, a);
    LinksTraceBranch(t, b);
    AncestorHeight(t, a, b);
    assert a in LinkMap(t, b);
    assert a !in LinkMap(t, a);
  }

  /** New blocks leave the state standing where it stood. */
  lemma StandsAtStable(r: BlockRules, t: Tree, u: Tree, disk: Disk, txdb: Index, supply: map<Hash, int>, b: Hash)
    requires t.Valid() && u.Valid() && Grows(t, u) && StandsAt(r, t, disk, txdb, supply, b)
    ensures StandsAt(r, u, disk, txdb, supply, b) && LinkMap(u, b) == LinkMap(t, b)
  {
    hide BranchGood, ReplayIndex, SupplyAt, LinkMap;
    ReplayStable(r, t, u, disk, b);
    LinksStable(t, u, b);
    BranchStable(t, u, b);
    forall h | h in supply
      ensures h in u.nodes && supply[h] == SupplyAt(r.tx, u, disk, h)
    {
      ReplayStable(r, t, u, disk, h);
    }
  }
}
