/** Runs of the chain state: what any sequence of its operations makes of the block tree and the tip (src/main.cpp). */
module ChainRun {
  import opened Wrappers
  import opened Transactions
  import opened BlockTree
  import opened BlockTime
  import opened BlockConnection
  import opened MoneySupply
  import opened Targets
  import opened Replay
  import opened MainChain
  import opened TipChoice
  import opened ChainStateMachine

  /** A block comes in, the memory pool changes, or someone asks for the block at a height. */
  datatype Event =
    | Received(block: Block, hashProof: Hash, nFile: nat, nBlockPos: nat)
    | PoolChanged(mapTx: map<Hash, Tx>)
    | Asked(nHeight: nat)

  /** A block is in the block files where the event says, and its nBits is a 32-bit number. */
  ghost predicate Possible(disk: Disk, e: Event) {
    e.Received? ==> e.block.nBits < 0x1_0000_0000 && OnDisk(disk, BlockIndex(None, 0, e.nFile, e.nBlockPos, 0, e.block))
  }

  /** What a node is run with. */
  datatype Settings = Settings(rules: BlockRules, limit: bool -> nat, checkpoints: map<nat, Hash>, contextOk: Block -> bool, disk: Disk)

  ghost function Of(c: ChainState): Settings {
    Settings(c.rules, c.limit, c.checkpoints, c.contextOk, c.disk)
  }

  /** The block tree and the best block. */
  datatype Moment = Moment(tree: Tree, best: Hash)

  ghost predicate Sound(m: Moment) {
    m.tree.Valid() && CompactBits(m.tree) && m.best in m.tree.nodes
  }

  ghost function Now(c: ChainState): Moment
    reads c
  {
    Moment(c.tree, c.pindexBest)
  }

  ghost predicate LowTree(t: Tree, n: nat) {
    forall h :: h in t.nodes ==> t.nodes[h].nHeight <= n
  }

  // ------------------------------------------------------------------ what an event does

  /** Signatures are checked in what connects next. */
  ghost predicate SigsChecked(s: Settings, m: Moment)
    requires m.best in m.tree.nodes
  {
    m.tree.nodes[m.best].nHeight >= s.rules.tx.nBlocksEstimate
  }

  /** The event brings a block that is indexed. */
  ghost predicate Indexes(s: Settings, t: Tree, e: Event)
    requires t.Valid() && CompactBits(t)
  {
    && e.Received? && e.block.nBits < 0x1_0000_0000 && LowTree(t, 0x7FFF_FFFE)
    && BlockWellFormed(s.rules, e.block) && MayBeIndexed(t, s.limit, s.checkpoints, s.contextOk, e.block)
  }

  lemma IndexesNew(s: Settings, t: Tree, e: Event)
    requires t.Valid() && CompactBits(t) && Indexes(s, t, e)
    ensures e.Received? && e.block.nBits < 0x1_0000_0000 && e.block.hash !in t.nodes && e.block.hashPrevBlock in t.nodes
    ensures BlockWellFormed(s.rules, e.block)
  {
    hide BlockWellFormed, RequiredBits, TimeOk, CheckHardened;
  }

  lemma WithNodeGrows(t: Tree, block: Block, nFile: nat, nBlockPos: nat)
    requires t.Valid() && CompactBits(t) && block.hash !in t.nodes && block.hashPrevBlock in t.nodes && block.nBits < 0x1_0000_0000
    ensures var u := WithNode(t, block, nFile, nBlockPos); u.Valid() && CompactBits(u) && Grows(t, u) && block.hash in u.nodes
  {
    hide BlockTrust;
  }

  /** The tree with the block the event brings. */
  ghost function Grown(s: Settings, t: Tree, e: Event): (u: Tree)
    requires t.Valid() && CompactBits(t) && Indexes(s, t, e)
    ensures e.Received? && u.Valid() && CompactBits(u) && Grows(t, u) && e.block.hash in u.nodes
  {
    hide *;
    IndexesNew(s, t, e);
    WithNodeGrows(t, e.block, e.nFile, e.nBlockPos);
    WithNode(t, e.block, e.nFile, e.nBlockPos)
  }

  /** The tip moves to block h: it is heavier, and the blocks up to the intermediate one connect. */
  ghost predicate Moves(s: Settings, u: Tree, best: Hash, h: Hash, fCheckSigs: bool)
    requires u.Valid() && best in u.nodes && h in u.nodes
  {
    && u.nodes[h].nChainTrust > u.nodes[best].nChainTrust
    && Intermediate(u, best, h) in u.nodes && Adoptable(s.rules, u, s.disk, best, Intermediate(u, best, h), fCheckSigs)
  }

  /** The tree and the tip after an event. */
  ghost function After(s: Settings, m: Moment, e: Event): (r: Moment)
    requires Sound(m)
    ensures Sound(r) && Grows(m.tree, r.tree)
  {
    hide BlockTrust, Indexes, Moves, MayBeIndexed, Tree.Valid, CompactBits;
    if !Indexes(s, m.tree, e) then m
    else
      var u := Grown(s, m.tree, e);
      Moment(u, if Moves(s, u, m.best, e.block.hash, SigsChecked(s, m)) then e.block.hash else m.best)
  }

  /** The event moves the tip to a block below which one does not connect. */
  ghost predicate Breaks(s: Settings, m: Moment, e: Event)
    requires Sound(m)
  {
    && Indexes(s, m.tree, e)
    && var u := Grown(s, m.tree, e);
       && Moves(s, u, m.best, e.block.hash, SigsChecked(s, m))
       && !Adoptable(s.rules, u, s.disk, m.best, e.block.hash, SigsChecked(s, m))
  }

  /** The tree and the tip after a sequence of events. */
  ghost function Play(s: Settings, start: Moment, events: seq<Event>): (m: Moment)
    requires Sound(start)
    ensures Sound(m) && Grows(start.tree, m.tree)
  {
    if events == [] then start else After(s, Play(s, start, events[..|events| - 1]), events[|events| - 1])
  }

  lemma PlayNothing(s: Settings, start: Moment, events: seq<Event>)
    requires Sound(start)
    ensures Play(s, start, events[..0]) == start
  {
    hide After;
  }

  lemma PlayOneMore(s: Settings, start: Moment, events: seq<Event>, i: nat)
    requires Sound(start) && i < |events|
    ensures Play(s, start, events[..i + 1]) == After(s, Play(s, start, events[..i]), events[i])
  {
    hide After;
    assert events[..i + 1][..i] == events[..i];
  }

  /** After event i signatures are no longer checked, and before it they were. */
  ghost predicate Falls(s: Settings, start: Moment, events: seq<Event>, i: nat)
    requires Sound(start) && i < |events|
  {
    SigsChecked(s, Play(s, start, events[..i])) && !SigsChecked(s, Play(s, start, events[..i + 1]))
  }

  /** Without a checkpoint estimate that cannot happen. */
  lemma FallsBelowEstimate(s: Settings, start: Moment, events: seq<Event>, i: nat)
    requires Sound(start) && i < |events| && Falls(s, start, events, i)
    ensures s.rules.tx.nBlocksEstimate > 0
  {
    hide Play;
  }

  /** The event brings block h, and it is indexed. */
  ghost predicate Brings(s: Settings, t: Tree, e: Event, h: Hash)
    requires t.Valid() && CompactBits(t)
  {
    Indexes(s, t, e) && e.block.hash == h
  }

  lemma AfterTree(s: Settings, m: Moment, e: Event, h: Hash)
    requires Sound(m)
    ensures h in After(s, m, e).tree.nodes <==> h in m.tree.nodes || Brings(s, m.tree, e, h)
  {
    hide Indexes, Moves, NewNode, CompactBits, Tree.Valid;
    if Indexes(s, m.tree, e) {
      IndexesNew(s, m.tree, e);
    }
  }

  ghost predicate BroughtBy(s: Settings, start: Moment, events: seq<Event>, h: Hash)
    requires Sound(start)
  {
    exists i :: 0 <= i < |events| && Brings(s, Play(s, start, events[..i]).tree, events[i], h)
  }

  lemma BroughtByMore(s: Settings, start: Moment, events: seq<Event>, h: Hash)
    requires Sound(start) && events != []
    ensures var n := |events| - 1;
            BroughtBy(s, start, events, h)
            <==> BroughtBy(s, start, events[..n], h) || Brings(s, Play(s, start, events[..n]).tree, events[n], h)
  {
    hide Play, Brings, Tree.Valid, CompactBits;
    var n := |events| - 1;
    assert forall i :: 0 <= i < n ==> events[..n][..i] == events[..i] && events[..n][i] == events[i];
    if BroughtBy(s, start, events[..n], h) {
      var i :| 0 <= i < n && Brings(s, Play(s, start, events[..n][..i]).tree, events[..n][i], h);
      assert Brings(s, Play(s, start, events[..i]).tree, events[i], h);
    }
  }

  /** The blocks of a run's tree are those it started with and the received ones that were indexed. */
  lemma {:induction false} TreeIsReceived(s: Settings, start: Moment, events: seq<Event>, h: Hash)
    requires Sound(start)
    ensures h in Play(s, start, events).tree.nodes <==> h in start.tree.nodes || BroughtBy(s, start, events, h)
    decreases |events|
  {
    hide After, Brings, Sound, BroughtBy;
    if events == [] {
      NothingBrought(s, start, h);
    } else {
      var n := |events| - 1;
      TreeIsReceived(s, start, events[..n], h);
      BroughtByMore(s, start, events, h);
      AfterTree(s, Play(s, start, events[..n]), events[n], h);
    }
  }

  lemma NothingBrought(s: Settings, start: Moment, h: Hash)
    requires Sound(start)
    ensures !BroughtBy(s, start, [], h)
  {
    hide Play, Brings, Sound;
  }

  lemma {:induction false} PlayGrows(s: Settings, start: Moment, events: seq<Event>, i: nat)
    requires Sound(start) && i <= |events|
    ensures Grows(Play(s, start, events[..i]).tree, Play(s, start, events).tree)
    decreases |events|
  {
    hide After, Sound;
    if i == |events| {
      assert events[..i] == events;
    } else {
      var front := events[..|events| - 1];
      PlayGrows(s, start, front, i);
      assert front[..i] == events[..i];
    }
  }

  /** An indexed block stays where it was put, at the height and with the trust it got then. */
  lemma StaysInPlace(s: Settings, start: Moment, events: seq<Event>, i: nat)
    requires Sound(start) && i < |events| && Indexes(s, Play(s, start, events[..i]).tree, events[i])
    ensures var e, t, u := events[i], Play(s, start, events[..i]).tree, Play(s, start, events).tree;
            && e.Received? && e.block.nBits < 0x1_0000_0000 && e.block.hashPrevBlock in t.nodes
            && e.block.hash in u.nodes && u.nodes[e.block.hash] == NewNode(t, e.block, e.nFile, e.nBlockPos)
  {
    hide Play, Indexes, NewNode, Tree.Valid, CompactBits, Moves;
    IndexesNew(s, Play(s, start, events[..i]).tree, events[i]);
    PlayOneMore(s, start, events, i);
    PlayGrows(s, start, events, i + 1);
  }

  // ------------------------------------------------------------------ times and checkpoints

  /** The block is later than more than half of the last eleven below it, and at most ten minutes earlier than its parent. */
  ghost predicate InTime(t: Tree, h: Hash)
    requires t.Valid() && h in t.nodes
  {
    h == t.genesis ||
    (var p := t.nodes[h].pprev.value;
     && 2 * |EarlierThan(t, p, MEDIAN_TIME_SPAN, t.nodes[h].block.nTime)| > |Top(t, p, MEDIAN_TIME_SPAN)|
     && t.nodes[h].block.nTime + 600 >= t.nodes[p].block.nTime)
  }

  /** If there is a checkpoint at the block's height, it is the block. */
  predicate AtCheckpoint(s: Settings, t: Tree, h: Hash)
    requires h in t.nodes
  {
    t.nodes[h].nHeight in s.checkpoints ==> s.checkpoints[t.nodes[h].nHeight] == h
  }

  lemma StillInTime(s: Settings, t: Tree, u: Tree, h: Hash)
    requires t.Valid() && u.Valid() && Grows(t, u) && h in t.nodes && InTime(t, h) && AtCheckpoint(s, t, h)
    ensures h in u.nodes && InTime(u, h) && AtCheckpoint(s, u, h)
  {
    hide Top, EarlierThan;
    if h != t.genesis {
      TopStable(t, u, t.nodes[h].pprev.value, MEDIAN_TIME_SPAN, t.nodes[h].block.nTime);
    }
  }

  /** What AcceptBlock has seen to when it indexes a block. */
  lemma NewInTime(s: Settings, t: Tree, e: Event)
    requires t.Valid() && CompactBits(t) && Indexes(s, t, e)
    ensures var u := Grown(s, t, e); InTime(u, e.block.hash) && AtCheckpoint(s, u, e.block.hash)
  {
    var u, p, x := Grown(s, t, e), e.block.hashPrevBlock, e.block.nTime;
    hide Indexes, MedianTime, EarlierThan, Top, Tree.Valid, CompactBits, Grown;
    NewAccepted(s, t, e);
    GrownBy(s, t, e);
    AfterMedianIff(t, p, x);
    TopStable(t, u, p, MEDIAN_TIME_SPAN, x);
  }

  lemma GrownBy(s: Settings, t: Tree, e: Event)
    requires t.Valid() && CompactBits(t) && Indexes(s, t, e)
    ensures var u, p := Grown(s, t, e), e.block.hashPrevBlock;
            && p in t.nodes && u.nodes[e.block.hash].pprev == Some(p) && u.nodes[e.block.hash].block == e.block
            && u.nodes[e.block.hash].nHeight == t.nodes[p].nHeight + 1
  {
    IndexesNew(s, t, e);
    hide Indexes, BlockTrust, Tree.Valid, CompactBits;
  }

  lemma NewAccepted(s: Settings, t: Tree, e: Event)
    requires t.Valid() && CompactBits(t) && Indexes(s, t, e)
    ensures e.block.hashPrevBlock in t.nodes && TimeOk(t, e.block.hashPrevBlock, e.block.nTime)
    ensures var n := t.nodes[e.block.hashPrevBlock].nHeight + 1; n in s.checkpoints ==> e.block.hash == s.checkpoints[n]
  {
    hide TimeOk, BlockWellFormed, RequiredBits;
  }

  /** In every run each block that came in is in time, and the only one at the height of a checkpoint is the checkpoint's. */
  lemma {:induction false} RunKeepsTimes(s: Settings, start: Moment, events: seq<Event>, h: Hash)
    requires Sound(start) && h in Play(s, start, events).tree.nodes && h !in start.tree.nodes
    ensures Sound(Play(s, start, events)) && InTime(Play(s, start, events).tree, h) && AtCheckpoint(s, Play(s, start, events).tree, h)
    decreases |events|
  {
    hide After, InTime, AtCheckpoint, Brings, Tree.Valid, CompactBits;
    var n := |events| - 1;
    var m, e := Play(s, start, events[..n]), events[n];
    AfterTree(s, m, e, h);
    if h in m.tree.nodes {
      RunKeepsTimes(s, start, events[..n], h);
      StillInTime(s, m.tree, After(s, m, e).tree, h);
    } else {
      BroughtInTime(s, m, e, h);
    }
  }

  lemma BroughtInTime(s: Settings, m: Moment, e: Event, h: Hash)
    requires Sound(m) && Brings(s, m.tree, e, h)
    ensures h in After(s, m, e).tree.nodes && InTime(After(s, m, e).tree, h) && AtCheckpoint(s, After(s, m, e).tree, h)
  {
    NewInTime(s, m.tree, e);
    hide Indexes, InTime, AtCheckpoint, Moves, Tree.Valid, CompactBits;
  }

  // ------------------------------------------------------------------ the operations

  lemma LowTreeMore(t: Tree, n: nat)
    ensures LowTree(t, n) ==> LowTree(t, n + 1)
  {
  }

  lemma LowTreeGrows(t: Tree, block: Block, nFile: nat, nBlockPos: nat, n: nat)
    requires LowTree(t, n) && block.hashPrevBlock in t.nodes && block.nBits < 0x1_0000_0000
    ensures LowTree(WithNode(t, block, nFile, nBlockPos), n + 1)
  {
    hide BlockTrust;
  }

  lemma LowTreeFits(t: Tree, n: nat)
    requires LowTree(t, n) && n < 0x7FFF_FFFF
    ensures LowTree(t, 0x7FFF_FFFE) && forall h :: h in t.nodes ==> t.nodes[h].nHeight < 0x7FFF_FFFF
  {
  }

  /** After a break index and links stand where the second phase has stopped. */
  ghost predicate StandsAfterBreak(c: ChainState, m: Moment, e: Event, reached: Hash)
    requires Sound(m) && Breaks(Of(c), m, e)
    reads c
  {
    var mid := Intermediate(Grown(Of(c), m.tree, e), m.best, e.block.hash);
    c.At(reached) && c.StopsAt(m.best, mid, e.block.hash, reached, SigsChecked(Of(c), m))
  }

  lemma SoundNow(c: ChainState)
    requires c.Consistent()
    ensures Sound(Now(c)) && (SigsChecked(Of(c), Now(c)) <==> c.FCheckSigs())
  {
    hide StandsAt, LinkMap, TreeAccepted, HashesIdentify, StakeOk, CompactBits, TrustSummed, TargetsRequired, Tree.Valid;
  }

  /** A block that is not indexed changes neither tree nor tip. */
  lemma NothingHappens(s: Settings, m: Moment, e: Event)
    requires Sound(m) && !Indexes(s, m.tree, e)
    ensures After(s, m, e) == m && !Breaks(s, m, e)
  {
    hide Indexes, Sound;
  }

  /** What AddToBlockIndex says about the tip, as an event. */
  lemma TipMoves(s: Settings, m: Moment, e: Event, best: Hash, ok: bool)
    requires Sound(m) && Indexes(s, m.tree, e)
    requires Moved(s.rules, Grown(s, m.tree, e), s.disk, m.best, best, e.block.hash, SigsChecked(s, m), ok)
    ensures After(s, m, e) == Moment(Grown(s, m.tree, e), best)
    ensures Breaks(s, m, e) <==> best == e.block.hash && !Adoptable(s.rules, Grown(s, m.tree, e), s.disk, m.best, best, SigsChecked(s, m))
  {
    IndexesNew(s, m.tree, e);
    hide Indexes, Grown, Adoptable, Intermediate, CompactBits, Tree.Valid;
  }

  /** A block that passes CheckBlock goes to AcceptBlock. */
  method Receive(c: ChainState, block: Block, hashProof: Hash, nFile: nat, nBlockPos: nat, ghost n: nat) returns (ghost reached: Hash)
    requires c.Consistent() && LowTree(c.tree, n) && n < 0x7FFF_FFFF && Possible(c.disk, Received(block, hashProof, nFile, nBlockPos))
    modifies c
    ensures var e, m := Received(block, hashProof, nFile, nBlockPos), old(Now(c));
            && Sound(m) && Now(c) == After(Of(c), m, e) && (c.Consistent() <==> !Breaks(Of(c), m, e))
            && (Breaks(Of(c), m, e) ==> StandsAfterBreak(c, m, e, reached))
    ensures LowTree(c.tree, n + 1)
    ensures old(c.TipIsHeaviest()) ==> c.Consistent() && ((old(c.FCheckSigs()) ==> c.FCheckSigs()) ==> c.TipIsHeaviest())
  {
    hide ChainState.At, ChainState.Kernel, StakeOk, CompactBits, TrustSummed, TargetsRequired, Heaviest, OnDisk, MayBeIndexed, WithNode,
         Adoptable, BlockWellFormed, LowTree, Intermediate, ChainState.StopsAt, After, Breaks, Moved;
    ghost var m, e := Now(c), Received(block, hashProof, nFile, nBlockPos);
    reached := c.pindexBest;
    SoundNow(c);
    LowTreeFits(c.tree, n);
    LowTreeMore(c.tree, n);
    var ok := CheckBlock(c.rules, block);
    if !ok {
      NothingHappens(Of(c), m, e);
      return;
    }
    var indexed;
    ok, indexed, reached := c.AcceptBlock(block, hashProof, nFile, nBlockPos);
    if indexed {
      LowTreeGrows(m.tree, block, nFile, nBlockPos, n);
      TipMoves(Of(c), m, e, c.pindexBest, ok);
    } else {
      NothingHappens(Of(c), m, e);
    }
  }

  /** One event. */
  method Handle(c: ChainState, e: Event, ghost n: nat) returns (ghost reached: Hash)
    requires c.Consistent() && LowTree(c.tree, n) && n < 0x7FFF_FFFF && Possible(c.disk, e)
    modifies c
    ensures var m := old(Now(c));
            && Sound(m) && Now(c) == After(Of(c), m, e) && (c.Consistent() <==> !Breaks(Of(c), m, e))
            && (Breaks(Of(c), m, e) ==> StandsAfterBreak(c, m, e, reached))
    ensures LowTree(c.tree, n + 1)
    ensures old(c.TipIsHeaviest()) ==> c.Consistent() && ((old(c.FCheckSigs()) ==> c.FCheckSigs()) ==> c.TipIsHeaviest())
  {
    hide ChainState.At, ChainState.Kernel, StakeOk, CompactBits, TrustSummed, TargetsRequired, Heaviest, OnDisk, LowTree, After, Breaks,
         StandsAfterBreak, Possible;
    reached := c.pindexBest;
    SoundNow(c);
    LowTreeMore(c.tree, n);
    match e {
      case Received(block, hashProof, nFile, nBlockPos) =>
        reached := Receive(c, block, hashProof, nFile, nBlockPos, n);
      case PoolChanged(mapTx) =>
        NothingHappens(Of(c), Now(c), e);
        c.SetPool(mapTx);
      case Asked(nHeight) =>
        NothingHappens(Of(c), Now(c), e);
        if nHeight <= c.nBestHeight {
          var pblockindex := c.FindBlockByHeight(nHeight);
        }
    }
  }

  // ------------------------------------------------------------------ runs

  /** The moment LoadBlockIndex has stored the genesis block. */
  ghost function Genesis(genesis: Block, nFile: nat, nBlockPos: nat): (m: Moment)
    requires genesis.nBits < 0x1_0000_0000
    ensures Sound(m)
  {
    hide BlockTrust;
    Moment(Tree(genesis.hash, map[genesis.hash := BlockIndex(None, 0, nFile, nBlockPos, BlockTrust(genesis.nBits), genesis)]), genesis.hash)
  }

  /** One event of a run. */
  method Step(c: ChainState, ghost start: Moment, events: seq<Event>, n: nat) returns (fFell: bool)
    requires Sound(start) && n < |events| && n < 0x7FFF_FFFF && Possible(c.disk, events[n])
    requires c.Consistent() && c.TipIsHeaviest() && LowTree(c.tree, n) && Now(c) == Play(Of(c), start, events[..n])
    modifies c
    ensures c.Consistent() && LowTree(c.tree, n + 1) && Now(c) == Play(Of(c), start, events[..n + 1])
    ensures !Breaks(Of(c), Play(Of(c), start, events[..n]), events[n])
    ensures (fFell <==> Falls(Of(c), start, events, n)) && (!fFell ==> c.TipIsHeaviest())
  {
    hide OnDisk, HashesIdentify, Possible, ChainState.At, ChainState.Kernel, StakeOk, CompactBits, TrustSummed, TargetsRequired, Heaviest,
         Play, After, Breaks, Sound, SigsChecked, StandsAfterBreak, LowTree;
    var fChecked := c.FCheckSigs();
    SoundNow(c);
    ghost var reached := Handle(c, events[n], n);
    SoundNow(c);
    PlayOneMore(Of(c), start, events, n);
    return fChecked && !c.FCheckSigs();
  }

  /** A run from the genesis block on. The tree and the tip are what the events make of them, and as long as signatures, once
      checked, keep being checked, no event breaks the state and the best block is the heaviest one whose branch connects. The
      run ends after the first event that ends that, if there is one: it takes a reorganisation to a shorter branch, below the
      checkpoint estimate. */
  method Run(rules: BlockRules, limit: bool -> nat, checkpoints: map<nat, Hash>, contextOk: Block -> bool, disk: Disk,
             hash: (Hash, nat) -> nat, genesis: Block, hashProof: Hash, nFile: nat, nBlockPos: nat, events: seq<Event>)
    returns (c: ChainState, nHandled: nat, fSteady: bool)
    requires HashesIdentify(disk) && genesis.nBits < 0x1_0000_0000 && |events| < 0x7FFF_FFFF
    requires forall e :: e in events ==> Possible(disk, e)
    ensures fresh(c) && Of(c) == Settings(rules, limit, checkpoints, contextOk, disk) && c.Consistent()
    ensures nHandled <= |events| && Now(c) == Play(Of(c), Genesis(genesis, nFile, nBlockPos), events[..nHandled])
    ensures forall i :: 0 <= i < nHandled ==> !Breaks(Of(c), Play(Of(c), Genesis(genesis, nFile, nBlockPos), events[..i]), events[i])
    ensures fSteady ==> nHandled == |events| && c.TipIsHeaviest()
    ensures fSteady ==> forall i :: 0 <= i < |events| ==> !Falls(Of(c), Genesis(genesis, nFile, nBlockPos), events, i)
    ensures !fSteady ==> nHandled > 0 && Falls(Of(c), Genesis(genesis, nFile, nBlockPos), events, nHandled - 1)
                         && forall i :: 0 <= i < nHandled - 1 ==> !Falls(Of(c), Genesis(genesis, nFile, nBlockPos), events, i)
    ensures rules.tx.nBlocksEstimate == 0 ==> fSteady
  {
    hide *;
    c := new ChainState(rules, limit, checkpoints, contextOk, disk, hash, genesis, hashProof, nFile, nBlockPos);
    ghost var s, start := Of(c), Genesis(genesis, nFile, nBlockPos);
    AtStart(c, genesis, nFile, nBlockPos);
    PlayNothing(s, start, events);
    fSteady := true;
    nHandled := 0;
    while nHandled < |events|
      invariant nHandled <= |events| && fresh(c) && Of(c) == s
      invariant c.Consistent() && c.TipIsHeaviest() && LowTree(c.tree, nHandled)
      invariant Now(c) == Play(s, start, events[..nHandled])
      invariant forall i :: 0 <= i < nHandled ==> !Falls(s, start, events, i)
      invariant forall i :: 0 <= i < nHandled ==> !Breaks(s, Play(s, start, events[..i]), events[i])
    {
      var fFell := Step(c, start, events, nHandled);
      nHandled := nHandled + 1;
      if fFell {
        FallsBelowEstimate(s, start, events, nHandled - 1);
        return c, nHandled, false;
      }
    }
  }

  lemma AtStart(c: ChainState, genesis: Block, nFile: nat, nBlockPos: nat)
    requires genesis.nBits < 0x1_0000_0000 && c.pindexBest == genesis.hash
    requires c.tree == Tree(genesis.hash, map[genesis.hash := BlockIndex(None, 0, nFile, nBlockPos, BlockTrust(genesis.nBits), genesis)])
    ensures Now(c) == Genesis(genesis, nFile, nBlockPos) && LowTree(c.tree, 0)
    ensures Of(c) == Settings(c.rules, c.limit, c.checkpoints, c.contextOk, c.disk)
  {
  }
}
