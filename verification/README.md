# Beancash node: chain state, address manager, miner, kernel and codecs

This project models the parts of the Beancash node in which state, undo and arithmetic interact, and proves what they
keep over every input, every step and every run.

- **Chain state** (`src/main.cpp`, `src/main.h`). The block tree with its trust and heights; the transaction index, in
  which every output has a slot that is null until a transaction spends it; connecting and disconnecting blocks;
  reorganisation with its postponed second phase; the `pnext` links; the money supply. The reference is `ReplayIndex`:
  the index that connecting every block of a branch in order produces. Modules `BranchLaws`, `Ledger` and `BlockLedger`
  say without any index what connecting accepts and guarantees: by blocks, heights, txids and amounts. Class `ChainState` holds the global variables of
  the program as fields. Its predicate `Consistent()` says that index, links, supplies, heights and trust are those of
  the best branch, and every operation keeps it.
- **Memory pool and mining** (`src/main.cpp`, `src/miner.cpp`). `mapTx` and its inverse `mapNextTx`, recursive removal,
  and the scheduler of `CreateNewBlock`.
- **Address manager** (`src/addrman.cpp`, `src/addrman.h`). Five redundant indexes as the fields of class `CAddrMan`,
  their invariant, how it relates to the authors' own `Check_`, and the file format that drops and rebuilds most of it.
- **Proof of bean and targets** (`src/kernel.cpp`, `src/bignum.h`, `src/main.cpp`). The choice of the 64 blocks behind a
  stake modifier; compact targets, retargeting and chain trust.
- **Merkle trees, locators, message framing, Base58** (`src/main.h`, `src/main.cpp`, `src/net.cpp`, `src/base58.h`).

Functions of the program that change state or loop are methods here, proved against specification functions; the
properties are lemmas about those functions. Hashes are opaque values, signatures, scripts, bucket hashes, clocks,
random draws and the block files are parameters, and each operation is one atomic step under its lock.

Five things the code does that its names or comments do not suggest:

- When a postponed block fails to connect, `SetBestChain` still moves the tip and returns true
  (`src/main.cpp:1937-1953`). The contract of `ChainState.SetBestChain` says exactly when: the blocks up to the
  intermediate one connect and one of the later ones does not. That cannot happen while the tip is the heaviest block
  that could be one (`TipChoice.NothingPostponed`), and in every run the tip stays that as long as signatures, once
  checked, keep being checked (`ChainRun.Run`). `FailedSwitch.FailingRun` is a run, on the main network's target limit and
  for any checkpoint height up to 9998, in which they are not. Nine proof-of-work blocks that came a second apart, on a
  block ten below the checkpoint, carry more trust than the ten on-time blocks they replace, and bring the height below
  the checkpoint estimate. A block refused before for a bad signature is then connected when it is extended.
- The supply schedule bounds a proof-of-work block only as long as the beanstakes in it mint no more than the reward
  its beanbase leaves unclaimed: `CheckBlock` looks for further beanstakes in proof-of-bean blocks only
  (`src/main.cpp:2166-2180`). `MoneySupply.ProofOfWorkMintBound` is the exact condition, and
  `Witness.StrayStakeExceedsCap` a branch that connects and exceeds the schedule.
- `SelectTried` returns the slot an entry came from, after it has swapped the entry elsewhere (`src/addrman.cpp:121-131`):
  the entry replaced is the least recently successful one it looked at exactly when the draw that first met such an
  entry drew it from its own slot (`AddrEviction.OldestLeavesIff`). `AddrEviction.ReplacesNewer` is a full bucket of a
  consistent manager that loses a newer one.
- `Check_` does not notice a tried entry in the wrong bucket. `AddrExact.CheckIsInvariant` says exactly what it leaves
  open, and `AddrReloadIff.PassedReloadsIff` for which tables that matters when they are saved.
- The reader of the address file rebuilds the new buckets when their number has changed, without looking at their size
  (`src/addrman.h:334-338`). `AddrRebuild.RebuiltIsConsistentIff` says when the result is consistent, and
  `AddrRebuild.RebuiltMayOverfill` is a consistent manager for which it is not.

## Model

| member | source | states |
|---|---|---|
| Transactions.CheckTransaction | src/main.cpp:606-656 | accepts exactly the well-formed transactions: every amount and the whole sum in money range, inputs pairwise distinct, beanbase script size or non-null inputs |
| Transactions.MinFeeIs | src/main.cpp:658-686 | one base fee for each thousand bytes begun, within money range, as long as the block stays below half its size; at least twice that beyond, and all the money there is once it would be full |
| Transactions.MinFeeGrows | src/main.cpp:658-686 | a fuller block never asks a transaction for less |
| BlockTree.ForkIsLowestCommonAncestor | src/main.cpp:1771-1783 | where the two walks meet is the lowest common ancestor of the two tips |
| BlockTree.FindFork | src/main.cpp:1771-1783 | the search ends at that fork, and neither "pprev is null" error can occur |
| TxInputs.FetchInputs | src/main.cpp:1343-1412 | succeeds exactly when every previous transaction is found through pool, index or disk and has the wanted output; fInvalid exactly when all are found and one lacks it |
| TxInputs.CheckMature | src/main.cpp:1478-1481 | the walk finds the position exactly when it lies in an ancestor less than the maturity depth below the block |
| TxInputs.SpendInputs | src/main.cpp:1496-1529 | the slots it marks as it goes reveal every double spend, inside the transaction too; on success exactly the spent slots are marked and the changed entries written back |
| TxInputs.ConnectInputs | src/main.cpp:1456-1553 | accepts exactly mature, in-range, unspent, distinct inputs with valid signatures and a sufficient fee, and marks exactly those outpoints |
| BlockConnection.CountTxids | src/main.cpp:2212-2218 | as many distinct txids as transactions means no txid repeats, and the other way round |
| BlockConnection.CheckBlock | src/main.cpp:2149-2233 | accepts exactly the blocks with one beanbase in front, the proof-of-bean layout, well-formed transactions no later than the block, distinct txids and few enough sigops |
| BlockConnection.ConnectBlock | src/main.cpp:1628-1765 | accepts exactly the blocks each of whose transactions is acceptable after those before it and whose reward is covered; then the index holds the whole block's effect and the supply moved by outputs less inputs; otherwise nothing is written |
| BlockUndo.DisconnectBlock | src/main.cpp:1604-1626 | releases inputs and erases entries from the last transaction to the first, and fails exactly when some input has no slot to release |
| BlockUndo.DisconnectAfterConnect | src/main.cpp:1604-1765 | after a connected block disconnecting cannot fail and gives the old index without the block's own txids, spends inside the block included |
| BlockUndo.UndoIsExactIff | src/main.cpp:1604-1765 | the index is restored exactly if and only if none of the block's txids was indexed before |
| BlockUndo.UndoRestoresUnspent | src/main.cpp:1649-1672 | the unspent outpoints are restored exactly even when a fully spent older txid was overwritten |
| MoneySupply.BlockConservesMoney | src/main.cpp:1689-1736 | the total of all unspent outputs moves by exactly what the block adds to nMoneySupply |
| MoneySupply.ProofOfStakeMintBound | src/main.cpp:1139-1148 | an accepted proof-of-bean block mints at most 1000 beans |
| MoneySupply.ProofOfWorkMintBound | src/main.cpp:1712-1720 | an accepted proof-of-work block stays within 100000 beans if and only if its beanstakes mint no more than the reward its beanbase leaves unclaimed |
| MoneySupply.BlockMintBound | src/main.cpp:1712-1736 | any accepted block mints at most its subsidy plus what beanstakes in proof-of-work blocks mint |
| BeanbaseHeight.HeightScriptPrefixFree | src/main.cpp:2299-2303 | one beanbase script cannot start with two different heights |
| BeanbaseHeight.HeightReadsBack | src/main.cpp:2299-2303 | the height can be read back from its script: one opcode up to 16, and beyond a length byte and the little-endian number |
| Replay.ReplayInvariant | src/main.cpp:1628-1765 | along every branch whose blocks connect: entries match the disk, indexed transactions have spent their inputs, and indexed beanbases carry a height of the branch |
| Replay.NoTxidRepeats | src/main.cpp:1653-1672 | no transaction of the next block of such a branch is indexed yet, though the code only rejects repeats that are not completely spent |
| Replay.DisconnectReplays | src/main.cpp:1799-1807 | disconnecting the last block of such a branch cannot fail and gives exactly its parent's index |
| Replay.SupplyIsTotalUnspent | src/main.cpp:1734-1736 | the recorded supply is the total of all unspent outputs |
| Replay.SupplyBound | src/main.cpp:1128-1148 | the supply at height h is at most 100000 beans a block up to 10000 and 1000 a block after, plus what beanstakes in proof-of-work blocks mint; nothing is added when there are none |
| Replay.ConnectExtends | src/main.cpp:1628-1765 | a block that connects makes a longer branch of the same kind |
| Replay.ConnectingIgnoresMempool | src/main.cpp:1343-1412 | whether ConnectBlock accepts a block, and what it mints, does not depend on the memory pool, though FetchInputs can look there |
| Replay.SignaturesOnlyRefuse | src/main.cpp:1517-1526 | a block that connects with its signatures checked connects without |
| Replay.ConnectsStable | src/main.cpp:1628-1765 | whether a block connects does not change when other blocks are indexed |
| BranchLaws.TxidHasOnePlace | src/main.cpp:1653-1672 | on a branch whose blocks connect every txid stands at one place only |
| BranchLaws.SpendsEarlierOutput | src/main.cpp:1343-1412 | every input of every transaction on such a branch names an output that an earlier transaction of the branch has |
| BranchLaws.SpendsMature | src/main.cpp:1478-1481 | an input that spends an output of a beanbase or beanstake stands at least the maturity above it in height |
| BranchLaws.ImmatureByHeight | src/main.cpp:1478-1481 | when the blocks have places of their own in the files the walk refuses exactly the outputs that stand less than the maturity below |
| BranchLaws.SpendsInTime | src/main.cpp:1483-1485 | no transaction is earlier than one whose output it spends, or later than its block |
| BranchLaws.SpentOnce | src/main.cpp:1506-1507 | no two inputs on such a branch name the same output |
| BranchLaws.SpendsSigned | src/main.cpp:1517-1526 | in a block that connects with its signatures checked every input has a valid one for the output it spends |
| BranchLaws.PaysBaseFees | src/main.cpp:1532-1549 | the outputs a transaction spends are worth more than its own by at least a base fee for each thousand bytes begun, beanbases and beanstakes aside |
| BranchLaws.OutputWithinSupply | src/main.cpp:1734-1736 | on such a branch no unspent output is worth less than nothing or more than the recorded supply |
| Ledger.UnspentIff | src/main.cpp:1496-1529 | the null slots of the index are exactly the outputs of transactions of the branch that no transaction of the branch spends |
| Ledger.AcceptedIff | src/main.cpp:1343-1553 | ConnectBlock accepts a transaction exactly when each input names an output below that nobody has spent, mature by height, no later, in range and signed for, the inputs are distinct, their worth is in range and the fee is paid; told without the index |
| BlockLedger.NextIsNew | src/main.cpp:1653-1672 | the search for an older transaction with the same txid finds none when the rest is in order |
| BlockLedger.ConnectsIff | src/main.cpp:1628-1765 | on such a branch a block connects exactly when it is in order by itself and the branch below allows it: each transaction as above after those before it, the signature operations of all transactions and of the scripts they uncover within the limit, and its maker taking no more than subsidy and fees; told without the index and without running totals |
| TipChoice.AdoptableIs | src/main.cpp:1767-1848 | every block of a branch that is not on the best branch connects, exactly if all blocks above the fork do |
| TipChoice.IntermediateIs | src/main.cpp:1912-1924 | the block the first phase stops at is heavier than the best one and its parent is not; it has the same fork with the best branch as the new tip |
| TipChoice.NothingPostponed | src/main.cpp:1912-1953 | when the best block was the heaviest that could be one, the first phase succeeds only if it ends at the new block itself: no postponed block can fail |
| TipChoice.StaysHeaviest | src/main.cpp:2133-2136 | indexing a block and moving the tip keeps the best block the heaviest one whose branch connects, unless the checks have become weaker |
| MainChain.InMainChainIffAncestor | src/main.h:1209-1212 | with links that trace the best branch, IsInMainChain holds exactly for the tip and its ancestors |
| MainChain.DisconnectPath | src/main.cpp:1799-1807 | disconnecting from the tip down to the fork cannot fail and arrives at the fork's replayed index |
| MainChain.ConnectPath | src/main.cpp:1815-1832 | connecting up from the fork succeeds exactly when every block connects on its parent, and arrives at the new tip's replayed index and supplies |
| MainChain.UnlinkPath | src/main.cpp:1840-1843 | the links of the old branch become those of the fork |
| MainChain.LinkPath | src/main.cpp:1845-1848 | and then those of the new branch |
| ChainStateMachine.ChainState.constructor | src/main.cpp:1898-1904 | genesis alone is a consistent state with nothing indexed, and the heaviest tip |
| ChainStateMachine.ChainState.SetBestChainInner | src/main.cpp:1867-1889 | connects one block in its own transaction: index, links and supplies then stand at it, or nothing has changed |
| ChainStateMachine.ChainState.Reorganize | src/main.cpp:1767-1848 | succeeds exactly when every block above the fork connects, and then everything stands at the new tip; otherwise index and links are untouched |
| ChainStateMachine.ChainState.ListPostponed | src/main.cpp:1912-1924 | finds the intermediate block, strictly above the fork, and with the postponed ones the path from it to the new tip |
| ChainStateMachine.ChainState.ConnectPostponed | src/main.cpp:1937-1953 | connects all postponed blocks exactly when all connect, else stands at the last one that did, whose successor does not connect |
| ChainStateMachine.ChainState.SetBestChain | src/main.cpp:1891-1970 | returns true if and only if the blocks up to the intermediate one connect; leaves a consistent state if and only if it fails or all blocks above the fork connect; when a postponed one does not, the tip has moved but index and links stand at the last block that connects; returning false it has changed neither index, links nor tip |
| ChainStateMachine.ChainState.InsertBlock | src/main.cpp:2080-2122 | inserts the CBlockIndex with its entropy bit and the stake modifier its ancestors determine, which can always be computed, records the stake, and keeps the state consistent |
| ChainStateMachine.ChainState.AddToBlockIndex | src/main.cpp:2078-2144 | the tip moves to the new block exactly when it is heavier and the blocks up to the intermediate one connect; the state is then consistent exactly when all do; from a heaviest tip it always is, and the tip is heaviest again unless signatures are no longer checked |
| BlockTime.MedianTimePast | src/main.h:1226-1238 | the loop and the sort give the time of one of the last eleven blocks of the branch, or of all n when there are fewer, such that at most n/2 of them are earlier and at most n - 1 - n/2 later |
| BlockTime.MedianIsMiddle | src/main.h:1226-1238 | the specified median is such a time, counted over the blocks |
| BlockTime.AfterMedianIff | src/main.cpp:2260-2262 | a time is after the median exactly when it is later than more than half of those blocks |
| BlockTime.LaterIsOk | src/main.cpp:2260-2262 | a block later than every block below it passes both tests of its time |
| ChainStateMachine.CheckAccept | src/main.cpp:2236-2303 | accepts exactly new blocks on a known parent with the required target, an allowed kind for their height, a time after the median of the last eleven and not ten minutes before the parent's, the checkpoint's hash at the height of one, and the height in the beanbase |
| ChainStateMachine.ChainState.AcceptBlock | src/main.cpp:2236-2329 | indexes exactly the blocks that may be; then the tip moves as AddToBlockIndex says, which also gives where index and links stand when the second phase stops early; a refused block changes nothing, a failure leaves index, links and tip as they were |
| ChainRun.Handle | src/main.cpp:1891-2329 | one received block, memory pool change or height query: tree and tip become what the event makes of them, and the state stays consistent unless the event breaks it: it moves the tip to a block above the fork of which one does not connect; index and links then stand where the second phase stopped |
| ChainRun.Run | src/main.cpp:1891-2329 | after any sequence of such events from genesis on, tree and tip are the fold of the events; as long as signatures, once checked, keep being checked, no event breaks the state and the best block is the heaviest one whose branch connects; the run ends early exactly after the first event at which they stop being checked, which never happens without a checkpoint estimate |
| ChainRun.TreeIsReceived | src/main.cpp:2236-2329 | the block tree of a run is the one it started with and exactly those received blocks that passed CheckBlock and could be indexed when they came |
| ChainRun.StaysInPlace | src/main.cpp:2078-2122 | an indexed block keeps the parent, height and trust it was given, to the end of the run |
| ChainRun.RunKeepsTimes | src/main.cpp:2260-2272 | in every run each block that came in is later than more than half of the last eleven below it and not ten minutes before its parent, and at the height of a checkpoint it is the checkpoint's block |
| FastTargets.RequiredFast | src/main.cpp:1198-1229 | the targets the code asks for in a row of nine blocks that come a second apart, starting at the main network's limit |
| FastTargets.NineBeatTen | src/main.cpp:2331-2340 | nine such blocks carry more trust than ten at the limit and less than eleven; eight do not carry more than ten |
| FailedSwitch.FailingRun | src/main.cpp:1912-1953 | for every checkpoint height from 11 to 9998, every maturity up to it and the main network's limit, a run of received proof-of-work blocks from genesis on, with the checkpoint enforced: every event but the last leaves the state consistent; the last makes its block the tip although it does not connect, and index and links stand at its parent |
| Witness.StrayStakeExceedsCap | src/main.cpp:2166-2180 | for every maturity a branch of proof-of-work blocks that all connect with their signatures checked, and whose supply exceeds the schedule of its height |
| ChainStateMachine.ChainState.FindBlockByHeight | src/main.cpp:1078-1094 | returns the best branch's block at that height, wherever the cached one was |
| ChainStateMachine.ChainState.MoneyIsConserved | src/main.cpp:1734-1736 | in every consistent state the tip's money supply is the total of all unspent outputs |
| ChainStateMachine.ChainState.OutputsWithinSupply | src/main.cpp:1734-1736 | in every consistent state no unspent output is worth less than nothing or more than the tip's money supply |
| ChainStateMachine.ChainState.SupplyIsBounded | src/main.cpp:1128-1148 | in every consistent state the tip's money supply keeps the cap of its height, up to what beanstakes in proof-of-work blocks mint |
| ChainStateMachine.ChainState.MainChainIsBestBranch | src/main.h:1209-1212 | in every consistent state IsInMainChain holds exactly for the best block and its ancestors |
| ChainStateMachine.ChainState.SpendsAreMature | src/main.cpp:1478-1481 | in every consistent state the best branch spends beanbases and beanstakes only as deep as the maturity asks |
| ChainStateMachine.ChainState.NothingIsSpentTwice | src/main.cpp:1506-1507 | in every consistent state no two inputs on the best branch name the same output |
| Targets.GetLastBlockIndex | src/main.cpp:1181-1186 | the highest block of the wanted kind among the block and its ancestors, or genesis when there is none |
| Targets.GetNextTargetRequired | src/main.cpp:1198-1229 | the required compact target of the next block, as the next three rows have it |
| Targets.TargetFollowsLastTwo | src/main.cpp:1206-1229 | with p and q the last two blocks of the kind above genesis, the target is that of p times (59 minutes and twice the time from q to p) by 61 minutes, one minute if that time is negative, within the limit |
| Targets.TargetOfFirst | src/main.cpp:1203-1211 | with at most one block of the kind above genesis it is the limit |
| Targets.OneOrTwo | src/main.cpp:1206-1211 | one of these two cases always holds, and not both |
| Targets.RequiredTargetInRange | src/main.cpp:1225-1228 | every required nBits decodes to a positive target no easier than the limit |
| Targets.OnTimeKeepsTarget | src/main.cpp:1213-1228 | blocks one spacing apart leave a canonical nBits unchanged |
| Targets.RetargetFloor | src/main.cpp:1222-1223 | one retarget before encoding keeps at least 59/61 of the old target |
| Targets.TrustPositive | src/main.cpp:2331-2340 | a target in range gives positive trust that fits in 256 bits |
| Targets.ChainTrustIncreases | src/main.cpp:2097-2098 | chain trust strictly increases from any ancestor to its descendant |
| BigNum.GetSetVch | src/bignum.h:295-320 | reading back the bytes of any integer gives the integer |
| BigNum.CompactTruncates | src/bignum.h:322-345 | decoding a compact form gives the number with all but its three top bytes zeroed |
| BigNum.CompactLoss | src/bignum.h:322-345 | which loses less than one part in 2^15 and never reaches zero |
| BigNum.CompactIdempotent | src/bignum.h:322-345 | encoding what was decoded gives the same compact form |
| BigNum.CompactMonotone | src/bignum.h:322-345 | decoding keeps the order of numbers |
| Locator.Set | src/main.cpp:237-252 | pushes the hashes at the doubling offsets and then genesis |
| Locator.LocatorIsShort | src/main.cpp:237-252 | a locator for height h has at most 13 + log2(h + 1) entries |
| Locator.GetBlockIndex | src/main.cpp:275-289 | the first entry that names a main-chain block, or genesis |
| Locator.LocatorFindsNearFork | src/main.cpp:237-289 | with d blocks off the main chain it leads to a main-chain ancestor at most max(d, 2d - 11) down, or to genesis |
| Mempool.OneSpender | src/main.cpp:845-856 | while mapNextTx is the inverse of the pooled inputs no outpoint has two pooled spenders |
| TxMemPool.CTxMemPool.AddUnchecked | src/main.cpp:845-856 | adding a transaction without conflicts keeps the two maps inverse |
| TxMemPool.CTxMemPool.Accept | src/main.cpp:689-833 | accepts exactly the well-formed, standard, new, non-conflicting transactions whose inputs check out, and otherwise changes nothing; fMissingInputs exactly when all but the inputs is in order and one is not found |
| TxMemPool.CheckPoolInputs | src/main.cpp:753-816 | what accept asks of the inputs, and that fMissingInputs means a previous transaction was not found |
| TxMemPool.PooledPays | src/main.cpp:776-782 | a pooled transaction pays a base fee for each thousand bytes begun, and at least twice that when it takes half the size that is generated |
| TxMemPool.CTxMemPool.Remove | src/main.cpp:859-880 | terminates and removes exactly the transaction, or with fRecursive exactly it and its transitive pooled spenders |
| TxMemPool.CTxMemPool.RemoveConflicts | src/main.cpp:883-896 | removes exactly the other spenders of the transaction's inputs and their descendants, and leaves no other spender |
| Assembly.ParentsComeFirst | src/miner.cpp:264-356 | in an assembled list every input is in the chain or names an earlier transaction of the list |
| Assembly.FullBlocksCostMore | src/miner.cpp:286-314 | each listed transaction pays a base fee for each thousand bytes begun, and at least twice that when it takes the block past half the size that is generated |
| Template.ListedAreNew | src/miner.cpp:306-324 | no transaction of an assembled list is indexed already, although CreateNewBlock does not test it |
| Template.NoDoubleSpendInList | src/miner.cpp:306-324 | no outpoint is spent twice in an assembled list |
| Miner.PopBest | src/miner.cpp:89-108 | by fee, the entry taken has the greatest fee rate in the queue and among those the greatest priority; otherwise the greatest priority and among those the greatest fee rate; the others stay |
| Miner.ScanInputs | src/miner.cpp:196-229 | finds the unconfirmed parents, or that an input is in neither chain nor pool |
| Miner.FillQueue | src/miner.cpp:179-254 | the queue starts with exactly the candidates without unconfirmed parents, the others wait for exactly theirs; final transactions with a missing input are no candidates |
| Miner.Tell | src/miner.cpp:339-356 | a waiting transaction joins the queue, once, exactly when its last missing parent is in the block |
| Miner.TryConnect | src/miner.cpp:305-324 | succeeds exactly when the transaction is spendable after those already taken, with enough fee and within the sigop limit; the tentative spends are kept only then |
| Miner.CreateNewBlock | src/miner.cpp:173-367 | runs in turns: each goes to one that no other in line exceeds under the order in force, the order switches to fees where the source says, the transaction joins the block exactly when it passes every test at that turn, and nobody in line is left over; the list is spendable in order, without repeats, within the size and sigop limits, with nFees what it pays |
| Miner.TurnGoesToGreatest | src/miner.cpp:89-108 | the candidate that has a turn has among all in line the greatest fee rate, then priority, while fees count, and before that the greatest priority, then fee rate |
| Miner.FeesCountIff | src/miner.cpp:294-303 | fees count from the start when no part of the block is set aside for priority, and otherwise from the first transaction within the limits that would reach the end of that part or has too low a priority |
| Miner.CheapJoinsSmallBlock | src/miner.cpp:289-292 | while fees count, one of too low a rate joins only while the block stays below the minimum size |
| Miner.LeftOutFailed | src/miner.cpp:265-324 | a candidate whose parents are all in the block and which is not in it failed a test at its own turn, in the order then in force |
| Miner.PoppedIsNext | src/miner.cpp:89-108 | what the heap yields is one that no other in line exceeds |
| Template.MinedConnects | src/main.cpp:1628-1765 | ConnectBlock accepts a block of a beanbase and the assembled list exactly when the beanbase takes no more than the subsidy and the fees the miner counted |
| Template.MinedBecomesTip | src/miner.cpp:358-367 | mined on a consistent tip such a block could become the next one exactly then, in one step |
| StakeModifier.SelectBlockFromCandidates | src/kernel.cpp:78-118 | picks the first least selection hash among unselected candidates up to the stop time, or the first unselected one; fails exactly when all are selected |
| StakeModifier.PickIsUnique | src/kernel.cpp:78-118 | which determines the pick |
| StakeModifier.PickFavoursStake | src/kernel.cpp:102-106 | a proof-of-work block is picked while a proof-of-bean one could be only if the latter's hash is at least 2^32 times its own; within one kind the smaller hash wins, of proof-of-bean blocks by all but the last 32 bits |
| StakeModifier.SectionsGrow | src/kernel.cpp:60-64 | later sections of the selection interval are never shorter; the first is a third of the modifier interval and the last all of it |
| StakeModifier.GetLastStakeModifier | src/kernel.cpp:46-58 | the modifier and time of the nearest block upward that generated one |
| StakeModifier.LastGeneratedIs | src/kernel.cpp:46-58 | that block is the highest one of the branch that generated a modifier |
| StakeModifier.SomeLeft | src/kernel.cpp:173-179 | with distinct candidates "unable to select block" cannot occur |
| StakeModifier.PicksAreDistinct | src/kernel.cpp:173-183 | no block is picked twice |
| StakeModifier.ModifierBits | src/kernel.cpp:180-181 | bit r is the entropy bit of the block picked in round r and there are no higher bits |
| StakeModifier.RunRounds | src/kernel.cpp:169-187 | the rounds never fail, and each picks up to its own stop time among what the earlier ones left |
| StakeModifier.ComputeNextStakeModifier | src/kernel.cpp:133-217 | when a new modifier is due it is made from the sorted window in min(64, n) such rounds; otherwise the last one stands |
| StakeModifier.WindowIs | src/kernel.cpp:157-164 | the window holds exactly the ancestors from which on no block of the branch is before the start of the interval |
| StakeModifier.SortedIs | src/kernel.cpp:166-167 | sorted is by time, and at the same time by hash |
| StakeModifier.ModifierIsDetermined | src/kernel.cpp:133-217 | the chain determines the modifier |
| Merkle.BuildMerkleTree | src/main.h:933-950 | the flat list is all levels one after the other and ends in the root |
| Merkle.GetMerkleBranch | src/main.h:952-966 | the branch read off the flat list is the siblings of the leaf's path |
| Merkle.CheckMerkleBranch | src/main.h:968-981 | folds the branch over the hash by the bits of the index, negative ones too; index -1 gives zero |
| Merkle.BranchLeadsToRoot | src/main.h:952-981 | every leaf's branch leads to the root, for every number of leaves |
| Merkle.BuildAndCheck | src/main.h:933-981 | the three functions together: checking a leaf's branch gives the root that was built |
| Merkle.BranchProvesLeaf | src/main.h:968-981 | with an injective pair hash a branch of that length which leads to the root proves the leaf |
| Merkle.SameRootSameLeaves | src/main.h:933-950 | with an injective pair hash lists of the same length with the same root are equal |
| Merkle.RepeatedLeafKeepsRoot | src/main.h:941-946 | lists of different length can have the same root: repeating the last of an odd number of leaves keeps it |
| AddrTried.SelectTriedIsSlot | src/addrman.cpp:113-135 | SelectTried permutes the bucket and returns one of its slots; no entry it looked at is older than the oldest it saw |
| AddrEviction.SelectTriedIs | src/addrman.cpp:113-135 | the slot is the one that the first least recently successful of the drawn entries was drawn from, whatever the draws |
| AddrEviction.ReturnsOldestIff | src/addrman.cpp:121-131 | that entry is in the slot exactly when its round drew 0 |
| AddrEviction.OneLeaves | src/addrman.cpp:207-246 | promoting an entry into a full tried bucket takes exactly the entry in the returned slot out of the tried tables |
| AddrEviction.OldestLeavesIff | src/addrman.cpp:207-246 | which is the least recently successful one looked at exactly when its round drew 0 |
| AddrEviction.NewerMayLeave | src/addrman.cpp:121-131 | in every full bucket with an entry older than its first four there are draws for which that entry is looked at and a newer one leaves |
| AddrEviction.ReplacesNewer | src/addrman.cpp:121-131 | a full bucket of a consistent manager with draws for which that happens |
| AddrOps.VictimExists | src/addrman.cpp:137-189 | ShrinkNew always finds an entry to drop |
| AddrOps.VictimIsOldestOfFour | src/addrman.cpp:137-189 | which is the first deletable entry of the bucket, or when there is none an entry at one of the four places drawn, with no older one at any of these |
| AddrOps.BucketIsFound | src/addrman.cpp:275-291 | the "no bucket found" bail-out of Good_ is unreachable |
| AddrOps.NewEntersBucket | src/addrman.cpp:337-354 | a new entry is in the bucket of its address and source and in no other, untried, once referenced, with the announced services and the announced time less the penalty, never below zero |
| AddrOps.MakeTriedKeeps | src/addrman.cpp:191-247 | moving an entry to the tried tables keeps the invariant, whether its bucket is full or not |
| AddrOps.MarkGoodKeeps | src/addrman.cpp:249-297 | after Good_ the entry is in the tried tables with its times set and its attempts forgotten, otherwise as it was but for its reference count, and the invariant holds |
| AddrOps.RefreshedMovesForward | src/addrman.cpp:308-317 | a known entry gains the announced services, its time never goes back, and it moves only by more than an hour, for an address last seen more than a day ago more than a day |
| AddrOps.KnownGainsReference | src/addrman.cpp:319-354 | a known entry enters the bucket of its address and the announcing source when the announced time is newer than its own, it is not tried, it has fewer than four references and the draw among 2^n is zero; otherwise no bucket changes |
| AddrOps.StepKeeps | src/addrman.cpp:249-512 | every operation keeps the invariant |
| AddrOps.Run | src/addrman.cpp:249-512 | so does every sequence of operations from the empty manager |
| AddrManager.CAddrMan.Create | src/addrman.cpp:81-91 | the new entry is entered in mapInfo, mapAddr and vRandom under the next id |
| AddrManager.CAddrMan.SwapRandom | src/addrman.cpp:93-111 | two places of vRandom and the positions of their entries are exchanged together |
| AddrManager.CAddrMan.SelectTried | src/addrman.cpp:113-135 | the shuffle and the returned slot, for any draws |
| AddrManager.CAddrMan.ShrinkNew | src/addrman.cpp:137-189 | drops the first deletable entry, else the oldest of the drawn ones, and deletes it with its last reference; zero is returned exactly when some entry was deletable |
| AddrManager.CAddrMan.MakeTried | src/addrman.cpp:191-247 | the loops over the new buckets and the exchange with a full tried bucket give the specified tables |
| AddrManager.CAddrMan.Good | src/addrman.cpp:249-297 | keeps the invariant and leaves the entry tried |
| AddrManager.CAddrMan.Add | src/addrman.cpp:299-355 | keeps the invariant, inside ShrinkNew too, and reports exactly routable new addresses |
| AddrManager.CAddrMan.Attempt | src/addrman.cpp:357-374 | keeps the invariant and changes only the statistics of the exact entry |
| AddrManager.CAddrMan.Connected | src/addrman.cpp:494-512 | keeps the invariant and changes only the time of the exact entry |
| AddrManager.CAddrMan.GetAddr | src/addrman.cpp:478-492 | hands out the addresses, with services and times, of the entries now in front of vRandom, as many as the share allows; nothing but the order of the entries has changed, and the invariant is kept |
| AddrManager.CAddrMan.Check | src/addrman.cpp:419-475 | returns zero exactly for the tables that pass, and always in a consistent manager, which it leaves as it was |
| AddrCheck.InvPasses | src/addrman.cpp:419-475 | the invariant makes Check_ return zero |
| AddrExact.CheckIsInvariant | src/addrman.cpp:419-475 | a table satisfies the invariant if and only if Check_ returns zero and what Check_ does not look at is in order: bucket numbers and sizes, the bucket of each tried entry, unused ids and addresses |
| AddrManager.CAddrMan.Write | src/addrman.h:281-323 | the three loops write the saved form of any tables: entries in order of their ids, as many as the counts allow, and the positions of those written |
| AddrManager.CAddrMan.Read | src/addrman.h:325-379 | the loops that clear and refill all tables compute the loaded form, rebuilt buckets and dangling positions included |
| AddrManager.CAddrMan.Reload | src/addrman.h:248-380 | writing one manager and reading it into another gives a consistent manager with the same entries |
| AddrRoundTrip.SavedTablesReload | src/addrman.h:248-380 | a consistent table reloads to itself up to a renaming of ids, the order of vRandom and tried buckets, and nLastTry; reference counts and buckets are the same and nothing is lost |
| AddrReloadIff.PassedReloadsIff | src/addrman.h:248-380 | a table that passes Check_ and has the usual number of buckets reloads faithfully if and only if every tried entry is in the bucket of its address and no tried bucket is too large; then the result passes Check_ |
| AddrReloadIff.MisplacedPasses | src/addrman.h:341-360 | a single tried entry in any wrong bucket passes Check_ and does not reload faithfully |
| AddrRebuild.ReloadRebuilds | src/addrman.h:325-379 | a file with another number of new buckets reloads to the same table, up to renaming, with every new entry in the bucket of its own source and only there; nothing is lost |
| AddrRebuild.RebuiltIsConsistentIff | src/addrman.h:325-379 | the result always passes Check_, and is consistent if and only if no more new entries share a bucket than it may hold |
| AddrRebuild.RebuiltMayOverfill | src/addrman.h:334-338 | a consistent manager, as repeated additions of one address leave it, whose file, written without buckets, comes back inconsistent |
| Framing.FeedChunks | src/net.cpp:522-551 | feeding a and then b gives the same outcome as feeding both at once |
| Framing.RefusalIsSticky | src/net.cpp:574-576 | after a refused header every further byte is refused and nothing changes |
| Framing.FailureIsRefusal | src/net.cpp:540-541 | failure means the last message has a refused header |
| Framing.StreamIsReceived | src/net.cpp:522-598 | the bytes of any list of whole messages are received as exactly those messages |
| Framing.SizeIsLittleEndian | src/protocol.h:40 | the announced size is the little-endian number in bytes 16 to 19 of the header |
| Framing.SentArrives | src/net.cpp:522-598 | what a sender builds of start bytes, command, four length bytes, checksum and up to the limit of data, any number of times, arrives as exactly those messages, all complete |
| Framing.TooMuchIsRefused | src/net.cpp:574-576 | after any messages a header that announces more than the limit is refused, and nothing after it is read |
| NetNode.CNetMessage.ReadHeader | src/net.cpp:553-582 | takes what the header lacks, at least one byte, and refuses exactly announced sizes above the limit |
| NetNode.CNetMessage.ReadData | src/net.cpp:584-598 | takes what the message lacks; what was received before stays |
| NetNode.CNetMessage.IsComplete | src/net.h:175-180 | a complete message has exactly its announced number of bytes in the buffer |
| NetNode.CNode.ReceiveMsgBytes | src/net.cpp:522-551 | block-wise parsing equals byte-wise feeding: same result, same complete messages, same partial message |
| Base58Digits.ConvertBack | src/base58.h:29-121 | changing the base and back changes no digit, leading zeros included |
| Base58.DecodeOfEncode | src/base58.h:29-121 | decoding an encoded byte string gives the bytes back |
| Base58.EncodeOfDecode | src/base58.h:29-121 | encoding what was decoded gives the text back, for every text over the alphabet |
| Base58.EncodeBase58 | src/base58.h:29-67 | the division loop computes that encoding, sign byte and leading zeros included |
| Base58.DecodeBase58 | src/base58.h:77-121 | accepts exactly alphabet characters between spaces, and then computes that decoding |

## Left out

- Sockets, RPC, wallet, notifications, logging, locks and threads: each operation is one atomic step.
- Input and output failures: ReadFromDisk, TxnBegin and TxnCommit succeed; block files are an append-only map, so their final content says what any read returns.
- ChainStateMachine.ChainState.AddToBlockIndex: its early returns when the block index cannot be written, which leave the block indexed without trying it as tip, are such failures.
- Script evaluation, signature checks, transaction finality, standardness, synchronised checkpoints and the proof-of-bean kernel: arbitrary predicates in the parameters.
- The block signature and header checks of CheckBlock: one predicate. The version, finality, synchronised checkpoint and kernel checks of AcceptBlock: another.
- ProcessBlock: orphan blocks, and its tests for a repeated stake and for too little work after a synchronised checkpoint.
- The fJustCheck mode of ConnectBlock, and transaction replacement in accept, which the source has disabled.
- 64-bit wrap-around of the per-block totals: each amount is in money range, the running sums are unbounded here.
- Heights are below 2^31 and nBits below 2^32, the widths of the source's fields.
- Transactions.GetMinFee: the dust clause, and the rate limiter of accept, are missing; the minimum fee never falls below one base fee, so neither can take effect.
- What Reorganize and SetBestChainInner do to the memory pool: the pool's own operations are modelled and the chain state allows any change to it, since no result depends on it.
- Genesis: its outputs are never indexed, because SetBestChain only records it; the money totals start at zero there.
- Select_ and GetChance of the address manager: floating point and only probably terminating.
- IsTerrible's thresholds and the bucket hashes: an arbitrary predicate and arbitrary functions into the buckets.
- AddrManager.CAddrMan.Read: a file that is cut short, has negative positions or more buckets than the reader is not modelled, nor is nKey, which stays that of the reader.
- AddrManager.CAddrMan.Write: ids are never negative.
- The order in which Check_ visits entries and with it which of its error codes is returned first.
- Miner.CreateNewBlock: the beanbase, the header fields and the setting clamps; priorities and fee rates are real numbers given by the configuration; the heap is any queue that yields a maximum.
- Miner.FillQueue: pools are left out for which the source is undefined: an output number beyond a pooled parent's outputs, or a missing input found after an unconfirmed one, where mapDependers keeps a pointer to a deleted entry.
- Template.MinedConnects: the header, the beanbase's own form, the count of transactions and the block's place in the files are assumed to be in order, and pooled transactions to be well-formed, as accept leaves them.
- TxMemPool.CTxMemPool.Remove: pooled transactions spend each other without cycles, which holds because an input names its transaction by hash; a transaction is removed under the content it was pooled with.
- StakeModifier: checksums, modifier checkpoints and the use of a modifier in the kernel hash; the selection hash is an arbitrary function.
- NetNode: message versions, timestamps and the checksum, which a later step checks.
- Base58: the check-summed forms, and text with NUL characters.
- Locator: GetDistanceBack.
- Service bits are sets; random draws are parameters.
