# A verified model of the ChessCoin node

ChessCoin is a proof-of-stake coin in the Bitcoin and PPCoin line. This project models the parts of
the node whose correctness rests on state kept consistent by hand, and proves what they are meant to
keep. Hashes, signatures, script evaluation and the clock are uninterpreted or are answers passed in;
random choices are nondeterministic choices in range; block pointers are block hashes.

The modules, each over the ones it needs:

- **Shared.** `Basics` (options, sequences, sets) and `Arithmetic` (products, quotients, powers).
- **Chain state.** `Ledger` (transactions, blocks, the spent-output index and what connecting and
  disconnecting a block do to it), `Inputs` (fetching and connecting a transaction's inputs),
  `Provenance` (why no transaction id is ever overwritten), `Supply` (the value of all unspent
  outputs), `BlockTree` and `Fork` (paths, forks, replaying a path), `TxDb` (committed index and
  pending batch), `Chain` (connecting and disconnecting one block) and `ChainState` (the node's best
  chain as an object; `PostponedFailure` is a run of it). The state invariant says: the committed index is the replay of every block
  after genesis up to the stored best hash; the forward links are exactly the path to the tip; the
  money supply of every main-chain block is the value of the outputs unspent at that block, and no
  proof-of-stake block minted more than the reward for its coin age. That
  ids are fresh is not assumed: it follows from the height at the front of every coinbase script and
  from the double-spend check.
- **Checkpoints.** Block acceptance and the sync-checkpoint protocol on top of `ChainState`, in STRICT
  mode; in every reachable state the sync-checkpoint is an ancestor of the best block, every block
  keeps the timestamp rule, and every block descends from the hardened checkpoints below it.
- **Block-tree algorithms.** `MedianTime`, `Locator`, `Merkle`, `StakeModifier` (with `Sorting`),
  `Compact` (difficulty targets and retargeting).
- **Address manager.** `AddrTables` (the six redundant tables as one value and what keeps them
  consistent), `AddrMan` (the operations), `AddrDisk` (writing and reading peers.dat), `AddrCheck`
  (the debugging check itself).
- **Check queue.** `CheckQueue`: worker threads and one master as interleaved atomic steps, with the
  lock-protected sections also given as methods of an object.
- **Memory pool and template.** `MemPool`, `Template`, and `TemplateConnects`, where the miner and the
  node's own rules meet.
- **Network and encodings.** `Framing`, `Base58`, `BigNum`.

What turned out to be false of the code, or true only under a condition, is stated as such:

- Disconnecting a block restores the index exactly if and only if none of its transaction ids was
  indexed before (`Ledger.DisconnectUndoesConnect`). On a real chain the condition always holds
  (`Provenance.ConnectedIdsAreFresh`).
- A `SetBestChain` that reports success leaves a consistent state if and only if every postponed block
  can be read, passes ConnectBlock on its own branch and can be committed, all of which is settled
  before the call (`ChainState.State.SetBestChain`). `PostponedFailure.PostponedBlockFails` is a run in
  which one does not.
- `Quit` can leave a worker asleep for ever if and only if the worker is still there and some check is
  queued or in another thread's batch (`CheckQueue.QuitStrandsExactly`; `CheckQueue.BusyQuitCanStrand`
  is a run).
- The limiter for free transactions in `AcceptToMemoryPool` never decides anything, because the
  minimum fee tested before it is at least the relay fee (`MemPool.MinFeeCoversRelay`).
- A Merkle root does not determine the list of leaves (`Merkle.RepeatedLeafSameRoot`,
  `Merkle.NodeAsLeaf`). If the hash has no collisions it does among lists of one length
  (`Merkle.RootDeterminesLeaves`), and among trees of one depth for lists without repetitions
  (`Merkle.RootDeterminesDistinctLeaves`), which is what the duplicate test of CheckBlock is for.
- A longer gap between blocks asks for no harder target if and only if the shorter one does not scale
  the target to nothing or the longer one gets the limit as well (`Compact.SlowerIsEasier`;
  `Compact.AtOnceIsEasiest` shows the failure).

## Model

| member | source | states |
|---|---|---|
| `BigNum.SetVchOfGetVch` | src/bignum.h:319-350 | setvch undoes getvch on every non-negative number, sign byte included |
| `BigNum.LeBytesOfLeValue` | src/bignum.h:319-350 | every byte vector without a zero at its top end is what its value is written as |
| `Ledger.TxKinds` | src/main.h:563-588 | a coinbase has the null outpoint as its one input, a coinstake a real first input and an empty first output; no transaction is both |
| `Ledger.CheckedExactly` | src/main.cpp:538-587 | a transaction passes exactly if it has inputs and outputs, no negative value, a total of at most all the money, no repeated or null outpoint and no empty output, as far as its kind allows: the tests of running totals amount to no more |
| `Ledger.UndoTxUndoes` | src/main.cpp:1259-1292 | undoing a transaction with a new id restores the index that it was applied to |
| `Ledger.DisconnectUndoesConnect` | src/main.cpp:1505-1527 | for every block that connects, disconnecting it gives back the index exactly when no id of the block was indexed before |
| `Ledger.SetAllSpentAt` | src/main.cpp:1447-1480 | marking outputs changes exactly the named slots and no position or length |
| `Inputs.FetchInputs` | src/main.cpp:1295-1364 | succeeds exactly when every input is found (proposed changes, index, pool as the mode allows) and names an existing output; fInvalid is set exactly when all are found but an output does not exist; the result holds exactly the named transactions, each as found; for a loose transaction every input is found exactly if each is indexed and readable, or not indexed and pooled, and a transaction taken from the pool has all its outputs unspent |
| `Inputs.LooseFound` | src/main.cpp:1311-1345 | outside a block a previous transaction is found exactly if it is indexed and readable, or not indexed and pooled, with the contents and spent outputs of the place it is found in |
| `Inputs.BlockFound` | src/main.cpp:1311-1345 | in a block or a template it is found exactly if it is among the proposed changes or else indexed, and readable; the pool alone is not enough |
| `Inputs.CheckInputs` | src/main.cpp:1419-1443 | accepts exactly when every input passes maturity, time and money-range tests, and returns their total |
| `Inputs.SpendOne` | src/main.cpp:1447-1480 | refuses exactly a spent output or a bad signature, and otherwise marks that output and nothing else |
| `Inputs.UsableMeans` | src/main.cpp:1447-1480 | checking and marking one input after the other accepts exactly distinct outputs that were all unspent |
| `Inputs.ConnectInputs` | src/main.cpp:1408-1502 | succeeds exactly on an acceptable transaction, and then the proposed changes hold exactly the marked records, or nothing new in the loose mode |
| `Inputs.ConnectedView` | src/main.cpp:1408-1502 | seen through the proposed changes, fetching and connecting marks the spent outputs in the index and nothing else |
| `Inputs.AcceptableIsSpendable` | src/main.cpp:1408-1502 | what passes ConnectInputs spends distinct outputs that are unspent in the index it was fetched from |
| `Provenance.HeightPrefixUnique` | src/main.cpp:2214-2218 | two heights whose pushes both start one coinbase script are the same height |
| `Provenance.HeightReadsBack` | src/script.h:316-328 | read back as an opcode or as a length and little-endian bytes, the push of a height is the height, without a sign and in as few bytes as possible |
| `Provenance.NoSecondSpend` | src/main.cpp:1529-1662 | a spending transaction whose id is indexed cannot pass again: its inputs are spent |
| `Provenance.NoSecondCoinbase` | src/main.cpp:2214-2218 | a coinbase of the next height has an id that is not indexed |
| `Provenance.ConnectedIdsAreFresh` | src/main.cpp:1529-1662 | every block that connects on a good index brings only new ids and leaves a good index |
| `Supply.TotalApplyTx` | src/main.cpp:1551-1614 | applying a transaction changes the value of all unspent outputs by what it pays minus what it spends |
| `Supply.EarlyRewardIsMost` | src/main.cpp:1037-1057 | the reward for a coin age is never more than at the rate of the early chain |
| `Supply.StakeRewardIs` | src/main.cpp:1037-1057 | the reward over the fees is 33 times coin age times rate over 12,053, rounded down, at 0.32 coins up to height 1,999,793 and 0.0032 after it |
| `Supply.ValueInIsOutValues` | src/main.cpp:1379-1391 | GetValueIn is the value of the spent outputs in the index |
| `BlockTree.PathPrefix` | src/main.h:1198-1215 | the path to any block of a path is the prefix of that path up to the block's height |
| `BlockTree.ReplayGood` | src/main.cpp:1529-1662 | on every branch that connects, the replayed index is good and each block's ids were new |
| `BlockTree.UndoTip` | src/main.cpp:1505-1527 | undoing the last block of any branch that connects gives exactly the replay up to its parent |
| `BlockTree.LinksAre` | src/main.h:1328-1331 | a block has a forward link exactly when it is a proper ancestor of the tip, and the link goes to the next block of the path |
| `BlockTree.RecentBlocksAre` | src/main.cpp:1431-1434 | the blocks the maturity loop visits are the ancestors less than n below a block, itself included |
| `BlockTree.ConnectStep` | src/main.cpp:1551-1614 | each transaction of a connecting block keeps the index good and accounts for its value |
| `Fork.FindFork` | src/main.cpp:1675-1685 | the pointer walk ends at the lowest common ancestor of the two branches |
| `Fork.CollectDown` | src/main.cpp:1689-1698 | the list from a tip down to the fork is the reversed upper part of the path |
| `Fork.AboveForkNotShared` | src/main.cpp:1675-1698 | no block above the fork is shared by the two branches |
| `TxDb.TxDB.TxnCommit` | src/txdb-leveldb.cpp:142-153 | a commit makes the view the committed index and best hash, or leaves both as they were |
| `TxDb.TxDB.TxnAbort` | src/txdb-leveldb.h:178-183 | an abort restores the committed index as the view |
| `Chain.DisconnectInputs` | src/main.cpp:1259-1292 | fails exactly when an output is missing, and otherwise the view is the undone index |
| `Chain.DisconnectBlock` | src/main.cpp:1505-1527 | the same for a whole block, last transaction first |
| `Chain.ConnectTx` | src/main.cpp:1551-1614 | passes exactly on a transaction that overwrites nothing unspent and whose inputs are there, unspent and allowed; then the queued changes amount to applying it |
| `Chain.ConnectTxs` | src/main.cpp:1551-1614 | passes exactly when each transaction passes on top of the ones before it; the queued changes are the applied block and the tallies are the sums |
| `Chain.TallyIsTotal` | src/main.cpp:1625-1629 | value out minus value in of the tallies is the change of the total of unspent outputs |
| `Chain.SupplyChange` | src/main.cpp:1616-1640 | for a connecting block the same, and in a proof-of-stake block it is the stake reward minus the fees |
| `Chain.ConnectBlock` | src/main.cpp:1529-1662 | accepts exactly a block that passes every test; then the view is the old one with the block applied and the supply moves with the unspent total; a proof-of-stake block raises it by at most the reward for its coin age, a block without a coinstake by at most 64 coins (the initial supply right after genesis); from the last hardened checkpoint on every signature of the block is good; a refusal changes nothing |
| `Chain.SignaturesSkipped` | src/main.cpp:1460-1470 | before the last hardened checkpoint the verdict does not depend on any signature |
| `Chain.SpendsMature` | src/main.cpp:1419-1453 | every input of a transaction that passes names an existing unspent output, in range, of a transaction no later, and none that made new coins in one of the recent blocks |
| `Chain.WorkSupply` | src/main.cpp:1021-1034 | without a coinstake the value a block adds is at most the reward for work |
| `ChainState.MaturityKept` | src/main.cpp:1431-1434 | a block that passes spends no coinbase or coinstake of the last 32 blocks of its branch, itself included |
| `ChainState.DisconnectDown` | src/main.cpp:1703-1719 | fails only on a block that cannot be read: DisconnectBlock never does; otherwise the view is the replay up to the fork |
| `ChainState.State.ConnectOne` | src/main.cpp:1529-1662 | connects a child exactly if it passes; the view and the supply are then those of the child, and a proof-of-stake block raised the supply by at most its reward; a refusal changes nothing |
| `ChainState.State.ConnectUp` | src/main.cpp:1721-1738 | succeeds exactly if every block from the fork up can be read and passes on its own branch; then the view is the replay up to the new tip, with right supplies along it |
| `ChainState.State.Relink` | src/main.cpp:1746-1754 | the links of the old branch become exactly those of the new one |
| `ChainState.State.Reorganize` | src/main.cpp:1671-1770 | succeeds exactly if the blocks only the old branch has can be read, those only the new branch has can be read and pass, and the commit is accepted; then the committed index, best hash, links and supplies are those of the new tip; on failure nothing is committed and nothing is relinked |
| `ChainState.State.SetBestChainInner` | src/main.cpp:1773-1795 | succeeds exactly if the block passes and the commit is accepted; an abort leaves the index unchanged |
| `ChainState.State.Postpone` | src/main.cpp:1817-1832 | the blocks set aside are those above `first`; no proper ancestor of `first` outweighs the best chain, and the parent of every block set aside does; `first` itself is off the main chain |
| `ChainState.FirstHeavierUnique` | src/main.cpp:1817-1827 | there is only one such block on a branch |
| `ChainState.SwitchByTrust` | src/main.cpp:1815-1840 | in terms of trust alone: a switch is possible exactly if the blocks only the best chain has can be read, every new block whose branch without it is no heavier than the best chain is read and passes, and the last of these can be committed |
| `ChainState.State.Reconnect` | src/main.cpp:1843-1860 | completes exactly if every postponed block can be read, passes and is committed; after any number of them the committed state is the replay of the last one |
| `ChainState.State.SetBestChain` | src/main.cpp:1797-1880 | succeeds exactly if the new block connects to the tip or the node can reorganise to the one block that `Postpone` finds; a failure keeps the whole state invariant and the tip; a success keeps the invariant exactly if every block whose parent already outweighs the old tip connects and is committed; the committed index is always the replay up to the stored best hash |
| `ChainState.State.AddToBlockIndex` | src/main.cpp:1984-2060 | a new block extends the tree; it succeeds exactly if the branch is not heavier or the node can switch to it, the tip then being the block if it is heavier; a failure keeps the tip and the invariant |
| `PostponedFailure.PostponedBlockFails` | src/main.cpp:1843-1875 | a run from genesis after which SetBestChain has reported success, the tip is the new block and the state is not consistent |
| `ChainState.State.IsInMainChain` | src/main.h:1328-1331 | the links answer whether a block is the tip or an ancestor of it |
| `ChainState.State.FindBlockByHeight` | src/main.cpp:972-987 | returns the main-chain block of that height from whatever block was cached, and caches it |
| `BlockTree.WalkDown` | src/checkpoints.cpp:119-122 | walking back to a height gives the ancestor of that height |
| `Checkpoints.SyncCheckpoints.ValidateSyncCheckpoint` | src/checkpoints.cpp:104-144 | accepts exactly a strict descendant of the sync-checkpoint, and marks exactly a block on another branch as invalid |
| `Checkpoints.SyncCheckpoints.AcceptPendingSyncCheckpoint` | src/checkpoints.cpp:162-204 | the checkpoint moves exactly if the pending block is an indexed strict descendant that is in the main chain or can be switched to, and can be recorded; pending is cleared then, and when the block is known but no descendant; the checkpoint stays an ancestor of the best block |
| `Checkpoints.SyncCheckpoints.ProcessSyncCheckpoint` | src/checkpoints.cpp:390-439 | accepts exactly a signed indexed strict descendant that is in the main chain or can be switched to, and can be recorded; otherwise the checkpoint stays, and a signed unknown block becomes pending |
| `Checkpoints.SyncCheckpoints.ResetSyncCheckpoint` | src/checkpoints.cpp:258-297 | succeeds exactly if the last hardened checkpoint, when known and off the main chain, can be loaded, switched to and recorded, or otherwise the highest one in the main chain can be recorded; the checkpoint is then the highest hardened one in the main chain, and a failure keeps it |
| `Checkpoints.SyncCheckpoints.CheckSync` | src/checkpoints.cpp:217-242 | a new block passes exactly if its parent descends from the sync-checkpoint |
| `Checkpoints.DescendsFromHardened` | src/checkpoints.cpp:47-54 | in every state kept by AcceptBlock each block from a hardened checkpoint's height up descends from that checkpoint |
| `Checkpoints.SyncCheckpoints.AcceptBlock` | src/main.cpp:2152-2250 | accepts exactly a new block whose parent is known and descends from the sync-checkpoint, later than the parent's median time past, in conflict with no hardened checkpoint, with its height in the coinbase, passing the other tests, and which can be indexed; the checkpoint stays an ancestor of the best block and moves only to a strict descendant, and no block ever takes the place of a hardened checkpoint |
| `AddrTables.RandomSize` | src/addrman.cpp:434-490 | vRandom and nRandomPos being inverse, vRandom has as many entries as there are ids |
| `AddrTables.KeptExactly` | src/addrman.cpp:37-55 | an entry is kept exactly if it was tried in the last minute, or was seen within thirty days and not in the future and has neither three failures without a success nor ten with none in a week |
| `AddrTables.TerribleStays` | src/addrman.cpp:37-55 | an entry that is left alone stays terrible, unless its time was in the future |
| `AddrTables.DropRefOk` | src/addrman.cpp:149-201 | dropping one reference, and the entry with its last one, keeps all tables consistent |
| `AddrTables.CreateOk` | src/addrman.cpp:93-103 | a created entry is consistent once its first reference is counted as pending |
| `AddrTables.IntoTriedOk` | src/addrman.cpp:203-227 | moving an entry to a tried bucket with room keeps all tables consistent |
| `AddrTables.EvictOk` | src/addrman.cpp:229-259 | exchanging it for an entry of a full bucket keeps them consistent |
| `AddrMan.AddrMan.SwapRandom` | src/addrman.cpp:105-123 | the two positions are exchanged in both tables |
| `AddrMan.AddrMan.SelectTried` | src/addrman.cpp:125-147 | returns a valid position and only permutes the bucket |
| `AddrMan.AddrMan.ShrinkNew` | src/addrman.cpp:149-201 | removes one entry from the bucket, the first terrible one in id order if there is any and otherwise the oldest of four sampled, and forgets it with its last reference; consistency holds with one reference pending |
| `AddrMan.AddrMan.OldestSampled` | src/addrman.cpp:174-187 | the oldest of the entries at four given positions |
| `AddrMan.AddrMan.MakeTried` | src/addrman.cpp:203-259 | the entry leaves all new buckets for its tried bucket; a full bucket gives up one entry, to the new bucket of its own source or to the one the newcomer left |
| `AddrMan.AddrMan.Good` | src/addrman.cpp:261-310 | the entry of the service, and no other, is updated and ends up in the tried table; it is kept for thirty days and no longer |
| `AddrMan.AddrMan.Add` | src/addrman.cpp:312-368 | a new address is created and put into its bucket; a known one is refreshed and, if there is news, may get one more reference; a full bucket makes room by one entry; consistency is kept |
| `AddrMan.AddrMan.RefreshedForward` | src/addrman.cpp:321-330 | news about a known address never moves its time back: it moves on by more than an hour, or a day for old news, or stays, and the services are united |
| `AddrMan.AddrMan.Attempt` | src/addrman.cpp:370-387 | exactly the entry of that service counts one more attempt; consistency is kept |
| `AddrMan.AddrMan.Connected` | src/addrman.cpp:520-539 | exactly the entry of that service gets the new time, if that is more than 20 minutes later; consistency is kept |
| `AddrMan.AddrMan.GetAddr` | src/addrman.cpp:493-507 | 23 percent of the addresses, at most 2500, all different and all known; only vRandom is permuted and consistency is kept |
| `AddrDisk.Write` | src/addrman.h:280-318 | the image lists every new entry, every tried entry and every bucket's members by their place in the list |
| `AddrDisk.Read` | src/addrman.h:319-378 | reading the image of consistent tables loses nothing and gives consistent tables that are a renumbering of them |
| `AddrDisk.RoundTrip` | src/addrman.h:249-381 | writing and reading back: no entry lost, everything about it kept but the last try, consistent, the same addresses, the same tried buckets and the same new buckets up to renumbering |
| `AddrCheck.Check` | src/addrman.cpp:434-490 | Check_ answers zero exactly on tables whose entries, positions, counts and buckets all agree |
| `AddrCheck.ConsistentPasses` | src/addrman.cpp:434-490 | every consistent state passes Check_ |
| `CheckQueue.BatchFits` | src/checkqueue.h:108 | a batch is one check, or the largest share of the queue among all threads and those idle that the batch limit allows; never more than the queue holds |
| `CheckQueue.Queue.NextTurn` | src/checkqueue.h:87-117 | the section leaves, sleeps or takes the top of the stack exactly as the step of the state machine does |
| `CheckQueue.Queue.Add` | src/checkqueue.h:146-157 | all checks are queued in order and counted |
| `CheckQueue.Execute` | src/checkqueue.h:119-123 | the batch's answer is whether it was fine before and all its checks hold |
| `CheckQueue.NextInv` | src/checkqueue.h:68-157 | every step of every thread keeps the invariant |
| `CheckQueue.WaitIsRight` | src/checkqueue.h:68-128 | in every run: nTodo is queued plus in-flight; every Wait that returned had all its checks accounted for and answered whether all of them hold; a master asleep and not notified has work in a worker's batch to wait for |
| `CheckQueue.StepsRunOut` | src/checkqueue.h:68-128 | every step the threads take on their own lowers a measure, unless a Wait returns |
| `CheckQueue.BusyRunsAreShort` | src/checkqueue.h:68-128 | so no schedule keeps the threads busy without a Wait returning for more steps than the measure |
| `CheckQueue.WaitIsNeverStuck` | src/checkqueue.h:68-128 | while the master is inside Wait some thread can take such a step |
| `CheckQueue.IdleQuitDrains` | src/checkqueue.h:159-169 | after Quit on a queue with nothing to do no worker is left asleep without notice |
| `CheckQueue.DrainingWorkersLeave` | src/checkqueue.h:159-169 | each such worker leaves when it next runs |
| `CheckQueue.BusyQuitCanStrand` | src/checkqueue.h:159-169 | a run in which Quit is called with a check in flight and one worker sleeps for ever |
| `CheckQueue.QuitStrandsExactly` | src/checkqueue.h:159-169 | from every state of every run, and with or without spurious wake-ups: after Quit some schedule leaves worker t asleep with nothing left to do exactly if t is still there and nTodo exceeds what t holds itself |
| `CheckQueue.StrandedStays` | src/checkqueue.h:96-98 | such a worker stays asleep whatever the threads do |
| `MemPool.NoDoubleSpend` | src/main.cpp:770-783 | with mapNextTx the inverse of the pooled inputs, no outpoint is spent twice |
| `MemPool.Pool.AddUnchecked` | src/main.cpp:770-783 | the transaction is pooled and mapNextTx stays the exact inverse |
| `MemPool.Pool.Remove` | src/main.cpp:785-807 | removes exactly the transaction, or exactly it and its in-pool descendants; terminates; mapNextTx stays the exact inverse |
| `MemPool.WithoutFamily` | src/main.cpp:785-807 | removing the families of all children and then the transaction removes exactly its descendants |
| `MemPool.WithoutStep` | src/main.cpp:785-822 | removing one family from what another removal left removes both families from the whole |
| `MemPool.Pool.RemoveConflicts` | src/main.cpp:809-822 | removes exactly the conflicting transactions and their descendants; nothing left spends what the transaction spends |
| `MemPool.Pool.AcceptToMemoryPool` | src/main.cpp:619-768 | accepts exactly a well-formed loose transaction, new to pool and chain, in conflict with nothing, with inputs found and acceptable and the relay fee paid; pools it, or changes nothing; reports missing inputs exactly when one is neither indexed and readable nor unindexed and pooled; a transaction that spends only pooled transactions is judged by the pool alone |
| `MemPool.ChildOfPooled` | src/main.cpp:1325-1337 | a transaction all of whose parents are pooled and not in the chain finds them, and passes exactly if its inputs exist, are no later, in range and signed, and its fee, from the values in the pool, is at least the minimum |
| `MemPool.MinFeeCoversRelay` | src/main.cpp:589-616 | the minimum fee lies between the relay fee and the maximum amount for every size |
| `MemPool.MinFeeIs` | src/main.cpp:589-616 | 10,000 for every thousand bytes begun, times 500,000 over the room left from the half-full block on, at most all the money, which a full block asks for |
| `MemPool.MinFeeGrows` | src/main.cpp:607-612 | the price goes up as the block fills and as the transaction grows |
| `Template.CandidatesAre` | src/miner.cpp:182-224 | in terms of chain, files and pool: a final transaction is tried exactly if each input is on disk or names a pooled transaction, and waits for exactly those not on disk |
| `Template.Gather` | src/miner.cpp:177-250 | transactions with a missing input are skipped; the queue holds exactly the candidates without in-pool parents; the others wait for exactly their parents and are listed under each |
| `Template.Release` | src/miner.cpp:335-352 | placing a transaction releases exactly the dependers that waited for it alone, once each |
| `Template.PlaceKeepsSchedule` | src/miner.cpp:262-355 | after each placement everything ready is queued or tried, once, and everything else waits for exactly its unplaced parents |
| `Template.PopBest` | src/miner.cpp:264-270 | what is left in the queue has no higher fee rate, or priority, than the transaction taken, ties going by the other |
| `Template.TryPlace` | src/miner.cpp:272-332 | places exactly a transaction within the sizes, the signature operations and the times, worth its fee, with inputs found and acceptable, and applies it to the test pool; the queue turns to fees exactly past the priority size or at a low priority |
| `Template.NothingSpentTwice` | src/miner.cpp:302-322 | transactions that each spend unspent outputs in turn spend no outpoint twice |
| `Template.CreateNewBlock` | src/miner.cpp:177-355 | every template: each transaction once, after everything it waits for, none that is in the chain already, none later than the clock or a coinstake, each paying the minimum fee at its place; each finds its inputs and may spend them, no outpoint twice; 1000 plus the total size within the limit and fewer than 20,000 signature operations; the fees are the sum; a candidate was tried exactly if all it waits for was placed; the loop terminates |
| `Template.ParentsFirst` | src/miner.cpp:196-224 | every parent of a placed transaction that is not in the chain stands before it |
| `TemplateConnects.AlikeAfter` | src/miner.cpp:302-322 | the test pool and the index ConnectBlock builds agree on every transaction's contents and on which outputs are spent, after any number of transactions |
| `TemplateConnects.AllPass` | src/main.cpp:1551-1614 | ConnectBlock's loop accepts a new coinbase followed by any template |
| `TemplateConnects.SameFees` | src/miner.cpp:324-330 | the fees the miner counts are the fees ConnectBlock counts |
| `TemplateConnects.TemplatePasses` | src/miner.cpp:177-375 | a proof-of-work template whose coinbase takes at most the computed reward passes ConnectBlock on the index it was made for, as far as the tests outside the model allow |
| `Framing.SealedFramed` | src/net.h:436-460 | a message within the size limit announces exactly its payload and carries its checksum |
| `Framing.SplitPrefix` | src/net.cpp:661-724 | every prefix of a sequence of whole messages is cut into the first few of them, unchanged |
| `Framing.ReadHeader` | src/net.cpp:690-718 | absorbs bytes up to a whole header, and refuses exactly a header that announces too much |
| `Framing.ReadData` | src/net.cpp:720-734 | absorbs bytes up to the announced size |
| `Framing.Receiver.StateIsSplit` | src/net.cpp:661-688 | the completed messages and the partial one depend on the bytes received alone, not on the chunks |
| `Framing.Receiver.ReceiveMsgBytes` | src/net.cpp:661-688 | succeeds exactly if no message of the stream is too large, and then has absorbed the whole chunk |
| `Framing.Receiver.Erase` | src/main.cpp:3687-3689 | erasing processed messages loses no completed message and no bytes |
| `Framing.Sender.EndMessage` | src/net.h:436-472 | the sealed message joins the queue; what was pushed is what the socket accepted followed by what is unsent |
| `Framing.Sender.SocketSendData` | src/net.cpp:745-785 | keeps the same account whatever the socket accepts, and only ever adds to the wire |
| `Framing.UnsentBytes` | src/net.cpp:745-785 | nSendSize minus nSendOffset is the number of unsent bytes, and both are zero on an empty queue |
| `Framing.Delivery` | src/net.cpp:661-785 | end to end, the completed received messages are a prefix of those pushed, byte for byte, and all of them once everything has arrived |
| `Framing.NeverRefused` | src/net.cpp:661-688 | no prefix of messages within the limit is refused |
| `Merkle.BranchLeadsToRoot` | src/main.h:1051-1100 | a leaf folded with its branch gives the root, for every number of leaves and every index |
| `Merkle.BranchProvesMembership` | src/main.h:1086-1100 | if the hash has no collisions, a branch of the right length that leads to the root proves the leaf at that index, and is its branch |
| `Merkle.RepeatedLeafSameRoot` | src/main.h:1051-1068 | repeating the last leaf of an odd list gives the same root |
| `Merkle.RootDeterminesLeaves` | src/main.h:1051-1068 | if the hash has no collisions, two lists of one length have the same root exactly if they are equal |
| `Merkle.RootDeterminesDistinctLeaves` | src/main.h:1051-1068 | so do two lists without repetitions whose trees have one depth, as CheckBlock's duplicate test makes sure |
| `Merkle.NodeAsLeaf` | src/main.h:1051-1068 | without the depth the root of a pair is the root of the one leaf that is their hash |
| `Merkle.Block.BuildMerkleTree` | src/main.h:1051-1068 | the vector holds all levels in order and the result is the root, zero for no leaves |
| `Merkle.Block.GetMerkleBranch` | src/main.h:1070-1084 | the siblings on the way up, from a cached or a new tree |
| `Merkle.CheckMerkleBranch` | src/main.h:1086-1100 | folds the branch into the leaf; zero for index -1 |
| `StakeModifier.SectionsGrow` | src/kernel.cpp:55-68 | a section is 37,800 over 189 minus twice its number, rounded down; sections grow from a third of the interval to the whole of it |
| `StakeModifier.StopsEndAtInterval` | src/kernel.cpp:155-172 | the stops go up by one section a round and end at the last multiple of ten minutes |
| `StakeModifier.KeyOrder` | src/kernel.cpp:87-96 | of two candidates the hash of a proof-of-stake one counts 2^32 times less: how any two compare, from the hashes |
| `StakeModifier.SelectBlockFromCandidates` | src/kernel.cpp:73-113 | fails only if nothing is left; among the unselected up to the stop time the pick has the smallest hash, one of a proof-of-stake block counting 2^32 times less and the earliest winning a tie; if none is that early it is the earliest unselected |
| `StakeModifier.PickedUnique` | src/kernel.cpp:73-113 | a round has one possible outcome |
| `StakeModifier.PicksDistinct` | src/kernel.cpp:170-188 | no block is selected twice |
| `StakeModifier.SelectAll` | src/kernel.cpp:166-189 | the loop never fails, picks min(64, n) candidates, and bit k of the result is the entropy bit of pick k with zeros above |
| `StakeModifier.ModifierUnique` | src/kernel.cpp:166-189 | the modifier is determined by the candidates and the previous modifier |
| `StakeModifier.GetLastStakeModifier` | src/kernel.cpp:41-53 | finds the nearest generated modifier, and fails exactly if there is none |
| `StakeModifier.ComputeNextStakeModifier` | src/kernel.cpp:129-212 | genesis, the unchanged modifier within an interval, and the new one from the blocks of the selection interval, each once, by time and then by hash |
| `Compact.RoundTripIsFloor` | src/bignum.h:369-410 | GetCompact then SetCompact gives the largest representable value not above n, positive for positive n, losing less than one part in 2^15 |
| `Compact.RoundTripMonotone` | src/bignum.h:369-410 | the round trip is monotone |
| `Compact.RoundTripIdempotent` | src/bignum.h:369-410 | a value that went through once goes through unchanged |
| `Compact.Canonical` | src/bignum.h:387-410 | an encoding decodes to a number with that encoding |
| `Compact.DecodesParts` | src/bignum.h:369-385 | the top byte of an encoding is a length in bytes, the next bit the sign and the rest the leading bytes |
| `Compact.NegativeCompact` | src/bignum.h:387-410 | a negative number is its opposite with the sign bit set, in both directions |
| `Compact.GetLastBlockIndex` | src/main.cpp:1100-1105 | finds the nearest block of the kind, or genesis |
| `Compact.GetNextTargetRequiredV2` | src/main.cpp:1137-1171 | for every chain and every nBits in it: with q < p the last two blocks of the kind after genesis, e the time between them (the spacing if negative), t the target of p, s the spacing and n = 960 / s, the result encodes t * ((n - 1) * s + 2 * e) over (n + 1) * s rounded down, or the limit if that is zero, negative or more; without two such blocks it encodes the limit; it is canonical and decodes to a positive target at most the limit; nTargetSpacing becomes 300 exactly when retargeting from height 1,999,856 on |
| `Compact.NextTargetIs` | src/main.cpp:1155-1168 | the moved target is that quotient, kept within the limit |
| `Compact.FewBlocks` | src/main.cpp:1141-1148 | the target moves exactly if there are two earlier blocks of the kind, and is the limit otherwise |
| `Compact.OnTargetUnchanged` | src/main.cpp:1155-1168 | exactly on target, a canonical nBits within the limit is asked for again |
| `Compact.SlowerIsEasier` | src/main.cpp:1155-1168 | a longer gap asks for no harder target exactly if the shorter one does not scale the target to nothing or the longer one gets the limit |
| `Compact.AtOnceIsEasiest` | src/main.cpp:1155-1168 | the smallest target with no gap at all is answered with the limit, on target with itself |
| `Base58.DecodeEncode` | src/base58.h:27-119 | decoding gives back every non-empty byte vector, leading zeros included, with any spaces around the string |
| `Base58.EncodeDecode` | src/base58.h:27-119 | encoding gives back every non-empty string of letters |
| `Base58.EncodedLength` | src/base58.h:44 | the reserved length is never exceeded |
| `Base58.EncodeBase58` | src/base58.h:27-65 | the digits of the number after a '1' for every leading zero byte |
| `Base58.DecodeBase58` | src/base58.h:75-119 | reads exactly a numeral surrounded by spaces and fails on anything else |
| `Base58.CheckRoundTrip` | src/base58.h:132-160 | the forms with a checksum round-trip for any hash |
| `Base58.CheckIsExact` | src/base58.h:142-160 | a string of letters that passes the check is the encoding of what it decodes to |
| `MedianTime.MedianReaches` | src/main.h:1343-1357 | the median is at least m exactly if no more than half of the times, rounded down, lie below m |
| `MedianTime.NextWindow` | src/main.h:1343-1357 | a time above the median does not lower it, while the window grows and when it slides |
| `MedianTime.PastIsMonotone` | src/main.cpp:2177-2179 | along a branch that keeps the timestamp rule median time past never decreases |
| `MedianTime.GetMedianTimePast` | src/main.h:1343-1357 | the median of the last eleven times, or of all while there are fewer, said by counting the times below it |
| `MedianTime.TimesKeptExtend` | src/main.cpp:2177-2179 | indexing a block that keeps the timestamp rule leaves a tree in which every block keeps it |
| `MedianTime.LaterThanEveryAncestor` | src/main.cpp:2177-2179 | in a tree that keeps the rule each block is later than the median time past of every proper ancestor |
| `Locator.Set` | src/main.h:1581-1596 | entries at distances 0 to 11 and then 9 + 2^m while they reach, then genesis |
| `Locator.GetBlockIndex` | src/main.h:1619-1633 | the first entry in the main chain, or genesis |
| `Locator.GetDistanceBack` | src/main.h:1598-1617 | the distance at which Set placed the first entry in the main chain |
| `Locator.FindsTheFork` | src/main.h:1581-1633 | the answer is a block both branches share, at most twice as far back as the fork, the fork itself if that is at most eleven back, and its distance is retraced |

## Left out

- The memory pool, wallet and disk block-index updates that Reorganize and ConnectBlock make besides the transaction index (src/main.cpp:1643-1660, 1756-1764).
- Which reads of blocks and commits of batches succeed is passed in; other database reads do not fail. Proof of work, proof of stake, signatures, signature-operation counts, sizes, the tests of timestamps other than against median time past, and the coin age are answers passed in.
- Ledger.CheckedExactly: the size limit and the length of a coinbase script are not tested, since neither serialisation nor scripts are modelled.
- Integer widths of amounts, trust and times: all are unbounded integers.
- ChainState.State.SetBestChain: a success whose postponed blocks do not all reconnect moves the in-memory tip past the committed one (src/main.cpp:1852-1872), so the next call is only described for the other successes.
- Provenance.ConnectedIdsAreFresh: that transaction ids are collision-free over the block files is assumed, as is that a block's transactions have their places in the files.
- Chain.ConnectBlock: no supply bound for proof-of-work blocks that hold a coinstake; the rule against further coinstakes is only in the proof-of-stake branch of CheckBlock (src/main.cpp:2093-2104).
- Checkpoints: modes other than STRICT, the test network, signing and sending checkpoints, and asking peers for a pending one.
- AddrMan.AddrMan.SelectTried: which of the sampled entries it returns is not stated; it records the position after the exchange, so the oldest does not follow.
- Select_ and GetChance weighting, GetOnlineAddr_, and reading a peers.dat written with another bucket count.
- AddrCheck.Check: which negative code Check_ returns.
- CheckQueue: the exit through fShutdown, which returns without settling nTodo (src/checkqueue.h:126), and IsIdle.
- MemPool.Pool.AcceptToMemoryPool: replacement (disabled in the code), the limiter for free transactions (shown never to decide) and orphan transactions; spending is acyclic because an id is a hash over the ids spent.
- Template.CreateNewBlock: priorities and fee rates are floating point and are answers passed in, and the coinbase and the header fields are not built. No pooled transaction has a missing input after an input that is in the pool: the code would then follow a dangling pointer (src/miner.cpp:209-213).
- Framing: the random dropping of messages for tests, the handling of socket errors other than accepting nothing, and the version-dependent deserialisation of payloads.
- StakeModifier: the checksums and hard checkpoints of modifiers, and the modifier chosen for a kernel.
- Compact.GetNextTargetRequiredV2: GetNextTargetRequiredV1, which does not clamp negative spacing, and ComputeMaxBits are not modelled; nTargetSpacing, a global, is passed in and returned.
- Base58: address and key classes on top of the byte interface.
- Locator: entries unknown to the peer are those outside its main chain; both branches live in one tree.
