# Verified model of a proof-of-work blockchain node

This project models the logic of a small peer-to-peer blockchain node: the state transition, fork choice and
canonical chain of `bcws/blockchain.py`, gossip flooding, and the text and byte formats with the messaging layer
over them. Code that updates objects in place is a class whose methods are proved against functions on values;
the theorems are about those functions, over every run.

## How it is organised

- **State transition.** `Ledger` (functions), `LedgerTheorems` (closed form, no replay), `Pool` (mempool contents),
  `Execution` (classes `BlockchainState`, `Mempool`, `Blockchain`).
- **Fork choice.** `ForkChoice` (functions and invariant), `ForkEffects` (what adding and confirming do, exactly),
  `ForkTheorems` (highest block, orphans answered back to back), `CatchUp` (orphans in the middle of a run),
  `Admission` (what gets in), `ForkManagement` (class `ForkManager`).
- **Canonical chain.** `Canonical` (walks, re-application, the chain an index holds), `ForkPoint` (where the walks end,
  when exactly an update returns normally), `Reorganisation` (what an update does, exactly), `Canonicalisation`
  (class `ChainCanonicaliser`), `HeadStorage` (when exactly the canonical blocks are stored), `LostHead` (a run in
  which they are not, and what follows).
- **Whole node.** `NodeRuns` (events, runs, invariants), `NodeSteps` (what each step does to mempool, candidate, chain
  and tip), `BlockchainNodes` (class `BlockchainNode`).
- **Gossip.** `GossipNetwork` (the protocol over a peer graph), `GossipNodes` (classes `P2PNode`, `Gossip`).
- **Formats.** `Text`, `Codec`, `BlockRecords` (class `BlockRecord`), `Wire`, `Network` (classes `Socket`,
  `TcpConnection`, `TcpServer`).
- **Requests and responses.** `Correlation` (state machine), `MessagingLayer` (class `Messaging`).

## Assumptions

- Inside the chain engine a hash is a free constructor: `Digest(b)` for a block, `Raw(bytes)` for anything else. It
  stands for SHA-256 being collision-free; `Codec.FreeHashIsFaithful` proves that any collision-free function of
  the printed block gives the same equalities. Storages hold blocks as values because a stored block is loaded
  back equal (`BlockRecords.BlockRecord.SaveAndLoad`).
- `validate_signature` is a parameter with three outcomes (True, False, an exception) and "meets the difficulty" a
  parameter on hashes. Both are fields of `Oracle`, over which every theorem is quantified.
- Message ids, clocks and the answers of other nodes are parameters of events and methods. Each handler, sweep and
  producer phase is one atomic step.
- Well-numbered means: genesis, or one above a well-numbered parent. The code checks this only for fetched parents,
  so theorems that need it say so and the others hold for arbitrary blocks.
- A fresh run starts from storages that hold genesis only. Runs may contain restarts where a theorem says so.

## Where the code and its documentation differ

- README.md:198 says `apply_block` returns a Boolean; the code returns nothing and raises
  (bcws/blockchain.py:143-159), and the model raises.
- README.md:267 limits a block to ten transactions; validation does not check it, only the builder does.
  `LedgerTheorems.ValidationHasNoLimit` gives blocks of every size that validation accepts, for every difficulty that
  can be met and every account that can sign, and
  `Ledger.BuilderAgreesWithValidator` that built blocks keep the limit.
- The canonical head need not be in the block storage. A block that claims number 0 without being genesis is confirmed
  without its parent (bcws/blockchain.py:296 and 349), and a reorganisation through it can make a known but
  unconfirmed block canonical before it raises. `LostHead.CanonicalHeadCanBeMissing` gives the run, for every
  difficulty that can be met. While there is a highest block, updates then raise until that block is stored
  again; `LostHead.LostHeadComesBack` gives a run in which it is. `HeadStorage.HeadStaysStoredIff` and
  `HeadStorage.HeadAlwaysStoredIff` say exactly when the head stays stored, for one update and over whole runs.
- A node restarted on such a head mines on it, and unless the head is stored again before the block is mined it stores
  the new block without its parent and then raises (bcws/blockchain.py:347-352): `LostHead.RestartOnLostHead` and,
  for the head that comes in time, `LostHead.OrphanInTime`. `NodeRuns.ForkInvAlwaysIff` says exactly in which runs
  the fork-manager invariant holds.
- After a restart the highest block is unset (bcws/blockchain.py:249) and can next be one below the stored latest block;
  until it is no lower every update raises. `ForkPoint.UpdateSucceedsIff` says exactly when an update returns
  normally, with no assumption on blocks or restarts beyond the fork-manager invariant. With well-numbered blocks
  the chain is kept meanwhile (`NodeSteps.LowTipKeepsChain`); a misnumbered tip can cost it blocks before the update
  raises (`Reorganisation.LowTipCanShortenChain`).
- Gossip forgets an id after 300 seconds, so "accepted once" needs deliveries within that time:
  `GossipNetwork.GossipAcceptsAtMostOnce` and, for every longer delay, `GossipNetwork.LateCopyIsAcceptedTwice`.

## Model

| member | source | states |
|---|---|---|
| `Ledger.ApplyTxEffect` | bcws/blockchain.py:168-189 | a transaction is applied exactly when its signature is accepted, its amount is not negative, its nonce is the sender's and the sender can pay; then each account changes by what it received minus what it sent (self-transfers included) and only the sender's nonce grows; otherwise no reader sees a change; entries appear for exactly the two parties, and only once signature and amount have passed |
| `Ledger.ApplyTxRespectsSame` | bcws/blockchain.py:175-187 | zero entries left behind by rejected transactions are invisible: states equal up to absent-means-zero give the same outcome and equal results |
| `Ledger.ApplyTxsOneMore` | bcws/blockchain.py:157-159 | transactions apply one after another, in order; the first that does not apply decides the exception and the state left behind |
| `Ledger.ApplyBlockEffect` | bcws/blockchain.py:135-166 | a block is valid exactly when number, parent, difficulty and transactions fit, and the first that fails, in that order, decides the exception; a valid one adds 10000 to its miner on top of its transactions and sets number and hash, and nothing else |
| `Ledger.SelectSound` | bcws/blockchain.py:123-130 | the builder's loop looks at a prefix of the mempool, splits it in order into chosen and evicted, stops early only when full or when a signature check raises; the chosen apply in turn to the original state, and each evicted one is rejected after some prefix of the chosen |
| `Ledger.SelectOneMore` | bcws/blockchain.py:123-130 | the selection is greedy: after any part of the mempool, the next transaction is chosen if it applies after those chosen so far and evicted if it is rejected then |
| `Ledger.SelectLooksAtPrefix` | bcws/blockchain.py:123-130 | what is selected depends on nothing beyond the part of the mempool that was looked at |
| `Ledger.BuilderAgreesWithValidator` | bcws/blockchain.py:102-166 | for every state and mempool the built block carries exactly the selection, next number, state's hash and miner, at most ten transactions and fewer only when the mempool was used up, and with any nonce that meets the difficulty `apply_block` accepts it on the state it was built from |
| `Ledger.ReplayShape` | bcws/blockchain.py:148-166 | a chain that applies from genesis starts at genesis, is linked by hash, numbered by position, and is the whole ancestry of its last block |
| `Ledger.ReplayValidates` | bcws/blockchain.py:154-159 | every block after genesis of an applied chain meets the difficulty and holds only accepted signatures and amounts that are not negative |
| `LedgerTheorems.LedgerClosedForm` | bcws/blockchain.py:135-189 | along any applied chain every balance is 10000 per mined block plus received minus sent and never negative, every nonce is the number of transactions sent, nonces run 0, 1, 2, ... per sender, and the supply after n blocks is 10000 n |
| `LedgerTheorems.NoTransactionTwice` | bcws/blockchain.py:179-187 | no (sender, nonce) pair, hence no transaction, occurs twice in an applied chain |
| `LedgerTheorems.SelectionContinuesOrder` | bcws/blockchain.py:123-130 | the builder's selection continues the nonce order of the whole chain it builds on |
| `LedgerTheorems.BuilderNeverRepeats` | bcws/blockchain.py:123-130 | a block built on any applied chain repeats no (sender, nonce) pair of any earlier point of that chain, whatever the mempool holds |
| `LedgerTheorems.ValidationHasNoLimit` | bcws/blockchain.py:135-189 | for every difficulty that can be met, every state and every account whose signatures are accepted there are valid blocks of any number of transactions, so the documented limit of ten is the builder's alone |
| `Pool.AddTransaction` | bcws/blockchain.py:75-80 | the transactions there stay in front, in order, the new one is in the result, nothing else is, and no repetition is introduced |
| `Pool.Evict` | bcws/blockchain.py:64-73 | what is left after evictions is exactly the transactions not evicted |
| `Pool.EvictKeepsOrder` | bcws/blockchain.py:64-73 | what stands before another after evictions stood before it already |
| `Execution.BlockchainState.LoadFromDisk` | bcws/blockchain.py:201-210 | a fresh object equal to the snapshot saved for that number; a missing snapshot raises, and one of another number fails the assertion |
| `Execution.BlockchainState.SaveToDisk` | bcws/blockchain.py:212-214 | a copy of the state is stored under its own number, every other snapshot stays |
| `Execution.Mempool.Add` | bcws/blockchain.py:75-80 | a new transaction goes to the end, a known one keeps its place, none is repeated |
| `Execution.Mempool.AnnounceTransaction` | bcws/blockchain.py:48-55 | an unsigned transaction raises before anything happens; a signed one is announced once and added, its signature unchecked |
| `Execution.Mempool.HandleNewTx` | bcws/blockchain.py:82-90 | a gossiped transaction is added and passed on exactly when its signature is accepted |
| `Execution.Mempool.EvictTransaction` | bcws/blockchain.py:64-73 | exactly the evicted transaction leaves, the rest keep their order |
| `Execution.Blockchain.ApplyTransaction` | bcws/blockchain.py:168-189 | the in-place update is the transaction function of the old state, zero entries included |
| `Execution.Blockchain.ApplyBlock` | bcws/blockchain.py:135-166 | the in-place update reaches the block's successor state, or raises for the first reason the block is invalid; a bad header leaves the state alone, a bad transaction leaves what the ones before it did |
| `Execution.Blockchain.BuildBlock` | bcws/blockchain.py:102-132 | the built block's transactions are the greedy selection, at most ten, on top of the state it was given, the mempool loses exactly the rejected ones, and the block is valid on the original state for every nonce that meets the difficulty |
| `ForkChoice.FindGapNeverRaises` | bcws/blockchain.py:294-309 | the search for the first unknown parent never fails to load a known one |
| `ForkChoice.ConfirmWalkCloses` | bcws/blockchain.py:340-352 | the confirming walk, which stores a child before its parent, finds every parent once no gap was found, and ends with every stored block numbered 0 or above a stored parent |
| `ForkChoice.UpdateTipKeeps` | bcws/blockchain.py:361-364 | the highest block stays the first among the highest blocks ever offered |
| `ForkChoice.AddBlockAndAncestorsKeeps` | bcws/blockchain.py:288-335 | adding any block keeps the fork-manager invariant, loses nothing, never raises, and stores the block exactly when no ancestor is missing |
| `ForkChoice.HandleNewBlockKeeps` | bcws/blockchain.py:264-273 | a gossiped block, however wrong, keeps the invariant, never raises, and moves the tip only to a strictly higher block |
| `ForkChoice.HandleAnswerKeeps` | bcws/blockchain.py:314-332 | any answer to any query keeps the invariant and loses nothing |
| `ForkChoice.ProduceKeeps` | bcws/blockchain.py:254-255 | a produced block on a stored parent is confirmed without raising and the invariant is kept |
| `ForkChoice.ConfirmKeepsIff` | bcws/blockchain.py:340-354 | confirming any block keeps the fork-manager invariant if and only if no ancestor is missing down to number 0 or a confirmed block; otherwise it raises, with a block stored above the gap |
| `ForkEffects.FindGapExact` | bcws/blockchain.py:294-309 | the search ends where the block's line of ancestors hangs (number 0 or stored) or breaks (parent neither known nor stored), at the first such block, and never raises |
| `ForkEffects.ConfirmExact` | bcws/blockchain.py:340-364 | confirming a block whose line hangs stores exactly the unstored blocks of the line from the hook up, marks them confirmed, and offers the block as the tip even when it was stored before |
| `ForkEffects.AddExact` | bcws/blockchain.py:288-338 | adding any block makes it known; then either its line hangs and it is confirmed and offered, or exactly one search is opened, for the parent where the line breaks, and nothing else changes |
| `ForkEffects.ArrivalSetsTip` | bcws/blockchain.py:264-273 | a gossiped block that ends up stored, also one stored before, becomes the highest block unless one at least as high is there; otherwise the highest block is left alone |
| `ForkEffects.AnswerSetsTip` | bcws/blockchain.py:314-332 | the same for the block whose search an admitted answer serves; the answer and that block become known |
| `ForkEffects.ProducedSetsTip` | bcws/blockchain.py:254-255 | the same for a produced block on a stored parent |
| `ForkTheorems.AncestryStored` | bcws/blockchain.py:340-359 | with well-numbered blocks the whole ancestry of a stored block is stored |
| `ForkTheorems.HandleNewBlockKeepsStrong` | bcws/blockchain.py:264-273 | with well-numbered blocks the highest block has the greatest number among all confirmed since the start |
| `ForkTheorems.HandleAnswerKeepsStrong` | bcws/blockchain.py:314-332 | the same for answers to queries |
| `ForkTheorems.ServeStep` | bcws/blockchain.py:314-334 | a correct answer strictly shrinks the set of unknown ancestors and leaves the block confirmed or the next query open |
| `ForkTheorems.ServeCompletes` | bcws/blockchain.py:288-338 | with every query answered, at most as many answers as unknown ancestors are needed, and the block and all its ancestors end up stored |
| `ForkTheorems.OrphanCatchesUp` | bcws/blockchain.py:264-338 | a well-numbered block of number N arriving at any such state needs at most N - 1 queries answered back to back until it and all its ancestors are confirmed |
| `CatchUp.WalkFrom` | bcws/blockchain.py:288-335 | adding a well-numbered block ends with it stored and no new search, or with exactly one, for an ancestor that is missing below everything known |
| `CatchUp.AnswerAdvances` | bcws/blockchain.py:314-334 | the block asked for replaces the open search by one for a strictly lower ancestor, or ends it with the block stored |
| `CatchUp.CatchesUpInEveryRun` | bcws/blockchain.py:264-338 | over every run of well-numbered blocks in which no search for the block times out after it arrived, however often it is gossiped and whatever searches were open before: each open search for it asks for an ancestor, and once none is open the block and all its ancestors are stored |
| `CatchUp.CatchesUpAmidOtherEvents` | bcws/blockchain.py:264-338 | when a block of number N arrives with no search for it open, is not gossiped again and its search does not time out, at most N - 1 answers serve it, with anything else between them; while it is not over exactly one search for a missing ancestor is open, and once it is over, or N - 1 answers have come, the block and all its ancestors are stored |
| `ForkManagement.ForkManager.GetKnownBlock` | bcws/blockchain.py:378-387 | known blocks first, then the storage |
| `ForkManagement.ForkManager.ConfirmBlockAndAncestors` | bcws/blockchain.py:340-354 | the loop over the mutable storages is the confirming walk of the old state, exceptions included |
| `ForkManagement.ForkManager.AddBlockAndAncestors` | bcws/blockchain.py:288-335 | the loop is the gap search and its outcome; a manager that satisfies the invariant keeps it, nothing raises, and the highest block follows the stored block and no other |
| `ForkManagement.ForkManager.HandleNewBlock` | bcws/blockchain.py:264-273 | the block is passed on exactly when it meets the difficulty and was added |
| `ForkManagement.ForkManager.HandleAnswer` | bcws/blockchain.py:314-332 | the answer's effect with the query's removal, exactly when the handler returns True; a waiting block that gets stored is offered as the tip |
| `ForkManagement.ForkManager.ProduceBlock` | bcws/blockchain.py:254-255 | the produced block is confirmed with its ancestors and the invariant kept |
| `ForkManagement.ForkManager.UpdateChainTip` | bcws/blockchain.py:361-364 | the highest block changes only to a strictly higher one |
| `Canonical.FindForkPath` | bcws/blockchain.py:416-427 | the two walks return a common ancestor of tip and canonical head and exactly the blocks above it on the tip's side |
| `Canonical.RecordHolds` | bcws/blockchain.py:432-441 | one loop iteration leaves the index holding the longer chain, with hash, snapshot, latest and cached fields agreeing |
| `Canonical.ApplyTodoHolds` | bcws/blockchain.py:432-441 | however far the branch applies, the index holds some chain: the old one or the shared part with the blocks that applied; all of the branch without an exception |
| `Canonical.UpdateIsApply` | bcws/blockchain.py:411-433 | the snapshot loaded at the fork point is the replay of the prefix shared with the tip's ancestry |
| `Canonical.UpdateCanonicalReplays` | bcws/blockchain.py:411-441 | reorganisation is replay: afterwards the index holds a chain even when it raised halfway, and on a normal return that chain, with every hash and snapshot, is the tip's ancestry replayed from genesis |
| `Canonical.SameTipSameChain` | bcws/blockchain.py:411-441 | two nodes that canonicalised the same tip hold the same hashes and states for all numbers up to latest |
| `ForkPoint.WalksFindHighestCommonAncestor` | bcws/blockchain.py:416-427 | with well-numbered stored blocks both walks end without a missing block, at the highest common ancestor, with `todo` reversed the path from it to the tip |
| `ForkPoint.UpdateCanonicalNeverMissesABlock` | bcws/blockchain.py:411-441 | in such a run an update raises only because of an invalid block, and the canonical head stays at most as high as the highest block |
| `ForkPoint.UpdateSucceedsIff` | bcws/blockchain.py:411-441 | whatever blocks arrived and whenever the node was restarted, an update returns normally if and only if the canonical head is stored, the tip's whole ancestry is a valid chain, and the tip is no lower than the stored latest block |
| `Reorganisation.FindForkExact` | bcws/blockchain.py:416-427 | for arbitrary blocks the walks return normally exactly when they meet, in terms of numbers and of what can be loaded, and then at the last block the two chains share |
| `Reorganisation.ApplyTodoReaches` | bcws/blockchain.py:432-441 | the loop stops at the end of the longest part of the branch that applies, and the cached head is that block |
| `Reorganisation.UpdateExact` | bcws/blockchain.py:411-441 | what one update does, for arbitrary blocks: nothing when its walks fail; otherwise it records the tip's line after the last shared block as far as it replays, raises exactly when some of it is left, with the exception of the first such block, and touches no other entry |
| `Reorganisation.FailedUpdateKeepsChain` | bcws/blockchain.py:411-441 | an update that raises leaves the index as it was, or on a part of the tip's line that is longer than what was shared |
| `Reorganisation.UpdateChangesNothingIff` | bcws/blockchain.py:411-441 | an update changes nothing exactly when its walks fail or the first block after the last shared one does not apply |
| `Reorganisation.ShortTipChangesNothing` | bcws/blockchain.py:416-427 | a tip with fewer ancestors than the canonical chain has blocks changes nothing, and the update raises |
| `Reorganisation.LowTipChangesNothing` | bcws/blockchain.py:416-427 | so does a well-numbered tip below the stored latest block |
| `Reorganisation.LowTipCanShortenChain` | bcws/blockchain.py:416-441 | a misnumbered tip below the stored latest block can make the canonical chain shorter before the update raises |
| `Reorganisation.RaisedBeforeSaves` | bcws/blockchain.py:411-433 | an exception that is not about an invalid block comes before the first save, whatever the index holds |
| `NodeRuns.CanonicalStoreAlwaysHoldsAChain` | bcws/blockchain.py:408-441 | after every run, with arbitrary blocks, exceptions halfway and restarts, the number index, snapshots and cached fields hold one replayed chain from genesis |
| `NodeRuns.RunsWithTheSameTipAgree` | bcws/blockchain.py:411-441 | two runs that end with the same highest block and canonicalise it agree on chain and states, whatever their arrival orders |
| `NodeRuns.EverySnapshotIsClosed` | bcws/blockchain.py:461-464 | after every run each stored snapshot up to latest is the ledger's closed form of its chain |
| `NodeRuns.ForkInvAlwaysIff` | bcws/blockchain.py:254-359 | over every run, with no condition on arrivals or restarts, the fork-manager invariant holds at every point if and only if every mined block that meets the difficulty finds all its ancestors known |
| `NodeRuns.NodeInvAlwaysIff` | bcws/blockchain.py:504-577 | what the node mines on is stored at every point of a run, whatever arrives, if and only if every restart finds the canonical head stored; without restarts always, and the fork-manager invariant is part of it |
| `NodeRuns.UpdatesSucceedIff` | bcws/blockchain.py:411-441 | in every run in which the fork-manager invariant holds, restarts included, that is when an update returns normally |
| `NodeRuns.HighestOnlyRises` | bcws/blockchain.py:361-364 | in every run each step but a restart keeps the highest block or replaces it by a strictly higher one, even when it raises |
| `NodeRuns.ProducerRoundExtendsTheChain` | bcws/blockchain.py:550-577 | after a successful first phase, also the first after a restart, a mined block becomes the highest block, and the next update, with no arrivals between, appends exactly it without raising |
| `NodeRuns.WellNumberedRuns` | bcws/blockchain.py:340-441 | over every run of well-numbered blocks without restarts the highest block is the first of the highest confirmed ones, the canonical head is stored and not above it, updates raise only for invalid blocks, and return normally exactly when the tip's ancestry is a valid chain |
| `NodeSteps.StepTouches` | bcws/blockchain.py:264-577 | which parts of a node each event can change: refused blocks, unasked answers and unmet nonces change nothing, a restart keeps the storages and nothing else |
| `NodeSteps.PoolAfterStep` | bcws/blockchain.py:48-90 | exactly who is in the mempool after each event: a gossiped transaction needs an accepted signature, an own one a signature, and mining evicts exactly what its selection rejected |
| `NodeSteps.PoolIsVetted` | bcws/blockchain.py:64-90 | after every run the mempool holds no transaction twice and only ones accepted by the signature check or announced, signed, by the node itself |
| `NodeSteps.CandidateIff` | bcws/blockchain.py:559-565 | a mining step yields a block to mine exactly when its update returns normally and no signature check raises |
| `NodeSteps.CandidateIsBuilt` | bcws/blockchain.py:559-565 | that block carries at most ten transactions of the mempool, those selected on the canonical chain's state, on top of that chain; they stay in the mempool, continue the chain's nonce order, repeat nothing on it, and the block is valid with every nonce that meets the difficulty |
| `NodeSteps.ChainAfterStep` | bcws/blockchain.py:411-441 | over every run only mining touches the canonical chain, which stays as it is or becomes a part of the highest block's line longer than what they shared |
| `NodeSteps.LowTipKeepsChain` | bcws/blockchain.py:411-427 | a restarted node keeps its whole chain while its highest block, well numbered, is below the stored latest one |
| `NodeSteps.ForkChoiceOverRuns` | bcws/blockchain.py:340-364 | over every run in which the fork-manager invariant holds, for arbitrary blocks and with restarts, the highest block is the first of the highest ones offered since the last restart, stored before or not |
| `NodeSteps.ArrivalOverRuns` | bcws/blockchain.py:264-273 | in such a run a gossiped block that ends up stored leaves the highest block at least as high, and becomes it when there was none or a lower one |
| `Admission.NewBlockKeepsAll` | bcws/blockchain.py:264-286 | a gossiped block gets in only when it meets the difficulty |
| `Admission.AnswerKeepsAll` | bcws/blockchain.py:314-332 | an answer gets in only when it is the parent asked for, one number below its child, and meets the difficulty |
| `Admission.UselessAnswer` | bcws/blockchain.py:314-326 | a wrong block leaves the query open and changes nothing; a timeout or an unusable parent closes it and lets nothing in |
| `Admission.NothingEntersWithoutWork` | bcws/blockchain.py:264-338 | after every run, restarts included, every known or stored block but genesis meets the difficulty |
| `ForkPoint.HeadStoredIffChainStored` | bcws/blockchain.py:447-451 | with arbitrary arrivals, the canonical head is in the block storage exactly when every canonical block is |
| `HeadStorage.NormalUpdateStoresChain` | bcws/blockchain.py:411-441 | an update that returns normally with a highest block leaves every canonical block stored, so only one that raises halfway can lose the head |
| `HeadStorage.HeadStaysStoredIff` | bcws/blockchain.py:411-441 | exact condition for one update, for arbitrary blocks: the head is stored afterwards if and only if it was before and every block of the new branch that is going to apply is stored |
| `HeadStorage.HeadAlwaysStoredIff` | bcws/blockchain.py:411-451 | exact condition over whole runs, restarts included: every canonical block is stored at every point if and only if that holds of the branch at each mining step; then the fork-manager invariant holds too |
| `HeadStorage.CanonicalBlocksAreStored` | bcws/blockchain.py:411-451 | when no arriving block but genesis claims number 0, every canonical block is in the block storage at every point of every run, restarts included, and the fork-manager invariant holds |
| `HeadStorage.StuckWithoutHead` | bcws/blockchain.py:447-480 | while there is a highest block and the canonical head is not stored, every update raises at once and changes nothing |
| `HeadStorage.RestartedMinerKeepsForkInvIff` | bcws/blockchain.py:340-354 | when a block is mined right after a restart, with nothing between, the fork-manager invariant survives if and only if the canonical head is stored; otherwise the block is stored without its parent and confirming raises |
| `LostHead.ScenarioExists` | bcws/blockchain_types.py:16-19 | for every difficulty that can be met there are blocks that meet it and make up the runs below |
| `LostHead.CanonicalHeadCanBeMissing` | bcws/blockchain.py:349-350 | a run without restarts, with a false number 0, makes an unconfirmed block canonical; the next update raises for want of it |
| `LostHead.LostHeadComesBack` | bcws/blockchain.py:264-273 | gossiped again, the lost head is stored, and once the chain has grown past the false branch the update returns normally with the main chain |
| `LostHead.RestartOnLostHead` | bcws/blockchain.py:550-557 | restarted instead, the node mines on the lost head and stores the new block without a parent it knows, which breaks the fork-manager invariant |
| `LostHead.OrphanInTime` | bcws/blockchain.py:264-273 | gossiped between the restart and the mined block, the lost head is stored in time and the invariant is kept |
| `Canonicalisation.ChainCanonicaliser.Create` | bcws/blockchain.py:394-409 | construction caches the stored latest block and raises when its hash is missing |
| `Canonicalisation.ChainCanonicaliser.FindForkPoint` | bcws/blockchain.py:416-427 | the two loops compute the walks from the stored head, exceptions included |
| `Canonicalisation.ChainCanonicaliser.ApplyBranch` | bcws/blockchain.py:432-441 | the loop over the reversed list applies and records block by block, up to the first that raises |
| `Canonicalisation.ChainCanonicaliser.UpdateCanonical` | bcws/blockchain.py:411-441 | an index that held a chain holds one afterwards, and on a normal return holds the highest block's ancestry; one that raises leaves the index as it was or on more of that ancestry than was shared |
| `Canonicalisation.ChainCanonicaliser.GetLatestState` | bcws/blockchain.py:443-445 | the snapshot at the stored latest number, or the exception for a missing one |
| `Canonicalisation.ChainCanonicaliser.GetBlockByNumber` | bcws/blockchain.py:453-459 | up to latest the block at that place of the canonical chain, and its last block for -1 |
| `Canonicalisation.ChainCanonicaliser.GetStateAt` | bcws/blockchain.py:461-464 | up to latest the replay of the canonical chain up to that block, and of all of it for -1 |
| `BlockchainNodes.BlockchainNode.CreateGenesis` | bcws/blockchain.py:579-584 | genesis is stored under its hash, as number 0, as latest, and with its empty state |
| `BlockchainNodes.BlockchainNode.Create` | bcws/blockchain.py:504-525 | on empty storages construction yields the fresh node the run theorems start from; with a stored latest entry it writes nothing and yields the restarted node of the run theorems, or raises when the latest hash is missing; without one it stores genesis first |
| `BlockchainNodes.BlockchainNode.Mine` | bcws/blockchain.py:567-577 | a block is returned exactly when some nonce meets the difficulty before a change of the tip is seen, and it has the first such nonce |
| `BlockchainNodes.BlockchainNode.PrepareBlock` | bcws/blockchain.py:559-565 | the update, the state and the block to mine are those of the first mining step |
| `BlockchainNodes.BlockchainNode.ProduceBlock` | bcws/blockchain.py:559-577 | one round leaves the node as the first mining step does and returns the candidate with the nonce the loop finds, whenever it finds one |
| `BlockchainNodes.BlockchainNode.BlockProducer` | bcws/blockchain.py:550-557 | whenever the nonce loop finds a block it is confirmed, and announced exactly when confirming does not raise; otherwise nothing is announced, and in each case the state left is stated |
| `GossipNetwork.DeliverView` | bcws/gossip.py:59-75 | a delivery of one id touches no other id and is either dropped or recorded and sent to every peer but its sender |
| `GossipNetwork.BroadcastFloods` | bcws/gossip.py:39-47 | a broadcast establishes the flooding invariant |
| `GossipNetwork.AcceptCovers` | bcws/gossip.py:69-75 | an acceptance keeps it: each peer of a node that has seen the id has seen it or has a copy in flight from that node |
| `GossipNetwork.AcceptCounts` | bcws/p2p.py:170-173 | an acceptance costs the node's degree less one |
| `GossipNetwork.GossipReachesEveryone` | bcws/gossip.py:59-75 | without refusals and without cleanups that forget the id, once no copy is in flight every node with a path from the origin has seen it, in any interleaving with other ids and cleanups |
| `GossipNetwork.DegreeSum` | bcws/p2p.py:159-173 | over a symmetric peer relation the degrees sum to twice the edges |
| `GossipNetwork.GossipCost` | bcws/gossip.py:59-75 | in such a run on a connected graph a broadcast costs exactly 2E - V + 1 copies whatever the order of deliveries |
| `GossipNetwork.CleanupsInTimeForgetNothing` | bcws/gossip.py:79-86 | cleanups anywhere within 300 seconds of the broadcast forget nothing of it, so coverage and the exact cost hold with them |
| `GossipNetwork.DeliveryLowersMeasure` | bcws/gossip.py:59-75 | every delivery lowers (unseen nodes, copies in flight) lexicographically, so flooding ends |
| `GossipNetwork.GossipAcceptsAtMostOnce` | bcws/gossip.py:64-86 | with cleanups anywhere, copies delivered within 300 seconds of the origin's recording are accepted at most once per node and never by the origin's handler |
| `GossipNetwork.LateCopyIsAcceptedTwice` | bcws/gossip.py:79-86 | for every longer delay there is an ordered run in which a node accepts the id twice, so the deadline is needed |
| `GossipNodes.P2PNode.SendMessage` | bcws/p2p.py:147-157 | nothing is sent to a node that is not a peer |
| `GossipNodes.P2PNode.BroadcastMessage` | bcws/p2p.py:159-173 | every peer but the excepted ones gets exactly one packet |
| `GossipNodes.Gossip.Broadcast` | bcws/gossip.py:39-47 | a new id is recorded and sent to all peers, a known one does nothing |
| `GossipNodes.Gossip.HandleGossip` | bcws/gossip.py:59-75 | a message is accepted exactly when its 16-byte id is new and the handler, asked with what follows the id, returns True; then it is recorded and passed to every peer but its sender |
| `GossipNodes.Gossip.CleanupLoop` | bcws/gossip.py:79-86 | exactly the entries at most 300 seconds old are kept |
| `Text.DecimalRoundTrip` | bcws/blockchain_types.py:28-29 | parsing a printed integer gives it back, negative ones included |
| `Text.NaturalText` | bcws/blockchain_types.py:28-29 | a printed number has exactly its decimal digits, most significant first and without leading zeros |
| `Text.NaturalParses` | bcws/blockchain_types.py:40-41 | digits, and at least one, are parsed, and give the number with these digits |
| `Text.DecimalText` | bcws/blockchain_types.py:28-29 | a negative integer prints as a minus sign and its magnitude |
| `Text.DecimalParses` | bcws/blockchain_types.py:40-41 | an integer is digits, or a minus sign and digits, and nothing else parses |
| `Text.HexRoundTrip` | bcws/blockchain_types.py:30-31 | `bytes.fromhex` undoes `hex` |
| `Text.HexText` | bcws/blockchain_types.py:30-31 | hexadecimal text is two lower-case digits a byte, the high half first |
| `Text.HexParses` | bcws/blockchain_types.py:42-43 | an even number of hexadecimal digits of either case is parsed, and each byte is its two digits |
| `Text.SplitJoin` | bcws/blockchain_types.py:39 | splitting undoes joining when no part holds the separator |
| `Text.JoinSplit` | bcws/blockchain_types.py:39 | joining undoes splitting for every text, and no part holds the separator |
| `Codec.TransactionRoundTrip` | bcws/blockchain_types.py:76-92 | parsing undoes printing for every signed transaction |
| `Codec.TransactionText` | bcws/blockchain_types.py:71-80 | the signed text is sender, receiver, nonce and amount with commas between, and the printed transaction adds the signature |
| `Codec.TransactionParses` | bcws/blockchain_types.py:82-92 | a text is a transaction exactly when it has five fields that parse, and then of these |
| `Codec.DataToSignInjective` | bcws/blockchain_types.py:71-74 | the signed text determines sender, receiver, nonce and amount |
| `Codec.BlockRoundTrip` | bcws/blockchain_types.py:26-46 | parsing undoes printing for every block of signed transactions, however many |
| `Codec.BlockText` | bcws/blockchain_types.py:26-31 | a block without transactions prints as number, nonce, parent hash and coinbase with colons between |
| `Codec.BlockTextOneMore` | bcws/blockchain_types.py:32-34 | each further transaction adds a colon and its text, or makes printing raise when it is not signed |
| `Codec.BlockParses` | bcws/blockchain_types.py:36-45 | a text is a block exactly when its first four fields parse as the header and every other one as a transaction |
| `Codec.SerializeBlockInjective` | bcws/blockchain_types.py:26-34 | two blocks with the same text are equal |
| `Codec.FreeHashIsFaithful` | bcws/blockchain_types.py:21-24 | for any hash function under which no two printed blocks collide, two free hashes stand for the same bytes exactly when they are equal |
| `Codec.DifficultyMeansSmallHash` | bcws/blockchain_types.py:16-19 | the zero-digit prefix test holds exactly when the leading bytes are zero, and the next nibble for an odd difficulty |
| `Codec.StateRoundTrip` | bcws/blockchain.py:216-230 | loading the JSON form of a state gives the state back, zero entries included |
| `Codec.StateText` | bcws/blockchain.py:224-230 | the JSON form has the number, the hash and the addresses in hexadecimal, and each balance and nonce under its address |
| `BlockRecords.BlockRecord.Serialize` | bcws/blockchain_types.py:26-34 | the accumulating loop prints the block's fields in order, or raises for an unsigned transaction |
| `BlockRecords.BlockRecord.CalculateHash` | bcws/blockchain_types.py:21-24 | the cached hash becomes that of the present content |
| `BlockRecords.BlockRecord.HasDifficulty` | bcws/blockchain_types.py:16-19 | the test never sees a stale hash |
| `BlockRecords.BlockRecord.Deserialize` | bcws/blockchain_types.py:36-46 | the parsed object has the printed content and its current hash, and parsing raises for an unsigned transaction |
| `BlockRecords.BlockRecord.SaveAndLoad` | bcws/blockchain.py:356-387 | a block stored and loaded again is equal, with an equal hash |
| `Wire.DigitsRoundTrip` | bcws/messaging.py:29 | `int.from_bytes` undoes `to_bytes` for every number that fits |
| `Wire.DigitsOf4` | bcws/messaging.py:29 | four bytes, the most significant first |
| `Wire.PrintableMessage` | bcws/messaging.py:26-33 | a message prints exactly when its type fits one byte and its id four |
| `Wire.MessageRoundTrip` | bcws/messaging.py:26-42 | a message that prints is parsed back exactly when its kind holds no zero byte |
| `Wire.MessageLayout` | bcws/messaging.py:26-33 | a printed message is the type, four bytes of id, the kind, a zero byte and the payload |
| `Wire.ParsedPrintsBack` | bcws/messaging.py:35-42 | what parses prints back to the same bytes, and what does not has no zero byte after the first five |
| `Wire.ParsedIdFits` | bcws/messaging.py:35-42 | a parsed message has a printable type and id and a kind without a zero byte |
| `Wire.FramesRoundTrip` | bcws/network.py:23-29 | a stream of length-prefixed frames is read back as the messages in order, and what follows as if it stood alone |
| `Wire.FrameLayout` | bcws/network.py:23-29 | a frame is four bytes of length, most significant first, and the message; messages of 2^32 bytes or more have none |
| `Wire.StreamIsFramesAndRest` | bcws/network.py:104-118 | every byte of a stream is read once: it is the frames read from it and a rest that holds no whole frame |
| `Wire.WireRoundTrip` | bcws/messaging.py:26-42 | any messages that can be sent, printed, framed and concatenated are recovered from that stream exactly and in order, with nothing left |
| `Wire.CarriesOneMore` | bcws/network.py:23-29 | writing one more framed message extends what the stream carries by exactly that message |
| `Network.Socket.Recv` | bcws/utils.py:37 | at most the asked number of bytes of the stream, none only at its end |
| `Network.RecvExact` | bcws/utils.py:32-43 | exactly the next n bytes whatever the chunks, or nothing once fewer are left |
| `Network.TcpConnection.SendMessage` | bcws/network.py:23-29 | one frame is written, nothing on a closed connection, and a message too long raises |
| `Network.TcpServer.RecvLoop` | bcws/network.py:104-121 | one pass delivers the next whole frame or announces the disconnect |
| `Network.TcpServer.Listen` | bcws/network.py:99-121 | all frames of a stream are delivered once and in order, then one disconnect is announced; the messages a stream carries arrive exactly and in order however it is cut into chunks |
| `Correlation.EveryHandlerFiresAtMostOnce` | bcws/messaging.py:70-136 | over every sequence of sends, responses and sweeps each registered handler is pending or has fired exactly once, for its own request and connection |
| `Correlation.RequestEndsAsItShould` | bcws/messaging.py:70-136 | whatever happens after a request was sent: until a response on its connection or a sweep at or after its deadline its handler is pending and silent; then it has fired exactly once, with the payload of the first response if that came first and with nothing if the sweep did |
| `Correlation.StrayResponseIsIgnored` | bcws/messaging.py:117-121 | a duplicate, late or foreign response changes nothing |
| `Correlation.FirstResponseFires` | bcws/messaging.py:117-121 | the first response of an unanswered request fires its handler with exactly that payload |
| `Correlation.SweepIsExact` | bcws/messaging.py:127-136 | a sweep removes exactly the entries whose time has come, fires each once with no payload, and touches no other |
| `MessagingLayer.Messaging.NextMessageId` | bcws/messaging.py:123-125 | each id is one above the last |
| `MessagingLayer.Messaging.RegisterHandler` | bcws/messaging.py:65-68 | one handler per kind: a second one raises and the first stays |
| `MessagingLayer.Messaging.SendMessage` | bcws/messaging.py:70-93 | the handler is registered under a new id with its deadline and the message framed under that id; a zero timeout means the default; what the connection carries grows by that message |
| `MessagingLayer.Messaging.HandleMessage` | bcws/messaging.py:95-115 | a request goes, with its payload, to the handler of its kind and is answered at most once under its own id, an unknown kind is ignored, a handler's exception is passed on, a response reaches its request, and nothing else is written or fired |
| `MessagingLayer.Messaging.HandleResponse` | bcws/messaging.py:117-121 | the entry is removed before its handler fires |
| `MessagingLayer.Messaging.ProcessTimeouts` | bcws/messaging.py:127-136 | after the sweep no remaining entry has expired |

## Left out

- HeadStorage.CanonicalBlocksAreStored: its condition on the arrivals alone is sufficient; the exact one, on the states at mining steps, is HeadStorage.HeadAlwaysStoredIff.
- ForkTheorems.OrphanCatchesUp: the answers come back to back; CatchUp.CatchesUpInEveryRun lets anything but a timeout of the block's own search happen between them.
- CatchUp.CatchesUpAmidOtherEvents: the count is for one search; a second gossip of the block opens a second one, and CatchUp.CatchesUpInEveryRun covers such runs without the count.
- CatchUp.CatchesUpInEveryRun: a search that times out is not asked again by the code, so after a timeout of the block's own search nothing is promised.
- MessagingLayer.Messaging.HandleMessage: the effects of an application's handler other than its result.
- BlockchainNodes.BlockchainNode.Mine: the endless nonce loop is followed for any finite list of observations of the tip; when the list ends the loop counts as still running.
- Codec.StateRoundTrip: the JSON text itself is a library call; an object in which two spellings of one address occur is refused instead of collapsed.
- Text.DecimalRoundTrip: white space, underscores, plus signs and digit limits of `int()`, and the white space `bytes.fromhex` skips, are refused by the model's parsers.
- Wire.WireRoundTrip: a kind is its UTF-8 bytes; encoding and decoding of characters is not modelled.
- Network.Socket.Recv: a receive that raises is the end of the stream.
- GossipNetwork.GossipReachesEveryone: the peer relation is static and symmetric, and no copy is lost.
- Threads, locks, sleeps and `InfiniteLoop`: check-then-act sequences are not claimed to be safe under interleaving inside a step.
- Disk files and crashes between the three saves of one iteration.
- The mempool's time stamps: a timed-out transaction is an event.
- Multi-hop search delivery (bcws/search.py): a query is an event that answers with a block or nothing, and the order of a dictionary of queries is not kept (they are a multiset).
- Peer discovery, hello messages and peer-count bounds of `P2PNode`, and the lookup of the peer of a connection (bcws/p2p.py:251-261).
- SHA-256 and ECDSA internals, logging, the command line, the web previewer and the scripts.
