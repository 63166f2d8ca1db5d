# The chain core of a compact-filter light client

This project models the chain core of a BIP 157/158 light client and proves what it promises: the
tree of block headers with its index of the active chain, the sync of filter headers and filters,
the staging of header rows for the database, the queue of blocks to download, and the phase machine
of the node that ends in the `Synced` event.

## How the model is built

Every stateful part appears twice. A **value** (a datatype and ghost functions on it) says what one
operation computes; the theorems are about these values. A **class** has the mutable fields of the
source and methods with its loops and branches; each method is proved to take the value of the old
state to the value of the new one, so the theorems hold of it. `Nodes.Node.Run` closes the circle: a
run of the class is a run of the steps that the theorems speak of.

The values in turn are held to laws that do not name them. `GraphAnswers`, `HeaderMessages`,
`Findings`, `LoadAnswers` and `NodeAnswers` say, as equivalences, what each operation answers and
changes, told from the fields of the state, the message and the flags of the network. `Causes` traces
every event, every check and every stored header of a run to the one input that caused it.

| files | what they hold |
|---|---|
| `Commons`, `Hashes`, `Filters` | list reversal and a little arithmetic; headers, hashes, descent between hashes; filter hashes and filter headers |
| `Graph`, `GraphInvariant`, `GraphIndex`, `GraphWork`, `GraphRetarget`, `GraphFilters`, `GraphRuns`, `GraphAudit`, `GraphAnswers` | the block tree as a value, and what holds of its steps and runs |
| `BlockTree` | the mutable block tree |
| `HeaderStore`, `BlockQueue`, `FilterHeaders`, `Monitors` | the header store, the block queue, batches and the quorum, the height monitor: values, theorems and classes |
| `ChainState`, `ChainPersistence`, `FilterHeaderChain`, `FilterRequests`, `FilterProgress`, `ChainLoad`, `LoadAnswers`, `ChainInvariant`, `HeaderMessages`, `Findings` | the chain as a value, and its theorems |
| `Chain` | the mutable chain |
| `NodeState`, `NodeRuns`, `Node` | the node's steps as values, their runs, and the mutable node |
| `NodeAnswers`, `Causes`, `NodeSync`, `ScriptsSynced`, `NodeChains`, `Deliveries`, `Evidence`, `Quorum`, `Staging`, `TableFollows`, `TableRuns`, `Reload` | what each step and each whole run of the node does: causes, phases, the `Synced` event and the scripts, filter headers, delivered blocks, what flags stand on, the quorum, staged rows, the table in the database, restarts |
| `NodeMoves`, `FailingRuns`, `StaleStops`, `RestartRuns` | concrete runs from the start, with one peer, in which the node does less than it seems to promise |

Modelling decisions:

- A hash is a free constructor, `Of(header)` or an opaque `Anchor`: block hashing is taken to be
  injective, and a header cannot be its own ancestor. Filter hashes and filter headers are free
  constructors in the same way.
- The bits of a header carry a positive amount of work. Retargeting, proof of work and the allowed
  transitions between bits are uninterpreted functions of a `Network`; matching a filter against
  scripts is an uninterpreted function; whether the merkle root of a block matches is a field.
- Time is an argument. A message, a client call or a turn of the node's loop is one atomic step.
- The table of the database is a map from heights to headers. A write may fail at its start, while it
  deletes, while it inserts, or at its commit.
- `Origin` is a device of the proofs: the hash and height that the oldest header of a tree stands on.
- `log` is a history kept for the proofs: which filters were checked and how, which headers were
  assumed checked, which blocks were disconnected or delivered.

## Where the code does less than it seems to promise

Each of these is proved with the exact condition under which the code does meet the promise, and
with a run or a state in which it does not.

- A reorganization to a branch that has more work but is shorter leaves entries of the old branch in
  the height index, above the new tip (`ReorganizationKeepsIndexIff`, `ShorterBranchLeavesStaleEntry`).
- Such an entry can become the stop hash of a request for filter headers. A reply that passes all
  checks is then committed on the dead branch and breaks the chain of filter headers. A request is
  safe if and only if it fits what is committed, and the next request fits if and only if its stop
  hash suits (`FitsIffSafe`, `NextRequestFitsIff`, `StepKeepsFilterChained`, `StaleStopBreaksChain`).
- The same entries stay in the table of the database. The table loads over every range if and only if
  the index is exact; after a shorter reorganization a load fails exactly if its range holds the new
  tip and the row above it. The next start of the client then reports that the database is corrupt,
  although every write succeeded (`RunLoadsIff`, `ReorganizedLoadsIff`, `ShortReorganizationLoadsIff`,
  `ShortReorganizationCorruptsIff`, `ShorterBranchCorruptsTable`).
- A write that fails after its start loses what was staged, since the buffers are emptied first. The
  table follows the index after a message if and only if its write loses no rows. If a lost row is
  followed by one that is written, the next start cannot locate the history (`FailedWriteLoses`,
  `SyncChainFollowsIff`, `FailedWriteStopsRestart`).
- A client that starts from a bare checkpoint takes in headers with any bits. A restart that roots the
  tree at a stored header holds the rows above it to the bits of that header, until a retarget is due.
  A chain with two kinds of bits is then not loaded up to its tip (`ReloadReachesTip`,
  `MixedBitsStopRestart`).
- A request for filter headers stays outstanding after it was answered. A later reply to it is counted
  again, and may replace the commitments of headers whose filters are already checked
  (`ReplyRehashesIff`, `StepKeepsTiedIff`, `AnsweredRequestIsAnsweredAgain`).
- A rejected extension of a candidate fork removes that candidate for good. A later good extension
  starts a new fork, which is never compared with the tip, so the tip may fall behind
  (`CandidatesStayLeavesIff`, `TipStaysBestIff`, `DroppedCandidateHidesBestChain`).
- A restart roots the tree at a stored header without indexing it. The comment in the loader expects
  the next adjustment to be audited, but it is not when that root is the block one interval back
  (`AdjustmentLookup`, `RestartSkipsAdjustment`, `RestartForgetsAdjustment`). For the same reason a
  reorganization that forks at the root reports the root among the accepted headers
  (`ReorganizationReport`).
- At an adjustment a header on a fork is held to the retarget of the active headers at those heights,
  not of its own ancestors. If the two differ, the right bits are refused, and a candidate that they
  would have extended is given up (`AsksOwnIff`, `OwnBitsRefusedIff`, `ValidForkIsRefused`). Other bits
  may pass: while the index stays exact, that is the only way in which stored headers leave the
  difficulty rule (`AcceptKeepsAuditedStoredIff`).
- A message compares headers with the one checkpoint that was due when it arrived, so a second one in
  the same message is passed over. A header that misses the checkpoint is refused with an error, but
  the tree has taken it as its tip (`BatchStops`, `MessagePassesIff`, `MissedHeaderIsTip`,
  `SecondCheckpointIsPassedOver`).
- A quorum may count one peer more than once (`ExtendedIsBackedIff`, `TallySurvivesIff`,
  `OnePeerMeetsQuorumOfTwo`, `OnePeerCommitsAlone`).
- A rescan clears the flag of every active header, but on a fork it stops at the first header that is
  not checked (`ResetKeepsFlagIff`, `RescanMissesFork`).
- A header that is accepted while the last blocks are being downloaded does not move the node back, so
  it is announced as synced although its filter was never looked at (`AcceptKeepsScanIff`,
  `MessageKeepsScanIff`, `LateHeaderIsNotScanned`, `LateHeaderIsAnnounced`).
- A block whose header is disconnected while it waits in the queue is given up, and stays given up if
  the header is connected again, since its flag says checked (`EmptyQueueSettlesIff`,
  `ReconnectedBlockIsNeverDelivered`).

## Model

| member | source | states |
|---|---|---|
| GraphInvariant.StartsValid | src/chain/graph.rs:95-147 | all three constructors give a well-placed tree whose candidates are exactly its leaves |
| GraphInvariant.AcceptValid | src/chain/graph.rs:149-289 | any header keeps the tree well placed: each height is the stored parent's plus one, each cached work the parent's plus its own, one root, the tip stored, candidates childless, distinct and at the right height; and no leaf goes untracked unless a candidate is dropped |
| GraphInvariant.CandidatesStayLeavesIff | src/chain/graph.rs:196-249 | if the candidate forks are exactly the leaves other than the tip, they stay so if and only if the step is not the rejection of a candidate's extension |
| GraphInvariant.DroppedCandidateIsForgotten | src/chain/graph.rs:201-219 | such a rejection leaves a stored, childless header that is neither tip nor candidate |
| GraphInvariant.CachedWorkIsWalkWork | src/chain/graph.rs:177-186 | the cached work of a header is the sum of the work along its path to the root |
| GraphInvariant.WalkDescends | src/chain/graph.rs:491-534 | the i-th header of an ancestor walk is i heights below its start, so the walk ends and repeats nothing |
| GraphIndex.ExactIsTheWalk | src/chain/graph.rs:343-348 | an exact index answers each height above the root up to the tip with the tip's ancestor there, and has no entry above the tip or below the root |
| GraphIndex.SwitchIsExact | src/chain/graph.rs:291-324 | the switch that stops at the first entry it agrees with still leaves every height up to the new tip indexed by the new tip's ancestor |
| GraphIndex.SwitchReports | src/chain/graph.rs:291-324 | the two lists of a switch are the two branches down to where they meet, newest first; the meeting point is reported only if it is not indexed |
| GraphIndex.ReorganizationKeepsIndexIff | src/chain/graph.rs:299-312 | a reorganization keeps an exact index exact if and only if the new chain is at least as tall as the one it replaces |
| GraphIndex.ReorganizationReport | src/chain/graph.rs:291-324 | `accepted` is the new tip's path and `disconnected` the old tip's path down to the deepest common ancestor, newest first, plus that ancestor if it is the unindexed root |
| GraphIndex.ReorganizationRows | src/chain/graph.rs:291-324 | with or without an exact index, the new index is the old one minus what is reported disconnected plus what is reported accepted |
| GraphIndex.ReorganizationDisplaces | src/chain/graph.rs:299-318 | every index entry that an accepted header overwrites is reported as disconnected, at its own height |
| GraphIndex.AcceptKeepsExact | src/chain/graph.rs:149-289 | every step whose reorganization, if any, is tall enough keeps the index exact |
| GraphWork.TipWorkRises | src/chain/graph.rs:153-249 | the work of the tip never falls; it strictly rises exactly on an accepted header or a reorganization, which are exactly the steps that change the tip |
| GraphWork.MovesTipIff | src/chain/graph.rs:153-249 | a header moves the tip if and only if it is a child of the tip with the demanded bits, or a new extension of a candidate with the demanded bits and more work than the tip |
| GraphWork.TipStaysBestIff | src/chain/graph.rs:252-285 | the tip stays the header with the most work if and only if the step does not start a fork that already outworks it |
| GraphWork.UniformTipStaysBest | src/chain/graph.rs:196-249 | with uniform bits and every leaf tracked, the tip stays best, and a reorganization raises the height by exactly one |
| GraphRetarget.AdjustmentLookup | src/chain/graph.rs:326-341 | at an adjustment the two index lookups give the retarget of the tip's own ancestors one interval and one block back, if the block one interval back is indexed; otherwise nothing |
| GraphRetarget.TipDemand | src/chain/graph.rs:153-171 | in a run from genesis the tip accepts a child if and only if it has its parent's bits off adjustments, and the retarget of its own ancestors at them |
| GraphRetarget.AcceptKeepsAudited | src/chain/graph.rs:153-190 | every step without a reorganization keeps each active header to that rule |
| GraphRetarget.RestartSkipsAdjustment | src/chain/chain.rs:113-126 | after a restart rooted one interval below an adjustment, that adjustment accepts any bits |
| RestartRuns.RestartForgetsAdjustment | src/chain/chain.rs:105-171 | a run from the start up to the block before an adjustment, where the running client demands the retarget; the next start, on what was stored, gets to the same tip and accepts any bits there |
| GraphRuns.ReachableValid | src/chain/graph.rs:149-289 | every reachable tree is well placed |
| GraphRuns.ReachableExact | src/chain/graph.rs:149-324 | every tree reached over reorganizations at least as tall as what they replace has an exact index |
| GraphRuns.BestChainFromStart | src/chain/graph.rs:106-147 | without retargeting, every run from genesis or a header that drops no candidate ends with the best tip, all leaves tracked and an exact index |
| GraphRuns.ReachableAudited | src/chain/graph.rs:326-341 | from any audited tree, every run without a reorganization ends audited |
| GraphRuns.RuleFromGenesis | src/chain/graph.rs:106-127 | with retargeting, every run from genesis without a reorganization ends with each active header on the difficulty rule |
| GraphAudit.StartCanLookUp | src/chain/graph.rs:95-147 | the lookups find headers above a checkpoint, above a stored header, and from genesis on |
| GraphAudit.AcceptKeepsAuditedActive | src/chain/graph.rs:153-190 | from an adjustment with an indexed header one interval below it on, every step without a reorganization keeps active headers to the difficulty rule, and the tip accepts a child if and only if it keeps the rule |
| GraphAudit.RuleFromStart | src/chain/graph.rs:95-147 | so it is over every such run from a checkpoint, a stored header or genesis |
| GraphAudit.AsksOwnIff | src/chain/graph.rs:206-213 | a child at an adjustment is held to the retarget of its own ancestors if and only if it is at most one above the tip and the active headers at those heights give the same |
| GraphAudit.ActiveParentAsksOwn | src/chain/graph.rs:153-171 | on an active parent it always is |
| GraphAudit.OwnBitsRefusedIff | src/chain/graph.rs:256-264 | a header with the bits that its own ancestors demand is refused at an adjustment if and only if its parent is not above the tip and the active headers give another retarget |
| GraphAudit.ValidForkIsRefused | src/chain/graph.rs:201-219 | a run from genesis in which a fork header with the bits of its own rule is refused and its candidate given up |
| GraphAudit.AcceptKeepsAuditedStoredIff | src/chain/graph.rs:149-289 | every step, reorganizations included, keeps all stored headers from an adjustment on to the rule of their own ancestors if and only if a reorganization is tall enough and no fork header passes an adjustment on a demand that is not its own |
| GraphAudit.RuleWithForks | src/chain/graph.rs:149-324 | so it is over every such run from each start |
| GraphRuns.DroppedCandidateHidesBestChain | src/chain/graph.rs:201-219 | a run from a header in which a bad extension of a fork makes the tip fall behind |
| GraphRuns.ShorterBranchLeavesStaleEntry | src/chain/graph.rs:299-312 | a run from a checkpoint in which a heavier, shorter branch leaves a stale entry |
| GraphAnswers.AnswerIff | src/chain/graph.rs:149-289 | a header is a duplicate exactly if it is stored, floats exactly if neither it nor its parent is known, and is accepted only on the tip, at the height above it |
| GraphAnswers.TipAsks | src/chain/graph.rs:153-190 | a child of the tip is asked for what the tip hands down if the network has either flag or the height is no multiple of the interval, and otherwise for the retarget; with other bits it is refused and nothing changes, and else the tip hands on what was asked |
| GraphAnswers.CandidateAsks | src/chain/graph.rs:196-249 | the same of a child of a candidate, with what the candidate hands down; it is adopted exactly if it has more work than the tip |
| GraphAnswers.NewForkAsks | src/chain/graph.rs:252-285 | the same of a header that starts a fork, with the bits of its parent |
| GraphAnswers.FlaggedNetworkKeepsBits | src/chain/graph.rs:106-147 | with either flag, every header of any run from genesis or a stored header has the bits of the first |
| GraphAnswers.UnflaggedNetworkRetargets | src/chain/graph.rs:326-341 | with neither, in every run from genesis without a reorganization each active header has its parent's bits off multiples of the interval, and at them the retarget of its own ancestors |
| GraphFilters.BlockHashAtIsActive | src/chain/graph.rs:343-348 | on an exact index a height lookup answers with the active header at that height |
| GraphFilters.RecentIsActive | src/chain/chain.rs:84-90 | the last ten headers are exactly the active headers of the last ten heights |
| GraphFilters.ResetKeepsFlagIff | src/chain/graph.rs:423-449 | a rescan keeps a flag exactly on an inactive header that no candidate fork reaches through checked headers alone |
| BlockTrees.LocatorIsActive | src/chain/graph.rs:471-485 | the i-th locator below the tip is the active header at the i-th distance |
| BlockTrees.BlockTree.constructor | src/chain/graph.rs:95-104 | an empty, valid tree on a checkpoint |
| BlockTrees.BlockTree.FromGenesis | src/chain/graph.rs:106-127 | a valid tree of the genesis block, indexed |
| BlockTrees.BlockTree.FromHeader | src/chain/graph.rs:129-147 | a valid tree of one header, which is not indexed |
| BlockTrees.BlockTree.AcceptHeader | src/chain/graph.rs:149-289 | the tree and the answer are those of `Accept`, for every header: extension, duplicate, fork, reorganization or rejection; the tree stays valid |
| BlockTrees.BlockTree.ExtendActive | src/chain/graph.rs:153-190 | the extension of the tip, with its audit of the bits |
| BlockTrees.BlockTree.ExtendForkAt | src/chain/graph.rs:196-249 | a candidate is taken off the list, and comes back longer, wins, or is lost |
| BlockTrees.BlockTree.ForkFrom | src/chain/graph.rs:252-285 | a fork starts from a stored header and is not compared |
| BlockTrees.BlockTree.SwitchToFork | src/chain/graph.rs:291-324 | the loop that repairs the index in place, with its early exit, leaves the index and the two lists of the recursive `Switch` |
| BlockTrees.BlockTree.ComputeNextWorkRequired | src/chain/graph.rs:326-341 | the retarget of the two looked-up headers, or nothing if either is missing |
| BlockTrees.BlockTree.FilterHeadersSynced | src/chain/graph.rs:451-455 | true if and only if every active header has a commitment |
| BlockTrees.BlockTree.FiltersSynced | src/chain/graph.rs:457-459 | true if and only if every active header is checked |
| BlockTrees.BlockTree.HasFilterHeader | src/chain/chain.rs:306-313 | true if and only if an active header commits to the filter header |
| BlockTrees.BlockTree.LastTen | src/chain/chain.rs:84-90 | the newest ten headers of the walk, by height |
| BlockTrees.BlockTree.AssumeCheckedTo | src/chain/graph.rs:406-414 | exactly the active headers up to the height become checked; nothing else changes |
| BlockTrees.BlockTree.ResetAllFilters | src/chain/graph.rs:423-449 | the walk of the tip and the checked runs of the forks are cleared; nothing else changes |
| BlockTrees.BlockTree.Locators | src/chain/graph.rs:471-485 | the known hashes at the fixed distances below the tip, oldest first, ending with the tip |
| BlockTrees.BlockTree.UncommittedBelowTip | src/chain/chain.rs:393-407 | the lowest height of the uncommitted run below the tip and the filter header it stands on |
| BlockTrees.BlockTree.UncheckedBelowTip | src/chain/chain.rs:497-508 | the lowest height of the unchecked run below the tip |
| HeaderStores.StageIsEagerIff | src/db/sqlite/headers.rs:140-162 | one staged change has its eager effect on the table-to-be if and only if it does not uncover an older row |
| HeaderStores.StageKeepsNoConflict | src/db/sqlite/headers.rs:140-162 | a change whose heights are free once the disconnected rows are gone has its eager effect and leaves no conflict behind |
| HeaderStores.StagedBatchIsEager | src/db/sqlite/headers.rs:140-162 | so does any sequence of such changes, even when a header is disconnected and accepted again before the write |
| HeaderStores.WriteIsEager | src/db/sqlite/headers.rs:164-181 | one write of such a batch leaves the table that applying each change at once would |
| HeaderStores.FailedWriteLoses | src/db/sqlite/headers.rs:164-181 | a failed write leaves the table alone, and what is pending changes if and only if it had rows to lose: at its start nothing; while it deletes, a deleted row without a new one in its place; while it inserts or at its commit, that or a staged row that the table does not have yet |
| HeaderStores.HeaderStore.StageChanges | src/db/sqlite/headers.rs:140-162 | the buffers become those of `Stage`; the table is untouched |
| HeaderStores.HeaderStore.WriteChanges | src/db/sqlite/headers.rs:164-181 | the delete loop and the insert loop turn the table into `(table - disconnected) + accepted`, or fail with the stated loss |
| HeaderStores.HeaderStore.Load | src/db/sqlite/headers.rs:87-138 | all rows of the range if all neighbouring rows link, and corruption otherwise |
| TableFollows.HeaderFollows | src/chain/chain.rs:187-259 | whatever a header does, extending, forking or reorganizing to any height, its changes keep the rows in step with the height index |
| TableFollows.LoadsIffExact | src/db/sqlite/headers.rs:87-138 | rows in step with the index load over every range if and only if the index is exact |
| TableFollows.ReorganizedLoadsIff | src/chain/chain.rs:225-246 | after a reorganization of an exact tree the rows load over every range if and only if the new chain is at least as tall as the one it replaces |
| TableFollows.ShortReorganizationLoadsIff | src/chain/chain.rs:225-246 | after a reorganization to a shorter chain a range of the table loads if and only if it does not hold both the new tip and the stale row above it |
| TableRuns.SyncChainFollowsIff | src/chain/chain.rs:174-272 | after any batch of headers, with any reorganizations, an early error or a failing write, the table with what is staged follows the index if and only if the write lost no rows |
| TableRuns.StepFollowsIff | src/node.rs:383-725 | so it is for every input of the node |
| TableRuns.RunLoadsIff | src/chain/chain.rs:105-267 | after any run whose writes lost no rows, reorganizations of any height included, the table-to-be follows the index, and loads over every range if and only if the index is exact |
| TableRuns.RunTableIsChain | src/chain/chain.rs:105-267 | and then it is the active chain |
| TableRuns.PersistsIsFollowed | src/chain/chain.rs:105-171 | a load that starts in agreement is a start of such a run |
| TableRuns.ShortReorganizationCorruptsIff | src/db/sqlite/headers.rs:115-138 | a client that starts on the rows left by a reorganization to a shorter chain reports corruption if and only if it starts from below the new tip |
| RestartRuns.ShorterBranchCorruptsTable | src/chain/chain.rs:225-267 | a run from the start in which a shorter branch wins and every write succeeds; the next start reports that the database is corrupt |
| RestartRuns.FailedWriteStopsRestart | src/db/sqlite/headers.rs:164-181 | a run from the start in which the first write fails at its commit and the second succeeds; the next start cannot locate the history |
| Staging.ReorganizationUncoversNothing | src/chain/graph.rs:291-324 | no reorganization of a tree drops a staged row without replacing it |
| Staging.SyncChainStages | src/chain/chain.rs:174-272 | after any batch, with any reorganizations, with or without an early error, the table-to-be is the one that eager changes would leave |
| Staging.StagingIsEager | src/chain/chain.rs:185-267 | so it is over every run from the start whose writes work or fail at their start |
| ChainPersistence.UniformNeverShort | src/chain/chain.rs:187-259 | without retargeting, every reorganization in a batch is tall enough as long as no candidate is dropped, so the condition of the theorems here is met, and stays met |
| ChainPersistence.AgreeingTableIsChain | src/db/sqlite/headers.rs:87-138 | an agreeing table loads without corruption over every range and, above the origin, is exactly the active chain |
| TableRuns.WrittenTableLoadsIff | src/chain/chain.rs:185-267 | after a batch without error the table itself loads over every range if and only if the index is exact, and then it is the active chain |
| BlockQueues.AddAppends | src/chain/block_queue.rs:28-33 | `add` appends to the line if the block is not in it, and keeps the line free of repeats |
| BlockQueues.PopRequestsHead | src/chain/block_queue.rs:43-61 | `pop` requests the head of the line and leaves the line unchanged; it answers nothing exactly if the line is empty or its head was requested under five seconds ago |
| BlockQueues.ReceiveRemovesWantedHead | src/chain/block_queue.rs:69-80 | `receive` removes only the wanted head |
| BlockQueues.RemoveFilters | src/chain/block_queue.rs:86-93 | `remove` filters the line, the wanted block included |
| BlockQueues.RequestsAreSpaced | src/chain/block_queue.rs:43-61 | over any run, a repeated request is for the block requested last, five seconds or more later |
| BlockQueues.RunKeepsNoRepeats | src/chain/block_queue.rs:28-93 | over any run the line has no repeats |
| BlockQueues.BlockQueue.Contains | src/chain/block_queue.rs:35-41 | true if and only if the block is in the line |
| BlockQueues.BlockQueue.Complete | src/chain/block_queue.rs:82-84 | true if and only if the line is empty |
| BlockQueues.BlockQueue.AddBlock | src/chain/block_queue.rs:28-33 | the queue becomes that of `Add` |
| BlockQueues.BlockQueue.PopBlock | src/chain/block_queue.rs:43-61 | the queue and the request are those of `Pop` |
| BlockQueues.BlockQueue.ReceiveBlock | src/chain/block_queue.rs:69-80 | the queue becomes that of `Receive` |
| BlockQueues.BlockQueue.RemoveBlocks | src/chain/block_queue.rs:86-93 | the retain loop leaves the queue of `Remove` |
| FilterHeaders.ChainedLinks | src/chain/cfheader_batch.rs:16-32 | the i-th filter header of a batch hashes the i-th filter hash onto the one before |
| FilterHeaders.BatchesAreFaithful | src/chain/cfheader_batch.rs:16-32 | two messages make equal batches only if they are the same message |
| FilterHeaders.CFHeaderBatch.constructor | src/chain/cfheader_batch.rs:16-32 | the loop builds the chained batch |
| FilterHeaders.VoteStaysBelowQuorum | src/chain/chain.rs:339-371 | between calls the count stays below the quorum; a conflict or an extension clears batch and count |
| FilterHeaders.ExtendedIsBackedIff | src/chain/chain.rs:339-371 | a completed round is backed by the required number of distinct agreeing peers if and only if the last of them had not been counted |
| FilterHeaders.TallySurvivesIff | src/chain/chain.rs:339-357 | the count stands for distinct agreeing peers after a message unless the first peer sends again, or a counted peer repeats the batch |
| FilterHeaders.QuorumIsSound | src/chain/chain.rs:339-371 | among counted messages, if no peer sends twice, the round completes exactly with the required number of peers and equal batches |
| Quorum.StepKeepsTally | src/node.rs:383-725 | over every input of the node, the count stands for distinct agreeing peers, unless a counted peer repeats the batch or the first of them sends again |
| Quorum.ExtensionsAreBacked | src/chain/chain.rs:294-372 | over every such run from the start, an extension is backed by the required number of distinct peers with one batch, and lowers the uncommitted headers by its length if and only if the stop hash is still active and nothing in range was committed |
| FilterHeaders.OnePeerMeetsQuorumOfTwo | src/chain/chain.rs:339-357 | one peer completes a quorum of two with its third message, whatever that carries |
| FailingRuns.OnePeerCommitsAlone | src/chain/chain.rs:339-371 | a run from the start in which a client that asks two peers to agree hears one, and commits its third message, whatever filter it names |
| FilterHeaderChain.PushBatchCommits | src/chain/chain.rs:374-389 | the backwards walk puts each commitment on the ancestor of the stop hash at its distance, and on nothing else |
| FilterHeaderChain.BatchCommitsRange | src/chain/chain.rs:323-337 | a reply that is held to its request has one commitment for each height from start to stop; the i-th goes to the header at start plus i, and no other header changes |
| FilterHeaderChain.AcceptKeepsFilterChain | src/chain/chain.rs:294-421 | any header, forks and reorganizations included, keeps the commitments chained and the outstanding request fit |
| FilterHeaderChain.CommitKeepsFilterChain | src/chain/chain.rs:294-389 | so does a committed batch: a committed header's stored parent is committed, and its filter header is the hash of its filter hash with the parent's |
| FilterRequests.NextCFHeaderRequestFits | src/chain/chain.rs:392-421 | on an exact index, a request sent while filter headers are missing stops on the active chain at or above its start, spans at most 2,000 blocks, all of them uncommitted, and fits the chain of commitments |
| FilterRequests.FitsIffSafe | src/chain/chain.rs:300-389 | a request fits what is committed if and only if no reply that passes the checks can break the chain of filter headers |
| FilterRequests.NextRequestFitsIff | src/chain/chain.rs:392-421 | the next request fits if and only if its stop hash descends from the lowest uncommitted active header, or from a header beside it that may as well be committed |
| FilterProgress.CommitLowersIff | src/chain/chain.rs:374-389 | a committed batch takes its range off the uncommitted active headers; their number falls by its length if and only if the stop hash is active and nothing in range was committed |
| FilterProgress.RepliesCommit | src/chain/chain.rs:339-371 | the same passing message from distinct peers is only counted short of the quorum, and committed with the last of them |
| FilterProgress.RoundProgress | src/chain/chain.rs:294-421 | a round of a request and a quorum of agreeing replies commits the 2,000 lowest uncommitted headers, or all |
| FilterProgress.RoundsReachSync | src/chain/chain.rs:294-426 | repeated rounds of request, replies and quorum reach the synced state exactly when they cover the uncommitted headers, 2,000 at a time |
| FilterProgress.NextFilterStartsLowestIff | src/chain/chain.rs:496-518 | the next request for filters starts at the lowest unchecked header if and only if the checked headers form a prefix |
| FilterProgress.NextFilterRequestRange | src/chain/chain.rs:496-518 | every request for filters stops on the active chain, at or above its start, and spans at most 1,000 blocks |
| FilterProgress.GoodFilterExtendsPrefix | src/chain/chain.rs:429-493 | a good filter for the lowest unchecked header extends the prefix by one |
| FilterProgress.RangeProgress | src/chain/chain.rs:478-493 | a range that arrives in order lowers the unchecked count by its length; its last filter asks for more exactly if something is left unchecked |
| FilterProgress.RangeLowers | src/chain/chain.rs:478-518 | a range that answers the outstanding request checks off the 1,000 lowest unchecked headers, or all |
| FilterProgress.FirstAsk | src/chain/chain.rs:496-518 | if a prefix of the active chain is checked, the request for filters starts such a scan |
| FilterProgress.RangesReachSync | src/chain/chain.rs:429-518 | after the first request, each range that arrives in order asks for the next, and everything is checked exactly when the ranges cover the unchecked headers, 1,000 at a time |
| ChainLoad.RestartRoundTrip | src/chain/chain.rs:105-171 | loading a table that goes on from its base gets to the top if and only if each row has the bits demanded of it, at adjustments the retarget of the rows one interval and one back where both are loaded; then every row above the base is active at its stored height, and exactly the headers up to the scan height are checked |
| ChainLoad.LoadsOneChain | src/chain/chain.rs:105-171 | whatever the table, a load that succeeds ends with one unforked chain, exactly indexed, checked exactly up to the scan height |
| ChainLoad.RestartAgrees | src/chain/chain.rs:105-171 | loading a good table whose rows meet their demands starts the run with table and tree in agreement |
| Reload.ReloadReachesTip | src/chain/chain.rs:105-171 | where no height above the base is held to a retarget, loading the table of a run that lost no rows and ends with an exact index, onto a base on its active chain, ends at the tip of the run if and only if the base asks for no bits, or for those that all active headers above it have |
| RestartRuns.MixedBitsStopRestart | src/chain/chain.rs:105-126 | a run from the start, without retargeting, whose first header has other bits than the rest; a later start that is rooted at that header does not get back to the tip |
| Reload.AuditedRunReloads | src/chain/chain.rs:105-171 | on a retargeting network, if the active headers of the run keep the difficulty rule from some adjustment on, loading its table onto any base at or above that adjustment ends at its tip |
| LoadAnswers.LoadStartsAt | src/chain/chain.rs:105-126 | a load that succeeds is rooted at the header of the last adjustment or of seven blocks back, the lower if it is stored, else the higher if that is stored, else at the checkpoint |
| ChainLoad.FirstMissStops | src/chain/chain.rs:127-165 | a load stops below the first row with other bits than demanded: silently if that is the top row, and unable to locate the history if another row is on it |
| LoadAnswers.LoadedAtRowHeights | src/chain/chain.rs:132-138 | whatever the table, after a load that succeeds every header above the one loaded onto is the row stored at its height |
| LoadAnswers.AssumedAreScanned | src/chain/chain.rs:166-170 | the headers assumed checked are those up to the scan height |
| LoadAnswers.LoadPasses | src/chain/chain.rs:139-143 | a load to the top passes the checkpoints that are rows, in order, and the next one due is no row above the last of them |
| ChainLoad.LoadLeavesBaseUnindexed | src/chain/chain.rs:113-126 | after any load that succeeds, the header that was loaded onto is not in the height index |
| Chains.Chain.IsSynced | src/chain/chain.rs:95-101 | true if and only if some peer reported a height and none reported one above the tip |
| Chains.Chain.LoadHeaders | src/chain/chain.rs:105-171 | the choice of the base, the rows in order, each error, and the assumed flags are those of the value, for every table |
| Chains.Chain.SyncChain | src/chain/chain.rs:174-272 | every exit of the batch loop leaves the chain and the error of the value: tree, checkpoints, staged rows, queue, events and cleared requests |
| HeaderMessages.NoNews | src/chain/chain.rs:174-180 | an empty message is an error, and one that ends in a known header changes nothing |
| HeaderMessages.RefusedIff | src/chain/chain.rs:275-291 | headers that do not connect, that lack work or whose bits leap on a network that checks it are refused as a whole, with the error of the first of these; any other message is taken in header by header |
| HeaderMessages.BatchStops | src/chain/chain.rs:187-259 | a batch goes on to the first header that is refused or misses the checkpoint, and its error is that of this header |
| HeaderMessages.MessagePassesIff | src/chain/chain.rs:203-221 | a message passes the checkpoint that was due, and no other, if and only if it gets to a header with its height and hash |
| HeaderMessages.MissedHeaderIsTip | src/chain/chain.rs:211-221 | a header that misses the checkpoint is an error and the tip |
| HeaderMessages.SecondCheckpointIsPassedOver | src/chain/chain.rs:183-221 | a message of two headers at the heights of two checkpoints, the second with another hash, is taken in without an error |
| HeaderMessages.MessageClearsIff | src/chain/chain.rs:267-271 | a message taken in to its end clears the request for filter headers and its votes if and only if one of its headers reorganized |
| HeaderMessages.ReorganizationTells | src/chain/chain.rs:234-246 | a tall enough reorganization of an exact tree tells the client, lowest first, of exactly the headers that leave the active chain, and drops exactly their blocks from the queue |
| Chains.Chain.AbsorbHeader | src/chain/chain.rs:187-259 | the five answers of the tree have their effects on store, queue, checkpoints and events |
| Chains.Chain.SyncCFHeaders | src/chain/chain.rs:294-372 | judging a reply, counting it and committing it have the effect of the value, the repeat of the pending peer included |
| Findings.ReplyCountsIff | src/chain/chain.rs:294-372 | a reply is a vote if and only if it answers the outstanding request in its stop hash, its expected filter header and its length; one on the filter header of an active header is passed over; any other is the stated error, and only a vote changes anything |
| Chains.Chain.JudgeBatch | src/chain/chain.rs:300-337 | the seven checks of a reply against the outstanding request, in order |
| Chains.Chain.PushCFHeaderBatch | src/chain/chain.rs:374-389 | the backwards loop commits what `PushBatch` does |
| Chains.Chain.NextCFHeaderMessage | src/chain/chain.rs:392-421 | the request, and its copy kept for the reply |
| Chains.Chain.SyncFilter | src/chain/chain.rs:429-493 | each exit of the filter check, the queued block and the next request |
| Findings.FilterRefusedIff | src/chain/chain.rs:429-476 | a filter is ignored when no scan is due, and refused if its header is not stored or not committed, if its hash is not the committed one, or if it has to be read and cannot be |
| Findings.FilterQueuesIff | src/chain/chain.rs:464-478 | any other filter flags its header and nothing else; its block is then in the queue if and only if it was before, or the header was unchecked and the filter matches the scripts that the client has now |
| Findings.FilterAnswerIff | src/chain/chain.rs:479-493 | the answer is an error if no filter was requested, the next request if the filter was the last one requested and the scan is not done, and nothing otherwise |
| Chains.Chain.NextFilterMessage | src/chain/chain.rs:496-518 | the request, and its copy kept for the stop hash |
| Chains.Chain.CheckSendBlock | src/chain/chain.rs:536-562 | an unwanted block is ignored, an unknown or bad one refused, and a wanted one leaves the queue and is announced with its height |
| Findings.BlockAnnouncedIff | src/chain/chain.rs:536-562 | a block leaves the queue and is announced once, with its height, if and only if it is the wanted one, its header is stored and its merkle root matches; otherwise nothing changes, and the error is stated by case |
| Chains.Chain.ClearCompactFilterQueue | src/chain/chain.rs:626-630 | request, pending batch and count are gone; nothing else changes |
| Chains.Chain.ClearFilters | src/chain/chain.rs:633-635 | every filter of the active chain is due again |
| Monitors.HeightMonitor.Max | src/chain/mod.rs:175-177 | the greatest reported height, or nothing without peers |
| Monitors.HeightMonitor.Increment | src/chain/mod.rs:187-191 | a known peer's height goes up by one, up to the largest 32-bit number |
| ChainInvariant.SyncChainAccounts | src/chain/chain.rs:174-272 | a batch of headers keeps the accounts: flags justified, every due block in the queue, every delivery announced |
| ChainInvariant.SyncFilterAccounts | src/chain/chain.rs:429-493 | so does a filter: a match is queued, and the flag is recorded with a filter that has the hash its header commits to at that time |
| ChainInvariant.CheckSendBlockAccounts | src/chain/chain.rs:536-562 | so does a block: it leaves the queue only when it is announced |
| ChainInvariant.ClearMeansDelivered | src/chain/chain.rs:478-562 | after a match, nothing is due for a block exactly when it was delivered since; it is given up only if it was disconnected |
| NodeRuns.StepKeepsBooks | src/node.rs:383-725 | every input of the node keeps the accounts, the quorum bound and the range of the outstanding request |
| NodeRuns.StartedBooks | src/node.rs:718-725 | the accounts hold when the node has loaded its headers |
| Causes.EventHasCause | src/node.rs:383-715 | over any run each event is caused by one input: a found block by a wanted, stored block with a matching merkle root, a disconnection by a message of headers, and the sync by a turn with an empty queue |
| Causes.EntryHasCause | src/node.rs:383-715 | over any run each check of a filter is caused by a filter with the committed hash, and each delivery by such a block |
| Causes.MatchedByScripts | src/chain/chain.rs:464-478 | over any run the flag of each check is the matcher's answer for the scripts that the client started with and those added up to then |
| Causes.StoredHasCause | src/chain/chain.rs:174-291 | over any run each stored header that was not loaded came in a message that connects, whose headers all have their work and whose bits do not leap |
| Causes.StoredHeadersHaveWork | src/chain/chain.rs:282-284 | so every such header has its work |
| Causes.PassedAreStored | src/chain/chain.rs:203-221 | over any run the checkpoints still due are those after the passed ones, and each passed one is stored at its height |
| NodeSync.AcceptKeepsScanIff | src/chain/graph.rs:149-289 | a header undoes a finished scan if and only if it moves the tip, told by its parent, its bits and its work |
| NodeSync.MessageKeepsScanIff | src/chain/chain.rs:174-272 | a headers message undoes a finished scan if and only if it is taken in and one of its headers moves the tip before any is refused |
| NodeSync.LostIffGivenUpSince | src/chain/chain.rs:225-246 | a matched block is lost if and only if its header was disconnected before its delivery and its filter was not checked since |
| NodeSync.EmptyQueueSettlesIff | src/chain/chain.rs:531-562 | with an empty queue, a block was delivered and announced after the last match of its filter if and only if it was not disconnected in between |
| FailingRuns.ReconnectedBlockIsNeverDelivered | src/chain/chain.rs:225-246 | a run from the start that reorganizes away and back and announces the sync without the block of an active, matched header |
| Evidence.ReplyRehashesIff | src/chain/chain.rs:339-389 | a reply changes the filter hash that a header commits to if and only if it passes the checks, completes the round, has the committed header in range, and gives it another hash |
| Evidence.StepKeepsTiedIff | src/node.rs:383-725 | every checked header stays assumed checked, or checked by a filter with the hash it commits to now, over every input but a reply that gives a checked header a hash never checked for it |
| Evidence.RehashFreeRunIsFaithful | src/chain/chain.rs:339-389 | a run in which no reply changes the filter hash of a checked header unties none |
| FailingRuns.AnsweredRequestIsAnsweredAgain | src/chain/chain.rs:339-371 | a run from the start in which a second reply to the answered request replaces the commitment of a checked header before the sync is announced |
| NodeSync.SyncedKeepsPromise | src/node.rs:383-440 | in any run from the start in which no header moves the tip during phase `FiltersSynced`, at a `Synced` event every active header is checked, and a matched block was delivered if and only if its header was not disconnected in between; if moreover no reply untied a checked header, in particular if none changed the filter hash of one, then each active header is assumed checked or was checked by a filter with the hash it commits to now, and the whole promise holds if and only if no active header's block was given up; the event names the tip and the recent active headers |
| ScriptsSynced.CheckedStandsOnScripts | src/chain/chain.rs:464-478 | in a run from the start in which no reply changes the filter hash of a checked header, each checked header that was not assumed was last checked with the filter it commits to now, against the scripts of that time |
| ScriptsSynced.SyncedServesScripts | src/node.rs:383-440 | when such a run announces the sync, undisturbed, the block of every such active header whose filter matched those scripts was delivered after the check, unless it was given up |
| NodeSync.LateHeaderIsNotScanned | src/node.rs:536-561 | a header accepted during that phase is announced as synced without being checked |
| FailingRuns.LateHeaderIsAnnounced | src/node.rs:383-440 | a run from the start in which a header arrives during that phase and the sync is announced without its filter |
| NodeSync.RescanStartsOver | src/node.rs:699-715 | after a rescan every active header is unchecked and the request starts at the lowest of them |
| FailingRuns.RescanMissesFork | src/chain/graph.rs:423-449 | a run from the start after which a rescan leaves a checked header on a fork that can become active again |
| Deliveries.StepKeepsLedger | src/node.rs:383-725 | every input keeps the balance: deliveries and a place in the queue are covered by matches, each delivery is one announcement, and the queue has no repeats |
| Deliveries.AnnouncedAtMostOncePerMatch | src/chain/chain.rs:478-562 | over any run from the start, a block is announced at most as often as its filter matched, one time less while it waits, and at the height of its stored header |
| NodeChains.StepKeepsFilterChained | src/node.rs:383-725 | an input keeps the commitments chained and the outstanding request fit if and only if it does not ask for filter headers with an unsuitable stop hash |
| NodeChains.RunKeepsFilterChain | src/node.rs:453-591 | over any run whose requests have suitable stop hashes, failed writes, forks and reorganizations included, a committed header's stored parent is committed and its filter header hashes its filter onto the parent's |
| StaleStops.StaleStopBreaksChain | src/chain/chain.rs:408-411 | a run from the start in which a stale entry becomes the stop hash and a passing reply breaks the chain |
| NodeChains.FilterChainFromStart | src/node.rs:718-725 | so it is from the start, whatever table was loaded; and over reorganizations that are tall enough the index is exact and every stop hash suits |
| Nodes.Node.FetchHeaders | src/node.rs:718-725 | the headers are loaded; from a fresh chain, success is the start of a run |
| Nodes.Node.AdvanceState | src/node.rs:383-440 | each phase moves on exactly on its condition, and the last one sends the `Synced` event |
| NodeAnswers.TurnMovesIff | src/node.rs:383-440 | each phase is left for the next exactly if, in turn, a peer reported a height and none is above the tip; every active header is committed; every one is checked; the queue is empty, which alone tells the client |
| NodeAnswers.BehindUntilCaughtUp | src/node.rs:386-391 | a run in which no turn finds the node caught up ends in the first phase and announces no sync |
| NodeAnswers.NoPeersNoSync | src/node.rs:386-391 | so does a run from a start without peers in which none reports a height |
| NodeAnswers.BehindAPeerNoSync | src/node.rs:386-391 | and a run in which a peer stays whose height the tip does not reach |
| Nodes.Node.NextStatefulMessage | src/node.rs:453-468 | headers first, then filter headers, then filters, then nothing |
| NodeAnswers.NextMessageIff | src/node.rs:453-468 | headers are asked for exactly if some reported height is above the tip or none is reported, else filter headers exactly if an active header has none, else filters exactly if one is unchecked |
| NodeAnswers.LocatorsEndAtTip | src/chain/graph.rs:471-485 | the locators are the active headers at the fixed distances, farthest first, and the tip last |
| Nodes.Node.HandleVersion | src/node.rs:471-523 | the peer's height is kept; a peer that is too old, or that lacks a service once the node has its headers, is disconnected, and any other is asked for headers |
| NodeAnswers.VersionMeans | src/node.rs:471-523 | the height is kept, and the answer is a disconnection exactly for a protocol below 70016 or, past the first phase, a missing service |
| Nodes.Node.HandleHeaders | src/node.rs:536-561 | an error disconnects, unless it is an empty message to a synced chain; otherwise the next request follows |
| NodeAnswers.HeadersAnswerIff | src/node.rs:536-561 | the answer is a disconnection exactly if the message is in error, an empty one to a node that is caught up excepted; else what is due next |
| Nodes.Node.HandleCFHeaders | src/node.rs:564-591 | a counted reply waits, a conflict or an error disconnects, a commit is followed by the next request |
| NodeAnswers.CFHeadersAnswerIff | src/node.rs:564-591 | nothing while votes are missing, what is due next after a commit, and a disconnection for a conflict or an error |
| Nodes.Node.HandleFilter | src/node.rs:594-617 | an error disconnects, and a finished range is followed by the next |
| Nodes.Node.HandleBlock | src/node.rs:620-631 | an error disconnects |
| NodeAnswers.FindingsAnswerIff | src/node.rs:594-631 | a filter or a block is answered by a disconnection exactly if it is in error, and a finished range by the next request |
| Nodes.Node.PopBlockQueue | src/node.rs:634-653 | blocks are requested only in the two filter phases |
| NodeAnswers.PopAsksIff | src/node.rs:634-653 | a block is asked for exactly in the two phases, if the line is not empty and its head was not asked for within five seconds; it is the head of the line |
| Nodes.Node.HandleInventoryBlocks | src/node.rs:656-690 | the peer's height rises once per block, and an unknown block sends the node back to headers |
| NodeAnswers.InventoryMeans | src/node.rs:656-690 | a known peer is raised by one for each block, up to the largest 32-bit number; a block that is news makes a node past headers fall behind, forget request and votes, and ask for headers; nothing else happens |
| NodeAnswers.StepHeights | src/chain/mod.rs:171-191 | the heights of the peers are those they reported, raised by their inventories, without the peers that left |
| Nodes.Node.RescanFilters | src/node.rs:699-715 | nothing before filter headers are synced; then every filter is due, the phase goes back, and the first range is asked for |
| NodeAnswers.RescanMeans | src/node.rs:699-715 | nothing in the first two phases; later only flags, the phase and the filter request change, every active header is unchecked, and the request is for the first |
| Nodes.Node.Run | src/node.rs:148-298 | turn after turn, the mutable node goes exactly where the run of steps goes |

## Left out

- Heights are natural numbers: overflow of 32-bit heights and of the 256-bit sum of work is not modelled; the height of a peer does saturate.
- SHA-256, proof of work, compact targets, the retarget formula, Golomb-coded filters and merkle roots are uninterpreted.
- SQL text, schema, migration and read errors of the database: only failed writes and rows that do not link are modelled; the database is not altered by anything else between calls.
- Chains.Chain.LoadHeaders: reads the rows up to the highest stored one, where the source leaves the range open.
- Sockets, peers, bans, address gossip, transaction broadcast, the last-block timer and the choice of the peer that a reply goes to: only the reply itself is modelled.
- Nodes.Node.HandleVersion: the messages that confirm the handshake and ask for addresses are not part of this model, nor are errors of the peer database.
- Locks and interleavings between tasks: each handler is one atomic step, as the node's single loop and its locks make it.
- Logging, warnings, progress events and counters (`send_chain_update`, `total_filters_synced`).
- The `filter-control` variant, the client's own header and block queries, and the height-to-hash lookups that serve them.
- The compiled-in checkpoint tables: any sequence of checkpoints is an argument.
- ChainLoad.RestartRoundTrip: speaks of tables without gaps above the base; what any other table loads to is `ChainLoad.LoadsOneChain`.
- FilterProgress.RangesReachSync: speaks of filters that arrive in height order within a range, as the messages of one range do.
- HeaderMessages.ReorganizationTells: needs an exact tree and a reorganization that is tall enough, since the report of a shorter one over stale entries is what `GraphIndex.ReorganizationDisplaces` says.
- RestartRuns.RestartForgetsAdjustment: a concrete run, for networks with at least eight and at most half a million blocks between adjustments; the general statement is `GraphRetarget.RestartSkipsAdjustment`.
