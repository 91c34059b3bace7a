# opsentry: the block stream, proved

opsentry watches EVM chains. It polls a node for the newest head, works out which blocks became canonical
and which were reverted, holds new blocks back until they are deep enough, stores them, fetches their logs,
and turns matches into alerts. This project models that path and proves what it promises, for every head,
every answer a node could give, every interleaving and every run.

Most of the modelled code changes its state step by step, and so do the classes here (`Reconciler`,
`HeadTracker`, `Store`, `Watermark`, `LogFetcher`, `Manager`, `Throttled`). Each method is proved equal to a
function of the old state; the theorems are about those functions and about runs of them.

- `Chain.dfy` - block references, and a stretch of chain as a table from heights to blocks
- `Reconcile.dfy` - what one reconciler call computes; `Reorg.dfy` - the reconciler class that computes it
- `WindowLaws.dfy`, `ReorgLaws.dfy`, `Outcomes.dfy` - the window invariant, minimal reverts, read bounds, loading,
  why a call fails and when it cannot
- `Stream.dfy` - the stream of canonical and reverted events over whole runs; `FastPath.dfy` - the two ways
  of closing a gap agree, and the window converges to the head's ancestry
- `Track.dfy`, `Tracker.dfy`, `Store.dfy` - the head tracker; `TrackLaws.dfy`, `TrackRuns.dfy`,
  `BufferLinks.dfy` - its theorems; `Restart.dfy`, `Reboots.dfy` - restarting from storage, between polls or
  between two writes; `Limits.dfy` - runs that break what has a condition; `Watermark.dfy` - the safe and
  finalized loops interleaved with the polls
- `Logs.dfy`, `Pipeline.dfy` - batched log fetching, and the tracker feeding it; `Sorting.dfy` - the stable sort
- `Alerts.dfy` - alert identity and deduplication; `Template.dfy` - `${path}` templates; `Throttle.dfy` - the
  send gate

The node is an oracle: a function of a call counter and the requested height, so asking twice may give two
answers. The only thing trusted is that an answer for height n is a block of number n. A stream of events is
judged by replaying it (`Stream.Replay`): announcing a block at an occupied height, or reverting one that is
not there, makes no sense and gives `None`. "Live" blocks are what the replay leaves.

## What turned out to need a condition

- The reconciler's stream is sound after every poll of a run if and only if no poll reorganises to a head
  below everything the window still holds while older announced blocks have been pruned, and no walk ends at
  a second block 0 (`Stream.InStepIffAllowed`, `Stream.StreamSafetyIff`); the tracker's conservation law holds
  under exactly the same condition (`TrackRuns.ConservationIff`). Lines 118 and 133 of
  `internal/ingest/reorg.go` are the branches concerned. `Limits.BelowWindowBreaks` and
  `Limits.SecondGenesisBreaks` are runs, at every depth, that end in them. With one genesis block in sight the
  second case never arises (`Stream.NoSwapWhenGenesisFixed`).
- Conservation, notification and confirmation hold for every confirmation depth. Two claims do not: over every
  run from a fresh start, allowed or not, the buffer is a hash chain (`BufferLinks.LinkedIffShallow`) and every batch has distinct
  heights (`Pipeline.DistinctIffShallow`) if and only if the confirmation depth is at most the window's depth
  plus one. A deeper buffer still holds blocks the window has pruned; a reorganisation past the window's floor
  leaves an unlinked pair in it, and a head below the floor a second block of one height.
- Rows are never deleted, so a reorganisation that reverts more than it emits leaves stale rows above the
  cursor, and a restarted tracker takes them for the chain (`Limits.StaleRowRestart`). Once a cursor exists, a
  restart is harmless if and only if no row is stale and the reloaded rows are linked (`Reboots.RestartKeptIff`,
  `Reboots.RestartSoundIff`), which carries over to every run that mixes polls and restarts
  (`Reboots.LifeKept`); the links cannot be left out (`Limits.UnlinkedRestart`). Before that nothing is reloaded,
  and a restart is harmless exactly while the consumer has nothing. Loaded rows make a valid window if and only
  if, within the window's depth of the highest row, every row has its linked successor
  (`ReorgLaws.LoadKnownValidIff`).
- A poll stopped between two writes, once a cursor exists and the rows reload well, counts the blocks already
  written as delivered: the next batch leaves them out, although the batch callback never saw them
  (`Reboots.CrashSkips`). Without a cursor they can be emitted again (`Limits.FirstCrashRepeats`). A block stored but
  not yet announced leaves tracker and consumer in agreement if and only if there is no cursor and the consumer
  has nothing (`Reboots.HalfWrittenSoundIff`).
- A safe or finalized callback is given exactly the rows that were in the store when the one range holding
  their height was read; a row written later, or a range whose read fails, is never delivered
  (`Watermarks.DeliveredIff`).
- Alert bytes are unique if and only if neither name holds a NUL byte; NUL-free chains alone are enough for
  injectivity among such alerts (`Alerts.UniqueIffNulFree`, `Alerts.EncodeInjective`). An insert that takes
  effect but reports an error uses up its alert without firing it (`Alerts.FiresIffNew`).
- A batch's log requests are disjoint, and its logs delivered in order from every node, if and only if its
  heights are distinct (`Logs.DisjointIffDistinct`, `Logs.OrderedIffDistinct`). The tracker's batches are, over
  every run, if and only if the confirmation depth is at most the window's depth plus one
  (`Pipeline.InOrderIffShallow`); over safe runs they are at any depth (`Pipeline.EmittedLogsInOrder`).
- The throttle keeps its distance after a send if and only if that send was not read at the zero time
  (`Throttling.GateHoldsIff`). Its selection is a largest one as long as no attempt is read before the last one
  forwarded (`Throttling.GreedyIsLargest`), as the service's own clock guarantees; a reading before the first
  send loses this on some continuation (`Throttling.StepBackIff`).

## Model

| member | source | states |
|---|---|---|
| ReorgLaws.OnHeadKeepsInvariant | internal/ingest/reorg.go:59-177 | for any head and any answers, seed, catch-up, walk-back, bottom-out and prune keep the window contiguous to its tip, hash-linked, keyed by number and at most depth + 1 wide; a failing call changes no field; a succeeding one puts the head at the tip |
| ReorgLaws.InvariantBoundsWindow | internal/ingest/reorg.go:158-177 | the invariant spelled out: the tip is known, at most maxDepth + 1 entries, each block below the tip has its successor naming it as parent |
| Stream.ReachedInvariant | internal/ingest/reorg.go:48-177 | over every run, from an empty window or from stored rows of which none within depth of the highest lacks its linked successor, the invariant holds |
| WindowLaws.OnHeadShape | internal/ingest/reorg.go:59-156 | every way a call can end: failure without change, duplicate, or a linked path of unknown blocks ending at the head that replaces everything known from its start, with exactly those blocks reverted except a block 0 |
| WindowLaws.WalkBackMeets | internal/ingest/reorg.go:104-135 | whatever the node answers, a completed walk has a linked ascending path of unknown blocks to the head, ends on a known parent or at the window's floor or at height 0, and made at most one read per height down to the floor |
| WindowLaws.AdvanceMeets | internal/ingest/reorg.go:73-97 | a completed catch-up is a linked path from the tip to the head, within the number of missing heights of reads |
| WindowLaws.HandleReorgGrafts | internal/ingest/reorg.go:104-156 | a reorganisation leaves the old table below the fork with the new path on top, pruned once, although the code prunes after every block |
| WindowLaws.RecordAllKnown | internal/ingest/reorg.go:158-177 | recording a path block by block, pruning after each, is filing them all and pruning once |
| WindowLaws.OnHeadKeepsTip | internal/ingest/reorg.go:59-71 | from any state in which the tip height is filed - the only thing assumed - every poll ends in such a state |
| Stream.TipAlwaysKnown | internal/ingest/reorg.go:41-71 | after any sequence of loads, of anything, and polls, `Tip` answers the block filed at the tip height, and answers none exactly while nothing is filed: never a zero block |
| ReorgLaws.MinimalRevert | internal/ingest/reorg.go:104-148 | no linked path from the known chain to the head leaves more of that chain standing than the one chosen, as long as equal hashes on the two paths are equal blocks |
| ReorgLaws.ReportedBlocks | internal/ingest/reorg.go:141-155 | apart from the height-0 fallback, Reverted is exactly the known blocks from the fork up, ascending; Canonical is a linked ascending path to the head attached below the fork |
| ReorgLaws.ReportedDisjoint | internal/ingest/reorg.go:104-156 | Canonical and Reverted share no block, nor a hash at one height: what the tracker's append-then-remove needs |
| ReorgLaws.ReadBound | internal/ingest/reorg.go:73-131 | at most maxDepth reads for a head at or below the tip, fewer than 2 * (head - tip) + maxDepth above it, none for a duplicate or the first head |
| Outcomes.FailureReason | internal/ingest/reorg.go:73-129 | a call fails only because of its last read, which it made: unanswered, or on the walk back answered with another hash than the block above names; the error says which and at which height |
| Outcomes.FloorReached | internal/ingest/reorg.go:104-155 | when the head's ancestry, served down to the window's floor, shares no block with the window, the call succeeds: it announces the ancestry from the floor up and reverts the whole window except a block 0 |
| Outcomes.BelowFloor | internal/ingest/reorg.go:110-155 | a head below the window succeeds whatever the node, without a read: it alone is announced and the whole window except a block 0 is reverted |
| ReorgLaws.FreshInvariant | internal/ingest/reorg.go:29-39 | a new window satisfies the invariant, with a depth of 256 when none is given |
| ReorgLaws.LoadFiles | internal/ingest/reorg.go:48-57 | loading blocks in any order files the last one of each height and raises the tip to the highest |
| ReorgLaws.LoadKnownRows | internal/ingest/reorg.go:48-57 | loading stored rows keeps exactly the rows within the window's depth of the highest one |
| ReorgLaws.LoadKnownValidIff | internal/ingest/reorg.go:48-57 | loading gives a valid window if and only if each of those rows has its linked successor |
| Reorg.Reconciler.constructor | internal/ingest/reorg.go:29-39 | a zero depth means 256; nothing known |
| Reorg.Reconciler.TipBlock | internal/ingest/reorg.go:41-46 | the block at the tip, or none before the first |
| Reorg.Reconciler.LoadBlocks | internal/ingest/reorg.go:48-57 | the loop files every block, raises the tip and prunes once |
| Reorg.Reconciler.PruneOld | internal/ingest/reorg.go:167-177 | deleting keys one by one in any order leaves exactly those within depth of the tip |
| Reorg.Reconciler.RecordBlock | internal/ingest/reorg.go:158-165 | files one block, raises the tip, prunes |
| Reorg.Reconciler.HasBelow | internal/ingest/reorg.go:179-186 | true exactly when some known height is below n, in whatever order the keys come |
| Reorg.Reconciler.Forward | internal/ingest/reorg.go:73-102 | the catch-up loop computes the model's outcome, state and number of reads |
| Reorg.Reconciler.Reorganise | internal/ingest/reorg.go:104-156 | the walk-back loop, the in-place reversal and the splice compute the model's outcome, state and number of reads |
| Reorg.Reconciler.Resplice | internal/ingest/reorg.go:141-155 | the deletion loop reverts exactly the known blocks above the ancestor, ascending, and records the path |
| Reorg.Reconciler.Head | internal/ingest/reorg.go:59-71 | the dispatch computes the model's outcome, state and number of reads |
| Reorg.Reverse | internal/ingest/reorg.go:137-139 | swapping from both ends reverses the path |
| Reorg.ReversedAt | internal/ingest/reorg.go:137-139 | what reversal means, position by position |
| Stream.AlternatesStrictly | internal/ingest/reorg.go:59-156 | in a replayable stream each block's announcements and reversals strictly alternate |
| Stream.AnnouncedFirst | internal/ingest/reorg.go:59-156 | a block not live at the start is announced before it is reverted |
| Stream.InStepIffAllowed | internal/ingest/reorg.go:104-156 | one call keeps the stream replayable and the window equal to the live blocks above its floor if and only if the head is not below the whole window while older blocks were pruned, and no second block 0 is reached |
| Stream.StreamSafetyIff | internal/ingest/reorg.go:59-177 | over every run, against any readers: the stream replays and the live blocks from the window's floor up are exactly the window after every poll, if and only if every call met that condition |
| Stream.FailedPollsErase | internal/ingest/reorg.go:73-135 | any run leaves the window and the stream that it leaves once every call that fails in it is struck out |
| Stream.NoSwapWhenGenesisFixed | internal/ingest/reorg.go:110-135 | if everything in sight at height 0 has one hash, the height-0 fallback never replaces a block |
| Limits.BelowWindowBreaks | internal/ingest/reorg.go:118-122 | at every window and confirmation depth, two safe polls and then any head of height 1, below the window: not allowed, and the tracker is unsound |
| Limits.SecondGenesisBreaks | internal/ingest/reorg.go:133-148 | at every depth, any two blocks 0 of different hash and any reader: the second poll is not allowed, and the tracker is unsound |
| FastPath.FastPathIsSlowPath | internal/ingest/reorg.go:73-156 | against a stable node, catching up succeeds exactly when walking back from the head lands on the tip, and then both give the same outcome and the same state |
| FastPath.ServedStep | internal/ingest/reorg.go:59-156 | against a node that serves the head's ancestry, a fork inside the window makes the call succeed, revert exactly the known blocks above the highest agreeing height and announce exactly the ancestry above it |
| FastPath.WindowConverges | internal/ingest/reorg.go:59-156 | dropping Reverted from the old chain and appending Canonical gives the head's ancestry, and every known block at its heights is then the ancestry's, as long as one hash at one height is one block |
| TrackLaws.SettleStep | internal/ingest/tracker.go:155-200 | on a buffer that is the top of the chain: append, remove, notify, split and sort emit exactly the run of live blocks up to the threshold, and notify exactly the emitted blocks above the fork |
| TrackLaws.SettleRows | internal/ingest/tracker.go:178-189 | splitting such a buffer gives two contiguous runs, and the stable sort changes nothing |
| TrackLaws.DuplicateStep | internal/ingest/tracker.go:155-203 | a head already known changes nothing and emits nothing |
| TrackLaws.PollKeepsSound | internal/ingest/tracker.go:145-210 | one poll, at any confirmation depth: both the reconciler's and the consumer's stream replay, and the consumer has exactly the live blocks below the buffer |
| TrackRuns.Conservation | internal/ingest/tracker.go:145-210 | over every safe run the live blocks are exactly the consumer's and, above them, the buffered ones |
| TrackRuns.ConservationIff | internal/ingest/tracker.go:145-210 | in both directions, from any sound state: conservation and both replayable streams after every poll, if and only if every poll was allowed |
| TrackRuns.BufferPartition | internal/ingest/tracker.go:155-186 | every live block is with the consumer or in the buffer, never both, and nothing else is in either |
| TrackRuns.BufferIsChainTop | internal/ingest/tracker.go:155-186 | the buffer is contiguous, ascends to the tip and starts just above the consumer's highest block |
| TrackRuns.EmittedIsConfirmed | internal/ingest/tracker.go:174-189 | every emitted block above height 0 has the full depth under the polled head, and the batch is in height order, whatever the state before |
| TrackRuns.NothingConfirmedWaits | internal/ingest/tracker.go:174-201 | after a successful poll no live block at or below the threshold is unemitted |
| TrackRuns.NotifiedExactly | internal/ingest/tracker.go:155-200 | OnReverted fires exactly for reverted blocks the consumer had; every other reverted block was buffered, leaves the buffer and is not emitted; the batch is contiguous from just above what the consumer keeps |
| TrackRuns.FailedPollsErase | internal/ingest/tracker.go:145-153 | any run leaves the tracker and both streams as they are once every poll that fails in it is struck out |
| TrackRuns.PollFails | internal/ingest/tracker.go:145-153 | a poll fails exactly when the node or the reconciler does, and reports that failure |
| TrackRuns.StoreMirrorsAnnouncements | internal/ingest/tracker.go:191-206 | over every run, safe or not, the row at each height is the last block announced there, reverted since or not, and the cursor is the last block announced |
| BufferLinks.RunKeepsInside | internal/ingest/tracker.go:145-210 | at a confirmation depth of at most maxDepth + 1, over every run, allowed or not, the buffer is the top of what the window holds |
| BufferLinks.LinkedIffShallow | internal/ingest/tracker.go:155-186 | the buffer is a hash chain after every run, allowed or not, if and only if ConfirmDepth <= maxDepth + 1; the same if only safe runs are asked for |
| BufferLinks.BreakingRunBreaks | internal/ingest/tracker.go:155-186 | for any deeper setting, a three-poll safe run that leaves two adjacent unlinked blocks buffered |
| HeadTracking.HeadTracker.Seed | internal/ingest/tracker.go:212-231 | reload from 256 below the cursor, or do nothing without a cursor |
| HeadTracking.HeadTracker.Absorb | internal/ingest/tracker.go:156-172 | the loop removes each reverted block from the buffer or announces its reversal, in order |
| HeadTracking.HeadTracker.TakeOut | internal/ingest/tracker.go:158-165 | removes in place the first block of the same number and hash, and says whether there was one |
| HeadTracking.HeadTracker.TakeConfirmed | internal/ingest/tracker.go:178-186 | the split loop keeps what is above the threshold and returns the rest, both in order |
| HeadTracking.HeadTracker.Emit | internal/ingest/tracker.go:191-208 | each block is stored and then announced, in turn; then the batch is announced, and then the cursor is moved: state, callbacks and the order of all these acts |
| HeadTracking.HeadTracker.Conclude | internal/ingest/tracker.go:155-209 | the part of a poll after its reconciliation: buffer, rows, cursor, callbacks and the order of all acts |
| HeadTracking.HeadTracker.PollHead | internal/ingest/tracker.go:145-210 | a whole poll computes the model's result, state, callbacks, number of reads and order of acts |
| HeadTracking.CutIsInterruption | internal/ingest/tracker.go:191-208 | a poll cut after any number of its acts leaves the rows and the stream of the interruptions that the crash theorems are about |
| Storage.Store.RememberBlock | internal/storage/sqlite.go:122-132 | upsert by height; the cursor stays |
| Storage.Store.SaveCursor | internal/storage/sqlite.go:108-120 | the one cursor is replaced; rows stay |
| Storage.Store.LoadRecentBlocks | internal/storage/sqlite.go:134-160 | every row from a height up, ascending |
| Storage.Store.LoadCanonicalBlocksRange | internal/storage/sqlite.go:162-188 | every row in the inclusive range, ascending |
| Restarting.RunKeepsArchive | internal/ingest/tracker.go:191-204 | over every safe run each block the consumer has is the stored row at its height |
| Restarting.RestartBuffered | internal/ingest/tracker.go:212-231 | a restarted tracker holds exactly the consumer's blocks from the reload floor up, with an empty buffer, when those blocks are linked, the cursor row is the highest and the consumer still has the cursor's block |
| Restarting.RestartEquivalence | internal/ingest/tracker.go:145-231 | restarting and polling gives the same reversals and the same batch as polling on, when the reloaded part of the live chain is linked, the cursor row is the highest and still with the consumer, one hash at one reloaded height is one block, the window is at most 256 deep, and the node serves the next head's ancestry down to the reloaded blocks, which forks inside the window; any confirmation depth |
| Restarting.RestartAfterRun | internal/ingest/tracker.go:145-231 | the same after any safe run from an empty store |
| Restarting.RunKeepsLinked | internal/ingest/reorg.go:110-132 | over every safe run whose forks are all just above a block known at the time, the live chain stays hash-linked |
| Restarting.InsideRunSpanLinked | internal/ingest/tracker.go:212-231 | after such a run every span a restart would reload is linked |
| Reboots.RestartLoads | internal/ingest/tracker.go:212-231 | a restart with a cursor reloads exactly the rows at most 256 heights below the cursor and at most the window's depth below the highest row, which becomes the tip |
| Reboots.RestartKeptIff | internal/ingest/tracker.go:212-231 | a restart leaves tracker, store and consumer in agreement if and only if no stored row is stale and the reloaded rows are linked or, without a cursor, nothing is stored and the consumer has nothing |
| Reboots.RestartSoundIff | internal/ingest/tracker.go:212-231 | the same for tracker and consumer alone: without a cursor it is enough that the consumer has nothing |
| Reboots.PollKeptIff | internal/ingest/tracker.go:145-210 | a poll keeps that agreement if and only if it was allowed |
| Reboots.LifeKept | internal/ingest/tracker.go:145-231 | over runs mixing polls, restarts and crashes between any two writes, the agreement holds after every turn when every turn was allowed; without crashes, if and only if |
| Reboots.FreshLife | internal/ingest/tracker.go:145-231 | the same from an empty store |
| Reboots.CrashKeptIff | internal/ingest/tracker.go:191-208 | stopped after any number of a poll's writes: the blocks already written count as the consumer's, and a restart is harmless if and only if the rows reload well |
| Reboots.CrashSkips | internal/ingest/tracker.go:191-208 | when the rows reload well after such a stop, the next batch holds none of the written blocks unless it first reverts them, although the batch callback never saw them |
| Reboots.HalfWrittenSoundIff | internal/ingest/tracker.go:191-221 | stopped after a block was stored and before it was announced, a restart always leaves the store in disagreement; tracker and consumer still agree if and only if there is no cursor and the consumer has nothing |
| Limits.FirstCrashRepeats | internal/ingest/tracker.go:191-221 | without a confirmation depth, for every head: stopped after the very first block was stored and announced, the restarted tracker emits it again without a reversal |
| Reboots.NotGivenTwice | internal/ingest/tracker.go:155-201 | a sound tracker's poll emits no block the consumer already has, unless it first reverts it |
| Limits.StaleRowRestart | internal/ingest/tracker.go:191-231 | a safe run, at every window depth of two or more, that leaves a stale row: the next poll reverts nothing, but that of a restarted tracker reports a reversal the consumer has already been told |
| Limits.UnlinkedRestart | internal/ingest/tracker.go:212-231 | for every window depth up to 256 and confirmation depth from one up to it, a safe run that leaves no stale row but an unlinked pair of rows, so that a restart is unsound |
| Watermarks.StepwisePollIsPoll | internal/ingest/tracker.go:191-207 | a poll whose writes are taken one at a time ends in the state of the poll in one go |
| Watermarks.WatermarkTiles | internal/ingest/tracker.go:105-136 | in every state reachable by any interleaving of polls, single writes, advances and reads, each height above the seed up to the watermark has been asked for exactly once, and no other ever |
| Watermarks.DeliveriesRise | internal/ingest/tracker.go:124-135 | in every reachable state the heights delivered to one callback so far strictly increase |
| Watermarks.DeliveriesBetween | internal/ingest/tracker.go:112-135 | everything delivered lies above the seed and not above the watermark |
| Watermarks.ReadIsComplete | internal/ingest/tracker.go:127-135 | a successful read delivers exactly the rows then stored in the asked range, ascending |
| Watermarks.DeliveredWasLatest | internal/storage/sqlite.go:122-188 | every delivered block had been stored before, with nothing stored at its height between that and the read |
| Watermarks.DeliveredIff | internal/ingest/tracker.go:105-136 | over any interleaving, a block is delivered if and only if it was the row at its height when a range holding that height was read successfully: later writes and failed reads are never made up for |
| Watermarks.AdvanceThenRead | internal/ingest/tracker.go:105-136 | an advance and its read with nothing between are one confirmation poll, in every case, and leave the tracker and the other watermark alone |
| Watermarks.Watermark.PollConfirmation | internal/ingest/tracker.go:105-136 | the loop body: seed without delivering, ignore a head that is not higher, move before reading, stay moved if the read fails |
| Logs.RangesCover | internal/ingest/logs.go:52-60 | for sorted distinct heights the requests ascend, are disjoint, fit the batch size and cover exactly the heights |
| Logs.GreedyIsOptimal | internal/ingest/logs.go:52-60 | no set of fitting ranges covering exactly the same heights, overlapping or not, is smaller |
| Logs.OptimalBatching | internal/ingest/logs.go:35-61 | both, for a batch in any order |
| Logs.RequestsFit | internal/ingest/logs.go:16-61 | no request holds more heights than configured, or than 1000 when none is configured, and no set of requests within that bound is smaller |
| Logs.DisjointIffDistinct | internal/ingest/logs.go:45-60 | the requests are disjoint if and only if the heights are distinct |
| Logs.OrderedExactlyOnce | internal/ingest/logs.go:35-90 | if the node keeps to the asked range, a batch of distinct heights calls OnLog in non-decreasing (block number, log index) order across all requests, once per returned log, each with the batch's block of that number |
| Logs.OrderedIffDistinct | internal/ingest/logs.go:35-90 | every node that keeps to the asked range has its logs delivered in order, if and only if the batch's heights are distinct; at any batch size |
| Logs.RequestDelivers | internal/ingest/logs.go:63-90 | whatever the node answers to one request: the logs of the batch's heights, each as often as returned, in (block number, log index) order, with the batch's block; the others are skipped; a failure delivers nothing |
| Logs.EachAnswerDelivered | internal/ingest/logs.go:52-72 | a failing request does not keep the other requests' logs from being delivered |
| Logs.LogFetcher.FetchRange | internal/ingest/logs.go:63-90 | one request; a failing one delivers nothing; logs of heights not in the batch are skipped |
| Logs.LogFetcher.FetchRuns | internal/ingest/logs.go:52-60 | the i/start/end loop makes exactly the greedy requests in order |
| Logs.LogFetcher.OnCanonicalBatch | internal/ingest/logs.go:35-61 | the map, the sorted heights and the loop together; an empty batch asks for nothing; a batch size of zero or less means 1000 |
| Pipeline.EmittedLogsInOrder | internal/ingest/tracker.go:178-201 | after any run at a confirmation depth of at most maxDepth + 1, and after any safe run at any depth, the logs of the next poll's batch are delivered in order exactly once |
| Pipeline.DistinctIffShallow | internal/ingest/tracker.go:155-200 | over every run, allowed or not, every batch has distinct heights if and only if ConfirmDepth <= maxDepth + 1 |
| Pipeline.InOrderIffShallow | internal/ingest/tracker.go:155-201 | and so every batch's logs are delivered in order from every node, at any batch size, if and only if ConfirmDepth <= maxDepth + 1 |
| Limits.RepeatedBatch | internal/ingest/tracker.go:155-200 | for every deeper setting, a run that ends by emitting two blocks of height 1 in one batch |
| Sorting.SortOrders | internal/ingest/logs.go:77-82 | the stable sort orders by any total preorder |
| Sorting.SortPermutes | internal/ingest/logs.go:77-82 | and keeps exactly the elements |
| Sorting.SortIsStable | internal/ingest/logs.go:77-82 | and leaves elements that tie in the order they came in |
| Sorting.SortKeepsOrdered | internal/ingest/tracker.go:189 | sorting what is in order changes nothing |
| Alerts.Fingerprint | internal/alerts/fingerprint.go:11-24 | the bytes written to the hash, with the eight-byte buffer reused, are the encoding |
| Alerts.PutUint64 | internal/alerts/fingerprint.go:17-23 | the buffer holds the number in big-endian order |
| Alerts.ReadsBack | internal/alerts/fingerprint.go:17-23 | a number that fits the width can be read back from its big-endian bytes |
| Alerts.ValueFront | internal/alerts/fingerprint.go:17-23 | the most significant byte is the first |
| Alerts.Layout | internal/alerts/fingerprint.go:11-24 | where each field stands in the hashed bytes and what it reads back as, the rule index as the unsigned word of its two's complement |
| Alerts.SameBytesIff | internal/alerts/fingerprint.go:11-24 | equal bytes exactly when rule, block, transaction and log agree and the names agree once joined by NUL |
| Alerts.EncodeInjective | internal/alerts/fingerprint.go:11-24 | with NUL-free chains, equal bytes exactly when all six fields agree, whatever the monitor ids hold |
| Alerts.UniqueIffNulFree | internal/alerts/fingerprint.go:11-24 | an alert's bytes are its own among all alerts if and only if neither name holds a NUL |
| Alerts.FiresIff | internal/alerts/manager.go:24-44 | in any run over any store, a call fires exactly when the store answers and records it and no earlier call wrote its key |
| Alerts.DuplicateIff | internal/alerts/manager.go:26-33 | in any run a call answers duplicate - not fired, no error - exactly when the lookup succeeds and the key was there or an earlier call wrote it |
| Alerts.StoreErrorIff | internal/alerts/manager.go:26-43 | in any run a call reports an error exactly when the lookup fails, or the key is new and the insert does not succeed |
| Alerts.FiresIffNew | internal/alerts/manager.go:24-44 | with NUL-free chains and an empty store: exactly when no earlier call wrote the same alert |
| Alerts.FiresAtMostOnce | internal/alerts/manager.go:24-44 | no alert fires at two calls of a run |
| Alerts.FirstRecordKept | internal/storage/sqlite.go:202-227 | a record is never overwritten |
| Alerts.FiredIsRecorded | internal/alerts/manager.go:34-43 | the alert returned is the one recorded, and stays recorded |
| Alerts.Manager.Handle | internal/alerts/manager.go:24-44 | lookup, duplicate, record, and both error paths |
| Alerts.AlertStore.IsDuplicate | internal/storage/sqlite.go:190-200 | present, absent, or an error |
| Alerts.AlertStore.RecordAlert | internal/storage/sqlite.go:202-227 | insert if absent, otherwise no change and no error |
| Templates.Interpolate | internal/notify/template.go:23-46 | the shortcut and the scanning loop compute the scan |
| Templates.LookupPath | internal/notify/template.go:48-62 | the cursor loop follows the path, and gives the empty string when it leaves the objects or ends at nothing |
| Templates.LookupOne | internal/notify/template.go:48-62 | a single name gives the text of the value filed under it, or nothing when it is missing or nil |
| Templates.LookupNested | internal/notify/template.go:49-57 | a name and a further path give what the path gives among the fields of what the name leads to, or nothing when that has no fields |
| Templates.LookupFollows | internal/notify/template.go:48-62 | any sequence of dot-free names can be reached by joining it with dots |
| Templates.SplitJoins | internal/notify/template.go:49 | every path is the join of dot-free names |
| Templates.JoinSplits | internal/notify/template.go:49 | and of no others: joining dot-free names and splitting gives the same names |
| Templates.VerbatimWithoutOpener | internal/notify/template.go:24-26 | the no-opener shortcut agrees with the loop |
| Templates.VerbatimWithoutCloser | internal/notify/template.go:31-36 | an opener that is never closed is copied as it is, with everything after it |
| Templates.ScanRenders | internal/notify/template.go:23-46 | the loop is the parser followed by the meaning: literals and looked-up values in order, values never scanned again |
| Templates.PrintParse | internal/notify/template.go:23-46 | printing what was parsed gives the template back |
| Templates.ParsePrint | internal/notify/template.go:23-46 | parsing what was printed gives every normal token list back |
| Templates.ParseNormal | internal/notify/template.go:23-46 | every template parses to a normal token list |
| Templates.InterpolatePrinted | internal/notify/template.go:23-46 | interpolating a printed token list gives its meaning |
| Throttling.Throttled.SendEnv | internal/notify/throttle.go:30-41 | the gate, its new state, and that a failing notifier still counts as sent |
| Throttling.Throttled.SendAll | internal/notify/throttle.go:30-41 | calling the gate for one attempt after another forwards what the model's selection says |
| Throttling.PassesIff | internal/notify/throttle.go:33 | saturation of the difference never matters: a send passes exactly when nothing was sent before or the plain difference reaches the interval, for every positive 64-bit interval |
| Throttling.ForwardedSpaced | internal/notify/throttle.go:30-41 | forwarded sends are spaced by the interval, also from the send before |
| Throttling.SendsSpan | internal/notify/throttle.go:30-41 | k forwarded sends span at least (k - 1) intervals |
| Throttling.GreedyIsLargest | internal/notify/throttle.go:30-41 | the forwarded sends are a largest spaced selection of the attempts whenever no attempt is read before the last one forwarded |
| Throttling.GateHoldsIff | internal/notify/throttle.go:33 | the next send keeps its distance exactly when the last was not read at the zero time |
| Throttling.StepBackIff | internal/notify/throttle.go:30-41 | after a first send at x, a next reading y leaves the selection a largest one on every run that goes on from y without stepping back, if and only if y is not before x |

## Left out

- The `Chain` and `Time` fields of a block, and the copying of a log's address, topics and data: nothing modelled branches on them.
- 64-bit wrap-around of block numbers and heights (they are naturals here), and the store's int64 casts, which agree below 2^63.
- A node that answers a request for height n with a block of another number: the reader is trusted for the number only.
- Failing writes: `RememberBlock`, whose error is logged and ignored, and `SaveCursor`, whose error ends the poll after everything was announced. All store writes of the tracker succeed here; a crash may stop it between any two of them.
- Failing reads at start-up, which are logged and leave the tracker unseeded.
- Nil callbacks: all of them are assumed set. `LogFetcher.OnCanonical`, a batch of one.
- Metrics, logging, contexts, tickers and shutdown.
- The mutexes. The safe and finalized loops are interleaved with the polls at every store access; the polls themselves, and the calls of one alert manager or one throttle, are sequential.
- SHA-256 and its hex form: alerts are keyed by the hashed bytes.
- `Manager.HandleReverted`: the service does not call it, and its insert is a no-op when the firing row exists.
- RecordAlert: the marshalling of the payload, which can fail too, is part of the reply that refuses the record.
- `fmt.Sprintf` of a template value: every value carries the text it prints as. Strings are sequences of characters here and bytes in the program; all delimiters are ASCII.
- The monotonic clock: a throttle reading is one number of nanoseconds since the zero time.
- TakeOut: the code shifts the shared backing array in place; the buffer here is a sequence, so aliasing of that array is not captured.
- Storage.Store.ReadRows: rows are read in height order, as the queries order them; a query is a loop over heights.
- PostgreSQL storage, the reads cache, the RPC pool, configuration, ABI decoding and rule evaluation: not part of this model.
