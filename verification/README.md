# md-crdt in Dafny

md-crdt keeps Markdown documents that several people edit at once. This project models its state
machines and algorithms and proves what each is for:

- **Sequence CRDT** (`OpIds`, `TreeOrder`, `Rga`, `SequenceOrder`, `Sequence`): inserts and deletes with
  tombstones, out-of-order buffering and an id-to-position index, under two builds, a full rebuild and an
  incremental insert. The specification is the lexicographic order of anchor paths, which is the pre-order
  walk of the anchor forest, and the same as a rule on the counters and peers of the elements alone. Both
  builds meet it, so replicas converge.
- **Sync log and session** (`SyncLog`, `SyncState`, `Session`, `LocalClock`): operations that cover counter
  spans, buffering until gap-free, checkpoints under leases, deltas, a second deferral until an operation's
  observed frontier is covered, and local commits in between.
- **Replicas** (`Replica`): sessions over a sequence, end to end: the same operations give the same text.
- **Movable rows and columns** (`TableAxis`, `AxisOrder`): a move is a delete and an insert on the sequence, with
  losing and early moves; at most one placement of a logical row is ever live, and exactly when the order of
  arrival does not matter.
- **Marks and inline text** (`Marks`, `MarkOrder`, `InlineRanges`, `InlineText`, `InlineMarks`): mark operations in
  any order; overlapping intervals into maximal spans and into well nested delimiters; removal of a range from a
  mark.
- **Crash protocols** (`ExportJournal`, `Storage`): a journalled export of several files and two-slot
  snapshots, with a crash allowed before every disk step.
- **Algorithms** (`GraphemeDiff`, `MoveSet`): an optimal grapheme diff and its replay; a smallest set of moved
  blocks by patience sorting.
- **Printing and parsing** (`TableText`, `SourceLines`, `LineKinds`, `LineShapes`, `Blocks`, `BlocksUnique`,
  `BlockParser`, `BlockPrint`, `SourceText`, `DocumentSource`): tables and documents read back as printed; the lines
  decide their blocks and the parser finds them; exact rendering gives the text back and changes only what was
  edited.

Code that updates fields is a class with the same fields and a ghost record of what was delivered; each
method is proved against a specification over that record, and the laws are lemmas about the
specification. Code that computes is functions. Counters are unbounded. One operation id names one
content throughout; where that is needed it is a precondition (`Consistent`, `OneContent`, `Agreeing`). A
crash is a budget of disk steps that runs out. The grapheme is an opaque token.

Two expected laws are false of the code. Removing a range from a mark is meant to take that range away and
nothing else, but `lower_remove_mark_range` builds the remainders without asking whether the range meets the
mark, so a removal past its end makes it longer. `Marks.RemovalPastTheMarkGrowsIt` gives an input, and
`Marks.RemovesExactly` proves that the law holds if and only if the range starts no later than the mark ends
and ends no earlier than the mark starts.
Concurrent moves of a row are meant to end alike on every replica, but an author that has seen a move need not give
its own a greater id (remote operations do not advance the local counter), so three moves can displace each other in a
circle. `AxisOrder.ThreeMovesDisagree` gives an
input, and `AxisOrder.EveryOrderEndsAt` proves that every order of arrival ends at one move if and only if no other
move displaces that one; `AxisOrder.TwoMovesAgree` and `AxisOrder.GreatestDominates` say when that is so.

## Model

| member | source | states |
|---|---|---|
| `TreeOrder.SiblingTransitive` | src/core/mod.rs:371-384 | sibling order is transitive |
| `TreeOrder.SiblingTotal` | src/core/mod.rs:371-384 | of two different siblings exactly one comes first |
| `TreeOrder.PathTotal` | src/core/mod.rs:458-469 | pre-order (comparison of anchor paths) is total |
| `TreeOrder.PathTransitive` | src/core/mod.rs:458-469 | pre-order is transitive |
| `TreeOrder.ChainUnique` | src/core/mod.rs:360-369 | an element has only one chain of anchors to the root |
| `TreeOrder.SortedStable` | src/core/mod.rs:120-126 | delivering more inserts never reorders what is already listed |
| `TreeOrder.SortedUnique` | src/core/mod.rs:422-456 | a set of elements has only one canonical listing |
| `TreeOrder.SubtreeContiguous` | src/core/mod.rs:347-357 | in a canonical listing every subtree is one contiguous block |
| `TreeOrder.SubtreesDoNotInterleave` | src/core/mod.rs:347-369 | two runs typed concurrently never interleave: all of one comes before all of the other |
| `TreeOrder.FitsBeforeSibling` | src/core/mod.rs:330-341 | the slot before the first greater sibling is one canonical order allows |
| `TreeOrder.FitsAtSubtreeEnd` | src/core/mod.rs:330-341 | with no greater sibling, the end of the parent's subtree is the slot canonical order allows |
| `TreeOrder.FitsUnique` | src/core/mod.rs:330-341 | canonical order allows only one slot |
| `TreeOrder.InsertSorted` | src/core/mod.rs:330-345 | inserting at a fitting slot keeps the listing canonical |
| `SequenceOrder.InsertPosition` | src/core/mod.rs:330-345 | the incremental search ends at the canonical slot, from any canonical state |
| `SequenceOrder.SubtreeEnd` | src/core/mod.rs:348-357 | everything from the parent up to the returned position is below the parent, and the next element is not |
| `SequenceOrder.IsDescendantOf` | src/core/mod.rs:360-369 | true exactly if the anchor chain passes through the ancestor; the walk up ends |
| `SequenceOrder.RebuildOrder` | src/core/mod.rs:422-456 | the rebuild drops and invents nothing and is canonical |
| `SequenceOrder.GroupByAnchor` | src/core/mod.rs:422-433 | each anchor gets exactly the elements inserted after it, in id order |
| `SequenceOrder.SortSiblings` | src/core/mod.rs:435-445 | each group is sorted by the sibling comparison and loses no member |
| `SequenceOrder.WalkChildren` | src/core/mod.rs:458-469 | the walk lists exactly the subtree below its parent, in canonical order, and ends |
| `Rga.ListedAreRooted` | src/core/mod.rs:478-515 | what is listed is exactly the inserts whose whole anchor chain was delivered, each with its value or tombstone |
| `Rga.RootedIsListed` | src/core/mod.rs:517-566 | an insert whose anchor chain is complete is never left in the buffer |
| `Rga.BuffersHoldTheRest` | src/core/mod.rs:478-515 | every other delivered insert waits under its anchor |
| `Rga.RendersUnique` | src/core/mod.rs:422-456 | what was delivered leaves only one possible element list |
| `Rga.DeliverAllRecords` | src/core/mod.rs:120-126 | the history holds exactly the inserts and deletes that were delivered |
| `Rga.SameOpsSameHistory` | src/core/mod.rs:120-126 | the history depends on the set of operations, not on order or repetition |
| `Rga.SortedReads` | src/core/mod.rs:371-384 | tree order read off the elements: an insert follows its anchor; of two inserts at one anchor the newer comes first if both had the same right neighbour, else one that had a neighbour and the one whose neighbour is older; nothing else comes between an anchor and its inserts |
| `Rga.OrderUnique` | src/core/mod.rs:422-456 | that rule, which names counters and peers only, leaves one list of the same elements |
| `Sequences.Sequence.Apply` | src/core/mod.rs:120-126 | keeps the whole invariant: index exact, anchors present, canonical order, nothing ready buffered; records the operation; and the list follows the rule on counters and peers |
| `Sequences.Sequence.ApplyNow` | src/core/mod.rs:478-515 | lists an insert exactly if its anchor is listed, strikes or buffers a delete, and keeps the queue invariant |
| `Sequences.Sequence.ApplyInsert` | src/core/mod.rs:288-327 | succeeds exactly if the id is known or its anchor is listed; adds exactly one element; keeps index and order |
| `Sequences.Sequence.ApplyDelete` | src/core/mod.rs:400-408 | leaves a tombstone and moves nothing |
| `Sequences.Sequence.InsertIncrementally` | src/core/mod.rs:330-345 | adds the element, keeps the index exact and the listing canonical |
| `Sequences.Sequence.RebuildOrder` | src/core/mod.rs:422-456 | same elements, canonical order, exact index |
| `Sequences.Sequence.RebuildIndex` | src/core/mod.rs:471-476 | each id maps to its position and nothing else is in the index |
| `Sequences.Sequence.ProcessPending` | src/core/mod.rs:517-566 | the work queue empties and the full invariant holds again |
| `Sequences.Sequence.EnqueuePending` | src/core/mod.rs:568-575 | takes everything that waited for an id, and nothing is lost between buffer and queue |
| `Sequences.Sequence.ShowsCanonical` | src/core/mod.rs:288-327 | in every valid state the list is the canonical listing of the rooted inserts |
| `Sequences.Sequence.ListsByRule` | src/core/mod.rs:371-384 | in every valid state the list follows the rule on counters and peers, and no other list of its elements does |
| `Sequences.Sequence.BuffersTheRest` | src/core/mod.rs:478-515 | in every valid state the buffers hold exactly the operations that cannot be placed |
| `Sequences.Sequence.DebugAssertIncrementalOrder` | src/core/mod.rs:387-395 | the incremental build equals the full rebuild, element for element |
| `Sequences.Sequence.UpdateValue` | src/core/mod.rs:177-183 | overwrites one listed value, lifting its tombstone if it has one, and nothing else |
| `Sequences.Sequence.ApplyAll` | src/core/mod.rs:120-126 | a whole run of operations keeps the invariant and records exactly those operations |
| `Sequences.Convergence` | src/core/mod.rs:120-126 | strong convergence: same operations in any order, with repetition, under either build, give the same list, index and buffers |
| `Sequences.ReplayBothWays` | src/core/mod.rs:120-126 | the same, from two new sequences |
| `SyncLog.GapFree` | src/sync/mod.rs:208-227 | every counter up to a peer's frontier is covered by the span of an applied operation |
| `SyncLog.SpanCovers` | src/sync/mod.rs:201-203 | an operation covers the last `span` counters up to its own, at least one |
| `SyncLog.VectorIsInLog` | src/sync/mod.rs:190-194 | a counter lies in the span of a logged operation if and only if the vector reaches it |
| `SyncLog.Confluence` | src/sync/mod.rs:208-253 | two gap-free, saturated logs over the same deliveries applied the same operations |
| `SyncLog.CatchesUp` | src/sync/mod.rs:261-289 | a saturated receiver that was given everything past `since` reaches the sender's frontier |
| `SyncLog.AdmitKeeps` | src/sync/mod.rs:208-227 | logging a ready operation keeps the log gap-free and the vector equal to its frontier |
| `SyncLog.ReceiveKeeps` | src/sync/mod.rs:208-227 | buffering a delivery keeps the log invariant; redelivery changes nothing |
| `SyncLog.LogConfluence` | src/sync/mod.rs:208-253 | applied set, pending set and vector depend only on the set of deliveries |
| `SyncLog.DeltaCompletes` | src/sync/mod.rs:261-289 | delta completeness on log values, also after pruning |
| `SyncStates.SyncState.ApplyOne` | src/sync/mod.rs:208-227 | which of the three outcomes happens, exactly, and the new state of each |
| `SyncStates.SyncState.AddLocalOp` | src/sync/mod.rs:417-422 | a local operation is logged and queued for sending, and the log stays gap-free |
| `SyncStates.SyncState.MarkSent` | src/sync/mod.rs:438-444 | sent operations leave the outbox |
| `SyncStates.SyncState.PromoteReadyPending` | src/sync/mod.rs:233-253 | promotion ends, leaves no ready operation pending, and promotes each operation once |
| `SyncStates.SyncState.PromoteRound` | src/sync/mod.rs:236-251 | a round either makes progress or the buffer is settled |
| `SyncStates.SyncState.ApplyChanges` | src/sync/mod.rs:376-398 | a batch is delivered completely; applied and buffered ids are reported exactly |
| `SyncStates.SyncState.EncodeChangesSince` | src/sync/mod.rs:261-289 | asks for a rebase exactly if `since` is below the floor; otherwise sends exactly the retained operations past it, in id order |
| `SyncStates.SyncState.Checkpoint` | src/sync/mod.rs:292-347 | each refusal happens exactly when it should and changes nothing; success keeps min(len, max) operations and prunes safely |
| `SyncStates.SyncState.Prune` | src/sync/mod.rs:333-340 | drops exactly the chosen operations, raises the floor to them, keeps "applied implies retained or at or below the floor" |
| `SyncStates.PrunesSafely` | src/sync/mod.rs:311-340 | pruning the least eligible operations touches nothing a lease still needs |
| `SyncStates.PrunedFirst` | src/sync/mod.rs:311-340 | what is pruned is a counter prefix of each peer's retained operations |
| `SyncStates.LeaseKeepsDelta` | src/sync/mod.rs:292-347 | every active lease that could get a delta before a checkpoint gets the same one after it |
| `SyncStates.EligibleIsUnneeded` | src/sync/mod.rs:292-347 | an operation may be pruned if and only if no active lease would still be sent it |
| `SyncStates.DeltaUnique` | src/sync/mod.rs:261-289 | there is only one delta with given contents |
| `SyncStates.Transfer` | src/sync/mod.rs:261-289 | delta completeness end to end: encode, integrate, and the receiver's vector covers the sender's |
| `SyncStates.VectorGrows` | src/sync/mod.rs:190-194 | the vector never goes back |
| `Sessions.SameDeliveriesSameEffects` | src/session/mod.rs:1923-2000 | the set of operations whose effects reached the document depends only on what was delivered |
| `Sessions.ReadyMeansCovered` | src/session/mod.rs:1956-1964 | a frontier is ready if and only if the vector covers it |
| `Sessions.CoveredMeansSeen` | src/session/mod.rs:1956-1964 | a frontier is covered if and only if each counter it names lies in the span of a logged operation |
| `Sessions.ReadyIsClosed` | src/session/mod.rs:1981-2000 | showing exactly the ready operations is causal closure: exactly those whose author had seen nothing the log lacks |
| `Sessions.Session.ApplyRemote` | src/session/mod.rs:1877-1942 | rejects a message with a malformed new operation untouched; otherwise the document is causally closed: it holds a logged operation if and only if every counter its author had seen lies in the span of a logged operation |
| `Sessions.Session.Prepare` | src/session/mod.rs:1893-1921 | fails exactly if an operation that is not yet logged is malformed |
| `Sessions.Session.IntegrateOne` | src/session/mod.rs:1923-1939 | one operation is recorded, buffered, deferred or applied, and the session invariant holds |
| `Sessions.Session.ApplyOrDefer` | src/session/mod.rs:1966-1979 | applies exactly if the vector covers the observed frontier, and defers otherwise |
| `Sessions.Session.DrainPromoted` | src/session/mod.rs:1944-1954 | every promoted operation is applied or deferred once |
| `Sessions.Session.DrainDeferred` | src/session/mod.rs:1981-2000 | ends with no ready operation waiting |
| `Sessions.Session.ReadyIds` | src/session/mod.rs:1983-1993 | finds exactly the waiting operations that are logged and ready, in id order |
| `Sessions.SameOpsSameDeliveries` | src/session/mod.rs:1877-1942 | how operations are grouped and repeated does not change what is delivered |
| `Sessions.Session.CommitLocal` | src/session/mod.rs:1265-1274 | a local operation takes the next counters, is ready at once, is logged and shown, and makes nothing else ready |
| `Sessions.OwnStays` | src/session/mod.rs:1877-1942 | foreign messages and echoes leave the own clock where it was |
| `Sessions.Run` | src/session/mod.rs:1877-2000 | any mix of local commits and messages: one issued operation per commit, in order, over adjacent counters from 1; what was delivered is what came in and what was issued; each operation is in the document at most once, every issued one is, and after a message exactly the ready ones are |
| `Sessions.RunBothWays` | src/session/mod.rs:1877-2000 | two such runs, once given the same operations in any order and batching, hold the same log and have applied the same operations, each once |
| `Replicas.Show` | src/session/wire.rs:349-869 | the sequence holds exactly the edits of the document and shows their canonical listing |
| `Replicas.ReplicasAgree` | src/session/mod.rs:1877-2000 | end to end: replicas that edit and exchange messages show the same elements at the same positions once they were handed the same operations |
| `LocalClock.Clock.Commit` | src/session/mod.rs:1265-1274 | an operation whose extent starts at the next counter extends the tiling |
| `LocalClock.Clock.CommitSingleId` | src/session/mod.rs:1265-1274 | takes exactly one counter |
| `LocalClock.Clock.InsertBlockIn` | src/session/mod.rs:301-341 | takes the block's counter and all counters up to the highest used in it; ids nested in it are all below the clock |
| `LocalClock.InsertCoversUsed` | src/session/wire.rs:115-145 | an id used by an inserted block lies in its range if and only if it is not below the block's own counter |
| `LocalClock.CommitUnder` | src/session/mod.rs:1265-1274 | clock and session stay in step: every commit is logged with exactly its extent |
| `LocalClock.Clock.InsertTextUnits` | src/session/mod.rs:1302-1349 | takes one counter per grapheme; nothing for an empty text |
| `LocalClock.Clock.MoveBlockIds` | src/session/mod.rs:1653-1691 | takes one counter per moved block |
| `LocalClock.Clock.MergeBlocksIn` | src/session/mod.rs:1832-1873 | takes the action's counter and one for each unit whose id is taken; the others keep theirs |
| `LocalClock.ReplaceOccupied` | src/session/mod.rs:1832-1852 | new ids are fresh, consecutive and in order |
| `LocalClock.Partition` | src/session/wire.rs:28-145 | every counter below the next one lies in exactly one committed range |
| `LocalClock.RangesAscend` | src/session/wire.rs:28-111 | ranges follow each other in commit order |
| `LocalClock.ReceiveInOrder` | src/sync/mod.rs:208-227 | handed over in order, every operation of the peer is applied at once, whatever part of them the receiver already had |
| `TableAxis.InsertSafe` | src/doc/mod.rs:618-636 | a row insert keeps at most one live placement per logical id |
| `TableAxis.WinningSafe` | src/doc/mod.rs:804-813 | striking the current placement and inserting the next keeps it |
| `TableAxis.LosingSafe` | src/doc/mod.rs:783-803 | a move that loses leaves everything live as it was |
| `TableAxis.Axis.ById` | src/doc/mod.rs:743-745 | finds the live listed placement of a logical id exactly if there is one |
| `TableAxis.Axis.Insert` | src/session/wire.rs:559-580 | the exact new state: the row, then its waiting moves in id order; only those leave the waiting list |
| `TableAxis.Axis.Move` | src/doc/mod.rs:747-814 | the exact new state: a move whose row and target are not there waits and changes nothing, one whose row is gone leaves a tombstone, and otherwise the row moves exactly if the current placement loses |
| `TableAxis.Axis.Supersede` | src/doc/mod.rs:804-813 | the new history is the old one with the current placement struck and the next one inserted |
| `TableAxis.Axis.PlaceAndStrike` | src/doc/mod.rs:766-803 | a placement made and struck at once shows nothing |
| `TableAxis.Axis.ResolvePendingMoves` | src/doc/mod.rs:897-915 | the exact new state: the waiting moves of the row run in id order and all others wait on; none is lost |
| `TableAxis.Axis.Remove` | src/doc/mod.rs:638-648 | exactly the target stops being live |
| `TableAxis.Axis.RemoveById` | src/session/wire.rs:663-669 | the current placement of the logical row stops being live, or the named one is struck |
| `TableAxis.Axis.ShowsEachOnce` | src/doc/mod.rs:747-814 | in every valid state no logical row is listed live twice |
| `TableAxis.RunAxis` | src/doc/mod.rs:747-934 | the same over every run of inserts, moves and removals, in any order, with every operation taken up and the state that of the steps one by one |
| `AxisOrder.WinsIsDisplaces` | src/doc/mod.rs:783-791 | the first move of a row always wins; a later one if it saw the last, or if neither saw the other and its id is greater |
| `AxisOrder.OneMove` | src/doc/mod.rs:747-814 | the row goes where a displacing move puts it and stays where it is otherwise |
| `AxisOrder.EndsAt` | src/doc/mod.rs:747-814 | after any moves in any order the row is at the one that survives |
| `AxisOrder.EveryOrderEndsAt` | src/doc/mod.rs:747-814 | every order of arrival leaves the row at one move if and only if no other move displaces that one |
| `AxisOrder.GreatestDominates` | src/doc/mod.rs:747-814 | if whoever saw a move gave its own a greater id, the greatest id dominates |
| `AxisOrder.TwoMovesAgree` | src/doc/mod.rs:747-814 | of two moves one dominates if and only if they did not see each other |
| `AxisOrder.ThreeMovesDisagree` | src/doc/mod.rs:747-814 | three moves of which none dominates: two orders of arrival leave the row at different places |
| `AxisOrder.EarlyWaits` | src/doc/mod.rs:756-765 | a move that comes before its row waits and changes nothing else |
| `AxisOrder.WaitingRun` | src/doc/mod.rs:897-915 | once the row is there, its waiting moves have the effect of arriving in id order |
| `AxisOrder.EarlyOrLate` | src/doc/mod.rs:897-915 | a move before its row and a move after it leave the same state: the row at the move, the inserted placement struck |
| `AxisOrder.ArrivesInAnyOrder` | src/doc/mod.rs:897-915 | some moves before their row and the others after it: the row ends at the move that dominates all of them |
| `ExportJournal.Disk.WriteSynced` | src/filesync/session.rs:1107-1120 | completes if two steps are left; a crash leaves the file as it was before the first step and partly written before the second |
| `ExportJournal.WritePendings` | src/filesync/session.rs:660-678 | before the journal no document changes; afterwards every changed one is staged |
| `ExportJournal.WriteJournal` | src/filesync/session.rs:1061-1072 | the rename of the journal is the commit point |
| `ExportJournal.InstallEntries` | src/filesync/session.rs:1122-1142 | every entry is untouched, backed up or installed at every step, and installed at the end |
| `ExportJournal.CleanupEntries` | src/filesync/session.rs:1144-1159 | removes backups and journal; a crash in between still recovers to the new bytes |
| `ExportJournal.Export` | src/filesync/session.rs:617-718 | without a crash all targets are new and nothing is left over; after one the disk is recoverable |
| `ExportJournal.FinalizeExports` | src/filesync/session.rs:725-763 | records the state of every exported document and touches no other file |
| `ExportJournal.ForgetStates` | src/filesync/session.rs:1284-1286 | forgets the recorded state of every recovered document and touches no other file |
| `ExportJournal.Recover` | src/filesync/session.rs:1262-1328 | from any recoverable disk: all old before the commit point, all new after it, no leftovers; a crash in recovery is recoverable again |
| `ExportJournal.Resume` | src/filesync/session.rs:1282-1289 | carries a committed transaction through from any of its intermediate states |
| `ExportJournal.Sweep` | src/filesync/session.rs:1311-1325 | removes orphaned temporaries and changes no document |
| `ExportJournal.ExportDespiteCrashes` | src/filesync/session.rs:617-718 | crash atomicity: any number of crashes, during export and during recovery, end in all-old or all-new and a clean disk |
| `Storage.Store.WriteSnapshot` | src/storage/mod.rs:104-149 | an acknowledged write is stored; an interrupted one leaves the old snapshot or the new one |
| `Storage.Store.ReadSnapshot` | src/storage/mod.rs:151-201 | on any disk the newest slot whose segment matches, Corrupt if none does, Missing if there is no superblock; after any crash that is the stored snapshot |
| `Storage.PassesFor` | src/storage/mod.rs:180-187 | a segment passes exactly if it has the length and the checksum of the payload that was written |
| `Storage.WriteDespiteCrashes` | src/storage/mod.rs:104-201 | after any run of writes and crashes the snapshot read is never older than the last acknowledged one |
| `GraphemeDiff.LcsTable` | src/filesync/diff.rs:20-32 | each cell holds the LCS length of its prefixes |
| `GraphemeDiff.LcsBounds` | src/filesync/diff.rs:20-32 | no common subsequence is longer than the table says |
| `GraphemeDiff.LcsSteps` | src/filesync/diff.rs:20-55 | steps enumerate both texts in order, pair equal tokens only, and keep as many as any common subsequence |
| `GraphemeDiff.DeleteIndicesHighToLow` | src/filesync/diff.rs:63-74 | exactly the deleted indices, highest first, for any steps |
| `GraphemeDiff.InsertNewIndices` | src/filesync/diff.rs:77-85 | exactly the inserted indices, in order |
| `GraphemeDiff.SameKept` | src/filesync/diff.rs:20-55 | what the deletes keep of the old text is what the inserts leave out of the new |
| `GraphemeDiff.ReplayDeletes` | src/filesync/session.rs:2392-2396 | deleting from the top down removes exactly the chosen tokens |
| `GraphemeDiff.ReplayInserts` | src/filesync/session.rs:2398-2426 | batched insert runs complete the new text |
| `GraphemeDiff.ApplyTextDiff` | src/filesync/session.rs:2392-2426 | diff, delete, insert turns the old text into the new one, for all texts |
| `MoveSet.PartitionPoint` | src/workspace.rs:2691 | binary search finds the first tail that is not smaller |
| `MoveSet.Piles` | src/workspace.rs:2686-2702 | the number of piles bounds every increasing subsequence, and each pile top ends one of its length |
| `MoveSet.WalkBack` | src/workspace.rs:2703-2709 | the links give back exactly the chain |
| `MoveSet.LongestIncreasingIds` | src/workspace.rs:2686-2710 | an increasing subsequence, as long as any |
| `MoveSet.ReorderedChildren` | src/workspace.rs:2651-2682 | the children that are not reported are a largest set in unchanged order |
| `MoveSet.ReorderedIds` | src/workspace.rs:2643-2684 | the same for every parent: the reported set is a smallest one |
| `MoveSet.SameOrderStaysStill` | src/workspace.rs:2643-2684 | children whose order keys stay in line are all left alone |
| `MoveSet.ChangedPlaces` | src/workspace.rs:2643-2684 | of two children that changed places at least one is reported |
| `Marks.MarkSet.MarksPerPosition` | src/core/mark.rs:223-248 | at each position exactly the active intervals that reach it, sorted |
| `Marks.MarkSet.RenderSpans` | src/core/mark.rs:223-269 | a partition into maximal spans, each with the marks of its positions |
| `Marks.MarkSet.ResolvedIntervals` | src/core/mark.rs:272-286 | the ranges of exactly the active intervals, ends in order, by id |
| `Marks.ReachesBetween` | src/core/mark.rs:295-301 | a mark covers exactly the graphemes between the positions its anchors name, whichever comes first; an anchor whose element is gone names the start |
| `Marks.CoversBetween` | src/core/mark.rs:295-301 | from before one grapheme to after another it covers the two and all between them |
| `Marks.MarkSet.GroupSpans` | src/core/mark.rs:250-268 | maximal runs of equal mark lists, none empty |
| `Marks.SpansUnique` | src/core/mark.rs:223-269 | there is only one such partition |
| `Marks.MarkSet.SetMark` | src/core/mark.rs:116-151 | the newer write wins for the interval and per attribute; other intervals are untouched |
| `Marks.MarkSet.Remove` | src/core/mark.rs:153-161 | the newest remove is kept |
| `MarkOrder.SlotNext` | src/core/mark.rs:116-161 | an operation leaves in each slot the later of the two writes |
| `MarkOrder.ApplyOp` | src/core/mark.rs:116-161 | after each operation every header, attribute and removal is the latest one written |
| `MarkOrder.ReflectsUnique` | src/core/mark.rs:116-161 | order independence: the set of operations decides the mark set |
| `MarkOrder.ActiveByOps` | src/core/mark.rs:188-196 | a mark shows if and only if it was set and the latest removal of it, if any, had not seen it |
| `Marks.MarkSet.LowerRemoveRange` | src/doc/mark_ops.rs:30-101 | the remainders of an active mark on either side of the range, under fresh ids |
| `Marks.MarkSet.RemoveRange` | src/doc/mod.rs:2079-2159 | end to end: the interval gives way to its remainders, which keep its kind and attributes; every other mark stays; and coverage shrinks by exactly the range if and only if the range meets the mark |
| `Marks.RemovesExactly` | src/doc/mark_ops.rs:30-112 | coverage changes by exactly the removed range if and only if the range meets the mark |
| `Marks.RemovalPastTheMarkGrowsIt` | src/doc/mark_ops.rs:30-101 | a concrete removal past the end of a mark that makes the mark longer |
| `InlineRanges.LinkWinners` | src/doc/inline.rs:236-254 | at each grapheme the link with the greatest (op id, id) wins |
| `InlineRanges.LinkRuns` | src/doc/inline.rs:255-269 | winning links become maximal runs that cover exactly their graphemes |
| `InlineRanges.MergeAll` | src/doc/inline.rs:271-301 | merging touching ranges of the same key changes no key's coverage, leaves none that touch, and keeps the least id of each |
| `InlineText.Advance` | src/doc/inline.rs:313-324 | the active list at a grapheme is exactly the ranges covering it, in nesting order |
| `InlineText.Switch` | src/doc/inline.rs:326-338 | closes and opens exactly what the two open stacks do not share |
| `InlineText.BridgeShortest` | src/doc/inline.rs:326-338 | no run of delimiters that leads from one open stack to the next is shorter |
| `InlineText.Render` | src/doc/inline.rs:303-344 | the rendered text is the stream of the marks that cover each grapheme, well nested and fully closed |
| `InlineText.StacksLaid` | src/doc/inline.rs:313-324 | the outer of two open marks has the stretch that starts earlier, then the one that ends later, then the outer kind (link, bold, italic, code, custom), then the lesser id |
| `InlineText.SerializeText` | src/doc/inline.rs:228-345 | faithful rendering: delimiters nest and close, erasing them leaves the text, at each grapheme each wanted key is open once, in nesting order, and one mark stays open as long as its key does |
| `InlineMarks.SerializeMarks` | src/doc/inline.rs:228-345 | the same from a mark set, and in writing: no mark prints the plain text, and a single mark prints `**`, `*`, a backquote or its delimiter attribute around what it covers, or for a link `[` and `](` href `)` |
| `TableText.ScanEscaped` | src/doc/parser.rs:337-375 | scanning an escaped cell gives the cell back, whatever pipes and backslashes it holds |
| `TableText.RowRoundTrip` | src/doc/parser.rs:337-375 | a printed row parses to its cells |
| `TableText.DelimiterReads` | src/doc/parser.rs:378-399 | a printed delimiter line parses to its alignments |
| `TableText.TableRoundTrip` | src/doc/serialize.rs:150-222 | printed lines parse to the same table, padded to its full width |
| `TableText.SquaringLosesNothing` | src/doc/serialize.rs:160-171 | padding keeps every cell and alignment in place and does nothing to a rectangular table |
| `TableText.SerializeTable` | src/doc/serialize.rs:150-211 | empty for no columns; otherwise the lines of the padded table |
| `TableText.EscapeTableCell` | src/doc/serialize.rs:213-222 | the loop computes the escaping whose inverse is the scan |
| `TableText.ParseTableCells` | src/doc/parser.rs:337-376 | the character loop computes the scan, for every line |
| `TableText.ParseTableDelimiter` | src/doc/parser.rs:378-399 | alignments exactly if every cell is a marker |
| `TableText.ParseTable` | src/doc/parser.rs:207-249 | header, delimiter of the same width, rows up to the first line without a pipe |
| `LineShapes.EscapeShape` | src/doc/serialize.rs:213-222 | a backslash goes before each pipe and backslash, and nothing else changes |
| `LineShapes.RowShape` | src/doc/serialize.rs:150-211 | a row is its cells between pipes, with a space on either side |
| `LineShapes.OuterPipes` | src/doc/parser.rs:337-356 | the outer pipes come off; a closing one after an odd number of backslashes is escaped and stays |
| `LineShapes.AlignmentShape` | src/doc/parser.rs:378-399 | a colon on the right alone aligns right, colons on both sides centre, anything else aligns left |
| `LineShapes.AlignmentOnly` | src/doc/parser.rs:378-399 | a marker is three dashes or more between colons, and nothing else is |
| `LineShapes.MarkerShape` | src/doc/serialize.rs:150-211 | the marker printed for each alignment |
| `LineShapes.HeadingLevel` | src/doc/parser.rs:413-433 | a heading of level k is exactly k hash signs, one to six, then nothing or a space or tab |
| `LineShapes.HeadingText` | src/doc/parser.rs:435-447 | its text stands between white space, without a closing run of hash signs |
| `LineShapes.HashesKept` | src/doc/parser.rs:435-447 | hash signs that touch the text belong to it |
| `LineShapes.UnderlineLevel` | src/doc/parser.rs:449-460 | equals signs make level 1, dashes level 2, and nothing else is an underline |
| `LineShapes.FenceShape` | src/doc/parser.rs:513-541 | a fence is exactly 3 to 255 backquotes or tildes and an info text; no backquote may follow backquotes |
| `LineShapes.FenceEnd` | src/doc/parser.rs:543-553 | it is closed by exactly the lines of at least as many of its characters and white space |
| `LineShapes.QuoteAndRaw` | src/doc/parser.rs:157-205 | which lines open a quote and which a raw block |
| `LineShapes.UnquotedShape` | src/doc/parser.rs:157-183 | quote markers come off together with the white space around them |
| `LineShapes.BulletShape` | src/doc/parser.rs:466-483 | a dash, star or plus, alone or with white space and the item after it |
| `LineShapes.BulletOnly` | src/doc/parser.rs:466-483 | and nothing else is a bullet |
| `LineShapes.NumberedShape` | src/doc/parser.rs:485-511 | a number of at most nine digits, a dot or parenthesis, and the item; the number is read as written |
| `LineShapes.NumberedOnly` | src/doc/parser.rs:485-511 | and nothing else is a numbered item |
| `LineShapes.StyleShape` | src/doc/parser.rs:571-600 | a numbered list starts with the number of its first item |
| `LineShapes.ItemShape` | src/doc/parser.rs:571-648 | a list takes items with its own mark, whatever their number |
| `LineShapes.OtherMark` | src/doc/parser.rs:571-648 | and no item with another mark |
| `LineShapes.TaskShape` | src/doc/parser.rs:727-740 | an empty box is an open task, a box with a small or capital x a done one |
| `LineShapes.IndentShape` | src/doc/parser.rs:401-411 | spaces count one each and a tab goes to the next multiple of four |
| `SourceLines.PrintAndReparse` | src/doc/serialize.rs:150-222 | round trip on text: the printed text, cut into lines and parsed, is the table, for all trimmed single-line cells |
| `SourceLines.CutLines` | src/doc/parser.rs:86-109 | the loop computes the cut |
| `SourceLines.CutTiles` | src/doc/parser.rs:86-109 | lines lie end to end over the text, with only line terminators between them |
| `SourceLines.CutJoined` | src/doc/parser.rs:86-109 | lines joined with newlines are cut back into the same lines |
| `BlockParser.ParseBlocks` | src/doc/parser.rs:111-324 | terminates on every input with increasing, disjoint, non-empty spans, only blank lines outside, and each block of the kind, extent, content and ids its first line calls for |
| `BlockParser.ReadBlock` | src/doc/parser.rs:126-322 | always takes at least one line; the kind is decided in the order of the branches |
| `BlockParser.ReadQuote` | src/doc/parser.rs:157-183 | takes the maximal run of quoted lines and holds what the lines inside it parse to |
| `BlockParser.ReadFence` | src/doc/parser.rs:126-155 | runs to the first closing fence or the end, with the lines between as content |
| `BlockParser.ReadRaw` | src/doc/parser.rs:185-205 | runs to the first blank line |
| `BlockParser.ReadParagraph` | src/doc/parser.rs:294-322 | a maximal run of lines that open nothing else; never empty |
| `BlockParser.ParseList` | src/doc/parser.rs:571-725 | progresses; items follow each other with only blank lines between, the next line that is not blank opens no further one, and looseness, style, tasks, children and ids are as the lines say |
| `BlockParser.ReadItem` | src/doc/parser.rs:649-703 | takes its marker line and every blank or deeper line up to the last that is not blank; children are nested lists and maximal runs of text, in order |
| `BlockParser.MoreFollows` | src/doc/parser.rs:604-627 | a list goes on over blank lines exactly if the next line belongs to it |
| `BlockParser.ListLines` | src/doc/parser.rs:571-725 | every line of a list opens an item, is blank, or is indented further, and the last is not blank |
| `BlockParser.Flushed` | src/doc/parser.rs:555-568 | closing the paragraph in hand makes it a child with exactly its lines |
| `BlocksUnique.ListUnique` | src/doc/parser.rs:571-725 | the lines of a list decide where it ends, its items and everything in them |
| `BlocksUnique.ShapedUnique` | src/doc/parser.rs:126-322 | the first line and the lines after it decide a block, its extent and its ids |
| `BlocksUnique.ReadsUnique` | src/doc/parser.rs:111-324 | no two different readings of the same lines exist: blocks, spans and ids are determined |
| `BlockPrint.PlainShaped` | src/doc/serialize.rs:5-58 | a printed heading, paragraph, fence, raw block, table or quote is read as itself wherever it stands between blank lines |
| `BlockPrint.PrintThenRead` | src/doc/parser.rs:111-324 | whatever reads a printed document finds exactly the blocks it was printed from, with their lines and ids, at any depth of quoting |
| `BlockPrint.PrintAndParse` | src/doc/parser.rs:111-324 | the parser does |
| `Blocks.NumberedApart` | src/doc/parser.rs:742-749 | no id occurs under two blocks |
| `SourceText.PatchedBySame` | src/doc/source.rs:141-183 | replacing each body by itself gives the text back |
| `SourceText.FrontIsPatched` | src/doc/source.rs:141-183 | writing gaps and bodies left to right is substitution in place |
| `SourceText.RenderedIsPatched` | src/doc/source.rs:141-183 | with the roots in place, rendering is the text with the dirty bodies replaced |
| `SourceText.RenderedLays` | src/doc/source.rs:141-183 | whatever was inserted, removed, reordered or edited: clean blocks keep their bytes, source neighbours their gap, and any other two blocks stand a blank line apart, made with no more newlines than it takes |
| `SourceText.InsertedBetween` | src/doc/source.rs:141-183 | one new block: the text with the block between blank lines after its neighbour, and nothing else changed |
| `SourceText.RemovedBetween` | src/doc/source.rs:141-183 | one removed block: the text before it, a blank line, the text after it |
| `DocumentSources.IndexBlock` | src/doc/source.rs:229-255 | every id nested in a block maps to its root, and no other entry changes |
| `DocumentSources.DocumentSource.constructor` | src/doc/source.rs:48-83 | regions, order and root index of the parsed blocks |
| `DocumentSources.DocumentSource.MarkBlockDirty` | src/doc/source.rs:116-120 | an edit at any depth makes its own root dirty and no other |
| `DocumentSources.DocumentSource.Render` | src/doc/source.rs:141-183 | source bodies for clean roots, source gaps between neighbours that kept their place, and a blank line before any other block |
| `DocumentSources.ClosingFrom` | src/doc/parser.rs:16-27 | the first closing `---` line, if there is one |
| `DocumentSources.FrontmatterEnd` | src/doc/parser.rs:10-28 | the loop finds the end of the frontmatter, which a first `---` line opens |
| `DocumentSources.FrontmatterShape` | src/doc/parser.rs:10-28 | frontmatter is exactly what stands between a first line of three dashes and the next such line |
| `DocumentSources.Parse` | src/doc/parser.rs:6-66 | the blocks that the lines after the frontmatter hold, numbered from 1, and a source that remembers where each lies |
| `DocumentSources.BodyShape` | src/doc/parser.rs:39-50 | a body starts with its first line, ends with its last, and holds its lines whole |
| `DocumentSources.LineEnds` | src/doc/parser.rs:86-109 | a line ends with the text or before a line terminator, and its content is what lies between |
| `DocumentSources.ReadFromUnique` | src/doc/parser.rs:6-66 | the text decides its blocks and their places |
| `DocumentSources.ReadFromApart` | src/doc/parser.rs:6-66 | an id lies under at most one root |
| `DocumentSources.EditIsLocal` | src/doc/source.rs:141-183 | on values: rendering after an edit is the text with the touched bodies replaced; with nothing touched it is the text |
| `DocumentSources.EditAndSerialize` | src/doc/mod.rs:2249-2260 | exact rendering is lossless and local: the output is the text with the bodies of exactly those parsed roots replaced that hold a touched id; with none it is the text itself |

## Left out

- 64-bit overflow and saturation of counters, epochs and generations, and the 32-bit cells of the diff table.
- Grapheme segmentation, and the merging of a grapheme with its neighbours when text is re-segmented.
- Wire and storage codecs, checksums as functions, UUIDs, digests, I/O errors other than a crash.
- Local `Sequence` inserts landing next to their anchor: siblings are ordered by the id of their right origin, so they need not.
- Restoring sequences, logs and sessions from snapshots (`from_ordered`, `from_elements_and_pending`, `restore_*`).
- Concurrent writes to a cell; of concurrent moves, those whose anchors have not arrived.
- Cell contents of moved rows and columns, list-item moves, and when a waiting move is at last taken up if its row insert is itself buffered.
- `MarkSet::merge_from`, and the projection of marks through text moves.
- Parsing of inline Markdown and of frontmatter; replacement of an edited frontmatter in exact rendering.
- Rename and delete journals, several journals at once, and the vault around them.
- Bit rot in storage, legacy and foreign-version files, operation segments and compaction.
- Size and version limits on remote messages and the other validity tests of their operations (peer, skeleton, unit mode), and the list of buffered ids a session reports.
- `Sequences.Sequence.UpdateValue`: can lift a tombstone, as the code does; no law says otherwise.
- TableAxis.Axis.Move: operation ids are fresh, as the log guarantees by admitting each id once; a second application of one id is not modelled.
- Sessions.Session.ApplyRemote: sessions whose log was pruned are not modelled, since a pruned id can be applied again.
- Sessions.Run: no foreign operation bears the session's own peer id, which is what peer ids are for; echoes of its own operations are covered.
- Marks.MarkSet.RemoveRange: assumes that the ids after the removal's own are unused, as the session arranges.
- LocalClock.Clock.MergeBlocksIn: source ids of the own peer lie below the next counter, as every id the session has given out does.
- DocumentSources.Parse: positions count characters where the code counts bytes.
- Storage.Store.ReadSnapshot: an undecodable superblock is not modelled.
- BlockPrint.PrintThenRead: lists, which the serializer re-indents and renumbers, are not among the printed blocks; quoted lines are trimmed, since a quote drops their indentation.
- AxisOrder.EveryOrderEndsAt: for moves whose anchors are listed; a placement that itself waits for its anchor is not current.
