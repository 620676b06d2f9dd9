# Multi-agent coordination: a verified model

Several machines and sessions work from one task list. Each machine keeps a task document with
tombstones and an id counter, merges other machines' documents, and archives finished tasks.
Sessions hold leases on tasks; a lease file records them, fence tokens order them, and repair and
crash-recovery sweeps clean up. A merge resolver splits files with conflict markers and bounds what
a proposed resolution may change. A board rewriter and a self-heal worklist keep people's view small.

This project models those five parts and proves what they keep over all inputs and all runs.

- **Task store** (`Tasks`, `Placement`, `Converge`, `Merge`, `PlainMerges`, `Trails`, `Redelivery`, `Repetition`,
  `MergeSymmetry`, `Replicas`, `ArchiveDone`, `FreeWork`, `Milestones`, `TaskIds`). A merge places every live record,
  renumbers the ones that lose their id to a different task, and folds clones. The methods run the source's loops;
  `MergeDocs` is the closed form they are proved against. Properties: no work is dropped, finished work stays
  finished, a clean merge is a no-op, direction does not matter, repetition is absorbed, tombstones are forever, ids
  are never reissued, archiving changes neither the FREE list nor the milestones.
- **Leases** (`Leases`, `Pruning`, `LeaseCommands`, `LeaseFiles`, `LeaseSafety`, `LeaseGaps`, `LeaseGrants`,
  `LeaseWrites`, `Fencing`, `Heartbeat`, `LiveRuns`, `Repair`, `CrashRecovery`). `LeaseFile` is the file as an object,
  one method per command; `After` is the effect of a command on its contents. A command reads its clock before it
  takes the lock, so the clocks in a run are not in order. Properties: mutual exclusion, exactly when a lease is
  granted and how long it keeps others out, dead tokens, exact pruning, the heartbeat's bounds, repair's fixed point,
  crash sweeps over whole runs.
- **Conflicts** (`ConflictSplit`, `BlastRadius`, `BlastBound`). The parser over lines and the greedy matcher, against
  "some gaps make the resolved text".
- **Board and queue** (`BoardArchive`, `BoardSettles`, `QueueArchive`). Moving checked entries and
  terminal blocks by index.
- **Worklist** (`Worklist`). Counters carried from run to run, against the history of runs.

`Seqs` holds the shared definitions on sequences.

## Where the code and its documentation differ

The model follows the code. In each case a lemma gives the exact condition or a concrete input.

- Convergence is documented to leave a normal merge a no-op, so a repeated merge should add no logical task. A
  second delivery adds none exactly when the first is quiet: it did not retitle an id, fold that id away and keep
  theirs' title nowhere (`RedeliveryIsAbsorbed`, `RedeliveryCanAddATask`). Where the title goes matters: an id can
  be retitled and folded away and the second delivery still add nothing (`RetitledAndFoldedYetAbsorbed`). Any number
  of deliveries is absorbed exactly when each one that another follows is quiet (`EveryRepetitionIsAbsorbed`);
  that the second adds nothing is not enough (`ThirdDeliveryCanAddATask`). When theirs has one record per creation
  stamp, the first delivery decides (`FirstDeliveryDecides`), and with one per stamp on each side every repetition is
  absorbed (`UniqueStampsAbsorbEvery`).
- Collision renumbering is documented to drop no work. A creation stamp is lost exactly when every record that
  carries it sits at a tombstoned id (`StampIsSwallowedExactly`), also when the record there is a different, new
  task (`TombstoneSwallowsNewTask`); `NoWorkDropped` says exactly what is kept.
- Folded ids are documented never to vanish untraceably. The trail of a copy that does not lose to the other side's copy
  at its own id survives whole (`TrailSurvives`); the one of a losing copy is not merged in
  (`LosersTrailSurvivesExactly`), so a tie loses it (`TiedTrailIsLost`).
- The task archive is documented to delete no task data. No id is lost, but a finished task is dropped exactly when
  it leaves while the archive holds another record under its id (`RecordSurvivesExactly`, `ChangedTaskIsDropped`).
- The duplicate-lease repair is documented to keep the highest fence counter. It ranks by a key that
  lease rows do not carry, so the lease that expires last wins (`WinnerExpiresLast`): the one with the highest token
  is kept exactly when every other lease of the task expires earlier (`TopTokenWinsExactly`,
  `NewerLeaseIsReleased`).
- The crash-retry cap is documented per task. It counts one unbroken orphan streak: a sweep that acts on a task parks
  it exactly when the stored counter says that the cap of requeues went into the streak (`ParkIsExact`). A task whose
  requeues take effect is never parked (`EffectiveRequeuesNeverPark`), and it can be requeued any number of times
  (`RequeuedAnyNumberOfTimes`).
- Leases are documented as exclusive per task. Leases whose id resolves are (`MutualExclusion`), and an id resolves
  when its spelling has two digits, `#005` included: two claims of one task by different words are both granted
  exactly when its id is spelled with one digit (`ShortIdsAreLeasedTwice`). An issue number is printed without
  leading zeros, so a checkout of issue n keeps a claim of task n out exactly from 10 on
  (`ShortIssuesAreLeasedTwice`). Extensions must be safe: from an empty file, a lapsed holder that renews by branch
  after its task was leased again leaves two live leases (`UnsafeExtensionEndsExclusion`).
- The resolver's check is documented to allow changes inside conflicts only. For all resolutions it does exactly on
  files that begin and end in a conflict (`AcceptanceBoundsTheChange`); a given one changes only conflicts exactly
  when it is accepted and keeps the file's leading and trailing plain text (`OnlyConflictsChangedExactly`).
- The board rewriter is documented as idempotent and as a pure move. With the marker above the Resolved
  header it repeats itself and duplicates lines: lines are conserved exactly when the header comes first or no
  checked entry lies between the two (`ConservationIsExact`), and a second run is a no-op exactly when the
  header comes first or nothing moved (`SecondRunIsNoOpExactly`). `ABoardThatRepeats` is such a board.
- The queue archiver is documented to delete nothing. It writes the queue before the archive, so a crash in
  between loses exactly the moved blocks (`CrashBetweenWritesLosesEntries`).
- The worklist is documented to count one reappearance per return. It counts one per mention in the
  run (`EachMentionIsTallied`, `DoubledFindingIsTalliedTwice`).

## Hypotheses

Times are integers and every stamp parses. In task documents ids are the numbers of `#n`; in leases an id also
says whether its one spelling in the fixed task list is a single digit, and labels spell ids as that list does. A
missing creation stamp is 0 and a missing title is empty; lemmas that need the fields present say
`WellFormed`. `dedupedFrom` and `archivedIds` are sets. `MergeIsSymmetric` assumes that copies of one task
that tie on completion, revision and update time are equal (`TieFree`). Lease safety assumes a fixed task list,
tokens that increase along the starting file, rows stamped as the commands write them, ids spelled with two
digits on offer to claim-next, and end commands that write the statuses the command line offers; the side condition
on extensions is `Safe`, shown exact by `SafeIsExact`. The liveness test is that of
`scripts/lib/lease_state.py`.

## Model

| member | source | states |
|---|---|---|
| Tasks.Pick | scripts/merge-taskstate.py:71-89 | the copy kept is one of the two and is at least as progressed as both; a done or archived copy wins over any other; the incoming one wins a full tie |
| Tasks.IndexById | scripts/merge-taskstate.py:174-177 | indexing by id keeps the last record of an id and the order of first appearance |
| Placement.NextFreeId | scripts/merge-taskstate.py:102-104 | the next id is one above the largest in use |
| Placement.SettleId | scripts/merge-taskstate.py:191-213 | of two different tasks at one id the earlier-created stays and the other one moves, neither is lost; of two copies of one task the more progressed stays |
| Placement.Renumber | scripts/merge-taskstate.py:196-201 | the j-th collision gets the j-th number above everything in use, and that number counts as in use from then on |
| Placement.PlaceLoop | scripts/merge-taskstate.py:188-213 | the loop over ids yields every live id's kept record, then every displaced record renumbered in collision order |
| Placement.PlaceTasks | scripts/merge-taskstate.py:172-213 | the list handed to convergence is the closed form `Placed` |
| Placement.PlacedIds | scripts/merge-taskstate.py:186-203 | before folding, ids are distinct and none is a tombstone, however many collisions there were |
| Placement.PlacedAtOldId | scripts/merge-taskstate.py:188-205 | a number that was in use is never given to a displaced record |
| Placement.DisplacedIsPlaced | scripts/merge-taskstate.py:191-202 | every task that loses its id is still there, unchanged, under a number that was not in use, and says which id it lost |
| Converge.LowestId | scripts/merge-taskstate.py:142 | the canonical id is the least of the cluster |
| Converge.FoldCluster | scripts/merge-taskstate.py:138-154 | the folded record sits at the least id, is the most progressed copy and lists every other id and all earlier folds |
| Converge.GroupClones | scripts/merge-taskstate.py:128-132 | the groups are exactly the clusters of records with both identifying fields |
| Converge.ConvergeDuplicateTasks | scripts/merge-taskstate.py:112-169 | the pass returns each record that is lowest of its cluster, merged, and drops the others; without clones it returns its input |
| Converge.EmitFolded | scripts/merge-taskstate.py:156-169 | the output loop emits each survivor once, in place |
| Converge.SurvivorOf | scripts/merge-taskstate.py:143-153 | a survivor keeps id and key, carries the content of a cluster member, and is at least as progressed as all of them |
| Converge.FoldKeepsEveryTask | scripts/merge-taskstate.py:119-126 | folding drops no logical task, changes no creation stamp or title, loses no progress and records every folded id at its survivor |
| Converge.FoldedIsConverged | scripts/merge-taskstate.py:112-169 | after folding, ids are distinct and no two records are clones |
| Converge.TwinsFold | scripts/merge-taskstate.py:112-169 | after folding, no two records share a creation stamp and a title |
| Converge.OthersAreLeftAlone | scripts/merge-taskstate.py:124-135 | a record without a stamp or a title, or that shares them with no other id, is left as it was |
| Merge.MergeTasks | scripts/merge-taskstate.py:172-215 | the merge is the closed form: fold of placement, union of tombstones, and the larger version and later update of the two |
| Merge.NothingRegresses | scripts/merge-taskstate.py:76-89 | every record at a live id leaves one with its creation stamp: done or archived work stays done or archived, and no record that is not newly finished has a lower revision or an earlier update |
| Merge.NoWorkDropped | scripts/merge-taskstate.py:133-215 | the creation stamps of the result are exactly those of both sides' tasks at live ids |
| Merge.MergeIsConverged | scripts/merge-taskstate.py:112-215 | for any input the result has distinct ids, none tombstoned, and no clones |
| Merge.FoldsAreRecorded | scripts/merge-taskstate.py:149-154 | the id and the trail of every placed record are recorded at its survivor: an id that folds away is in `dedupedFrom`, with everything it had absorbed itself |
| Merge.StampIsSwallowedExactly | scripts/merge-taskstate.py:180-215 | a creation stamp of either side is gone after the merge if and only if every record that carries it sits at a tombstoned id |
| Trails.MergedTrailIsExact | scripts/merge-taskstate.py:143-154 | an id is on a merged record's trail if and only if some placed record of its cluster had it on its trail or folded onto the record from that id |
| Trails.PlacedUnlessItLoses | scripts/merge-taskstate.py:71-213 | a copy at a live id is placed if and only if the other side's copy of its task is not picked over it |
| Trails.TrailSurvives | scripts/merge-taskstate.py:119-213 | the whole trail of every copy that does not lose at its own id is in the trail of a merged record of its task |
| Trails.LosersTrailSurvivesExactly | scripts/merge-taskstate.py:71-213 | where the winner has no clone, the trail of a losing copy survives if and only if the winner's trail has it all |
| Trails.TiedTrailIsLost | scripts/merge-taskstate.py:71-89 | of two copies that differ in their trails alone the incoming one is kept, so one direction of the merge loses the trail |
| Merge.MergeWellFormed | scripts/merge-taskstate.py:172-215 | distinct ids and identifying fields survive a merge |
| Merge.MergeKeys | scripts/merge-taskstate.py:112-215 | folding changes no set of logical tasks |
| PlainMerges.DisjointMergeAppends | scripts/merge-taskstate.py:172-215 | documents that share no id and no logical task are put one after the other, ours first, with both sets of tombstones |
| PlainMerges.PastChangesNothing | scripts/merge-taskstate.py:68-89 | merging a document with itself or with earlier copies of its records changes nothing at all: a clean merge is a no-op |
| Redelivery.RedeliveryIsAbsorbed | scripts/merge-taskstate.py:112-215 | a second delivery of a document keeps the set of logical tasks if and only if the first retitled no live id that it then folded away while keeping theirs' title nowhere |
| Redelivery.UniqueStampsAbsorb | scripts/merge-taskstate.py:112-215 | with one record per creation stamp on each side, a second delivery is always absorbed |
| Redelivery.KeyStays | scripts/merge-taskstate.py:112-215 | merging again never loses a logical task, even when a collision is renumbered or folded again |
| Redelivery.FoldedAwayComesBack | scripts/merge-taskstate.py:112-215 | in the exceptional case the overwritten title is added by the second merge |
| Redelivery.RedeliveryCanAddATask | scripts/merge-taskstate.py:112-215 | a concrete pair of documents for that case |
| Repetition.EachDeliveryIsExact | scripts/merge-taskstate.py:112-215 | in any chain of deliveries, one adds no logical task if and only if the one before it was quiet: it retitled no id that it folded away while keeping theirs' title nowhere |
| Repetition.KeysGrowWithinTheirs | scripts/merge-taskstate.py:112-215 | no delivery after the first loses a logical task, and all that any number of them can add are the document's own |
| Repetition.EveryRepetitionIsAbsorbed | scripts/merge-taskstate.py:112-215 | any number of deliveries leaves the logical tasks of the first if and only if each delivery that another follows was quiet in that sense |
| Repetition.FirstDeliveryDecides | scripts/merge-taskstate.py:112-215 | when theirs has one record per creation stamp, all repetitions are absorbed if and only if the first delivery was quiet, and from the second on nothing changes |
| Repetition.UniqueStampsAbsorbEvery | scripts/merge-taskstate.py:112-215 | with one record per creation stamp on each side, every repetition is absorbed |
| Repetition.ThirdDeliveryCanAddATask | scripts/merge-taskstate.py:112-215 | a pair of documents whose second delivery adds nothing and whose third adds a task |
| Repetition.RetitledAndFoldedYetAbsorbed | scripts/merge-taskstate.py:112-215 | the same pair of documents: the first delivery retitles an id and folds it away, yet the second adds nothing, because another id keeps the title |
| MergeSymmetry.MergeIsSymmetric | scripts/merge-taskstate.py:71-215 | both merge directions give the same tombstones, version and update time and, with ids and id trails erased, the same tasks and as many of them |
| MergeSymmetry.SameRecordsEitherWay | scripts/merge-taskstate.py:71-215 | for every record of one direction the other has one with the same stamp, title, state, revision, update and other fields |
| MergeSymmetry.FoldedIsBest | scripts/merge-taskstate.py:143-153 | up to naming, a fold leaves exactly the most progressed record of each logical task |
| MergeSymmetry.OneRecordPerTask | scripts/merge-taskstate.py:112-169 | erasing ids never makes two records of a merge equal |
| Replicas.TombstonesAreForever | scripts/archive-done-tasks.py:91-104 | over any run of create, update, archive and merge on any machines, tombstones never shrink and never meet active ids |
| Replicas.ArchivedNeverReturns | scripts/archive-done-tasks.py:50-104 | whatever runs after it, a finished task that nothing open names is gone from its machine for good after an archive run |
| Replicas.TombstonesSpread | scripts/merge-taskstate.py:180-190 | a tombstone reaches every machine that merges the document which has it, and stays |
| Replicas.EditsTakeEffect | scripts/archive-done-tasks.py:35-104 | creating or updating a task changes that record on that machine and nothing else |
| Replicas.ProgressSurvivesMerges | scripts/merge-taskstate.py:76-215 | over any sequence of merges a record spared by tombstones leaves one of its stamp at least as progressed; done or archived work stays so |
| Replicas.ProgressSurvivesWithoutTombstones | scripts/merge-taskstate.py:76-215 | while no document has a tombstone, no sequence of merges loses any record's work or progress |
| Replicas.TombstoneSwallowsNewTask | scripts/merge-taskstate.py:180-190 | a different task at a tombstoned id is dropped by the merge, not renumbered |
| TaskIds.MergeIdBound | scripts/merge-taskstate.py:218-275 | the merged counter is at least both counters and every id of both sides; k collisions exceed it by at most k |
| TaskIds.TaskCounter.AllocId | scripts/agent-work.py:1946-2015 | an allocated block has as many ids as asked, at least one, lies above the counter, the host floor and every active and archived id, and its high water mark is persisted |
| TaskIds.TaskCounter.MergeWith | scripts/merge-taskstate.py:265-275 | merging lowers neither counter, clears the largest existing id, and takes its value from one of the three |
| TaskIds.TaskCounter.Heal | scripts/self-heal.py:1334-1375 | healing raises a lagging counter to the largest id and touches no other |
| TaskIds.MaxExistingTaskId | scripts/agent-work.py:1931-1943 | the largest id counts active tasks and tombstones |
| TaskIds.IdsAreNeverReissued | scripts/agent-work.py:1946-2015 | over any run of allocations, merges and heals each block lies above every earlier block and every id of the document it was allocated against |
| TaskIds.CounterNeverDrops | scripts/agent-work.py:1946-2015 | no event of such a run lowers the counter |
| TaskIds.SequentialIsValid | scripts/agent-work.py:1979-1981 | the fallback block function meets what allocation needs |
| ArchiveDone.ReferencedByOpen | scripts/archive-done-tasks.py:35-47 | the kept ids are those some open task names |
| ArchiveDone.Plan | scripts/archive-done-tasks.py:50-63 | planned for the archive: finished tasks nobody open names, in list order; the rest of the finished ones are reported |
| ArchiveDone.Apply | scripts/archive-done-tasks.py:74-104 | applying moves them, adds their ids to the tombstones and never duplicates an archived id |
| ArchiveDone.WhoStays | scripts/archive-done-tasks.py:50-63 | a task leaves the active list if and only if it is in one of the six finished states and every task that names it, as a prerequisite or otherwise, is finished too |
| ArchiveDone.ArchiveLosesNothing | scripts/archive-done-tasks.py:91-104 | no id is lost between the two documents, the leaving ids are exactly the new tombstones, active ids stay clear of them |
| ArchiveDone.RecordSurvivesExactly | scripts/archive-done-tasks.py:91-104 | an active record is in one of the two documents afterwards if and only if it is in the archive already, or stays active, or its id is new to the archive; archived records all stay |
| ArchiveDone.ChangedTaskIsDropped | scripts/archive-done-tasks.py:91-104 | every finished task that changed after an older record of it was archived is in neither document |
| ArchiveDone.DependenciesStay | scripts/archive-done-tasks.py:35-63 | everything an open task depends on stays active |
| ArchiveDone.SecondRunFindsNothing | scripts/archive-done-tasks.py:50-77 | a second run changes neither document |
| ArchiveDone.CrashBetweenWritesIsCompleted | scripts/archive-done-tasks.py:93-104 | a rerun after a crash between the two writes ends where the whole run would have |
| FreeWork.Classify | scripts/free-work.py:404-451 | the bucket of a task, a lease on its title winning over every state; FREE and blocked in terms of state, owner, blocker and the states of the prerequisites |
| FreeWork.AggregateTasks | scripts/free-work.py:401-451 | the three lists are the stable priority sorts of their buckets |
| FreeWork.ByRankIsStableSort | scripts/free-work.py:492-493 | that sort keeps order within a rank and puts priority 0 before 1 before all others |
| FreeWork.FreeMeans | scripts/free-work.py:404-451 | a task is FREE if and only if it is queued here, neither leased nor announced, without a blocker, and every active prerequisite is done |
| FreeWork.BlockedMeans | scripts/free-work.py:431-446 | a task is listed as blocked if and only if it is neither leased nor in progress elsewhere and has a blocker or an active prerequisite that is not done |
| FreeWork.ClaimedMeans | scripts/free-work.py:418-449 | a task is listed as claimed if and only if it is leased, in progress elsewhere, or free but for being announced |
| FreeWork.SameBucket | scripts/free-work.py:431-451 | archiving moves no open task to another bucket |
| FreeWork.ArchivingKeepsFreeList | scripts/free-work.py:401-451 | applying the archive leaves the FREE list equal as a sequence |
| Milestones.IndexByPlace | scripts/link-milestones.py:55-64 | the index groups one record per id, an active copy before an archived one |
| Milestones.DeriveLinks | scripts/link-milestones.py:68-90 | each milestone's ids and done and total counts come from its group; one without tasks is left alone |
| Milestones.DerivedMeans | scripts/link-milestones.py:55-86 | a milestone's ids are those whose first record names it, `total` is their number and `done` the number of the done ones; otherwise it is left alone |
| Milestones.SameRowsSameLinks | scripts/link-milestones.py:55-90 | records that read the same derive the same links for every milestone |
| Milestones.ArchivingKeepsMilestones | scripts/link-milestones.py:55-90 | archiving leaves what milestones read unchanged if and only if the archive holds no stale copy of a moved id; then ids and fill of every milestone are unchanged |
| Pruning.PruneTerminalRows | scripts/agent-work.py:191-226 | the kept rows in file order: open ones, the most recent retired ones, and young ones |
| Pruning.KeptExactly | scripts/agent-work.py:191-226 | a row is left if and only if it is open, ended within the hour, or fewer than 40 retired rows ended later, by end stamp or else by expiry |
| Pruning.RankingIsRanked | scripts/agent-work.py:214 | the ranking is by latest end, file order on ties |
| Pruning.PruningIsExact | scripts/agent-work.py:191-226 | above the bound, exactly the larger of the bound and the number of young retired rows is left |
| Pruning.SmallFileUntouched | scripts/agent-work.py:209-211 | at or below the bound nothing changes |
| Pruning.DroppedEndedEarlier | scripts/agent-work.py:214-222 | no dropped row ended later than a kept retired one |
| Pruning.PruningKeepsOpenRows | scripts/agent-work.py:216-219 | the open rows and their order are untouched |
| Pruning.PruningIsIdempotent | scripts/agent-work.py:191-226 | at a fixed clock a second pruning changes nothing |
| LeaseFiles.LeaseFile.Load | scripts/agent-work.py:126-142 | loading raises a counter that lags its rows and changes no row |
| LeaseFiles.LeaseFile.Save | scripts/agent-work.py:145-165 | saving prunes |
| LeaseFiles.LeaseFile.Checkout | scripts/agent-work.py:502-572 | granted unless the task is held and no steal is asked; a steal retires every live holder; the new row carries the next token and is live for its duration; a refusal leaves the file |
| LeaseFiles.LeaseFile.Claim | scripts/agent-work.py:944-998 | refused while a live row has the label or the task; else one new row with the next token, live for its duration |
| LeaseFiles.LeaseFile.ClaimNext | scripts/agent-work.py:1305-1444 | the first free and workable candidate is claimed in the same locked step that looked, for its duration |
| LeaseFiles.LeaseFile.Unclaim | scripts/agent-work.py:1040-1056 | the last open row with the claim id is released, or nothing happens |
| LeaseFiles.LeaseFile.MutateIssue | scripts/agent-work.py:626-693 | the row written is the one the token proves, or the last open one; a superseded, unknown or retired token writes nothing |
| LeaseFiles.LeaseFile.Reap | scripts/agent-work.py:884-927 | stale and orphaned rows are expired, old retired ones dropped |
| LeaseFiles.LeaseFile.ExtendLeases | scripts/agent-work.py:1494-1577 | every matching row is extended, never shortened |
| LeaseFiles.LeaseFile.Beat | scripts/agent-work.py:1552-1577 | a tick writes if and only if some matching lease was close to expiry in the snapshot it read before the lock |
| LeaseFiles.LeaseFile.AutoReap | scripts/free-work.py:286-318 | the reader's pass expires elapsed rows and saves without pruning |
| LeaseGrants.CheckoutIsGrantedExactly | scripts/agent-work.py:518-541 | a checkout is granted if and only if its set-up is allowed and, unless it steals, no live lease is for the issue or holds the task of that number |
| LeaseGrants.ClaimIsGrantedExactly | scripts/agent-work.py:954-974 | a claim is granted if and only if its set-up is allowed and no live lease has its words or holds the task it names, also when it names none |
| LeaseGrants.FirstOpenCandidate | scripts/agent-work.py:1338-1408 | claim-next takes the first workable candidate that no live lease takes, and finds none only if there is none |
| LeaseGrants.OneLeasePerSession | scripts/agent-work.py:1317-1333 | a known session with a live lease gets no further one by claim-next unless it asks for several; nothing else refuses |
| LeaseGrants.CheckoutGives | scripts/agent-work.py:552-570 | the new row of a checkout: for the issue, checked out by the holder, live exactly until its duration is over |
| LeaseGrants.ClaimGives | scripts/agent-work.py:976-997 | the new row of a claim, with its label and the id it names |
| LeaseGrants.ClaimNextGives | scripts/agent-work.py:1410-1434 | the new row of a claim-next, with the candidate's label and id |
| LeaseGrants.CheckoutIsAlone | scripts/agent-work.py:518-572 | after a granted checkout, stolen or not, no other lease is live for the issue or its task |
| LeaseGrants.GrantLasts | scripts/agent-work.py:502-998 | until its duration is over and over any run that does not name it, a granted lease is live and every checkout of its issue or task and every claim of its task or label is refused |
| LeaseGrants.SameWordsAreRefused | scripts/agent-work.py:958-974 | of two claims with the same words, whether or not these name a task, the second is refused until the first is over |
| LeaseWrites.RefusalWritesNothing | scripts/agent-work.py:154-165 | a refused command leaves the file as it was |
| LeaseWrites.SaveIsBounded | scripts/agent-work.py:154-226 | a save keeps every open row and leaves at most 40 retired ones, unless all that are left ended within the hour |
| LeaseWrites.CurrentTokenIsAccepted | scripts/agent-work.py:626-653 | a write with a token is accepted if and only if the last lease of the issue with it is open and no lease of the issue has a higher one |
| LeaseWrites.LastOpenIsWritten | scripts/agent-work.py:654-674 | a write without a token goes to the last open lease of the issue, or of the branch on it |
| LeaseWrites.WriteChanges | scripts/agent-work.py:682-693 | a renewal moves the expiry to its duration from now, an end stamps status and time, and no other row changes |
| LeaseWrites.UnclaimReleases | scripts/agent-work.py:1040-1056 | a release by claim id ends the last open lease with that id and changes nothing else |
| LeaseWrites.ReaderExpiresStale | scripts/free-work.py:286-318 | after the reader's pass no checked-out row is past its expiry, and only those that were have changed |
| LeaseWrites.ReapSweeps | scripts/agent-work.py:884-927 | a reap expires exactly the stale rows and, when asked, governors' rows older than three hours, and drops exactly the rows over before the cutoff |
| LeaseWrites.ExtensionRenews | scripts/agent-work.py:1552-1569 | a heartbeat moves each expiry to the later of itself and its duration from now, and changes no other row |
| LeaseWrites.ExplicitRenewal | scripts/agent-work.py:1501-1507 | an open lease is renewed whenever its claim id is asked for, one that is over never |
| LeaseWrites.BlanketRenewal | scripts/agent-work.py:1508-1541 | the blanket heartbeat renews exactly the open leases of its agent and place whose session is no proxy, a governor's only while one is alive and for three hours |
| LeaseSafety.CommandKeeps | scripts/agent-work.py:502-1577 | each command, granted or refused, keeps "no open row of a task follows a live one", with a clock read before the lock |
| LeaseSafety.MutualExclusion | scripts/agent-work.py:502-1577 | over any interleaving in lock order, at every present time at most one lease is live per task among the leases whose id resolves, though the clocks are unordered |
| LeaseGrants.NoTaskIsLeasedTwice | scripts/agent-work.py:502-1577 | the same read off the rows: of two rows that hold one task at most one is unretired and unexpired |
| LeaseSafety.SafeIsExact | scripts/agent-work.py:658-684 | an extension past the present by heartbeat or branch keeps the invariant if and only if each extended row is still live or the last open one of its task |
| LeaseSafety.LostInvariantBreaksExclusion | scripts/agent-work.py:658-684 | without the invariant one plain renewal makes two leases of a task live |
| LeaseGaps.UnsafeExtensionEndsExclusion | scripts/agent-work.py:502-684 | from an empty file, a lapsed holder that renews by branch alone after its task was leased again leaves two live leases; every step before is lawful and that one is not safe |
| LeaseSafety.RenewalTarget | scripts/agent-work.py:630-674 | a renewal that proves its token, or names no branch, reaches its task's last open row |
| LeaseSafety.PruningMattersNot | scripts/agent-work.py:191-226 | pruning neither makes nor breaks the invariant |
| Fencing.RunContinues | scripts/agent-work.py:172-226 | over any run no retired row is reopened and no token at or below the floor is reused for a new row |
| Fencing.DeadTokenStaysDead | scripts/agent-work.py:630-653 | a token whose lease was retired or pruned stays dead in every run, and no later write carrying it is accepted for any issue |
| Fencing.RetiredTokenIsDead | scripts/agent-work.py:630-653 | with distinct tokens, retiring a lease kills its token |
| Fencing.MintedTokensIncrease | scripts/agent-work.py:136-175 | tokens minted in a run strictly increase, even after pruning drops the highest row |
| Fencing.FloorNeverDrops | scripts/agent-work.py:136-142 | the floor seen by a later command is at least the one any earlier event left |
| LeaseGaps.ShortIdsAreLeasedTwice | scripts/agent-work.py:259-347 | for every id, the second of two claims that name its task by different words is granted if and only if the id is spelled with one digit |
| LeaseGaps.ShortIssuesAreLeasedTwice | scripts/agent-work.py:241-347 | for every id, a checkout of the issue with its number keeps a claim of it out if and only if the number has two digits, and the claim always keeps the checkout out |
| Heartbeat.NeverRunsOut | scripts/agent-work.py:1545-1577 | with ticks alone, a matching lease is live at every instant from a tick until the guard window has passed |
| Heartbeat.LiveThroughout | scripts/agent-work.py:1545-1577 | with ticks alone and gaps below the window, it is live throughout |
| Heartbeat.WritesAreFarApart | scripts/agent-work.py:1545-1559 | for a fixed set of leases two writes are at least the extension minus the window apart |
| Heartbeat.WriteRate | scripts/agent-work.py:1545-1559 | so n writes span at least n - 1 such gaps, which bounds the writes in a stretch of time |
| Heartbeat.TickIsCommand | scripts/agent-work.py:1552-1569 | on open rows a tick is the extend command behind the churn guard |
| LiveRuns.CommandHolds | scripts/agent-work.py:502-1577 | a command that does not name a lease leaves it, and no sweep expires one that is live by the sweep's clock |
| LiveRuns.TickHolds | scripts/agent-work.py:1545-1577 | a tick keeps a matching lease for the window from its clock, also when it looked at an older file and its lock came late |
| LiveRuns.LiveAtEveryInstant | scripts/agent-work.py:1494-1577 | over any run of commands that do not name the lease, with each event locked before the window after the last tick's clock has passed, the lease is live at every instant |
| Repair.PlanI1Fixes | scripts/reconcile.py:745-759 | releases planned: exactly the claims of live leases whose label embeds the two-digit id of a task in state done |
| Repair.PlanI2Fixes | scripts/reconcile.py:762-787 | releases planned: exactly the claims of live leases beaten, by the coded key, by another lease of their task |
| Repair.LoserIsBeaten | scripts/reconcile.py:762-783 | a lease loses if and only if another one of its task has a higher counter of its own, or the same and a later expiry, or both alike and comes first |
| Repair.BestOf | scripts/reconcile.py:777 | the winner is the first lease with the largest key |
| Repair.PlanFixes | scripts/reconcile.py:912-925 | the whole plan names exactly the claims that either invariant targets |
| Repair.ApplyOpenRows | scripts/agent-work.py:1040-1056 | applying releases takes exactly the named claims out of the open rows, whatever the clocks |
| Repair.RepairReachesFixedPoint | scripts/reconcile.py:745-925 | after the plan is applied, planning at any later time finds nothing, also when both invariants name one claim |
| Repair.UntargetedStays | scripts/reconcile.py:720-742 | a lease that nothing beats, of a task that is not done, and every lease without an explicit governed id is still open afterwards |
| Repair.WinnerExpiresLast | scripts/reconcile.py:777 | rows carry no key of their own, so the winner is the lease that expires last |
| Repair.TopTokenWinsExactly | scripts/reconcile.py:762-777 | the lease with the highest token of its task is kept if and only if every other one expires strictly earlier |
| Repair.NewerLeaseIsReleased | scripts/reconcile.py:762-787 | two leases of a task where the repair releases the one with the higher token |
| CrashRecovery.LeasedTaskIds | scripts/reconcile.py:843-847 | the ids that live leases resolve to |
| CrashRecovery.RecordsByTask | scripts/reconcile.py:849-853 | the lease records of each task in file order |
| CrashRecovery.Judge | scripts/reconcile.py:862-901 | what is done about one orphan and its strike afterwards |
| CrashRecovery.PlanI5Fixes | scripts/reconcile.py:820-909 | a sweep's actions in task order, and strikes kept for this sweep's orphans only |
| CrashRecovery.WhoIsActedOn | scripts/reconcile.py:855-901 | a task is acted on if and only if it is an orphan with old enough evidence or with a strike and no record |
| CrashRecovery.ActedOnExactly | scripts/reconcile.py:855-901 | a task is acted on if and only if it is in progress, no live lease resolves to it, and its newest record neither ended, expired nor was renewed within half an hour or, without any, a strike marks it |
| CrashRecovery.SecondSightingActs | scripts/reconcile.py:877-882 | an orphan without records that two sweeps in a row see is acted on by one of them |
| CrashRecovery.NewestIsNewest | scripts/reconcile.py:865-866 | the record judged has the highest token and, on ties, the latest expiry; it is the first of those alike in both |
| CrashRecovery.SweepsAreSafe | scripts/reconcile.py:820-909 | over any run an action hits only a task in progress without a live lease, whose newest record has shown no sign of life for half an hour or which the sweep just before saw as an orphan |
| CrashRecovery.RecoveriesCountRequeues | scripts/reconcile.py:884-893 | the stored counter is the number of requeues in the unbroken orphan streak, at most the cap |
| CrashRecovery.StreakIsCapped | scripts/reconcile.py:884-908 | a streak gets at most 3 requeues and parks after exactly that many |
| CrashRecovery.ParkIsExact | scripts/reconcile.py:884-893 | a sweep that acts on a task parks it if and only if the stored counter says that 3 requeues went into its streak, and requeues it if and only if fewer did |
| CrashRecovery.EffectiveRequeuesNeverPark | scripts/reconcile.py:903-908 | a task whose requeues take effect is never parked, however often it crashes |
| CrashRecovery.RequeuedAnyNumberOfTimes | scripts/reconcile.py:820-909 | for every n there is a run with exactly n requeues of a task, all effective, and no park |
| ConflictSplit.TakeConflict | scripts/ai-merge-resolver.py:117-130 | one pass of the inner loops takes ours, theirs and the raw lines of the conflict, cut off or not |
| ConflictSplit.SplitFile | scripts/ai-merge-resolver.py:112-136 | the outer loop yields the segments of the parsed blocks and the number of conflicts |
| ConflictSplit.SplitConflicts | scripts/ai-merge-resolver.py:107-136 | the same for a text, and the number of conflict segments |
| ConflictSplit.JoinSplit | scripts/ai-merge-resolver.py:112 | splitting into lines loses no character |
| ConflictSplit.TerminatedIsLineList | scripts/ai-merge-resolver.py:112 | newline-terminated lines split back into themselves |
| ConflictSplit.ParseIsFaithful | scripts/ai-merge-resolver.py:113-136 | parsing any lines gives a well-formed block list that prints back to them |
| ConflictSplit.ParseRender | scripts/ai-merge-resolver.py:113-136 | parsing the print of any well-formed block list gives that list back |
| ConflictSplit.SegmentsConcatenate | scripts/ai-merge-resolver.py:107-136 | the segments of every text concatenate to it, cut-off conflicts included |
| ConflictSplit.ConflictParts | scripts/ai-merge-resolver.py:113-130 | a conflict segment is consecutive lines: an opening one, ours up to the first divider, theirs up to the first closing one; its raw text is these in order |
| ConflictSplit.PlainParts | scripts/ai-merge-resolver.py:131-136 | a plain segment is consecutive lines, none of which opens a conflict |
| ConflictSplit.LinesEndAtBreaks | scripts/ai-merge-resolver.py:112 | every line holds its own line break last and no other, and only the last may lack one |
| ConflictSplit.ResplitIsIdentity | scripts/ai-merge-resolver.py:107-136 | re-splitting a rendered well-formed list gives the same blocks and segments |
| ConflictSplit.PlainSegmentsAreSeparate | scripts/ai-merge-resolver.py:107-136 | plain segments are non-empty and never adjacent |
| BlastRadius.Find | scripts/ai-merge-resolver.py:148 | the leftmost occurrence at or after a position, or none at all |
| BlastRadius.EarlierStartIsNoWorse | scripts/ai-merge-resolver.py:144-152 | starting the search earlier loses no match |
| BlastRadius.GreedyIsExact | scripts/ai-merge-resolver.py:139-153 | greedy leftmost matching succeeds if and only if the text is the plain texts in order with some gaps |
| BlastRadius.BlastRadiusOk | scripts/ai-merge-resolver.py:139-153 | the check accepts if and only if the original's plain segments survive verbatim and in order |
| BlastRadius.OnlyConflictsReplacedIsAccepted | scripts/ai-merge-resolver.py:139-153 | every replacement of only the conflicts is accepted |
| BlastRadius.AcceptanceBoundsTheChange | scripts/ai-merge-resolver.py:139-153 | acceptance implies that only conflicts changed, for all resolutions, if and only if the file begins and ends in a conflict |
| BlastBound.OnlyConflictsChangedExactly | scripts/ai-merge-resolver.py:139-153 | a given resolution changes only conflicts if and only if it is accepted and keeps the file's leading and trailing plain text, or the whole file when there is no conflict |
| BlastRadius.PrependedTextIsAccepted | scripts/ai-merge-resolver.py:143-152 | text added before any file passes the check |
| BlastRadius.AppendedTextIsAccepted | scripts/ai-merge-resolver.py:143-152 | text added after any file passes the check |
| BoardArchive.BoardEntries | scripts/archive-tasks.py:138-153 | the entries found, each with its indented lines of text |
| BoardArchive.MarkOfEntry | scripts/archive-tasks.py:41-148 | a line of the form of an entry has the mark in its second brackets, and is checked if and only if that is `x` |
| BoardArchive.OnlyEntriesAreMarked | scripts/archive-tasks.py:41-148 | every line with a mark has that form |
| BoardArchive.MovesExactly | scripts/archive-tasks.py:138-166 | a line moves if and only if it is above the header and is a checked entry or an indented line of text right below one |
| BoardArchive.MovedText | scripts/archive-tasks.py:160-166 | the checked entries' lines are, in order, the lines that belong to a checked entry above the header |
| BoardArchive.CoveredMoves | scripts/archive-tasks.py:166 | the dropped indices are exactly those lines' indices |
| BoardArchive.Collect | scripts/archive-tasks.py:158-166 | the entries to move, their text and their indices agree |
| BoardArchive.InsertPoint | scripts/archive-tasks.py:175-177 | the insertion point backs over blank lines but not past the header |
| BoardArchive.DropLines | scripts/archive-tasks.py:183 | dropping by original index after the insertion removes only lines before it |
| BoardArchive.CollapseBlanks | scripts/archive-tasks.py:188-199 | each blank line after a blank line is dropped |
| BoardArchive.Board.Process | scripts/archive-tasks.py:155-185 | without both sections nothing happens; a dry run writes nothing; an applied one writes the rewritten board |
| BoardSettles.ConservationIsExact | scripts/archive-tasks.py:155-185 | the lines of text are conserved if and only if the header precedes the marker or no checked entry lies between them |
| BoardSettles.MoveKeepsOrder | scripts/archive-tasks.py:175-183 | kept lines keep their order around one run of moved lines |
| BoardSettles.NoAdjacentBlanks | scripts/archive-tasks.py:188-199 | a collapse leaves no two blank lines adjacent |
| BoardSettles.SpacingAfterARun | scripts/archive-tasks.py:171-185 | a run that moves something leaves none adjacent; one that moves nothing leaves the spacing alone |
| BoardSettles.SettledMovesNothing | scripts/archive-tasks.py:160-172 | a run has nothing to move if and only if no checked line is above the header |
| BoardSettles.SecondRunIsNoOpExactly | scripts/archive-tasks.py:155-185 | a second run is a no-op if and only if the sections were in order or the first had nothing to move |
| BoardSettles.MarkerFirstRepeats | scripts/archive-tasks.py:155-185 | for every board of a marker, a checked entry and a header the entry is not conserved and a second run moves it again |
| BoardSettles.ABoardThatRepeats | scripts/archive-tasks.py:155-185 | one such board, spelled out |
| QueueArchive.QueueBlocks | scripts/archive-tasks.py:60-83 | the region is cut into a preamble and one block per entry |
| QueueArchive.CutIsFaithful | scripts/archive-tasks.py:60-83 | preamble and blocks concatenate to the region |
| QueueArchive.CutIsProper | scripts/archive-tasks.py:60-83 | each block starts with its only entry line |
| QueueArchive.CutBack | scripts/archive-tasks.py:60-83 | cutting what was put together gives the parts back |
| QueueArchive.IsTerminalQueue | scripts/archive-tasks.py:86-91 | the first status in a block decides |
| QueueArchive.TerminalMeans | scripts/archive-tasks.py:86-91 | a block is terminal if and only if its first line with a status names one of the six terminal ones |
| QueueArchive.MovedExactly | scripts/archive-tasks.py:110-112 | the blocks moved are exactly the terminal ones of the Inbox |
| QueueArchive.InboxIsFound | scripts/archive-tasks.py:48-52 | a run goes ahead if and only if both section lines are there |
| QueueArchive.InboxIs | scripts/archive-tasks.py:104-106 | the Inbox lies between the first line with its heading and the first with the governed marker |
| QueueArchive.NormBlock | scripts/archive-tasks.py:94-100 | the block up to its last line of text, then one blank line |
| QueueArchive.QueueFiles.Process | scripts/archive-tasks.py:103-125 | the queue keeps its preamble and live blocks, the archive gains the terminal ones, nothing else changes |
| QueueArchive.EveryBlockIsSomewhere | scripts/archive-tasks.py:110-112 | every block stays or goes, none both |
| QueueArchive.ArchiveKeepsText | scripts/archive-tasks.py:94-124 | the archive receives every line of text of the moved blocks, in order |
| QueueArchive.QueueSettles | scripts/archive-tasks.py:103-122 | what is outside the Inbox is untouched, re-reading gives exactly the kept blocks, and a second run moves nothing |
| QueueArchive.CrashBetweenWritesLosesEntries | scripts/archive-tasks.py:122-124 | between the two writes the queue lacks exactly the moved blocks, no later run archives them, and it lacks none if and only if there was nothing to move |
| Worklist.Upsert | scripts/self-heal.py:3859-3895 | one entry per finding from the previous entry, and the tally of returns |
| Worklist.TallyCleared | scripts/self-heal.py:3898-3902 | clears are tallied whatever order they are taken in |
| Worklist.WorklistFile.Sync | scripts/self-heal.py:3849-3913 | list and ledger after a run; a dry run writes neither |
| Worklist.SyncIsStep | scripts/self-heal.py:3859-3905 | a run over distinct findings changes each check's entry and tally by itself |
| Worklist.EachMentionIsTallied | scripts/self-heal.py:3863-3866 | a check that comes back is tallied once per mention in the run |
| Worklist.DoubledFindingIsTalliedTwice | scripts/self-heal.py:3863-3866 | a run that names a check twice: it clears once and returns once, yet two returns are tallied |
| Worklist.EntriesMatchStreaks | scripts/self-heal.py:3885-3890 | over any runs an entry exists exactly while its check fails, `occurrences` is the length of the streak and `first_seen` its start |
| Worklist.TalliesMatchHistory | scripts/self-heal.py:3862-3905 | `reappearances` never exceeds `resolved_count`, is below it while the check passes, and neither exceeds the history |
| Worklist.OngoingFailureIsCountedOnce | scripts/self-heal.py:3863-3867 | a continuing failure leaves its tally alone |
| Worklist.LedgerIsHistoryWithinWindow | scripts/self-heal.py:3862-3905 | while nothing leaves the window the ledger is exactly the number of clears and returns |
| Worklist.RecurringMeansReturned | scripts/self-heal.py:3867-3876 | escalation needs 2 clears and 2 returns; within the window it happens exactly from 2 returns on |
| Worklist.ThreeWeeksDecide | scripts/self-heal.py:3856-3905 | a return is tallied if and only if the check was cleared within three weeks, and the tally of one that goes on passing is forgotten if and only if it was not |

## Left out

- Git, GitHub, ssh, Discord, notifications and model calls: only the effect on documents and files is modelled.
- Presence records, notes, base commits, repository names and other fields that no decision reads.
- JSON, regular expressions and timestamp syntax: times are integers; the id a lease label embeds and the task its title names are given with the label, under the two-digit rule.
- `scripts/lib/task_id_alloc.py`: the block function and the host floor are parameters, with the facts `IsBlock` states.
- The lease-state merge driver, and the per-issue fencing of a superseded row that nobody marked terminal.
- Lease titles are taken to be present, so the repair planner's fallback to the branch as label is not modelled.
- The fuzzy title match of the crash planner: which task a record resolves to is a parameter of each sweep.
- The aggregator's tests for leased titles, owners and announced work are parameters; board items, issues and drift are not modelled.
- The readiness and delegation tests of claim-next are one flag per candidate; project and lane filters are taken as already applied.
- The terminal-task guard and the branch and worktree set-up are one flag per command.
- Milestones.DeriveLinks: gives the fill as done and total counts; the rounding of the ratio and the numeric sort of the id list are not modelled.
- CrashRecovery.PlanI5Fixes: takes and returns the strikes as values, so the caller's copy is untouched by construction; unreadable evidence stamps are not modelled.
- BoardArchive.Board.Process: works on lines and returns the moved entries; joining the lines and reading them back, and the printed labels, are not modelled.
- QueueArchive.QueueFiles.Process: takes the entry and status patterns as parameters, and leaves out the archive's headings and date stamps.
- Worklist.WorklistFile.Sync: reads one clock for the run and its cutoff, and leaves out titles, actions and tracked-task labels.
- TaskIds.TaskCounter.AllocId: leaves out the peek option and the locks around the allocation.
- The queue runner, session lifecycle, priorities, dashboards, mirrors, self-review and the other self-heal checks: reports, formatting and machine checks that change none of the documents modelled here.
