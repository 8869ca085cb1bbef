# HomeBlocks: verified model of the data path

This project models three parts of HomeBlocks in Dafny and proves what they are for.

**CRAFT replica.** A replica of a CRAFT partition never stores the set of journal slots it holds. It stores a
high watermark (`last_append_lsn`) and two sets of exceptions (missing and Empty slots). A write is a coroutine:
it is admitted under the lock, allocates blocks, appends to the journal, and is finished under the lock again;
in between anything else can run. The model is a step machine with any number of writes in flight, N such
machines with clients, polls and logins, and the object itself with its mutable fields.

**Copy-on-write volume.** A write takes fresh blocks, puts one index entry per LBA while noting the previous
entries, journals a record whose key bytes carry checksums and old blocks, and frees the old blocks on commit.
After a crash the journal is replayed over whatever index was found. A read merges index entries into runs,
fills the buffer and walks the checksums. The model covers both index tables, the bytes of the record, replay,
the read path and the object.

**Chunk ownership.** Chunks move between the free pools of devices and the chunk vectors of volumes, lists of
chunk ids are persisted in superblocks at particular moments, and a crash loses everything else. The model is
the selector object and a crash machine over selector state and superblocks.

HomeStore appears as a small interface: a map for the index, a sequence for the journal, a set of allocated
blocks that hands out fresh ones, and outcomes of I/O given as parameters.

## How it is put together

| files | content |
|---|---|
| `Spans.dfy`, `Widths.dfy`, `Division.dfy` | intervals, set sizes, maps over consecutive keys; integer widths; division |
| `CraftReplica.dfy` | replica state, the guards of a write (`Decide`), the effect of each critical section (`Apply`), the held set (`Held`) |
| `CraftHistory.dfy` | whole histories of one replica: bounds, draining, arrival order |
| `CraftNode.dfy`, `CraftContents.dfy` | replica with journal, blocks and writes in flight: presence and contents of slots |
| `CraftCluster.dfy` | N nodes, acknowledgements, polls, logins: the recovery watermark |
| `CraftReplDevice.dfy` | the object `CraftReplDev`, proved against the step machine |
| `VolumeTypes.dfy` | blocks, pieces, index values, the notes of a write |
| `FixedIndex.dfy`, `PrefixIndex.dfy` | the two index tables |
| `JournalKey.dfy`, `LogReplay.dfy` | the bytes of a journal record; replay of a log |
| `RunMerge.dfy`, `ReadPath.dfy` | query and run merging; buffer filling and checksum walk |
| `VolumeSpec.dfy` | one committed write |
| `PieceStore.dfy` | a write stored piece by piece, torn or complete; replay and the blocks it frees |
| `VolumeRuns.dfy` | runs of writes, completed or failed on the way |
| `CrashReplay.dfy` | what a replay of the log brings back after such a run |
| `VolumeDevice.dfy` | the object `volume` with the commit handler |
| `ChunkSelector.dfy`, `ChunkSelectorObject.dfy` | selector state and operations; the object `VolumeChunkSelector` |
| `ChunkOwnership.dfy`, `VolumeLife.dfy`, `ResizeRaces.dfy` | the crash machine; the undisturbed life of a volume; a destroy against the resize of the same volume |

Where the source updates an object in place there is a class. Its methods are proved equal to functions or steps of
the specification modules, and the properties of whole runs are proved there.

## What holds only under a condition

Some promises do not hold for every input of the code. Each is kept as the code has it, with a statement of when
it holds, and, where the failure takes several steps, with a run that reaches it from start-up.

- The missing set is not bounded by the guards: a write one past the watermark is exempt from the cap, so in-order
  writes whose appends all fail pass every guard for ever (`CraftHistory.MissingUnbounded`). The bound of 2,999,999
  holds throughout a history if and only if no write is admitted in order while the set is exactly full
  (`CraftHistory.BoundExactInRuns`); the slots that were not admitted in order never exceed it
  (`CraftHistory.MissingBound`).
- Truncation relies on its fence. The replica invariant survives it if and only if no write of the session is in
  flight above the cut (`CraftNode.CutExact`), and no acknowledgement that was due is lost if and only if none of
  the writes it was due to lies above the cut (`CraftNode.CutLosesNoAckExact`). `CraftNode.UnfencedTruncateLosesAck`
  reaches the failing case.
- The comment above `truncate` calls the function three atomic steps; the code takes the lock only after the journal
  rollback. The model takes the stated precondition, that no write of the session is in flight, for the whole
  duration of the call; if it held at entry only, a write beginning between the rollback and the lock would be
  clamped away.
- The post-flight check looks at the term only. An acknowledged write is held if and only if its slot has no Empty
  verdict (`CraftNode.AckHeldExact`); only a verdict given while the write is in flight brings that about
  (`CraftNode.NoneVerdictedExact`), and `CraftNode.VerdictLosesAck` reaches it. The acknowledgement guarantees of
  the cluster therefore speak of verdicts that are given at login, where the polled members are quiesced.
- Admission lets a second write to a dLSN through while the first is in flight. Acknowledged contents can then be
  lost if and only if a write begins on the slot of a live write with another record (`CraftContents.DisciplineExact`,
  reached by `CraftContents.OverlapLosesFromStart`).
- The journal keeps 32 bits of a request's 64-bit length. What a slot records is what was acknowledged if and only if
  the request was shorter than 2^32 (`CraftContents.AckedContentsAreDurable`); a zero write of 4 GiB is acknowledged
  and recorded with length 0 (`CraftContents.LongZeroWriteIsCut`).
- The hole cursor of a read is 32 bits wide. A read stays within its buffer if and only if it starts below 2^32 and
  no run of the range ends there or beyond (`ReadPath.SubmitReads`); without long runs this is a condition on the
  mapped LBAs alone (`ReadPath.ReachExact`, condition `Addressable`).
- A run goes into a block id with 16 bits of count. Merging is lossless if and only if every run is shorter than 2^16
  blocks (`RunMerge.CoalesceExact`), that is, if and only if no 2^16 consecutive LBAs of the range are mapped to
  consecutive blocks (`RunMerge.LongRunExact`, condition `LongRun`). Otherwise the blocks left out read as zeros and
  the checksums reject the buffer exactly if a zero block does not have the checksum of one of them
  (`VolumeDevice.Volume.Read`, with the failing input `VolumeDevice.LongIndexIsRejected`).
- A write computes its size in bytes in 32 bits. It gets all its blocks if and only if it is smaller than 2^32 bytes
  (`VolumeSpec.AllocExact`). A larger one succeeds and loses its tail (`VolumeRuns.LargeWriteLosesTail`, reached by
  `VolumeRuns.LargeWriteRun`), and the live commit and a replay then look for its old blocks at different places
  (`LogReplay.OffsetsAgreeExact`). The limit of 1 MiB in `homeblks_impl.hpp:70` would exclude this, and long runs
  within one request, but `io_precheck` (`volume_mgr.cpp:251-272`) does not enforce it.
- A read whose index query fails reports success and leaves the buffer untouched (`VolumeDevice.Volume.Read`).
- The number of old blocks in a record has 16 bits. After a committed write, allocated and mapped blocks are the same
  if and only if it overwrote fewer than 2^16 mapped LBAs (`VolumeSpec.CommitConserves`). Failed writes leak as well:
  over runs, conservation holds if and only if no attempt leaked (`VolumeRuns.RunConserves`), and a leaked block never
  comes back (`VolumeRuns.LeakPersists`).
- Rollback runs up to the failing LBA minus one in unsigned arithmetic. For a failure at LBA 0 it has no end and
  erases entry after entry (`FixedIndex.RunawayRollbackErases`). For every other LBA the index is restored.
- Rollback covers one piece. A write that fails in the index leaves the index alone if and only if the failing LBA is
  in its first piece (`PieceStore.FailureLeavesIndexExact`); otherwise the pieces before it stay visible, and all of
  them do if the journal fails (`PieceStore.TornVolume`, `VolumeDevice.Volume.Write`).
- A failed write that has put entries stays visible until a crash. Replaying the log over an empty index brings back
  exactly the last completed write at each LBA, and differs from the live index exactly where a failed write came
  last (`CrashReplay.ReplayRestores`). Over an index found on disk the same holds if that index agrees with the log
  up to the replay point wherever the rest of the log does not write (`CrashReplay.RecoveredReads`), which an entry
  of a failed write that was flushed does not.
- Replay frees the old blocks of each record whatever later records did with them. The blocks that the final index
  maps stay allocated if and only if no replayed record names one of them as old
  (`PieceStore.ReplayKeepsMappedExact`).
- A resize that takes the latch and then finds nothing to do never gives it back, and from then until the next
  restart no volume grows (`ChunkOwnership.GivingUpBlocksResizing`, `ChunkOwnership.OnlyGivingUpLeaksLatch`).
- Creation checks that a device has room for all chunks a volume may need but reserves only the first, so a later
  resize aborts unless enough chunks are still free (`ChunkSelectorObject.VolumeChunkSelector.GrowVolume`).
- Destroying a volume does not wait for its own resize. The ownership invariant survives the removal of the superblock
  if and only if no resize of the volume is in flight or it has persisted (`ChunkOwnership.DestroyExact`). Before the
  task has taken its chunks, they are stranded (`ResizeRaces.DestroyDuringResizeStrandsChunks`, reached by
  `ResizeRaces.StrandingRun`). Between taking and persisting, the late persist finds either nothing in the volume
  map, which aborts, or the next volume with the ordinal, whose list it overwrites
  (`ResizeRaces.LatePersistOverwritesList`, reached by `ResizeRaces.OverwritingRun`), or the destroyed volume before it
  leaves the map; what a persist through its destroyed superblock handle does depends on HomeStore
  (`ResizeRaces.RevivedSuperblockListsFreeChunks` says what follows if it writes).
- A recovery that meets an unknown chunk id reports failure but leaves the volume in the selector with more active
  chunks than it has, and a null entry for the id (`ChunkSelectorObject.VolumeChunkSelector.RecoverChunks`,
  `ChunkSelectorObject.HalfRecoveredIsBroken`).
- A walk over the active chunks with the shared 32-bit cursor looks at each of them if and only if the cursor does not
  wrap around on the way, or their number divides 2^32 (`ChunkSelectorObject.SweepsExact`).

## Model

| member | source | states |
|---|---|---|
| `CraftReplica.ApplyKeepsValid` | src/lib/craft/craft_repl_dev.cpp:215-396 | Every critical section keeps commit at most last, missing inside 0..last and disjoint from Empty |
| `CraftReplica.DecideExact` | src/lib/craft/craft_repl_dev.cpp:278-329 | Each answer of admission is given exactly under its own condition: a current write to a vacant slot at most 1,000,000 past the watermark, with fewer than 2,000,000 slots missing unless it is the next one, is admitted; a held slot is already written, an Empty one refused |
| `CraftReplica.EventMarks` | src/lib/craft/craft_repl_dev.cpp:215-396 | What each critical section does to watermark, verdicts, session and commit point, with the missing set as the rest |
| `CraftReplica.AdmitMissing` | src/lib/craft/craft_repl_dev.cpp:330-342 | After an admission the slots up to the watermark are divided into held, Empty and missing: missing is exactly what is neither of the others |
| `CraftReplica.HeldRefinement` | src/lib/craft/craft_repl_dev.cpp:292-396 | Watermark and exceptions refine a plain set of held slots under every critical section |
| `CraftReplica.AdmitKeepsHeld` | src/lib/craft/craft_repl_dev.cpp:329-342 | An admission leaves the held set unchanged however large its gap |
| `CraftReplica.FinishAddsItsSlot` | src/lib/craft/craft_repl_dev.cpp:387-396 | A finish adds exactly its own slot, and nothing if that slot is no longer missing |
| `CraftReplica.TruncateKeepsPrefix` | src/lib/craft/craft_repl_dev.cpp:215-233 | Truncation intersects the held set with the slots up to the cut |
| `CraftReplica.VerdictRemovesSlots` | src/lib/craft/craft_repl_dev.cpp:253-261 | A verdict removes exactly its slots from the held set |
| `CraftReplica.MissingSlotAdmitted` | src/lib/craft/craft_repl_dev.cpp:299-334 | A current-term write to a missing slot passes every guard even at the cap, admitting it changes nothing, and its success shrinks the missing set by one |
| `CraftReplica.AdmissionArithmeticFits` | src/lib/craft/craft_repl_dev.cpp:308-342 | No LSN expression of admission leaves the signed 64-bit range, given the guards before it |
| `CraftHistory.RunKeepsValid` | src/lib/craft/craft_repl_dev.cpp:215-396 | The replica invariant holds after every history |
| `CraftHistory.GapWriteSize` | src/lib/craft/craft_repl_dev.cpp:315-333 | After a write that opens a gap the missing set has at most 2,999,999 entries |
| `CraftHistory.MissingBound` | src/lib/craft/craft_repl_dev.cpp:308-333 | In every history the missing set without slots admitted in order has at most 2,999,999 entries |
| `CraftHistory.BoundExact` | src/lib/craft/craft_repl_dev.cpp:308-342 | From a set within the bound, a step exceeds it if and only if it is an in-order admission onto a set that is exactly full |
| `CraftHistory.BoundExactInRuns` | src/lib/craft/craft_repl_dev.cpp:308-342 | A history stays within the bound throughout if and only if no in-order admission meets a full set |
| `CraftHistory.MissingUnbounded` | src/lib/craft/craft_repl_dev.cpp:319-342 | For every n in range some history leaves exactly n slots missing, all admitted in order |
| `CraftHistory.Drain` | src/lib/craft/craft_repl_dev.cpp:319-334 | From every valid state one admission and one success per missing slot empty the missing set and change nothing else |
| `CraftHistory.ArrivalOrder` | src/lib/craft/craft_repl_dev.cpp:304-396 | Whatever the order, a session on a fresh replica ends with the largest admitted dLSN as watermark and missing exactly the slots below it without success or verdict |
| `CraftHistory.SameSetsSameState` | src/lib/craft/craft_repl_dev.cpp:304-396 | Equal sets of admissions, successes and verdicts give equal watermark, missing and Empty sets |
| `CraftNode.StepKeepsBacking` | src/lib/craft/craft_repl_dev.cpp:345-396 | No step makes the replica claim a slot that its journal lacks |
| `CraftNode.StepKeepsBlocks` | src/lib/craft/craft_repl_dev.cpp:347-398 | No step leaves a journal entry with a freed block, and an unjournalled block stays private to its write |
| `CraftNode.StepKeepsInv` | src/lib/craft/craft_repl_dev.cpp:276-402 | The whole invariant survives every step of every interleaving |
| `CraftNode.EveryRunIsBacked` | src/lib/craft/craft_repl_dev.cpp:276-402 | In every interleaving from start-up every held slot is in the journal and every block a journal entry references is allocated |
| `CraftNode.StepFreesOnlyItsOwn` | src/lib/craft/craft_repl_dev.cpp:362-371 | A step frees at most the block its own write allocated, only after its own append failed, and no journal entry refers to it |
| `CraftNode.JournalStep` | src/lib/craft/craft_repl_dev.cpp:215-371 | An append puts the record of its own request at its slot, a truncation drops exactly the entries above the cut, and nothing else touches the journal |
| `CraftNode.BlockStep` | src/lib/craft/craft_repl_dev.cpp:347-371 | An allocation adds its block, a successful free takes away the block of a failed append, and nothing else touches the blocks |
| `CraftNode.AbandonRuns` | src/lib/craft/craft_repl_dev.cpp:345-371 | A write without a block, or whose append fails, ends with journal and replica unchanged and its block freed if the free succeeds |
| `CraftNode.RecordsWereSent` | src/lib/craft/craft_repl_dev.cpp:276-371 | In every interleaving each slot of the journal holds a record that was sent to that slot in that session, length modulo 2^32, with a block exactly if it is not a zero write |
| `CraftNode.Projection` | src/lib/craft/craft_repl_dev.cpp:276-402 | Every interleaved run of a node is a history of the replica |
| `CraftNode.AckHeldExact` | src/lib/craft/craft_repl_dev.cpp:385-396 | An acknowledged write is held if and only if its slot has no Empty verdict |
| `CraftNode.NoneVerdictedExact` | src/lib/craft/craft_repl_dev.cpp:253-261 | The only step that puts a current write in flight on an Empty slot is a verdict on its slot |
| `CraftNode.VerdictLosesAck` | src/lib/craft/craft_repl_dev.cpp:373-396 | A run from start-up reaches an acknowledged write that is not held |
| `CraftNode.CutExact` | src/lib/craft/craft_repl_dev.cpp:204-233 | A truncation keeps the invariant if and only if no current write is in flight above the cut |
| `CraftNode.CompletionRuns` | src/lib/craft/craft_repl_dev.cpp:345-398 | Any write in flight that has not failed can be brought to its end, with this effect on replica, journal and blocks |
| `CraftNode.CutAckExact` | src/lib/craft/craft_repl_dev.cpp:204-233 | A current write completed after a truncation, in whatever phase it was, is held if and only if its slot is at or below the cut and not Empty |
| `CraftNode.CutLosesNoAckExact` | src/lib/craft/craft_repl_dev.cpp:204-233 | A truncation costs no write an acknowledged slot if and only if none that was due one lies above the cut |
| `CraftNode.UnfencedTruncateLosesAck` | src/lib/craft/craft_repl_dev.cpp:204-233 | A run from start-up reaches a truncation that the replica accepts, is not fenced, and lets a write be acknowledged whose slot is neither held nor journalled |
| `CraftContents.AckedContentsAreDurable` | src/lib/craft/craft_repl_dev.cpp:360-396 | In disciplined runs the held slots are exactly the acknowledged ones not truncated or verdicted; each has the acknowledged record with its length cut to 32 bits, and so what was acknowledged if and only if the length is below 2^32 |
| `CraftContents.ShortWritesAreDurable` | docs/craft/rpcs.md:65-75 | If every request of a disciplined run is shorter than 4 GiB, each acknowledged slot has what was promised |
| `CraftContents.LongZeroWriteIsCut` | src/lib/craft/craft_repl_dev.cpp:362-363 | A disciplined run from start-up acknowledges a zero write of 4 GiB and records length 0 |
| `CraftContents.OverlapIsAdmitted` | src/lib/craft/craft_repl_dev.cpp:303-334 | While a write is in flight a second one to its slot is admitted |
| `CraftContents.OverlapOverwrites` | src/lib/craft/craft_repl_dev.cpp:362-396 | Of two writes in flight to one slot, acknowledging one and then appending the other leaves the acknowledged record in place if and only if both are zero writes with the same record |
| `CraftContents.UndisciplinedLoses` | src/lib/craft/craft_repl_dev.cpp:303-396 | After a write begins against the discipline, the writes in flight can be completed so that an acknowledged record is lost |
| `CraftContents.DisciplineExact` | src/lib/craft/craft_repl_dev.cpp:303-396 | From a clean state, a step makes such a loss possible if and only if it breaks the discipline |
| `CraftContents.OverlapLosesFromStart` | src/lib/craft/craft_repl_dev.cpp:303-396 | A run from start-up loses an acknowledged record |
| `CraftCluster.WorkHolds` | src/lib/craft/craft_repl_dev.cpp:292-396 | Client work takes no held slot away, and what is acknowledged is held |
| `CraftCluster.JoinedHolds` | docs/craft/subtasks.md:182-184 | A replica that applies a login loses exactly the slots above the mark and the verdicted ones, and its truncation is fenced by the new term |
| `CraftCluster.JoinedMarks` | docs/craft/subtasks.md:182-186 | Its watermark is cut to the mark, the verdicts are adopted, and its journal loses exactly the entries above the mark if it was ahead |
| `CraftCluster.NewPollFine` | docs/craft/subtasks.md:179-187 | The mark of a quiesced poll reaches, and its verdicts spare, every slot a polled member acknowledged and still holds |
| `CraftCluster.MoveKeepsInv` | docs/craft/subtasks.md:178-187 | The cluster invariant survives every client step, retry, poll, abort, commit and application of a login |
| `CraftCluster.AckStep` | src/lib/craft/craft_repl_dev.cpp:373-403 | A step records exactly the acknowledgement it gives: the current-term end of a write, or the reply to a write of a held slot |
| `CraftCluster.AcksInRuns` | src/lib/craft/craft_repl_dev.cpp:276-403 | Over whole runs an acknowledgement is on record if and only if some step gave it |
| `CraftCluster.RetryExact` | src/lib/craft/craft_repl_dev.cpp:303-307 | A write is answered as already done exactly for a held slot of a replica that is not quiesced |
| `CraftCluster.LoginStep` | docs/craft/subtasks.md:178-185 | Committed logins stay, and only a commit adds one: the poll that was pending |
| `CraftCluster.FirstSession` | docs/craft/subtasks.md:178-187 | A run of three replicas from start-up: a slot acknowledged by all, committed by one, a poll of two, and a login applied by all that keeps the slot |
| `CraftCluster.MajoritiesMeet` | docs/craft/subtasks.md:179-180 | Two majorities of the replicas have a member in common |
| `CraftCluster.MajorityAckSurvives` | src/lib/craft/craft_repl_dev.cpp:335-341 | No login, committed or pending, takes away a slot that a majority acknowledged in an earlier session |
| `CraftCluster.RecoveryWatermark` | src/lib/craft/craft_repl_dev.cpp:335-342 | In every reachable cluster state and for every polled majority: a polled member holds each majority-acknowledged slot, the largest polled watermark reaches it, truncating a holder to it keeps the slot, and no login cut or verdicted it |
| `CraftCluster.UnheldWasNeverMajorityAcked` | docs/craft/subtasks.md:187-187 | A slot that no polled member holds was never acknowledged by a majority |
| `CraftCluster.LoginIsAlwaysApplicable` | src/lib/craft/craft_repl_dev.cpp:204-221 | Every replica can apply its next login: the truncation is fenced, and not below what the replica has committed |
| `CraftCluster.CommitBelowLogin` | src/lib/craft/craft_repl_dev.cpp:218-221 | No login a replica has yet to apply has its mark below the commit point of that replica |
| `CraftCluster.MarkReachesCommit` | docs/craft/subtasks.md:179-184 | In every reachable state the largest watermark of every majority reaches the commit point of every replica |
| `CraftReplDevice.CraftReplDev.RecordGap` | src/lib/craft/craft_repl_dev.cpp:330-333 | The gap loop inserts exactly the slots jumped over that are not Empty |
| `CraftReplDevice.CraftReplDev.CheckWrite` | src/lib/craft/craft_repl_dev.cpp:278-329 | The guards in their order decide as the specification does |
| `CraftReplDevice.CraftReplDev.AdmitWrite` | src/lib/craft/craft_repl_dev.cpp:278-343 | The first critical section is the admission step, or changes nothing if the write is rejected or already there |
| `CraftReplDevice.CraftReplDev.FinishWrite` | src/lib/craft/craft_repl_dev.cpp:385-398 | The last critical section is the finish step if the term still matches, and changes nothing otherwise |
| `CraftReplDevice.CraftReplDev.Write` | src/lib/craft/craft_repl_dev.cpp:276-403 | An undisturbed write runs the steps of the machine; success and each error are returned exactly for their stated cause; the slot is held, its record journalled and its block kept exactly if the write was stored |
| `CraftReplDevice.CraftReplDev.PerformWrite` | src/lib/craft/craft_repl_dev.cpp:276-403 | The coroutine ends in the outcome of its branch, with the answer that belongs to it |
| `CraftReplDevice.CraftReplDev.TruncateTo` | src/lib/craft/craft_repl_dev.cpp:215-233 | If the journal agrees, journal and missing set keep exactly their entries up to the cut, unchanged, and the watermark is clamped to it; otherwise nothing changes |
| `CraftReplDevice.CraftReplDev.ApplyVerdict` | src/lib/craft/craft_repl_dev.cpp:253-261 | The verdict step: Empty grows by the slots, and they leave the missing set |
| `CraftReplDevice.CraftReplDev.FetchData` | src/lib/craft/craft_repl_dev.cpp:445-475 | One answer per requested slot that is Empty or held, in request order, with the record of the journal unless it is Empty; failure exactly if a held slot cannot be read |
| `CraftReplDevice.AnswerableMembers` | src/lib/craft/craft_repl_dev.cpp:449-471 | The slots answered are exactly the requested ones that are Empty or held |
| `CraftReplDevice.AnswerableAppend` | src/lib/craft/craft_repl_dev.cpp:445-475 | The answers to a list of requests are the answers to its parts, one after the other |
| `CraftReplDevice.AnswerableOne` | src/lib/craft/craft_repl_dev.cpp:449-471 | A single slot is answered once if it is Empty or held, and not at all otherwise |
| `CraftReplDevice.WriteScriptRuns` | src/lib/craft/craft_repl_dev.cpp:276-402 | The undisturbed write is a run of the step machine with the outcome of each branch |
| `FixedIndex.RollbackUndoes` | src/lib/volume/index_fixed_table.hpp:65-104 | Rolling back the puts made restores the index, for any mix of overwritten and new LBAs |
| `FixedIndex.RunawayRollbackErases` | src/lib/volume/index_fixed_table.hpp:65-104 | For a failure at LBA 0 the rollback has erased every entry below n after n rounds |
| `FixedIndex.PutRangeAt` | src/lib/volume/index_fixed_table.hpp:36-47 | The puts store the noted values inside the range and nothing else |
| `FixedIndex.CaptureAt` | src/lib/volume/index_fixed_table.hpp:27-34 | The put filter notes the previous entry of each LBA that had one |
| `FixedIndex.RestoreAt` | src/lib/volume/index_fixed_table.hpp:86-104 | A rollback gives each LBA of its range its noted predecessor or removes it, and touches no other |
| `FixedIndex.FixedIndexTable.WriteToIndex` | src/lib/volume/index_fixed_table.hpp:25-74 | All entries stored and the previous ones noted, or the index as before; runs away exactly for a failure at LBA 0 |
| `FixedIndex.FixedIndexTable.RollbackWrite` | src/lib/volume/index_fixed_table.hpp:86-104 | Entries with a noted predecessor get it back, the others are removed |
| `PrefixIndex.KeyRoundTrip` | src/lib/volume/index_prefix_kv.hpp:53-56 | An LBA is split at 32 bits into prefix and suffix, and put together again |
| `PrefixIndex.CompareIsNumeric` | src/lib/volume/index_prefix_kv.hpp:75-88 | The order of packed keys is the order of LBAs |
| `PrefixIndex.ValueRoundTrip` | src/lib/volume/index_prefix_kv.hpp:195-215 | A single block is packed as chunk, count 1 and block number with its checksum, and unpacked again |
| `PrefixIndex.ShiftKeyExact` | src/lib/volume/index_prefix_kv.hpp:114-124 | A shifted key names the LBA n further on if and only if the prefix is the same, and then the distance is n |
| `PrefixIndex.ShiftValueExact` | src/lib/volume/index_prefix_kv.hpp:252-261 | A shifted value is the n-th block of the piece with its own checksum |
| `PrefixIndex.PrefixRefinesFixed` | src/lib/volume/index_prefix_table.hpp:34-47 | For a piece within one prefix the range put stores exactly what one put per LBA stores |
| `PrefixIndex.PrefixIndexTable.WriteToIndex` | src/lib/volume/index_prefix_table.hpp:25-54 | Index and notes end as with the fixed table, or nothing changes if the put fails |
| `JournalKey.LERoundTrip` | src/lib/volume/volume.cpp:289-304 | Integers survive being stored little-endian |
| `JournalKey.BlkBitsRoundTrip` | src/lib/volume/volume.cpp:301-304 | A block id survives being stored as 64 bits |
| `JournalKey.HeaderRoundTrip` | src/lib/volume_mgr.cpp:329-341 | Decoding gives back start LBA and LBA count, and the number of old blocks modulo 2^16 |
| `JournalKey.CsumRoundTrip` | src/lib/volume_mgr.cpp:343-348 | Walking two bytes per LBA behind the header meets the checksums in LBA order |
| `JournalKey.OldRoundTrip` | src/lib/volume_mgr.cpp:360-384 | The old blocks are met in order behind the checksums |
| `JournalKey.Layout` | src/lib/volume/volume.cpp:289-304 | The bytes of a record, position by position: start LBA, LBA count, number of old blocks modulo 2^16, two bytes per checksum, eight per old block |
| `JournalKey.PutLE` | src/lib/volume/volume.cpp:291-303 | A store changes its own bytes and no others |
| `JournalKey.PutHeader` | src/lib/volume/volume.cpp:289-292 | The header bytes |
| `JournalKey.PutCsums` | src/lib/volume/volume.cpp:294-299 | The checksums go behind what is in the buffer already |
| `JournalKey.PutOlds` | src/lib/volume/volume.cpp:301-304 | The old blocks go behind the checksums |
| `JournalKey.EncodeKey` | src/lib/volume/volume.cpp:276-304 | The buffer ends up holding exactly the record |
| `RunMerge.QueryAt` | src/lib/volume/index_fixed_table.hpp:76-84 | A range query returns only entries of the index within the range |
| `RunMerge.QuerySorted` | src/lib/volume/index_fixed_table.hpp:76-84 | in LBA order |
| `RunMerge.QueryComplete` | src/lib/volume/index_fixed_table.hpp:76-84 | and every one of them |
| `RunMerge.RunsDecompose` | src/lib/volume/volume.cpp:372-398 | Expanding the maximal runs gives back the entries in order, and no two neighbouring runs could be one |
| `RunMerge.Coalesce` | src/lib/volume/volume.cpp:372-398 | The pass emits the maximal runs, each with its length modulo 2^16 |
| `RunMerge.CoalesceExact` | src/lib/volume/index_prefix_kv.hpp:210-215 | The cut loses nothing if and only if every maximal run is shorter than 2^16 blocks |
| `RunMerge.RunsPartition` | src/lib/volume/volume.cpp:372-398 | The runs of a range query divide exactly its mapped LBAs among them, in order |
| `RunMerge.LongRunExact` | src/lib/volume/volume.cpp:384-396 | Some run has 2^16 blocks or more if and only if 2^16 consecutive LBAs of the range are mapped to consecutive blocks |
| `ReadPath.HoleExact` | src/lib/volume/volume.cpp:443-451 | The 32-bit cursor gives the true hole below 2^32 and an oversized one from there on |
| `ReadPath.FillOne` | src/lib/volume/volume.cpp:445-468 | One round of the fill shows the right blocks up to the end of its run, and stays in bounds if and only if the cursor has not passed 2^32 |
| `ReadPath.FillTail` | src/lib/volume/volume.cpp:469-476 | The rest is zeroed, in bounds if and only if the cursor has not passed 2^32 |
| `ReadPath.FillHole` | src/lib/volume/volume.cpp:449-454 | A hole is zeroed without touching what is filled |
| `ReadPath.FillRun` | src/lib/volume/volume.cpp:458-465 | A run brings its blocks to the buffer in order |
| `ReadPath.SubmitReads` | src/lib/volume/volume.cpp:431-480 | The buffer shows what the runs bring and zeros elsewhere, and the fill stays in bounds if and only if neither the start of the range nor the end of any run reaches 2^32 |
| `ReadPath.NarrowedShow` | src/lib/volume/volume.cpp:384-396 | The cut runs show the block the index has for each LBA, and zeros exactly where a long run cuts it off |
| `ReadPath.CutOffExact` | src/lib/volume/volume.cpp:384-396 | Something is cut off if and only if the range has a long run |
| `ReadPath.ReachExact` | src/lib/volume/volume.cpp:443-476 | Without long runs, the runs are in reach if and only if the range starts below 2^32 and none of its LBAs from 2^32 - 1 on is mapped |
| `ReadPath.VerifyChecksums` | src/lib/volume/volume.cpp:400-429 | Accepts if and only if every mapped block in the buffer has its indexed checksum |
| `VolumeSpec.OldsMembers` | src/lib/volume/volume.cpp:268-274 | The old blocks are exactly those the overwritten LBAs pointed to |
| `VolumeSpec.OldsDistinct` | src/lib/volume/volume.cpp:268-274 | and none is listed twice |
| `VolumeSpec.OldsAppend` | src/lib/volume/volume.cpp:268-274 | The old blocks are listed in the order of the traversal |
| `VolumeSpec.AllocExact` | src/lib/volume/volume.cpp:209-209 | A write is given as many blocks as fit its byte count modulo 2^32, and one for each LBA if and only if it is smaller than 2^32 bytes |
| `VolumeSpec.CommitKeepsInv` | src/lib/volume/volume.cpp:205-332 | A committed write keeps the index injective, backed and checksummed, and frees no block the index points to |
| `VolumeSpec.CommitRefinesOverwrite` | src/lib/volume/volume.cpp:205-332 | Copy-on-write refines overwriting a plain map from LBAs to contents |
| `VolumeSpec.CommitConserves` | src/lib/volume/volume.cpp:268-304 | Allocated blocks stay exactly the mapped ones if and only if fewer than 2^16 mapped LBAs are overwritten |
| `VolumeSpec.LeakedBlock` | src/lib/volume/volume.cpp:289-289 | An old block the record does not name stays allocated and unmapped |
| `VolumeRuns.RunKeepsInv` | src/lib/volume/volume.cpp:205-332 | The volume invariant holds after every run of writes, completed, failed after any number of entries, or not written at all |
| `VolumeRuns.RunGoesOn` | src/lib/volume/volume.cpp:205-232 | After every run, a free piece of the size the write asks for lets a write of any data to any LBA follow |
| `VolumeRuns.CommitView` | src/lib/volume/volume.cpp:205-332 | A commit changes what a reader of an LBA sees exactly inside the written range, to the data written |
| `VolumeRuns.AttemptView` | src/lib/volume/volume.cpp:205-332 | A write that completes or fails changes what a reader sees exactly where it has put an entry |
| `VolumeRuns.PutsAllExact` | src/lib/volume/volume.cpp:209-209 | A completed write puts all its blocks if and only if it is smaller than 2^32 bytes |
| `VolumeRuns.LargeWriteLosesTail` | src/lib/volume/volume.cpp:209-264 | Behind the blocks that a larger write was given, the LBAs of its range read as before it |
| `VolumeRuns.LargeWriteRun` | src/lib/volume/volume.cpp:209-264 | A first write of 4 GiB and one block to an empty volume completes and maps only its first LBA |
| `VolumeRuns.ReadsSeeLastWrite` | src/lib/volume/volume.cpp:205-480 | After any run of writes each LBA reads as the block last put there, and as a block of zero bytes if none was |
| `VolumeRuns.LastWrittenExact` | src/lib/volume/volume.cpp:205-332 | What was last put at an LBA is the block of the latest attempt that put one there, and nothing if none did |
| `VolumeRuns.ReadShowsLastWrites` | src/lib/volume/volume.cpp:334-480 | A buffer that shows the volume after a run of writes holds, block by block, what was last put there, and zero bytes where nothing was |
| `VolumeRuns.RunConserves` | src/lib/volume_mgr.cpp:357-385 | After any run the allocated blocks are exactly the mapped ones if and only if no attempt of the run leaked |
| `VolumeRuns.ConservedStep` | src/lib/volume/volume.cpp:205-332 | An attempt leads to a conserving volume if and only if it starts from one and does not leak |
| `VolumeRuns.FailedConserves` | src/lib/volume/volume.cpp:258-320 | A failed write conserves if and only if it had put all its blocks and overwrote no mapping |
| `VolumeRuns.LeakPersists` | src/lib/volume_mgr.cpp:363-385 | A leaked block is never freed, mapped or handed out by a later write, completed or not |
| `VolumeRuns.ShortWritesAreComplete` | src/lib/volume/volume.cpp:268-289 | A write of n blocks names at most n old blocks |
| `LogReplay.RecordRoundTrip` | src/lib/volume_mgr.cpp:329-385 | A decoded record names the LBAs, blocks and checksums of the part of its write that got blocks, and exactly the old blocks the commit frees; applying it gives the index of the commit |
| `LogReplay.OffsetsAgreeExact` | src/lib/volume_mgr.cpp:341-365 | The live commit and the replay find the old blocks at the same place if and only if the write got all its blocks |
| `LogReplay.ReplayOldsExact` | src/lib/volume_mgr.cpp:357-385 | A replay frees the blocks it reads behind one checksum per stored block; for a write that got all its blocks these are exactly the ones its commit freed |
| `LogReplay.ApplyLogAppend` | src/lib/volume_mgr.cpp:339-356 | Replaying a log in two parts is replaying it |
| `LogReplay.ApplyLogAt` | src/lib/volume_mgr.cpp:339-356 | Two indexes agree at an LBA after a replay if and only if the replay writes it or they agreed before |
| `LogReplay.ReplayConverges` | src/lib/volume_mgr.cpp:332-356 | Replay from a point gives the index of the whole log if and only if the index found agrees with the log up to that point wherever the rest does not write |
| `LogReplay.LaterPointAgrees` | src/lib/volume_mgr.cpp:332-356 | Between two points of the log an LBA changes only if a record between them stores it |
| `LogReplay.TornFlushIsRepaired` | src/lib/volume_mgr.cpp:324-356 | If each LBA found reflects the log up to some point of its own at or after the replay point, replay restores the index of the whole log |
| `CrashReplay.ReplayRestores` | src/lib/volume_mgr.cpp:324-385 | After any run of completed and failed writes, replaying the log over an empty index maps each LBA to the intact block of the last completed write, and differs from the live index exactly where a failed write put the last block |
| `CrashReplay.RecoveredReads` | src/lib/volume_mgr.cpp:324-385 | From any replay point and any index up to date with it, recovery shows at each LBA what the last completed write put there |
| `CrashReplay.LastCompletedExact` | src/lib/volume/volume.cpp:205-332 | The last completed write of an LBA is the latest attempt that completed and put a block there |
| `CrashReplay.LogMore` | src/lib/volume/volume.cpp:315-325 | Exactly the completed writes add a record to the log, in order |
| `PieceStore.PieceProgress` | src/lib/volume/volume.cpp:238-264 | Putting one more piece extends index and notes by exactly that piece, with predecessors as of before the whole write |
| `PieceStore.EntryPiece` | src/lib/volume_mgr.cpp:341-355 | The key cursor stands at the checksums of each piece in turn |
| `PieceStore.TornVolume` | src/lib/volume/volume.cpp:258-261 | A write that failed after n entries leaves a consistent volume that shows its first n blocks |
| `PieceStore.FailureLeavesIndexExact` | src/lib/volume/volume.cpp:234-261 | A write that fails in the index leaves the index alone if and only if the failing LBA is in its first piece |
| `PieceStore.TornAll` | src/lib/volume/volume.cpp:265-320 | With all entries put, the commit differs only by the blocks freed |
| `PieceStore.FreeAllAt` | src/lib/volume_mgr.cpp:363-385 | After freeing the old blocks of a list of records a block is allocated if and only if it was before and none of them names it |
| `PieceStore.EndsAtExact` | src/lib/volume_mgr.cpp:339-356 | A replay maps an LBA to a block if and only if the last record that stores the LBA put it there, or none stores it and it was there |
| `PieceStore.ReplayKeepsMappedExact` | src/lib/volume_mgr.cpp:339-385 | Each block that the replayed index maps stays allocated if and only if no replayed record takes it for an old one |
| `VolumeDevice.Volume.DescribePiece` | src/lib/volume/volume.cpp:246-253 | Each block of a piece is noted with its checksum under its LBA |
| `VolumeDevice.Volume.StoreIndex` | src/lib/volume/volume.cpp:234-264 | All entries stored with their predecessors noted, or the pieces before the failing one |
| `VolumeDevice.Volume.CollectOlds` | src/lib/volume/volume.cpp:268-274 | The old blocks are what the index held before the write, in traversal order |
| `VolumeDevice.Volume.CollectCsums` | src/lib/volume/volume.cpp:294-299 | The checksums of the record are those of the blocks stored, and zero for LBAs that got no block |
| `VolumeDevice.Volume.DescribeFromKey` | src/lib/volume_mgr.cpp:343-348 | The blocks of a piece are noted with the checksums at the cursor |
| `VolumeDevice.Volume.ReplayPiece` | src/lib/volume_mgr.cpp:341-355 | One piece of the record is put into the index and the cursor moves past its checksums |
| `VolumeDevice.Volume.ReplayIndex` | src/lib/volume_mgr.cpp:339-356 | Replaying a record piece by piece applies it and leaves the cursor at the old blocks |
| `VolumeDevice.Volume.FreeOlds` | src/lib/volume_mgr.cpp:367-385 | Exactly the blocks read from the cursor on are no longer allocated |
| `VolumeDevice.Volume.OnWrite` | src/lib/volume_mgr.cpp:311-399 | The live branch frees the old blocks the record names, the recovery branch those found behind the checksums it consumed; only recovery applies the record to the index |
| `VolumeDevice.Volume.Recover` | src/lib/volume_mgr.cpp:324-385 | Recovery from a point applies the rest of the log to the index found and frees exactly what the replayed records give for old blocks; if disk and log are those of a run of writes and the index is up to date, it shows exactly the completed ones |
| `VolumeDevice.Volume.JournalAndCommit` | src/lib/volume/volume.cpp:267-331 | Journalling and committing the collected notes completes the write as specified |
| `VolumeDevice.Volume.StoreAndCommit` | src/lib/volume/volume.cpp:234-331 | After the data is written: index, journal and commit, or the state torn at the failing piece or at the journal |
| `VolumeDevice.Volume.Write` | src/lib/volume/volume.cpp:205-332 | Success and each error are returned exactly if the stages end so, first failure first; success is the specified commit of the part that got blocks with its record logged, and every way to end extends the history of the volume by what it put |
| `VolumeDevice.Volume.Read` | src/lib/volume/volume.cpp:334-370 | Overrun, read failure and checksum mismatch each exactly under the stated condition; without a long run in the range the fill overruns exactly if the range is not addressable, the read fails exactly if some block was needed and could not be read, the checksums never reject, and the buffer holds what was put last, or zero bytes |
| `VolumeDevice.SeenChecksums` | src/lib/volume/volume.cpp:400-429 | The checksum walk accepts what a read brings if and only if no cut-off block has another checksum than zeros |
| `VolumeDevice.LongRunIsNoticed` | src/lib/volume/volume.cpp:384-429 | With a long run in the range, a read ends in a checksum mismatch unless some mapped block has the checksum of a zero block |
| `VolumeDevice.LongIndexIsRejected` | src/lib/volume/volume.cpp:384-429 | A concrete addressable range of 2^16 blocks for which it does |
| `VolumeDevice.WithoutLongRuns` | src/lib/volume/volume.cpp:384-476 | Without a long run nothing is cut off, nothing is noticed, and reach is a matter of the mapped LBAs |
| `VolumeDevice.SeenIsLast` | src/lib/volume/volume.cpp:334-370 | Without a long run, what a read brings after a run of writes is what was put last |
| `ChunkSelector.AddKeeps` | src/lib/volume/volume_chunk_selector.cpp:26-35 | Announcing a chunk keeps each chunk in exactly one place |
| `ChunkSelector.MaxChunks` | src/lib/volume/volume_chunk_selector.cpp:63-63 | The smallest number of chunks, at least one, that covers the size |
| `ChunkSelector.InitialActive` | src/lib/volume/volume_chunk_selector.cpp:64-69 | One chunk if the volume grows on demand, else all |
| `ChunkSelector.ResizeCount` | src/lib/volume/volume_chunk_selector.cpp:196-199 | Three chunks, or what is left up to the maximum |
| `ChunkSelector.CreateKeeps` | src/lib/volume/volume_chunk_selector.cpp:37-100 | So does giving chunks to a new volume; all are on its device and none had an owner |
| `ChunkSelector.GrowKeeps` | src/lib/volume/volume_chunk_selector.cpp:196-209 | So does adding chunks behind the active ones, up to the maximum |
| `ChunkSelector.ActivateKeeps` | src/lib/volume/volume_chunk_selector.cpp:220-222 | So does activating them |
| `ChunkSelector.ReleaseKeeps` | src/lib/volume/volume_chunk_selector.cpp:309-329 | So does releasing a volume |
| `ChunkSelector.FreeCountIsSize` | src/lib/volume/volume_chunk_selector.cpp:350-357 | The free count adds up to the number of distinct free chunks |
| `ChunkSelector.FreeAndOwned` | src/lib/volume/volume_chunk_selector.cpp:350-357 | Free chunks are exactly the announced ones without an owner, each counted once |
| `ChunkSelector.ReleaseAllKeeps` | src/lib/volume/volume_chunk_selector.cpp:309-329 | Releasing any volumes one after the other keeps the partition and removes exactly those volumes |
| `ChunkSelector.AllReleased` | src/lib/volume/volume_chunk_selector.cpp:309-357 | Releasing every volume, in any order, makes every announced chunk free again, and the free count is the number of chunks |
| `ChunkSelectorObject.FilledAt` | src/lib/volume/volume_chunk_selector.hpp:41-57 | The set entries of a vector filled from the front are its first ones, in order |
| `ChunkSelectorObject.VolumeChunkSelector.AddChunk` | src/lib/volume/volume_chunk_selector.cpp:26-35 | The announced chunk joins the pool of its device |
| `ChunkSelectorObject.VolumeChunkSelector.TakeFrom` | src/lib/volume/volume_chunk_selector.cpp:235-264 | n distinct chunks leave the pool, whichever come first |
| `ChunkSelectorObject.VolumeChunkSelector.AllocateFromAnyPdev` | src/lib/volume/volume_chunk_selector.cpp:228-248 | Finds a device with room for all chunks if there is one, and takes only the initial ones |
| `ChunkSelectorObject.VolumeChunkSelector.AllocateInitChunks` | src/lib/volume/volume_chunk_selector.cpp:37-100 | A new volume gets its initial chunks, or nothing changes exactly if no device has room for the maximum |
| `ChunkSelectorObject.VolumeChunkSelector.TryStartResize` | src/lib/volume/volume_chunk_selector.cpp:160-190 | A resize starts exactly if the latch was free and the second look finds too few blocks, or at most half of them, available; the latch is taken in every case |
| `ChunkSelectorObject.VolumeChunkSelector.GrowVolume` | src/lib/volume/volume_chunk_selector.cpp:196-209 | Takes min(3, room left) chunks of the volume's device, or aborts exactly if that is zero or the device lacks them |
| `ChunkSelectorObject.VolumeChunkSelector.FillSlots` | src/lib/volume/volume_chunk_selector.cpp:203-209 | New chunks follow the active ones in the vector |
| `ChunkSelectorObject.VolumeChunkSelector.ChunkIds` | src/lib/volume/volume_chunk_selector.cpp:211-214 | The ids to persist are those of every chunk in the vector, active or not |
| `ChunkSelectorObject.VolumeChunkSelector.FinishResize` | src/lib/volume/volume_chunk_selector.cpp:220-222 | What is in the vector becomes active, and the latch is given back |
| `ChunkSelectorObject.VolumeChunkSelector.GiveBack` | src/lib/volume/volume_chunk_selector.cpp:317-324 | Every chunk of the vector is untagged and in the pool of its device |
| `ChunkSelectorObject.VolumeChunkSelector.ReleaseChunks` | src/lib/volume/volume_chunk_selector.cpp:309-329 | The volume is gone and all its chunks, active or not, are free |
| `ChunkSelectorObject.VolumeChunkSelector.RecoverChunks` | src/lib/volume/volume_chunk_selector.cpp:267-307 | The volume has exactly its persisted chunks again, all active; it fails exactly if one is unknown, and is then left recovered up to that chunk, with a null entry for its id |
| `ChunkSelectorObject.HalfRecoveredIsBroken` | src/lib/volume/volume_chunk_selector.cpp:279-290 | A half recovered volume breaks the invariant |
| `ChunkSelectorObject.SweepsExact` | src/lib/volume/volume_chunk_selector.cpp:143-149 | A walk of n steps with the shared 32-bit cursor meets every position if and only if the cursor does not wrap on the way or n divides 2^32 |
| `ChunkSelectorObject.VolumeChunkSelector.SelectChunk` | src/lib/volume/volume_chunk_selector.cpp:139-149 | A chunk returned is the first active chunk with free blocks along the walk; after a complete walk none is returned only if there is none |
| `ChunkOwnership.StepKeepsInv` | src/lib/volume/volume_chunk_selector.cpp:160-329 | Active chunks are persisted, persisted ones owned, lists disjoint, across every step and crash, except a destroy before the own resize has persisted |
| `ChunkOwnership.EveryRunIsSafe` | src/lib/volume/volume.cpp:76-203 | In every run without such a destroy each chunk is in one place, active chunks are on the persisted list of their volume, and no two lists share a chunk |
| `ChunkOwnership.RecoveryNeverAsserts` | src/lib/volume/volume_chunk_selector.cpp:267-302 | No assertion of recovery can trip for a persisted volume that is not yet back |
| `ChunkOwnership.RecoverAll` | src/lib/volume/volume.cpp:136-150 | Volumes can be recovered one after the other in any order, and each ends with exactly its persisted list |
| `VolumeLife.CreationRuns` | src/lib/volume/volume.cpp:76-112 | Creation ends with the chunks given to the volume, all active, off the free pool and on the persisted list |
| `VolumeLife.ResizeRuns` | src/lib/volume/volume_chunk_selector.cpp:160-226 | A resize that runs through adds its chunks behind the others, active and persisted, and gives the latch back |
| `VolumeLife.RemovalRuns` | src/lib/volume/volume.cpp:157-194 | A removal ends with no superblock, no volume, and every chunk of it free |
| `VolumeLife.RecoveryMeans` | src/lib/volume/volume_chunk_selector.cpp:267-307 | A recovered volume has exactly the chunks of its persisted list, all active and none free |
| `ChunkOwnership.CrashRecovery` | src/lib/volume/volume.cpp:136-150 | From any point of any such run, crash and recovery give every volume back every chunk it could allocate from |
| `ChunkOwnership.PersistGrownKeeps` | src/lib/volume_mgr.cpp:205-219 | Persisting the grown list keeps lists disjoint and covers what will become active |
| `ChunkOwnership.DestroySbKeeps` | src/lib/volume/volume.cpp:188-193 | Removing the superblock before releasing the chunks is safe at every point in between, unless the own resize has yet to persist |
| `ChunkOwnership.DestroyExact` | src/lib/volume/volume.cpp:157-194 | The invariant survives the removal of the superblock if and only if no resize of the volume is in flight, or it has persisted |
| `ChunkOwnership.NothingComesLate` | src/lib/volume/volume.cpp:196-203 | Under the invariant no persist goes through a destroyed superblock, and no task grows a vector the selector has dropped |
| `ChunkOwnership.GivingUpBlocksResizing` | src/lib/volume/volume_chunk_selector.cpp:160-190 | With the latch lost no volume changes its chunks until the next crash |
| `ChunkOwnership.OnlyGivingUpLeaksLatch` | src/lib/volume/volume_chunk_selector.cpp:186-190 | The early return is the only step that loses the latch |
| `ResizeRaces.DestroyRuns` | src/lib/volume/volume.cpp:157-194 | Superblock removal and release are steps that any stage of the own resize allows; the task keeps its vector |
| `ResizeRaces.DestroyDuringResizeStrandsChunks` | src/lib/volume/volume_chunk_selector.cpp:193-214 | If the task takes its chunks after the destroy, they are in no pool and belong to no volume |
| `ResizeRaces.LatePersistOverwritesList` | src/lib/volume_mgr.cpp:158-219 | If the task took its chunks before the destroy and the ordinal is given to the next volume, the late persist puts the list of the old volume into the superblock of the new one |
| `ResizeRaces.LatePersistIsUnsafe` | src/lib/volume_mgr.cpp:205-219 | The new volume then still allocates only from persisted chunks if and only if all its chunks were on the old list |
| `ResizeRaces.RevivedSuperblockListsFreeChunks` | src/lib/volume/volume.cpp:188-203 | If a persist through the destroyed handle writes a superblock, it lists chunks that are all free |
| `ResizeRaces.StrandingRun` | src/lib/volume/volume.cpp:157-194 | A run from start-up reaches a stranded chunk |
| `ResizeRaces.OverwritingRun` | src/lib/volume_mgr.cpp:158-219 | A run from start-up reaches an overwritten list, after which a crash leaves the volume unrecoverable and its chunk free |

## Left out

- HomeStore: B-tree nodes, log device, block bitmap and checkpoints are not modelled; in particular, how the bitmap
  marks the new blocks of replayed records as allocated is not visible in the repository, so nothing is claimed
  about block conservation across a crash.
- Coroutines, callbacks, reactors and the HomeStore journal back end: an append either succeeds and is durable or
  fails without an entry. A journal back end whose completion is lost is not modelled.
- `login`, `logout`, `read`, `keep_alive`, `request_resolution`, `append` and the RAFT apply helpers are stubs in the
  source; the login steps come from docs/craft/subtasks.md:178-187.
- The cluster has verdicts given at login only and no catch-up fetch by a leader, and it says which slots are held,
  not with which record. Restart of a replica from its journal is not part of the source yet.
- `CraftReplDevice.CraftReplDev.TruncateTo`: that the cut is not below commit_lsn is required of the caller, as the
  debug assertion of the source does.
- `CraftReplDevice.CraftReplDev.Write`: states the write without interleaving; interleavings are the steps of
  `CraftNode`, whose first and last critical sections are `AdmitWrite` and `FinishWrite`.
- `CraftReplDevice.CraftReplDev.ApplyVerdict`: the verdict grows the Empty set; the test hook in the source replaces it.
- `CraftReplDevice.CraftReplDev.FetchData`: the payload bytes of a slot are not modelled, only its record, and the
  batch is answered in one state; the source gives up the lock while it reads a slot.
- `VolumeDevice.Volume.Write`: writes are serialised; the index order and journal order of overlapping concurrent
  writes are not tied together by the source. A write of no blocks is taken to be given none. The block count of a
  request is below 2^32 and the block size at most 2^16 (the source has 4096); how a byte length becomes a block count
  (`volume_mgr.cpp:284-299`) is outside the model.
- `VolumeDevice.Volume.Read`: a read of no blocks is excluded: its last LBA would be the one before its first.
  The buffer is an array of blocks, not of bytes.
- `ReadPath.FillRun`: a data read of a run whose count was cut to 0 is taken to do nothing.
- `PrefixIndex.PrefixIndexTable.WriteToIndex`: the range put of the B-tree is taken to succeed as a whole or to leave
  the index alone, and its notes are given by the specification function.
- `ChunkSelectorObject.VolumeChunkSelector.SelectChunk`: one walk over the active chunks; the usage ratio, the retry
  loop with its sleep, and concurrent use of the cursor are not modelled.
- `ChunkSelectorObject.VolumeChunkSelector.TryStartResize`: the usage ratio is an exact fraction, not a float; block
  counts are parameters.
- `ResizeRaces.RevivedSuperblockListsFreeChunks`: HomeStore's behaviour on a destroyed superblock handle is not part of
  this model, so the step is one that may happen.
- `ChunkSelectorObject.VolumeChunkSelector.AllocateInitChunks`: the limit on volume ordinals is not modelled.
- Rollback puts are taken to succeed; the source only logs their failure.
- CRC16 is an unspecified function of block contents; padding bytes of the record header are zero.
- The bytes of superblock and CRAFT journal entry, volume state, and the index's own chunk selector.
- Metrics, logging, fault-injection flips, unmap, the ublk driver, start-up and shutdown.
