# logfs, modelled and proved in Dafny

logfs is a journaling file system in C. Its write-ahead log (`src/journal.c`) must survive a
crash at any moment on a device with a volatile cache, its transaction manager (`src/txn.c`)
runs handles, a commit and a checkpoint side by side, and its allocators, directories and
files (`src/inode.c`, `src/fs_ops.c`) live on top. This project models the code as it is
written and proves what it keeps.

How the model is built:

- `Bytes`, `Folds`, `Crc32`, `DiskFormat`: little-endian fields, the table-driven checksum and
  the journal's blocks, byte for byte. A 32-bit word is a sequence of 32 bits; 64-bit counters
  wrap in the journal's methods (`Journal.Wrap`).
- `BlockDevice` (module `Device`): a disk is its content at the start of a session and the
  list of writes and flushes since. A crash leaves each block, independently of the others,
  as of the last flush or with any write issued after it.
- `LogFormat`, `Replay`: layout of the circular log, the scan (pass 1), the installs (pass 2).
- `CrashSafety`, `CrashOutcome`, `Checkpoint`, `Corruption`, `Remount`: commit, tail advance and
  recovery as scripts of single device operations. A predicate for every point of a script says
  what holds there, whatever home blocks other threads write in between.
- `Journal`: the class with the cursor, the loops and the fields of the C struct. Its methods
  issue exactly the scripts above.
- `Pipeline`, `PipelineJournal`, `PipelineInv`, `LogicalDisk`, `CrashRuns`, `Generations`,
  `Lookup`, `LostUpdate`, `Reclaim`, `Syncs`, `OrderedData`, `Overtaken`: the transaction manager as a step system over its lock.
  A step is one action of a handle or one step of the commit thread, which issues one device
  operation at a time, so every interleaving is a run.
- `Enabled`: each call of a handle goes through in every state in which its C preconditions hold,
  and the thread stands still in four cases only; so the runs leave out none of the program's.
- `TxnManager`: the class with the hash table, the checkpoint list and the loops of the commit
  thread, each method proved against a specification of the new state. `Turns` shows that a turn
  of the step system with nothing in between issues exactly the operations of the class.
- `Structures`, `FileSystem`, `Directory`: bitmaps, inodes, file chunks and directory slots
  over the map from block number to content that the lookup of the layers below returns;
  `WholeStores` carries what their operations keep through every crash of the pipeline.

Hypotheses of a session (`PipelineInv.Init`, `Pipeline.Step`), none of them checked by the C code:

- the log is empty and no block of the region reads as a commit block with a number still to
  be given out (`CrashRuns.FirstSessionBegins` shows it after format,
  `CrashRuns.NextSessionBegins` after a crash in any reachable state and a recovery that
  replays, `CrashRuns.InterruptedSessionBegins` after a crash and any number of recoveries
  interrupted while they install; a mount that finds the log empty needs it again);
- no block that is staged or written reads as such a commit block: payloads are not escaped;
- staged and directly written blocks lie outside the journal, as format lays the regions out;
- the 64-bit counters do not wrap within a session.

Where the code does not do what its documentation says, the model follows the code, a lemma
exhibits the failing case and the exact condition is proved:

- Commit writes the revoke block before the payloads, recovery looks for it behind them: a
  returned commit survives if and only if it has no revokes or no payloads, or all its payloads
  happen to equal its revoke block (`CrashOutcome.CommitSurvives`, `LogFormat.ParseExact`). The
  transaction manager never passes revokes (src/txn.c:282).
- docs/DESIGN.md:260-265 promises that recovery can be interrupted anywhere. Its last
  superblock write shares its flush with the installs: a crash there is harmless if and only
  if there was nothing to install (`Replay.RecoveryEnding`); before it the promise holds
  (`Replay.RestartsConverge`).
- A mount that finds the log empty starts over at offset 0 with number 1, whatever the region
  still holds. `Remount.DeadReplayedAgain` is the history in which a transaction that was
  recovered and done with two mounts ago is replayed again, `Remount.StaleWins` the block that
  then loses its committed content. The first commit of a session is recovered as exactly that
  if and only if no valid transaction with the next number stands behind it
  (`Remount.FirstCommitExact`; for any log `CrashOutcome.RecoversExactly`).
- While a copy of a block is on its way to the journal, or has left the checkpoint list and is
  not yet written home, the lookup reads past it, and so does the seed of a newly staged buffer.
  For a block that is written only through staging both return the newest content outside this
  window, and inside it only by accident (`Lookup.LookupExact`, an if and only if); away from it
  last write wins over whole runs (`Lookup.ReadsLastWritten`). `LostUpdate.Undone` is the run in
  which a write that was published is undone by the next commit.
- In ordered mode the lookup ranks a listed copy above a direct write that is newer: data
  written directly is read back if and only if its block is neither staged nor listed
  (`Lookup.DirectRead`); `Overtaken.StaleRead` is the run in which it is not. Nor need the data
  survive: no revoke is ever passed, so an older copy can be installed, or checkpointed, over
  it. It survives if and only if no older copy can still come home when it is written: none
  listed, none off the list and unwritten, none staged or in flight with a generation that fits
  (`Overtaken.DirectExact`; `OrderedData.RunOrdered` for the runs, `Overtaken.PendingOvertakes`
  for the loss).
- src/txn.h:91-93 promises that a sync makes the transaction running at the call durable. It
  does if and only if at the call no generation is in flight and the running number is not
  completed, the generation fits and no shutdown ends the wait (`Syncs.SyncExact`); otherwise it
  returns with the changes uncommitted (`Syncs.SyncMisses` is a run).
- A generation that is too big is dropped and its changes are forgotten (`Lookup.DropForgets`,
  exactly when: `Reclaim.ReclaimOutcome`), and the next sync returns at once, as it does after
  an idle turn of the thread (`TxnManager.TxnManager.Cycle`).
- The inode table is sized by bytes although an inode does not cross blocks: it is long enough
  if and only if there are at most 28 inodes per table block, and first fails at 85
  (`Structures.TableHolds`, `Structures.TableTooShort`).

## Model

| member | source | states |
|---|---|---|
| Crc32.BuildTable | src/crc32.c:11-19 | the table built in place holds, at each index, eight shift steps of the reflected polynomial |
| Crc32.TableStep | src/crc32.c:29 | one table lookup equals eight single-bit steps, for every register and byte |
| Crc32.TableUpdate | src/crc32.c:26-32 | the table loop computes the byte-by-byte fold for every start value and buffer |
| Crc32.UpdateIsBitSerial | src/crc32.c:26-36 | that fold is bit-at-a-time reflected CRC-32 of the message bits |
| Crc32.UpdateConcat | src/crc32.c:26-32 | updating over a concatenation is updating twice: every split into buffers gives one checksum |
| Crc32.BurstDetected | src/crc32.c:11-36 | two messages that differ only inside a window of at most 32 bits have different checksums |
| Crc32.CorruptionDetected | src/crc32.c:11-36 | the same for messages of bytes and a window of at most four bytes |
| Crc32.CheckValues | src/crc32.c:11-36 | the published CRC-32 of no bytes, of FF FF FF FF and of FF FF FF FF 80, as numbers: start value, polynomial and final inversion |
| DiskFormat.ListBlockReadsBack | src/disk_format.h:86-110 | a descriptor or revoke block reads back as magic, count, sequence and list it was made of |
| DiskFormat.CommitBlockReadsBack | src/disk_format.h:93-99 | a commit block reads back as one, with its sequence and checksum |
| DiskFormat.SuperBlockReadsBack | src/journal.c:25-38 | an encoded journal superblock reads back its start and sequence |
| DiskFormat.ListBlockLayout | src/disk_format.h:86-110 | byte by byte: magic at 0, count at 4, number at 8, entry i at 16 + 8i, little-endian, zeros behind |
| DiskFormat.CommitBlockLayout | src/disk_format.h:93-99 | magic at 0, a reserved zero, number at 8, checksum at 16, zeros behind |
| DiskFormat.SuperBlockLayout | src/journal.c:25-38 | magic, block size, length and start of the region, number and offset at 0, 4, 8, 16, 24, 32, zeros behind |
| DiskFormat.BlockFields | src/disk_format.h:58-110 | in any block recovery reads its fields from those bytes |
| Device.BlockDevice.Read | src/blockdev.c:90-95 | a read succeeds exactly inside the device and returns the newest write |
| Device.BlockDevice.WriteBlock | src/blockdev.c:97-102 | a write succeeds exactly inside the device and is issued unflushed |
| Device.FlushHolds | src/blockdev.h:10-18 | after a flush what reads return is the only content a crash can leave |
| Device.BlockDevice.Fsync | src/blockdev.c:104-109 | issues that flush and changes nothing that reads return |
| Device.BlockDevice.WriteFua | src/blockdev.c:111-117 | a write followed by its flush |
| Device.FlushedIsFloor | src/blockdev.h:10-18 | once a write is flushed no crash shows anything older in its block |
| Device.ViewExact | src/blockdev.c:90-102 | a read returns the data of the last write to the block, or what the session began with |
| Device.CrashExact | src/blockdev.h:10-18 | a crash can leave every combination, and no other, of: each block as of the last flush or with any write issued since |
| LogFormat.RemIsRemainder | src/journal.c:12 | the subtraction the model uses is the remainder the code takes |
| LogFormat.PhysDistinct | src/journal.c:11-13 | offsets less than a region length apart lie in different blocks, across wrap-around |
| LogFormat.PhysRing | src/journal.c:11-13 | the region is a ring: offset 0 in its first block, the next offset in the next block, the one behind its last block in the first again; in range offset n in block first + n mod length |
| LogFormat.HomeOrLog | src/disk_format.h:9-16 | home are exactly the blocks no offset leads to, the journal superblock aside |
| LogFormat.ParseWritten | src/journal.c:319-448 | a transaction as commit lays it out, with payloads or revokes but not both, is parsed as itself and the scan goes on right behind it |
| LogFormat.ParseExact | src/journal.c:154-180 | a written transaction is found again as itself if and only if it has no revokes or no payloads, or every payload equals its revoke block |
| LogFormat.ScanReads | src/journal.c:314-449 | print and parse: the scan reads back the written transactions in order, wrapped or filling the whole region |
| LogFormat.ScanExact | src/journal.c:314-449 | it stops exactly at the end if and only if no valid next transaction stands there |
| LogFormat.ScanFresh | src/journal.c:314-449 | in a fresh region it returns exactly the log and ends at its head |
| LogFormat.ScanBounded | src/journal.c:318-449 | on any content at most one transaction per region block is accepted, by pigeonhole on the descriptors |
| Replay.ReplayMeetsSpec | src/journal.c:454-479 | each block ends as the newest copy that no later revoke cancels, last tag first, and is untouched if there is none |
| Replay.InstallsLast | src/journal.c:454-479 | the install list ends, for each block, with the copy the two-pass rule decides on |
| Replay.RevokedByPosition | src/journal.c:459-461 | by position: a revoke cancels a copy if and only if it stands in a later transaction of the log, not in the same or an earlier one |
| Replay.InstallMay | src/journal.c:454-479 | a crash during the installs leaves a block as it was or with one of its copies, and any of these can happen |
| Replay.RestartConverges | src/journal.c:454-484 | a crash after any prefix of the installs, any subset landed, and recovery from scratch ends with the same blocks |
| Replay.RestartsConverge | docs/DESIGN.md:260-265 | the same for any number of interrupted recoveries in a row |
| Replay.RecoveryEnding | src/journal.c:473-484 | the superblock write that ends recovery is crash-safe if and only if every copy was already at home |
| Replay.EndingHarm | src/journal.c:481-484 | when it is not, a crash image that recovers to a wrong block |
| CrashSafety.StableRecovers | src/journal.c:289-449 | between operations every crash image recovers exactly the live transactions, and the next number is fresh |
| CrashSafety.CommitPlaces | src/journal.c:131-203 | block i of a transaction, the commit block last, goes to block first + (head + i) mod length; the commit block stands between two flushes |
| CrashSafety.CommitStep | src/journal.c:148-228 | each device operation of commit takes the disk from one point's condition to the next |
| CrashSafety.MidSame | src/journal.c:118-237 | home writes by others at any point of a commit disturb none of it |
| CrashOutcome.CommitAtomic | src/journal.c:118-237 | at every point and for every subset of unflushed writes recovery gives the earlier transactions or those and this whole one; not before the commit block is issued, always once commit has returned; the number stays fresh |
| CrashOutcome.CommitSurvives | src/journal.c:154-180 | a returned commit survives every crash if and only if it has no revokes or no payloads, or every payload equals its revoke block; for every transaction commit accepts |
| CrashOutcome.RecoversExactly | src/journal.c:314-328 | recovery gives exactly the log if and only if no valid next transaction stands behind it |
| Remount.FirstCommitExact | src/journal.c:217-228 | after the first commit of a session, in every crash image, exactly its transaction is recovered if and only if no valid one with the next number stands behind it |
| Remount.StaleReplayed | src/journal.c:301-305 | after a mount that found the log empty, a leftover transaction 2 right behind the first commit is replayed with it in every crash image, and nothing else if and only if nothing valid follows |
| Remount.StaleWins | src/journal.c:454-479 | a block logged by both then recovers as the leftover's copy |
| Remount.DeadReplayedAgain | src/journal.c:289-313 | the history that leads there: two logged transactions, a crash, a complete recovery, a mount that finds the log empty, a commit as long as the first |
| CrashOutcome.RecoveryStable | src/journal.c:454-484 | after recovery of any image the log is empty and stable for the numbers that follow |
| Checkpoint.CheckpointStep | src/txn.c:216-237 | each operation of a checkpoint takes the disk from one point's condition to the next |
| Checkpoint.CheckpointRecovers | src/journal.c:239-248 | a crash inside a checkpoint recovers the log with or without the oldest transaction, with it until the superblock is issued |
| Checkpoint.HomeMovingStep | src/txn.c:216-225 | home blocks of the oldest transaction hold its copies once they are flushed, before the tail can move |
| Corruption.ChecksumNotices | src/journal.c:102-114 | changing up to four adjacent bytes of one block changes a transaction's checksum |
| Corruption.OneByteDamages | src/journal.c:384-395 | changing exactly one byte of a block is damage of that kind |
| Corruption.DamageStops | src/journal.c:384-395 | so a damaged payload of a live transaction makes recovery replay exactly the transactions before it |
| Journal.FreeSpaceAgrees | src/journal.c:86-88 | the unsigned subtraction is the free space while the tail is within a region length of the head |
| Journal.CommitPrefix | src/journal.c:118-237 | after any prefix of the operations a commit issues, the crash analysis of that point applies |
| Journal.CommitKeepsStable | src/journal.c:118-237 | a returned commit leaves a stable log with the transaction at its end |
| Journal.ChecksumTransaction | src/journal.c:102-114 | the loop over blocks computes the checksum of their concatenation |
| Journal.Journal.Format | src/journal.c:48-51 | writes an empty superblock and flushes it |
| Journal.Journal.Open | src/journal.c:53-82 | fails exactly on a wrong magic; position and number come from the superblock, or start over if it says empty |
| Journal.Journal.Commit | src/journal.c:118-237 | the exact error cases, nothing touched in them, otherwise the exact script of operations, new head and number |
| Journal.Journal.WriteBody | src/journal.c:135-180 | descriptor, revoke block and payloads go to consecutive slots from the head on |
| Journal.Journal.Seal | src/journal.c:182-228 | flush, commit block with the checksum of what was written, flush, superblock if the log was empty |
| Journal.Journal.AdvanceTail | src/journal.c:239-248 | the superblock names the new tail, or says empty at the head |
| Journal.Journal.TryParse | src/journal.c:319-395 | one turn of the scan, with 64-bit offsets, accepts exactly the valid next transactions and keeps targets, payload offsets and revokes |
| Journal.Journal.ScanLog | src/journal.c:314-449 | the loop terminates on any content and finds exactly what the scan specifies |
| Journal.Journal.InstallAll | src/journal.c:454-479 | the nested loops issue the specified installs in order, or stop at the first target outside the device |
| Journal.Journal.Recover | src/journal.c:289-490 | the whole of recovery: error cases, the empty case, all operations issued, head, tail and next number |
| PipelineInv.InitInv | src/txn.c:455-467 | a fresh session satisfies the invariant |
| PipelineInv.InvStep | src/txn.c:191-394 | every step of handles and commit thread keeps it: journal, tiling, handles, staging, content, ordered data |
| PipelineInv.RunInv | src/txn.c:329-394 | so every state of every run satisfies it |
| Enabled.StartGoes | src/txn.c:522-532 | in every state the invariant allows a handle can start unless the thread waits for the running ones |
| Enabled.StageGoes | src/txn.c:121-159 | a live handle can stage any home block: one that is staged keeps its buffer and its content whoever staged it, one that is not gets a new buffer seeded from below; nothing else changes |
| Enabled.FillGoes | src/txn.c:534-545 | it can write any buffer it has been given |
| Enabled.WriteDirectGoes | src/txn.c:572-591 | in ordered mode it can write any home block at once |
| Enabled.StopGoes | src/txn.c:599-608 | it can stop at any time |
| Enabled.SyncGoes | src/txn.c:627-631 | a sync can be called at any time |
| Enabled.ReturnExact | src/txn.c:632-636 | it can return if and only if its number is completed or the thread is shut down |
| Enabled.ShutdownGoes | src/txn.c:500-505 | shutdown can be asked for at any time |
| Enabled.TickExact | src/txn.c:329-394 | the thread can go on if and only if it has not stopped, no live handle holds up a snapshot, there is something to do, and a commit that fits has a number and an offset left |
| Enabled.OneOutcome | src/txn.c:191-394 | a step has one outcome, the order of a snapshot given |
| Turns.TurnRuns | src/txn.c:347-386 | with no step of anyone else between, the thread comes from the snapshot back to waiting, and the whole state is fixed: operations issued, list, cursor, numbers |
| Turns.TurnsAgree | src/txn.c:347-386 | from the same list, device and cursor that is the list, device and cursor the class is proved to leave: the two models of the thread agree on a turn |
| Replay.PlainReplay | src/journal.c:454-479 | without revokes replay installs the newest copy of each block |
| LogicalDisk.FindIsNewest | src/txn.c:109-119 | the scan of the checkpoint list finds that same copy |
| LogicalDisk.HomeStep | src/txn.c:191-247 | every step keeps home content settled, or in motion as the checkpoint left it |
| LogicalDisk.LogicalStep | src/txn.c:296-310 | the logical disk changes when a commit is published and at no other step, checkpoints included |
| CrashRuns.CrashShows | src/txn.c:191-327 | a crash in any reachable state recovers the whole logical disk from before the commit in progress, or the whole of it from after |
| CrashRuns.RunLogical | src/txn.c:191-327 | over any run the logical disk is the fold of the published commits |
| CrashRuns.RunCrash | src/txn.c:191-394 | over any run and for any crash image recovery brings back all published commits, or those and the whole one in progress |
| CrashRuns.NextSessionBegins | src/journal.c:447-484 | after a crash in any reachable state, recovery that replays, of that image or one recovery cannot tell from it, leaves a disk a new session can begin with: place and number free, blocks as recovered |
| CrashRuns.InterruptedSessionBegins | docs/DESIGN.md:260-265 | so does the recovery that comes through after any number of recoveries interrupted while installing, with the blocks the first would have recovered |
| CrashRuns.FirstSessionBegins | src/journal.c:48-51 | format on a device without commit blocks leaves one too |
| CrashRuns.RunShapes | src/txn.c:329-394 | what the run theorems ask of every state's shape holds in every run |
| Generations.OneGeneration | src/txn.c:522-545 | all actions of one handle fall into one generation, over every run |
| Generations.SnapshotEndsHandles | src/txn.c:347-362 | no handle is live at a snapshot and none that acted before it acts again |
| Generations.SnapshotHasStaged | src/txn.c:351-353 | every block a handle stages is in the snapshot that ends its generation |
| Generations.SnapshotFrozen | src/txn.c:599-608 | no buffer a snapshot has taken is ever written again |
| Generations.CommitsSnapshot | src/txn.c:278-282 | what a commit writes is the content the snapshot had when it was taken |
| Generations.HistoryWhole | src/txn.c:347-386 | over any run the published copies are whole snapshots, each at most once, in the order they were taken, and they are those of the published generations |
| Generations.HandlesAtomic | src/txn.c:522-545 | a crash at any step of any run recovers whole snapshots, those of the published generations and at most the one being committed besides; for each handle every block it staged is in one of them, or nothing of its generation is |
| Lookup.ReadIsLayered | src/txn.c:610-625 | the lookup and the seed of a new buffer return the layered value outside the window |
| Lookup.NothingHidden | src/txn.c:205-215 | with nothing in flight no block is in the window |
| Lookup.LookupExact | src/txn.c:109-159 | in every state of every run, for a block not staged and never written directly: lookup and seed return its newest content whatever is in flight if and only if it is not in the window, on its way to the journal or off the checkpoint list and not yet written home |
| Lookup.DirectRead | src/txn.c:572-591 | data written directly is what the lookup returns, whatever the buffers hold, if and only if the block is neither staged nor listed |
| Overtaken.StaleRead | src/txn.c:610-625 | from every beginning of a session in ordered mode, a run after which the device holds the data, nothing of the block is in flight, and the lookup returns the older committed copy |
| LostUpdate.Undone | src/txn.c:121-159 | from every beginning of a session, a run that publishes a write, drops nothing, never writes the block again, and ends with the block as it was before |
| Lookup.LayeredStep | src/txn.c:121-159 | a fill changes the layered map at its block; staging outside the window, snapshot, commit, checkpoint and drops of other blocks do not change it |
| Lookup.DropForgets | src/txn.c:311-322 | a generation of more than 510 blocks, or longer than the region with the list empty, is forgotten: unstaged blocks fall back to the committed content; any other outcome of the reclaim loop leaves the layered map alone |
| Lookup.ReadsLastWritten | src/txn.c:610-625 | over any run that neither drops the block nor stages it inside the window, the lookup outside the window returns the last value written |
| Reclaim.SpaceTaken | src/txn.c:265-270 | the listed transactions fill the log from tail to head, never more than the region |
| Reclaim.NoLiveOverwrite | src/journal.c:122-128 | the slots of a commit that fits are distinct and none of them is live |
| Reclaim.TilesAt | src/txn.c:296-310 | listed transactions are adjacent and consecutively numbered |
| Reclaim.ReclaimOutcome | src/txn.c:265-282 | a generation is given up if and only if it needs more than 510 tags, or more than the whole region with nothing left to reclaim |
| Reclaim.CleanStop | src/txn.c:388-392 | once the thread has stopped every crash recovers nothing and blocks are at home as last published |
| OrderedData.RunOrdered | src/txn.c:364-369 | over any run: if no older copy of the block can still come home when data is written directly, then from the commit of its generation on every crash, checkpointed or not, shows that data, later direct data, or a buffer first staged after it |
| Overtaken.TickComes | src/txn.c:191-327 | no step of the thread changes what a block comes down to if nobody writes it any more: staged or in flight if the generation fits, else newest listed, else going home, else the device |
| Overtaken.PendingOvertakes | src/txn.c:216-225 | with an older copy pending, in any reachable state, data and a run in which it is written and flushed, its generation ends, and a crash recovers the older copy |
| Overtaken.DirectExact | src/txn.c:572-591 | so whatever is written and however the run goes on, direct data outlives every crash from its commit on if and only if no older copy is pending |
| OrderedData.SnapshotHasDirect | src/txn.c:572-591 | every direct write of a generation is among those its snapshot waits for |
| TxnManager.TxnManager.constructor | src/txn.c:455-467 | nothing staged, listed, in flight or asked for; the running number is the next one and none is completed |
| TxnManager.TxnManager.FindDirty | src/txn.c:95-102 | finds the node of a block exactly if it is staged |
| TxnManager.TxnManager.FindCheckpointed | src/txn.c:109-119 | the nested loops return the node of the newest logged copy |
| TxnManager.TxnManager.FindOrCreateDirty | src/txn.c:121-159 | one node per block; a new one starts with the content behind the table; fails only outside the device |
| TxnManager.TxnManager.FlattenAndClear | src/txn.c:163-182 | lists every staged node exactly once, never more than counted, and empties the table |
| TxnManager.TxnManager.ReadBlock | src/txn.c:610-625 | staging table, then newest logged copy, then device |
| TxnManager.TxnManager.WriteStaged | src/txn.c:563-571 | the block's node holds the data, no other staged content changes |
| TxnManager.TxnManager.WriteOrdered | src/txn.c:572-591 | the write is issued at once and remembered for the flush |
| TxnManager.TxnManager.WriteData | src/txn.c:560-597 | in journal mode the write is staged and nothing reaches the device, in ordered mode the reverse; no other staged content changes |
| TxnManager.TxnManager.CheckpointOldest | src/txn.c:191-247 | pops the oldest, issues the exact checkpoint script, keeps the list tiling the log, and every block reads as before |
| TxnManager.TxnManager.Reclaim | src/txn.c:266-270 | the oldest transactions go home, exactly their checkpoints are issued, as few as make room or all; ends with enough room if and only if the region is long enough; every block reads as before |
| TxnManager.TxnManager.Publish | src/txn.c:272-326 | commits the nodes' content and appends the entry, after which the blocks read as committed and others as before; or changes nothing |
| TxnManager.TxnManager.DoCommit | src/txn.c:265-327 | succeeds if and only if the generation fits one descriptor and the region; the operations issued are the checkpoints of the entries reclaimed and then the commit script; behind the table its blocks read as committed, all others as before, and a failure changes no read |
| TxnManager.TxnManager.EnforceLag | src/txn.c:249-261 | exactly the transactions beyond the newest two are checkpointed, in order; every block reads as before |
| TxnManager.TxnManager.Freeze | src/txn.c:347-361 | the table and the ordered list move out as a whole, into the generation in flight, and handles may start |
| TxnManager.TxnManager.Finish | src/txn.c:371-385 | exactly these operations: checkpoints of as few as make room, the commit of the snapshot if it fits, checkpoints beyond the lag; the blocks read as committed, others as before |
| TxnManager.TxnManager.Cycle | src/txn.c:347-386 | one turn of the thread: ordered data is flushed first, then exactly the operations of a turn for a snapshot that lists every staged block once; behind the table exactly those blocks change, if they fit, to what was staged; afterwards a sync waits if and only if something was committed |
| TxnManager.TxnManager.EndTurn | src/txn.c:364-386 | the rest of a turn, to the operation: the taken blocks read as committed if they fit, all others as before; table, ordered list and request are left alone |
| TxnManager.TxnManager.Sync | src/txn.c:627-637 | waits if and only if the running number is not completed; without waiting only the request is set; between turns it waits for a whole one, with a generation in flight for the rest of that one, and what is staged, ordered and running stays; either way that number is completed, the running one is the next, and exactly the operations of that turn are issued |
| Syncs.SyncExact | src/txn.c:627-637 | over any run, for the first state in which a sync may return: what was staged at its call is in every crash from then on, as part of a whole snapshot, if and only if no generation was in flight at the call and the running number not completed, the generation fits and no shutdown ended the wait; otherwise, shutdown apart, no crash at the return shows it |
| Syncs.SyncedBlock | src/txn.h:91-93 | in the first case every block staged at the call is recovered with what a snapshot taken after the call has of it |
| Syncs.ReturnsReleased | src/txn.c:632-634 | a sync returns in that state or later, never before |
| Syncs.SyncMisses | src/txn.c:627-637 | from every beginning of a session, a run in which a sync called over a generation in flight returns and every crash shows the older content of the block staged |
| TxnManager.TxnManager.Drain | src/txn.c:390-392 | exactly the checkpoints of all listed transactions are issued, in order; the log is empty and the device itself holds what every block read as |
| Structures.InodeRoundTrip | src/disk_format.h:114-127 | an inode written to the table is the inode read back, field by field |
| Structures.InodeLayout | src/disk_format.h:114-127 | byte by byte: the eight head fields at 0, 4, 8, 12, 16, 24, 32, 40 and block k at 48 + 8k, little-endian |
| Structures.DirentLayout | src/disk_format.h:134-139 | number at 0, length at 4, type at 5, name from 8 on of slot e at 64e |
| Structures.BitWeight | src/inode.c:52-53 | bit i of a bitmap is bit i mod 8 of byte i / 8 |
| Structures.InodePlaces | src/inode.c:7-12 | inode 1 lies at the start of the table, the next one right behind or at the start of the next block |
| Structures.WithDirentAt | src/inode.c:237-242 | filling a slot changes that entry and no other |
| Structures.WithoutDirentAt | src/inode.c:277-279 | freeing a slot clears its number and changes no other entry |
| Structures.InodesApart | src/inode.c:7-12 | different inodes lie in different bytes |
| Structures.TableHolds | src/inode.c:7-12 | all inodes lie inside the table if and only if there are at most 28 per block of it |
| Structures.TableTooShort | src/fs.c:60-61 | the length format computes is too short for 85 inodes and long enough for fewer |
| FileSystem.WithInodeAt | src/inode.c:29-42 | writing an inode changes it and no other |
| FileSystem.OwnedUpdate | src/inode.c:79-114 | an operation that takes only free blocks keeps every block marked and owned once, and others' blocks untouched |
| FileSystem.FileSystem.AllocBlock | src/inode.c:79-99 | the lowest free data block, marked; fails only with none free |
| FileSystem.FileSystem.AllocInode | src/inode.c:44-63 | the lowest free number from 1 on, marked; fails only with none free |
| FileSystem.AllocThenFree | src/inode.c:79-114 | freeing the block just allocated leaves every block as it was before |
| FileSystem.FileSystem.FreeBlock | src/inode.c:101-114 | afterwards the marked data blocks are those before without this one, every other block is unchanged; numbers outside the data region are refused |
| FileSystem.FileSystem.FreeInode | src/inode.c:65-77 | afterwards the marked inodes are those before without this one, every other block is unchanged; numbers outside the table are refused |
| FileSystem.FileSystem.Read | src/fs_ops.c:398-443 | the chunk loop returns the file's bytes in range, holes as zeros, cut at the file's end |
| FileSystem.FileSystem.WriteAt | src/fs_ops.c:445-512 | the range holds the data; blocks it does not touch keep their numbers and bytes, holes stay holes; other bytes of allocated blocks are unchanged; exactly as many blocks as the range lacks are taken, the lowest free ones, and no other mark, block or inode changes; size grows as needed; no space if and only if fewer are free than it lacks, and then a prefix of the range is written where blocks were held, the inode stays and exactly the blocks that were free are marked without an owner |
| FileSystem.FileSystem.Truncate | src/fs_ops.c:514-557 | sets the size and frees exactly the blocks wholly behind a smaller one |
| Directory.GraphIsMap | src/inode.c:116-120 | a directory's slots are a map: one entry per name |
| Directory.Lookup | src/inode.c:122-159 | exact error cases; otherwise the map's entry, or that it has none |
| Directory.Add | src/inode.c:161-246 | exact error cases; otherwise the map with the entry added, in the first unused slot, every other entry where it was; the inode is as it was if some slot was unused, else it has one block and its size more and is the same otherwise; no other mark, block or inode changes; no space if and only if every slot is used and no block can be added |
| Directory.Remove | src/inode.c:248-284 | exact error cases; otherwise the map without the name, its slot freed and every other as it was; unchanged if it was not there; inode, marks and every other block stay |
| Directory.IsEmpty | src/inode.c:286-317 | whether nothing but the two dot entries is in the map |
| Directory.OthersKeepGraph | src/inode.c:161-246 | operations on one inode leave every other directory's map alone |
| WholeStores.CrashIsQuiet | src/txn.c:347-353 | in a run without direct writes, drops and staging inside the window, every crash recovers the whole store as readers saw it in one state in which no handle was live |
| WholeStores.StoresSurvive | src/fs_ops.c:19-27 | so whatever holds of the store when the session begins and is kept by every operation holds after every crash and recovery |
| WholeStores.OneFileSound | src/inode.c:79-114 | an operation on one inode keeps ownership and every well-kept directory |
| WholeStores.FileOperationsSurvive | src/fs_ops.c:19-27 | file operations as handles, data journalled: every crash of every interleaving with the thread recovers a store in which every block has one owner and every directory is well kept |

## Left out

- FUSE callbacks other than read, write and truncate, path splitting, stat and readdir buffers, `main.c`, `mkfs.c`: interface plumbing.
- System calls of `blockdev.c`, short reads and writes: replaced by the device model; a write fails only outside the device.
- malloc failures and I/O errors inside commit, checkpoint and recovery: the C code treats them as best effort.
- The writeback mode's queue: reads do not look at it and it orders nothing.
- Timed waits, spurious wake-ups, fairness: a waiting thread is a step that is not taken; only safety is proved.
- The assertion on a handle's tag in `logfs_txn_get_write_access` (src/txn.c:537): the tag changes after handles may start again, so it is no invariant; generations are counted by the model instead.
- A commit on shutdown: the thread may stop with blocks still staged, and nothing is claimed about them.
- Superblock validation, link counts, the orphan list, mkdir, unlink and rename sequences: they combine the operations proved here.
- TxnManager.TxnManager.Start: waiting for the end of a freeze is a precondition, so the class does not model interleavings; `Pipeline` does.
- FileSystem.FileSystem.WriteAt: does not say what the bytes of a fresh block outside the written range are; the C code leaves old content there.
- Lookup.ReadsLastWritten: excludes runs that drop a generation with the block in it or first stage the block inside the window, where the property is false (`Lookup.DropForgets`, `Lookup.LookupExact`, `LostUpdate.Undone`), and runs that also write the block directly.
- CrashRuns.NextSessionBegins: covers recovery through the branch that replays; a mount that finds the log empty starts its numbers over, where the property is false (`Remount.DeadReplayedAgain`).
- CrashRuns.InterruptedSessionBegins: covers interruptions up to the superblock write that ends recovery; for that one see `Replay.RecoveryEnding`.
- TxnManager.TxnManager.Sync: does the work of the thread it waits for itself, one step for the rest of a turn or a whole one; the interleavings are in `Syncs`.
- Syncs.SyncExact: of a sync that returns because of a shutdown it says only that the generation is not published yet; a crash may still show its commit in progress.
- Overtaken.DirectExact: asks that the thread is not shut down and that the counters have room for two more commits; `OrderedData.RunOrdered` asks for neither.
- Turns.TurnRuns: asks that the counters have room for one more commit; when a commit that fits has none the model stands still (`Enabled.TickExact`), the C code wraps.
- WholeStores.CrashIsQuiet: ordered mode is left to `OrderedData` and `Overtaken`; there file data is not part of the store a crash recovers as of one moment.
- WholeStores.FileOperationsSurvive: operations that create or remove an inode change the set of live inodes and are covered by `WholeStores.StoresSurvive` only.
