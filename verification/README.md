# A Dafny model of the user-level checkpoint/restore manager

The repository checkpoints a running Linux process into two rolling slots and restores the
newest snapshot after a failure. This project models its checkpoint store, its snapshot image,
its restore path and its monitor as one fault-tolerance system, and proves what that system
promises, and exactly where it promises less. `dafny verify dfyconfig.toml` checks everything.

## What is modelled

- **The A/B store** (`CrashFs`, `Protocol`, `ProtocolInvariant`, `ProtocolSteps`,
  `ProtocolPreserved`, `ProtocolTheorems`, `ProtocolRestores`, `ProtocolData`,
  `ProtocolHistory`, `ProtocolFallback`, `ProtocolProgress`, `ProtocolCheckpoints`,
  `ProtocolScenarios`, `DurableReplace`). A transition
  system in which any number of manager processes run `ulcr_checkpoint_latest` or
  `ulcr_restore_latest`, one system call a step, and restored children load the slot once more.
  Every call may fail, every process may be killed between two calls, and power may be lost at
  any time. The file system has inodes, visible directory entries and, for every name, the
  values it has had since its directory was last fsynced. After a power loss each entry
  independently takes its visible value or one of those, except that one inode never comes back
  under two names, because rename is atomic. An inode written after its last fsync comes back
  torn, that is, as any bytes. `DurableReplace` is the same file system behind a class, for the
  write-fsync-rename-fsync primitive on its own.
- **The image** (`Bytes`, `ImageFormat`, `Procfs`, `Capture`). Bytes are concrete: little-endian
  integers, zero-padded char arrays and padding in fixed-size records, with the struct sizes of
  x86-64. `Capture` writes them through a file with a position, with short reads and writes,
  drops regions whose dump fails, and back-patches the header and the region table. `Kernel` in
  `Common` counts failing calls, so that contracts can say what a failure takes.
- **The restore** (`FdTable`, `AddressSpace`, `Bootstrap`, `RoundTrip`, `WorkloadArgs`). The
  descriptor loop works on a table where `open` gives the lowest free number; the memory loop
  works on single bytes with a value and a protection. `RoundTrip` joins capture and bootstrap,
  and `Recovery` joins both with the store: what comes back after a crash is one capture's memory.
- **The monitor** (`Monitor`). Ticks, the interval that depends on run time, checkpoint attempts,
  and processes that are running, zombies, or gone. Time is in whole seconds, run time is a real.
- `Wrappers` and `Common` hold shared helpers; `MetadataText` is the text of active.meta.

Beside safety the store has progress results. `CheckpointCompletes`, `RestoreCompletes` and
`FallbackCompletes` start from every reachable state, leftover temporaries included, and say what
an operation achieves when its calls succeed and nobody interferes; `CheckpointReturns` says why a
checkpoint returned what it did in any company.

The definitions that the results speak about follow the source branch by branch: the calls of a
checkpoint and of a restore (`Protocol.Checkpoint`, `Protocol.Restore`, src/manager.c:277-347), the
choice of a slot (`Protocol.Choose`, src/manager.c:122-132), the values a power loss may leave
(`CrashFs.Survives`), the store invariant (`ProtocolInvariant.Inv`), the slot name in active.meta
(`MetadataText.ReadActiveSlot`, src/manager.c:64-81), the loader (`ImageFormat.Load`,
src/snapshot.c:318-350) and one line of /proc/PID/maps (`Procfs.ParseMapsLine`,
src/procfs.c:16-73). The table below names what is proved about them.

## Where the code does less than its documentation says

- The repository's own README says that recovery always points to the last fully completed
  checkpoint. `read_active_slot` treats a failed `access`, `open` or `read` of active.meta as
  missing metadata. A restore then falls back to slot A, which may hold an older capture than an
  acknowledged one (`RestoreMayLoadOlder`). A checkpoint then writes slot A even if it is the
  active one; when it dumps nothing it still renames snapshot.bin before it returns -1, and the
  selected image is empty (`FailedCheckpointMayEmptyTheSlot`). The selected image is complete all
  the same, and `CellKeptBySnapshot` says exactly when a snapshot rename changes it.
- A restore takes no lock. Between its read of active.meta and the opens of snapshot.bin, by the
  manager and then by the child, two checkpoints can pass, and the second one writes the slot that
  was active. Although no modelled step fails, the restore may then load a capture that metadata
  does not select, and one whose dumps all failed (`RestoreMayLoadUnselected`). `ChildLoads` says
  exactly which image the restored process gets and when it has data; `WasSelectedIff` says when
  that image was ever the selected one. It is complete and never older than what was active.
- In the same way the fallback to slot B is taken in a run in which no modelled step fails, by a
  restore that looked for active.meta before there was any (`FallbackToSlotB`,
  `FallbackNeedsMiss`). `FallbackAcknowledgedIff` says exactly when a fallback is as new as an
  acknowledged capture.
- Without metadata, the fallback can select an image with no data, when every dump of the first
  capture fails (`FallbackMayBeEmpty`). `SelectsDataIff` says exactly when metadata always selects
  data: every rename of snapshot.bin brought data or hit a slot that no metadata names, nor could
  name after a power loss. Whether it could is settled when the slot is chosen
  (`SpareSinceChoice`), and depends on the calls so far (`SpareIff`, `UnfinishedBecause`): a failed
  lookup of active.meta, a failed fsync of its directory, or a kill before that fsync. Runs
  without these three always select data (`CarefulRunsSelectData`).
- A failed fsync of the directory after a rename returns -1 although the new file is visible
  (`AtomicWriteTextFile`, `CaptureSnapshot`).
- `ptrace_attach_and_stop` may fail after the attach succeeded; `ulcr_capture_snapshot` then
  returns without a detach. `CaptureSnapshot` states that this is the only way for a target to
  stay attached.
- The bootstrap opens the snapshot before it rebuilds the descriptor table. An entry with the
  snapshot's number replaces it: region data is then read from another file, and the entry is
  closed at the end (`ClashExample`). `PlacedSurviveIff` and `ReadsTheSnapshotIff` give the exact
  condition on the captured entries and the child's free descriptors.
- A restored process is the monitor's child, and the monitor never waits for it. When it crashes
  it stays a zombie that still has a /proc entry, so a monitor run restores at most once, plus
  once for every restored process that an attach happens to reap (`RestoresOnce`,
  `ZombieStopsMonitoring`). `RestoredIff` says exactly when a dead process is restored.
- The documented scheduling becomes more aggressive as run time grows. For a configured interval
  of 2 or 3 seconds it does not: 1 second from 60 s on, 2 or 3 again from 300 s on
  (`IntervalAntitoneIff`).

## Model

| member | source | states |
|---|---|---|
| ProtocolPreserved.InitHolds | src/manager.c:220-229 | the empty store after init satisfies the invariant |
| ProtocolPreserved.CheckpointKeeps | src/manager.c:277-318 | every call of a checkpoint, successful or not, keeps the invariant |
| ProtocolPreserved.RestoreKeeps | src/manager.c:320-333 | every call of a restore and of the restored child keeps it, whatever checkpoints run meanwhile |
| ProtocolPreserved.PowerLossKeeps | src/common.c:120-152 | a power loss at any moment keeps it |
| ProtocolPreserved.StepKeeps | src/manager.c:277-347 | every step of every process, kill and power loss keeps it |
| ProtocolPreserved.RunKeeps | src/manager.c:277-347 | it holds in every state of every run |
| ProtocolPreserved.Acknowledged | src/common.c:144-150 | after the directory fsync the store invariant holds with this capture acknowledged: whatever metadata can come back names a slot that holds it or a newer one |
| ProtocolSteps.PublishSnapKeeps | src/snapshot.c:300-304 | the rename of snapshot.bin keeps the store invariant, whichever slot it hits |
| ProtocolSteps.PublishMetaKeeps | src/common.c:144-147 | so does the rename of active.meta |
| ProtocolTheorems.CrashSafety | src/manager.c:277-318 | after a power loss at any point of any run, active.meta if present names A or B, and that slot's image is complete with every extent inside the file; a fallback image is complete too |
| ProtocolTheorems.SelectedIsGood | src/manager.c:185-218 | in every state of the invariant whatever a restore selects is complete, and at least as new as everything acknowledged |
| ProtocolTheorems.AcknowledgedNeverLost | src/manager.c:300-317 | once a checkpoint is bound to return 0 for capture k, later selections are complete captures numbered k or more, also after a power loss |
| ProtocolTheorems.AckGrowsAlong | src/manager.c:300-317 | the acknowledged capture number never decreases along a run |
| ProtocolData.SelectsDataIff | src/snapshot.c:300-315 | along every run: metadata selects an image with data, now and after every power loss at every moment so far, if and only if every rename of snapshot.bin so far brought data or hit a slot that no metadata named nor could name again |
| ProtocolData.StepDataIff | src/snapshot.c:300-304 | the same for one step: what metadata can select keeps having data exactly if the step is no unsafe rename |
| ProtocolData.NonEmptyIff | src/common.c:120-152 | that every capture metadata may select has data is exactly the promise about all power losses |
| ProtocolData.VisibleSelectsData | src/manager.c:185-193 | the visible selection is covered by that promise |
| ProtocolData.SpareSinceChoice | src/manager.c:122-132 | whether the slot can be selected is settled when it is chosen: at the rename it is as it was at the choice |
| ProtocolHistory.InformedChoiceSpareIff | src/manager.c:122-132 | in every run, a slot chosen after reading any visible metadata cannot be selected if and only if no unfinished rename of active.meta replaced metadata that names it |
| ProtocolHistory.SpareIff | src/manager.c:122-132 | the same for any slot at any moment: also the visible metadata must not name it |
| ProtocolHistory.PastIff | src/common.c:144-150 | an older value of a published name may come back if and only if a rename replaced it and neither an fsync of the directory nor a power loss followed |
| ProtocolHistory.UnfinishedBecause | src/common.c:144-150 | a rename of active.meta is unfinished only while its fsync is still to come, or because that fsync failed or its process was killed before it |
| ProtocolHistory.CarefulRunsSelectData | src/manager.c:277-318 | if no checkpoint's lookup of active.meta fails and no fsync after a metadata rename fails or is cut off by a kill, metadata always selects data, now and after every power loss, whatever else fails |
| ProtocolTheorems.RestoreNeverTorn | src/snapshot.c:352-387 | both loads of a restore read one immutable complete capture each, no older than the one it settled on: the active one when active.meta was opened, or the one its fallback probe found; the child's is no older than the manager's |
| ProtocolTheorems.RestoreFindsImage | src/snapshot.c:323-326 | the slot a restore or its child is about to open always has an image |
| ProtocolTheorems.CellStutters | src/manager.c:277-347 | every step but a publishing rename and a power loss leaves the selected image as it is |
| ProtocolTheorems.CellSet | src/common.c:144-147 | the rename of active.meta sets the selected image to this checkpoint's capture |
| ProtocolTheorems.CellKeptBySnapshot | src/snapshot.c:300-304 | the rename of snapshot.bin leaves the selected image alone unless the checkpoint failed to read the metadata and hit the active slot; then it sets a newer one |
| ProtocolTheorems.StepRefinesCell | src/manager.c:277-347 | the two slots and active.meta refine one cell: every step keeps it or sets it to the stepping checkpoint's capture |
| ProtocolTheorems.CellAlong | src/manager.c:277-347 | the same along every run, with the metadata visible and the power on |
| ProtocolData.PowerLossKeepsCellIff | src/common.c:120-152 | every power loss leaves the selected image as it is if and only if no other value of that slot's snapshot.bin may come back, and every value of active.meta that may come back still selects the slot |
| ProtocolHistory.FinishedSurvives | src/common.c:144-150 | so it does whenever no rename of active.meta or of the selected slot's snapshot.bin is unfinished |
| ProtocolRestores.ChildLoads | src/runtime.c:88-94 | over every run: what the restored process loads and rebuilds memory from. Its open goes back to its manager's open and to the call that settled the slot. It loads the image of that call, on the metadata path the selected one, if and only if no checkpoint renamed a new one into the slot since; otherwise the last one renamed, which is newer; and it has data if and only if the one so determined dumped a region. The same against its manager's open |
| ProtocolRestores.LoadOrigin | src/snapshot.c:362-384 | every process that holds a loaded image goes back to the open of a restore, its own or, through the fork, its manager's |
| ProtocolRestores.SettleOrigin | src/manager.c:185-218 | every restore on its way to that open goes back to the call that settled its slot |
| ProtocolRestores.RestoreLoads | src/snapshot.c:362-365 | the same conditions for the manager's own load, which only checks that the image loads |
| ProtocolRestores.WasSelectedIff | src/manager.c:300-311 | an image renamed into a slot was the selected one at some moment up to an open if and only if its slot was selected already at the rename, or the fallback finds the slot without metadata, or active.meta was renamed to name it |
| ProtocolRestores.InSlotSince | src/snapshot.c:300-304 | while the power is on a slot's image changes exactly by renames of snapshot.bin, each to a newer one |
| ProtocolTheorems.AckIsSelected | src/manager.c:308-317 | when a checkpoint is acknowledged the cell holds exactly its capture |
| ProtocolTheorems.MutualExclusion | src/manager.c:44-62 | at most one process is past the lock, and only it ever changes a file |
| ProtocolTheorems.CheckpointEnds | src/manager.c:288-317 | every call of a checkpoint, failed or not, ends it with the lock free or brings it closer to its end, so every path gives the lock back |
| ProtocolTheorems.LockIsHeld | src/manager.c:57-62 | in every state of every run a taken lock belongs to a process still in its checkpoint |
| ProtocolTheorems.MetadataStays | src/common.c:120-152 | visible metadata never disappears while the power is on, and acknowledged metadata not even then |
| ProtocolTheorems.MetaEverMeans | src/manager.c:64-81 | the history variable for visible metadata is true exactly if some earlier state showed active.meta |
| ProtocolTheorems.SlotBNeedsMetadata | src/manager.c:195-217 | slot B holds an image only if metadata was visible before; without a power loss it still is |
| ProtocolRestores.FallbackNeedsMiss | src/manager.c:188-217 | in every run a process probes the slots only because its own lookup failed in a call or ran while there was no active.meta, which without a power loss means before there ever was one |
| ProtocolRestores.SlotBFallback | src/manager.c:206-215 | when the fallback reaches slot B without a power loss, metadata is visible by then, and the process missed it in one of these two ways |
| ProtocolFallback.FallbackAcknowledgedIff | src/manager.c:195-217 | over every run with the power on since capture k was acknowledged: what a fallback settles on is numbered k or more if and only if it is in the slot of k or some snapshot was renamed into its slot since |
| ProtocolFallback.HoldsAcknowledgedIff | src/manager.c:195-217 | the same for any slot, and however often the power is lost: a slot holds k or newer if and only if it is the slot of k, or the capture it holds was renamed into it since |
| ProtocolFallback.ValueSince | src/snapshot.c:300-304 | whatever a slot may hold, now or after a power loss, it may have held at any earlier state or a rename since brought it |
| ProtocolCheckpoints.CheckpointCompletes | src/manager.c:277-318 | from every reachable state with the lock free, whatever temporaries earlier failures and kills left: an undisturbed checkpoint whose calls succeed and that dumps a region is acknowledged under the next number; the selected image is then exactly its file, in the slot that metadata did not name, and the image selected before is still in its own slot |
| ProtocolCheckpoints.CheckpointReturns | src/manager.c:277-318 | over every run, in whatever company: a checkpoint that ends returns 0 exactly if its directory fsync acknowledged its capture, and -1 only for a call that failed, a taken lock, or no dumped region; after that call it only cleans up |
| ProtocolCheckpoints.GivesUpIff | src/manager.c:288-317 | one call gives the checkpoint up if and only if it fails, finds the lock taken or finds nothing dumped; a failed lookup of active.meta does not |
| ProtocolCheckpoints.FailureCleansUp | src/snapshot.c:299-304 | from every reachable state a call that ends a checkpoint, with its clean-up, frees the lock and acknowledges nothing; a failed rename or metadata write removes its temporary, every other name and file is as it was |
| ProtocolProgress.RestoreCompletes | src/snapshot.c:352-387 | from every reachable state with metadata, whatever else runs: an undisturbed restore whose calls succeed ends in a child that has loaded the selected image; the manager is gone and nothing else changed |
| ProtocolProgress.FallbackCompletes | src/manager.c:195-217 | the same when active.meta is missed in any of the three ways: the child has slot A's image, or slot B's if slot A has none, and without metadata that is the selected one |
| ProtocolProgress.RestoreEndsOnlyFor | src/manager.c:320-333 | in every state of the invariant a successful call of a restore ends its process only when the child has been forked, or has loaded, or when neither slot has an image |
| ProtocolProgress.LeadsExtends | src/manager.c:277-347 | such undisturbed calls extend every run |
| ProtocolScenarios.SomeImages | src/snapshot.c:318-350 | complete images exist, with one dumped region and with none, so the runs below are real |
| ProtocolScenarios.RestoreMayLoadOlder | src/manager.c:64-81 | a reachable run in which one failed access makes a restore load capture 1 although capture 2 is acknowledged |
| ProtocolScenarios.RestoreMayLoadUnselected | src/manager.c:320-333 | a run in which no modelled step fails, one capture dumps nothing, and a restore loads that empty image while the selected one has data |
| ProtocolScenarios.FallbackToSlotB | src/manager.c:206-215 | a run in which no modelled step fails and a restore falls back to slot B after two checkpoints succeeded |
| ProtocolScenarios.FailedCheckpointMayEmptyTheSlot | src/snapshot.c:300-315 | a reachable run in which a failing checkpoint replaces the acknowledged image by an empty one |
| ProtocolScenarios.FallbackMayBeEmpty | src/snapshot.c:300-315 | a run in which no modelled step fails, the first capture dumps nothing, and the fallback selects its empty image |
| DurableReplace.AtomicWriteTextFile | src/common.c:120-152 | 0 if and only if the path fits and no call fails, and then the new file stands now and after any power loss; -1: the old file or already the new one; a power loss leaves all of the new file or what it could have left before; nothing else changes |
| DurableReplace.NeverHalf | src/common.c:120-152 | what a power loss leaves after the call is read as the new text or as a text that could have been left before it |
| MetadataText.MetadataRoundTrip | src/manager.c:83-105 | for every timestamp, interval and run time the slot that was written is read back and has a directory |
| Bytes.RecordRoundTrip | src/snapshot.c:243-257 | every record decodes from its bytes |
| Bytes.RowsRoundTrip | src/snapshot.c:248-257 | so does every table of records |
| Bytes.LittleEndian | src/snapshot.c:243-257 | an integer field holds its base-256 digits, the lowest first |
| Bytes.FieldAt | src/snapshot.c:243-257 | every field of a record lies directly behind the fields before it |
| ImageFormat.RecordSizes | include/ulcr/snapshot.h:9-25 | the three structs have 1328, 312 and 536 bytes |
| ImageFormat.FieldOffsets | include/ulcr/procfs.h:6-23 | the offset of every field of the three structs |
| ImageFormat.HeaderLayout | include/ulcr/snapshot.h:9-19 | every header field at its offset in the encoded header |
| ImageFormat.TablesLayout | src/snapshot.c:243-257 | region i and descriptor i, field by field, at 1328 + 312 i and behind all regions at 536 i in the written file |
| ImageFormat.LoadedIsBounded | src/snapshot.c:331-348 | whatever the bytes, an image that loads has the magic 0x554C4352 and version 1, at most 512 regions and 128 descriptors, and has its tables inside the file |
| ImageFormat.TruncatedIsRejected | src/snapshot.c:327-348 | an image cut off anywhere in its tables does not load |
| ImageFormat.ImageRoundTrip | src/snapshot.c:318-350 | whatever follows the tables, loading returns exactly the header and tables that were written |
| Procfs.CollectRegions | src/procfs.c:75-97 | exactly the first 512 regions of the lines that parse, each describing its line |
| Procfs.AllParsedFit | src/procfs.c:26-60 | every region that was parsed fits its struct, so nothing is cut when it is written |
| Procfs.WhereParsed | src/procfs.c:86-94 | every line with six fields, and no other, adds one region, in its own place and describing it, unless 512 earlier regions have filled the table |
| Procfs.ParsedDescribes | src/procfs.c:41-73 | a line parses exactly if six fields were converted; its region has the line's addresses, offset and name, one bit for each permission letter, and is included exactly by the snapshot policy |
| Procfs.CollectFds | src/procfs.c:121-161 | exactly the first 128 numeric entries |
| Procfs.WhereListed | src/procfs.c:132-158 | every numeric entry, and no other, adds one descriptor in its own place, restorable exactly if its link is an absolute path, unless 128 earlier ones have filled the table |
| Procfs.CollectLayout | src/procfs.c:182-197 | a layout if and only if all four sources can be read, always within the loader's limits |
| Procfs.ParsedPrefix | src/procfs.c:86-94 | stopping early yields a prefix of what all lines would yield |
| Procfs.EntriesDistinct | src/procfs.c:132-158 | distinct directory entries give distinct descriptor numbers |
| Capture.DumpRegionBytes | src/snapshot.c:68-99 | success appends exactly the region's bytes once each in order and returns their number; failure leaves a proper prefix of them; it fails if and only if one of its calls does |
| Capture.DumpRegion | src/snapshot.c:264-282 | one region: dropped exactly if a call of its dump fails, and otherwise recorded with its bytes at the old end of the file |
| Capture.DumpRegions | src/snapshot.c:259-283 | for every pattern of failed dumps the surviving extents hold their regions' bytes, disjoint and increasing between the tables and the end of the file; dropped regions have include, offset and size zero, and there is one for each dump with a failing call |
| Capture.NothingDumpedIff | src/snapshot.c:315 | no region is left exactly if every region that was meant to be dumped was dropped |
| Capture.PatchTables | src/snapshot.c:284-293 | the two pwrites replace the header and region table and leave the fd table and all data as they are |
| Capture.Finished | src/snapshot.c:284-293 | the patched file loads as exactly the final image, is complete, and captures the process |
| Capture.Capturer.WriteImage | src/snapshot.c:243-299 | success leaves a synced file that loads as a capture of this process, without one region for each dump with a failing call; failure takes a failing call outside the dumps |
| Capture.Capturer.CaptureSnapshot | src/snapshot.c:188-316 | 0 means a complete, durable snapshot with at least one dumped region; -1 means an untouched snapshot.bin or a complete one that lacks the directory fsync, the manifest or any data, and takes a failed call outside the dumps, an unreadable layout or register set, or no dumped region; no descriptor leaks, and the target stays attached only if it never stopped |
| Capture.NewHeader | src/snapshot.c:218-233 | the header passes every check of the loader |
| FdTable.RestoreSupportedFds | src/runtime.c:17-38 | the loop computes the specified table for any pattern of failed calls; with distinct numbers every entry it does not skip whose calls succeed is open at its own number with its target, flags and position |
| FdTable.TableByNumber | src/runtime.c:17-38 | every number leads to the file of the last entry placed there, with its target, flags, content and position, or is as it was, so no temporary descriptor remains |
| FdTable.FdsRestored | src/runtime.c:17-38 | with distinct numbers every placed entry leads to its target with its flags and content, at the saved position if that is positive and its seek succeeded and at 0 otherwise; an entry is placed if its open and dup succeed, never if it is skipped or its open fails; all other descriptors are unchanged |
| AddressSpace.RestoreRegion | src/runtime.c:55-72 | mmap, pread and mprotect of one region, with whatever failure, change nothing outside the window |
| AddressSpace.PlaceRestores | src/runtime.c:55-72 | one more region extends the specified memory |
| AddressSpace.RestoreManagedRegions | src/runtime.c:40-75 | 0 means every managed region is back with its bytes and protection and nothing else changed; -1 takes a failed call or a region that cannot be restored; whatever is returned, memory outside the window is as it was |
| Bootstrap.LoadSnapshot | src/snapshot.c:318-350 | the reading loader agrees with the specification of loading |
| Bootstrap.RuntimeBootstrap | src/runtime.c:77-102 | 1 means both loops did their work and the snapshot's number is closed; -1 closes it too, and takes a failed call, a file that does not load, or a region that cannot be mapped or read; 0 changes nothing |
| Bootstrap.ReadsTheSnapshotIff | src/runtime.c:93-94 | region data comes from the snapshot, whichever calls succeed and whatever the captured files hold, if and only if no entry that the loop restores has the number on which the child opens the snapshot |
| Bootstrap.PlacedSurviveIff | src/runtime.c:93-99 | every placed entry survives the final close, whichever calls succeed, under exactly the same condition, known before the first call |
| Bootstrap.OthersUnchanged | src/runtime.c:88-99 | without a clash every number no entry was placed at is as before the bootstrap |
| Bootstrap.ClashExample | src/runtime.c:93-99 | a child with descriptors 0 to 2 and an entry at 3 reads region data from the wrong file and loses the entry |
| RoundTrip.MemoryRoundTrip | src/runtime.c:40-75 | every byte of every dumped region in the window equals its captured value, with its captured protection if regions are disjoint; every other address is as before |
| RoundTrip.SpareReadsSnapshot | src/runtime.c:88-99 | under that condition region data comes from the snapshot, and the final table has every placed entry and nothing else new |
| RoundTrip.RestoreFromCapture | src/runtime.c:77-102 | a bootstrap of what a capture published gives back memory and descriptors, and returns 1 unless a call fails |
| RoundTrip.LineDumpedIff | src/procfs.c:63-71 | from its line alone: a mapping among the first 512 has its bytes in the snapshot if and only if the policy wants it and its own dump had no failing call |
| RoundTrip.ManagedStateCarriedIff | src/procfs.c:63-71 | a readable and writable mapping inside the window is carried over if and only if it is among the first 512 regions and not one of those dropped for a failing call |
| RoundTrip.ManagedStateIsBack | src/runtime.c:55-72 | every address of such a mapping, from its line's start to its end, holds the byte of the stopped process after the restore, with protection 3 for rw- and 7 for rwx |
| RoundTrip.ListedIsBack | src/procfs.c:132-158 | a number listed in /proc/PID/fd among the first 128 with an absolute path leads, after the restore, to that path with the listed flags and position, if its open and dup succeed |
| RoundTrip.UnlistedUnchanged | src/runtime.c:20-37 | every number that is not listed with an absolute path, and 0 to 2, is as before the bootstrap |
| Recovery.RecoveredMemory | src/manager.c:277-347 | after a power loss at any point of any run, what the selected image puts back is, byte by byte, the memory of one capture, numbered at least the acknowledged one |
| Recovery.ChildLoadsCapture | src/runtime.c:88-91 | what a restored child loads among running checkpoints is the capture of one stopped process, no older than the one its restore settled on |
| WorkloadArgs.BuildArgv | src/manager.c:165-183 | the path and the first maxArgs - 2 tokens of the first 255 characters, in order; both callers pass 32 |
| WorkloadArgs.TokensSplit | src/snapshot.c:116-120 | tokens are non-empty and space-free, and together they are the string without its spaces |
| WorkloadArgs.TokensAtSpace | src/snapshot.c:116-120 | a space always separates: tokens are never joined across one |
| WorkloadArgs.OneToken | src/snapshot.c:116-120 | a string without spaces is one token, so none is cut |
| Monitor.Interval | src/manager.c:149-163 | the interval is at least 1 and at most the configured one, for every run time |
| Monitor.IntervalAntitoneIff | src/manager.c:149-163 | it never grows with run time if and only if the configured interval is neither 2 nor 3 |
| Monitor.AttemptIff | src/manager.c:389-394 | a tick that finds the process attempts a checkpoint if and only if the time since the last save reaches the interval due for its run time: the configured one, or half or a third of it; it saves, and moves the time of the last save, exactly if the process is running and the attempt succeeds |
| Monitor.RestoreIff | src/manager.c:379-387 | a tick that finds no process restores one if and only if that is configured and succeeds, and otherwise changes nothing |
| Monitor.MonitorLoop | src/manager.c:349-396 | the loop computes the specified state after any number of ticks |
| Monitor.BoundedLoss | src/manager.c:372-395 | a crash loses less than interval + period seconds since the last checkpoint or restore, plus one period per failed attempt since |
| Monitor.LossWhenSaving | src/manager.c:372-395 | when attempts on a running process succeed, a crash loses less than interval + period seconds, from the first tick that finds the process alive on |
| Monitor.SavingRun | src/manager.c:372-395 | in such a run every process found running after a tick has been saved or restored, with no failed attempt since |
| Monitor.LossShrinks | src/manager.c:156-158 | after five minutes of run time every run that goes on from a save loses less than a third of the configured interval, plus the period and one more period for every failed attempt since |
| Monitor.TickRecent | src/manager.c:389-394 | consecutive checkpoints are at least the current interval apart, and the age of the last one stays bounded |
| Monitor.HealthyTick | src/manager.c:389-394 | the next checkpoint comes between the current interval and period * ceil(interval / period) after the last |
| Monitor.CheckpointRate | src/manager.c:372-395 | N healthy ticks bring at least floor(N / ceil(interval / period)) checkpoints |
| Monitor.ExactRate | src/manager.c:149-163 | N healthy ticks after a save bring exactly floor(N / ceil(d / period)) checkpoints, d being the configured interval below 60 s of run time, half of it up to 300 s and a third of it from then on |
| Monitor.AtMostOneInstance | src/manager.c:379-387 | a run of the monitor alone never has two running instances |
| Monitor.RestoredIff | src/manager.c:379-387 | a dead process is restored in a run if and only if some tick's restore succeeds after its /proc entry has gone; the entry of a process the monitor restored itself goes only if an attach reaps it |
| Monitor.RestoredAtFirstChance | src/manager.c:379-387 | it is restored at the first such tick, and the new process is monitored from there |
| Monitor.CrashRun | src/manager.c:379 | a crash before a tick makes the process dead for that tick |
| Monitor.RestoresOnce | src/manager.c:379-387 | the number of restores is at most one more than the number of restored processes reaped by an attach |
| Monitor.ReapedIsRestored | src/manager.c:379-394 | a restored process that an attach reaps is restored again at the next tick whose restore succeeds; one with another parent only once that has collected it |
| Monitor.ZombieStopsMonitoring | src/procfs.c:176-180 | once a restored process is a zombie no later tick restores or checkpoints anything |

## Left out

- The kernel behind ptrace, process_vm_readv, mmap, flock, timerfd, fork and exec: each call is a nondeterministic step with its documented results.
- The A/B protocol is a transition system on values rather than classes with methods, because its claims are about interleavings of many processes; capture, loading, both restore loops, the durable replace and the monitor loop keep the source's imperative form.
- A group of calls that touch nothing the store depends on is one step: mkdir, ptrace and /proc before snapshot.bin.tmp is opened, all writes into it, and the manifest with the detach after its directory fsync.
- Directories made by init are taken as durable, although `ulcr_ensure_directory` never fsyncs.
- State, status and pid files: each write replaces the whole file, and neither restore nor checkpoint reads the first two.
- manifest.txt: never read by restore; only its failure path in the capture is modelled.
- Saved registers are stored in the header and never restored, so nothing is claimed about resuming at the saved instruction pointer.
- Sharing mode, mapping offset, file identity and shared open-file descriptions: restore makes private anonymous memory and fresh opens.
- Regions after the 512th and descriptors after the 128th are dropped by the collection loops; nothing is claimed about them.
- sscanf, readlink and fdinfo parsing: the model starts from the fields they deliver. Reading /proc/PID/stat is an input of the monitor.
- Path building, configuration parsing, the command line, status printing, `chdir` in the bootstrap, the log descriptor of the exec'd child, the demo and the scripts.
- pid reuse, wall-clock jumps, missed timer expirations and the duration of a tick's work: time moves by one period a tick. A pid returned by a restore may be any number, but it then denotes the new process only.
- Manual `restore` and `stop` beside the monitor: neither is part of a monitor run, and with them a second instance is possible.
- The fixed arrays of the image are sequences within their bounds, so their unused tails are not modelled.
- MonitorLoop: the source loop ends only when reading the timer fails; the model's run has as many ticks as the given sequence.
- AcknowledgedNeverLost: speaks of the image that a restore selects when its calls succeed, because with failed calls it is false (RestoreMayLoadOlder).
- LossWhenSaving: needs a clock that starts at or after the configured interval, which seconds since 1970 always do.
- BoundedLoss: before the first checkpoint or restore of a run there is no bound, since nothing was saved.
- RestoreFromCapture: needs distinct captured descriptor numbers, as a /proc directory lists them, and no entry that the loop restores at the snapshot's number, the exact condition of PlacedSurviveIff.
- RecoveredMemory: assumes of each capture in a run what WriteImage ensures of its file; the two are joined by that contract, not by one program.
