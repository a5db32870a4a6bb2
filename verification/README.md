# Models of Andlify's native core

Andlify runs a Linux rootfs inside an Android app. Its native library traces the programs of
the rootfs, gives them virtual users, file owners and paths that differ from the host's, and
loads their executables. These Dafny modules model its hardest parts and prove what they are for.

**The ownership store** (`Types`, `Bits`, `Probing`, `FileTable`, `ProcessTable`, `Codec`, `Journal`,
`Disks`, `Runs`, `Store`, `Sessions`, `Seqlock`, `Import`, `Startups`, `Publish`) is a small database of file owners. Its table lies in shared
memory and is probed linearly; readers take no lock but check a version counter; every change is
first appended to a checksummed journal, which is compacted into a snapshot now and then.
`Probing`, `FileTable` and `ProcessTable` relate the slots to finite maps. `Journal` defines recovery
as a function of the bytes of the two files, `Disks` says what each file operation may leave behind
after a kill or a power cut, and `Store` follows the writers: after every store and every file
operation there is a *kill point*, which is shown to be a possible end of a killed process; the kill points passed are
collected in the field `moments`. `Runs` says what sequences of requests, kills, startups and power cuts amount to, and
`Sessions` drives the store's own operations through such sequences. `Seqlock` interleaves single loads and stores of any number of
readers with those of the writers. `Import` is the startup scan and `Startups` a series of startups, which must not lose an original host mode
however often they are interrupted; `Publish` is the creation of files between startups. These too use the operations of `Store`, and may be killed at
any of its kill points.

**Paths** (`Paths`, `Walk`, `EmulatedRoot`): resolution of virtual symbolic links as a worklist of
components with a budget of 40 links, the emulated `pivot_root` and the bind mounts.

**The loader** (`Align`, `Elf`, `ElfMap`, `StackImage`, `Launch`): which executables are accepted, the arithmetic modulo
2^64 that places them, the memory image that results, the rebuilt initial stack, and that what the stack says of the image is true.

**The tracer** (`Credentials`, `Stops`, `Newborns`, `FilePolicy`): virtual user and group ids, the protocol of stops
around a traced call, the handshake around a newborn tracee, and the permission layer over the recorded owners.

Where the original loops over arrays or updates fields, there is a method on an array or a class,
proved against a specification function; lemmas then say what the specification means. An assignment
`x := *` stands for an answer of the kernel, any number of which may be failures.

Findings that are stated as lemmas rather than assumed away:

- A record with inode 0, or one key too many, would make every later recovery fail; such records are exactly
  the ones to keep out of the journal (`Journal.NextRecordRecoverable`, `Journal.ZeroInodePoisons`). The pre-scan keeps out the second kind;
  `SetLocked` does not look at the inode, and its contract says what a record with inode 0 leaves (`Disks.Poisons`).
- Until the directory is synced, a power cut undoes the scan's replacement of all records but not what is journalled after
  it (`Disks.RenameKeeps`, `Disks.RecordCommits`), and acknowledged Sets that found their record in the replaced table are undone with it
  (`Runs.ReplacementReverted`; `Runs.SetCounts` says when a Set is safe). If the old table cannot take a record that the new one took, the old snapshot is then not recoverable any more
  (`Disks.RecordReadable` gives the exact condition). The records the scan makes keep their meaning even so (`Import.LateRecordKeeps`).
- A Set that finds its record already in place returns true without syncing, even if the record before it was not synced
  (`Runs.UnsyncedSetLost`). It is safe if everything was durable and no older snapshot could come back (`Runs.SafeSet`); `Disks.NewestSurvives`
  says exactly when the newest table is safe.
- A startup that is not told birth times may take an inode's old record for the file's own and so lose a directory's own mode
  (`Startups.StaleRecordTaken`; `Startups.MissingBirthsExactly` gives the exact condition).
- The scan believes the kind of file that a record states. A directory under a regular file's record is not entered, and what is on record of the
  files below it is dropped (`Startups.DirectoryTakenForFile`; `Import.AllMet` and `Startups.MeaningKeptExactly` give the exact conditions). A regular file under a
  directory's record stops every startup (`Startups.FileTakenForDirectory`; `Startups.CompletesExactly`).
- A traced call that is trapped right after a repeated call that ran under its number is taken for a second trap of
  that one and gets neither entry nor exit handling (`Stops.SecondCallGivenUp`; `Stops.EveryCallHandledOnce` gives the exact condition).
- On kernels before 4.8 the bound of one repetition of a trapped call fails (`Stops.RepeatedAgainExactly`, `Stops.UnannouncedTrapRepeats`).
- The exit stop of an O_TMPFILE open or a bind records whatever file the descriptor or the path names by then. If another thread or process has
  exchanged it, an existing file changes its owner (`FilePolicy.FinishTakesOver`; `FilePolicy.FinishRespects` gives the exact condition).
- A walk that exceeds its budget hands back its input, which may be a link (`Walk.SelfLinkExceeds`);
  `Walk.CanonicalExactlyWithinBudget` says that this is the only way a result can fail to be resolved.
- After `pivot_root`, paths inside the new root that begin like the old root cannot be named
  (`EmulatedRoot.NamesAreLost`; `EmulatedRoot.ViewThenMeaning` gives the exact condition).

One more shows in a contract: opening a directory for writing ends its recorded set-id bits, although the kernel then
refuses the open (`FilePolicy.OpenEndsSetId`).

## Model

| member | source | states |
|---|---|---|
| Probing.ProbeFinds | library/src/main/cpp/ownership/ownership_store.cpp:212-244 | A probe from the key's home stops at a live slot exactly when the map holds the key, and that slot holds its value |
| Probing.StoreUpdates | library/src/main/cpp/ownership/ownership_store.cpp:188-211 | Writing a key where its probe may stop is the map update, and no probe chain breaks |
| Probing.TombstoneRemoves | library/src/main/cpp/ownership/ownership_store.cpp:493-509 | A tombstone removes exactly its key; all other chains survive |
| Probing.TombstoneKeeps | library/src/main/cpp/ownership/ownership_store.cpp:439-443 | A tombstone put over a vacant or dead slot changes nothing |
| Probing.OneKeyPerLiveSlot | library/src/main/cpp/ownership/ownership_store.cpp:188-211 | There are as many live slots as keys |
| Probing.ProbeExhausts | library/src/main/cpp/ownership/ownership_store.cpp:193-210 | A probe runs out exactly when every slot is live with another key |
| Bits.XorUndo | library/src/main/cpp/ownership/ownership_persistence.cpp:24-28 | Exclusive or with the same word twice gives the word back; the injectivity of the hash steps rests on it |
| FileTable.Hash | library/src/main/cpp/ownership/ownership_store_internal.h:18-24 | The home of a key is a slot of the table |
| FileTable.ProbeRunsOut | library/src/main/cpp/ownership/ownership_store.cpp:193-210 | ENOSPC arises if and only if all 2^19 slots hold other keys |
| FileTable.StoppedProbe | library/src/main/cpp/ownership/ownership_persistence.cpp:77-99 | The slot a probe stops at reads as the key's entry in the map; the probe runs out exactly when the key does not fit |
| FileTable.WritingStores | library/src/main/cpp/ownership/ownership_store.cpp:196-206 | Overwriting the slot of the probe updates the map at the key and nowhere else, and keeps one slot per key |
| FileTable.StoredAllExactly | library/src/main/cpp/ownership/ownership_store.cpp:188-211 | A sequence of Puts succeeds if and only if no inode is 0 and the distinct keys fit, and then the table is the map the sequence describes |
| FileTable.Shared.Wipe | library/src/main/cpp/ownership/ownership_persistence.cpp:123-123 | Clearing every slot leaves the empty map |
| FileTable.Shared.WriteSlot | library/src/main/cpp/ownership/ownership_store.cpp:197-206 | One slot is overwritten, field by field; an even version is odd after each of the seven stores and comes back even and two higher, an odd one is left alone; no other slot changes at any store |
| FileTable.Shared.Probe | library/src/main/cpp/ownership/ownership_store.cpp:193-208 | The loop of Put settles on the slot the specification names, or on none |
| FileTable.Shared.Put | library/src/main/cpp/ownership/ownership_store.cpp:188-211 | Put is the map update; it fails exactly for inode 0 and for a new key in a full table, and then changes nothing |
| FileTable.Shared.Lookup | library/src/main/cpp/ownership/ownership_store.cpp:225-236 | The probe of Lookup answers as the finite map does |
| FileTable.Shared.PutAll | library/src/main/cpp/ownership/ownership_store.cpp:405-408 | The Put loop of the scan succeeds exactly where the list of owners can be stored, and then the table is the map of the list |
| ProcessTable.LastRequestDecides | library/src/main/cpp/ownership/ownership_store.cpp:418-509 | After any run of requests a pid is found if and only if the last request that counts for it registered it, and with that request's identity |
| ProcessTable.Chosen | library/src/main/cpp/ownership/ownership_store.cpp:426-438 | The pid's own slot or the first reusable one on its chain is a slot where registering updates the map and withdrawing removes the pid |
| ProcessTable.Table.FindFree | library/src/main/cpp/ownership/ownership_store.cpp:426-438 | The scan finds such a slot; it finds none only if every slot is live for another pid |
| ProcessTable.Table.WriteSlot | library/src/main/cpp/ownership/ownership_store.cpp:439-452 | The slot ends with all fields stored; at every kill point in between it is a tombstone and no other slot differs |
| ProcessTable.Table.RegisterProcess | library/src/main/cpp/ownership/ownership_store.cpp:418-457 | Registering is the map update and fails only for a process without start time or a full table; the version is odd while it lasts, even afterwards, and higher if a slot has changed; killed in between, it leaves the map without that pid and all others as they were |
| ProcessTable.Table.ForgetProcess | library/src/main/cpp/ownership/ownership_store.cpp:493-509 | Forgetting removes exactly the pid; the version is even afterwards, and higher if a slot has changed |
| ProcessTable.Table.Process | library/src/main/cpp/ownership/ownership_store.cpp:471-490 | The probe of Process finds exactly the registered pids, whatever tombstones their chains cross, and checks the start time |
| ProcessTable.Table.Serve | library/src/main/cpp/ownership/ownership_store.cpp:418-509 | Any run of requests leaves the table standing for the map that the run describes |
| Codec.ValueOfLittle | library/src/main/cpp/ownership/ownership_persistence.cpp:16-23 | Decoding what Encode wrote gives the value, for every value that fits |
| Codec.LittleOfValue | library/src/main/cpp/ownership/ownership_persistence.cpp:16-23 | Encoding what Decode read gives the bytes |
| Codec.TimesPrimeInjective | library/src/main/cpp/ownership/ownership_persistence.cpp:24-28 | Multiplication by the FNV prime is injective modulo 2^32 |
| Codec.StepInjective | library/src/main/cpp/ownership/ownership_persistence.cpp:24-28 | Each checksum step is injective in the running hash, and in the byte |
| Codec.ChecksumDiffers | library/src/main/cpp/ownership/ownership_persistence.cpp:24-28 | Data that differ in exactly one byte have different checksums |
| Codec.PackRoundTrip | library/src/main/cpp/ownership/ownership_persistence.cpp:42-61 | A packed record is accepted by recovery and gives back its owner and sequence number |
| Codec.AlteredByteRejected | library/src/main/cpp/ownership/ownership_persistence.cpp:149-153 | No accepted record is accepted with exactly one of its 64 bytes altered |
| Codec.KnownChecksums | library/src/main/cpp/ownership/ownership_persistence.cpp:24-28 | The checksums of no bytes and of the letter a are the known ones |
| Codec.HeadFields | library/src/main/cpp/ownership/ownership_persistence.cpp:44-47 | Each identity field lies at its own offset of the record |
| Codec.TailFields | library/src/main/cpp/ownership/ownership_persistence.cpp:48-53 | So does each attribute field |
| Codec.Encode | library/src/main/cpp/ownership/ownership_persistence.cpp:16-18 | The loop writes the little-endian bytes in place and no others |
| Codec.Decode | library/src/main/cpp/ownership/ownership_persistence.cpp:19-23 | The loop reads the little-endian value |
| Codec.ComputeChecksum | library/src/main/cpp/ownership/ownership_persistence.cpp:24-28 | The loop computes the recursive checksum |
| Codec.EncodeIdentity | library/src/main/cpp/ownership/ownership_persistence.cpp:44-47 | The first 32 bytes of a record, nothing else touched |
| Codec.EncodeAttributes | library/src/main/cpp/ownership/ownership_persistence.cpp:48-52 | The next 24 bytes of a record, nothing else touched |
| Codec.Pack | library/src/main/cpp/ownership/ownership_persistence.cpp:42-55 | Field by field, the array becomes the specified record |
| Journal.TracesLoads | library/src/main/cpp/ownership/ownership_persistence.cpp:154-170 | A journal whose records continue the snapshot's table loads, to the version of its last record |
| Journal.PrefixTraces | library/src/main/cpp/ownership/ownership_persistence.cpp:142-147 | Every prefix of such a journal loads, to an earlier version |
| Journal.FramesOfPrefix | library/src/main/cpp/ownership/ownership_persistence.cpp:136-148 | Cutting a file at any byte keeps exactly its first whole records |
| Journal.AppendTraces | library/src/main/cpp/ownership/ownership_persistence.cpp:104-111 | Appending the next record extends the history by one version |
| Journal.CoveredTraces | library/src/main/cpp/ownership/ownership_persistence.cpp:166-170 | A snapshot at least as new as a journal makes recovery skip all of that journal |
| Journal.NextRecordRecoverable | library/src/main/cpp/ownership/ownership_persistence.cpp:154-170 | A journal is still recoverable after its next record if and only if that record has an inode and its key fits |
| Journal.ZeroInodePoisons | library/src/main/cpp/ownership/ownership_persistence.cpp:77-110 | A journal that begins with a record of inode 0 is never recoverable, whatever is appended |
| Journal.SnapshotRoundTrip | library/src/main/cpp/ownership/ownership_persistence.cpp:156-165 | Replaying a snapshot yields the owners written to it, under their sequence number |
| Journal.OccupiedDescribes | library/src/main/cpp/ownership/ownership_persistence.cpp:203-208 | The occupied slots of a table, stored into an empty one, give the same map whatever the layout |
| Journal.SnapshotOfTable | library/src/main/cpp/ownership/ownership_persistence.cpp:185-209 | The snapshot of a table replays to the map the table stands for |
| Disks.KillRecovers | library/src/main/cpp/ownership/ownership_persistence.cpp:119-184 | Under the crash invariant, recovery after a kill yields exactly the newest version |
| Disks.PowerCutRecovers | library/src/main/cpp/ownership/ownership_persistence.cpp:119-184 | Under it, recovery after a power cut yields, behind whatever snapshot is found, some version of what is told there, no older than the last durable one |
| Disks.NewestSurvives | library/src/main/cpp/ownership/ownership_persistence.cpp:119-184 | The newest table survives every power cut if and only if the synced bytes of each journal that may be found already recover it behind each snapshot that may be found, that is, if its version is durable and no older snapshot tells of another table |
| Disks.PowerCutRestarts | library/src/main/cpp/ownership/ownership_persistence.cpp:119-184 | What a power cut leaves satisfies the invariant again, up to the version that recovery then yields |
| Disks.TornPairs | library/src/main/cpp/ownership/ownership_persistence.cpp:29-41 | A record cut short anywhere keeps the invariant and is not seen by recovery |
| Disks.RecordCommits | library/src/main/cpp/ownership/ownership_persistence.cpp:104-106 | The last byte of a record adds one version to what recovery yields, and to what older snapshots tell as far as their tables can take it |
| Disks.SyncMakesDurable | library/src/main/cpp/ownership/ownership_persistence.cpp:107-107 | A synced journal makes the newest version durable, behind whatever snapshot |
| Disks.RenameKeeps | library/src/main/cpp/ownership/ownership_persistence.cpp:212-214 | Renaming a snapshot of the table under the number of the newest version replaces that version for a kill; what was told behind the snapshot before may come back at a power cut |
| Disks.ReplacementRecovers | library/src/main/cpp/ownership/ownership_store.cpp:405-410 | A snapshot of a rebuilt table, written under an unchanged sequence number, is what recovery yields from the rename on, with the journal still there or truncated |
| Disks.DirectorySyncMakesDurable | library/src/main/cpp/ownership/ownership_persistence.cpp:215-215 | Once the directory is synced, the newest version is durable and no older snapshot comes back |
| Disks.RecordReadable | library/src/main/cpp/ownership/ownership_persistence.cpp:154-170 | Recovery behind any snapshot goes on after the next record if and only if the table told there can take it |
| Disks.Poisons | library/src/main/cpp/ownership/ownership_persistence.cpp:154-170 | A record that the table cannot take makes recovery fail |
| Disks.EmptyingKeeps | library/src/main/cpp/ownership/ownership_persistence.cpp:218-221 | The journal may be truncated once a durable snapshot covers it |
| Disks.TrimKeeps | library/src/main/cpp/ownership/ownership_persistence.cpp:142-147 | Dropping a torn tail changes nothing that recovery sees |
| Runs.RunRecovers | library/src/main/cpp/ownership/ownership_persistence.cpp:64-232 | However requests, checkpoints, startups, kills and power cuts follow each other, recovery yields the initial table updated by the events that count, in order: acknowledged ones in full, those of failed or killed processes in full or not at all, and all but what a power cut undid before it was durable. Besides, a power cut may undo a replacement whose rename was not durable, with the Sets that found their record in its table |
| Runs.CutRunRecovers | library/src/main/cpp/ownership/ownership_persistence.cpp:64-232 | The same for anything that may survive a power cut at the end, behind any snapshot whose table could take all records written since |
| Runs.DurablyDone | library/src/main/cpp/ownership/ownership_persistence.cpp:107-107 | An acknowledged durable Set that wrote its record, and an acknowledged checkpoint, make everything durable |
| Runs.SavedCounts | library/src/main/cpp/ownership/ownership_persistence.cpp:64-232 | After an event that left everything durable, it and everything before it is part of the story, whatever power cuts come later |
| Runs.SetCounts | library/src/main/cpp/ownership/ownership_persistence.cpp:64-232 | An acknowledged Set of the story counts in full if it wrote its record, if no older snapshot could come back, or if a completed checkpoint followed before any power cut |
| Runs.SafeSet | library/src/main/cpp/ownership/ownership_persistence.cpp:64-232 | An acknowledged Set that left everything durable, and wrote its record or had no older snapshot around, is never undone |
| Runs.UnsyncedSetLost | library/src/main/cpp/ownership/ownership_persistence.cpp:84-99 | A run of an open store in which a durable Set that found its record already in place is undone, with the Set that wrote it unsynced |
| Runs.ReplacementReverted | library/src/main/cpp/ownership/ownership_store.cpp:405-410 | A run in which a power cut brings back the snapshot before a replacement, and undoes a Set that was acknowledged as durable because its record was in the replaced table |
| Runs.NothingLost | library/src/main/cpp/ownership/ownership_persistence.cpp:119-184 | Without power cuts every event counts, and every acknowledged one in full |
| Runs.PowerCutSteps | library/src/main/cpp/ownership/ownership_persistence.cpp:119-184 | Whatever survives a power cut, recovery can start from it, as one step of a run, but for a snapshot that was given up |
| Runs.AnyTable | library/src/main/cpp/ownership/ownership_store.cpp:197-206 | A table marked dirty, or not open to others yet, may hold any slots at all, such as half stored ones |
| Sessions.Serve | library/src/main/cpp/ownership/ownership_persistence.cpp:64-232 | Any sequence of processes, each asking for a Set, checkpoint or startup and returning or killed at any of its kill points, and of power cuts, is such a run, with the outcome of each Set and checkpoint |
| Store.StepOn | library/src/main/cpp/ownership/ownership_persistence.cpp:72-232 | A process whose files go on telling what they told is still within its step, if it is killed now |
| Store.StepRecorded | library/src/main/cpp/ownership/ownership_persistence.cpp:104-106 | The last byte of a record takes all histories on by one version, as one step of a killed writer |
| Store.StepRenamed | library/src/main/cpp/ownership/ownership_persistence.cpp:212-214 | So does the rename of a snapshot, of the newest version or of its replacement |
| Store.JudgedExactly | library/src/main/cpp/ownership/ownership_persistence.cpp:75-96 | If the key fits, the verdict on a conditional Set is a conflict if and only if the entry differs from the expected record in birth time, owner, group or mode, and unchanged if and only if it is the record itself |
| Store.ReadAndChanged | library/src/main/cpp/ownership/ownership_persistence.cpp:81-86 | A record read from the table, changed and set again under that condition is written; after another process has changed one of the five attributes it is refused |
| Store.OwnershipStore.WriteRecord | library/src/main/cpp/ownership/ownership_persistence.cpp:29-41 | Short writes in any pattern keep the crash invariant after each; success appends one record and one version, or, with inode 0, ends recovery |
| Store.OwnershipStore.Available | library/src/main/cpp/ownership/ownership_persistence.cpp:75-92 | The pre-scan stops at the very slot that Put will use |
| Store.OwnershipStore.Prescan | library/src/main/cpp/ownership/ownership_persistence.cpp:75-99 | The verdict (conflict, unchanged, no space, write) is the specified function of the map alone |
| Store.OwnershipStore.Journalled | library/src/main/cpp/ownership/ownership_persistence.cpp:100-107 | Failing leaves the history as it was or one record longer; a synced success makes it durable |
| Store.OwnershipStore.Publish | library/src/main/cpp/ownership/ownership_persistence.cpp:108-113 | After the journal Put takes every record but one with inode 0, and the table ends current and not dirty |
| Store.OwnershipStore.SetLocked | library/src/main/cpp/ownership/ownership_persistence.cpp:72-117 | At every kill point the files recover the old or the new history; an appending success leaves the table current and fewer than 16384 records since the checkpoint; only a record with inode 0 can leave a journal that no recovery takes |
| Store.OwnershipStore.Set | library/src/main/cpp/ownership/ownership_persistence.cpp:64-71 | The same for any process, whatever state earlier writers died in, as one step of a run; a conditional Set whose expected record is not the newest one, or one whose key does not fit, is refused and changes no history; the version comes out even, and higher if a slot has changed |
| Store.OwnershipStore.WriteSnapshot | library/src/main/cpp/ownership/ownership_persistence.cpp:186-209 | Through a 64 KiB buffer, the file receives exactly the header and the occupied slots |
| Store.OwnershipStore.SnapshotPublished | library/src/main/cpp/ownership/ownership_persistence.cpp:209-217 | Up to the directory sync every kill point keeps the crash invariant; success leaves a durable snapshot of the table, be it the newest version or a replacement of it |
| Store.OwnershipStore.EmptyJournal | library/src/main/cpp/ownership/ownership_persistence.cpp:218-224 | Adopting the checkpoint and truncating the journal keep it |
| Store.OwnershipStore.CheckpointLocked | library/src/main/cpp/ownership/ownership_persistence.cpp:185-225 | A checkpoint of a current table keeps the history, one of a rebuilt table replaces the newest version; every kill point is a possible end of the step; success makes all durable, leaves no older snapshot and empties the journal |
| Store.OwnershipStore.Checkpoint | library/src/main/cpp/ownership/ownership_persistence.cpp:226-232 | For any process, at every kill point, a checkpoint is one step of a run that keeps the history; when acknowledged, one after which everything is durable |
| Store.OwnershipStore.ReplaySnapshot | library/src/main/cpp/ownership/ownership_persistence.cpp:136-165 | The snapshot pass computes what the recovery function says, and fails exactly when it does |
| Store.OwnershipStore.ReplayJournal | library/src/main/cpp/ownership/ownership_persistence.cpp:136-171 | The journal pass likewise, stopping before a torn last record |
| Store.OwnershipStore.ReplayRecord | library/src/main/cpp/ownership/ownership_persistence.cpp:149-170 | One journal record is skipped, applied or refused as specified |
| Store.OwnershipStore.Rebuild | library/src/main/cpp/ownership/ownership_persistence.cpp:123-180 | Both passes succeed on files in the crash invariant, and the memory becomes what they recover |
| Store.OwnershipStore.Replay | library/src/main/cpp/ownership/ownership_persistence.cpp:119-184 | From any point a writer died at, the shared memory becomes current, under a version that is odd until it is and comes out even and higher; killing recovery itself is safe too |
| Store.OwnershipStore.Lock | library/src/main/cpp/ownership/ownership_store.cpp:165-180 | The holder of the lock always sees a current table; readers notice if it had to be rebuilt |
| Store.OwnershipStore.Unlock | library/src/main/cpp/ownership/ownership_store.cpp:181-186 | The version is even afterwards, one higher if it was odd |
| Store.OwnershipStore.RenameSnapshot | library/src/main/cpp/ownership/ownership_persistence.cpp:212-214 | A kill right after the rename finds the replaced history; what was told before stays told behind the older snapshot |
| Store.OwnershipStore.StartUp | library/src/main/cpp/ownership/ownership_store.cpp:151-154 | Recovery by a first opener is one step of a run that keeps the history, at every kill point |
| Store.OwnershipStore.Refill | library/src/main/cpp/ownership/ownership_store.cpp:405-408 | Emptying and refilling the table is not seen by recovery |
| Store.OwnershipStore.Rewrite | library/src/main/cpp/ownership/ownership_store.cpp:405-410 | The replacement of all records by those of the files found is one step of a run, killed anywhere |
| Store.OwnershipStore.SetAll | library/src/main/cpp/ownership/ownership_store.cpp:265-280 | Durable Sets one after the other fold their records into the table, and are steps of a run at every kill point |
| Store.OwnershipStore.Open | library/src/main/cpp/ownership/ownership_store.cpp:136-158 | Recovery, the Sets of the scan, its replacement of all records, the Sets of PrepareUser and the checkpoint are a run, and every kill point on the way is a possible end of one of its steps; success leaves the records found and prepared, durable, with an empty journal |
| Seqlock.LookupsAreAtomic | library/src/main/cpp/ownership/ownership_store.cpp:188-244 | In every interleaving with writers killed anywhere, a lookup that returns gives the whole entry, or the absence, of one map that the table held between its call and its return, and that was committed to the journal |
| Seqlock.BehaviourSafe | library/src/main/cpp/ownership/ownership_store.cpp:165-244 | Every state of every interleaving satisfies the invariant of the writer and of all readers |
| Seqlock.TornCopy | library/src/main/cpp/ownership/ownership_store_internal.h:25-33 | A copy with its first fields from one time and the others from another is a state of the model, so that it is the version check that excludes it |
| Seqlock.WriterKeeps | library/src/main/cpp/ownership/ownership_persistence.cpp:72-184 | Every store of a writer, its death at any point, and recovery keep the writer's invariant |
| Seqlock.StoringKeeps | library/src/main/cpp/ownership/ownership_store_internal.h:34-43 | One more field stored keeps it; the last field publishes the new map |
| Seqlock.WriterStable | library/src/main/cpp/ownership/ownership_store.cpp:197-205 | The version never decreases, and while it keeps an even value no slot changes |
| Seqlock.Parity | library/src/main/cpp/ownership/ownership_store.cpp:165-186 | Entering makes the version odd and leaving makes it even, each by one step at most |
| Seqlock.ReaderKeeps | library/src/main/cpp/ownership/ownership_store.cpp:225-243 | Each load of a single field into the reader's copy, from the slot as it is then, keeps what the reader has established about the table of its version |
| Seqlock.ReaderUndisturbed | library/src/main/cpp/ownership/ownership_store.cpp:218-239 | A writer's step invalidates nothing a reader has gathered unless the version differs for good |
| Seqlock.ProbeDecides | library/src/main/cpp/ownership/ownership_store.cpp:227-236 | A probe of a complete table decides as its map does |
| Startups.ManyStartups | library/src/main/cpp/ownership/ownership_store.cpp:347-417 | Any number of startups, each completed, failed or killed anywhere, with birth times reported in some and not in others, leave every file they meet meant to be what it was at first, if no record is an earlier file's or the reports do not vary |
| Startups.CompletedStartup | library/src/main/cpp/ownership/ownership_store.cpp:347-417 | The one that completes records, for every file it meets and nothing else, the owner it had on record at first or, if it had none, its original host mode; that is every file if each directory that contains some was taken for one |
| Startups.UnreportedBirth | library/src/main/cpp/ownership/ownership_store.cpp:364-376 | A missing birth time changes what a file is meant to be if and only if an earlier file's record, saying something else, is still there |
| Startups.MissingBirthsExactly | library/src/main/cpp/ownership/ownership_store.cpp:364-384 | A completed startup that was not told all birth times records what was meant of every file if and only if it meets them all and each earlier file's record it could not tell apart says what the file was to have |
| Startups.StaleRecordTaken | library/src/main/cpp/ownership/ownership_store.cpp:364-384 | With such a record a startup without birth times loses the directory's own mode |
| Startups.MeaningKeptExactly | library/src/main/cpp/ownership/ownership_store.cpp:387-410 | A completed startup leaves every file meaning what it meant if and only if each file it does not meet had nothing else on record than what the host says |
| Startups.CompletesExactly | library/src/main/cpp/ownership/ownership_store.cpp:385-391 | A startup can complete if and only if everything it meets and takes for a directory is one |
| Startups.DirectoryTakenForFile | library/src/main/cpp/ownership/ownership_store.cpp:365-388 | With a regular file's record on a directory, the owner of what is below it is dropped |
| Startups.FileTakenForDirectory | library/src/main/cpp/ownership/ownership_store.cpp:365-391 | With a directory's record on a regular file, no startup completes |
| Startups.StartUp | library/src/main/cpp/ownership/ownership_store.cpp:136-158 | One startup over what any processes have left: at every kill point of recovery, scan and checkpoint each file that it meets means what it meant, and the others are untouched |
| Startups.Startups | library/src/main/cpp/ownership/ownership_store.cpp:136-158 | Startups driven one after the other, each ended by itself or at a kill point, form such a chain |
| Import.RecordStep | library/src/main/cpp/ownership/ownership_store.cpp:379-384 | Each instant of the store while it sets a record keeps all meanings |
| Import.ReplaceStep | library/src/main/cpp/ownership/ownership_store.cpp:405-410 | Each instant of the store while all records are replaced keeps all meanings |
| Import.LateRecordKeeps | library/src/main/cpp/ownership/ownership_store.cpp:405-410 | A record journalled after the replacement keeps all meanings also in the table there was before, should a power cut undo the replacement |
| Import.MeantByBirth | library/src/main/cpp/ownership/ownership_store.cpp:365-378 | A file is meant to have what its inode's record says, unless both birth times are known and differ, and else to be root's with its host mode; the record made says the same under the file's own birth time, if that is known |
| Import.KindsExactly | library/src/main/cpp/ownership/ownership_store.cpp:361-363 | Directories and links are told by the S_IFMT bits of the mode |
| Import.AllMet | library/src/main/cpp/ownership/ownership_store.cpp:387-396 | A scan meets all files if and only if each directory that contains some is taken for one |
| Import.MetSame | library/src/main/cpp/ownership/ownership_store.cpp:354-404 | While meanings stay, the same files are met |
| Import.RecordKeeps | library/src/main/cpp/ownership/ownership_store.cpp:364-384 | Recording what a file is meant to be leaves every meaning alone and makes the file recognisable |
| Import.WidenKeeps | library/src/main/cpp/ownership/ownership_store.cpp:379-384 | Widening the host mode of a recorded file, as what it is taken for, leaves every meaning alone |
| Import.WidenedTwice | library/src/main/cpp/ownership/ownership_store.cpp:379-384 | Widening again for the same bits changes nothing |
| Import.ReplaceKeeps | library/src/main/cpp/ownership/ownership_store.cpp:405-410 | Replacing all records by those of a walk that met every file it could leaves the meaning of these alone, with hard links met twice |
| Import.FrontierAdvances | library/src/main/cpp/ownership/ownership_store.cpp:354-404 | Visiting a path and stacking its children, if it is taken for a directory, keeps every path that is met visited, stacked, or below a stacked one |
| Import.FrontierExhausted | library/src/main/cpp/ownership/ownership_store.cpp:354-404 | With an empty stack exactly the paths that are met have been visited |
| Import.ImportDone | library/src/main/cpp/ownership/ownership_store.cpp:405-416 | Recorded, widened and complete: exactly the files that are met are recorded, and accessible as what they are taken for |
| Import.Scanner.Record | library/src/main/cpp/ownership/ownership_store.cpp:379-384 | The store's durable Set, killed anywhere, keeps all meanings; success makes the file recognisable |
| Import.Scanner.Visit | library/src/main/cpp/ownership/ownership_store.cpp:356-386 | One visit takes over what is recorded and opens a directory only after its mode is recoverable |
| Import.Scanner.Turn | library/src/main/cpp/ownership/ownership_store.cpp:354-404 | One turn meets one more path, and those below it wait |
| Import.Scanner.Walk | library/src/main/cpp/ownership/ownership_store.cpp:354-404 | The walk meets exactly the files below directories taken for such, fails at what is none, and at every kill point every file it meets means what it meant |
| Import.Scanner.Replace | library/src/main/cpp/ownership/ownership_store.cpp:405-410 | At every kill point of the store's replacement of all records every file that is met means what it meant |
| Import.Scanner.WidenAll | library/src/main/cpp/ownership/ownership_store.cpp:411-415 | At every kill point of the final widening likewise; success completes the import |
| Import.Scanner.Scan | library/src/main/cpp/ownership/ownership_store.cpp:347-417 | The whole scan keeps the meaning at every kill point, whatever the records say, and success is a complete import of the files met; host modes change only of files that are no links and lack access, to the meant bits widened |
| Publish.CreatedFilesAreOwned | library/src/main/cpp/ownership/ownership_store.cpp:282-345 | In every run of creations and startups, each completed, failed or killed anywhere, every visible path that startups meet names a file meant to be what its creator asked for, with its record in the recovered table at every instant, or what it was meant to be before |
| Publish.CreationKeeps | library/src/main/cpp/ownership/ownership_store.cpp:282-345 | At no instant of a creation does a visible file mean anything else, lose its record or stop being met, and the new one is on record as asked for |
| Publish.RestartHonours | library/src/main/cpp/ownership/ownership_store.cpp:136-158 | No instant of a startup breaks what creations promised |
| Publish.Serve | library/src/main/cpp/ownership/ownership_store.cpp:282-345 | Creations and startups driven one after the other, each ended by itself or at a kill point, form such a run |
| Publish.RestartKeepsPromises | library/src/main/cpp/ownership/ownership_store.cpp:136-154 | A completed startup has on record every promise about a file it meets, and no record of anything that was only staged |
| Publish.CreatableExactly | library/src/main/cpp/ownership/ownership_store.cpp:297-307 | A directory, a link, a fifo or a regular file can be made, and nothing else |
| Publish.Creator.Build | library/src/main/cpp/ownership/ownership_store.cpp:286-319 | Building the item touches only the staging directory and the new inode, whose host mode has the bits asked for, widened |
| Publish.Creator.Record | library/src/main/cpp/ownership/ownership_store.cpp:320-322 | The store's durable Set, killed anywhere, lands before anything is visible |
| Publish.Creator.Publish | library/src/main/cpp/ownership/ownership_store.cpp:325-335 | The path appears only with its record in place, and never replaces an existing one |
| Publish.Creator.CleanUp | library/src/main/cpp/ownership/ownership_store.cpp:336-341 | The staging directory is gone and nothing visible has changed |
| Publish.Creator.Create | library/src/main/cpp/ownership/ownership_store.cpp:282-345 | Every instant is before or after publication; success means visible and recorded, an existing path means failure without effect |
| Publish.Creator.FirstOpen | library/src/main/cpp/ownership/ownership_store.cpp:136-154 | Discarding the staged items, recovering and scanning keep all meanings at every kill point; success is a complete import with nothing staged |
| Paths.SplitConcat | library/src/main/cpp/ptrace_engine.cpp:650-662 | The components of a/b are those of a followed by those of b |
| Paths.SplitJoin | library/src/main/cpp/ptrace_engine.cpp:754-761 | Splitting a joined list of names gives the names back, with or without trailing slash |
| Paths.SplitPath | library/src/main/cpp/ptrace_engine.cpp:650-662 | The splitting loop computes the components |
| Walk.ResolveVirtualSymlinks | library/src/main/cpp/ptrace_engine.cpp:649-762 | The worklist loop terminates and computes the specified resolution for every link graph |
| Walk.ResultIsClean | library/src/main/cpp/ptrace_engine.cpp:665-749 | Within the budget the result has no "." or "..", and no prefix that is a link except a last one not to be followed |
| Walk.WithinBudget | library/src/main/cpp/ptrace_engine.cpp:716-722 | The loop resolves a path if and only if a walk without a budget comes to an end and meets at most 40 links |
| Walk.CanonicalExactlyWithinBudget | library/src/main/cpp/ptrace_engine.cpp:630-763 | The result is clean in this sense if and only if the walk comes to an end and meets at most 40 links |
| Walk.ResolvedIdempotent | library/src/main/cpp/ptrace_engine.cpp:630-763 | Resolving a result again changes nothing, and it is absolute |
| Walk.ResultStaysBelow | library/src/main/cpp/ptrace_engine.cpp:2735-2737 | Behind a root directory the result names something at or below it |
| Walk.SelfLinkExceeds | library/src/main/cpp/ptrace_engine.cpp:720-722 | A link to itself exceeds the budget and comes back unresolved |
| Walk.ResolveAppend | library/src/main/cpp/ptrace_engine.cpp:665-749 | Walking two stretches is walking the second from where the first ends |
| Walk.ResolveComposes | library/src/main/cpp/ptrace_engine.cpp:665-749 | Resolving a/b gives the components of resolving b behind the resolved a |
| Walk.DotDotIsParent | library/src/main/cpp/ptrace_engine.cpp:679-684 | A path followed by ".." leads to the directory that holds what the path leads to, and the root holds itself |
| Walk.DotsCancel | library/src/main/cpp/ptrace_engine.cpp:676-684 | A name that is no link, followed by "..", cancels out wherever it stands; a "." always does |
| Walk.LexicalNormalForm | library/src/main/cpp/ptrace_engine.cpp:676-710 | Where no prefix is a link, climbing k of the names just walked leaves the others |
| Walk.DotDotExample | library/src/main/cpp/ptrace_engine.cpp:676-684 | "/../a/b/../c" is "/a/c" where nothing is a link |
| Walk.LinkMeans | library/src/main/cpp/ptrace_engine.cpp:711-748 | Behind a link lies what lies behind its text, read from the root if absolute and from the directory of the link if not |
| Walk.LastNotFollowed | library/src/main/cpp/ptrace_engine.cpp:701-705 | A link at the end of a path comes back as it is when final links are not followed; with a slash behind it, it is followed |
| Walk.NoSlashAdded | library/src/main/cpp/ptrace_engine.cpp:717-719 | A trailing slash is asked for only by the path itself or by the text of a link |
| Walk.SlashAsks | library/src/main/cpp/ptrace_engine.cpp:649-653 | A slash behind a path other than the root asks for a directory |
| Walk.PermitDecides | library/src/main/cpp/ptrace_engine.cpp:668-675 | A walk with a permit callback ends like one without if every directory consulted on its way, inside link targets too, was permitted, and is refused otherwise |
| Walk.CleanPermitted | library/src/main/cpp/ptrace_engine.cpp:668-675 | Along names that are no links, a walk succeeds if and only if each directory on the way is permitted |
| EmulatedRoot.PassthroughExactly | library/src/main/cpp/path_rewrite.cpp:19-31 | Passed through are the trees of /proc and /sys and what lies below /dev but for the tree of /dev/shm, and nothing else |
| EmulatedRoot.ViewThenMeaning | library/src/main/cpp/ptrace_engine.cpp:366-381 | A rootfs path named as a tracee sees it is found again under that name, if and only if the name is not shadowed by the old root or a passed-through tree, or cut off by a hidden old root |
| EmulatedRoot.NamesAreLost | library/src/main/cpp/ptrace_engine.cpp:366-381 | A path inside the new root, and one outside without an old root, whose reported name means another file |
| EmulatedRoot.NewRootIsSlash | library/src/main/cpp/ptrace_engine.cpp:371-373 | The new root is seen as / and / means the new root |
| EmulatedRoot.Unpivoted | library/src/main/cpp/ptrace_engine.cpp:366-370 | Before pivot_root, or with the root as new root, paths are reported as they are |
| EmulatedRoot.MeaningThenView | library/src/main/cpp/ptrace_engine.cpp:2759-2769 | A name is the one its file is reported under, if and only if it does not lead through the old root back inside the new one |
| EmulatedRoot.RelativeIsAbsolute | library/src/main/cpp/ptrace_engine.cpp:349-362 | A path relative to the new root means what the absolute path means |
| EmulatedRoot.LongestUnique | library/src/main/cpp/ptrace_engine.cpp:387-398 | There is at most one longest mount point over a path |
| EmulatedRoot.MovedNames | library/src/main/cpp/ptrace_engine.cpp:403-407 | What lies behind a mount point is found, name by name, behind the target |
| EmulatedRoot.BestMatch | library/src/main/cpp/ptrace_engine.cpp:387-398 | The loop finds it in whatever order the mounts come |
| EmulatedRoot.DistinctChainFits | library/src/main/cpp/ptrace_engine.cpp:386-410 | Rewritings that never use a mount twice are no more than the mounts |
| EmulatedRoot.ResolveBindMounts | library/src/main/cpp/ptrace_engine.cpp:383-412 | The result is reached by longest-mount rewritings, and no mount moves it, unless the bound was hit, which takes a mount used twice |
| Align.UpBounds | library/src/main/cpp/elf_exec.cpp:25-27 | PageUp gives the next multiple when nothing wraps |
| Align.DownWraps | library/src/main/cpp/elf_exec.cpp:25-27 | Rounding commutes with wrapping modulo 2^64 |
| Elf.OpenElfExecutable | library/src/main/cpp/elf_exec.cpp:219-322 | A file is refused if and only if it is not runnable or its identification, header, table, interpreter entries or load segments break one of the stated conditions; what is accepted has bounds that cannot overflow, an entry point, a mapped header table and the path of its interpreter |
| Elf.Layout | library/src/main/cpp/elf_exec.cpp:258-316 | The loop computes bounds, largest alignment, interpreter, and where entry and table are, and fails exactly for a bad segment or interpreter entry |
| Elf.BoundedGrows | library/src/main/cpp/elf_exec.cpp:299-304 | One more segment keeps the accumulated bounds and the alignment right |
| Elf.InterpreterNext | library/src/main/cpp/elf_exec.cpp:263-282 | One more entry: a second path is refused exactly if the first one was not empty |
| Elf.HeaderReads | library/src/main/cpp/elf_exec.cpp:234-243 | Every 64-byte header laid out as the format has it is read back field by field, and recognised if and only if its kind is an executable or a shared object |
| Elf.RecognisedLaidOut | library/src/main/cpp/elf_exec.cpp:237-243 | No file is recognised whose first 64 bytes are not such a header |
| Elf.SegmentReads | library/src/main/cpp/elf_exec.cpp:251-257 | Every 56-byte program header is read back field by field |
| Elf.SegmentOkExactly | library/src/main/cpp/elf_exec.cpp:284-298 | The conditions on a load segment, written with care for overflow, say that it fits below 2^63 and in the file, and that address and offset differ by a multiple of the page and of an alignment that is a power of two up to 2^32 |
| Elf.PlacesExactly | library/src/main/cpp/elf_exec.cpp:244-247 | So do those on the table and the entry point: inside the file, inside a file part, inside executable bytes |
| Elf.NulEnds | library/src/main/cpp/elf_exec.cpp:279-279 | The interpreter's path is what stands before the first NUL |
| Elf.InterpOkExactly | library/src/main/cpp/elf_exec.cpp:263-278 | The entry is accepted if and only if it covers a text of the file that is not empty and at most 4095 bytes long, and the NUL behind it |
| ElfMap.RoundedDifference | library/src/main/cpp/elf_exec.cpp:152-155 | Rounding a difference up modulo 2^64 is right even when the mapping lies below the first page |
| ElfMap.ReservationFits | library/src/main/cpp/elf_exec.cpp:135-164 | The image fits the reservation, the bias is a multiple of the largest alignment, and every linked address plus bias is its place in the image |
| ElfMap.AlignmentKept | library/src/main/cpp/elf_exec.cpp:152-170 | Every segment lies at an address congruent to its file offset, modulo the page and modulo its own alignment |
| ElfMap.FixedPlace | library/src/main/cpp/elf_exec.cpp:135-151 | A program that cannot be moved takes exactly its own pages, and every address is its linked one |
| ElfMap.SegmentPlace | library/src/main/cpp/elf_exec.cpp:169-177 | The page bounds computed for a segment are its linked ones moved by the bias |
| ElfMap.ImageFromParts | library/src/main/cpp/elf_exec.cpp:178-205 | File mapping, anonymous pages and zero fill together make the pages of the segment |
| ElfMap.OneMoreSegment | library/src/main/cpp/elf_exec.cpp:165-206 | Mapping a segment replaces its pages in the image and keeps all others |
| ElfMap.BuiltIsExpected | library/src/main/cpp/elf_exec.cpp:165-206 | A segment keeps its file bytes and zeros exactly where no later one has the page |
| ElfMap.SegmentBytes | library/src/main/cpp/elf_exec.cpp:165-206 | Such a segment is, byte by byte, its part of the file and then zeros |
| ElfMap.ContentKnown | library/src/main/cpp/elf_exec.cpp:178-205 | No byte of a segment's pages is anything but zero or the byte of the file at its distance from the start |
| ElfMap.ApartExactly | library/src/main/cpp/elf_exec.cpp:165-206 | Segments leave each other alone if and only if no byte of the one lies on a page of the other |
| ElfMap.TableIsMapped | library/src/main/cpp/elf_exec.cpp:309-315 | The bytes mapped at the kept address are the program header table |
| ElfMap.Process.Trim | library/src/main/cpp/elf_exec.cpp:157-163 | Exactly the image's range survives the two trims |
| ElfMap.Process.MapSegment | library/src/main/cpp/elf_exec.cpp:169-205 | One segment: every byte of its pages, of the file or zero, and nothing outside its pages |
| ElfMap.Process.MapSegments | library/src/main/cpp/elf_exec.cpp:165-206 | Every byte of the image is the one the last segment on its page calls for |
| ElfMap.Process.MapExecutable | library/src/main/cpp/elf_exec.cpp:135-206 | It succeeds if and only if the kernel maps the reservation where it can be used and refuses no part of the image; then every byte of the image is the one the last segment on its page calls for, and byte bias+vaddr+k of a segment that no later one overlaps is file[offset+k], or zero beyond the file size; success or not, nothing outside the image has changed |
| StackImage.ImageUnique | library/src/main/cpp/elf_exec.cpp:332-361 | What a program finds on its stack is determined by its memory |
| StackImage.ImageMoved | library/src/main/cpp/elf_exec.cpp:373-425 | Copying all but the vector and writing the vector anew moves the image |
| StackImage.EntriesWritten | library/src/main/cpp/elf_exec.cpp:420-421 | The bytes of a vector read back as its entries |
| StackImage.RewritingTerminates | library/src/main/cpp/elf_exec.cpp:379-419 | The rewritten vector ends where the old one did |
| StackImage.RoomForName | library/src/main/cpp/elf_exec.cpp:373-374 | The name and its NUL fit between the moved copy and the end of the old one, with less than 16 bytes to spare, and the alignment is kept |
| StackImage.Tracee.ReadEnvironment | library/src/main/cpp/elf_exec.cpp:339-349 | The loop finds the pointers up to the first null one; without a failing read it gives up exactly after 2^20 + 1 others |
| StackImage.Tracee.ReadVector | library/src/main/cpp/elf_exec.cpp:350-361 | The loop finds the entries up to AT_NULL; without a failing read it gives up exactly after 129 others |
| StackImage.Tracee.ReadImage | library/src/main/cpp/elf_exec.cpp:332-361 | Together they find the image the kernel laid out, and where it ends; a refusal comes from a failing read or from a count over the limits |
| StackImage.Tracee.RewriteVector | library/src/main/cpp/elf_exec.cpp:379-419 | Every entry is rewritten as specified, in place |
| StackImage.Tracee.CopyDown | library/src/main/cpp/elf_exec.cpp:420-431 | The new image, the string behind it and the thread name are in place; success or not, nothing outside has changed |
| StackImage.Tracee.Renew | library/src/main/cpp/elf_exec.cpp:373-431 | For every name, success keeps argc, argv, envp and all vector entries but the rewritten ones at a stack pointer equally aligned, with AT_EXECFN naming the string; nothing at or above the old end is written |
| StackImage.ThreadNameExactly | library/src/main/cpp/elf_exec.cpp:427-428 | The thread is named by what follows the last slash, cut to 15 bytes |
| StackImage.ImageCopied | library/src/main/cpp/elf_exec.cpp:373-378 | An image is found wherever its bytes are |
| Launch.Linked | library/src/main/cpp/elf_exec.cpp:305-316 | The entry point and the whole program header table have addresses between the first page and the end |
| Launch.VectorTellsWho | library/src/main/cpp/elf_exec.cpp:379-419 | The four ids, AT_SECURE (0 exactly if they agree), AT_PHENT, AT_PHNUM and AT_EXECFN are the program's own, and no other entry changes but the three below |
| Launch.VectorTellsPlaces | library/src/main/cpp/elf_exec.cpp:395-415 | AT_PHDR is where the mapped image holds the program header table, AT_ENTRY where it holds the entry point, and AT_BASE the distance by which the interpreter was moved |
| Launch.LeaveName | library/src/main/cpp/elf_exec.cpp:122-133 | The name of the file is left below the stack pointer; the image on the stack and all else stay |
| Launch.MapProgram | library/src/main/cpp/elf_exec.cpp:362-371 | The program is mapped aside of the stack; what was mapped before stays, and so does the image on the stack |
| Launch.InitializeElfExecutable | library/src/main/cpp/elf_exec.cpp:325-445 | As a whole: on success the program finds its old arguments and environment and a vector whose every entry is true of who runs it, what it is called and, under an interpreter, where it was mapped; no other byte that was mapped has changed |
| Credentials.PrivilegeNeverRegained | library/src/main/cpp/ptrace_engine.cpp:1861-2017 | Once no_new_privs is set and no user id is root, in every run of calls, execs and clones all descendants keep within the initial ids and groups |
| Credentials.ConfinedExactly | library/src/main/cpp/ptrace_engine.cpp:1861-2017 | That condition holds if and only if no call and no exec makes the identity root |
| Credentials.DroppingIsPermanent | library/src/main/cpp/ptrace_engine.cpp:1880-1895 | setuid by root leaves no other id in any of the four user ids, and under no_new_privs a confined identity |
| Credentials.DroppedForGood | library/src/main/cpp/ptrace_engine.cpp:1861-2017 | So after such a call no descendant is ever root again, in any run |
| Credentials.GroupDroppingIsPermanent | library/src/main/cpp/ptrace_engine.cpp:1896-1911 | setgid by root leaves no other id in any of the four group ids, and touches no user id |
| Credentials.OthersSetOne | library/src/main/cpp/ptrace_engine.cpp:1887-1892 | setuid and setgid by others set the effective id alone, to the real or the saved one, or nothing |
| Credentials.TemporaryDrop | library/src/main/cpp/ptrace_engine.cpp:1912-1941 | After an id was dropped with the saved id kept, setuid to the saved id restores it |
| Credentials.ThreeAsAsked | library/src/main/cpp/ptrace_engine.cpp:1929-1941 | A successful setresuid leaves in each id what was asked for, or what was there for -1; it does nothing exactly if an id is asked for that the caller does not have |
| Credentials.ThreeGroupsAsAsked | library/src/main/cpp/ptrace_engine.cpp:1942-1971 | setresgid likewise |
| Credentials.TwoAsAsked | library/src/main/cpp/ptrace_engine.cpp:1912-1928 | setreuid and setregid likewise; the saved id follows the effective one unless nothing was asked for |
| Credentials.FsAsAsked | library/src/main/cpp/ptrace_engine.cpp:1972-1993 | setfsuid and setfsgid change only the file-system id, to one the caller has, and answer with the old one |
| Credentials.GroupsAreRoots | library/src/main/cpp/ptrace_engine.cpp:1994-2014 | Only root's setgroups changes the supplementary groups, to those asked for, and nothing clears no_new_privs |
| Credentials.ExecAsMarked | library/src/main/cpp/ptrace_engine.cpp:2480-2500 | exec takes over the owner and group of a file exactly as its set-id bits say, unless no_new_privs forbids it |
| Credentials.EventStaysWithin | library/src/main/cpp/ptrace_engine.cpp:3994-4050 | One event of any tracee keeps every descendant within |
| Credentials.Tracee.HandleSetUid | library/src/main/cpp/ptrace_engine.cpp:1880-1895 | setuid, with its result, as specified |
| Credentials.Tracee.HandleSetGid | library/src/main/cpp/ptrace_engine.cpp:1896-1911 | setgid likewise |
| Credentials.Tracee.HandleSetResUid | library/src/main/cpp/ptrace_engine.cpp:1912-1941 | setreuid and setresuid likewise |
| Credentials.Tracee.HandleSetResGid | library/src/main/cpp/ptrace_engine.cpp:1942-1971 | setregid and setresgid likewise |
| Credentials.Tracee.HandleSetFsUid | library/src/main/cpp/ptrace_engine.cpp:1972-1982 | setfsuid likewise |
| Credentials.Tracee.HandleSetFsGid | library/src/main/cpp/ptrace_engine.cpp:1983-1993 | setfsgid likewise |
| Credentials.Tracee.HandleSetGroups | library/src/main/cpp/ptrace_engine.cpp:1994-2014 | setgroups with its three errors |
| Credentials.Tracee.ApplyExecCredentialTransition | library/src/main/cpp/ptrace_engine.cpp:2480-2500 | The identity after exec |
| Stops.EveryCallHandledOnce | library/src/main/cpp/ptrace_engine.cpp:3819-3989 | In every run, a traced call gets its entry handling once and its exit handling once, with its own answer and after at most one repetition, if and only if it is not given up, that is, not trapped right after a repeated call that was executed under its number; then it gets neither |
| Stops.RunStaysQuiet | library/src/main/cpp/ptrace_engine.cpp:3819-3989 | Between calls the tracer expects an entry and holds no answer, and remembers a repetition exactly as long as it may mistake the next call for it |
| Stops.SecondCallGivenUp | library/src/main/cpp/ptrace_engine.cpp:3409-3413 | A run that fails: the same call made and trapped twice in a row |
| Stops.CallHandledOnce | library/src/main/cpp/ptrace_engine.cpp:3819-3989 | One call, from any state between calls: handled once if and only if it is not mistaken for the repetition of the call before |
| Stops.FirstExecution | library/src/main/cpp/ptrace_engine.cpp:3860-3902 | An execution without requested syscall stops is handled, or trapped and repeated, or given up, exactly when mistaken for a repetition |
| Stops.SecondExecution | library/src/main/cpp/ptrace_engine.cpp:3400-3429 | A repeated execution is handled once and never repeated again |
| Stops.RepeatedAgainExactly | library/src/main/cpp/ptrace_engine.cpp:3400-3429 | A repeated execution is repeated once more if and only if its first stop is the trap, as on kernels before 4.8, where seccomp runs ahead of the syscall stop |
| Stops.UnannouncedTrapRepeats | library/src/main/cpp/ptrace_engine.cpp:3409-3413 | There the bound fails: a call trapped with no stop before it is repeated for ever |
| Stops.StopsAreAskedFor | library/src/main/cpp/ptrace_engine.cpp:3387-3397 | The entry and exit stops of a call come only when the tracer has asked for them; it asks between the stops of an execution except before a trap, and after it only to repeat the call |
| Stops.Tracee.OnStop | library/src/main/cpp/ptrace_engine.cpp:3819-3989 | The branches of the stop loop compute the specified transition |
| Newborns.EveryBirthStartsOnce | library/src/main/cpp/ptrace_engine.cpp:3748-4032 | In every run and either order of reports, each child is resumed for the first time once, with the state its parent had at the fork, or is still waiting |
| Newborns.EventKeeps | library/src/main/cpp/ptrace_engine.cpp:3748-4032 | Every event keeps that no tracee runs without a state, and where each first stop is kept |
| Newborns.EventConserves | library/src/main/cpp/ptrace_engine.cpp:3793-3798 | One event brings in, keeps or resumes exactly the children it should |
| Newborns.WaitingIsServed | library/src/main/cpp/ptrace_engine.cpp:3751-3757 | While a child has not started, its stop, its parent's event or a ready stop is due |
| Newborns.FirstOk | library/src/main/cpp/ptrace_engine.cpp:3728-3741 | The first tracee is running with the initial state |
| Newborns.Tracer.ServeAll | library/src/main/cpp/ptrace_engine.cpp:3748-4032 | Driven through any events that can happen, the tracer's tables are those of the run, so its births are its first resumptions and those still waiting |
| Newborns.Tracer.Serve | library/src/main/cpp/ptrace_engine.cpp:3748-4032 | Each event takes the tracer's tables where the run relation takes them |
| Newborns.Tracer.Take | library/src/main/cpp/ptrace_engine.cpp:3751-3757 | A ready stop is taken exactly if one is due; it is a held first stop, and its tracee then runs with the state it inherits |
| Newborns.Tracer.OnStop | library/src/main/cpp/ptrace_engine.cpp:3793-3798 | A tracee is resumed at its first stop exactly if it runs from then on in the run, with the state it inherits; else the stop is kept for its parent's event |
| Newborns.Tracer.OnCloneEvent | library/src/main/cpp/ptrace_engine.cpp:3994-4032 | The child has the state it inherits in the run, and its stop, if put aside, is ready |
| FilePolicy.OwnershipIntegrity | library/src/main/cpp/filesystem/virtual_filesystem.cpp:343-579 | Steps that respect the owners of existing files, however many, leave each with its uid, and one owned by none of the callers changes at most by losing its set-id bits |
| FilePolicy.WithoutBit | library/src/main/cpp/filesystem/virtual_filesystem.cpp:446-446 | A bit survives a mask exactly when it was set and is not masked |
| FilePolicy.ClearedTwice | library/src/main/cpp/filesystem/virtual_filesystem.cpp:422-423 | Clearing the set-id bits clears both, and again changes nothing |
| FilePolicy.OthersByClass | library/src/main/cpp/filesystem/virtual_filesystem.cpp:73-82 | A caller other than root is granted a mask if and only if each bit asked for is set in the class that decides: the owner's, the group's or the others' |
| FilePolicy.RootByExecute | library/src/main/cpp/filesystem/virtual_filesystem.cpp:73-82 | Root is granted everything but the execution of a file that nobody may execute |
| FilePolicy.StrangersRefused | library/src/main/cpp/filesystem/virtual_filesystem.cpp:73-82 | A caller who is neither owner nor in the group is refused everything on a file that has no bits for others |
| FilePolicy.StickyExactly | library/src/main/cpp/filesystem/virtual_filesystem.cpp:110-115 | The sticky rule forbids exactly those who own neither the directory nor the file |
| FilePolicy.WidenedBits | library/src/main/cpp/ownership/ownership_store.cpp:379-384 | The host mode has the bits on record, the owner's read and write bits, the search bit too for a directory, and no others |
| FilePolicy.ChownEntitled | library/src/main/cpp/filesystem/virtual_filesystem.cpp:351-361 | A permitted chown by other than root keeps the uid, joins only the caller's groups and leaves no set-id file |
| FilePolicy.ChownRefusedExactly | library/src/main/cpp/filesystem/virtual_filesystem.cpp:351-356 | chown is refused exactly to those who are not root and either not the owner, or ask for another owner or a group they are not in |
| FilePolicy.ChownSets | library/src/main/cpp/filesystem/virtual_filesystem.cpp:357-361 | A permitted chown sets the ids asked for and keeps those at -1; set-id bits go unless the file is a directory or nothing was asked |
| FilePolicy.ChmodEntitled | library/src/main/cpp/filesystem/virtual_filesystem.cpp:373-383 | chmod keeps owner and kind, takes the asked bits, and drops set-gid for a group the caller is not in |
| FilePolicy.NewFileEntitled | library/src/main/cpp/filesystem/virtual_filesystem.cpp:443-448 | A file made by open belongs to its maker, to a group given by directory or maker, has exactly the asked unmasked bits, and is set-gid only to a group of the maker's |
| FilePolicy.NewNodeEntitled | library/src/main/cpp/filesystem/virtual_filesystem.cpp:480-492 | What mkdir, mknod and symlink make belongs to its maker and the right group, has exactly the unmasked bits, and a directory inherits set-gid |
| FilePolicy.OpenEndsSetId | library/src/main/cpp/filesystem/virtual_filesystem.cpp:416-427 | An open for writing by other than root ends the two set-id bits; no open changes anything else of an existing record |
| FilePolicy.OpenAsks | library/src/main/cpp/filesystem/virtual_filesystem.cpp:411-415 | The access mode decides which permissions an open needs, and truncation needs writing too |
| FilePolicy.PathOnly | library/src/main/cpp/filesystem/virtual_filesystem.cpp:406-415 | An O_PATH open reads, writes, makes and truncates nothing |
| FilePolicy.GrantedExactly | library/src/main/cpp/filesystem/virtual_filesystem.cpp:532-550 | Times are set by root and the owner, and to the present by whoever may write; faccessat grants exactly the bits of the caller's class |
| FilePolicy.FinishedSays | library/src/main/cpp/filesystem/virtual_filesystem.cpp:561-576 | The record made at the exit stop has the maker's owner, group and bits and the identity of the file found |
| FilePolicy.LinkRefusedExactly | library/src/main/cpp/filesystem/virtual_filesystem.cpp:512-515 | Linking is refused exactly for another's file that is no regular one, has a set-id bit or may not be read and written |
| FilePolicy.Filesystem.Owner | library/src/main/cpp/filesystem/virtual_filesystem.cpp:57-66 | A record is kept, or imported as stat reports the file |
| FilePolicy.Filesystem.Search | library/src/main/cpp/filesystem/virtual_filesystem.cpp:82-100 | Success means search permission on every directory above, and the first that is none or may not be searched gives the error |
| FilePolicy.Filesystem.Parent | library/src/main/cpp/filesystem/virtual_filesystem.cpp:101-109 | Success means the directory may be written and searched, and a refusal that it may not |
| FilePolicy.Filesystem.Chown | library/src/main/cpp/filesystem/virtual_filesystem.cpp:344-369 | chown answers success only if permitted and then the record is as specified; it answers EPERM only if not permitted, and then changes no record |
| FilePolicy.Filesystem.Chmod | library/src/main/cpp/filesystem/virtual_filesystem.cpp:370-395 | chmod likewise, links and foreign files excluded |
| FilePolicy.Filesystem.OpenOld | library/src/main/cpp/filesystem/virtual_filesystem.cpp:416-427 | An existing file opens exactly with permission, and writing ends its set-id bits |
| FilePolicy.Filesystem.OpenNew | library/src/main/cpp/filesystem/virtual_filesystem.cpp:430-459 | A missing file is made in a writable directory with the specified record, or the one that won the race is checked; the error is the store's but for that |
| FilePolicy.Filesystem.Open | library/src/main/cpp/filesystem/virtual_filesystem.cpp:406-473 | open as a whole: what success means in each case, which flags the kernel then gets, and that other callers' records are respected |
| FilePolicy.Filesystem.Make | library/src/main/cpp/filesystem/virtual_filesystem.cpp:474-501 | mkdir, mknod and symlink make a record only for a name that was free, in a writable directory, and are refused otherwise with the error of that reason |
| FilePolicy.Filesystem.Remove | library/src/main/cpp/filesystem/virtual_filesystem.cpp:502-511 | unlink is left to the kernel exactly with a writable directory and the sticky rule obeyed |
| FilePolicy.Filesystem.Move | library/src/main/cpp/filesystem/virtual_filesystem.cpp:502-531 | rename and link likewise, on both sides: both directories writable, the sticky rule for the file moved and the one replaced, and the rule for linking foreign files |
| FilePolicy.Filesystem.Use | library/src/main/cpp/filesystem/virtual_filesystem.cpp:532-550 | faccessat is answered, and utimensat and other accesses are left to the kernel, exactly as permitted; each refusal has the error of its reason |
| FilePolicy.Filesystem.Finish | library/src/main/cpp/filesystem/virtual_filesystem.cpp:551-579 | Whatever file the descriptor or path names at the exit stop is recorded as was prepared; existing files are respected if it is new or the caller's own |
| FilePolicy.FinishRespects | library/src/main/cpp/filesystem/virtual_filesystem.cpp:561-576 | That condition is exact: it respects the owners of existing files if and only if the file is new, without a record, or the caller's |
| FilePolicy.FinishTakesOver | library/src/main/cpp/filesystem/virtual_filesystem.cpp:561-576 | An existing file of root that the descriptor names by then becomes the caller's |
| FilePolicy.Filesystem.ServeAll | library/src/main/cpp/filesystem/virtual_filesystem.cpp:131-579 | Any sequence of calls by callers other than root has the integrity property, as long as every exit stop finds a file that satisfies the condition |

## Left out

- Overflow of the 64-bit counters `version` and `sequence`: the version is unbounded, and writers require a sequence number below 2^64.
- The C++ memory model: loads and stores are sequentially consistent. The `failed` flag and I/O errors during recovery are not modelled; a missing journal reads as empty.
- Power loss before the journal file's directory entry exists; an unsynced tail survives as a prefix of its bytes.
- Runs.RunRecovers: a run begins where no older snapshot can come back, such as with an empty store.
- Store.OwnershipStore.Open: of PrepareUser only the records it sets.
- Seqlock.LookupsAreAtomic: recovery's stores are arbitrary stores of single fields as long as the finished table is the committed map; a reader's Lock and Unlock are steps of the writer.
- Import.Scanner.Scan: listing what is on record as a directory fails unless it is one; a symbolic link to a directory would be followed. No file is added or removed during a scan; creations come between startups.
- Startups.Startups: power cuts are events of the store only; what the host's file system then loses of modes and directories is not modelled. The same holds of Publish.Serve.
- Publish.Creator.Create: the kernel gives the item an inode that no visible path names.
- ProcessTable.Table.RegisterProcess: the start time read from /proc is a parameter.
- Identify, SetPath and the terminal table of the store; terminal ownership; closing of inherited descriptors.
- Walk.ResolveVirtualSymlinks: runs without /proc passthrough and without per-process states; readlink is a fixed function of the components, without the kernel's limit on its length.
- EmulatedRoot.ViewThenMeaning: the roots given to pivot_root are absolute without a trailing slash; the original does not normalise them.
- The rewriting of single paths such as the hostname file, and of dirfd-relative paths outside the working directory.
- Elf.OpenElfExecutable: reads of the file do not fail, and the error number is not part of the result; the page size is any power of two up to 2^16.
- ElfMap.Process.MapExecutable: page protections, and the descriptor's open and close.
- Launch.InitializeElfExecutable: the final prctl, mprotect and register writes appear as an error or none. The stack pointer lies above the room the name needs, and the kernel does not map the program over the stack.
- Credentials.PrivilegeNeverRegained: the getters, capset and the published identity are not modelled.
- Stops.EveryCallHandledOnce: the direction of a syscall stop is known, and a call brings one of the listed stop sequences; exec and exit events and the handling of openat2 retries are not modelled.
- Newborns.EveryBirthStartsOnce: tracees that are killed before they run, or at their clone event, and exec events are not modelled; the inherited state stands for its credentials.
- FilePolicy.Filesystem.ServeAll: each call is atomic, so the lost updates that an unconditional Set can cause are outside; terminals, bound and connected sockets on entry and files outside the rootfs are not modelled. Error numbers of failed lookups are EIO.
- Netlink, ioctl, mount tables, shadow locks, resource limits, crash logging, archive extraction, user setup, JNI and the user interface.
