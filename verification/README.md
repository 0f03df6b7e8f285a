# QuackFS differential storage, verified

QuackFS never stores a file flat. A file is a log of chunks, each mapping a range of the file to a
range of a layer; committed layers are immutable (rows in PostgreSQL, one object per layer in S3) and
one mutable active layer per file lives in memory. Writes append chunks, reads overlay the chunks that
meet a window, checkpoints move the active layer to the tables and the object store, and a head pins a
file to an old version. This project models that engine and proves that, through any run of writes,
checkpoints, failures, crashes, head moves and WAL removals, it behaves like flat byte sequences with
frozen versions, and exactly when the shipped code does not.

Check everything with `dafny verify dfyconfig.toml`.

## How it is put together

- `FlatFile` is the reference: one byte sequence per file, gaps past the end read as zero
  (POSIX.1-2017, System Interfaces, `lseek()`).
- `Overlay` is the meaning of a chunk log: the newest piece covering a position wins.
- `Layers` is the active layer and the write to it; `Tables` the metadata tables, their queries and the
  object store; `Reads` the read; `Ranges` the text of an int8range; `WalNames` the WAL file names.
- `Machine` is the whole system as a state machine. A checkpoint is split into its steps (head check
  and version, put object, layer row, chunk rows, commit, drop of the memtable entry), a WAL removal
  into its steps, and every outside call may fail, a commit also by losing its acknowledgement. Head
  moves may fall between any two steps, as the second process makes them.
- `TimeTravel`, `Isolation`, `Atomicity`, `Coverage`, `Pinning` and `ObjectKeys` hold for every run of
  the shipped code, whatever is written, lost or crashed: committed layers never change, files do not
  touch each other, only writes and crashes change contents, chunks leave no holes, a pinned file is
  read-only, and keys are made of their layer's own names and ids.
- `Stored` names what is stored for one file. `Refinement` relates it to the file's history of accepted
  writes, file by file: `RefinesAt(s, g, f)` says that file `f` refines its history, whatever state the
  others are in, and it does so along a run exactly when each write to `f` is safe.
- `Consequences` (reads, sizes, flushing), `Recovery` (crashes and restarts), `Versions` (from a commit to
  a read of it), `CheckpointRun` and `WalRemoval` draw the results for callers. Whatever no longer depends
  on the refinement once it is committed holds over every run after that.
- `Answers` says what the operations answer, in full: for every state, argument and failure, which answer
  comes and when, so that nothing is refused for any other reason.
- `EmptyWrites` and `Defects` say what the shipped formulas break and when; `Examples` are runs from the
  empty system that end in a read of the wrong bytes.
- `Manager` is the storage manager as a class with a memtable of mutable layers, and the WAL manager
  over it; each method is proved against the functions of `Machine` and `Reads`.

The functions take a `Rule`. `Shipped` is the code as it stands and is what `Manager` runs. `Documented`
replaces two formulas by what the code's own comments and tests say; with it every run of non-empty
writes refines flat files (`Refinement.DocumentedRefines`), and each file for itself exactly as long as no
empty write to it is accepted (`Refinement.DocumentedExact`), so every such run is also an instance of the
results that start from `RefinesAt`.

## Where the code departs from its documentation

The model follows the code. The theorems named say when each point shows.

- The gap chunk takes its layer offset from the last chunk's file range (internal/storage/storage.go:96)
  though the zeroes go to the end of the data. Where the two differ, the layer as it then stands has
  overlapping layer ranges or a chunk past its data (`Defects.BrokenGap`). Later writes can make the
  ranges disjoint and complete again, so that the layer is flushed and read without an error but gives
  wrong bytes (`Examples.SilentCorruptionRun`); they never repair it while it is in memory
  (`Defects.UntiledForever`), but a crash before its commit does (`Recovery.CrashRecovers`).
- With a non-empty active layer the size ignores committed chunks (internal/storage/storage.go:332-340),
  against the comment above it. The size is right exactly in the cases of `Refinement.SizeExact`; a write
  starting past a size that is too small paints zeroes over committed bytes (`Examples.ShrinkRun`).
- Both together: a write is the flat write if and only if `Layers.SafeWrite` holds
  (`Layers.WriteExact`), and a file refines its history throughout a run if and only if each write to that
  file is safe when its turn comes (`Refinement.FileRunExact`).
- A read that meets no chunk at an offset above 0, such as a read at the end of the file, subtracts
  below zero for its buffer length and panics (internal/storage/storage.go:241); a flushed chunk of one
  byte cannot be fetched, because its inclusive range `[n,n]` is refused
  (internal/storage/object/s3store.go:47). `Consequences.LatestReadAnswers` gives both conditions. So a
  checkpoint can change what a read answers; `Consequences.FlushInvisibleExact` says for which reads.
- An empty write makes an empty range. Once committed it makes the size NULL for good, and every later
  write to the file fails while nothing is in memory (`EmptyWrites.EmptyRangePoisons`). The size is
  unknown after a run exactly when an accepted empty write was committed (`EmptyWrites.SizeKnownExact`).
- Tags are not unique (db/schema.sql:12) but a head is resolved by tag at every read. Resolution stays
  unambiguous exactly when each committed tag was unused for its file (`TimeTravel.CommitTagExact`).
- WriteFile and ReadFile take any failure of the head query for "no head", so a write to a pinned file
  gets through exactly when that query fails (`Pinning.PinnedWriteExact`), and a read of one then answers
  from the latest contents instead of the pinned version (`Consequences.HeadFaultRead`).
- A checkpoint looks for a head only before it starts (internal/storage/storage.go:395-403). When a second
  process pins the file between two later steps, the version in flight is still committed and the
  unflushed data leaves the memtable; the contents stay as they were, and nothing else is added
  (`Pinning.PinUnpin`).
- The object key column holds 255 characters (db/schema.sql:23), so the checkpoint of a file with a
  longer key fails every time (`ObjectKeys.LayerKeyExact`).

## Model

| member | source | states |
|---|---|---|
| Layers.WriteExact | internal/storage/storage.go:81-127 | under either rule, for every offset and data, appending to a tiled layer keeps it tiled and makes the file the flat write if and only if the data is not empty and no gap is needed, or the gap chunk starts where its zeroes go and only zero bytes are painted over |
| Layers.AppendTiledIff | internal/storage/storage.go:111-127 | an appended chunk keeps the layer ranges consecutive from 0 to the data's length exactly when it is not empty and starts where the data ends |
| Layers.TiledChunksDisjoint | db/schema.sql:35-36 | chunks of a tiled layer have pairwise disjoint layer ranges, as the EXCLUDE constraint asks |
| Layers.GapThenWriteExact | internal/storage/storage.go:87-127 | zero-filling and then writing equals the one flat write exactly when the zero-fill met only zeroes |
| Coverage.NoHolesEver | internal/storage/storage.go:87-109 | after any run, unsafe and empty writes, lost commits and crashes included, every position below the highest end of a file's latest contents, or of any of its versions, is in the file range of some chunk |
| Coverage.VersionContiguous | internal/storage/storage.go:206-228 | in the latest contents and in every version each chunk starts within what the older ones reach |
| Coverage.ReadLengthEver | internal/storage/storage.go:234-302 | after any run and whatever fails, a read that answers has min(size, highest end - offset) bytes, and none from that end on |
| Overlay.AppendIsWrite | internal/storage/storage.go:318-329 | appending a chunk that starts within the file makes the overlay exactly the flat write of its bytes |
| Overlay.SuffixIdempotent | internal/storage/storage.go:439-445 | chunks overlaid a second time, as after a commit whose acknowledgement was lost, change no byte |
| Tables.FileRowsIn | db/queries/chunks.sql:31-45 | the versioned chunk query selects precisely the rows of the file's layers up to the bound |
| Tables.FileRowsExact | db/queries/chunks.sql:31-45 | each qualifying row comes exactly once, ordered by layer id and within a layer by chunk id |
| Tables.SqlOverlapExact | db/queries/chunks.sql:42-43 | two ranges overlap for the chunk query exactly if they have a position in common, so an empty one overlaps nothing |
| Tables.ObjectKeyVersion | internal/storage/storage.go:417 | keys of distinct versions differ whatever the file names contain |
| Reads.TouchingByte | internal/storage/metadata/metadata.go:374-396 | overlaying only the chunks that overlap the window gives every byte of the window that overlaying all of them gives |
| Reads.TouchingEnd | internal/storage/storage.go:234-241 | the largest end among the overlapping chunks reaches the end of the window or of the file, and some chunk overlaps a non-empty window exactly when it starts inside the file |
| Reads.TouchingWindow | internal/storage/storage.go:234-283 | so the cut of the overlapping chunks has exactly the window's bytes and length |
| Reads.ReadExact | internal/storage/storage.go:166-302 | a fault-free read of sound state, for every window ending below 2^63: the flat window, or a panic when nothing overlaps above offset 0, or an error when a one-byte flushed chunk overlaps |
| Reads.ReadUnderFaults | internal/storage/storage.go:216-302 | the answer of a read of sound state for every window and every set of failing calls: error, panic or the flat window, each exactly when |
| Machine.StepIntact | internal/storage/storage.go:360-450 | every step, with any write and any failure, keeps ids fresh, keys unique, heads from dangling, chunk rows attached and both ranges of each chunk equally long |
| Machine.RunIntact | internal/storage/storage.go:34-592 | and so does every run |
| ObjectKeys.LayerKeyExact | db/schema.sql:17-24 | in every run a layer's key is made of its own file's name and id and its version's id, and has at most 255 characters; so a file with a name longer than 244 never gets a layer |
| ObjectKeys.KeyExact | internal/storage/storage.go:417 | a key is "layers/", the name, and the file and version ids as decimals without leading zeroes |
| Machine.FreshKey | internal/storage/storage.go:411-419 | the object of a new version never overwrites one that is there |
| TimeTravel.StepGrown | internal/storage/storage.go:411-445 | no step changes a committed layer, its rows, its object or its tag, and new layers get larger ids |
| TimeTravel.RunGrown | internal/storage/storage.go:411-445 | and no run does |
| TimeTravel.PinnedReadFrozen | internal/storage/storage.go:206-228 | a read below a committed version gives the same answer in every later state |
| TimeTravel.TimeTravelStable | internal/storage/storage.go:206-228 | over every run with fresh tags, a committed version's tag resolves to its own layer and the read below it never changes |
| TimeTravel.CommitTagExact | db/queries/snapshot_layers.sql:32-44 | after a commit tags are unambiguous within the file exactly when the committed tag was unused |
| TimeTravel.RunTags | internal/storage/wal/wal.go:230 | fresh tags at every checkpoint keep tags unambiguous over whole runs |
| Refinement.FileStepExact | internal/storage/storage.go:50-450 | for one file, whatever state the others are in, one step keeps its refinement exactly when the step is safe for that file, for every kind of step |
| Refinement.FileRunExact | internal/storage/storage.go:50-450 | from the empty system, a file refines its history in all states of a run if and only if each accepted write to that file is safe when its turn comes; writes to other files do not matter |
| Refinement.StepExact | internal/storage/storage.go:50-450 | for all files together, one step refines one step of the flat files exactly when it is safe |
| Refinement.RunExact | internal/storage/storage.go:50-450 | for all files together, all states of a run refine flat files if and only if each write is safe when its turn comes |
| Refinement.DocumentedExact | internal/storage/storage.go:318-330 | with the documented size and gap formulas a file refines its history along a run exactly when no empty write to it is accepted |
| Refinement.DocumentedRefines | internal/storage/storage.go:318-330 | with the documented size and gap formulas every run of non-empty writes refines flat files |
| Refinement.SizeExact | internal/storage/storage.go:330-357 | the size never exceeds the file's length, and as shipped equals it exactly when the active layer is empty or reaches as far as the committed chunks |
| Refinement.CommittedSize | db/queries/chunks.sql:1-12 | with sound rows the size query answers the end of the committed pieces |
| Refinement.CommitRefines | internal/storage/storage.go:411-445 | a commit, acknowledged or not, makes all accepted writes of its file durable and records its latest contents as the new version |
| Refinement.CrashRefines | internal/storage/storage.go:34-47 | a crash at any step forgets exactly the writes that were not durable, and the file goes on refining |
| Recovery.CrashExact | internal/storage/storage.go:34-47 | after a crash a file refines its durable history if and only if what was committed of it stood for that history, whatever was in memory |
| Recovery.CrashRecovers | internal/storage/storage.go:34-47 | a file that was well and is then broken by any writes refines its durable history again after a crash, if nothing of it was committed in between |
| Recovery.CrashLatest | internal/storage/storage.go:34-47 | in every intact state the contents after a restart are those of the file's last version, or none |
| Recovery.RestartIsLastCommit | internal/storage/storage.go:34-47 | over every run after a commit with no later commit of the file, unsafe and empty writes included, the contents after a restart are the latest ones at that commit |
| Consequences.LatestRead | internal/storage/storage.go:166-302 | a read without a head of a file that refines its history, whatever the others do, answers the window of the file made by its accepted writes in order, however they are flushed |
| Consequences.LatestReadAnswers | internal/storage/storage.go:241-283 | the window is returned if and only if it starts inside the file or at 0 and meets no one-byte flushed chunk; an empty one, if and only if it lies at 0 or strictly inside an unflushed chunk |
| Consequences.FaultyReadFile | internal/storage/storage.go:166-302 | whatever fails, a read that answers at all answers what it answers when nothing fails, of the latest contents if it was the head query that failed |
| Consequences.HeadFaultRead | internal/storage/storage.go:206-228 | a read whose head query fails answers exactly as if the file had no head, failures included |
| Answers.LatestAnswers | internal/storage/storage.go:166-302 | for every name, window and failure, what a read answers of a file that refines its history and has no head; with nothing failing it fails only if the window ends at or past 2^63 or meets a one-byte flushed chunk |
| Answers.PinnedAnswers | internal/storage/storage.go:206-302 | the same for a read with a head on a sound version |
| Answers.AcceptedExact | internal/storage/storage.go:50-86 | a write is accepted if and only if the file is known, it has no head or the head query fails, and the size is known: from a non-empty active layer, or from a size query that succeeds over no empty committed range |
| Answers.WriteAnswers | internal/storage/storage.go:50-86 | which refusal each other write gets, leaving every active layer as it was |
| Answers.OtherHeads | internal/storage/storage.go:63-68 | moving the head of another file never changes whether a write is accepted |
| Answers.Writable | internal/storage/storage.go:50-86 | after every run in which no empty write to a file was accepted, a write to it with nothing failing is accepted exactly when the file has no head |
| Answers.Waits | internal/storage/storage.go:360-362 | while a checkpoint is in flight, writes, other checkpoints and the checkpoints of removals leave everything as it is |
| Versions.PinnedRead | internal/storage/storage.go:206-228 | in any intact state with unambiguous tags a read with a head on a sound version answers the window of that version's contents, whatever was written since |
| Versions.RefinesVersions | internal/storage/storage.go:411-445 | all versions of a file that refines its history are sound and hold what was recorded at their commits |
| Versions.SetHeadPins | internal/storage/storage.go:519-527 | setting the head to a committed version's tag makes the file read that version's layer and no other |
| Versions.HeadResolves | internal/storage/storage.go:519-527 | every head names exactly one layer, of the same file, and its tag query can find it |
| Versions.VersionContentsFrozen | internal/storage/storage.go:360-450 | over every run the contents of a committed version stay the same, and a sound version stays sound |
| Consequences.SizeAfterWrite | internal/storage/storage.go:81-127 | a safe write makes the contents max(old length, end of write) long, sets its own bytes and changes no other |
| Consequences.SizeReportedAfterWrite | internal/storage/storage.go:330-357 | after a safe write the size reported is that length exactly when the unflushed chunks, the new one included, reach as far as the committed ones, or the documented formula is used |
| Consequences.NeverExcluded | db/schema.sql:35-36 | for a file that refines its history the EXCLUDE constraint never rejects the chunk a checkpoint inserts |
| Atomicity.CheckpointAtomic | internal/storage/storage.go:360-450 | in every run no checkpoint step, failed or not, changes any file's latest contents; only the commit adds a version, one, with the file's latest contents |
| Atomicity.LatestRun | internal/storage/storage.go:360-592 | over every run without an accepted write to the file and without a crash, its latest contents stay |
| Consequences.CheckpointFlushes | internal/storage/storage.go:405-445 | a checkpoint without failures always goes through, keeps the contents, and leaves the true size |
| Consequences.FlushInvisibleExact | internal/storage/storage.go:234-283 | for every offset and size, a read answers the same before and after a checkpoint without failures if and only if, before it: a non-empty window meets a one-byte flushed chunk already or no one-byte chunk at all; an empty one lies at 0 or strictly inside no unflushed chunk |
| Consequences.FlushSizeExact | internal/storage/storage.go:330-357 | the size reported stays the same over such a checkpoint exactly when the unflushed chunks reached as far as the committed ones, or the documented formula is used |
| Versions.ObjectTiledExact | internal/storage/storage.go:417-437 | over every run after a commit the layer's rows tile its object exactly if and only if the active layer was tiled at the commit |
| Versions.ObjectsTiledRun | internal/storage/storage.go:417-437 | over every run whose writes to the file are safe each of its committed objects has exactly the bytes its chunks tile |
| Versions.CommittedVersionReads | internal/storage/storage.go:166-302 | from a commit of a file that refines its history, through any run whatever with fresh tags, unsafe writes and crashes included, set the head to its tag, and any further such run that leaves the head alone: the tag resolves to that commit's layer, and a read answers the window of the contents at the commit |
| Versions.VersionKept | internal/storage/storage.go:360-450 | over any run with fresh tags a version's tag keeps resolving to its layer alone, with the same contents |
| CheckpointRun.CheckpointSucceeds | internal/storage/storage.go:405-445 | with disjoint chunks and no failure a checkpoint adds one version, one object with the layer's data, one layer and its chunks in order, and drops the entry |
| CheckpointRun.StartExact | internal/storage/storage.go:360-415 | when a checkpoint starts, has nothing to do, or refuses, for every state and failure, and that starting draws one version of the given tag |
| CheckpointRun.FailedStepEnds | internal/storage/storage.go:370-437 | a step whose call fails ends the checkpoint and a removal waiting for it, and keeps the memtable and, but for a lost acknowledgement, the tables |
| CheckpointRun.LongKeyRefused | db/schema.sql:23 | a key of more than 255 characters ends the checkpoint with nothing committed |
| CheckpointRun.OnlyDisjointCommitted | db/schema.sql:35-36 | in every run all chunks of a layer are in only if their layer ranges are disjoint |
| Isolation.StepIsolated | internal/storage/storage.go:405-437 | a step that does not store into a file leaves its latest contents, its size and all its versions as they were, shared counters notwithstanding |
| Isolation.HeadIsolated | db/queries/heads.sql:1-15 | only setting or deleting its own head moves a file's head |
| Pinning.PinnedRun | internal/storage/storage.go:63-68 | while a file is pinned, with no checkpoint of it in flight, writes and checkpoints of it leave no trace, over whole runs |
| Pinning.PinnedAnyRun | internal/storage/storage.go:395-403 | pinned at any moment, a file keeps its latest contents over whole runs, and gains no layer but that of the version in flight at the start |
| Pinning.PinUnpin | internal/storage/storage.go:487-592 | after a pin at any moment, a run, and an unpin, the latest contents are byte for byte what they were, unflushed writes included; every version has its contents; and at most one layer was added, that of a checkpoint of the file in flight at the pin |
| Pinning.PinUnpinStored | internal/storage/storage.go:487-592 | with none in flight nothing stored for the file, committed or in memory, has changed at all |
| Pinning.PinUnpinRead | internal/storage/storage.go:166-302 | and every read of it, for every offset and size and whatever fails, answers after the unpin what it answered before the pin |
| Pinning.PinnedWriteExact | internal/storage/storage.go:63-68 | a write to a pinned file is accepted exactly when its head query fails and the rest succeeds |
| WalRemoval.RemovedOnlyWhenDurable | internal/storage/wal/wal.go:221-244 | over every run, with any writes, failures and crashes between steps, a removal deletes its WAL file only when what its database had in memory at the request is committed: one layer has those chunks at the front of its rows and those bytes at the front of its object, or there were no bytes |
| WalRemoval.RemovedOnlyAfterWrites | internal/storage/wal/wal.go:221-244 | if the database's own writes are safe, all writes it had accepted at the request are then durable, in order, at the front of its history |
| WalRemoval.DeletedWhenCleared | internal/storage/wal/wal.go:237-240 | a WAL file goes only at the end of its own removal, once that removal's checkpoint is over |
| WalRemoval.RemovalFlushes | internal/storage/wal/wal.go:221-244 | a removal in which nothing fails, of a database with unflushed disjoint chunks, leads where its checkpoint leads, with the WAL file deleted |
| WalRemoval.RemovalDeletes | internal/storage/wal/wal.go:221-244 | and one of a database with nothing to flush, or that does not exist, deletes the WAL file and changes nothing else |
| WalRemoval.ClearedExact | internal/storage/wal/wal.go:232-237 | a removal gets to its delete if and only if its checkpoint finds nothing to flush, or committed and drops the memtable entry |
| WalRemoval.CommittedExact | internal/storage/storage.go:439-445 | a checkpoint gets to its drop exactly by a commit whose acknowledgement arrived |
| WalRemoval.FailedCheckpointKeepsWal | internal/storage/wal/wal.go:232-235 | a checkpoint that fails ends the removal with every WAL file in place |
| WalRemoval.NoWriteNoLayer | internal/storage/storage.go:405-409 | once a file's data is out, no checkpoint or removal adds a layer to it over any run without a new write, so a retry after a failed delete adds none |
| WalNames.WalNamesExact | internal/storage/wal/wal.go:42-48 | the name of a WAL file and of its database determine each other, and no database is a WAL file |
| Ranges.RoundTrip | db/types/range.go:15-53 | scanning a printed range yields the same pair exactly for 64-bit bounds |
| Ranges.ScanAccepts | db/types/range.go:20-53 | a text is accepted, with which values, exactly when it is brackets, two 64-bit decimals around one comma, and brackets; "empty" is not |
| Ranges.ValueInjective | db/types/range.go:15-17 | distinct ranges print differently |
| Ranges.ValueExact | db/types/range.go:15-17 | a text is the printed range if and only if it is "[", the start, ",", the end, ")", both decimals without leading zeroes |
| Ranges.ScanLiteral | db/types/range.go:20-53 | every such literal, leading zeroes or not, scans to its bounds if they have 64 bits, and to the error of the first bound that has not |
| Ranges.Scan | db/types/range.go:20-53 | both elements are assigned, or on any error neither |
| Defects.BrokenGap | internal/storage/storage.go:94-108 | right after a gap chunk placed by file offset where that differs from the data's end, two layer ranges overlap or the last chunk reaches past the data |
| Examples.BrokenGapExample | internal/storage/storage.go:94-108 | three writes to a layer that do it |
| Examples.BrokenGapRun | internal/storage/storage.go:94-127 | a run from the empty system with those writes: the gap reads as old bytes of the file and the byte just written as another |
| Examples.PastDataRun | internal/storage/storage.go:94-127 | a run from the empty system after which reading back the last write panics, or answers what the data's buffer happens to have behind it |
| Examples.SilentCorruptionRun | internal/storage/storage.go:94-127 | a run from the empty system in which every write and both checkpoints succeed, and a read of the last five bytes written succeeds with other bytes |
| Defects.UntiledForever | internal/storage/storage.go:94-127 | until it is dropped after a commit or lost in a crash, no run makes a broken layer tiled again, and the file refines no history of writes on the way |
| Defects.ReadYourWrite | internal/storage/storage.go:111-127 | in every state, a read of what was just written, if it answers, answers the bytes the newest chunk's layer range points at, and those written where that range ends with the data |
| Defects.PartitionExact | db/schema.sql:35-36 | a layer with all its chunks within its data satisfies the EXCLUDE constraint if and only if each byte of the data lies in exactly one of its layer ranges |
| Defects.FlushablePartition | internal/storage/storage.go:94-127 | and this holds of every active layer of every run, since layer ranges always add up to the data's length |
| Defects.FetchExact | internal/storage/object/s3store.go:41-65 | a committed chunk is fetched, with its bytes, exactly when it lies in its object and has two bytes or more |
| Examples.ShrinkRun | internal/storage/storage.go:332-340 | a run from the empty system: five committed bytes, an overwrite that shrinks the size, and a write whose zero-fill the read shows in place of two committed bytes |
| EmptyWrites.SizeKnownExact | db/queries/chunks.sql:2-12 | after any run from the empty system the size of a file is unknown if and only if an accepted empty write to it was committed, that is, was still in memory when its layer was |
| EmptyWrites.SizeKnown | db/queries/chunks.sql:2-12 | so the size is known after every run in which no empty write to the file is accepted |
| EmptyWrites.CommitPoisonsExact | internal/storage/storage.go:427-437 | a commit makes the size unknown exactly when it was so before or the layer has an empty chunk |
| EmptyWrites.EmptyWriteExact | internal/storage/storage.go:81-127 | a write gives a layer an empty chunk exactly when it is empty itself |
| EmptyWrites.EmptyWritePoisons | internal/storage/storage.go:50-130 | an accepted empty write, whatever is written after it, makes its file's size unknown for ever once its layer is committed |
| EmptyWrites.EmptyRangePoisons | db/queries/chunks.sql:2-12 | one committed empty range makes the size unknown, and writes to an empty active layer fail, in every later state |
| Manager.StorageManager.constructor | internal/storage/storage.go:33-47 | a manager over any intact storage starts valid, with nothing in memory |
| Manager.StorageManager.CalcSizeOf | internal/storage/storage.go:330-357 | the running maximum is the size the machine uses |
| Manager.StorageManager.WriteFile | internal/storage/storage.go:50-130 | updates the active layer in place to the machine's write, and no other layer |
| Manager.StorageManager.GetChunkData | internal/storage/storage.go:463-485 | the length-checked ranged get |
| Manager.StorageManager.GetAllOverlappingChunks | internal/storage/metadata/metadata.go:345-396 | the loops collect the selected chunks, committed first, active ones only without a bound |
| Manager.StorageManager.CopyChunk | internal/storage/storage.go:260-278 | copying one chunk over the buffer makes it the overlay of one more piece; no subtraction wraps and the guard never drops a chunk |
| Manager.StorageManager.Fill | internal/storage/storage.go:234-283 | the buffer after the loop is the overlay cut to the window, or the first failing fetch decides |
| Manager.SelectionReady | internal/storage/storage.go:243-279 | in every intact state the selected chunks have what the copy loop's arithmetic needs |
| Manager.StorageManager.ReadFile | internal/storage/storage.go:166-302 | answers the machine's read, head and failures included |
| Manager.StorageManager.Checkpoint | internal/storage/storage.go:360-450 | success comes exactly as stated of the state before and of what fails, with the whole active layer in one new version of the given tag or nothing to do; whatever fails it is a run of the steps of that one checkpoint, failure leaves the memtable and, but for a lost acknowledgement, commits nothing |
| Manager.StorageManager.InsertFile | internal/storage/storage.go:304-316 | a new name gets an id never used before; a duplicate is refused, but draws an id too |
| Manager.StorageManager.SetHead | internal/storage/storage.go:488-542 | succeeds exactly for a known file and a layer of the tag whose chunks load, and pins the file to that version |
| Manager.StorageManager.DeleteHead | internal/storage/storage.go:571-592 | unpins the file |
| Manager.WALManager.Create | internal/storage/wal/wal.go:88-111 | creates a WAL file exactly when the name is one and the host file system succeeds |
| Manager.WALManager.Remove | internal/storage/wal/wal.go:221-244 | succeeds, and deletes the file, exactly when it is a WAL file that is there, its database's checkpoint succeeds, and the host deletes it |

## Left out

- Offsets and lengths are natural numbers: sums past 2^64 in a write, and int8range bounds past 2^63 when chunks are inserted, are not modelled; the FUSE layer passes signed 64-bit offsets. A read window ending past 2^63 fails, as its range literal is rejected.
- Running out of memory for a very large gap or buffer.
- A second process that writes or checkpoints; the one in cmd/op/main.go only moves heads.
- InsertFile, SetHead and DeleteHead failing in the database: such a call changes nothing but perhaps the next id drawn, and is not an event.
- Transaction handles left open on early returns, logging, timestamps and the order of GetFileVersions.
- Data races inside the Go process, such as the size query without the lock: operations under the manager's lock are atomic steps.
- The FUSE nodes, the terminal interface, flags and connection setup.
- WAL contents: a WAL file is present or absent.
- The INTEGER width of file_id, version_id and snapshot_layer_id.
- Merging and garbage collection of layers, which the repository plans but does not have.
- Manager.WALManager.Remove: as one call it does not show writes arriving between its checkpoint and its delete; WalRemoval.RemovedOnlyWhenDurable does.
