# Verified models of the storage engine and the message codec

This project models LevelDB as it is vendored in `ios/Pods/leveldb-library` and proves what it is for: reads
that stay right while writers, snapshots, memtable flushes and compactions change everything underneath. It
also models the encoder and decoder of nanopb in `ios/Pods/nanopb`.
Verify it with `dafny verify dfyconfig.toml` (Dafny 4.11).

## What is modelled

**The engine** (`InternalKeys` to `DBImpl`). An entry is a user key, a sequence number, a type and a value. A
version is seven levels of files, and a file carries its entries. Two invariants hold the engine together: levels
from 1 on are sorted and disjoint, and for each user key every entry of a shallower level is newer than every entry
of a deeper one. `DbSteps` describes what each actor does as one atomic step (write, memtable switch, snapshot,
release, flush, begin a compaction, open one of its outputs, trivial move, finish a compaction); `DbRuns` proves the invariants and the
stability of snapshots over every run, and the class `DBImpl` performs the steps with the code that picks levels
and inputs, merges, drops, builds output files and applies version edits. A compaction that has begun is finished
later, against a version that flushes may have changed in the meantime.

**One known fault of the source is part of the model.** `SetupOtherInputs` extends `inputs_[0]` to a user-key
boundary with `AddBoundaryInputs`, but not `inputs_[1]` (`db/version_set.cc:1384-1388`). When a snapshot has kept
several versions of a user key, an earlier compaction may have split them over two files of the next level. A
compaction may then take the file that ends with the tombstone and leave the one that starts with the older value.
`IsBaseLevelForKey` only looks at deeper levels, the tombstone is dropped, and the old value is readable again.
`Resurrection.CompactionResurrects` gives a run from the empty database in which this happens.
`DbRuns.RunsReadExactlyIff` says for all runs when it does: reads are exact if and only if no compaction surfaces a
value, that is, finds that (1) the oldest reader sees a tombstone the drop rule discards, (2) its user key is the one
`inputs_[1]` ends with, and (3) the file that `AddBoundaryInputs` would have added to `inputs_[1]` starts with a
value. `ClosedRunsAreStable` concludes that with `AddBoundaryInputs` applied to `inputs_[1]` as well snapshots are
stable in every run. The state of the database carries a ghost flag that is cleared by such a compaction;
`CleanIff` shows that it says no more than that all states so far read exactly.

**Cursors.** `Cursors` is the plain cursor over a sorted run. `MergingIterator`, `TwoLevelIterator`, the block
cursor and `DBIter` are classes with the fields of the source; each operation is proved to move its position as
the plain cursor would over the sorted union, the concatenation, the entries of a block, and the list of user keys
that are live at a sequence number. The last goes back and forth in any order. When `DBIter` moves backwards, its
inner cursor need not stand just before the current user key, as the comment in `db/db_iter.cc:42-46` says: entries
that are too new to be seen may lie between. The invariant used here allows for them.

**Skip list and writer queue as step systems.** `SkipListSteps` lets one writer and any number of readers take
turns after every load and store; a reader may start from any height. `SkipList` is the sequential code, whose
statements are proved to be steps of that system. `WriterProtocol` lets any number of threads take turns in the
writer queue, with failing log appends and syncs, and keeps a history of arrivals, groups and completions. `WriterOutcomes` relates what each thread is told to what became of its write. A
schedule is a list of actions; one that is not enabled does nothing, so the theorems are about all schedules. A
write without a batch, which is meant to force a memtable switch, may become part of another writer's group and is
then completed without the switch (`db/db_impl.cc:1297-1313`); the model does the same.

**Bytes.** The log is written and read at the level of bytes, and its reader is analysed for every prefix of the
file, which is what a crash leaves. Blocks are built and searched at the level of bytes, with varints, prefix
compression and restart points. Tables put data blocks, an index block of shortened separators and block handles, block
trailers and a footer into a file; a lookup goes from the bytes of that file through the filter and two block cursors
to the entry. Version edits are encoded and decoded, and `Recovery` composes log reader, record decoder and version
builder: from a manifest cut at any byte the version set comes back as the last edit wholly in the file left it. The CRC is defined bit by bit, as section 12.1 of RFC 3720 does, and the byte table and the
four-lane form are proved equal to it.

**Cache.** `HandleTable` is the chained hash table with resizing, `LRUCache` the reference-counted cache above it.

**nanopb** (`PbMessages` to `PbDecode`). A message descriptor is a tree of fields; a struct is a sequence of field
values. The wire format is that of the Protocol Buffers encoding specification ("Base 128 Varints", "Message
Structure", packed repeated fields). The encoder's streams are objects that either count or write; the decoder
reads records in any order, skips fields it does not know, and merges into the struct. `PbItems` says which byte
strings stand for a message: its fields in any order, arrays in any number of records, unknown fields anywhere, and the
same inside every submessage. `KnownBytes` fixes one byte string or more of every format, so that reader and writer
cannot both deviate from it.

## Conventions

- Above the table format, user keys are integers: ranks in the order of the user comparator. The engine only ever
  compares them, and any finite set of keys embeds into the integers. The modules on tables and version edits work
  on byte strings. `Recovery.Meaning` connects the two: it gives the rank of a user key and the entries of a table
  file by its number.
- Parameters stand for what the code gets from elsewhere: checksums and hash values (any function), file sizes,
  the level to compact, the height of a skip list node, the outcome of log operations.
- Readers of stored bytes accept any bytes, and their methods have all the error branches of the source. What
  they promise is conditional on ghost arguments that say what was written.
- `hash & (length - 1)` in the hash table is the remainder by a power of two.
- Sequence numbers stay below 2^56 - 1. At that number the drop rule would take its "no previous entry" marker
  for a real sequence number; the source does not guard against it either.

## Model

| member | source | states |
|---|---|---|
| `InternalKeys.Compare` | ios/Pods/leveldb-library/db/dbformat.cc:47-63 | the sign of the comparison is the order by user key ascending, then sequence and type descending, and 0 means the same key |
| `VersionGet.SearchRun` | ios/Pods/leveldb-library/db/version_set.cc:262-275 | a search of one sorted run yields exactly the newest visible entry of the user key, be it a value or a tombstone; an entry of another user key counts as not found |
| `FileSearch.FindFile` | ios/Pods/leveldb-library/db/version_set.cc:87-105 | the first file whose largest key is at or after the key |
| `FileSearch.SomeFileOverlapsRange` | ios/Pods/leveldb-library/db/version_set.cc:121-154 | true exactly if some file has a user key range that meets the closed or half-open query range |
| `FileSearch.GetOverlappingInputs` | ios/Pods/leveldb-library/db/version_set.cc:498-538 | terminates despite its restarts; the result is the overlapping files of a query that only grew by chains of overlapping files, is closed under overlap at level 0, and keeps gap-freeness |
| `FileSearch.LeastClosedSet` | ios/Pods/leveldb-library/db/version_set.cc:498-538 | at level 0 the result is contained in every overlap-closed set of files that covers the query: it is the least one |
| `BoundaryFiles.AddBoundaryInputs` | ios/Pods/leveldb-library/db/version_set.cc:1303-1378 | terminates; afterwards no file of the level continues the user key the inputs end with, the inputs stay a contiguous run of a sorted level, and a gap-free union stays gap-free |
| `BoundaryFiles.ConvexLeavesNewer` | ios/Pods/leveldb-library/db/version_set.cc:1355-1378 | in a sorted level, a contiguous boundary-closed set of inputs leaves behind no entry that is older than an input entry of the same user key |
| `CompactionPicking.ChooseInputs` | ios/Pods/leveldb-library/db/version_set.cc:1380-1424 | with expansion or without, the inputs of both levels are files of the version, inputs_[1] is all that overlaps inputs_[0], no older entry of an input key stays in the level, and the user keys between the inputs have no gap |
| `CompactionPicking.ExpandInputs` | ios/Pods/leveldb-library/db/version_set.cc:1393-1424 | inputs_[0] is grown only if inputs_[1] stays the same and the sizes together stay below the limit; otherwise it is left alone; either way all of the above is kept |
| `VersionSets.VersionSet.PickCompaction` | ios/Pods/leveldb-library/db/version_set.cc:1247-1299 | the picked compaction satisfies the input conditions and gap-freeness that flushes in the middle of the compaction rely on; without a given file it has the first file after the compaction pointer, wrapping around |
| `VersionSets.PickLevelForMemTableOutput` | ios/Pods/leveldb-library/db/version_set.cc:470-495 | the picked level and all shallower ones hold nothing that overlaps the flushed file, and it is the deepest of 0 to 2 that may be taken |
| `VersionSets.PickedLevelIsSafe` | ios/Pods/leveldb-library/db/version_set.cc:470-495 | installing the flushed file at the picked level is allowed by both version invariants |
| `VersionBuilder.SortedSameSet` | ios/Pods/leveldb-library/db/version_set.cc:672-730 | a level is determined by its set of files: two runs sorted by smallest key and number with the same files are equal |
| `VersionBuilder.SaveLevel` | ios/Pods/leveldb-library/db/version_set.cc:672-730 | merging the base files with the added ones gives the sorted run of exactly the files that are not deleted |
| `VersionBuilder.Builder.Apply` | ios/Pods/leveldb-library/db/version_set.cc:629-669 | folding an edit into the builder turns every level it stands for into that level with the edit applied |
| `VersionBuilder.Builder.SaveTo` | ios/Pods/leveldb-library/db/version_set.cc:672-715 | the saved version has, per level, the sorted run of exactly the files the folded edits leave |
| `Manifest.ReplayAtOnce` | ios/Pods/leveldb-library/db/version_set.cc:900-974 | folding all edits through one builder and saving once gives per level the files of applying them one by one |
| `Manifest.ApplyStepwise` | ios/Pods/leveldb-library/db/version_set.cc:777-860 | saving after every edit gives the files of the same specification |
| `Manifest.ReplayUnique` | ios/Pods/leveldb-library/db/version_set.cc:672-730 | the two ways of applying edits give the same version, file by file and in the same order |
| `Manifest.WriteSnapshot` | ios/Pods/leveldb-library/db/version_set.cc:1064-1092 | the snapshot edit lists exactly the files and compaction pointers of the version |
| `Manifest.ManifestRebuilds` | ios/Pods/leveldb-library/db/version_set.cc:862-974 | snapshot and later edits, folded onto the empty version, rebuild every level of the version that was installed |
| `Manifest.PointersRebuild` | ios/Pods/leveldb-library/db/version_set.cc:629-636 | the compaction pointers are rebuilt the same way |
| `Manifest.ReplayIsExact` | ios/Pods/leveldb-library/db/version_set.cc:862-974 | replaying a snapshot and edits from nothing gives the very version that the edits led to one by one |
| `Recovery.EncodeEdit` | ios/Pods/leveldb-library/db/version_edit.cc:41-84 | the record of an edit stands for that edit: files, deletions, pointers, comparator name and numbers |
| `Recovery.Recover` | ios/Pods/leveldb-library/db/version_set.cc:892-974 | over any records: fails exactly if one cannot be decoded, was written under another comparator, or a number is missing; otherwise the version is the replay of all edits, with the pointers and the numbers last written |
| `Recovery.RecoveryIsExact` | ios/Pods/leveldb-library/db/version_set.cc:862-974 | the records of a snapshot and of later edits may be replayed, and the result is the installed version, its compaction pointers, log numbers, next file number and last sequence number |
| `Recovery.Reopen` | ios/Pods/leveldb-library/db/version_set.cc:862-974 | for a manifest file cut at any byte, recovery returns what the last edit wholly in the file had installed, and fails if there is none |
| `Recovery.InstalledExtends` | ios/Pods/leveldb-library/db/version_set.cc:777-860 | a version made current by one more edit is the replay with that edit added |
| `VersionEditCoding.FieldReads` | ios/Pods/leveldb-library/db/version_edit.cc:105-192 | every tagged field of a manifest record is read back as it was written, wherever it stands |
| `VersionEditCoding.FieldsRebuild` | ios/Pods/leveldb-library/db/version_edit.cc:41-84 | taking in the fields of an edit, in whatever order its set of deleted files is enumerated, gives the edit |
| `VersionEditCoding.DecodeFrom` | ios/Pods/leveldb-library/db/version_edit.cc:105-203 | decoding the record of an edit gives that edit back, in whatever order its deleted files were written; any bytes are decoded or rejected |
| `Compactions.Compaction.IsBaseLevelForKey` | ios/Pods/leveldb-library/db/version_set.cc:1510-1529 | although its pointers only move forward, for ascending user keys the answer is exactly whether no deeper level has a file spanning the key |
| `Compactions.Compaction.ShouldStopBefore` | ios/Pods/leveldb-library/db/version_set.cc:1531-1553 | the overlapped bytes since the last stop are the sizes of the grandparents passed since then |
| `Compactions.DoCompactionWork` | ios/Pods/leveldb-library/db/db_impl.cc:887-1046 | an input entry is in the output files if and only if no newer input entry of its user key is at or below the smallest snapshot and it is not a deletion at or below it with no file two levels down or deeper around its user key; the files hold these entries in order, none is empty, each has the number handed out for it and the smallest and largest key of what it holds, is below the size limit up to its last entry, and lies over no more grandparent bytes than allowed |
| `Compactions.BuiltIsSound` | ios/Pods/leveldb-library/db/db_impl.cc:795-867 | the output files are well formed, sorted and disjoint |
| `DropRule.KeptExactly` | ios/Pods/leveldb-library/db/db_impl.cc:959-1002 | which input entries survive the two rules, said of sequence numbers, types and file ranges alone |
| `DropRule.ReadsKeptIff` | ios/Pods/leveldb-library/db/db_impl.cc:959-1002 | dropping by a smallest snapshot that nobody reads below keeps every read at or above the oldest sequence number in use, with any other entries beside, if and only if it resurrects nothing there |
| `CompactionInput.ReadInput` | ios/Pods/leveldb-library/db/version_set.cc:1214-1245 | running the merging cursor over the input files yields exactly their entries, sorted |
| `CompactionReads.CompactionKeepsReadsIff` | ios/Pods/leveldb-library/db/db_impl.cc:899-1009 | replacing the inputs by the outputs in the current version, which flushes may have changed and whose oldest reader may have moved on meanwhile, keeps every read still possible if and only if no dropped tombstone that such a read finds leaves an older value outside the inputs |
| `CompactionReads.ResurrectsIffSurfaces` | ios/Pods/leveldb-library/db/version_set.cc:1384-1388 | something is resurrected exactly if a dropped tombstone that the oldest reader finds has the user key inputs_[1] ends with, and the file that AddBoundaryInputs would have added to inputs_[1] starts with a value |
| `CompactionReads.OlderOutsideAtBoundary` | ios/Pods/leveldb-library/db/version_set.cc:1384-1388 | an older entry of an input user key with no file below spanning it, left outside the inputs, lies in or behind the boundary file of inputs_[1] |
| `CompactionReads.ClosedInputsResurrectNothing` | ios/Pods/leveldb-library/db/db_impl.cc:976-988 | if the next level has no file left outside inputs_[1] that continues its last user key, nothing is resurrected |
| `Resurrection.CompactionResurrects` | ios/Pods/leveldb-library/db/version_set.cc:1384-1388 | a run from the empty database with two writes, a snapshot, a deletion, flushes and two compactions, in which every state reads exactly but the last, where the deleted user key reads as its old value |
| `Installs.FlushKeepsVersion` | ios/Pods/leveldb-library/db/db_impl.cc:500-542 | installing a flushed file keeps levels sorted and disjoint and shallower entries newer |
| `Installs.ReplacementKeepsVersion` | ios/Pods/leveldb-library/db/db_impl.cc:869-885 | installing a compaction that was picked on an earlier version keeps both invariants, whatever was flushed in between |
| `Installs.OutsideOneSide` | ios/Pods/leveldb-library/db/version_set.cc:1384-1424 | a file that stays lies wholly on one side of the gap-free interval of the inputs |
| `VersionSets.CompactionEditReplaces` | ios/Pods/leveldb-library/db/db_impl.cc:869-885 | applying the edit of a compaction replaces exactly its inputs by its outputs |
| `DbSteps.FlushKeepsPlan` | ios/Pods/leveldb-library/db/db_impl.cc:917-928 | a flush in the middle of a compaction leaves everything the running compaction relies on |
| `DbSteps.WriteApplies` | ios/Pods/leveldb-library/db/db_impl.cc:1210-1247 | a write does to what is read what its puts and deletions, one after the other, do to a map |
| `DbSteps.WriteKeeps` | ios/Pods/leveldb-library/db/db_impl.cc:1210-1247 | a write keeps the database invariant |
| `DbSteps.FlushKeeps` | ios/Pods/leveldb-library/db/db_impl.cc:544-575 | a memtable flush keeps the database invariant |
| `DbSteps.MoveKeeps` | ios/Pods/leveldb-library/db/db_impl.cc:727-737 | a trivial move keeps the database invariant |
| `DbSteps.FinishKeeps` | ios/Pods/leveldb-library/db/db_impl.cc:869-885 | installing compaction results keeps the database invariant |
| `DbSteps.OpenKeeps` | ios/Pods/leveldb-library/db/db_impl.cc:795-806 | a compaction may take file numbers for its outputs at any time, with flushes taking others in between, and the invariant is kept |
| `DbRuns.RunsAreSound` | ios/Pods/leveldb-library/db/db_impl.cc:697-776 | the invariant holds in every state of every run of writes, memtable switches, snapshots, flushes, trivial moves and compactions |
| `DbRuns.RunsReadExactlyIff` | ios/Pods/leveldb-library/db/db_impl.cc:899-1009 | in the states of a run all readers that may still look read exactly what was ever written, if and only if no compaction of the run surfaces a value at the boundary of its next-level inputs |
| `DbRuns.SnapshotsAreStable` | ios/Pods/leveldb-library/db/snapshot.h:39-80 | as long as no compaction does so, a live snapshot reads the same in every later state: the newest write of each user key made before it |
| `DbRuns.SnapshotReadsMap` | ios/Pods/leveldb-library/db/snapshot.h:39-80 | the same in terms of the map that the database was when the snapshot was taken |
| `DbRuns.ClosedRunsAreStable` | ios/Pods/leveldb-library/db/version_set.cc:1384-1388 | the same for every run whose compactions have next-level inputs that end at a user-key boundary |
| `DbRuns.CleanIff` | ios/Pods/leveldb-library/db/db_impl.cc:899-1009 | the ghost flag of a state says exactly that all states so far read exactly |
| `DbRuns.FinishKeepsReadsIff` | ios/Pods/leveldb-library/db/db_impl.cc:899-1009 | from a state that reads exactly, an install leads to one that does if and only if nothing surfaces, whatever was written, flushed or released since the compaction began |
| `VersionGet.Get` | ios/Pods/leveldb-library/db/db_impl.cc:1110-1155 | searching memtable, immutable memtable, level 0 newest file first and one file per deeper level returns exactly the newest visible entry over everything |
| `VersionGet.GetFromVersion` | ios/Pods/leveldb-library/db/version_set.cc:324-400 | the same for the files alone |
| `Database.DBImpl.Write` | ios/Pods/leveldb-library/db/db_impl.cc:1210-1247 | a batch gets consecutive sequence numbers and becomes visible at once; the invariant is kept |
| `Database.DBImpl.Get` | ios/Pods/leveldb-library/db/db_impl.cc:1110-1155 | while the flag says that all states read exactly, any sequence number not below the oldest snapshot reads as the history of writes says |
| `Database.DBImpl.CompactMemTable` | ios/Pods/leveldb-library/db/db_impl.cc:544-575 | the flush is a step of the system, to the deepest level that may be taken |
| `Database.DBImpl.BeginCompaction` | ios/Pods/leveldb-library/db/db_impl.cc:697-750 | the picked compaction is a legal plan, or a trivial move is made; the latter exactly for a single file with nothing to merge it with and at most ten file sizes of grandparents under it |
| `Database.DBImpl.FinishCompaction` | ios/Pods/leveldb-library/db/db_impl.cc:869-885 | the compaction that was begun takes its file numbers and is finished by a step of the system on the version current by then |
| `MergingIterators.MergingIterator.Seek` | ios/Pods/leveldb-library/table/merger.cc:47-53 | lands where a cursor over the sorted union of the children lands |
| `MergingIterators.MergingIterator.Next` | ios/Pods/leveldb-library/table/merger.cc:55-79 | moves one forward in the sorted union, also right after a step backwards |
| `MergingIterators.MergingIterator.Prev` | ios/Pods/leveldb-library/table/merger.cc:81-106 | moves one back in the sorted union, also right after a step forwards |
| `MergingIterators.MergingIterator.FindSmallest` | ios/Pods/leveldb-library/table/merger.cc:148-161 | the child chosen stands on the first entry of the union past the cut |
| `TwoLevelIterators.TwoLevelIterator.Seek` | ios/Pods/leveldb-library/table/two_level_iterator.cc:82-87 | through separators and blocks, empty ones included, finds the place of the target among all entries |
| `TwoLevelIterators.TwoLevelIterator.Next` | ios/Pods/leveldb-library/table/two_level_iterator.cc:103-107 | moves one forward among all entries, over empty blocks |
| `TwoLevelIterators.TwoLevelIterator.Prev` | ios/Pods/leveldb-library/table/two_level_iterator.cc:109-113 | moves one back among all entries, over empty blocks |
| `TwoLevelIterators.SeekFound` | ios/Pods/leveldb-library/table/two_level_iterator.cc:82-87 | seeking the index and then the block is seeking the concatenation |
| `LiveEntries.LiveIsReadable` | ios/Pods/leveldb-library/db/db_iter.cc:40-46 | a user key is listed with a value exactly if a point read gives that value |
| `LiveEntries.LiveAscends` | ios/Pods/leveldb-library/db/db_iter.cc:40-46 | the list of live entries has each user key once, in ascending order |
| `DBIterators.DBIter.Next` | ios/Pods/leveldb-library/db/db_iter.cc:141-175 | moves to the next live user key, in either previous direction |
| `DBIterators.DBIter.Prev` | ios/Pods/leveldb-library/db/db_iter.cc:209-234 | moves to the previous live user key, in either previous direction, or becomes invalid at the first |
| `DBIterators.DBIter.Seek` | ios/Pods/leveldb-library/db/db_iter.cc:278-290 | lands on the first live user key at or after the target |
| `DBIterators.DBIter.SeekToFirst` | ios/Pods/leveldb-library/db/db_iter.cc:292-301 | lands on the first live user key |
| `DBIterators.DBIter.SeekToLast` | ios/Pods/leveldb-library/db/db_iter.cc:303-308 | lands on the last live user key |
| `DBIterators.DBIter.ShowsLiveList` | ios/Pods/leveldb-library/db/db_iter.cc:72-80 | validity, key and value are those of the live list at the position, whichever direction the iterator moved last |
| `UserScans.NextListed` | ios/Pods/leveldb-library/db/db_iter.cc:177-207 | the entry a forward scan stops at is the one listed right after the current one |
| `UserScans.CandidateStands` | ios/Pods/leveldb-library/db/db_iter.cc:236-276 | the saved entry at which a backward scan stops is live, and the cursor stands before its user key but for invisible entries |
| `SkipListMemory.SearchStep` | ios/Pods/leveldb-library/db/skiplist.h:262-281 | one load of a search keeps it on a node before its target, or ends it between the right neighbours of its level |
| `SkipListMemory.PublishSplices` | ios/Pods/leveldb-library/db/skiplist.h:362-367 | publishing a filled-in node on one level splices it into that list and leaves every level a strictly sorted list of nodes of the level below |
| `SkipListSteps.StepKeeps` | ios/Pods/leveldb-library/db/skiplist.h:337-368 | after every single load or store of the writer, with any number of readers anywhere, every level is a strictly sorted list contained in the one below |
| `SkipListSteps.StepContents` | ios/Pods/leveldb-library/db/skiplist.h:362-367 | the one store that changes what can be found is the one that links level 0; it adds exactly the inserted key |
| `SkipListSteps.ContentsGrow` | ios/Pods/leveldb-library/db/skiplist.h:337-368 | over every schedule, nothing that could be found is lost |
| `SkipListSteps.SearchesAreExact` | ios/Pods/leveldb-library/db/skiplist.h:262-322 | whatever height it started from and whatever was inserted meanwhile, a search returns the first key at or after its target, and the last before it, in the list as of its last load |
| `SkipListSteps.PublishedKeysAreSeen` | ios/Pods/leveldb-library/db/skiplist.h:337-368 | a key that could be found before the last load of a search is not overlooked |
| `SkipLists.SkipList.FindGreaterOrEqual` | ios/Pods/leveldb-library/db/skiplist.h:262-281 | for any key, in the list or not: the first node at or after it and the last before it; for a new key also the nodes to link after on every level |
| `SkipLists.SkipList.Contains` | ios/Pods/leveldb-library/db/skiplist.h:370-378 | true exactly if the list has the key |
| `SkipLists.SkipList.Insert` | ios/Pods/leveldb-library/db/skiplist.h:337-368 | the statements of an insertion are steps of the concurrent model and add exactly the key |
| `SkipLists.SkipList.Prev` | ios/Pods/leveldb-library/db/skiplist.h:213-221 | the search for a node's own key returns the node before it: a step back undoes a step forward |
| `LogFormat.MaskRoundTrip` | ios/Pods/leveldb-library/util/crc32c.h:29-38 | unmasking a masked checksum gives it back |
| `LogFormat.FrameParses` | ios/Pods/leveldb-library/db/log_reader.cc:216-268 | a physical record is parsed to the type and payload it was made from, and its checksum verifies |
| `LogWriters.Writer.AddRecord` | ios/Pods/leveldb-library/db/log_writer.cc:34-80 | the file grows by the fragments of the record, trailers and block boundaries included |
| `LogFormat.FrameMatches` | ios/Pods/leveldb-library/db/log_reader.cc:216-268 | bytes with a matching checksum are the frame of their type and payload |
| `LogReaders.Reader.ReadPhysicalRecord` | ios/Pods/leveldb-library/db/log_reader.cc:189-271 | a fragment that is wholly in the file is returned; one that is cut off anywhere is the end of the file and not a corruption; whatever the bytes, only fragments with a matching checksum are returned |
| `LogReaders.Reader.ReadRecord` | ios/Pods/leveldb-library/db/log_reader.cc:56-174 | a record that is wholly in the file is put together and returned; one that is cut off ends the log without a report; whatever the bytes, a returned record is a full fragment, or a first one, middle ones and a last one, in file order and each with its checksum |
| `LogReaders.GatherStep` | ios/Pods/leveldb-library/db/log_reader.cc:108-142 | one more fragment completes the record or leaves exactly the rest of it to come |
| `LogRecovery.ReadLog` | ios/Pods/leveldb-library/db/log_reader.cc:56-174 | from a log cut at any byte exactly the records that lie wholly before the cut come back, in order, and nothing is reported as corrupt |
| `Crc32c.ZeroByteLinear` | ios/Pods/leveldb-library/util/crc32c.cc:286-291 | advancing the remainder over a zero byte is linear over exclusive or |
| `Crc32c.TableStep` | ios/Pods/leveldb-library/util/crc32c.cc:287-291 | a step with the byte table is the eight bit steps of the polynomial division |
| `Crc32c.ByteTableBasis` | ios/Pods/leveldb-library/util/crc32c.cc:20-63 | the table entries of the eight single-bit bytes have the values of the source |
| `Crc32c.StrideAdvances` | ios/Pods/leveldb-library/util/crc32c.cc:293-300 | the four stride tables together advance a lane over sixteen zero bytes |
| `Crc32c.LaneAdvances` | ios/Pods/leveldb-library/util/crc32c.cc:349-358 | a word that goes into the oldest lane goes into the remainder the four lanes stand for |
| `Crc32c.CrcConcat` | ios/Pods/leveldb-library/util/crc32c.cc:276-377 | extending by a and then by b is extending by both at once |
| `Crc32c.KnownValue` | ios/Pods/leveldb-library/util/crc32c.cc:267-275 | the value the source gives for its test string |
| `Crc32c.Extend` | ios/Pods/leveldb-library/util/crc32c.cc:276-377 | the four-lane computation equals the bit-by-bit definition for every length, address and initial value |
| `WriterQueue.BuildBatchGroup` | ios/Pods/leveldb-library/db/db_impl.cc:1270-1316 | the group is the longest beginning of the queue without a writer that is not allowed to join: none that wants a sync its leader does not do, none that makes the group too big; its updates are theirs in order |
| `WriterQueue.GroupWithinLimit` | ios/Pods/leveldb-library/db/db_impl.cc:1277-1304 | the batches of a group are within the size limit together, unless the leader alone exceeds it |
| `WriterQueue.PopsPrefix` | ios/Pods/leveldb-library/db/db_impl.cc:1249-1258 | popping until the last writer of the group takes exactly the group off the queue |
| `WriterProtocol.StepKeeps` | ios/Pods/leveldb-library/db/db_impl.cc:1195-1266 | every step of every thread keeps the protocol invariant |
| `WriterProtocol.CompletedOnceInOrder` | ios/Pods/leveldb-library/db/db_impl.cc:1249-1258 | every writer is completed at most once, after all that arrived before it, and knows it |
| `WriterProtocol.QuietHasCompletedAll` | ios/Pods/leveldb-library/db/db_impl.cc:1195-1266 | when no thread has anything left to do, every write that arrived has been completed, exactly once and in the order of arrival, and its thread has returned |
| `WriterProtocol.WorkEnds` | ios/Pods/leveldb-library/db/db_impl.cc:1195-1266 | threads that only work, without new arrivals and spurious wake-ups, come to an end |
| `WriterProtocol.FrontWorksAndIsAwake` | ios/Pods/leveldb-library/db/db_impl.cc:1201-1208 | only the front writer touches log and memtable; neither it nor a completed writer is ever left asleep |
| `WriterProtocol.GroupsAreConsecutive` | ios/Pods/leveldb-library/db/db_impl.cc:1212-1247 | groups get consecutive intervals of sequence numbers in the order of arrival |
| `WriterOutcomes.StatusIsOutcome` | ios/Pods/leveldb-library/db/db_impl.cc:1249-1266 | a write of a batch returns success if and only if it belongs to a group that was applied |
| `WriterOutcomes.SyncIsHonoured` | ios/Pods/leveldb-library/db/db_impl.cc:1290-1295 | a write that asked for a sync and returns success lies in the synced part of the log, whoever wrote it |
| `WriterOutcomes.FailureIsReported` | ios/Pods/leveldb-library/db/db_impl.cc:1217-1258 | when making room, the append or the sync fails, every write of the group returns a failure |
| `WriterOutcomes.FailedSyncEndsLog` | ios/Pods/leveldb-library/db/db_impl.cc:1225-1245 | after a failed sync nothing is ever appended to the log again |
| `WriterProtocol.ReadersSeeWholeGroups` | ios/Pods/leveldb-library/db/db_impl.cc:1246-1246 | what a reader at the last sequence number finds in the memtable is whole groups only |
| `Coding.Varint32RoundTrip` | ios/Pods/leveldb-library/util/coding.cc:21-56 | a 32-bit varint is read back wherever it stands |
| `BlockBuilders.BlockBuilder.Add` | ios/Pods/leveldb-library/table/block_builder.cc:71-105 | the buffer and restart points stay those of the entries added, with the longest possible shared prefixes between restarts |
| `BlockBuilders.BlockBuilder.Finish` | ios/Pods/leveldb-library/table/block_builder.cc:61-69 | the finished bytes are a block of exactly the entries added, of the estimated size |
| `ByteKeys.KeyRoundTrip` | ios/Pods/leveldb-library/db/dbformat.cc:21-24 | an encoded internal key is parsed to the key |
| `ByteKeys.InternalLessMeans` | ios/Pods/leveldb-library/db/dbformat.cc:47-63 | the comparator on encoded internal keys orders them as the keys |
| `TableFormat.HandleRoundTrip` | ios/Pods/leveldb-library/table/format.cc:15-29 | a block handle is read back wherever it stands |
| `TableFormat.ReadsBlock` | ios/Pods/leveldb-library/table/format.cc:64-139 | a block written with its trailer is read back, its checksum verified or not |
| `TableFormat.VerifiedBlockStands` | ios/Pods/leveldb-library/table/format.cc:64-139 | whatever the file, a block that is read with verification stands there with its trailer |
| `TableFormat.FooterRoundTrip` | ios/Pods/leveldb-library/table/format.cc:31-62 | the footer at the end of a file leads to the index block it was written for |
| `BlockEntries.EntryDecodes` | ios/Pods/leveldb-library/table/block.cc:55-75 | an encoded entry is decoded to its lengths, key suffix and value, by the shortcut and the general way alike |
| `BlockIterators.BlockOpens` | ios/Pods/leveldb-library/table/block.cc:25-40 | what the builder wrote is opened with the right restart points |
| `BlockIterators.Iter.Next` | ios/Pods/leveldb-library/table/block.cc:138-141 | shows the next entry, its key put together from the shared prefix |
| `BlockIterators.Iter.Prev` | ios/Pods/leveldb-library/table/block.cc:143-162 | shows the previous entry, by going back to a restart point and forward again |
| `BlockIterators.Iter.Seek` | ios/Pods/leveldb-library/table/block.cc:164-202 | shows the first entry whose key is not before the target |
| `ByteKeys.FindShortestSeparator` | ios/Pods/leveldb-library/util/comparator.cc:31-54 | the result is cut behind the first difference, with a byte in between, exactly where there is one; it lies strictly between the two keys then, and is the first key otherwise |
| `ByteKeys.FindShortSuccessor` | ios/Pods/leveldb-library/util/comparator.cc:56-69 | the result is cut behind the first byte that is not 0xff, increased by one |
| `ByteKeys.FindShortestSeparatorKey` | ios/Pods/leveldb-library/db/dbformat.cc:65-82 | where the user key gets shorter, the result is the earliest internal key of it, and of a user key strictly between the two |
| `ByteKeys.SeparatorSkipsNothing` | ios/Pods/leveldb-library/db/dbformat.cc:65-82 | a key between a block and its separator shares its user key with nothing after the separator |
| `FilterBlocks.CreateFilter` | ios/Pods/leveldb-library/util/bloom.cc:28-54 | sets exactly the bits that the keys' probes hit, so every key matches |
| `KnownBytes.FilterProbes` | ios/Pods/leveldb-library/util/bloom.cc:28-54 | probes and sizes of a filter on known values |
| `FilterBlocks.KeyMayMatch` | ios/Pods/leveldb-library/util/bloom.cc:56-80 | true exactly if all probed bits are set; true for every filter with more than 30 probes and false for an empty one |
| `FilterBlocks.FilterBlockBuilder.Finish` | ios/Pods/leveldb-library/table/filter_block.cc:21-49 | every key lies in the filter of the offset range in which its block starts |
| `TableBuilders.TableBuilder.Add` | ios/Pods/leveldb-library/table/table_builder.cc:94-123 | entries, bytes of the blocks under way, file, index separators and filters stay consistent; a full block goes out |
| `TableBuilders.TableBuilder.Finish` | ios/Pods/leveldb-library/table/table_builder.cc:198-253 | the file holds the bytes of a table of exactly the entries added, block by block with trailers, index and footer, and the table is one that lookups may rely on |
| `TableBuilders.FlattenCuts` | ios/Pods/leveldb-library/table/table_builder.cc:125-139 | cutting an ascending run into blocks gives ascending, ordered blocks with the same entries |
| `Tables.OpenTable` | ios/Pods/leveldb-library/table/table.cc:38-81 | a file with the bytes of a table is opened as that table |
| `Tables.InternalGet` | ios/Pods/leveldb-library/table/table.cc:214-242 | driving the block cursor over the bytes of the index and of one block: what is reported is the first entry at or after the key, it is reported whenever it has the key's user key, and there is no error; filter, separators and restart points notwithstanding |
| `Tables.Get` | ios/Pods/leveldb-library/table/table.cc:214-242 | from the bytes of a table file, a lookup reports the newest visible entry of a user key, its value or its deletion, and nothing exactly if there is none |
| `Tables.NewestIsFirst` | ios/Pods/leveldb-library/db/dbformat.cc:117-134 | the newest visible entry of a user key is the first at or after its lookup key |
| `HandleTables.HandleTable.Insert` | ios/Pods/leveldb-library/util/cache.cc:79-93 | the table stands for the map with the key replaced or added, resizing included |
| `HandleTables.HandleTable.Remove` | ios/Pods/leveldb-library/util/cache.cc:95-103 | the table stands for the map without the key |
| `HandleTables.Rehash` | ios/Pods/leveldb-library/util/cache.cc:123-147 | a table of another length with the same contents |
| `LruCaches.EraseKeeps` | ios/Pods/leveldb-library/util/cache.cc:308-317 | taking a handle out of the cache keeps references, both lists, the charge and the deletions right |
| `LruCaches.ReleaseKeeps` | ios/Pods/leveldb-library/util/cache.cc:226-238 | giving a reference back moves the entry to the idle list or deletes it exactly when it is the last |
| `LruCaches.ReleaseKeepsRecency` | ios/Pods/leveldb-library/util/cache.cc:226-238 | an entry that becomes idle is the one released last, so that the idle list stays in the order of last release |
| `LruCaches.LRUCache.Release` | ios/Pods/leveldb-library/util/cache.cc:262-265 | the released entry goes to the newest end of the idle list when nobody holds it any more |
| `LruCaches.LRUCache.Insert` | ios/Pods/leveldb-library/util/cache.cc:267-304 | afterwards the charge is within the capacity or nothing idle is left; but for the replaced one each entry that went was released before every idle one that stays, and the last to go had to; entries in use stay; the new entry is found |
| `LruCaches.LRUCache.EvictUntil` | ios/Pods/leveldb-library/util/cache.cc:294-301 | each entry that goes was released before every idle one that stays; entries go only while the charge is above the limit |
| `LruCaches.SuffixStays` | ios/Pods/leveldb-library/util/cache.cc:294-301 | taking entries from the front of a list in the order of last release takes those released first |
| `LruCaches.LRUCache.Lookup` | ios/Pods/leveldb-library/util/cache.cc:253-260 | a hit is the entry inserted last under the key, counts one more client, leaves the idle list, and changes the order of no others |
| `PbMessages.LeftOutIsDefault` | ios/Pods/nanopb/pb_encode.c:240-337 | a proto3 field that the encoder leaves out has its default value, submessages included |
| `PbWire.FieldBytes` | ios/Pods/nanopb/pb_encode.c:341-426 | a field is encoded as the sequence of its records |
| `PbWire.ZigzagRoundTrip` | ios/Pods/nanopb/pb_encode.c:630-639 | zigzag numbers are turned back into the signed numbers they stand for |
| `PbEncoders.OStream.Write` | ios/Pods/nanopb/pb_encode.c:103-124 | a sizing stream only counts; a writing one takes the bytes if there is room |
| `PbEncoders.EncodePackedArray` | ios/Pods/nanopb/pb_encode.c:162-205 | a packed array is written behind exactly the size that its sizing pass counts |
| `PbEncoders.EncodeArray` | ios/Pods/nanopb/pb_encode.c:147-236 | arrays that are too large are refused; others are written packed where their type allows it |
| `PbEncoders.EncodeSubmessage` | ios/Pods/nanopb/pb_encode.c:717-765 | the writing pass emits exactly the bytes the sizing pass counts, so the error "submsg size changed" is never reached |
| `PbEncoders.PbEncode` | ios/Pods/nanopb/pb_encode.c:528-550 | a message is encoded completely if there is room for it, otherwise the stream is full; sizing counts exactly its bytes |
| `PbScalars.ReadsVarint32` | ios/Pods/nanopb/pb_decode.c:187-247 | a 32-bit varint is read back, its overflow checks notwithstanding |
| `PbScalars.ScalarReads` | ios/Pods/nanopb/pb_decode.c:1285-1445 | numbers of every width are read back, negative ones in plain and zigzag form included |
| `PbItems.FillsRebuild` | ios/Pods/nanopb/pb_decode.c:952-1030 | taking the records of a field, in any number for an array, into its default gives its value |
| `PbItems.EncodedMessage` | ios/Pods/nanopb/pb_encode.c:341-426 | what the encoder makes of a message is one of the arrangements that the decoder has to understand, at every depth |
| `PbItems.RoomFor` | ios/Pods/nanopb/pb_decode.c:1525-1547 | when a record of an arrangement comes, its field still has its default, or room for the values |
| `PbDecoders.SkipReads` | ios/Pods/nanopb/pb_decode.c:320-331 | an unknown field of each wire type ends where the wire format says |
| `PbDecoders.ScalarIsStored` | ios/Pods/nanopb/pb_decode.c:1285-1445 | whatever the bytes, a number that is accepted fits its type |
| `PbDecoders.DecodePacked` | ios/Pods/nanopb/pb_decode.c:425-453 | a packed array is read back behind the elements that are there, and never past the size of the array |
| `PbDecoders.DecodeField` | ios/Pods/nanopb/pb_decode.c:406-483 | a record does to its field what it stands for, and nothing behind it is consumed |
| `PbDecoders.MissingRequired` | ios/Pods/nanopb/pb_decode.c:1039-1079 | a message is refused exactly if one of the first 64 required fields was not seen |
| `PbDecoders.DecodeMessage` | ios/Pods/nanopb/pb_decode.c:934-1082 | from the fields of a message in any order, with unknown fields of any wire type in between, up to the limit or a zero tag, the message is rebuilt, and the result is success if and only if the first 64 required fields are there; whatever the bytes, every value fits its storage |
| `PbDecoders.PbDecode` | ios/Pods/nanopb/pb_decode.c:1084-1096 | decoding after encoding returns the same message |
| `KnownBytes.FieldBytes` | ios/Pods/nanopb/pb_encode.c:341-426 | the bytes of fields of every wire type, packed ones included |
| `KnownBytes.MessageBytes` | ios/Pods/nanopb/pb_encode.c:240-337 | fields with defaults take no bytes, required ones do |
| `KnownBytes.EditNumberBytes` | ios/Pods/leveldb-library/db/version_edit.cc:41-62 | the bytes of the number fields of a manifest record |
| `KnownBytes.EditFileBytes` | ios/Pods/leveldb-library/db/version_edit.cc:64-84 | the bytes of the file fields of a manifest record |
| `KnownBytes.LogRecordBytes` | ios/Pods/leveldb-library/db/log_writer.cc:82-109 | the bytes of a log record |
| `KnownBytes.BlockBytes` | ios/Pods/leveldb-library/table/block_builder.cc:71-105 | the bytes of block entries, with and without a shared prefix |
| `KnownBytes.TableBytes` | ios/Pods/leveldb-library/table/format.cc:31-40 | the bytes of a block handle and of the end of a footer |
| `KnownBytes.InternalKeyBytes` | ios/Pods/leveldb-library/db/dbformat.cc:21-24 | the bytes of an internal key |

## Left out

- The code of the application itself.
- Manual `CompactRange`, seek statistics and compaction scores: the level to compact, and whether a seek
  compaction is made for a given file, are parameters.
- Input/output errors other than failing log appends and syncs, shutdown in the middle of a compaction, and
  recovery of a log that ends torn when logs are reused.
- Reference counts of versions and the deletion of obsolete files.
- `Builder` keeps the compaction pointers itself here, instead of writing them into the version set as it goes.
- `VersionEdit::Clear` does not clear the compaction pointers, so decoding into an edit that was used before would
  keep the old ones; `DecodeFrom` starts from a new edit, as `Recover` does.
- The entries of a compaction's output files are computed when it finishes. The loop only reads its inputs, which
  do not change while it runs, so flushes, writes and snapshots in between are covered.
- CompactionInput.ReadInput: has one child per file, also for levels from 1 on, where the source has one concatenating
  cursor per level; the latter is a two-level cursor.
- `DBIter`, `TwoLevelIterator` and `MergingIterator` are proved over plain cursors rather than over each other; each is
  proved to move as a plain cursor, but no class here holds another one of them.
- Manifest.WriteSnapshot: has no comparator name, which `Recovery.EncodeEdit` puts into its record.
- Recovery.Recover: asks that the edits in the records add files under numbers their level has not seen, as those this
  source writes do; `RecoveryIsExact` shows it of them.
- Database.DBImpl.Write: leaves out the log append, the sync and their failures, which are in `WriterProtocol`.
- Weak memory order: skip-list loads and stores are taken in a single order.
- LogReaders.Reader.ReadPhysicalRecord: says what is returned, and what a writer and a crash leave; of the size of reported
  corruption it promises nothing, and the initial offset and reading without checksums are not modelled.
- LogReaders.Reader.ReadRecord: leaves out the initial offset and resynchronisation after it.
- `DecodeEntry` adds two 32-bit lengths without wrap-around here; only corrupt blocks could tell.
- Crc32c.StrideAdvances: defines the stride tables by what they mean and is not tied to their values in the source; the
  byte table is.
- FilterBlocks.FilterBlockBuilder.Finish: gives the filters as a sequence; the bytes of the filter block with its offset
  array, and the metaindex block that leads to it, are a parameter of `TableBuilder.Finish`. The bits of a bloom filter
  are booleans rather than bytes, and the number of probes is a parameter.
- Compressed blocks: all blocks are written with type 0, and others are refused; the block cache between table and blocks.
- TableBuilders.TableBuilder.Add: asks that blocks stay below 2^32 bytes and the file below 2^64, which the source does
  not check.
- The links of the cache's lists are sequences here; splicing the pointers of a doubly linked list is not modelled.
- The bytes of write batches; a batch is its sequence of updates.
- nanopb: pointer, callback and extension fields, oneofs, arrays of fixed count, byte arrays of fixed length,
  non-zero defaults, and null-terminated messages at the top level.
- nanopb's 32-bit varint reader counts bits in eight bits; varints of more than 36 bytes, for which that count
  wraps around, are read here as if it did not.
- Strings decoded by nanopb are the bytes received; what a C program sees of a string with a zero byte in the
  middle is not modelled.
