# LevelDB and nanopb, modelled and proved

The repository vendors two libraries that hold its real logic: LevelDB, a log-structured merge store, and nanopb, a
descriptor-driven encoder and decoder of protocol buffers. This project models both in Dafny and proves what they are
for. Code that works in place is modelled in place: classes with the fields of the originals, loops with the loops'
invariants, linked structures as links. Each such method is proved against a specification that says what it means,
and the properties of the specification are lemmas.

`dafny verify dfyconfig.toml` checks all of it.

## How it is built

**The database** (`Keys` to `Database`, `Readers`, `WriteQueue`, `GroupCommits`). `Engine` is the database as a state
machine: tables in seven levels, two memtables, logs, manifest, snapshots, one background job. Its steps are the
logging half and the inserting half of a write, the memtable switch, both halves of a flush and of a compaction, the
trivial move, the deletion of obsolete files, taking and releasing a snapshot, the start and the end of a read that
works without the mutex, and a crash with recovery from whatever is on disk. `Invariant` says what holds in between;
`Steps`, `FlushSteps`, `CompactionSteps`, `Readers` and `Recovery` prove that each step keeps it; `Runs` proves that
after every run, crashes included, a read is a lookup in a plain map, that a read under way is not disturbed by
anything that happens meanwhile, that no logged operation is ever lost and that none is applied twice. A compaction
may bring a deleted value back; it is proved of just which keys, and that from the next write of such a key on it
reads like the map again. `Handles` follows single snapshots and readers through a run, known by the step that took
them, and `Effects` says what the background steps get done. `Database` is the class `DBImpl` whose methods carry out those steps on fields, with the
original's loops. Below it, `Version` is the search through the levels, `Inputs` the choice of compaction inputs,
`Compacting` the drop rules and the compaction loop, `Install` the invariants of versions across installs, `Builder`
and `Manifest` the replay of version edits, `LogReplay` the replay of logs. `WriteQueue` is the group commit protocol
with any number of writers, and `GroupCommits` joins it to the runs of the database.

**Iterators** (`DbIter`, `Merger`, `TwoLevel`). Each is proved to be a two-way cursor on a sorted list, through any
mix of directions: the live user keys of a snapshot, the union of the children, the concatenation of the blocks.

**Structures in memory** (`SkipLists`, `Rings`, `HandleTables`, `LruCache`). The skip list is proved as one inserter
and any number of readers, in each of its three searches, interleaved at each pointer store; the cache on its two
circular lists, its chained hash table and its reference counts, with the times at which clients let go of its
entries: the order of eviction.

**Formats** (`Coding`, `Comparators`, `Blocks`, `DataBlocks`, `Separators`, `Tables`, `Bloom`, `FilterBlocks`,
`Crc32c`, `LogChecksum`, `LogFormat`, `LogReading`, `TornLogs`, `CrcDetection`, `EditCodec`, `BatchCodec`, `CutInput`,
`KnownBytes`). Writers and readers, with round trips over all inputs; for blocks under any comparator, among them that
of internal keys; for the log over every prefix of every file, over every such prefix that is written on, and for
damage within four bytes; for batches and version edits cut off anywhere. `KnownBytes` fixes the formats by example.

**nanopb** (`Descriptors`, `ProtoScalars`, `ProtoWire`, `LongVarints`, `ProtoRoundTrip`, `ProtoPlain`, `ProtoFields`,
`ProtoViews`, `ProtoRequired`, `ProtoStorage`, `ProtoEncoder`, `ProtoDecoder`). `ProtoWire` says what bytes a message
has and what bytes mean; the stream classes are proved to produce and consume just that, and `ProtoRoundTrip` that the
one undoes the other. `ProtoFields` and `ProtoViews` are about readers that do not know all fields, `ProtoRequired`
about fields that are missing, `ProtoStorage` about arbitrary bytes.

## Where the code does less than it says

- A compaction keeps every read exactly when no deletion that it drops uncovers a value outside its inputs
  (`Compacting.ReadsPreservedExactly`). The code drops a deletion if no level below the output level may have its key,
  on the ground that what is left above is newer. That ground holds if no file of the output level outside the inputs
  begins with the user key that an input file of that level ends with (`Install.NothingUncovered`). `SetupOtherInputs`
  closes only the inputs of the upper level in that sense
  (`E-nounce/Pods/leveldb-library/db/version_set.cc:1407-1411`), and `Resurrection.PickRevives` is a version on which
  the compaction that is picked makes a deleted value readable; `RevivedRun.RunRevives` is a run that comes to it and
  reads the deleted value. (In the code that run needs a manual compaction, since any other would move the one file,
  and entries of other keys that fill its first output file: the model leaves open where output files end.) All valid
  compactions are steps of a run, and `revived` gathers the keys of which an installed one has uncovered a value: all
  other reads are kept, and those of such a key again from its next write on (`Runs.EveryRunReadsLikeTheStore`); there
  can be no fewer keys (`CompactionSteps.CompactionKeepsReadsExactly`), and there are none if the inputs of both
  levels are closed (`Runs.ClosedRunsReviveNothing`).
- Replaying a manifest with one builder gives what the edits gave one by one as long as no edit adds a file number
  that the level held before (`Builder.ReplayOnceIsReplayEach`, `Builder.ReAddingRevivesBase`). The database keeps
  that condition over every run: files only ever move down.
- `VersionEdit::Clear` leaves the compaction pointers, so an edit decoded into a used one keeps them
  (`EditCodec.EditRoundTrip`).
- A database that reuses its log writes on behind a record that a crash has torn. If the cut falls between two pieces
  of the record, or among the zeros at the end of a block, nothing is lost (`TornLogs.BoundaryLosesNothing`). If it
  falls inside a piece, the new records are taken for the rest of that piece, and those that begin before the end of
  the block are lost (`TornLogs.TornPieceThenLog`); a piece that is still too short is read as the end of the file
  without a report (`TornLogs.TakenForTheRest`).
- nanopb encodes a string that fills its field to the last byte (`ProtoEncoder.EncodeAny`), and cannot decode it
  again. And it leaves a proto3 submessage out when all of its fields seem to be zero, where of an array of fixed
  count the first bytes are taken for a count (`ProtoRoundTrip.HiddenArray`). A message comes back from its encoding,
  on storage that was zeroed, if and only if every string that is written leaves room for its terminator and every
  submessage that is left out is zero in all its parts; decoding fails if and only if a string has no room
  (`ProtoRoundTrip.RoundTripExactly`).

## Model

The paths are relative to the root of the repository.

| member | source | states |
|---|---|---|
| `Keys.PositionIsFaithful` | `E-nounce/Pods/leveldb-library/util/comparator.cc:25-27` | the bytewise order of user keys embeds in the order of the reals, so the engine modules may take a user key as a position: smaller, larger and (hence) equal agree both ways |
| `Keys.LookupSplitsVersions` | `E-nounce/Pods/leveldb-library/db/dbformat.cc:121-138` | the lookup key of a user key and a snapshot comes after exactly the versions the snapshot must not see: an entry of that key is before it if and only if its sequence number is above the snapshot |
| `Reads.ReadIsNewest` | `E-nounce/Pods/leveldb-library/db/db_impl.cc:1100-1145` | what a read means: the value of the newest entry at or below the snapshot, or not found if that entry is a deletion |
| `Reads.NewestExists` | `E-nounce/Pods/leveldb-library/db/db_impl.cc:1100-1145` | if a snapshot sees any version of a key there is a newest one |
| `Reads.ReadLayers` | `E-nounce/Pods/leveldb-library/db/db_impl.cc:1125-1133` | reading two layers, the newer first and the older only on a miss, is reading their union |
| `Reads.ReadIgnoresFuture` | `E-nounce/Pods/leveldb-library/db/db_impl.cc:1100-1145` | entries above the snapshot never change what is read at it |
| `Version.WithinBounds` | `E-nounce/Pods/leveldb-library/db/version_set.cc:108-120` | every entry of a table lies between the recorded smallest and largest keys |
| `Version.FindFile` | `E-nounce/Pods/leveldb-library/db/version_set.cc:88-106` | the binary search ends at the one place that separates the files wholly before the target from the others |
| `Version.SomeFileOverlapsRange` | `E-nounce/Pods/leveldb-library/db/version_set.cc:122-158` | true if and only if some file meets the (possibly unbounded) range, by linear scan and by binary search alike |
| `Version.SavedIsNewest` | `E-nounce/Pods/leveldb-library/db/version_set.cc:263-276` | a seek in one table yields the newest visible version it holds, or shows that it holds none |
| `Version.SearchLevelZero` | `E-nounce/Pods/leveldb-library/db/version_set.cc:282-324` | the files of level 0 that cover the key, newest first, until one answers: the hit is the newest visible entry of the whole level |
| `Version.SearchSortedLevel` | `E-nounce/Pods/leveldb-library/db/version_set.cc:326-421` | above level 0 probing a single file is enough: its hit is the newest visible entry of the level, its miss means the level has none |
| `Version.ProbeCovers` | `E-nounce/Pods/leveldb-library/db/version_set.cc:326-421` | no visible entry of a sorted level lies in a file other than the probed one unless the probed one has a newer version |
| `Version.FirstHitIsNewest` | `E-nounce/Pods/leveldb-library/db/version_set.cc:326-421` | the first level that has a visible version has the newest one of all levels |
| `Version.Get` | `E-nounce/Pods/leveldb-library/db/version_set.cc:326-421` | the level-by-level search answers what a read over all entries of all tables answers |
| `Inputs.GetOverlappingInputs` | `E-nounce/Pods/leveldb-library/db/version_set.cc:519-559` | above level 0 exactly the files that meet the range; at level 0, restarts included, exactly the least set of files closed under user-key overlap with it; it terminates |
| `Inputs.FixpointIsLeast` | `E-nounce/Pods/leveldb-library/db/version_set.cc:519-559` | a range that grew only where it was forced to, and that contains all it selects, selects the least closed set |
| `Inputs.GetRange` | `E-nounce/Pods/leveldb-library/db/version_set.cc:1205-1235` | the least and greatest keys of a set of files |
| `Inputs.FindSmallestBoundaryFile` | `E-nounce/Pods/leveldb-library/db/version_set.cc:1344-1376` | the boundary file with the least first key, or none exactly if there is no boundary file |
| `Inputs.AddBoundaryInputs` | `E-nounce/Pods/leveldb-library/db/version_set.cc:1378-1401` | the files behind the given ones are, one after the other, the boundary files nearest to the end, until no file of the level is left that begins with the last user key |
| `Inputs.BoundaryKeepsConvex` | `E-nounce/Pods/leveldb-library/db/version_set.cc:1378-1401` | adding the nearest boundary file leaves no file of the level inside the range and outside the set |
| `Inputs.SetupOtherInputs` | `E-nounce/Pods/leveldb-library/db/version_set.cc:1403-1462` | from a proper pick, the two input sets form a valid compaction that is closed at its level and has every file of the next level in its range; the upper inputs are the picked files closed over boundary files, grown to all that fits the range of both sets exactly if that brings in no more files of the next level and stays below 25 times the file size limit |
| `Inputs.GrowInputs` | `E-nounce/Pods/leveldb-library/db/version_set.cc:1412-1447` | the larger input set is taken exactly if it grows the upper inputs and not the lower ones, within the byte limit |
| `Inputs.OverlapNextLevel` | `E-nounce/Pods/leveldb-library/db/version_set.cc:1407-1411` | the next level contributes exactly the files that meet the range of the inputs |
| `Inputs.ExpandInputs` | `E-nounce/Pods/leveldb-library/db/version_set.cc:1419-1422` | the larger set of inputs contains the old one and is closed like it |
| `Inputs.PickCompaction` | `E-nounce/Pods/leveldb-library/db/version_set.cc:1270-1324` | whatever level and file are chosen, the picked compaction is valid, contains the file, and is set up from it alone or, at level 0, from the least set of files that hangs together with it |
| `Inputs.TruncateInputs` | `E-nounce/Pods/leveldb-library/db/version_set.cc:1472-1487` | the selection is cut at the first file with which it reaches the size limit, and has no gap |
| `Inputs.CompactRange` | `E-nounce/Pods/leveldb-library/db/version_set.cc:1464-1495` | nothing to do exactly if no file meets the range; otherwise a valid compaction set up from the files in the range, cut above level 0 at the file that reaches the size limit |
| `Inputs.MustStop` | `E-nounce/Pods/leveldb-library/db/version_set.cc:500-513` | one round decides exactly whether there is a reason to stop at the level |
| `Inputs.PickLevelForMemTableOutput` | `E-nounce/Pods/leveldb-library/db/version_set.cc:491-516` | the first level with a reason to stop: a table pushed down meets no file at the levels it passes, at its own, nor too many bytes in the one after the next |
| `Builder.ReplayOnceIsReplayEach` | `E-nounce/Pods/leveldb-library/db/version_set.cc:650-754` | one builder that takes every edit and saves once gives the level that saving after each edit gives, in order, for every list of edits that never adds a number the level already held |
| `Builder.ReAddingRevivesBase` | `E-nounce/Pods/leveldb-library/db/version_set.cc:667-691` | why that condition: an edit that adds a deleted number again brings the file of the base back, which saving edit by edit does not |
| `Builder.VersionBuilder.Apply` | `E-nounce/Pods/leveldb-library/db/version_set.cc:650-692` | an edit changes each level as the level edit it holds for it says, and no other way |
| `Builder.VersionBuilder.SaveTo` | `E-nounce/Pods/leveldb-library/db/version_set.cc:695-739` | the saved levels are the merged, undeleted files of base and additions |
| `Builder.SaveLevelTo` | `E-nounce/Pods/leveldb-library/db/version_set.cc:706-721` | the merge loop with its upper bound yields the ordered merge without the deleted files |
| `Builder.SavedOrdered` | `E-nounce/Pods/leveldb-library/db/version_set.cc:695-739` | a saved level is in order of first key and number |
| `Manifest.ReplayIsCurrent` | `E-nounce/Pods/leveldb-library/db/version_set.cc:886-1011` | recovery from the manifest, one builder for all records, rebuilds the version that the edits had led to one by one |
| `Manifest.LoggingExtends` | `E-nounce/Pods/leveldb-library/db/version_set.cc:801-884` | a record appended to the manifest keeps it a faithful description of the current version |
| `Manifest.SnapshotDescribes` | `E-nounce/Pods/leveldb-library/db/version_set.cc:1088-1116` | a fresh manifest that starts with a snapshot describes the version |
| `EditCodec.FieldRoundTrip` | `E-nounce/Pods/leveldb-library/db/version_edit.cc:87-205` | each field of an edit reads back from its tag and body, whatever follows |
| `EditCodec.EditRoundTrip` | `E-nounce/Pods/leveldb-library/db/version_edit.cc:41-205` | an edit decodes back from its encoding, in whatever order its deleted files were written; of the edit decoded into only the compaction pointers remain, since Clear forgets to clear them (26-39) |
| `EditCodec.EncodeTo` | `E-nounce/Pods/leveldb-library/db/version_edit.cc:41-85` | writes each field of the edit once, the deleted files in ascending order of level and number |
| `EditCodec.DecodeFrom` | `E-nounce/Pods/leveldb-library/db/version_edit.cc:107-205` | on any bytes the loop yields what reading field by field yields, errors included |
| `Compacting.HiddenMeansShadowed` | `E-nounce/Pods/leveldb-library/db/db_impl.cc:937-948` | the running rule (A) drops an entry if and only if a newer version of its key, at or below the smallest snapshot, is among the inputs |
| `Compacting.SurvivorsAreNeeded` | `E-nounce/Pods/leveldb-library/db/db_impl.cc:937-968` | an input entry is kept exactly if no newer version of its key is at or below the smallest snapshot and, if it is a deletion at or below it, a file below the output level may have its key |
| `Compacting.KeptAreSurvivors` | `E-nounce/Pods/leveldb-library/db/db_impl.cc:928-999` | what the loop keeps is exactly the set of entries that survive both drop rules, stated without the order of the loop |
| `Compacting.BaseLevelCursor.IsBaseLevelForKey` | `E-nounce/Pods/leveldb-library/db/version_set.cc:1533-1552` | for keys that never decrease, the advancing level pointers decide the same as a scan of all deeper levels |
| `Compacting.CursorPastKey` | `E-nounce/Pods/leveldb-library/db/version_set.cc:1533-1552` | a pointer past the files before the key, with the key before its file, rules the whole level out |
| `Compacting.ShouldDrop` | `E-nounce/Pods/leveldb-library/db/db_impl.cc:937-963` | rule (A), or a deletion marker at or below the smallest snapshot with nothing deeper |
| `Compacting.DoCompactionWork` | `E-nounce/Pods/leveldb-library/db/db_impl.cc:878-1048` | the written files, end to end, hold exactly the kept entries in order, with consecutive new numbers and true bounds |
| `Compacting.DropsPreserveReads` | `E-nounce/Pods/leveldb-library/db/db_impl.cc:890-999` | every read at or above the smallest snapshot is unchanged of each key of which no dropped deletion uncovers an older value |
| `Compacting.UncoveringChangesRead` | `E-nounce/Pods/leveldb-library/db/db_impl.cc:890-999` | if one does, the deleted value can be read again |
| `Compacting.ReadsPreservedExactly` | `E-nounce/Pods/leveldb-library/db/db_impl.cc:890-999` | so, whatever keys are set aside, a compaction preserves every read of the others at or above the smallest snapshot if and only if its dropped deletions uncover values of none but those set aside |
| `Resurrection.ExampleCompaction` | `E-nounce/Pods/leveldb-library/db/version_set.cc:1403-1411` | a valid compaction of a valid version whose next-level inputs are not closed: only the first level of inputs is closed by AddBoundaryInputs |
| `Resurrection.DroppedMarkerRevivesValue` | `E-nounce/Pods/leveldb-library/db/db_impl.cc:949-960` | in it a deletion is dropped and the deleted value becomes readable |
| `Resurrection.PickRevives` | `E-nounce/Pods/leveldb-library/db/version_set.cc:1270-1324` | on that version picking a compaction leads to this one, and it makes the deleted value readable |
| `RevivedRun.ReachesExample` | `E-nounce/Pods/leveldb-library/db/db_impl.cc:1464-1495` | a run of the database, opening, writes, snapshot, flushes and one compaction, comes to that version |
| `RevivedRun.ExampleWritten` | `E-nounce/Pods/leveldb-library/db/db_impl.cc:878-1048` | there the compaction runs: its three inputs merge to one kept entry |
| `RevivedRun.RunRevives` | `E-nounce/Pods/leveldb-library/db/db_impl.cc:890-999` | and whatever files its outputs are cut into, the run goes on to a state in which a key that is absent in the plain map, and absent before, is found with its deleted value |
| `Install.NoOverlapIsNewer` | `E-nounce/Pods/leveldb-library/db/version_set.cc:491-516` | a table that meets no user key of another may stand above or below it |
| `Install.FlushKeepsVersion` | `E-nounce/Pods/leveldb-library/db/db_impl.cc:491-566` | a flushed table at an allowed level keeps every invariant of versions (levels above 0 sorted and disjoint; shallower and later means newer for each user key) and adds exactly its entries |
| `Install.ReplaceKeepsVersion` | `E-nounce/Pods/leveldb-library/db/db_impl.cc:860-876` | replacing the inputs of a valid compaction by ordered outputs that hold some of their entries keeps every invariant of versions |
| `Install.MoveKeepsVersion` | `E-nounce/Pods/leveldb-library/db/db_impl.cc:718-735` | a trivial move keeps every invariant of versions and changes no entry |
| `Install.OutputsSurvive` | `E-nounce/Pods/leveldb-library/db/db_impl.cc:878-1048` | the output files are in order and hold exactly the surviving entries |
| `Install.CompactionKeepsVersion` | `E-nounce/Pods/leveldb-library/db/db_impl.cc:860-876` | installing a compaction keeps every invariant of versions, and exactly the droppable entries of the inputs are gone |
| `Install.NothingOlderOutside` | `E-nounce/Pods/leveldb-library/db/version_set.cc:1403-1462` | if no user key of the inputs goes on in the next level outside them, then down to the output level everything outside the inputs is newer than what they hold of the same key |
| `Install.NothingUncovered` | `E-nounce/Pods/leveldb-library/db/version_set.cc:1403-1462` | under the same hypothesis no deletion that the compaction drops uncovers a value |
| `Steps.AppendKeeps` | `E-nounce/Pods/leveldb-library/db/db_impl.cc:1205-1215` | numbering a batch and logging it keeps the invariant of the database, and the history grows by exactly the numbered batch |
| `Steps.ApplyKeeps` | `E-nounce/Pods/leveldb-library/db/db_impl.cc:1223-1236` | inserting the logged batch into the memtable and publishing its last number keeps the invariant with no change of history |
| `Steps.TakeSnapshotKeeps` | `E-nounce/Pods/leveldb-library/db/db_impl.cc:1166-1169` | taking a snapshot keeps the invariant |
| `Steps.ReleaseSnapshotKeeps` | `E-nounce/Pods/leveldb-library/db/db_impl.cc:1171-1175` | releasing any snapshot keeps the invariant |
| `Invariant.InsertAllKeeps` | `E-nounce/Pods/leveldb-library/db/write_batch.cc:116-137` | inserting a batch of newer entries keeps the memtable sorted and adds exactly the batch |
| `Store.EntryDecides` | `E-nounce/Pods/leveldb-library/db/db_impl.cc:1185-1256` | the operation with number n decides the reads of its key at n and leaves every other read at n what it was at n - 1 |
| `Store.HistoryReads` | `E-nounce/Pods/leveldb-library/db/db_impl.cc:1185-1256` | reading the numbered history at n is looking the key up in a plain map after the first n operations |
| `FlushSteps.SwitchKeeps` | `E-nounce/Pods/leveldb-library/db/db_impl.cc:1345-1365` | the switch to a new memtable and log keeps the invariant |
| `FlushSteps.StartFlushKeeps` | `E-nounce/Pods/leveldb-library/db/db_impl.cc:491-533` | writing the table of the immutable memtable keeps the invariant |
| `FlushSteps.InstallFlushKeeps` | `E-nounce/Pods/leveldb-library/db/db_impl.cc:550-563` | installing it, which moves LogNumber() past the log of that memtable, keeps the invariant: nothing still needed is only in a log below the new number |
| `FlushSteps.DeleteObsoleteKeeps` | `E-nounce/Pods/leveldb-library/db/db_impl.cc:223-278` | deleting obsolete files keeps the invariant: no table that is live, held or pending and no log still needed is deleted |
| `CompactionSteps.StartCompactionKeeps` | `E-nounce/Pods/leveldb-library/db/db_impl.cc:878-1048` | writing the outputs of any valid compaction keeps the invariant, and changes no read |
| `CompactionSteps.CompactionKeepsReadsExactly` | `E-nounce/Pods/leveldb-library/db/db_impl.cc:890-999` | running and installing a valid compaction keeps the reads of all keys but some, at or above the smallest snapshot, if and only if it uncovers deleted values of none but those |
| `CompactionSteps.ClosedUncoversNothing` | `E-nounce/Pods/leveldb-library/db/version_set.cc:1403-1417` | a compaction uncovers no value at all whenever no file of the output level outside the inputs begins with the user key that an input there ends with |
| `CompactionSteps.InstallCompactionKeeps` | `E-nounce/Pods/leveldb-library/db/db_impl.cc:860-876` | installing them keeps the invariant: of the keys of which it uncovers a deleted value the reads are right again from their next write on, and all other reads at or above the smallest snapshot are unchanged |
| `CompactionSteps.TrivialMoveKeeps` | `E-nounce/Pods/leveldb-library/db/db_impl.cc:718-735` | a trivial move keeps the invariant |
| `LogReplay.RecoverLogFile` | `E-nounce/Pods/leveldb-library/db/db_impl.cc:371-489` | replaying a log puts each of its entries once, in order, into the tables written on the way and the memtable left; a reused log is the last one and its memtable holds all of it |
| `LogReplay.KeptLogNumbers` | `E-nounce/Pods/leveldb-library/db/db_impl.cc:323-350` | exactly the logs at or above the recorded number, in ascending order |
| `LogReplay.ReplayLogs` | `E-nounce/Pods/leveldb-library/db/db_impl.cc:349-366` | replaying the logs in order delivers every entry of them once, in numbered order |
| `Recovery.RecoveryIsFlushes` | `E-nounce/Pods/leveldb-library/db/db_impl.cc:349-369` | one edit with all the tables written in recovery gives the version that one flush after another to level 0 gives |
| `Recovery.RecoveredVersion` | `E-nounce/Pods/leveldb-library/db/db_impl.cc:349-369` | that version keeps every invariant of versions and gains exactly the entries of those tables |
| `Recovery.PlanLogs` | `E-nounce/Pods/leveldb-library/db/db_impl.cc:457-486` | after recovery the logs from the one in use on hold exactly what the memtable holds, whether the last log is reused or a new one is made |
| `Recovery.ReopenStored` | `E-nounce/Pods/leveldb-library/db/db_impl.cc:280-369` | recovery moves entries from logs to tables and holds what the disk held, nothing less and nothing more |
| `Recovery.ReopenKeeps` | `E-nounce/Pods/leveldb-library/db/db_impl.cc:280-369` | from any disk that a crash can leave, recovery with or without a manifest write, reusing the log or not, yields a database with the same history that meets the invariant |
| `Database.RecoverVersion` | `E-nounce/Pods/leveldb-library/db/version_set.cc:886-1011` | the recovered version is the replay of the manifest |
| `Database.Recover` | `E-nounce/Pods/leveldb-library/db/db_impl.cc:280-369` | the numbers, tables, memtable and log that recovery settles on are those the recovery theorem asks for |
| `Database.ReadDisk` | `E-nounce/Pods/leveldb-library/db/db_impl.cc:280-369` | reading the disk yields the reopened database of that plan |
| `Runs.StepKeeps` | `E-nounce/Pods/leveldb-library/db/db_impl.cc:1185-1256` | every step of any kind (write, insert, switch, flush, any valid compaction, move, deletion, snapshot, read, crash with recovery) keeps the invariant, and only a write changes the history |
| `Runs.EveryRunReadsLikeTheStore` | `E-nounce/Pods/leveldb-library/db/db_impl.cc:1100-1145` | after every run, crashes included, reading at a snapshot not below the smallest one is a lookup in the plain map after that many operations; of a key of which an installed compaction uncovered a deleted value, at snapshots that see a later write of it |
| `Runs.EveryRunIsDurable` | `E-nounce/Pods/leveldb-library/db/db_impl.cc:223-278` | at every moment of every run the tables and kept logs on disk alone read like the plain map, in the same sense; the manifest replays to the current version, and every live table is there |
| `Runs.RevivedIsUncovered` | `E-nounce/Pods/leveldb-library/db/db_impl.cc:949-960` | the keys excepted are exactly those of which a compaction of the run has uncovered a deleted value, from when it was installed |
| `Runs.ClosedRunsReviveNothing` | `E-nounce/Pods/leveldb-library/db/version_set.cc:1403-1417` | there are none if every compaction that is installed has its inputs closed at the next level, too; then every key reads like the plain map |
| `Runs.CrashLosesNothing` | `E-nounce/Pods/leveldb-library/db/db_impl.cc:280-566` | a crash and its recovery lose no logged operation, and leave the database with exactly the entries it held |
| `Runs.NoEntryTwice` | `E-nounce/Pods/leveldb-library/db/db_impl.cc:280-566` | after every run no entry is held twice, by two tables, by a table and a memtable, or by both memtables |
| `Readers.ContentRead` | `E-nounce/Pods/leveldb-library/db/db_impl.cc:1125-1133` | in every reachable state reading mem, then imm, then the tables is reading everything the database holds |
| `Readers.FutureUnseen` | `E-nounce/Pods/leveldb-library/db/db_impl.cc:1112-1136` | what others insert into the memtable that a reader shares does not change what it reads |
| `Readers.BeginReadKeeps` | `E-nounce/Pods/leveldb-library/db/db_impl.cc:1058-1087` | a reader that begins holds both memtables and the current version, whose tables are all on disk, and reads through them at its number what the history says, but for keys revived by then and not written since; which number that is, `Handles.ReaderStands` says |
| `Readers.EndReadKeeps` | `E-nounce/Pods/leveldb-library/db/db_impl.cc:1050-1058` | a reader that ends leaves the others what they hold |
| `Readers.AppendLeavesReaders` | `E-nounce/Pods/leveldb-library/db/db_impl.cc:1205-1215` | a write changes no read that is under way |
| `Readers.WritesLeaveReaders` | `E-nounce/Pods/leveldb-library/db/db_impl.cc:491-533` | tables are written under new numbers, so those that readers hold stay as they are |
| `Readers.DeletionLeavesReaders` | `E-nounce/Pods/leveldb-library/db/db_impl.cc:223-278` | no table of a version that a reader holds is deleted |
| `Runs.StepLeavesReaders` | `E-nounce/Pods/leveldb-library/db/db_impl.cc:1100-1145` | no step of any kind disturbs a reader that works without the mutex |
| `Runs.EveryReaderReadsLikeTheStore` | `E-nounce/Pods/leveldb-library/db/db_impl.cc:1100-1145` | over every run, whatever has happened since it began, compactions that revive keys included, and whatever has gone into the shared memtable, a reader finds what the plain map had at its number, of every key that was not revived when it began, or has a later write that it sees; and every table of its version is on disk as it was written |
| `Runs.SoundCrashes` | `E-nounce/Pods/leveldb-library/db/db_impl.cc:280-369` | whenever the process dies, the disk is one that recovery can start from |
| `Runs.CrashedRecovers` | `E-nounce/Pods/leveldb-library/db/db_impl.cc:280-369` | and from such a disk every recovery leads to a sound database with the same history |
| `Runs.StartKeeps` | `E-nounce/Pods/leveldb-library/db/db_impl.cc:280-313` | opening a new database starts with an empty history |
| `Handles.SnapshotStands` | `E-nounce/Pods/leveldb-library/db/snapshot.h:60-84` | over every run, the snapshot that a step took stands at its place, counted from the steps alone, with the number published by then, until a step releases it or a crash comes |
| `Handles.ReaderStands` | `E-nounce/Pods/leveldb-library/db/db_impl.cc:1105-1118` | so does each reader, with the number it asked for and the memtables and the version of then |
| `Handles.EveryPlaceTaken` | `E-nounce/Pods/leveldb-library/db/snapshot.h:60-84` | and there are no others: each place is that of a step that took it |
| `Handles.LastSequenceIsPublished` | `E-nounce/Pods/leveldb-library/db/db_impl.cc:1236` | the last number is that of the last operation whose batch was inserted, or recovered |
| `Handles.EverySnapshotReadsAsTaken` | `E-nounce/Pods/leveldb-library/db/db_impl.cc:1166-1175` | from the step that takes a snapshot to the one that releases it a read at it is a lookup in the plain map after the operations that were visible when it was taken, whichever other snapshots come and go, for every key that is settled |
| `Handles.EveryReaderReadsAsBegun` | `E-nounce/Pods/leveldb-library/db/db_impl.cc:1100-1145` | and from the step that begins a read to the one that ends it the reader finds what the plain map held after as many operations as the number asked for |
| `Effects.FlushDone` | `E-nounce/Pods/leveldb-library/db/db_impl.cc:535-566` | an installed flush has moved the immutable memtable into one file of its level, and recovery needs its log no more; nothing else changes |
| `Effects.CompactionDone` | `E-nounce/Pods/leveldb-library/db/db_impl.cc:860-876` | an installed compaction has its outputs at the level below in the place of its inputs, and every other file stays |
| `Effects.MoveDone` | `E-nounce/Pods/leveldb-library/db/db_impl.cc:718-735` | a trivial move takes one file one level down, and every other file stays |
| `Database.MemTableGet` | `E-nounce/Pods/leveldb-library/db/memtable.cc:100-136` | the memtable hits exactly if it has a visible version, and then answers the newest |
| `Database.InsertInto` | `E-nounce/Pods/leveldb-library/db/write_batch.cc:116-137` | the memtable inserter adds the batch entry by entry |
| `Database.AddLiveFiles` | `E-nounce/Pods/leveldb-library/db/version_set.cc:1167-1177` | exactly the numbers of the files of the current version and of all versions that readers hold |
| `Database.DBImpl.Open` | `E-nounce/Pods/leveldb-library/db/db_impl.cc:1474-1515` | opening whatever a crash has left yields a database with the history that the disk stands for |
| `Database.DBImpl.Get` | `E-nounce/Pods/leveldb-library/db/db_impl.cc:1100-1145` | with nothing happening in between: answers what reading everything held answers, and, at or above the smallest snapshot, what reading the whole history answers, but for a revived key without a later write below the snapshot |
| `Database.GetThrough` | `E-nounce/Pods/leveldb-library/db/db_impl.cc:1125-1133` | the three lookups answer what the first layer with a visible version holds |
| `Database.DBImpl.StartRead` | `E-nounce/Pods/leveldb-library/db/db_impl.cc:1100-1118` | Get up to the place where it lets go of the mutex: the new reader, behind the others, has the snapshot given or else the last number, and the current memtables and version |
| `Database.DBImpl.ReadHeld` | `E-nounce/Pods/leveldb-library/db/db_impl.cc:1119-1136` | the lookups on what the reader holds |
| `Database.DBImpl.FinishRead` | `E-nounce/Pods/leveldb-library/db/db_impl.cc:1119-1145` | the rest of Get after any other steps and inserts: answers what the whole history says at the number of the reader, of every key not revived when it began; exactly that reader goes |
| `Database.DBImpl.AppendToLog` | `E-nounce/Pods/leveldb-library/db/db_impl.cc:1205-1215` | does the append step on the fields of the object and keeps its invariant |
| `Database.DBImpl.ApplyPending` | `E-nounce/Pods/leveldb-library/db/db_impl.cc:1223-1236` | does the insert-and-publish step |
| `Database.DBImpl.SwitchMemtable` | `E-nounce/Pods/leveldb-library/db/db_impl.cc:1345-1365` | does the memtable switch step |
| `Database.DBImpl.WriteLevel0Table` | `E-nounce/Pods/leveldb-library/db/db_impl.cc:491-533` | writes the table at the level that PickLevelForMemTableOutput picks, and none for an empty memtable |
| `Database.DBImpl.StartFlush` | `E-nounce/Pods/leveldb-library/db/db_impl.cc:535-544` | does the first half of a flush, at a level the invariant allows |
| `Database.DBImpl.InstallFlush` | `E-nounce/Pods/leveldb-library/db/db_impl.cc:550-563` | does the second half |
| `Database.DBImpl.LogEdit` | `E-nounce/Pods/leveldb-library/db/version_set.cc:801-884` | the new version and the manifest record change together, as the edit says |
| `Database.DBImpl.StartCompaction` | `E-nounce/Pods/leveldb-library/db/db_impl.cc:878-1048` | does the writing half of any valid compaction: the outputs are those the install step needs |
| `Database.DBImpl.InstallCompaction` | `E-nounce/Pods/leveldb-library/db/db_impl.cc:860-876` | does the install step, and records what it revives |
| `Database.DBImpl.TrivialMove` | `E-nounce/Pods/leveldb-library/db/db_impl.cc:718-735` | does the move step |
| `Database.DBImpl.DeleteObsoleteFiles` | `E-nounce/Pods/leveldb-library/db/db_impl.cc:223-278` | does the deletion step: exactly the tables neither live, held by a reader nor pending and the logs below the log number go |
| `Database.KeepTables` | `E-nounce/Pods/leveldb-library/db/db_impl.cc:223-278` | keeps exactly the live tables |
| `Database.KeepLogs` | `E-nounce/Pods/leveldb-library/db/db_impl.cc:223-278` | keeps exactly the logs not below the log number |
| `Database.DBImpl.GetSnapshot` | `E-nounce/Pods/leveldb-library/db/db_impl.cc:1166-1169` | returns the last published number, which is one more among the snapshots |
| `Database.DBImpl.ReleaseSnapshot` | `E-nounce/Pods/leveldb-library/db/db_impl.cc:1171-1175` | the snapshots lose exactly that one, and the others keep their order |
| `WriteQueue.BuildBatchGroup` | `E-nounce/Pods/leveldb-library/db/db_impl.cc:1260-1306` | the longest stretch from the front of the queue of writers that may join under the size and sync rules; the result is their operations in queue order; tmp_batch_ holds nothing else |
| `WriteQueue.NoSyncUnderNonSync` | `E-nounce/Pods/leveldb-library/db/db_impl.cc:1260-1306` | no sync write is in a group whose leader does not sync |
| `WriteQueue.GroupIsBounded` | `E-nounce/Pods/leveldb-library/db/db_impl.cc:1268-1300` | a group has at most 128 kilobytes more than a small leading batch, or one megabyte in all behind a larger one, which may be larger still; the next writer is left out because it would not fit, or syncs where the leader does not |
| `WriteQueue.RunKeeps` | `E-nounce/Pods/leveldb-library/db/db_impl.cc:1185-1256` | the invariant of the queue holds after every interleaving of arrivals with the steps of the leader |
| `WriteQueue.CompletedInOrder` | `E-nounce/Pods/leveldb-library/db/db_impl.cc:1185-1256` | writers are completed once each, in the order they arrived, and tmp_batch_ is empty between groups |
| `WriteQueue.LoggedOnce` | `E-nounce/Pods/leveldb-library/db/db_impl.cc:1205-1236` | the log holds each operation of the finished writers, and of the group at work once logged, exactly once with consecutive numbers; LastSequence counts the finished ones |
| `WriteQueue.NeverStuck` | `E-nounce/Pods/leveldb-library/db/db_impl.cc:1185-1256` | a group at work can always take its next step, whoever arrives meanwhile |
| `WriteQueue.SyncIsKept` | `E-nounce/Pods/leveldb-library/db/db_impl.cc:1260-1306` | over every run a sync write is logged by a leader that syncs |
| `WriteQueue.AllOrNothing` | `E-nounce/Pods/leveldb-library/db/db_impl.cc:1205-1236` | the entries at or below a published number are exactly those of whole batches, in order |
| `WriteQueue.PublishedReads` | `E-nounce/Pods/leveldb-library/db/db_impl.cc:1205-1236` | a read at a published number is a lookup in the plain map after those batches, even while a group is half inserted |
| `GroupCommits.SessionIsRun` | `E-nounce/Pods/leveldb-library/db/db_impl.cc:1185-1256` | the queue at work on the database: every interleaving of its moves with flushes, compactions, deletions and readers is a run of the database |
| `GroupCommits.SessionIsQueueRun` | `E-nounce/Pods/leveldb-library/db/db_impl.cc:1185-1256` | and a run of the queue |
| `GroupCommits.SessionCoupled` | `E-nounce/Pods/leveldb-library/db/db_impl.cc:1205-1236` | in which the database has logged exactly the operations of the writers that are done and of the group at work, after those of earlier runs, and publishes them with the group |
| `GroupCommits.NeverRefused` | `E-nounce/Pods/leveldb-library/db/db_impl.cc:1185-1256` | a move that the queue allows is one that the database allows, whatever its background work does |
| `GroupCommits.GroupsReadWhole` | `E-nounce/Pods/leveldb-library/db/db_impl.cc:1205-1236` | at the number published with any writer, if not below the smallest snapshot, the whole database reads like the plain map after the batches up to his, but for a revived key that none of them has written since |
| `GroupCommits.CrashKeepsBatchesWhole` | `E-nounce/Pods/leveldb-library/db/db_impl.cc:1205-1236` | after a crash the database is that of all batches done and, once logged, of the group at work: each batch whole or not at all |
| `DbIter.LiveIsRead` | `E-nounce/Pods/leveldb-library/db/db_iter.cc:141-299` | the list that the iterator walks: a key is in it with a value exactly if a read at the snapshot finds that value |
| `DbIter.LiveAscending` | `E-nounce/Pods/leveldb-library/db/db_iter.cc:141-299` | its keys ascend strictly |
| `DbIter.DBIter.FindNextUserEntry` | `E-nounce/Pods/leveldb-library/db/db_iter.cc:168-198` | stops at the first live entry from the given place on, skipping shadowed and deleted ones |
| `DbIter.DBIter.FindPrevUserEntry` | `E-nounce/Pods/leveldb-library/db/db_iter.cc:227-267` | stops just before the last live entry in front of the given place and saves it, or finds that there is none |
| `DbIter.DBIter.Next` | `E-nounce/Pods/leveldb-library/db/db_iter.cc:141-166` | one place on in the list, whatever the direction before |
| `DbIter.DBIter.Prev` | `E-nounce/Pods/leveldb-library/db/db_iter.cc:200-225` | one place back in the list, or not valid from the first place, whatever the direction before |
| `DbIter.DBIter.Seek` | `E-nounce/Pods/leveldb-library/db/db_iter.cc:269-281` | the first place of the list at or after the target |
| `DbIter.DBIter.SeekToFirst` | `E-nounce/Pods/leveldb-library/db/db_iter.cc:283-292` | the first place, valid exactly if the list is not empty |
| `DbIter.DBIter.SeekToLast` | `E-nounce/Pods/leveldb-library/db/db_iter.cc:294-299` | the last place, valid exactly if the list is not empty |
| `DbIter.DBIter.Key` | `E-nounce/Pods/leveldb-library/db/db_iter.cc:64-67` | the key at the place, in both directions |
| `DbIter.DBIter.Value` | `E-nounce/Pods/leveldb-library/db/db_iter.cc:68-71` | the value at the place, in both directions |
| `Merger.NextAtCut` | `E-nounce/Pods/leveldb-library/table/merger.cc:148-161` | if every child is cut at a place of the union, the child that holds the entry of that place stands on it |
| `Merger.CutStays` | `E-nounce/Pods/leveldb-library/table/merger.cc:55-79` | moving over an entry of one child moves the cut of no other |
| `Merger.MergingIterator.FindSmallest` | `E-nounce/Pods/leveldb-library/table/merger.cc:148-161` | with all children cut at a place, the smallest current entry is that of the union there |
| `Merger.MergingIterator.FindLargest` | `E-nounce/Pods/leveldb-library/table/merger.cc:163-176` | with all children standing before a place, the largest current entry is that of the union just before it |
| `Merger.MergingIterator.Current` | `E-nounce/Pods/leveldb-library/table/merger.cc:110-118` | the entry of the sorted union at the place |
| `Merger.MergingIterator.SeekToFirst` | `E-nounce/Pods/leveldb-library/table/merger.cc:31-37` | the first place of the union |
| `Merger.MergingIterator.SeekToLast` | `E-nounce/Pods/leveldb-library/table/merger.cc:39-45` | the last place of the union |
| `Merger.MergingIterator.Seek` | `E-nounce/Pods/leveldb-library/table/merger.cc:47-53` | the first place of the union at or after the target |
| `Merger.MergingIterator.Next` | `E-nounce/Pods/leveldb-library/table/merger.cc:55-79` | one place on in the union, also right after Prev |
| `Merger.MergingIterator.Prev` | `E-nounce/Pods/leveldb-library/table/merger.cc:81-108` | one place back, or past the end from the first, also right after Next |
| `TwoLevel.SeekSpot` | `E-nounce/Pods/leveldb-library/table/two_level_iterator.cc:82-87` | seeking in the block that the index chooses, and going on to the next block if it has nothing, is seeking in the concatenation |
| `TwoLevel.TwoLevelIterator.SkipEmptyDataBlocksForward` | `E-nounce/Pods/leveldb-library/table/two_level_iterator.cc:115-126` | stays at the same place of the concatenation whatever empty blocks lie ahead; it terminates |
| `TwoLevel.TwoLevelIterator.SkipEmptyDataBlocksBackward` | `E-nounce/Pods/leveldb-library/table/two_level_iterator.cc:128-139` | reaches the entry just before the place, over empty blocks; it terminates |
| `TwoLevel.TwoLevelIterator.InitDataBlock` | `E-nounce/Pods/leveldb-library/table/two_level_iterator.cc:146-161` | the data iterator is that of the block the index stands on, kept if it is already |
| `TwoLevel.TwoLevelIterator.Seek` | `E-nounce/Pods/leveldb-library/table/two_level_iterator.cc:82-87` | the first place of the concatenation at or after the target |
| `TwoLevel.TwoLevelIterator.SeekToFirst` | `E-nounce/Pods/leveldb-library/table/two_level_iterator.cc:89-94` | the first place of the concatenation |
| `TwoLevel.TwoLevelIterator.SeekToLast` | `E-nounce/Pods/leveldb-library/table/two_level_iterator.cc:96-101` | the last place |
| `TwoLevel.TwoLevelIterator.Next` | `E-nounce/Pods/leveldb-library/table/two_level_iterator.cc:103-107` | one place on |
| `TwoLevel.TwoLevelIterator.Prev` | `E-nounce/Pods/leveldb-library/table/two_level_iterator.cc:109-113` | one place back, or past the end from the first |
| `TwoLevel.TwoLevelIterator.Current` | `E-nounce/Pods/leveldb-library/table/two_level_iterator.cc:31-39` | the entry of the concatenation at the place |
| `SkipLists.SkipList.FindGreaterOrEqual` | `E-nounce/Pods/leveldb-library/db/skiplist.h:260-282` | the first key at or after the one sought, and on every level its true predecessor |
| `SkipLists.SkipList.FindLessThan` | `E-nounce/Pods/leveldb-library/db/skiplist.h:284-302` | on a list at rest, the last key before the one given, or the head |
| `SkipLists.SkipList.FindLast` | `E-nounce/Pods/leveldb-library/db/skiplist.h:304-322` | on a list at rest, the greatest key, or the head of an empty list |
| `SkipLists.SkipList.Contains` | `E-nounce/Pods/leveldb-library/db/skiplist.h:370-378` | true exactly for the keys that were inserted |
| `SkipLists.SkipList.Insert` | `E-nounce/Pods/leveldb-library/db/skiplist.h:336-368` | adds exactly the key, at any height, and every level stays a sorted sublist of the level below |
| `SkipLists.SkipList.LinkAt` | `E-nounce/Pods/leveldb-library/db/skiplist.h:361-367` | one round links the node into one level and changes no other |
| `SkipLists.RandomHeight` | `E-nounce/Pods/leveldb-library/db/skiplist.h:242-252` | a height between one and the maximum |
| `SkipLists.StepKeeps` | `E-nounce/Pods/leveldb-library/db/skiplist.h:336-368` | every single pointer store of the inserter and every single look of a reader keeps the invariant of the shared list |
| `SkipLists.EveryStepSorted` | `E-nounce/Pods/leveldb-library/db/skiplist.h:336-368` | after every interleaving, in the middle of an insertion too, each level is sorted and a sublist of the one below |
| `SkipLists.SearchesMissNothing` | `E-nounce/Pods/leveldb-library/db/skiplist.h:260-282` | whatever is inserted meanwhile, FindGreaterOrEqual ends at a key at or after its target with no key skipped that was there when it began; a key that was there is found |
| `SkipLists.LessThanMissesNothing` | `E-nounce/Pods/leveldb-library/db/skiplist.h:284-302` | whatever is inserted meanwhile, FindLessThan ends at the head or at a key of the list before its target, with no key between the two that was there when it began |
| `SkipLists.LastMissesNothing` | `E-nounce/Pods/leveldb-library/db/skiplist.h:304-322` | whatever is inserted meanwhile, FindLast ends at or after every key that was there when it began |
| `SkipLists.NextSkipsNothing` | `E-nounce/Pods/leveldb-library/db/skiplist.h:206-210` | the link that an iterator follows leads to the next key in the list at that moment |
| `SkipLists.NeverStuck` | `E-nounce/Pods/leveldb-library/db/skiplist.h:260-282` | a reader and the inserter at work can always take a step |
| `Rings.RemoveFromRing` | `E-nounce/Pods/leveldb-library/util/cache.cc:239-242` | the two stores of LRU_Remove take the entry out of its circular list |
| `Rings.AppendToRing` | `E-nounce/Pods/leveldb-library/util/cache.cc:244-250` | the four stores of LRU_Append put the entry at the end of the circular list |
| `Rings.Lists.Remove` | `E-nounce/Pods/leveldb-library/util/cache.cc:239-242` | the entry leaves its list; the other list, linked through the same fields, is unchanged |
| `Rings.Lists.Append` | `E-nounce/Pods/leveldb-library/util/cache.cc:244-250` | the entry is the newest of the chosen list, and the other list is unchanged |
| `Rings.Lists.Oldest` | `E-nounce/Pods/leveldb-library/util/cache.cc:293-295` | lru_.next is the oldest entry, or the head of an empty list |
| `HandleTables.HandleTable.FindPointer` | `E-nounce/Pods/leveldb-library/util/cache.cc:114-120` | the slot that holds the first entry of the name in its chain, or the end of the chain |
| `HandleTables.HandleTable.Lookup` | `E-nounce/Pods/leveldb-library/util/cache.cc:74-76` | the member of that name; none exactly if there is none |
| `HandleTables.HandleTable.Insert` | `E-nounce/Pods/leveldb-library/util/cache.cc:78-92` | the members gain the entry and lose exactly the one of its name, which is returned |
| `HandleTables.HandleTable.Remove` | `E-nounce/Pods/leveldb-library/util/cache.cc:94-102` | the members lose exactly the entry of that name, if there is one |
| `HandleTables.DoubledLength` | `E-nounce/Pods/leveldb-library/util/cache.cc:122-126` | the first power of two from four up with room for all |
| `HandleTables.HandleTable.Resize` | `E-nounce/Pods/leveldb-library/util/cache.cc:122-147` | relinking every entry into the new array loses none and adds none, and leaves room for all |
| `HandleTables.StoredTable` | `E-nounce/Pods/leveldb-library/util/cache.cc:78-102` | a store into the slot found changes that chain alone |
| `HandleTables.MemberChain` | `E-nounce/Pods/leveldb-library/util/cache.cc:114-120` | the table is a map from names: a member is in the chain of its hash and nowhere else |
| `HandleTables.AllMoved` | `E-nounce/Pods/leveldb-library/util/cache.cc:128-143` | when every chain has been moved the new chains have the members of the old ones |
| `LruCache.OneListEach` | `E-nounce/Pods/leveldb-library/util/cache.cc:217-237` | an entry in the cache is in exactly one list, lru_ exactly if no client holds it; an entry not in the cache is in none |
| `LruCache.EveryDeleterOnce` | `E-nounce/Pods/leveldb-library/util/cache.cc:225-237` | once clients hold nothing and lru_ is empty, every entry ever made has been deleted once, and usage is zero |
| `LruCache.RefKeeps` | `E-nounce/Pods/leveldb-library/util/cache.cc:217-223` | a reference keeps the invariant (usage is the sum of charges, lists, counts, table) |
| `LruCache.UnrefKeeps` | `E-nounce/Pods/leveldb-library/util/cache.cc:225-237` | giving one up keeps it, through the deleter and through the move back to lru_ |
| `LruCache.ReleaseKeeps` | `E-nounce/Pods/leveldb-library/util/cache.cc:261-264` | a release by a holder keeps it |
| `LruCache.FinishEraseKeeps` | `E-nounce/Pods/leveldb-library/util/cache.cc:307-316` | finishing the erasure of an entry already out of the hash table restores it |
| `LruCache.CreatedKeeps` | `E-nounce/Pods/leveldb-library/util/cache.cc:272-292` | a new entry keeps it, with the cache turned off too |
| `LruCache.EvictedKeeps` | `E-nounce/Pods/leveldb-library/util/cache.cc:293-300` | evicting the oldest entry keeps it |
| `LruCache.ReleasedAged` | `E-nounce/Pods/leveldb-library/util/cache.cc:225-237` | releasing an entry puts it behind all that were let go before, so that lru_ stays in the order in which clients let go of its entries |
| `LruCache.ReferencedAged` | `E-nounce/Pods/leveldb-library/util/cache.cc:217-223` | taking one into use keeps that order of the others |
| `LruCache.ErasedAged` | `E-nounce/Pods/leveldb-library/util/cache.cc:307-317` | and so does erasing one |
| `LruCache.OldestGoFirst` | `E-nounce/Pods/leveldb-library/util/cache.cc:293-300` | what eviction takes was let go before everything that it leaves in lru_ |
| `LruCache.TrimmedKeepsHeld` | `E-nounce/Pods/leveldb-library/util/cache.cc:293-300` | and no entry that clients hold is touched |
| `LruCache.NewIsEntered` | `E-nounce/Pods/leveldb-library/util/cache.cc:266-292` | the caller holds the new entry once, and it is in the cache exactly if the capacity is not zero |
| `LruCache.TrimmedShape` | `E-nounce/Pods/leveldb-library/util/cache.cc:293-300` | eviction takes the oldest entries in order, no more than needed, until the charge fits or lru_ is empty |
| `LruCache.LRUCache.Ref` | `E-nounce/Pods/leveldb-library/util/cache.cc:217-223` | does that on the fields and the linked lists |
| `LruCache.LRUCache.Unref` | `E-nounce/Pods/leveldb-library/util/cache.cc:225-237` | gives up one reference on the fields and the linked lists |
| `LruCache.LRUCache.Lookup` | `E-nounce/Pods/leveldb-library/util/cache.cc:252-259` | the entry of that name in the cache, with one more reference; none exactly if there is none |
| `LruCache.LRUCache.Release` | `E-nounce/Pods/leveldb-library/util/cache.cc:261-264` | one reference of the caller less, and nothing else |
| `LruCache.LRUCache.Insert` | `E-nounce/Pods/leveldb-library/util/cache.cc:266-303` | the new entry is held by the caller and replaces exactly the one of its name; the oldest go until usage fits the capacity or none is left: each of them was let go by its clients before all those that stay in lru_, and entries that clients hold stay |
| `LruCache.LRUCache.FinishErase` | `E-nounce/Pods/leveldb-library/util/cache.cc:307-316` | says whether there was an entry, and erases it |
| `LruCache.LRUCache.Erase` | `E-nounce/Pods/leveldb-library/util/cache.cc:318-321` | afterwards the cache has exactly the entries of other names |
| `LruCache.LRUCache.Prune` | `E-nounce/Pods/leveldb-library/util/cache.cc:323-333` | lru_ is empty and the entries in use are untouched |
| `Coding.FixedRoundTrip` | `E-nounce/Pods/leveldb-library/util/coding.cc:9-33` | a number decodes back from its fixed-width encoding if and only if it fits |
| `Coding.VarintRoundTrip` | `E-nounce/Pods/leveldb-library/util/coding.cc:47-157` | a varint decodes back whatever follows, within the number of bytes its size allows |
| `Coding.Get32RoundTrip` | `E-nounce/Pods/leveldb-library/util/coding.cc:112-140` | every 32-bit number reads back, with the rest of the input |
| `Coding.Get64RoundTrip` | `E-nounce/Pods/leveldb-library/util/coding.cc:142-169` | every 64-bit number reads back, with the rest of the input |
| `Coding.EncodeVarint32` | `E-nounce/Pods/leveldb-library/util/coding.cc:47-73` | the five cases write the same bytes as the loop |
| `Coding.EncodeVarint64` | `E-nounce/Pods/leveldb-library/util/coding.cc:81-90` | the loop writes the varint |
| `Coding.VarintLength` | `E-nounce/Pods/leveldb-library/util/coding.cc:103-110` | the number of bytes that the encoder writes |
| `Coding.GetVarintPtr` | `E-nounce/Pods/leveldb-library/util/coding.cc:112-157` | on any bytes the loop reads what the varint says, bits beyond the width lost, and fails where it is cut or too long |
| `Coding.PrefixedRoundTrip` | `E-nounce/Pods/leveldb-library/util/coding.cc:98-190` | a length-prefixed string reads back whatever follows |
| `Comparators.BytewiseIsOrder` | `E-nounce/Pods/leveldb-library/util/comparator.cc:25-27` | the bytewise comparator is a total order, as blocks need it |
| `Comparators.InternalIsOrder` | `E-nounce/Pods/leveldb-library/db/dbformat.cc:51-67` | the internal-key comparator is one over any comparator of user keys that is |
| `Comparators.KeyRoundTrip` | `E-nounce/Pods/leveldb-library/db/dbformat.h:165-175` | an internal key reads back from its bytes |
| `Comparators.EncodedOrder` | `E-nounce/Pods/leveldb-library/db/dbformat.cc:51-67` | on the bytes of internal keys that comparator is the order that the tables and the engine use |
| `Comparators.NewerMayDescend` | `E-nounce/Pods/leveldb-library/db/dbformat.cc:51-67` | which is not the order of the bytes: two versions of a key, newer first as in every table, descend in it whenever the low byte of the newer number is the larger one |
| `Blocks.BlockBuilder.SharedLength` | `E-nounce/Pods/leveldb-library/table/block_builder.cc:78-84` | the longest common prefix of the last key and the new one |
| `Blocks.BlockBuilder.Add` | `E-nounce/Pods/leveldb-library/table/block_builder.cc:72-106` | under any comparator, with a key after the last in its order: the block holds one more pair; the entry shares the longest prefix, except at a restart point, one every interval entries |
| `Blocks.BlockBuilder.Finish` | `E-nounce/Pods/leveldb-library/table/block_builder.cc:62-70` | the finished bytes are a block of exactly the added pairs, with the offsets of its restart points and their number at the end |
| `Blocks.BlockBuilder.Reset` | `E-nounce/Pods/leveldb-library/table/block_builder.cc:47-54` | an empty builder again |
| `Blocks.DecodeEntry` | `E-nounce/Pods/leveldb-library/table/block.cc:54-74` | on any bytes the three numbers, in 32 bits, and whether their sum in 32 bits has room; the three-byte path and the general one agree |
| `Blocks.EntryFrontIs` | `E-nounce/Pods/leveldb-library/table/block.cc:54-74` | where an entry was encoded, its numbers, the rest of its key and its value are found |
| `Blocks.BlockTail` | `E-nounce/Pods/leveldb-library/table/block.cc:18-39` | the last bytes of a finished block tell where its restart array starts and how long it is |
| `Blocks.BlockIter.GetRestartPoint` | `E-nounce/Pods/leveldb-library/table/block.cc:99-102` | the offset of the entry that the restart point marks |
| `Blocks.BlockIter.ParseNextKey` | `E-nounce/Pods/leveldb-library/table/block.cc:224-251` | the key is rebuilt from the prefix of the one before, and the end is noticed |
| `Blocks.BlockIter.Next` | `E-nounce/Pods/leveldb-library/table/block.cc:137-140` | one added pair on |
| `Blocks.BlockIter.Prev` | `E-nounce/Pods/leveldb-library/table/block.cc:142-161` | the pair just before, found from the restart point before it, or not valid from the first |
| `Blocks.BlockIter.SearchRestarts` | `E-nounce/Pods/leveldb-library/table/block.cc:163-189` | under any comparator, everything before the chosen restart point is before the target |
| `Blocks.BlockIter.Seek` | `E-nounce/Pods/leveldb-library/table/block.cc:163-201` | under any comparator, the first added pair at or after the target, or the end |
| `Blocks.BlockIter.SeekToFirst` | `E-nounce/Pods/leveldb-library/table/block.cc:203-206` | the first added pair |
| `Blocks.BlockIter.SeekToLast` | `E-nounce/Pods/leveldb-library/table/block.cc:208-213` | the last added pair |
| `DataBlocks.EncodedAscends` | `E-nounce/Pods/leveldb-library/db/db_impl.cc:127-131` | the bytes of a data block ascend under the comparator of the database exactly if its entries are in the order of the engine |
| `DataBlocks.AddEntry` | `E-nounce/Pods/leveldb-library/table/table_builder.cc:94-123` | an entry that comes next in that order can be added to the block |
| `DataBlocks.SeekMatches` | `E-nounce/Pods/leveldb-library/table/block.cc:163-201` | the place that a seek on the bytes ends at is that of the search among the entries |
| `DataBlocks.SeekInBlock` | `E-nounce/Pods/leveldb-library/table/table.cc:216-244` | seeking a data block on its bytes yields the entry that was added there, the first at or after the target |
| `Separators.LessIsCompare` | `E-nounce/Pods/leveldb-library/db/dbformat.cc:51-67` | the comparator on internal keys and the order that the engine modules use agree |
| `Separators.FindShortestSeparator` | `E-nounce/Pods/leveldb-library/util/comparator.cc:29-50` | a key strictly between the two that ends at the byte where they split; the first key unchanged exactly if they leave no room there |
| `Separators.FindShortSuccessor` | `E-nounce/Pods/leveldb-library/util/comparator.cc:52-64` | a later key that ends at the first byte other than 0xff; the key unchanged exactly if there is none |
| `Separators.FindShortestInternalSeparator` | `E-nounce/Pods/leveldb-library/db/dbformat.cc:69-86` | the key itself, or a key for seeking strictly between the two with a user key before the second; shortened exactly if the user key gets shorter |
| `Separators.FindShortInternalSuccessor` | `E-nounce/Pods/leveldb-library/db/dbformat.cc:88-101` | the key itself, or a later key for seeking; shortened exactly if the user key gets shorter |
| `Tables.TableBuilder.Add` | `E-nounce/Pods/leveldb-library/table/table_builder.cc:94-123` | the contents gain the entry, whether it closes a deferred index entry or fills the block |
| `Tables.TableBuilder.Flush` | `E-nounce/Pods/leveldb-library/table/table_builder.cc:125-139` | the contents stay and the data block is empty |
| `Tables.TableBuilder.Finish` | `E-nounce/Pods/leveldb-library/table/table_builder.cc:198-253` | the finished table holds exactly the added entries, and each index key lies at or after its block and before the next |
| `Tables.TableIsIndexed` | `E-nounce/Pods/leveldb-library/table/table_builder.cc:94-139` | the table is one that the two-level iterator may walk |
| `Tables.ChosenBlockSuffices` | `E-nounce/Pods/leveldb-library/table/table.cc:216-244` | if a later block has a version of the key, the block chosen has an entry at or after the target |
| `Tables.VisibleIsFound` | `E-nounce/Pods/leveldb-library/table/table.cc:216-244` | if the table has a visible version, the seek in the chosen block reaches one that is no older |
| `Tables.InternalGet` | `E-nounce/Pods/leveldb-library/table/table.cc:216-244` | searching the one block chosen, if the filter lets it, finds the newest visible version in the whole table, or the table has none |
| `Tables.FilterBlockServes` | `E-nounce/Pods/leveldb-library/table/filter_block.cc:77-104` | the filter block that was built with the keys of a table denies no key of the block at its offset |
| `Tables.FilteredGet` | `E-nounce/Pods/leveldb-library/table/table.cc:216-244` | so with that filter block, too, one block is searched and the answer is that of the whole table |
| `Bloom.KeysSet` | `E-nounce/Pods/leveldb-library/util/bloom.cc:28-54` | the bits of a filter are exactly the probed ones of its keys |
| `Bloom.MatchIs` | `E-nounce/Pods/leveldb-library/util/bloom.cc:28-80` | a key matches exactly if each of its probes was set by some key; so every key of the filter matches |
| `Bloom.ProbeIs` | `E-nounce/Pods/leveldb-library/util/bloom.cc:43-53` | probe `j` is the hash and `j` times the rotated hash, in 32 bits |
| `Bloom.DeltaRotates` | `E-nounce/Pods/leveldb-library/util/bloom.cc:47` | the rotation, as multiplication modulo the largest word |
| `Bloom.FilterShape` | `E-nounce/Pods/leveldb-library/util/bloom.cc:19-41` | a filter has the fewest bytes that hold 64 bits and the bits for each key, and the number of probes, 0.69 times those for a key, rounded down, within 1 and 30 |
| `Bloom.SetBitInPlace` | `E-nounce/Pods/leveldb-library/util/bloom.cc:49-50` | sets that bit of the array and no other |
| `Bloom.SetProbesInPlace` | `E-nounce/Pods/leveldb-library/util/bloom.cc:46-52` | sets exactly the probes of one key |
| `Bloom.CreateFilter` | `E-nounce/Pods/leveldb-library/util/bloom.cc:28-54` | appends the filter of the keys, rounded up to bytes and at least 64 bits, with the number of probes that the bits for a key give |
| `Bloom.KeyMayMatch` | `E-nounce/Pods/leveldb-library/util/bloom.cc:56-80` | on any bytes: true exactly if all probes are set, or the filter is of a kind unknown; false on one too short |
| `FilterBlocks.ReadsGroup` | `E-nounce/Pods/leveldb-library/table/filter_block.cc:77-104` | the reader asks exactly the filter of the window of the block offset; beyond the last window it lets the key pass |
| `FilterBlocks.NoFalseNegatives` | `E-nounce/Pods/leveldb-library/table/filter_block.cc:21-104` | no key is denied under a block it was added for, over empty windows and several blocks in a window |
| `FilterBlocks.BloomIsSound` | `E-nounce/Pods/leveldb-library/util/bloom.cc:28-80` | the Bloom policy denies no key of its filter, for any hash and any bits per key |
| `FilterBlocks.FilterBlockBuilder.GenerateFilter` | `E-nounce/Pods/leveldb-library/table/filter_block.cc:51-75` | the keys waiting become the filter of one window, an empty one if there are none |
| `FilterBlocks.FilterBlockBuilder.StartBlock` | `E-nounce/Pods/leveldb-library/table/filter_block.cc:21-27` | filters are made up to the window of the offset, so that keys added next belong to it |
| `FilterBlocks.FilterBlockBuilder.AddKey` | `E-nounce/Pods/leveldb-library/table/filter_block.cc:29-33` | the key is added for the current block |
| `FilterBlocks.FilterBlockBuilder.Finish` | `E-nounce/Pods/leveldb-library/table/filter_block.cc:35-49` | the filters, their offsets and the base; the reader denies no added key |
| `LogChecksum.CrcIsGood` | `E-nounce/Pods/leveldb-library/db/log_writer.cc:82-108` | the reader accepts what the writer seals: the masked CRC over type and payload |
| `CrcDetection.AcceptsExactly` | `E-nounce/Pods/leveldb-library/db/log_reader.cc:243-256` | of all stored checksums of a piece the reader accepts the one that the writer stores, and no other |
| `CrcDetection.BurstDetected` | `E-nounce/Pods/leveldb-library/util/crc32c.cc:276-374` | two strings that differ, but only within four bytes in a row, have different checksums |
| `CrcDetection.DamageRejected` | `E-nounce/Pods/leveldb-library/db/log_reader.cc:243-256` | so a sealed piece with up to four bytes in a row changed is not accepted |
| `CrcDetection.DamagedPieceReported` | `E-nounce/Pods/leveldb-library/db/log_reader.cc:189-272` | the reader gives up the block at such a piece, whatever stands behind it, and reports it once |
| `CrcDetection.UndamagedIsPiece` | `E-nounce/Pods/leveldb-library/db/log_writer.cc:82-108` | with nothing changed it is the piece that the writer writes |
| `CrcDetection.KnownChecksum` | `E-nounce/Pods/leveldb-library/util/crc32c.cc:276-374` | the checksum of 32 zero bytes is that of section B.4 of RFC 3720, with its mask and its bytes |
| `LogFormat.LogExtends` | `E-nounce/Pods/leveldb-library/db/log_writer.cc:34-80` | one more record extends the log of those before it |
| `LogFormat.ResumedExtends` | `E-nounce/Pods/leveldb-library/db/log_writer.cc:27-30` | a writer opened on a complete log, which knows its length alone, goes on with that log |
| `LogFormat.Writer.EmitPhysicalRecord` | `E-nounce/Pods/leveldb-library/db/log_writer.cc:82-108` | appends one sealed piece |
| `LogFormat.Writer.SwitchBlock` | `E-nounce/Pods/leveldb-library/db/log_writer.cc:44-54` | a block end too short for a header is filled with zeros |
| `LogFormat.Writer.AddPiece` | `E-nounce/Pods/leveldb-library/db/log_writer.cc:56-77` | one piece, as long as the block allows; a piece of length zero only where just a header fits |
| `LogFormat.Writer.AddRecord` | `E-nounce/Pods/leveldb-library/db/log_writer.cc:34-80` | the fragmenting loop writes the layout of the record from wherever the block stands |
| `LogReading.WholePiece` | `E-nounce/Pods/leveldb-library/db/log_reader.cc:189-271` | a piece that is all there reads back |
| `LogReading.CutPiece` | `E-nounce/Pods/leveldb-library/db/log_reader.cc:189-271` | a piece cut off reads as the end of the file, with no report |
| `LogReading.LayoutRead` | `E-nounce/Pods/leveldb-library/db/log_reader.cc:56-174` | a record reads back from its pieces, across blocks and trailers; if it is cut off, the end of the file is read and nothing reported |
| `LogReading.PrefixReads` | `E-nounce/Pods/leveldb-library/db/log_reader.cc:56-174` | reading any prefix of a log gives exactly the records whose last byte is in it, in order, and reports no corruption |
| `LogReading.LogSurvivesCrash` | `E-nounce/Pods/leveldb-library/db/log_reader.cc:56-174` | the same under the CRC that writer and reader share |
| `TornLogs.TornRead` | `E-nounce/Pods/leveldb-library/db/log_reader.cc:56-174` | whatever is written behind the cut, reading comes to that piece with no report, and with the payload of those before it gathered |
| `TornLogs.TornThen` | `E-nounce/Pods/leveldb-library/db/log_reader.cc:56-174` | so a log that goes on behind a torn record reads as its whole records and then from that piece on |
| `TornLogs.BoundaryLosesNothing` | `E-nounce/Pods/leveldb-library/db/db_impl.cc:457-486` | a writer that goes on with a log torn between two pieces loses nothing: all whole records and all new ones are read, and the torn one is reported if any payload of it was there |
| `TornLogs.TornPieceHides` | `E-nounce/Pods/leveldb-library/db/log_reader.cc:189-271` | torn inside a piece, the new bytes are taken for the rest of it: unless they happen to fit its length and checksum, nothing up to the end of the block is read |
| `TornLogs.BehindRead` | `E-nounce/Pods/leveldb-library/db/log_reader.cc:56-174` | reading a log from the end of a block on gives exactly the records that begin behind it: the rest of one that began before is skipped |
| `TornLogs.TornPieceThenLog` | `E-nounce/Pods/leveldb-library/db/db_impl.cc:457-486` | so of what a writer appends behind a torn piece exactly the records are read that begin behind the end of that block, unless the outcome happens to be a piece |
| `TornLogs.TakenForTheRest` | `E-nounce/Pods/leveldb-library/db/db_impl.cc:457-486` | and until the length of the torn piece is made up, what was appended is lost without a report |
| `LogReading.Reader.ReadPhysicalRecord` | `E-nounce/Pods/leveldb-library/db/log_reader.cc:189-271` | the buffered reader delivers what reading the file front to back delivers |
| `LogReading.Reader.ReadRecord` | `E-nounce/Pods/leveldb-library/db/log_reader.cc:56-174` | the next logical record, with the same rest of the file and the same reports |
| `Crc32c.ByteTable` | `E-nounce/Pods/leveldb-library/util/crc32c.cc:20-64` | entries 1, 2, 4 up to 128 of the byte table are those of the polynomial of section 12.1 of RFC 3720; AdvanceLinear gives the others |
| `Crc32c.AdvanceLinear` | `E-nounce/Pods/leveldb-library/util/crc32c.cc:20-243` | advancing over zero bytes is linear, which is what the tables rest on |
| `Crc32c.WordIsXors` | `E-nounce/Pods/leveldb-library/util/crc32c.cc:249-251` | the little-endian word is the sum without carry of its shifted bytes |
| `Crc32c.FourSteps` | `E-nounce/Pods/leveldb-library/util/crc32c.cc:312-320` | four byte steps are one word xor followed by an advance of four bytes |
| `Crc32c.StrideIsAdvance` | `E-nounce/Pods/leveldb-library/util/crc32c.cc:293-300` | the four stride tables together advance a register by sixteen bytes |
| `Crc32c.StrideStep` | `E-nounce/Pods/leveldb-library/util/crc32c.cc:349-358` | one word through one stride keeps the register that the four partial results stand for |
| `Crc32c.FoldIsCombined` | `E-nounce/Pods/leveldb-library/util/crc32c.cc:360-365` | folding the four partial results gives that register |
| `Crc32c.Step16` | `E-nounce/Pods/leveldb-library/util/crc32c.cc:302-310` | sixteen bytes through the four strides |
| `Crc32c.Striped` | `E-nounce/Pods/leveldb-library/util/crc32c.cc:332-366` | the loop with four partial results ends at the register of a byte at a time |
| `Crc32c.StepBytes` | `E-nounce/Pods/leveldb-library/util/crc32c.cc:286-291` | the byte loop |
| `Crc32c.Extend` | `E-nounce/Pods/leveldb-library/util/crc32c.cc:276-377` | for every length and every alignment the result is that of one byte at a time |
| `Crc32c.ExtendComposes` | `E-nounce/Pods/leveldb-library/util/crc32c.h:14-17` | extending over A and then B is extending over A followed by B |
| `Crc32c.MaskRoundTrip` | `E-nounce/Pods/leveldb-library/util/crc32c.h:22-38` | masking and unmasking undo each other on all 32-bit values |
| `BatchCodec.OpRoundTrip` | `E-nounce/Pods/leveldb-library/db/write_batch.cc:42-109` | an operation reads back from its record, whatever follows |
| `BatchCodec.BatchRoundTrip` | `E-nounce/Pods/leveldb-library/db/write_batch.cc:42-137` | iterating over a batch gives its operations in order, and inserting it numbers them from its sequence number |
| `BatchCodec.WriteBatch.Put` | `E-nounce/Pods/leveldb-library/db/write_batch.cc:98-103` | one operation more; the count in the header is right |
| `BatchCodec.WriteBatch.Delete` | `E-nounce/Pods/leveldb-library/db/write_batch.cc:105-109` | one deletion more; the count in the header is right |
| `BatchCodec.WriteBatch.Append` | `E-nounce/Pods/leveldb-library/db/write_batch.cc:144-148` | the operations of the other batch follow; the sequence number stays |
| `BatchCodec.WriteBatch.SetSequence` | `E-nounce/Pods/leveldb-library/db/write_batch.cc:90-96` | patching the header changes the sequence number alone |
| `BatchCodec.WriteBatch.Count` | `E-nounce/Pods/leveldb-library/db/write_batch.cc:82-88` | the number of operations put in |
| `BatchCodec.WriteBatch.Iterate` | `E-nounce/Pods/leveldb-library/db/write_batch.cc:42-80` | the operations put in, in order |
| `BatchCodec.IterateBytes` | `E-nounce/Pods/leveldb-library/db/write_batch.cc:42-80` | on any bytes the operations, or the error, that reading record by record gives, count mismatch included |
| `CutInput.CutBatchRejected` | `E-nounce/Pods/leveldb-library/db/write_batch.cc:42-80` | no proper part of a batch is taken for a batch |
| `CutInput.WrongCountRejected` | `E-nounce/Pods/leveldb-library/db/write_batch.cc:75-79` | nor are the records of one behind a header that counts more or fewer |
| `CutInput.EditCut` | `E-nounce/Pods/leveldb-library/db/version_edit.cc:107-205` | of an edit cut off anywhere the whole fields are read if it is cut between two, and it is an error otherwise |
| `CutInput.UnknownTag` | `E-nounce/Pods/leveldb-library/db/version_edit.cc:190-192` | tags that there are not are an error |
| `KnownBytes.Batches` | `E-nounce/Pods/leveldb-library/db/write_batch.cc:5-14` | a batch of a put and a deletion, byte by byte |
| `KnownBytes.Varints` | `E-nounce/Pods/leveldb-library/util/coding.cc:47-78` | varints of one byte and of two, and a string with its length |
| `KnownBytes.LongVarint` | `E-nounce/Pods/leveldb-library/util/coding.cc:112-128` | a varint of five bytes loses its bits above the thirty-second, and a sixth byte is not read |
| `KnownBytes.FixedWidths` | `E-nounce/Pods/leveldb-library/util/coding.cc:9-30` | numbers of fixed width, the lowest byte first |
| `KnownBytes.EditFields` | `E-nounce/Pods/leveldb-library/db/version_edit.cc:14-24` | one field of each tag of a version edit, byte by byte |
| `KnownBytes.InternalKeys` | `E-nounce/Pods/leveldb-library/db/dbformat.h:79-84` | two internal keys, byte by byte |
| `KnownBytes.BlockEntries` | `E-nounce/Pods/leveldb-library/table/block_builder.cc:17-23` | two entries of a block, byte by byte |
| `KnownBytes.LogPieces` | `E-nounce/Pods/leveldb-library/db/log_format.h:13-31` | a piece of a log, byte by byte, and the four kinds |
| `KnownBytes.FilterBlock` | `E-nounce/Pods/leveldb-library/table/filter_block.cc:35-50` | a filter block, byte by byte |
| `Descriptors.ZeroIsInitial` | `E-nounce/Pods/nanopb/pb_encode.c:215-303` | where a value was left out because it is zero, decoding finds zeros: an array of fixed count included, on zeroed storage |
| `Descriptors.MessageKeptWhole` | `E-nounce/Pods/nanopb/pb_encode.c:215-303` | of a message all is kept, on zeroed storage, exactly if every submessage that is left out is zero in all its parts |
| `ProtoEncoder.CheckDefault` | `E-nounce/Pods/nanopb/pb_encode.c:215-303` | the check goes through all fields of a submessage, and takes the first bytes of an array of fixed count for its count |
| `ProtoRoundTrip.EmptyMessage` | `E-nounce/Pods/nanopb/pb_decode.c:901-1063` | empty input decodes to the defaults exactly if no field is required, and is an error exactly if one is |
| `ProtoScalars.ZigzagRoundTrip` | `E-nounce/Pods/nanopb/pb_encode.c:596-605` | zigzag is undone by its inverse on all 64-bit values, and interleaves the negative numbers |
| `ProtoScalars.SignedRoundTrip` | `E-nounce/Pods/nanopb/pb_encode.c:734-755` | a signed number survives sign extension to 64 bits and the cut back to its own size |
| `ProtoScalars.ScalarRoundTrip` | `E-nounce/Pods/nanopb/pb_decode.c:1289-1372` | every scalar in range decodes back from its encoding, whatever follows |
| `ProtoRoundTrip.TagRead` | `E-nounce/Pods/nanopb/pb_decode.c:293-314` | tag and wire type read back |
| `ProtoRoundTrip.FindIs` | `E-nounce/Pods/nanopb/pb_common.c:78-95` | with unique tags the search finds the field itself |
| `ProtoRoundTrip.ValueRoundTrip` | `E-nounce/Pods/nanopb/pb_decode.c:401-475` | every value whose written strings have room for their terminators decodes back, submessages included, whatever follows, but for what was left out of it |
| `ProtoRoundTrip.PackedRoundTrip` | `E-nounce/Pods/nanopb/pb_decode.c:420-448` | a packed array reads back item by item |
| `ProtoRoundTrip.MessageRoundTrip` | `E-nounce/Pods/nanopb/pb_decode.c:901-1063` | for every recursive descriptor of static fields with unique tags, and every message whose written strings have room for their terminators, decoding the encoding gives the message, with what was left out in its initial state: required, optional, repeated, packed, proto3 and oneof fields, and arrays of fixed count |
| `ProtoRoundTrip.FixedAreWhole` | `E-nounce/Pods/nanopb/pb_decode.c:935-1005` | on any bytes: in a message that decodes, every array of fixed count is untouched or complete |
| `ProtoRoundTrip.MessageOverflows` | `E-nounce/Pods/nanopb/pb_decode.c:1428-1461` | a message with a string that is written and fills its field does not decode from its own encoding |
| `ProtoRoundTrip.RoundTripExactly` | `E-nounce/Pods/nanopb/pb_encode.c:831-855` | whatever a message holds, decoding its encoding fails if and only if a string that was written has no terminator, and on zeroed storage gives the message back if and only if, besides, each submessage left out is zero in all its parts |
| `ProtoRoundTrip.HiddenArray` | `E-nounce/Pods/nanopb/pb_encode.c:226-230` | a message without strings that does not come back: a proto3 submessage with nothing but the array 0, 7 of fixed count, which begins with a zero count, is left out and read as 0, 0 |
| `ProtoRoundTrip.StringNeedsTerminator` | `E-nounce/Pods/nanopb/pb_decode.c:1428-1461` | a string that the encoder writes decodes back exactly if it leaves room for the terminator, and is an error exactly if it fills the field |
| `ProtoPlain.PlainRoundTrip` | `E-nounce/Pods/nanopb/pb_decode.c:1051-1063` | a message of a type without arrays of fixed count decodes back to itself exactly if every string of it has a terminator |
| `ProtoPlain.ZeroIsStart` | `E-nounce/Pods/nanopb/pb_encode.c:215-305` | a value is taken for zero exactly if it is what decoding starts with and may be left out at all |
| `ProtoPlain.LaterWins` | `E-nounce/Pods/nanopb/pb_decode.c:401-475` | of two values of a field, or of two fields of a oneof, the later one is what decoding gives |
| `ProtoPlain.SubmessageMerged` | `E-nounce/Pods/nanopb/pb_decode.c:1463-1485` | a submessage that comes again is decoded into the one there is, in a oneof into its defaults |
| `ProtoPlain.PackedOrNot` | `E-nounce/Pods/nanopb/pb_decode.c:416-457` | the reader takes an array of numbers packed or item by item |
| `ProtoFields.KeyTellsWidth` | `E-nounce/Pods/nanopb/pb_encode.c:635-672` | a key is eight times the tag and the wire type; behind wire type 0 stands a varint, behind 1 eight bytes, behind 2 a string with its length, behind 5 four bytes, each of exactly the kinds of that width |
| `ProtoFields.SkipsExactly` | `E-nounce/Pods/nanopb/pb_decode.c:273-326` | on any bytes skipping takes a value of just that width, and of every such value all of it and no more |
| `ProtoViews.UnknownFieldsSkipped` | `E-nounce/Pods/nanopb/pb_decode.c:955-963` | a reader that lacks fields of a message, or of its submessages at any depth, gets what is kept of all the others, and fails exactly if a string that it knows has no terminator |
| `ProtoRequired.RequiredIsPresence` | `E-nounce/Pods/nanopb/pb_decode.c:1006-1046` | on any bytes decoding gives what it gives with nothing required if each of the first 64 required fields has its tag among the keys, found by walking the bytes, and fails otherwise |
| `ProtoRequired.DecodedIsComplete` | `E-nounce/Pods/nanopb/pb_decode.c:901-1049` | and so at every depth: whatever decodes lacks no tracked field in any submessage |
| `ProtoRequired.WithoutOneFails` | `E-nounce/Pods/nanopb/pb_decode.c:1006-1046` | the encoding of a message without the bytes of any one tracked field, of the message or of a submessage at any depth, does not decode |
| `ProtoRequired.WithoutOneIs` | `E-nounce/Pods/nanopb/pb_encode.c:494-516` | what is left out is just the bytes of that field |
| `ProtoStorage.LoopFits` | `E-nounce/Pods/nanopb/pb_decode.c:901-1049` | on any bytes what decodes fits its storage: numbers in range, strings with room for their terminators, arrays no longer than declared, at most one field of a oneof, at every depth |
| `ProtoStorage.DecodedMessageFits` | `E-nounce/Pods/nanopb/pb_decode.c:1051-1063` | and so does a message decoded from its defaults |
| `ProtoStorage.OthersStay` | `E-nounce/Pods/nanopb/pb_decode.c:401-475` | decoding a field changes no other field but those of its oneof, which go |
| `KnownBytes.VarintFields` | `E-nounce/Pods/nanopb/pb_encode.c:574-605` | examples of varint fields, byte by byte |
| `KnownBytes.StringField` | `E-nounce/Pods/nanopb/pb_encode.c:674-680` | of a string |
| `KnownBytes.FixedField` | `E-nounce/Pods/nanopb/pb_encode.c:607-629` | and of both fixed widths |
| `KnownBytes.PackedField` | `E-nounce/Pods/nanopb/pb_encode.c:126-180` | and of a packed array |
| `ProtoEncoder.OStream.Write` | `E-nounce/Pods/nanopb/pb_encode.c:101-119` | all bytes or none, counted by a sizing stream, failing exactly if the limit is passed |
| `ProtoEncoder.VarintBytes` | `E-nounce/Pods/nanopb/pb_encode.c:574-594` | the loop writes the varint |
| `ProtoEncoder.EncodeVarint` | `E-nounce/Pods/nanopb/pb_encode.c:574-594` | emits the varint |
| `ProtoEncoder.EncodeTag` | `E-nounce/Pods/nanopb/pb_encode.c:635-672` | emits field number and wire type |
| `ProtoEncoder.EncodeString` | `E-nounce/Pods/nanopb/pb_encode.c:674-680` | emits length and bytes |
| `ProtoEncoder.EncodeInt` | `E-nounce/Pods/nanopb/pb_encode.c:734-791` | emits a scalar of any kind, and fails with nothing written on an integer of a size other than 1, 2, 4 or 8 |
| `ProtoEncoder.PackedSize` | `E-nounce/Pods/nanopb/pb_encode.c:145-165` | the size counted beforehand is the size of the packed items |
| `ProtoEncoder.EncodePackedArray` | `E-nounce/Pods/nanopb/pb_encode.c:126-211` | emits tag, counted size and items |
| `ProtoEncoder.EncodeSubmessage` | `E-nounce/Pods/nanopb/pb_encode.c:682-730` | the second pass writes exactly as much as the first one counted, so the size check never fails |
| `ProtoEncoder.EncodeAny` | `E-nounce/Pods/nanopb/pb_encode.c:734-855` | emits any value a field can hold, a string that fills its field included |
| `ProtoEncoder.EncodeBasicField` | `E-nounce/Pods/nanopb/pb_encode.c:307-392` | emits a field by its rule: nothing if it is absent, and otherwise the key and value of which `ProtoFields.KeyTellsWidth` says the width |
| `ProtoEncoder.EncodeMessage` | `E-nounce/Pods/nanopb/pb_encode.c:494-516` | emits exactly the encoding of the message, or fails exactly if it does not fit |
| `ProtoEncoder.GetEncodedSize` | `E-nounce/Pods/nanopb/pb_encode.c:533-542` | the length of what would be written |
| `ProtoDecoder.IStream.ReadByte` | `E-nounce/Pods/nanopb/pb_decode.c:136-152` | the next byte, or failure exactly at the end |
| `ProtoDecoder.IStream.Read` | `E-nounce/Pods/nanopb/pb_decode.c:100-132` | exactly that many bytes, or failure with nothing taken |
| `ProtoDecoder.DecodeVarint64` | `E-nounce/Pods/nanopb/pb_decode.c:250-270` | reads a varint of up to ten bytes |
| `ProtoDecoder.DecodeVarint32Bits` | `E-nounce/Pods/nanopb/pb_decode.c:182-242` | the loop reads a varint of up to five bytes that fits 32 bits, or a longer one that only extends its sign, and fails on all others |
| `LongVarints.OneMore` | `E-nounce/Pods/nanopb/pb_decode.c:196-238` | each round of that loop takes in one byte more: low bits, sign extension, or the end |
| `LongVarints.SignExtensionRead` | `E-nounce/Pods/nanopb/pb_decode.c:203-219` | a negative 32-bit number that was written in ten bytes reads back as its 32 bits |
| `ProtoDecoder.MakeSubstream` | `E-nounce/Pods/nanopb/pb_decode.c:367-380` | the substream has exactly the bytes of the string, the stream exactly the rest |
| `ProtoDecoder.CloseSubstream` | `E-nounce/Pods/nanopb/pb_decode.c:382-395` | what the substream has left is skipped |
| `ProtoDecoder.Skip` | `E-nounce/Pods/nanopb/pb_decode.c:273-326` | skips a field of any wire type, or fails on an unknown one |
| `ProtoDecoder.DecodeInt` | `E-nounce/Pods/nanopb/pb_decode.c:1289-1372` | reads a scalar of any kind, range checks included |
| `ProtoDecoder.DecodeSubmessage` | `E-nounce/Pods/nanopb/pb_decode.c:1463-1485` | reads a submessage from its substream |
| `ProtoDecoder.DecodeAny` | `E-nounce/Pods/nanopb/pb_decode.c:1289-1508` | reads a value of any kind |
| `ProtoDecoder.FieldIter.Next` | `E-nounce/Pods/nanopb/pb_common.c:20-76` | the next field, back to the first after the last |
| `ProtoDecoder.FieldIter.Find` | `E-nounce/Pods/nanopb/pb_common.c:78-95` | once around from wherever it stands: found exactly if some field has the tag, or the descriptor is empty and the tag that of its terminator |
| `ProtoDecoder.DecodePackedItems` | `E-nounce/Pods/nanopb/pb_decode.c:431-443` | reads items until the substream is used up or the array is full |
| `ProtoDecoder.DecodeStaticField` | `E-nounce/Pods/nanopb/pb_decode.c:401-475` | reads a field by its rule: packed or not, oneof tag set and old member cleared |
| `ProtoDecoder.CheckRequired` | `E-nounce/Pods/nanopb/pb_decode.c:1006-1046` | true exactly if every required field that is tracked was seen; what that says of the bytes is `ProtoRequired.RequiredIsPresence` |
| `ProtoDecoder.DecodeNoinit` | `E-nounce/Pods/nanopb/pb_decode.c:901-1049` | on any bytes: the message or the error that reading field by field gives, unknown fields skipped, arrays of fixed count complete, and tag 0 an error on an empty descriptor |
| `ProtoDecoder.DecodeMessage` | `E-nounce/Pods/nanopb/pb_decode.c:1051-1063` | decoding from the defaults |

## Left out

Contracts weaker than the code or its promises:

- Runs.EveryRunReadsLikeTheStore: says nothing of a key between an installed compaction that has uncovered a deleted value of it, which makes it false (`RevivedRun.RunRevives`), and its next write; and sequence numbers stay below the largest one. So the other theorems of `Runs`, `Readers` and `GroupCommits`.
- RevivedRun.ReachesExample: a run of the model, which leaves open where the output files of a compaction end, and whether it is a manual one.
- Compacting.DoCompactionWork: does not say where one output file ends and the next begins, a matter of sizes.
- Database.DBImpl.FinishRead: the memtable that the reader shares is given as it is then; that it has only grown by entries above the number of the reader is asked for, as the writer inserts no others.
- Recovery.ReopenKeeps: a log is a list of whole records there; what a reused log loses behind a torn one is the subject of `TornLogs`.
- TornLogs.TornPieceThenLog: says nothing of the case that the bytes behind the torn header happen to match its checksum.
- Database.Recover: does not say how many tables recovery writes, a matter of the size of the write buffer.
- SkipLists.RandomHeight: any height within its bounds, with no distribution.
- Crc32c.StrideIsAdvance: the stride tables are taken as what they stand for, advancing a byte lane over sixteen zero bytes; their 1024 constants are not compared, and of the byte table the eight that generate it are.
- LogReading.PrefixReads: reads from the start of the file; the reader's initial offset, which the database leaves at zero, is not modelled.
- Blocks.BlockIter.ParseNextKey: the iterator of a block is on a block that was built; on other bytes only `Blocks.DecodeEntry` and `Blocks.RestartOffset` tell what happens.
- Bloom.CreateFilter: the hash function is any function from bytes to words; `BloomHash` is not modelled.
- ProtoRoundTrip.RoundTripExactly: an array of fixed count that decoding does not come to keeps what the storage held; that it was zeroed, as nanopb's initializers do, is how `AllOnZeros` reads it. Which contents of such an array begin with a zero count is a parameter of its declaration.
- CrcDetection.BurstDetected: says nothing of changes further apart than four bytes, of which a checksum of 32 bits misses some.
- ProtoDecoder.CheckRequired: the bitmap is one of bits, not of 32-bit words.
- ProtoRoundTrip.EmptyMessage: an absent optional field holds nothing; what the code stores there is not told.

Not modelled:

- A flush inside a running compaction (`db/db_impl.cc:908-918`): flush and compaction are separate jobs, each in two steps.
- Errors of the file system, and power loss: a crash stops the process and keeps what was written. `Sync` is only tracked as who asks for it.
- Corrupt input, except a log cut off at any byte or damaged in a piece, and whatever the decoders of coding, version edits, write batches and nanopb take.
- User keys as bytes in the modules of the database: they are real numbers there, in the order of the bytes (`Keys.PositionIsFaithful`); tables and formats use bytes.
- The merged input of a compaction is a parameter of `StartCompaction`, the sorted union that `Merger` proves the merging iterator to deliver.
- The choice of the level and file to compact (scores, seek counts, read samples) and waiting for background work are left to the caller.
- Manual compactions as a loop over ranges; one range of them is `Inputs.CompactRange`.
- `SnapshotList` as a circular list: it is a sequence of numbers, oldest first.
- The sharded cache: each shard is a cache of its own.
- The bucket of a hash is its remainder by the length, which for a power of two is the mask of the code.
- Memory order: steps of the skip list are sequentially consistent, and its nodes are never freed.
- Block compression, footers, meta blocks and the block cache of tables; handles of blocks are numbers.
- Hardware checksums, `Repair`, the C interface, environments, options and file names.
- nanopb callbacks, extensions, pointer fields, and builds without 64-bit integers.
- The application's own Swift code: interface and network calls.
