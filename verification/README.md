# A verified model of LevelDB and nanopb

The app in this repository stores data through vendored native libraries; the code with the most
behaviour among them is LevelDB, a log-structured storage engine, and nanopb, a Protocol Buffers
codec.  This project models the storage core in Dafny and proves that a store which is constantly
rearranged underneath its readers keeps answering like one simple versioned map, that its file
formats give back what was written, and that its iterators are the cursors they claim to be; and it
proves that nanopb's two-pass encoder and its decoder undo each other.

`dafny verify dfyconfig.toml` checks everything.  The modules, from the bottom up:

| module | models | main result |
|---|---|---|
| `Keys` | key order, internal keys, what a read means | the bytewise order embeds in the reals |
| `Coding` | varints, fixed integers, slices, checksum mask | round trips |
| `Cursors` | the iterator contract | |
| `Sequences` | facts about sequences | |
| `Versions`, `CompactionPick` | file lists per level, searches over them, choice of compaction inputs | inputs are closed under overlap |
| `CompactionWork` | the compaction loop | dropping entries does not change any visible read |
| `Lsm`, `LsmSteps`, `LsmCompactions`, `LsmRuns` | the layered store, its steps and its runs | every read gives the last operation written for its key; when exactly a compaction is invisible |
| `BoundarySplit` | two runs that split one user key over two files | neither half of the condition on compactions can be dropped |
| `StoreIterators` | iterating over the whole store | rows are the visible map of the history |
| `SkipList` | the lock-free list | searches stay right while links are being added |
| `WriteQueue` | group commit | each batch once, in order, all or nothing |
| `Recovery` | logs, tables and manifest across crashes | each logged update covered exactly once |
| `Manifest`, `EditCodec` | version edits, their replay and their bytes | recovery equals installation |
| `ManifestRuns`, `ManifestFile` | the manifest of a running store, from its edits to its bytes | recovery from the bytes gives the version of the run |
| `DbIter`, `Merging`, `TwoLevel` | the iterator stack | cursors over the visible map, the merge, the concatenation |
| `Log`, `LogRoundTrip`, `LogSafety` | the write-ahead log | round trip, prefixes, arbitrary bytes; nothing is lost without a report |
| `Block`, `BlockIter` | prefix-compressed blocks | cursor over the entries added |
| `Separators`, `Bloom`, `FilterBlock`, `Table`, `TableBuilder` | tables | lookup equals a linear scan |
| `KeyBytes`, `RawTable` | internal keys and tables as bytes | lookup in the bytes equals a linear scan |
| `HandleTables`, `Cache`, `CacheRuns` | the LRU cache | table, list and reference counts agree; eviction takes what was used least recently |
| `Nanopb`, `NanopbRoundTrip`, `NanopbStreams` | messages of nested fields, their bytes, the streams | sizes are exact, decoding gives the message back |
| `NanopbAnyOrder` | messages whose pieces come in any order | order and unknown fields do not matter |
| `NanopbFits` | decoding arbitrary bytes | whatever decodes fits its C struct |

Concurrent parts (`SkipList`, `WriteQueue`, `LsmRuns`, `Recovery`) are state machines: a run is any
sequence of enabled steps, and the results hold at every position of every run.  Objects that change
in place are classes whose methods are proved against functions of their old state.

Some promises do not hold of the code as written, and the exact conditions are proved instead.
`table/merger.h` says a key that K children hold is yielded K times; a change of direction skips the
copies that are left (`Merging.CursorIffNoSharedKey`).  `VersionEdit::Clear` leaves compaction pointers
in place, so decoding into a used edit adds to them (`EditCodec.EditRoundTrip`).  The log reader's codes
for the end of the file and for a bad record are values that a stored type byte can take: a record
stored under type 6 is dropped with nothing reported (`LogSafety.TypeSixIsLost`).

Compaction does not pull in a neighbouring file that shares a boundary user key.  A store can then
bring old values to light: `BoundarySplit` exhibits, from the empty store, a move and a merge after which
Get returns a deleted value.  The results about whole stores therefore take, as a condition of each
compaction step, exactly what makes it invisible (`LsmSteps.Harmless`, shown exact in
`LsmCompactions.MergeInvisibleIff` and `LsmCompactions.MoveKeepsAgeIffBoundaryClear`); clear boundaries
suffice for it (`LsmCompactions.ClearBoundariesSuffice`).

## Model

| member | source | states |
|---|---|---|
| `Keys.BytewiseEmbedsInReals` | GroceryList/Pods/leveldb-library/util/comparator.cc:25-27 | the bytewise comparator orders byte strings exactly as their positions, so user keys may be taken as positions in the order |
| `Keys.LookupIsNewest` | GroceryList/Pods/leveldb-library/db/memtable.cc:108-143 | seeking (key, snapshot) in a sorted run and accepting the entry found for that user key gives the newest entry at or below the snapshot, and finding none means there is none |
| `Versions.FindFile` | GroceryList/Pods/leveldb-library/db/version_set.cc:77-96 | the binary search returns the first file whose largest key is at or after the key |
| `Versions.SomeFileOverlapsRange` | GroceryList/Pods/leveldb-library/db/version_set.cc:112-147 | for both level shapes the answer is yes exactly when some file overlaps the user-key range, so the binary search agrees with the linear scan |
| `Versions.GetOverlappingInputs` | GroceryList/Pods/leveldb-library/db/version_set.cc:522-563 | the restarting loop ends and returns exactly the files overlapping the least range that contains the given one and, at level 0, every file overlapping it |
| `Versions.PickLevelForMemTableOutput` | GroceryList/Pods/leveldb-library/db/version_set.cc:493-519 | the deepest level up to 2 such that nothing there or above overlaps the memtable and no level passed has too many overlapping bytes two levels down; level 0 if there is none |
| `Versions.SaveLevelMembers` | GroceryList/Pods/leveldb-library/db/version_set.cc:656-748 | installing an edit leaves exactly the surviving base files and the added files, in order |
| `CompactionPick.SetupOtherInputs` | GroceryList/Pods/leveldb-library/db/version_set.cc:1297-1362 | the inputs of the next level are those the picked files overlap; the level inputs grow to the range of both exactly when that stays within the size limit and brings in no further file; they are closed under overlap, and the grandparents are the files two levels down that all inputs overlap |
| `CompactionPick.PickCompaction` | GroceryList/Pods/leveldb-library/db/version_set.cc:1243-1295 | a size compaction begins with the first file that ends after the compaction pointer, or the first of all, a seek compaction with the file charged; the inputs set up from it form a valid pick |
| `CompactionPick.CompactRange` | GroceryList/Pods/leveldb-library/db/version_set.cc:1364-1397 | a manual compaction has a valid pick, set up from the first overlapping files up to the one that reaches the size limit, or from all of them at level 0; none exactly when no file overlaps |
| `CompactionPick.GetRange` | GroceryList/Pods/leveldb-library/db/version_set.cc:1176-1196 | the least range that contains the ranges of all inputs |
| `CompactionWork.DropRulesPreserveReads` | GroceryList/Pods/leveldb-library/db/db_impl.cc:907-940 | for every snapshot at or above the smallest one and every user key, reading the store with the kept entries equals reading it with all of them, dropped deletion markers included, when the rest of the store is layered around the stream |
| `CompactionWork.DropRulesInvisibleIff` | GroceryList/Pods/leveldb-library/db/db_impl.cc:907-940 | whatever else is stored, the drop rules change no read at or above the smallest snapshot exactly when no dropped deletion marker answered such a read while something stored elsewhere shows a value for its key |
| `CompactionWork.Compaction.IsBaseLevelForKey` | GroceryList/Pods/leveldb-library/db/version_set.cc:1434-1453 | for non-decreasing keys the remembered file positions give the same answer as a scan of all deeper levels |
| `CompactionWork.Compaction.ShouldStopBefore` | GroceryList/Pods/leveldb-library/db/version_set.cc:1455-1475 | the grandparent cursor passes exactly the files that end before the key, and counts their bytes once a key has been seen |
| `CompactionWork.DoCompactionWork` | GroceryList/Pods/leveldb-library/db/db_impl.cc:868-976 | the outputs, none empty, together hold exactly the entries the drop rules keep, in order; an output ends where it reaches the size limit, or where the grandparent files passed since the last such place add up to too much, and nowhere else |
| `CompactionWork.KeptSorted` | GroceryList/Pods/leveldb-library/db/db_impl.cc:907-976 | the kept entries are again strictly sorted |
| `Lsm.Get` | GroceryList/Pods/leveldb-library/db/db_impl.cc:1077-1122 | the early-exit search through memtables, level 0 by age and deeper levels returns the newest match of the first place that has one; in an age-ordered store that is what the union of all entries shows at the sequence number |
| `Lsm.VersionGet` | GroceryList/Pods/leveldb-library/db/version_set.cc:323-420 | the search through the files of a version finds the newest matching entry of all its files, if there is one |
| `Lsm.LevelZeroGet` | GroceryList/Pods/leveldb-library/db/version_set.cc:338-362 | searching the covering level-0 files newest first stops at the newest matching entry |
| `LsmSteps.WriteInv` | GroceryList/Pods/leveldb-library/db/memtable.cc:82-106 | a write keeps the invariants and stores exactly its operations besides what was there, the i-th under the i-th next sequence number, a deletion with no value |
| `LsmRuns.WriteThenRead` | GroceryList/Pods/leveldb-library/db/write_batch.cc:112-134 | after a write in any run the last operation of the batch for a key decides its reads, the value put or nothing for a deletion, and keys not in the batch read as before |
| `LsmSteps.SwitchInv` | GroceryList/Pods/leveldb-library/db/db_impl.cc:1323-1343 | switching memtables keeps the invariants and the entries |
| `LsmSteps.FlushInv` | GroceryList/Pods/leveldb-library/db/db_impl.cc:457-501 | a memtable written as a table at the picked level keeps age order, disjoint levels and all entries |
| `LsmCompactions.MoveInv` | GroceryList/Pods/leveldb-library/db/version_set.cc:1417-1424 | a trivial move that puts nothing below a left-behind file starting with its user key keeps the invariants and all entries |
| `LsmCompactions.MoveKeepsAgeIffBoundaryClear` | GroceryList/Pods/leveldb-library/db/version_set.cc:1417-1424 | a trivial move keeps the age order exactly when no file left behind at its level starts with the moved file's last user key |
| `BoundarySplit.MoveReadsStale` | GroceryList/Pods/leveldb-library/db/version_set.cc:1243-1362 | a run from the empty store reaches a state in which a move the code would make lets Get return a deleted value at the latest sequence number |
| `BoundarySplit.MergeReadsStale` | GroceryList/Pods/leveldb-library/db/version_set.cc:1297-1362 | a run reaches a state in which a merge, with a clear boundary at its own level but not at the next, drops a deletion marker and lets Get return the deleted value left behind |
| `LsmCompactions.MergeSound` | GroceryList/Pods/leveldb-library/db/version_set.cc:702-764 | installing a merge's outputs leaves every level above 0 sorted and disjoint, with new file numbers |
| `LsmCompactions.MergeInvisibleIff` | GroceryList/Pods/leveldb-library/db/db_impl.cc:834-976 | any merge the code would run keeps the store invariant, age order included, exactly when no kept entry comes before a left-behind file of its level that starts with its user key; and it keeps every read at or above the smallest snapshot exactly when, wherever a dropped deletion marker answered, the left-behind files show nothing for its key |
| `LsmCompactions.MergeInv` | GroceryList/Pods/leveldb-library/db/db_impl.cc:834-853 | a merge under these conditions keeps the invariants, and reads at every live or future snapshot |
| `LsmCompactions.ClearBoundariesSuffice` | GroceryList/Pods/leveldb-library/db/version_set.cc:1243-1362 | both conditions hold whenever no left-behind file at either level starts with the user key an input of its level ends with |
| `LsmSteps.InstallOk` | GroceryList/Pods/leveldb-library/db/version_set.cc:702-764 | every sound edit yields a version whose files are well formed and whose deeper levels are disjoint |
| `LsmSteps.SnapshotListOk` | GroceryList/Pods/leveldb-library/db/snapshot.h:38-57 | the snapshot list stays in creation order, so its head bounds every live and every future snapshot |
| `LsmRuns.RunInvariant` | GroceryList/Pods/leveldb-library/db/db_impl.cc:1077-1122 | the invariants hold in every reachable state |
| `LsmRuns.EveryRunReadsHistory` | GroceryList/Pods/leveldb-library/db/db_impl.cc:1077-1122 | in every run of writes, switches, flushes, moves, merges and snapshot calls, the store reads like the plain set of everything ever written, at every live or future snapshot |
| `LsmRuns.ReadsAreOps` | GroceryList/Pods/leveldb-library/db/db_impl.cc:1077-1122 | in every state of every run a read at sequence number s, at a live snapshot or later, gives the value of the last put of the key among the first s operations the run has written, and nothing if that operation is a deletion or there is none |
| `LsmRuns.SnapshotReadsAreStable` | GroceryList/Pods/leveldb-library/db/db_impl.cc:1077-1122 | a read at a live snapshot gives the same answer at any later moment while the snapshot is held |
| `LsmRuns.GetInRun` | GroceryList/Pods/leveldb-library/db/db_impl.cc:1077-1122 | Get itself, called in any reachable state, returns what the history shows: the value of the last put of the key among the operations up to the sequence number, or nothing |
| `SkipList.LevelsStaySortedSublists` | GroceryList/Pods/leveldb-library/db/skiplist.h:337-370 | in every interleaving of one inserting thread, link by link, with readers, each level is a sorted sublist of the level below |
| `SkipList.SearchFindsWhatWasThere` | GroceryList/Pods/leveldb-library/db/skiplist.h:261-281 | a finished search stands at a node at or after its target, and no key linked at level 0 before it began lies between |
| `SkipList.LoadMakesProgress` | GroceryList/Pods/leveldb-library/db/skiplist.h:261-281 | each load of a search moves it strictly forward or down |
| `SkipList.StepKeepsInvariant` | GroceryList/Pods/leveldb-library/db/skiplist.h:337-370 | every single load or store keeps the invariant of the list and of all searches under way |
| `SkipList.List.FindGreaterOrEqual` | GroceryList/Pods/leveldb-library/db/skiplist.h:261-281 | the first node at or after the key, and its predecessors at every level |
| `SkipList.List.FindLessThan` | GroceryList/Pods/leveldb-library/db/skiplist.h:283-302 | the last node before the key |
| `SkipList.List.FindLast` | GroceryList/Pods/leveldb-library/db/skiplist.h:304-323 | the last node |
| `SkipList.List.Contains` | GroceryList/Pods/leveldb-library/db/skiplist.h:372-380 | true exactly for the keys in the list |
| `SkipList.List.Insert` | GroceryList/Pods/leveldb-library/db/skiplist.h:337-370 | adds exactly the key, and its memory operations are a run of the step-by-step machine |
| `WriteQueue.BuildBatchGroup` | GroceryList/Pods/leveldb-library/db/db_impl.cc:1237-1282 | the group is the longest prefix of the queue in which no sync write follows a leader that does not sync and no batch takes the size over the limit, a null batch adding nothing; its updates are the writers' own batches one after the other |
| `WriteQueue.RunInvariant` | GroceryList/Pods/leveldb-library/db/db_impl.cc:1162-1233 | the invariant of the group-commit protocol holds in every interleaving |
| `WriteQueue.LoggedOnceInQueueOrder` | GroceryList/Pods/leveldb-library/db/db_impl.cc:1162-1233 | committed writers are logged exactly once and in queue order, and the memtable holds their own batches one after the other in that order |
| `WriteQueue.RecordsAreConsecutive` | GroceryList/Pods/leveldb-library/db/db_impl.cc:1180-1205 | log records take consecutive sequence numbers that are never reused, and no sync write is committed by a leader that does not sync |
| `WriteQueue.ReadersSeeWholeBatches` | GroceryList/Pods/leveldb-library/db/write_batch.cc:111-145 | a reader at LastSequence sees all or none of the updates of each batch |
| `Recovery.RecoverLogFile` | GroceryList/Pods/leveldb-library/db/db_impl.cc:362-455 | the tables written while replaying a log hold, in order and nothing besides, each record's i-th operation under the i-th sequence number from the record's first; the largest sequence number is the largest of the records' last ones and the one given |
| `Recovery.ReplayLogs` | GroceryList/Pods/leveldb-library/db/db_impl.cc:304-357 | whatever order the directory lists the logs in, they are replayed by ascending number |
| `Recovery.SortedListingIsUnique` | GroceryList/Pods/leveldb-library/db/db_impl.cc:343-357 | sorting any listing of the log files gives one sequence |
| `Recovery.StepKeepsInvariant` | GroceryList/Pods/leveldb-library/db/db_impl.cc:218-272 | write, memtable switch, table building, flush commit, file deletion, crash, replay and opening each keep the coverage invariant |
| `Recovery.EveryBatchCoveredOnce` | GroceryList/Pods/leveldb-library/db/db_impl.cc:503-534 | at every moment of every run, crashes included, the listed tables and the logs that recovery would replay hold exactly the operations ever written, in order and numbered from 1, and the last sequence number is recoverable |
| `Recovery.OpenShowsHistory` | GroceryList/Pods/leveldb-library/db/db_impl.cc:304-357 | whenever the database is open it shows exactly the operations ever written, in order and numbered from 1 |
| `Recovery.FlushCompletes` | GroceryList/Pods/leveldb-library/db/db_impl.cc:503-534 | a memtable that was switched out can always be written and listed, and then recovery would replay the current memtable alone |
| `Recovery.Reopen` | GroceryList/Pods/leveldb-library/db/db_impl.cc:1445-1477 | whatever a crash left can be opened again, and the open database shows all that was logged |
| `DbIter.RowsAreTheVisibleMap` | GroceryList/Pods/leveldb-library/db/db_iter.cc:146-304 | the rows are exactly the key-value pairs the versioned store shows at the sequence number |
| `DbIter.RowsAscend` | GroceryList/Pods/leveldb-library/db/db_iter.cc:146-304 | the rows are strictly sorted by user key |
| `DbIter.DBIter.Next` | GroceryList/Pods/leveldb-library/db/db_iter.cc:146-171 | moves to the next row from either direction |
| `DbIter.DBIter.Prev` | GroceryList/Pods/leveldb-library/db/db_iter.cc:205-230 | moves to the previous row from either direction |
| `DbIter.DBIter.FindNextUserEntry` | GroceryList/Pods/leveldb-library/db/db_iter.cc:173-203 | finds the first row at or after the position that is not being skipped, passing hidden versions and deletions |
| `DbIter.DBIter.FindPrevUserEntry` | GroceryList/Pods/leveldb-library/db/db_iter.cc:232-272 | finds the last row before the position |
| `DbIter.DBIter.Seek` | GroceryList/Pods/leveldb-library/db/db_iter.cc:274-286 | moves to the first row at or after the target |
| `DbIter.DBIter.SeekToFirst` | GroceryList/Pods/leveldb-library/db/db_iter.cc:288-297 | moves to the first row |
| `DbIter.DBIter.SeekToLast` | GroceryList/Pods/leveldb-library/db/db_iter.cc:299-304 | moves to the last row |
| `DbIter.DBIter.Drive` | GroceryList/Pods/leveldb-library/db/db_iter.cc:146-304 | any sequence of calls with any changes of direction moves like a cursor over the rows |
| `DbIter.SeekRank` | GroceryList/Pods/leveldb-library/db/db_iter.cc:274-286 | seeking the internal key passes exactly the rows before the target |
| `StoreIterators.StoreMerge` | GroceryList/Pods/leveldb-library/db/db_impl.cc:1035-1064 | the merge of memtables, level-0 files and concatenated deeper levels is a sorted run of everything stored in which no key occurs twice |
| `StoreIterators.RowsAreTheHistory` | GroceryList/Pods/leveldb-library/db/db_impl.cc:1124-1135 | in every state of every run the rows of an iterator over that merge are, at each live snapshot, exactly the visible pairs of the history |
| `StoreIterators.ScanInRun` | GroceryList/Pods/leveldb-library/db/db_impl.cc:1124-1135 | an iterator opened in any reachable state reads exactly the visible map of the history, in key order: the last put of each key among the operations up to the sequence number, and no key last deleted |
| `Merging.MergeIsUnique` | GroceryList/Pods/leveldb-library/table/merger.cc:155-183 | there is only one ascending merge of the children |
| `Merging.MergingIterator.Next` | GroceryList/Pods/leveldb-library/table/merger.cc:59-83 | the exact successor in the merge, or past every copy of the current key after a change of direction |
| `Merging.MergingIterator.Prev` | GroceryList/Pods/leveldb-library/table/merger.cc:85-112 | the exact predecessor in the merge, or before every copy of the current key after a change of direction |
| `Merging.MergingIterator.Seek` | GroceryList/Pods/leveldb-library/table/merger.cc:51-57 | moves to the first entry of the merge at or after the target |
| `Merging.MergingIterator.FindSmallest` | GroceryList/Pods/leveldb-library/table/merger.cc:155-168 | makes current the child that shows the merge element right of the cut |
| `Merging.MergingIterator.FindLargest` | GroceryList/Pods/leveldb-library/table/merger.cc:170-183 | makes current the child that shows the merge element left of the cut |
| `Merging.MergingIterator.Drive` | GroceryList/Pods/leveldb-library/table/merger.cc:35-112 | with no key in two children any sequence of calls moves like a cursor over the merge |
| `Merging.CursorIffNoSharedKey` | GroceryList/Pods/leveldb-library/table/merger.h:17-18 | every call is a plain cursor step exactly when no key occurs in two children: the documented K-fold yield of shared keys fails on a change of direction |
| `Merging.SwitchSkipsCopies` | GroceryList/Pods/leveldb-library/table/merger.h:17-18 | turning round at a copy of a key that is not the last one loses the later copies |
| `TwoLevel.SeekThroughIndex` | GroceryList/Pods/leveldb-library/table/two_level_iterator.cc:91-96 | seeking the index and then the block reaches the same place as seeking the concatenation |
| `TwoLevel.AllSorted` | GroceryList/Pods/leveldb-library/table/two_level_iterator.cc:91-96 | the concatenated blocks are sorted |
| `TwoLevel.TwoLevelIterator.SkipEmptyDataBlocksForward` | GroceryList/Pods/leveldb-library/table/two_level_iterator.cc:125-136 | ends, at the next entry of the concatenation |
| `TwoLevel.TwoLevelIterator.SkipEmptyDataBlocksBackward` | GroceryList/Pods/leveldb-library/table/two_level_iterator.cc:138-149 | ends, at the previous entry of the concatenation |
| `TwoLevel.TwoLevelIterator.Seek` | GroceryList/Pods/leveldb-library/table/two_level_iterator.cc:91-96 | moves to the first entry at or after the target, through empty blocks |
| `TwoLevel.TwoLevelIterator.Next` | GroceryList/Pods/leveldb-library/table/two_level_iterator.cc:112-116 | moves to the next entry across block ends |
| `TwoLevel.TwoLevelIterator.Prev` | GroceryList/Pods/leveldb-library/table/two_level_iterator.cc:118-122 | moves to the previous entry across block ends |
| `TwoLevel.TwoLevelIterator.Drive` | GroceryList/Pods/leveldb-library/table/two_level_iterator.cc:91-170 | any sequence of calls moves like a cursor over the concatenated blocks |
| `Coding.FixedRoundTrip` | GroceryList/Pods/leveldb-library/util/coding.cc:9-45 | fixed-width integers decode to what was encoded |
| `Coding.EncodeVarint32` | GroceryList/Pods/leveldb-library/util/coding.cc:47-73 | the branches by size write the same groups as the general encoding |
| `Coding.EncodeVarint64` | GroceryList/Pods/leveldb-library/util/coding.cc:81-90 | the loop writes the seven-bit groups of the value, least significant first |
| `Coding.VarintLength` | GroceryList/Pods/leveldb-library/util/coding.cc:103-110 | the number of bytes the encoding takes |
| `Coding.DecodeVarint` | GroceryList/Pods/leveldb-library/util/coding.cc:112-158 | the shift-and-or loop computes the value of the groups, truncated to the integer width |
| `Coding.VarintRoundTrip` | GroceryList/Pods/leveldb-library/util/coding.cc:47-192 | a decoded encoding gives the value and the rest of the input |
| `Coding.VarintCut` | GroceryList/Pods/leveldb-library/util/coding.cc:112-158 | a proper prefix of an encoding fails to decode |
| `Coding.VarintLimits` | GroceryList/Pods/leveldb-library/util/coding.cc:112-158 | decoding succeeds exactly if one of the first five or ten bytes ends the varint, and leaves what follows that byte |
| `Coding.SliceRoundTrip` | GroceryList/Pods/leveldb-library/util/coding.cc:98-101 | length-prefixed slices decode to what was encoded |
| `Coding.MaskRoundTrip` | GroceryList/Pods/leveldb-library/util/crc32c.h:31-41 | unmasking a masked checksum gives it back |
| `Log.Writer.AddRecord` | GroceryList/Pods/leveldb-library/db/log_writer.cc:27-73 | appends the record cut into fragments that never cross a block, with trailers where no header fits |
| `Log.Writer.EmitPhysicalRecord` | GroceryList/Pods/leveldb-library/db/log_writer.cc:75-100 | appends checksum, length, type and payload |
| `Log.Reader.ReadPhysicalRecord` | GroceryList/Pods/leveldb-library/db/log_reader.cc:181-263 | each outcome of reading one physical record: payload, end of file or rejected bytes, and what is reported |
| `Log.Reader.ReadRecord` | GroceryList/Pods/leveldb-library/db/log_reader.cc:59-164 | returns the next record of what the whole remaining log holds, with the same reports |
| `Log.ReadAll` | GroceryList/Pods/leveldb-library/db/log_reader.cc:59-164 | reading to the end gives the records and reports of the log |
| `LogRoundTrip.WriteLog` | GroceryList/Pods/leveldb-library/db/log_writer.cc:27-73 | the bytes of a log are the layout of the fragments of its records |
| `LogRoundTrip.EventsOfPrefix` | GroceryList/Pods/leveldb-library/db/log_reader.cc:181-263 | the first n bytes of a log deliver exactly the physical records they hold whole |
| `LogRoundTrip.PrefixReadsBack` | GroceryList/Pods/leveldb-library/db/log_reader.cc:59-164 | every byte prefix of a written log reads back as a prefix of the records with nothing reported |
| `LogRoundTrip.RoundTrip` | GroceryList/Pods/leveldb-library/db/log_reader.cc:59-164 | a written log reads back as the same records with nothing reported |
| `LogSafety.PhysicalSound` | GroceryList/Pods/leveldb-library/db/log_reader.cc:181-263 | whatever the file holds, a delivered physical record is in it, inside one block, with its length, type and checksum |
| `LogSafety.RecordsAreWholeRuns` | GroceryList/Pods/leveldb-library/db/log_reader.cc:59-164 | for any file each record returned is one good Full payload or one contiguous good First Middle* Last run, and runs of different records do not overlap |
| `LogSafety.NothingLostSilently` | GroceryList/Pods/leveldb-library/db/log_reader.cc:64-164 | for any file, the bytes the physical layer delivers or drops are those in returned records, those reported and those of the record under way at the end, exactly when no payload is stored under the type number the reader uses for bad records |
| `LogSafety.TypeSixIsLost` | GroceryList/Pods/leveldb-library/db/log_reader.h:79-90 | a file whose one record has that type number reads back empty with nothing reported |
| `LogSafety.DamageIsReported` | GroceryList/Pods/leveldb-library/db/log_reader.cc:215-263 | a length beyond a full block or a wrong checksum costs the whole buffer and is reported; only a preallocated region and a torn end go unreported |
| `LogSafety.OrphanIsReported` | GroceryList/Pods/leveldb-library/db/log_reader.cc:107-132 | a middle or last fragment without a beginning is reported and joins no record |
| `Block.BlockBuilder.Add` | GroceryList/Pods/leveldb-library/table/block_builder.cc:73-107 | appends the entry compressed against the last key, or a restart point every interval |
| `Block.BlockBuilder.Finish` | GroceryList/Pods/leveldb-library/table/block_builder.cc:63-71 | the finished block is the entries, the restart offsets and their number |
| `Block.EntryRoundTrip` | GroceryList/Pods/leveldb-library/table/block.cc:53-74 | an entry decodes to its three lengths, key delta and value |
| `Block.FastPathAgrees` | GroceryList/Pods/leveldb-library/table/block.cc:58-64 | the one-byte fast path decodes like the general path |
| `BlockIter.BuiltShows` | GroceryList/Pods/leveldb-library/table/block_builder.cc:63-71 | at every offset of a built block its entry parses, and every restart point stores its key whole |
| `BlockIter.BlockIter.ParseNextKey` | GroceryList/Pods/leveldb-library/table/block.cc:226-253 | parses the entry after the current one, or reports the end |
| `BlockIter.BlockIter.Prev` | GroceryList/Pods/leveldb-library/table/block.cc:144-163 | moves to the previous entry by way of a restart point |
| `BlockIter.BlockIter.Seek` | GroceryList/Pods/leveldb-library/table/block.cc:165-202 | the restart binary search and linear scan land on the first key at or after the target |
| `BlockIter.BlockIter.Drive` | GroceryList/Pods/leveldb-library/table/block.cc:139-218 | any sequence of calls moves like a cursor over the entries added |
| `BlockIter.BuildAndIterate` | GroceryList/Pods/leveldb-library/table/block_builder.cc:63-107 | iterating over a built block returns exactly the entries added |
| `Separators.CompareIsOrder` | GroceryList/Pods/leveldb-library/db/dbformat.cc:50-66 | the internal key comparator is the order by user key, then by tag descending |
| `Separators.FindShortestSeparator` | GroceryList/Pods/leveldb-library/util/comparator.cc:29-51 | the start comes back unchanged exactly when no byte value lies between start and limit where they first differ; otherwise that byte is raised by one and the rest cut off, which is strictly between them |
| `Separators.FindShortSuccessor` | GroceryList/Pods/leveldb-library/util/comparator.cc:53-65 | the key comes back unchanged exactly for runs of 0xff; otherwise its first other byte is raised by one and the rest cut off, which is after it |
| `Separators.SeparateKeys` | GroceryList/Pods/leveldb-library/db/dbformat.cc:68-85 | for start before limit the result is at or after start and before limit |
| `Separators.SucceedKey` | GroceryList/Pods/leveldb-library/db/dbformat.cc:87-99 | the result is at or after the key |
| `Bloom.CreateFilter` | GroceryList/Pods/leveldb-library/util/bloom.cc:35-61 | exactly the bits that some probe of some key goes to are set in the appended filter, which has the fewest bytes that hold 64 bits and the bits per key, and the probe count last |
| `Bloom.KeyMayMatch` | GroceryList/Pods/leveldb-library/util/bloom.cc:63-87 | yes exactly when all probes hit, or the probe count is reserved |
| `Bloom.ProbesStep` | GroceryList/Pods/leveldb-library/util/bloom.cc:48-58 | the probes are the hash plus multiples of its rotation |
| `Bloom.NoFalseNegative` | GroceryList/Pods/leveldb-library/util/bloom.cc:35-87 | a filter never denies a key it was built from |
| `FilterBlock.FilterBlockBuilder.StartBlock` | GroceryList/Pods/leveldb-library/table/filter_block.cc:22-28 | later keys go to the filter of the new block's offset; no key changes filter |
| `FilterBlock.FilterBlockBuilder.GenerateFilter` | GroceryList/Pods/leveldb-library/table/filter_block.cc:52-76 | the pending keys become the next filter, or an empty one |
| `FilterBlock.FilterBlockBuilder.Finish` | GroceryList/Pods/leveldb-library/table/filter_block.cc:36-48 | the finished block holds all filters, their offsets and the base |
| `FilterBlock.FilterMayMatch` | GroceryList/Pods/leveldb-library/table/filter_block.cc:95-109 | the answer of the filter that the offset selects; anything malformed may match |
| `FilterBlock.FiledKeyMatches` | GroceryList/Pods/leveldb-library/table/filter_block.cc:22-109 | a key filed under a block's offset is never denied for that block |
| `Table.HandleRoundTrip` | GroceryList/Pods/leveldb-library/table/format.cc:15-31 | block handles decode to what was encoded |
| `Table.SeekAgrees` | GroceryList/Pods/leveldb-library/table/table.cc:226-255 | seeking the index and then the block it names reaches the same place as seeking all entries |
| `Table.ScanAnswers` | GroceryList/Pods/leveldb-library/db/version_set.cc:259-272 | the outcome is the value v exactly when the newest entry at or below the snapshot is a put of v, a deletion exactly when it is a deletion marker, and nothing exactly when no entry matches |
| `Table.InternalGet` | GroceryList/Pods/leveldb-library/table/table.cc:226-255 | lookup through shortened index keys and the filter finds the value, the deletion marker or nothing, exactly as the newest matching entry of everything added says |
| `Table.TableIterates` | GroceryList/Pods/leveldb-library/table/table.cc:220-224 | a two-level iterator over a finished table is a cursor over everything that was added |
| `KeyBytes.RankIsOrder` | GroceryList/Pods/leveldb-library/db/dbformat.cc:50-66 | the bytes of internal keys have positions ordered as the internal comparator orders the keys |
| `RawTable.DriveBlock` | GroceryList/Pods/leveldb-library/table/block.cc:77-265 | a block iterator over the bytes of internal keys is a cursor over the entries, seeking by the internal order |
| `RawTable.InternalGet` | GroceryList/Pods/leveldb-library/table/table.cc:226-255 | on the bytes of index, blocks and filter: the value, the deletion marker or nothing, exactly as the newest matching entry of everything added says |
| `TableBuilder.TableBuilder.Add` | GroceryList/Pods/leveldb-library/table/table_builder.cc:92-121 | the waiting index entry gets a key between its block and the new key; the entry joins the block under way |
| `TableBuilder.TableBuilder.Flush` | GroceryList/Pods/leveldb-library/table/table_builder.cc:123-137 | the block under way is written and its index entry waits |
| `TableBuilder.TableBuilder.Finish` | GroceryList/Pods/leveldb-library/table/table_builder.cc:199-254 | the finished file is a table of exactly what was added |
| `TableBuilder.BuildAndGet` | GroceryList/Pods/leveldb-library/table/table_builder.cc:92-254 | building from ascending keys and looking one up gives what the newest matching entry added says; there is a result exactly when the data stays below 2^64 bytes and the filter below 2^32, the data bytes are those of the blocks the entries are cut into, and the filter stays below a bound in the number of keys |
| `HandleTables.HandleTable.Lookup` | GroceryList/Pods/leveldb-library/util/cache.cc:58-60 | the entry with the key and hash, if the table holds one |
| `HandleTables.HandleTable.Insert` | GroceryList/Pods/leveldb-library/util/cache.cc:62-76 | adds the entry and hands back the one it replaces |
| `HandleTables.HandleTable.Remove` | GroceryList/Pods/leveldb-library/util/cache.cc:78-86 | removes exactly the entry with the key and hash |
| `HandleTables.HandleTable.Resize` | GroceryList/Pods/leveldb-library/util/cache.cc:107-131 | every entry moves to its bucket in a table with at least as many buckets as entries |
| `Cache.Unlink` | GroceryList/Pods/leveldb-library/util/cache.cc:196-199 | takes one entry out of the circular list |
| `Cache.LinkNewest` | GroceryList/Pods/leveldb-library/util/cache.cc:201-207 | puts an entry at the newest end of the circular list |
| `Cache.AllocatedMeansUsed` | GroceryList/Pods/leveldb-library/util/cache.cc:186-194 | an entry is allocated exactly while it is cached or a caller holds it |
| `Cache.UnrefOk` | GroceryList/Pods/leveldb-library/util/cache.cc:186-194 | the last reference, and no other, frees the entry and takes its charge off |
| `Cache.DropOk` | GroceryList/Pods/leveldb-library/util/cache.cc:186-265 | an entry that leaves the cache is freed exactly when no caller holds it |
| `Cache.TouchOk` | GroceryList/Pods/leveldb-library/util/cache.cc:209-218 | a hit makes the entry the last of the list, keeps the others in their order, adds one to its reference count and changes nothing else |
| `Cache.EnteredOk` | GroceryList/Pods/leveldb-library/util/cache.cc:225-246 | a new entry becomes the newest with one handle out, the entry it replaces is cut out of the list, and no other entry moves or changes its handles |
| `Cache.EvictsOldest` | GroceryList/Pods/leveldb-library/util/cache.cc:248-253 | eviction takes the oldest entries one by one, stops as soon as usage fits the capacity and not before, or empties the list |
| `Cache.LRUCache.Lookup` | GroceryList/Pods/leveldb-library/util/cache.cc:209-218 | a hit gives the caller one more handle, makes the entry the last of the list and keeps the others in their order; a miss changes nothing |
| `Cache.LRUCache.Release` | GroceryList/Pods/leveldb-library/util/cache.cc:220-223 | gives back one handle |
| `Cache.LRUCache.Insert` | GroceryList/Pods/leveldb-library/util/cache.cc:225-256 | the new entry becomes the newest and is held by the caller, an entry with its key is replaced, and the cache evicts down to capacity |
| `Cache.LRUCache.Erase` | GroceryList/Pods/leveldb-library/util/cache.cc:258-265 | drops exactly the entry with the key and hash |
| `CacheRuns.InsertedByLastUse` | GroceryList/Pods/leveldb-library/util/cache.cc:225-256 | an insertion keeps the list in order of last use, and what it evicts was used before everything that stays |
| `CacheRuns.Perform` | GroceryList/Pods/leveldb-library/util/cache.cc:209-265 | any call keeps the list in order of last use, evicts only entries used before all that stay, and leaves every handle still out on an allocated entry |
| `CacheRuns.Drive` | GroceryList/Pods/leveldb-library/util/cache.cc:209-265 | after any sequence of insertions, lookups, releases and erasures on a new cache the list is in order of last use and every handle still out is to an allocated entry |
| `EditCodec.EncodeTo` | GroceryList/Pods/leveldb-library/db/version_edit.cc:41-84 | appends the items of the edit in order |
| `EditCodec.DecodeFrom` | GroceryList/Pods/leveldb-library/db/version_edit.cc:109-210 | tags and bodies are read until none is left; anything malformed or left over is an error |
| `EditCodec.EditRoundTrip` | GroceryList/Pods/leveldb-library/db/version_edit.cc:41-210 | decoding an encoded edit gives it back exactly when the target held no compaction pointers, which Clear does not remove |
| `Manifest.StepAgreesIffClean` | GroceryList/Pods/leveldb-library/db/version_set.cc:656-764 | at each level one more edit keeps the replaying builder in step with the installed version exactly when the edit is clean |
| `Manifest.ReusedNumberResurrects` | GroceryList/Pods/leveldb-library/db/version_set.cc:681-696 | an edit that puts a new file under a deleted number brings the deleted file back on replay |
| `Manifest.SnapshotAgrees` | GroceryList/Pods/leveldb-library/db/version_set.cc:1054-1082 | the builder that has read the snapshot record stands for the version it was taken of |
| `Manifest.RecoverEqualsInstall` | GroceryList/Pods/leveldb-library/db/version_set.cc:811-1009 | replaying the snapshot record and any clean edits yields the very file lists that installing them one by one produced |
| `Manifest.RecoveryExactlyWhenClean` | GroceryList/Pods/leveldb-library/db/version_set.cc:811-1009 | recovery agrees with installation after every edit of a history exactly when the history is clean |
| `Manifest.VersionBuilder.Apply` | GroceryList/Pods/leveldb-library/db/version_set.cc:656-699 | deletions first, then additions, at every level |
| `Manifest.VersionBuilder.SaveTo` | GroceryList/Pods/leveldb-library/db/version_set.cc:702-748 | saves the merged list of every level, given that the lists of deeper levels come out disjoint |
| `ManifestRuns.StepApplies` | GroceryList/Pods/leveldb-library/db/version_set.cc:811-862 | the edit of every flush, move and merge the code makes is sound for the store it is made in and installs as its next version |
| `ManifestRuns.LogAndApply` | GroceryList/Pods/leveldb-library/db/version_set.cc:811-862 | for every sound edit the builder's non-overlap check never fails and the version saved is the edit installed |
| `ManifestRuns.LogAndApplyStep` | GroceryList/Pods/leveldb-library/db/version_set.cc:811-862 | the same for the edit of any step |
| `Manifest.Recover` | GroceryList/Pods/leveldb-library/db/version_set.cc:896-1009 | the recovering loop installs the version that the edits had produced |
| `ManifestRuns.RunEdits` | GroceryList/Pods/leveldb-library/db/version_set.cc:811-1009 | in every run, and from a manifest started at any moment of it, the edits logged since form a clean history and install as the version of the run |
| `ManifestRuns.RunRecovers` | GroceryList/Pods/leveldb-library/db/version_set.cc:896-1009 | the snapshot record of any moment of a run and the edits logged since recover the very version the run has arrived at |
| `ManifestFile.EditHasRecord` | GroceryList/Pods/leveldb-library/db/version_edit.cc:41-84 | every edit over files with byte-string keys is the file part of an edit that can be encoded |
| `ManifestFile.ReplayRecords` | GroceryList/Pods/leveldb-library/db/version_set.cc:938-974 | records are decoded into fresh edits and applied to one builder until one is malformed or names another comparator |
| `ManifestFile.CountersAreNewest` | GroceryList/Pods/leveldb-library/db/version_set.cc:954-972 | after all records each of the four numbers is the one in the last record that has it, and absent exactly when no record has it |
| `ManifestFile.RecoverManifest` | GroceryList/Pods/leveldb-library/db/version_set.cc:896-1009 | from any manifest bytes: an error exactly for corruption, a malformed record, a foreign comparator or no record with a log number, next file number or last sequence, and otherwise the version of the decoded edits and each number from the last record that has it, 0 for a previous log number in none |
| `ManifestFile.WrittenManifest` | GroceryList/Pods/leveldb-library/db/version_set.cc:811-1009 | the bytes of a manifest written from a snapshot record and clean edits decode to those edits and stand for the version they installed |
| `ManifestFile.RecoverRun` | GroceryList/Pods/leveldb-library/db/version_set.cc:896-1009 | recovery from the manifest bytes of a running store gives back the version of the run and the last number of each kind in its records |
| `NanopbStreams.EncodeVarint` | GroceryList/Pods/nanopb/pb_encode.c:494-514 | writes the seven-bit groups of the value, or fails when they do not fit the buffer |
| `NanopbStreams.EncodeSubmessage` | GroceryList/Pods/nanopb/pb_encode.c:600-648 | counts the submessage, writes its length and then exactly that many bytes; the size never changes between the passes |
| `NanopbStreams.PackedSize` | GroceryList/Pods/nanopb/pb_encode.c:133-157 | the size of a packed array, by product or by counting, is the number of bytes its values take |
| `NanopbStreams.EncodePacked` | GroceryList/Pods/nanopb/pb_encode.c:130-176 | one tag, the size and the values of a packed array; nothing for an empty one |
| `NanopbStreams.EncodeItems` | GroceryList/Pods/nanopb/pb_encode.c:177-201 | each item behind its own tag |
| `NanopbStreams.EncodeFieldTo` | GroceryList/Pods/nanopb/pb_encode.c:271-351 | a field by its rule and type |
| `NanopbStreams.Encode` | GroceryList/Pods/nanopb/pb_encode.c:451-473 | a counting stream counts exactly the bytes that a writing stream emits, and writing succeeds exactly when they fit |
| `NanopbStreams.EncodedSize` | GroceryList/Pods/nanopb/pb_encode.c:480-490 | the size reported for a message is the length of its encoding |
| `Nanopb.ZigZagRoundTrip` | GroceryList/Pods/nanopb/pb_encode.c:516-525 | zigzag decoding undoes zigzag encoding for every 64-bit number |
| `NanopbRoundTrip.SignedRoundTrip` | GroceryList/Pods/nanopb/pb_decode.c:1165-1200 | a signed number of any width survives sign extension to 64 bits and the cast from 32 |
| `NanopbRoundTrip.NumberRoundTrip` | GroceryList/Pods/nanopb/pb_decode.c:1118-1260 | scalar values decode to what was encoded |
| `NanopbRoundTrip.BlobRoundTrip` | GroceryList/Pods/nanopb/pb_decode.c:1262-1379 | bytes, strings and fixed-length bytes decode to what was encoded |
| `NanopbRoundTrip.PackedRoundTrip` | GroceryList/Pods/nanopb/pb_decode.c:370-393 | a packed array decodes to its values |
| `NanopbRoundTrip.FieldStep` | GroceryList/Pods/nanopb/pb_decode.c:356-429 | decoding a field adds exactly its items and disturbs no other field |
| `NanopbRoundTrip.ShortMessagesFit` | GroceryList/Pods/nanopb/pb_encode.c:600-648 | in a message shorter than 2^32 bytes no length is too long to be read back |
| `NanopbRoundTrip.MessageRoundTrip` | GroceryList/Pods/nanopb/pb_decode.c:852-953 | decoding the encoding of a message gives the message, for any nesting of submessages |
| `NanopbStreams.FieldIter.Next` | GroceryList/Pods/nanopb/pb_common.c:20-75 | moves to the next field and wraps around at the end |
| `NanopbStreams.FieldIter.FindTag` | GroceryList/Pods/nanopb/pb_common.c:78-95 | one turn through the fields from any of them finds the field with the tag, if there is one |
| `NanopbStreams.DecodeNoInit` | GroceryList/Pods/nanopb/pb_decode.c:852-953 | the decoding loop, with the wrapping search for each field and the final check for required fields; what it delivers into a fitting struct fits the descriptor |
| `NanopbFits.DecodedFits` | GroceryList/Pods/nanopb/pb_decode.c:356-953 | for any bytes, a message that decodes has numbers in range, strings, bytes and arrays within their sizes and at most one member of a oneof |
| `NanopbAnyOrder.AnyOrderDecodes` | GroceryList/Pods/nanopb/pb_decode.c:852-953 | whatever order the pieces of a message come in, the items of each field in order, and whatever unknown fields stand among them, it decodes to the message |
| `NanopbAnyOrder.SomePiecesDecode` | GroceryList/Pods/nanopb/pb_decode.c:852-953 | any pieces of a message, in any order, decode to what they add up to, and fail exactly when a required field is missing |
| `NanopbAnyOrder.SubmessageReadsAs` | GroceryList/Pods/nanopb/pb_decode.c:356-429 | the same inside submessages at any depth |
| `NanopbAnyOrder.InsertUnknown` | GroceryList/Pods/nanopb/pb_decode.c:877-906 | an unknown field may be inserted anywhere |
| `NanopbAnyOrder.SwapNeighbours` | GroceryList/Pods/nanopb/pb_decode.c:852-953 | neighbouring pieces of different fields may change places |
| `NanopbAnyOrder.UnknownValuesSkip` | GroceryList/Pods/nanopb/pb_decode.c:231-290 | varints, fixed-width numbers and length-prefixed values of unknown fields are skipped exactly |
| `NanopbStreams.DecodePieces` | GroceryList/Pods/nanopb/pb_decode.c:852-953 | the decoder returns the message for any such order |
| `NanopbStreams.EncodeAndDecode` | GroceryList/Pods/nanopb/pb_decode.c:852-953 | encoding succeeds exactly when the buffer is large enough, and then decodes to the same message |

## Left out

- Keys.UserKey: user keys are positions in the comparator's order, not byte strings, outside the modules that work on bytes; a countable total order embeds in the reals, which `Keys.BytewiseEmbedsInReals` proves for the built-in comparator.
- LsmSteps.Enabled: a merge or move step must meet the exact condition of `LsmSteps.Harmless`, which clear boundaries ensure but PickCompaction does not above level 0; and sequence numbers stay below 2^56 - 1, at which the drop rule's sentinel would coincide with a real number.
- LsmSteps.After: a compaction is one atomic version change; the memtable flush inside the compaction loop is a step of its own before or after it.
- SkipList.Enabled: loads and stores interleave one at a time in program order; weaker memory orders are not modelled.
- WriteQueue.Enabled: log appends and memtable inserts succeed; the bad-log path that fails the whole group is not modelled.
- Recovery.Enabled: file operations succeed and appended bytes survive a crash; compactions between crashes are the subject of `LsmRuns` instead.
- Manifest.Recover: only the file lists are replayed; `ManifestFile.RecoverManifest` adds the records' bytes and the log, file and sequence numbers, and compaction pointers, which only guide the choice of later compactions, are left out of both.
- Manifest.VersionBuilder.SaveTo: that the lists come out disjoint is its precondition; `ManifestRuns.LogAndApply` and `ManifestRuns.LogAndApplyStep` discharge it.
- Versions.PickLevelForMemTableOutput: a sum of file sizes stands for the 64-bit total, without wrap-around.
- HandleTables.HandleTable: a bucket's chain is the sequence of its entries rather than links through them, and the low bits of a hash are its remainder by the table size.
- Cache.LRUCache: reference counts are a map beside the entries instead of a field inside them; counts and charges do not wrap around.  The sixteen shards are sixteen such caches.
- Block.BlockBuilder and BlockIter.BlockIter: offsets and lengths fit in 32 bits, and blocks are ones the builder wrote; the parser's error exits on other bytes are not modelled.
- Log.Reader: reading starts at offset 0, as every caller does; the checksum is any function whose Extend continues over concatenation.
- Bloom.Policy: the hash is any 32-bit function of the key, and the number of probes is given instead of computed from a floating-point factor.
- Table.InternalGet: data and index blocks are taken as the entries their iterators show, and their bytes are searched in `RawTable.InternalGet`; compression, the block cache and the metaindex are left out.
- TableBuilder.TableBuilder: it keeps the entries of each block and takes their size in bytes as a parameter; `RawTable.RenderBlock` builds the bytes of one block.
- Merging.MergingIterator and TwoLevel.TwoLevelIterator: children are the plain cursors of `Cursors`; status propagation is left out.
- StoreIterators.ScanInRun: the iterator runs over the merged entries, which `Merging.MergingIterator.Drive` shows to move like a plain cursor when no key is shared, as `StoreIterators.StoreMerge` proves.
- Nanopb.DescriptorOk: fewer than 32 required fields, beyond which the decoder's bitmap check shifts by a full word; the bitmap itself is the set of fields seen.
- Nanopb.MessageOk: static fields only, with counts and sizes within the C arrays, so the encoder's size errors do not arise; callbacks, extensions, pointer fields and proto3 implicit presence are left out, and strings hold no NUL before their end.
- Nanopb.DecodeLoop: content of absent fields is not part of a message, defaults are zero, and a key with field number 0 in an empty message type is skipped like an unknown field.
- I/O errors, corrupted internal keys, seek statistics and compaction scores, background scheduling, repair, snapshots by handle identity, environment and port code, the C binding and the tools are left out.
- The Swift app itself is left out: its state lives in a remote database.
