# A model of the LevelDB and Snappy libraries

The chunk viewer reads worlds through two libraries kept in its tree: a patched LevelDB
(`leveldb-mcpe/`) and Snappy (`snappy/`). This project models their algorithms in Dafny and proves
what they are relied on for. `dafny verify dfyconfig.toml` checks all of it.

## What is modelled

**The tree of a database** (`DbFormat`, `Versions`, `CompactionInputs`, `VersionBuilder`, `CompactionWork`,
`Trees`, `Lsm`, `Straddle`). A memtable, an immutable memtable and seven levels of files; `Lsm.DBImpl` writes
batches, switches memtables, flushes, moves files, compacts, takes and releases snapshots. The specification
is the set of all entries ever written: a read at sequence number *s* is the newest entry for the key at or
below *s*. Two things are kept apart:

- `Lsm.Inv`: the files are well formed, level 0 in order of age by file number, the levels from 1 on sorted,
  every entry in one file, the memtables newer than the files, and all of it together answers every read at a
  live snapshot as the whole history would.
- `Trees.FilesAge`: for each user key the levels downwards are in order of age. `Versions.Get` needs only the
  first: it says what the first level that answers gives, and that this is right unless the version
  `Versions.Misleads` the search. `Trees.SearchIsRight` proves that no key and snapshot is misled exactly if the
  levels are in order of age.

Writes, memtable switches and flushes keep both. A compaction may cut its output between two versions of a
user key, which then straddles two files of a level, and a later compaction may take one file without the
other. `Lsm.DBImpl.BackgroundCompaction` says exactly what becomes of a database then. A move loses nothing,
and a merge loses reads if and only if it brings a deleted key back (`CompactionWork.Resurrects`). The levels
stay in order of age if and only if, for a move, no file left on the level goes on with the user key the moved
file ends with (`Trees.MoveSafe`), and for a merge no kept version goes down past an older one left above it
(`Trees.AgeSafe`). If they do not, Get is wrong for exactly the parted keys, at exactly the sequence numbers at
which the newest version is one that went down and the memtables have none (`Trees.StepMisleads`,
`Lsm.DBImpl.Get`). `Trees.MergeSafe` is what a caller can see of that in the files before a merge. Cutting a
key apart breaks nothing by itself; `Straddles` follows two runs from a new database through writes, flushes
and a merge under a live snapshot, through the cut, to a Get that gives an overwritten value (`GetAfterMove`)
and one that gives a deleted value (`GetAfterMerge`). As long as no user key straddles two files
(`Trees.NoStraddle`) every step is safe, and it stays that way while no snapshot is held. A flush and a
compaction are steps of their own: a flush inside a running compaction is not interleaved with it.

**Iterators over the database.** `Lsm.DBImpl.NewIterator` puts together the iterators of the memtables, the
level-0 files and the other levels (`RunIterator`), merges them and shows exactly what Get finds; it needs
`Lsm.Inv` only, so it is right even where the levels have come out of order of age and Get is not. The merged
input of a compaction comes from the same iterators.

**Crash safety** (`Manifest`, `Disk`, `Recovery`). `Disk` holds the files by kind and number and the name
in CURRENT. Its invariant `Disk.Disk.Ok` says of the files alone, without any process: the manifest CURRENT
names replays to a version whose tables are on disk, and those tables with the logs from the manifest's log
number on hold all that was logged, as far as reads from the oldest promised snapshot on can tell. Every
single write to the disk keeps it, so a crash between any two of them leaves a disk that
`Recovery.Open` recovers in full; a crash inside the append of a log record leaves the records before it
(`LogFiles.TornBatch`). `Recovery.Db` runs the protocol on such a disk with reuse_logs off, straddling user
keys or not: a move never loses anything, a merge exactly if it brings a deleted key back. A merge that keeps
reads keeps all that was logged recoverable at every point within it; after one that does not the disk holds
what the tree holds.

**From bytes to the tree** (`TableEntries`, `LogFiles`, `ManifestFiles`, `DiskBytes`). User keys are byte
strings in files and ranks in the tree; any finite set of keys has ranks. A lookup in a table's bytes gives what
a lookup among its ranked entries gives; a log cut anywhere reads as its whole batches; a manifest reads as its
records, where files no longer there do not matter. `DiskBytes.Open` reads a directory of such bytes and opens
it: the database holds all that was logged.

**Writers** (`WriteBatch`, `GroupCommit`). The bytes of a batch, and the queue in which a leader logs and
inserts the batches of its followers; every interleaving of arrivals with a leader's stages is covered by
`GroupCommit.WriteQueue`.

**Iterators** (`Cursors`, `TwoLevelIterator`, `Merger`, `DbIter`). Each is a class whose position is proved
to be an index into one sorted sequence, through any mix of seeks and steps in both directions.

**Memory** (`SkipList`, `HandleTable`, `LruCache`). The skip list takes one store or load per step, with
any number of readers between the stores of an insertion.

**Disk formats** (`Varint`, `Coding`, `VersionEditCodec`, `BlockFormat`, `Block`, `LogFormat`, `LogWriter`,
`LogScan`, `LogReader`, `Comparator`, `Bloom`, `FilterBlock`, `TableFormat`, `TableLayout`, `TableBuilder`, `Table`).
All byte for byte: blocks with shared prefixes and restart points, the log in 32 KB blocks, manifest edits,
and whole table files with data blocks, index, filters and footer. Checksums, hash functions and, where it
matters, filter policies are arbitrary functions. The log reader is modelled on any bytes: what it returns was
written, and damage ends with its block (`LogScan`). One case goes against the design, which has a reader go on
at the next block whatever it meets: the reader takes a fragment of type 5 with a right checksum for the end of
the file. `LogScan.ReadsOnIff` proves that nothing else stops it.

**Snappy** (`SnappyFormat`, `SnappyVarint`, `SnappyBits`, `SnappyMatch`, `SnappySource`, `SnappyGreedy`,
`SnappyCompress`, `SnappyCopy`, `SnappyDecompress`). The specification is a decoder that takes one tag at a
time and copies one byte at a time. The compressor is correct for any hash function, and finds what repeats:
it writes just what a plain greedy search writes (`SnappyGreedy`). The decompressor, with its branch-free
loop, 64-byte copies, refills across input pieces and slop, returns what the plain decoder returns, on every
input.

## Model

| member | source | states |
|---|---|---|
| DbFormat.LookupFindsNewest | leveldb-mcpe/db/memtable.cc:115-154 | a seek to (key, s) in a sorted run lands on the newest visible version of the key exactly if there is one |
| DbFormat.InsertSorted | leveldb-mcpe/db/memtable.cc:86-113 | inserting an entry with a new internal key keeps the run sorted and adds that entry only |
| DbFormat.ReadsIsFunction | leveldb-mcpe/db/db_impl.cc:1134-1179 | the specification of a read has at most one answer |
| Versions.FindFile | leveldb-mcpe/db/version_set.cc:86-105 | binary search returns the least file whose largest key is at or after the key |
| Versions.SomeFileOverlapsRange | leveldb-mcpe/db/version_set.cc:121-155 | true exactly if some file of the level meets the user-key range, for open ends and for both kinds of level |
| Versions.SearchLevel0 | leveldb-mcpe/db/version_set.cc:357-373 | newest file first over overlapping files finds the newest visible version on level 0 |
| Versions.SearchSortedLevel | leveldb-mcpe/db/version_set.cc:374-389 | one file found by binary search suffices on a sorted level, even when user keys straddle files |
| Versions.Get | leveldb-mcpe/db/version_set.cc:332-429 | on levels in any order of age: the newest version of the first level that answers, or that nothing is visible; the newest of all if and only if the version does not mislead the search, which it never does with the levels in order of age |
| CompactionInputs.GetOverlappingInputs | leveldb-mcpe/db/version_set.cc:531-572 | terminates; returns exactly the files meeting the final range, which at level 0 is the least closed range around the one asked for |
| CompactionInputs.LeftOutIsDisjoint | leveldb-mcpe/db/version_set.cc:531-572 | with a closed range, a file left out shares no user key with a file taken |
| CompactionInputs.PickLevelForMemTableOutput | leveldb-mcpe/db/version_set.cc:502-528 | the level is the deepest, at most 2, that can be reached without meeting a file or too many bytes two levels down; unless it is level 0 no file on it or above it meets the range |
| CompactionInputs.PickFiles | leveldb-mcpe/db/version_set.cc:1320-1350 | the first file that reaches behind the compaction pointer, or the first of all; at level 0 with everything in the least closed range around it |
| CompactionInputs.GetRange | leveldb-mcpe/db/version_set.cc:1235-1258 | the range spans all the files, and its ends are reached |
| CompactionInputs.SetupOtherInputs | leveldb-mcpe/db/version_set.cc:1356-1422 | the start and what its span meets on the next level, or, if and only if they can grow, what they grow to; nothing left out at level 0 overlaps them; grandparents are exactly the files two levels down that the span of all inputs meets |
| CompactionInputs.OneMeetsSpan | leveldb-mcpe/db/version_set.cc:1402-1408 | files and their span determine what meets them |
| CompactionInputs.TotalIsSum | leveldb-mcpe/db/version_set.cc:58-64 | the bytes of files are added up |
| CompactionWork.DropKeepsReads | leveldb-mcpe/db/db_impl.cc:963-1006 | dropping shadowed versions and base-level deletions changes no read of any key at any snapshot from the smallest on, if and only if no key comes back: one whose newest version at the snapshot is a dropped deletion with an older value outside the input |
| CompactionWork.WipedLeavesNothing | leveldb-mcpe/db/db_impl.cc:980-1001 | a merge keeps no version of a key whose newest version in the input is a base-level deletion every snapshot sees |
| CompactionWork.NewestIsKept | leveldb-mcpe/db/db_impl.cc:980-1001 | of any other key it keeps the newest version |
| CompactionWork.KeepsOnePerKey | leveldb-mcpe/db/db_impl.cc:980-1001 | with no snapshot older than the input, one version of each user key is kept |
| CompactionWork.Compaction.IsBaseLevelForKey | leveldb-mcpe/db/version_set.cc:1495-1514 | for keys asked in ascending order the advancing cursors answer as a scan of all deeper levels would |
| CompactionWork.Compaction.ShouldStopBefore | leveldb-mcpe/db/version_set.cc:1516-1537 | the bytes of the grandparents passed since the last stop are counted from the second key on; stops exactly when they are too many, and starts over |
| CompactionWork.DoCompactionWork | leveldb-mcpe/db/db_impl.cc:925-1046 | the output tables, none empty, put together are the kept entries in order; they are cut exactly before an entry that passes too many grandparents and behind one that fills its file |
| CompactionWork.CutsSpareGrandparents | leveldb-mcpe/db/version_set.cc:1516-1537 | no output reaches across more bytes of grandparents than the limit |
| CompactionWork.CutsBySize | leveldb-mcpe/db/db_impl.cc:1008-1033 | with no grandparents the cuts fall where a file becomes large enough |
| CompactionWork.CutsHaveReason | leveldb-mcpe/db/db_impl.cc:936-1033 | an output other than the last ends because it is large enough or because too many bytes of grandparents were passed since an entry before it |
| VersionBuilder.OrderedUnique | leveldb-mcpe/db/version_set.cc:605-622 | an ordered file list is determined by its set of files |
| VersionBuilder.SaveLevelOrdered | leveldb-mcpe/db/version_set.cc:711-757 | merging base and added files keeps the list in order |
| VersionBuilder.SaveLevelLoop | leveldb-mcpe/db/version_set.cc:720-740 | the upper-bound loop is the ordered merge of base and added files less the deleted ones |
| VersionBuilder.Builder.Apply | leveldb-mcpe/db/version_set.cc:665-708 | an edit's deletions and then its additions, each taking the file off the deleted set |
| VersionBuilder.Builder.SaveTo | leveldb-mcpe/db/version_set.cc:711-771 | the version saved is the merge of base and collected changes, level by level |
| VersionBuilder.ReplayAtOnce | leveldb-mcpe/db/version_set.cc:950-1021 | one builder for all edits gives the version made by applying them one at a time, each level in order, when no number comes back to a level |
| VersionBuilder.ReplayKeepsSurvivors | leveldb-mcpe/db/version_set.cc:665-771 | applied one at a time, a file is in the result exactly if it was there or was added, and no later edit took its number off the level |
| VersionBuilder.ReplayKeepsNumbers | leveldb-mcpe/db/version_set.cc:665-771 | one builder for all edits keeps every file it came to know whose number no edit deletes without a later one bringing it back |
| VersionBuilder.ReplaysAgree | leveldb-mcpe/db/version_set.cc:665-771 | the two ways give the same files if and only if no file is gone whose number is not |
| VersionBuilder.ReaddingBreaksReplay | leveldb-mcpe/db/version_set.cc:665-771 | an input on which they differ: a number deleted and added again with other boundaries |
| Trees.TreeServes | leveldb-mcpe/db/version_set.cc:332-429 | the tree invariant gives what compactions require, and with files in order of age what reads require |
| Trees.SearchIsRight | leveldb-mcpe/db/version_set.cc:332-429 | no key and snapshot is misled if and only if the levels are in order of age |
| Lsm.InsertInto | leveldb-mcpe/db/write_batch.cc:118-141 | a batch goes in under consecutive sequence numbers, each update with its own key, type and value; the memtable stays sorted |
| Lsm.WriteKeeps | leveldb-mcpe/db/db_impl.cc:1238-1270 | a write keeps the invariant for the longer history, whatever live snapshot is oldest afterwards |
| Lsm.SwitchKeeps | leveldb-mcpe/db/db_impl.cc:1382-1406 | so does switching memtables |
| Trees.FlushKeepsTree | leveldb-mcpe/db/db_impl.cc:490-534 | a new table on a level nothing on or above meets keeps the tree, its order of age, and that no key straddles |
| Lsm.FlushKeeps | leveldb-mcpe/db/db_impl.cc:536-567 | so the invariant survives a flush |
| Trees.MoveKeepsTree | leveldb-mcpe/db/db_impl.cc:740-759 | a move keeps the tree and its entries, and the order of age if and only if no file left on the level goes on with the user key the moved one ends with |
| Lsm.MoveKeeps | leveldb-mcpe/db/db_impl.cc:740-759 | so the invariant survives a move |
| Trees.CompactAges | leveldb-mcpe/db/db_impl.cc:891-910 | a merge keeps the order of age if and only if, wherever a file left on the level goes on with the user key an input ends with, no version of that key is kept |
| Trees.CompactKeepsTree | leveldb-mcpe/db/db_impl.cc:891-910 | replacing inputs by outputs keeps the tree wherever the output was cut; what is beside the inputs stays |
| Trees.NoStraddleIsSafe | leveldb-mcpe/db/version_set.cc:1356-1422 | while no user key straddles two files, no choice of inputs parts one |
| Trees.MergeSafeSuffices | leveldb-mcpe/db/version_set.cc:1356-1422 | if no file left on the level goes on with the key an input ends with, nor one left on the next level with a key deleted for good, order of age and reads are kept |
| Trees.StepMisleads | leveldb-mcpe/db/version_set.cc:332-429 | after a move or merge the search is misled for key k at s if and only if a file left on the level goes on with k where an input ends with it, and the newest version at s is one that went down and is newer than it |
| Lsm.CompactKeeps | leveldb-mcpe/db/db_impl.cc:912-1079 | the invariant, reads at live snapshots included, survives a merge if and only if no deleted key comes back; what is left is served in any case |
| Lsm.MakeInputIterator | leveldb-mcpe/db/version_set.cc:1269-1300 | an iterator over exactly the inputs' entries: level-0 files each by itself, another level as one run |
| Lsm.MergeInputs | leveldb-mcpe/db/db_impl.cc:937-941 | what that iterator delivers from its first entry to its last: all the inputs' entries, sorted |
| Lsm.MergeInputsToOutputs | leveldb-mcpe/db/db_impl.cc:912-1079 | from inputs to an edit: the version after it has the kept entries in place of the inputs, in files cut by the rule and each with the size of its table; when it keeps order of age, reads, and keys from straddling, and which reads it misleads |
| Lsm.NoSnapshotNoStraddle | leveldb-mcpe/db/db_impl.cc:955-1033 | with no snapshot held, no cut parts a user key |
| Straddles.WrittenTwice | leveldb-mcpe/db/version_set.cc:502-528 | from a new database: a key written and flushed to level 2, and, a snapshot taken, written again and flushed to level 1; the database is as it must be |
| Straddles.Straddled | leveldb-mcpe/db/db_impl.cc:1023-1029 | the merge of the two under the snapshot keeps both versions and cuts between them; the database is as it must be |
| Straddles.StraddlingMoveMisleads | leveldb-mcpe/db/version_set.cc:1356-1422 | from there the file with the newer version is moved down alone and the files mislead a read at its sequence number |
| Straddles.SearchAfterMove | leveldb-mcpe/db/version_set.cc:332-429 | Version::Get on the tree the move leaves gives the older version |
| Straddles.GetAfterMove | leveldb-mcpe/db/db_impl.cc:1134-1179 | and so does a Get of the database, where the history says the newer |
| Straddles.Deleted | leveldb-mcpe/db/version_set.cc:502-528 | from a new database: a value flushed to level 2, and, a snapshot taken, another key and the deletion flushed to level 1 |
| Straddles.CutBehindDeletion | leveldb-mcpe/db/db_impl.cc:1023-1029 | the merge of the two under the snapshot cuts the deletion off from the older value; the database is as it must be |
| Straddles.WrittenAgain | leveldb-mcpe/db/db_impl.cc:490-534 | and still is after the snapshot is released and another key of the deletion's file is written and flushed above it |
| Straddles.StraddlingMergeResurrects | leveldb-mcpe/db/version_set.cc:1356-1422 | from there the merge of the new file takes in the deletion but not the value and drops it: reads of the key were None and are the value |
| Straddles.GetAfterMerge | leveldb-mcpe/db/db_impl.cc:1134-1179 | a Get of the database gives the value again, where the history says deleted |
| Lsm.DBImpl.Write | leveldb-mcpe/db/db_impl.cc:1219-1292 | a batch extends the history by its entries; the invariant holds, whatever straddles |
| Lsm.DBImpl.SwitchMemtable | leveldb-mcpe/db/db_impl.cc:1382-1406 | the memtable becomes the immutable one |
| Lsm.DBImpl.CompactMemTable | leveldb-mcpe/db/db_impl.cc:536-567 | the immutable memtable is a table, with its size, on the level where it comes to rest, every read is still answered; order of age is kept, and no key straddles that did not |
| Lsm.DBImpl.BackgroundCompaction | leveldb-mcpe/db/db_impl.cc:709-794 | files from the start are moved if it is one file that meets none and few enough bytes of grandparents, and else merged down; nothing is lost by a move, and by a merge if and only if a deleted key comes back; order of age is kept if and only if the step is safe, and else Get is wrong for exactly the parted keys; while no user key straddles two files all is kept, and none will while no snapshot is held |
| Lsm.DBImpl.Compact | leveldb-mcpe/db/db_impl.cc:912-1079 | the inputs are replaced by tables of what the drop rule keeps, cut as grandparents and file size say and recorded with their sizes; valid if and only if no deleted key comes back, in order of age if and only if no kept version goes down past an older one |
| Lsm.DBImpl.OldestIsLeast | leveldb-mcpe/db/db_impl.cc:925-929 | the number a merge drops by is the least of the last number and the snapshots |
| Lsm.DBImpl.SafeForReads | leveldb-mcpe/db/version_set.cc:1356-1422 | what the files show before the merge is enough to know it safe |
| Lsm.DBImpl.TrivialMove | leveldb-mcpe/db/db_impl.cc:740-759 | the one file moves a level down, nothing else changes and nothing is lost; in order of age if and only if nothing of its last user key is left above it, and else which reads go wrong |
| Lsm.DBImpl.GetSnapshot | leveldb-mcpe/db/db_impl.cc:1200-1203 | a snapshot at the current sequence number, newest in the list |
| Lsm.DBImpl.ReleaseSnapshot | leveldb-mcpe/db/db_impl.cc:1205-1209 | releasing any snapshot keeps the others served |
| Lsm.FindEntry | leveldb-mcpe/db/db_impl.cc:1157-1170 | memtable, immutable memtable, files: the newest visible version of all if and only if the memtables have one or the files do not mislead; else an older one |
| Lsm.DBImpl.Get | leveldb-mcpe/db/db_impl.cc:1134-1179 | at the current number or any live snapshot: the one answer the history of all writes gives, unless memtables have no version and the files mislead, and then an older version; never so with the levels in order of age |
| Lsm.NewInternalIterator | leveldb-mcpe/db/db_impl.cc:1092-1121 | an iterator over exactly the entries of memtables and files |
| Lsm.ShownIsRead | leveldb-mcpe/db/db_iter.cc:146-304 | an iterator at s shows key k with value x if and only if a read of k at s finds x |
| Lsm.DBImpl.NewIterator | leveldb-mcpe/db/db_impl.cc:1181-1191 | at the current number or a live snapshot the iterator shows exactly what Get answers from the history, for all keys |
| Manifest.AppendReplays | leveldb-mcpe/db/version_set.cc:905-1036 | replaying one more record applies its edit to the version the others give |
| Manifest.LastWins | leveldb-mcpe/db/version_set.cc:974-993 | the numbers recovery takes are the last that any record names |
| Manifest.AppendFresh | leveldb-mcpe/db/version_set.cc:820-903 | a record with unused file numbers keeps the manifest replayable |
| Manifest.AppendMove | leveldb-mcpe/db/version_set.cc:820-903 | so does one that moves a file down a level |
| Manifest.SnapshotReplays | leveldb-mcpe/db/version_set.cc:1113-1141 | the snapshot record that starts a manifest replays to the very version |
| Disk.Disk.constructor | leveldb-mcpe/db/db_impl.cc:179-209 | a new database's disk recovers to nothing |
| Disk.Disk.WriteTable | leveldb-mcpe/db/db_impl.cc:490-534 | a table of a size and entries, under a number the manifest does not name, leaves recovery as it was |
| Disk.Disk.AppendLog | leveldb-mcpe/db/db_impl.cc:1244-1249 | once its record is in the newest log, a batch is part of what recovery finds |
| Disk.Disk.DeleteTable | leveldb-mcpe/db/db_impl.cc:220-274 | a table the version does not name may go |
| Disk.Disk.DeleteLog | leveldb-mcpe/db/db_impl.cc:220-274 | so may a log below the log number |
| Recovery.DurableFromInv | leveldb-mcpe/db/version_set.cc:862-881 | the invariant in memory, with logs holding the memtables, makes a committed record, or the manifest CURRENT is switched to, complete |
| Recovery.Db.Write | leveldb-mcpe/db/db_impl.cc:1238-1270 | logged, then inserted; the history has the batch from the log record on |
| Recovery.Db.Get | leveldb-mcpe/db/db_impl.cc:1134-1179 | the one answer all that was logged gives, also after a crash, unless the files mislead |
| Recovery.Db.SwitchMemtable | leveldb-mcpe/db/db_impl.cc:1382-1406 | a new log under a new number, a new memtable, the old log still live |
| Recovery.Db.LogAndApply | leveldb-mcpe/db/version_set.cc:820-903 | before the manifest record the disk recovers to the old state, after it to the new one |
| Recovery.Db.WriteLevel0Table | leveldb-mcpe/db/db_impl.cc:490-534 | an edit with one table of the immutable memtable, of the size its file has, on the level where it comes to rest, or none if that is empty; the number is used up |
| Recovery.Db.CompactMemTable | leveldb-mcpe/db/db_impl.cc:536-567 | the flush is durable, old logs are retired, nothing obsolete is left on the disk |
| Recovery.Db.DeleteObsoleteFiles | leveldb-mcpe/db/db_impl.cc:220-274 | what remains, by kind, and that recovery needs nothing that went |
| Recovery.Db.Compact | leveldb-mcpe/db/db_impl.cc:709-794 | a move or merge, chosen as by BackgroundCompaction, made durable; recoverable in full if and only if it brings no deleted key back; memtables and history untouched |
| Recovery.Db.MoveFile | leveldb-mcpe/db/db_impl.cc:740-759 | a trivial move made durable by one record, with nothing lost whatever it parts |
| Recovery.Db.MergeFiles | leveldb-mcpe/db/db_impl.cc:912-1079 | outputs are protected while they are written, named by one record, and only then are the inputs deleted; the database is linked to all that was logged if and only if no deleted key comes back, and to what tree and memtables hold in any case; nothing obsolete is left |
| Recovery.Db.InstallCompactionResults | leveldb-mcpe/db/db_impl.cc:891-910 | the edit is applied; the disk recovers to all that was logged if the merge keeps reads, else to what the tree then holds |
| Recovery.ReadManifest | leveldb-mcpe/db/version_set.cc:905-1036 | all records through one builder, last number of each kind wins; nothing if one is missing |
| Recovery.MissingTables | leveldb-mcpe/db/db_impl.cc:325-344 | crossing off every number found leaves exactly the version's file numbers no file on disk of any kind has; none if its tables are there |
| Recovery.RecoverLogFile | leveldb-mcpe/db/db_impl.cc:367-488 | tables with exactly the log's entries, one whenever the memtable passes the write buffer and one for what is left, with their sizes; the largest sequence number seen |
| Recovery.ReplayLogs | leveldb-mcpe/db/db_impl.cc:346-358 | the live logs, and no others, in order of number |
| Recovery.StartManifest | leveldb-mcpe/db/db_impl.cc:1566-1608 | log, new manifest and CURRENT in an order that is safe at every point |
| Recovery.RecoveredInv | leveldb-mcpe/db/db_impl.cc:276-365 | the recovered tree answers every promised read as the history does |
| Recovery.Open | leveldb-mcpe/db/db_impl.cc:276-365 | from any disk a run can leave: all recoverable entries back, none of the history above LastSequence, no table missing; new tables at level 0, with their sizes |
| TableEntries.RanksExist | leveldb-mcpe/util/comparator.cc:25-27 | any finite set of user keys has ranks in their order |
| TableEntries.SameAnswer | leveldb-mcpe/db/memtable.cc:115-154 | the newest visible version in a table's bytes is what a seek among its ranked entries finds |
| TableEntries.Get | leveldb-mcpe/table/table.cc:227-256 | a lookup in a table's bytes, through index and filter, gives what the tree's lookup gives |
| TableEntries.Scan | leveldb-mcpe/table/table.cc:221-225 | an iterator over the table, from first to last, gives its entries in order |
| LogFiles.ReadLog | leveldb-mcpe/db/db_impl.cc:403-437 | of a log cut at any byte: every whole batch, with its sequence number and updates |
| LogFiles.TornBatch | leveldb-mcpe/db/log_writer.cc:36-109 | a crash while a batch is appended leaves the log before it, or with it if all of it is there |
| ManifestFiles.ReadRecords | leveldb-mcpe/db/version_set.cc:905-1036 | every record of a manifest's bytes in turn, or failure if one is of another comparator |
| ManifestFiles.FileReadsBack | leveldb-mcpe/db/version_edit.cc:78-84 | a file of the tree, named by its number, size and bounds in bytes, reads back as itself |
| ManifestFiles.VersionTrimmed | leveldb-mcpe/db/version_set.cc:665-771 | replaying records looks at no file's contents |
| ManifestFiles.TrimmedIsDurable | leveldb-mcpe/db/version_set.cc:905-1036 | a recoverable disk stays one when files of the manifest that are gone have no contents |
| DiskBytes.ReadDisk | leveldb-mcpe/db/db_impl.cc:276-360 | the bytes of tables, logs and manifest read as the disk they were written from |
| DiskBytes.Open | leveldb-mcpe/db/db_impl.cc:276-360 | opening a directory of bytes, its logs possibly torn, gives a database that holds all that was logged |
| WriteBatches.ParseOpsOfBytes | leveldb-mcpe/db/write_batch.cc:49-87 | the bytes of some updates parse back to them |
| WriteBatches.UpdateFormat | leveldb-mcpe/db/write_batch.cc:5-14 | 1 and two length-prefixed strings are a Put, 0 and one string a Delete |
| WriteBatches.OtherTags | leveldb-mcpe/db/write_batch.cc:63-79 | any other first byte is malformed |
| WriteBatches.BatchFormat | leveldb-mcpe/db/write_batch.cc:5-14 | eight bytes of sequence number, four of count, and the updates |
| WriteBatches.Iterate | leveldb-mcpe/db/write_batch.cc:49-87 | on any bytes: the updates before the first malformed one are handled, and the status says what is wrong, if anything |
| WriteBatches.WriteBatch.Put | leveldb-mcpe/db/write_batch.cc:105-110 | 1, key and value in bytes behind the updates there were, and one more in the count |
| WriteBatches.WriteBatch.Delete | leveldb-mcpe/db/write_batch.cc:112-116 | 0 and the key in bytes behind the updates there were, and one more in the count |
| WriteBatches.WriteBatch.SetSequence | leveldb-mcpe/db/write_batch.cc:101-103 | the header's sequence number changes and nothing else |
| WriteBatches.WriteBatch.Append | leveldb-mcpe/db/write_batch.cc:148-152 | the other batch's updates follow, counts added, header kept |
| WriteBatches.WriteBatch.IteratesBack | leveldb-mcpe/db/write_batch.cc:49-116 | a batch reads back as the updates, count and sequence number it was built from |
| GroupCommit.GroupKeepsSync | leveldb-mcpe/db/db_impl.cc:1313-1320 | a group has a sync writer only if its leader syncs |
| GroupCommit.GroupFills | leveldb-mcpe/db/db_impl.cc:1301-1336 | no batch takes the group over 128 KB more than its leader, or 1 MB, and no sync request joins a leader that does not sync; and the writer behind the group would do one or the other |
| GroupCommit.OneFills | leveldb-mcpe/db/db_impl.cc:1301-1336 | those limits leave one place where the group can end |
| GroupCommit.BuildBatchGroup | leveldb-mcpe/db/db_impl.cc:1294-1338 | the group's updates in queue order, in the spare batch when there is more than one; the group keeps to the limits and is as long as they allow |
| GroupCommit.WriteQueue.Enqueue | leveldb-mcpe/db/db_impl.cc:1219-1232 | a writer may arrive at any stage of a leader |
| GroupCommit.WriteQueue.BuildGroup | leveldb-mcpe/db/db_impl.cc:1234-1241 | the front writer leads; its group fills the limits; the batch is built and numbered, and holds the updates of the group |
| GroupCommit.WriteQueue.AppendToLog | leveldb-mcpe/db/db_impl.cc:1241-1256 | one record with the group's updates and its sync |
| GroupCommit.WriteQueue.InsertToMem | leveldb-mcpe/db/db_impl.cc:1257-1259 | the same updates under the same numbers into the memtable |
| GroupCommit.WriteQueue.Finish | leveldb-mcpe/db/db_impl.cc:1267-1289 | exactly the group leaves the queue |
| GroupCommit.WriteQueue.Committed | leveldb-mcpe/db/db_impl.cc:1219-1292 | between leaders: log and memtable are the batches let go, each once, in order of arrival, numbered without gaps up to last_sequence |
| GroupCommit.WriteQueue.RangesFollow | leveldb-mcpe/db/db_impl.cc:1238-1270 | records' number ranges are contiguous and disjoint |
| GroupCommit.WriteQueue.CommittedOnce | leveldb-mcpe/db/db_impl.cc:1219-1292 | a writer with a batch is in exactly one record |
| GroupCommit.WriteQueue.SyncsAreSynced | leveldb-mcpe/db/db_impl.cc:1250-1256 | a sync writer's record was synced |
| TwoLevelIterators.FlatSorted | leveldb-mcpe/table/two_level_iterator.cc:14-182 | blocks under separators form one sorted run |
| TwoLevelIterators.TwoLevelIterator.Current | leveldb-mcpe/table/two_level_iterator.cc:37-44 | the entry shown is the one at the position in the whole run |
| TwoLevelIterators.TwoLevelIterator.Seek | leveldb-mcpe/table/two_level_iterator.cc:91-96 | the first entry of the whole run at or after the target |
| TwoLevelIterators.TwoLevelIterator.SeekToFirst | leveldb-mcpe/table/two_level_iterator.cc:98-103 | the first entry of the whole run |
| TwoLevelIterators.TwoLevelIterator.SeekToLast | leveldb-mcpe/table/two_level_iterator.cc:105-110 | the last entry of the whole run |
| TwoLevelIterators.TwoLevelIterator.Next | leveldb-mcpe/table/two_level_iterator.cc:112-116 | the next index, across blocks |
| TwoLevelIterators.TwoLevelIterator.Prev | leveldb-mcpe/table/two_level_iterator.cc:118-122 | the previous index, across blocks |
| TwoLevelIterators.TwoLevelIterator.SkipEmptyDataBlocksForward | leveldb-mcpe/table/two_level_iterator.cc:125-136 | terminates on the first entry of a later block, or the end |
| TwoLevelIterators.TwoLevelIterator.SkipEmptyDataBlocksBackward | leveldb-mcpe/table/two_level_iterator.cc:138-149 | terminates on the last entry of an earlier block, or the end |
| RunIterators.LevelIterator | leveldb-mcpe/db/version_set.cc:227-232 | the files of a sorted level as one run of all their entries |
| RunIterators.MergeRuns | leveldb-mcpe/db/db_impl.cc:1092-1121 | sorted runs with no internal key in common have one sorted union, which the merging iterator goes through |
| RunIterators.Drain | leveldb-mcpe/db/db_impl.cc:937-1033 | from the first entry on, Next delivers the whole union in order |
| Merger.SmallestIsNext | leveldb-mcpe/table/merger.cc:155-168 | the least child entry from a cut on is the union's next |
| Merger.LargestIsPrev | leveldb-mcpe/table/merger.cc:170-183 | the greatest child entry before a cut is the union's previous |
| Merger.MergingIterator.CurrentAtPos | leveldb-mcpe/table/merger.cc:114-122 | the current child's entry is the one at the position |
| Merger.MergingIterator.FindSmallest | leveldb-mcpe/table/merger.cc:155-168 | children at a common cut: the iterator is at the union's first entry from there |
| Merger.MergingIterator.FindLargest | leveldb-mcpe/table/merger.cc:170-183 | and backward, at the union's last entry before it |
| Merger.MergingIterator.SeekToFirst | leveldb-mcpe/table/merger.cc:35-41 | the union's first entry |
| Merger.MergingIterator.SeekToLast | leveldb-mcpe/table/merger.cc:43-49 | the union's last entry |
| Merger.MergingIterator.Seek | leveldb-mcpe/table/merger.cc:51-57 | the union's first entry at or after the target |
| Merger.MergingIterator.Next | leveldb-mcpe/table/merger.cc:59-83 | the next entry of the union, from either direction |
| Merger.MergingIterator.TurnForward | leveldb-mcpe/table/merger.cc:67-79 | every other child strictly past the current key |
| Merger.MergingIterator.Prev | leveldb-mcpe/table/merger.cc:85-112 | the previous entry of the union, from either direction |
| Merger.MergingIterator.TurnBackward | leveldb-mcpe/table/merger.cc:93-108 | every other child strictly before the current key |
| DbIters.LiveIsNewest | leveldb-mcpe/db/db_iter.cc:173-203 | the entries an iterator shows are the newest visible versions that are not deletions |
| DbIters.LiveKeysAscend | leveldb-mcpe/db/db_iter.cc:146-304 | shown keys are distinct and ascending |
| DbIters.DBIter.Key | leveldb-mcpe/db/db_iter.cc:66-69 | from either direction, the key of the live entry at the position |
| DbIters.DBIter.Val | leveldb-mcpe/db/db_iter.cc:70-73 | from either direction, the value of that entry |
| DbIters.DBIter.FindNextUserEntry | leveldb-mcpe/db/db_iter.cc:173-203 | stops on a live entry, skipping none beyond the key to skip |
| DbIters.DBIter.FindPrevUserEntry | leveldb-mcpe/db/db_iter.cc:232-272 | the last live entry before, saved with the position left behind it |
| DbIters.DBIter.Seek | leveldb-mcpe/db/db_iter.cc:274-286 | the first live key at or after the target |
| DbIters.DBIter.SeekToFirst | leveldb-mcpe/db/db_iter.cc:288-297 | the first live key |
| DbIters.DBIter.SeekToLast | leveldb-mcpe/db/db_iter.cc:299-304 | the last live key |
| DbIters.DBIter.Next | leveldb-mcpe/db/db_iter.cc:146-171 | the next live key, from either direction |
| DbIters.DBIter.Prev | leveldb-mcpe/db/db_iter.cc:205-230 | the previous live key, from either direction |
| SkipLists.LoadIsRight | leveldb-mcpe/db/skiplist.h:262-322 | no load reads above a node's height or off its level; a finished search is right as of its last load |
| SkipLists.SearchSurvives | leveldb-mcpe/db/skiplist.h:262-322 | a search under way stays right under any stores of a writer |
| SkipLists.NothingSkipped | leveldb-mcpe/db/skiplist.h:262-280 | no key present is skipped by FindGreaterOrEqual |
| SkipLists.LevelsNest | leveldb-mcpe/db/skiplist.h:337-370 | each level is a sublist of level 0 |
| SkipLists.NewNodeKeepsShape | leveldb-mcpe/db/skiplist.h:359-360 | a node not yet linked changes no level |
| SkipLists.PublishKeepsShape | leveldb-mcpe/db/skiplist.h:361-369 | one link store keeps every level a sorted sublist of the one below |
| SkipLists.ReadersSurvive | leveldb-mcpe/db/skiplist.h:337-370 | all readers, under way or finished, stay right when the list grows |
| SkipLists.AnswerCoversPresent | leveldb-mcpe/db/skiplist.h:262-322 | an answer as of the last load covers the keys there when the search began |
| SkipLists.SkipList.FindGreaterOrEqual | leveldb-mcpe/db/skiplist.h:262-280 | the first key at or after, and on each level the last node before it |
| SkipLists.SkipList.BeginInsert | leveldb-mcpe/db/skiplist.h:337-360 | search, height and node, before anything is visible |
| SkipLists.SkipList.SetOwnNext | leveldb-mcpe/db/skiplist.h:361-366 | the new node's link on one level is its predecessor's, and no other link changes |
| SkipLists.SkipList.Publish | leveldb-mcpe/db/skiplist.h:361-369 | one visible store; the key is in the list from level 0 on |
| SkipLists.SkipList.BeginSearch | leveldb-mcpe/db/skiplist.h:262-267 | a reader may start from any height read, stale or too new |
| SkipLists.SkipList.StepSearch | leveldb-mcpe/db/skiplist.h:267-279 | one load of one reader, at any point of an insertion: it goes to the next node of its level, or down where that has no more to pass, or answers |
| SkipLists.SkipList.NextNode | leveldb-mcpe/db/skiplist.h:208-212 | the next key of level 0 as of this load |
| HandleTables.FindIsLookup | leveldb-mcpe/util/cache.cc:116-123 | the chain search finds what the table's contents say |
| HandleTables.HandleTable.Lookup | leveldb-mcpe/util/cache.cc:76-78 | the entry under key and hash, if there is one |
| HandleTables.HandleTable.Insert | leveldb-mcpe/util/cache.cc:80-94 | the contents with the entry set, the old entry returned; never more entries than chains, and a larger array only when that takes it |
| HandleTables.HandleTable.Remove | leveldb-mcpe/util/cache.cc:96-104 | the entry leaves and is returned |
| HandleTables.HandleTable.Resize | leveldb-mcpe/util/cache.cc:125-149 | contents and count stay; the array is the least power of two from 4 that has a chain for each entry |
| LruCaches.RefKeeps | leveldb-mcpe/util/cache.cc:221-227 | a reference more keeps counts, lists, charges and order |
| LruCaches.ReleaseKeeps | leveldb-mcpe/util/cache.cc:229-240 | so does one less; an entry put back is the most recent |
| LruCaches.EraseKeeps | leveldb-mcpe/util/cache.cc:307-316 | so does leaving the cache; the deleter runs exactly if no client is left |
| LruCaches.NewKeeps | leveldb-mcpe/util/cache.cc:269-291 | so does a new entry, cached or not |
| LruCaches.LRUCache.Lookup | leveldb-mcpe/util/cache.cc:255-262 | a hit gives the cached entry a client more |
| LruCaches.LRUCache.Release | leveldb-mcpe/util/cache.cc:264-267 | a client less; at most that entry is deleted |
| LruCaches.LRUCache.Erase | leveldb-mcpe/util/cache.cc:318-321 | the key leaves the table; clients keep their references |
| LruCaches.LRUCache.EvictOldest | leveldb-mcpe/util/cache.cc:293-300 | the entry longest without clients, and only that |
| LruCaches.LRUCache.Prune | leveldb-mcpe/util/cache.cc:323-333 | all entries without clients, oldest first; the rest stay |
| LruCaches.LRUCache.Insert | leveldb-mcpe/util/cache.cc:269-304 | cached in place of its namesake; then evictions oldest first, none more than needed, until usage fits or nothing is idle |
| Coding.ReadVarint | leveldb-mcpe/util/coding.cc:121-179 | the reader's loop is the varint decoder of the given width, truncation and overrun included |
| Coding.EncodeVarint32 | leveldb-mcpe/util/coding.cc:52-82 | five branches, one encoding, at most five bytes |
| Coding.EncodeVarint64 | leveldb-mcpe/util/coding.cc:90-99 | the loop gives the same encoding |
| Coding.Varint32RoundTrip | leveldb-mcpe/util/coding.cc:52-150 | a 32-bit number reads back, with the rest of the input untouched |
| Coding.Varint64RoundTrip | leveldb-mcpe/util/coding.cc:90-179 | so does a 64-bit number |
| Coding.LengthPrefixedRoundTrip | leveldb-mcpe/util/coding.cc:107-203 | so does a string with its length in front |
| Coding.LengthPrefixedIff | leveldb-mcpe/util/coding.cc:181-201 | of any bytes: a string is read if and only if its length is, and as many bytes are there |
| Varints.VarintDigits | leveldb-mcpe/util/coding.cc:52-99 | each byte of a varint is seven bits of the number, lowest first, and says whether there are more |
| Coding.VarintEnds | leveldb-mcpe/util/coding.cc:121-138 | on any bytes: a number is read, and takes n bytes, if and only if the n-th byte is the first without a high bit and lies within input and width |
| VersionEditCodec.EncodesDecodes | leveldb-mcpe/db/version_edit.cc:41-210 | an encoded edit decodes to the same edit exactly when the reader had no compaction pointers, and otherwise behind those it had |
| VersionEditCodec.FieldFormat | leveldb-mcpe/db/version_edit.cc:12-23 | the number in front of each field, and what follows it |
| VersionEditCodec.VersionEdit.EncodeTo | leveldb-mcpe/db/version_edit.cc:41-86 | an encoding of the fields, in their order: numbers, compaction pointers, deleted files in order of level and number, new files |
| VersionEditCodec.VersionEdit.DecodeFrom | leveldb-mcpe/db/version_edit.cc:109-210 | on any bytes: the fields up to the first malformed one; a fresh edit gets every field back |
| VersionEditCodec.Unreadable | leveldb-mcpe/db/version_edit.cc:109-210 | of any bytes: a tag no field has, or a level that does not exist, ends the reading with a failure and nothing set |
| BlockFormat.SmallBlockFits | leveldb-mcpe/table/block_builder.cc:73-107 | in a block under 4 GB every key and value length fits 32 bits |
| BlockFormat.EntryFormat | leveldb-mcpe/table/block_builder.cc:68-108 | an entry in bytes: shared, unshared and value lengths, the rest of the key, the value |
| BlockFormat.EntryAt | leveldb-mcpe/table/block_builder.cc:93-107 | entry i lies at its offset |
| BlockFormat.RestartAt | leveldb-mcpe/table/block_builder.cc:63-71 | the j-th word behind the data is the offset of entry j * interval |
| Blocks.BlockBuilder.Add | leveldb-mcpe/table/block_builder.cc:73-107 | one more entry, sharing a prefix or opening a restart |
| Blocks.BlockBuilder.Finish | leveldb-mcpe/table/block_builder.cc:63-71 | the bytes are those of the entries added |
| Blocks.DecodeEntryOf | leveldb-mcpe/table/block.cc:53-74 | an entry decodes to the lengths and parts it was written from, on the fast path and the slow one |
| Blocks.FastPathIsVarints | leveldb-mcpe/table/block.cc:62-74 | of any bytes: the fast path for one-byte lengths reads what the three varints say |
| Blocks.EntryFitsIff | leveldb-mcpe/table/block.cc:76-79 | of any bytes under 4 GB: an entry that is accepted lies before the limit, if and only if its two lengths do not add up to 2^32 or more |
| Blocks.BuiltBlockOpens | leveldb-mcpe/table/block.cc:23-38 | the reader finds the restart array of a built block |
| Blocks.OpensIff | leveldb-mcpe/table/block.cc:18-37 | any bytes open as a block with n restart points exactly if those and their number are their end |
| Blocks.BlockIter.Current | leveldb-mcpe/table/block.cc:130-137 | key and value shown are those of the entry at the position |
| Blocks.BlockIter.SeekToFirst | leveldb-mcpe/table/block.cc:205-208 | the first entry |
| Blocks.BlockIter.SeekToLast | leveldb-mcpe/table/block.cc:210-215 | the last entry |
| Blocks.BlockIter.Next | leveldb-mcpe/table/block.cc:139-142 | the next entry, key rebuilt from the prefix |
| Blocks.BlockIter.Prev | leveldb-mcpe/table/block.cc:144-163 | the previous entry, by way of a restart point before it |
| Blocks.BlockIter.FindRestart | leveldb-mcpe/table/block.cc:165-190 | binary search: all keys before the restart point are before the target, and the key at the next one is not |
| Blocks.BlockIter.Seek | leveldb-mcpe/table/block.cc:165-203 | the first entry at or after the target, as a linear scan finds it |
| LogFormat.MaskRoundTrip | leveldb-mcpe/util/crc32c.h:31-40 | unmasking a masked checksum gives it back |
| LogFormat.FragmentFormat | leveldb-mcpe/db/log_writer.cc:84-109 | a fragment in bytes: masked checksum of type and payload, length, type, payload |
| LogFormat.RecordFormat | leveldb-mcpe/db/log_writer.cc:36-82 | at any position of a file in blocks of 32768 bytes: one fragment of type 1, or 2, 3 and 4, and zeros where a block has no room for seven bytes |
| LogWriter.Writer.AddRecord | leveldb-mcpe/db/log_writer.cc:36-82 | the file grows by the record's fragments for its position |
| LogWriter.AddRecords | leveldb-mcpe/db/log_writer.cc:36-109 | records follow each other from any offset |
| LogScan.FoundIff | leveldb-mcpe/db/log_reader.cc:225-279 | of any bytes: what the reader takes for a fragment is what the writer writes for one, checksum and all, within its block; and nothing else |
| LogScan.RecordStarts | leveldb-mcpe/db/log_writer.cc:36-82 | a written record is its first fragment and the rest of it |
| LogScan.CutLogReads | leveldb-mcpe/db/log_reader.cc:60-182 | of a log cut at any byte: exactly the records wholly before the cut, nothing reported |
| LogScan.WholeFileGivesAll | leveldb-mcpe/db/log_reader.cc:60-182 | of an uncut log: every record, nothing reported |
| LogScan.TornAppend | leveldb-mcpe/db/log_reader.cc:60-182 | a log cut inside the append of a record reads as before the append, and with the record if and only if all of it is there |
| LogScan.NothingMadeUp | leveldb-mcpe/db/log_reader.cc:60-182 | of any bytes: every record read is one whole fragment, or a first one, middle ones and a last one in a row, each with its own checksum |
| LogScan.BytesAccounted | leveldb-mcpe/db/log_reader.cc:60-182 | of any bytes: every byte of a fragment or of a block given up is in a record that is read, or reported, or of a fragment of type 5 or 6, or of a record begun when the log ends |
| LogScan.ReadsOnIff | leveldb-mcpe/doc/log_format.md:59-66 | whatever whole blocks are put in front of a file, all its records are still read, if and only if no fragment in them has the type 5 that the reader takes for the end |
| LogScan.EndMarkHides | leveldb-mcpe/db/log_reader.h:82-93 | such a fragment: nothing behind it is read, and nothing reported |
| LogScan.DamageStaysInFront | leveldb-mcpe/db/log_reader.cc:193-280 | a log with any damage before the start of some block gives every record that begins there or behind, unless such a fragment is in front |
| LogReader.Reader.ReadPhysicalRecord | leveldb-mcpe/db/log_reader.cc:199-280 | on any bytes: the fragment behind the position, or the bytes given up and reported, or the end |
| LogReader.Reader.ReadRecord | leveldb-mcpe/db/log_reader.cc:60-182 | on any bytes: the next record, and the sizes reported before it |
| LogReader.ReadAll | leveldb-mcpe/db/log_reader.cc:60-182 | on any bytes: the records and the reports `LogScan.Read` gives |
| Comparators.LessIsOrder | leveldb-mcpe/util/comparator.cc:25-27 | the order of byte strings is strict and total |
| Comparators.InternalLessIsOrder | leveldb-mcpe/db/dbformat.cc:50-66 | so is that of internal keys |
| Comparators.FindShortestSeparator | leveldb-mcpe/util/comparator.cc:29-51 | the loop finds the first difference and raises it where there is room |
| Comparators.SeparatorIsBetween | leveldb-mcpe/util/comparator.cc:29-51 | start <= separator < limit, and a changed separator is as short as any string there |
| Comparators.FindShortSuccessor | leveldb-mcpe/util/comparator.cc:53-65 | the loop raises the first byte that can be raised |
| Comparators.SuccessorIsAfter | leveldb-mcpe/util/comparator.cc:53-65 | at or after the key, and a changed one as short as any string after it |
| Comparators.FindShortestInternalSeparator | leveldb-mcpe/db/dbformat.cc:68-85 | the key itself, or one with a user key strictly between the two, never longer |
| Comparators.FindShortInternalSuccessor | leveldb-mcpe/db/dbformat.cc:87-99 | the key itself, or one with a later user key, never longer |
| Comparators.ClosingOrder | leveldb-mcpe/db/dbformat.cc:68-85 | so last key <= separator < next key |
| Comparators.SeekKeyIsRight | leveldb-mcpe/db/dbformat.cc:121-138 | the seek key for s is at or before a version of its user key exactly if that is visible at s |
| Comparators.InternalKeyFormat | leveldb-mcpe/db/dbformat.cc:12-21 | an internal key in bytes: the user key, the type, seven bytes of sequence number; the eight bytes a shortened index key ends with |
| Bloom.MayMatchIff | leveldb-mcpe/util/bloom.cc:35-87 | a filter matches exactly the keys all of whose probes some added key makes |
| Bloom.NoFalseNegatives | leveldb-mcpe/util/bloom.cc:35-87 | it matches every key it was made for |
| Bloom.FilterFormat | leveldb-mcpe/util/bloom.cc:18-53 | at least 64 bits, and the number of probes, 0.69 a bit but between 1 and 30, in the last byte |
| Bloom.ProbeFormat | leveldb-mcpe/util/bloom.cc:41-51 | probes are steps of the hash turned by 17 bits |
| Bloom.BloomFilterPolicy.CreateFilter | leveldb-mcpe/util/bloom.cc:35-61 | the double-hashing loop sets the bits of the filter |
| Bloom.BloomFilterPolicy.KeyMayMatch | leveldb-mcpe/util/bloom.cc:63-87 | true exactly if all probes are set, for any number of probes up to 30, and for reserved encodings |
| FilterBlocks.InternalNeverMisses | leveldb-mcpe/db/dbformat.cc:105-119 | filters on user keys match every version of a user key added |
| FilterBlocks.BloomNeverMissesUser | leveldb-mcpe/db/dbformat.cc:105-119 | so do those of a Bloom filter policy, for any hash function |
| FilterBlocks.FilterBlockFormat | leveldb-mcpe/table/filter_block.cc:36-50 | filters, their offsets, the offset of those, and 11 for filters 2048 file offsets apart |
| FilterBlocks.FilterBlockBuilder.StartBlock | leveldb-mcpe/table/filter_block.cc:22-28 | the keys waiting become the filter of their stretch, empty ones follow up to the new offset |
| FilterBlocks.FilterBlockBuilder.AddKey | leveldb-mcpe/table/filter_block.cc:30-34 | one more key waiting |
| FilterBlocks.FilterBlockBuilder.GenerateFilter | leveldb-mcpe/table/filter_block.cc:52-76 | the flattened keys go into one filter in order |
| FilterBlocks.FilterBlockBuilder.Finish | leveldb-mcpe/table/filter_block.cc:36-50 | filters, offsets, array offset and spacing |
| FilterBlocks.FilterBlockReads | leveldb-mcpe/table/filter_block.cc:78-113 | a block under 4 GB: the reader asks the filter made for the stretch, and matches beyond the last |
| FilterBlocks.TurnedAwayIff | leveldb-mcpe/table/filter_block.cc:74-112 | of any bytes: a key is turned away if and only if there is a filter for its block that is well formed and does not match it, or is empty; anything wrong is a match |
| FilterBlocks.NoFalseNegatives | leveldb-mcpe/table/filter_block.cc:22-113 | a key added while its block's offset was current is matched under that offset |
| TableFormat.HandleRoundTrip | leveldb-mcpe/table/format.cc:43-59 | a block handle reads back |
| TableFormat.FooterRoundTrip | leveldb-mcpe/table/format.cc:61-94 | so does a footer |
| TableFormat.FooterIff | leveldb-mcpe/table/format.cc:75-98 | any 48 bytes are a footer if and only if they end with the magic number and begin with two handles |
| TableFormat.FooterFormat | leveldb-mcpe/table/format.cc:61-70 | a footer in bytes: offset and size of meta index and index, zeros up to 40, and the magic number |
| TableFormat.BlockOnDisk | leveldb-mcpe/table/table_builder.cc:126-195 | a block in bytes: contents, type and masked checksum; type 0 unless compression saves an eighth |
| TableBuilders.MetaFormat | leveldb-mcpe/table/table_builder.cc:213-225 | the meta index in bytes: "filter." and the policy's name, with the filter block's handle |
| TableFormat.ReadsBack | leveldb-mcpe/table/format.cc:96-192 | a stored block, compressed or not, reads back where the reader finds the compressor, with or without checking its checksum |
| TableFormat.ReadIff | leveldb-mcpe/table/format.cc:84-168 | of any bytes, with checksums verified: a block is read if and only if the bytes at its place are what the writer writes for some contents, and as what those unpack to |
| TableLayout.EntryAdded | leveldb-mcpe/table/table_builder.cc:93-122 | adding an entry behind a closed-off block keeps index, blocks and separators right |
| TableLayout.BlockEnded | leveldb-mcpe/table/table_builder.cc:124-138 | so does finishing a block, which leaves its index entry pending |
| TableLayout.SeparatorAfter | leveldb-mcpe/table/table_builder.cc:93-108 | a separator is at or after all of its block and those before, and before all that follows |
| TableLayout.IndexAscending | leveldb-mcpe/table/table_builder.cc:93-108 | the index keys ascend |
| TableLayout.IndexLeads | leveldb-mcpe/table/table.cc:227-256 | if the first entry at or after k is of k's user key, the index leads to its block |
| TableLayout.FirstInBlock | leveldb-mcpe/table/table.cc:227-256 | an entry found in the block the index leads to is the first of the table at or after k |
| TableBuilders.TableBuilder.Add | leveldb-mcpe/table/table_builder.cc:93-122 | one more entry, in the block, the filter and, when due, the index; the block ends exactly when its bytes reach the block size |
| TableBuilders.TableBuilder.ClosePending | leveldb-mcpe/table/table_builder.cc:101-108 | the pending index entry gets a key between its block and the next key |
| TableBuilders.TableBuilder.Flush | leveldb-mcpe/table/table_builder.cc:124-138 | the current block is in the file, the same entries as before |
| TableBuilders.TableBuilder.WriteBlock | leveldb-mcpe/table/table_builder.cc:140-192 | contents, compressed if that saves an eighth, type and masked checksum behind the file, the handle of where they went |
| TableBuilders.TableBuilder.Finish | leveldb-mcpe/table/table_builder.cc:198-253 | the file is a table of all entries added, and the offset is the file's size |
| Tables.Open | leveldb-mcpe/table/table.cc:38-142 | a table file opens, its filter found by name, if its blocks are under 4 GB each |
| Tables.VersionIsReached | leveldb-mcpe/table/table.cc:227-256 | if a version at or below k is there, index, filter and block all lead to it |
| Tables.InternalGet | leveldb-mcpe/table/table.cc:227-256 | the saver gets the first entry at or after k, or nothing only if no version of k's user key is there; nothing whenever the filter rejects k |
| Tables.Get | leveldb-mcpe/db/version_set.cc:268-281 | for a user key and a snapshot: the newest visible version's value or deletion, and not-found exactly if there is none |
| Tables.SavesByType | leveldb-mcpe/db/version_set.cc:268-281 | on any entry: the byte before the sequence number says value or deletion, anything else is corruption |
| SnappyFormat.DecodeConcat | snappy/snappy.cc:1263-1381 | tag streams decode piece by piece |
| SnappyFormat.ExtendIsPeriodic | snappy/snappy.cc:204-216 | a copy continues with the period of its offset |
| SnappyFormat.ExtendUnique | snappy/snappy.cc:204-216 | and that determines it |
| SnappyFormat.LiteralDecodes | snappy/snappy.cc:558-597 | a literal's tag and bytes decode to the bytes |
| SnappyFormat.CopyTagsDecode | snappy/snappy.cc:628-656 | the tags of a match of any length decode to the copy |
| SnappyFormat.CopyTagsSize | snappy/snappy.cc:628-656 | and cost at most three bytes for four |
| SnappyVarint.RoundTrip | snappy/snappy-stubs-internal.h:416-466 | the length header reads back and takes at most five bytes |
| SnappyVarint.EndsAt | snappy/snappy.cc:1233-1258 | of any bytes: the length is read, and takes n bytes, if and only if the n-th is the first without a high bit, of at most five, and a fifth is below 16 |
| SnappyVarint.ReadUncompressedLength | snappy/snappy.cc:1233-1258 | the loop over the source is the header decoder, overflow checks included |
| SnappyBits.Log2FloorNonZero | snappy/snappy-stubs-internal.h:319-334 | the floor of the logarithm |
| SnappyBits.FindLSBSetNonZero | snappy/snappy-stubs-internal.h:340-357 | the lowest bit set |
| SnappyBits.FindLSBSetNonZero64 | snappy/snappy-stubs-internal.h:379-390 | the same for 64 bits |
| SnappyMatch.FindMatchLength64 | snappy/snappy-internal.h:176-300 | the longest match before the limit, and the eight bytes after it |
| SnappyMatch.FindMatchLengthPortable | snappy/snappy-internal.h:302-345 | the same, four bytes at a time |
| SnappyCompress.EmitLiteral | snappy/snappy.cc:558-597 | header and bytes behind the output, what was there kept |
| SnappyCompress.EmitCopy | snappy/snappy.cc:628-656 | the tags of the match behind the output |
| SnappyCompress.Probe16 | snappy/snappy.cc:756-790 | the unrolled search finds only real four-byte matches at earlier positions |
| SnappyCompress.EmitMatches | snappy/snappy.cc:823-880 | the tags so far decode to the consumed prefix; the table points backwards |
| SnappyCompress.CompressFragment | snappy/snappy.cc:723-889 | for any hash: the tags are those of the greedy search and decode to the fragment, within the bound per fragment |
| SnappyCompress.LiteralKeepsSize | snappy/snappy.cc:142-164 | a literal keeps the running size bound |
| SnappyCompress.CopyKeepsSize | snappy/snappy.cc:142-164 | and a match pays for the literal before it |
| SnappyCompress.ReadFragment | snappy/snappy.cc:1509-1539 | the next block of the input, from however many pieces the source deals out |
| SnappyCompress.Compress | snappy/snappy.cc:1495-1563 | for any hash and any pieces: the length and then the tags of each block; decodes to the input, and takes at most 32 + n + n/6 bytes |
| SnappyCompress.FindCandidate | snappy/snappy.cc:743-817 | the unrolled search and the strides behind it are one scan: every position looked up is entered, none is passed by that the table shows to repeat |
| SnappyGreedy.PeriodIsOneMatch | snappy/snappy.cc:743-868 | where bytes begin to repeat with a period within the first 33, and no words up to there share a slot of the table, one literal and one match do for the fragment |
| SnappyGreedy.RunIsSmall | snappy/snappy.cc:743-868 | one byte repeated takes two bytes and at most three for each sixty, for any hash |
| SnappyCompress.RunsCompress | snappy/snappy.cc:1495-1580 | an input of one byte repeated, of any length, takes a twentieth of it and 5 bytes a block, for any hash |
| SnappyCompress.CompressWithHashBytes | snappy/snappy.cc:135-140 | in particular with the library's hash function |
| SnappyCopy.IncrementalCopySlow | snappy/snappy.cc:204-216 | the byte loop continues the period |
| SnappyCopy.IncrementalCopy | snappy/snappy.cc:368-553 | pattern doubling, blocks and tail equal the byte-at-a-time copy up to op_limit |
| SnappyCopy.Copy64BytesWithPatternExtension | snappy/snappy.cc:301-363 | 64 bytes of the period, for every offset but 0 |
| SnappyCopy.MemMove64FromSelf | snappy/snappy.cc:993-1005 | a 64-byte move is right for lengths up to the offset |
| SnappyDecompress.TableMatchesTag | snappy/snappy.cc:97-133 | the precomputed entries agree with the tag format, for every tag byte |
| SnappyDecompress.DecompressBranchless | snappy/snappy.cc:1108-1191 | stops where the decoder can resume with the same result |
| SnappyDecompress.NeededBytes | snappy/snappy.cc:1384-1401 | a tag parses exactly if the bytes it announces are there |
| SnappyDecompress.AppendFromSelf | snappy/snappy.cc:1825-1843 | succeeds exactly if the copy is legal, and is the byte-at-a-time copy |
| SnappyDecompress.TryFastAppend | snappy/snappy.cc:1810-1822 | a 16-byte copy only where both sides have room |
| SnappyDecompress.SnappyDecompressor.RefillTag | snappy/snappy.cc:1403-1464 | the next tag contiguous, the rest of the input unchanged; or the input is at its end, or cut inside a tag |
| SnappyDecompress.SnappyDecompressor.DecompressAllTags | snappy/snappy.cc:1263-1381 | at the end of the input: what the plain decoder gives; otherwise it fails or does not fit |
| SnappyDecompress.UncompressTags | snappy/snappy.cc:1466-1488 | succeeds exactly on streams that decode to the announced length |
| SnappyDecompress.RawUncompress | snappy/snappy.cc:1852-1861 | on every input: the plain decoder's result |

## Left out

- User keys in the tree and the iterators are ranks under the comparator (integers); `TableEntries`, `LogFiles` and `ManifestFiles` lead from bytes to ranks when files are read. What a running database writes is not turned into bytes again, and the text of CURRENT is its number.
- The nested flush inside a running compaction (leveldb-mcpe/db/db_impl.cc:943-952), failed writes and bg_error_, shutting down, SuspendCompaction, seek-triggered and manual compaction, read sampling.
- CompactionInputs.PickFiles: does not say which level is chosen, because the scores of Finalize are floating point; any level may be compacted, from any files in order. The pointer it starts behind is given to it; that SetupOtherInputs moves the pointer on to the inputs' largest key is left out.
- Recovery.Open: models reuse_logs off, a database that exists and files written reliably in order; `DiskBytes.Open` reads the bytes first. prev_log_number is always 0 here and left out, as is the value VersionSet::Recover overwrites after MarkFileNumberUsed.
- Recovery.Db.DeleteObsoleteFiles: no version older than the current one is pinned by a reader.
- Lsm.DBImpl.Write: writes stop before the sequence number reaches its maximum, 2^56 - 1, as does Recovery.Db.Write.
- GroupCommit.WriteQueue.AppendToLog: log and memtable writes succeed; liveness of the condition variables is not stated.
- SkipLists.SkipList.StepSearch: loads and stores are single steps, one at a time, with no weak-memory effects; Prev and SeekToLast of the iterator are the searches FindLessThan and FindLast with no more around them.
- LruCaches.LRUCache.Insert: lists and hash chains are sequences, so the pointer surgery on them is not modelled. Sharding by the hash's top bits is left out.
- Blocks.BlockIter.Seek: blocks are those the builder made; where the source reports corruption the model proves that it cannot come to that. What the iterators make of damaged blocks is left out.
- Merger.MergingIterator.Next: children have pairwise distinct internal keys; the branches for equal keys are proved unreachable, as is the end of DBIter::Next with an invalid iterator.
- VersionEditCodec.VersionEdit.DecodeFrom: does not clear the compaction pointers an edit had, so the round trip holds exactly for an edit that had none; the source says nothing of this.
- VersionBuilder.ReplaysAgree: files of one number are told apart by their smallest keys, as the source's set does, and lists are compared by their files. No run comes to a number that returns: `Manifest.RecordsOk`, which every record written keeps (`Manifest.AppendFresh`, `Manifest.AppendMove`, `Manifest.SnapshotReplays`), includes it.
- LogReader.ReadAll: initial_offset is 0, reads of the file do not fail, and checksums are an arbitrary function.
- Tables.Open: offsets within a block and within the filter block are written in 32 bits, so each is under 4 GB; compressors are arbitrary lossless functions, and a table with a filter block is read with the policy it was written with.
- SnappyDecompress.RawUncompress: a literal length of four 0xff bytes wraps to 0 in 32 bits; the specification follows the code in this.
- SnappyCompress.Compress: the output buffers a Sink may lend, SnappyIOVecWriter and SnappyScatteredWriter, inline assembly and vector instructions are left out.
- The command-line viewer, NBT and chunk parsing, Env, loggers, repair, statistics.
