# A verified model of the LevelDB and nanopb cores

The application bundles two libraries in source form: the LevelDB storage engine
and the nanopb protobuf codec.  This project models the parts of both where a
fast or concurrent form has to agree with a simple one, and proves that it does.
`dafny verify dfyconfig.toml` checks all of it.

**Storage engine.**  `DbFormat` fixes internal keys and what a lookup at a
snapshot should answer over a set of entries.  `Version` is the level search,
`CompactionInputs` the choice of compaction inputs, `CompactionMerge` the merge
loop with its two drop rules, `Install` what an edit does to the level
invariants.  `Engine` puts them together as a state machine in which writes,
snapshots, memtable switches and flushes go on while a compaction runs, and
`EngineProofs` shows exactly which runs refine the write history.  `Store` is the
plain reference, a map from keys to values, and shows that reads of such runs are
lookups in it.
`CompactionGuard` has the exact condition for a running compaction to end well,
and guards on its start and on flushes that ensure it.  `Database` is the object
whose methods are those steps, run by the source's own loops.  `Limits` holds two
runs from the empty database that end a compaction badly.

**Versions on disk.**  `Builder` and `Manifest` are the version builder,
LogAndApply and recovery over the bytes of the manifest, also when the file is cut
anywhere; `VersionEdit` is the stored form of an edit;
`FileCollection` is the deletion of obsolete files under one background worker.

**Crashes.**  `Recovery` is the recovery of a log file.  `Durability` is a state
machine of log files and manifest under logging, syncing, memtable switches,
flushes, compactions and log deletion, with a crash at any moment that cuts every
file at any byte past what was synced; what was synced is read again, operation by
operation.

**Iterators.**  `DbIter`, `Merger` and `TwoLevel` are each proved to move as a
cursor on one list, through every mixture of seeks, Next and Prev.

**Memtable, log, tables.**  `SkipList` and `SkipListRuns` (one writer, any number
of lock-free readers, one load or store a step), `WriteBatch` and `GroupCommit`,
`Log` (a log cut at any byte), `Coding`, `Bytewise`, `Block`, `Bloom`,
`FilterBlock`, `Table`, and `TableBytes` (lookup over the bytes of the blocks).
`Formats` spells out the bytes of the stored formats, apart from the functions
that write and read them.

**Cache.**  `HandleTable` and `LruCache`.

**Protobuf codec.**  `PbModel` has descriptors, messages and the wire form,
`PbEncode` the two-pass encoder, `PbDecode` the decoder, `PbWire` a reader of the
bytes that knows the wire types only.

The readers of `Log`, `WriteBatch`, `VersionEdit`, `FilterBlock` and `PbDecode`
take what was written as `ghost` arguments and say what they make of it; they
accept any input, and end within bounds on all of it.

Where a property was found false of the code, the code is modelled as it is:

- A compaction does not always keep the levels in order and the reads right.
  `FinishKeepsExactly` and `SafeRunExactly` give the exact condition: no output
  overlaps a file left in its level, and no dropped deletion covers a value left
  outside the inputs.  `FinishSafeExactly` gives it before the outputs are cut.
- The first part fails when a flush is placed between the inputs of a running
  manual compaction (`FlushIntoGap`, a run of steps).  The inputs of an automatic
  compaction leave no gap (`ConnectedIsApart`).
- The second part fails because boundary files are sought only at the
  compaction's own level: if the next level keeps an older value of a deleted key
  in a file beside the inputs, the value comes back (`BoundaryGapResurrects`, a
  run of steps).  `RestNewerExactly` gives the test that rules it out, and
  `GuardedRunIsSafe` shows that this test and the one on flushes suffice.
- One builder over several edits differs from one version per edit exactly when
  an edit brings back a number the builder has marked deleted (`OneMoreEdit`;
  `ReaddedNumberReturns` is such an edit).
- `VersionEdit::Clear` leaves the compaction pointers, so decoding into a used
  object appends to them; the contract of `DecodeFrom` says so.

## Model

| member | source | states |
|---|---|---|
| `EngineProofs.RunRefinesHistory` | BetweenUS/Pods/leveldb-library/db/db_impl.cc:1100-1145 | In every state of every run of writes, failed writes, memtable switches, snapshots, flushes, trivial moves and compactions that overlap other steps, whose ended compactions were clean (no output overlaps a file left in its level, no dropped deletion covers a value left outside), a lookup of any key at any live read point has the same answers over memtable, immutable memtable and levels as over the whole write history; the level invariant holds. |
| `Store.RunReadsStore` | BetweenUS/Pods/leveldb-library/db/db_impl.cc:1100-1145 | Against a plain map from keys to values that write batches update one after another: in every state of every run with clean compactions, a lookup of any key at the read point where an earlier state stood, while it is live, over memtable, immutable memtable and levels, is the lookup in the map as it was then. |
| `Store.HistoryShows` | BetweenUS/Pods/leveldb-library/db/write_batch.cc:115-130 | The write history of every run, read at the last sequence of any earlier state, is the map of that state; failed writes, flushes and compactions do not move it. |
| `Store.BatchShows` | BetweenUS/Pods/leveldb-library/db/write_batch.cc:115-130 | Entries that show a map, joined by a batch numbered after them, show the map with the batch applied. |
| `Store.LastWriteStays` | BetweenUS/Pods/leveldb-library/db/write_batch.cc:115-130 | A batch gives every key the value, or the deletion, of its last write to it. |
| `Store.OthersStay` | BetweenUS/Pods/leveldb-library/db/write_batch.cc:115-130 | It leaves the keys it does not write. |
| `EngineProofs.RunKeepsInv` | BetweenUS/Pods/leveldb-library/db/db_impl.cc:688-767 | The engine invariant holds in every state of every run whose compactions ended clean. |
| `EngineProofs.SafeRunExactly` | BetweenUS/Pods/leveldb-library/db/db_impl.cc:688-767 | For every run of the steps the code takes: the invariant holds in all its states if and only if every compaction that ended in it was clean. |
| `EngineProofs.NextKeepsInv` | BetweenUS/Pods/leveldb-library/db/db_impl.cc:688-767 | Every step keeps the engine invariant; only the end of a compaction has a condition. |
| `EngineProofs.WriteKeepsInv` | BetweenUS/Pods/leveldb-library/db/db_impl.cc:1185-1256 | A write batch, numbered after the last sequence, keeps the invariant. |
| `EngineProofs.FailedWriteKeepsInv` | BetweenUS/Pods/leveldb-library/db/db_impl.cc:1204-1237 | A batch whose log write failed uses up its sequence numbers and keeps the invariant. |
| `EngineProofs.FlushKeepsInv` | BetweenUS/Pods/leveldb-library/db/db_impl.cc:535-566 | A flush, also one that runs inside any compaction and lands between its inputs, keeps the invariant for every level it may be placed in. |
| `EngineProofs.MoveKeepsInv` | BetweenUS/Pods/leveldb-library/db/db_impl.cc:718-733 | A trivial move keeps the invariant. |
| `EngineProofs.StartKeepsInv` | BetweenUS/Pods/leveldb-library/db/db_impl.cc:878-899 | Starting a compaction with the inputs the code chooses, automatic or manual, keeps the invariant, which from then on ties the running job's inputs and oldest snapshot to whatever else happens. |
| `EngineProofs.FinishKeepsInv` | BetweenUS/Pods/leveldb-library/db/db_impl.cc:860-876 | Installing clean merged and thinned outputs keeps the invariant although writes, flushes and snapshots went on meanwhile. |
| `EngineProofs.FinishKeepsExactly` | BetweenUS/Pods/leveldb-library/db/db_impl.cc:860-876 | The end of a compaction with given outputs keeps the invariant if and only if they are clean. |
| `EngineProofs.FinishInvisibleExactly` | BetweenUS/Pods/leveldb-library/db/db_impl.cc:929-999 | Replacing the inputs of a job by what the loop keeps changes no lookup at or above the oldest live read point if and only if no droppable deletion covers a value left outside at that point. |
| `EngineProofs.FinishReadsExactly` | BetweenUS/Pods/leveldb-library/db/db_impl.cc:929-999 | After a compaction ends, live read points see the write history if and only if nothing was uncovered. |
| `CompactionGuard.ConnectedIsApart` | BetweenUS/Pods/leveldb-library/db/version_set.cc:491-516 | A flushed file that meets no file of the levels on its way lies wholly to one side of the inputs of an automatic compaction, so automatic compactions need no restriction on flushes. |
| `CompactionGuard.CutsSeparateExactly` | BetweenUS/Pods/leveldb-library/db/version_set.cc:694-754 | However the kept rows are cut into output files, all of them stay clear of a file if and only if the kept rows lie wholly to one side of it. |
| `CompactionGuard.FinishSafeExactly` | BetweenUS/Pods/leveldb-library/db/db_impl.cc:860-876 | For a running compaction in any state with the invariant: every way it can end keeps the invariant if and only if every file left in its target level lies to one side of the kept rows and no dropped deletion covers a value left outside. |
| `CompactionGuard.OneFileFinish` | BetweenUS/Pods/leveldb-library/db/db_impl.cc:860-876 | A running compaction can always end with all it keeps in one file. |
| `CompactionGuard.RestNewerExactly` | BetweenUS/Pods/leveldb-library/db/version_set.cc:1344-1361 | In a sorted level, a gapless choice of files leaves only newer versions of its keys behind if and only if it leaves no boundary file, which the code can test. |
| `CompactionGuard.GuardedIsSafe` | BetweenUS/Pods/leveldb-library/db/db_impl.cc:860-876 | If the rest of the target level is newer and to one side, every way of ending is safe. |
| `CompactionGuard.GuardedRunIsSafe` | BetweenUS/Pods/leveldb-library/db/db_impl.cc:688-767 | A run in which no compaction starts while a boundary file of the next level is left out, and no flush lands between a manual compaction's inputs, has only clean ends; automatic compactions need no condition on flushes. |
| `EngineProofs.SnapshotKeepsInv` | BetweenUS/Pods/leveldb-library/db/snapshot.h:56-70 | Taking a snapshot keeps the list ordered, so that its first element is the oldest live read point. |
| `EngineProofs.ReleaseKeepsInv` | BetweenUS/Pods/leveldb-library/db/snapshot.h:72-86 | Releasing any snapshot keeps the list ordered and every remaining read point served. |
| `Engine.MemGet` | BetweenUS/Pods/leveldb-library/db/memtable.cc:100-134 | The memtable lookup finds the newest visible entry of a user key, or that there is none. |
| `Engine.Get` | BetweenUS/Pods/leveldb-library/db/db_impl.cc:1100-1145 | Memtable, then immutable memtable, then levels: the value returned is the right answer of the write history. |
| `DbFormat.CompareIsBefore` | BetweenUS/Pods/leveldb-library/db/dbformat.cc:51-67 | Comparing packed trailers is the lexicographic order: user key up, sequence down, type down; all three outcomes as equivalences. |
| `DbFormat.SeekKeySplits` | BetweenUS/Pods/leveldb-library/db/dbformat.cc:121-138 | The lookup key precedes exactly those entries of its user key that the snapshot may see. |
| `DbFormat.AnswersIsFunctional` | BetweenUS/Pods/leveldb-library/db/db_impl.cc:1100-1145 | A lookup over distinctly numbered entries has exactly one right answer. |
| `DbFormat.LaterWritesInvisible` | BetweenUS/Pods/leveldb-library/db/db_impl.cc:1100-1110 | Entries written after a snapshot change no answer at it. |
| `Version.FindFile` | BetweenUS/Pods/leveldb-library/db/version_set.cc:88-106 | The binary search returns the boundary between files wholly before the key and the rest. |
| `Version.SomeFileOverlapsRange` | BetweenUS/Pods/leveldb-library/db/version_set.cc:122-153 | True exactly when some file meets the user-key range, on the scan and on the binary-search path. |
| `Version.TableGet` | BetweenUS/Pods/leveldb-library/db/version_set.cc:263-276 | The first row at or after the seek key, if it has the user key, is the newest visible one of the file; otherwise the file has none. |
| `Version.SearchLevelZero` | BetweenUS/Pods/leveldb-library/db/version_set.cc:349-364 | Candidate files newest first: a hit is the newest visible entry of level 0 and everything deeper; a miss means level 0 has none. |
| `Version.SearchSortedLevel` | BetweenUS/Pods/leveldb-library/db/version_set.cc:365-382 | One file by binary search decides a level above 0. |
| `Version.Get` | BetweenUS/Pods/leveldb-library/db/version_set.cc:326-421 | The level-by-level search finds the newest visible entry of the whole version, or that there is none. |
| `CompactionMerge.Compaction.IsBaseLevelForKey` | BetweenUS/Pods/leveldb-library/db/version_set.cc:1533-1552 | On nondecreasing keys the moving level pointers answer exactly whether no deeper file range contains the key. |
| `CompactionMerge.DoCompactionWork` | BetweenUS/Pods/leveldb-library/db/db_impl.cc:899-999 | The merge loop writes, over consecutively numbered output files, exactly the rows that the two drop rules keep, and starts a new file exactly where it is told to stop before a row or the file is full. |
| `CompactionMerge.KeptRowsAreKeptSet` | BetweenUS/Pods/leveldb-library/db/db_impl.cc:936-963 | The loop's running state (current user key, last sequence for it) keeps an entry exactly when no newer input entry of its key is visible at the oldest snapshot and it is not a droppable deletion; the output stays sorted. |
| `CompactionMerge.KeptIsThin` | BetweenUS/Pods/leveldb-library/db/db_impl.cc:936-963 | What is kept is thin: of each key at most one entry that the oldest live read point sees, and no deletion whose key no deeper file range holds. |
| `CompactionMerge.DropKeepsAnswer` | BetweenUS/Pods/leveldb-library/db/db_impl.cc:936-963 | If no droppable deletion covers a value outside the inputs, no single lookup at or above the oldest live read point changes. |
| `CompactionMerge.UncoveringChangesAnswer` | BetweenUS/Pods/leveldb-library/db/db_impl.cc:946-963 | Otherwise the lookup of that key at a live read point changes from nothing to the covered value. |
| `CompactionMerge.DropsInvisibleExactly` | BetweenUS/Pods/leveldb-library/db/db_impl.cc:936-963 | Replacing the inputs by what is kept changes no lookup at any live read point, if and only if no droppable deletion covers a value left outside the inputs. |
| `CompactionInputs.GetOverlappingInputs` | BetweenUS/Pods/leveldb-library/db/version_set.cc:519-559 | Above level 0: the files meeting the range. In level 0 the restarting search ends at the least range closed under overlapping files, and returns the files meeting it. |
| `CompactionInputs.GetRange` | BetweenUS/Pods/leveldb-library/db/version_set.cc:1205-1227 | The smallest and largest internal keys of a set of files, both attained. |
| `CompactionInputs.FindSmallestBoundaryFile` | BetweenUS/Pods/leveldb-library/db/version_set.cc:1344-1361 | The boundary file with the smallest first key, or that there is none. |
| `CompactionInputs.AddBoundaryInputs` | BetweenUS/Pods/leveldb-library/db/version_set.cc:1378-1401 | Follows the boundary chain to its end: each file added was the first of the level to continue the largest key so far, none that continues the last user key is left out, and a gapless choice stays gapless. |
| `CompactionInputs.WiderSameSize` | BetweenUS/Pods/leveldb-library/db/version_set.cc:1429-1446 | A wider range selects at least as many files, and as many only if they are the same files. |
| `CompactionInputs.GrowInputs` | BetweenUS/Pods/leveldb-library/db/version_set.cc:1417-1447 | The level's choice grows to all files meeting the whole range of the compaction and their boundary files, exactly when that gains a file, is within the limit and needs no other file of the next level. |
| `CompactionInputs.SetupOtherInputs` | BetweenUS/Pods/leveldb-library/db/version_set.cc:1403-1462 | The final inputs are the picked files with their boundary chain and every next-level file that overlaps them, grown exactly where growing is free; they are closed at their level. |
| `CompactionInputs.PickInputs` | BetweenUS/Pods/leveldb-library/db/version_set.cc:1270-1324 | The file picked by score; in level 0 exactly the files of the least closed range around it. |
| `CompactionInputs.PickRange` | BetweenUS/Pods/leveldb-library/db/version_set.cc:1464-1487 | The files of a manual compaction: in level 0 those of the least closed range; above it the files meeting the range, cut at the first count that is enough; empty only if none meets the range. |
| `Install.InstallKeepsLevels` | BetweenUS/Pods/leveldb-library/db/version_set.cc:694-754 | An edit whose added files fit keeps levels sorted, levels above 0 disjoint, shallower entries newer than deeper ones, and level 0 ordered by file number. |
| `Install.RowsAfterInstall` | BetweenUS/Pods/leveldb-library/db/version_set.cc:694-754 | The entries after an edit are those before, without the removed files' and with the added files'. |
| `Install.FreshFilesKeepNumbers` | BetweenUS/Pods/leveldb-library/db/version_set.cc:694-754 | File numbers stay unique and below the next number when new files are added. |
| `Install.MovedFileKeepsNumbers` | BetweenUS/Pods/leveldb-library/db/db_impl.cc:718-728 | A moved file keeps file numbers unique. |
| `Limits.BoundaryGapResurrects` | BetweenUS/Pods/leveldb-library/db/version_set.cc:1403-1422 | A run from the empty database, of steps the code takes, after which a deleted key is read again: boundary files are not sought in the next level. |
| `Limits.FlushIntoGap` | BetweenUS/Pods/leveldb-library/db/version_set.cc:491-516 | A run from the empty database: a manual compaction with a gap between its inputs, a flush into the gap, and its end, after which two files of level 2 overlap. |
| `Builder.OneMoreEdit` | BetweenUS/Pods/leveldb-library/db/version_set.cc:650-693 | One more edit in a builder saves what applying the edit to the saved version would, if and only if the edit does not bring back the number of a file the builder has marked deleted. |
| `Builder.ReaddedNumberReturns` | BetweenUS/Pods/leveldb-library/db/version_set.cc:650-693 | An edit on which they differ: it brings back number 5, and the builder saves the deleted file 5 beside the new one. |
| `Builder.BatchEqualsOneByOne` | BetweenUS/Pods/leveldb-library/db/version_set.cc:650-693 | One builder over a whole edit sequence equals one version per edit, when numbers are not re-added. |
| `Builder.InsertFile` | BetweenUS/Pods/leveldb-library/db/version_set.cc:592-607 | Insertion into the ordered file set of a builder: in order, and only if no equivalent file is there. |
| `Builder.SaveLevel` | BetweenUS/Pods/leveldb-library/db/version_set.cc:694-754 | The merge of base and added files gives an ordered level with exactly the saved files. |
| `Manifest.VersionBuilder.Apply` | BetweenUS/Pods/leveldb-library/db/version_set.cc:650-693 | The loops over deletions and additions leave at every level exactly the meaning of the edit. |
| `Manifest.VersionBuilder.SaveTo` | BetweenUS/Pods/leveldb-library/db/version_set.cc:694-754 | Every level in order, with exactly the saved files. |
| `Manifest.VersionSet.LogAndApply` | BetweenUS/Pods/leveldb-library/db/version_set.cc:801-884 | Appends the encoded edit to the manifest bytes, after a snapshot if the manifest is new, and installs its version, log numbers and compaction pointers, so that decoding and replaying the bytes gives what is installed; if the write fails, nothing but the pointers has changed. |
| `Manifest.VersionSet.WriteSnapshot` | BetweenUS/Pods/leveldb-library/db/version_set.cc:1088-1116 | The one encoded record holds the comparator name, the compaction pointers and every file, and replays to the current version and pointers. |
| `Manifest.VersionSet.Recover` | BetweenUS/Pods/leveldb-library/db/version_set.cc:886-1011 | Decodes the manifest bytes and replays them through one builder; fails exactly when a record names another comparator or a next-file, log or sequence number was never given, and otherwise installs the version of the edits one by one, the last numbers given and the compaction pointers. |
| `Manifest.VersionSet.MarkFileNumberUsed` | BetweenUS/Pods/leveldb-library/db/version_set.cc:1043-1047 | The next file number moves past a used one. |
| `Manifest.SavePointers` | BetweenUS/Pods/leveldb-library/db/version_set.cc:1096-1102 | Setting the saved compaction pointers again gives back all of them. |
| `Manifest.DecodeRecord` | BetweenUS/Pods/leveldb-library/db/version_set.cc:934-944 | A record stored as bytes is decoded to itself, files by their entries. |
| `Manifest.Reopen` | BetweenUS/Pods/leveldb-library/db/version_set.cc:886-1011 | A version set opened from the manifest bytes of another holds exactly its version, log numbers and compaction pointers. |
| `Manifest.ReopenTorn` | BetweenUS/Pods/leveldb-library/db/version_set.cc:886-1011 | The manifest as a log file cut at any byte: opening succeeds exactly when the snapshot and one more record lie wholly in those bytes, and then installs the replay of exactly the records that do. |
| `VersionEdit.EncodeTo` | BetweenUS/Pods/leveldb-library/db/version_edit.cc:41-85 | Writes the present fields and the three lists, one by one, as the stored form of the edit. |
| `VersionEdit.DecodeFrom` | BetweenUS/Pods/leveldb-library/db/version_edit.cc:107-205 | Decoding a stored edit succeeds and rebuilds every field; compaction pointers are appended to those the object held, since clearing does not clear them. On any bytes it succeeds exactly when they are a list of fields with known tags and levels below 7 and nothing else, and applies those fields in order. |
| `VersionEdit.ChunksRebuild` | BetweenUS/Pods/leveldb-library/db/version_edit.cc:107-205 | Applying the stored fields in order to a cleared edit rebuilds the edit, deleted files as an ordered set. |
| `VersionEdit.RoundTrip` | BetweenUS/Pods/leveldb-library/db/version_edit.cc:41-205 | Into a new object, decoding an encoded edit gives the edit. |
| `Database.InsertEntry` | BetweenUS/Pods/leveldb-library/db/memtable.cc:75-98 | An entry with a new sequence number is put in its place in the sorted memtable. |
| `Database.MergeInputs` | BetweenUS/Pods/leveldb-library/db/version_set.cc:1237-1268 | The merged input of a compaction holds all rows of its files, in order. |
| `Database.PickLevelForMemTableOutput` | BetweenUS/Pods/leveldb-library/db/version_set.cc:491-516 | The first level where the file must stop: every level before it lets the file through (nothing overlaps in the next level and the one below that is not too heavy), and this one does not, or it is level 2; no file of the levels down to it meets the new file. |
| `Database.InstallEdit` | BetweenUS/Pods/leveldb-library/db/version_set.cc:801-830 | Deleting the inputs' numbers and adding the outputs through the builder replaces exactly those files. |
| `Database.InsertBatch` | BetweenUS/Pods/leveldb-library/db/write_batch.cc:115-137 | The batch's entries, numbered consecutively, join the memtable in order. |
| `Database.DBImpl.Write` | BetweenUS/Pods/leveldb-library/db/db_impl.cc:1185-1256 | A write is the engine's write step. At the new last sequence the last write of each key in the batch is the answer for that key, every other key answers as before, and the plain map of the object is the old one with the batch applied. |
| `Database.DBImpl.SwitchMemTable` | BetweenUS/Pods/leveldb-library/db/db_impl.cc:1345-1367 | A memtable switch is the engine's switch step. |
| `Database.DBImpl.GetSnapshot` | BetweenUS/Pods/leveldb-library/db/db_impl.cc:1166-1169 | A snapshot at the last sequence is the engine's snapshot step. |
| `Database.DBImpl.ReleaseSnapshot` | BetweenUS/Pods/leveldb-library/db/db_impl.cc:1171-1174 | Releasing is the engine's release step. |
| `Database.DBImpl.Get` | BetweenUS/Pods/leveldb-library/db/db_impl.cc:1100-1145 | The answer read is that of the object's write history; at the last sequence it is the value of the key in the plain map of all writes, at a snapshot its value in the map as it was when the snapshot was taken. |
| `Database.DBImpl.CompactMemTable` | BetweenUS/Pods/leveldb-library/db/db_impl.cc:535-566 | A flush is the engine's flush step, at the first level where the file must stop, whatever compaction is running. |
| `Database.DBImpl.PickCompaction` | BetweenUS/Pods/leveldb-library/db/db_impl.cc:711-744 | A trivial move exactly if the settled inputs are one file, no next-level file overlaps and the grandparents are light; otherwise a start step of the engine. The inputs are those settled from the file's choice. |
| `Database.DBImpl.CompactRange` | BetweenUS/Pods/leveldb-library/db/version_set.cc:1464-1495 | A manual compaction of a key range is the engine's start step, with the inputs settled from the files chosen for the range; if none starts, no file of the level meets the range. |
| `Database.DBImpl.FinishCompaction` | BetweenUS/Pods/leveldb-library/db/db_impl.cc:878-1036 | Merging, dropping and installing is the engine's finish step; the object stays valid where that is safe. |
| `DbIter.ViewIsLiveKeys` | BetweenUS/Pods/leveldb-library/db/db_iter.cc:141-299 | The rows the iterator may show are exactly the live user keys at its sequence with their values, each once, in key order. |
| `DbIter.ListNeighbours` | BetweenUS/Pods/leveldb-library/db/db_iter.cc:141-225 | On the list of shown rows, next and previous shown row are the neighbouring places. |
| `DbIter.DBIter.FindNextUserEntry` | BetweenUS/Pods/leveldb-library/db/db_iter.cc:168-198 | Stops on the first shown row past the skipped key, passing hidden versions and deletions. |
| `DbIter.DBIter.Next` | BetweenUS/Pods/leveldb-library/db/db_iter.cc:141-166 | Moves to the next shown row, from either direction. |
| `DbIter.DBIter.FindPrevUserEntry` | BetweenUS/Pods/leveldb-library/db/db_iter.cc:227-267 | Stops on the last shown row at or before the internal position. |
| `DbIter.DBIter.Prev` | BetweenUS/Pods/leveldb-library/db/db_iter.cc:200-225 | Moves to the previous shown row, from either direction. |
| `DbIter.DBIter.Seek` | BetweenUS/Pods/leveldb-library/db/db_iter.cc:269-281 | Moves to the first shown row whose user key is at or after the target. |
| `DbIter.DBIter.SeekToFirst` | BetweenUS/Pods/leveldb-library/db/db_iter.cc:283-292 | Moves to the first shown row. |
| `DbIter.DBIter.SeekToLast` | BetweenUS/Pods/leveldb-library/db/db_iter.cc:294-299 | Moves to the last shown row. |
| `Merger.FindSmallest` | BetweenUS/Pods/leveldb-library/table/merger.cc:148-161 | The valid child with the smallest key, or that none is valid. |
| `Merger.FindLargest` | BetweenUS/Pods/leveldb-library/table/merger.cc:163-176 | The valid child with the largest key, or that none is valid. |
| `Merger.TurnForward` | BetweenUS/Pods/leveldb-library/table/merger.cc:63-75 | Turning forward puts every other child on its first row past the current entry and leaves the current child. |
| `Merger.TurnBack` | BetweenUS/Pods/leveldb-library/table/merger.cc:89-104 | Turning back puts every other child on its last row before the current entry, or makes it not valid, and leaves the current child. |
| `Merger.AlwaysMerge` | BetweenUS/Pods/leveldb-library/table/merger.cc:31-53 | Sorted lists without a common key have a sorted union, so there is one to move along for every choice of children. |
| `Merger.SmallestIsAt` | BetweenUS/Pods/leveldb-library/table/merger.cc:148-161 | With every child at one place of the sorted union, the smallest child shows the entry there; none is valid exactly at the end. |
| `Merger.LargestIsBefore` | BetweenUS/Pods/leveldb-library/table/merger.cc:163-176 | With every child behind one place, the largest child shows the entry before it. |
| `Merger.MergingIterator.Next` | BetweenUS/Pods/leveldb-library/table/merger.cc:55-79 | One place on along the sorted union, from either direction. |
| `Merger.MergingIterator.Prev` | BetweenUS/Pods/leveldb-library/table/merger.cc:81-108 | One place back along the sorted union, from either direction; not valid before the first. |
| `Merger.MergingIterator.Seek` | BetweenUS/Pods/leveldb-library/table/merger.cc:47-53 | The place of the first entry at or after the target. |
| `Merger.MergingIterator.SeekToFirst` | BetweenUS/Pods/leveldb-library/table/merger.cc:31-37 | The first place of the sorted union. |
| `Merger.MergingIterator.SeekToLast` | BetweenUS/Pods/leveldb-library/table/merger.cc:39-45 | The last place of the sorted union. |
| `Merger.MergingIterator.Current` | BetweenUS/Pods/leveldb-library/table/merger.cc:110-118 | The entry shown is the one at the cursor's place. |
| `TwoLevel.TwoLevelIterator.Next` | BetweenUS/Pods/leveldb-library/table/two_level_iterator.cc:103-107 | One place on along the concatenation, over empty blocks. |
| `TwoLevel.TwoLevelIterator.Prev` | BetweenUS/Pods/leveldb-library/table/two_level_iterator.cc:109-113 | One place back along the concatenation, over empty blocks. |
| `TwoLevel.TwoLevelIterator.Seek` | BetweenUS/Pods/leveldb-library/table/two_level_iterator.cc:82-87 | The first entry at or after the target in the whole concatenation. |
| `TwoLevel.TwoLevelIterator.SeekToFirst` | BetweenUS/Pods/leveldb-library/table/two_level_iterator.cc:89-94 | The first place of the concatenation. |
| `TwoLevel.TwoLevelIterator.SeekToLast` | BetweenUS/Pods/leveldb-library/table/two_level_iterator.cc:96-101 | The last place of the concatenation. |
| `TwoLevel.TwoLevelIterator.SkipForward` | BetweenUS/Pods/leveldb-library/table/two_level_iterator.cc:115-126 | Moves over exhausted blocks to the first row at or after a place. |
| `TwoLevel.TwoLevelIterator.SkipBackward` | BetweenUS/Pods/leveldb-library/table/two_level_iterator.cc:128-139 | Moves back over exhausted blocks to the last row before a place. |
| `TwoLevel.TwoLevelIterator.InitDataBlock` | BetweenUS/Pods/leveldb-library/table/two_level_iterator.cc:146-161 | After it the block cursor reads the index cursor's block, whether opened now or cached. |
| `TwoLevel.TwoLevelIterator.Current` | BetweenUS/Pods/leveldb-library/table/two_level_iterator.cc:31-39 | The entry shown is the one at the cursor's place. |
| `TwoLevel.SeekLands` | BetweenUS/Pods/leveldb-library/table/two_level_iterator.cc:82-87 | Seeking in the block the separators point at is seeking in the concatenation. |
| `SkipList.WalkIsSorted` | BetweenUS/Pods/leveldb-library/db/skiplist.h:144-179 | Following the links of a level meets every published key after a node, once, in order. |
| `SkipList.PublishKeeps` | BetweenUS/Pods/leveldb-library/db/skiplist.h:362-367 | Publishing a node at a level keeps every level a sorted list and a sublist of the level below. |
| `SkipList.StoreOwnKeeps` | BetweenUS/Pods/leveldb-library/db/skiplist.h:362-367 | Storing the new node's own link first changes nothing a reader can reach. |
| `SkipList.SkipList.FindGreaterOrEqual` | BetweenUS/Pods/leveldb-library/db/skiplist.h:261-281 | The first key at or after the target, and at every level in use the node after which the target belongs. |
| `SkipList.SkipList.FindLessThan` | BetweenUS/Pods/leveldb-library/db/skiplist.h:284-302 | The last key before the target, or the head. |
| `SkipList.SkipList.FindLast` | BetweenUS/Pods/leveldb-library/db/skiplist.h:305-322 | The last key, or the head. |
| `SkipList.SkipList.Contains` | BetweenUS/Pods/leveldb-library/db/skiplist.h:371-378 | True exactly when the key is in the list. |
| `SkipList.SkipList.Insert` | BetweenUS/Pods/leveldb-library/db/skiplist.h:337-368 | The key is added at exactly the levels below its height and nothing else changes. |
| `SkipListRuns.NextKeepsInv` | BetweenUS/Pods/leveldb-library/db/skiplist.h:337-368 | Every single load or store of writer and readers keeps the invariant, and levels only gain keys. |
| `SkipListRuns.RunKeepsInv` | BetweenUS/Pods/leveldb-library/db/skiplist.h:337-368 | After every store of every run with one writer and any readers, each level is a sorted sublist of the level below. |
| `SkipListRuns.RunAnswers` | BetweenUS/Pods/leveldb-library/db/skiplist.h:261-322 | In every run a finished search has the right answer for the list as it stood at one moment between the start of the search and its end, and that list held every key that was linked at the start. |
| `SkipListRuns.ReaderFinishes` | BetweenUS/Pods/leveldb-library/db/skiplist.h:261-322 | From any state a reader reaches its answer by its own loads alone; it waits for nobody. |
| `SkipListRuns.WriterFinishes` | BetweenUS/Pods/leveldb-library/db/skiplist.h:337-368 | From any state an Insert returns by the writer's own steps alone, whatever height it draws, with the key then at exactly the levels below that height. |
| `SkipListRuns.ReaderStart` | BetweenUS/Pods/leveldb-library/db/skiplist.h:261-322 | What a reader holds as the list at its start is the list of an earlier state of the run. |
| `Bytewise.RankEmbeds` | BetweenUS/Pods/leveldb-library/util/comparator.cc:24-26 | Byte strings map into the reals so that the bytewise order is the order of the images. |
| `Bytewise.EmbedKeepsOrder` | BetweenUS/Pods/leveldb-library/db/dbformat.cc:51-67 | The engine's keys and stored keys are the same order. |
| `Bytewise.KeyRankEmbeds` | BetweenUS/Pods/leveldb-library/db/dbformat.cc:51-67 | The internal-key order is also an order of ranks. |
| `Bytewise.FindShortestSeparator` | BetweenUS/Pods/leveldb-library/util/comparator.cc:28-52 | At or after the start and, if the start is, before the limit; changed exactly where the strings first differ by more than one, and then cut there with that byte raised by one. |
| `Bytewise.FindShortSuccessor` | BetweenUS/Pods/leveldb-library/util/comparator.cc:54-66 | A key at or after the given one, no longer, cut after its first byte below 255 with that byte raised by one; unchanged exactly when all bytes are 255. |
| `Bytewise.InternalSeparator` | BetweenUS/Pods/leveldb-library/db/dbformat.cc:69-86 | A key between adjacent internal keys: the first one, or of a shorter user key strictly between theirs under the largest sequence number; the latter exactly when the separator of the user keys is shorter. |
| `Bytewise.InternalSuccessor` | BetweenUS/Pods/leveldb-library/db/dbformat.cc:88-101 | At or after the key; of a shorter, larger user key under the largest sequence number exactly when a byte before the last is the first below 255. |
| `Table.IndexedLookup` | BetweenUS/Pods/leveldb-library/table/table.cc:216-244 | Looking only in the block the index points at gives a user-key lookup the outcome of the first row at or after the key in the whole table. |
| `Table.InternalGet` | BetweenUS/Pods/leveldb-library/table/table.cc:216-244 | Index, filter and block together come out, for a user-key lookup, as a scan of the whole table. |
| `TableBytes.KeyRoundTrip` | BetweenUS/Pods/leveldb-library/db/dbformat.h:165-175 | An encoded internal key is parsed back. |
| `TableBytes.RankOrders` | BetweenUS/Pods/leveldb-library/db/dbformat.cc:51-67 | Encoded internal keys have the order of the keys. |
| `TableBytes.DecodeHandle` | BetweenUS/Pods/leveldb-library/table/format.cc:15-29 | A block handle is read back from its bytes. |
| `TableBytes.SeekBlock` | BetweenUS/Pods/leveldb-library/table/block.cc:163-201 | Seeking in the bytes of any block below 4 GiB finds the first row at or after the target. |
| `TableBytes.SeekIndex` | BetweenUS/Pods/leveldb-library/table/table.cc:216-227 | Seeking in the bytes of the index block finds the handle of the first entry at or after the key. |
| `TableBytes.SeekData` | BetweenUS/Pods/leveldb-library/table/table.cc:230-234 | Seeking in the bytes of a data block finds its first row at or after the key. |
| `TableBytes.GetFromBytes` | BetweenUS/Pods/leveldb-library/table/table.cc:216-244 | Index, handle, filter and block over the bytes of a stored table come out, for a user-key lookup, as a scan of the whole table, and never in an error. |
| `TableBytes.StoreThenGet` | BetweenUS/Pods/leveldb-library/table/table_builder.cc:198-253 | The index and data blocks of any table written through the block builder, then looked up in as bytes: the outcome of a scan of all rows, for blocks below 4 GiB. |
| `Table.TableBuilder.Add` | BetweenUS/Pods/leveldb-library/table/table_builder.cc:94-123 | Rows added in order go to the table in order; the index entry held back is emitted with a separator from the next key; the data block is written out exactly when it is full. |
| `Table.TableBuilder.Flush` | BetweenUS/Pods/leveldb-library/table/table_builder.cc:125-139 | Writes out the data block with its index entry pending and loses no row. |
| `Table.TableBuilder.Finish` | BetweenUS/Pods/leveldb-library/table/table_builder.cc:198-253 | The finished table stores exactly the rows added, with an index and filter fit for lookup. |
| `FilterBlock.FilterBlockBuilder.StartBlock` | BetweenUS/Pods/leveldb-library/table/filter_block.cc:21-27 | Moves on to the filter of the block's offset; filters in between are empty. |
| `FilterBlock.FilterBlockBuilder.AddKey` | BetweenUS/Pods/leveldb-library/table/filter_block.cc:29-33 | The key joins the current filter's group. |
| `FilterBlock.FilterBlockBuilder.GenerateFilter` | BetweenUS/Pods/leveldb-library/table/filter_block.cc:51-75 | Closes the current group into the next filter, recovering the keys from the flat buffer. |
| `FilterBlock.FilterBlockBuilder.Finish` | BetweenUS/Pods/leveldb-library/table/filter_block.cc:35-49 | The stored block holds one filter for each group. |
| `FilterBlock.KeyMayMatch` | BetweenUS/Pods/leveldb-library/table/filter_block.cc:77-104 | For a built block: true for every key of the offset's group, false where the group is empty, true beyond the last group; true for a block too short to parse. |
| `Bloom.CreateFilter` | BetweenUS/Pods/leveldb-library/util/bloom.cc:28-54 | Appends a bit array whose set bits are exactly the probes of the keys, then the probe count. |
| `Bloom.KeyMayMatch` | BetweenUS/Pods/leveldb-library/util/bloom.cc:56-80 | The probe loop answers the filter's definition, for any bytes. |
| `Bloom.NoFalseNegatives` | BetweenUS/Pods/leveldb-library/util/bloom.cc:28-80 | A filter admits every key it was built for. |
| `Block.BlockBuilder.Add` | BetweenUS/Pods/leveldb-library/table/block_builder.cc:72-106 | The entry is laid out with the longest shared prefix, or as a restart point at every interval. |
| `Block.BlockBuilder.Finish` | BetweenUS/Pods/leveldb-library/table/block_builder.cc:62-70 | The finished block is the entries, the offsets of the restart points and their number. |
| `Block.DecodeEntry` | BetweenUS/Pods/leveldb-library/table/block.cc:54-74 | The one-byte fast path and the general path decode alike. |
| `Block.EntryParses` | BetweenUS/Pods/leveldb-library/table/block.cc:54-74 | An entry that was laid out is parsed back, with its key and value bytes. |
| `Block.Iter.ParseNextKey` | BetweenUS/Pods/leveldb-library/table/block.cc:224-251 | Moves to the next row and rebuilds its key from the shared prefix; false exactly at the end, and never for corruption. |
| `Block.Iter.Next` | BetweenUS/Pods/leveldb-library/table/block.cc:137-140 | One row on. |
| `Block.Iter.Prev` | BetweenUS/Pods/leveldb-library/table/block.cc:142-161 | One row back, by way of the last restart point before it; not valid before the first. |
| `Block.Iter.Seek` | BetweenUS/Pods/leveldb-library/table/block.cc:163-201 | The first row whose key is at or after the target, by binary search over restart points and a scan. |
| `Block.Iter.SeekToFirst` | BetweenUS/Pods/leveldb-library/table/block.cc:203-206 | The first row. |
| `Block.Iter.SeekToLast` | BetweenUS/Pods/leveldb-library/table/block.cc:208-213 | The last row. |
| `Block.Iter.ShowsRow` | BetweenUS/Pods/leveldb-library/table/block.cc:126-135 | The iterator is valid exactly on a row and shows its key and value. |
| `Block.Build` | BetweenUS/Pods/leveldb-library/table/block_builder.cc:62-106 | Building any rows gives bytes that are the entries of those rows, the offsets of the restart points and their number; below 4 GiB that is their finished block. |
| `Block.ReadAll` | BetweenUS/Pods/leveldb-library/table/block.cc:137-251 | Reading a finished block from first to last gives back its rows. |
| `Block.RoundTrip` | BetweenUS/Pods/leveldb-library/table/block.cc:137-251 | Building a block of any rows and reading it from first to last gives back the rows, if the block is below 4 GiB. |
| `Log.Writer.AddRecord` | BetweenUS/Pods/leveldb-library/db/log_writer.cc:34-80 | The fragment loop appends exactly the record's layout: blocks, trailers, fragments and their types. |
| `Log.Writer.EmitPhysicalRecord` | BetweenUS/Pods/leveldb-library/db/log_writer.cc:82-108 | Appends one header and payload. |
| `Log.WrittenAppend` | BetweenUS/Pods/leveldb-library/db/log_writer.cc:34-80 | Appending records one by one produces the log of all of them. |
| `Log.Reader.ReadPhysicalRecord` | BetweenUS/Pods/leveldb-library/db/log_reader.cc:188-271 | On a written log cut anywhere: the next fragment as written, or the end of the file and then the record is not all there; nothing is reported. On any bytes, a fragment given lies ahead in the file as the writer would have written it, checksum included, and one refused is reported, unless its header is blank. |
| `Log.Reader.ReadRecord` | BetweenUS/Pods/leveldb-library/db/log_reader.cc:56-173 | On a written log cut anywhere: the next record exactly when all its bytes are there, and nothing reported. On any bytes, a record returned is one whole fragment, or a first, any middle and a last one, in order, each as the writer would have written it; and nothing is lost in silence: without a report the record is all the payload that was read, and at the end of the file that payload is the start of a record. |
| `Log.ReadNext` | BetweenUS/Pods/leveldb-library/db/log_reader.cc:56-173 | One record after another: of a written log cut anywhere, the i-th exactly when it is whole. |
| `Log.WholeIsContained` | BetweenUS/Pods/leveldb-library/db/log_reader.cc:56-173 | A record is counted as whole exactly when the log up to its end fits in the cut. |
| `Log.ReadTorn` | BetweenUS/Pods/leveldb-library/db/log_reader.cc:56-271 | Reading the first bytes of any written log returns exactly the records wholly contained in them, in order, and reports no corruption. |
| `Log.HeaderRoundTrip` | BetweenUS/Pods/leveldb-library/db/log_reader.cc:215-250 | A written header is read back: length, type, payload and checksum. |
| `Log.CheckedIsWritten` | BetweenUS/Pods/leveldb-library/db/log_reader.cc:215-250 | Bytes whose length and checksum fit their header are a record as the writer would have written it. |
| `Coding.Fixed32RoundTrip` | BetweenUS/Pods/leveldb-library/util/coding.cc:9-18 | Fixed 32-bit encoding is read back. |
| `Coding.Fixed32Format` | BetweenUS/Pods/leveldb-library/util/coding.cc:9-18 | The four bytes spell the number in base 256, least significant first. |
| `Coding.DecodeFixed32Format` | BetweenUS/Pods/leveldb-library/util/coding.h:60-72 | Four bytes are read as the number they spell in base 256, least significant first. |
| `Coding.Fixed64RoundTrip` | BetweenUS/Pods/leveldb-library/util/coding.cc:20-33 | Fixed 64-bit encoding is read back. |
| `Coding.Fixed64Format` | BetweenUS/Pods/leveldb-library/util/coding.cc:20-33 | The eight bytes spell the number in base 256, least significant first. |
| `Coding.PutWords` | BetweenUS/Pods/leveldb-library/util/coding.cc:35-39 | A list of fixed 32-bit numbers is appended in order. |
| `Coding.GetPrefixed` | BetweenUS/Pods/leveldb-library/util/coding.cc:171-192 | A length-prefixed slice is read back with what follows it. On any bytes it succeeds exactly when they start with a length and at least that many bytes, and the slice is those. |
| `Coding.EncodeVarint` | BetweenUS/Pods/leveldb-library/util/coding.cc:47-96 | The digit loop appends the base-128 form. |
| `Coding.GetVarint` | BetweenUS/Pods/leveldb-library/util/coding.cc:112-157 | The shift loop computes the value of the digits, for 32 and 64 bits, or fails where they run out. |
| `Coding.VarintRoundTrip` | BetweenUS/Pods/leveldb-library/util/coding.cc:47-157 | Every number of the width is read back, whatever follows it. |
| `Coding.VarintFormat` | BetweenUS/Pods/leveldb-library/util/coding.cc:47-96 | A varint spells its number in groups of seven bits, least significant first; exactly the last byte is below 128, and no byte is wasted. |
| `Coding.CrcExtendAppend` | BetweenUS/Pods/leveldb-library/util/crc32c.h:14-20 | Extending a checksum is checksumming the concatenation. |
| `Coding.MaskRoundTrip` | BetweenUS/Pods/leveldb-library/util/crc32c.h:22-38 | Unmasking undoes masking. |
| `Coding.UnmaskRoundTrip` | BetweenUS/Pods/leveldb-library/util/crc32c.h:22-38 | Masking undoes unmasking. |
| `Formats.MaskFormat` | BetweenUS/Pods/leveldb-library/util/crc32c.h:29-32 | The masked checksum is rotated right by 15 bits and moved by 0xa282ead8. |
| `Formats.CrcFormat` | BetweenUS/Pods/leveldb-library/util/crc32c.h:19-20 | The checksum of the one byte 0x61 is 0xc1d04330, as CRC32C gives. |
| `Formats.LogHeaderFormat` | BetweenUS/Pods/leveldb-library/db/log_writer.cc:82-108 | A physical record is a masked checksum of type and payload in four bytes, the length in two, the type in one, then the payload. |
| `Formats.LogTypeFormat` | BetweenUS/Pods/leveldb-library/db/log_format.h:14-24 | Whole records have type 1; first, middle and last fragments 2, 3 and 4. |
| `Formats.LogBlockFormat` | BetweenUS/Pods/leveldb-library/db/log_writer.cc:34-80 | A fragment ends within its block of 32768 bytes, and at the end of it unless it is the last of its record. |
| `Formats.LogTrailerFormat` | BetweenUS/Pods/leveldb-library/db/log_writer.cc:42-51 | Where fewer than 7 bytes of a block are left, they are written as zeros and the record starts in the next block. |
| `Formats.BatchFormat` | BetweenUS/Pods/leveldb-library/db/write_batch.cc:5-14 | A batch is its sequence number in eight bytes, its count in four, least significant first, then the operations. |
| `Formats.OpFormat` | BetweenUS/Pods/leveldb-library/db/write_batch.cc:5-14 | A put is 1, key and value, a deletion 0 and the key, each with its length before it. |
| `Formats.EditFormat` | BetweenUS/Pods/leveldb-library/db/version_edit.cc:14-26 | The fields of a stored edit start with tags 1 to 6 and 9. |
| `Formats.NewFileFormat` | BetweenUS/Pods/leveldb-library/db/version_edit.cc:76-84 | A new file is tag 7, level, number, size, smallest and largest key. |
| `Formats.EntryFormat` | BetweenUS/Pods/leveldb-library/table/block_builder.cc:92-99 | A block entry is the shared length, the length of the rest of the key and the length of the value as varints, then the rest of the key and the value. |
| `Formats.HandleFormat` | BetweenUS/Pods/leveldb-library/table/format.cc:15-21 | A block handle is the offset and then the size, as varints. |
| `Formats.FilterFormat` | BetweenUS/Pods/leveldb-library/table/filter_block.cc:35-49 | A filter block is the filters, the offset of each and of the end in four bytes, and 11. |
| `Formats.InternalKeyFormat` | BetweenUS/Pods/leveldb-library/db/dbformat.cc:14-23 | An internal key is the user key and eight bytes, the sequence number above one byte of type: 1 for a value, 0 for a deletion. |
| `Formats.ProbeFormat` | BetweenUS/Pods/leveldb-library/util/bloom.cc:43-53 | Probes start at the hash and step, in 32-bit arithmetic, by the hash rotated right by 17 bits. |
| `Formats.FilterSizeFormat` | BetweenUS/Pods/leveldb-library/util/bloom.cc:29-38 | The bit array is the least number of bytes that has the bits asked for, and at least 64. |
| `Formats.GroupFormat` | BetweenUS/Pods/leveldb-library/db/db_impl.cc:1268-1275 | A group may grow by 128 KiB over a first batch of at most that size, and up to 1 MiB over a larger one. |
| `WriteBatch.Batch.Put` | BetweenUS/Pods/leveldb-library/db/write_batch.cc:98-103 | The operation is appended and the count goes up. |
| `WriteBatch.Batch.Delete` | BetweenUS/Pods/leveldb-library/db/write_batch.cc:105-109 | The deletion is appended and the count goes up. |
| `WriteBatch.Batch.Append` | BetweenUS/Pods/leveldb-library/db/write_batch.cc:144-148 | The other batch's operations follow and the counts add up. |
| `WriteBatch.Iterate` | BetweenUS/Pods/leveldb-library/db/write_batch.cc:42-80 | Hands out exactly the operations of a batch, in order. On any bytes it succeeds exactly when they are a list of puts and deletions and nothing else, as many as the stored count, and hands out those. |
| `GroupCommit.BuildBatchGroup` | BetweenUS/Pods/leveldb-library/db/db_impl.cc:1260-1306 | The longest prefix of the queue that is safe to sync with the leader and within the size limit, as one batch in queue order; stops only for a sync writer behind a non-sync leader or for size. |
| `GroupCommit.GroupIsOneByOne` | BetweenUS/Pods/leveldb-library/db/db_impl.cc:1204-1237 | A group numbered and inserted as one batch is its writers taken one by one. |
| `GroupCommit.NextKeepsInv` | BetweenUS/Pods/leveldb-library/db/db_impl.cc:1185-1256 | Every step of joining, grouping, logging, syncing, inserting and leaving keeps the queue invariant and the log invariant. |
| `GroupCommit.RunIsOneByOne` | BetweenUS/Pods/leveldb-library/db/db_impl.cc:1185-1256 | In every run writers leave in the order they joined, memtable and last sequence are those of the writers one by one, the memtable is the replay of the log (without its last record while that is logged and not inserted, or failed to sync), and every successful writer's operations are in the log under their numbers, marked synced if it asked for that. |
| `GroupCommit.GroupCommits` | BetweenUS/Pods/leveldb-library/db/db_impl.cc:1204-1256 | A group the queue allows can be committed: after the five steps without an error its operations are in the log and the memtable under the next numbers, on disk if the leader asks for that, and its writers are let go. |
| `GroupCommit.NextKeepsLog` | BetweenUS/Pods/leveldb-library/db/db_impl.cc:1204-1237 | Every step keeps the memtable equal to the replay of the log and every successful writer in the log. |
| `GroupCommit.DurableSurvives` | BetweenUS/Pods/leveldb-library/db/db_impl.cc:1204-1237 | Whatever prefix of the log a crash leaves, if it holds the synced records, replaying it sees every operation of a durable writer under its number. |
| `GroupCommit.RangesFollow` | BetweenUS/Pods/leveldb-library/db/db_impl.cc:1204-1237 | Inserted operations have strictly increasing sequence numbers, up to the last sequence. |
| `Recovery.InsertInto` | BetweenUS/Pods/leveldb-library/db/write_batch.cc:132-137 | A logged batch gives back its operations, numbered from its sequence. On any bytes with a header it succeeds exactly when they are a batch with as many operations as its count. |
| `Recovery.RecoverLogFile` | BetweenUS/Pods/leveldb-library/db/db_impl.cc:371-489 | On a log file cut at any byte, the tables written and the memtable left hold together the operations of exactly the records wholly in it, under their numbers, the largest number is found, and a table is written for every full memtable and for the last one unless the log is reused. On any bytes, paranoid recovery fails exactly for a report or a record that is no batch, and otherwise has exactly the operations of all records; recovery that is not paranoid never fails and has all operations of every record that is a batch. |
| `Recovery.LastCovers` | BetweenUS/Pods/leveldb-library/db/db_impl.cc:434-438 | No operation replayed has a number above the largest found. |
| `Recovery.RecoverAfterCrash` | BetweenUS/Pods/leveldb-library/db/db_impl.cc:371-489 | A crash at any moment of group commit that leaves the log cut at any byte past its synced records: recovery gives back every operation of every durable writer under its number, and exactly a prefix of what was logged. |
| `Durability.NextKeepsInv` | BetweenUS/Pods/leveldb-library/db/db_impl.cc:535-566 | Logging, syncing, switching to a new log, writing and installing manifest records of flushes and compactions, and deleting logs keep the invariant: every durable entry is in the tables or synced in a log the manifest still asks for. |
| `Durability.RunKeepsInv` | BetweenUS/Pods/leveldb-library/db/db_impl.cc:535-566 | It holds in every state of every run from an open database. |
| `Durability.FlushAdds` | BetweenUS/Pods/leveldb-library/db/db_impl.cc:491-533 | The record of a flush adds exactly the memtable's entries to the version the manifest replays to. |
| `Durability.CrashKeepsDurable` | BetweenUS/Pods/leveldb-library/db/db_impl.cc:280-369 | Whatever a crash leaves (the pending manifest record or not, of each log any prefix with its synced records), what recovery finds answers every lookup at a live read point as the surviving writes do; these hold every durable entry and nothing that was never written. |
| `Durability.DurableIsRead` | BetweenUS/Pods/leveldb-library/db/db_impl.cc:280-369 | After any such crash a lookup of a durable write's key answers with that write or a later one of the key. |
| `Durability.SyncedIsRead` | BetweenUS/Pods/leveldb-library/db/db_impl.cc:280-369 | In operations alone: after any crash, a synced put or deletion that is the last operation on its key up to a live snapshot is exactly what is read there, its value or nothing. |
| `Durability.UntouchedIsRead` | BetweenUS/Pods/leveldb-library/db/db_impl.cc:280-369 | A key without operations reads as in the tables the database was opened with. |
| `Durability.AppendedAndSyncedIsRead` | BetweenUS/Pods/leveldb-library/db/db_impl.cc:1204-1237 | In every run: a record appended to a log and synced before the log was switched is read, operation by operation, after a crash at any later time that cuts the files anywhere past what was synced, wherever it is the last on its key. |
| `Durability.OpenAfterCrash` | BetweenUS/Pods/leveldb-library/db/db_impl.cc:280-369 | Recovery over the bytes: from a manifest file and log files each cut at any byte past what was synced, the version and the logs it still needs give exactly the entries that crash leaves, and these read every synced operation that is the last on its key as it was written; opening fails exactly when the manifest records left are not recoverable. |
| `FileCollection.RunKeepsInv` | BetweenUS/Pods/leveldb-library/db/db_impl.cc:223-278 | In every run version reference counts are exact and every file a listed version names is on disk. |
| `FileCollection.StepDeletesNoLiveFile` | BetweenUS/Pods/leveldb-library/db/db_impl.cc:223-278 | No step deletes a pending file or one named by a version somebody refers to. |
| `FileCollection.RunDeletesNothingNeeded` | BetweenUS/Pods/leveldb-library/db/db_impl.cc:491-566 | In every run nothing needed is deleted, including a flushed table that has left the pending set and waits for its version. |
| `FileCollection.CollectKeeps` | BetweenUS/Pods/leveldb-library/db/db_impl.cc:223-278 | A collection at any moment the worker may run one keeps every version whole and every compaction output in hand. |
| `FileCollection.CollectIsExact` | BetweenUS/Pods/leveldb-library/db/db_impl.cc:223-278 | After a collection without error the disk holds exactly the files of listed versions and the pending ones that were there. |
| `FileCollection.IdleCollect` | BetweenUS/Pods/leveldb-library/db/db_impl.cc:223-278 | With no reader and nothing pending, the collection after a compaction leaves exactly the files of the current version. |
| `FileCollection.FlushRun` | BetweenUS/Pods/leveldb-library/db/db_impl.cc:491-566 | An idle worker can flush: the current version then has the new table too, it is on disk, and nothing is left pending. |
| `FileCollection.CompactRun` | BetweenUS/Pods/leveldb-library/db/db_impl.cc:860-1036 | An idle worker can compact: the current version then has the output in the place of the inputs, all its files are on disk, and nothing is left pending. |
| `FileCollection.AppendCounted` | BetweenUS/Pods/leveldb-library/db/version_set.cc:784-799 | Appending a current version keeps the reference counts exact and the files of every listed version on disk. |
| `HandleTable.HandleTable.Lookup` | BetweenUS/Pods/leveldb-library/util/cache.cc:74-76 | Finds the entry of a key exactly when the table maps it. |
| `HandleTable.HandleTable.Insert` | BetweenUS/Pods/leveldb-library/util/cache.cc:78-92 | The key maps to the new entry, the entry before is returned, and no other changes, also across a resize; there are never more entries than buckets. |
| `HandleTable.HandleTable.Remove` | BetweenUS/Pods/leveldb-library/util/cache.cc:94-102 | The key is unmapped, its entry returned, and no other changes. |
| `HandleTable.Rehash` | BetweenUS/Pods/leveldb-library/util/cache.cc:122-146 | Moving every entry to another table size keeps the mapping. |
| `LruCache.LRUCache.Lookup` | BetweenUS/Pods/leveldb-library/util/cache.cc:252-259 | A handle on the cached entry, one reference more, usage unchanged; the entry leaves the LRU list and no other moves. |
| `LruCache.LRUCache.Release` | BetweenUS/Pods/leveldb-library/util/cache.cc:261-264 | One reference less; the deleter runs exactly if it was the last of an erased entry; a cached entry whose last handle this was joins the LRU list at its newest end, and no other moves. |
| `LruCache.LRUCache.EraseKey` | BetweenUS/Pods/leveldb-library/util/cache.cc:307-321 | The key leaves the cache, its charge the usage, its entry the lists; the deleter runs exactly if no client holds the entry. |
| `LruCache.LRUCache.Insert` | BetweenUS/Pods/leveldb-library/util/cache.cc:266-303 | The key maps to the new entry (none is cached when capacity is 0); then the oldest unused entries go, as many as it takes for the charges to fit and no more, and every other key keeps its entry; if the charges fit at once none goes. |
| `LruCache.LRUCache.Evict` | BetweenUS/Pods/leveldb-library/util/cache.cc:293-300 | Exactly the first n entries of the LRU list go, with their deleters in that order, where n is 0 or the usage was above the limit before the last of them; it ends with the usage within the limit or no unused entry left. |
| `LruCache.LRUCache.Prune` | BetweenUS/Pods/leveldb-library/util/cache.cc:323-333 | Drops every entry no client holds, oldest first, and no other. |
| `LruCache.RefKeeps` | BetweenUS/Pods/leveldb-library/util/cache.cc:217-223 | Taking a reference keeps the counts, the two lists, the charge and the table in step. |
| `LruCache.UnrefKeeps` | BetweenUS/Pods/leveldb-library/util/cache.cc:225-237 | Dropping a reference keeps them in step and runs the deleter exactly at zero. |
| `LruCache.EraseKeeps` | BetweenUS/Pods/leveldb-library/util/cache.cc:307-316 | Finishing an erase keeps them in step. |
| `LruCache.AllDeletedOnce` | BetweenUS/Pods/leveldb-library/util/cache.cc:205-215 | Once no client holds a handle and unused entries are dropped, every deleter has run exactly once and usage is 0. |
| `PbEncode.OStream.Write` | BetweenUS/Pods/nanopb/pb_encode.c:103-124 | Writes or counts the bytes; fails exactly when they do not fit. |
| `PbEncode.VarintBuffer` | BetweenUS/Pods/nanopb/pb_encode.c:608-628 | The digit loop with its last mark removed is the base-128 form. |
| `PbEncode.EncodeSvarint` | BetweenUS/Pods/nanopb/pb_encode.c:630-639 | Shift and complement in 64 bits is the zigzag form. |
| `PbEncode.EncodeSubmessage` | BetweenUS/Pods/nanopb/pb_encode.c:717-765 | Size, then message through a stream of exactly that size; the branch for a size that changed is never taken. |
| `PbEncode.EncodePacked` | BetweenUS/Pods/nanopb/pb_encode.c:162-205 | A packed array is its tag, its size and its entries; the counted size is the written one. |
| `PbEncode.EncodeField` | BetweenUS/Pods/nanopb/pb_encode.c:341-426 | Presence by rule (required, has-flag, zero test, count, oneof choice), then the field's wire form. |
| `PbEncode.EncodeMessage` | BetweenUS/Pods/nanopb/pb_encode.c:528-550 | Writes the wire form of a message exactly when the message fits its storage and the wire form fits the stream. |
| `PbEncode.SizeThenEncode` | BetweenUS/Pods/nanopb/pb_encode.c:567-576 | Sizing reports n exactly when encoding into any buffer of at least n bytes succeeds, with n bytes, at every depth. |
| `PbWire.MessageShows` | BetweenUS/Pods/nanopb/pb_encode.c:664-715 | A property of the bytes alone, under a wire grammar without descriptors (types 0 varint, 1 eight bytes, 2 length and that many bytes, 5 four bytes): the wire form of every message splits into exactly the fields present, in descriptor order, with their field numbers, the type of each kind, and their values; packed arrays and submessages split in their turn; none for a singular zero field. |
| `PbWire.EncodeShows` | BetweenUS/Pods/nanopb/pb_encode.c:528-550 | What the encoder writes splits that way; it succeeds exactly when the message fits its storage and the wire form the buffer. |
| `PbModel.ZeroIsDefault` | BetweenUS/Pods/nanopb/pb_encode.c:240-337 | A value that passes the zero test, through submessages, is what decoding starts from. |
| `PbModel.IsZeroExactly` | BetweenUS/Pods/nanopb/pb_encode.c:240-337 | The zero test passes exactly on the default value of a kind that counts as zero, through submessages. |
| `PbDecode.DecodeVarint` | BetweenUS/Pods/nanopb/pb_decode.c:255-275 | A 64-bit varint is read back and the stream left after it; on any bytes it succeeds exactly when at most ten digits end, with bits past the 64th lost. |
| `PbDecode.DecodeVarint32` | BetweenUS/Pods/nanopb/pb_decode.c:187-247 | On the wire form of every 64-bit number: the overflow checks pass exactly on numbers below 2^32 and on negative ones whose digits from the 35th bit on are zero or sign, and the value is then the low 32 bits. |
| `PbDecode.NegativeFits` | BetweenUS/Pods/nanopb/pb_decode.c:219-228 | Every negative 32-bit number passes in its ten-byte form. |
| `PbDecode.DecodeTag` | BetweenUS/Pods/nanopb/pb_decode.c:298-319 | Field number and wire type are read back. |
| `PbDecode.IterNext` | BetweenUS/Pods/nanopb/pb_common.c:29-85 | The iterator wraps at the end and keeps the number of required fields before it. |
| `PbDecode.IterFind` | BetweenUS/Pods/nanopb/pb_common.c:87-104 | One turn round the descriptor finds the tag exactly when it is there. |
| `PbDecode.NarrowRoundTrip` | BetweenUS/Pods/nanopb/pb_decode.c:1345-1428 | Every number in a field's range survives widening, zigzag and checked narrowing. |
| `PbDecode.NarrowExactly` | BetweenUS/Pods/nanopb/pb_decode.c:1345-1428 | For every 64-bit input: the checked conversion gives n exactly when n is in the field's range and the input is n, its zigzag code, or n modulo 2^64 (for signed fields below eight bytes modulo 2^32). |
| `PbDecode.AllSeenExactly` | BetweenUS/Pods/nanopb/pb_decode.c:1057-1078 | The word-by-word test passes if and only if every one of the first 64 required fields was seen. |
| `PbDecode.DecodeBlob` | BetweenUS/Pods/nanopb/pb_decode.c:1447-1570 | A byte string, string or fixed byte string that fits its storage is read back. |
| `PbDecode.OpenSubstream` | BetweenUS/Pods/nanopb/pb_decode.c:372-400 | The substream holds exactly the delimited bytes and the parent is left after them. |
| `PbDecode.SkipField` | BetweenUS/Pods/nanopb/pb_decode.c:321-331 | A varint, eight bytes, a length and that many bytes, or four bytes, followed by anything: skipping by the literal type leaves exactly what follows; any other type is an error. |
| `PbDecode.DecodeItems` | BetweenUS/Pods/nanopb/pb_decode.c:436-453 | A packed array within its limit is read back entry by entry. |
| `PbDecode.DecodeField` | BetweenUS/Pods/nanopb/pb_decode.c:406-483 | The next field of a written message, or the next entry of a repeated one, joins the message and changes no other field; a oneof clears its siblings. On any input what is stored stays within the storage of its field. |
| `PbDecode.DecodeMessage` | BetweenUS/Pods/nanopb/pb_decode.c:934-1082 | The wire form of a storable message of any descriptor, decoded with a descriptor that has some of its fields, restores exactly those, skipping the others. On any input, success means that every required field, of the first 64, was decoded, and that every array, string and number stays within its storage, at every depth. |
| `PbDecode.DecodeSome` | BetweenUS/Pods/nanopb/pb_decode.c:985-1000 | Encoding a message and decoding it with a descriptor of some of its fields gives those fields. |
| `PbDecode.DecodeAnything` | BetweenUS/Pods/nanopb/pb_decode.c:1084-1096 | Whatever the bytes, a decoded message has its required fields, of the first 64, stays within its storage, and has at most one member of each oneof. |
| `PbDecode.RoundTrip` | BetweenUS/Pods/nanopb/pb_decode.c:1084-1096 | For every valid descriptor and storable message, encoding into a buffer that is large enough and decoding gives back the message, recursively. |

## Left out

- The application's own Swift code, and the Firebase, SnapKit and Combine layers: no core to prove.
- User keys in the engine, the iterators and the skip list are real numbers, the place of a key in the comparator's order; `Bytewise.RankEmbeds` embeds the default comparator.
- Sequence numbers stay below the maximum and all internal keys parse, as the source assumes.
- Database.DBImpl.PickCompaction: does not choose by score or seek count; the level and file come from the caller, byte limits are a boolean.
- CompactionInputs.PickInputs: takes the first file as given, not by score, seek count or compaction pointer.
- CompactionInputs.GrowInputs: takes the byte limit of the expansion as a boolean.
- CompactionInputs.SetupOtherInputs: leaves out the grandparents, which only choose where outputs are cut, and the compaction pointer; the byte limit is a boolean.
- Database.DBImpl.Write: takes one batch at a time; grouping is `GroupCommit`, logging is `Log`.
- Database.DBImpl.SwitchMemTable: leaves out the new log file.
- Database.InsertEntry: inserts into a sorted list, not into the skip list, which is `SkipList`.
- Database.MergeInputs: sorts the rows of the inputs by insertion, not by the merging iterator, which is `Merger`.
- Engine.MemGet: scans a sorted list, not the skip list.
- Version.TableGet: scans the rows of a table; index, filter and block search are `Table` and `Block`.
- CompactionMerge.DoCompactionWork: does not model byte limits; where an output file is cut is a parameter, and keys that do not parse are not modelled; the flush inside the loop is the engine's flush step.
- Manifest.VersionSet.LogAndApply: leaves out what a failed write leaves behind in the manifest file, and the CURRENT file; `Manifest.ReopenTorn` is about a file cut anywhere.
- Manifest.VersionSet.Recover: takes the bytes of records that were stored, each below 4 GiB; decoding anything else is `VersionEdit.DecodeFrom`. A stored file entry stands for a table through a function, as the engine's files are tables with their rows. Reusing the old manifest file is left out.
- Manifest.VersionBuilder.Apply: takes edits that do not bring back a number the level knows; the code would keep both files. `Builder.OneMoreEdit` says what such an edit changes.
- Log.Reader.ReadRecord: models initial offset 0 only; the checksum is a function parameter, so the result holds for CRC32C and any other.
- Coding.CrcExtendAppend: models CRC32C (section 12.1 of RFC 3720) a bit at a time, not the table-driven loop.
- Table.TableBuilder.Add: takes the size of a block and the moment it is full as parameters, and a stored block as its rows; block bytes are `Block`, compression is left out.
- Table.TableBuilder.Finish: speaks of filters only while the filter data is below 4 GiB, beyond which the 32-bit offsets in the source wrap. Metaindex and footer are left out.
- Table.TableBuilder.Flush: leaves out block bytes (`TableBytes`), trailer and compression.
- Table.InternalGet: takes a stored block as its rows; `TableBytes.GetFromBytes` is the lookup over bytes.
- Block.Iter.Seek: speaks of finished blocks only, on which it never takes a corruption branch; other bytes are left out.
- Block.Iter.ParseNextKey: speaks of finished blocks only, in the same way.
- Bloom.CreateFilter: takes the hash function and the number of probes as parameters.
- SkipListRuns.RunAnswers: models every load and store as one sequentially consistent step; nodes are named by their keys, so the arena and the random height are left out. Nodes as heap objects are not modelled.
- LruCache.LRUCache.Insert: models one shard; the two circular lists are sequences, and sharding by hash is left out.
- HandleTable.HandleTable.Insert: models a chain as a sequence, not as linked handles, and the bucket mask as a remainder.
- FileCollection.RunDeletesNothingNeeded: models table files; log files are in `Durability`, manifest and temporary files are left out, as is their listing by name.
- GroupCommit.RunIsOneByOne: leaves MakeRoomForWrite to choose between leaving alone and going on; the waiting and signalling of threads is the order of steps.
- PbDecode.RoundTrip: messages below 4 GiB, since lengths are 32-bit on the wire; no callbacks, extensions, pointer fields or fixed-count arrays.
- PbEncode.EncodeMessage: a message is a value with one slot a field; struct offsets, padding and user-set default values of absent fields are not modelled.
- Recovery.RecoverLogFile: leaves out the size of a memtable, whose limit is a parameter; what of a batch that fails in the middle was inserted before is kept, and not described.
- Durability.OpenAfterCrash: leaves out the CURRENT file, the test for missing tables, and the last sequence number of the manifest; a log record whose write failed is not modelled.
- Durability.NextKeepsInv: takes a compaction as a manifest record after which the tables answer as before; when that holds is `CompactionMerge.DropsInvisibleExactly`.
- Repair, the environment, statistics and approximate sizes: input and output, or no correctness content.
