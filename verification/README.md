# Verified models of the storage engine, chunker and deduplication prototype

A Dafny 4.11 model of the code that this repository stores and deduplicates data with, and proofs
of what that code is for:

- the bundled LevelDB (`util/leveldb`): the log-structured merge engine as a refinement of a flat
  multi-version map, its iterators, its write path with the write-ahead log, its manifest, its
  table and block formats, its skip list and its block cache;
- `util/fs-hasher`: the rolling fingerprint, content-defined chunking through a sliding window, and
  the red-black tree;
- `prototype`: the deduplication prototype with its fingerprint cache, Bloom filter, fingerprint
  index and container store.

`dafny verify dfyconfig.toml` checks the whole project.

## How the models are built

Objects that the source updates in place are classes, loops are loops with invariants, and every
such method is tied to a function or predicate over plain values about which the lemmas speak.
Linked structures (red-black tree, skip list, cache lists) live in an explicit memory: a map from
addresses to the fields of the node there, with 0 for NULL or for the list's dummy head. Every
pointer assignment of the source is an update of that memory, so aliasing is decided by addresses.

- **Engine.** `History` is the specification: a set of (user key, sequence, value or deletion)
  entries, read at a sequence number. `Versions`, `Inputs`, `Edits`, `Compactions`, `Cuts`,
  `UncutLevels`, `OutputCuts`, `CompactionJob`, `LevelIterators`, `CompactionInputs`, `Installs`, `Flushes`,
  `Moves`, `Stores`, `Layers` and `Lookups` model lookup, input selection, manifest edits, compaction and installation;
  `Engine.DB` puts them together. Its invariant contains the refinement, so `Get` answers as the
  history does. Each step either keeps the invariant or, for compactions and moves, keeps it if and
  only if a stated condition holds. `Iteration`, `Merger` and `DbIter` do the same for iterators.
- **Durability.** `Manifests` records the edits, `Ledgers` says what a store is for (groups of
  operations in order of commit, of which a crash may take the last ones of each log that are neither
  synced nor flushed), and `Durability.Run` proves that any sequence of commits, flushes, snapshots,
  compactions, crashes and recoveries stays a store of its ledger.
- **Write path.** `WriteBatches`, `GroupCommit`, `LogFormat`, `LogWriter`, `LogScan`, `LogReader`, `LogDamage` over the
  codecs in `Coding` and `Varints`; ends in crash atomicity of whole write groups, and in the locality of
  damage to a log.
- **Tables.** `BlockFormat`, `BlockBuilder`, `BlockIter`, `Bytewise`, `BloomPolicy`,
  `FilterBlock`, `Tables`, `TableBuilder`; and `EditCodec` for manifest records.
- **Structures.** `SkipList`, `Ring`, `HandleTable`, `LruCache`, and `RbTrees`, `RbMemory`,
  `RbInsert`, `RbErase`, `RbRemove`, `RbWalk`.
- **Chunking and deduplication.** `Rabin`, `Chunking`, `Fingerprints`, `BloomFilter`,
  `LruFingerprints`, `Recency`, `Dedup`.

Parameters stand for what the code does not decide: hash functions, the contents of memory behind a
string, the skip list's random height,
the tests for cutting a compaction output, what the file system answers, and the interleaving of writers
with the leader of a group.

## Where the code does not keep a promise

- **User keys cut in two by a level.** Compaction outputs may be cut between two versions of one
  user key, and nothing makes a later compaction of that level take both files
  (`util/leveldb/db/db_impl.cc:929-935`, `997-1003`; `util/leveldb/db/version_set.cc:1296-1307`,
  `1416-1427`). The comment that entries never hop across levels
  (`util/leveldb/db/version_set.cc:337`) is then false: `Straddling.StraddleServesStale` and
  `Straddling.StraddleRevives` show an outdated value and a deleted one coming back, and
  `Straddling.MovedCutIsStale` a whole store whose latest read is wrong.
  - For inputs as the code selects them, `Stores.CompactKeepsInv` and `Stores.MoveKeepsInv` state
    when the invariant is kept, both ways. The condition concerns only a user key cut at the end of
    an input run and is told from the files before the call (`Cuts.UncoversIff`, `Cuts.AgeKeptIff`),
    so input runs that end in no cut are always safe (`Stores.UncutInputsAreSafe`).
  - A broken invariant need not show in a live read (`Straddling.MaskedCutDoesNotShow`).
    `Lookups.CompactLookups` and `Lookups.MoveLookups` state when lookups at the oldest snapshot or
    later still find the newest entry, and then when they answer as the history, both ways.
  - Flushes, moves and compactions without live snapshots never cut a key
    (`Stores.CompactKeepsUncut`), so that a store without snapshots never gets there
    (`Durability.Run`).
- **Which updates a machine crash takes.** The documentation says the last few
  (`util/leveldb/doc/index.html:117-119`). Starting a new log does not sync the one before
  (`util/leveldb/db/db_impl.cc:1353-1374`), so a crash can take groups of the closed memtable's log
  and leave later ones of the open log, even synced ones: `Ledgers.EarlierGroupIsLost` is such a run.
  Every crash takes the last groups only if and only if the closed log is synced to its end or the
  open one is empty (`Ledgers.LossIsFromTheEnd`); `Durability.CrashAndReopen` covers both cases.
- **Equal minimum and maximum chunk size.** The matcher's last case split is not exhaustive
  (`util/fs-hasher/fs-hasher.c:505-515`): with a first window that does not end below the maximum it
  falls out of it exactly if the buffer is longer than that window and the window does not match
  (`Rabin.RabinMatch`; `Rabin.EqualSizesOverrun` is an input). With a window wider than the minimum
  it reads behind a buffer that reaches the minimum but not the window.
- **Read windows smaller than a chunk.** A method that finds no chunk in a full window asks for the
  same window again (`util/fs-hasher/fs-hasher.c:1274-1298`). `Chunking.Hasher.ProcessFile` states
  exactly when a file is processed to its end.
- **`VersionEdit::Clear` keeps compaction pointers** (`util/leveldb/db/version_edit.cc:26-39`), so
  decoding into a used edit appends to them; decoding inverts encoding on a fresh edit
  (`EditCodec.EditRoundTrip` states both).
- **Fingerprints with zero bytes.** The prototype's cache compares with `strncmp` inside a hash
  bucket (`prototype/lrucache.cc:195`), and a container file is written from a C string whose bytes
  are then read to full length (`prototype/container_manager.cc:57-60`), so that the bytes behind a
  zero are whatever memory holds. A lookup is exact if and only if no other cached key is the same
  string in the same bucket (`LruFingerprints.FindIsExact`); with the two fingerprints of
  `Dedup.CollidingKeyIsLost` the chunks A, A, B never store B. Over all runs and memory contents,
  deduplication is exact if and only if no two fingerprints are the same string
  (`Dedup.ExactIffSeparate`).
- **Restart of the fingerprint cache.** Reloading reverses the order of use
  (`prototype/lrucache.cc:13-48`), so only the set of keys survives (`Dedup.Ddfs.StartRun`).

## Model

| member | source | states |
|---|---|---|
| Keys.CompareIsLess | util/leveldb/db/dbformat.cc:50-66 | Comparing packed trailers is a total order: earlier user key, then newer write, then value before deletion; equal only for equal keys |
| Keys.PackParts | util/leveldb/db/dbformat.cc:12-16 | A packed trailer has the kind in its lowest byte and the sequence number above |
| Keys.SeekIndex | util/leveldb/db/skiplist.h:225-227 | Seek in a sorted run stops at the first entry not below the target |
| History.NewestExists | util/leveldb/db/db_impl.cc:1108-1153 | With distinct sequence numbers every read at a snapshot has an answer: the newest visible entry, or none if nothing is visible |
| History.FoundIsFind | util/leveldb/db/db_impl.cc:1108-1153 | That answer is unique |
| History.DropKeepsReads | util/leveldb/db/db_impl.cc:954-968 | Dropping shadowed entries and old deletions changes no read at the oldest snapshot or later if and only if no dropped deletion was the newest entry of its key there over a value that stays |
| History.NewerWritesKeepReads | util/leveldb/db/db_impl.cc:1174-1177 | Writes with higher sequence numbers leave reads at an older snapshot as they were |
| Versions.TableGetFindsNewest | util/leveldb/db/memtable.cc:108-143 | Seeking to the lookup key in a sorted table and checking the user key finds its newest visible entry, or shows there is none |
| Versions.FindFile | util/leveldb/db/version_set.cc:77-96 | The binary search returns the first file whose largest key is not below the key: all files before it end below, all from it on do not |
| Versions.LevelGet | util/leveldb/db/version_set.cc:364-381 | In a sorted level the one file found by binary search answers for the whole level |
| Versions.LevelZeroCandidates | util/leveldb/db/version_set.cc:348-363 | Exactly the level-zero files whose user-key range holds the key, newest file number first |
| Versions.LevelZeroGet | util/leveldb/db/version_set.cc:348-363 | Trying the candidates newest first and stopping at the first hit answers for all of level zero |
| Versions.NewestCandidateWins | util/leveldb/db/version_set.cc:274-276 | If the newer candidates hold nothing visible, the newest visible entry of the next one is the newest of level zero |
| Versions.FirstHitWins | util/leveldb/db/version_set.cc:337-342 | A hit in the first level that has one is the newest of the whole version, because for one user key earlier levels are newer |
| Versions.NoHitAnywhere | util/leveldb/db/version_set.cc:342-420 | If no level holds a visible entry, the version holds none |
| Versions.VersionGet | util/leveldb/db/version_set.cc:323-420 | Lookup level by level returns the newest visible entry of the first level that has one, and if earlier levels are newer the globally newest one, or none |
| Inputs.SomeFileOverlapsRange | util/leveldb/db/version_set.cc:112-147 | True exactly if some file meets the user-key range, for scanned and for binary-searched levels and for open ranges |
| Inputs.GetOverlappingInputs | util/leveldb/db/version_set.cc:522-563 | The files that meet the range it ends with; below level zero that is the given range, at level zero the restarting scan terminates with the least range around it that no file straddles |
| Inputs.OverlappingGrows | util/leveldb/db/version_set.cc:1359-1361 | A wider range meets at least as many files, and equally many only if they are the same |
| Inputs.PickLevelForMemTableOutput | util/leveldb/db/version_set.cc:493-519 | The deepest level, up to the second, that the table can go down to with no file sharing a user key with it in any level down to there and, on every step, at most the allowed number of bytes meeting it two levels down; level zero if some file there meets it |
| Inputs.PickIsDeepest | util/leveldb/db/version_set.cc:493-519 | Stopping at the first step that is not allowed stops at the deepest level that can be reached |
| Inputs.OverlapsIff | util/leveldb/db/version_set.cc:98-110 | A file overlaps a range if and only if some user key lies between the ends of both |
| Inputs.MeetingBytesAre | util/leveldb/db/version_set.cc:509-514 | The files found for a range add up to the bytes of the files that meet it, counted one by one |
| Inputs.GetRange | util/leveldb/db/version_set.cc:1214-1234 | The smallest smallest key and the largest largest key of the files |
| Inputs.RangeIsUnique | util/leveldb/db/version_set.cc:1214-1234 | A set of files has one range only |
| Inputs.SpanCovers | util/leveldb/db/version_set.cc:1239-1246 | The range of more files covers the range of fewer |
| Edits.Builder.constructor | util/leveldb/db/version_set.cc:623-632 | A builder over a base version starts with no change at any level |
| Edits.Builder.DeleteFiles | util/leveldb/db/version_set.cc:664-672 | Deletions of an edit are added to the deleted numbers of their own level |
| Edits.Builder.Apply | util/leveldb/db/version_set.cc:656-699 | Applying an edit turns the state of every level into what the edit makes of it |
| Edits.SaveFiles | util/leveldb/db/version_set.cc:702-730 | Merging the sorted added files into the base, without the deleted numbers, gives the live files of the merge |
| Edits.Builder.SaveTo | util/leveldb/db/version_set.cc:702-763 | What a builder saves for a level is its base merged with the live added files |
| Edits.SavedIsOrdered | util/leveldb/db/version_set.cc:702-748 | A saved level is ordered by smallest key and number |
| Edits.OrderedIsUnique | util/leveldb/db/version_set.cc:597-609 | An ordered file list is determined by its set of files |
| Edits.ReplayInvariant | util/leveldb/db/version_set.cc:930-973 | After any edits through one builder, its live files are those of building a version after each edit |
| Edits.ReplayEqualsStepwise | util/leveldb/db/version_set.cc:896-1005 | Recovering a manifest through one builder gives, level by level, the version that was current when it was closed, provided no edit adds a number the level has held before |
| Compactions.KeptMembers | util/leveldb/db/db_impl.cc:937-971 | The kept entries are exactly the input entries to which neither drop rule applies |
| Compactions.KeptIsSorted | util/leveldb/db/db_impl.cc:937-1007 | The kept entries stay sorted |
| Compactions.KeptIsRest | util/leveldb/db/db_impl.cc:937-1007 | Kept and dropped entries together are the input |
| Compactions.KeptIff | util/leveldb/db/db_impl.cc:937-971 | An input entry is kept if and only if every newer input entry of its user key is above the oldest snapshot, and it is not a deletion at or below it whose key lies between the ends of no file two or more levels down |
| Compactions.KeptIsLean | util/leveldb/db/db_impl.cc:937-971 | Under any snapshots, of one user key at most one kept entry is at or below the oldest, and every kept deletion there has such a file further down |
| Compactions.DropsAreExplained | util/leveldb/db/db_impl.cc:954-968 | For inputs as the code selects them, an entry dropped by either rule is shadowed for every live read, or it is an old deletion with no file two or more levels down covering its key |
| Compactions.CompactionKeepsReads | util/leveldb/db/db_impl.cc:886-1007 | For inputs as the code selects them, replacing them by the kept entries changes no read at the oldest snapshot or later, over the whole store, if and only if no dropped deletion was hiding a value that stays |
| Compactions.InstalledIsValid | util/leveldb/db/db_impl.cc:865-884 | The version with the outputs installed has valid files and sorted, disjoint levels |
| Compactions.InstalledKeepsAge | util/leveldb/db/db_impl.cc:865-884 | Installing keeps earlier levels newer for every user key if and only if what stays in the upper level is newer than what comes down from it |
| Compactions.InstalledContents | util/leveldb/db/db_impl.cc:865-884 | The version loses the entries of the inputs and gains those of the outputs, nothing else |
| Compactions.OneFilePerEntry | util/leveldb/db/version_set.cc:337-339 | An entry is in one file of a version only |
| Compactions.ClosedLeavesNoOlder | util/leveldb/db/version_set.cc:1319-1328 | A level-zero input set closed under overlap leaves nothing older behind |
| Cuts.OverlappingIsRun | util/leveldb/db/version_set.cc:522-563 | In a sorted level the files that meet a range are a contiguous run, or none |
| Cuts.RunLeavesNoOlder | util/leveldb/db/version_set.cc:1296-1307 | In a sorted level a run of files leaves nothing older behind if and only if the file after it does not start with the user key the run ends with |
| Cuts.StraddleLeavesOlder | util/leveldb/db/version_set.cc:1416-1427 | A run that cuts a user key does leave an older entry behind |
| Cuts.ChosenLeaveNoOlder | util/leveldb/db/version_set.cc:1281-1400 | Inputs as the code selects them leave nothing older behind in their two levels if and only if neither run ends in a cut; at level zero they never do |
| Cuts.UncoveredIsCut | util/leveldb/db/version_set.cc:1472-1491 | A compaction can bring a deleted value back only for a user key that is cut at the end of one of its input runs |
| Cuts.UncoversIff | util/leveldb/db/db_impl.cc:954-968 | A dropped deletion uncovers a value if and only if, for a user key cut at the end of a run, the newest entry at the oldest snapshot is an input deletion that the second rule drops and the newest entry that stays in the two levels is a value |
| Cuts.OlderKeptIsBehind | util/leveldb/db/version_set.cc:1472-1491 | Below a deletion at its base level, everything older that is kept stays in the two levels of the compaction |
| Cuts.GoneIffMarker | util/leveldb/db/db_impl.cc:954-968 | All versions of a user key are dropped if and only if the second rule drops the newest of them |
| Cuts.AgeKeptIff | util/leveldb/db/db_impl.cc:937-1007 | What comes down is older than what stays if and only if the upper run ends in no cut or the key it cuts is dropped altogether |
| UncutLevels.UncutIsApart | util/leveldb/db/db_impl.cc:997-1003 | No two neighbours of a sorted level share a user key if and only if no two files of it do |
| UncutLevels.FlushedIsUncut | util/leveldb/db/version_set.cc:493-519 | A flush cuts no user key |
| UncutLevels.InstalledIsUncut | util/leveldb/db/db_impl.cc:865-884 | Installing outputs that are not cut between two versions of a user key leaves no level cut |
| UncutLevels.OneVersionIsKept | util/leveldb/db/db_impl.cc:954-957 | If no input is newer than the oldest snapshot, one version of each user key is kept at most |
| CompactionJob.ChooseInputs | util/leveldb/db/version_set.cc:1335-1378 | The next level contributes exactly the files that meet the inputs; the expansion is adopted if and only if it has more files, fits the byte limit and needs the same next-level files; the pointer is the end of the range |
| CompactionJob.EqualSizeIsEqual | util/leveldb/db/version_set.cc:1359-1361 | Equal numbers of next-level files before and after expanding mean the same files |
| CompactionJob.Expand | util/leveldb/db/version_set.cc:1342-1350 | The expansion is what the overlap query finds for the range of all inputs, it contains the inputs, and it is closed under overlap at level zero and a contiguous run below |
| CompactionJob.FindGrandparents | util/leveldb/db/version_set.cc:1380-1385 | The files two levels down that meet the range of all inputs; none if there is no such level |
| CompactionJob.Compaction.constructor | util/leveldb/db/version_set.cc:1437-1447 | A compaction starts with its picked files and all level pointers at zero |
| CompactionJob.Compaction.SetupOtherInputs | util/leveldb/db/version_set.cc:1335-1400 | Sets inputs and grandparents as chosen, and returns the new compaction pointer |
| CompactionJob.MoveIff | util/leveldb/db/version_set.cc:1455-1462 | For inputs and grandparents as selected, a compaction is a move if and only if its input is one file that shares no user key with a file of the next level and meets at most the allowed number of bytes in the level after that |
| CompactionJob.PointerDecides | util/leveldb/db/version_set.cc:1472-1491 | A level pointer standing at a file that begins after the key shows that no file of the level holds it |
| CompactionJob.Compaction.IsBaseLevelForKey | util/leveldb/db/version_set.cc:1472-1491 | Over nondecreasing queries the moving pointers answer the plain question: no file two or more levels down covers the key |
| CompactionJob.Compaction.ShouldDrop | util/leveldb/db/db_impl.cc:937-971 | Drops exactly if the previous entry of the key is old enough, or it is an old deletion at its base level; Compactions.KeptIff says over entries and files what that keeps |
| CompactionJob.Compaction.DoCompactionWork | util/leveldb/db/db_impl.cc:886-1007 | The outputs, in order, hold exactly the kept entries, and none is empty; one ends exactly where it is big enough or the input comes before which to stop. Of one user key at most one entry is at or below the oldest snapshot, and no deletion is there unless a file two or more levels down has its key between its ends |
| OutputCuts.StopCuts | util/leveldb/db/db_impl.cc:929-935 | Stopping before an input leaves everything so far before it, and ends the file there |
| OutputCuts.AddKeepsCuts | util/leveldb/db/db_impl.cc:982-1004 | An entry goes into the file being built if that is not big enough and no stop came since its first entry, and otherwise starts the next |
| LevelIterators.LevelEntriesSorted | util/leveldb/db/version_set.cc:217-223 | The entries of a sorted level, file after file, are sorted |
| LevelIterators.FileChildrenApart | util/leveldb/db/version_set.cc:225-232 | The files of level zero are sorted children with distinct keys that hold exactly its entries |
| LevelIterators.MergedElements | util/leveldb/db/version_set.cc:225-242 | The union has the entries of its children |
| CompactionInputs.OverlappingIsOrdered | util/leveldb/db/version_set.cc:522-563 | An overlap query keeps the order of the files |
| CompactionInputs.InputsAreChildren | util/leveldb/db/version_set.cc:1248-1279 | For inputs as the code selects them, the children of the compaction's merging iterator are sorted, share no key, and hold exactly the entries of both input levels |
| CompactionInputs.Drain | util/leveldb/db/db_impl.cc:913-1007 | Reading a merging iterator from its first entry until it is invalid yields the sorted union of its children |
| CompactionInputs.MergeInputs | util/leveldb/db/version_set.cc:1248-1279 | What the loop of a compaction reads is the sorted sequence of exactly the entries of its inputs |
| Installs.ApplyToVersion | util/leveldb/db/version_set.cc:826-831 | Every level of the new version is what one builder saves for it |
| Installs.CompactionInstalls | util/leveldb/db/db_impl.cc:865-884 | The edit of a compaction takes exactly the inputs out and puts exactly the outputs in, and touches no other level |
| Flushes.FlushInstalls | util/leveldb/db/db_impl.cc:487-531 | The edit of a flush adds exactly the new file to the picked level |
| Flushes.FlushKeepsVersion | util/leveldb/db/db_impl.cc:515-524 | After a flush levels are still sorted and disjoint and level zero numbered by age |
| Flushes.FlushKeepsAge | util/leveldb/db/version_set.cc:493-519 | A flush to the picked level keeps earlier levels newer for every user key |
| Flushes.FlushKeepsNumbers | util/leveldb/db/db_impl.cc:487-531 | File numbers stay below the next one and name one file |
| Flushes.FlushedContents | util/leveldb/db/db_impl.cc:533-560 | The version gains exactly the entries of the memtable |
| Moves.MoveInstalls | util/leveldb/db/db_impl.cc:716-734 | A trivial move takes the file out of its level and puts it into the next |
| Moves.MoveKeepsAge | util/leveldb/db/db_impl.cc:716-734 | A trivial move keeps earlier levels newer if and only if it leaves nothing older behind |
| Moves.MoveKeepsAgeIffNoStraddle | util/leveldb/db/version_set.cc:1455-1462 | Below level zero this holds if and only if the next file of the level does not start with the user key the moved file ends with |
| Moves.MovedNumbers | util/leveldb/db/db_impl.cc:716-734 | After a move file numbers still name one file of the version |
| Manifests.RecordStep | util/leveldb/db/version_set.cc:811-894 | If an edit gives a level only files with new numbers or files from the level above, the manifest with it added leads from the empty version to the new one, and still no level has been given a number twice |
| Manifests.FlushIsTidy | util/leveldb/db/db_impl.cc:487-531 | The edit of a flush is of this kind |
| Manifests.CompactionIsTidy | util/leveldb/db/db_impl.cc:865-884 | The edits of compactions with new output numbers and of trivial moves are of this kind |
| Manifests.RecoverVersion | util/leveldb/db/version_set.cc:896-1005 | Replaying a recorded manifest through one builder gives back the version that was current, whatever flushes, moves and compactions it went through |
| Stores.LayersCompose | util/leveldb/db/db_impl.cc:1133-1142 | If one layer is newer for every user key, its hit answers for both, and otherwise the older layer does |
| Stores.GetIsRead | util/leveldb/db/db_impl.cc:1108-1153 | In a good state the newest stored entry answers as the full history does, at the latest sequence and at every live snapshot |
| Stores.WriteKeepsInv | util/leveldb/db/db_impl.cc:1212-1244 | Adding one entry with the next sequence number keeps the invariant |
| Stores.SwitchKeepsInv | util/leveldb/db/db_impl.cc:1353-1374 | Turning the memtable into the immutable one keeps the invariant and the stored entries |
| Stores.SnapshotKeepsInv | util/leveldb/db/snapshot.h:42-51 | Appending the latest sequence keeps the snapshot list ordered |
| Stores.ReleaseKeepsInv | util/leveldb/db/snapshot.h:53-58 | Releasing any snapshot keeps the list ordered, so its head is the oldest live one |
| Stores.VersionSwapKeepsInv | util/leveldb/db/version_set.cc:794-809 | A version with no new entries may become current if and only if its levels are ordered by age and it answers every live read alike |
| Stores.FlushKeepsInv | util/leveldb/db/db_impl.cc:533-560 | Flushing to a free level keeps the invariant, installs exactly that table and cuts no user key |
| Stores.CompactKeepsInv | util/leveldb/db/db_impl.cc:865-1007 | A whole compaction of inputs as the code selects them keeps the invariant if and only if it is safe: a key cut at the end of the upper run is dropped altogether, and of no key cut at the end of a run does a dropped deletion, newest at the oldest snapshot, leave a value newest among what stays |
| Stores.CompactionReplaces | util/leveldb/db/db_impl.cc:865-1007 | The files put in hold the entries of the inputs except the dropped ones |
| Stores.UncutInputsAreSafe | util/leveldb/db/version_set.cc:1335-1400 | A compaction whose input runs end in no cut is safe |
| Stores.UncutStoreIsSafe | util/leveldb/db/version_set.cc:1281-1333 | In a store no level of which is cut, every compaction is safe |
| Stores.CompactKeepsUncut | util/leveldb/db/db_impl.cc:886-1007 | Without live snapshots no output is cut wherever the files end, and uncut outputs leave no level cut |
| Stores.MoveKeepsInv | util/leveldb/db/db_impl.cc:716-734 | A trivial move keeps the invariant if and only if it is from level zero or does not end in a cut; it cuts no level |
| Stores.LaterKeepsInv | util/leveldb/db/db_impl.cc:357-359 | Sequence numbers may be skipped |
| Layers.FirstHitIsNewest | util/leveldb/db/db_impl.cc:1133-1142 | If layers are ordered by age, searching them in order and stopping at the first hit finds the newest entry of all |
| Layers.FindsNewestIff | util/leveldb/db/version_set.cc:337-420 | After entries have moved from one layer into the next, every search at a sequence or later finds the newest entry if and only if each entry that moved over an older one that stays is hidden by a newer one before it |
| Lookups.InstalledLookups | util/leveldb/db/version_set.cc:337-420 | After any installation, lookups at the oldest snapshot or later find the newest entry if and only if what comes down is older than what stays, or an entry outside the upper inputs and visible at the oldest snapshot is newer than their end |
| Lookups.AnswersIff | util/leveldb/db/db_impl.cc:1108-1153 | If lookups find the newest entry, they answer as the history if and only if the stored entries do |
| Lookups.CompactLookups | util/leveldb/db/db_impl.cc:865-1007 | For every compaction, when lookups still find the newest entry, and then when they answer as the history, both ways |
| Lookups.MoveLookups | util/leveldb/db/db_impl.cc:716-734 | For every trivial move, when lookups still find the newest entry, both ways; if they do, they answer as the history |
| Engine.DB.constructor | util/leveldb/db/db_impl.cc:116-145 | A new database is empty and refines the empty history |
| Engine.DB.Recovered | util/leveldb/db/db_impl.cc:303-307 | A version that refines a history makes a database of that history, with nothing in memory |
| Engine.DB.SetLastSequence | util/leveldb/db/db_impl.cc:357-359 | Only the last sequence number moves on |
| Engine.DB.Search | util/leveldb/db/db_impl.cc:1108-1153 | Memtable, immutable memtable, version: the newest entry of the first layer that has one, also in a state whose layers are not ordered by age |
| Engine.DB.Get | util/leveldb/db/db_impl.cc:1108-1153 | At the latest sequence and at live snapshots the answer is the read of the history of all writes |
| Engine.DB.Write | util/leveldb/db/db_impl.cc:1210-1245 | The history grows by exactly the batch, numbered from the next sequence number on |
| Engine.DB.WriteOne | util/leveldb/db/memtable.cc:82-106 | The history grows by exactly one entry |
| Engine.DB.SwitchMemTable | util/leveldb/db/db_impl.cc:1353-1374 | The full memtable becomes the immutable one; the history is untouched |
| Engine.DB.GetSnapshot | util/leveldb/db/db_impl.cc:1174-1177 | The snapshot is the latest sequence number and becomes live |
| Engine.DB.ReleaseSnapshot | util/leveldb/db/db_impl.cc:1179-1182 | Exactly that snapshot is no longer live |
| Engine.DB.CompactMemTable | util/leveldb/db/db_impl.cc:487-560 | The immutable memtable becomes one new file (no file if it is empty) of the deepest level of the old version that its first to last user key can go down to, or of level zero during recovery; the edit leads from the old version to the new one; the history is untouched and no level is cut |
| Engine.PullIn | util/leveldb/db/version_set.cc:1319-1328 | At level zero the least closed range around the chosen file decides which files come along |
| Engine.PickIsGood | util/leveldb/db/version_set.cc:1296-1328 | Such a pick contains the chosen file and is closed under overlap at level zero and a run below |
| Engine.DB.NextFile | util/leveldb/db/version_set.cc:1296-1307 | The first file whose largest key is above the compaction pointer of the level; the first of all if the pointer is not set or there is none |
| Engine.FitSize | util/leveldb/db/version_set.cc:1416-1427 | The shortest prefix of the files with a file's worth of bytes, or all of them |
| Engine.DB.CompactRange | util/leveldb/db/version_set.cc:1402-1435 | No compaction exactly if no file meets the range; otherwise one with the best inputs, its grandparents and the new pointer, that starts from all of them at level zero, or from the first of them up to a file's worth of bytes below |
| Engine.DB.PickCompaction | util/leveldb/db/version_set.cc:1281-1333 | The pick of the chosen file, the next-level files it meets, the expansion if and only if it pays, the grandparents, and the pointer at the end of the inputs |
| Engine.InstallOutputs | util/leveldb/db/db_impl.cc:865-884 | The new version is the current one with the compaction edit applied |
| Engine.DB.RunCompaction | util/leveldb/db/db_impl.cc:685-768 | For every choice of inputs that the code makes: a trivial move moves its file, otherwise the inputs are replaced by files with their kept entries. The invariant is kept if and only if the compaction is safe, and always if no level is cut; then none is cut afterwards if the outputs are not, as they never are without snapshots. Lookups at the oldest snapshot or later find the newest entry if and only if no cut key moves over its older half or something newer masks it, and then answer as the history if and only if nothing is brought back |
| Straddling.StraddleServesStale | util/leveldb/db/version_set.cc:1455-1462 | Every trivial move across a cut user key makes the level-by-level search return an outdated entry at some sequence |
| Straddling.MovedCutIsStale | util/leveldb/db/version_set.cc:1455-1462 | A concrete store without snapshots: after a trivial move the lookup at the latest sequence number returns a deleted value |
| Straddling.MaskedCutDoesNotShow | util/leveldb/db/version_set.cc:1455-1462 | The same store with a newer entry of the key in its memtable: the move breaks the invariant, and every lookup at the oldest snapshot or later still answers as the history |
| Straddling.StraddleRevives | util/leveldb/db/db_impl.cc:929-935 | A concrete compaction of inputs as the code selects them, whose upper run ends in no cut and whose lower run ends in one: its drop rule removes a deletion and lets the deleted value be read again |
| Ledgers.LatestIsValue | util/leveldb/db/db_impl.cc:1108-1153 | Reading the newest version of a key in a history of numbered groups gives what the last operation on the key says |
| Ledgers.SyncedStays | util/leveldb/include/leveldb/options.h:176-189 | A group committed with sync set survives whatever is called after it, crashes included |
| Ledgers.DoneStays | util/leveldb/db/db_impl.cc:533-560 | Groups that are in tables survive whatever is called |
| Ledgers.LossIsFromTheEnd | util/leveldb/db/db_impl.cc:1353-1374 | Every crash takes the last groups only, whatever it takes, if and only if the log of the closed memtable is synced to its end or nothing is in the open one |
| Ledgers.CrashLeavesSurvivors | util/leveldb/db/db_impl.cc:273-362 | What is left after a crash are exactly the groups of surviving positions, in order |
| Ledgers.LastLostIsPrefix | util/leveldb/doc/index.html:117-119 | If a crash takes the last groups only, what is left is a prefix of what was committed |
| Ledgers.EarlierGroupIsLost | util/leveldb/db/db_impl.cc:1353-1374 | A run of a new store that loses a group and keeps a later synced one: commit, switch the memtable, commit with sync, crash |
| Ledgers.NothingIsLost | util/leveldb/include/leveldb/options.h:176-189 | If no crash loses bytes of a log, as when only the process dies, the groups are those committed, in order |
| Durability.AddedKeepsReads | util/leveldb/db/db_impl.cc:406-446 | Adding the same newer entries to two sets that answer alike keeps them answering alike, at old sequence numbers too |
| Durability.FlushOnDisk | util/leveldb/db/db_impl.cc:533-560 | If the version alone refines the history up to the last flush, then after the flush it refines the history up to this one |
| Durability.SameKept | util/leveldb/db/db_impl.cc:899-903 | Which entries a compaction keeps does not depend on the oldest snapshot once it is past all inputs |
| Durability.CompactOnDisk | util/leveldb/db/db_impl.cc:865-1007 | A compaction whose input runs end in no cut also keeps the refinement by the version alone, down to the oldest snapshot |
| Durability.FlushKeepsDisk | util/leveldb/db/version_set.cc:811-894 | After a flush the manifest leads to the new version, and version and manifest alone are a store of all flushed groups |
| Durability.MoveKeepsDisk | util/leveldb/db/version_set.cc:811-894 | The same after a trivial move |
| Durability.CompactKeepsDisk | util/leveldb/db/version_set.cc:811-894 | The same after a compaction |
| Durability.FlushKeepsLogs | util/leveldb/db/db_impl.cc:548-552 | After a flush the open log alone holds what is not in the version, numbered without a gap |
| Durability.Durable.constructor | util/leveldb/db/db_impl.cc:1489-1530 | A new store has an empty ledger |
| Durability.Durable.Recovered | util/leveldb/db/db_impl.cc:303-307 | What a manifest describes is a valid store of the flushed groups, with empty logs |
| Durability.Durable.Commit | util/leveldb/db/db_impl.cc:1193-1264 | The ledger grows by the group; with sync set the groups of the open log are synced |
| Durability.Durable.Switch | util/leveldb/db/db_impl.cc:1353-1374 | The log so far becomes that of the closed memtable, with no more of it synced than before; nothing happens while one is waiting |
| Durability.Durable.Flush | util/leveldb/db/db_impl.cc:533-560 | The groups of the closed memtable are in tables, and its log is forgotten; outside recovery its table goes to the deepest level it can go down to |
| Durability.Durable.InstallCompaction | util/leveldb/db/db_impl.cc:685-768 | A compaction whose input runs end in no cut takes its inputs out of the version, keeps the store valid under any snapshots and leaves the ledger as it is; without snapshots it cuts no level |
| Durability.Durable.CompactLevel | util/leveldb/db/version_set.cc:1281-1333 | The file next to the level's pointer, with all inputs it needs, is compacted if they end in no cut; nothing happens if the level is empty |
| Durability.Durable.CompactSpan | util/leveldb/db/version_set.cc:1402-1435 | The same for the files that meet a range |
| Durability.InputsEndWhole | util/leveldb/db/version_set.cc:1281-1400 | Whether neither input run ends in a cut, found by looking at the file behind each |
| Durability.Durable.Lookup | util/leveldb/db/db_impl.cc:1108-1153 | Get at the latest sequence answers with the last operation on the key in the ledger |
| Durability.ReplayLog | util/leveldb/db/db_impl.cc:364-484 | Whenever memtables fill up, replaying a log ends with exactly its groups added and nothing left in memory |
| Durability.Reopen | util/leveldb/db/db_impl.cc:273-362 | Replaying the manifest and what is left of the two logs gives a valid store of exactly the flushed groups and those, with their sequence numbers, and the last sequence the larger of the recorded and the replayed one |
| Durability.CrashAndReopen | util/leveldb/db/db_impl.cc:273-362 | What is opened after a crash is a valid store of the groups that were in tables and of those left in the two logs, synced ones among them, and of nothing else |
| Durability.Run | util/leveldb/db/db_impl.cc:685-768 | After any sequence of commits, memtable switches, flushes, snapshots, compactions whose input runs end in no cut, crashes and recoveries the store is valid and holds exactly what the ledger says; without snapshots no level is ever cut |
| Durability.Perform | util/leveldb/db/db_impl.cc:685-768 | Each call does to the ledger, to the live snapshots and to the version what it is for: compactions replace the inputs that the code selects, flushes add the table, and nothing else changes the version |
| DbIter.YieldsIsRead | util/leveldb/db/db_iter.cc:173-203 | An entry that is shown is the result of reading its user key |
| DbIter.ReadIsYielded | util/leveldb/db/db_iter.cc:173-203 | Every user key with a value is shown |
| DbIter.YieldsAscend | util/leveldb/db/db_iter.cc:173-203 | At most one entry per user key is shown, in ascending order |
| DbIter.FindNextUserEntry | util/leveldb/db/db_iter.cc:173-203 | Stops at the first entry to show past the skipped key, and shows everything in between to be hidden |
| DbIter.FindPrevUserEntry | util/leveldb/db/db_iter.cc:232-272 | Decides for the last entry to show before a position and saves its key and value, with the inner cursor behind it |
| DbIter.Iter.constructor | util/leveldb/db/db_iter.cc:51-61 | A new iterator is not valid |
| DbIter.Iter.Key | util/leveldb/db/db_iter.cc:66-69 | The key under the cursor, in both directions |
| DbIter.Iter.CurrentValue | util/leveldb/db/db_iter.cc:70-73 | The value under the cursor, in both directions |
| DbIter.Iter.Next | util/leveldb/db/db_iter.cc:146-171 | Moves to the next entry to show, also after moving backwards |
| DbIter.Iter.Prev | util/leveldb/db/db_iter.cc:205-230 | Moves to the previous entry to show, also after moving forwards |
| DbIter.Iter.ScanBackFrom | util/leveldb/db/db_iter.cc:232-272 | Scanning back lands on the last entry to show before a position |
| DbIter.Iter.Seek | util/leveldb/db/db_iter.cc:274-286 | Lands on the first entry to show at or after the target |
| DbIter.Iter.SeekToFirst | util/leveldb/db/db_iter.cc:288-297 | Lands on the first entry to show |
| DbIter.Iter.SeekToLast | util/leveldb/db/db_iter.cc:299-304 | Lands on the last entry to show |
| Merger.MergedHolds | util/leveldb/table/merger.cc:16-25 | Every entry of a child is in the union |
| Merger.MergedOwner | util/leveldb/table/merger.cc:16-25 | Every entry of the union comes from a child |
| Merger.MergedSorted | util/leveldb/table/merger.cc:16-25 | The union of sorted children with distinct keys is sorted |
| Merger.FindSmallest | util/leveldb/table/merger.cc:155-168 | The child with the smallest current key, or none if all are exhausted |
| Merger.FindLargest | util/leveldb/table/merger.cc:170-183 | The child with the largest current key, or none |
| Merger.SmallestIsNext | util/leveldb/table/merger.cc:155-168 | With all children at their first entry from a point on, the smallest is the next entry of the union |
| Merger.LargestIsPrevious | util/leveldb/table/merger.cc:170-183 | With all children at their last entry up to a point, the largest is the previous entry of the union |
| Merger.StepForward | util/leveldb/table/merger.cc:81-82 | Moving the current child on keeps all children ahead of the next entry |
| Merger.StepBack | util/leveldb/table/merger.cc:110-111 | Moving the current child back keeps all children behind the previous entry |
| Merger.SeekChildren | util/leveldb/table/merger.cc:51-57 | Seeking every child puts all of them ahead of the target in the union |
| Merger.TurnForward | util/leveldb/table/merger.cc:62-79 | Turning forward puts every other child at its first entry after the current key |
| Merger.TurnBack | util/leveldb/table/merger.cc:88-108 | Turning back puts every other child at its last entry before the current key |
| Merger.MergingIterator.constructor | util/leveldb/table/merger.cc:16-25 | A new iterator stands nowhere |
| Merger.MergingIterator.SeekToFirst | util/leveldb/table/merger.cc:35-41 | Stands at the first entry of the sorted union |
| Merger.MergingIterator.SeekToLast | util/leveldb/table/merger.cc:43-49 | Stands at the last entry of the sorted union |
| Merger.MergingIterator.Seek | util/leveldb/table/merger.cc:51-57 | Stands at the first entry of the union not below the target |
| Merger.MergingIterator.Next | util/leveldb/table/merger.cc:59-83 | Moves one entry forward in the union, also after moving backwards |
| Merger.MergingIterator.Prev | util/leveldb/table/merger.cc:85-112 | Moves one entry back in the union, also after moving forwards; invalid before the first |
| Merger.MergingIterator.Key | util/leveldb/table/merger.cc:114-117 | The key of the union's entry at the cursor |
| Iteration.StoreChildren | util/leveldb/db/db_impl.cc:1066-1095 | Memtables, level-zero files and levels are sorted children with distinct keys that hold exactly the stored entries |
| Iteration.IterationShowsHistory | util/leveldb/db/db_impl.cc:1155-1165 | Iterating at a live sequence shows a key with a value if and only if reading the history there gives that value |
| Coding.LittleEndianRoundTrip | util/leveldb/util/coding.cc:9-33 | Reading fixed-width numbers undoes writing them |
| Coding.LittleEndianBits | util/leveldb/util/coding.cc:9-33 | Byte by byte, lowest first, a fixed-width number has the bits of the number |
| Coding.Fixed32RoundTrip | util/leveldb/util/coding.cc:9-18 | Fixed 32-bit words survive encoding |
| Coding.CrcFoldConcat | util/leveldb/util/crc32c.h:14-17 | Folding over a concatenation is folding over the parts in turn |
| Coding.ExtendConcat | util/leveldb/util/crc32c.h:14-22 | Extending the checksum of a string by another gives the checksum of their concatenation |
| Coding.CrcOfZeros | util/leveldb/util/crc32c_test.cc:13-18 | The checksum of 32 zero bytes is the one RFC 3720 gives in appendix B.4 |
| Coding.MaskRoundTrip | util/leveldb/util/crc32c.h:31-40 | Masking and unmasking a checksum are inverse to each other |
| Varints.EncodeVarint32 | util/leveldb/util/coding.cc:47-73 | The unrolled encoder writes seven bits per byte, low bits first |
| Varints.EncodeVarint64 | util/leveldb/util/coding.cc:81-90 | The looping encoder writes the same format |
| Varints.DecodeVarint | util/leveldb/util/coding.cc:112-158 | The decoder reads seven bits per byte up to its limit of bytes, modulo its width, and fails on anything longer or cut short |
| Varints.VarintRoundTrip | util/leveldb/util/coding.cc:47-158 | Reading a varint undoes writing it, whatever follows |
| Varints.VarintShape | util/leveldb/util/coding.cc:47-90 | Every byte has seven bits of the number, lowest first; its top bit says whether more follow, and none is there in vain |
| Varints.VarintIsStable | util/leveldb/util/coding.cc:112-158 | A varint that is complete is read the same when more bytes follow |
| Varints.Varint32RoundTrip | util/leveldb/util/coding.cc:112-141 | 32-bit varints survive encoding |
| Varints.Varint64RoundTrip | util/leveldb/util/coding.cc:143-170 | 64-bit varints survive encoding |
| Varints.PrefixedRoundTrip | util/leveldb/util/coding.cc:98-101 | Length-prefixed strings survive encoding |
| Varints.PrefixedIsStable | util/leveldb/util/coding.cc:172-192 | A complete length-prefixed string is read the same when more bytes follow |
| LogFormat.RecordsAppend | util/leveldb/db/log_writer.cc:36-82 | Appending a record to a log of records adds that record's fragments at the end |
| LogFormat.PhysicalLayout | util/leveldb/db/log_writer.cc:84-108 | Behind the checksum come two bytes of length, the kind (1 for a whole record, 2, 3 and 4 for its first, middle and last fragment) and the data |
| LogWriter.Writer.constructor | util/leveldb/db/log_writer.cc:22-31 | A writer on a file of given length knows its place in the block |
| LogWriter.Writer.SwitchBlock | util/leveldb/db/log_writer.cc:46-59 | The rest of a block too small for a header is zero-filled |
| LogWriter.Writer.EmitPhysicalRecord | util/leveldb/db/log_writer.cc:84-109 | Appends header and data and stays inside the block |
| LogWriter.Writer.AddFragment | util/leveldb/db/log_writer.cc:45-80 | One round writes a fragment; what is left continues the same record, and the loop terminates |
| LogWriter.Writer.AddRecord | util/leveldb/db/log_writer.cc:36-82 | The file grows by exactly the fragments of the record, none of which crosses a block |
| LogWriter.WriteLog | util/leveldb/db/log_writer.cc:36-109 | Writing records to a fresh file gives the log of those records |
| LogReader.ParseWritten | util/leveldb/db/log_reader.cc:226-281 | A physical record wholly in the file is read back |
| LogReader.ParseCutShort | util/leveldb/db/log_reader.cc:232-243 | A physical record cut short by the end of the file reads as its end, not as corruption |
| LogReader.NextFragment | util/leveldb/db/log_reader.cc:199-281 | At any place in a cut-off log, the reader gets the next fragment with its type, or the end of the file |
| LogReader.Reader.constructor | util/leveldb/db/log_reader.cc:18-30 | A reader starts at the beginning of the file |
| LogReader.Reader.FillBuffer | util/leveldb/db/log_reader.cc:201-215 | Refilling the buffer continues where the last block ended |
| LogReader.Reader.NeedHeader | util/leveldb/db/log_reader.cc:200-224 | A header is available exactly if the file has one at the next header position |
| LogReader.Reader.ReadPhysicalRecord | util/leveldb/db/log_reader.cc:199-281 | Block by block, the reader yields what parsing the file at its position yields, and reports bad records only |
| LogScan.PartialIff | util/leveldb/db/log_reader.cc:114-138 | What a reader has collected of a record is the data since the last first fragment, if nothing but middle ones came since |
| LogScan.EndsIff | util/leveldb/db/log_reader.cc:96-150 | A record is returned exactly for a full fragment, and for a last one behind a first one and middle ones, and then it is their data |
| LogReader.FollowStep | util/leveldb/db/log_reader.cc:75-181 | Following fragments rebuilds the current record: full and last fragments complete it, first and middle ones extend it |
| LogReader.WrittenRecord | util/leveldb/db/log_reader.cc:60-182 | On a log, or what a crash left of it, the first record is the next one if it is wholly there, and otherwise the end of the file comes; nothing is reported |
| LogReader.WrittenLog | util/leveldb/db/log_reader.cc:60-182 | On a prefix of a log the records are those wholly inside it |
| LogReader.Reader.ReadRecord | util/leveldb/db/log_reader.cc:60-182 | Whatever bytes the file has, returns the first record that is complete, with the offset of its first header, and reports all that is dropped on the way; the end of the file if there is none |
| LogReader.ReadLog | util/leveldb/db/log_reader.cc:60-182 | Reading on until the end returns exactly the records that the physical records make, in order, and counts what is dropped; on a prefix of a log those are the records wholly inside it, with no report |
| LogReader.WriteCrashRead | util/leveldb/db/log_writer.cc:36-109 | Writing any records, truncating the file at any byte and reading it returns exactly the records wholly inside |
| LogDamage.Resync | util/leveldb/doc/log_format.txt:57-59 | Whatever the bytes are, a reader comes to every block boundary that the file has |
| LogDamage.SameTail | util/leveldb/doc/log_format.txt:57-59 | Behind a damaged part a reader sees the same physical records as one of the undamaged log, from the first record on that begins there |
| LogDamage.DamageIsLocal | util/leveldb/doc/log_format.txt:57-59 | Whatever happens to the bytes of a log up to a block boundary, all records that end before them and all that begin behind them are returned, in order |
| WriteBatches.WriteBatch.constructor | util/leveldb/db/write_batch.cc:29-40 | A new batch is empty |
| WriteBatches.WriteBatch.Add | util/leveldb/db/write_batch.cc:98-109 | Put and Delete append exactly that operation |
| WriteBatches.Iterate | util/leveldb/db/write_batch.cc:42-80 | Delivers the operations up to the first malformed record, and the right status |
| WriteBatches.OpRoundTrip | util/leveldb/db/write_batch.cc:98-109 | An encoded operation is read back, whatever follows |
| WriteBatches.RecordLayout | util/leveldb/db/write_batch.cc:1-14 | The bytes of a put, of a deletion and of an empty batch |
| WriteBatches.OpIsStable | util/leveldb/db/write_batch.cc:42-80 | A complete operation is read the same when more bytes follow |
| WriteBatches.OpsConcat | util/leveldb/db/write_batch.cc:141-145 | Iterating over joined records delivers the parts one after the other |
| WriteBatches.SetSequenceKeeps | util/leveldb/db/write_batch.cc:94-96 | Stamping a batch leaves its operations alone |
| WriteBatches.AppendJoins | util/leveldb/db/write_batch.cc:141-145 | An appended batch iterates as the concatenation of its members |
| WriteBatches.NumberedConcat | util/leveldb/db/write_batch.cc:111-134 | Numbering a concatenation numbers the parts in turn |
| WriteBatches.InsertInto | util/leveldb/db/write_batch.cc:111-134 | The memtable gets the operations with consecutive sequence numbers from the batch's own on |
| GroupCommit.BuildBatchGroup | util/leveldb/db/db_impl.cc:1268-1313 | The longest front of the queue that may be one group: no sync writer behind a non-sync leader, and with a second batch at most 128 KB more than a leader of at most 128 KB, or 1 MB in all behind a larger one; its batch iterates as the concatenation of theirs, and the temporary batch is used exactly if there is a second one |
| GroupCommit.FullestIsLongest | util/leveldb/db/db_impl.cc:1276-1303 | Stopping at the first writer that does not fit gives the longest front that may be one group: no longer one may |
| GroupCommit.Queue.constructor | util/leveldb/db/db_impl.cc:116-145 | Nobody has arrived and nothing has been written |
| GroupCommit.Queue.Enqueue | util/leveldb/db/db_impl.cc:1193-1203 | A writer joins at the end of the queue, also while a group is being committed |
| GroupCommit.Queue.MakeRoom | util/leveldb/db/db_impl.cc:1317-1378 | Refuses after a failed sync; may start a new log and memtable, and then nothing committed is lost |
| GroupCommit.Queue.WriteGroup | util/leveldb/db/db_impl.cc:1217-1244 | The group is logged unless the log fails, and applied unless log or sync fails; the queue is broken exactly after a failed sync |
| GroupCommit.Queue.Lead | util/leveldb/db/db_impl.cc:1208-1245 | The front writer commits the longest group that may join it, stamped with the next sequence number; its result says what went wrong first, and only a failed sync breaks the queue |
| GroupCommit.PopGroup | util/leveldb/db/db_impl.cc:1247-1256 | Exactly the members of the group leave the queue, each with the leader's result |
| GroupCommit.Queue.Finish | util/leveldb/db/db_impl.cc:1244-1264 | Every member is served once, with its own range of sequence numbers; the last sequence number is published |
| GroupCommit.EnqueueKeepsInv | util/leveldb/db/db_impl.cc:1193-1203 | Queueing up keeps the invariant |
| GroupCommit.SwitchKeepsInv | util/leveldb/db/db_impl.cc:1353-1374 | A new log and memtable keep the invariant |
| GroupCommit.IdleKeepsInv | util/leveldb/db/db_impl.cc:1209-1212 | A writer without room, or without a batch, is a group of its own and uses no sequence number |
| GroupCommit.LogFailureKeepsInv | util/leveldb/db/db_impl.cc:1223-1231 | A failed log write still uses up the group's sequence numbers and adds no entry |
| GroupCommit.LoggedKeepsInv | util/leveldb/db/db_impl.cc:1223-1240 | A logged group is applied, or after a failed sync never applied and no group follows it |
| GroupCommit.FinishKeepsInv | util/leveldb/db/db_impl.cc:1244-1264 | Taking a group off the queue keeps the invariant |
| GroupCommit.GroupEntries | util/leveldb/db/db_impl.cc:1213-1244 | A committed group adds its members' operations, numbered in queue order |
| GroupCommit.MembersRanged | util/leveldb/db/db_impl.cc:1213-1215 | Members of a group get adjacent ranges in queue order, ending at the new last sequence number |
| GroupCommit.MembersFair | util/leveldb/db/db_impl.cc:1287-1292 | No sync writer is served by a non-sync leader |
| GroupCommit.MembersAnswered | util/leveldb/db/db_impl.cc:1247-1256 | Everybody served has got the result of the own group, and keeps it |
| GroupCommit.RangesDisjoint | util/leveldb/db/db_impl.cc:1210-1244 | In every reachable state writers are served in order of arrival and their sequence ranges do not overlap |
| GroupCommit.RecoverLogFile | util/leveldb/db/db_impl.cc:364-449 | On any file, with paranoid checks recovery fails exactly if the reader reports something or a record is malformed, and without them it never fails; it rebuilds the entries of all records the reader returns and their highest sequence number |
| GroupCommit.WellFormedApplied | util/leveldb/db/db_impl.cc:419-435 | Well-formed records rebuild the entries of their operations |
| GroupCommit.RecoveredIsHighest | util/leveldb/db/db_impl.cc:430-435 | No rebuilt entry has a sequence number above the recovered one, if no batch wraps the 64-bit numbers |
| GroupCommit.ReplayRebuilds | util/leveldb/db/db_impl.cc:412-435 | In every reachable state without a failed sync, replaying the log rebuilds the memtable entry by entry |
| GroupCommit.CommitCrashRecover | util/leveldb/db/db_impl.cc:364-449 | Whatever prefix of the log survives a crash, recovery rebuilds a whole number of groups, as many as fit |
| BlockFormat.SharedPrefix | util/leveldb/table/block_builder.cc:79-85 | The longest common front of two keys |
| BlockFormat.FastPath | util/leveldb/table/block.cc:57-64 | The three first bytes are all below 128 exactly if all three lengths are |
| BlockFormat.EntryRoundTrip | util/leveldb/table/block.cc:53-74 | Decoding an entry head undoes encoding it, on both paths |
| BlockFormat.EntryLayout | util/leveldb/table/block_builder.cc:16-22 | The bytes of an entry that shares nothing and of one that shares a byte |
| BlockFormat.AcceptedIfInside | util/leveldb/table/block.cc:69-71 | As long as the lengths do not wrap, an entry head is accepted if and only if key and value end inside the block |
| Coding.WordAt | util/leveldb/table/block_builder.cc:63-71 | Each number of the restart and offset arrays is where its index says |
| BlockBuilder.CountShared | util/leveldb/table/block_builder.cc:79-85 | The loop counts the longest common front |
| BlockBuilder.EncodeEntry | util/leveldb/table/block_builder.cc:93-101 | Writes the three lengths, the rest of the key and the value |
| BlockBuilder.AddKeeps | util/leveldb/table/block_builder.cc:73-107 | Appending an entry, compressed or at a restart, keeps the block buildable |
| BlockBuilder.RegularGrows | util/leveldb/table/block_builder.cc:73-107 | An entry added by the restart counter keeps the restart points at the multiples of the interval |
| BlockBuilder.RestartCount | util/leveldb/table/block_builder.cc:77-90 | There are as many restart points as intervals it takes to hold the entries, and one in an empty block |
| BlockBuilder.Builder.constructor | util/leveldb/table/block_builder.cc:39-55 | A new builder holds no entries and one restart point |
| BlockBuilder.Builder.Add | util/leveldb/table/block_builder.cc:73-107 | The block holds one more entry and stays regular: it is a restart point exactly if as many entries as the interval have come since the last one, and otherwise shares the longest common front with the key before it |
| BlockBuilder.Builder.Finish | util/leveldb/table/block_builder.cc:63-71 | The bytes are a block of the added entries, with restart points exactly at the multiples of the interval and every other entry sharing all it can with the key before it |
| BlockIter.EntryRead | util/leveldb/table/block.cc:226-253 | Every entry can be decoded at its offset and ends where the next begins |
| BlockIter.RestartRead | util/leveldb/table/block.cc:99-102 | The restart array names offsets of entries |
| BlockIter.OffsetsOrdered | util/leveldb/table/block.cc:144-163 | Offsets are in the order of the entries |
| BlockIter.Iter.constructor | util/leveldb/table/block.cc:115-126 | A new iterator on a built block is not valid |
| BlockIter.Iter.GetRestartPoint | util/leveldb/table/block.cc:99-102 | The offset of the entry at a restart point |
| BlockIter.Iter.SeekToRestartPoint | util/leveldb/table/block.cc:104-112 | The next entry parsed is the one at that restart point |
| BlockIter.Iter.AdvanceRestart | util/leveldb/table/block.cc:247-251 | The restart index moves to the last restart point not behind the entry |
| BlockIter.Iter.ParseNextKey | util/leveldb/table/block.cc:226-253 | Restores the next entry from the key before it, or becomes invalid at the end |
| BlockIter.Iter.Current | util/leveldb/table/block.cc:130-137 | Key and value are those of the entry under the cursor |
| BlockIter.Iter.SeekToFirst | util/leveldb/table/block.cc:205-208 | Stands at the first entry |
| BlockIter.Iter.Next | util/leveldb/table/block.cc:139-142 | Moves to the next entry |
| BlockIter.Iter.SeekToLast | util/leveldb/table/block.cc:210-215 | Stands at the last entry |
| BlockIter.Iter.Prev | util/leveldb/table/block.cc:144-163 | Moves to the previous entry, or becomes invalid at the first |
| BlockIter.Iter.FindRestart | util/leveldb/table/block.cc:165-191 | The binary search finds the last restart point with a key below the target, or the first one |
| BlockIter.Iter.Seek | util/leveldb/table/block.cc:165-203 | Lands on the first entry not below the target, or becomes invalid |
| Bytewise.LessOrEqual | util/leveldb/util/comparator.cc:25-27 | The byte order is total and irreflexive |
| Bytewise.LessTransitive | util/leveldb/util/comparator.cc:25-27 | The byte order is transitive |
| Bytewise.LessAt | util/leveldb/util/comparator.cc:25-27 | The byte after a common front decides |
| Bytewise.FindShortestSeparator | util/leveldb/util/comparator.cc:29-51 | Cut to one byte past the common front, strictly between the strings, exactly if there is room between the bytes there; otherwise unchanged |
| Bytewise.FindShortSuccessor | util/leveldb/util/comparator.cc:53-65 | Cut after the first byte that can be raised, and then strictly above; unchanged exactly if there is none |
| Bytewise.IsLessTotal | util/leveldb/db/dbformat.cc:50-66 | The internal-key order is total and irreflexive |
| Bytewise.IsLessTransitive | util/leveldb/db/dbformat.cc:50-66 | The internal-key order is transitive |
| Bytewise.MaxComesFirst | util/leveldb/db/dbformat.cc:79-80 | The trailer given to a shortened key puts it before all internal keys of its user key |
| Bytewise.ShortestSeparator | util/leveldb/db/dbformat.cc:68-85 | Not below the first key and below the second; if changed, its user key is strictly between both and shorter; changed exactly if shortening gains a byte |
| Bytewise.ShortSuccessor | util/leveldb/db/dbformat.cc:87-99 | The key itself or one strictly above with a shorter user key; changed exactly if shortening gains a byte |
| BloomPolicy.BitsAfter | util/leveldb/util/bloom.cc:55-59 | Or-ing a bit into a byte sets that bit and no other |
| BloomPolicy.AddKey | util/leveldb/util/bloom.cc:53-59 | Sets exactly the bits probed for the key |
| BloomPolicy.CreateFilter | util/leveldb/util/bloom.cc:35-61 | A filter of the right size whose set bits are exactly those probed by its keys, with the number of probes at the end |
| BloomPolicy.KeyMayMatch | util/leveldb/util/bloom.cc:63-87 | True exactly if all probes hit or the filter is of a newer format |
| BloomPolicy.NeverRejected | util/leveldb/util/bloom.cc:35-87 | A key that a filter was made for is never rejected |
| BloomPolicy.DeltaRotates | util/leveldb/util/bloom.cc:54-54 | The step between probes is the 32-bit hash rotated right by 17 bits, bit by bit |
| BloomPolicy.ProbeIsStation | util/leveldb/util/bloom.cc:55-59 | The probes are the stations of a walk that starts at the hash and adds the step in wrapping 32-bit arithmetic |
| BloomPolicy.ProbesDiffer | util/leveldb/util/bloom.cc:53-59 | Two probes of one hash that go to different bits |
| FilterBlock.Builder.constructor | util/leveldb/table/filter_block.cc:18-20 | A new builder has no keys |
| FilterBlock.Builder.GenerateFilter | util/leveldb/table/filter_block.cc:52-76 | One more filter, made for the keys since the last one |
| FilterBlock.Builder.StartBlock | util/leveldb/table/filter_block.cc:22-28 | Filters are generated until the next one belongs to the block's offset |
| FilterBlock.Builder.AddKey | util/leveldb/table/filter_block.cc:30-34 | The key is recorded under the current block offset |
| FilterBlock.Builder.Finish | util/leveldb/table/filter_block.cc:36-50 | One filter for every 2 KB of offsets before the last block, and one for the last if keys came for it, each made for exactly the keys added under an offset in its range, then their offsets; it matches every key added under its block offset |
| FilterBlock.KeyMayMatch | util/leveldb/table/filter_block.cc:95-109 | Asks the filter of the block's offset; anything unreadable counts as a match |
| FilterBlock.IsReadable | util/leveldb/table/filter_block.cc:78-109 | Reading a written filter block never rejects a key added under a block offset |
| Tables.SeekIndex | util/leveldb/table/table.cc:229-231 | The first index key not below the key |
| Tables.SeekBlock | util/leveldb/table/table.cc:241-245 | The first item of a block not below the key |
| Tables.ReadBlock | util/leveldb/table/table.cc:164-218 | The block at an offset of the index |
| Tables.BelowSeparator | util/leveldb/table/table_builder.cc:100-107 | An index key below the key puts its whole block below it |
| Tables.NotBehind | util/leveldb/db/dbformat.cc:68-85 | If the answer with the right user key were in a later block, the index key of this one would be below the key |
| Tables.BlockAnswers | util/leveldb/table/table.cc:226-255 | What a seek finds in the block is the first item of the whole table not below the key |
| Tables.OnlyInBlock | util/leveldb/table/table.cc:226-255 | If the first item not below the key has its user key, it is in the block the index leads to, and the filter does not reject it |
| Tables.InternalGet | util/leveldb/table/table.cc:226-255 | Hands on nothing but the first item not below the key, does so whenever that item has the user key looked for, and hands on nothing if the filter of the block rejects the key |
| TableBuilder.IndexEntryKeeps | util/leveldb/table/table_builder.cc:100-107 | The delayed index entry separates its block from the next |
| TableBuilder.AddKeeps | util/leveldb/table/table_builder.cc:92-121 | Adding an item keeps the table buildable |
| TableBuilder.FlushKeeps | util/leveldb/table/table_builder.cc:123-137 | Closing a block keeps the table buildable and leaves its index entry pending |
| TableBuilder.FinishedTable | util/leveldb/table/table_builder.cc:199-254 | What has been built is a table of the added items |
| TableBuilder.Builder.constructor | util/leveldb/table/table_builder.cc:63-68 | A new builder has no items |
| TableBuilder.Builder.Flush | util/leveldb/table/table_builder.cc:123-137 | The items are unchanged; a block with items is closed, its handle waits for the next key, and the filter moves to the next offset; without items nothing happens |
| TableBuilder.Builder.Add | util/leveldb/table/table_builder.cc:92-121 | The table has one more item; the block is closed exactly if it has reached the block size, and otherwise stays open with the item at its end |
| TableBuilder.Builder.Finish | util/leveldb/table/table_builder.cc:199-254 | The result is a table of exactly the added items: lookups through it are complete |
| EditCodec.BodyRoundTrip | util/leveldb/db/version_edit.cc:122-199 | Reading a field undoes writing it, whatever follows |
| EditCodec.NewFileRoundTrip | util/leveldb/db/version_edit.cc:77-85 | A new-file field survives encoding |
| EditCodec.FieldLayout | util/leveldb/db/version_edit.cc:14-24 | The tag and the bytes of each kind of field |
| EditCodec.NewFileLayout | util/leveldb/db/version_edit.cc:77-85 | The bytes of a new file: level, number, size and its two keys |
| EditCodec.BadLevel | util/leveldb/db/version_edit.cc:98-107 | A field with a level that there is not is refused |
| EditCodec.EncodeTo | util/leveldb/db/version_edit.cc:41-86 | The bytes are those of the fields present, in the source's order |
| EditCodec.DecodeFrom | util/leveldb/db/version_edit.cc:109-210 | The loop over tags decodes what the specification decodes, errors included |
| EditCodec.DecodeFields | util/leveldb/db/version_edit.cc:109-210 | Decoding the bytes of fields applies them one after the other |
| EditCodec.EditRoundTrip | util/leveldb/db/version_edit.cc:41-210 | Decoding an encoded edit gives it back; compaction pointers already in the target stay in front |
| SkipList.Load | util/leveldb/db/skiplist.h:262-281 | A link loaded in any good state leads to the next node of its level, and at a stop the position splits the level at the target |
| SkipList.FindGreaterOrEqual | util/leveldb/db/skiplist.h:262-281 | While the list grows under the search, the answer is the first node not below the target at the last load, and each predecessor is right for some observed state |
| SkipList.NeverMissed | util/leveldb/db/skiplist.h:262-281 | A key inserted before the search began is never passed over |
| SkipList.FindLessThan | util/leveldb/db/skiplist.h:285-302 | While the list grows under the search, the last node below the target, or the head, in the state of the last load |
| SkipList.FindLast | util/leveldb/db/skiplist.h:305-322 | While the list grows under the search, the last node, or the head of an empty list, in the state of the last load; the search ends once the list stands still |
| SkipList.Contains | util/leveldb/db/skiplist.h:373-380 | While the list grows under the search, true exactly if the list has the key in the state of the last load |
| SkipList.LinkLevel | util/leveldb/db/skiplist.h:363-369 | The two stores of one level keep it sorted and linked, after the first and after the second |
| SkipList.StoreLevel | util/leveldb/db/skiplist.h:363-369 | A store at one level keeps every level a sorted sublist of the one below |
| SkipList.LinkStep | util/leveldb/db/skiplist.h:363-369 | Both intermediate states of a level are good and contain what was there before |
| SkipList.Predecessors | util/leveldb/db/skiplist.h:340-350 | The predecessors at every level up to the new height |
| SkipList.Skip.constructor | util/leveldb/db/skiplist.h:325-334 | A new list is empty at every level |
| SkipList.Skip.Insert | util/leveldb/db/skiplist.h:337-370 | After every single store the list is good and contains all earlier states; in the end the node is on its lowest levels and nothing else has changed |
| SkipList.SampledIsHistory | util/leveldb/db/skiplist.h:336-371 | Whenever a reader looks while the list runs through the states of insertions, what it sees over time is a history as the searches need it |
| SkipList.TracesJoin | util/leveldb/db/skiplist.h:336-371 | The states of insertions one after the other are one such run |
| Ring.RemoveLinks | util/leveldb/util/cache.cc:201-204 | Unlinking an entry leaves the ring of the others |
| Ring.AppendLinks | util/leveldb/util/cache.cc:206-212 | Linking an entry puts it at the newest end |
| HandleTable.FindInChain | util/leveldb/util/cache.cc:98-105 | The first handle with the key in a chain, or its end |
| HandleTable.Lookup | util/leveldb/util/cache.cc:58-60 | Finds the handle with the key if and only if there is one |
| HandleTable.NewLength | util/leveldb/util/cache.cc:107-111 | The least power of two from four on that is not below the number of handles |
| HandleTable.Resize | util/leveldb/util/cache.cc:107-131 | The larger table holds the same handles, each in its new slot; its length is the least power of two, from four on, that is not below their number |
| HandleTable.Insert | util/leveldb/util/cache.cc:62-76 | Replaces and returns the handle with the same key, or adds the handle; the table grows only when a handle is added to as many as it has chains, at most to twice its length, so that there are never more handles than chains |
| HandleTable.Remove | util/leveldb/util/cache.cc:78-86 | Takes out and returns the handle with the key, if any; the table keeps its length |
| HandleTable.SlotIsMasked | util/leveldb/util/cache.cc:98-99 | The slot has the low bits of the hash, bit by bit |
| HandleTable.FoundInSlot | util/leveldb/util/cache.cc:98-105 | Searching the one chain of a hash decides for the whole table |
| HandleTable.AppendHolds | util/leveldb/util/cache.cc:62-76 | A chain with one more handle keeps the table right |
| HandleTable.ReplaceHolds | util/leveldb/util/cache.cc:62-76 | A chain with a handle replaced keeps the table right |
| HandleTable.RemoveHolds | util/leveldb/util/cache.cc:78-86 | A chain with a handle taken out keeps the table right |
| LruCache.UnrefKeeps | util/leveldb/util/cache.cc:191-199 | Giving up a reference keeps the counts; the last one deletes the handle and its charge |
| LruCache.DetachKeeps | util/leveldb/util/cache.cc:263-270 | Leaving table and list leaves one reference to give up |
| LruCache.UseKeeps | util/leveldb/util/cache.cc:214-223 | Using a handle makes it the newest and counts one more reference |
| LruCache.ReleaseKeeps | util/leveldb/util/cache.cc:225-228 | A client giving up a handle leaves one reference to give up |
| LruCache.AddKeeps | util/leveldb/util/cache.cc:230-251 | A new handle is listed, in the table and counted twice, and the one it replaces has one reference to give up |
| LruCache.DeletedExactlyOnce | util/leveldb/util/cache.cc:191-199 | In every reachable state a handle has been deleted if and only if neither a client nor the cache refers to it, and never twice |
| LruCache.Cache.constructor | util/leveldb/util/cache.cc:175-180 | A new cache is empty |
| LruCache.Cache.Unref | util/leveldb/util/cache.cc:191-199 | The deleter runs, and the charge goes, exactly with the last reference |
| LruCache.Cache.Evict | util/leveldb/util/cache.cc:253-258 | The handle leaves the cache; its charge goes unless a client holds it |
| LruCache.Cache.Lookup | util/leveldb/util/cache.cc:214-223 | Finds the handle if there is one, makes it the newest and hands out one reference |
| LruCache.Cache.Release | util/leveldb/util/cache.cc:225-228 | One reference of the client is gone; what was deleted stays deleted |
| LruCache.Cache.Erase | util/leveldb/util/cache.cc:263-270 | Afterwards the key is not found, and every other key still is |
| LruCache.Cache.Prune | util/leveldb/util/cache.cc:272-283 | Exactly the handles that no client holds leave the cache |
| LruCache.Cache.AddHandle | util/leveldb/util/cache.cc:230-251 | The new handle is the newest; the one with the same key is out |
| LruCache.Cache.Shrink | util/leveldb/util/cache.cc:253-258 | The oldest handles go, each while the charges are over the capacity, until they fit or nothing is left |
| LruCache.Cache.Insert | util/leveldb/util/cache.cc:230-261 | A new handle for the key with a reference for the caller; then the charges fit or the list is empty, and no handle was evicted without need |
| RbTrees.PlugIsRb | util/fs-hasher/rbtree.c:71-134 | A red-black subtree that fits its surroundings makes a red-black tree |
| RbTrees.UnplugIsRb | util/fs-hasher/rbtree.c:216-281 | In a red-black tree every subtree is one and fits its surroundings |
| RbTrees.PlugOrder | util/fs-hasher/rbtree.c:25-69 | The order of a tree is what comes before the focus, the focus and what comes after it |
| RbTrees.RotationOrder | util/fs-hasher/rbtree.c:25-69 | A rotation keeps the order |
| RbMemory.Rotate | util/fs-hasher/rbtree.c:25-69 | The pointer updates of both rotations turn the tree in memory into the rotated one, parent links and root included |
| RbMemory.PaintFocus | util/fs-hasher/rbtree.h:126-129 | Colouring a node changes that colour only |
| RbMemory.FocusUp | util/fs-hasher/rbtree.c:71-134 | Memory holds the same tree seen from a node and from its parent |
| RbInsert.LinkNode | util/fs-hasher/rbtree.h:159-166 | Memory holds the tree with a new red leaf in that place |
| RbInsert.Recolor | util/fs-hasher/rbtree.c:82-90 | Red uncle: memory holds the recoloured tree |
| RbInsert.RecolorIsReady | util/fs-hasher/rbtree.c:82-90 | Afterwards only the grandparent can be red under red, and the order is the same |
| RbInsert.Straighten | util/fs-hasher/rbtree.c:93-100 | An inner node is rotated outwards |
| RbInsert.Hoist | util/fs-hasher/rbtree.c:102-104 | The parent takes the grandparent's place |
| RbInsert.HoistIsReady | util/fs-hasher/rbtree.c:93-104 | Afterwards nothing is red under red, and the order is the same |
| RbInsert.InsertColor | util/fs-hasher/rbtree.c:71-134 | The fix-up terminates with a red-black tree with the same nodes in the same order |
| RbInsert.Insert | util/fs-hasher/rbtree.c:71-134 | Linking a node into a red-black tree and fixing it gives a red-black tree with exactly that node inserted at that place |
| RbErase.LowerParent | util/fs-hasher/rbtree.c:146-152 | Red sibling: memory holds the rotated and recoloured tree |
| RbErase.LoweredIsStuck | util/fs-hasher/rbtree.c:146-152 | Afterwards the sibling is black and the same side is one black node short |
| RbErase.PushUp | util/fs-hasher/rbtree.c:153-159 | Black sibling with black children: memory holds the tree with a red sibling |
| RbErase.PushedIsShort | util/fs-hasher/rbtree.c:153-159 | The shortage moves to the parent, and the order is the same |
| RbErase.TurnSibling | util/fs-hasher/rbtree.c:162-168 | Memory holds the tree with the sibling turned |
| RbErase.TurnedIsStuck | util/fs-hasher/rbtree.c:162-168 | Afterwards the far child of the sibling is red |
| RbErase.Repair | util/fs-hasher/rbtree.c:169-174 | Memory holds the tree with the parent rotated and the colours exchanged |
| RbErase.RepairedIsRb | util/fs-hasher/rbtree.c:169-174 | Afterwards the tree is red-black, and the order is the same |
| RbErase.EraseColor | util/fs-hasher/rbtree.c:136-214 | From one black node too few, the fix-up terminates with a red-black tree with the same nodes in the same order |
| RbRemove.Bypass | util/fs-hasher/rbtree.c:263-276 | The only child takes its parent's place |
| RbRemove.AfterBypass | util/fs-hasher/rbtree.c:263-281 | Without a red node the tree is red-black, without a black one it is one black node short |
| RbRemove.Successor | util/fs-hasher/rbtree.c:229-231 | The leftmost node below the right child |
| RbRemove.MoveChildUp | util/fs-hasher/rbtree.c:233-260 | If the successor is the right child, it takes the victim's place |
| RbRemove.TakePlace | util/fs-hasher/rbtree.c:233-260 | A node outside the tree takes place, colour and children of the victim |
| RbRemove.MoveSuccessorUp | util/fs-hasher/rbtree.c:233-260 | A deeper successor leaves its place to its right child and takes the victim's |
| RbRemove.AfterMove | util/fs-hasher/rbtree.c:227-281 | The vacated place is as after taking out the successor, and only the victim is missing from the order |
| RbRemove.Erase | util/fs-hasher/rbtree.c:216-281 | From one red-black tree to another whose order lacks exactly the erased node |
| RbWalk.Extreme | util/fs-hasher/rbtree.c:354-376 | Going down on one side reaches the outermost node |
| RbWalk.End | util/fs-hasher/rbtree.c:354-376 | The first and the last node in order, or none in an empty tree |
| RbWalk.Neighbour | util/fs-hasher/rbtree.c:378-428 | The next and the previous node in order, or none at the end |
| Rabin.PolyHead | util/fs-hasher/fs-hasher.c:472-516 | Removing the first coefficient of the window's polynomial |
| Rabin.PowerModulo | util/fs-hasher/fs-hasher.c:429-438 | The loop computes the power modulo 2^30 |
| Rabin.ComputeTable | util/fs-hasher/fs-hasher.c:445-463 | The table holds what each leaving byte contributes |
| Rabin.SlideIsFingerprint | util/fs-hasher/fs-hasher.c:496-498 | Sliding in wrapping 64-bit arithmetic gives the direct polynomial fingerprint of the new window |
| Rabin.MatchesIff | util/fs-hasher/fs-hasher.c:489-504 | Masking and comparing is bit by bit equality of the lowest bits of fingerprint and pattern, as many as the mask has |
| Rabin.MaskDecides | util/fs-hasher/fs-hasher.c:472-516 | An input on which only the masked bit matches: the first odd byte ends the chunk |
| Rabin.BoundaryIsStable | util/fs-hasher/fs-hasher.c:472-516 | A boundary that was found does not move when bytes are added to the buffer |
| Rabin.MatchIsStable | util/fs-hasher/fs-hasher.c:472-516 | An answer other than a request for more data does not change when bytes are added to the buffer |
| Rabin.EqualSizesOverrun | util/fs-hasher/fs-hasher.c:505-515 | A concrete input on which the matcher falls out of its cases |
| Rabin.FirstWindow | util/fs-hasher/fs-hasher.c:483-488 | The fingerprint of the first window |
| Rabin.RabinMatch | util/fs-hasher/fs-hasher.c:472-516 | For every window, minimum and maximum: the first boundary, from the end of the first window on, at which the low bits of the window's fingerprint are those of the pattern, else the maximum; it falls out of its cases exactly if the first window does not end below the maximum, does not match and is not the whole buffer, and reads behind the buffer exactly if the buffer reaches the minimum but not the window |
| Chunking.CutIsStable | util/fs-hasher/fs-hasher.c:710-737 | A chunk or a failure found in a buffer is found in every longer one |
| Chunking.ChunksPartition | util/fs-hasher/fs-hasher.c:1248-1334 | Unless the matcher falls out of its cases, the chunks are a partition of the file with tails on; without, at most a chunk's worth of its end is missing |
| Chunking.ChunkSizes | util/fs-hasher/fs-hasher.c:710-737 | All chunks but the last have between minimum and maximum size |
| Chunking.WideWindowCompletes | util/fs-hasher/fs-hasher.c:92-150 | With room between minimum and maximum, a read window of a maximal chunk is enough for every file |
| Chunking.NarrowWindowIsStuck | util/fs-hasher/fs-hasher.c:1266-1301 | A read window below the minimum is not, for any file that fills it |
| Chunking.GetNextChunk | util/fs-hasher/fs-hasher.c:710-737 | Fixed and variable chunking: the next cut if there is one, the tail at the end of the file with tails on, otherwise nothing; an error exactly if the matcher falls out of its cases |
| Chunking.EmitStep | util/fs-hasher/fs-hasher.c:1257-1301 | A chunk found in the window is the next chunk of the whole file |
| Chunking.FinishStep | util/fs-hasher/fs-hasher.c:1274-1298 | At the end of the file a method without a next chunk has emitted all of them |
| Chunking.FailStep | util/fs-hasher/fs-hasher.c:1266-1301 | A matcher that falls out of its cases, or a full window that starts at the cursor and shows no chunk, rules out that the method ever completes |
| Chunking.Hasher.constructor | util/fs-hasher/fs-hasher.c:1120-1141 | All methods start at the beginning of the file without any chunk |
| Chunking.Hasher.WindowAdvance | util/fs-hasher/fs-hasher.c:99-150 | The window starts at the offset, reaches at least as far as before, and knows the end of the file |
| Chunking.Hasher.GetNextMethod | util/fs-hasher/fs-hasher.c:1066-1080 | The running method with the lowest cursor, or none |
| Chunking.Hasher.Step | util/fs-hasher/fs-hasher.c:1248-1334 | Every round emits a chunk, finishes a method or advances the window, so that the loop terminates, or it shows that the method cannot complete |
| Chunking.Hasher.ProcessFile | util/fs-hasher/fs-hasher.c:1240-1334 | For every window size, chunk sizes and number of methods: it ends well if and only if every chunk of every method shows in a window that starts with it and no matcher falls out of its cases, and then every method has emitted the chunks of the whole file |
| Fingerprints.SameStringIsEqual | prototype/lrucache.cc:187-208 | Comparing as strings is equality for fingerprints without zero bytes before the last |
| Fingerprints.StrncmpIsExact | prototype/lrucache.cc:195-195 | A key is told from every other if and only if no byte but the last is zero |
| Fingerprints.WrittenIsSameString | prototype/container_manager.cc:55-68 | What a container file says about a key is the same string, and can be any key of that string |
| Fingerprints.WrittenIsExact | prototype/container_manager.cc:55-68 | A container file gives a key back, whatever memory holds behind its end, if and only if no byte but the last is zero |
| Fingerprints.ReadOctet | prototype/container_manager.cc:114-124 | Reading a printed byte gives it back |
| Fingerprints.ReadOctets | prototype/bloom.c:159-188 | Reading printed bytes gives them back |
| BloomFilter.SetBit | prototype/bloom.c:31-46 | Or-ing in a bit sets that bit and no other |
| BloomFilter.TestBitSetBit | prototype/bloom.c:31-46 | Says whether the bit was set; sets it and no other if asked to |
| BloomFilter.GrowsKeeps | prototype/bloom.c:49-75 | A key that is in stays in when bits are added |
| BloomFilter.ProbesAreSpaced | prototype/bloom.c:57-68 | As long as nothing wraps, the probes of a key are evenly spaced, from the first hash on by the second |
| BloomFilter.ProbesDiffer | prototype/bloom.c:57-68 | Three probes of a key that go to different bits |
| BloomFilter.Bloom.constructor | prototype/bloom.c:85-118 | A new filter of the given number of bits, all of them zero |
| BloomFilter.Bloom.CheckAdd | prototype/bloom.c:49-75 | Says whether the key was in; adding sets exactly its probed bits, even when probes coincide |
| BloomFilter.Bloom.Save | prototype/bloom.c:191-215 | All bytes as text |
| BloomFilter.Bloom.Restore | prototype/bloom.c:159-188 | The saved bytes come back |
| LruFingerprints.Unlink | prototype/lrucache.cc:251-264 | The pointer updates take exactly that node out of the list, at either end and in the middle |
| LruFingerprints.PushFront | prototype/lrucache.cc:231-249 | The pointer updates put the node in front |
| LruFingerprints.SearchChain | prototype/lrucache.cc:187-208 | The first node of a chain with a key of the same string, or its end |
| LruFingerprints.FoundInBucket | prototype/lrucache.cc:187-208 | Searching the key's chain decides whether some cached key is taken for it |
| LruFingerprints.FindIsExact | prototype/lrucache.cc:187-208 | A lookup answers whether the key is cached if and only if no other cached key is in its bucket and the same string |
| LruFingerprints.HashIsSigned | prototype/lrucache.cc:149-159 | A fingerprint byte above 127 counts as a negative number in the hash, and the sum wraps at 64 bits |
| LruFingerprints.ChainGrows | prototype/lrucache.cc:161-185 | A node in front of the list and at the end of its chain keeps both in step |
| LruFingerprints.ChainShrinks | prototype/lrucache.cc:211-229 | A node out of the list and out of its chain keeps both in step |
| LruFingerprints.LruCache.constructor | prototype/lrucache.cc:113-120 | A new cache is empty |
| LruFingerprints.LruCache.DeleteNode | prototype/lrucache.cc:251-264 | Exactly that key is gone |
| LruFingerprints.LruCache.AddNodeToHead | prototype/lrucache.cc:231-249 | The key comes first; over the maximum the least recently used one goes |
| LruFingerprints.LruCache.Find | prototype/lrucache.cc:187-208 | Found if and only if some cached key is taken for it, and then most recently used under the new name |
| LruFingerprints.LruCache.PutData | prototype/lrucache.cc:266-276 | Refines a plain sequence in order of use, of bounded length, in which no key is taken for another, for all keys and capacities |
| Recency.LastUses | prototype/lrucache.cc:231-249 | The list without a capacity has every key once, in the form it was used with last, in the order of the last uses |
| Recency.PutTruncates | prototype/lrucache.cc:266-276 | Cutting the list to a capacity before or after a key is put into it makes no difference |
| Dedup.MostRecentStay | prototype/lrucache.cc:266-276 | Whatever went into a cache before, it keeps exactly the keys used last, as many as it has room for, latest first |
| LruFingerprints.LruCache.OutputConf | prototype/lrucache.cc:50-110 | The keys in order of use |
| LruFingerprints.LruCache.InitConf | prototype/lrucache.cc:13-48 | The saved keys in reverse order of use |
| LruFingerprints.ReversedHas | prototype/lrucache.cc:13-48 | Reloading keeps the set of keys |
| Dedup.ReadLines | prototype/container_manager.cc:93-130 | Reading a container file gives back the bytes written |
| Dedup.FlushKeepsIndex | prototype/container_manager.cc:35-80 | Flushing keeps every index entry pointing at the one container with its key |
| Dedup.FlushKeepsStored | prototype/container_manager.cc:35-80 | Flushing loses and duplicates nothing |
| Dedup.FlushKeepsPacked | prototype/container_manager.cc:35-80 | Flushing keeps every container within 4 MB, single chunks apart |
| Dedup.StoredPacks | prototype/container_manager.cc:81-91 | A new chunk goes into the container being filled if it fits into 4 MB with those there or is the first, and otherwise that container is closed and the chunk starts the next |
| Dedup.FlushKeepsDisk | prototype/container_manager.cc:35-80 | The files on disk are exactly the flushed containers |
| Dedup.StepKeepsGood | prototype/ddfs.cc:69-101 | One chunk keeps index and containers in step, every key stored once, every cached key one string with an indexed one, and every container within 4 MB unless it holds a single chunk |
| Dedup.RestartKeepsGood | prototype/ddfs.cc:25-33 | So does a restart |
| Dedup.SeparateIsUnmasked | prototype/ddfs.cc:69-101 | If no two keys are the same string, the cache takes no new key for another |
| Dedup.RunsAreExact | prototype/ddfs.cc:106-121 | For keys no two of which are the same string, over any number of files and restarts exactly the first occurrences are stored, whatever memory holds behind the ends of keys |
| Dedup.ConfusedKeysAreLost | prototype/container_manager.cc:55-68 | For any two keys that are the same string there are two runs and memory contents after which one of them is never stored |
| Dedup.ExactIffSeparate | prototype/ddfs.cc:106-121 | Deduplication over a set of fingerprints is exact for all runs and memory contents if and only if no two of them are the same string |
| Dedup.CollidingKeyIsLost | prototype/lrucache.cc:187-208 | Two concrete fingerprints in one bucket: the chunks A, A, B never store B, whatever memory holds |
| Dedup.Ddfs.constructor | prototype/ddfs.cc:25-33 | Nothing is indexed or stored |
| Dedup.Ddfs.FlushContainer | prototype/container_manager.cc:35-80 | The pending container becomes the next file, unless it is empty |
| Dedup.Ddfs.LoadContainer | prototype/container_manager.cc:93-130 | The container with a number, flushed or pending; fails exactly on other numbers |
| Dedup.Ddfs.IndexInsert | prototype/fp_index.cc:35-47 | Added if absent; an existing entry is left alone |
| Dedup.Ddfs.AddToFilter | prototype/ddfs.cc:36-36 | The filter has the key and still has every indexed one |
| Dedup.Ddfs.InsertChunk | prototype/ddfs.cc:37-41 | The fingerprint is stored and indexed once |
| Dedup.Ddfs.StoreUnique | prototype/ddfs.cc:34-42 | Stores, indexes and filters one new fingerprint; the invariant holds again |
| Dedup.Ddfs.CacheContainer | prototype/ddfs.cc:92-98 | All fingerprints of the container go through the cache in order |
| Dedup.Ddfs.ReadHash | prototype/ddfs.cc:69-101 | For every fingerprint, no load fails, state and cache change as one step of the plain model, and the chunk is stored exactly if the cache takes it for none and it is not indexed |
| Dedup.Ddfs.ReadHashes | prototype/ddfs.cc:43-105 | The chunks of a file are the steps of the plain model, and the counter grows by what is stored |
| Dedup.Ddfs.EndRun | prototype/ddfs.cc:103-104 | At the end of a run nothing is pending |
| Dedup.ReloadCache | prototype/lrucache.cc:13-48 | A new cache with the saved keys, in reverse order of use |
| Dedup.ReloadFilter | prototype/bloom.c:159-215 | A new filter with the same bits, which has the same keys |
| Dedup.Ddfs.StartRun | prototype/ddfs.cc:25-33 | After a restart the invariant holds, only the order of use is lost, and the counter is zero |
| Dedup.FirstsConcat | prototype/ddfs.cc:43-105 | First occurrences over several files are those of each file not seen before |
| Dedup.Ddfs.Runs | prototype/ddfs.cc:106-121 | Over any number of files and restarts the runs are those of the plain model; if no two fingerprints are the same string, exactly the first occurrences are stored, each once, and every run counts its own |

## Left out

- Environment, file system, threads and platform code (`util/leveldb/port`, `env_posix.cc`, `helpers/memenv`), C bindings, benchmarks and tools: I/O with no logic to prove. File contents are byte sequences, and what a write or sync answers is a parameter.
- `util/leveldb/db/repair.cc`: it puts every table at level zero without the order of file numbers that lookup relies on.
- Snappy, mmap windows, bad checksums and corrupted keys in tables; of logs, truncation and arbitrary damage are modelled.
- Compaction scoring, seek statistics, approximate sizes, delays, shutdown and condition variables: heuristics and scheduling. Writes, flushes and compactions are single steps of one current version; a flush in the middle of a running compaction is not modelled.
- `attack` and `defense` scripts, `libhashfile`, `hf-stat`, `hf-anonymizer`: text processing and printing.
- The random and the trivial chunk matcher.
- Murmur, MD5 and SHA hashes and the hash of cache keys are parameters; CRC-32C is computed bit by bit and not by the tables of `crc32c.cc`.
- The log reader's start offset with its resynchronisation, and reading without checksums.
- Memory allocation in the arena, and the memtable's encoding of entries into it. The engine's memtables are sorted sequences; that a skip list keeps such a sequence is proved separately in `SkipList`.
- User keys in the engine modules are integers, their rank under the comparator, because the engine only compares them; the codec modules work on bytes. `BlockIter` compares keys through a rank function into the reals.
- Two-level iterators, the block cache behind a table and block handles: a table is a list of blocks of items with offsets; the byte format of a block is proved in `BlockBuilder` and `BlockIter`.
- Chain pointers of the two hash tables: a chain is a sequence, so relinking inside a chain is not modelled as pointer writes; the doubly linked lists are.
- Sharding of the block cache and its destructor.
- The augmentation functions and node replacement of the red-black tree.
- Sizing of the prototype's Bloom filter in floating point: bits and number of probes are parameters.
- Parsing of the text lines that name chunks in `prototype/ddfs.cc`: the prototype is given fingerprints and sizes.
- CompactionJob.Compaction.DoCompactionWork: the tests for cutting an output file (grandparent overlap, file size) are two parameters that may answer anything, so the theorems hold for every such test.
- Engine.DB.PickCompaction: the level, and for a compaction triggered by seeks the file, are parameters instead of the compaction score and the seek counters.
- Installs.ApplyToVersion: the new version only; the manifest record is added in `Durability`, and compaction pointers are fields of `Engine.DB` that are not recovered.
- Durability.Run: a compaction whose input runs end in a cut is skipped, because it may break the store; `Engine.DB.RunCompaction` states what it does.
- Durability.Durable.InstallCompaction: the same.
- SkipList.FindLast: for a list that stands still in the end, because a writer that keeps appending can keep the search from ending.
- Durability.CrashAndReopen: a log loses whole groups from its end, as `GroupCommit.CommitCrashRecover` proves of truncated log bytes; damaged or missing files are not modelled, and a crash happens between two steps.
- Durability.Reopen: every recovered memtable is recorded by an edit of its own and the manifest grows on, where the source collects them in one edit and starts a new manifest with a snapshot of the version; reusing the last log is not modelled.
- Merger.MergingIterator.Next: children must not share a key, which `Iteration.StoreChildren` proves of the store and `CompactionInputs.InputsAreChildren` of compactions.
- Merger.MergingIterator.constructor: children must not share a key, for the same reason.
- LogReader.Reader.constructor: reads from the start of the log.
- LogReader.Reader.ReadRecord: without a start offset and its resynchronisation.
- Tables.ReadBlock: a block is a list of items; its bytes are the subject of `BlockIter`.
- SkipList.Skip.Insert: the random height is a parameter, and keys are integers.
- RbInsert.Insert: the search for the place to insert is the caller's in the source too, so the place is a parameter.
- RbRemove.MoveSuccessorUp: the writes to the victim's parent and to the successor are in a different order than in the source; they touch different nodes.
- EditCodec.EncodeTo: the order in which the set of deleted files is written is a parameter.
- GroupCommit.Queue.WriteGroup: a failed log write is taken to leave no partial record behind.
- GroupCommit.RecoverLogFile: one log only; flushing full memtables during replay is in `Durability.Reopen`, and reusing the last log is not modelled.
- WriteBatches.WriteBatch.Add: fewer than 2^32 operations per batch and keys and values shorter than 2^32 bytes, as the format requires.
- Engine.DB.Write: sequence numbers stay below the largest 56-bit one.
- FilterBlock.Builder.Finish: for filter data shorter than 2^32 bytes, as its 32-bit offsets require.
- BlockBuilder.Builder.Finish: for blocks shorter than 2^32 bytes, as their 32-bit offsets require.
- Chunking.Hasher.ProcessFile: for fingerprint windows not wider than the minimum chunk, because a wider one makes the matcher read behind the data, and chunk sizes above zero.
