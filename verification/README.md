# LevelDB and nanopb, verified

The iOS application in this repository vendors two C/C++ libraries whose correctness everything else rests on. This
project models their logic in Dafny and proves what they promise.

**LevelDB's multi-version store** keeps every version of a user key under a sequence number; what a read means is a map
from user keys to values at a sequence number. Each layer refines that map.

- `Format` internal keys, their order, and the meaning of a read.
- `Compaction` the drop loop of a compaction and its output tables.
- `Version` the levels of tables: lookups, and where a flushed memtable goes. `InputChoice` the choice of a compaction's
  inputs and the question for the base level. `LevelTheorems` what that choice means for readers and for the levels.
- `DbIter` the user-facing cursor, which can change direction.
- `SkipList`, `MemTable` the lock-free list a reader may search while a writer links, and the table on it.
- `Snapshots` the ring of live snapshots.
- `Store` the whole store as a protocol of 20 events: sections between two releases of the mutex, and a crash with
  its reopening. `StoreInvariant` says what every reachable state satisfies, `StoreSteps` proves that every event keeps
  it, `StoreTheorems` draws the conclusions for running stores: snapshot isolation, atomic groups, layered lookup, files
  that are never collected too early, group commit. `StoreRecovery` says what survives a crash, and `StoreLevels` puts
  the levels under it: lookups in tables, and compactions whose inputs the version set chose.
- `StoreWrites` says what writes and compactions do in terms of the batches and snapshots of callers: what was written
  is read, what was refused is not. `StoreProgress` says what can always be done while the files can be written.
- `DbImpl` the object: fields updated in place, each method one event of the protocol; opening with log replay.
- `Coding`, `LogFormat`, `LogWriter`, `LogReader`, `LogRoundTrip` varints, checksums and the block-fragmented log.
- `WriteBatch`, `VersionEdit` the two other byte formats. `LogReplay` from the bytes of a log to the store's records.

**nanopb's protobuf codec** writes and reads structs under the control of field descriptors.

- `PbVarint` the integer encodings. `PbMessage` descriptors, message values and the wire format as functions.
- `PbRoundTrip` what decoding returns for an encoded message.
- `PbEncode`, `PbDecode` the stream-based encoder and decoder, proved against those functions for all inputs.
- `PbIter`, `PbRequired` the field iterator and the bitmap of required fields.
- `PbTheorems` what users rely on: which implicit fields are left out, that any accepted message is within bounds, which
  member of a oneof is set, that unknown fields do not matter and messages merge.

`Vectors` says the formats of both libraries byte by byte, with the examples of their specifications.

`dafny verify dfyconfig.toml` checks everything.

## How to read it

- Atomics are sequentially consistent steps, and code between two releases of the mutex is one step.
- A user key stands for its rank under the user's comparator (a real number: countably many keys under any total
  order fit). A table file is the set of its entries, the merged input of a compaction or a cursor a sorted run.
- Answers of the environment (file errors, the scheduler, the height drawn for a node, when a memtable is full) are
  nondeterministic choices, or parameters of an event.
- `committed` and `installed` of an install event tell apart the outcomes of LogAndApply, which may fail after the
  descriptor was written. After a failure nothing is collected, which is what keeps both versions readable.
- What an append left in the log is an outcome of its event: nothing, the whole record, or anything else (a torn
  append), after which the writer may be out of step with the file. Recovery is then handed, of each log, all records
  in front of the first torn append (`ReadsSound`), and behind it, this is the hypothesis `Genuine`, any selection of
  the records appended there, in order. `LogReplay` and the log modules prove the first part on bytes.
- A compaction may start on any tables and drop what the drop rule allows; what the version set chooses is one case.
- A message value of nanopb has one slot of items per field; what has-flags, counts and oneof tags declare absent is
  not part of it.

Some results differ from what one might expect of the code:

- A compaction can bring a deleted value back. `SetupOtherInputs` closes only the inputs of the upper level under the
  boundary rule (version_set.cc, lines 1407-1411), so the tables taken of the next level may end with the deletion of a
  user key whose older value begins the table behind them. When the deletion is dropped there, that value is read
  again: `SplitKeyBringsBack`. `ReadsPreservedExactly`, `ChoiceReadsExactly` and `CompactionReadsExactly` say exactly
  when readers notice; it cannot happen when both lists are closed. `Spoils` names it for the compaction that is
  running, `spoilt` remembers that it was installed, and theorems about what was written hold as long as it was not.
- A manual compaction may take tables with a gap between them. A memtable flushed into the gap while it runs may go to
  the level of its outputs, one of which then spans it, and a lookup misses the flushed keys: `FlushIntoGap`. Automatic
  compactions leave no gap: `NoGapKeepsLevels`.
- A cursor's guard for an invalid position after a change of direction (db_iter.cc, lines 154-158) is never taken.
- A failed append does not stop later writes (db_impl.cc, lines 1214-1237), although the log may then hold the refused
  record, or bytes that hide later ones. So a crash can bring back a refused write and lose an acknowledged one:
  `RefusedWriteReturns`, `AcknowledgedWriteLost`, and at the level of bytes `TornHeaderHides`. `StoreRecovery` says
  exactly when it does neither.
- AddRecord does not look at the status of filling a block's trailer; that counts as an append that tears the log in
  front of its own record, although it is acknowledged.
- A log reader that starts inside a block may report the fragments of a record that began before its offset; the records
  it returns are right all the same. Starting at a block, as recovery does at offset 0, it reports nothing.
- A key that does not parse resets the drop loop of a compaction, and a value deleted before may come back; see
  `ReadsPreservedExactly` for when.
- A null-batch writer can be absorbed into another writer's group, whose size then exceeds the limit only by its own
  leader: see `Fits` in `StoreTheorems`.
- Clear leaves the compact pointers of a version edit, so decoding inverts encoding exactly on targets without any.
- An implicit (proto3) field that is zero is not written and comes back as its default, whatever that is.
- The terminator of an empty nanopb descriptor answers to field number 0 and is read as a bool.

## Model

| member | source | states |
|---|---|---|
| `Format.TagIsInjective` | Toontagram/Pods/leveldb-library/db/dbformat.cc:14-18 | the packed 64-bit tag determines sequence number and type |
| `Format.TagFits` | Toontagram/Pods/leveldb-library/db/dbformat.h:63-65 | the largest sequence number is the largest whose tag fits into 64 bits |
| `Format.NewestExists` | Toontagram/Pods/leveldb-library/db/dbformat.cc:51-67 | if any version of a user key is visible at a sequence number, a newest one exists: reads are total |
| `Format.SeekFindsNewest` | Toontagram/Pods/leveldb-library/db/dbformat.cc:51-67 | in the order of internal keys, the first entry at or after the lookup key belongs to the user key exactly if some version is visible, and then it is the newest one |
| `Compaction.HiddenByPredecessor` | Toontagram/Pods/leveldb-library/db/db_impl.cc:929-963 | an entry is hidden from every protected snapshot exactly if the entry just before it has the same user key and a number within the smallest snapshot: one remembered number is enough |
| `Compaction.KeptExactlyUseful` | Toontagram/Pods/leveldb-library/db/db_impl.cc:929-963 | the drop loop keeps, in order, exactly the entries that are neither hidden nor old deletions of a user key at its base level |
| `Compaction.KeptIsGoodDrop` | Toontagram/Pods/leveldb-library/db/db_impl.cc:940-960 | what the loop drops meets the condition under which the store may start and install a compaction |
| `Compaction.GoodDropPreservesReads` | Toontagram/Pods/leveldb-library/db/db_impl.cc:929-963 | for any drop that meets the rule, and whatever lies outside the inputs: readers from smallest_snapshot on notice nothing if and only if no dropped deletion, newest of its key, has a value as the newest version under it outside the inputs |
| `Compaction.CompactionPreservesReads` | Toontagram/Pods/leveldb-library/db/db_impl.cc:929-963 | where every older version outside the inputs is found by the question for the base level, every read at every snapshot from smallest_snapshot on is the same before and after |
| `Compaction.ReadsPreservedExactly` | Toontagram/Pods/leveldb-library/db/db_impl.cc:929-963 | for any sorted input and whatever lies outside it: every read from smallest_snapshot on is the same before and after if and only if no dropped deletion, newest of its key, uncovers a value, in a table that is no input or behind a key that does not parse |
| `Compaction.UnparsableKeyUncoversDeleted` | Toontagram/Pods/leveldb-library/db/db_impl.cc:931-935 | that happens: after a corrupted key a value hidden by a dropped deletion comes back |
| `Compaction.OutputsAreDisjoint` | Toontagram/Pods/leveldb-library/db/db_impl.cc:974-1006 | successive output tables have disjoint key ranges, in order |
| `Compaction.CompactionState.Add` | Toontagram/Pods/leveldb-library/db/db_impl.cc:982-986 | an output remembers its first and last key and its entries |
| `Compaction.CompactionState.Store` | Toontagram/Pods/leveldb-library/db/db_impl.cc:974-996 | one kept entry goes to the end of the concatenated outputs, all of which are non-empty |
| `Compaction.CompactionState.DoCompactionWork` | Toontagram/Pods/leveldb-library/db/db_impl.cc:896-1006 | when the loop succeeds the concatenated outputs are exactly the kept entries, each output non-empty with smallest and largest its first and last key, and for any sorted input each output ends before the next begins |
| `DbIter.DBIter.FindNextUserEntry` | Toontagram/Pods/leveldb-library/db/db_iter.cc:168-198 | forward motion stops at the first live entry that is not to be skipped |
| `DbIter.DBIter.FindPrevUserEntry` | Toontagram/Pods/leveldb-library/db/db_iter.cc:227-267 | backward motion saves the last live entry and stays before all versions of its user key, past invisible versions and deletions |
| `DbIter.DBIter.Next` | Toontagram/Pods/leveldb-library/db/db_iter.cc:141-166 | from either direction Next reaches the nearest live entry ahead; the guard at lines 154-158 is never taken |
| `DbIter.DBIter.Prev` | Toontagram/Pods/leveldb-library/db/db_iter.cc:200-225 | from either direction Prev reaches the nearest live entry behind |
| `DbIter.DBIter.Seek` | Toontagram/Pods/leveldb-library/db/db_iter.cc:269-281 | Seek reaches the first live entry at or after the target |
| `DbIter.DBIter.SeekToFirst` | Toontagram/Pods/leveldb-library/db/db_iter.cc:283-292 | reaches the first live entry |
| `DbIter.DBIter.SeekToLast` | Toontagram/Pods/leveldb-library/db/db_iter.cc:294-299 | reaches the last live entry |
| `DbIter.LiveAtIsRead` | Toontagram/Pods/leveldb-library/db/db_iter.cc:141-299 | the live entries are the user keys that have a value in the map at the sequence number, with that value |
| `DbIter.ReachesLands` | Toontagram/Pods/leveldb-library/db/db_iter.cc:141-299 | reaching an entry of the run is landing on the nearest candidate key of the map |
| `DbIter.LandingIsUnique` | Toontagram/Pods/leveldb-library/db/db_iter.cc:141-299 | the specification leaves no choice of where to land |
| `DbIter.NextUndoesPrev` | Toontagram/Pods/leveldb-library/db/db_iter.cc:141-225 | Next after Prev, and Prev after Next, return to the same key and value |
| `DbIter.DBIter.Grow` | Toontagram/Pods/leveldb-library/db/db_iter.cc:141-299 | when the memtable below gains entries the cursor must not see, it goes on showing what it showed |
| `DbIter.DBIter.Run` | Toontagram/Pods/leveldb-library/db/db_iter.cc:141-299 | over any run of calls, with new entries arriving between them, every call lands where the map at the sequence number said when the run began |
| `SkipList.SkipList.Advance` | Toontagram/Pods/leveldb-library/db/skiplist.h:262-281 | one step of a search: only the last read decides the answer, and the answer is right at that moment |
| `SkipList.SkipList.FindGreaterOrEqual` | Toontagram/Pods/leveldb-library/db/skiplist.h:262-281 | the first node at or after the key, and at every level the node behind which it belongs |
| `SkipList.SkipList.PublishLevel` | Toontagram/Pods/leveldb-library/db/skiplist.h:363-368 | linking one level keeps every level a sublist of the one below, sorted and chained |
| `SkipList.SkipList.WriterStep` | Toontagram/Pods/leveldb-library/db/skiplist.h:363-368 | a writer step keeps every search in progress valid |
| `SkipList.SkipList.SearchDuringInserts` | Toontagram/Pods/leveldb-library/db/skiplist.h:262-281 | a search interleaved in any way with any number of insertions, from any starting level, returns the first entry at or after the key in the bottom list at its last read |
| `SkipList.SkipList.Insert` | Toontagram/Pods/leveldb-library/db/skiplist.h:337-368 | the entry takes its place in the bottom list and nothing else changes |
| `SkipList.SkipList.Contains` | Toontagram/Pods/leveldb-library/db/skiplist.h:371-378 | true exactly if an equal entry is in the list |
| `SkipList.SkipList.FindLessThan` | Toontagram/Pods/leveldb-library/db/skiplist.h:285-303 | the last node before the key, or the head |
| `SkipList.SkipList.FindLast` | Toontagram/Pods/leveldb-library/db/skiplist.h:305-323 | the last node, or the head |
| `SkipList.InsertedSorted` | Toontagram/Pods/leveldb-library/db/skiplist.h:337-368 | inserting at the place the search found keeps a list sorted |
| `MemTable.MemTable.Add` | Toontagram/Pods/leveldb-library/db/memtable.cc:75-98 | the contents gain exactly the new entry |
| `MemTable.MemTable.Get` | Toontagram/Pods/leveldb-library/db/memtable.cc:100-134 | the value or deletion of the newest version visible at the lookup sequence, or nothing if none is |
| `MemTable.LayeredIsFlat` | Toontagram/Pods/leveldb-library/db/db_impl.cc:1123-1134 | asking newer layers first answers like one read of their union |
| `Snapshots.SnapshotList.New` | Toontagram/Pods/leveldb-library/db/snapshot.h:57-70 | the new snapshot is last in a well-formed ring that stays sorted |
| `Snapshots.SnapshotList.Delete` | Toontagram/Pods/leveldb-library/db/snapshot.h:79-86 | exactly that snapshot leaves the ring, which stays well formed |
| `Snapshots.SnapshotList.Oldest` | Toontagram/Pods/leveldb-library/db/snapshot.h:47-50 | the oldest is the minimum of all |
| `Snapshots.SnapshotList.Newest` | Toontagram/Pods/leveldb-library/db/snapshot.h:51-54 | the newest is the maximum of all |
| `Snapshots.RingRemoved` | Toontagram/Pods/leveldb-library/db/snapshot.h:83-84 | relinking two neighbours is removing one element of the ring |
| `Versions.FindFile` | Toontagram/Pods/leveldb-library/db/version_set.cc:88-106 | binary search finds the first table that does not end before the key |
| `Versions.Get` | Toontagram/Pods/leveldb-library/db/version_set.cc:326-421 | level 0 from newest to oldest, then one table a level, down to the first with something to say, answers like one map of all tables |
| `Versions.SomeFileOverlapsRange` | Toontagram/Pods/leveldb-library/db/version_set.cc:122-157 | finds whether some table overlaps a range of user keys, by binary search where the level is in order |
| `Versions.PickLevelForMemTableOutput` | Toontagram/Pods/leveldb-library/db/version_set.cc:491-516 | a flushed memtable goes down as far as level 2, past levels where nothing overlaps it and not too much lies below, and no less far: it stops only at an overlap, at too many bytes below, or at level 2 |
| `Versions.FlushKeepsLevels` | Toontagram/Pods/leveldb-library/db/version_set.cc:491-516 | so the version with the new table is again one that lookups can rely on |
| `Versions.PlacedOrdered` | Toontagram/Pods/leveldb-library/db/version_set.cc:695-755 | a level takes in a table and stays in order if and only if the table overlaps none of it |
| `InputChoice.GetOverlappingInputs` | Toontagram/Pods/leveldb-library/db/version_set.cc:519-559 | the tables that overlap a range; in level 0 the range is widened until no table in it sticks out, and a range filled by tables stays so |
| `InputChoice.AddBoundaryInputs` | Toontagram/Pods/leveldb-library/db/version_set.cc:1378-1401 | afterwards no table of the level begins with an older version of the user key the inputs end with; a stretch of the level stays a stretch |
| `InputChoice.SetupOtherInputs` | Toontagram/Pods/leveldb-library/db/version_set.cc:1403-1462 | closed inputs of the level and exactly the tables of the next that overlap their user keys, also when expanded; tables without gap are left without gap |
| `InputChoice.PickCompaction` | Toontagram/Pods/leveldb-library/db/version_set.cc:1270-1322 | the same for an automatic compaction, whose inputs leave no gap |
| `InputChoice.CompactRange` | Toontagram/Pods/leveldb-library/db/version_set.cc:1464-1495 | the same for a manual one, or nothing where nothing overlaps the range |
| `InputChoice.BaseLevels.IsBaseLevelForKey` | Toontagram/Pods/leveldb-library/db/version_set.cc:1533-1552 | for user keys asked in ascending order, the pointers that only move forward give the right answer: no table two or more levels below contains the key |
| `LevelTheorems.LeftBehindIsNewer` | Toontagram/Pods/leveldb-library/db/version_set.cc:1366-1373 | what a compaction leaves behind in its level is newer than what it takes of it |
| `LevelTheorems.OlderOutside` | Toontagram/Pods/leveldb-library/db/version_set.cc:1403-1462 | an older version of a user key of the inputs is in no other table but a deeper one, or the one right behind the inputs of the next level, which begins with the user key they end with |
| `LevelTheorems.ChoiceReadsExactly` | Toontagram/Pods/leveldb-library/db/version_set.cc:1403-1552 | whatever tables are chosen, every read from smallest_snapshot on is the same before and after if and only if no value at the beginning of that table is uncovered |
| `LevelTheorems.ClosedChoiceKeepsReads` | Toontagram/Pods/leveldb-library/db/version_set.cc:1366-1411 | so no read changes where the inputs of the next level are closed under the boundary rule too |
| `LevelTheorems.SplitKeyBringsBack` | Toontagram/Pods/leveldb-library/db/version_set.cc:1407-1411 | they need not be: versions of a user key split over two tables of a level, a choice of the first only, and a deleted value that is read again |
| `LevelTheorems.SplitKeyExists` | Toontagram/Pods/leveldb-library/db/db_impl.cc:989-995 | such tables with their keys and numbers, as the drop loop leaves them under a snapshot |
| `LevelTheorems.InstallKeepsLevels` | Toontagram/Pods/leveldb-library/db/db_impl.cc:860-876 | after a compaction, with memtables flushed meanwhile, lookups can rely on the levels if and only if no table flushed to the next level overlaps an output |
| `LevelTheorems.NoGapKeepsLevels` | Toontagram/Pods/leveldb-library/db/version_set.cc:1270-1322 | which is so whenever the inputs leave no gap, as those of an automatic compaction |
| `LevelTheorems.FlushIntoGap` | Toontagram/Pods/leveldb-library/db/version_set.cc:491-516 | a manual compaction may leave one: a memtable is flushed into it, the output spans it, and the lookup of its key ends at the output |
| `StoreLevels.LevelsAreFlat` | Toontagram/Pods/leveldb-library/db/db_impl.cc:1123-1134 | memtables first, then the tables level by level: one map |
| `StoreLevels.ChoiceMayStart` | Toontagram/Pods/leveldb-library/db/db_impl.cc:700-710 | what the version set chooses and the loop keeps of it is a compaction the protocol may start |
| `StoreLevels.ChoiceSpoilsExactly` | Toontagram/Pods/leveldb-library/db/version_set.cc:1403-1462 | when it starts it is known whether it brings a value back: if and only if a value at the beginning of the table right behind its inputs of the next level is uncovered |
| `StoreLevels.ClosedCompactionUnnoticed` | Toontagram/Pods/leveldb-library/db/db_impl.cc:878-1036 | over a run, a compaction of tables closed in both levels is installed without any protected read changing |
| `StoreTheorems.EventKeeps` | Toontagram/Pods/leveldb-library/db/db_impl.cc:223-1515 | every one of the twenty events keeps the store invariant, failed and torn appends included |
| `StoreTheorems.RunsAreSafe` | Toontagram/Pods/leveldb-library/db/db_impl.cc:223-1515 | every state of every run, crashes included, satisfies the invariant |
| `StoreTheorems.ReadsAreStable` | Toontagram/Pods/leveldb-library/db/db_impl.cc:491-1370 | no event but a crash changes a read at a published number; an installed compaction none from its snapshot on, unless it brings a value back |
| `StoreTheorems.CompactionReadsExactly` | Toontagram/Pods/leveldb-library/db/db_impl.cc:860-876 | readers from its smallest snapshot on notice the installation of a compaction if and only if it brings a value back |
| `StoreTheorems.SpoilsFromStart` | Toontagram/Pods/leveldb-library/db/db_impl.cc:878-1036 | whether it does is settled when the compaction starts: no write, flush or collection while it runs changes it |
| `StoreTheorems.SnapshotIsolation` | Toontagram/Pods/leveldb-library/db/db_impl.cc:1100-1135 | over any stretch of a run in which no compaction that brings a value back is installed, a held snapshot stays readable and reads the same |
| `StoreTheorems.SnapshotsProtected` | Toontagram/Pods/leveldb-library/db/db_impl.cc:890-894 | a running compaction never works above a held snapshot, however late it was taken |
| `StoreTheorems.GroupsAreAtomic` | Toontagram/Pods/leveldb-library/db/db_impl.cc:1204-1237 | a reader whose number was LastSequence at some step, with or without a snapshot, sees at every later step all of a logged group or none of it; a refused group is not seen until the store is reopened |
| `StoreTheorems.LayersOrdered` | Toontagram/Pods/leveldb-library/db/db_impl.cc:1336-1367 | all numbers in the memtable are above those in the immutable one, and those above the ones in tables |
| `StoreTheorems.CapturedGetIsFlat` | Toontagram/Pods/leveldb-library/db/db_impl.cc:1100-1145 | Get takes its layers and number under the mutex and reads them later without it: whatever happens meanwhile, the answer is that of one map of all that was there when it took them, and that is all that was written unless a compaction brought a value back before |
| `StoreTheorems.NoLiveFileCollected` | Toontagram/Pods/leveldb-library/db/db_impl.cc:223-278 | no event deletes or rewrites a table in a live version, among pending outputs or about to be installed, nor a log that recovery would read |
| `StoreTheorems.UnusedFilesGo` | Toontagram/Pods/leveldb-library/db/db_impl.cc:223-278 | and after an installation every table left is in the current version, in one a reader holds or a pending output, and no covered log is left |
| `StoreTheorems.GroupCommit` | Toontagram/Pods/leveldb-library/db/db_impl.cc:1185-1306 | writers are served in arrival order; the batches taken, one behind the other, are the operations of the attempts, one behind the other, a null batch taking no room; no sequence number is handed out twice even after a failed write |
| `StoreTheorems.FinishPopsItsGroup` | Toontagram/Pods/leveldb-library/db/db_impl.cc:1239-1253 | the writers popped are exactly those whose batches make up the group, each whole and in order |
| `StoreWrites.WritesAreRead` | Toontagram/Pods/leveldb-library/db/db_impl.cc:1223-1253 | over every run, when a group logged and synced is finished, a read of any user key gives what the last operation on it in the batches of the popped writers made of it, the value written or nothing after a deletion, and what it gave before if there is none |
| `StoreWrites.RefusedIsUnread` | Toontagram/Pods/leveldb-library/db/db_impl.cc:1214-1256 | when a write ends that failed, every read gives what it gave before |
| `StoreWrites.NoWriteAfterSyncError` | Toontagram/Pods/leveldb-library/db/db_impl.cc:1227-1232 | once a sync has failed, no write is begun, logged or inserted until the store is reopened |
| `StoreWrites.CompactionStart` | Toontagram/Pods/leveldb-library/db/db_impl.cc:890-894 | a compaction drops at the number of the oldest snapshot held, at LastSequence if none is held, and of every user key keeps at most one version within them all |
| `StoreWrites.PendingIsExact` | Toontagram/Pods/leveldb-library/db/db_impl.cc:491-525 | over every run, the outputs protected from collection are exactly those a flush or a compaction is writing |
| `StoreProgress.FrontIsServed` | Toontagram/Pods/leveldb-library/db/db_impl.cc:1185-1256 | as long as the files can be written, the writer in front of the queue is served with the group behind it, and what they wrote is read |
| `StoreProgress.QueueDrains` | Toontagram/Pods/leveldb-library/db/db_impl.cc:1185-1256 | so the whole queue is served, null batches included |
| `StoreProgress.SnapshotMayGo` | Toontagram/Pods/leveldb-library/db/db_impl.cc:1167-1170 | a snapshot that is held can be released at any moment: that one goes and no other |
| `StoreProgress.VersionMayGo` | Toontagram/Pods/leveldb-library/db/db_impl.cc:1050-1058 | and so can a version a reader holds |
| `StoreProgress.MemTableIsFlushed` | Toontagram/Pods/leveldb-library/db/db_impl.cc:535-566 | a full memtable can become a table at any moment, also while a compaction runs, and no read changes |
| `StoreProgress.CompactionEnds` | Toontagram/Pods/leveldb-library/db/db_impl.cc:688-760 | a compaction that may start can come to its end: its inputs are replaced by what it keeps |
| `StoreProgress.CanReopen` | Toontagram/Pods/leveldb-library/db/db_impl.cc:280-369 | after a crash at any moment, whatever of the records behind a torn append is read back, the store can be opened |
| `StoreTheorems.LogReceivesAttempts` | Toontagram/Pods/leveldb-library/db/db_impl.cc:1214-1222 | over every run, the records written since opening are those of the attempts whose append left the whole record, in order and once each; each log is a stretch of them and the logs one behind the other are their end |
| `StoreTheorems.MemTableReceivesBatches` | Toontagram/Pods/leveldb-library/db/db_impl.cc:1223-1225 | over every run, what was inserted into memtables lies there attempt by attempt: nothing of those that failed, of the others every operation under its number with its key, as a value or a deletion, in order and once; the memtable holds what came since the last switch, the immutable one what came between the last two |
| `StoreTheorems.RecordSpells` | Toontagram/Pods/leveldb-library/db/write_batch.cc:115-137 | a record stands for one entry for each operation, numbered from its base on: a value for a put, a deletion for a deletion |
| `StoreTheorems.NextInsertIsNew` | Toontagram/Pods/leveldb-library/db/memtable.cc:75-98 | every entry of the memtable is numbered below the next one inserted, so the skip list never meets a duplicate |
| `StoreRecovery.CrashRecovery` | Toontagram/Pods/leveldb-library/db/db_impl.cc:280-369 | reopening after a crash at any moment gives exactly what was recovered: all tables, all records in front of a torn append, whole records only, nothing never logged; LastSequence is past every number stored; when no append was torn, all that is on disk comes back |
| `StoreRecovery.NothingTornReadsAll` | Toontagram/Pods/leveldb-library/db/db_impl.cc:371-425 | when no append was torn, nothing has to be assumed about how readers take bytes: all records are read back |
| `StoreRecovery.RecoveryIsRepeatable` | Toontagram/Pods/leveldb-library/db/db_impl.cc:280-369 | however often opening was cut off before its edit reached the descriptor, with tables half written and new logs empty, the next opening is one of what the crash left, with the same outcome |
| `StoreRecovery.DurableReads` | Toontagram/Pods/leveldb-library/db/db_impl.cc:535-566 | at every moment the acknowledged part of what tables and logs hold is exactly what readers see, as long as there was no background error, and after one still reads alike unless a compaction brought a value back |
| `StoreRecovery.NumbersNotReused` | Toontagram/Pods/leveldb-library/db/db_impl.cc:349-366 | when every record is read back, LastSequence after recovery is past every number a logged record ever had |
| `StoreRecovery.NothingLostExactly` | Toontagram/Pods/leveldb-library/db/db_impl.cc:1213-1237 | recovery is sure to bring back everything acknowledged on disk if and only if nothing acknowledged stands behind a torn append in a log that it reads |
| `StoreRecovery.RecoveryIsExact` | Toontagram/Pods/leveldb-library/db/db_impl.cc:1213-1237 | it is sure to bring back exactly that if and only if no entry is doubtful: none refused but logged, none acknowledged behind a torn append |
| `StoreRecovery.ReadsSurviveExactly` | Toontagram/Pods/leveldb-library/db/db_impl.cc:1213-1237 | a crash changes no read at any number if and only if every doubtful entry repeats what is certain about its key |
| `StoreRecovery.CrashBetweenWrites` | Toontagram/Pods/leveldb-library/db/db_impl.cc:1474-1515 | then a crash between writes changes no read at all; after a background error, if no compaction brought a value back, none from the compactions' horizon on and none of new readers |
| `StoreRecovery.CleanAppendsAreSafe` | Toontagram/Pods/leveldb-library/db/db_impl.cc:1213-1237 | when all appends to the logs recovery reads went well, nothing is doubtful |
| `StoreRecovery.RefusedWriteReturns` | Toontagram/Pods/leveldb-library/db/log_writer.cc:98-105 | a run in which a refused write, whose record is in the file, comes back after a crash |
| `StoreRecovery.AcknowledgedWriteLost` | Toontagram/Pods/leveldb-library/db/log_writer.cc:98-107 | a run in which a write acknowledged behind a torn append is lost by a crash |
| `StoreTheorems.GroupWithinBounds` | Toontagram/Pods/leveldb-library/db/db_impl.cc:1260-1306 | a non-sync leader takes no sync writer along; the group is at most 1 MiB, and at most 128 KiB more than a leader of no more than 128 KiB; it ends early only for one of these reasons |
| `DbImpl.DBImpl.BuildBatchGroup` | Toontagram/Pods/leveldb-library/db/db_impl.cc:1260-1306 | the loop takes exactly the group; its operations are the batches of the writers taken, each whole, one behind the other |
| `DbImpl.DBImpl.BeginWrite` | Toontagram/Pods/leveldb-library/db/db_impl.cc:1201-1207 | numbers the group from LastSequence + 1; the object stays within the invariant |
| `DbImpl.DBImpl.LogGroup` | Toontagram/Pods/leveldb-library/db/db_impl.cc:1214-1222 | logging and syncing a group, whatever a failure leaves in the log |
| `DbImpl.DBImpl.InsertOne` | Toontagram/Pods/leveldb-library/db/write_batch.cc:121-128 | one insertion into the memtable with the mutex released: one entry with the number of the operation, its key, and its value or a deletion |
| `DbImpl.DBImpl.LeaveWrite` | Toontagram/Pods/leveldb-library/db/db_impl.cc:1226-1253 | publishes LastSequence and pops the group |
| `DbImpl.DBImpl.SwitchMemTable` | Toontagram/Pods/leveldb-library/db/db_impl.cc:1345-1367 | a new log and memtable; the full one becomes immutable |
| `DbImpl.DBImpl.BuildTable` | Toontagram/Pods/leveldb-library/db/db_impl.cc:491-533 | the immutable memtable becomes a table, with the file protected while it is written |
| `DbImpl.DBImpl.InstallFlush` | Toontagram/Pods/leveldb-library/db/db_impl.cc:535-566 | installs the table and collects files, or records the background error |
| `DbImpl.DBImpl.InstallCompaction` | Toontagram/Pods/leveldb-library/db/db_impl.cc:860-876 | replaces the inputs by the outputs and collects files, or records the background error |
| `DbImpl.DBImpl.DeleteObsoleteFiles` | Toontagram/Pods/leveldb-library/db/db_impl.cc:223-278 | keeps live and pending tables and the logs from LogNumber on, and deletes the rest; nothing after a background error |
| `DbImpl.DBImpl.RecoverLogFile` | Toontagram/Pods/leveldb-library/db/db_impl.cc:371-489 | replays one log into tables that together hold its entries, and finds the largest number |
| `DbImpl.DBImpl.Recover` | Toontagram/Pods/leveldb-library/db/db_impl.cc:314-369 | replays exactly the logs from the descriptor's LogNumber on; new tables and the new log get unused numbers |
| `DbImpl.DBImpl.Open` | Toontagram/Pods/leveldb-library/db/db_impl.cc:1474-1515 | what Open sets up from the tables and from what the log readers return is a reopening step of the protocol, and satisfies the invariant |
| `LogWriter.Writer.EmitPhysicalRecord` | Toontagram/Pods/leveldb-library/db/log_writer.cc:82-108 | appends header and payload, or a prefix of them when an append fails |
| `LogWriter.Writer.AddRecord` | Toontagram/Pods/leveldb-library/db/log_writer.cc:34-80 | appends exactly the fragments of the record; a failure leaves a prefix of them, and the writer in step with the file if that is the whole record; only filling a trailer can fail unnoticed |
| `LogWriter.AddedToLog` | Toontagram/Pods/leveldb-library/db/log_writer.cc:34-80 | record by record the file grows into the image of the log; a torn append leaves a byte prefix of the longer log |
| `LogReader.HeaderSeen` | Toontagram/Pods/leveldb-library/db/log_reader.cc:216-247 | a header read from a log announces what was written and its checksum fits |
| `LogReader.ChecksSuffice` | Toontagram/Pods/leveldb-library/db/log_reader.cc:243-256 | what passes the length and checksum tests is a physical record |
| `LogReader.Reader.ReadPhysicalRecord` | Toontagram/Pods/leveldb-library/db/log_reader.cc:189-271 | on any file, what is returned is there with a fitting checksum; on a log, it is the next record, or end of file if that is cut off, and nothing is reported |
| `LogReader.Land` | Toontagram/Pods/leveldb-library/db/log_reader.cc:33-54 | skipping to the block of the initial offset loses no record that starts at or behind it |
| `LogReader.Meets` | Toontagram/Pods/leveldb-library/db/log_reader.cc:76-172 | what one physical record does to the records still due |
| `LogReader.Reader.ReadRecord` | Toontagram/Pods/leveldb-library/db/log_reader.cc:56-174 | where a file begins like a log, the first record due with its offset, or false when none is; a report exactly for the fragments of a record that began before the initial offset |
| `LogReader.Reader.ReadAll` | Toontagram/Pods/leveldb-library/db/log_reader.cc:56-174 | from any initial offset, a file that begins like a log yields first all records due of it, whatever stands behind; a cut log yields nothing else, with a report if and only if the reader starts inside a block and a record begun before the offset has a complete fragment at or behind it |
| `LogFormat.DueIsPrefix` | Toontagram/Pods/leveldb-library/db/log_reader.cc:56-174 | from offset 0 that is the longest list of records lying in the file whole, and all of them if the file is whole |
| `LogFormat.ImageAppend` | Toontagram/Pods/leveldb-library/db/log_writer.cc:34-80 | the image of a longer log is the image of the shorter one and the fragments of the new record |
| `LogReplay.ReplayLog` | Toontagram/Pods/leveldb-library/db/db_impl.cc:371-425 | a log file that begins with the batches of some records of the store, spelled out in bytes, gives back first their entries, record by record and in order, and nothing else when it holds nothing else |
| `LogReplay.InsertedOf` | Toontagram/Pods/leveldb-library/db/write_batch.cc:115-137 | what the memtable is given of a batch in bytes is, spelled out, key by key, number by number and kind by kind, what its record stands for |
| `LogRoundTrip.AddRecords` | Toontagram/Pods/leveldb-library/db/log_writer.cc:34-80 | added one after the other, records give the image of the log, or a prefix of it that holds all added before the failure |
| `LogRoundTrip.ReadCut` | Toontagram/Pods/leveldb-library/db/log_reader.cc:56-174 | reading any byte prefix of a log gives the longest list of records lying in it whole, with their offsets, and no report |
| `LogRoundTrip.WriteCutRead` | Toontagram/Pods/leveldb-library/db/log_reader.cc:56-174 | end to end: write, lose the end of the file, read; the records come back in order up to the first that is not there whole |
| `LogRoundTrip.StartInsideReports` | Toontagram/Pods/leveldb-library/db/log_reader.cc:123-142 | a reader that is to start at the second byte of a flawless log reports corruption |
| `LogRoundTrip.TornHeaderHides` | Toontagram/Pods/leveldb-library/db/log_reader.cc:221-233 | a record that was added behind a torn header is not read |
| `Vectors.PhysicalByBytes` | Toontagram/Pods/leveldb-library/db/log_writer.cc:82-108 | the header of a physical record byte by byte: masked checksum of type and payload, length with its low byte first, type |
| `Vectors.FragmentByBytes` | Toontagram/Pods/leveldb-library/db/log_writer.cc:34-80 | a record that fits into its block is one physical record, of type 1 or 4; a longer one fills its block with type 2 or 3 and goes on behind |
| `Vectors.TrailerByBytes` | Toontagram/Pods/leveldb-library/db/log_writer.cc:47-55 | fewer than seven bytes at the end of a block are zeros |
| `Vectors.ThreeRecords` | Toontagram/Pods/leveldb-library/db/log_format.h:14-30 | records of 1000, 97270 and 8000 bytes on four blocks, with their types, splits and the trailer of six bytes |
| `Coding.UnmaskMask` | Toontagram/Pods/leveldb-library/util/crc32c.h:29-38 | unmasking inverts masking |
| `Vectors.CrcOfDigits` | Toontagram/Pods/leveldb-library/util/crc32c.cc:276-377 | the checksum of the nine digits is the check value of CRC-32C |
| `Vectors.LittleEndian` | Toontagram/Pods/leveldb-library/util/coding.cc:9-32 | fixed numbers have their low byte first |
| `Vectors.VarintByBytes` | Toontagram/Pods/leveldb-library/util/coding.cc:47-90 | varints have seven bits a byte, low bits first, the top bit set on all but the last |
| `Coding.VarintRoundTrip` | Toontagram/Pods/leveldb-library/util/coding.cc:112-157 | decoding a varint that fits gives the number back and leaves what follows it |
| `Coding.VarintPrefixFree` | Toontagram/Pods/leveldb-library/util/coding.cc:81-90 | no varint is a prefix of another |
| `Coding.EncodeVarint32` | Toontagram/Pods/leveldb-library/util/coding.cc:47-73 | the five cases write the base-128 format |
| `Coding.EncodeVarint64` | Toontagram/Pods/leveldb-library/util/coding.cc:81-90 | the loop writes the base-128 format |
| `Coding.GetVarint32PtrFallback` | Toontagram/Pods/leveldb-library/util/coding.cc:112-128 | at most five bytes, bits beyond 32 lost, failure on a missing end |
| `Coding.GetVarint64Ptr` | Toontagram/Pods/leveldb-library/util/coding.cc:142-157 | at most ten bytes, bits beyond 64 lost, failure on a missing end |
| `Coding.SliceRoundTrip` | Toontagram/Pods/leveldb-library/util/coding.cc:98-101 | a length-prefixed string of less than 4 GiB is read back and what follows is left |
| `WriteBatches.BatchRoundTrip` | Toontagram/Pods/leveldb-library/db/write_batch.cc:42-80 | reading the updates of a batch gives back exactly those written, in order, with nothing left over |
| `WriteBatches.WriteBatch.Put` | Toontagram/Pods/leveldb-library/db/write_batch.cc:98-103 | one more update at the end, and the count one higher |
| `WriteBatches.WriteBatch.Delete` | Toontagram/Pods/leveldb-library/db/write_batch.cc:105-109 | one more deletion at the end, and the count one higher |
| `WriteBatches.WriteBatch.Append` | Toontagram/Pods/leveldb-library/db/write_batch.cc:144-148 | the updates of both, one after the other, also when a batch is appended to itself |
| `WriteBatches.WriteBatch.SetSequence` | Toontagram/Pods/leveldb-library/db/write_batch.cc:94-96 | changes the sequence number and nothing else |
| `WriteBatches.WriteBatch.Iterate` | Toontagram/Pods/leveldb-library/db/write_batch.cc:42-80 | on any bytes, replays the updates that can be read, and succeeds exactly if they are all of it and as many as the count |
| `WriteBatches.WriteBatch.InsertInto` | Toontagram/Pods/leveldb-library/db/write_batch.cc:132-137 | a batch built by Put, Delete and Append arrives whole, in order, numbered consecutively |
| `WriteBatches.UnknownTagStops` | Toontagram/Pods/leveldb-library/db/write_batch.cc:52-76 | a record with another tag ends the batch: what came before is replayed, and it is corrupt |
| `Vectors.UpdateByBytes` | Toontagram/Pods/leveldb-library/db/write_batch.cc:98-109 | a put is a one and two strings behind their lengths, a deletion a zero and one string |
| `Vectors.BatchByBytes` | Toontagram/Pods/leveldb-library/db/write_batch.cc:82-96 | eight bytes of sequence number and four of count in front |
| `VersionEdits.FieldRoundTrip` | Toontagram/Pods/leveldb-library/db/version_edit.cc:41-85 | a field is read back as written exactly if its level is below seven, otherwise it is refused |
| `VersionEdits.FieldsRoundTrip` | Toontagram/Pods/leveldb-library/db/version_edit.cc:107-205 | a list of fields is read back whole exactly if all levels are below seven |
| `VersionEdits.ApplyFields` | Toontagram/Pods/leveldb-library/db/version_edit.cc:26-39 | reading an edit into another one restores it behind the compact pointers that were there, which Clear leaves |
| `VersionEdits.EditRoundTrip` | Toontagram/Pods/leveldb-library/db/version_edit.cc:26-205 | decoding accepts an encoded edit exactly if every level is below seven, and then equals it exactly if the target had no compact pointers |
| `VersionEdits.VersionEdit.EncodeTo` | Toontagram/Pods/leveldb-library/db/version_edit.cc:41-85 | writes the fields set, then pointers, deleted files and new files |
| `VersionEdits.VersionEdit.DecodeFrom` | Toontagram/Pods/leveldb-library/db/version_edit.cc:107-205 | on any bytes, clears and then applies the fields that can be read, and succeeds exactly if they are all of it |
| `VersionEdits.ReadField` | Toontagram/Pods/leveldb-library/db/version_edit.cc:120-193 | the switch on the tag reads one field or fails |
| `VersionEdits.UnknownTagRefused` | Toontagram/Pods/leveldb-library/db/version_edit.cc:188-193 | any other tag is refused, the eighth included |
| `Vectors.CountersByBytes` | Toontagram/Pods/leveldb-library/db/version_edit.cc:14-24 | the four numbers of an edit byte by byte, with the tags that are written to disk |
| `Vectors.EditByBytes` | Toontagram/Pods/leveldb-library/db/version_edit.cc:14-24 | and comparator, compact pointer and deleted file |
| `Vectors.NewFileByBytes` | Toontagram/Pods/leveldb-library/db/version_edit.cc:74-84 | a new file is level, number, size, smallest and largest key |
| `PbVarint.EncodeVarint` | Toontagram/Pods/nanopb/pb_encode.c:608-628 | the ten-byte buffer loop writes the base-128 format of any 64-bit value |
| `PbVarint.Var32RoundTrip` | Toontagram/Pods/nanopb/pb_decode.c:187-247 | the 32-bit decoder agrees with the format on 32-bit values |
| `PbVarint.Var32Negative` | Toontagram/Pods/nanopb/pb_decode.c:221-237 | on a sign-extended negative number, ten bytes long, it returns the low 32 bits |
| `PbVarint.ZigzagRoundTrip` | Toontagram/Pods/nanopb/pb_encode.c:630-639 | zigzag decoding inverts encoding |
| `PbVarint.UnzigzagRoundTrip` | Toontagram/Pods/nanopb/pb_decode.c:1279-1291 | and the other way round, so it is a bijection of 64-bit numbers |
| `Vectors.ZigzagByFormula` | Toontagram/Pods/nanopb/pb_encode.c:630-639 | positive numbers are doubled, negative ones go to the odd numbers |
| `PbRoundTrip.ScalarRoundTrip` | Toontagram/Pods/nanopb/pb_decode.c:1328-1439 | every scalar, string and bytes value within its C type is read back as written |
| `PbRoundTrip.PackedItems` | Toontagram/Pods/nanopb/pb_decode.c:424-453 | the packed loop reads back exactly the items of a packed array |
| `PbRoundTrip.MessageRead` | Toontagram/Pods/nanopb/pb_decode.c:928-1090 | decoding an encoded message gives it back except that implicit fields that are zero come back as their defaults |
| `PbRoundTrip.MessageRoundTrip` | Toontagram/Pods/nanopb/pb_decode.c:1078-1090 | it is the message itself exactly if no implicit field, at any depth, is zero while its default is something else |
| `PbRoundTrip.ZeroDefaultsRoundTrip` | Toontagram/Pods/nanopb/pb_encode.c:528-550 | so for descriptors whose implicit defaults are zero numbers, empty strings and bytes, at every depth, every message comes back |
| `PbTheorems.ImplicitLeftOut` | Toontagram/Pods/nanopb/pb_encode.c:240-336 | an implicit field is left out of the bytes if and only if it is a zero number, an empty string or bytes, or a message of which, at every depth, nothing is present and nothing required |
| `PbTheorems.EmptySubmessageLeftOut` | Toontagram/Pods/nanopb/pb_encode.c:289-307 | an implicit submessage is left out if and only if there is nothing in it to write |
| `PbTheorems.DecodedIsOk` | Toontagram/Pods/nanopb/pb_decode.c:928-1090 | whatever the bytes, a message that is accepted is within the bounds of its storage at every depth: integers within their types, strings terminated, arrays within their counts, at most one member of each oneof |
| `PbTheorems.OneofHoldsLast` | Toontagram/Pods/nanopb/pb_decode.c:464-478 | whatever the bytes, a member of a oneof is set if and only if it is the last of its union that the bytes hold |
| `PbTheorems.TurnReplaces` | Toontagram/Pods/nanopb/pb_decode.c:406-483 | reading a field clears the other members of its union and touches no other field |
| `PbTheorems.LastScalarCounts` | Toontagram/Pods/nanopb/pb_decode.c:413-422 | of a number, string or bytes the last occurrence counts |
| `PbTheorems.SubmessagesMerge` | Toontagram/Pods/nanopb/pb_decode.c:1519-1541 | a submessage that comes again is read into the one that is there |
| `PbTheorems.ArraysGrow` | Toontagram/Pods/nanopb/pb_decode.c:424-462 | arrays grow at their end |
| `PbTheorems.FixedArrayStartsAfresh` | Toontagram/Pods/nanopb/pb_decode.c:991-1012 | an array of fixed length is filled afresh when it comes again behind another one |
| `PbTheorems.UnknownFieldIgnored` | Toontagram/Pods/nanopb/pb_decode.c:984-988 | a field the descriptor does not have, as an encoder that knows it writes it, changes nothing wherever it stands |
| `PbTheorems.NewerSender` | Toontagram/Pods/nanopb/pb_decode.c:928-1090 | a message written under a descriptor with fields added anywhere is read under the older one as what it holds of the older fields |
| `PbTheorems.ConcatenationMerges` | Toontagram/Pods/nanopb/pb_decode.c:928-1090 | without required fields and arrays of fixed length, reading a message and then more bytes is reading these into the message |
| `Vectors.WireTypesByBytes` | Toontagram/Pods/nanopb/pb_encode.c:669-707 | tag and wire type of every kind of field byte by byte: 0 for varints, 1 for eight bytes, 2 for lengths, 5 for four bytes |
| `Vectors.NumberExample` | Toontagram/Pods/nanopb/pb_encode.c:608-628 | the first example of the Encoding specification |
| `Vectors.StringExample` | Toontagram/Pods/nanopb/pb_encode.c:669-715 | its example of a string |
| `Vectors.SubmessageExample` | Toontagram/Pods/nanopb/pb_encode.c:717-765 | its example of a message in a message |
| `Vectors.PackedExample` | Toontagram/Pods/nanopb/pb_encode.c:147-236 | its example of a packed array |
| `PbEncode.Encode` | Toontagram/Pods/nanopb/pb_encode.c:528-550 | succeeds exactly if the counts are within bounds and the bytes fit, and then emits exactly the wire format |
| `PbEncode.EncodeSubmessage` | Toontagram/Pods/nanopb/pb_encode.c:717-765 | the size counted first is the size written: the check for a changed size never fails |
| `PbEncode.EncodeArray` | Toontagram/Pods/nanopb/pb_encode.c:147-236 | packed with its size first, or item by item |
| `PbEncode.PackedSize` | Toontagram/Pods/nanopb/pb_encode.c:169-189 | the size of a packed block, computed or counted, is that of its items |
| `PbEncode.GetEncodedSize` | Toontagram/Pods/nanopb/pb_encode.c:567-576 | counting gives exactly the number of bytes written, and fails exactly when writing would for want of bounds |
| `PbEncode.EncodeField` | Toontagram/Pods/nanopb/pb_encode.c:341-426 | presence by has-flag, count, oneof tag or comparison with zero |
| `PbEncode.MessageOkEncodes` | Toontagram/Pods/nanopb/pb_encode.c:341-426 | a message within the bounds of its storage is always encodable |
| `PbEncode.EncodableExactly` | Toontagram/Pods/nanopb/pb_encode.c:147-236 | of a message that is of its C types, the encoder accepts exactly one whose counts and sizes are within their bounds at every depth |
| `PbEncode.EncodeBuffer` | Toontagram/Pods/nanopb/pb_encode.c:86-102 | into a buffer, encoding succeeds if and only if that is so and the bytes are no more than its size, and gives the bytes of the format |
| `PbDecode.DecodeVarint32` | Toontagram/Pods/nanopb/pb_decode.c:187-247 | on any stream, the 32-bit rules: overflow and sign extension included |
| `PbDecode.DecodeVarint` | Toontagram/Pods/nanopb/pb_decode.c:255-275 | on any stream, at most ten bytes |
| `PbDecode.SkipField` | Toontagram/Pods/nanopb/pb_decode.c:321-331 | skips exactly one value of the wire type |
| `PbDecode.MakeSubstream` | Toontagram/Pods/nanopb/pb_decode.c:372-385 | the substream is the announced bytes, the stream keeps those behind them |
| `PbDecode.CloseSubstream` | Toontagram/Pods/nanopb/pb_decode.c:387-400 | the stream goes on behind the substream, whatever the message left unread |
| `PbDecode.DecodeField` | Toontagram/Pods/nanopb/pb_decode.c:406-483 | stores into optional, repeated, packed and oneof fields as the wire format says, or fails |
| `PbDecode.DecodeNoInit` | Toontagram/Pods/nanopb/pb_decode.c:928-1076 | on any stream the struct is what the format says; duplicates merge, unknown fields are skipped, fixed counts and required fields are checked |
| `PbDecode.DecodeBuffer` | Toontagram/Pods/nanopb/pb_decode.c:1078-1090 | the same from defaults on a buffer |
| `PbTheorems.RequiredFieldsExactly` | Toontagram/Pods/nanopb/pb_decode.c:1015-1073 | of bytes that the loop reads to their end, decoding accepts exactly those that hold each required field with fewer than 64 required ones in front of it, and leave no array of fixed length half filled |
| `PbRequired.FieldsSeen.Note` | Toontagram/Pods/nanopb/pb_decode.c:1015-1020 | sets exactly the bit of that required field |
| `PbRequired.FieldsSeen.AllSeen` | Toontagram/Pods/nanopb/pb_decode.c:1051-1072 | the comparison of whole words and remaining bits holds exactly if all are noted |
| `PbRequired.WordBit` | Toontagram/Pods/nanopb/pb_decode.c:1018-1019 | a bit of the word is set exactly if its field is noted |
| `PbIter.FieldIter.Next` | Toontagram/Pods/nanopb/pb_common.c:20-76 | data pointer, size pointer and required index stay functions of the position, also on wrapping round |
| `PbIter.FieldIter.Find` | Toontagram/Pods/nanopb/pb_common.c:78-95 | the first field with the tag going round, or back where it stood when there is none |
| `PbIter.IteratorFindsMember` | Toontagram/Pods/nanopb/pb_common.c:20-76 | with the offsets and sizes the descriptor macros write down, the iterator's pointers are at the struct member and at its count, has-flag or union tag, also inside unions |

## Left out

- Version set: compaction scores, the compaction pointer and seek counts, which pick the table to begin with, and byte
  limits are choices of the environment. A trivial move changes no set of tables; to the levels it is an installation
  whose output is its input. A table is searched by one seek in its entries.
- StoreLevels: that the levels stay as lookups need them is proved for every flush and every installation, not as part
  of the invariant of `Store`, which knows sets of tables only.
- The descriptor is taken to be read back as LogAndApply left it: it is written by the same log writer, so a block
  trailer that is not filled, unnoticed, could make an installed edit unreadable later.
- Table format, block cache, merging iterator, arena, info log, statistics and environment are not part of this model.
- Reusing the last log on opening, and shutting down in the middle of background work.
- Store: that bytes inside a value behind a torn append look like a record to a reader that is out of step (excluded by
  `Genuine`), and that recovery is refused because of a report (paranoid checks).
- Store: batches are lists of operations; `LogReplay` relates them to bytes for the part of a log in front of a torn
  append, under any spelling of keys and values.
- DbImpl: opening and closing readers, and the start, output, seal and abort of a compaction, are events of `Store`
  without a method of the class; the loop between them is in `Compaction`.
- DbIter: entries that arrive while a call of the cursor is under way are seen by the next call.
- SkipList: one searching reader is interleaved with the writer; readers do not affect each other.
- MemTable: the byte layout of an entry, and varint-prefixed keys.
- `FindShortestSeparator`, `FindShortSuccessor` and `LookupKey` of dbformat.cc; corrupted keys in the cursor.
- LogReader: read errors of the file, and which corruption of arbitrary files is reported.
- WriteBatch and VersionEdit: strings of 4 GiB and more, whose length prefix is cut.
- nanopb: callback, pointer (malloc) and extension fields, null-terminated and delimited variants, error messages,
  builds without 64-bit integers, and struct padding.
- PbDecode.DecodeNoInit: an absent optional submessage is decoded into defaults, where the source merges it into what
  its storage was left with; the two agree wherever absent members hold defaults, as they do behind `DecodeBuffer`.
- PbDecode: the destination struct is passed and returned as a value; what a failed decoding leaves in it is not said.
- PbVarint: varints of more than 36 bytes, where the bit counter of the 32-bit decoder could wrap, count on here.
- PbEncode: sizes are unbounded, so the overflow test of `pb_write` is not needed.
- PbIter: fields with the extension type, which the search passes over.
