# uFS-bench: the storage engine and the file-set machinery, in Dafny

This project models two parts of uFS-bench and proves what they promise.

**LevelDB 1.22**, the storage engine under the benchmark:

- *Data model* (`Mvcc`): entries `(user key, sequence) -> value or deletion`, and one
  specification of a read, `Lookup`, which every part below is measured against.
- *Compaction* (`Compaction`): the merge loop's drop rules, and its output files.
- *Group commit* (`GroupCommit`): which waiting writers a leader takes along.
- *The engine* (`Engine*`): a state machine of writers, log, memtables, flush, table
  compaction, snapshots, reads, obsolete-file deletion, crash and recovery. Every step that
  the code does between two releases of the mutex, or between two effects on disk, is a step
  of its own, and a crash can happen between any two: each deleted file and each table that
  recovery writes is one step, and after a crash a file that the manifest does not name may
  have any contents. `EngineInvariant` holds what all of them keep; `EngineTheorems` what
  follows for whole runs, `EngineUnlocked` what follows for reads whose probes happen at
  different moments, `EngineClients` what a client sees from the batch it hands in to what its
  later reads return; `EngineProgress` shows that recovery, flushes and compactions can always
  be brought to their end; `EngineExample` is one run.
- *The iterator* (`LiveView`, `DbIter`): the two-directional scan over internal entries, as a
  cursor over the live pairs, while entries above its sequence number are inserted between any
  two internal steps.
- *The log* (`LogFormat`, `LogReading`, `LogTheorems`, `LogFile`, `LogReader`, `LogRecovery`,
  `LogLaws`, `LogReplay`): writer and reader at the level of bytes, what each kind of bytes adds
  to the records and to the reports, and the replay of logged batches.
- *The skip list* (`SkipShape`, `SkipStores`, `SkipList`): every store of an insertion, and
  readers that run beside it without a lock.
- *The memtable* (`MemTable`, `BatchInsert`), *write batches* (`WriteBatch`), *version edits*
  (`VersionEdit`), their byte codings (`Coding`), and the snapshot list (`Snapshots`).

**filebench**, the workload generator:

- *The AVL tree* (`AvlShape`, `AvlMemory`, `AvlRotation`, `AvlSwap`, `AvlBalance`, `AvlOrder`,
  `AvlDestroy`, `Avl`): nodes in memory with child, parent, child-index and balance fields,
  changed in place. `AvlShape` has the trees as values, `AvlMemory` says when memory holds
  one, and the class `Avl.AvlTree` has the operations, each proved against both.
- *The file set* (`FilesetPick`, `Fileset`, `FilesetRuns`, `FilesetWaiting`): three such trees,
  flags and counters; the state machine of the threads that pick, claim and release files; and
  the same with the signals that wake those who wait for an idle file.

Where the source changes things in place the model has classes and loops; the state machines
stand for code that several threads run. The user comparator is a parameter, `less`, which is
a strict total order where the proofs need that. The checksum is an arbitrary function.
Heights of skip list nodes, addresses of new nodes, random numbers, sizes of files, the
choice of compaction inputs and the moments at which an output file is full are parameters or
free choices of a step, so the results hold for all of them.

The log's crash model is that the bytes of completed appends survive and that a torn tail is a
prefix of what was appended. `LogReplay.RecoverLogFile` shows that replay then yields the
entries of exactly the groups whose records are complete, each group whole, which is why the
engine's `AppendLog` step is all or nothing.

Where comments in the source and its code disagree, the model follows the code:
`avl_insert_here` says every other node in the tree is a leaf, which is neither true nor
needed; `fileset_unbusy` counts every file it releases as idle, while `flowoplib_closefile`
counts out only files open once. The second makes the idle count wrong: see
`FilesetRuns.CountIsExactIff` and `FilesetRuns.CloseCanOvercount`. A release signals one thread
that waits for an idle file, and that thread may want another kind and return with nothing, so
that a wake-up is lost: see `FilesetWaiting.NoneLostIff` and `FilesetWaiting.WakeUpCanBeLost`.

`dafny verify dfyconfig.toml` checks the project.

## Model

| member | source | states |
|---|---|---|
| `Mvcc.ProbeIsNewest` | leveldb-1.22/db/db_impl.cc:1143-1188 | a read finds nothing exactly when no entry of the key is visible at the snapshot, and otherwise the one newest visible entry |
| `Mvcc.ProbeLayers` | leveldb-1.22/db/db_impl.cc:1165-1177 | when one layer's entries for a key are younger than another's, asking it first and the other only on a miss reads the union |
| `Mvcc.ProbeIgnoresLater` | leveldb-1.22/db/db_impl.cc:1147-1153 | entries written after a snapshot do not change what is read at it |
| `Compaction.CompactionKeepsRead` | leveldb-1.22/db/db_impl.cc:970-1004 | for any key and any snapshot not below the smallest one, reading the kept entries beside all other levels gives what reading all inputs beside them gives |
| `Compaction.CompactionKeepsReads` | leveldb-1.22/db/db_impl.cc:970-1004 | the same for all keys and snapshots at once |
| `Compaction.NewestDroppedIsObsolete` | leveldb-1.22/db/db_impl.cc:983-998 | the newest visible entry is only ever dropped as an obsolete deletion, never as a hidden entry |
| `Compaction.ObsoleteHidesNothing` | leveldb-1.22/db/db_impl.cc:986-998 | when such a deletion is dropped, nothing that it covered is left to reappear |
| `Compaction.DoCompactionWork` | leveldb-1.22/db/db_impl.cc:943-1048 | for any stop points and file sizes, the outputs put together are exactly the entries the loop's local test keeps, in order; each records its first and last key and is not empty; and two neighbouring kept entries are in different outputs exactly if there is a stop point or a full file between them |
| `Compaction.FinishOutput` | leveldb-1.22/db/db_impl.cc:852-899 | closing an output loses no entry and leaves a valid one |
| `Compaction.AddToOutput` | leveldb-1.22/db/db_impl.cc:1015-1027 | adding an entry extends what is written by it and keeps the recorded key range right |
| `Compaction.HiddenByPredecessor` | leveldb-1.22/db/db_impl.cc:970-985 | on a sorted run, an entry has a newer one visible at the smallest snapshot exactly when its predecessor is one, which is all the loop remembers |
| `Compaction.KeptRunIsKept` | leveldb-1.22/db/db_impl.cc:943-1040 | on a sorted run, what the loop keeps is the set of entries that the declarative rule keeps |
| `Compaction.KeptRunSorted` | leveldb-1.22/db/db_impl.cc:943-1040 | and it is sorted |
| `Compaction.KeptExactly` | leveldb-1.22/db/db_impl.cc:970-1004 | field by field, which entries of a sorted run the loop keeps |
| `Compaction.OneOldVersion` | leveldb-1.22/db/db_impl.cc:970-1004 | no key keeps two versions at or below the smallest snapshot |
| `Compaction.CutsExactly` | leveldb-1.22/db/db_impl.cc:960-1027 | between neighbours in one output there is no full file and no stop point, and between outputs there is one |
| `Compaction.OutputsDisjoint` | leveldb-1.22/db/db_impl.cc:1015-1048 | the key ranges of two outputs do not meet, and later outputs lie after earlier ones |
| `Compaction.Compact` | leveldb-1.22/db/db_impl.cc:919-1103 | the whole compaction: its outputs, beside the other levels, answer all reads at or above the smallest snapshot as the inputs did, and are valid, sorted and disjoint; they hold an input entry exactly if no younger one of its key is visible at the smallest snapshot and it is not a deletion visible there of a key with nothing below |
| `GroupCommit.BuildBatchGroup` | leveldb-1.22/db/db_impl.cc:1302-1350 | the group is the longest run of waiting writers that the rules admit: no synchronous follower of a leader that is not, and, once a follower brings a batch, at most 1 MiB, or the leader's size and 128 KiB for a leader of at most that, null batches adding nothing; the batch to log is theirs, in order, and the scratch batch is used only if some follower has a batch |
| `GroupCommit.NoFollowerYet` | leveldb-1.22/db/db_impl.cc:1319-1349 | while no follower has a batch of its own, the group's operations are the leader's |
| `EngineInvariant.InitInv` | leveldb-1.22/db/db_impl.cc:211-241 | a new database satisfies the invariant |
| `EngineWrites.WriteKeeps` | leveldb-1.22/db/db_impl.cc:1228-1300 | every step of writing keeps the invariant: queueing, failing, forming a group, switching memtables, logging, inserting entry by entry, publishing |
| `EngineWrites.SwitchKeeps` | leveldb-1.22/db/db_impl.cc:1389-1414 | the switch to a new log and memtable leaves the old memtable covered by a log that will be replayed |
| `EngineWrites.AppendLogKeeps` | leveldb-1.22/db/db_impl.cc:1253-1268 | once a group is in the log it is part of what recovery finds |
| `EngineWrites.InsertEntryKeeps` | leveldb-1.22/db/write_batch.cc:112-137 | inserting a logged entry changes no read in progress |
| `EngineWrites.PublishKeeps` | leveldb-1.22/db/db_impl.cc:1269-1297 | the last sequence advances only over entries that are all in the memtable, and the whole group leaves the queue with its leader's status |
| `EngineFlush.FlushKeeps` | leveldb-1.22/db/db_impl.cc:527-602 | every step of a memtable flush keeps the invariant |
| `EngineFlush.FinishFlushKeeps` | leveldb-1.22/db/db_impl.cc:585-602 | dropping the immutable memtable loses nothing that the tables and the remaining logs do not hold |
| `EngineClean.LogUnneeded` | leveldb-1.22/db/db_impl.cc:273-276 | deleting one log below the manifest's number takes nothing from what recovery finds |
| `EngineClean.TableUnneeded` | leveldb-1.22/db/db_impl.cc:282-284 | nor does deleting one table that the manifest does not name |
| `EngineClean.ReadersUnaffected` | leveldb-1.22/db/db_impl.cc:252-307 | deleting one table that no reader's version has changes no read in progress |
| `EngineClean.CleanKeeps` | leveldb-1.22/db/db_impl.cc:252-307 | each single deletion keeps the invariant, so a deletion cut off anywhere does |
| `EngineClean.CleanRemovesOne` | leveldb-1.22/db/db_impl.cc:295-302 | a deletion removes just that file |
| `EngineMerge.MergeKeeps` | leveldb-1.22/db/db_impl.cc:901-1103 | every step of a table compaction keeps the invariant |
| `EngineMerge.MergedTables` | leveldb-1.22/db/db_impl.cc:901-917 | replacing the inputs by the outputs keeps all reads at or above the compaction's snapshot, flushes in between included |
| `EngineReads.LayersReadHistory` | leveldb-1.22/db/db_impl.cc:1143-1188 | memtable, then immutable memtable, then tables, reads the history as of any promised snapshot |
| `EngineReads.ReadKeeps` | leveldb-1.22/db/db_impl.cc:1143-1217 | starting and ending reads, taking and releasing snapshots keeps the invariant |
| `EngineReads.TakeSnapshotKeeps` | leveldb-1.22/db/db_impl.cc:1209-1217 | a new snapshot is not below the one any running compaction preserves |
| `EngineReopen.ReopenKeeps` | leveldb-1.22/db/db_impl.cc:309-401 | a crash at any moment, and every step of recovery, keeps the invariant |
| `EngineReopen.CrashKeeps` | leveldb-1.22/db/db_impl.cc:676-687 | losing everything in memory, and with it the contents of any files that the manifest does not name, leaves a disk that stands for the whole history |
| `EngineReopen.RecoveredSequence` | leveldb-1.22/db/db_impl.cc:380-398 | the last sequence found by recovery is that of the last logged entry |
| `EngineReopen.WriteRecoveredKeeps` | leveldb-1.22/db/db_impl.cc:473-520 | writing one table out of the replayed logs keeps the invariant, so a crash between two of them loses nothing |
| `EngineReopen.ReplayedTables` | leveldb-1.22/db/db_impl.cc:403-525 | once every logged entry has gone into some table, one table at a time, the new tables hold exactly what the manifest's tables lack |
| `EngineReopen.FinishOpenKeeps` | leveldb-1.22/db/db_impl.cc:1523-1574 | opening ends with an engine that reads the whole history |
| `EngineTheorems.StepKeeps` | leveldb-1.22/db/db_impl.cc:1228-1300 | every step of the engine keeps the invariant |
| `EngineTheorems.RunKeeps` | leveldb-1.22/db/db_impl.cc:1228-1300 | so it holds throughout every run |
| `EngineTheorems.RunGrows` | leveldb-1.22/db/db_impl.cc:1228-1300 | along every run the history, the committed writers and the acknowledgements only grow |
| `EngineTheorems.DurableIsHistory` | leveldb-1.22/db/db_impl.cc:309-401 | the manifest's tables and the logs it does not cover together answer every promised read like the whole history |
| `EngineTheorems.AcknowledgedNeverLost` | leveldb-1.22/db/db_impl.cc:1228-1300 | in every run, an acknowledged batch stays whole and in place in the history of every later state, crashes and recoveries included, and the disk alone stands for that history at every moment |
| `EngineTheorems.ReadsAnswerFromHistory` | leveldb-1.22/db/db_impl.cc:1143-1188 | a read answers from the history as of its snapshot, whatever has been written, flushed, compacted or deleted since it began |
| `EngineUnlocked.LayersStay` | leveldb-1.22/db/db_impl.cc:1155-1181 | while a read lasts, what each of its three layers answers it stays the same, whatever steps are taken |
| `EngineUnlocked.UnlockedReadIsCorrect` | leveldb-1.22/db/db_impl.cc:1165-1177 | a read that probes the memtable at one moment, the immutable memtable at a later one and the tables at a third answers from the history as of its snapshot |
| `EngineTheorems.SnapshotsNeverChange` | leveldb-1.22/db/db_impl.cc:931-938 | two reads of a key at one snapshot give one answer, wherever in a run they happen |
| `EngineTheorems.AcknowledgedIsVisible` | leveldb-1.22/db/db_impl.cc:1269-1297 | an acknowledged batch lies within the published sequence |
| `EngineTheorems.GroupCommitInOrder` | leveldb-1.22/db/db_impl.cc:1228-1350 | in every run the log is the committed batches in arrival order, numbered without gaps; no writer is answered twice, and it is answered with success exactly if committed; no synchronous writer rides with a leader that is not; the scratch batch is empty between groups |
| `EngineTheorems.WriterIsAnswered` | leveldb-1.22/db/db_impl.cc:1228-1300 | as long as there is no crash, a writer that has queued up is still queued or has been answered |
| `EngineClients.LookupIsLastWrite` | leveldb-1.22/db/db_impl.cc:1143-1188 | a lookup in the history as of a sequence is the last write of the key among the first so many operations logged |
| `EngineClients.AnswerIsForTheBatch` | leveldb-1.22/db/db_impl.cc:1228-1300 | the answer to a write is about the batch that was handed in: after success exactly that batch is in the history, whole and published |
| `EngineClients.PublishedAtBatchEnd` | leveldb-1.22/db/db_impl.cc:1269-1281 | what is published ends where a batch does |
| `EngineClients.ReadSeesAcknowledged` | leveldb-1.22/db/db_impl.cc:1143-1188 | a read without a snapshot answers, until it ends, with the last write of its key among whole batches that include every one acknowledged when it began |
| `EngineClients.SnapshotSeesAcknowledged` | leveldb-1.22/db/db_impl.cc:1209-1217 | a read at a snapshot, at any later moment, answers with the last write of its key among whole batches logged when the snapshot was taken, which include every one acknowledged by then |
| `EngineClients.SlotHolds` | leveldb-1.22/db/db_impl.cc:1209-1217 | a snapshot stays in the list with its sequence until it is released itself, whichever others are |
| `EngineProgress.RecoveryCompletes` | leveldb-1.22/db/db_impl.cc:1523-1574 | however the process died, recovery can run to an open engine that has published the whole history |
| `EngineProgress.FlushCompletes` | leveldb-1.22/db/db_impl.cc:527-602 | an immutable memtable can be written to a table of its own, which then replaces it and its log |
| `EngineProgress.CompactionCompletes` | leveldb-1.22/db/db_impl.cc:919-1103 | a compaction can replace its inputs by what they hold that is to be kept for the oldest snapshot in use, or for the present if there is none |
| `EngineExample.SomeWriteIsAcknowledged` | leveldb-1.22/db/db_impl.cc:1228-1300 | there is a run from a new database in which a given operation is written and acknowledged, so the statements about all runs are not empty |
| `LiveView.PairsSorted` | leveldb-1.22/db/db_iter.cc:141-299 | the live pairs at a snapshot are strictly sorted by key |
| `LiveView.FirstVisibleIsNewest` | leveldb-1.22/db/db_iter.cc:168-198 | the first visible entry of a key in internal order is the newest one |
| `LiveView.PairsAreLookups` | leveldb-1.22/db/db_iter.cc:141-299 | a pair is live exactly when a read of its key at the snapshot gives its value |
| `LiveView.LaterUnseen` | leveldb-1.22/db/db_impl.cc:1105-1130 | insertions above a sequence number change nothing in the view at it |
| `DbIter.InternalIterator.Seek` | leveldb-1.22/db/db_iter.cc:269-281 | the internal iterator stops at the first entry not before the key and sequence, among those inserted by then |
| `DbIter.InternalIterator.Next` | leveldb-1.22/db/db_impl.cc:1105-1130 | the internal iterator goes to the next entry inserted by then, so it passes over nothing that can be seen |
| `DbIter.InternalIterator.Prev` | leveldb-1.22/db/db_impl.cc:1105-1130 | the same backward |
| `DbIter.DBIter.constructor` | leveldb-1.22/db/db_impl.cc:1190-1201 | a new iterator's view is the live pairs of the entries there when it is made, whatever is inserted later |
| `DbIter.DBIter.FindNextUserEntry` | leveldb-1.22/db/db_iter.cc:168-198 | the forward scan stops at the first live entry from its start whose key is not skipped |
| `DbIter.DBIter.FindPrevUserEntry` | leveldb-1.22/db/db_iter.cc:227-267 | the backward scan saves the live pair with the greatest key below its start |
| `DbIter.DBIter.Next` | leveldb-1.22/db/db_iter.cc:141-166 | moves the cursor one live pair on, from either direction |
| `DbIter.DBIter.Prev` | leveldb-1.22/db/db_iter.cc:200-225 | moves it one live pair back, from either direction |
| `DbIter.DBIter.Seek` | leveldb-1.22/db/db_iter.cc:269-281 | puts it on the first live pair whose key is not below the target |
| `DbIter.DBIter.SeekToFirst` | leveldb-1.22/db/db_iter.cc:283-292 | puts it on the first live pair |
| `DbIter.DBIter.SeekToLast` | leveldb-1.22/db/db_iter.cc:294-299 | puts it on the last live pair |
| `DbIter.DBIter.IsValid` | leveldb-1.22/db/db_iter.cc:63 | valid exactly if the cursor is on a live pair |
| `DbIter.DBIter.GetKey` | leveldb-1.22/db/db_iter.cc:64-67 | the key is that of the live pair under the cursor |
| `DbIter.DBIter.GetValue` | leveldb-1.22/db/db_iter.cc:68-71 | and so is the value |
| `Coding.FixedRoundTrip` | leveldb-1.22/util/coding.cc:9-18 | a 32-bit number reads back from its four bytes |
| `Coding.Fixed64RoundTrip` | leveldb-1.22/util/coding.cc:20-33 | a 64-bit number reads back from its eight bytes |
| `Coding.FixedFormat` | leveldb-1.22/util/coding.cc:9-18 | the lowest byte comes first |
| `Coding.UnrolledIsVarint` | leveldb-1.22/util/coding.cc:47-73 | the unrolled 32-bit encoder gives the bytes of the general one |
| `Coding.EncodeVarint64` | leveldb-1.22/util/coding.cc:81-90 | so does the loop for 64 bits |
| `Coding.VarintRoundTrip` | leveldb-1.22/util/coding.cc:112-157 | a varint reads back within the bytes its range allows, leaving what follows it |
| `Coding.VarintFormat` | leveldb-1.22/util/coding.cc:81-90 | all bytes but the last carry the mark, and there is no superfluous one |
| `Coding.VarintWeighs` | leveldb-1.22/util/coding.cc:81-90 | seven bits to a byte, the lowest first |
| `Coding.VarintParsesIff` | leveldb-1.22/util/coding.cc:112-157 | a varint is read exactly if a byte without the mark comes within the allowed number |
| `Coding.VarintReads` | leveldb-1.22/util/coding.cc:112-157 | and then it is the number its bytes stand for, with the rest left |
| `Coding.Varint32Reads` | leveldb-1.22/util/coding.cc:112-128 | of a 32-bit varint the low 32 bits count |
| `Coding.VarintTruncated` | leveldb-1.22/util/coding.cc:112-157 | a varint that is cut off is not read |
| `Coding.GetVarint32Ptr` | leveldb-1.22/util/coding.cc:112-128 | the shifting loop reads what the recursive definition reads, malformed input and overlong numbers included |
| `Coding.SliceRoundTrip` | leveldb-1.22/util/coding.cc:98-101 | a string with its length in front reads back, leaving what follows it |
| `Coding.SliceTruncated` | leveldb-1.22/util/coding.cc:169-190 | a string that is cut off anywhere is not read |
| `LogReading.ParseIntact` | leveldb-1.22/db/log_reader.cc:204-286 | an intact physical record is read as what was written |
| `LogReading.ParseCut` | leveldb-1.22/db/log_reader.cc:204-256 | one cut off by the end of the file reads as the end of the file |
| `LogReading.ParseBytes` | leveldb-1.22/db/log_reader.cc:230-286 | what is found at any bytes, in terms of the length, type and checksum that they spell |
| `LogFile.Writer.AddRecord` | leveldb-1.22/db/log_writer.cc:34-80 | the file is a written log again, with this record added, cut so that every fragment but its last fills its block |
| `LogFile.Writer.EmitPhysicalRecord` | leveldb-1.22/db/log_writer.cc:82-108 | appends one header and payload and tracks the block offset |
| `LogFile.Writer.SwitchBlock` | leveldb-1.22/db/log_writer.cc:44-55 | when no header fits, the block is filled with zeros |
| `LogFile.RecordAppended` | leveldb-1.22/db/log_writer.cc:34-80 | the fragments of a closed record extend the log by exactly that record |
| `LogReader.Reader.ReadPhysicalRecord` | leveldb-1.22/db/log_reader.cc:204-286 | the block-buffered loop sees what lies at its position in the file, and moves as far |
| `LogReader.Reader.ReadRecord` | leveldb-1.22/db/log_reader.cc:71-189 | returns the next whole record and reports the corruptions before it, or consumes the log to where reading ends; a record with one of the two type bytes that the reader uses itself is taken for the end or for a bad record |
| `LogReader.Reader.ReadAll` | leveldb-1.22/db/db_impl.cc:450-485 | the recovery loop sees all records and corruptions of the file up to where reading ends |
| `LogTheorems.ReadBackAnyPrefix` | leveldb-1.22/db/log_reader.cc:71-189 | reading any prefix of a written log gives exactly the records wholly inside it, in order, without a report; the whole file gives all |
| `LogTheorems.NoSplicing` | leveldb-1.22/db/log_reader.cc:106-186 | with any set of damaged physical records, each with a wrong length, a wrong checksum or zeros, every record returned is one that was written, in order, none twice; and every record without a part in a damaged block is returned |
| `LogTheorems.ReadsDamaged` | leveldb-1.22/db/log_reader.cc:237-272 | the same from any point of the log and any half-gathered record |
| `LogLaws.EndOfFile` | leveldb-1.22/db/log_reader.cc:206-228 | too few bytes for a header end the reading without a report |
| `LogLaws.DamageReported` | leveldb-1.22/db/log_reader.cc:237-272 | in a whole block, a wrong length or checksum is one report, and one more for the record it cuts through, and reading goes on at the next block |
| `LogLaws.DamageAtEnd` | leveldb-1.22/db/log_reader.cc:237-272 | in the last block a length over the end of the file ends the reading without a report, and a wrong checksum with one |
| `LogLaws.ZerosSkipped` | leveldb-1.22/db/log_reader.cc:250-256 | zeros are passed over without a report, unless a record is cut through |
| `LogLaws.FullRecord` | leveldb-1.22/db/log_reader.cc:107-121 | a full record is returned, and an unfinished one before it reported unless it is empty |
| `LogLaws.FirstFragment` | leveldb-1.22/db/log_reader.cc:123-136 | a first fragment starts a record, and an unfinished one before it is reported unless it is empty |
| `LogLaws.MiddleFragment` | leveldb-1.22/db/log_reader.cc:138-145 | a middle fragment is added, or reported when there is no start |
| `LogLaws.LastFragment` | leveldb-1.22/db/log_reader.cc:147-157 | a last fragment completes the record, or is reported when there is no start |
| `LogLaws.ReservedType` | leveldb-1.22/db/log_reader.cc:159-174 | type byte 5 ends the reading and 6 is a bad record |
| `LogLaws.UnknownType` | leveldb-1.22/db/log_reader.cc:176-185 | any other type is reported and drops what was gathered |
| `LogLaws.NoSilentLoss` | leveldb-1.22/db/log_reader.cc:71-189 | a log of full length, with damage that the tests can see and that does not look like zeros or a cut-off write, is read without a report if and only if nothing is damaged, and then every record is returned |
| `LogRecovery.Recover` | leveldb-1.22/db/db_impl.cc:403-485 | reading back a prefix of what a writer wrote gives the records complete by then, in order, and no report |
| `LogReplay.ReplayRecords` | leveldb-1.22/db/db_impl.cc:450-471 | for any records, the replay loop inserts their entries, passes over or stops at a record that is too short or wrong as paranoid checks say, and computes the highest sequence in 64 bits |
| `LogReplay.ReplayGoesOn` | leveldb-1.22/db/db_impl.cc:450-465 | without paranoid checks replay goes on past a record that is too short or wrong, as if it were not there |
| `LogReplay.ReplayStops` | leveldb-1.22/db/db_impl.cc:450-465 | with them it stops at the first such record, with its status, whatever comes after |
| `LogReplay.BatchesReplay` | leveldb-1.22/db/db_impl.cc:450-471 | records that are batches replay without error to the numbered operations of all of them, in order |
| `LogReplay.RecoverLogFile` | leveldb-1.22/db/db_impl.cc:403-471 | replaying any prefix of a log of batches gives the entries of exactly the groups whose records lie inside it, each whole or not at all |
| `LogReplay.LoggedIsRun` | leveldb-1.22/db/db_impl.cc:1247-1257 | for groups numbered one after the other these entries are one run of sequences |
| `LogReplay.HighestIsLast` | leveldb-1.22/db/db_impl.cc:466-471 | and the highest sequence found is that of the last one |
| `SkipShape.AdvanceIsSound` | leveldb-1.22/db/skiplist.h:260-302 | one load keeps a search on its way, or ends it between the last node before the key and the first one at or after it in the list as it is at that load |
| `SkipShape.SearchSurvives` | leveldb-1.22/db/skiplist.h:260-281 | no store of the writer disturbs a search under way |
| `SkipShape.ConcurrentSearch` | leveldb-1.22/db/skiplist.h:260-302 | a search each of whose loads sees a later state of the list answers for the list at its last load, with the first node at or after the key and with the last one before it, and ends within its level plus the nodes ahead |
| `SkipShape.PresentKeyIsFound` | leveldb-1.22/db/skiplist.h:260-281 | a key in the list when a search begins is found, whatever is inserted meanwhile |
| `SkipShape.ConcurrentFindLast` | leveldb-1.22/db/skiplist.h:304-322 | the search for the last node, beside the writer, answers with the last node of the list at its last load, and ends within its level plus the nodes ahead |
| `SkipShape.OnLowerLevels` | leveldb-1.22/db/skiplist.h:336-368 | a node on any level is on the lowest one |
| `SkipStores.RaiseKeeps` | leveldb-1.22/db/skiplist.h:347-359 | storing a greater height leaves a well-formed list that extends the one before |
| `SkipStores.NewNodeKeeps` | leveldb-1.22/db/skiplist.h:361 | so does a new node that nothing links to |
| `SkipStores.PrivateStoreKeeps` | leveldb-1.22/db/skiplist.h:363-365 | so does setting its own link on a level it is not on yet |
| `SkipStores.PublishKeeps` | leveldb-1.22/db/skiplist.h:366 | so does the store that publishes it on a level: each level stays strictly sorted and within the level below |
| `SkipStores.TwoStores` | leveldb-1.22/db/skiplist.h:362-367 | the two stores of one level, from the predecessor that the search found, add exactly the node |
| `SkipList.SkipList.constructor` | leveldb-1.22/db/skiplist.h:324-334 | an empty well-formed list |
| `SkipList.SkipList.FindGreaterOrEqual` | leveldb-1.22/db/skiplist.h:260-281 | the first node at or after the key, and on every level the node before it |
| `SkipList.SkipList.FindLessThan` | leveldb-1.22/db/skiplist.h:283-302 | the last node before the key, or the head |
| `SkipList.SkipList.FindLast` | leveldb-1.22/db/skiplist.h:304-322 | the last node, or the head |
| `SkipList.SkipList.Contains` | leveldb-1.22/db/skiplist.h:370-378 | true exactly if a key in the list compares equal |
| `SkipList.SkipList.Insert` | leveldb-1.22/db/skiplist.h:336-368 | adds exactly the key, on exactly as many levels as the height says; each state it goes through differs from the one before by one store, is well formed, extends it, and holds the old keys with or without the new one |
| `SkipList.SkipList.Publish` | leveldb-1.22/db/skiplist.h:362-367 | one level of it, as two states that differ by one store each |
| `MemTable.BufferOrder` | leveldb-1.22/db/memtable.cc:30-36 | comparing packed buffers is an order the skip list can use |
| `MemTable.BufferOfEntries` | leveldb-1.22/db/dbformat.cc:51-67 | packed entries sort by user key, then from the highest sequence down |
| `MemTable.BeforeLookup` | leveldb-1.22/db/dbformat.cc:121-138 | an entry sorts before a lookup key exactly if its key is smaller, or equal with a sequence above the snapshot |
| `MemTable.EntryKey` | leveldb-1.22/db/memtable.cc:77-100 | key, tag and value read back from a packed entry |
| `MemTable.TagFormat` | leveldb-1.22/db/dbformat.cc:13-17 | the stored tag is the sequence with 1 for a value and 0 for a deletion in the low byte |
| `MemTable.SeekFindsNewest` | leveldb-1.22/db/memtable.cc:102-136 | the first buffer at or after the lookup key is the newest visible entry of the key if it is for that key, and if not there is none |
| `MemTable.FoundAnswers` | leveldb-1.22/db/memtable.cc:102-136 | what is read from the node that a seek stops at is what a probe of the entries answers |
| `MemTable.MemTable.Add` | leveldb-1.22/db/memtable.cc:77-100 | the table gains exactly the entry, and every state its list goes through holds the old entries with or without it |
| `MemTable.MemTable.Get` | leveldb-1.22/db/memtable.cc:102-136 | one seek answers like a probe of the table's entries: nothing here, deleted, or the value |
| `MemTable.ConcurrentGet` | leveldb-1.22/db/memtable.cc:102-136 | a lookup whose loads happen at any moments while entries above its snapshot are inserted answers from the entries there when it began, and ends within its level plus the nodes ahead |
| `WriteBatch.RecordRoundTrip` | leveldb-1.22/db/write_batch.cc:98-109 | one operation reads back, leaving what follows it |
| `WriteBatch.OpsRoundTrip` | leveldb-1.22/db/write_batch.cc:42-80 | a run of operations reads back in order, and then whatever follows |
| `WriteBatch.OpFormat` | leveldb-1.22/db/write_batch.cc:98-109 | the bytes of an operation: its tag, 1 or 0, and its strings |
| `WriteBatch.HeaderFormat` | leveldb-1.22/db/write_batch.cc:5-14 | where sequence and count are |
| `WriteBatch.TruncatedBatch` | leveldb-1.22/db/write_batch.cc:50-70 | a batch cut off anywhere inside an operation hands over the operations before it and is a corruption |
| `WriteBatch.UnknownTag` | leveldb-1.22/db/write_batch.cc:71-72 | so is a byte that is no tag |
| `WriteBatch.CountMatters` | leveldb-1.22/db/write_batch.cc:75-79 | and a stored count that is not the number of operations; otherwise whole operations are accepted |
| `WriteBatch.TooSmall` | leveldb-1.22/db/write_batch.cc:44-46 | too few bytes for a header are a corruption |
| `WriteBatch.WriteBatch.Clear` | leveldb-1.22/db/write_batch.cc:35-38 | leaves an empty batch with sequence zero |
| `WriteBatch.WriteBatch.Put` | leveldb-1.22/db/write_batch.cc:98-103 | adds one put, keeps the sequence, and the stored count matches |
| `WriteBatch.WriteBatch.Delete` | leveldb-1.22/db/write_batch.cc:105-109 | the same for a deletion |
| `WriteBatch.WriteBatch.Append` | leveldb-1.22/db/write_batch.cc:144-148 | adds the other batch's operations after one's own, also when it is the same batch |
| `WriteBatch.WriteBatch.SetCount` | leveldb-1.22/db/write_batch.cc:86-88 | changes the count and nothing else |
| `WriteBatch.WriteBatch.SetSequence` | leveldb-1.22/db/write_batch.cc:94-96 | changes the sequence and nothing else |
| `WriteBatch.WriteBatch.SetContents` | leveldb-1.22/db/write_batch.cc:139-142 | the batch has exactly the given bytes |
| `WriteBatch.WriteBatch.Iterate` | leveldb-1.22/db/write_batch.cc:42-80 | for any history of the methods above it succeeds and hands over exactly their operations in order if and only if all their keys and values are shorter than 4 GiB; for any bytes at all it reports what is wrong first |
| `BatchInsert.InsertInto` | leveldb-1.22/db/write_batch.cc:132-137 | the memtable gains the operations under consecutive sequences from the batch's own, through list states that hold no other entries than these and the old ones |
| `BatchInsert.GetBesideInsert` | leveldb-1.22/db/memtable.cc:102-136 | a lookup beside the insertion of a batch above its snapshot answers from the entries there before the batch |
| `BatchInsert.ReplayRebuilds` | leveldb-1.22/db/db_impl.cc:450-471 | the bytes of a logged batch, replayed, stand for the entries that writing it added if and only if its keys and values are shorter than 4 GiB |
| `VersionEdit.ItemRoundTrip` | leveldb-1.22/db/version_edit.cc:107-194 | every kind of field reads back, leaving what follows it |
| `VersionEdit.EditRoundTrip` | leveldb-1.22/db/version_edit.cc:41-85 | a fresh edit that decodes an encoded one is that one, with any number of pointers, deleted and new files, in whatever order the deleted ones are visited |
| `VersionEdit.EditReadsBackIff` | leveldb-1.22/db/version_edit.cc:97-105 | it decodes without error if and only if every level in it exists |
| `VersionEdit.LevelLimit` | leveldb-1.22/db/version_edit.cc:97-105 | a level is accepted exactly if it is below seven |
| `VersionEdit.TagsOnDisk` | leveldb-1.22/db/version_edit.cc:12-24 | the tag numbers |
| `VersionEdit.FieldOrder` | leveldb-1.22/db/version_edit.cc:41-85 | the fields come in their fixed order |
| `VersionEdit.EditCut` | leveldb-1.22/db/version_edit.cc:107-205 | an edit cut off inside a field keeps the fields before it and is a corruption |
| `VersionEdit.LeftOver` | leveldb-1.22/db/version_edit.cc:196-203 | bytes left over that are no tag are a corruption |
| `VersionEdit.UnknownTag` | leveldb-1.22/db/version_edit.cc:190-192 | so is a tag that stands for no field |
| `VersionEdit.VersionEdit.EncodeTo` | leveldb-1.22/db/version_edit.cc:41-85 | appends the fields in their fixed order |
| `VersionEdit.VersionEdit.DecodeFrom` | leveldb-1.22/db/version_edit.cc:107-205 | for any bytes, the fields up to the first that is wrong are applied, and that is reported; compaction pointers from before stay |
| `VersionEdit.VersionEdit.Clear` | leveldb-1.22/db/version_edit.cc:26-39 | everything but the compaction pointers is cleared |
| `Snapshots.SnapshotList.IsEmpty` | leveldb-1.22/db/snapshot.h:46 | true exactly if no snapshot is live |
| `Snapshots.SnapshotList.New` | leveldb-1.22/db/snapshot.h:57-70 | the ring stays well linked and ordered, with the new snapshot at its end |
| `Snapshots.SnapshotList.Delete` | leveldb-1.22/db/snapshot.h:79-86 | the ring stays well linked and ordered, without just that snapshot |
| `Snapshots.SnapshotList.Oldest` | leveldb-1.22/db/snapshot.h:47-50 | the first snapshot has the least sequence |
| `Snapshots.SnapshotList.Newest` | leveldb-1.22/db/snapshot.h:51-54 | the last snapshot has the greatest |
| `AvlShape.PlugAvl` | filebench/fb_avl.c:526-555 | a tree is balanced exactly if the subtree in some place is, and the path up from it fits the subtree's height |
| `AvlShape.RotatedIsBalanced` | filebench/fb_avl.c:294-460 | a rotation of a node leaning by two restores the balance, and lowers the subtree exactly when the taller child was not in balance |
| `AvlShape.RotatedKeepsOrder` | filebench/fb_avl.c:294-460 | and keeps the order and the number of nodes |
| `AvlShape.GrowStep` | filebench/fb_avl.c:526-560 | the three exits of the insertion loop are right: in balance and done, leaning and grown, or leaning by two and repaired by one rotation |
| `AvlShape.ShrinkStep` | filebench/fb_avl.c:769-804 | so are those of the removal loop: leaning and done, in balance and lower, or rotated, and lower or not |
| `AvlShape.HeightIsLow` | filebench/fb_avl.c:473-561 | a balanced tree of height h has at least Fib(h + 2) - 1 nodes |
| `AvlRotation.SingleInMemory` | filebench/fb_avl.c:337-377 | memory after the stores of a single rotation holds the rotated tree, linked both ways |
| `AvlRotation.DoubleInMemory` | filebench/fb_avl.c:412-459 | the same for a double rotation |
| `AvlSwap.Swapped` | filebench/fb_avl.c:684-730 | memory after the stores of the swap holds the tree with the neighbour in the node's place and the placeholder in the neighbour's |
| `AvlBalance.GrowUp` | filebench/fb_avl.c:526-555 | one iteration of the insertion loop, in memory |
| `AvlBalance.ShrinkUp` | filebench/fb_avl.c:769-804 | one iteration of the removal loop, in memory |
| `AvlBalance.PartsOf` | filebench/fb_avl.c:684-701 | taking the neighbour from the taller side drops exactly the removed node from the order, and leaves a path that fits a subtree one lower |
| `Avl.AvlTree.Rotation` | filebench/fb_avl.c:294-460 | memory holds the rotated tree, and the result says whether it became lower |
| `Avl.AvlTree.Insert` | filebench/fb_avl.c:473-561 | the tree is balanced and linked again, counts one more, and its order has the node in the given place |
| `Avl.AvlTree.Remove` | filebench/fb_avl.c:653-805 | the tree is balanced and linked again, counts one less, and its order lacks just the node |
| `Avl.AvlTree.Neighbour` | filebench/fb_avl.c:697-700 | once to the side and then as far as possible to the other: the near end of the subtree's order |
| `Avl.AvlTree.Splice` | filebench/fb_avl.c:743-762 | a node with at most one child is replaced by that child's subtree |
| `Avl.AvlTree.SwapOut` | filebench/fb_avl.c:684-730 | a node with two children swaps places with its neighbour on the taller side |
| `Avl.AvlTree.Rebalance` | filebench/fb_avl.c:769-804 | from a subtree that became lower, the whole tree is balanced again with the same order |
| `Avl.AvlTree.Find` | filebench/fb_avl.c:244-277 | the node with the key, or the empty place with only smaller keys before and only greater after |
| `Avl.AvlTree.Add` | filebench/fb_avl.c:614-628 | inserts the node in order, or leaves the tree alone if its key is there |
| `Avl.AvlTree.InsertHere` | filebench/fb_avl.c:575-609 | the node comes right before or right after the given one |
| `Avl.AvlTree.Walk` | filebench/fb_avl.c:123-164 | the next node in order on the given side, or null at the end |
| `Avl.AvlTree.NearestTo` | filebench/fb_avl.c:213-232 | the node next to an empty place on the given side, or null |
| `Avl.AvlTree.First` | filebench/fb_avl.c:170-183 | the first node in order, or null |
| `Avl.AvlTree.Last` | filebench/fb_avl.c:189-202 | the last node in order, or null |
| `Avl.AvlTree.DestroyNodes` | filebench/fb_avl.c:958-1065 | each call returns the next node in post-order, whatever the caller has done to the nodes returned before, and changes no node but the parent of the last one; after the last the tree is empty with count zero and stays so |
| `Avl.AvlTree.DestroyAll` | filebench/fb_avl.c:939-957 | called until it returns null, with each node freed before the next call, it returns the post-order of the whole tree, and no freed node is touched again |
| `AvlDestroy.PostorderIsPermutation` | filebench/fb_avl.c:958-1065 | which has every node exactly as often as the order does |
| `AvlDestroy.VisitedOnce` | filebench/fb_avl.c:958-1065 | no node is returned twice |
| `AvlDestroy.CutOff` | filebench/fb_avl.c:1003-1012 | taking the link to the returned node off its parent needs nothing of that node |
| `AvlDestroy.GoRight` | filebench/fb_avl.c:1036-1052 | a node without a left child has at most a single node on the right |
| `FilesetPick.FindEntry` | filebench/fileset.c:627-647 | the entry with the least index not below the wanted one, else the least of all; null only for an empty tree |
| `FilesetPick.SkipBusy` | filebench/fileset.c:812-828 | the first entry that is not busy going round from the start; it gives up only if all are busy |
| `FilesetPick.Choose` | filebench/fileset.c:762-828 | both together |
| `FilesetPick.RotationVisitsAll` | filebench/fileset.c:771-807 | as many picks in rotation as there are entries, on a tree that stays as it is, visit each once, in order and round |
| `Fileset.MoveEntry` | filebench/fileset.c:236-242 | one tree loses the file, the other gains it, both stay sorted and balanced |
| `Fileset.FileSet.AddFile` | filebench/fileset.c:1397-1405 | a new file is free and in the tree of free files |
| `Fileset.FileSet.SetExists` | filebench/fileset.c:877-965 | the file becomes one that exists or does not, as told, whatever it was, and is in that tree and no other |
| `Fileset.FileSet.Unbusy` | filebench/fileset.c:861-1012 | the file is let go, its opens are counted, and, when told whether it exists, it does or does not and is in that tree and no other; nothing else changes; and whom to wake |
| `Fileset.FileSet.Pick` | filebench/fileset.c:664-854 | waits exactly if nothing counts as idle; fails only if every file with the flags of the kind is held; else holds the first idle one, which has those flags, from the index asked for, the number drawn or the rotor; and in rotation moves the rotor past where it started, found or not |
| `Fileset.RotateOnce` | filebench/fileset.c:771-807 | a pick in rotation and its release take the cyclic successor of the rotor and leave the trees and the count as they were |
| `Fileset.RotateAll` | filebench/fileset.c:771-807 | as many of these as there are files of the kind return each file once, in order and round from where the rotor stood |
| `Fileset.FileSet.Claim` | filebench/flowop_library.c:1952-1965 | takes the file if nobody holds it, and else marks it as waited for |
| `FilesetRuns.StepKeeps` | filebench/fileset.c:664-1012 | every step of every thread keeps the invariant |
| `FilesetRuns.RunKeeps` | filebench/fileset.c:664-1012 | so it holds throughout every run |
| `FilesetRuns.RunsAreSafe` | filebench/fileset.c:664-1012 | at every moment of every run each file is in exactly the tree its flags name, no two threads hold a file, and whoever sleeps for one sleeps for a held file marked as waited for |
| `FilesetRuns.ReleasedExactly` | filebench/fileset.c:861-1012 | flag by flag, what a release changes and what it leaves |
| `FilesetRuns.ClaimedExactly` | filebench/flowop_library.c:2120-2127 | flag by flag, what a claim to delete or close changes |
| `FilesetRuns.PickIsOfItsKind` | filebench/fileset.c:688-702 | in every run a pick hands out a file with the flags of its kind that nobody held, and fails only if all of them are held |
| `FilesetRuns.ReleaseDecides` | filebench/fileset.c:877-965 | in every run a file let go as existing or not is that, and in that tree |
| `FilesetRuns.ReleaseWakesAll` | filebench/fileset.c:970-981 | letting a file go leaves nobody asleep for it |
| `FilesetRuns.CountIsExactIff` | filebench/flowop_library.c:2120-2127 | the count of idle files is exact if and only if no close so far took a file that was not open exactly once; else it is too high |
| `FilesetRuns.CloseCanOvercount` | filebench/flowop_library.c:2120-2127 | a run in which one file, opened twice and closed once, counts as two idle ones |
| `FilesetWaiting.RunKeeps` | filebench/fileset.c:681-686 | with signals modelled, every state of every run keeps the invariant of the file set, and exactly the waiting threads are waiting |
| `FilesetWaiting.LosesIff` | filebench/fileset.c:757-760 | a step loses a wake-up if and only if a woken thread finds nothing of its kind and returns, while others sleep and there is no spare woken thread |
| `FilesetWaiting.NoneLostIff` | filebench/fileset.c:983-992 | no wake-up is lost up to some moment of a run if and only if no signal was wasted that way before |
| `FilesetWaiting.NobodyLeftBehind` | filebench/fileset.c:681-686 | as long as none was wasted, once everybody woken has run, a thread sleeps only if every file is held |
| `FilesetWaiting.OneKindSuffices` | filebench/fileset.c:757-828 | a woken thread finds a file when all files are of its kind and the count is right, so nothing is wasted |
| `FilesetWaiting.WakeUpCanBeLost` | filebench/fileset.c:983-992 | a run in which a thread sleeps on beside an idle file of the kind it wants, with nobody left to wake it |

## Left out

- VersionSet, choosing a compaction, tables and their cache, filters, the arena, Env and the checksum itself: not part of this model; a version is the set of its tables, the manifest is what the last durable edit says, and a compaction's inputs come with the promise that no deeper level has an entry for the keys in its base set.
- Failed appends, `reuse_logs` and appending to an old log after a torn tail, and a nonzero initial offset of the log reader: they need another crash model.
- Internal keys that do not parse, in compaction and in the iterator: the code passes them through on purpose.
- Trivial moves of a file between levels, manual compaction, seek-triggered compaction, shutdown in the middle of a compaction, write slowdown and sleeping.
- That a thread which has been woken eventually runs: the state machines say what can happen, not that it does.
- Directories and leaf directories of a file set: the same code with other trees and counters.
- `fileset_pickreset` on trees that are not empty: it steps on after the entry has moved to another tree.
- `avl_update`, `avl_update_lt`, `avl_update_gt`, `avl_swap`: remove and add again, or exchange whole trees.
- The JL_LIBCFS and CFS variants, statistics, logging, random distributions, process control and the command line programs.
- SkipList.SkipList.Insert: stores become visible to readers in program order; the weaker orders that the acquire and release annotations leave room for are not modelled.
- Avl.AvlTree.Find: keys are integers and the comparison cannot fail, as with the indexes that the file set compares; the packed 64-bit node word is modelled as separate fields, as in the 32-bit variant.
- Fileset.FileSet.SetExists: the three trees keep their links in memories of their own, while the source has one set of links per file, which is enough because a file is in one tree at a time.
- MemTable.MemTable.Get: the key with its tag is shorter than 4 GiB, as for Add.
- MemTable.MemTable.Add: key and tag together, and the value, are shorter than 4 GiB, because their lengths are stored in 32 bits; for more than that the code's own assertion on the encoded length can fail.
- EngineTheorems.AcknowledgedNeverLost: says nothing about reads at snapshots below the floor that a completed compaction has set, which nobody holds any more.
