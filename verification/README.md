# LevelDB with an enclave auditor, modelled in Dafny

This project models the storage engine of a LevelDB 1.18 derivative and the write auditor that runs
beside it in an SGX enclave, and proves what the code promises. The system is a log-structured
merge tree: writes go to a log and a memtable, memtables are flushed to sorted table files, and
compactions merge files into deeper levels. Writers queue up and commit in groups, and report the
sequence numbers they got to the auditor.

What the files hold:

- `Entries`, `Versions`, `Picking`, `VersionOrder`, `Swaps`, `Compaction`, `CompactionCuts`: entries
  ordered by user key and descending sequence number, files, levels, the read path, the choice of
  compaction inputs, the compaction loop with its drop rules, and where it cuts its outputs.
- `Engine`, `EngineSafety`, `EngineJobs`, `EngineRuns`: the store as a state machine. Its steps are
  opening a group of writes, insert, publish, switch of memtables, flush, begin and install of a
  compaction, trivial move, and snapshots, so flushes happen in the middle of compactions and readers
  between any two steps. The main theorems say that a read is what replaying the writes up to its
  snapshot into a map gives.
- `EngineGroups`: groups of writes become visible as a whole, in every run.
- `ReadLimits`, `Reaching`, `FailingRuns`: where the read theorem stops. Inputs of a compaction above level 0 do
  not pull in a neighbour that shares a boundary user key. With a snapshot alive, a user key can sit
  in two files of a level; taking only the newer half down uncovers the older half, and dropping a
  deletion marker uncovers what a file that stays still holds. `ReadLimits` says exactly which reads
  change, for moves and for merges; `FailingRuns` has runs from the empty store for each way, in which
  flush levels, picked inputs, triggers and output cuts are the ones the code computes; `Reaching` is
  what they are built from. Runs that take no snapshots never split a key, and for those the read
  theorem has no premise.
- `EngineJournal`: every run of the engine leaves a manifest from which recovery rebuilds its version,
  its compaction pointers and the number of the first log still needed.
- `EngineCrash`, `LogRecovery`: what a crash leaves. From the bytes of the two logs that may be needed,
  whatever part of the newer one survived, recovery makes tables over that version which are read as a
  whole number of groups of writes.
- `Auditor`, `GroupCommit`, `AuditRuns`, `AuditSteps`, `AuditWraps`: the auditor's reorder buffer, group
  commit, and the protocol they form, over every interleaving and across the wraps of its 32-bit
  counters; the class's locked sections take the protocol's steps.
- `SkipList`, `Merger`, `Merged`, `DbIter`, `TwoLevel`: ordered structures that must agree with a flat
  sorted list, in both directions and with direction changes; the skip list also at every intermediate
  store of an insertion with a concurrent search.
- `StateIter`: the iterator of a store, from its memtables and files up to what a user is shown.
- `BlockBuilder`, `Block`, `Comparators`, `Bloom`, `FilterBlock`, `FilterPolicy`, `TableOrder`,
  `TableFormat`, `Table`, `TableReader`, `TableIter`: table files down to their bytes, from adding
  entries to opening the file, a point lookup and an iterator.
- `Coding`, `Crc32c`, `Log`, `WriteBatch`, `VersionEdit`, `Manifest`, `Recovery`, `VersionSet`: the
  codecs, CRC32C (section 12.1 of RFC 3720), the write-ahead log with its crash behaviour, and
  recovery of the current version from any surviving prefix of the manifest.
- `LogChecks`, `Grammar`: the readers on bytes nobody vouches for. What the log reader takes from a
  damaged file and what it reports, and exactly which strings decode as batches, edits and entries.
- `HandleTable`, `LruCache`, `Merkle`, `EnclaveMerge`, `EnclaveOrder`: the block cache, the Merkle
  accumulator, the enclave's buffered merge, and when its bytewise order is the order of keys.

Conventions. A user key in the engine and the iterators is its rank, a real number; the first row
below says why nothing is lost. Integers are unbounded except where the code's width matters, and
there wrap-around or truncation is written out. Files are byte strings; appending and reading
succeed. Time, file numbers, random heights, table sizes and the outcome of I/O are parameters.
Methods follow the loops and in-place updates of the code and are proved against functions; the
lemmas then say what those functions mean.

Premises. Most premises are what the code asserts or what its caller has just established. These are
not, and the code does not check them: `Guarded` (no compaction or move so far split a user key;
`ReadLimits` says what happens otherwise), no `Lost` announcement (`AuditRuns.EnrollIff` says exactly
when one is, `IdsClose` is a condition under which none is), `Near` (operations less than 2^32 ticks
apart, only where a statement speaks of wraps), `Addressable` (a table file is below 2^64 bytes and
each of its blocks below 2^32), and `Codable` and `Loggable` (counters, sizes and keys fit the fields of
the manifest and of the logs). `TableSizes` and the lengths in `CaseOk` describe the values for which
the failing runs are given.

Where the code differs from what one might expect, the model follows the code: the leader of a
group is told the last number of the group and its followers the numbers before it, so the numbers
told are a permutation of the group's; a memtable flush during a compaction may go below level 0;
an added file number cancels a deletion of the same number in the manifest builder; a physical log
record whose type byte is 5 reads as the end of the log; the count of open channels in the enclave
merge never falls, and the loop ends because no channel has an entry left; a merge the auditor
refuses leaves its mutex locked, so nothing is announced or reported afterwards.

## Model

| member | source | states |
|---|---|---|
| `Entries.RankOrder` | App/integration/comparator.cpp:25-27 | The bytewise order on all byte strings is exactly the order of their real-valued ranks, both ways; the engine and the iterators then compare ranks. |
| `Versions.FindFile` | App/integration/version_set.cpp:78-97 | The binary search returns the first file whose largest internal key is not before (k, s), for every sorted level. |
| `Versions.ProbeRight` | App/integration/memtable.cpp:107-143 | Seeking a sorted run and testing the user key gives the newest entry of k at or below s, or none exactly when no entry of k is visible. |
| `Versions.SearchLevelRight` | App/integration/version_set.cpp:369-386 | Reading one file, found by search, answers for the whole level when its files are sorted and disjoint. |
| `Versions.SearchLevel0Right` | App/integration/version_set.cpp:353-368 | At level 0 the covering files taken newest number first answer for the whole level when larger numbers are newer. |
| `VersionOrder.SearchFromRight` | App/integration/version_set.cpp:326-424 | Going down the levels and stopping at the first hit gives the newest visible entry of everything on disk, given the age order between levels. |
| `VersionOrder.SearchVersion` | App/integration/version_set.cpp:326-424 | The loop over levels, with its two ways of choosing files, computes that search. |
| `VersionOrder.SearchFiles` | App/integration/version_set.cpp:387-421 | The inner loop over the chosen files stops at the first one that has the key. |
| `Picking.SomeFileOverlapsRange` | App/integration/version_set.cpp:113-148 | True exactly when some file overlaps the range, open ends included, for disjoint and for overlapping file lists. |
| `Picking.GetOverlappingInputs` | App/integration/version_set.cpp:642-683 | Terminates; the result is the files touching a range widened without gaps, and at level 0 no other file touches the range of the result. |
| `Picking.PickLevelForMemTableOutput` | App/integration/version_set.cpp:613-639 | A level above 0 only if no level down to it overlaps the flushed range, and the deepest one the rules allow. |
| `Picking.GetRange` | App/integration/version_set.cpp:1296-1316 | The hull of the user-key ranges of the files, and the last of their internal keys. |
| `Picking.SetupOtherInputs` | App/integration/version_set.cpp:1450-1515 | The inputs are exactly the start files with what they touch below, or the grown set when that needs no more files below and stays under the size limit; they are closed under overlap and form one gap-free interval; the grandparents are the files they overlap two levels down, and the pointer is the last key of the upper inputs. |
| `Picking.TryExpand` | App/integration/version_set.cpp:1465-1495 | Growing the upper inputs exactly when the rules allow it keeps all of that. |
| `Picking.PickStart` | App/integration/version_set.cpp:1404-1418 | The first file past the compaction pointer, wrapping round. |
| `Picking.Finalize` | App/integration/version_set.cpp:1135-1172 | The first level with the highest score, files against four at level 0 and bytes against the budget elsewhere. |
| `Picking.MaxBytesForLevel` | App/integration/version_set.cpp:35-44 | The loop computes 2^20 times 10 to the level, and that of level 1 for level 0. |
| `Picking.ScoresLow` | App/integration/version_set.cpp:1135-1172 | No score reaches 1 if and only if level 0 has fewer than 4 files and levels 1 to 5 hold less than 10, 100, 1000, 10000 and 100000 MB. |
| `Picking.PickCompaction` | App/integration/version_set.cpp:1396-1448 | Picks nothing if and only if no file has used up its seeks, level 0 has fewer than 4 files and levels 1 to 5 hold less than 10, 100, 1000, 10000 and 100000 MB; otherwise the level is the first with the highest score, or the charged file's, and the inputs are exactly those that follow from the start file, closed and gap-free. |
| `Compactions.Compaction.IsBaseLevelForKey` | App/integration/version_set.cpp:1587-1606 | Asked with ascending keys, the cursors that only move forward decide exactly whether any deeper level covers the key. |
| `Compactions.Compaction.ShouldStopBefore` | App/integration/version_set.cpp:1608-1628 | Passes exactly the grandparents that end before the entry, remembers the bytes passed since the last stop, and stops exactly when they exceed the limit. |
| `Compactions.Compaction.Examine` | App/integration/db_impl.cpp:1179-1222 | An entry is dropped exactly when a newer one hides it from every snapshot or it is a deletion marker with nothing below. |
| `Compactions.Compaction.DoCompactionWork` | App/integration/db_impl.cpp:1127-1296 | The outputs, none of them empty, together hold exactly the surviving entries, in order; none goes on after it has reached the target size, and each but the last has reached it or was the open one when the grandparent rule stopped. |
| `Compactions.OutputsCut` | App/integration/db_impl.cpp:1179-1255 | Wherever a compaction cuts its outputs, it is for one of these two reasons, and it never misses the first. |
| `CompactionCuts.RuleCutsIff` | App/integration/version_set.cpp:1608-1628 | Said of the entries and grandparents alone: with the last stop in front of entry m (or m the first entry), there is a stop in front of entry n if and only if the grandparents that end at or behind entry m and before entry n total more than the limit; never in front of the first entry. |
| `CompactionCuts.GrandparentsAscend` | App/integration/version_set.cpp:1495-1500 | The grandparents of a picked compaction end one behind the other, which is all that takes. |
| `CompactionCuts.OutputsNotSplit` | App/integration/db_impl.cpp:1179-1186 | No output holds entries from both sides of such a stop. |
| `Compactions.SurvivorsMeaning` | App/integration/db_impl.cpp:1198-1222 | For every key and every snapshot at or above the smallest one, the newest visible entry survives, or was a droppable deletion marker and then nothing of the key is visible. |
| `Compactions.OnePerKey` | App/integration/db_impl.cpp:1205-1207 | With no entry above the smallest snapshot, at most one entry per user key survives. |
| `Compactions.FullyCompacted` | App/integration/db_impl.cpp:1198-1222 | With nothing deeper and no entry above the smallest snapshot, an entry survives if and only if it is the newest of its key and a value. |
| `Swaps.SwapOk` | App/integration/version_set.cpp:822-868 | Replacing files keeps a version well ordered when the new files fit by age and by range. |
| `EngineJobs.PickedJobOk` | App/integration/version_set.cpp:1450-1515 | A picked pair of input sets meets every condition a running compaction relies on to be installable. |
| `EngineJobs.CompactionAnswers` | App/integration/db_impl.cpp:1166-1258 | Replacing the inputs by the survivors changes no answer at any snapshot from the smallest one up. |
| `EngineJobs.InstallAnswers` | App/integration/db_impl.cpp:1008-1027 | The same for the whole store when a compaction is installed, whatever was flushed meanwhile. |
| `EngineJobs.OutputsApart` | App/integration/version_set.cpp:870-883 | Outputs overlap neither each other nor any file that stays at their level. |
| `EngineJobs.InstallInv` | App/integration/db_impl.cpp:1008-1027 | Installing a finished compaction keeps the invariant. |
| `EngineJobs.MoveInv` | App/integration/db_impl.cpp:810-827 | A trivial move keeps the invariant when no user key is split between the file and a neighbour. |
| `EngineJobs.BeginInv` | App/integration/db_impl.cpp:779-862 | Starting a picked compaction keeps the invariant when no user key is split between an input and a neighbour that stays. |
| `EngineJobs.BeginSound` | App/integration/db_impl.cpp:779-862 | Starting any picked compaction, split keys or not, keeps everything but the promise that nothing older stays behind. |
| `EngineJobs.StepInv` | App/integration/db_impl.cpp:1598-1897 | Every step of the store (open a group, insert, publish, switch, flush, begin, reserve, install, move, snapshot, release) keeps the whole invariant, begin and move under the guard that no user key is split. |
| `EngineJobs.InitInv` | App/integration/version_set.cpp:886-905 | The empty store has it. |
| `EngineSafety.OutsideSpan` | App/integration/version_set.cpp:613-639 | A range that meets none of a gap-free set of files lies wholly to one side of them. |
| `EngineSafety.FlushDuringJob` | App/integration/db_impl.cpp:1168-1177 | A memtable flush in the middle of a compaction, at any level the picker allows, leaves the compaction installable. |
| `EngineSafety.FlushSound` | App/integration/db_impl.cpp:566-650 | Flushing the immutable memtable keeps the invariant, whatever inputs a running compaction has. |
| `EngineSafety.InsertSound` | App/integration/db_impl.cpp:1617-1642 | Inserting the next entry into the memtable keeps it. |
| `EngineSafety.SwitchSound` | App/integration/db_impl.cpp:1821-1897 | Switching memtables keeps it. |
| `EngineSafety.SnapshotSound` | App/integration/db_impl.cpp:1575-1583 | Taking and releasing snapshots keeps it. |
| `EngineSafety.WaitingSound` | App/integration/db_impl.cpp:1598-1897 | While a compaction runs, every step of writers, readers and flushes keeps the invariant, whatever inputs the compaction was given. |
| `EngineRuns.ExecutionInv` | App/integration/db_impl.cpp:779-862 | Every state reached from the empty store has the invariant, if no compaction or move so far split a user key. |
| `EngineRuns.SearchIsNewest` | App/integration/db_impl.cpp:1424-1492 | Memtable, then immutable memtable, then version: the first hit is the newest visible entry of the whole store. |
| `EngineRuns.ReplayIsNewest` | App/integration/write_batch.cpp:143-164 | The newest visible entry is what replaying the writes up to the snapshot into a map leaves for the key. |
| `EngineRuns.SUGet` | App/integration/db_impl.cpp:1424-1492 | A read returns the value of the map after exactly the writes up to its snapshot, or nothing. |
| `EngineRuns.PinnedRead` | App/integration/db_impl.cpp:1424-1492 | A reader that fixed its number, memtables and version under the mutex finds, however many steps later, what it would have found at once; in any run. |
| `EngineRuns.GuardedRunReads` | App/integration/db_impl.cpp:1424-1492 | Along every such run, every read at every live snapshot is the replayed map. |
| `EngineRuns.SoloIsClosed` | App/integration/version_set.cpp:1450-1515 | Where no user key is in two files of a level, no boundary is ever split. |
| `EngineRuns.SnapshotFreeRunReads` | App/integration/version_set.cpp:326-424 | Every run that takes no snapshots, with no guard at all, keeps levels sorted and disjoint with no user key in two files of a level, and reads are right. |
| `EngineGroups.GroupsKept` | App/integration/db_impl.cpp:1617-1653 | Every step keeps the history a concatenation of whole groups plus what is in of the open one, and the published number and every snapshot at the end of a group. |
| `EngineGroups.ExecutionGroups` | App/integration/db_impl.cpp:1617-1653 | So every state of every run has that, with no guard. |
| `EngineGroups.WholeGroups` | App/integration/db_impl.cpp:1636-1653 | The writes up to a number anyone can read at are exactly the first i groups, numbered from 1. |
| `EngineGroups.ReadsWholeGroups` | App/integration/db_impl.cpp:1424-1492 | At one readable number all keys are read as the same first i groups left them: no part of a group is ever seen. For runs in which no user key was split. |
| `EngineGroups.SnapshotFreeWholeGroups` | App/integration/db_impl.cpp:1424-1492 | The same for every run that takes no snapshots, with no guard. |
| `EngineGroups.GroupRun` | App/integration/db_impl.cpp:1617-1653 | Opening, inserting and publishing a group is a run of steps during which no reader's number changes. |
| `EngineGroups.LeaderCommits` | App/integration/db_impl.cpp:1598-1683 | What the leader does to the queue of writers and what those steps do to the store are the same commit. |
| `ReadLimits.SwapSearch` | App/integration/version_set.cpp:326-424 | What a search finds after files were swapped, for every key and number, also when the swap cut a user key in two. |
| `ReadLimits.MoveReadIff` | App/integration/db_impl.cpp:810-827 | A trivial move changes the answer of a read if and only if the moved file holds the entry the read must see and an older entry of its key, not both deletions, stays at the level. |
| `ReadLimits.InstallReadIff` | App/integration/db_impl.cpp:1008-1027 | A merge changes the answer of a read at or above its smallest snapshot if and only if an input holds the entry the read must see and either an older entry of the key stays at the inputs' level, or the entry is a dropped deletion marker and a value of the key stays at the output level. |
| `ReadLimits.MoveRightIff` | App/integration/db_impl.cpp:810-827 | After a trivial move all reads clients can make are right if and only if the move exposes none of them in this way. |
| `ReadLimits.InstallRightIff` | App/integration/db_impl.cpp:1008-1027 | The same for installing a merge. |
| `ReadLimits.BeginInstallIff` | App/integration/db_impl.cpp:779-862 | From picking any inputs, through any steps of others, to the installation: all reads come out right if and only if none is exposed at that moment. |
| `FailingRuns.SplitReached` | App/integration/db_impl.cpp:1233-1255 | From the empty store: a value above the grandparent limit at level 2, four memtables at level 0 with a snapshot alive, and their merge, whose first output is full in the middle of a user key. |
| `FailingRuns.SomeCase` | App/integration/db_impl.cpp:1246-1252 | There are such values and sizes, for every kind of the newest version. |
| `FailingRuns.KeysAreBytes` | App/integration/comparator.cpp:25-27 | The keys of these runs are the ranks of one-byte strings. |
| `FailingRuns.MoveGoesBack` | App/integration/db_impl.cpp:810-827 | For all values of such lengths and any sizes of tables in a wide range: a run from the empty store, with every flush, pick and cut as the code makes it, in which a trivial move makes the next read of a key return the value of an older version. |
| `FailingRuns.MergeGoesBack` | App/integration/version_set.cpp:1450-1515 | Likewise a run in which a merge takes only the newer versions of a key down, and the next read returns an older one. |
| `FailingRuns.MergeResurrects` | App/integration/version_set.cpp:1587-1606 | Likewise a run in which a merge drops a deletion marker beside a file that still holds the key, and the deleted value is read again. |
| `Auditor.Audit.GetTime` | Enclave/cc.cpp:25-32 | The clock goes up by one, as an unsigned 32-bit counter, and its new value is returned. |
| `Auditor.Audit.AllocId` | Enclave/cc.cpp:34-41 | The same for operation ids. |
| `Auditor.Audit.Enroll` | Enclave/cc.cpp:82-91 | The operation is pending with its start time; an id already there is left as it is. |
| `Auditor.Audit.Truncate` | Enclave/cc.cpp:93-101 | Takes the completed operations numbered on from the history, as far as they go without a gap. |
| `Auditor.Audit.Check` | Enclave/cc.cpp:103-112 | One message for each pair of operations of the batch of which the one with the larger number ended no later than the other started; none exactly when there is no such pair. |
| `Auditor.Audit.TryMerge` | Enclave/cc.cpp:114-122 | Refuses exactly when the first operation of the batch ended before the latest merged one started; otherwise the history moves to the last of the batch. |
| `Auditor.Audit.Postput` | Enclave/cc.cpp:124-142 | A report has the effect of the report function on the whole audit state. |
| `Auditor.Audit.Postget` | Enclave/cc.cpp:71-80 | A finished get is no longer pending, for a get whose check returns. |
| `Auditor.DrainTakes` | Enclave/cc.cpp:93-101 | What truncation takes is the longest gap-free run of numbers, in order, and everything else stays. |
| `GroupCommit.BuildBatchGroup` | App/integration/db_impl.cpp:1769-1817 | The group is the longest prefix of the queue that the size and sync rules allow; its operations are theirs in queue order. With a leader that does not sync nobody in it does; more than the leader's bytes are taken only up to 128 KB above them, or 1 MB for a leader above 128 KB; and the next writer would break one of the two rules. |
| `GroupCommit.WriteQueue.Commit` | App/integration/db_impl.cpp:1598-1683 | The group leaves the queue, its k-th operation is inserted at last+1+k, the last sequence moves past all of them, and each writer is told its number. |
| `GroupCommit.ReportsConserve` | App/integration/db_impl.cpp:1802-1815 | The numbers reported to a group are last+1..last+count, each once, if and only if there are as many operations as writers. |
| `GroupCommit.SingleOps` | App/integration/db_impl.cpp:1786-1815 | With single-operation batches the k-th operation of a group is the k-th writer's. |
| `AuditRuns.CommitInv` | App/integration/db_impl.cpp:1598-1683 | A group commit keeps the invariant of the protocol. |
| `AuditRuns.PostHistory` | Enclave/cc.cpp:124-142 | After a report that is not refused the history's number is the largest n with 1..n all reported, each merged once and in order, and the others wait. |
| `AuditRuns.PostInv` | Enclave/cc.cpp:124-142 | A report keeps the invariant. |
| `AuditRuns.ExecutionInv` | Enclave/cc.cpp:82-142 | Along every interleaving of puts and gets, of any length and across any wraps of the clock, the invariant holds up to a point if and only if no announcement was lost before it. |
| `AuditRuns.EnrollIff` | Enclave/cc.cpp:82-91 | An announcement leaves the pending list as it was if and only if an announced call has the same low 32 bits of its id, and exactly then the auditor can no longer tell its calls apart. |
| `AuditRuns.SecondFindsNothing` | Enclave/cc.cpp:124-130 | Of two calls with the same low 32 bits, the first to report takes the entry, and the second has none to report on. |
| `AuditRuns.CloseRun` | Enclave/cc.cpp:34-41 | No announcement is lost in a run in which no call stays open while 2^32 ids are handed out. |
| `AuditRuns.AuditorAccepts` | Enclave/cc.cpp:103-142 | In every run in which neither counter has wrapped no alarm is raised and no merge refused, and the history is exactly the reported numbers in order. |
| `AuditRuns.NumbersConserved` | App/integration/db_impl.cpp:1652-1677 | In every run, with no premise, the numbers told to writers are exactly those handed out, each to one writer. |
| `AuditRuns.CutOrder` | Enclave/cc.cpp:25-32 | Two ticks less than 2^32 apart are out of order as 32-bit values if and only if the clock wrapped between them. |
| `AuditRuns.ReportIff` | Enclave/cc.cpp:103-142 | A report raises an alarm if and only if the low 32 bits of the end of an operation of its batch are not above those of the start of an earlier one; the merge is refused and the lock kept if and only if the first end is below the latest merged start in the same way. In true time all were in order. |
| `AuditRuns.WrapIff` | Enclave/cc.cpp:103-122 | For operations in true order and less than 2^32 ticks apart, that is exactly a wrap of the clock between the two. |
| `AuditRuns.FalseAlarmIff` | Enclave/cc.cpp:103-112 | So for such operations a false alarm is exactly a wrap inside the batch. |
| `AuditRuns.AlarmedIff` | Enclave/cc.cpp:103-112 | Over any run that loses no announcement, the auditor has raised an alarm if and only if two operations of one batch were out of order in the low 32 bits of their times. |
| `AuditRuns.HistoryStops` | Enclave/cc.cpp:93-101 | From the moment the history has reached 2^32 - 1 it stands still for the rest of any run, with no premise: the next number it looks for is 0. |
| `AuditWraps.FalseAlarmReached` | Enclave/cc.cpp:103-112 | A run in which the first alarm is raised over two puts of which the earlier started before the later ended. |
| `AuditWraps.LockReached` | Enclave/cc.cpp:114-142 | A run of puts one after the other in which the one that ends as the clock wraps is refused and the auditor stays locked. |
| `AuditWraps.LastNumberReached` | Enclave/cc.cpp:93-101 | A run whose history does reach 2^32 - 1. |
| `AuditWraps.AnnouncementLost` | Enclave/cc.cpp:82-91 | A run in which a put stays unreported while 2^32 ids are handed out, and the announcement of the put with the same low 32 bits is lost. |
| `AuditWraps.ReportLost` | Enclave/cc.cpp:124-130 | The run goes on: both are written, the first report takes the one announcement, and the second finds nothing and cannot be made. |
| `AuditSteps.FreshShows` | Enclave/cc.cpp:19-23 | A new object shows the protocol's initial state. |
| `AuditSteps.StartCall` | Enclave/cc.cpp:44 | The class's clock shows the low 32 bits of the protocol's, and a call that starts is told those of its tick. |
| `AuditSteps.NameCall` | Enclave/cc.cpp:45 | The same for the id of a call. |
| `AuditSteps.EnrollCall` | Enclave/cc.cpp:87-89 | Entering a call into the class's pending list is the protocol's step, whether or not the place is taken. |
| `AuditSteps.EndCall` | Enclave/cc.cpp:125 | Taking the end time of a call is the step that ends it. |
| `AuditSteps.PostPut` | Enclave/cc.cpp:126-140 | A report to the class is the protocol's step, refusals and alarms included. |
| `AuditSteps.PostGet` | Enclave/cc.cpp:73-78 | The same for a finished get. |
| `DbIters.DBIter.FindNextUserEntry` | App/integration/db_iter.cpp:173-203 | Stops at the first shown entry past what is to be skipped, or at the end. |
| `DbIters.DBIter.FindPrevUserEntry` | App/integration/db_iter.cpp:232-272 | Leaves the last shown entry at or before the position as the saved one. |
| `DbIters.DBIter.Next` | App/integration/db_iter.cpp:146-171 | Moves to the next shown entry, from either direction. |
| `DbIters.DBIter.Prev` | App/integration/db_iter.cpp:205-230 | Moves to the shown entry before, from either direction. |
| `DbIters.DBIter.Seek` | App/integration/db_iter.cpp:274-286 | Moves to the first shown entry at or after the key. |
| `DbIters.DBIter.SeekToFirst` | App/integration/db_iter.cpp:288-297 | Moves to the first shown entry. |
| `DbIters.DBIter.SeekToLast` | App/integration/db_iter.cpp:299-303 | Moves to the last shown entry. |
| `DbIters.DBIter.CurrentValue` | App/integration/db_iter.cpp:70-73 | The value is the shown entry's in both directions. |
| `DbIters.ShownIsAnswer` | App/integration/db_iter.cpp:173-203 | An entry of a key is shown exactly when a read of the key at the snapshot finds a value, and then with that value. |
| `DbIters.ShownAscend` | App/integration/db_iter.cpp:173-203 | Shown entries come in strictly ascending key order. |
| `DbIters.ThereAndBack` | App/integration/db_iter.cpp:146-230 | A step and a step back, in either order and from either direction, end on the entry where they began, and fail exactly when there is no further entry. |
| `Merger.MergingIterator.FindSmallest` | App/integration/merger.cpp:155-168 | The child whose entry is smallest, or none. |
| `Merger.MergingIterator.FindLargest` | App/integration/merger.cpp:170-183 | The child whose entry is largest, or none. |
| `Merger.MergingIterator.SeekToFirst` | App/integration/merger.cpp:35-41 | The least entry of the union. |
| `Merger.MergingIterator.SeekToLast` | App/integration/merger.cpp:43-49 | The greatest entry of the union. |
| `Merger.MergingIterator.Seek` | App/integration/merger.cpp:51-57 | The least entry of the union not before the target. |
| `Merger.MergingIterator.Next` | App/integration/merger.cpp:59-83 | The least entry of the union after the current one, also right after moving backwards. |
| `Merger.MergingIterator.Prev` | App/integration/merger.cpp:85-112 | The greatest entry of the union before the current one, also right after moving forwards. |
| `Merger.ThereAndBack` | App/integration/merger.cpp:59-112 | A step and a step back, in either order and from either direction, end on the entry where they began. |
| `Merger.MergeAll` | App/integration/merger.cpp:59-83 | Walking from first to last yields the sorted union of the children. |
| `MergedRuns.InternalIterator.Next` | App/integration/merger.cpp:59-83 | The merging iterator moves one place on in the sorted run of all entries of its children. |
| `MergedRuns.InternalIterator.Prev` | App/integration/merger.cpp:85-112 | One place back, or off the run from its first place. |
| `MergedRuns.InternalIterator.Seek` | App/integration/merger.cpp:51-57 | To the first place of the run not before the target. |
| `MergedRuns.InternalIterator.SeekToFirst` | App/integration/merger.cpp:35-41 | To the first place. |
| `MergedRuns.InternalIterator.SeekToLast` | App/integration/merger.cpp:43-49 | To the last place. |
| `StateIters.ChildrenHold` | App/integration/version_set.cpp:226-243 | The memtables, the files of level 0 and the concatenated deeper levels of a store share no internal key and together hold exactly what it stores. |
| `StateIters.StateShows` | App/integration/db_iter.cpp:173-203 | A key is shown at a readable number if and only if replaying the writes up to it leaves a value, and with that value. |
| `StateIters.NewIterator` | App/integration/db_impl.cpp:1383-1412 | The iterator a store hands out drives the merging iterator over these children, and what it will show is the replayed map. |
| `SkipLists.RaiseOk` | App/integration/skiplist.h:346-361 | Raising the height alone keeps every level sorted and a sublist of the one below. |
| `SkipLists.AllocateOk` | App/integration/skiplist.h:363 | So does allocating the node. |
| `SkipLists.PrepareOk` | App/integration/skiplist.h:364-367 | So does setting a link of a node not yet on that level. |
| `SkipLists.PublishOk` | App/integration/skiplist.h:368-369 | So does linking the node in at one level, which adds it there and nowhere else. |
| `SkipLists.ConcurrentSearchRight` | App/integration/skiplist.h:262-281 | A search over memories that are each well formed and only grow lands on the first linked key at or after the target. |
| `SkipLists.StoreKeeps` | App/integration/skiplist.h:346-369 | Each single store of the writer leaves a well-formed list that has only grown. |
| `SkipLists.WritingGrows` | App/integration/skiplist.h:346-369 | However many stores lie between two moments, both are well formed and the later one has grown from the earlier. |
| `SkipLists.InterleavedSearchRight` | App/integration/skiplist.h:262-281 | A search whose loads fall anywhere among the stores of one writer is right for the list at its last load. |
| `SkipLists.SkipList.FindGreaterOrEqual` | App/integration/skiplist.h:262-281 | The first node at or after the key, and the predecessor on every level. |
| `SkipLists.SkipList.FindLessThan` | App/integration/skiplist.h:284-302 | The last node before the key. |
| `SkipLists.SkipList.FindLast` | App/integration/skiplist.h:304-322 | The last node. |
| `SkipLists.SkipList.Insert` | App/integration/skiplist.h:337-370 | The contents become the old ones with the key in its place, by single stores of the kinds above. |
| `SkipLists.SkipList.Contains` | App/integration/skiplist.h:372-380 | True exactly for the keys inserted. |
| `SkipLists.SkipList.Get` | App/integration/memtable.cpp:107-143 | The memtable lookup is the probe of the sorted contents. |
| `Crc32c.Step4IsFour` | App/integration/crc32c.cpp:295-302 | The four-table word step equals four one-byte steps, on every register and every four bytes. |
| `Crc32c.Extend` | App/integration/crc32c.cpp:286-329 | With its alignment prologue and its 16-, 4- and 1-byte loops it is the bytewise checksum, for every buffer, length and address. |
| `Crc32c.TableWords` | App/integration/crc32c.cpp:16-81 | The words 16, 32, 64 and 128 of the first table are those the program lists. |
| `Crc32c.TablesLinear` | App/integration/crc32c.cpp:16-284 | All four tables are linear in their index, so that these words and the division step determine them. |
| `Crc32c.KnownValue` | App/integration/crc32c.cpp:286-329 | The checksum of the one byte ff is ff000000: the register starts inverted and is inverted at the end. |
| `Crc32c.ExtendComposes` | App/integration/crc32c.h:14-17 | Extending over two buffers in turn is extending over their concatenation. |
| `Crc32c.UnmaskMask` | App/integration/crc32c.h:31-40 | Unmask undoes Mask on every 32-bit word. |
| `Crc32c.MaskUnmask` | App/integration/crc32c.h:31-40 | Mask undoes Unmask on every 32-bit word. |
| `Crc32c.MaskRotates` | App/integration/crc32c.h:24-34 | The masked form is the register rotated right by 15 bits plus a282ead8, in 32 bits. |
| `Crc32c.LoadNumber` | App/integration/crc32c.cpp:295-302 | A register loaded from four bytes is the number they are the little-endian form of. |
| `Coding.Fixed32Round` | App/integration/coding.cpp:9-18 | A fixed 32-bit number reads back. |
| `Coding.Fixed64Round` | App/integration/coding.cpp:20-33 | A fixed 64-bit number reads back. |
| `Coding.FixedDigit` | App/integration/coding.cpp:9-33 | Byte i of the fixed form is the i-th digit of the number to the base 256. |
| `Coding.FixedBack` | App/integration/coding.cpp:9-33 | Every byte string is the fixed form of its value. |
| `Coding.EncodeVarint64` | App/integration/coding.cpp:81-90 | The loop writes seven bits a byte, lowest first. |
| `Coding.EncodeVarint32` | App/integration/coding.cpp:47-73 | The unrolled branches write the same bytes. |
| `Coding.DecodeVarint32` | App/integration/coding.cpp:112-141 | The shifting loop reads at most five bytes, cut off to 32 bits, and fails on every other input. |
| `Coding.Varint32Round` | App/integration/coding.cpp:75-79 | A 32-bit varint reads back whatever follows it. |
| `Coding.Varint64Round` | App/integration/coding.cpp:92-96 | So does a 64-bit one. |
| `Coding.VarintCut` | App/integration/coding.cpp:112-129 | A varint cut short never decodes. |
| `Coding.VarintDigit` | App/integration/coding.cpp:47-96 | Byte i of a varint is the i-th digit to the base 128, with the high bit on all but the last. |
| `Coding.GetVarintIs` | App/integration/coding.cpp:112-129 | On any bytes: reading goes up to the first byte below 128 and gives the digits to the base 128; it fails if and only if there is none soon enough. |
| `Coding.PrefixedRound` | App/integration/coding.cpp:98-101 | A length-prefixed slice reads back whatever follows it. |
| `Logs.Writer.AddRecord` | App/integration/log_writer.cpp:27-73 | Whatever was added before, the file stays exactly the log of the records added, fragments and block trailers included. |
| `Logs.Writer.EmitPhysicalRecord` | App/integration/log_writer.cpp:75-100 | One fragment behind its header, the checksum being that of type and payload. |
| `Logs.Reader.ReadPhysicalRecord` | App/integration/log_reader.cpp:181-263 | On any file: refilling by blocks, the checksum test, the errors and the drops are those of the specification, of which the lemmas of LogChecks say what it takes and what it refuses. |
| `Logs.Reader.ReadRecord` | App/integration/log_reader.cpp:59-164 | On any file: putting fragments together and reporting drops follows the specification. |
| `Logs.ReadWhole` | App/integration/version_set.cpp:1053-1060 | The recovery loop returns every record up to the first end. |
| `Logs.ReadFragment` | App/integration/log_reader.cpp:181-263 | At a written fragment the reader returns it, or the end of the file if it is cut, and never a drop. |
| `Logs.ReadRecord` | App/integration/log_reader.cpp:59-164 | A written record is returned if the file holds it wholly; otherwise reading ends with nothing reported. |
| `Logs.CrashPrefix` | App/integration/log_reader.cpp:59-263 | Reading any byte prefix of a written log returns exactly, in order, the records lying wholly inside it, and reports nothing. |
| `LogChecks.EmitIs` | App/integration/log_writer.cpp:27-73 | A record is written as zeros where no header fits, one fragment of type 1 to 4 with as much payload as the 32 KB block takes, and the rest from the next block on. |
| `LogChecks.PhysicalIff` | App/integration/log_writer.cpp:75-100 | A string is what the writer emits for a type and payload if and only if its header has that length and type and its first word unmasks to the CRC of type and payload. |
| `LogChecks.FragmentChecked` | App/integration/log_reader.cpp:181-263 | On any file and from any place: a fragment returned with checksums on lies in the file just before the cursor as the writer would have emitted it. |
| `LogChecks.FrontRead` | App/integration/log_reader.cpp:205-263 | A record wholly in the buffer is returned unless it is the zero record or its checksum does not match; then the rest of the buffer goes with it, and is reported in the second case. |
| `LogChecks.CutShort` | App/integration/log_reader.cpp:213-225 | A record longer than what is left of the buffer ends the file if that is at its end, and otherwise costs the buffer, reported. |
| `LogChecks.DeliveredWhole` | App/integration/log_reader.cpp:59-164 | Every record delivered, of any file, is the payload of one full fragment, or of a first, middle and last ones taken one directly after the other: nothing is put together across a bad piece. |
| `LogChecks.ReadingConserves` | App/integration/log_reader.cpp:59-164 | On any file: payload bytes taken and bytes lost to bad pieces add up to those delivered and those reported dropped; only the beginning of a record cut short by the end of the file goes unreported. |
| `VersionEdits.DecodeFrom` | App/integration/version_edit.cpp:109-210 | The loop over tags computes the decoding, errors included. |
| `VersionEdits.EncodeTo` | App/integration/version_edit.cpp:41-86 | The encoding is the edit's fields in the fixed order. |
| `VersionEdits.FieldsInOrder` | App/integration/version_edit.cpp:41-86 | Comparator, log number, previous log number, next file number and last sequence come first, in this order, then pointers, deletions and additions. |
| `VersionEdits.DecodeEncode` | App/integration/version_edit.cpp:109-210 | Decoding any run of encoded fields sets them one after another. |
| `VersionEdits.EditRoundTrip` | App/integration/version_edit.cpp:41-210 | Encoding an edit and decoding it into a fresh one is the identity. |
| `Grammars.DecodeIff` | App/integration/version_edit.cpp:88-210 | A string decodes if and only if it is a run of fields, each a tag (1 to 7 or 9) and its body with levels below 7, and then to the edit they make one after the other. |
| `Builders.Builder.Apply` | App/integration/version_set.cpp:776-819 | On every level: deletions first, then additions, which undo a deletion of the same number. |
| `Builders.Builder.SaveTo` | App/integration/version_set.cpp:822-868 | Every level is the ordered merge of base and added files without the deleted ones. |
| `Builders.SaveLevel` | App/integration/version_set.cpp:826-850 | The loops with upper_bound compute that merge. |
| `Builders.SaveMembers` | App/integration/version_set.cpp:870-883 | A file is saved exactly if it was there or added and is not deleted. |
| `Builders.SaveSorted` | App/integration/version_set.cpp:822-868 | The result is in order of smallest key. |
| `Builders.SortedUnique` | App/integration/version_set.cpp:717-729 | A level is determined by which files it holds. |
| `Builders.FoldIsInstall` | App/integration/version_set.cpp:1051-1072 | If no number is added to a level twice, folding all edits into one builder and saving once gives the version that installing them one at a time gives. |
| `Builders.InstallIsSwap` | App/integration/version_set.cpp:931-956 | The version saved for a flush, move or compaction is the exchange of files that the engine's steps are stated with. |
| `Recovery.RecoverFrom` | App/integration/version_set.cpp:1016-1129 | Reads the manifest and replays it, with its errors. |
| `Recovery.RecoverIff` | App/integration/version_set.cpp:1016-1112 | On any file: recovery succeeds if and only if the log reader reports nothing dropped, every record decodes and names no other comparator, and the log number, the next file number and the last sequence number are each in some record. |
| `Recovery.ReplayedVersion` | App/integration/version_set.cpp:1114-1120 | The version replay rebuilds is the one installing the edits one at a time led to. |
| `Recovery.CrashedManifest` | App/integration/version_set.cpp:1016-1129 | Any surviving prefix: from two wholly written edits on, recovery rebuilds the version of the last of them, the compaction pointers they set, its counters, and a next file number above every file in it; with fewer it succeeds if and only if there is one edit and it carries the counters. |
| `VersionSets.VersionSet.LogAndApply` | App/integration/version_set.cpp:931-1014 | Installs the edit with its counters and pointers, and keeps the manifest a journal that leads to the current version and to the pointers logged so far. |
| `VersionSets.VersionSet.SetPointer` | App/integration/version_set.cpp:1509-1514 | A picked compaction moves the pointer of its level at once. |
| `VersionSets.SnapshotRestores` | App/integration/version_set.cpp:1174-1202 | Installing the snapshot record into the empty version gives the version back. |
| `VersionSets.SnapshotPointers` | App/integration/version_set.cpp:1181-1188 | Replaying the snapshot record sets exactly the pointers that were set. |
| `VersionSets.RecoversCurrent` | App/integration/version_set.cpp:1016-1129 | Recovery from the whole manifest finds the current version and the logged pointers. |
| `VersionSets.CutBeforeFirstEdit` | App/integration/version_set.cpp:955-1014 | A manifest cut off before its first edit is whole recovers nothing. |
| `EngineJournal.ExecutionJournal` | App/integration/version_set.cpp:931-1014 | The edits of the flushes, moves and compactions of any run, with the pointers and log numbers they carry, are a journal that leads to the run's version: no edit adds to a level a number the level ever held. |
| `EngineJournal.RunRecovers` | App/integration/version_set.cpp:1016-1129 | Recovery from the manifest, at any moment of any run, rebuilds the version of that moment, its pointers but for the one of a compaction still running, and the number of the first log still needed. |
| `WriteBatches.WriteBatch.Put` | App/integration/write_batch.cpp:128-133 | One operation more, count and bytes in step. |
| `WriteBatches.WriteBatch.Delete` | App/integration/write_batch.cpp:135-139 | The same for a deletion. |
| `WriteBatches.WriteBatch.Append` | App/integration/write_batch.cpp:171-175 | The source's operations behind this batch's own. |
| `WriteBatches.Iterate` | App/integration/write_batch.cpp:42-80 | On any string: the operations delivered before the first error, and whether there was one or the count was wrong. |
| `WriteBatches.BatchRoundTrip` | App/integration/write_batch.cpp:42-80 | A batch that was built iterates as exactly its operations. |
| `Grammars.IteratedIff` | App/integration/write_batch.cpp:42-80 | A string iterates without an error if and only if it is a twelve-byte header and as many operations as that says, each 1, key and value or 0 and key, and then as exactly these. |
| `WriteBatches.WriteBatch.InsertInto` | App/integration/write_batch.cpp:158-164 | The i-th operation goes in at the batch's sequence number plus i. |
| `EngineCrash.ExecutionCrash` | App/integration/db_impl.cpp:605-637 | Along every run in which no user key was split, the two memtables hold the last writes in whole groups, their logs are the ones still needed, and what is on disk answers as all writes before them. |
| `EngineCrash.SnapshotFreeGuarded` | App/integration/version_set.cpp:1450-1515 | A run that takes no snapshots never splits a user key, so the same holds of it with no guard. |
| `EngineCrash.CrashReads` | App/integration/db_impl.cpp:538-559 | Tables made of the logged writes that survive, put over the version, are read as the whole number of groups that survived. |
| `LogRecovery.RecoverLogFile` | App/integration/db_impl.cpp:463-563 | On any bytes: the tables together hold, in order, what the records read insert; each ends with the first record after which the memtable is full, or with the last record; the number returned is the largest last number of a record; and there is an error if and only if checks are paranoid and something was damaged. |
| `LogRecovery.LoggedOps` | App/integration/db_impl.cpp:1617-1637 | The records of groups, read back, give every operation the number it was told. |
| `LogRecovery.LoggedLast` | App/integration/db_impl.cpp:536-542 | Of logged groups the largest last number is that of the last operation. |
| `LogRecovery.LogsSurvive` | App/integration/db_impl.cpp:496-520 | Of any prefix of a log exactly the groups wholly inside it are recovered, with nothing reported. |
| `LogRecovery.CrashRecovers` | App/integration/db_impl.cpp:412-460 | From bytes to reads: with the older log whole and any number of bytes of the newer one, every key is read after recovery as the groups whose records survived left it, all of them and nothing else. |
| `Blocks.BlockBuilder.Add` | App/integration/block_builder.cpp:73-107 | Appends the entry without what its key shares with the last, or whole at a restart. |
| `Blocks.BlockBuilder.Finish` | App/integration/block_builder.cpp:63-71 | Entries, restart offsets and their number. |
| `Blocks.FlatBlockBuilder.Add` | Enclave/zerocpy/block_builder.cpp:135-193 | Through the flat buffer, and with either place for the restarts, the same bytes and state as the string builder. |
| `Blocks.FlatBlockBuilder.Finish` | Enclave/zerocpy/block_builder.cpp:97-133 | The same finished bytes as the string builder. |
| `BlockIters.AddKeeps` | App/integration/block_builder.cpp:73-107 | For every restart interval the block stays a readable encoding of the entries added. |
| `BlockIters.BuiltIs` | App/integration/block_builder.cpp:73-107 | After any number of entries every interval-th one is a restart point, stored whole; every other leaves out the longest prefix it shares with the entry before it. |
| `BlockIters.FinishedReadable` | App/integration/block.cpp:18-38 | Opening a finished block finds the number of restarts and their place. |
| `BlockIters.DecodePiece` | App/integration/block.cpp:53-74 | A stored entry header decodes, whatever follows; the one-byte path agrees with the general one. |
| `BlockIters.Iter.ParseNextKey` | App/integration/block.cpp:226-253 | On any bytes: the next entry decoded, the end, or corruption. |
| `BlockIters.StepIs` | App/integration/block.cpp:226-253 | In front of entry i of a built block exactly that entry is decoded. |
| `Grammars.EntryTaken` | App/integration/block.cpp:53-74 | On any bytes: an entry that is taken is three varint lengths, the rest of a key of which enough is known, and a value, all before the limit. |
| `Grammars.EntryGiven` | App/integration/block.cpp:226-253 | And bytes of that shape are taken as that entry. |
| `BlockIters.Iter.Next` | App/integration/block.cpp:139-142 | Moves to the next entry or the end. |
| `BlockIters.Iter.Prev` | App/integration/block.cpp:144-163 | Moves to the entry before, undoing Next; past the first it is invalid. |
| `BlockIters.Iter.SeekToFirst` | App/integration/block.cpp:205-208 | The first entry. |
| `BlockIters.Iter.SeekToLast` | App/integration/block.cpp:210-215 | The last entry. |
| `BlockIters.Iter.Seek` | App/integration/block.cpp:165-203 | Binary search over restarts and linear search behind it land on the first entry not before the target, and never find a built block corrupt. |
| `BlockIters.BisectFinds` | App/integration/block.cpp:168-191 | On a built block the search never reports corruption and finds the last restart point in front of which all is before the target: the next one is not. |
| `Comparators.FindShortestSeparator` | App/integration/comparator.cpp:29-51 | The common prefix with a byte one larger where that stays below the limit, else the key. |
| `Comparators.SeparatorBetween` | App/integration/comparator.cpp:29-51 | Unless left alone, the separator is after the start and before the limit. |
| `Comparators.SeparatorShortest` | App/integration/comparator.cpp:29-51 | And no key in between is shorter. |
| `Comparators.FindShortSuccessor` | App/integration/comparator.cpp:53-65 | The first byte that can be raised is, and the rest dropped. |
| `Comparators.SuccessorBehind` | App/integration/comparator.cpp:53-65 | The successor is the key, exactly if all its bytes are ff, or after it and no longer. |
| `Comparators.SuccessorShortest` | App/integration/comparator.cpp:53-65 | No key that is not before the given one is shorter than its successor. |
| `Comparators.InternalSeparator` | App/integration/dbformat.cpp:68-85 | The shortened user key with the first tag, if it became shorter but larger, else the key. |
| `Comparators.InternalBetween` | App/integration/dbformat.cpp:68-85 | start <= separator < limit in the internal order, strictly between the user keys if shortened. |
| `Comparators.InternalSuccessor` | App/integration/dbformat.cpp:87-99 | The same with the short successor. |
| `Comparators.ShortenedIs` | App/integration/dbformat.cpp:68-99 | Exactly when the short user key is shorter and behind, the internal key becomes it with the eight bytes of the largest number and the value type. |
| `Comparators.InternalBehind` | App/integration/dbformat.cpp:87-99 | Never before the key. |
| `Comparators.InternalIsBefore` | App/integration/dbformat.cpp:50-66 | On encoded entries the internal comparator is the order the engine uses: user key up, sequence number down. |
| `Bloom.BloomFilterPolicy.CreateFilter` | App/integration/bloom.cpp:35-61 | Computes the filter function; a bit is set if and only if it is a probe of one of the keys; the number of probes comes last. |
| `Bloom.BloomFilterPolicy.KeyMayMatch` | App/integration/bloom.cpp:63-87 | Computes the match function: true exactly when all probes are set, or the encoding is a reserved one; false for a filter without bits. |
| `Bloom.FilterBits` | App/integration/bloom.cpp:35-61 | The filter has the least number of bytes with room for its bits a key, and for 64; the bits are the probes of its keys, all of them and nothing else. |
| `Bloom.ProbeIs` | App/integration/bloom.cpp:50-60 | The j-th probe is the hash plus j times the step, in 32 bits. |
| `Bloom.RotateIs` | App/integration/bloom.cpp:53-54 | The step is the hash rotated right by 17 bits. |
| `Bloom.BloomFilterPolicy.constructor` | App/integration/bloom.cpp:23-29 | The number of probes is 0.69 times the bits a key rounded down, but at least 1 and at most 30. |
| `Bloom.CreatedMatches` | App/integration/bloom.cpp:35-87 | A key the filter was made from always matches. |
| `FilterPolicies.WrappedOk` | App/integration/dbformat.cpp:105-119 | Any policy that hides none of its keys, applied to user keys, hides no key that shares its user key with a stored one. |
| `FilterPolicies.BloomPolicyOk` | App/integration/dbformat.cpp:105-119 | The Bloom filter wrapped in this way is such a policy. |
| `FilterBlocks.FilterBlockBuilder.StartBlock` | App/integration/filter_block.cpp:22-28 | Keys from here on belong to the filter of this offset; those pending went to theirs, and filters skipped over have no keys. |
| `FilterBlocks.FilterBlockBuilder.AddKey` | App/integration/filter_block.cpp:30-34 | One more key for the next filter. |
| `FilterBlocks.FilterBlockBuilder.GenerateFilter` | App/integration/filter_block.cpp:52-75 | The pending keys, recovered from the flattened string, make the next filter. |
| `FilterBlocks.FilterBlockBuilder.Finish` | App/integration/filter_block.cpp:36-50 | Filters, their offsets, the place of the offsets and the base. |
| `FilterBlocks.MatchIs` | App/integration/filter_block.cpp:77-109 | At an offset the reader gives exactly the policy's answer on the filter for that offset, and a match beyond the last. |
| `FilterBlocks.NeverHides` | App/integration/filter_block.cpp:95-109 | A key added after StartBlock(off) always matches at off. |
| `TableFormat.HandleRound` | App/integration/format.cpp:15-30 | A block handle reads back whatever follows it. |
| `TableFormat.FooterRound` | App/integration/format.cpp:32-64 | The footer reads back both handles, past its padding and its magic number. |
| `TableFormat.MagicBytes` | App/integration/format.cpp:32-52 | A footer ends in the eight bytes 57 fb 80 8b 24 75 47 db, and without them none is decoded. |
| `TableFormat.ReadRaw` | App/integration/format.cpp:66-138 | A block written raw is read back, checksum verified or not. |
| `TableFormat.ReadBlockIff` | App/integration/format.cpp:66-138 | On any file: with checksums on, a block is read if and only if it is there exactly as the builder writes one; without, if and only if it lies in the file and is marked uncompressed. |
| `Tables.TableBuilder.Add` | App/integration/table_builder.cpp:92-121 | One entry more; blocks, index keys and filter keys stay in step. A block is cut exactly when its finished size has reached the block size: none was that large with fewer entries, and the open one is below it. |
| `Tables.TableBuilder.Flush` | App/integration/table_builder.cpp:123-137 | The current block goes to the file and its index entry becomes pending; nothing added is lost, and it is the one block that may be below the block size. |
| `Tables.TableBuilder.Finish` | App/integration/table_builder.cpp:199-254 | The file holds every block, the short index key for each, every key in the filter of its block's offset, a metaindex block that names the filter, and a footer that names index and metaindex. Every block but the last, and but those ended by a call of Flush, has reached the block size, and none had with fewer entries. |
| `TableOrder.SepNew` | App/integration/table_builder.cpp:100-107 | The index key of a finished block is the shortened separator of its last key and the next key, and separates them. |
| `TableOrder.SepEnd` | App/integration/table_builder.cpp:230-238 | The last index key is the short successor of the last key, and not before its block. |
| `TableOrder.AllSeparated` | App/integration/table_builder.cpp:92-137 | The index keys of a table separate its blocks. |
| `TableOrder.GetExact` | App/integration/table.cpp:226-255 | Looking only into the block the index names finds the first entry at or behind the target of the whole table, or that entry belongs to another user key. |
| `TableReads.Table.InternalGet` | App/integration/table.cpp:226-255 | Through bytes, index, filter and block: the first entry at or behind the key, missed only if it belongs to another user key. |
| `TableReads.ReadMeta` | App/integration/table.cpp:91-118 | Finds the filter exactly when the table was built with one of the reader's policy name. |
| `TableReads.OpenTable` | App/integration/table.cpp:38-89 | A file that was built opens, from its bytes alone, as a table that answers for everything in it. |
| `TableReads.OpenBloomTable` | App/integration/table.cpp:38-118 | The same with the Bloom policy of the database, of which nothing is assumed. |
| `TableIters.TableIterator.InitDataBlock` | App/integration/two_level_iterator.cpp:156-170 | Opens the block the index points at, or keeps it if it is open already. |
| `TableIters.TableIterator.Seek` | App/integration/two_level_iterator.cpp:91-96 | Over the table's bytes: lands on the first of all entries not before the target. |
| `TableIters.TableIterator.SeekToFirst` | App/integration/two_level_iterator.cpp:98-103 | The first of all entries. |
| `TableIters.TableIterator.SeekToLast` | App/integration/two_level_iterator.cpp:105-110 | The last of all entries. |
| `TableIters.TableIterator.Next` | App/integration/two_level_iterator.cpp:112-116 | One entry on, over empty blocks too. |
| `TableIters.TableIterator.Prev` | App/integration/two_level_iterator.cpp:118-122 | One entry back. |
| `TableIters.TableIterator.Current` | App/integration/two_level_iterator.cpp:36-43 | Key and value are those of the entry at this place. |
| `TwoLevel.FlatBound` | App/integration/two_level_iterator.cpp:91-96 | The flat list's place for a target is given by the index and one block. |
| `HandleTables.HandleTable.FindPointer` | App/integration/cache.cpp:98-105 | The place of the matching handle in its bucket, or the bucket's end. |
| `HandleTables.MaskIsMod` | App/integration/cache.cpp:98-100 | With a power of two of buckets, which every resize keeps, masking the hash is taking its remainder. |
| `HandleTables.HandleTable.Lookup` | App/integration/cache.cpp:58-60 | The handle of the key, or none exactly when the table has none. |
| `HandleTables.HandleTable.Insert` | App/integration/cache.cpp:62-76 | The table holds the handle instead of the one it returns, and all others as before; the buckets are doubled exactly when there would be more handles than buckets. |
| `HandleTables.HandleTable.Remove` | App/integration/cache.cpp:78-86 | Exactly the handle it returns is gone, and none of the key is left. |
| `HandleTables.HandleTable.Resize` | App/integration/cache.cpp:107-131 | Rehashing changes no membership and leaves as few buckets as hold all handles, a power of two from 4 on. |
| `LruCaches.LRUCache.LRURemove` | App/integration/cache.cpp:196-199 | The pointers represent the list without the entry. |
| `LruCaches.LRUCache.LRUAppend` | App/integration/cache.cpp:201-207 | The pointers represent the list with the entry newest. |
| `LruCaches.LRUCache.Unref` | App/integration/cache.cpp:186-194 | One reference fewer; the last one frees the entry, returns its charge and runs its deleter. |
| `LruCaches.LRUCache.Lookup` | App/integration/cache.cpp:209-218 | The entry of the key becomes newest with a handle more; none exactly when the list has none for the key. All entries keep key, value and charge, and nothing is freed. |
| `LruCaches.LRUCache.Release` | App/integration/cache.cpp:220-223 | One handle fewer; the deleter runs exactly if it was the last and the entry is off the list; all other entries are as before. |
| `LruCaches.LRUCache.Insert` | App/integration/cache.cpp:225-256 | Replaces the entry of the key and evicts the oldest, just as many as it takes: with any fewer gone the charge in use is above the capacity, and then it fits or nothing is left. Of the entries taken off the list exactly those without a handle are freed, in that order; all others keep key, value and charge, and the usage is theirs. |
| `LruCaches.LRUCache.Erase` | App/integration/cache.cpp:258-265 | No entry of the key is left; the one taken off the list is freed unless it has a handle out; all other entries are as before. |
| `LruCaches.InsertThenLookup` | App/integration/cache.cpp:209-256 | A lookup after an insertion returns the entry inserted, with its value, if and only if its charge and that of the entries clients hold fit the capacity together; so in particular whenever it fits beside all that was cached. |
| `LruCaches.DroppedBalanced` | App/integration/cache.cpp:186-194 | Dropping a reference keeps every count, the total charge, and one deletion per dead entry. |
| `Merkle.Accumulator.Insert` | Enclave/merge_sort_eextrac.cpp:15-40 | The hash of the message becomes the next leaf, below 2^100 leaves. |
| `Merkle.CarryHolds` | Enclave/merge_sort_eextrac.cpp:24-39 | The carry chain appends one leaf to what the slots stand for. |
| `Merkle.SlotMeans` | Enclave/merge_sort_eextrac.cpp:15-40 | Slot i is occupied if and only if bit i of the number of leaves is 1, and then holds the root over its own consecutive 2^i leaves, for any hash. |
| `Merkle.RunsTile` | Enclave/merge_sort_eextrac.cpp:15-40 | The runs from the highest slot to the lowest are all the leaves in order. |
| `EnclaveMerge.ReadKV` | Enclave/merge_sort_1c.cpp:82-97 | Advances or reloads; what the channel has yet to contribute loses at most its first entry, and the index stays in its buffer. |
| `EnclaveMerge.Reload` | App/integration/db_impl.cpp:88-112 | The buffer holds the next entries of the iterator, up to its size. |
| `EnclaveMerge.Cookie.WriteKV` | Enclave/merge_sort_1c.cpp:98-117 | Handed-on entries plus output buffer grow by exactly the channel's entry; the buffer is handed on exactly when it was full. |
| `EnclaveMerge.Cookie.Flush` | App/integration/db_impl.cpp:79-86 | Everything in the output buffer is handed on, in order. |
| `EnclaveMerge.Cookie.FindSmallest` | Enclave/merge_sort_1c.cpp:126-144 | The lowest-numbered channel with the least next key; every cursor is on an entry or parked at -1 with nothing left. |
| `EnclaveMerge.LeastIs` | Enclave/merge_sort_1c.cpp:126-144 | That channel's key is strictly before those of all lower-numbered channels and not behind that of any other. |
| `EnclaveMerge.Cookie.EnclCompact` | Enclave/merge_sort_1c.cpp:145-189 | Terminates; what is handed on is the plain k-way merge of the inputs; the output buffer is empty and every cursor is at -1, ready for reuse. |
| `EnclaveMerge.MergedSorted` | Enclave/merge_sort_1c.cpp:126-144 | The plain merge of inputs sorted as byte strings is sorted as byte strings. |
| `EnclaveMerge.MergedBag` | Enclave/merge_sort_1c.cpp:145-189 | The plain merge holds every entry of every input exactly once. |
| `EnclaveOrder.MergeOrderIff` | Enclave/merge_sort_1c.cpp:118-144 | The merge of inputs in internal key order is in internal key order if and only if each entry's bytes sort before those of the next entry of any other input. |
| `EnclaveOrder.OneVersionEach` | Enclave/merge_sort_1c.cpp:118-144 | That holds for user keys of one length of which none is in two inputs. |
| `EnclaveOrder.OlderComesFirst` | Enclave/merge_sort_1c.cpp:118-125 | Two inputs in order with two versions of one user key, where it fails: the older version is handed on first. |
| `EnclaveOrder.NewerIsDropped` | App/integration/db_impl.cpp:1029-1095 | Fed in that order, the drop rule keeps the older version and loses the newer one. |

## Left out

- EngineRuns.ExecutionInv: assumes that no compaction or move so far split a user key, which the picker does not ensure when snapshots are alive; without it reads go wrong (FailingRuns), and ReadLimits.BeginInstallIff and ReadLimits.MoveRightIff say exactly when one step makes them do so.
- EngineRuns.GuardedRunReads: the same premise; EngineRuns.SnapshotFreeRunReads needs none.
- EngineGroups.ReadsWholeGroups: the same premise for the answers; EngineGroups.WholeGroups, that nobody reads at a number inside a group, and EngineGroups.SnapshotFreeWholeGroups need none.
- EngineCrash.ExecutionCrash: the same premise; EngineCrash.SnapshotFreeGuarded discharges it for runs that take no snapshots.
- EngineJobs.BeginInv: the same premise; EngineJobs.BeginSound is the part that needs none.
- EngineJobs.MoveInv: the same premise.
- EngineJobs.StepInv: the same premise.
- AuditRuns.AlarmedIff: covers runs up to the first lost announcement; behind it a report can be made with another call's start time, or not be made at all.
- LogRecovery.CrashRecovers: the log of the immutable memtable is whole; after a power failure the end of that log, which is closed but not synced, could be missing while the newer log is there.
- FailingRuns.SplitReached: memtables are switched out when a flush is forced, as CompactRange on an empty range does; that a full memtable is switched out as well is not modelled, since either may happen between any two groups.
- BlockIters.Iter.ParseNextKey: treats an entry whose key and value lengths add up to 2^32 or more as damaged, where the 32-bit sum wraps.
- Tables.TableBuilder.Finish: leaves out snappy compression, which the port layer never performs.
- TableReads.OpenTable: covers files that were built; of other files only the errors of the footer and of single blocks are modelled.
- HandleTables.HandleTable.Insert: a bucket's chain of next_hash pointers is a sequence of handles, so pointer aliasing inside a chain is not modelled; the LRU list's own pointers are.
- SkipLists.SkipList.Insert: nodes are indices into an arena that only grows; memory barriers are one atomic step each.
- VersionSets.VersionSet.LogAndApply: a failed write of the manifest is not modelled.
- Logs.Reader.ReadRecord: the initial offset is 0, as in every use of the reader, and the offset of the last record is not kept.
- Version::Get and the checks of the read-side audit (nmt, lpad_verify): the first reads a saver whose state may be unset, the others compare nothing. The clock ticks, ids and pending entries of gets are modelled, and a get is taken to return. In the default build a get that finds a number the history already had when it began does not: its check enters a loop whose inner condition never changes, with the mutex held.
- SU_flush_data: has the body of the compaction loop but keeps its state in globals that are never reset; the compactions modelled are those of the build without VERIFY.
- Manual range compactions: their inputs may have gaps, so the argument about flushes during a compaction does not apply.
- The sharding and the hash function of the cache, the SHA functions, and murmur-style Hash: any hash function is allowed where one is used.
- Seek statistics (which file is charged is a parameter), file deletion, options, status texts, the C interface, benchmarks, repair and dump tools: glue without deep properties.
- Environment, ports, threads and ecall or ocall plumbing: replaced by parameters and by the order of steps.
