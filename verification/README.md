# A verified model of the LevelDB storage engine and the nanopb codec

The app vendors two libraries with intricate logic: the LevelDB storage engine
(`Foodly/Pods/leveldb-library`) and the nanopb message codec (`Foodly/Pods/nanopb`). This project
models both in Dafny and proves what they are for. `dafny verify dfyconfig.toml` checks all of it.
The paths in this file are relative to the repository's root.

## What is modelled

**The reference.** `Store.dfy` says what a reader should see: the *view* of a key at a sequence
number is the newest stored update of the key at or below that number. The history of all
committed updates is an auxiliary variable that no step reads; a database that shows its readers
the truth shows, at sequence number s, the map after the first s updates.

**The engine as a state machine.** `Engine.dfy` has memtables, seven levels of table files, logs, a
manifest, snapshots and open iterators. Its steps are: write a group, switch the memtable, begin and
install a flush, begin and install a compaction, move a file, take and release a snapshot, open and
close an iterator, delete obsolete files, and crash and restart. Steps interleave in any order; a
restart may reuse the last log and the manifest or not, and may cut the logged entries into tables
in any way. `EngineInvariant.dfy`, `EngineCrash.dfy`, `EngineViews.dfy` and `ManifestReplay.dfy`
prove what every step and every run keeps: levels sorted and disjoint, newer data above older, every
table that is referred to still there, and the manifest and live logs alone determining the files
and both memtables.

**The algorithms, in the form they have in C++.** Binary search over files, the level-0 search for
overlapping files that starts over when its range grows, the choice of compaction inputs, the
compaction loop with its moving cursors, the version builder, point lookups, log replay and opening
after a crash are classes and methods with loops, each proved against a specification. `Database.dfy`
and `Recovery.dfy` put them together into the database object, whose methods are proved to take
exactly the steps of the state machine; so what holds of every run of the machine holds of the object.
`DiskFiles.dfy` connects the machine's logs and manifest with the bytes of the files, down to a record
that a crash cut short. `AcknowledgedWrites.dfy` puts the queue of writers in front of the machine: what
readers see is the updates whose writers were told of success, in the order in which these arrived.

**The iterator stack.** Block iterator, two-level iterator, merging iterator and user-level iterator
are each proved to be a cursor over one sequence, in both directions and across changes of direction.
They are put together as the engine does it: the user-level iterator runs over a merging iterator
whose children are memtables, level-0 tables and concatenated levels (`MergedSources.dfy`), and what it
shows is the map of committed updates (`ReadView.dfy`). `BlockCursor.dfy` gives the iterator over a
block's bytes the contract that every cursor of the engine has.

**Index and log structures.** The skip list is proved for single stores, and for every interleaving
of one writer and a lock-free reader; the log writer and reader for every cut of the file; the filter
block for its exact answers; the block builder and iterator for bytes; the write batch and the
version edit as byte codecs, with what they refuse; the queue of writers as a machine over whole runs.
`LogTrace.dfy` says what the log reader makes of any file, damaged or not: which records it returns, that
it reports all the rest, and that damage stays in its block. `DiskLayout.dfy` writes the formats out.

**nanopb.** Descriptions are trees of fields (required, optional, singular, repeated, of fixed count,
in unions, nested); the encoder is a stream that writes or only counts; the decoder reads any bytes.
`PbMerge.dfy` says what comes of fields in any order, missing, unknown and repeated ones included;
`PbWire.dfy` what other programs see of the bytes, and which numbers of theirs are taken.
The wire format is that of the Protocol Buffers encoding ("Base 128 Varints", "Signed Integers",
"Message Structure" and "Packed Repeated Fields" in that specification).

## Properties that do not hold

A compaction drops a deletion marker when no file two or more levels down covers its key; the
comment at `Foodly/Pods/leveldb-library/db/db_impl.cc:952-958` gives the reason: data of the next
level with smaller sequence numbers is part of the compaction. The code does not ensure this. Inputs
of the compacted level are extended to files that share their last user key
(`Foodly/Pods/leveldb-library/db/version_set.cc:1407`, `:1422`), but the inputs of the next level are
not, so an older value of the key can stay behind there. `LostDelete.DeletedKeyComesBack` is a run
from an empty database in which a deleted key comes back this way, after a snapshot had caused its
updates to be split between two files. The run takes only steps that the code takes: two tables below
keep the flushed one on level 0, the flush levels are those of the level picker, both compactions have
the inputs that the compaction picker sets up for a level-0 file that was searched in vain, and the
first output ends where it is full, with the deletion marker of a key of a megabyte.
`Reorganise.CompactionKeepsViewsIff` says exactly when a
compaction keeps the views: if and only if no dropped marker uncovers a value, which can be seen from
the inputs and the next level before the compaction. It is enough that no input of the next level
shares a user key with a file of that level that stays (`NoSharedKeyUncoversNothing`), and runs
without snapshots never get into that situation (`RunWithoutSnapshots`).

The loop of a compaction stops to flush an immutable memtable
(`Foodly/Pods/leveldb-library/db/db_impl.cc:906-918`), and the level of that flush is picked by the version
of that time, which knows nothing of the outputs. `FlushInCompaction.dfy` has writes, switches and such
flushes between the beginning of a compaction and its installation. Installing the outputs keeps every
invariant if and only if each table flushed to their level stays apart from all of them
(`InstallKeepsDataIff`); then it also keeps the views under the same condition as before
(`InstallKeepsViewsIff`). Inputs whose key ranges leave no gap rule the overlap out (`NoGapIsSafe`), and
every compaction for the sake of size or of a file searched in vain has such inputs (`DueLeavesNoGap`). A
compaction of a range asked for by hand need not: `OverlapRun.FlushSpoilsLevel` is a run, again with the
levels, inputs and cuts that the algorithms decide on, after which two files of a level below level 0
overlap and the binary search over that level misses a key that is there.

A log or manifest that is taken over after a crash is written on behind whatever piece of a record the crash
left (`Foodly/Pods/leveldb-library/db/db_impl.cc:458-475`,
`Foodly/Pods/leveldb-library/db/version_set.cc:1013-1050`). What is appended there is read back if and only
if the piece is a mere filling of its block, as long as the reader refuses a broken fragment
(`LogTakeover.TakeoverReadsBackIff`); it does so whenever the fragment's header is whole and the checksum
tells (`WholeHeaderIsRefused`). Otherwise batches that were acknowledged after the takeover can be lost
(`DiskFiles.TakenOverLogLoses`).

The log reader takes an intact fragment of type 5 for the end of the file, since that number is also its
mark for it (`Foodly/Pods/leveldb-library/db/log_reader.h:66`), and leaves what follows without a report;
without such a fragment it reads on to the end (`LogTrace.BlockIsReached`). nanopb's decoder for 32-bit
varints takes numbers that are neither of 32 bits nor extended from them (`PbWire.WhatIsTaken`).

Two protobuf messages written one behind the other stand for the two merged. nanopb's decoder forgets
that an array of fixed length is complete only when another such array comes
(`Foodly/Pods/nanopb/pb_decode.c:968-981`), so it reads them as merged if and only if the arrays have room
for both and the description does not have just one array of fixed length (`PbMerge.Concatenated`).

A smaller one: clearing a version edit keeps its compaction pointers
(`Foodly/Pods/leveldb-library/db/version_edit.cc:26-39`), so decoding into an edit is the inverse of
encoding if and only if the edit had none (`RoundTripIffNoPointers`).

## Modelling decisions

- A user key is a real number. The user comparator is any total order on byte strings; there are
  countably many of these, and every countable total order embeds in the order of the reals. In the
  block format, where bytes matter, keys are byte strings under any strict order.
- A completed file write is durable, a critical section is one step, and a crash is the loss of
  memory. A torn write at the end of a log or of the manifest is the subject of `LogReader.dfy`,
  `BatchLog.dfy` and `DiskFiles.dfy`.
- File numbers fit into 64 bits where they are written as bytes: an iterator or a compaction is opened
  only while the next file number is at most 2^64.
- File sizes, memory use, node heights, compaction scores and the choice between reasons for a
  compaction come in as parameters or arbitrary choices. Checksums are any function of the bytes.
- A write keeps the last sequence number below the largest one. At the largest, a compaction without
  snapshots would drop every entry (`last_sequence_for_key` starts at that value,
  `Foodly/Pods/leveldb-library/db/db_impl.cc:943-948`).
- Skip-list pointers are positions in the arena that nodes are never freed from; the nodes that each
  level links are an auxiliary variable tied to the pointers.
- Arithmetic is unbounded except where the width matters, which is then written out: fixed and varint
  codings, lengths checked modulo 2^32 in blocks, zigzag and sign extension in nanopb.

## Model

| member | source | states |
|---|---|---|
| Store.NewestIsNewest | Foodly/Pods/leveldb-library/db/db_impl.cc:1100-1145 | the lookup the engine promises: of the stored updates of a key at or below a sequence number, the newest one, and 0 only if there is none |
| Store.NewestIsUnique | Foodly/Pods/leveldb-library/db/db_impl.cc:1100-1145 | an update with these properties is that newest one |
| Store.ViewOfAllIsMap | Foodly/Pods/leveldb-library/db/db_impl.cc:1100-1145 | with every update stored, the view at sequence number s is the map after the first s updates |
| Store.FirstIsNewer | Foodly/Pods/leveldb-library/db/dbformat.cc:51-67 | of two updates of one user key the one that comes first in key order has the greater sequence number |
| Keys.InsertSortedSorted | Foodly/Pods/leveldb-library/db/dbformat.cc:51-67 | putting an entry at its place keeps a sequence sorted by user key, then by decreasing sequence number and type |
| Reorganise.FlushKeepsInvariant | Foodly/Pods/leveldb-library/db/db_impl.cc:491-566 | a flush to any level that the level picker allows keeps levels sorted and disjoint, newer data above older, and loses and invents no update |
| Reorganise.CompactionKeepsInvariant | Foodly/Pods/leveldb-library/db/version_set.cc:1270-1322 | a compaction with closed inputs keeps levels sorted and disjoint and newer data above older, whatever its loop drops |
| Reorganise.CompactionDisjoint | Foodly/Pods/leveldb-library/db/version_set.cc:1403-1462 | the level that receives the outputs stays sorted and disjoint |
| Reorganise.CompactionAge | Foodly/Pods/leveldb-library/db/version_set.cc:1378-1401 | after the compaction a shallower place still holds only newer updates of a key than a deeper one |
| Reorganise.CompactionHeld | Foodly/Pods/leveldb-library/db/db_impl.cc:936-975 | an update is stored after a compaction if and only if it was stored before and was not a dropped input entry |
| Reorganise.OutputsAreThin | Foodly/Pods/leveldb-library/db/db_impl.cc:936-975 | of each key a compaction leaves everything newer than the smallest snapshot, and of the rest the newest only, and not even that if it is a deletion marker whose key no deeper level covers |
| Reorganise.DroppedNewest | Foodly/Pods/leveldb-library/db/db_impl.cc:941-963 | a dropped entry that some reader could have seen as the newest was an obsolete tombstone |
| Reorganise.UncoveredPlace | Foodly/Pods/leveldb-library/db/version_set.cc:1403-1422 | an older update that outlives a dropped tombstone of its key sits in a file of the next level that is not an input |
| Reorganise.CompactionViewOrUncovered | Foodly/Pods/leveldb-library/db/db_impl.cc:936-975 | for every key and every reader at or above the smallest snapshot, the view is unchanged, or a dropped tombstone uncovers a value |
| Reorganise.CompactionKeepsViewsIff | Foodly/Pods/leveldb-library/db/db_impl.cc:936-975 | all those views are unchanged if and only if no dropped tombstone uncovers a value; the condition speaks of the state before the compaction only |
| Reorganise.NoSharedKeyUncoversNothing | Foodly/Pods/leveldb-library/db/version_set.cc:1403-1422 | nothing is uncovered when no input file of the next level shares a user key with a file of that level that stays |
| FlushInCompaction.InstallKeepsDataIff | Foodly/Pods/leveldb-library/db/db_impl.cc:906-918 | after any writes, switches and flushes within a compaction, installing its outputs keeps every invariant of stored data if and only if each table flushed to the level of the outputs stays apart from all of them |
| FlushInCompaction.InstallKeepsViewsIff | Foodly/Pods/leveldb-library/db/db_impl.cc:906-918 | then the installation changes no view at or above the smallest snapshot if and only if no dropped tombstone uncovered a value when the compaction began |
| FlushInCompaction.FlushKeepsGood | Foodly/Pods/leveldb-library/db/db_impl.cc:906-918 | a flush within a compaction that stays apart from the outputs keeps the invariants, as things are and as they would be with the outputs installed |
| FlushInCompaction.NoGapIsSafe | Foodly/Pods/leveldb-library/db/db_impl.cc:906-918 | if the inputs leave no gap between their user keys, every flush within the compaction stays apart, and the outputs can be installed at any time |
| CompactionGaps.Level0HasNoGap | Foodly/Pods/leveldb-library/db/version_set.cc:519-559 | on level 0 the files found for the range of one file leave no gap |
| CompactionGaps.SetUpLeavesNoGap | Foodly/Pods/leveldb-library/db/version_set.cc:1403-1462 | boundary files, files of the next level and expansion leave no gap if the files that the compaction starts from leave none |
| CompactionGaps.DueLeavesNoGap | Foodly/Pods/leveldb-library/db/version_set.cc:1270-1322 | the inputs of a compaction by size or by seeks leave no gap |
| LostDelete.DeletedKeyComesBack | Foodly/Pods/leveldb-library/db/version_set.cc:1403-1422 | a run from an empty database in which a deleted key comes back: the next level's inputs are not extended to the files that share their last user key; every flush goes to the level, and every compaction has the inputs and the cuts, that the algorithms decide on |
| OverlapRun.FlushSpoilsLevel | Foodly/Pods/leveldb-library/db/db_impl.cc:906-918 | a run in which a memtable of C is flushed while a range compaction with inputs of A and of E, and nothing between, is under way: the levels and inputs are those decided on, level 2 ends with two overlapping files, and the binary search finds no file for E, which is there |
| LostDeletePlan.StaysOn0 | Foodly/Pods/leveldb-library/db/version_set.cc:491-516 | a flush that overlaps a file of level 1 stays on level 0 |
| LostDeletePlan.AloneOnLevel0 | Foodly/Pods/leveldb-library/db/version_set.cc:1403-1462 | a file alone on level 0 is compacted with exactly the files of level 1 that it touches |
| EngineInvariant.WriteKeepsInv | Foodly/Pods/leveldb-library/db/db_impl.cc:1202-1237 | a logged and inserted group of updates keeps the invariant of memory and disk |
| EngineInvariant.SwitchKeepsInv | Foodly/Pods/leveldb-library/db/db_impl.cc:1345-1366 | a switch of the memtable and the log keeps the invariant of memory and disk |
| EngineInvariant.BeginKeepsInv | Foodly/Pods/leveldb-library/db/db_impl.cc:491-533 | writing tables that are not installed yet keeps the invariant of memory and disk |
| EngineInvariant.FlushInstallKeepsInv | Foodly/Pods/leveldb-library/db/db_impl.cc:535-566 | installing a flush keeps the invariant of memory and disk; a restart needs the older logs no more |
| EngineInvariant.CompactInstallKeepsInv | Foodly/Pods/leveldb-library/db/db_impl.cc:860-876 | installing a compaction keeps the invariant of memory and disk |
| EngineInvariant.MoveKeepsInv | Foodly/Pods/leveldb-library/db/db_impl.cc:721-737 | moving a file to the next level keeps the invariant of memory and disk |
| EngineInvariant.DeleteKeepsInv | Foodly/Pods/leveldb-library/db/db_impl.cc:223-278 | deleting obsolete logs and tables loses nothing that the current version, an open iterator, unfinished work or a restart refers to |
| EngineInvariant.MaxSequenceSuffix | Foodly/Pods/leveldb-library/db/db_impl.cc:435-439 | replaying fewer logs does not change the last sequence number, once the manifest records it |
| EngineInvariant.InsertAllSorted | Foodly/Pods/leveldb-library/db/memtable.cc:75-98 | a memtable that logged entries are inserted into one after another is sorted |
| EngineCrash.OrderIsUnique | Foodly/Pods/leveldb-library/db/db_impl.cc:345-351 | the logs that a restart replays have one order only |
| EngineCrash.ReloadKeepsInvariant | Foodly/Pods/leveldb-library/db/db_impl.cc:371-489 | cutting the logged entries into level-0 tables in any way keeps the levels and ages in order |
| EngineCrash.ReloadKeepsHeld | Foodly/Pods/leveldb-library/db/db_impl.cc:371-489 | cutting the logged entries into level-0 tables in any way neither loses nor invents an update |
| EngineCrash.RestartVersion | Foodly/Pods/leveldb-library/db/version_set.cc:886-1011 | replaying the manifest, old or rewritten, gives the version that was current |
| EngineCrash.CrashKeepsInv | Foodly/Pods/leveldb-library/db/db_impl.cc:280-369 | a crash in any state and a restart with any choices keep the invariant, every stored update and the last sequence number |
| EngineViews.StepKeepsInv | Foodly/Pods/leveldb-library/db/db_impl.cc:1185-1256 | every step of the engine keeps the invariant |
| EngineViews.StepKeepsRight | Foodly/Pods/leveldb-library/db/db_impl.cc:878-1048 | every step but an uncovering compaction keeps every permitted reader's view right, and every open iterator's |
| EngineViews.RunKeepsInv | Foodly/Pods/leveldb-library/db/db_impl.cc:1185-1256 | the invariant holds in every state of every run |
| EngineViews.RunKeepsTables | Foodly/Pods/leveldb-library/db/db_impl.cc:223-278 | in every run, no table of the current version, of an open iterator or of unfinished work is missing |
| EngineViews.RunShowsMap | Foodly/Pods/leveldb-library/db/db_impl.cc:1100-1157 | in every run whose compactions uncover nothing, the newest state, every snapshot and every open iterator show exactly the map of the updates committed up to then |
| EngineViews.RunWithoutSnapshots | Foodly/Pods/leveldb-library/db/db_impl.cc:1100-1145 | in every run without snapshots the newest state shows the map of all committed updates, with no condition on compactions |
| SnapshotRuns.RunIsSeen | Foodly/Pods/leveldb-library/db/db_impl.cc:1147-1174 | in every state of every run, also after crashes, the history is what was written, in order; the snapshots are those that were given out and not given back, each as often; and the iterators are those opened and not closed, each at the number asked for and with what there was then |
| SnapshotRuns.SnapshotIsFrozen | Foodly/Pods/leveldb-library/db/db_impl.cc:1166-1174 | in every run whose compactions uncover nothing, a snapshot that has not been given back shows the map of the moment at which it was taken, whatever has been written, flushed, compacted, released or deleted since |
| SnapshotRuns.IteratorIsFrozen | Foodly/Pods/leveldb-library/db/db_impl.cc:1147-1157 | in such a run an iterator that has not been closed shows the map of the moment whose number it was opened at |
| SnapshotRuns.GivenOutIsProtected | Foodly/Pods/leveldb-library/db/db_impl.cc:878-890 | in every run, no snapshot that is out lies below the number from which on compactions keep everything |
| SnapshotRuns.SmallestIs | Foodly/Pods/leveldb-library/db/db_impl.cc:878-890 | that number is the least that is out, or the last sequence number if none is |
| SnapshotRuns.DeletionIsExact | Foodly/Pods/leveldb-library/db/db_impl.cc:223-278 | in every run, after obsolete files were deleted the tables are exactly those that are referred to and the logs exactly those that a restart needs, with their contents |
| AcknowledgedWrites.ActionKeepsStep | Foodly/Pods/leveldb-library/db/db_impl.cc:1201-1237 | every action of the writers or of the engine keeps the engine's history equal to what the queue has applied, and the two last sequence numbers equal |
| AcknowledgedWrites.EngineRun | Foodly/Pods/leveldb-library/db/db_impl.cc:1185-1256 | in every run of queue and engine together, the engine takes a run of its own machine, in which each turn that succeeds is one write |
| AcknowledgedWrites.ReadersSeeAcknowledged | Foodly/Pods/leveldb-library/db/db_impl.cc:1185-1256 | in every such run whose compactions uncover nothing, the newest state shows exactly the map of the updates whose writers were told of success, in order of arrival |
| FileSearch.FindFile | Foodly/Pods/leveldb-library/db/version_set.cc:88-106 | the binary search finds the first file that ends at or after the key; on files out of order it ends where plain bisection ends |
| FileSearch.SomeFileOverlapsRange | Foodly/Pods/leveldb-library/db/version_set.cc:122-157 | on levels with and without overlaps, the answer is whether some file's user keys meet the range |
| FileSearch.GetOverlappingInputs | Foodly/Pods/leveldb-library/db/version_set.cc:519-559 | on level 0 the loop that starts over ends, with exactly the least range that is closed under overlap and the files in it |
| CompactionInputs.GetRange | Foodly/Pods/leveldb-library/db/version_set.cc:1205-1227 | the smallest and largest keys of some files |
| CompactionInputs.FindSmallestBoundaryFile | Foodly/Pods/leveldb-library/db/version_set.cc:1344-1364 | among the files that continue a user key, the one that begins first; none only if there is none |
| CompactionInputs.AddBoundaryInputs | Foodly/Pods/leveldb-library/db/version_set.cc:1378-1401 | the inputs grow by one boundary file after another until no file of the level continues their last user key, and stay neighbours |
| CompactionInputs.ExtensionIsUnique | Foodly/Pods/leveldb-library/db/version_set.cc:1378-1401 | there is exactly one way to extend inputs by boundary files |
| CompactionPicker.TouchingIsStretch | Foodly/Pods/leveldb-library/db/version_set.cc:519-559 | below level 0 the files that meet a range stand side by side |
| CompactionPicker.ChosenInputsOk | Foodly/Pods/leveldb-library/db/version_set.cc:1403-1462 | inputs closed in this way are what the state machine asks of a compaction |
| CompactionPicker.VersionSet.SetupOtherInputs | Foodly/Pods/leveldb-library/db/version_set.cc:1403-1462 | the boundary files and the touched files of the next level come along; the inputs are expanded exactly when more files of the level fit the size limit and need no more of the next; the inputs are sound, the grandparents are those that the whole span touches, and only this level's compaction pointer moves, to their largest key |
| CompactionPicker.ExpansionIs | Foodly/Pods/leveldb-library/db/version_set.cc:1419-1446 | only the files found within the span of the compaction can be its expansion |
| CompactionPicker.PickedStays | Foodly/Pods/leveldb-library/db/version_set.cc:1403-1462 | the files that a compaction starts from are among its inputs, expanded or not |
| CompactionPicker.VersionSet.PickCompaction | Foodly/Pods/leveldb-library/db/version_set.cc:1270-1322 | there is a compaction exactly if there is a reason for one; it is of the level that is too big, starting from the next file after its pointer, or else of the file that was searched in vain, and its inputs are set up from that file and sound |
| CompactionPicker.DueIsInput | Foodly/Pods/leveldb-library/db/version_set.cc:1270-1322 | the file that was due is among the inputs |
| CompactionPicker.TurnsGoRound | Foodly/Pods/leveldb-library/db/version_set.cc:1284-1296 | after a file was compacted the next one of its level has its turn, and after the last the first again |
| CompactionPicker.ExpansionIsBounded | Foodly/Pods/leveldb-library/db/version_set.cc:1419-1446 | a compaction is expanded only to less than 25 files' worth, and takes no more files of the next level for it |
| CompactionPicker.VersionSet.CompactRange | Foodly/Pods/leveldb-library/db/version_set.cc:1464-1495 | a manual compaction is of the level asked for, starts from the files of the range, below level 0 from about one file's worth of them, and has sound inputs; there is none exactly if no file of the level meets the range |
| CompactionPicker.RangeIsInput | Foodly/Pods/leveldb-library/db/version_set.cc:1464-1495 | at least one input meets the range that was asked for |
| CompactionPicker.Limit | Foodly/Pods/leveldb-library/db/version_set.cc:1473-1486 | the inputs are cut short as soon as they reach the size of one file, and not earlier |
| Compactions.Compaction.IsBaseLevelForKey | Foodly/Pods/leveldb-library/db/version_set.cc:1533-1552 | for keys that never decrease, the advancing cursors answer as a full scan of the deeper levels would |
| Compactions.Compaction.ShouldStopBefore | Foodly/Pods/leveldb-library/db/version_set.cc:1554-1576 | the answer, and what is left in the counters, in terms of the grandparents that the key has passed |
| Compactions.ShouldDrop | Foodly/Pods/leveldb-library/db/db_impl.cc:923-963 | the running variables decide exactly what is hidden or an obsolete tombstone |
| Compactions.DoCompactionWork | Foodly/Pods/leveldb-library/db/db_impl.cc:878-1048 | the finished files hold exactly the input entries that survive, in order; each is as long as it may be: it ends when it is full, or where too much of the level after next has been passed; and each has the size of its table |
| Compactions.StopBefore | Foodly/Pods/leveldb-library/db/version_set.cc:1554-1576 | the counters, moved along key by key, stop an output exactly at the positions where more than ten files' worth of grandparents lie behind the last stop |
| Compactions.CutIsUnique | Foodly/Pods/leveldb-library/db/db_impl.cc:921-995 | the rules for ending an output determine the outputs |
| Compactions.OutputOverlap | Foodly/Pods/leveldb-library/db/version_set.cc:1554-1576 | from the first to the last key of any output no more than ten files' worth of the level after next is passed |
| Compactions.StopIsNeeded | Foodly/Pods/leveldb-library/db/version_set.cc:1554-1576 | where an output is cut for the sake of that level, more than this has been passed since the last such place |
| Compactions.OutputSize | Foodly/Pods/leveldb-library/db/db_impl.cc:985-995 | an output is not full before its last entry, and is full, or cut for the level after next, if another follows |
| Compactions.SurvivesIsKept | Foodly/Pods/leveldb-library/db/db_impl.cc:936-963 | what survives by position in the input is what survives by content |
| Compactions.WorkMeetsSpecification | Foodly/Pods/leveldb-library/db/db_impl.cc:878-1048 | the files that the loop writes are those with which the state machine begins a compaction |
| MergedSources.MergeExists | Foodly/Pods/leveldb-library/db/version_set.cc:1237-1268 | sources that share no entry have one sorted union |
| CompactionMerge.MergeInputs | Foodly/Pods/leveldb-library/db/version_set.cc:1237-1268 | the input iterator, with a cursor for each file of level 0 and a concatenating one for the files of another level, goes over exactly the entries of the input files in order |
| MergedSources.AddIterators | Foodly/Pods/leveldb-library/db/version_set.cc:230-246 | one source for each file of level 0, one for all files of another level, each showing places of its own |
| MergedSources.PartsMerge | Foodly/Pods/leveldb-library/db/version_set.cc:1237-1268 | sources that show different places of a database have a merge, which shows all of these places |
| LevelFiles.FilesSeparate | Foodly/Pods/leveldb-library/db/version_set.cc:164-208 | the largest keys of a level's files, with handles of number and size, are an index that separates their tables |
| LevelFiles.OpenLevel | Foodly/Pods/leveldb-library/db/version_set.cc:211-228 | the concatenating iterator of a level goes over exactly the entries of its tables |
| PointLookup.SearchTable | Foodly/Pods/leveldb-library/db/memtable.cc:100-134 | a search for the key at a sequence number ends at the newest visible entry, or there is none |
| PointLookup.SearchLevel | Foodly/Pods/leveldb-library/db/version_set.cc:365-399 | below level 0 the one file that can hold the key first is enough |
| PointLookup.NewestFirst | Foodly/Pods/leveldb-library/db/version_set.cc:349-363 | exactly the level-0 files that may hold the key, newest first |
| PointLookup.SearchLevel0 | Foodly/Pods/leveldb-library/db/version_set.cc:349-399 | on level 0 the first hit in that order is the newest visible entry of the level |
| PointLookup.FirstHitIsNewest | Foodly/Pods/leveldb-library/db/version_set.cc:326-421 | the first hit on the way down is the newest visible update of all |
| PointLookup.VersionGet | Foodly/Pods/leveldb-library/db/version_set.cc:326-421 | the levels, searched from the top, give that hit, or no level has one |
| PointLookup.Get | Foodly/Pods/leveldb-library/db/db_impl.cc:1100-1145 | memtable, immutable memtable and levels together find what the view says, for every key and sequence number |
| PointLookup.PickLevelForMemTableOutput | Foodly/Pods/leveldb-library/db/version_set.cc:491-516 | level 0 if a file there overlaps the new one, otherwise the first level that is the deepest allowed, or is overlapped one level down, or has too many overlapping bytes two levels down |
| PointLookup.GoesToOne | Foodly/Pods/leveldb-library/db/version_set.cc:491-516 | the level that a flush goes to by these rules is one only |
| PointLookup.FlushIsCheap | Foodly/Pods/leveldb-library/db/version_set.cc:491-516 | a flushed table goes at most to level 2, over no file that it overlaps, and only where no more than ten files' worth lies two levels below each level it leaves |
| PointLookup.GoesWhereAllowed | Foodly/Pods/leveldb-library/db/version_set.cc:491-516 | that level is one at which a flush keeps every invariant |
| VersionBuilder.Builder.Apply | Foodly/Pods/leveldb-library/db/version_set.cc:650-692 | one edit changes each level's files as the edit says, deletions first |
| VersionBuilder.Builder.SaveTo | Foodly/Pods/leveldb-library/db/version_set.cc:695-754 | the saved lists are ordered and hold exactly the files that the edits leave |
| ManifestReplay.ReplayManifest | Foodly/Pods/leveldb-library/db/version_set.cc:924-968 | one builder over all records gives what one version after another gives |
| ManifestReplay.RunKeepsManifest | Foodly/Pods/leveldb-library/db/version_set.cc:801-884 | in every run the manifest is one for which that holds: a file number is added at most once to a level |
| ManifestReplay.RecoverFiles | Foodly/Pods/leveldb-library/db/version_set.cc:886-1011 | in every run, recovery's lists of files are those of the current version |
| Database.DB.LogAndApply | Foodly/Pods/leveldb-library/db/version_set.cc:801-884 | the completed edit is recorded, and the new lists of files are those of the version that it leads to |
| Database.DB.Write | Foodly/Pods/leveldb-library/db/db_impl.cc:1202-1237 | writing takes exactly the machine's step |
| Database.DB.SwitchMemTable | Foodly/Pods/leveldb-library/db/db_impl.cc:1345-1366 | a memtable switch takes exactly the machine's step |
| Database.DB.CompactMemTable | Foodly/Pods/leveldb-library/db/db_impl.cc:491-566 | a flush takes exactly the machine's two steps, to the level that the picker returns; a table is written exactly if there are entries |
| Database.DB.BackgroundCompaction | Foodly/Pods/leveldb-library/db/db_impl.cc:688-767 | an immutable memtable is flushed, to the level that the picker says, and nothing else is done; if there is none, a compaction asked for by hand is done, and if there is none of these, one that is due; nothing is done exactly if none of the three has anything to do |
| Database.DB.AutomaticCompaction | Foodly/Pods/leveldb-library/db/db_impl.cc:711-767 | a compaction exactly if there is a reason; it is of what is due, with the inputs and cuts that the picker and the limits say: a move exactly in the trivial case, the machine's two steps of a compaction otherwise |
| Database.MoveIsCheap | Foodly/Pods/leveldb-library/db/version_set.cc:1515-1523 | a file is moved only by itself, over nothing, and where no more than ten files' worth of the level after next lies below it |
| Database.DB.ManualCompaction | Foodly/Pods/leveldb-library/db/db_impl.cc:697-713 | a manual compaction takes the machine's two steps for files of the level and range asked for, and does nothing exactly if no file meets the range |
| Database.DB.WriteCompaction | Foodly/Pods/leveldb-library/db/db_impl.cc:878-1048 | merging, dropping, cutting and installing take those two steps |
| Database.DB.Get | Foodly/Pods/leveldb-library/db/db_impl.cc:1100-1145 | a lookup finds what the view of the stored updates says |
| Database.DB.GetSnapshot | Foodly/Pods/leveldb-library/db/db_impl.cc:1166-1169 | a snapshot of the last sequence number, as in the machine's step |
| Database.DB.ReleaseSnapshot | Foodly/Pods/leveldb-library/db/db_impl.cc:1171-1174 | a snapshot is given back, as in the machine's step |
| Database.DB.NewIterator | Foodly/Pods/leveldb-library/db/db_impl.cc:1062-1087 | the iterator, over one merging iterator over both memtables, the level-0 tables and the concatenated levels, goes over exactly the entries held on to, and shows exactly the view of them at its sequence number, in key order |
| Database.DB.CloseIterator | Foodly/Pods/leveldb-library/db/db_impl.cc:1050-1058 | a closed iterator no longer holds on to memtables and a version, as in the machine's step |
| MergedSources.NewInternalIterator | Foodly/Pods/leveldb-library/db/db_impl.cc:1062-1087 | the internal iterator goes over exactly the entries that all memtables and tables have when it is opened |
| ReadView.ShowsItsView | Foodly/Pods/leveldb-library/db/db_iter.cc:141-299 | going over all entries of a database shows the view of what it stores, one entry for a key, in key order |
| ReadView.NewerAreNotShown | Foodly/Pods/leveldb-library/db/db_iter.cc:168-198 | entries with greater sequence numbers than the iterator reads at, wherever they come to stand, change nothing of what it shows |
| ReadView.LiveIteratorShowsView | Foodly/Pods/leveldb-library/db/db_impl.cc:1062-1087 | however many updates are inserted into the live memtable while an iterator is open, going over its entries as they are then shows the view of the time of opening |
| ReadView.IteratorShowsMap | Foodly/Pods/leveldb-library/db/db_impl.cc:1147-1157 | in every run whose compactions uncover nothing, an iterator over what an open reader holds on to shows exactly the map of the updates up to its sequence number |
| Database.DB.DeleteObsoleteFiles | Foodly/Pods/leveldb-library/db/db_impl.cc:223-278 | exactly the logs and tables are deleted that the machine's step deletes |
| Database.CompactEnabled | Foodly/Pods/leveldb-library/db/db_impl.cc:878-1048 | what the loop wrote satisfies everything that the machine asks for |
| Database.FlushSteps | Foodly/Pods/leveldb-library/db/db_impl.cc:491-566 | the state after a flush, in terms of the state before |
| LogReplay.Replayer.AddRecord | Foodly/Pods/leveldb-library/db/db_impl.cc:418-453 | a replayed record extends what was read, and a full memtable becomes a table |
| LogReplay.Replayer.ReplayLog | Foodly/Pods/leveldb-library/db/db_impl.cc:371-489 | a whole log: its entries stay in the memtable if the log is reused, and else are all in tables |
| LogReplay.MaxSequenceFrom | Foodly/Pods/leveldb-library/db/db_impl.cc:364-366 | the highest replayed sequence number, beside the manifest's |
| LogReplay.SortNumbers | Foodly/Pods/leveldb-library/db/db_impl.cc:349-350 | the live logs' numbers, each once, in ascending order |
| Recovery.ReplayLogs | Foodly/Pods/leveldb-library/db/db_impl.cc:349-362 | after all live logs every record was read, and every log's number is taken |
| Recovery.ChoicesOk | Foodly/Pods/leveldb-library/db/db_impl.cc:280-369 | what recovery chose is one of the machine's restarts |
| Recovery.Open | Foodly/Pods/leveldb-library/db/db_impl.cc:1474-1515 | opening a database from the disk alone ends in the state of that restart |
| Recovery.OpenDisk | Foodly/Pods/leveldb-library/db/db_impl.cc:1474-1515 | opening the bytes of logs and manifest, each perhaps with a front part of one more record, ends in the state of a restart of the machine that wrote them, with the compaction pointers that the manifest's edits recorded |
| Recovery.RunKeepsCounters | Foodly/Pods/leveldb-library/db/version_set.cc:971-980 | in every run the manifest names the counters that recovery asks for |
| DiskFiles.TornReadsBack | Foodly/Pods/leveldb-library/db/log_reader.cc:56-174 | a file with whole records and a front part of one more reads back as the whole records, with nothing reported |
| DiskFiles.ReadRecords | Foodly/Pods/leveldb-library/db/db_impl.cc:371-489 | the log files that the machine's batches are written to are read back as its log records |
| DiskFiles.ReadManifest | Foodly/Pods/leveldb-library/db/version_set.cc:924-968 | the manifest files that the machine's edits are written to are read back as its edits, their new files and the compaction pointers they lead to; a malformed edit or another comparator is an error |
| DiskFiles.CrashInWrite | Foodly/Pods/leveldb-library/db/db_impl.cc:1202-1237 | however much of a log record has reached the disk when a crash comes, the disk is that of the state before the write or of the state after it |
| DiskFiles.CrashInInstall | Foodly/Pods/leveldb-library/db/version_set.cc:801-884 | however much of a manifest record has reached the disk when a crash comes, the disk is that of the state before the new version or of the state after it |
| DiskFiles.TakenOverLogKeeps | Foodly/Pods/leveldb-library/db/db_impl.cc:458-475 | batches written to a log that was taken over behind a mere filling are all replayed |
| DiskFiles.TakenOverLogLoses | Foodly/Pods/leveldb-library/db/db_impl.cc:458-475 | batches written behind a piece with a whole header, in the block of that piece, are not replayed, though their writers were told of success |
| DbIterator.DBIter.FindNextUserEntry | Foodly/Pods/leveldb-library/db/db_iter.cc:168-198 | the scan forward stops at the first entry shown from there on, skipping the key it was told to skip |
| DbIterator.DBIter.FindPrevUserEntry | Foodly/Pods/leveldb-library/db/db_iter.cc:227-267 | the scan back stops before the key's entries, having saved the last entry shown |
| DbIterator.DBIter.Next | Foodly/Pods/leveldb-library/db/db_iter.cc:141-166 | the next entry shown, whichever way the iterator was going |
| DbIterator.DBIter.Prev | Foodly/Pods/leveldb-library/db/db_iter.cc:200-225 | the previous entry shown, whichever way the iterator was going |
| DbIterator.DBIter.Seek | Foodly/Pods/leveldb-library/db/db_iter.cc:269-281 | the first entry shown at or after the target key |
| DbIterator.DBIter.SeekToLast | Foodly/Pods/leveldb-library/db/db_iter.cc:294-299 | the last entry shown |
| DbIterator.DBIter.Val | Foodly/Pods/leveldb-library/db/db_iter.cc:67-70 | going either way, the value of the entry that the iterator stands at |
| DbIterator.NextThenPrev | Foodly/Pods/leveldb-library/db/db_iter.cc:141-225 | forward and back again ends at the same entry |
| DbIterator.PrevThenNext | Foodly/Pods/leveldb-library/db/db_iter.cc:141-225 | back and forward again ends at the same entry |
| DbIterator.ShownIsView | Foodly/Pods/leveldb-library/db/db_iter.cc:168-198 | the entries shown are exactly the view at the iterator's sequence number, one for each key that has a value |
| MergingIterator.SplitAt | Foodly/Pods/leveldb-library/table/merger.cc:55-108 | where an entry stands in the sorted union, by its key |
| MergingIterator.CutBackTop | Foodly/Pods/leveldb-library/table/merger.cc:163-176 | a child that holds the entry before a cut stands at it when going back |
| MergingIterator.Merger.FindSmallest | Foodly/Pods/leveldb-library/table/merger.cc:148-161 | children cut at c give the c-th entry of the sorted union |
| MergingIterator.Merger.FindLargest | Foodly/Pods/leveldb-library/table/merger.cc:163-176 | children cut back at c give the entry before it |
| MergingIterator.Merger.Next | Foodly/Pods/leveldb-library/table/merger.cc:55-79 | one further in the sorted union, also after a change of direction |
| MergingIterator.Merger.Prev | Foodly/Pods/leveldb-library/table/merger.cc:81-108 | one back in the sorted union, also after a change of direction |
| MergingIterator.Merger.Seek | Foodly/Pods/leveldb-library/table/merger.cc:47-53 | the first merged entry at or after the target |
| TwoLevelIterator.FlatSorted | Foodly/Pods/leveldb-library/table/two_level_iterator.cc:82-160 | blocks that the index separates make one sorted sequence |
| TwoLevelIterator.TwoLevel.SkipEmptyDataBlocksForward | Foodly/Pods/leveldb-library/table/two_level_iterator.cc:115-126 | empty blocks are skipped without moving in the sequence, and the loop ends |
| TwoLevelIterator.TwoLevel.Next | Foodly/Pods/leveldb-library/table/two_level_iterator.cc:103-107 | one further in the concatenation of the blocks |
| TwoLevelIterator.TwoLevel.Prev | Foodly/Pods/leveldb-library/table/two_level_iterator.cc:109-113 | one back in the concatenation of the blocks |
| TwoLevelIterator.TwoLevel.Seek | Foodly/Pods/leveldb-library/table/two_level_iterator.cc:82-87 | the first entry of the concatenation at or after the target |
| TwoLevelIterator.TwoLevel.InitDataBlock | Foodly/Pods/leveldb-library/table/two_level_iterator.cc:146-161 | an open block is kept if the handle is the same, which changes nothing |
| BlockBuilder.Builder.Add | Foodly/Pods/leveldb-library/table/block_builder.cc:72-106 | the bytes stand for the entries before and the new one |
| BlockBuilder.Builder.Finish | Foodly/Pods/leveldb-library/table/block_builder.cc:62-70 | the finished block stands for all entries that were added |
| BlockBuilder.SharedWith | Foodly/Pods/leveldb-library/table/block_builder.cc:79-84 | the loop counts the bytes that two keys begin with in common |
| BlockBuilder.BlockIsDetermined | Foodly/Pods/leveldb-library/table/block_builder.cc:62-106 | a restart point stands at every so many entries, and every other key leaves out all that it shares with the key before; so the entries and the interval determine the bytes of the block |
| BlockFormat.ShortCutAgrees | Foodly/Pods/leveldb-library/table/block.cc:54-74 | on all bytes, the one-byte path decodes what the three varint reads decode |
| BlockFormat.DecodeEntryOf | Foodly/Pods/leveldb-library/table/block.cc:54-74 | an entry that was written decodes to what was written |
| BlockIterator.BuiltOpens | Foodly/Pods/leveldb-library/table/block.cc:24-39 | a finished block is accepted, and its restart points are read as they were written |
| BlockIterator.EntryDecodes | Foodly/Pods/leveldb-library/table/block.cc:224-250 | at each entry's offset stand the parts of its key and its value |
| BlockIterator.Iter.ParseNextKey | Foodly/Pods/leveldb-library/table/block.cc:224-251 | the next entry's whole key and value, or the end |
| BlockIterator.Iter.Prev | Foodly/Pods/leveldb-library/table/block.cc:142-161 | the entry before, found from a restart point on |
| BlockIterator.Iter.FindRestart | Foodly/Pods/leveldb-library/table/block.cc:166-189 | the binary search ends at a restart point with only smaller keys before it |
| BlockIterator.Iter.Seek | Foodly/Pods/leveldb-library/table/block.cc:163-201 | the first entry at or after the target |
| BlockIterator.Iter.SeekToLast | Foodly/Pods/leveldb-library/table/block.cc:208-213 | the last entry |
| InternalKeys.KeyBack | Foodly/Pods/leveldb-library/db/dbformat.h:165-175 | an internal key is read back from its bytes |
| InternalKeys.TagDecides | Foodly/Pods/leveldb-library/db/dbformat.h:165-175 | eight bytes behind a user key are a tag exactly if their lowest byte is one of the two types |
| InternalKeys.LessAgrees | Foodly/Pods/leveldb-library/db/dbformat.cc:51-67 | the comparator on bytes orders internal keys as the model does |
| BlockCursor.OrderedKeys | Foodly/Pods/leveldb-library/table/block_builder.cc:71-106 | the entries of a block are in order exactly when its keys are |
| BlockCursor.Block.Seek | Foodly/Pods/leveldb-library/table/block.cc:164-216 | over the bytes of a block, a search ends at the first entry at or after the target, as it does in every cursor of the engine |
| FilterBlock.Builder.StartBlock | Foodly/Pods/leveldb-library/table/filter_block.cc:21-27 | filters are made up to the one of the new block |
| FilterBlock.Builder.AddKey | Foodly/Pods/leveldb-library/table/filter_block.cc:29-33 | the key is one of those added under the current block |
| FilterBlock.Builder.Finish | Foodly/Pods/leveldb-library/table/filter_block.cc:35-49 | there is a filter for every range with keys, and each is made of exactly the keys that were added under its range |
| FilterBlock.FiltersAt | Foodly/Pods/leveldb-library/table/filter_block.cc:51-75 | each filter stands between its offset and the next |
| FilterBlock.NoFalseNegatives | Foodly/Pods/leveldb-library/table/filter_block.cc:90-104 | for any policy that accepts its own keys, a key added under a block is never denied for it, the last filter included |
| FilterBlock.AnswerIs | Foodly/Pods/leveldb-library/table/filter_block.cc:90-104 | on a finished block the answer for any key is what the policy says of the filter of the block's range, and yes beyond the last filter |
| FilterBlock.DeniedBy | Foodly/Pods/leveldb-library/table/filter_block.cc:77-104 | on any bytes, a key is denied only by the policy, or by an entry that says that its filter is empty and lies behind the filters |
| SkipList.List.FindGreaterOrEqual | Foodly/Pods/leveldb-library/db/skiplist.h:260-281 | the first node at or after the key, and on every level the last node before it; it asks only for what holds after every single store |
| SkipList.List.FindLessThan | Foodly/Pods/leveldb-library/db/skiplist.h:283-302 | the last node before the key, or the head |
| SkipList.List.FindLast | Foodly/Pods/leveldb-library/db/skiplist.h:304-322 | the last node, or the head |
| SkipList.List.Contains | Foodly/Pods/leveldb-library/db/skiplist.h:370-378 | whether an entry compares equal |
| SkipList.List.Insert | Foodly/Pods/leveldb-library/db/skiplist.h:336-368 | the entries are the old ones with the new one at its sorted place, and between any two stores the list can be searched |
| SkipList.PrivateStore | Foodly/Pods/leveldb-library/db/skiplist.h:362-365 | the store into the new node changes no level |
| SkipList.Link | Foodly/Pods/leveldb-library/db/skiplist.h:366 | the store that publishes the node puts it into its place on one level |
| SkipList.LinkEntries | Foodly/Pods/leveldb-library/db/skiplist.h:336-368 | on the lowest level that is the sorted place |
| SkipList.NeighboursDecide | Foodly/Pods/leveldb-library/db/skiplist.h:267-280 | where two neighbours stand on the two sides of the target, a scan of the level stops |
| SkipListReaders.StepKeepsInv | Foodly/Pods/leveldb-library/db/skiplist.h:336-368 | every single load and store of one writer and a reader keeps the list sound, and no node leaves it |
| SkipListReaders.NeverStuck | Foodly/Pods/leveldb-library/db/skiplist.h:260-281 | no pointer that an insertion or a search follows is missing |
| SkipListReaders.SearchIsScan | Foodly/Pods/leveldb-library/db/skiplist.h:260-322 | in every interleaving, a search returns what a scan returns at the moment of its last load |
| SkipListReaders.PresentIsFound | Foodly/Pods/leveldb-library/db/skiplist.h:10-28 | in every interleaving, an entry that is in the list is found by every search that ends later |
| MemTable.AtTarget | Foodly/Pods/leveldb-library/db/memtable.cc:100-134 | the first node at or after the lookup key is the newest visible entry, if it is for the same user key |
| MemTable.Table.Add | Foodly/Pods/leveldb-library/db/memtable.cc:75-98 | the table gains the entry at its sorted place |
| MemTable.Table.Get | Foodly/Pods/leveldb-library/db/memtable.cc:100-134 | value, deletion or nothing, as the newest visible entry says |
| LogFormat.Writer.AddRecord | Foodly/Pods/leveldb-library/db/log_writer.cc:34-82 | however the file was opened, the bytes added depend on its length and the record only |
| LogFormat.OffsetTracksLength | Foodly/Pods/leveldb-library/db/log_writer.cc:34-82 | the offset in the block follows the length of the file |
| LogReader.Reader.ReadPhysicalRecord | Foodly/Pods/leveldb-library/db/log_reader.cc:189-271 | on any bytes, the buffering reader reads what a scan of the file from its position finds |
| LogReader.Reader.ReadRecord | Foodly/Pods/leveldb-library/db/log_reader.cc:56-174 | on any bytes, fragments are put together and drops reported as the reference says |
| LogReader.ScanFragment | Foodly/Pods/leveldb-library/db/log_reader.cc:189-271 | a written fragment is read if it is all there, and otherwise is the end, without a report |
| LogReader.AssembleEmitted | Foodly/Pods/leveldb-library/db/log_reader.cc:56-174 | a written record is read back from any of its fragments on, or is the end if it was cut off |
| LogReader.TornLogReadsBack | Foodly/Pods/leveldb-library/db/log_reader.cc:56-174 | for all records and every cut, the reader returns exactly the records that end within what is there, in order, and reports nothing |
| LogReader.LogReadsBack | Foodly/Pods/leveldb-library/db/log_reader.cc:56-174 | a whole log gives back every record, empty ones included |
| LogReader.ReadLog | Foodly/Pods/leveldb-library/db/db_impl.cc:408-453 | reading until there is no record gives what the reference gives |
| LogTrace.RecordsAreRuns | Foodly/Pods/leveldb-library/db/log_reader.cc:56-174 | on any bytes, the records returned are exactly the full fragments, and the runs of a first fragment, middle ones and a last one that stand next to each other, in order |
| LogTrace.EveryByteIsAccounted | Foodly/Pods/leveldb-library/db/log_reader.cc:56-187 | on any bytes, the bytes found in fragments are those of the records returned, those reported as dropped, and those of a record that is unfinished at the end |
| LogTrace.FoundIsIntact | Foodly/Pods/leveldb-library/db/log_reader.cc:189-271 | on any bytes, what is found stands in the file in full with the right checksum; otherwise the rest of the block is left out, and reported unless it was never written |
| LogTrace.BlockIsReached | Foodly/Pods/leveldb-library/db/log_reader.cc:189-271 | on any bytes, reading gets to the beginning of every block, unless an intact fragment before it has the type 5, the code's own mark for the end |
| LogTrace.DamageIsConfined | Foodly/Pods/leveldb-library/db/log_reader.cc:56-174 | whatever stands before a block, every record that begins in it or later is returned, with the same exception |
| LogTakeover.AppendAll | Foodly/Pods/leveldb-library/db/log_writer.cc:27-82 | a writer opened on a file of any length and contents adds its records behind it |
| LogTakeover.ReadsContinued | Foodly/Pods/leveldb-library/db/log_reader.cc:56-174 | appended records are read back by a reader that gets to where they begin |
| LogTakeover.FillingReadsBack | Foodly/Pods/leveldb-library/db/log_reader.cc:189-271 | records appended behind a piece of a record that only fills up its block are read back with all before them, and nothing is reported |
| LogTakeover.TakeoverReadsBackIff | Foodly/Pods/leveldb-library/db/log_reader.cc:56-174 | if a broken fragment is refused once records stand behind it, all records are read back without a report if and only if the piece is such a filling |
| LogTakeover.WholeHeaderIsRefused | Foodly/Pods/leveldb-library/db/log_reader.cc:189-271 | a fragment with a whole header and a payload cut short is refused, unless the checksum takes what came to stand behind it for its own |
| LogTakeover.AppendedAreLost | Foodly/Pods/leveldb-library/db/log_reader.cc:222-266 | while the file ends in the block of such a piece, only the records before the piece are read back |
| BatchLog.TornLogKeepsWholeBatches | Foodly/Pods/leveldb-library/db/db_impl.cc:408-430 | a log of batches that was cut anywhere gives back whole batches from its beginning and no part of one |
| BatchLog.CountDecides | Foodly/Pods/leveldb-library/db/write_batch.cc:42-80 | a batch whose count is not that of its updates is refused |
| BatchLog.CutBatchIsNothing | Foodly/Pods/leveldb-library/db/write_batch.cc:42-80 | a batch that has lost bytes at its end is refused, even one cut between two updates |
| WriteBatch.Batch.Put | Foodly/Pods/leveldb-library/db/write_batch.cc:98-103 | the bytes stand for one more update, and the count says so |
| WriteBatch.Batch.SetSequence | Foodly/Pods/leveldb-library/db/write_batch.cc:94-96 | the number changes and the updates stay |
| WriteBatch.Batch.Sequence | Foodly/Pods/leveldb-library/db/write_batch.cc:90-92 | the number that was set last is read from the bytes |
| WriteBatch.Batch.Append | Foodly/Pods/leveldb-library/db/write_batch.cc:144-148 | the bytes stand for the updates of both batches in order |
| WriteBatch.Batch.Iterate | Foodly/Pods/leveldb-library/db/write_batch.cc:42-80 | on any bytes the updates up to the first malformed one, and on a sound batch exactly its updates |
| WriteBatch.ReadsBack | Foodly/Pods/leveldb-library/db/write_batch.cc:42-109 | updates that were written are read back |
| WriteBatch.UpdatesCut | Foodly/Pods/leveldb-library/db/write_batch.cc:42-80 | of updates that are cut off anywhere the whole ones are handed on, and the cut is noticed unless it is between two |
| WriteBatch.UnknownType | Foodly/Pods/leveldb-library/db/write_batch.cc:54-72 | a type other than 0 and 1 ends the batch and is reported |
| GroupCommit.BuildBatchGroup | Foodly/Pods/leveldb-library/db/db_impl.cc:1260-1306 | the longest front part of the queue that may be written together, joined in order, with no caller's batch changed |
| GroupCommit.GroupIsUnique | Foodly/Pods/leveldb-library/db/db_impl.cc:1264-1304 | the sync and size rules determine the group |
| GroupCommit.GroupIsBounded | Foodly/Pods/leveldb-library/db/db_impl.cc:1264-1290 | a group is no bigger than its first request alone, or 128 KB more than a small first one, or 1 MB |
| GroupCommit.GroupEndsBecause | Foodly/Pods/leveldb-library/db/db_impl.cc:1277-1290 | a group that does not take all ends before a request that wants a sync where the first does not, or that would make it too big |
| WriterQueue.StepKeepsInv | Foodly/Pods/leveldb-library/db/db_impl.cc:1185-1256 | arrivals, turns and their ends keep requests, turns and sequence numbers in order |
| WriterQueue.ServedOnce | Foodly/Pods/leveldb-library/db/db_impl.cc:1192-1256 | in every run, a request that left the queue was served in one turn and no other, told that turn's outcome, and synced if it asked for it |
| WriterQueue.AppliedInOrder | Foodly/Pods/leveldb-library/db/db_impl.cc:1201-1237 | in every run, the updates applied are those of the requests told of success, each once, in order of arrival, under consecutive sequence numbers |
| EditCodec.FieldBack | Foodly/Pods/leveldb-library/db/version_edit.cc:120-194 | each field that was written is read back |
| EditCodec.LastFieldCounts | Foodly/Pods/leveldb-library/db/version_edit.cc:107-205 | of a number that comes more than once the last stays; pointers and files add up |
| EditCodec.VersionEdit.EncodeTo | Foodly/Pods/leveldb-library/db/version_edit.cc:41-85 | the bytes of all fields, in whatever order the deleted files are gone through |
| EditCodec.VersionEdit.DecodeFrom | Foodly/Pods/leveldb-library/db/version_edit.cc:107-205 | on any bytes: accepted exactly if all of them are fields, which are then applied to the cleared edit |
| EditCodec.EditBack | Foodly/Pods/leveldb-library/db/version_edit.cc:41-205 | what decoding an encoded edit makes of an edit that was used before |
| EditCodec.RoundTripIffNoPointers | Foodly/Pods/leveldb-library/db/version_edit.cc:26-39 | encoding and decoding is the identity if and only if the edit decoded into had no compaction pointers |
| EditCodec.UnknownTag | Foodly/Pods/leveldb-library/db/version_edit.cc:107-205 | an edit with a tag that no field has is refused behind the fields before it |
| EditCodec.UnknownLevel | Foodly/Pods/leveldb-library/db/version_edit.cc:96-105 | an edit with a level that there is not is refused |
| EditCodec.FieldCut | Foodly/Pods/leveldb-library/db/version_edit.cc:107-205 | an edit that is cut off within a field is refused, and nothing of that field is read |
| Coding.Varint32RoundTrip | Foodly/Pods/leveldb-library/util/coding.cc:47-128 | a 32-bit varint is read back, with its length |
| Coding.Varint64RoundTrip | Foodly/Pods/leveldb-library/util/coding.cc:81-157 | a 64-bit varint is read back, with its length |
| Coding.Fixed32RoundTrip | Foodly/Pods/leveldb-library/util/coding.cc:9-18 | four little-endian bytes are read back |
| Coding.Fixed64RoundTrip | Foodly/Pods/leveldb-library/util/coding.cc:20-33 | eight little-endian bytes are read back |
| Coding.LengthPrefixedRoundTrip | Foodly/Pods/leveldb-library/util/coding.cc:98-190 | a byte string with its length is read back |
| Coding.VarintDigits | Foodly/Pods/leveldb-library/util/coding.cc:47-96 | a varint has seven bits of its number to a byte, the lowest first, a mark on every byte but the last, and no more bytes than it needs |
| Coding.VarintEnds | Foodly/Pods/leveldb-library/util/coding.cc:98-157 | on any bytes, the first one without the mark ends the number, if it comes in time |
| Coding.VarintWidths | Foodly/Pods/leveldb-library/util/coding.cc:98-157 | that is within five bytes for 32 bits and ten for 64 |
| Coding.VarintNeverEnds | Foodly/Pods/leveldb-library/util/coding.cc:98-157 | and without one there is no number |
| Coding.PrefixedCut | Foodly/Pods/leveldb-library/util/coding.cc:159-190 | part of a byte string with its length is not taken for one |
| Coding.Fixed32Bytes | Foodly/Pods/leveldb-library/util/coding.cc:9-18 | four bytes stand for a number, the lowest first |
| Coding.Fixed64Bytes | Foodly/Pods/leveldb-library/util/coding.cc:20-33 | eight bytes stand for a number, the lowest first |
| DiskLayout.LogRecord | Foodly/Pods/leveldb-library/db/log_writer.cc:84-110 | a record that fits is on disk as four bytes of checksum, two of length, the type 1, and the data |
| DiskLayout.LogFragments | Foodly/Pods/leveldb-library/db/log_writer.cc:34-82 | a longer one begins with a fragment of type 2 that fills the block, and goes on with type 3 or 4 |
| DiskLayout.TwoUpdates | Foodly/Pods/leveldb-library/db/write_batch.cc:5-15 | the bytes of a batch with a value and a deletion |
| DiskLayout.KeyWithTag | Foodly/Pods/leveldb-library/db/dbformat.cc:13-22 | an internal key is its user key, then its type and seven bytes of sequence number |
| DiskLayout.BlockEntry | Foodly/Pods/leveldb-library/table/block_builder.cc:9-27 | an entry is three lengths, the rest of the key, and the value |
| DiskLayout.BlockEnd | Foodly/Pods/leveldb-library/table/block_builder.cc:62-70 | a block ends with its restart points and their number |
| DiskLayout.OneFilter | Foodly/Pods/leveldb-library/table/filter_block.cc:35-49 | the bytes of a filter block with one filter |
| DiskLayout.EditFields | Foodly/Pods/leveldb-library/db/version_edit.cc:41-85 | the bytes of each field of an edit |
| DiskLayout.EditOrder | Foodly/Pods/leveldb-library/db/version_edit.cc:41-85 | the order in which an edit's fields are written |
| PbEncode.VarintBytes | Foodly/Pods/nanopb/pb_encode.c:608-628 | the buffer that the digit loop fills is the varint |
| PbEncode.OStream.Write | Foodly/Pods/nanopb/pb_encode.c:103-124 | bytes are taken if and only if they fit, and a counting stream takes all |
| PbEncode.WritePacked | Foodly/Pods/nanopb/pb_encode.c:162-205 | the length in front of a packed array is that of the bytes behind it |
| PbEncode.WriteSubmessage | Foodly/Pods/nanopb/pb_encode.c:717-765 | the size counted first is the size written; the check that it changed never fails |
| PbEncode.WriteField | Foodly/Pods/nanopb/pb_encode.c:341-426 | a field is written as its rule and its presence say |
| PbEncode.WriteMessage | Foodly/Pods/nanopb/pb_encode.c:528-550 | a message is written if and only if all of it fits, and counting and writing agree, at any nesting depth |
| PbEncode.Encode | Foodly/Pods/nanopb/pb_encode.c:528-550 | encoding into a buffer gives the message's bytes if and only if they fit |
| PbEncode.EncodedSize | Foodly/Pods/nanopb/pb_encode.c:567-576 | the size that is reported is the length of the message's bytes |
| PbWire.OneIsDelimited | Foodly/Pods/nanopb/pb_encode.c:669-707 | a field is written as a varint of eight times its number and the wire type of its kind, 0, 1, 2 or 5, and then exactly the bytes that this wire type delimits |
| PbWire.FixedValues | Foodly/Pods/nanopb/pb_encode.c:641-667 | numbers of fixed width are little-endian |
| PbWire.VarintValues | Foodly/Pods/nanopb/pb_encode.c:769-833 | plain negative numbers are written in two's complement of 64 bits, the others with their sign in the lowest bit |
| PbWire.WrittenIff | Foodly/Pods/nanopb/pb_encode.c:240-426 | a field without a presence flag is left out if and only if it is zero and of a kind that can be; any other if and only if nothing is there |
| PbWire.ZeroIff | Foodly/Pods/nanopb/pb_encode.c:240-337 | the check for zero holds of exactly the zero values, but never of a byte string of fixed length or a message with a field that is always written |
| PbWire.Example150 | Foodly/Pods/nanopb/pb_encode.c:608-628 | the example of "Base 128 Varints" |
| PbWire.ExampleZigZag | Foodly/Pods/nanopb/pb_encode.c:630-639 | an example of "Signed Integers" |
| PbWire.ExampleDelimited | Foodly/Pods/nanopb/pb_encode.c:709-765 | a string, and a message in a message |
| PbWire.ExamplePacked | Foodly/Pods/nanopb/pb_encode.c:147-236 | the example of "Packed Repeated Fields" |
| PbWire.ExampleFixed | Foodly/Pods/nanopb/pb_encode.c:641-707 | a number of 32 and one of 64 bits |
| PbWire.ExampleOrder | Foodly/Pods/nanopb/pb_encode.c:528-550 | the fields stand in the order of the description |
| PbMessage.ZeroIsZero | Foodly/Pods/nanopb/pb_encode.c:240-337 | a value that is left out as zero is the value that decoding starts from |
| PbDecode.Varint32Back | Foodly/Pods/nanopb/pb_decode.c:187-247 | a varint of 32 bits is read back by the decoder that checks for overflow |
| PbDecode.ScalarBack | Foodly/Pods/nanopb/pb_decode.c:1274-1564 | every value that is not a message is read back, of every type and width |
| PbDecode.SignedBack | Foodly/Pods/nanopb/pb_decode.c:1339-1374 | a signed number of any width comes back from its 64-bit form |
| PbWire.Varint32Decides | Foodly/Pods/nanopb/pb_decode.c:187-247 | a number of any size where one of 32 bits is read is taken exactly if it fits, or if from bit 35 on it looks like an extended sign; and what it comes to |
| PbWire.WhatIsTaken | Foodly/Pods/nanopb/pb_decode.c:187-247 | that is every number below 2^32, every negative one of 32 bits, and no other below 2^63; but also some that are neither, since bits 32 to 34 are not looked at |
| PbWire.UnsignedRead | Foodly/Pods/nanopb/pb_decode.c:1376-1398 | an unsigned number written with any width is read exactly if it fits |
| PbWire.ZigZagRead | Foodly/Pods/nanopb/pb_decode.c:1400-1422 | so is a number with its sign in the lowest bit |
| PbWire.PlainRead | Foodly/Pods/nanopb/pb_decode.c:1339-1374 | a plain number is read into 64 bits as it is; into fewer, only its lowest 32 bits are looked at, and what they come to must fit |
| PbWire.BoolRead | Foodly/Pods/nanopb/pb_decode.c:1328-1337 | a truth value is whether the number is not zero |
| PbWire.BytesRead | Foodly/Pods/nanopb/pb_decode.c:1441-1564 | a byte string that does not fit is refused, and one of fixed length with any other length but zero |
| PbSkip.ValueSkipped | Foodly/Pods/nanopb/pb_decode.c:321-331 | the wire type of a value's kind tells how long the value is |
| PbSkip.OneSkipped | Foodly/Pods/nanopb/pb_decode.c:962-995 | a value that the reader does not know is skipped, for every kind and value |
| PbSkip.FieldSkipped | Foodly/Pods/nanopb/pb_decode.c:962-995 | so is every field, packed and tagged arrays included: reading goes on behind it as if it were not there |
| PbMerge.UnionCame | Foodly/Pods/nanopb/pb_decode.c:466-478 | a member of a union that comes in is the only one there |
| PbMerge.PackedTaken | Foodly/Pods/nanopb/pb_decode.c:424-453 | a packed array follows the elements that are there, if there is room for all of it, and is refused otherwise |
| PbMerge.TaggedMerges | Foodly/Pods/nanopb/pb_decode.c:454-464 | so does an array whose elements come one by one |
| PbMerge.TaggedFieldMerges | Foodly/Pods/nanopb/pb_decode.c:454-464 | and so does one of a kind that could have been packed, when its elements come one by one all the same |
| PbMerge.SeenIsCame | Foodly/Pods/nanopb/pb_decode.c:1034-1073 | the check for required fields holds exactly if each of those kept account of has come in |
| PbMerge.FieldMerges | Foodly/Pods/nanopb/pb_decode.c:928-1024 | a field that comes in is merged with what is there and changes nothing else, if and only if there is room |
| PbMerge.ValueMerges | Foodly/Pods/nanopb/pb_decode.c:1519-1541 | a nested message that comes in where there is one is merged with it; any other value replaces what was there |
| PbMerge.MessageMerges | Foodly/Pods/nanopb/pb_decode.c:928-1076 | a message decoded into one gives the two merged, if and only if every array has room for both |
| PbMerge.Concatenated | Foodly/Pods/nanopb/pb_decode.c:928-1076 | two messages one behind the other read as the two merged, if and only if every array has room for both and the description does not have just one array of fixed length |
| PbMerge.AnyOrder | Foodly/Pods/nanopb/pb_decode.c:928-1076 | fields in any order, each at most once, some left out, with unknown ones between them, decoded into anything: this succeeds if and only if no required field is missing and the arrays have room; then each field that came is merged, a member of a union displaces the others, and the rest is as it was |
| PbMerge.WrongCount | Foodly/Pods/nanopb/pb_decode.c:968-1013 | an array of fixed length that comes with another number of elements makes the message invalid |
| PbMerge.ZeroEnds | Foodly/Pods/nanopb/pb_decode.c:298-315 | a zero where a tag would be ends the message |
| PbMerge.UnknownWireType | Foodly/Pods/nanopb/pb_decode.c:321-331 | an unknown field of another wire type than 0, 1, 2 and 5 makes the message invalid |
| PbMerge.MessageBack | Foodly/Pods/nanopb/pb_decode.c:1078-1090 | for every message of every sound description: decoding its bytes succeeds, takes all of them, and gives the message back |
| PbDecoder.IStream.DecodeVarint32 | Foodly/Pods/nanopb/pb_decode.c:187-252 | on any bytes, the loop computes the checked 32-bit varint |
| PbDecoder.IStream.DecodeVarint | Foodly/Pods/nanopb/pb_decode.c:255-275 | on any bytes, the loop computes the 64-bit varint |
| PbDecoder.FieldIter.Next | Foodly/Pods/nanopb/pb_common.c:20-76 | the next field around the circle, with the count of required fields before it |
| PbDecoder.FieldIter.Find | Foodly/Pods/nanopb/pb_common.c:78-95 | once around the circle from wherever it stands, the field with the tag is found if there is one |
| PbDecoder.ReadField | Foodly/Pods/nanopb/pb_decode.c:406-483 | on any bytes, a field's value or elements are read and stored as the reference says |
| PbDecoder.ReadFields | Foodly/Pods/nanopb/pb_decode.c:946-1024 | on any bytes, the loop over tags known and unknown does what the reference says |
| PbDecoder.CountRequired | Foodly/Pods/nanopb/pb_decode.c:1034-1049 | going on to the last field counts all required fields |
| PbDecoder.ReadMessage | Foodly/Pods/nanopb/pb_decode.c:928-1076 | on any bytes, decoding into given slots succeeds or fails, and with the slots, as the reference says |
| PbDecoder.Decode | Foodly/Pods/nanopb/pb_decode.c:1078-1090 | decoding a buffer is the reference applied to default slots |

## Left out

- The Swift app, and the other vendored libraries: user interface and network plumbing.
- Real files, file locks, sync, I/O errors and `bg_error_`; threads and memory ordering below the level of single loads and stores.
- A flush inside an unfinished compaction is not a step of the state machine, and so not of its runs, whose invariants it need not keep; `FlushInCompaction.dfy` says exactly what it does to stored data and views (see "Properties that do not hold").
- Waiting and slowing down of writers in `MakeRoomForWrite`; only the switch of the memtable is a step.
- Compaction by size scores and seek statistics: which level or file is compacted is an arbitrary choice.
- `sstable` building around the blocks, compression, caches, reference counts, debug output, repair, and file names.
- Shortened index keys (`FindShortestSeparator`, `FindShortSuccessor`).
- The bits of the Bloom filter: the filter block is proved for any policy that matches its own keys.
- Corrupt entries in blocks, corrupt internal keys and missing tables: the branches that report them are shown to be unreachable for what the builders write, and are otherwise not modelled. The log reader, the batch reader, the edit decoder and the nanopb decoder are modelled on all bytes.
- Starting the log reader at an offset other than 0.
- The mask that the log puts on a checksum: the reader undoes it before it compares.
- nanopb callbacks, extensions, pointer fields, struct layout, strings without a terminator in their buffer, and declared default values (a field holds its zero before it is decoded).
- nanopb descriptions without fields when a tag of field number 0 comes in, and 32-bit varints of more than 36 bytes, where the original's bit counter may wrap.
- MergedSources.NewInternalIterator: the memtable's source is the memtable of the time of opening; that later insertions change nothing of what is shown is `ReadView.LiveIteratorShowsView`, about the entries and not the cursor. The cursor over one table is an abstract one (`Cursors.Cursor`), since the table reader is not part of this model; `TwoLevelIterator.TwoLevel` and `BlockCursor.Block` have the same contract.
- LogTakeover.TakeoverReadsBackIff: pieces whose header is itself cut are covered as far as the reader refuses what the appended bytes make of that header; whether it does depends on the checksum, which is any function here.
- Recovery.Open: compaction pointers, which only say which file of a level is next, are not part of the machine's manifest; `Recovery.OpenDisk` restores them from the bytes.
- AcknowledgedWrites.ReadersSeeAcknowledged: a write to the log that fails, which is an I/O error, and crashes are not among the joint actions; a turn that cannot make room fails without writing.
- PbMerge.MessageBack: an array of fixed count that is absent from the bytes decodes to no elements, where the original leaves what its memory held, but for the first two bytes, which it takes for a count and sets to zero; a written message always has such an array in full.
