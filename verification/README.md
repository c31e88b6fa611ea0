# A model of LevelDB and of the Bloom hierarchy on top of it

The repository holds a log-structured merge store (LevelDB) and a program that indexes the values in its tables
with a tree of Bloom filters. This project models the parts of both where correctness is hardest to see, and
proves what they promise for every input, every run of operations and every interleaving that the model has.

A maintainer checks the project with `dafny verify dfyconfig.toml`.

## What is modelled, and the main theorems

**The store as a state machine** (`InternalKeys`, `Versions`, `Picking`, `Compaction`, `VersionBuilder`,
`Machine`, `MachineProofs`, `FlushProofs`, `InstallProofs`, `Runs`). A state is a memtable, a memtable being
flushed, seven levels of files, the live snapshots and a compaction that may be running. Steps are writes, memtable
switches, snapshots taken and released, flushes, trivial moves, and compactions that begin, open outputs, are
overtaken by flushes, and are installed or abandoned. A run starts with a new store or with one that was opened after
a crash (`Restart.RecoveredStarts`). Every reachable state keeps levels above 0 sorted and
disjoint, keeps newer entries of a key above older ones, and reads at every live snapshot as a replay of the
writes does (`Runs.RunKeepsInv`). `Runs.ReadAt` is the lookup code itself, proved to return that replay, and
`Runs.SnapshotIsolation` that a snapshot reads the same for as long as it lives. `Runs.ReadWrites` says it in terms of
the run's own writes: a read through a snapshot returns the value of the last Put before it, and nothing after a Delete.
`Background` is the code of the
background thread, from the choice of files to the edit that installs the outputs, proved to take exactly these
steps; `ManualGap` is about the one kind of flush by which the code can leave them.

**Cursors** (`DbIter`, `Merging`, `TwoLevel`, `BlockIter`, `Iteration`). Each iterator is a class whose every
operation, in either direction and after any earlier operation, moves a position in a plain sorted list.
`Iteration.IteratorShowsHistory` joins them to the state machine.

**Logs, batches and recovery** (`Coding`, `Log`, `LogProofs`, `WriteBatch`, `GroupCommit`, `Recovery`,
`RecoveryProofs`, `RecoveryLinks`, `Restart`, `VersionEdit`, `Manifest`, `Descriptor`). The writer and the reader of
log files work on bytes; the reader of any byte prefix gets exactly the records that end in it. Group commit is a queue
with one step for each thing that another thread can observe. Recovery is a second state machine in which crashes cut
logs anywhere at or after the last sync; whatever a crash leaves can be opened (`RecoveryProofs.EveryCrashOpens`), and a
group finished with sync set is then read or overwritten (`RecoveryProofs.SyncedWriteSurvives`).
`RecoveryLinks` joins it to the rest: a cut of the bytes of logged batches is a
cut between them, and the edits of flushes, moves and compactions in the first machine are edits of the second.
`Restart` leads back from a crash to the first machine. `Descriptor` writes every version edit as bytes and reads the
bytes back: `Descriptors.VersionSet.ReadBack` gives the version in use at any time, and
`Descriptors.RecoverCut` the version before or after an edit whose record a crash cut off.

**In-memory structures** (`SkipList`, `HandleTable`, `LRUCache`). A skip-list search may interleave with the
single stores of any inserts. The cache counts references and calls each deleter once.

**Tables** (`Block`, `BlockIter`, `Comparators`, `BloomFilter`, `FilterBlock`, `Table`). Blocks are bytes with
shared prefixes and restart points. Lookups through the filter give the same result as without it.

**The Bloom hierarchy** (`Bloom`, `BloomTree`, `BloomFlow`). Filters, their packed files, the tree and the whole
of `MainFlow`, in which the hierarchical search must find what the flat scans find.

## How the model reads the source

- User keys in the state machine and the iterators are integers, their rank under the comparator; tables, blocks and
  comparators use bytes. Sequence numbers stay below 2^56 and integers that are written in 32 or 64 bits are
  bounded or wrapped explicitly.
- CRC-32C is any function with the law that extending over two pieces is extending over both at once. Hash functions
  are arbitrary functions.
- Choices that depend on sizes, scores, seek counts or random heights are parameters or free choices.

## Where the code and its own words differ

- `DBIter` in reverse is said to stand just before all entries of its key. It does exactly when the entry there is not
  too new for the snapshot (`DbIterator.DBIter.ReverseStands`), and may else stand further back
  (`DbIterator.ReverseStandsFurther`).
- `Block::Iter` says that its restart index is that of the block in which the current entry falls. That holds exactly
  when the entry does not stand at the next restart point (`BlockIterators.Iter.RestartIndexExactly`); `Next` onto a
  restart point breaks it (`BlockIterators.RestartIndexLags`), and so does a `Seek` whose scan ends on one.
- `DecodeEntry` adds two lengths in 32 bits, so it accepts an entry that does not fit exactly when the sum wraps
  (`BlockIterators.AcceptedFits`, `BlockIterators.WrappedAccepted`).
- `createLevel` rounds an integer quotient up, which does nothing. It makes `size / ratio + 1` groups, the last one
  possibly empty, and ends exactly when the ratio is at least 3 or there are fewer leaves than the ratio
  (`BloomTrees.EndsExactly`).
- `CheckInHierarchy` leaves the result untouched when the tree returns no file, so a first search agrees with the flat
  scan exactly when some leaf has only ancestors that accept the value, or the result was zero (`BloomFlow.SearchOnce`).
- `bloomTree` keeps adding to the names of earlier searches. A later search agrees with the flat scan exactly when no
  filter among these names accepts the value (`BloomFlow.SearchAgain`, `BloomFlow.SecondSearchDiffers`).
- A leaf file called "Memory" is taken for an inner node. The search loses no hit exactly when no leaf of that name
  accepts the value (`BloomTrees.MemoryLeafExactly`, `BloomTrees.MemoryLeafLost`).
- A flush beside a manual compaction may land between entries that the compaction keeps. An install then leaves the
  output level overlapping exactly when an output spans the new table (`ManualGap.OverlapsExactly`,
  `ManualGap.SpoilsExactly`). The code puts some table there exactly when between kept entries there is a gap that no
  file down to the output level meets, and the bytes of the two levels below send a flush to just that level
  (`ManualGap.SpoilableExactly`). `ManualGap.ManualGapRun` gets there by the code's own choices, with tables of any size
  of which two stay below the limits. Runs of the store exclude such flushes and no others.
- A write without a batch is to force a memtable switch, and a manual compaction relies on it. When an earlier writer's
  group takes it in, it returns and nothing has been switched (`GroupCommit.SwitchNotMade`). It is taken in exactly when
  neither it nor a writer between it and the leader blocks the group (`GroupCommit.TakenInExactly`).
- A record with no updates raises LastSequence on recovery as any record does (`RecoveryProofs.EmptyGroupCounts`).
- Replaying a manifest into one builder gives what saving after each edit gave exactly when no edit adds a file that its
  level already has (`Manifest.ReplayExactly`).
- The log reader uses its own codes 5 and 6 for the end of the file and for a bad record, so type bytes 5 and 6 in a
  file are read as these. A good piece of a type above 4 is reported exactly when its type is neither, or is 6 while a
  fragmented record is open (`LogProofs.HighTypeReported`); a piece of type 5 hides the records after it
  (`LogProofs.TypeFiveHidesRecord`).

## Model

| member | source | states |
|---|---|---|
| `InternalKeys.LessIsPackedOrder` | leveldb/db/dbformat.cc:47-63 | the order used throughout is that of the comparator on packed tags, and keys that compare equal are equal |
| `Reads.ReplayAnswers` | leveldb/db/db_impl.cc:1161-1206 | replaying all writes up to a snapshot gives the newest visible entry of the key, a deletion reading as absent |
| `Reads.ReplayStable` | leveldb/db/db_impl.cc:1227-1235 | later writes never change what an earlier snapshot reads |
| `Reads.AnswerUnique` | leveldb/db/db_impl.cc:1161-1206 | a set of written entries has only one answer for a key and snapshot |
| `Reads.HitAbove` | leveldb/db/db_impl.cc:1184-1196 | a hit in the newer source is the newest entry of both sources |
| `Reads.MissAbove` | leveldb/db/db_impl.cc:1184-1196 | a miss in the newer source leaves the answer to the older one |
| `Versions.FindFile` | leveldb/db/version_set.cc:87-105 | binary search splits a level exactly into the files that end before the key and those that do not |
| `Versions.SomeFileOverlapsRange` | leveldb/db/version_set.cc:121-156 | true if and only if some file meets the range, open ends included, on sorted and unsorted levels |
| `Versions.SeekEntryTop` | leveldb/db/memtable.cc:102-136 | one seek for the lookup key finds the newest visible entry of the user key, or shows that there is none |
| `Versions.LevelGet` | leveldb/db/version_set.cc:304-322 | searching one file of a sorted level finds the newest visible entry in all of its files |
| `Versions.LevelZeroGet` | leveldb/db/version_set.cc:281-302 | stopping at the first hit, newest file first, finds the newest visible entry of level 0 |
| `Versions.NewestFileWins` | leveldb/db/version_set.cc:277-302 | a hit in the newest file that has one beats every entry of older files |
| `Versions.VersionGet` | leveldb/db/version_set.cc:324-400 | stopping at the first level with a hit finds the newest visible entry in the whole version |
| `Versions.FirstLevelWins` | leveldb/db/version_set.cc:281-322 | a hit above beats everything in the levels below it |
| `Versions.ImmGet` | leveldb/db/db_impl.cc:1184-1196 | the newest visible entry of the memtable being flushed, if there is such a memtable |
| `Versions.Get` | leveldb/db/db_impl.cc:1161-1206 | memtable, then the one being flushed, then the files: the first hit answers for the union of all sources |
| `Picking.GetOverlappingInputs` | leveldb/db/version_set.cc:498-538 | the restart loop ends; the result is exactly the files that meet the final range, which at level 0 contains each of them |
| `Picking.RestartStep` | leveldb/db/version_set.cc:512-537 | each restart widens the range and leaves strictly fewer file ends outside it |
| `Picking.GrowthSpans` | leveldb/db/version_set.cc:512-537 | everything the restarts pick up is linked to the range asked for, without a gap |
| `Picking.SelectionClosed` | leveldb/db/version_set.cc:498-538 | at level 0 no file left out meets a file taken |
| `Picking.SelectionContiguous` | leveldb/db/version_set.cc:498-538 | above level 0 the choice is a run of adjacent files |
| `Picking.FindLargestKey` | leveldb/db/version_set.cc:1308-1322 | the greatest largest key among the files, and none for no files |
| `Picking.FindSmallestBoundaryFile` | leveldb/db/version_set.cc:1326-1344 | the first file that continues the user key of the given key past it, or none if no file does |
| `Picking.AddBoundaryInputs` | leveldb/db/version_set.cc:1360-1383 | extends the inputs by a chain of files, each the next to continue the last user key, until none does |
| `Picking.ChainContiguous` | leveldb/db/version_set.cc:1360-1383 | the boundary chain keeps the inputs a run of adjacent files |
| `Picking.ChainLinked` | leveldb/db/version_set.cc:1360-1383 | the boundary chain opens no gap |
| `Picking.GetRange` | leveldb/db/version_set.cc:1187-1217 | the smallest and the largest user key, both attained, that contain every file |
| `Picking.SetupOtherInputs` | leveldb/db/version_set.cc:1385-1446 | the inputs of both levels leave every other file clear of them; linked starts stay linked; the wider choice is taken exactly when it is larger, within the limit, and asks for no more of the next level |
| `Picking.TryExpand` | leveldb/db/version_set.cc:1396-1431 | growing the inputs of the level leaves the set of next-level inputs as it was, keeps them gap-free, and happens exactly when the tests allow it |
| `Picking.SameInputs` | leveldb/db/version_set.cc:1414-1429 | comparing the two sizes, as the code does, decides whether the two sets are equal |
| `Picking.NextToCompact` | leveldb/db/version_set.cc:1266-1278 | the first file whose largest key comes after the compaction pointer, wrapping round to the first of the level |
| `Picking.NextRotates` | leveldb/db/version_set.cc:1266-1278 | on a sorted level that is the file after the one that the pointer has passed, and the first one again after the last |
| `Picking.StartWith` | leveldb/db/version_set.cc:1259-1288 | a compaction starts with the file that was sought too often, or else rotates in this way |
| `Picking.OverlappingLevelZero` | leveldb/db/version_set.cc:1290-1299 | at level 0 the picked file brings along everything that it overlaps, also through others, and all of it is linked |
| `Picking.PickCompaction` | leveldb/db/version_set.cc:1252-1304 | automatic inputs start from the file that was sought too often or the next one in rotation, form a chain of user-key ranges with no gap, and leave all other files clear |
| `Picking.CutShort` | leveldb/db/version_set.cc:1460-1471 | the shortest front of the files that reaches the size limit |
| `Picking.CompactRange` | leveldb/db/version_set.cc:1448-1479 | finds inputs if and only if some file meets the range; takes all of it at level 0 and the front up to the size limit above; the inputs are a legal choice |
| `VersionBuilder.MergeOrdered` | leveldb/db/version_set.cc:672-715 | merging added files into a level keeps it ordered |
| `VersionBuilder.SaveLevelSaves` | leveldb/db/version_set.cc:672-731 | saving a level gives exactly its files without the deleted ones and with the added ones, in order |
| `Compacting.Compaction.IsBaseLevelForKey` | leveldb/db/version_set.cc:1517-1536 | asked about ascending keys, the one-way pointers give the answer that searching all deeper files would |
| `Compacting.Compaction.PointersMonotone` | leveldb/db/version_set.cc:1517-1536 | walking sorted input keeps the pointers usable |
| `Compacting.Compaction.ShouldDrop` | leveldb/db/db_impl.cc:989-1003 | drops an entry exactly when it is shadowed at the smallest snapshot or is an obsolete deletion marker |
| `Compacting.Compaction.DoCompactionWork` | leveldb/db/db_impl.cc:943-1066 | the outputs are the input without the dropped entries, cut exactly before an entry that asks for it and after one that fills its output; none is empty |
| `Compacting.KeptMembers` | leveldb/db/db_impl.cc:972-1060 | an entry is written exactly when it is not dropped |
| `Compacting.KeptSorted` | leveldb/db/db_impl.cc:972-1060 | what is written is strictly sorted |
| `Compacting.KeptIsSet` | leveldb/db/db_impl.cc:972-1060 | which entries are written depends only on the set of input entries, not on how files or outputs divide them |
| `Compacting.NeverCut` | leveldb/db/db_impl.cc:943-1066 | when no test asks for a cut there is one output with all that is kept |
| `Compacting.DropPreservesReads` | leveldb/db/db_impl.cc:979-1006 | for every key and every snapshot from the smallest on, dropping leaves the answer as it was |
| `Machine.OverlapInLevel` | leveldb/db/version_set.cc:464-468 | true if and only if some file of the level meets the range |
| `Machine.PickLevelForMemTableOutput` | leveldb/db/version_set.cc:470-495 | a level that the table may go to without passing a file it meets, and the deepest that the overlap and size rules allow |
| `MachineProofs.WriteKeepsInv` | leveldb/db/db_impl.cc:1246-1317 | a write keeps the store's invariant and extends the history |
| `MachineProofs.SwitchKeepsInv` | leveldb/db/db_impl.cc:1406-1428 | switching memtables keeps the invariant |
| `MachineProofs.SnapshotKeepsInv` | leveldb/db/db_impl.cc:1227-1235 | taking and releasing snapshots keep it |
| `MachineProofs.ChosenInputsOldest` | leveldb/db/version_set.cc:1385-1446 | every file left out down to the output level is newer than the inputs where they share a key |
| `FlushProofs.BeginKeepsInv` | leveldb/db/db_impl.cc:729-777 | starting a compaction, automatic or manual, keeps the invariant |
| `FlushProofs.LinkedLeavesNoGap` | leveldb/db/version_set.cc:1252-1304 | a table that misses every one of a linked set of inputs lies wholly before or after them |
| `FlushProofs.FlushMissesInputs` | leveldb/db/version_set.cc:470-495 | a table placed at or below the output level of a running compaction meets none of its inputs |
| `FlushProofs.NotAmongIsBeside` | leveldb/db/db_impl.cc:951-961 | a table that meets no kept entry and does not lie between two lies wholly beside all of them |
| `FlushProofs.ClearIsNotAmong` | leveldb/db/db_impl.cc:951-961 | outside the range of the inputs no table lies among what is kept |
| `FlushProofs.FlushClearOfInputs` | leveldb/db/db_impl.cc:951-961 | a flush placed at or below the output level during an automatic compaction lies outside its whole range |
| `FlushProofs.FlushKeepsInv` | leveldb/db/db_impl.cc:524-599 | a flush, also in the middle of a compaction, keeps the invariant; beside a manual one it only must not land among what will be kept |
| `InstallProofs.InstalledEntries` | leveldb/db/db_impl.cc:895-911 | after installing, the files hold exactly what they held without the dropped entries |
| `InstallProofs.InstallKeepsReads` | leveldb/db/db_impl.cc:895-911 | installing a compaction changes no read at a live snapshot, although flushes and writes came in between |
| `InstallProofs.InstallKeepsInv` | leveldb/db/db_impl.cc:895-911 | installing keeps the whole invariant, also with flushes interleaved |
| `Runs.MoveKeepsInv` | leveldb/db/db_impl.cc:751-766 | moving a file down without rewriting it keeps the invariant |
| `Runs.StepKeepsInv` | leveldb/db/db_impl.cc:721-801 | every kind of step keeps the invariant |
| `Runs.ReopenedReads` | leveldb/db/db_impl.cc:1161-1206 | the tables of a store that was just opened answer every read as its history does, lost numbers included |
| `Runs.ReopenedInv` | leveldb/db/db_impl.cc:311-402 | such a store meets the invariant |
| `Runs.RunKeepsInv` | leveldb/db/db_impl.cc:721-801 | in every state of every run, from a new store or a recovered one, levels above 0 are disjoint, newer entries lie above older ones, and reads are those of the history |
| `Runs.HistoryGrows` | leveldb/db/db_impl.cc:1246-1317 | no write is ever taken back |
| `Runs.ReadAt` | leveldb/db/db_impl.cc:1161-1206 | in every state of every run, Get at a live snapshot returns what replaying the writes gives |
| `Runs.SnapshotIsolation` | leveldb/db/db_impl.cc:1227-1235 | a snapshot reads, in every later state, what had been written when it was taken |
| `Runs.SnapshotLives` | leveldb/db/db_impl.cc:1227-1235 | a snapshot that was taken stays live until it is released |
| `Runs.WriteMeans` | leveldb/db/write_batch.cc:115-131 | after a Put the key reads as the value and after a Delete as absent; no other key and no earlier snapshot reads differently |
| `Runs.HistoryIsWrites` | leveldb/db/db_impl.cc:1246-1317 | the history of every state of a run reads as the Puts and Deletes among its steps say |
| `Runs.ReadWrites` | leveldb/db/db_impl.cc:1161-1206 | Get through a snapshot taken after m steps, at any later time, returns what the writes among those m steps left in the key |
| `Background.LevelApplied` | leveldb/db/version_set.cc:629-731 | applying an edit to a level and saving it removes and adds exactly what the edit says, the relation that the steps of the store are stated with |
| `Background.LevelUntouched` | leveldb/db/version_set.cc:672-731 | a level that the edit does not mention stays as it is |
| `Background.CompactMemTable` | leveldb/db/db_impl.cc:568-599 | picks the level, adds the table and saves the version: the flush of the code |
| `Background.OldestSnapshot` | leveldb/db/db_impl.cc:925-929 | the oldest live snapshot, or the last sequence number if there is none |
| `Background.BackgroundCompaction` | leveldb/db/db_impl.cc:721-777 | for every request, automatic or manual, the files chosen and what is done with them form a step of the store, or a manual range meets no file |
| `Background.IsTrivialMove` | leveldb/db/version_set.cc:1499-1507 | true if and only if there is one file, nothing below it, and not too much in the level after |
| `Background.MoveDown` | leveldb/db/db_impl.cc:751-766 | the edit that deletes and adds the file gives the trivial move of the store |
| `Background.OpenedKeepsInv` | leveldb/db/db_impl.cc:820-844 | opening any number of outputs keeps the invariant |
| `Background.FilesShareNothing` | leveldb/db/version_set.cc:1219-1250 | no entry is in two files of a version, so that inputs can be merged |
| `Background.MergeInputs` | leveldb/db/version_set.cc:1219-1250 | the merging iterator over the inputs shows exactly their entries, once each and in order |
| `Background.Rewrite` | leveldb/db/db_impl.cc:913-1066 | merging the inputs, dropping and cutting gives exactly what is kept, cut where the two tests say, with no run empty |
| `Background.InstallCompactionResults` | leveldb/db/db_impl.cc:895-911 | one edit with the inputs deleted and the outputs added gives the install step of the store, also after a flush has spoilt the output level |
| `Background.Finish` | leveldb/db/db_impl.cc:820-911 | opening an output for each run and installing them all are steps of the store |
| `Background.DoWork` | leveldb/db/db_impl.cc:913-1066 | a compaction from its inputs to its install: merging, dropping, cutting and the edit together are steps of the store |
| `ManualGap.OverlapsExactly` | leveldb/db/db_impl.cc:951-961 | after a flush to the output level of a running compaction, an install leaves that level overlapping if and only if some output reaches from before the new table to after it |
| `ManualGap.SpoiltIsAmong` | leveldb/db/db_impl.cc:951-961 | that needs a kept entry on either side of the table, and more kept entries than outputs were open |
| `ManualGap.AmongSpoils` | leveldb/db/db_impl.cc:951-961 | and where these are, some way of cutting the outputs does it |
| `ManualGap.SpoilsExactly` | leveldb/db/db_impl.cc:951-961 | so the flush can lead to an overlap if and only if the table lies between two kept entries and there are more of these than outputs open |
| `ManualGap.PickedHasGap` | leveldb/db/version_set.cc:470-495 | a table that goes there shows such a gap, and one of its keys is enough unless only level 3 stops it |
| `ManualGap.GapIsPicked` | leveldb/db/version_set.cc:470-495 | through every such gap some table goes there |
| `ManualGap.SpoilableExactly` | leveldb/db/version_set.cc:470-495 | the code puts some table into the output level, between kept entries, if and only if there is a gap: for level 2 a key with not too much of level 3 over it; for level 1 a key that level 2 covers with not too much, or a range that level 2 does not meet and too much of level 3 does |
| `ManualGap.OneOutput` | leveldb/db/db_impl.cc:943-1066 | where nothing asks for a cut, the one output spans every table that lies between kept entries |
| `ManualGap.ManualGapRun` | leveldb/db/version_set.cc:1448-1479 | for all limits with room for two tables: writes, flushes, a manual compaction with its choice of files, its merge without a cut and its install, each made by the code, end with an overlapping level 2 |
| `Manifest.Builder.Apply` | leveldb/db/version_set.cc:629-669 | each level's state becomes what the edit's deletions and then its additions make of it |
| `Manifest.Builder.SaveOneLevel` | leveldb/db/version_set.cc:672-715 | the saved level is the merge of base and added files without the deleted ones |
| `Manifest.LogAndApply` | leveldb/db/version_set.cc:792-798 | the next version, level by level, from the current one and one edit |
| `Manifest.RecoverVersion` | leveldb/db/version_set.cc:899-972 | one builder over all edits, saved once, gives their replay |
| `Manifest.ReplayAgrees` | leveldb/db/version_set.cc:629-731 | if no edit adds a file that its level has, replay and saving after each edit agree |
| `Manifest.AddingPresentDiffers` | leveldb/db/version_set.cc:717-731 | an edit that does add one makes the two differ |
| `Manifest.ReplayExactly` | leveldb/db/version_set.cc:629-731 | so they agree on every prefix if and only if no edit does |
| `Manifest.SnapshotThenEdits` | leveldb/db/version_set.cc:1069-1097 | a snapshot record stands for the files that it lists |
| `Manifest.ReplayFromSnapshot` | leveldb/db/version_set.cc:1069-1097 | a manifest that starts with a snapshot record replays to what the later edits made of those files |
| `VersionEdits.FieldRoundTrip` | leveldb/db/version_edit.cc:42-85 | every kind of field decodes to itself, whatever follows it |
| `VersionEdits.TagByte` | leveldb/db/version_edit.cc:14-25 | the first byte of a field names its kind |
| `VersionEdits.TagDecides` | leveldb/db/version_edit.cc:119-201 | whatever decodes starts with the tag of its kind; with any other tag nothing does |
| `VersionEdits.ParseEncoded` | leveldb/db/version_edit.cc:106-204 | a list of encoded fields is read back field by field to its end |
| `VersionEdits.EncodeTo` | leveldb/db/version_edit.cc:42-85 | the bytes encode fields that build the edit, whatever order the deleted files come in |
| `VersionEdits.DecodeFrom` | leveldb/db/version_edit.cc:106-204 | succeeds if and only if every field decodes, and builds the edit from the fields before the first that does not |
| `VersionEdits.RoundTrip` | leveldb/db/version_edit.cc:42-204 | decoding an encoded edit gives it back |
| `Descriptors.FilledSaysTheSame` | leveldb/db/version_set.cc:777-790 | what an edit says of every level is what its record says, and number, size, smallest and largest key in the record are those of the table file |
| `Descriptors.Encoded` | leveldb/db/version_edit.cc:42-85 | the bytes of an edit decode to it |
| `Descriptors.ParsedFits` | leveldb/db/version_edit.cc:106-204 | whatever bytes decode to can be encoded again: levels exist, numbers are in range, keys are not empty |
| `Descriptors.Recover` | leveldb/db/version_set.cc:889-983 | for any records: the first bad one, another comparator, or a missing number gives the matching error; else the latest numbers and the replay of all decoded edits |
| `Descriptors.ListsOneMore` | leveldb/db/version_set.cc:777-859 | one more record makes the descriptor stand for the version saved after its edit |
| `Descriptors.SnapshotLists` | leveldb/db/version_set.cc:1069-1097 | a snapshot record alone stands for the version that it was taken of |
| `Descriptors.ListsReplay` | leveldb/db/version_set.cc:861-977 | decoding every record and replaying gives what saving after each edit gave |
| `Descriptors.ReflectedRecovers` | leveldb/db/version_set.cc:861-977 | recovery from such records opens, with that version and the numbers last recorded |
| `Descriptors.ReflectedFits` | leveldb/db/version_set.cc:861-977 | the recovered version is in order, consists of table files and can be recorded again |
| `Descriptors.ListFiles` | leveldb/db/version_set.cc:1086-1093 | every file of every level, in order |
| `Descriptors.FilledReflects` | leveldb/db/version_set.cc:777-859 | the record of an edit makes the descriptor stand for the version after it, with all four numbers |
| `Descriptors.VersionSet.WriteSnapshot` | leveldb/db/version_set.cc:1069-1097 | starts a descriptor that stands for the current version |
| `Descriptors.VersionSet.LogAndApply` | leveldb/db/version_set.cc:777-859 | fills in the numbers, writes and syncs the record, after a snapshot if there is no descriptor yet, and installs the version; the bytes then stand for exactly this state |
| `Descriptors.VersionSet.ReadBack` | leveldb/db/version_set.cc:861-977 | reading the bytes of the descriptor at any time recovers the version in use and the numbers last recorded, the next file number raised by one |
| `Descriptors.VersionSet.Reopen` | leveldb/db/version_set.cc:861-977 | a version set opened from it is again one that can record edits |
| `Descriptors.RecoverCut` | leveldb/db/version_set.cc:816-833 | cut anywhere in its last record, a descriptor recovers to the state before the edit, and to the one after it only if no byte is missing |
| `DbIterator.DBIter.FindNextUserEntry` | leveldb/db/db_iter.cc:177-207 | stops at the first live entry from the given place on, hidden and too-new entries skipped |
| `DbIterator.DBIter.FindPrevUserEntry` | leveldb/db/db_iter.cc:236-276 | stops at the last live entry before the given place, with the inner iterator just before its key if and only if no entry there is too new |
| `DbIterator.DBIter.Next` | leveldb/db/db_iter.cc:141-175 | the next live entry, also after going backward |
| `DbIterator.DBIter.Prev` | leveldb/db/db_iter.cc:209-234 | the previous live entry, also after going forward, with the same position of the inner iterator |
| `DbIterator.DBIter.Seek` | leveldb/db/db_iter.cc:278-290 | the first live entry whose user key is at or after the target |
| `DbIterator.DBIter.SeekToFirst` | leveldb/db/db_iter.cc:292-301 | the first live entry |
| `DbIterator.DBIter.SeekToLast` | leveldb/db/db_iter.cc:303-308 | the last live entry, with the same position of the inner iterator |
| `DbIterator.DBIter.ReverseStands` | leveldb/db/db_iter.cc:41-46 | going backward, the inner iterator stands just before all entries of the key if and only if there is none before them or that one is not too new |
| `DbIterator.ReverseStandsFurther` | leveldb/db/db_iter.cc:41-46 | two entries after which it stands further back |
| `DbIterator.LiveIsRead` | leveldb/db/db_iter.cc:141-308 | the live entries are exactly the keys, with their values, that a read at the snapshot finds |
| `DbIterator.LiveAscends` | leveldb/db/db_iter.cc:141-308 | each user key is shown once, in order |
| `DbIterator.PrevUndoesNext` | leveldb/db/db_iter.cc:141-234 | going forward and back returns to the same entry |
| `MergingIterators.FindSmallest` | leveldb/table/merger.cc:148-161 | the child with the smallest key, or none if all are exhausted |
| `MergingIterators.FindLargest` | leveldb/table/merger.cc:163-176 | the child with the largest key, or none if all are exhausted |
| `MergingIterators.MergingIterator.SeekToFirst` | leveldb/table/merger.cc:31-37 | the first entry of the union |
| `MergingIterators.MergingIterator.SeekToLast` | leveldb/table/merger.cc:39-45 | the last entry of the union |
| `MergingIterators.MergingIterator.Seek` | leveldb/table/merger.cc:47-53 | the first entry of the union at or after the target |
| `MergingIterators.MergingIterator.Next` | leveldb/table/merger.cc:55-79 | the next entry of the union, also after going backward |
| `MergingIterators.MergingIterator.Prev` | leveldb/table/merger.cc:81-108 | the entry before in the union, also after going forward |
| `MergingIterators.RankOnto` | leveldb/table/merger.cc:31-108 | every entry of the union is shown by some child |
| `MergingIterators.UnionExists` | leveldb/table/merger.cc:31-108 | children with distinct keys have a sorted union, so the cursor laws hold for all of them |
| `TwoLevelIterators.TwoLevelIterator.InitDataBlock` | leveldb/table/two_level_iterator.cc:146-161 | the open block is the one that the index names, and none past the end |
| `TwoLevelIterators.TwoLevelIterator.SkipEmptyDataBlocksForward` | leveldb/table/two_level_iterator.cc:115-126 | goes on to the next entry of the concatenation, over any number of empty blocks |
| `TwoLevelIterators.TwoLevelIterator.SkipEmptyDataBlocksBackward` | leveldb/table/two_level_iterator.cc:128-139 | goes back to the entry before, over any number of empty blocks |
| `TwoLevelIterators.TwoLevelIterator.Seek` | leveldb/table/two_level_iterator.cc:82-87 | the first entry of the concatenation at or after the target |
| `TwoLevelIterators.TwoLevelIterator.SeekToFirst` | leveldb/table/two_level_iterator.cc:89-94 | the first entry of the concatenation |
| `TwoLevelIterators.TwoLevelIterator.SeekToLast` | leveldb/table/two_level_iterator.cc:96-101 | the last entry of the concatenation |
| `TwoLevelIterators.TwoLevelIterator.Next` | leveldb/table/two_level_iterator.cc:103-107 | one entry forward |
| `TwoLevelIterators.TwoLevelIterator.Prev` | leveldb/table/two_level_iterator.cc:109-113 | one entry back |
| `TwoLevelIterators.SeekLands` | leveldb/table/two_level_iterator.cc:82-87 | seeking the index and then the block it names finds the place in the whole run |
| `TwoLevelIterators.FlattenSorted` | leveldb/table/two_level_iterator.cc:82-139 | blocks separated by an ordered index form one sorted run |
| `Iteration.LevelIsSeparated` | leveldb/db/version_set.cc:163-227 | a level above 0, indexed by each file's largest key, suits the two-level iterator |
| `Iteration.ChildrenHoldEverything` | leveldb/db/db_impl.cc:1123-1148 | the children of the internal iterator share no key and together hold every entry of the store |
| `Iteration.IteratorShowsHistory` | leveldb/db/db_impl.cc:1208-1218 | in every state of every run, at every live snapshot, the iterator shows exactly the keys and values of the history |
| `Iteration.IteratorShowsWrites` | leveldb/db/db_impl.cc:1208-1218 | the iterator shows a key with a value exactly when the writes of the run up to the snapshot left that value in it |
| `Coding.Fixed32RoundTrip` | leveldb/util/coding.h:54-89 | a 32-bit number decodes to itself, whatever follows it |
| `Coding.Fixed64RoundTrip` | leveldb/util/coding.h:64-103 | a 64-bit number decodes to itself, whatever follows it |
| `Coding.FixedBytes` | leveldb/util/coding.h:54-103 | byte i of a fixed-width number is its i-th digit to the base 256, from the low end |
| `Coding.VarintRoundTrip` | leveldb/util/coding.cc:21-102 | a number that fits in the allowed groups decodes to itself and leaves what follows |
| `Coding.VarintExactly` | leveldb/util/coding.cc:86-131 | any bytes decode exactly when a last group comes soon enough, to the number that the groups up to it give |
| `Coding.GetVarintRoundTrip` | leveldb/util/coding.cc:86-143 | the 32-bit and the 64-bit decoders agree with the encoder on all of their numbers |
| `Coding.VarintBytes` | leveldb/util/coding.cc:21-84 | byte i of a varint carries its i-th digit to the base 128, the top bit says that more follow, and no varint is longer than needed |
| `Coding.LengthPrefixedRoundTrip` | leveldb/util/coding.cc:145-154 | a length-prefixed string is read back and what follows it is left |
| `Coding.UnmaskMask` | leveldb/util/crc32c.h:29-38 | unmasking undoes masking, with 32-bit wrap-around |
| `Coding.MaskRotates` | leveldb/util/crc32c.h:29-38 | a stored checksum, less the constant and turned left by 15 bits, is the checksum, and no other number is |
| `LogFormat.Writer.AddRecord` | leveldb/db/log_writer.cc:34-80 | appends the encoding of the record for the place where the file ends, and the fragmentation loop ends, also for empty records |
| `LogFormat.Writer.EmitPhysicalRecord` | leveldb/db/log_writer.cc:82-108 | appends one header with checksum, length and type, and its payload, inside the block |
| `LogFormat.Reader.ReadPhysicalRecord` | leveldb/db/log_reader.cc:189-271 | with its buffer and refills it reads what stands at its place in the file: a piece, the end, or a reported drop |
| `LogFormat.Reader.ReadRecord` | leveldb/db/log_reader.cc:56-174 | reassembles pieces, with every drop reported, as the record function on the bytes of the file says |
| `LogProofs.PieceReads` | leveldb/db/log_reader.cc:217-271 | a piece that is wholly in the file reads back as written |
| `LogProofs.CutPieceReads` | leveldb/db/log_reader.cc:217-233 | a piece cut off by the end of the file reads as the end, not as corruption |
| `LogProofs.TrailerSkipped` | leveldb/db/log_reader.cc:189-214 | the unused end of a block is skipped |
| `LogProofs.RecordReads` | leveldb/db/log_reader.cc:56-174 | where a record was written, a cut file yields the whole record if it holds its last byte, and else the end |
| `LogProofs.NextReads` | leveldb/db/log_reader.cc:56-174 | the same for the k-th record of a whole log |
| `LogProofs.WriteAll` | leveldb/db/log_writer.cc:34-80 | writing records one after another gives the log of these records |
| `LogProofs.ReadAll` | leveldb/db/log_reader.cc:56-174 | from any byte prefix of a log the reader gets exactly the records that end in it, in order, and reports nothing |
| `LogProofs.CorruptIsDropped` | leveldb/db/log_reader.cc:243-257 | in any bytes, a whole piece whose stored checksum is not that of its type and payload hands nothing on; the rest of the buffer is reported as dropped and reading goes on behind it |
| `LogProofs.CorruptReadOn` | leveldb/db/log_reader.cc:153-160 | a record under assembly is given up and reported with it |
| `LogProofs.OtherHeaders` | leveldb/db/log_reader.cc:217-240 | a length past the buffer is a reported loss in a whole block and an unfinished write at the end of the file; a header of zeros is skipped in silence |
| `LogProofs.PieceAccepted` | leveldb/db/log_reader.cc:75-142 | a good piece continues the open record exactly if it belongs to it; what does not belong together is dropped and reported with its size |
| `LogProofs.HandedOnIsGood` | leveldb/db/log_reader.cc:189-271 | whatever the bytes, a piece that is handed on has the checksum of its type and payload |
| `LogProofs.ReturnedIsChecked` | leveldb/db/log_reader.cc:56-174 | every record that is returned, from any bytes, is one whole piece or a first one, middle ones and a last one, in order and each with a matching checksum |
| `LogProofs.LostBitIsDropped` | leveldb/db/log_reader.cc:243-257 | a record with one changed byte, which is reported and not found |
| `LogProofs.HighTypeReads` | leveldb/db/log_reader.cc:236-271 | a good piece of a type above 4 is handed on under its type, whatever that is |
| `LogProofs.HighTypeReported` | leveldb/db/log_reader.cc:144-171 | it is reported if and only if its type is neither 5 nor 6, or is 6 while a fragmented record is open |
| `LogProofs.HighTypeReadOn` | leveldb/db/log_reader.cc:144-171 | type 5 ends reading, type 6 outside a record is skipped, any other gives up the open record |
| `LogProofs.EmittedIsGood` | leveldb/db/log_writer.cc:82-108 | what the writer emits, with any type, is a good piece |
| `LogProofs.TypeFiveHidesRecord` | leveldb/db/log_reader.h:64-73 | a file with a good piece of type 5 before a whole record, of which nothing is read or reported |
| `LogProofs.ReadFromCut` | leveldb/db/log_reader.cc:56-174 | the same, as a function of the bytes: a front of the records, up to the first that does not end in the file |
| `SkipLists.StoreKeepsLinked` | leveldb/db/skiplist.h:334-366 | after every single store of an insert each level is still a sorted sublist of the level below |
| `SkipLists.RunKeeps` | leveldb/db/skiplist.h:258-366 | any interleaving of stores and of one search's loads keeps the list linked and the search on course |
| `SkipLists.SearchIsExact` | leveldb/db/skiplist.h:258-320 | a search that runs beside inserts returns the exact answer for the keys linked at its last load, which include all that were there when it began |
| `SkipLists.SearchEnds` | leveldb/db/skiplist.h:258-320 | from wherever it stands, a search that is left alone makes its loads to the end |
| `SkipLists.NothingSkipped` | leveldb/db/skiplist.h:258-279 | it never passes over a key that was present when it began |
| `SkipLists.LevelVisits` | leveldb/db/skiplist.h:205-208 | following the pointers of a level visits exactly its keys, in order |
| `SkipLists.SkipList.FindGreaterOrEqual` | leveldb/db/skiplist.h:258-279 | the least key at or after the target, and for each level the last node before it |
| `SkipLists.SkipList.FindLessThan` | leveldb/db/skiplist.h:281-300 | the last node before the key |
| `SkipLists.SkipList.FindLast` | leveldb/db/skiplist.h:302-320 | the last node |
| `SkipLists.SkipList.Contains` | leveldb/db/skiplist.h:368-376 | true if and only if the key is in the list |
| `SkipLists.SkipList.Insert` | leveldb/db/skiplist.h:334-366 | adds the key to exactly its first levels, by stores that the interleaving theorem covers |
| `HandleTables.HandleTable.FindPointer` | leveldb/util/cache.cc:115-121 | the place of the entry with this key and hash, or the end of its chain if there is none |
| `HandleTables.HandleTable.Lookup` | leveldb/util/cache.cc:75-77 | agrees with a plain map |
| `HandleTables.HandleTable.Insert` | leveldb/util/cache.cc:79-93 | updates the map and returns the entry replaced; grows only when entries outnumber buckets |
| `HandleTables.HandleTable.Remove` | leveldb/util/cache.cc:95-103 | removes from the map and returns the entry removed |
| `HandleTables.HandleTable.Resize` | leveldb/util/cache.cc:123-147 | the same map in the smallest power of two of buckets, from 4 on, that is not below the number of entries |
| `HandleTables.PowerExactly` | leveldb/util/cache.cc:123-127 | a bucket count is one the table may have exactly when it is two to some power |
| `HandleTables.Rehash` | leveldb/util/cache.cc:128-143 | every entry arrives in the bucket of its hash and none is lost |
| `LRUCaches.LRUCache.Ref` | leveldb/util/cache.cc:218-224 | one more handle; an unheld cached entry leaves the lru list |
| `LRUCaches.LRUCache.Unref` | leveldb/util/cache.cc:226-238 | one reference less; the last one calls the deleter, and the last client's puts a cached entry at the newest end of the lru list |
| `LRUCaches.LRUCache.FinishErase` | leveldb/util/cache.cc:308-317 | the entry leaves the cache and its charge is taken off; it is deleted at once only if no client holds it |
| `LRUCaches.LRUCache.Lookup` | leveldb/util/cache.cc:253-260 | the entry of the map, with a handle for the client |
| `LRUCaches.LRUCache.Release` | leveldb/util/cache.cc:262-265 | the handle is given back; the deleter runs exactly when it was the last one of an entry out of the cache |
| `LRUCaches.LRUCache.Insert` | leveldb/util/cache.cc:267-304 | a new held entry replaces the one with its key; the oldest unheld entries, no more than needed, are evicted; usage ends within the capacity or nothing unheld is left; deleters run for the replaced entry if unheld and then for the evicted ones, in order |
| `LRUCaches.LRUCache.Erase` | leveldb/util/cache.cc:319-322 | the key leaves map and cache; its deleter runs exactly if no client holds it |
| `LRUCaches.LRUCache.Prune` | leveldb/util/cache.cc:324-334 | exactly the unheld entries are removed and deleted, oldest first |
| `LRUCaches.LRUCache.Promises` | leveldb/util/cache.cc:24-39 | between any two calls cached entries are on exactly one list with the matching count, usage is the sum of charges, and each entry made is deleted once or still cached or held |
| `LRUCaches.LRUCache.Destroy` | leveldb/util/cache.cc:206-216 | at the end every entry ever made has been deleted, except those that clients hold outside the cache |
| `RecoveryProofs.AddKeepsGood` | leveldb/db/db_impl.cc:1275-1276 | appending a batch to the log keeps the recovery invariant |
| `RecoveryProofs.SyncKeepsGood` | leveldb/db/db_impl.cc:1277-1283 | syncing keeps it |
| `RecoveryProofs.FinishKeepsGood` | leveldb/db/db_impl.cc:1284-1309 | acknowledging keeps it: what is acknowledged with sync is in the tables or in the synced part of a log |
| `RecoveryProofs.SwitchKeepsGood` | leveldb/db/db_impl.cc:1406-1428 | starting a new log and memtable keeps it |
| `RecoveryProofs.FlushEditKeepsGood` | leveldb/db/db_impl.cc:568-599 | writing the edit of a flush keeps it, whether or not the edit gets committed |
| `RecoveryProofs.CompactEditKeepsGood` | leveldb/db/db_impl.cc:895-911 | writing the edit of a compaction keeps it |
| `RecoveryProofs.CommitKeepsGood` | leveldb/db/version_set.cc:777-859 | committing the edit keeps it |
| `RecoveryProofs.RemoveKeepsGood` | leveldb/db/db_impl.cc:229-284 | removing a log older than the committed log number keeps it |
| `RecoveryProofs.CrashKeepsGood` | leveldb/db/db_impl.cc:311-402 | a crash that cuts every log anywhere at or after its last sync, with either descriptor, and recovery keep it |
| `RecoveryProofs.RunKeepsGood` | leveldb/db/db_impl.cc:311-402 | it holds in every state of every run |
| `RecoveryProofs.AcknowledgedSurvive` | leveldb/db/db_impl.cc:311-402 | after a crash in any run each key reads as its last sync-acknowledged write or a newer one, and LastSequence is at or above everything recovered |
| `RecoveryProofs.SyncedWriteSurvives` | leveldb/db/db_impl.cc:1266-1288 | a group that a sync write has finished with: after any later crash in the run each of its keys reads as what was written or as something newer |
| `RecoveryProofs.WriteGoesThrough` | leveldb/db/db_impl.cc:1262-1309 | from any state without a write under way a sync write can be logged, synced and finished, and its entries are then in memory and durable |
| `RecoveryProofs.FlushGoesThrough` | leveldb/db/db_impl.cc:568-604 | a full memtable becomes a table that the descriptor names, after which its log can go |
| `RecoveryProofs.EveryCrashOpens` | leveldb/db/db_impl.cc:311-402 | whatever a crash leaves can be opened, for each descriptor that may be found and each way the logs may be cut, and what was acknowledged is there |
| `RecoveryProofs.RecoverLogFile` | leveldb/db/db_impl.cc:404-522 | the tables written hold exactly the log's entries, oldest first and none empty, and the maximum sequence number is that over all records, those without updates included |
| `RecoveryProofs.LogsToReplay` | leveldb/db/db_impl.cc:356-383 | exactly the logs that the descriptor needs, in the order in which they were made |
| `RecoveryProofs.Recover` | leveldb/db/db_impl.cc:311-402 | replaying them recovers exactly their entries, and LastSequence is the maximum of the descriptor's and of all their records |
| `RecoveryProofs.EmptyGroupCounts` | leveldb/db/db_impl.cc:459-470 | an empty record alone recovers nothing and still sets LastSequence |
| `RecoveryLinks.DropKeepsAnswers` | leveldb/db/db_impl.cc:979-1006 | a value answers a read before dropping if and only if it does after |
| `RecoveryLinks.InstallSameReads` | leveldb/db/db_impl.cc:895-911 | installing a compaction keeps every read of the table files, from the last sequence number on |
| `RecoveryLinks.CompactEditFollows` | leveldb/db/db_impl.cc:895-911 | so the edit of an installed compaction is a step of the recovery machine |
| `RecoveryLinks.MoveEditFollows` | leveldb/db/db_impl.cc:751-766 | so is the edit of a moved file |
| `RecoveryLinks.FlushEditFollows` | leveldb/db/db_impl.cc:568-599 | so is the edit of a flush |
| `RecoveryLinks.CutLogReads` | leveldb/db/log_reader.cc:56-174 | any byte prefix of a log that holds what was synced is read as a front of its records, no shorter than the synced ones |
| `RecoveryLinks.BytesCutIsRecordCut` | leveldb/db/db_impl.cc:311-402 | a crash that cuts the bytes of every log is one of the crashes that recovery is proved for |
| `RecoveryLinks.BuildBatch` | leveldb/db/write_batch.cc:42-148 | the batch that is logged for a group is its first number, its count and its updates, in this encoding |
| `RecoveryLinks.BatchDecodes` | leveldb/db/write_batch.cc:42-148 | these bytes decode to the number, the count and the updates |
| `RecoveryLinks.InsertInto` | leveldb/db/write_batch.cc:115-138 | a Put inserts a value and a Delete a deletion, each under the next number from the batch's sequence on |
| `RecoveryLinks.LoggedIsRestored` | leveldb/db/db_impl.cc:451-467 | inserting what the logged bytes parse to gives exactly the entries that were logged |
| `RecoveryLinks.BatchesCut` | leveldb/db/db_impl.cc:404-470 | logs of batches, cut anywhere in their bytes, are read as batches, and inserting each of them gives exactly a group of a crash that recovery is proved for |
| `Restart.FillHistory` | leveldb/db/db_impl.cc:311-402 | entries with different numbers are the writes of a history, with unseen deletions under the numbers that were lost |
| `Restart.TablesStart` | leveldb/db/db_impl.cc:311-402 | tables in order, with different sequence numbers, are those of a store from which a run starts |
| `Restart.AddRecovered` | leveldb/db/db_impl.cc:404-522 | the edit that adds all tables made from the logs at level 0 leaves the version in order |
| `Restart.AddedInOrder` | leveldb/db/db_impl.cc:524-566 | newer tables, added at level 0 at once and numbered by age, keep every level and the order between levels |
| `Restart.ReplayedAreNew` | leveldb/db/db_impl.cc:311-402 | what recovery makes from the logs is newer than every table of the descriptor that was found |
| `Restart.RecoveredStarts` | leveldb/db/db_impl.cc:311-402 | after any crash the recovered store starts a run: it holds what the recovery machine says and its history ends at LastSequence |
| `WriteBatches.UpdateRoundTrip` | leveldb/db/write_batch.cc:42-109 | an encoded update decodes to itself, whatever follows it |
| `WriteBatches.TagByte` | leveldb/db/write_batch.cc:98-109 | the first byte of an update tells a value from a deletion |
| `WriteBatches.TagDecides` | leveldb/db/write_batch.cc:51-74 | whatever decodes starts with one of the two tags, and the tag tells which update it is |
| `WriteBatches.ParseEncoded` | leveldb/db/write_batch.cc:42-80 | a list of encoded updates is read back to its end |
| `WriteBatches.WriteBatch.AddPut` | leveldb/db/write_batch.cc:98-103 | the batch holds one more update, its count agrees, and its sequence number stays |
| `WriteBatches.WriteBatch.AddDelete` | leveldb/db/write_batch.cc:105-109 | the same for a deletion |
| `WriteBatches.WriteBatch.Append` | leveldb/db/write_batch.cc:144-148 | the other batch's updates follow, also when it is this batch itself |
| `WriteBatches.WriteBatch.SetSequence` | leveldb/db/write_batch.cc:90-96 | the number is read back and the updates stay |
| `WriteBatches.WriteBatch.Iterate` | leveldb/db/write_batch.cc:42-80 | hands over the updates before the first that does not decode, for any bytes; succeeds if and only if all decode and their number is the count |
| `WriteBatches.WriteBatch.WellFormed` | leveldb/db/write_batch.cc:42-148 | a batch built by its operations is read back whole |
| `GroupCommit.BuildBatchGroup` | leveldb/db/db_impl.cc:1321-1367 | the longest front of the queue that the size limit and the sync rule allow, writers without a batch included, and its updates in order |
| `GroupCommit.NoSyncUnderNonSync` | leveldb/db/db_impl.cc:1341-1346 | a sync writer is never grouped under a leader that does not sync |
| `GroupCommit.TakenInExactly` | leveldb/db/db_impl.cc:1341-1366 | a writer is taken into a group if and only if neither it nor one between it and the leader blocks |
| `GroupCommit.SizeIs` | leveldb/db/db_impl.cc:1329-1353 | the size that is added up is that of all updates and 12 bytes for each batch |
| `GroupCommit.TakenInBySize` | leveldb/db/db_impl.cc:1329-1366 | a follower is taken in if and only if, up to it, sync writers stand behind a sync leader and the bytes stay within the leader's and 128 KiB, or within 1 MiB behind a leader of more than 128 KiB |
| `GroupCommit.WriteQueue.Join` | leveldb/db/db_impl.cc:1246-1256 | a writer joins at the end of the queue |
| `GroupCommit.WriteQueue.Lead` | leveldb/db/db_impl.cc:1262-1266 | the front writer takes a group, or leaves alone when there is no room or nothing to write; only a front writer without a batch forces a memtable switch |
| `GroupCommit.WriteQueue.WriteLog` | leveldb/db/db_impl.cc:1267-1283 | one record with the group's first sequence number and updates, synced exactly if the leader asks |
| `GroupCommit.WriteQueue.InsertNext` | leveldb/db/db_impl.cc:1284-1286 | one update enters the memtable while readers still do not see it |
| `GroupCommit.WriteQueue.Finish` | leveldb/db/db_impl.cc:1297-1309 | LastSequence moves past the whole group and exactly its writers leave, in order |
| `GroupCommit.WriteQueue.Commit` | leveldb/db/db_impl.cc:1262-1309 | all that a leader does, in one: its writers have finished, as members of the group |
| `GroupCommit.WriteQueue.TakenInNeverSwitches` | leveldb/db/db_impl.cc:1259-1262 | a writer that was taken in has forced no memtable switch |
| `GroupCommit.SwitchNotMade` | leveldb/db/db_impl.cc:657-672 | a batch and a writer that is to force a switch, after which both have finished and nothing was switched |
| `GroupCommit.WriteQueue.FirstInFirstOut` | leveldb/db/db_impl.cc:1246-1317 | writers finish in the order in which they came, each once |
| `GroupCommit.WriteQueue.RangesInOrder` | leveldb/db/db_impl.cc:1263-1268 | written batches get disjoint ranges of sequence numbers, in queue order and without gaps |
| `GroupCommit.WriteQueue.AllOrNothing` | leveldb/db/db_impl.cc:1246-1317 | a reader at LastSequence sees every finished batch whole and nothing of a group in progress |
| `Blocks.BlockBuilder.Add` | leveldb/table/block_builder.cc:71-105 | the block holds one more entry, with restart points at the interval and only shared bytes left out |
| `Blocks.BlockBuilder.Finish` | leveldb/table/block_builder.cc:61-69 | the entries' bytes, the restart offsets and their number |
| `Blocks.BlockBuilder.LaidOut` | leveldb/table/block_builder.cc:71-105 | the restart points are exactly those of the interval, as a function of the entries alone |
| `BlockIterators.DecodeEntry` | leveldb/table/block.cc:55-75 | for any bytes the fast path for short lengths agrees with decoding three varints; fails exactly when the 32-bit sum of the lengths exceeds what is left |
| `BlockIterators.AcceptedFits` | leveldb/table/block.cc:71-73 | an accepted entry fits if and only if the true sum of its lengths is below 2^32 |
| `BlockIterators.FittingAccepted` | leveldb/table/block.cc:71-73 | every entry that fits is accepted |
| `BlockIterators.WrappedAccepted` | leveldb/table/block.cc:71-73 | an entry of lengths 2^32 - 1 and 1 with no bytes behind it, which is accepted |
| `BlockIterators.EntryDecodes` | leveldb/table/block.cc:55-75 | the bytes at an entry's offset decode to its lengths, its key's rest and its value |
| `BlockIterators.RestartReads` | leveldb/table/block.cc:100-103 | the restart array gives the offset of each restart point |
| `BlockIterators.Iter.constructor` | leveldb/table/block.cc:116-125 | opens a built block, before any entry |
| `BlockIterators.Iter.ParseNextKey` | leveldb/table/block.cc:250-276 | rebuilds the next entry from the previous key, or stops at the end |
| `BlockIterators.Iter.Next` | leveldb/table/block.cc:138-141 | one entry forward; the restart index is then right if and only if the entry is no restart point |
| `BlockIterators.Iter.Prev` | leveldb/table/block.cc:143-162 | one entry back, by scanning from the last restart point before it, with the right restart index |
| `BlockIterators.Iter.Seek` | leveldb/table/block.cc:164-227 | the first key at or after the target, from any earlier position and with the shortcut that skips the restart seek; the restart index is right if and only if the scan does not end on a later restart point |
| `BlockIterators.Iter.LastRestartBelow` | leveldb/table/block.cc:187-208 | binary search finds the last restart point, within the bounds, whose key is before the target |
| `BlockIterators.Iter.SeekToFirst` | leveldb/table/block.cc:229-232 | the first entry, with the right restart index |
| `BlockIterators.Iter.SeekToLast` | leveldb/table/block.cc:234-239 | the last entry, with the right restart index |
| `BlockIterators.Iter.RestartIndexExactly` | leveldb/table/block.cc:84-86 | the restart index is that of the current entry's block if and only if the entry does not stand at the restart point after it |
| `BlockIterators.Iter.OwnBlockUnlessRestart` | leveldb/table/block.cc:250-276 | past the point of its index it is wrong exactly at restart points |
| `BlockIterators.RestartIndexLags` | leveldb/table/block.cc:250-276 | two entries with interval 1, where it is wrong after SeekToFirst and Next |
| `BlockIterators.Build` | leveldb/table/block_builder.cc:40-105 | for every entry list and restart interval whose block stays below 4 GiB, a block of exactly these entries, with exactly these restart points |
| `BlockIterators.RoundTrip` | leveldb/table/block.cc:138-276 | building a block and walking through it gives the entries back |
| `Comparators.Transitive` | leveldb/util/comparator.cc:27-29 | bytewise order is transitive |
| `Comparators.Total` | leveldb/util/comparator.cc:27-29 | bytewise order is total |
| `Comparators.LessExactly` | leveldb/include/leveldb/slice.h:100-110 | a string comes before another if and only if it is a proper prefix of it or is smaller at their first difference |
| `Comparators.FindShortestSeparator` | leveldb/util/comparator.cc:31-52 | a key from start on and, if start is before limit, before limit; cut and bumped exactly where the first difference allows it |
| `Comparators.FindShortSuccessor` | leveldb/util/comparator.cc:54-66 | a key at or after the given one, cut at its first byte below 255 |
| `Comparators.KeyOrder` | leveldb/db/dbformat.cc:47-63 | internal keys are strictly and totally ordered |
| `Comparators.InternalSeparator` | leveldb/db/dbformat.cc:65-82 | an internal key between start and limit; changed only to a shorter, later user part, which belongs to no user key from limit on, and changed whenever the first difference allows it |
| `Comparators.InternalSuccessor` | leveldb/db/dbformat.cc:84-97 | an internal key at or after the given one, shortened exactly when that makes its user part shorter and later |
| `BloomFilters.BloomFilterPolicy.CreateFilter` | leveldb/util/bloom.cc:28-54 | a filter of the promised size in which exactly the bits that the keys' probes hit are set |
| `BloomFilters.BloomFilterPolicy.KeyMayMatch` | leveldb/util/bloom.cc:56-80 | true if and only if all probes of the key are set; short filters never match and unknown encodings always do |
| `BloomFilters.DeltaRotates` | leveldb/util/bloom.cc:44-52 | the step of the double hashing is the hash turned right by 17 bits |
| `BloomFilters.MatchExactly` | leveldb/util/bloom.cc:28-80 | a filter made for some keys matches a key if and only if each of its probes, computed from the hashes alone, falls on one of theirs |
| `FilterBlocks.FilterBlockBuilder.AddKey` | leveldb/table/filter_block.cc:29-33 | one more key waits for the next filter |
| `FilterBlocks.FilterBlockBuilder.StartBlock` | leveldb/table/filter_block.cc:21-27 | afterwards the next filter is that of the block's offset; waiting keys went to the filter that was next before |
| `FilterBlocks.FilterBlockBuilder.GenerateFilter` | leveldb/table/filter_block.cc:51-75 | a filter that admits every waiting key, cut out of the flattened keys; no bytes when none waits |
| `FilterBlocks.FilterBlockBuilder.Finish` | leveldb/table/filter_block.cc:35-49 | every key added is in some filter; filters, offsets, the place of the offsets and the base are written |
| `FilterBlocks.FilterBlockReader.constructor` | leveldb/table/filter_block.cc:77-88 | finds filters and offsets in what the builder wrote, and no filters in contents that are too short or inconsistent |
| `FilterBlocks.FilterBlockReader.KeyMayMatch` | leveldb/table/filter_block.cc:90-104 | for any block contents with a defined shift, consults the filter that the offset array bounds for this block, rejects on an empty one, and takes errors for possible matches |
| `FilterBlocks.FilterBlockReader.FindsFilter` | leveldb/table/filter_block.cc:90-104 | in what the builder wrote, that is the filter made for the offset |
| `Tables.TableBuilder.Add` | leveldb/table/table_builder.cc:94-123 | one more entry; index, filter and order stay right, with the separator of a finished block made from the new key |
| `Tables.TableBuilder.Flush` | leveldb/table/table_builder.cc:125-139 | closes the current block without changing the entries |
| `Tables.TableBuilder.Finish` | leveldb/table/table_builder.cc:213-253 | the table holds exactly the entries added, with an index that separates the blocks and a filter for each |
| `Tables.RoutedRight` | leveldb/table/table.cc:214-242 | the block that the shortened index keys route a lookup to is the only one that can answer it |
| `Tables.NotInBlock` | leveldb/table/table.cc:222-226 | a user key that is not in a block's filter is not in the block |
| `Tables.MayMatch` | leveldb/table/table.cc:222-226 | a key in the filter of an offset always passes |
| `Tables.InternalGet` | leveldb/table/table.cc:214-242 | with a filter or without, the lookup returns, of the entries of the user key that are not newer than asked for, the newest one in the whole table, and none of that user key if there is none |
| `BloomValues.BloomValue.Insert` | bloom_hierarchy/bloom_value.cpp:3-11 | the filter holds exactly the bits of the keys inserted so far and of this one |
| `BloomValues.BloomValue.Exists` | bloom_hierarchy/bloom_value.cpp:86-96 | true if and only if every bit of the key is set |
| `BloomValues.HeldIsAccepted` | bloom_hierarchy/bloom_value.cpp:86-96 | no false negatives |
| `BloomValues.AcceptsExactly` | bloom_hierarchy/bloom_value.cpp:86-96 | a filter rejects a key if and only if one of its three hashes falls together with none of the hashes of the keys held |
| `BloomValues.BloomValue.SaveToFile` | bloom_hierarchy/bloom_value.cpp:13-33 | the bit-packed file stores exactly the bits |
| `BloomValues.BloomValue.LoadFromFile` | bloom_hierarchy/bloom_value.cpp:35-63 | the bits of the file, those that it lacks read as zero |
| `BloomValues.RoundTrip` | bloom_hierarchy/bloom_value.cpp:13-63 | saving and loading gives the filter back |
| `BloomTrees.EndsExactly` | bloom_hierarchy/bloomTree.cpp:95-120 | the levels reach a single node if and only if the ratio is at least 3 or there are fewer leaves than the ratio |
| `BloomTrees.AddChildren` | bloom_hierarchy/node.cpp:3-11 | up to ratio nodes from the given place on |
| `BloomTrees.GroupNodes` | bloom_hierarchy/bloomTree.cpp:95-110 | the next level: every node in one group, in order, under a node whose filter is the OR of the group |
| `BloomTrees.CreateLevel` | bloom_hierarchy/bloomTree.cpp:95-120 | every leaf occurs once and in order under the root, each inner filter is the OR of the leaves below it, and every level groups the one below |
| `BloomTrees.BuiltIsOrOfChildren` | bloom_hierarchy/bloomTree.cpp:95-120 | in every tree built this way each node is a leaf or exactly the OR of its children |
| `BloomTrees.ChildlessHasNoBit` | bloom_hierarchy/bloomTree.cpp:95-120 | the inner node of an empty group has no bit set |
| `BloomTrees.BloomTree.CreateTree` | bloom_hierarchy/bloomTree.cpp:78-80 | the same for the leaves collected so far; every inner node, with children or without, is the OR of its children |
| `BloomTrees.BloomTree.CheckExistance` | bloom_hierarchy/bloomTree.cpp:15-20 | adds the found leaves to the names of earlier searches, and counts the inner nodes that accept |
| `BloomTrees.BloomTree.Check` | bloom_hierarchy/bloomTree.cpp:56-75 | the pruned walk below one node |
| `BloomTrees.BloomTree.CheckExistanceThread` | bloom_hierarchy/bloomTree.cpp:27-53 | the walk of a worker finds the same leaves and changes nothing |
| `BloomTrees.BloomTree.CheckMany` | bloom_hierarchy/dbOperation.cpp:349-380 | cut into chunks for any number of threads, every value is answered once and as a single search would |
| `BloomTrees.FoundIsReachable` | bloom_hierarchy/bloomTree.cpp:27-75 | the search returns, in order, exactly the leaves whose ancestors all accept the value |
| `BloomTrees.FindsIfOpen` | bloom_hierarchy/bloomTree.cpp:27-75 | the search finds something if and only if some leaf has only ancestors that accept |
| `BloomTrees.PassedIsOpen` | bloom_hierarchy/bloomTree.cpp:56-75 | the counter grows by the number of inner nodes that accept the value along with all above them |
| `BloomTrees.RejectedHasNoHits` | bloom_hierarchy/bloomTree.cpp:56-75 | below a node that rejects a value no leaf accepts it |
| `BloomTrees.HitsKept` | bloom_hierarchy/bloomTree.cpp:56-75 | pruning loses no leaf that accepts the value |
| `BloomTrees.MemoryHitsLost` | bloom_hierarchy/bloomTree.cpp:56-75 | leaves called "Memory" count as no files, and no hit is lost by that if and only if none of them accepts |
| `BloomTrees.MemoryLeafExactly` | bloom_hierarchy/bloomTree.cpp:56-75 | the search returns every accepting leaf if and only if no leaf called "Memory" accepts the value |
| `BloomTrees.MemoryLeafLost` | bloom_hierarchy/bloomTree.cpp:56-75 | a tree with one such leaf, where a value that it holds is not found |
| `BloomFlow.Flow.CreateBloomValue` | bloom_hierarchy/dbOperation.cpp:427-452 | afterwards every table has a filter file of exactly its values |
| `BloomFlow.Flow.RetrieveFromSStable` | bloom_hierarchy/dbOperation.cpp:174-187 | the number of records with the value |
| `BloomFlow.Flow.ScanningWithoutBloom` | bloom_hierarchy/dbOperation.cpp:189-212 | the number of records with the value in all tables |
| `BloomFlow.Flow.ScanningInBloomFiles` | bloom_hierarchy/dbOperation.cpp:215-239 | the number of accepting filters and the records behind them; a missing file leaves the result as it was |
| `BloomFlow.Flow.CreateLeafHierarchyLevel` | bloom_hierarchy/dbOperation.cpp:291-303 | one leaf for each listed filter file, in order, with the filter loaded from it |
| `BloomFlow.Flow.CheckInHierarchy` | bloom_hierarchy/dbOperation.cpp:395-424 | the scan of the files that the tree returns, and an untouched result when it returns none |
| `BloomFlow.SumPermuted` | bloom_hierarchy/dbOperation.cpp:146-164 | the order of a directory listing does not matter |
| `BloomFlow.SearchesAgree` | bloom_hierarchy/dbOperation.cpp:395-424 | summing over the files found by the tree gives the same as summing over all files |
| `BloomFlow.NoOccurrencesMissed` | bloom_hierarchy/dbOperation.cpp:215-239 | the records behind accepting filters are all records with the value |
| `BloomFlow.HoldersHit` | bloom_hierarchy/dbOperation.cpp:215-239 | every table that holds the value is among the hits |
| `BloomFlow.HitsCollide` | bloom_hierarchy/dbOperation.cpp:215-239 | the filters that hit are exactly those of the tables with whose values the value collides |
| `BloomFlow.SearchAgain` | bloom_hierarchy/dbOperation.cpp:395-424 | a search in a tree searched before gives the flat result plus that of the old names, so the same if and only if no filter among them accepts |
| `BloomFlow.SearchOnce` | bloom_hierarchy/dbOperation.cpp:395-424 | a first search gives the flat result if and only if some leaf has only ancestors that accept the value, or the result was zero before |
| `BloomFlow.SearchTwice` | bloom_hierarchy/bloomTree.cpp:15-20 | searching twice for a value counts every hit twice |
| `BloomFlow.SecondSearchDiffers` | bloom_hierarchy/bloomTree.cpp:15-20 | one table and one value, where the flat scan gives 1 and the second search 2 |
| `BloomFlow.SearchTree` | main.cpp:82-91 | the hierarchical half gives the result of the flat scan before it, also when no file is returned |
| `BloomFlow.MainFlow` | main.cpp:59-95 | with and without the hierarchy the same records are found, and these are all records with the value; the same filters hit, exactly as many as tables hold values with whose hashes the value's fall together |

## Left out

- Compacting.Compaction.DoCompactionWork: ShouldStopBefore and the size test are parameters, any two tests; I/O errors and shutdown in the loop are not modelled.
- Picking.SetupOtherInputs: does not return the new compaction pointer or the grandparents; the pointer is a parameter of NextToCompact.
- Versions.Get: searches memtables as sorted lists; the encoding of memtable entries in the skip list is not modelled.
- SkipLists.SkipList.Insert: keys are integers and the random height is a parameter.
- BlockIterators.Build: requires the block to stay below 4 GiB, because offsets are written in 32 bits.
- FilterBlocks.FilterBlockReader.KeyMayMatch: shifts by the last byte of the contents as a number; from 64 on C++ leaves the shift undefined, and nothing is said about the code there.
- Background.MergeInputs: takes every input file as a child of the merge, where the code joins the sorted level's files by a two-level iterator first.
- Background.BackgroundCompaction: a manual compaction that yields to a memtable flush, the range it goes on with, and failures of the work are not modelled.
- Manifest.LogAndApply: only the version; Descriptors.VersionSet.LogAndApply adds the record, the sync and the numbers.
- Manifest.RecoverVersion: takes decoded edits; Descriptors.Recover decodes them and reads the numbers.
- Descriptors.VersionSet.WriteSnapshot: compaction pointers are not recorded.
- RecoveryProofs.CompactEditKeepsGood: takes from the step that reads stay; RecoveryLinks.CompactEditFollows proves that of every install.
- Restart.RecoveredStarts: tables made from logs are given as files of these entries; sorting a memtable into a file is not modelled again.
- Descriptors.VersionSet.LogAndApply: compaction pointers are not recorded; a failed write or sync is modelled only as a crash, by RecoverCut; the CURRENT file and reuse of an old descriptor are not modelled.
- Descriptors.Recover: takes what the log reader hands over; the entries of a file come from the table file with its number.
- BlockIterators.Iter.Seek: blocks that the builder did not make, and so the corruption branches, are not modelled.
- Tables.InternalGet: reads blocks as entry lists at their offsets; block handles, compression, checksums, the footer, the metaindex and the block cache are not modelled.
- BloomFilters.BloomFilterPolicy.CreateFilter: takes the factor 0.69 as 69/100, because rounding is not the point.
- LogFormat.Reader.ReadRecord: starts at the beginning of the file; an initial offset above 0 and read errors of the file are not modelled.
- RecoveryProofs.Recover: assumes intact records and reuse_logs off; paranoid checks, repair, the log number of older releases and the test for missing tables are not modelled.
- GroupCommit.WriteQueue.Finish: log and memtable always accept the group; background errors and condition variables are not modelled.
- BloomTrees.BloomTree.CheckMany: answers stand for the scans that the worker threads make; the thread pool itself is not modelled.
- The sharded cache, the table cache and value destructors: each is a thin layer over the cache.
- Compaction scores, seek counts, write slow-down and read sampling: they decide when steps happen, not whether they are right.
- Env, file names, locks, options, statistics, C bindings, benchmarks, CSV output and directory listing: operating-system calls and presentation.
- bloom_valueWM: a copy of bloom_value that is not called.
