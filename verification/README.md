# StunDB: a verified model of its tree, log and indexes

StunDB (`bptree/`) keeps byte-string keys and values in B-trees of at most four keys a node, spreads
them over shards by hash, logs every change to a write-ahead log, and maintains secondary indexes
over the records. This project models those layers in Dafny and proves what each promises to the
one above.

- **Tree** (`Nodes`, `Weaving`, `Entries`, `Shapes`, `Repair`, `Deletion`, `Slots`, `Insertion`,
  `Searching`, `Scans`, `Sizes`, `Overwrites`, `Subtrees`, `Btrees`): real node objects, changed in
  place. A ghost tree labelled with the node objects says which nodes form the tree (`Matches`,
  `Distinct`), that it is balanced (`Balanced`), and what it holds from left to right (`InOrder`).
  Order is a property of that sequence alone; `Searchable` is what lookups need instead of it, and
  insertions keep. `Shapes` has the same tree and its operations as values: the mutable tree follows
  them on every input, whether its order still holds or not.
- **Shards** (`Routing`, `Forests`, `Sharded`, `Bulk`, `Tables`, `Resharding`): the sharded tree over
  those B-tree objects, as a list of shapes and as one map; the workers of `BulkInsert` as a step
  machine; the sharded tree as the layers above use it (`Table`: its shapes, a map that lookups show,
  and so the keys whose overwrite would be lost).
- **Log** (`Fixed`, `LogCodec`, `LogMachine`, `Archives`, `Wal`, `Replaying`, `Durable`, `DurableRuns`):
  the byte format and its scan, appending with its flush and sync steps and a crash at any byte after
  the synced part, the log object, rotation and checkpoints, what replaying means, the durable tree
  over a `Table`, and runs of its calls with a crash at any point.
- **Indexes** (`KeyLists`, `IndexSpec`, `IndexPlaces`, `IndexBases`, `IndexRanges`, `SecondaryIndexes`,
  `IndexLists`, `IndexMaps`, `IndexRecords`, `IndexColumns`, `IndexRebuild`, `IndexedTrees`, `IndexRuns`,
  `IndexLosses`, `IndexRace`, `IndexExposure`): the byte lists; one index and the whole indexed tree as
  values, shards included; the objects over `Table`s, which follow those values call by call; whole
  runs; and concurrent inserts as a step machine.

## Promises that do not hold, and exactly when they do

| promise | holds if and only if | stated by | fails on |
|---|---|---|---|
| `Insert` overwrites a present key | no inner node on the descent holds it; up to four keys none does, of five the middle one, above that some | `Btrees.Btree.Insert`, `Btrees.FewInside`, `Btrees.FiveInside`, `Btrees.RootKeyInside` | `Resharding.SameInsertsTwoShardCounts` |
| a reopened log can be appended to | its file ends at the end of an entry | `LogCodec.AppendAfterCut`, `LogMachine.ReopenedInv`, `LogMachine.CutTidy` | `LogCodec.TornMisreads` |
| a crashed log opens | it is empty or has the whole header | `LogMachine.OpenCut` | `LogMachine.HeaderTorn` |
| rotation keeps every entry, reopenings included | no rotation renames onto an archive with entries | `Archives.NothingLost`, `Archives.RotationKeeps` | `Archives.RotatingTwiceLoses`, `Archives.ReopeningLoses` |
| names of archives and numbers of entries go on increasing after a reopening | the current file has an entry, or no archive has a name above zero | `Archives.StepInv`, `Archives.RunInv` | `Archives.ReopeningLoses` |
| a damaged entry is not replayed | its bytes are not those of an entry with the checksum that is there | `LogCodec.ParseExactly`, `LogCodec.AlteredStops` | `LogCodec.BoundaryMoved` |
| `BulkInsert` of the durable tree is an atomic batch | it has at most one pair | `DurableRuns.BatchAtomic` | `DurableRuns.TornPair` |
| reopening after a checkpoint restores the live map, no write having been lost in either tree | every key held then is settled by a later entry | `Durable.Reopen` | `Replaying.CheckpointExample`, and without the proviso `Resharding.SettledYetDifferent` |
| indexed `Insert` keeps the indexes in step | in every index, no list that must be overwritten is lost, and, over a present key, the write of the record goes through and the old record has no key that the new one lacks, or is lost and the new record has no key that the old one lacks | `IndexedTrees.IndexedBTree.Insert`, `IndexSpec.InsertAgrees` | `IndexSpec.OverwriteExample`, `IndexLosses.SixthIsLost` |
| `Update` keeps the indexes in step | in every index: where old and new key compare equal they are equal or the record's write is lost; where they differ, the record's write and both list writes go through, or all three are tried and lost | `IndexedTrees.IndexedBTree.Update`, `IndexSpec.UpdateAgrees` | `IndexSpec.UpdateExample` |
| `Delete` keeps the indexes in step | no list that must be shortened has its key in an inner node | `IndexedTrees.IndexedBTree.Delete`, `IndexSpec.DeleteAgrees` | `IndexLosses.RemovedIsListed` |
| a stored record is found by a unique index | the index is in step | `IndexedTrees.IndexedBTree.FindByIndex` | `IndexLosses.OrphanedRecord` |
| `CreateIndex` gives an index in step | no stored record has a key in it | `IndexedTrees.IndexedBTree.CreateIndex`, `IndexSpec.EmptyAgrees` | `IndexLosses.CreatedOutOfStep` |
| concurrent inserts leave all indexes in step, on every schedule | no call is exposed to another: none comes to a unique index where it has the key of another call after an index where it has a key, when the other comes to that index before all their other common ones that the first passes earlier | `IndexExposure.RaceExactly` | `IndexExposure.CrossedLosesBoth` |

Reopening a log that was never truncated, with as many shards, always restores the live tree, lost
writes and all (`Durable.Reopen`). Into another number of shards it restores the map the log stands for
when no logged insertion meets its key in an inner node (`Replaying.KeptLog`); so for logs that never
overwrite and for logs that never leave more than four keys for a shard (`Durable.RecoverInto`).
`Resharding.SameInsertsTwoShardCounts` is a log whose replay differs between one shard and six.

## Where code and documentation disagree

The model follows the code.

- The documentation speaks of a B+ tree; values sit in inner nodes too, and leaves are not linked.
- `validateAndRecover` announces the truncation of a torn tail and does not truncate.
- `Checkpoint` is documented as safe once the tree is persisted; nothing in the package persists it.
- The comment on `CreateIndex` mentions a rebuild; it never rebuilds.
- `Checkpoint` notes that numbers are unique because the sequence is not reset; a log reopened after it begins again at zero.
- `BulkInsert` of the durable tree is called an atomic batch; a crash can recover part of the batch.

## Model

Each mutable structure has a value beside it, without objects: a tree its `Shapes.Shape`, a sharded tree its
`Forests.Forest`, an index its `IndexPlaces.Placed`, the indexed tree its `IndexBases.Base`. The operations
are functions on these values, and the rows below say of the methods that what becomes of the object is
what becomes of its value. A write is lost when later lookups do not show it. A tree is ordered when its
keys strictly increase from left to right. An index is in step when it lists under each key exactly the
records that extract to it.

| member | source | states |
|---|---|---|
| `Nodes.Node.Search` | bptree/node.go:25-33 | the scan of a node returns the first position whose key is not below the sought key |
| `Nodes.MakeRoom` | bptree/node.go:54-73 | growing by one and shifting from the end, one place at a time, opens a gap at the position and loses nothing |
| `Nodes.CloseGap` | bptree/node.go:75-81 | shifting down one place at a time and shrinking by one removes exactly the position |
| `Bytes.LessExactly` | bptree/iterator.go:30-53 | the byte order: one key is below another if and only if at the first difference it ends or has the lower byte |
| `Entries.RangeEnds` | bptree/iterator.go:30-53 | both ends belong to a range |
| `Repair.FillChildAt` | bptree/btree.go:326-386 | on a node with one child one key short: same in-order sequence, every child within 2..4 keys again, leaf depth kept, the node itself loses an entry, and only one, exactly when neither neighbour can spare a key; which separators the node then has, a borrow from the left coming before one from the right and a merge with the right neighbour before one with the left; the same borrow or merge as on the value (`Shapes.FillAt`) |
| `Repair.BorrowLeft` | bptree/btree.go:329-343 | rotation from a left sibling that can spare a key meets that contract |
| `Repair.BorrowRight` | bptree/btree.go:345-359 | rotation from a right sibling that can spare a key meets that contract |
| `Repair.MergeAt` | bptree/btree.go:361-384 | merging two children around their separator meets that contract |
| `Deletion.Delete` | bptree/btree.go:275-324 | recursive delete of any balanced subtree: it ends balanced with at most one key fewer in its root and one entry fewer in all, or unchanged with nothing handed up, as the value does (`Shapes.TakeOut`); where insertions can have built it, in-order sequence loses exactly the last entry for the key (or, when seeking a successor, its first one, and then that entry is handed up), and something is handed up if and only if the key was there |
| `Deletion.DeleteInLeaf` | bptree/btree.go:278-295 | the leaf case of the same contract |
| `Deletion.RemoveHere` | bptree/btree.go:296-313 | overwriting an inner entry with its successor and taking the successor out of the child below is removal of the entry |
| `Btrees.Btree.Delete` | bptree/btree.go:212-231 | any tree stays a valid B-tree with one entry fewer or none and becomes what the value becomes (`Shapes.DeleteShape`), the height falls by at most one, no node is invented; in every tree that insertions can build, duplicates included, the entry that goes is the one Find returns; an ordered tree stays ordered and its map loses exactly the key |
| `Btrees.Btree.OverwriteThenDelete` | bptree/btree.go:212-231 | a key survives its deletion: after an overwrite that was lost, Delete reports success and the new value comes up |
| `Insertion.SplitNode` | bptree/btree.go:49-111 | the full node with the new entry (and child) becomes two halves around the median |
| `Insertion.GrownSplits` | bptree/btree.go:49-111 | both halves of an overfull node are within bounds and their join around the median is the old sequence with the new entry |
| `Insertion.FindLeaf` | bptree/btree.go:124-130 | the descent records exactly the path to the leaf the key belongs in |
| `Insertion.PromotedSlot` | bptree/btree.go:146-153 | searching the parent for the promoted key finds the slot of the child that was split, duplicates in the tree or not |
| `Insertion.Propagate` | bptree/btree.go:146-157 | the climb stops at the lowest node with room, else splits every node of the path, as on the value; where the tree is one that insertions can build, the in-order sequence is the old one with the new entry |
| `Insertion.InsertInto` | bptree/btree.go:114-165 | the whole insertion, into any balanced tree: balance, one entry more or a value replaced, growth exactly when every node on the path is full and the key is new to its leaf, which nodes are new, and the same splits as on the value (`Shapes.InsertShape`); into every tree that insertions can build: in-order contents, and such trees stay such trees |
| `Btrees.Btree.Insert` | bptree/btree.go:114-165 | into any valid B-tree: it stays valid, becomes what the value becomes, and grows by one level exactly when every node on the path is full and the key is new to its leaf; into every tree that insertions can build: Find returns the new value for the key if and only if no inner node holds it, and what it did before for every other key; the tree stays ordered under the same condition; inner keys stay inner |
| `Btrees.PutIsUpdate` | bptree/btree.go:132-141 | the leaf-only overwrite check gives an ordered result if and only if the key is not in an inner node |
| `Btrees.RootKeyInside` | bptree/btree.go:124-136 | every tree of more than four entries has a key for which Insert fails in that way |
| `Btrees.FewInside` | bptree/btree.go:124-136 | no tree of at most four entries has one |
| `Btrees.FiveInside` | bptree/btree.go:124-136 | a tree of five entries has exactly one, the middle key |
| `Overwrites.OverwriteIsLost` | bptree/btree.go:114-165 | after inserting a key that an inner node holds, every search returns what it did before, however the tree split |
| `Overwrites.InsertSeen` | bptree/btree.go:114-165 | what every search finds after an insertion, however the tree split: the new value for the key unless an inner node holds it, the old result otherwise |
| `Searching.FindInOrder` | bptree/btree.go:234-268 | on an ordered tree the descent returns what the in-order sequence holds for the key |
| `Searching.FindLast` | bptree/btree.go:234-268 | in every tree that insertions can build, duplicates included, the descent returns the last value in order for the key |
| `Searching.DescentShape` | bptree/btree.go:234-268 | on every balanced tree, ordered or not, the descent finds what it finds in the value |
| `Btrees.Btree.Find` | bptree/btree.go:234-268 | Find is lookup in the map, visits at most height + 1 nodes and never runs off the tree |
| `Sizes.TreeSize` | bptree/node.go:20-23 | a tree of height h holds between 2*3^h - 1 and 5^(h+1) - 1 entries |
| `Scans.GetRange` | bptree/iterator.go:28-67 | the recursive scan of any balanced tree appends, keys and values alike, what the scan of the value collects (`Shapes.RangeShape`) |
| `Scans.RangeWithin` | bptree/iterator.go:28-67 | in every tree that insertions can build, duplicates included, that is exactly the entries within the bounds, in order, though the scan skips subtrees |
| `Btrees.Btree.GetRange` | bptree/iterator.go:10-25 | any tree: what the scan of the value collects; in every tree that insertions can build, the entries within the bounds by key; a reversed range is an error only when the tree is not empty |
| `Scans.KeysGone` | bptree/iterator.go:71-86 | deleting the keys a range query returned removes exactly the range |
| `Btrees.Btree.DeleteRange` | bptree/iterator.go:71-86 | any tree: the keys that the scan collects are deleted one after the other, and the count is the number of entries that are gone; the map of an ordered one loses exactly the range and the count is its size |
| `Shapes.DeleteConcat` | bptree/iterator.go:71-86 | and in the order in which the range query lists them |
| `Scans.CountKeys` | bptree/sharded_btree.go:264-274 | the recursive count is the number of entries, of any balanced tree |
| `Btrees.Btree.CountKeys` | bptree/sharded_btree.go:253-261 | the count is the number of entries, and on an ordered tree the size of the map |
| `Scans.ForEach` | bptree/sharded_btree.go:416-440 | the callback, with whatever state it keeps, is run over the in-order sequence up to and including the first entry it refuses, of any balanced tree |
| `Routing.MergedPut` | bptree/sharded_btree.go:113-117 | updating the key's shard updates the one map and keeps keys where they hash |
| `Routing.MergedRemove` | bptree/sharded_btree.go:141-148 | removing from the key's shard removes from the one map |
| `Routing.MergedSize` | bptree/sharded_btree.go:232-250 | shard sizes add up to the size of the one map |
| `Routing.SortedRange` | bptree/sharded_btree.go:159-210 | filtering and sorting the pairs of all shards gives the one map's range by key |
| `Sharded.ShardedBTree.constructor` | bptree/sharded_btree.go:58-74 | the shards are empty distinct trees, as many as asked for or as CPUs |
| `Sharded.ShardedBTree.Insert` | bptree/sharded_btree.go:113-117 | on any shards: the shard number hash of the key modulo shard count becomes what its value becomes, the others stay; where insertions can have built them: lookups show the new value for the key if and only if no inner node of its shard holds it, and what they did for every other key; under the same condition the shards stand for the updated map |
| `Sharded.ShardedBTree.Find` | bptree/sharded_btree.go:127-131 | lookup in the one map, for every hash function and shard count |
| `Sharded.ShardedBTree.Delete` | bptree/sharded_btree.go:141-148 | on any shards: the key's shard becomes what its value becomes; on ordered ones, removal from the one map; reports presence wherever lookups are guided |
| `Sharded.ShardedBTree.GetRange` | bptree/sharded_btree.go:159-210 | any shards: exactly the entries that their scans collect, by key; on ordered ones the one map's range, strictly by key; a reversed range is an error |
| `Sharded.ShardedBTree.DeleteRange` | bptree/sharded_btree.go:215-228 | any shards: those keys are deleted one after the other, and the count is the number of entries that are gone; ordered ones become the one map without the range |
| `Forests.CutConcat` | bptree/sharded_btree.go:215-228 | and in the order in which the range query lists them |
| `Sharded.ShardedBTree.Count` | bptree/sharded_btree.go:232-250 | the number of entries of all shards; on ordered shards the size of the one map |
| `Sharded.ShardedBTree.ForEach` | bptree/sharded_btree.go:402-413 | the callback, with its state, is run over the entries shard by shard and in order within each, until the first refusal (`Tables.Table.Pairs`: on ordered shards an enumeration of the one map) |
| `Forests.PairsConcat` | bptree/sharded_btree.go:402-413 | the entries come shard by shard, the first shard first |
| `Sharded.ShardedBTree.Clear` | bptree/sharded_btree.go:443-450 | whatever the shards held: the empty map over as many shards, all of them new |
| `Bulk.BuildGroups` | bptree/sharded_btree.go:362-367 | each shard's group holds exactly its pairs in argument order; shards without any have no group |
| `Bulk.InsertAllByGroup` | bptree/sharded_btree.go:369-385 | one-by-one insertion leaves in each shard what folding its own group leaves |
| `Bulk.AnyInterleaving` | bptree/sharded_btree.go:369-385 | every interleaving of the per-shard workers ends in the shards that one-by-one insertion in argument order gives |
| `Bulk.InsertAllMerged` | bptree/sharded_btree.go:357-396 | on maps, that is insertion of the pairs one after another into the one map; `Tables.Table.InsertEach` says when the real tree meets it |
| `Bulk.FoldPuts` | bptree/sharded_btree.go:357-396 | in which the last pair with a key stays |
| `Bulk.BulkIsSequential` | bptree/sharded_btree.go:357-396 | on the shards of the real tree: every interleaving of the workers leaves, to the last node, what the insertions one after the other leave (`Tables.Table.InsertEach`) |
| `Tables.Table.InsertEach` | bptree/sharded_btree.go:357-396 | the real sharded tree after the insertions of a batch, as a value; it shows the map with all pairs put in order, and has lost no write, if and only if no pair meets its key in an inner node of what the pairs before it leave, so whenever the keys are different and new |
| `Tables.Table.Insert` | bptree/sharded_btree.go:113-117 | the sharded tree as a map: it becomes what its value becomes; the write is lost if and only if an inner node holds the key, so never for an absent one; lost or not, later lookups show the map; inner keys stay inner and overwriting elsewhere moves none |
| `Tables.Table.Delete` | bptree/sharded_btree.go:141-148 | on any table it becomes what its value becomes; presence is reported wherever lookups show the map; where no write was lost the map loses exactly the key |
| `Tables.Table.Pairs` | bptree/sharded_btree.go:402-413 | collecting callbacks see the entries of the value in order; where no write was lost, every pair of the map exactly once |
| `Tables.Table.GetRange` | bptree/sharded_btree.go:159-210 | any table: what the shards show in the range, by key; where no write was lost, exactly the pairs of the map; a reversed range is an error |
| `Resharding.FewInner` | bptree/sharded_btree.go:113-117 | the overwrite of a key that shares its shard with at most three others is never lost |
| `Resharding.FiveInner` | bptree/sharded_btree.go:113-117 | of five keys in a shard the overwrite is lost of exactly the one with two smaller ones |
| `Resharding.SameInsertsTwoShardCounts` | bptree/durable_btree.go:100-112 | the same six insertions into one shard and into six: one key shows different values |
| `Fixed.LittleRoundTrip` | bptree/wal.go:285-329 | little-endian fields read back as written |
| `Fixed.LittleDigit` | bptree/wal.go:285-329 | byte i of a field is digit i of the number to the base 256, the least significant first |
| `Fixed.FromLittleBack` | bptree/wal.go:332-392 | every byte string is what its number is written as, so no two fields read as the same number |
| `LogCodec.HeaderBytes` | bptree/wal.go:174-186 | a log file starts with 31 4C 41 57 01 00 00 00 |
| `LogCodec.Layout` | bptree/wal.go:285-329 | where each field of a written entry is, length prefix included |
| `LogCodec.ChecksumInFile` | bptree/wal.go:400-418 | the checksum in the file is that of the bytes of number, operation, key and value in the file |
| `LogCodec.CoveredExactly` | bptree/wal.go:400-418 | two entries have the same checksum under every checksum function if and only if they differ at most in where the key ends and the value begins |
| `LogCodec.BoundaryMoved` | bptree/wal.go:400-418 | one byte moved from key to value: number, operation and checksum stay, and the file is read as another entry |
| `LogCodec.ParseWhole` | bptree/wal.go:332-392 | an encoded entry followed by anything is read back whole |
| `LogCodec.ParseTorn` | bptree/wal.go:332-392 | an entry cut short at any byte is not read at all |
| `LogCodec.ParseExactly` | bptree/wal.go:332-392 | on any bytes: an entry is read if and only if everything but the length prefix is as it would be written, checksum included |
| `LogCodec.AlteredStops` | bptree/wal.go:332-392 | an entry overwritten by another one of its size under its old checksum ends the scan, unless the two checksums are equal |
| `LogCodec.CutScan` | bptree/wal.go:454-493 | for every log and every byte cut, the scan returns exactly the entries that end at or before the cut |
| `LogCodec.TornMisreads` | bptree/wal.go:189-233 | behind any non-empty torn tail some entry is misread |
| `LogCodec.AppendAfterCut` | bptree/wal.go:189-233 | a reopened log can be appended to safely if and only if it was cut at the end of an entry |
| `Wal.Reader.ReadEntry` | bptree/wal.go:332-392 | the field-by-field reader computes that parse, checksum comparison included, and consumes what it says |
| `Wal.ValidateAndRecover` | bptree/wal.go:189-233 | accepts exactly the images with a whole valid header and resumes from the number of the last readable entry, or from zero |
| `LogMachine.StepInv` | bptree/wal.go:236-267 | every step of Append, flush and sync keeps buffer, file and synced length consistent with the entries |
| `LogMachine.RunNumbered` | bptree/wal.go:236-267 | below 2^64, over every run: the entries of the file are numbered without a gap and the last one has the current number |
| `LogMachine.NumbersRise` | bptree/wal.go:236-267 | so the numbers strictly rise |
| `LogMachine.NextSeqIs` | bptree/wal.go:236-242 | the number of 64 bits starts again at zero |
| `LogMachine.OpenCut` | bptree/wal.go:150-172 | the only cuts a reopened log refuses end inside the header |
| `LogMachine.OpenExactly` | bptree/wal.go:189-207 | any file opens if and only if it is empty or starts with the eight bytes of the header |
| `LogMachine.HeaderTorn` | bptree/wal.go:142-163 | a log whose header is not synced, new, truncated or rotated: a crash can leave one to seven bytes, and that file does not open |
| `LogMachine.CrashRecovers` | bptree/wal.go:421-434 | after any crash the readable entries are a prefix that misses no completed call in SyncAlways and at most BatchSize - 1 in SyncBatch |
| `LogMachine.ProcessCrashLosesNothing` | bptree/wal.go:236-267 | if only the process dies no completed call is lost in any mode |
| `LogMachine.RunCrashRecovers` | bptree/wal.go:236-267 | the same at every point of every run from a fresh or a reopened file |
| `LogMachine.ReopenedInv` | bptree/wal.go:150-172 | a reopened file is a log again, with everything the machine promises, if and only if it has no torn tail |
| `LogMachine.ReopenedNumbered` | bptree/wal.go:208-226 | whatever a crash leaves of the file, the reopened log is numbered so again, and goes on from the last entry it has, from zero if it has none |
| `LogMachine.CutTidy` | bptree/wal.go:189-233 | what a crash leaves has no torn tail if and only if it ends where an entry ends |
| `Wal.WAL.constructor` | bptree/wal.go:142-163 | the branch for an empty file: a flushed header, not synced, and numbering starts at zero |
| `Wal.OpenWAL` | bptree/wal.go:117-172 | any file: an error exactly for a bad header; the log resumes from the last readable entry and is valid exactly when there is no torn tail; an empty file gets its header |
| `Wal.ReopenWAL` | bptree/wal.go:117-172 | a running log opened again has the same entries and archives, and the number it had if the file has an entry, zero otherwise |
| `Wal.WAL.Append` | bptree/wal.go:236-267 | one call is one whole run of the step machine, takes the next number and appends that entry; the numbering is kept |
| `Wal.WAL.MaybeSync` | bptree/wal.go:421-434 | always flushes; syncs exactly in SyncAlways or when the batch is full |
| `Wal.WAL.Sync` | bptree/wal.go:446-450 | everything appended is durable, to the last byte of the file |
| `Wal.WAL.Checkpoint` | bptree/wal.go:497-537 | the file is a bare header again, flushed and not synced, and the numbering goes on |
| `Wal.WAL.RotateLog` | bptree/wal.go:541-579 | the file, whole, becomes the archive named after the sequence, replacing one of that name; the new file is a bare header, flushed and not synced |
| `Archives.NumbersIncrease` | bptree/wal.go:189-579 | over every run, reopenings included, without such a one, sequence numbers strictly increase across archives and current file |
| `Archives.StepInv` | bptree/wal.go:189-579 | names of archives and numbers of entries are in order after a step if and only if the step is no reopening that finds the file empty behind an archive with a name above zero |
| `Archives.RunInv` | bptree/wal.go:189-579 | so at every point of a run if and only if no reopening of it is one |
| `Archives.NothingLost` | bptree/wal.go:541-579 | over every run without a checkpoint, reopenings of any kind included, archives and current file hold exactly the appended entries if and only if no rotation renamed onto an archive with entries |
| `Archives.RotationKeeps` | bptree/wal.go:541-579 | and in order, where no reopening begins the numbering again |
| `Archives.RotatingTwiceLoses` | bptree/wal.go:558-562 | append, rotate, rotate: the entry is gone |
| `Archives.ReopeningLoses` | bptree/wal.go:189-579 | append, rotate, reopen, append, rotate: both files get the name 1 and the first entry is gone |
| `Archives.FilesRename` | bptree/wal.go:558-562 | renaming in the list of archives is writing one name in the directory |
| `Durable.DurableBTree.Insert` | bptree/durable_btree.go:115-127 | on any tree: logged, then applied, the tree becoming what its value becomes, and the account of calls kept; where nothing was lost before, the tree goes on showing the log folded over what it showed at the last checkpoint if and only if no inner node holds the key, so for every new key |
| `Durable.DurableBTree.Delete` | bptree/durable_btree.go:135-147 | on any tree: logged, then removed, absent keys included; where nothing was lost before, the tree goes on showing the fold of the log |
| `Durable.DurableBTree.Clear` | bptree/durable_btree.go:169-181 | whatever was lost before: logged, and the tree is empty and shows the fold of the log again |
| `Durable.DurableBTree.BulkInsert` | bptree/durable_btree.go:185-208 | on any tree: all pairs logged and synced, then applied in order; different lengths are refused; where nothing was lost before, the tree shows the fold of the log if and only if no pair meets its key in an inner node when its turn comes |
| `Durable.DurableBTree.Checkpoint` | bptree/durable_btree.go:227-231 | the log is empty, and what the tree is and shows is the new base, so no write counts as lost any more |
| `Replaying.Recover` | bptree/durable_btree.go:100-112 | on every log, replay into any deterministic store is the fold of the readable entries over the empty one, and counts them |
| `Replaying.UnknownSkipped` | bptree/durable_btree.go:100-112 | entries with an operation other than 1, 2 and 3 change nothing |
| `Durable.RecoverInto` | bptree/durable_btree.go:100-112 | replay of every log into a real sharded tree of any shard count: the shards are the log replayed on values; lookups show the map the log stands for, with no write lost, when no logged insertion meets its key in an inner node, so for logs that never overwrite and for logs that never leave more than four keys for a shard |
| `Durable.Open` | bptree/durable_btree.go:58-97 | any file: an error exactly for a bad header, otherwise a tree that is the readable entries replayed, valid exactly when there is no torn tail; it shows their map under the same condition |
| `Durable.Reopen` | bptree/durable_btree.go:58-97 | reopening the file of a running tree with any sync mode gives a valid tree; with as many shards and a log never truncated it is the live one, lost writes and all; with any shard count, neither having lost a write, it shows what the live one shows if and only if every key held at the last truncation has been inserted, deleted or cleared since |
| `Durable.CrashAndReopen` | bptree/durable_btree.go:58-97 | any crash of a running tree between calls, with a log never truncated, and a reopening with as many shards: the tree is, to the last node, what it was after some call; it misses no more calls than the mode allows and never a BulkInsert or anything before it; it can go on exactly when there is no torn tail |
| `DurableRuns.CrashRecoversLive` | bptree/durable_btree.go:115-208 | at every point of every run of Insert, Delete, Clear and BulkInsert calls, each logging and then applying, a crash leaves a log that replays to the tree as it was after some call that had returned, or after part of the call in progress; it misses no more returned calls than the mode allows, and never a returned BulkInsert or anything before it |
| `DurableRuns.MoveGood` | bptree/durable_btree.go:115-208 | every begin, log step and finish keeps: the log holds the returned calls and what the current one has handed over; each live tree is the replay of the calls before it; returned batches are on disk |
| `DurableRuns.BatchAtomic` | bptree/durable_btree.go:183-208 | in any state, some crash inside a BulkInsert recovers part of it if and only if it has two pairs or more |
| `DurableRuns.TornPair` | bptree/durable_btree.go:183-208 | a batch of two pairs, SyncAlways, and a crash image that recovers one of them |
| `Replaying.ReplayAnyShards` | bptree/durable_btree.go:100-112 | on maps, for every log: replaying into any number of shards gives the shards of the one map the log stands for; the real tree meets it when no logged insertion is lost (`Durable.RecoverInto`) |
| `Replaying.FoldForgets` | bptree/durable_btree.go:227-231 | on maps: replay over an old state and over nothing agree on a key if and only if the old state lacks it or some entry settles it |
| `Replaying.CheckpointLoses` | bptree/durable_btree.go:224-231 | on maps: replay over nothing gives the live map if and only if every key held at the checkpoint has been inserted, deleted or cleared since; `Durable.Reopen` says it of the real tree |
| `Replaying.CheckpointExample` | bptree/durable_btree.go:224-231 | one pair, a checkpoint, a reopening: the pair is gone |
| `Resharding.SettledYetDifferent` | bptree/durable_btree.go:224-231 | on a real tree that has lost a write, settling every key is not enough: five pairs, a checkpoint, all five inserted again, and the live tree keeps a value that the log does not have |
| `KeyLists.EncodePrimaryKeys` | bptree/secondary_index.go:293-316 | the sized buffer is filled exactly with the encoding |
| `KeyLists.DecodePrimaryKeys` | bptree/secondary_index.go:319-345 | stays in bounds on any bytes and computes the decoding |
| `KeyLists.KeysRoundTrip` | bptree/secondary_index.go:291-345 | decoding undoes encoding for every list, empty keys and the empty list included |
| `KeyLists.ListBytes` | bptree/secondary_index.go:291-316 | the bytes of a concrete list: count, then each key behind its length |
| `KeyLists.DecodeCut` | bptree/secondary_index.go:319-345 | a list cut at any byte is read as the keys that end before the cut |
| `KeyLists.DecodeMore` | bptree/secondary_index.go:319-345 | bytes behind a list are not read |
| `KeyLists.CompositeExtract` | bptree/secondary_index.go:422-438 | the length-prefixed parts one after another, nil when a part is nil or there are none |
| `KeyLists.PartsExactly` | bptree/secondary_index.go:422-438 | part i is what extractor i takes, and there are parts if and only if all of them take one |
| `KeyLists.CompositeInjective` | bptree/secondary_index.go:421-438 | composite keys of as many parts are equal if and only if all parts are |
| `IndexSpec.AddAgrees` | bptree/secondary_index.go:91-131 | indexing a new record that uniqueness allows keeps agreement with the records, counter included |
| `IndexSpec.DropAgrees` | bptree/secondary_index.go:134-176 | removing a record's key keeps agreement |
| `IndexSpec.WithoutSplit` | bptree/secondary_index.go:156-162 | what is left of a list stays in order |
| `IndexSpec.ChangeAgrees` | bptree/secondary_index.go:180-194 | with no write lost, updating keeps agreement if and only if the key does not change between nil and empty, which the comparison takes for equal |
| `IndexSpec.BlurredExactly` | bptree/secondary_index.go:184-187 | nil and empty are the only different keys that compare equal |
| `IndexSpec.OverwriteAgrees` | bptree/indexed_btree.go:166-176 | Insert over a stored record keeps agreement if and only if the old record had no key in the index or keeps it |
| `IndexSpec.OverwriteExample` | bptree/indexed_btree.go:166-176 | a concrete Insert over a stored record that leaves a stale index key |
| `IndexSpec.UpdateExample` | bptree/secondary_index.go:184-187 | a concrete Update from a nil to an empty index key that is not indexed |
| `IndexSpec.EmptyAgrees` | bptree/indexed_btree.go:62-79 | an index started empty agrees if and only if no stored record has a key in it |
| `IndexSpec.OnePerKey` | bptree/secondary_index.go:101-108 | a unique index in agreement has no two records under one key |
| `IndexSpec.InsertAgrees` | bptree/indexed_btree.go:146-179 | one index and one Insert, every combination of lost and kept writes: agreement with the records that are then there survives if and only if no list overwrite is lost, and over a stored record the keys of the lost one are among those of the kept one |
| `IndexSpec.UpdateAgrees` | bptree/indexed_btree.go:187-228 | one index and one Update, likewise: where old and new key compare equal (nil and empty do), agreement survives if and only if they are equal or the record is lost; where they differ, if and only if no write is lost or all three are |
| `IndexSpec.DeleteAgrees` | bptree/indexed_btree.go:231-257 | one index and one Delete: agreement survives if and only if the shortened list is not lost |
| `SecondaryIndexes.SecondaryIndex.Index` | bptree/secondary_index.go:91-131 | on the bytes in a real sharded tree, exactly what happens to the value: the abstract addition, both index kinds, refusal included, minus the overwrite of a list whose key an inner node holds |
| `IndexPlaces.AddLists` | bptree/secondary_index.go:91-131 | where the overwrite is not lost, a record goes to the end of its list unless it is in it, and is counted if it goes |
| `SecondaryIndexes.SecondaryIndex.Remove` | bptree/secondary_index.go:134-176 | on the bytes in a real sharded tree, exactly what happens to the value: the abstract removal, minus such an overwrite; an emptied list takes its key with it |
| `SecondaryIndexes.RemoveUnique` | bptree/secondary_index.go:143-148 | on a unique index, whoever was filed under the key: no lookup finds the key any more, the others find what they did, the counter is one lower or zero |
| `IndexPlaces.UniqueDrop` | bptree/secondary_index.go:143-148 | the same of the value, and of its shards; no overwrite is lost |
| `IndexPlaces.ListedDrop` | bptree/secondary_index.go:149-173 | on any other index the record leaves its list, and the counter is one lower or zero even where the record was not in it; an absent key changes nothing |
| `SecondaryIndexes.SecondaryIndex.Update` | bptree/secondary_index.go:180-194 | likewise the abstract change, minus either overwrite; both are decided by the value before the call |
| `IndexPlaces.ChangeInState` | bptree/secondary_index.go:180-194 | what the change leaves in the lists is the abstract change, in which an inner node holds the new index key if it does in the shards that the removal of the old one leaves |
| `IndexLosses.SixthIsLost` | bptree/secondary_index.go:91-131 | six records, the last with the middle one of five index keys: Index reports success and counts it, FindAll does not list it |
| `IndexLosses.RemovedIsListed` | bptree/secondary_index.go:134-176 | two records under the middle one of five index keys: after Remove of one FindAll goes on listing it, and the counter does not count it |
| `IndexLosses.CreatedOutOfStep` | bptree/indexed_btree.go:62-79 | one record, then CreateIndex: no write is lost and FindAll does not find the record |
| `IndexLosses.OrphanedRecord` | bptree/secondary_index.go:143-148 | a record from before CreateIndex, another with the same unique key, and the first one deleted: the second is stored and the index does not find it |
| `SecondaryIndexes.SecondaryIndex.FindOne` | bptree/secondary_index.go:198-211 | the one primary key under the index key, only on a unique index |
| `SecondaryIndexes.SecondaryIndex.FindAll` | bptree/secondary_index.go:215-234 | the whole list under the index key |
| `SecondaryIndexes.SecondaryIndex.FindRange` | bptree/secondary_index.go:238-260 | the lists that the tree shows in the range, joined by index key; where it has lost no overwrite, the lists of exactly the index keys in the range; a reversed range is an error |
| `IndexRanges.FlattenMeans` | bptree/secondary_index.go:236-260 | those joined lists are exactly the records with such keys, each once, by index key |
| `IndexedTrees.IndexedBTree.Insert` | bptree/indexed_btree.go:146-179 | over real trees, in step or not, exactly what happens to the value: refused exactly when a unique index has the key, changing nothing; otherwise no index refuses; no write is lost, and indexes in step stay so, each if and only if the value says so before the call |
| `IndexRecords.StoreRecord` | bptree/indexed_btree.go:166-176 | the primary write, the index loop up to the first refusal, and the rollback: it succeeds if and only if no unique index has the key, and otherwise the record is deleted from the primary tree again |
| `IndexRecords.InsertRecord` | bptree/indexed_btree.go:154-176 | the check before it answers the same, so after a passed check no index refuses and the rollback is not reached |
| `IndexLists.IndexEach` | bptree/indexed_btree.go:170-176 | the loop ends with the first index that refuses: those before it have the record, those after it are as they were |
| `IndexBases.TakenMeans` | bptree/indexed_btree.go:154-164 | an insertion is refused if and only if a stored record has the same key in a unique index |
| `IndexedTrees.IndexedBTree.Update` | bptree/indexed_btree.go:187-228 | over real trees, in step or not, exactly what happens to the value: not found, violation or update, each exactly when; the first two change nothing; no write is lost, and indexes in step stay so, each if and only if the value says so before the call |
| `IndexRecords.UpdateRecord` | bptree/indexed_btree.go:201-225 | after a passed check the index loop never ends with an error: the branch the source keeps for it is dead |
| `IndexLists.UpdateEach` | bptree/indexed_btree.go:220-225 | the loop ends with the first index that refuses, which has lost the old key by then; those after it are as they were |
| `IndexBases.ContestedMeans` | bptree/indexed_btree.go:201-214 | an update is a violation if and only if a different record has the new key of a unique index |
| `IndexedTrees.IndexedBTree.Delete` | bptree/indexed_btree.go:231-257 | over real trees, in step or not, exactly what happens to the value: the record goes; no write is lost, and indexes in step stay so, if and only if no list that must be shortened has its key in an inner node |
| `IndexRecords.DeleteRecord` | bptree/indexed_btree.go:245-256 | when the primary tree reports that nothing was deleted the indexes are left alone; it does so exactly when the record is not there |
| `IndexedTrees.IndexedBTree.Clear` | bptree/indexed_btree.go:327-342 | whatever was lost or out of step before: no records, every index empty and in step, and no write lost |
| `IndexedTrees.IndexedBTree.CreateIndex` | bptree/indexed_btree.go:62-79 | a fresh empty index, refused for a used name; in step if and only if the others are and no record has a key in it |
| `IndexRebuild.Rebuild` | bptree/indexed_btree.go:92-99 | indexing the records in the order of ForEach until the first refusal succeeds if and only if the index is not unique or no two records have the same key; then the index is what the value is after these additions, and it agrees, with no write lost, if and only if none of them meets its list in an inner node; where one does, the index is not unique and two records have the same key |
| `IndexBases.IndexConcat` | bptree/indexed_btree.go:92-99 | these additions are made in the order of the records |
| `IndexedTrees.IndexedBTree.CreateIndexWithRebuild` | bptree/indexed_btree.go:82-110 | the same for the call, as a condition on the value before it; a refusal restores the old index set, in step |
| `IndexedTrees.IndexedBTree.DropIndex` | bptree/indexed_btree.go:113-123 | exactly that index goes, and indexes in step stay so |
| `IndexedTrees.IndexedBTree.FindByIndex` | bptree/indexed_btree.go:271-281 | what a unique index lists for the key; on indexes in step, lost writes or not: a record that extracts to the key, if there is one |
| `IndexedTrees.IndexedBTree.FindAllByIndex` | bptree/indexed_btree.go:285-295 | what the index lists for the key; on indexes in step exactly the records that extract to it, each once |
| `IndexedTrees.IndexedBTree.FindRangeByIndex` | bptree/indexed_btree.go:299-309 | the lists that the index shows in the range; where no write was lost and the index is in step, exactly the records whose key is in the range, each once, by index key |
| `IndexRuns.Run` | bptree/indexed_btree.go:82-342 | every sequential run of Insert, Update, Delete, Clear, CreateIndex, CreateIndexWithRebuild and DropIndex, unique indexes or not, up to the first call that is not safe: it is a run of a table of records with unique fields, which knows of no trees; the same calls are refused, the same records are left, every index is in step with them, and no write is lost |
| `IndexRuns.Step` | bptree/indexed_btree.go:62-342 | one call, safe or not: accepted exactly when the table accepts it, the tree becomes what its value becomes, and it is whole and in step afterwards if and only if the call was safe |
| `IndexRuns.RunUntil` | bptree/indexed_btree.go:62-342 | and the first call that is not safe does lose a write or leave an index out of step, so a run stays whole exactly that far |
| `IndexRuns.NextMeans` | bptree/indexed_btree.go:62-342 | a safe call does to the tree as a value what it does to the table |
| `IndexRuns.RunPlain` | bptree/indexed_btree.go:82-342 | over unique indexes, runs of Insert of absent keys, Delete, Clear, unique CreateIndexWithRebuild and DropIndex are never unsafe |
| `IndexRuns.ApplyAllConstrained` | bptree/indexed_btree.go:82-342 | and that table never has two records with the same key in a unique field, unless CreateIndex declares one over such records |
| `IndexRuns.AgreedConstrained` | bptree/indexed_btree.go:146-228 | nor has a tree whose indexes are in step |
| `IndexRuns.SafeWhenUnique` | bptree/indexed_btree.go:62-342 | between unique indexes an accepted call is safe if and only if: an Insert over a record finds it in no inner node and with no index key; an Update finds its record in no inner node and changes no index key between nil and empty; CreateIndex finds no record with a key; Delete, Clear, DropIndex and unique CreateIndexWithRebuild always |
| `IndexRace.StepInv` | bptree/indexed_btree.go:154-176 | every access of every concurrent Insert keeps: primary tree = initial records plus callers between write and rollback; each index agrees with the records of those who wrote it; a failed caller's key is taken |
| `IndexRace.RaceOutcome` | bptree/indexed_btree.go:146-179 | when all calls have returned, the primary tree holds exactly the winners, and an index agrees with it if and only if no failed call left a key in it, for any number of callers and indexes; which calls can, the exposure rows say |
| `IndexRace.RaceAgrees` | bptree/indexed_btree.go:146-179 | with one index, or the unique one always visited first, every schedule ends with all indexes in agreement |
| `IndexRace.OneIndexFirst` | bptree/indexed_btree.go:170-176 | a tree with one index always meets the condition of the row above |
| `IndexRace.OneWriter` | bptree/secondary_index.go:98-108 | of the calls with one key in a unique index at most one ever writes it |
| `IndexRace.RaceForKey` | bptree/indexed_btree.go:146-179 | of the contenders for a free key exactly one succeeds, for a taken key none, and a call with no key always does |
| `IndexRace.StepProgresses` | bptree/indexed_btree.go:146-179 | no call is ever stuck: each access brings it closer to returning |
| `IndexExposure.RaceExactly` | bptree/indexed_btree.go:146-179 | for any number of callers and indexes: some schedule leaves an index out of step if and only if some call is exposed to another, a condition on the calls, their index orders and the tree they start from |
| `IndexExposure.ClashesWithRival` | bptree/indexed_btree.go:154-176 | at any point of any run a caller whose keys were free is refused by an index if and only if a rival has written it |
| `IndexExposure.Finish` | bptree/indexed_btree.go:146-179 | every run can go on until all calls have returned, and calls that have returned stay as they are |
| `IndexExposure.NotExposed` | bptree/indexed_btree.go:170-176 | calls that visit unique indexes first, and calls that share no key of a unique index, are never exposed |
| `IndexExposure.CrossingLosesBoth` | bptree/indexed_btree.go:170-176 | two callers that each come to an index the other has passed can both roll back, and the keys they contended for stay in both indexes though neither record is stored |
| `IndexExposure.CrossedLosesBoth` | bptree/indexed_btree.go:170-176 | a concrete pair: two unique indexes visited in opposite orders, no record stored, both indexes out of step |

## Left out

- Tables.Table.Delete: what lookups show after a deletion from a table that has lost an overwrite is stated through the value of the tree only; a deletion can leave the copies of another key in either order, so no law on maps covers it.
- SecondaryIndexes.SecondaryIndex.Remove: an index whose tree has lost no overwrite, since removal can delete from that tree.
- SecondaryIndexes.SecondaryIndex.Update: the same, as it begins with that removal.
- Bulk.InsertAllMerged: on maps; `Tables.Table.InsertEach` is the statement for the tree.
- Replaying.ReplayAnyShards: on maps; `Durable.RecoverInto` is the statement for the tree.
- Replaying.FoldForgets: on maps, as a step to the next line.
- Replaying.CheckpointLoses: on maps; `Durable.Reopen` is the statement for the tree.
- Durable.RecoverInto: for which logs no insertion is lost is a condition on the shapes of the shards (`Replaying.KeptLog`); what it means for the log alone is said for two families of logs, and `Resharding.SameInsertsTwoShardCounts` shows why it depends on the shard count.
- DurableRuns.CrashRecoversLive: runs from an empty log without checkpoints, which `Durable.Reopen` covers, and images that do not end inside the header, which `LogMachine.OpenCut` shows to be the ones refused; likewise `Durable.CrashAndReopen`.
- LogMachine.ReopenedInv: takes the bytes read back to be on disk, as they are after a crash of the machine; after a crash of the process alone some may not be synced yet.
- IndexedTrees.IndexedBTree.Insert: starts from trees that have lost no write, keys shorter than 2^32 bytes and lists of fewer than 2^32 - 1 keys, the widths of the list format (`IndexBases.AgreedRoomy`: so where the indexes are in step with fewer than 2^32 - 1 records); the other index operations likewise, except `Clear`, which starts from trees whose lookups show their maps and lists.
- IndexRecords.StoreRecord: what the indexes hold after a refusal is stated in `IndexLists.IndexEach`; no caller reaches it without concurrency, which `IndexRace` models.
- IndexRuns.Run: ends at the first call that is not safe, since the calls are stated from trees that have lost no write.
- IndexRace.RaceOutcome: callers with pairwise different primary keys that are not stored yet, no concurrent change of the index set, and index trees that lose no list overwrite.
- Durable.DurableBTree.Insert: keys and values shorter than 2^32 bytes, the width of the entry format; the other log operations have the same bound.
- Wal.WAL.Append: the numbering, and accounts of rotation, checkpoint and reopening, are followed below 2^64 appends only.
- Bulk.AnyInterleaving: one store operation is one step; locks inside a shard are not modelled.
- nil primary keys: a key is a byte string, and the nil key in the delete path is the absent case. A nil index key is an absent one, told apart from the empty one.
- The hash and the checksum are arbitrary functions; `hash/crc32` and FNV-1a arithmetic is not modelled.
- Key extractors are functions of the value; callbacks are functions of their own state and the pair.
- File-system and reader errors other than short reads; error texts.
- Latches of nodes and trees, and the documented latch-coupling and B-link protocols: the code takes one lock per tree.
- A consistent snapshot across shards of a concurrent `GetRange`: not promised.
- `splitNodeWithInsert`, `isSafe`, `getHighKey` and the sibling pointer, which no operation uses.
- `Close`, statistics, counters and the `Put`/`Get` aliases.
- JSON, prefix and offset extractors.
- Slice capacity and sharing of byte slices with the caller.
