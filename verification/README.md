# A verified model of the storage engine

The repository is a storage engine in two packages: an LSM tree (`pkg/lsm`) and a write-ahead log
(`pkg/wal`). This project models their core in Dafny and proves what each part keeps, what a reader
can rely on, and where the code does not meet what its documentation suggests.

`dafny verify dfyconfig.toml` checks everything.

| part | files |
|---|---|
| bytes, numbers, internal keys | `Bytes.dfy`, `Binary.dfy`, `ModArith.dfy`, `InternalKey.dfy`, `Crc.dfy`, `CrcZero.dfy` |
| arena and lock-free skiplist | `Arena.dfy`, `Skiplist.dfy`, `SkiplistSafety.dfy`, `SkiplistProgress.dfy` |
| memtables and point reads in them | `Memtable.dfy`, `GetRun.dfy` |
| SSTable format, writer, reader | `Block.dfy`, `Bloom.dfy`, `TableFormat.dfy`, `TableWriter.dfy`, `TableReader.dfy`, `TableRoundTrip.dfy` |
| block cache | `Cache.dfy` |
| k-way merge and user-visible scan | `Merge.dfy`, `Visibility.dfy`, `KeyBuffer.dfy`, `DBIterator.dfy` |
| versions and manifest | `Version.dfy`, `VersionSet.dfy` |
| compaction | `Compaction.dfy`, `CompactionMerge.dfy`, `CompactionTree.dfy`, `CompactionRun.dfy`, `EmptyTable.dfy` |
| the database as a transition system, and what a scan sees | `Database.dfy`, `DatabaseRuns.dfy`, `DatabaseShape.dfy`, `DatabaseHistory.dfy`, `DatabaseCalls.dfy`, `Snapshot.dfy`, `LastNumber.dfy`, `Reads.dfy` |
| point reads in the tables of a version | `VersionGet.dfy` |
| write-ahead log | `PageWriter.dfy`, `WalRecord.dfy`, `WalDecoder.dfy`, `Wal.dfy`, `WalCrash.dfy`, `WalLog.dfy` |
| group commit | `SyncGroup.dfy` |

## How the code is modelled

Objects whose methods change fields are classes: the arena, the block writer and iterator, the bloom
writer, the table writer, reader and iterator, the block cache with its linked nodes, the merge
iterator with its heap, the database iterator, memtables, the version set, the page writer, the
encoder, the decoder and the log. Their methods follow the loops and branches of the source and are
proved against functions or lists that say what they hold; files are byte strings.

Three protocols are transition systems over arbitrary interleavings: the skiplist with its iterators
(one step per load, store, compare-and-swap or bump of the arena counter), the database (one step per
atomic operation or critical section of writers, flush loop, compaction loop and readers), and group
commit. The results about them hold after all finite runs. For the database and group commit
they are also stated of the history of actions that led to a state, without the steps' own definitions; for
the skiplist, calls are also proved to end.

Encodings are concrete: varints, fixed-width integers, CRC-32C, the protobuf encoding of a log record,
block, filter, index and footer layouts, manifest records and log frames.

## Hypotheses

The results need these facts, and state them as preconditions or guards.

- Key order: no stored user key is a proper prefix of another one, and sequence numbers are below 2^56.
  `InternalKey.PrefixBreaksOrder` shows that the first part is needed.
- Right sources: a scan compares against a slice of a key that its source has handed out, and a table writes
  its next keys into the same array (`pkg/lsm/sstable/block.go:237`). `KeyBuffers.SourcesRight` is a condition
  on the stored keys and on which of them are written over which; a scan whose sources meet it shows what it
  should. It holds if and only if each skip of the scan is right (`KeyBuffers.SkipsRightIff`), and
  `KeyBuffers.SkipRightIff` says of one skip exactly when it is. Memtables always meet it. What happens
  otherwise is below.
- Write order: where sequence numbers are compared with the order of memtables, calls of Set and Delete
  do not overlap (`Memtables.DB.SetOrDelete`). The database as a transition system does not need this.
- No flush of an empty memtable, for the shape of the tree alone (`DatabaseShapes.TreeAlwaysOk`). What is
  stored and what a reader captures does not need this. `EmptyTables.EmptyTableBreaksLevel` shows what happens
  otherwise.
- Crashes: of the current log file any number of bytes has arrived, and behind them are zeros, any number of
  them: none in a file that was cut, the rest of the file if it was preallocated or zeroed.
- Table files are smaller than 2^32 bytes; log records are at most 64 MB, the limit of the decoder.
- The number of bloom probes, computed with floating point in `pkg/lsm/sstable/bloom.go:155-165`, is a
  parameter between 1 and 30; the height of a skiplist tower is any number between 1 and 20.

## Main results

- Skiplist, all interleavings: `SkiplistSafety.LevelsSorted`, `LevelsNested`, `LinkedForever`,
  `OneWinnerPerKey`, `NeverPanics`, `AddOutcome`, `GetDecides`, `GetAfterAdd`, for iterators among concurrent
  writers `SeekDecides`, `WalkIncreases`, `WalkComplete`, and from every reachable state
  `SkiplistProgress.EndsAlone`, `SkiplistProgress.AddAlone`.
- Tables, byte for byte: `TableRoundTrip.WriteThenScan`, `WriteThenGet`, `TableReader.TableIterator.SeekGE`.
- Merge and scan: `Merge.Drain`, `KeyBuffers.SkipRightIff`, `KeyBuffers.SkipsRightIff`,
  `DBIterators.ScanAll`, `DBIterators.DBIterator.SeekGE`, `DBIterators.SeekAnswerIff`.
- Compaction: `CompactionTree.CompactionKeepsTree`, `CompactionRuns.CompactionKeepsEntries`,
  `CompactionRuns.Lsm.DoCompaction` (which ends).
- Database, all interleavings: `DatabaseRuns.ContentsExact`, `CaptureComplete`,
  `DatabaseHistory.LiveIff`, `DatabaseCalls.MemtableIff`, `DatabaseShapes.TreeAlwaysOk`, `Reads.ScanShowsLater`, `Reads.ReadYourWrites`.
- Point reads: in memtables `GetRuns.GetInRun`, in a version `VersionGet.GetFromVersion`, `VersionGet.ReadRightIff`.
- Manifest: `VersionSets.ReplayCut`, `VersionSets.Reopen`.
- Log: `WalLogs.RunAll`, `WalCrashes.ScanCrashed`, `WalLogs.CrashAndReopen`, `WalLogs.AppendAfterCrash`,
  `WalLogs.RunAfterCrash`, `Wals.RunningCrc`.
- Group commit, all interleavings: `SyncGroup.CoveredBySync`, `ReturnedIsDurable`, `NobodyStranded`, `AllReturn`.
- Cache: `Cache.BlockCache.Set`, `Cache.ReadDataBlock`.

## What the code does not do

These are proved, each with a concrete case or an exact condition.

- `KeyBuffers.SkipRightIff`, `DBIterators.SecondKeyLost`, `DBIterators.BlockScan`,
  `DBIterators.OlderShownAgain`: as soon as a table is a source, a scan can lose keys or show one twice. The
  user key to skip (`pkg/lsm/lsm.go:690-711`) is a slice of the table's key buffer, and by the time the next
  key is compared with it the block iterator may have written that key over it.
- `DBIterators.SeekAnswerIff`, `DBIterators.SeekRightIff`, `DBIterators.SeekLosesKey`,
  `DBIterators.SeekShowsOlder`: a seek can lose a stored key that extends the target by zero bytes, or show
  an old version of it.
- `Snapshots.SnapshotLosesWrite`, `Snapshots.SnapshotMisses`: a snapshot loads the version before it copies
  the memtables, so a flush in between can make it miss a returned write.
- `LastNumbers.LastNumberFallsBack`, `LastNumbers.CoveredIff`: two overlapping writes can store their
  sequence numbers in the wrong order, and the manifest then logs a number that is already taken.
- `VersionGet.OlderTableHidden`, `VersionGet.ReadRightIff`: a point read trusts the first table in range,
  also when that table does not hold the key.
- `GetRuns.OverlapShowsOlder`, `GetRuns.SearchRightIff`: after two overlapping writes of one key a Get can find
  the older one, when the newer one is in the older memtable.
- `EmptyTables.ExamplePick`, `EmptyTables.EmptyTableBreaksLevel`, `Compactions.RangeCoversIff`: after an empty
  table the key range of a compaction can be too small, and its output then overlaps a file of its level. A
  value too large for any memtable seals an empty one.
- `VersionSets.ReplayCut`: a manifest that ends inside a record cannot be opened.
- `WalLogs.Wal.Append`, `WalLogs.RefusedYetStored`: reports an error when the running CRC happens to be
  zero although the record is logged, and after opening a segment of a page or more it reports offsets
  relative to the last page.
- `WalLogs.CrashAndReopen`, `WalCrashes.FirstPayloadRefused`, `WalCrashes.RefusedInSector`: in a preallocated or
  zeroed file a crash can leave the head of a record with zeros behind it. Inside one sector that is taken for
  corruption, and the log cannot be opened.
- `WalLogs.AppendAfterCrash`, `WalCrashes.TornAtSector`, `WalCrashes.SomePayloadStrays`: torn at a sector boundary
  the record can still parse, and the running CRC includes it. What is appended next is then lost to readers.
- `WalLogs.CrashAndReopen`: when a crash leaves no whole record in a new segment, the CRC chain restarts
  from zero there.
- `TableReader.TableIterator.SeekGE`, `TableReader.SeekPastEnd`: after a seek above the last separator the
  iterator still shows its old position as valid.
- `TableReader.ReadFooter`, `TableReader.OverflowPanics`: a footer whose varints overflow makes the reader
  panic; so does a block handle with a length above the limit of an allocation (`TableReader.ReadRawBlock`).
- `TableWriter.OrderCheckIff`: an empty previous key counts as none, so the empty key can be added twice.

## Model

| member | source | states |
|---|---|---|
| `Bytes.CompareKeys` | pkg/lsm/skiplist/skiplist.go:227-247 | The byte loop decides lexicographic order in all three directions; the three copies of the loop in the repository agree on it |
| `Binary.GetPut` | pkg/lsm/version.go:61-99 | Reading a varint back at any offset of a larger buffer gives the number and the number of bytes that were written, for every 64-bit number |
| `Binary.VarintLen` | pkg/lsm/sstable/format.go:79-86 | Counts exactly the bytes that the encoding has |
| `InternalKey.ParseOfMake` | pkg/lsm/memtable/internalkey.go:50-60 | Parsing undoes making for every key and kind; sequence numbers come back modulo 2^56 |
| `InternalKey.MakeOfParse` | pkg/lsm/memtable/internalkey.go:40-47 | Making undoes parsing for every string of at least eight bytes |
| `InternalKey.VersionOrder` | pkg/lsm/memtable/internalkey.go:40-47 | Versions of one user key sort by descending sequence number, set before delete |
| `InternalKey.InternalOrder` | pkg/lsm/memtable/internalkey.go:40-60 | Byte order on internal keys is (user key, sequence number descending, set before delete) whenever neither user key is a proper prefix of the other |
| `InternalKey.PrefixBreaksOrder` | pkg/lsm/memtable/internalkey.go:40-47 | Two concrete keys, one a prefix of the other, whose internal keys sort the wrong way round: the hypothesis is needed |
| `InternalKey.BetweenSharesPrefix` | pkg/lsm/memtable/internalkey.go:40-47 | Every byte string between two versions of a user key starts with that key |
| `Arenas.OffsetInsideReservation` | pkg/lsm/arena/arena.go:53-63 | An aligned allocation lies inside the stretch that its own bump of the counter claimed, so concurrent allocations never overlap |
| `Arenas.Arena.Alloc` | pkg/lsm/arena/arena.go:53-63 | Returns an aligned region inside the slab, or an error while the counter still moves |
| `Arenas.Arena.PutBytes` | pkg/lsm/arena/arena.go:76-78 | Changes exactly the bytes of the region |
| `SkiplistSafety.RunInv` | pkg/lsm/skiplist/skiplist.go:53-109 | Every state that any interleaving of steps of Add, Get and iterators reaches satisfies the list invariant |
| `SkiplistSafety.LevelsSorted` | pkg/lsm/skiplist/skiplist.go:53-109 | In every reachable state a walk along each level ends, and its keys strictly increase |
| `SkiplistSafety.LevelsNested` | pkg/lsm/skiplist/skiplist.go:73-106 | In every reachable state the nodes of a level are among those of every level below |
| `SkiplistSafety.LinkedForever` | pkg/lsm/skiplist/skiplist.go:73-106 | A node once linked on a level is reachable there in every later state, with unchanged key and value bytes |
| `SkiplistSafety.OneWinnerPerKey` | pkg/lsm/skiplist/skiplist.go:53-109 | Of all Add calls for one key at most one succeeds |
| `SkiplistSafety.NeverPanics` | pkg/lsm/skiplist/skiplist.go:95-101 | The "duplicate found at non-base level" panic is unreachable |
| `SkiplistSafety.AddOutcome` | pkg/lsm/skiplist/skiplist.go:53-109 | A successful Add has its node on every level of its tower with its own key and value; a refused one met its key on the list; one that found the arena full has moved the counter past the slab; no other result occurs |
| `SkiplistSafety.ResultsSuit` | pkg/lsm/skiplist/skiplist.go:53-109 | In every reachable state results suit their calls, and "arena full" is given only when the counter is past the slab |
| `SkiplistProgress.ActNearer` | pkg/lsm/skiplist/skiplist.go:53-109 | In every reachable state each step of a call brings it nearer to its end, measured in the list as it stands: lost compare-and-swaps and stale splices included |
| `SkiplistProgress.EndsAlone` | pkg/lsm/skiplist/skiplist.go:53-109 | Whatever the other calls have left half done, an Add, Get or iterator that goes on alone ends (obstruction freedom) |
| `SkiplistProgress.AddAlone` | pkg/lsm/skiplist/skiplist.go:53-109 | An Add that runs alone, of a key that is not on the list and with room for its node, ends and has added it, and each of its compare-and-swaps succeeds, so that it never searches again |
| `SkiplistProgress.HeightCovers` | pkg/lsm/skiplist/skiplist.go:64-71 | In every reachable state the levels from the height of the list on are empty, so a search from there misses nothing |
| `SkiplistSafety.GetDecides` | pkg/lsm/skiplist/skiplist.go:112-119 | A Get takes effect at its last load: it reports the key exactly when the key is linked on the bottom level at that moment |
| `SkiplistSafety.GetSeesLinked` | pkg/lsm/skiplist/skiplist.go:112-119 | Once a key is linked, no Get of it that is under way ends with "not found" |
| `SkiplistSafety.GetAfterAdd` | pkg/lsm/skiplist/skiplist.go:112-119 | A Get that starts after a successful Add of its key returns the value that was added |
| `SkiplistSafety.CasLinks` | pkg/lsm/skiplist/skiplist.go:90-93 | A successful compare-and-swap puts the node between two neighbours that bracket its key |
| `SkiplistSafety.StopDecides` | pkg/lsm/skiplist/skiplist.go:177-195 | Where the walk of a level stops, the next key tells whether the key is on the level |
| `SkiplistSafety.SeekDecides` | pkg/lsm/skiplist/skiplist.go:199-224 | SeekGE and First take effect at their last load: the iterator then stands on the first node of the bottom level that is not below the target, or on none if there is none |
| `SkiplistSafety.WalkIncreases` | pkg/lsm/skiplist/iterator.go:29-53 | In every interleaving an iterator stands on linked nodes only, with strictly increasing keys, none below its target |
| `SkiplistSafety.WalkComplete` | pkg/lsm/skiplist/iterator.go:29-53 | A walk among concurrent Adds leaves out no node from its target on that was linked before the walk began: it has visited it or stands at or before it |
| `Memtables.FindIsLookup` | pkg/lsm/lsm.go:235-245 | A seek in one memtable gives what a plain map of its writes up to the sequence number holds, tombstones told apart from absence |
| `Memtables.Memtable.UpdateSeqRange` | pkg/lsm/memtable/memtable.go:118-139 | The recorded range is the least and the largest of all numbers given to the memtable, this one included |
| `Memtables.Memtable.Add` | pkg/lsm/memtable/memtable.go:43-54 | Adds exactly one version; a full arena leaves the contents as they were |
| `Memtables.Memtable.Get` | pkg/lsm/memtable/memtable.go:60-80 | The value of the newest visible version, nothing if that is a tombstone or there is none |
| `Memtables.LookupIsLatest` | pkg/lsm/lsm.go:185-223 | What the plain map holds after the writes up to s is the write of the key with the largest number up to s |
| `Memtables.DB.Rotate` | pkg/lsm/lsm.go:484-487 | Sealing keeps the log of writes; the sealed memtable goes to the end of the list |
| `Memtables.DB.SetOrDelete` | pkg/lsm/lsm.go:130-152 | Without overlapping calls every successful write is added at the end of the log with the next number: to the active memtable if it has room, and otherwise to a new one, the old one being sealed as it is |
| `Memtables.DB.Search` | pkg/lsm/lsm.go:205-223 | Searching the active and then the sealed memtables from new to old gives what the plain map of all writes up to s holds |
| `GetRuns.FindInMemtable` | pkg/lsm/lsm.go:235-245 | A search in the entries of one memtable finds its newest version up to s, and nothing exactly when it has none |
| `GetRuns.SearchRightIff` | pkg/lsm/lsm.go:205-223 | Searching from new to old finds the write of the key with the largest number up to s if and only if no newer memtable has a version of the key up to s |
| `GetRuns.GetInRun` | pkg/lsm/lsm.go:185-223 | So it is for the memtables that a Get has captured in any run of the database, with overlapping writers |
| `GetRuns.OverlapShowsOlder` | pkg/lsm/lsm.go:130-152 | Two overlapping calls for one key after which a Get finds the older write, both having returned |
| `Block.SharedPrefix` | pkg/lsm/sstable/block.go:102-120 | Eight bytes at a time or one by one, the result is the longest common prefix |
| `Block.BlockWriter.Add` | pkg/lsm/sstable/block.go:54-79 | The buffer is the encoding of the entries added so far, with a restart point every interval |
| `Block.BlockWriter.Finish` | pkg/lsm/sstable/block.go:83-95 | The finished bytes are the encoding of exactly the entries added |
| `Block.BlockWriter.EstimateExact` | pkg/lsm/sstable/block.go:98-100 | The estimated size is the exact length of the finished block |
| `Block.Decompress` | pkg/lsm/sstable/block.go:208-245 | Putting the shared prefix and the suffix together restores the key |
| `Block.RestartsAt` | pkg/lsm/sstable/block.go:54-95 | Restart k is the offset of entry k * interval, and there are just as many restarts as needed |
| `Block.EntryInBlock` | pkg/lsm/sstable/block.go:208-245 | Each field of each entry is found at its place in a finished block |
| `Block.BlockIterator.Next` | pkg/lsm/sstable/block.go:208-245 | Moves to the following entry with its whole key and value, false exactly at the end; the array of the previous key is overwritten exactly if the new key fits it, and is left as it was otherwise |
| `Block.BlockIterator.AppendKey` | pkg/lsm/sstable/block.go:237 | The key buffer as an append: same array while the key fits, a new one of any capacity otherwise |
| `Block.BlockIterator.First` | pkg/lsm/sstable/block.go:183-187 | Positions at the first entry; false exactly for an empty block |
| `Block.BlockIterator.DecodeKeyAt` | pkg/lsm/sstable/block.go:252-260 | Gives the whole key stored at a restart point |
| `Block.BlockIterator.SearchRestarts` | pkg/lsm/sstable/block.go:150-170 | Finds the last restart point below the target, or the first one |
| `Block.BlockIterator.SeekGE` | pkg/lsm/sstable/block.go:150-180 | Binary search plus scan lands on the first entry not below the target, for every sorted block and interval |
| `Bloom.ComputeHash` | pkg/lsm/sstable/bloom.go:124-153 | The loop computes the 32-bit hash of the key |
| `Bloom.BloomWriter.AddKey` | pkg/lsm/sstable/bloom.go:33-35 | Remembers the hash of the key |
| `Bloom.BloomWriter.Finish` | pkg/lsm/sstable/bloom.go:38-66 | In the encoded filter every probe bit of every added key is set |
| `Bloom.ComputeMayContain` | pkg/lsm/sstable/bloom.go:102-121 | Rejects a key exactly when one of its probe bits is not set |
| `Bloom.NLinesLeast` | pkg/lsm/sstable/bloom.go:167-178 | The least odd number of lines that has room for all bits |
| `Bloom.NoFalseNegative` | pkg/lsm/sstable/bloom.go:38-121 | A stored key is never rejected |
| `Crc.UpdateConcat` | pkg/crc/crc.go:25-36 | A checksum continued over a second piece is the checksum of both pieces in a row |
| `Crc.UpdateInjective` | pkg/crc/crc.go:25-36 | Continuing two different checksums over the same bytes gives two different checksums |
| `TableFormat.HandleRoundTrip` | pkg/lsm/sstable/format.go:61-77 | Decoding a block handle undoes encoding it and consumes exactly its bytes |
| `TableFormat.ChecksumIs` | pkg/lsm/sstable/format.go:88-94 | The checksum of a block is the CRC of its data and type in one piece |
| `TableFormat.ChecksumNotices` | pkg/lsm/sstable/format.go:88-94 | It changes with any single byte of data or type |
| `TableFormat.ShortSeparator` | pkg/lsm/sstable/writer.go:247-273 | A key from a up to, not including, b: cut behind the first byte in which they differ if there is a byte in between, and a itself otherwise |
| `TableFormat.ShortSuccessor` | pkg/lsm/sstable/writer.go:276-286 | A key above a, cut behind its last byte that is not 255 and counted up there; a itself if all bytes are 255 |
| `TableFormat.FooterHasRoom` | pkg/lsm/sstable/format.go:28-59 | Two handles of 64-bit numbers always leave room for the magic number |
| `TableFormat.FooterReads` | pkg/lsm/sstable/reader.go:125-142 | A written footer gives back its two handles and the magic number |
| `TableReader.ReadRawBlock` | pkg/lsm/sstable/reader.go:223-242 | On any file and handle: a panic exactly if the length with its trailer, modulo 2^64, cannot be allocated; the bytes if they are inside the file and match their checksum; an error otherwise |
| `TableReader.ChangeNoticed` | pkg/lsm/sstable/reader.go:223-242 | A written block in which any one byte has changed, of data, type or checksum, does not match its checksum, so reading it is an error |
| `TableReader.ReadFooter` | pkg/lsm/sstable/reader.go:125-142 | On any file: two handles behind the magic number, an error without it, and a panic exactly where the varints of the handles overflow |
| `TableReader.OverflowPanics` | pkg/lsm/sstable/format.go:73-77 | Footers on which reading panics: eleven bytes that all carry on |
| `TableReader.ReadFilter` | pkg/lsm/sstable/reader.go:155-177 | Finds the filter block through the metaindex |
| `TableReader.Open` | pkg/lsm/sstable/reader.go:44-67 | A written table opens, with its index and filter |
| `TableReader.Reader.FindDataBlock` | pkg/lsm/sstable/reader.go:180-198 | The one block that can hold the key, or not found when the key is above all separators |
| `TableReader.Reader.Get` | pkg/lsm/sstable/reader.go:90-116 | The value exactly when the key was written; the filter never hides a stored key |
| `TableReader.TableIterator.First` | pkg/lsm/sstable/reader.go:276-290 | Positions at the first entry of the table, false for an empty one |
| `TableReader.TableIterator.Next` | pkg/lsm/sstable/reader.go:293-303 | Moves to the following entry, across block ends, false exactly at the end of the table; inside a block the key goes into the array of the previous key if it fits, a new block has a new array |
| `TableReader.TableIterator.NextBlock` | pkg/lsm/sstable/reader.go:325-337 | Positions at the first entry of the following block |
| `TableReader.TableIterator.SeekGE` | pkg/lsm/sstable/reader.go:254-273 | Lands on the first entry not below the target, across blocks; after a seek that found nothing the old position is still reported as valid exactly when it was valid before and the target is above the last separator |
| `TableReader.AboveLastSeparator` | pkg/lsm/sstable/reader.go:254-260 | Every table that is not empty has a target above its last separator |
| `TableReader.SeekPastEnd` | pkg/lsm/sstable/reader.go:254-308 | For every such table and target: an iterator positioned by First finds nothing and goes on reporting itself valid |
| `TableReader.Scan` | pkg/lsm/sstable/reader.go:276-347 | First and Next enumerate exactly the entries of the table, in order |
| `TableReader.FirstInNextBlock` | pkg/lsm/sstable/reader.go:254-274 | If a block has no entry from the target on, the first such entry opens the next block |
| `TableReader.BelowMeansAbsent` | pkg/lsm/sstable/reader.go:180-198 | If no separator reaches the key, no entry has it |
| `TableWriter.Writer.Add` | pkg/lsm/sstable/writer.go:73-107 | The entry is added at the end, or refused exactly because its key is not above the last one |
| `TableWriter.Writer.FlushWhenFull` | pkg/lsm/sstable/writer.go:98-103 | A block goes to the file exactly when its finished bytes reach the block size: every finished block has reached it with its last entry and not before |
| `TableWriter.OrderCheckIff` | pkg/lsm/sstable/writer.go:73-76 | The order check accepts exactly the keys above the previous one, except when the previous and the new key are both empty |
| `TableWriter.Writer.WriteBlock` | pkg/lsm/sstable/writer.go:204-223 | Data, type and checksum go to the end of the file; the handle says where |
| `TableWriter.Writer.FlushDataBlock` | pkg/lsm/sstable/writer.go:180-193 | The open block goes to the file and waits for its separator |
| `TableWriter.Writer.ResolvePending` | pkg/lsm/sstable/writer.go:78-85 | The pending block gets a separator between its last key and the next one |
| `TableWriter.Writer.FinishData` | pkg/lsm/sstable/writer.go:111-124 | The last block is written with a successor of its last key |
| `TableWriter.Writer.WriteTail` | pkg/lsm/sstable/writer.go:136-177 | Metaindex, index and footer follow the data |
| `TableWriter.Writer.Close` | pkg/lsm/sstable/writer.go:110-178 | The finished file is a table of exactly the entries added, with their count and key range; its blocks are cut at the block size, all but the last having reached it with their last entry and not before; its properties block holds the counts |
| `TableRoundTrip.WriteTable` | pkg/lsm/flush.go:23-37 | Feeding a strictly sorted list to a writer gives a table of that list, for all block sizes and restart intervals, cut into blocks where they reach the size |
| `TableRoundTrip.WriteThenScan` | pkg/lsm/sstable/reader.go:246-347 | The file written is a table of the entries, and reading it back enumerates exactly them, in order |
| `TableRoundTrip.WriteThenGet` | pkg/lsm/sstable/reader.go:90-116 | Looking a key up in the file written gives its value exactly when it was written |
| `Merge.MergeIterator.Up` | pkg/lsm/merge_iterator.go:31-50 | Sift-up restores the heap order and permutes the heap |
| `Merge.MergeIterator.Down` | pkg/lsm/merge_iterator.go:31-50 | Sift-down restores the heap order below a changed item and permutes the heap |
| `Merge.MergeIterator.Push` | pkg/lsm/merge_iterator.go:41-43 | Adds one source and keeps the order |
| `Merge.MergeIterator.Pop` | pkg/lsm/merge_iterator.go:44-50 | Removes exactly the top, even when the top is out of order |
| `Merge.MergeIterator.Fix` | pkg/lsm/merge_iterator.go:96-102 | Restores the order after the top source has advanced |
| `Merge.MergeIterator.First` | pkg/lsm/merge_iterator.go:71-80 | Every source at its start, the heap in order, valid exactly when some source has an entry |
| `Merge.MergeIterator.SeekGE` | pkg/lsm/merge_iterator.go:59-68 | Every source at its first entry not below the key |
| `Merge.MergeIterator.Next` | pkg/lsm/merge_iterator.go:83-104 | Takes exactly the current key out of the union, moving on just the sources that stand on it; the number of remaining entries drops |
| `Merge.MergeIterator.Current` | pkg/lsm/merge_iterator.go:107-119 | The current entry is the least key of what is to come, with the value of the lowest source that holds it |
| `Merge.Drain` | pkg/lsm/merge_iterator.go:71-104 | A full scan yields the strictly sorted union, once per key, with the value of the lowest-index source |
| `Merge.SeekIsSuffix` | pkg/lsm/merge_iterator.go:59-68 | After a seek the union is the part of the whole that is not below the key, with the same values |
| `Merge.SortedUnique` | pkg/lsm/merge_iterator.go:71-104 | A sorted list is determined by its contents, so the result of a scan is unique |
| `Merge.TopDecides` | pkg/lsm/merge_iterator.go:32-39 | Among equal keys the top of the heap is the source with the lowest index |
| `Merge.StepDrops` | pkg/lsm/merge_iterator.go:83-104 | The same of the sources alone: the one before all others has the least key and its value, and a step takes out that key only |
| `KeyBuffers.SkipRightIff` | pkg/lsm/lsm.go:708-715 | The user key to skip is a slice of a buffer. The skip leaves exactly the other user keys if and only if the buffer is not written to when its source comes to another user key, or no other source holds an older version by then and the least other user key is not that one with the same length |
| `KeyBuffers.SkipsRightIff` | pkg/lsm/lsm.go:635-656 | Every skip of a scan is right if and only if the sources are: for the newest version of each user key, at position p of the lowest source that holds it, the array is not written to when that source comes to another user key, or no version of the key sorts behind the run there and the least larger user key stored anywhere is not that one with the same length. This names positions and stored keys only, not the scan |
| `KeyBuffers.SourcesStep` | pkg/lsm/lsm.go:708-715 | The sources are right if and only if the first skip is and what it leaves is right |
| `KeyBuffers.NextPassedIff` | pkg/lsm/lsm.go:690-715 | With the buffer reused and its source on top again, the next entry is passed exactly when its user key has the same length |
| `KeyBuffers.SkipsSameLength` | pkg/lsm/lsm.go:690-715 | With one table block left, everything is passed up to the first user key of another length |
| `KeyBuffers.StayingAllRight` | pkg/lsm/lsm.go:708-715 | A simpler condition that is enough: where an array gets another user key, that one has another length and no other source holds the old one |
| `KeyBuffers.MemtablesStay` | pkg/lsm/skiplist/iterator.go:52-65 | Memtables, whose keys are slices of the arena, reuse no buffer |
| `DBIterators.DBIterator.SkipUserKey` | pkg/lsm/lsm.go:708-715 | Moves on while the current user key is what the slice reads as now, buffer contents included |
| `DBIterators.DBIterator.FindNextVisible` | pkg/lsm/lsm.go:687-705 | The first current entry that is a set, with a skip behind it and behind every deletion before it |
| `DBIterators.FindShows` | pkg/lsm/lsm.go:687-705 | If the sources are right: the least user key whose newest version is a set, with that value, and exactly the user keys above it are left |
| `DBIterators.DBIterator.First` | pkg/lsm/lsm.go:636-642 | If the sources are right, the first visible user key; in any case the search from the start with the buffers as they are |
| `DBIterators.DBIterator.Next` | pkg/lsm/lsm.go:645-656 | If the sources are right, the visible user key after the current one; in any case the search from where the last one stopped |
| `DBIterators.DBIterator.SeekGE` | pkg/lsm/lsm.go:611-633 | If the sources are right, for every target: the first visible user key of what is reached, that is of the versions from the target on that do not sort below the seek key |
| `DBIterators.ScanAll` | pkg/lsm/lsm.go:635-656 | If the sources are right, strictly increasing user keys: exactly those whose newest version is a set, each with that value; in any case what the searches yield one after the other |
| `DBIterators.ScanYields` | pkg/lsm/lsm.go:635-656 | If the sources are right, the list of everything that the searches yield shows exactly the visible user keys |
| `DBIterators.BlockScan` | pkg/lsm/lsm.go:687-715 | A table of one block with user keys of one length: a scan shows its first entry and nothing else |
| `DBIterators.SecondKeyLost` | pkg/lsm/lsm.go:687-715 | Set("a"), Set("b"), flush, scan: the scan does not show "b" |
| `DBIterators.OlderShownAgain` | pkg/lsm/lsm.go:687-715 | With an older version in another source, a scan shows the user key a second time with the older value |
| `DBIterators.SuchVersions` | pkg/lsm/memtable/internalkey.go:40-47 | Three internal keys with which that happens: versions 2 and 1 of "a", and "b" |
| `DBIterators.LeftBehind` | pkg/lsm/lsm.go:611-616 | Which versions the seek leaves behind, exactly: those whose user key extends the target by bytes that sort, with their trailer, below the trailer of the seek key |
| `DBIterators.SeekReachesWithoutZero` | pkg/lsm/lsm.go:611-633 | Nothing is left behind when no stored user key extends the target with a zero byte |
| `DBIterators.SeekRightIff` | pkg/lsm/lsm.go:611-633 | A seek shows everything from the target on as it should if and only if, for each user key whose newest version is left behind, the newest version that is reached says the same |
| `DBIterators.SeekAnswerIff` | pkg/lsm/lsm.go:611-633 | The first answer of a seek is right under exactly the same condition |
| `DBIterators.SeekLosesKey` | pkg/lsm/lsm.go:611-616 | A key that a seek loses altogether: the target followed by eight zero bytes |
| `DBIterators.SeekShowsOlder` | pkg/lsm/lsm.go:611-616 | A key of which a seek shows an old value: the target followed by a zero byte, its newest version left behind and version 1 not |
| `Visibility.VisibleOnce` | pkg/lsm/lsm.go:687-705 | A user key shows at most one value |
| `Visibility.LeastKey` | pkg/lsm/lsm.go:687-705 | The least internal key is the newest version of the least user key |
| `Versions.Encode` | pkg/lsm/version.go:61-99 | The buffer is the concatenation of the tagged fields of the edit, in order |
| `Versions.Decode` | pkg/lsm/version.go:102-181 | On any bytes: the edit that the fields build up, an error for an unknown tag or bad number, a panic for a key length beyond the record |
| `Versions.DecodeOfEncode` | pkg/lsm/version.go:61-181 | Decoding undoes encoding for every edit whose numbers fit 64 bits, negative levels included |
| `Versions.Apply` | pkg/lsm/version.go:212-254 | Filtering, appending and sorting in place give the new levels |
| `Versions.AppliedExactly` | pkg/lsm/version.go:212-254 | The live files after an edit are exactly the old ones whose numbers are not deleted, on any level, and the new ones of their level |
| `Versions.SortInOrder` | pkg/lsm/version.go:246-251 | Files with separate key ranges end up in the order of their ranges |
| `Versions.OrderUnique` | pkg/lsm/version.go:246-251 | That order is the only sorted one, so the result does not depend on the sorting algorithm |
| `Versions.Overlapping` | pkg/lsm/version.go:257-266 | Exactly the files of the level whose range meets the given one, in order |
| `VersionSets.VersionSet.AllocFileNum` | pkg/lsm/version.go:330-332 | A number above that of every live file, never given out again |
| `VersionSets.VersionSet.LogAndApply` | pkg/lsm/version.go:335-364 | The manifest grows by exactly the record of the edit, and the live version stays the fold of all logged edits |
| `VersionSets.VersionSet.Recover` | pkg/lsm/version.go:367-415 | On any manifest: the state that its records build up, an error for a short or bad record |
| `VersionSets.ReplayAll` | pkg/lsm/version.go:367-415 | Replaying the manifest folds exactly the logged edits from the empty version |
| `VersionSets.ReplayCut` | pkg/lsm/version.go:367-415 | A manifest cut at any byte is accepted exactly when the cut falls between two records, and then gives the records before it |
| `VersionSets.WholeIsLargest` | pkg/lsm/version.go:367-415 | The records before a cut are the largest number of whole records that fit |
| `VersionSets.Reopen` | pkg/lsm/version.go:367-415 | Opening again gives the live version, and the next file number exceeds every live file number |
| `Compactions.LevelSize` | pkg/lsm/version.go:269-275 | The sum of the file sizes modulo 2^64 |
| `Compactions.TargetLevelSize` | pkg/lsm/compaction.go:206-212 | 4 MB times ten to the power of the level minus one |
| `Compactions.TargetFileSize` | pkg/lsm/compaction.go:215-221 | 2 MB doubled per level |
| `Compactions.KeyRange` | pkg/lsm/compaction.go:224-234 | The range the loop computes, a nil bound taken for "not set"; the bounds of an empty table are nil unless they have been read back from the manifest |
| `Compactions.RangeCoversIff` | pkg/lsm/compaction.go:224-234 | The range covers every file if and only if no table is empty, or an empty one has been read back from the manifest, or the last one is empty |
| `Compactions.PickL0` | pkg/lsm/compaction.go:41-58 | All of level 0 and what meets the computed range, whatever the files; a range that covers them under the condition above |
| `Compactions.PickLevel` | pkg/lsm/compaction.go:61-83 | The largest file of the level, and the files of the next level that meet its range |
| `Compactions.PickCompaction` | pkg/lsm/compaction.go:20-38 | Picks the first level that is due, nothing exactly when no level is due; what it picks can be merged under the condition above |
| `CompactionMerge.MergeTables` | pkg/lsm/compaction.go:104-171 | The outputs hold the sorted union of the inputs, in disjoint ascending ranges with true metadata and the sizes reported, each cut with the first entry that reaches the target size |
| `CompactionMerge.FinishOutput` | pkg/lsm/compaction.go:113-140 | Closes the current table with its number, level, reported size and range |
| `CompactionTree.MergedFrom` | pkg/lsm/compaction.go:144-167 | Every merged entry comes from one of the input tables |
| `CompactionTree.MergedKeeps` | pkg/lsm/compaction.go:144-167 | No key of an input table is lost in the merge |
| `CompactionTree.MergedNums` | pkg/lsm/version.go:216-232 | Deleting by file number deletes exactly the merged files |
| `CompactionTree.OneSide` | pkg/lsm/compaction.go:40-83 | A file of the output level that was not picked lies entirely on one side of everything merged |
| `CompactionTree.OutputsApart` | pkg/lsm/compaction.go:40-83 | Each output is apart from every file that stays in its level |
| `CompactionTree.CompactionDisjoint` | pkg/lsm/compaction.go:173-192 | After the edit levels 1 to 6 are sorted and disjoint |
| `CompactionTree.CompactionKeepsTree` | pkg/lsm/compaction.go:85-203 | A compaction keeps true metadata, unique file numbers and disjoint levels, also when flushes have added files since it was picked |
| `CompactionTree.CompactionKept` | pkg/lsm/compaction.go:85-203 | Empty tables or not: a compaction keeps internal keys and file numbers unique and every live file on disk |
| `CompactionTree.CompactionReplaces` | pkg/lsm/compaction.go:173-192 | After a compaction the files of a level are exactly those that were there and were not merged, and in the output level the outputs; entries and removals on disk accordingly |
| `EmptyTables.OverlookedOverlaps` | pkg/lsm/compaction.go:40-83 | A merge of any pick that leaves out a file of the output level around a merged key puts that level out of order |
| `EmptyTables.ExampleInShape` | pkg/lsm/compaction.go:224-234 | Two flushed keys compacted into level 1, newer versions of them flushed, an empty memtable flushed, two more flushes: but for the empty table a tree in shape |
| `EmptyTables.ExamplePick` | pkg/lsm/compaction.go:41-58 | With those four tables level 0 is due, the range starts at the third table, and the file of level 1 with the older versions is not picked |
| `EmptyTables.EmptyTableBreaksLevel` | pkg/lsm/compaction.go:85-203 | Whatever tables the merge of that pick puts out, level 1 is not disjoint afterwards |
| `CompactionRuns.NothingNew` | pkg/lsm/compaction.go:85-203 | A compaction stores no entry that was not stored |
| `CompactionRuns.NoKeyLost` | pkg/lsm/compaction.go:85-203 | A compaction loses no internal key |
| `CompactionRuns.CompactionKeepsEntries` | pkg/lsm/compaction.go:85-203 | With unique internal keys the stored entries after a compaction are exactly those before, also when tables are empty |
| `CompactionRuns.FlushKeepsTree` | pkg/lsm/flush.go:14-56 | Publishing a flushed table that is not empty keeps the tree in shape |
| `CompactionRuns.FlushKeepsKept` | pkg/lsm/flush.go:14-56 | Publishing a table, empty or not, keeps internal keys and file numbers unique and every live file on disk |
| `CompactionRuns.FlushAdds` | pkg/lsm/flush.go:14-56 | Publishing a flushed table stores exactly its entries in addition |
| `CompactionRuns.FlushKeepsPick` | pkg/lsm/lsm.go:532-537 | A flush does not disturb a compaction that has been picked |
| `CompactionRuns.CompactionDecreases` | pkg/lsm/compaction.go:85-203 | The sum over stored entries of their distance from level 6 strictly drops |
| `CompactionRuns.Lsm.Flush` | pkg/lsm/flush.go:14-56 | One new table at the end of level 0 with its number, range and entries, all deeper levels unchanged |
| `CompactionRuns.Lsm.RunCompaction` | pkg/lsm/compaction.go:86-203 | Merges, publishes and removes: the outputs, cut at the target size of their level and with the sizes reported, replace the merged files; keeps the tree, the entries, and lowers the measure |
| `CompactionRuns.Lsm.DoCompaction` | pkg/lsm/lsm.go:564-581 | Without flushes the loop ends, no level is due afterwards, and the stored entries are the same |
| `Databases.InvStep` | pkg/lsm/lsm.go:130-152 | Each step of a writer, the flush loop, the compaction loop or a reader keeps the database invariant, flushes of empty memtables included |
| `Databases.InvPublishTable` | pkg/lsm/lsm.go:532-537 | Publishing a flushed table keeps the invariant; from then on its memtable may go |
| `Databases.InvDropMemtable` | pkg/lsm/lsm.go:539-542 | Dropping the flushed memtable loses no write, because its table is already published |
| `Databases.InvPublishMerge` | pkg/lsm/compaction.go:173-192 | Publishing a merge keeps the invariant under interleaved flushes (what it changes is `DatabaseHistory.MergePublished`) |
| `Databases.CaptureOk` | pkg/lsm/lsm.go:187-226 | What has returned is in the memtables that are copied or in a version published before, and stays in every later version |
| `DatabaseRuns.ContentsExact` | pkg/lsm/lsm.go:517-549 | After every run the memtables that are not dropped and the live tables hold exactly the successful writes |
| `DatabaseRuns.TablesChange` | pkg/lsm/lsm.go:517-581 | Of all steps only publishing a flush changes what is stored, by adding exactly the flushed entries |
| `DatabaseHistory.MergePublished` | pkg/lsm/compaction.go:173-192 | In every run, publishing a merge replaces the merged files: they are gone from their levels and from disk, the outputs are live one level below the one picked with their entries on disk, everything else is where it was |
| `DatabaseHistory.LiveIff` | pkg/lsm/version.go:212-254 | After every run a file is live in a level and holds these entries if and only if a flush or a compaction in the history has put it there with them and no later compaction has merged it |
| `DatabaseHistory.WholeFlush` | pkg/lsm/lsm.go:517-549 | From every state with a sealed memtable a flush gets through: its table is live in level 0 and the memtable is gone |
| `DatabaseHistory.WholeCompaction` | pkg/lsm/compaction.go:85-203 | From every state with a level that is due a compaction gets through, and what it puts out replaces what it has merged |
| `DatabaseCalls.MemtableIff` | pkg/lsm/lsm.go:130-152 | After every run the writes in a memtable are exactly those of the calls that found room in it, each with the key, kind and value of its call and the number of its turn |
| `DatabaseCalls.WrittenIff` | pkg/lsm/lsm.go:130-152 | The successful writes are exactly those of the calls that have inserted |
| `DatabaseCalls.ReturnedIff` | pkg/lsm/lsm.go:130-152 | The writes that count as returned are exactly those whose call has inserted them and then returned |
| `DatabaseCalls.Counted` | pkg/lsm/lsm.go:130-152 | Sequence numbers, memtables, dropped memtables and file numbers are the counts of the actions that give them out |
| `DatabaseCalls.CaptureIs` | pkg/lsm/lsm.go:185-196 | What a reader holds came from three actions in the order of its kind: the returned writes when it began, the memtables not dropped and the live version at the moments it copied and loaded them |
| `DatabaseShapes.ShapeStep` | pkg/lsm/lsm.go:517-581 | Each step other than the flush of an empty memtable keeps the tree in shape, the flush under way publishable and the compaction under way standing |
| `DatabaseShapes.TreeAlwaysOk` | pkg/lsm/version.go:212-254 | After every run without empty flushes levels 1 to 6 are sorted and disjoint, metadata is true and file numbers are unique |
| `DatabaseShapes.TreeAlwaysKept` | pkg/lsm/version.go:212-254 | After every run file numbers and stored internal keys are unique, and every live file is on disk |
| `DatabaseRuns.MustIsReturned` | pkg/lsm/lsm.go:185-196 | What a read has to see is what had returned when it began |
| `DatabaseRuns.CaptureComplete` | pkg/lsm/lsm.go:375-387 | Every write that returned before a Get or NewIterator began is in its captured memtables or version, for every interleaving |
| `Snapshots.OriginsRun` | pkg/lsm/lsm.go:517-549 | After every run each write is in one memtable, and tables hold writes of the memtables whose tables are published only |
| `Snapshots.SnapshotMisses` | pkg/lsm/lsm.go:432-453 | NewSnapshot, which loads the version first, captures every returned write if and only if none of them sits in a memtable that was not published when the version was loaded and was dropped before the memtables were copied |
| `Snapshots.SnapshotLosesWrite` | pkg/lsm/lsm.go:432-453 | A concrete run in which a snapshot misses a returned write |
| `LastNumbers.CoveredIff` | pkg/lsm/lsm.go:135-136 | At every moment the logged number covers all numbers stored so far, if and only if each call stores a number above the one stored before |
| `LastNumbers.WritesCovered` | pkg/lsm/lsm.go:135-144 | Then it covers every write |
| `LastNumbers.LastNumberCovers` | pkg/lsm/lsm.go:135-136 | So it is when calls take and store their numbers in turn; between the calls it is the last number taken |
| `LastNumbers.LastNumberFallsBack` | pkg/lsm/lsm.go:135-136 | A concrete run with two overlapping calls after which the logged number is below that of a returned write |
| `Reads.UnionWritten` | pkg/lsm/lsm.go:389-419 | Everything that the merge over captured memtables and tables yields is a write, with its value, also when others write to the memtables meanwhile |
| `Reads.NewestIsLater` | pkg/lsm/lsm.go:375-427 | The newest version of a captured write's key in the merge is that write or a later one |
| `Reads.ScanShowsLater` | pkg/lsm/lsm.go:371-427 | A scan that overlaps any steps of writers, flushes and compactions shows, of a write that had returned before NewIterator began, that write or a later one of its key, if its sources are right |
| `Reads.ReadYourWrites` | pkg/lsm/lsm.go:371-427 | If no other write of its key follows by the end of the scan, it shows that write, and nothing of its key for a deletion |
| `VersionGet.SearchFiles` | pkg/lsm/lsm.go:277-280 | Binary search finds the first file whose largest user key is not below the key |
| `VersionGet.SearchedIsFirst` | pkg/lsm/lsm.go:277-287 | The search finds the first file in range, if there is one |
| `VersionGet.InOrderUserOrder` | pkg/lsm/lsm.go:270-287 | Disjoint internal key ranges give ordered user keys when no user key is a prefix of another |
| `VersionGet.GetFromVersion` | pkg/lsm/lsm.go:248-302 | The answer is that of the table v[0][i] with the largest i whose range takes in the key; without one, that of the first file in range of the shallowest level that has one; without any, "not found". That table answers for all, whether or not it holds the key, because a miss has the kind of a deletion |
| `VersionGet.AnswerIs` | pkg/lsm/lsm.go:248-302 | The function that specifies the read picks the table by these indices |
| `VersionGet.LaterAnswers` | pkg/lsm/lsm.go:251-268 | Of two tables of level 0 in range the later one answers, or one that is later still |
| `VersionGet.DeciderExists` | pkg/lsm/lsm.go:248-302 | If some table has a version of the key, some table decides |
| `VersionGet.FindIsNewest` | pkg/lsm/lsm.go:306-330 | Searching one table finds its newest version up to s, and nothing exactly when it has none |
| `VersionGet.ReadRightIff` | pkg/lsm/lsm.go:248-302 | The read answers from the newest live version if and only if the deciding table has that version, or its own newest version up to s says the same; without any version of the key there it answers "not found" |
| `VersionGet.OlderTableHidden` | pkg/lsm/lsm.go:258-264 | A well-formed tree in which a newer table without the key hides the older table that has it |
| `PageWriters.PageWriter.constructor` | pkg/wal/pagewriter.go:35-49 | Defaults for sizes that are not positive; nothing written |
| `PageWriters.PageWriter.Flush` | pkg/wal/pagewriter.go:109-117 | All buffered bytes reach the sink, in order, and the page offset follows |
| `PageWriters.PageWriter.FillPage` | pkg/wal/pagewriter.go:60-77 | Fills the current page and no more, staying inside the buffer |
| `PageWriters.PageWriter.WriteTail` | pkg/wal/pagewriter.go:84-105 | Whole pages go out directly, the rest fits the buffer |
| `PageWriters.PageWriter.Write` | pkg/wal/pagewriter.go:52-106 | Sink and buffer together are all bytes written in order; nothing goes out while the data fits the buffer; every write to the sink ends on a page boundary; the buffer never overflows, for all buffer and page sizes |
| `WalRecords.Unmarshal` | pkg/wal/decoder.go:77-84 | On any bytes: the record that the fields build up, or an error |
| `WalRecords.ParseOfMarshal` | proto/indexedwatch/wal/v1/record.proto:12-16 | Unmarshalling undoes marshalling for every record |
| `WalRecords.UnframeOfFrame` | pkg/wal/encoder.go:111-118 | Decoding the length field undoes encoding it; frames are multiples of eight bytes; the field is zero only for an empty payload |
| `WalRecords.FrameLayout` | pkg/wal/decoder.go:108-114 | Length field, payload and padding are found where the frame stands in a file |
| `WalDecoders.IsTornEntry` | pkg/wal/decoder.go:118-141 | True exactly when some sector's part of the data is all zero |
| `WalDecoders.Decoder.Decode` | pkg/wal/decoder.go:39-105 | On any file: the next record, or which of the five ways of stopping applies; the last valid offset moves only past records |
| `WalDecoders.ReadToEnd` | pkg/wal/wal.go:366-379 | Reads exactly the records up to the first thing that is not one |
| `WalDecoders.ReadStored` | pkg/wal/decoder.go:77-98 | A whole record that the encoder wrote is read back, in step with the CRC chain |
| `WalDecoders.ScanReads` | pkg/wal/decoder.go:39-105 | A chain of records followed by zeros or the head of a record is read back completely, without an error |
| `WalDecoders.ScanCut` | pkg/wal/decoder.go:39-105 | A segment cut at any byte yields exactly the records wholly inside the cut, with the offset behind the last one and the running CRC up to it |
| `WalDecoders.ScanPast` | pkg/wal/decoder.go:39-105 | Behind any chain of records the scan goes on as if it had started there, with the running CRC of the chain |
| `WalCrashes.ReadFate` | pkg/wal/decoder.go:39-105 | What the decoder makes of a record of which any number of bytes arrived in front of any number of zeros: whole, the end, refused, or another record |
| `WalCrashes.ScanCrashed` | pkg/wal/decoder.go:39-105 | A segment after a crash, for every number of bytes that arrived and of zeros behind them: exactly the records before the one that was hit, and then what that one is taken for |
| `WalCrashes.ScanAppended` | pkg/wal/decoder.go:39-105 | A record appended to an opened segment is read back if the encoder started with the CRC that the scan ended with; otherwise the scan ends in front of it, at a torn or mismatched record |
| `WalCrashes.AppendToOpened` | pkg/wal/wal.go:360-410 | On any file: opened, given one more record and read back, the payload comes behind what was there if and only if the scan and the encoder agree on the running CRC |
| `WalCrashes.RefusedInSector` | pkg/wal/decoder.go:118-141 | A record inside one sector of which the length field and one byte arrived in front of zeros makes the log refused |
| `WalCrashes.FirstPayloadRefused` | pkg/wal/wal.go:309-318 | So with the first payload of a new segment whose file was preallocated, if it is a single byte: the byte at which the crash has to fall |
| `WalCrashes.TornAtSector` | pkg/wal/decoder.go:80-98 | A record lost from the start of a sector on, inside its data, still parses; if its checksum fails, the scan ends there and the running CRC has moved |
| `WalCrashes.SomePayloadStrays` | pkg/wal/decoder.go:80-98 | Wherever a record stands and whatever the running CRC, some payload of 2000 bytes is torn that way |
| `Wals.Encoder.Encode` | pkg/wal/encoder.go:62-106 | Exactly the frame of the record is added, its CRC covering its data and everything before |
| `Wals.ZeroToEnd` | pkg/wal/wal.go:480-507 | Everything from the position on is zero, the size unchanged |
| `Wals.OpenSegment` | pkg/wal/wal.go:360-410 | On any file: an error exactly for corrupt records; otherwise the valid records stay, the rest is zeroed, and the encoder starts with the CRC that the decoder has, which a torn record whose checksum fails has moved on |
| `Wals.ReadSegment` | pkg/wal/wal.go:443-474 | The payloads of the data records up to the end or the torn tail; an error exactly for corrupt records |
| `Wals.RunningCrc` | pkg/wal/encoder.go:62-106 | Each stored CRC is one running CRC over all record data of all segments up to that record |
| `Wals.FilesScanned` | pkg/wal/decoder.go:39-105 | Scanning segment files gives back exactly what was logged in them, payloads and snapshot markers in order |
| `WalLogs.Wal.constructor` | pkg/wal/wal.go:50-88 | A first segment that begins with a CRC record of zero |
| `WalLogs.Wal.CreateSegment` | pkg/wal/wal.go:303-350 | A fresh file whose first record carries the CRC to continue from |
| `WalLogs.Wal.Rotate` | pkg/wal/wal.go:415-427 | The log and the CRC chain continue in a new segment |
| `WalLogs.Wal.LogRecord` | pkg/wal/wal.go:93-130 | Rotation when the segment is full, then the record: the whole new log, segment and position |
| `WalLogs.Wal.Append` | pkg/wal/wal.go:93-130 | The payload is logged at the end, in a new segment exactly if the offset has reached the segment size, whatever is returned; an error is returned exactly when the running CRC is zero for non-empty data; the offset is the real one exactly when the segment held less than a page when it was opened |
| `CrcZeros.ZeroChecksum` | pkg/crc/crc.go:25-36 | Four bytes whose checksum from zero is zero |
| `WalLogs.RefusedYetStored` | pkg/wal/wal.go:93-130 | Appending them to a new log reports an error, and reading the log gives them back |
| `WalLogs.Wal.SaveSnapshot` | pkg/wal/wal.go:136-177 | A marker record with the given bytes is the last record of the log, behind what was in the segment, or behind the CRC record of a segment just opened if the old one was full; it is flushed at once, and the payloads stay the same |
| `WalLogs.Wal.ReadAll` | pkg/wal/wal.go:189-216 | Exactly the appended payloads in order, over all segments |
| `WalLogs.Wal.Close` | pkg/wal/wal.go:219-244 | Everything buffered reaches the file |
| `WalLogs.OpenLog` | pkg/wal/wal.go:360-410 | On any last file: nothing exactly if its scan ends at a corrupt record; if the valid part is that of a segment, the log that the files hold goes on |
| `WalLogs.CloseAndReopen` | pkg/wal/wal.go:218-244 | Closing and opening again changes neither the log nor the CRC chain |
| `WalLogs.CrashAndReopen` | pkg/wal/wal.go:360-410 | A crash leaves any number of bytes of the current file in front of any number of zeros. The log is refused exactly if the record that was hit is refused; if that record goes on, the log is that of the records kept, and the CRC chain goes on exactly if a record of the segment is left or the chain was at zero |
| `WalLogs.RunAll` | pkg/wal/wal.go:93-130 | For every run of Append, SaveSnapshot, Sync, rotation and close/reopen, ReadAll returns exactly the appended payloads, and scanning the files gives back payloads and snapshot markers in the order of the calls, in one CRC chain through all segments |
| `WalLogs.LogScanned` | pkg/wal/wal.go:189-216 | Scanning the files of a flushed log gives back all its payloads and markers in order |
| `WalLogs.RunAfterCrash` | pkg/wal/wal.go:360-410 | After such a crash and any further calls, ReadAll returns the survivors followed by the new payloads, and the log holds the surviving markers and the new ones in order, if the record that was hit goes on |
| `WalLogs.CutGoesOn` | pkg/wal/wal.go:360-410 | A file that is cut, at any byte, always goes on |
| `WalLogs.AppendAfterCrash` | pkg/wal/wal.go:360-410 | Whatever the crash left: the segment opens exactly if the record that was hit is not refused, and survivors and new payload are read back if and only if that record goes on or passes for another one that is no data |
| `SyncGroup.InvStep` | pkg/wal/sync_group.go:33-76 | Each step of a caller, of the leader or of an append keeps the group commit invariant |
| `SyncGroup.ReturnedIsDurable` | pkg/wal/sync_group.go:33-76 | A call that has returned was covered by a run of the sync function that began after it; if that run succeeded, everything appended before the call is durable |
| `SyncGroup.ResultIsSyncs` | pkg/wal/sync_group.go:55-60 | A call gets "no error" if and only if the sync function reported success when it ended the run that covered the call, and an error if and only if it reported one |
| `SyncGroup.ResultExists` | pkg/wal/sync_group.go:55-60 | For every call with a result the history has the action by which the sync function returned it |
| `SyncGroup.CoveredBySync` | pkg/wal/sync_group.go:33-76 | In the history of every call that has a result: the sync function was called after the call entered and returned just that result, and nothing was appended in between |
| `SyncGroup.DurableFrom` | pkg/wal/sync_group.go:10-15 | What counts as durable is exactly what had been appended when a successful run of the sync function began |
| `SyncGroup.LockedIff` | pkg/wal/wal.go:78-88 | The log is locked exactly while the leader runs the sync function |
| `SyncGroup.WorkDrops` | pkg/wal/sync_group.go:33-76 | Every step of a call lowers a bound on the steps left, so without new calls no order of steps goes on for ever |
| `SyncGroup.AllReturn` | pkg/wal/sync_group.go:33-76 | From every reachable state the calls under way can all be finished without new ones, whatever the sync function returns: no deadlock |
| `SyncGroup.NobodyStranded` | pkg/wal/sync_group.go:36-41 | Whoever waits is in exactly one of the pending list and the batch of the one active leader |
| `SyncGroup.ResultStays` | pkg/wal/sync_group.go:57-60 | A call is notified at most once; its result never changes |
| `Cache.BlockCache.PushFront` | pkg/lsm/sstable/cache.go:99-109 | The linked list gains the node at its head |
| `Cache.BlockCache.Remove` | pkg/lsm/sstable/cache.go:119-132 | The linked list loses exactly the node |
| `Cache.BlockCache.MoveToFront` | pkg/lsm/sstable/cache.go:111-117 | The node becomes the head, the rest keeps its order |
| `Cache.BlockCache.EvictTail` | pkg/lsm/sstable/cache.go:134-142 | List, map and byte count lose exactly the least recently used block |
| `Cache.BlockCache.Get` | pkg/lsm/sstable/cache.go:40-51 | The block if it is cached, moved to the front of the recency list |
| `Cache.BlockCache.Set` | pkg/lsm/sstable/cache.go:54-76 | A new block goes to the front and the recency list is trimmed to the capacity; a cached one only moves to the front |
| `Cache.TrimIsPrefix` | pkg/lsm/sstable/cache.go:72-75 | Trimming keeps the longest most recently used part that fits |
| `Cache.BlockCache.Evict` | pkg/lsm/sstable/cache.go:79-97 | Exactly the blocks of the file are removed, the rest keeps its order |
| `Cache.ReadDataBlock` | pkg/lsm/sstable/reader.go:201-220 | A read through the cache succeeds exactly when an uncached read does, with the same bytes; a cached block moves to the front, one that was read goes in there and the list is trimmed, a failed read changes nothing |

## Left out

- DBIterators.ScanAll: is proved to show exactly the visible keys when its sources are right, which is exactly when every skip is right (`KeyBuffers.SkipsRightIff`). The converse is not claimed for the list as a whole: a wrong skip can pass over nothing but a deletion, or two can cancel out.
- DBIterators.DBIterator.SeekGE: shows what is reached; whether that is all from the target on is decided by `DBIterators.SeekRightIff`.
- Reads.ScanShowsLater: has the guards of the scan, right sources and user keys that are no prefixes of each other.
- TableReader.ReadRawBlock: 2^48 bytes stands for the largest allocation of a 64-bit machine; what a smaller one does when memory is short is not modelled.
- TableReader.Open: opens well-formed tables only; on other files the blocks behind the footer are parsed without checks that the model would have to follow byte by byte.
- TableWriter.Writer.Add: a second empty key, which the order check lets pass (`TableWriter.OrderCheckIff`), is excluded, because what follows is no longer a sorted table.
- Bloom.BloomWriter.Finish: the number of probes is a parameter, because the source computes it with floating point.
- Memtables.Memtable.UpdateSeqRange: the compare-and-swap loops are one update; nothing reads the range while they run.
- Memtables.Memtable.Add: whether the arena has room is a parameter; how room is claimed is `SkiplistSafety.AddOutcome`, `SkiplistProgress.AddAlone` and `Arenas.Arena.Alloc`.
- Memtables.DB.SetOrDelete: room in the memtables is a parameter, and calls do not overlap; overlapping calls are steps of `Databases`.
- CompactionMerge.FinishOutput: the byte size that closing reports is a parameter, as for `CompactionMerge.MergeTables`.
- WalLogs.Wal.SaveSnapshot: the marker comes in as the bytes of the marshalled snapshot; the sync that follows goes through the group commit after the lock is released and is modelled there (`SyncGroup.InvStep`).
- WalLogs.Wal.RotateWhenFull: counts offsets as the code does, from the page in which the segment was opened (`pkg/wal/wal.go:405`), so a segment that was opened again can outgrow its size.
- WalLogs.OpenLog: the object's invariant afterwards is promised when the valid part of the last file is that of a segment and the encoder starts in step with it; what a record appended otherwise is read back as is decided by `WalCrashes.AppendToOpened`.
- WalLogs.RunAfterCrash: follows whole runs only when the record that was hit goes on; for every other crash `WalLogs.AppendAfterCrash` decides the next record of the segment, and nothing is said about the ones after it.
- WalLogs.CrashAndReopen: the bytes that arrive are a first part of what was written; sectors that arrive out of order are not modelled.
- Merge sources are sorted lists with a position; that the table iterator and the skiplist iterator behave like that is proved of each (`TableReader.TableIterator.SeekGE`, `SkiplistSafety.WalkComplete`), not plugged in as an interface. When a table reuses its key array is taken from `Block.BlockIterator.AppendKey` as a set of positions.
- CompactionMerge.MergeTables: the byte sizes that closing an output reports are a parameter, because the choice of files to compact is proved for any sizes.
- CompactionRuns.Lsm.RunCompaction: applies the edit to the levels; logging it in the manifest is modelled by `VersionSets.VersionSet.LogAndApply`, and errors of files or of the log are not modelled.
- CompactionRuns.Lsm.Flush: takes the entries of the memtable as a sorted list; writing them as bytes is `TableRoundTrip.WriteTable`.
- VersionGet.GetFromVersion: user keys of a level are assumed to be in order, which holds when none is a prefix of another; no claim is made that a read falls through to older tables.
- WalRecords.Unmarshal: protobuf groups, which a record never contains, count as malformed.
- Corrupt tables: iteration and point reads are proved for well-formed tables, the reads of raw blocks and footers for any bytes.
- SkiplistProgress.EndsAlone: promises an end to a call that runs alone; among others a call can lose every compare-and-swap, as in the source, and no fairness is assumed.
- Reference counts, table cache, channels and the signalling of the background loops.
- File system calls, their errors, file names and directory listing.
- Integer widths: sizes and offsets are unbounded numbers except where a fixed width decides a result.
- Bloom false-positive rates and the polynomial algebra behind CRC.
- The schema registry (`pkg/schema`), which replays simple map updates and would add only easy members.
- Replication, watches and high-water marks of ARCHITECTURE.md, which are not implemented.
