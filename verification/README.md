# A verified model of the columnar library

The library stores columns of documents in blocks and keeps secondary indexes beside them. Both exist to do a
simple thing faster: read every row, or group rows by value. This project models the code that does the fast
thing and proves that it agrees with the simple one, for every input and every run.

What is modelled, part by part:

- **Writing a secondary index** (`IndexBuilder`, `RowWriter`, `RowLists`, `RowGroups`): pairs of value and rowid
  are sorted into runs, merged, grouped by value and written in blocks of 128 values, each value with its rowids as
  a single row, one block, or a list of sub-blocks of 1024. The writer overwrites its own buffers while it walks
  them. `IndexRoundTrip` joins writing and reading.
- **Reading rowids back** (`RowidProtocol`, `RowidIterator`): the iterator that can be hinted and read in any order,
  as a protocol over whole runs and as the class that decodes the file and follows the protocol.
- **Looking values up** (`Filters`, `IndexBlocks`, `RangeScan`, `IndexSearch`, `ValueLookup`): range scans and value
  probes over sorted blocks, with early stops and carried state, and the windows that a learned index gives.
- **Queries from end to end** (`IndexQuery`): a range or a list of values, from the pairs an index is built from,
  over the file, the iterators and the bitmap, to the rows handed out. `PlainCodec` shows that what is assumed of the
  code outside the model can be met.
- **Bitmaps** (`Bits`, `BitVector`, `SplitBitmap`, `BitmapIterator`): union and exclusion of rowid lists in a flat or
  a split bitmap.
- **The block cache** (`BlockCache`): a lock-free cache as a state machine over interleaved atomic steps.
- **Min/max trees** (`MinMaxTree`, `MinMaxEval`, `BlockIterator`): the bottom-up build, the stored form, the descent
  with row limits, the estimate, and the iterator over the blocks found.
- **Scanning columns** (`Analyzer`, `ColumnFilter`, `RowRuns`): subblock by subblock, skipping blocks, and how a
  filter judges the three kinds of blocks. `RowRuns` says what any interleaving of reads and hints gives.
- **Nearest neighbours** (`RadixSort`, `KnnIterator`, `BitPlanes`, `Transpose`, `DotProduct`): the sort of results,
  their iterator, and the dot product over bit planes.
- **Foundations** (`DeltaCoding`, `ByteCodec`, `FileReader`, `Shifts`, `Buffers`, `Orders`): delta coding in scalar and
  lane-parallel form, variable-length integers, the buffered file reader.

Where the code works in place, so does the model: classes with the fields of the source, arrays that loops change,
and contracts that tie the new state to the old one. Their specifications are functions, and the properties of those
are lemmas. Positions in files and buffers, counters and rowids are unbounded integers except where the width of
the source matters: 32- and 64-bit words of the delta and bit kernels, row numbers of the descent, stored 32-bit
offsets, casts of bounds and values, the counters of `BitmapIterator` and of the values written.

What is assumed of code outside the model:

- of the integer codec (`RowLists.Codec.Lawful`), for all sequences of 32-bit words and of 64-bit values: decoding
  with the length of the input undoes encoding, with deltas, without, and for values; codes are at most
  `2 * n + 1024` words long for `n` words and `4 * n + 1024` for `n` values; what coding with deltas leaves in its
  input is as long as the input. `PlainCodec.PlainIsLawful` gives a codec that meets this.
- of the learned index (`IndexSearch.Learned`, `IndexQuery.Learns`): the window for a value contains its rank and the
  approximate position, and starts inside the index. `PlainCodec.ExactIsLearned` gives one.
- a positioned read is short only at the end of the file;
- the library sort and priority queue do what they promise and no more.

## Properties that hold under a condition

Some properties hold only under a condition, which is proved exactly where the table says "if and only if":

- Inverting a bit vector whose upper bound ends a word shifts by the full width of a word; on the modelled machine,
  which takes shift counts modulo 64, the last word is lost (`BitVector.InvertExactIff`,
  `BitmapIterator.ExclusionExactIff`, and for whole queries `IndexQuery.ExcludingExactIff`).
- Filling a subblock with consecutive rows starts again at the first row behind the last whole group of four
  (`Analyzer.FilledExactIff`, `Analyzer.YieldExactIff`).
- A value probe ends at a block below the value, so that later blocks of a wide window are not looked at
  (`ValueLookup.BlockReader.CreateBlocksIterator`); windows of two blocks are searched completely.
- The 32-bit descending decoder subtracts 64-bit lanes and is exact as long as no low lane borrows
  (`DeltaCoding.Desc32ExactIff`), which holds on the nonincreasing data it is used for.
- Range bounds and filter values are cast to the column type (`Filters.RangeMeansIff`, `ColumnFilter.ListMeansIff`).
- An excluded list of values that is searched one by one takes a row when any listed value differs
  (`ColumnFilter.PlainExactIff`).
- A block taken whole because as many wanted values were found in its table as it has entries holds only wanted values
  as long as no entry is listed twice (`ColumnFilter.WholeExactIff`).
- The 16-byte dot product without residuals ignores the bytes behind the last whole chunk
  (`DotProduct.WithoutResidualsIff`); the source picks it only when there are none.

## Model

| member | source | states |
|---|---|---|
| `IndexBuilder.RawWriter.SetAttr` | secondary/builder.cpp:195-199 | The pair is added to those to be written, behind the others; nothing else changes. |
| `IndexBuilder.RawWriter.Flush` | secondary/builder.cpp:151-164 | What was collected becomes one more sorted run holding exactly the same pairs, behind the runs there are; nothing collected gives none; all pairs of all runs stay those that were added. |
| `IndexBuilder.OpenRuns` | secondary/builder.cpp:665-690 | The readers opened on the sorted runs hold exactly the pairs of all runs. |
| `IndexBuilder.Advance` | secondary/builder.cpp:692-715 | One merge step takes a pair no reader is below, for whatever minimal head the priority queue offers; the pairs left are those before without it, and none of them is smaller. |
| `IndexBuilder.FeedKeepsEntries` | secondary/builder.cpp:378-401 | Grouping by value loses, invents and reorders no pair: the groups of all blocks, expanded, are the input sequence. |
| `IndexBuilder.FeedBlocks` | secondary/builder.cpp:404-410 | However many pairs are fed, every block written before the last has exactly 128 values and at most 128 are waiting. |
| `IndexBuilder.FeedAscends` | secondary/builder.cpp:387-401 | A sorted sequence gives strictly ascending values across all blocks, each with its rowids in nondecreasing order. |
| `IndexBuilder.Process` | secondary/builder.cpp:654-743 | From any runs of pairs the whole merge leaves an index with exactly those pairs, values strictly ascending over all blocks, rowids of each value nondecreasing, every block but the last full, none empty. |
| `RowWriter.RowWriter.AddValue` | secondary/builder.cpp:377-385 | A new value starts with its one rowid; all other collected groups keep theirs. |
| `RowWriter.RowWriter.NextValue` | secondary/builder.cpp:387-401 | A rowid goes to the group of the current value, or starts the next one, a full block having been written first; written blocks and collected groups change in no other way. |
| `RowWriter.RowWriter.FlushValue` | secondary/builder.cpp:403-410 | A block is written exactly when 128 values have been collected. |
| `RowWriter.RowWriter.EncodeRowsBlock` | secondary/builder.cpp:260-276 | The code is that of the rowids as they were, although the chunk is moved to the front of the buffer or turned into deltas in place; rows behind the chunk stay as they were. |
| `RowWriter.RowWriter.WriteSingleBlock` | secondary/builder.cpp:418-423 | The item gets type 1 and the packed rows grow by the coded list of the original rowids. |
| `RowWriter.RowWriter.FillMinMax` | secondary/builder.cpp:430-442 | The extremes recorded for each sub-block of 1024 are those of its original rowids. |
| `RowWriter.RowWriter.EncodeChunks` | secondary/builder.cpp:444-457 | Every sub-block is coded from its original rowids and its end recorded, although earlier sub-blocks overwrite the buffer they came from. |
| `RowWriter.RowWriter.WriteBlockList` | secondary/builder.cpp:425-461 | The stored list consists of sub-block extremes, ends and codes of the original rowids; rows behind the list are untouched. |
| `RowWriter.RowWriter.WriteRows` | secondary/builder.cpp:505-517 | One row, one block or a list of blocks is chosen by the number of rowids, and the item is stored in that form. |
| `RowWriter.RowWriter.PackItem` | secondary/builder.cpp:498-517 | Coding one value completes its table entries and its stored list, its start in the row buffer giving way to its start in the stored lists, and leaves the rows of later values readable. |
| `RowWriter.RowWriter.PackItems` | secondary/builder.cpp:485-518 | After the walk over the collected values all tables and all stored lists are those of the original groups. |
| `RowWriter.RowWriter.DetermineMinMax` | secondary/builder.cpp:536-574 | While the count of values stays within 32 bits, the recorded extremes are the least and greatest of all values, signed or unsigned as the column is. |
| `RowWriter.RowWriter.WriteBlock` | secondary/builder.cpp:519-532 | The file grows by exactly the bytes of the block, its position is recorded, its values go to the learned index. |
| `RowWriter.RowWriter.StoreBlock` | secondary/builder.cpp:489-532 | Counting, packing and writing what was collected leaves the file with one more block and the totals with its values. |
| `RowWriter.RowWriter.FlushBlock` | secondary/builder.cpp:479-534 | What has been collected becomes one more block of the file, position and contents; nothing is left in the buffers; an empty buffer writes nothing. |
| `RowLists.ConcatPrefix` | secondary/builder.cpp:426-447 | The first sub-blocks of a list, one after the other, are a prefix of it, and all of them are the list, for any length. |
| `RowLists.OffsetAt` | secondary/builder.cpp:452-456 | The recorded ends of the sub-blocks survive delta coding: entry k is where the code of sub-block k ends. |
| `RowLists.ChunkInFile` | secondary/iterator.cpp:251-270 | Between two recorded ends the file holds exactly the code of the sub-block between them. |
| `RowGroups.LoadBlockBack` | secondary/blockreader.cpp:463-484 | Loading a stored block restores values, types, list starts, extremes and counts, and leaves the reader at the stored lists. |
| `RowGroups.EntryDescribes` | secondary/blockreader.cpp:985-990 | For every item of a stored block the loaded type, offset, min, max and count describe the stored list of that item. |
| `RowGroups.AtBlock` | secondary/builder.cpp:519-532 | In the concatenation of all blocks each block is found behind those written before it. |
| `RowGroups.BlockOffsetAt` | secondary/builder.cpp:521 | The recorded offset of a block is its position in the file. |
| `IndexRoundTrip.PairsStored` | secondary/builder.cpp:654-743 | A pair is in the index if and only if it went into the build. |
| `IndexRoundTrip.StoredItemReadable` | secondary/blockreader.cpp:985-990 | For any item of any block of a built index, what is loaded from the file describes its rowid list, whichever of the three packings it has. |
| `IndexRoundTrip.BlocksAscend` | secondary/builder.cpp:654-743 | Of two places in the index the earlier one has the smaller value, also across blocks. |
| `IndexRoundTrip.ItemSound` | secondary/builder.cpp:387-410 | Every item of an index has at least one rowid, in nondecreasing order, in a block of at most 128 items. |
| `ByteCodec.UnpackPack` | util/util_private.h:43-140 | Every value below the width of the target type is read back from its variable-length code, and reading stops right behind it. |
| `ByteCodec.EncodeValue` | util/util_private.h:108-130 | The bytes written are the code that UnpackPack reads back. |
| `ByteCodec.PackDigits` | util/util_private.h:43-130 | The code is the digits of the value to the base of 128, the highest first and without leading zeros, with the top bit set in all bytes but the last. |
| `ByteCodec.ReadWordsBack` | util/reader.h:222-236 | Stored words are read back unchanged. |
| `ByteCodec.WordByteAt` | util/reader.h:222-236 | Words are stored as they lie in memory: byte j of a word is its j-th lowest byte. |
| `RowidIterator.PlanWellformed` | secondary/iterator.cpp:159-184 | The marks made for a list that does not descend satisfy what the protocol theorems need: some sub-block ahead, extremes in order. |
| `RowidIterator.SubBlockBack` | secondary/iterator.cpp:250-270 | The recorded offsets lead to the code of sub-block k, and decoding as many rowids as it has gives the sub-block. |
| `RowidIterator.RowidIterator.constructor` | secondary/iterator.cpp:79-99 | A fresh iterator over a described list has no marks from earlier lists. |
| `RowidIterator.RowidIterator.Setup` | secondary/iterator.cpp:290-313 | Pointing the iterator at another list makes it fresh again, except that marks kept in its bit vector may remain. |
| `RowidIterator.RowidIterator.NumBlockRowids` | secondary/iterator.cpp:280-288 | The computed number of rowids of a sub-block is its real length: 1024, or what is left for the last. |
| `RowidIterator.RowidIterator.ReadNextBlock` | secondary/iterator.cpp:250-270 | What is decoded is the current sub-block of the original list. |
| `RowidIterator.RowidIterator.RewindToNextMatchingBlock` | secondary/iterator.cpp:230-248 | The iterator goes to the next marked sub-block behind the current one, or stops when there is none. |
| `RowidIterator.RowidIterator.MarkMatchingBlocks` | secondary/iterator.cpp:159-184 | From the first overlap on exactly the sub-blocks that overlap the bounds are marked, on top of marks kept from earlier lists; the number of overlaps is returned. |
| `RowidIterator.RowidIterator.MarkRange` | secondary/iterator.cpp:168-183 | The loop marks each sub-block whose extremes overlap the bounds, counts them and stands on the first. |
| `RowidIterator.RowidIterator.StartBlock` | secondary/iterator.cpp:186-228 | The first read starts the list in each of its three forms and hands out what the protocol says. |
| `RowidIterator.RowidIterator.HintRowID` | secondary/iterator.cpp:101-141 | A hint does to the iterator exactly what the protocol says. |
| `RowidIterator.RowidIterator.GetNextRowIdBlock` | secondary/iterator.cpp:143-157 | A read hands out exactly the sub-block the protocol says, decoded, or ends. |
| `RowidProtocol.ReturnedAscends` | secondary/iterator.cpp:101-157 | In any run of hints and reads only marked sub-blocks are returned, in strictly ascending order, so none twice. |
| `RowidProtocol.NothingLost` | secondary/iterator.cpp:101-157 | With hints that never go back, a marked sub-block the iterator has passed was returned if it still reaches the latest hint. |
| `RowidProtocol.ProtocolSafe` | secondary/iterator.cpp:101-157 | When a read ends or a hint is refused, every marked sub-block that reaches the latest hint has been returned. |
| `RowidProtocol.ProtocolPending` | secondary/iterator.cpp:101-157 | Until then every such sub-block has been returned or is still ahead. |
| `RowidProtocol.ReadingAll` | secondary/iterator.cpp:143-157 | Without bounds, reading returns each sub-block in turn and then ends. |
| `RowidProtocol.HintExact` | secondary/iterator.cpp:101-141 | A hint before the first read is ignored and one after the end refused; otherwise it is accepted if and only if some marked sub-block from the current one on reaches it, and then nothing that is still to come ends before it. |
| `RowidProtocol.HintsObeyed` | secondary/iterator.cpp:101-157 | Over a whole run, once a hint has been accepted after the first read only sub-blocks that reach it are returned, and once one has been refused nothing more is. |
| `RowidIterator.ReadingGivesList` | secondary/iterator.cpp:143-157 | Reading a list to its end without bounds gives back the list, rowid by rowid. |
| `RowidIterator.NoRowidLost` | secondary/iterator.cpp:101-157 | A rowid in an overlapping sub-block, at or above the latest hint, is in a returned sub-block once a hint is refused or a read ends. |
| `RowidIterator.HintedBlocksReach` | secondary/iterator.cpp:101-157 | In terms of rowids: a sub-block returned after such a hint has a rowid at or behind the one hinted. |
| `RowidIterator.RowidsAscend` | secondary/iterator.cpp:101-157 | Over a whole run of hints and reads rowids never go back. |
| `Filters.EvalIsSatisfies` | common/interval.h:39-52 | When the bounds in force are values of the column type, evaluating a range with cast bounds is the range condition. |
| `Filters.EvalConvex` | common/interval.h:39-52 | Whatever the cast does to the bounds, the values taken are consecutive. |
| `Filters.FixupKeeps` | common/filter.cpp:25-46 | Dropping bounds that no unsigned 32-bit value violates changes no answer. |
| `Filters.FixupFitsIff` | common/filter.cpp:25-46 | The bounds of a fixed condition fit an unsigned 32-bit column if and only if no lower bound in force lies above the type and no upper one below it; those of a signed 64-bit column always do. |
| `Filters.RangeMeansIff` | common/filter.cpp:25-46 | After FixupFilterSettings a range is evaluated as meant for all values of a column if and only if no bound in force lies outside the type, or the cast bounds let nothing through anyway. |
| `Filters.BoundAboveTypeMatches` | common/filter.cpp:25-46 | A lower bound of 2 to the power 32 on an unsigned 32-bit column means no value and takes every value. |
| `IndexBlocks.IndexAscends` | secondary/blockreader.cpp:1195-1306 | The blocks of a built index ascend strictly as the column type sees them. |
| `IndexBlocks.BlockValuesCount` | secondary/blockreader.cpp:609-617 | The number of values computed for a block from the totals is the number it has. |
| `IndexBlocks.ValuesBack` | secondary/blockreader.cpp:425-430 | Reading that many values at a block offset gives back the values of the block. |
| `IndexBlocks.CmpRules` | secondary/blockreader.cpp:1080-1103 | A block judged to lie before or behind a range holds no match, and behind it no later block does. |
| `IndexBlocks.CmpExact` | secondary/blockreader.cpp:1080-1103 | A block is judged to lie behind a range if and only if it starts behind its end, and before it if and only if it ends before its start. |
| `RangeScan.HitsExact` | secondary/blockreader.cpp:1248-1306 | The reports specified for a window are exactly its matches, with the load flag set exactly on the first match of each block. |
| `RangeScan.HitsInOrder` | secondary/blockreader.cpp:1248-1306 | Reports come in order of value, so none comes twice. |
| `RangeScan.RangeReader.LoadValues` | secondary/blockreader.cpp:1262-1266 | The values loaded are those of the next block of the index. |
| `RangeScan.RangeReader.WarmupBlockIterators` | secondary/blockreader.cpp:1194-1209 | Looking for the first match in a block reports it, or establishes that the block has none. |
| `RangeScan.RangeReader.AddBlockIterators` | secondary/blockreader.cpp:1212-1245 | The rest of a block is reported, whole or in part; the scan goes on if and only if the last value of the block matches, and stopping is right, for no later block then holds a match. |
| `RangeScan.RangeReader.AddFollowingBlocks` | secondary/blockreader.cpp:1280-1305 | From the first match on, whole-block, partial-block and stop cases together report what a scan of the window would, and no block is read behind the one that ends the range. |
| `RangeScan.RangeReader.CreateBlocksIterator` | secondary/blockreader.cpp:1248-1306 | The range scan with warmup, early stop and carried state reports exactly the specified hits of the window, and reads the next block exactly while the last value of a block with matches matches or no match has come and the block does not lie behind the range. |
| `IndexSearch.RangeWindowCovers` | secondary/secondary.cpp:564-619 | Every value that satisfies the condition lies in a block of the window, for open, closed and unbounded ends. |
| `IndexSearch.RangeWindowTight` | secondary/secondary.cpp:564-619 | When the learned index knows positions up to e, the blocks of the window start no more than e positions before the range and end no more than e behind it. |
| `IndexSearch.RangeQueryExact` | secondary/secondary.cpp:564-667 | A fixed range query reports a value of the index if and only if it satisfies the condition, in ascending order, once. |
| `IndexSearch.BuiltIndexIsGood` | secondary/builder.cpp:654-743 | An index built from values of the column type satisfies all that the searches assume of it. |
| `ValueLookup.FindHere` | secondary/blockreader.cpp:1006-1056 | Searching the block that has the value finds it where it is. |
| `ValueLookup.FindElsewhere` | secondary/blockreader.cpp:1006-1056 | Searching another block does not find it and tells on which side that block lies. |
| `ValueLookup.BlockReader.LoadBlockOffsets` | secondary/blockreader.cpp:870-885 | The offsets at hand afterwards are those of the window, kept or read anew. |
| `ValueLookup.BlockReader.LoadBlockValuesToCache` | secondary/blockreader.cpp:825-849 | The values at hand afterwards are those of the block: kept from the last probe, from the shared cache, or read and then added to the cache. |
| `ValueLookup.BlockReader.CreateIterator` | secondary/blockreader.cpp:852-860 | A place is reported exactly when the block has the value; the comparison result is that of the search. |
| `ValueLookup.BlockReader.CheckOthers` | secondary/blockreader.cpp:904-922 | The remaining blocks of the window are searched in order until the value is found, excluded, or a block below it ends the probe. |
| `ValueLookup.BlockReader.CreateBlocksIterator` | secondary/blockreader.cpp:888-923 | A probe reports a value present in a block of its window if and only if it gets to that block: looked at up front, or not cut off by a block below the value; what it has loaded is in the cache, which keeps what it had. |
| `ValueLookup.TwoBlocksReached` | secondary/blockreader.cpp:888-923 | A window of at most two blocks is always searched completely, whatever block was loaded before. |
| `ValueLookup.ProbeFindsAll` | secondary/blockreader.cpp:888-923 | With such a window a probe reports exactly the one place of a value that is present, and nothing for one that is absent. |
| `ValueLookup.LearnedProbe` | secondary/secondary.cpp:464-494 | A learned window that contains the lower-bound rank and spans at most 128 positions gives such a probe. |
| `ValueLookup.BlockReader.FindAll` | secondary/blockreader.cpp:925-945 | A list of probes, in any order, reports the places of exactly the values present. |
| `SplitBitmap.FlatBit` | secondary/blockreader.cpp:105-145 | Bit i of piece k of a split bitmap is bit 65536 * k + i of the whole. |
| `SplitBitmap.SplitBitmap.BitSet` | secondary/blockreader.cpp:136-145 | Setting a bit, allocating its piece if need be, sets that bit of the whole and no other. |
| `SplitBitmap.SplitBitmap.Fetch` | secondary/blockreader.cpp:177-214 | A fetch hands out the next rows of the whole across missing pieces, never overruns the buffer, stops early only at the end of a piece, and hands out nothing only when nothing is left. |
| `BitVector.MembersComplete` | util/bitvec.h:79-112 | The specified sequence of rows holds every set bit and ascends strictly. |
| `BitVector.BitVec.BitSet` | util/bitvec.h:41-48 | Exactly one bit is set. |
| `BitVector.BitVec.BitGet` | util/bitvec.h:32-39 | The answer is whether that bit is set. |
| `BitVector.BitVec.Resize` | util/bitvec.h:136-142 | Growing storage starts empty; storage that is kept keeps its bits. |
| `BitVector.BitVec.Scan` | util/bitvec.h:114-133 | The result is the first set position from the start on, or the size when there is none. |
| `BitVector.FetchWords` | util/bitvec.h:79-112 | The rows written are the set bits of whole words, in order, and the buffer is filled up to less than a word from its end unless the words ran out. |
| `BitVector.BitVec.Fetch` | util/bitvec.h:79-112 | The same for a bit vector, from the word it stopped at. |
| `BitVector.BitVec.Invert` | util/bitvec.h:50-77 | Every bit afterwards is the stated function of the bit before, the wide shift at the end of a word included. |
| `BitVector.InvertExactIff` | util/bitvec.h:50-77 | Inversion gives the complement inside the bounds if and only if the upper bound does not end a word, or no bit of its last word would have to be set. |
| `BitVector.InvertLosesLastWord` | util/bitvec.h:50-77 | With 64 rows of which none is set, the default bounds invert none of them. |
| `BitmapIterator.CutExact` | secondary/blockreader.cpp:274-296 | The binary searches cut a sub-block to exactly its rowids inside the bounds. |
| `BitmapIterator.BitmapIterator.AddBlock` | secondary/blockreader.cpp:274-313 | The bits set are those of the rowids of the sub-block inside the bounds, the first ones as far as rows may still be added, and no others; the counter goes down by their number. |
| `BitmapIterator.BitmapIterator.Add` | secondary/blockreader.cpp:264-317 | Adding a list sets exactly its rowids inside the bounds, the first ones of them when fewer rows may still be added, and the counter of such rows goes down by their number, whatever sub-blocks are passed over. |
| `BitmapIterator.UnionOfLists` | secondary/blockreader.cpp:264-317 | Lists added to an empty bitmap leave exactly the union of what they have inside the bounds. |
| `BitmapIterator.BitmapIterator.GetNextRowIdBlock` | secondary/blockreader.cpp:329-339 | A read hands out at most 1024 rows, the next ones of the bitmap; fewer than 960 only at the end of the bitmap or of a piece, and none only when none is left. |
| `BitmapIterator.RunIsComplete` | secondary/blockreader.cpp:329-339 | Reading until an empty block hands out every row of the bitmap once, in ascending order. |
| `BitmapIterator.BitmapIterator.HintRowID` | secondary/blockreader.cpp:319-327 | A hint moves to the word of the rowid and never back. |
| `BitmapIterator.HintSkipsNothing` | secondary/blockreader.cpp:319-327 | No row at or above a hint is skipped or refused. |
| `BitmapIterator.SameRowsSameSequence` | secondary/blockreader.cpp:105-214 | A flat and a split bitmap with the same rows hand out the same sequence. |
| `BitmapIterator.BitmapIterator.Invert` | secondary/blockreader.cpp:571-606 | The rows afterwards are the inversion of those before, between the bounds or over all rows. |
| `BitmapIterator.ExclusionExactIff` | secondary/blockreader.cpp:571-606 | An excluding filter keeps exactly the rows of the bounds that no list had, if and only if the upper bound does not end a word or its last word was full. |
| `BlockCache.RunAccounted` | secondary/blockreader.cpp:699-741 | In every reachable state of any interleaving each filled slot holds its own block, and the recorded size plus what is installed but not yet added is the installed size. |
| `BlockCache.RunKeepsSlots` | secondary/blockreader.cpp:699-741 | A filled slot is never changed or emptied. |
| `BlockCache.RunBounded` | secondary/blockreader.cpp:699-741 | Recorded size, pending additions and admissions together stay below the limit plus one largest block per thread. |
| `BlockCache.CacheOvershootBounded` | secondary/blockreader.cpp:699-741 | With T threads and blocks of at most B bytes the cache never holds the limit plus T times B bytes or more. |
| `BlockCache.QuiescentSizeExact` | secondary/blockreader.cpp:699-741 | When no thread is inside the cache, the recorded size is exact. |
| `BlockCache.LimitCanBeExceeded` | secondary/blockreader.cpp:699-741 | The bound is tight: a schedule of two threads that comes within one byte of it. |
| `BlockCache.AddedAlone` | secondary/blockreader.cpp:699-741 | A call that no other thread disturbs keeps its block and adds its size if and only if the slot is empty and the recorded size below the limit, or there is no limit; otherwise nothing changes. |
| `BlockCache.CallFillsSlot` | secondary/blockreader.cpp:699-741 | In any interleaving a call leaves its slot filled, unless the recorded size was at the limit at some moment of the call. |
| `IndexQuery.WrittenIsStored` | secondary/builder.cpp:519-532 | Every block a writer has written is stored in the file at the position recorded for it. |
| `IndexQuery.ListsAddressable` | secondary/builder.cpp:498-517 | With fewer than 2 to the power 28 pairs the lists of a block never take more bytes than 32-bit offsets address. |
| `IndexQuery.BuiltIsQueryable` | secondary/builder.cpp:654-743 | What a build leaves, in the file and in its tables, is all that queries ask of an index. |
| `IndexQuery.ItemLoads` | secondary/blockreader.cpp:1336-1343 | What is loaded of a block describes the rowids of each of its items, and they are rows of the column. |
| `IndexQuery.HitsLoadInTime` | secondary/blockreader.cpp:1336-1353 | When the range scan reports an item without the load flag, the row data at hand is that of its block. |
| `IndexQuery.NoMoreThanPairs` | secondary/blockreader.cpp:1248-1306 | The items of a scan together have no more rowids than there are pairs. |
| `IndexQuery.AddIterator` | secondary/blockreader.cpp:1162-1191 | The first item makes an iterator over the file, later ones set it up again with whatever marks it has kept, and the bitmap gains exactly the rowids of the item inside the bounds; items outside the bounds are passed over and lose nothing. |
| `IndexQuery.CollectHits` | secondary/blockreader.cpp:1309-1321 | All items together add exactly the union of their rowids inside the bounds. |
| `IndexQuery.ListsAreWanted` | secondary/blockreader.cpp:1309-1321 | A rowid is in the lists of the items reported if and only if some pair with it has a wanted value. |
| `IndexQuery.ScanMatches` | secondary/secondary.cpp:564-646 | The scan of the window of a range condition reports exactly the items whose value satisfies it, in order. |
| `IndexQuery.GetRangeRows` | secondary/secondary.cpp:621-646 | From the file to the bitmap: its rows are exactly those inside the bounds that have a pair in the index whose value satisfies the condition or, excluding, those that have none, without the word of the last row inside the bounds when that row ends its word. |
| `IndexQuery.BuildAndQuery` | secondary/secondary.cpp:621-646 | From pairs to rows: whatever sorted runs of fewer than 2 to the power 28 pairs an index is built from, with any codec and any learned index that keep their promises, a range query answers with exactly the rows stated for GetRangeRows. |
| `IndexQuery.LearnedFromBuild` | secondary/builder.cpp:724-731 | A learned index built from the values a writer has left finds the rank of every value in the blocks written. |
| `IndexQuery.QueryAnswered` | secondary/blockreader.cpp:329-339 | Reading the bitmap of a query to its end hands out every row of the answer once, in ascending order, and no other. |
| `IndexQuery.ExcludingExactIff` | secondary/blockreader.cpp:1309-1326 | An excluding query hands out exactly the rows inside the bounds that have no wanted value if and only if the last row inside the bounds does not end a word or no row of its word has to be kept. |
| `IndexQuery.ExcludingLosesRows` | secondary/blockreader.cpp:1309-1326 | Of 128 rows of which row 0 is excluded, rows 1 to 63 are handed out and rows 64 to 127 are lost. |
| `IndexQuery.AllPlacesMatch` | secondary/blockreader.cpp:925-945 | The places found for a list of values are those of the items that have one of the values. |
| `IndexQuery.ProbedOnce` | secondary/blockreader.cpp:925-945 | Values that ascend have together no more rowids than there are pairs. |
| `IndexQuery.GetValsRows` | secondary/secondary.cpp:507-539 | The same for a list of values, in whatever order and with whatever the cache holds. |
| `MinMaxTree.Builder.Add` | columnar/builder/builderminmax.h:57-78 | One more row of one value is collected, the leaves of complete blocks being those of their rows. |
| `MinMaxTree.Builder.AddMva` | columnar/builder/builderminmax.h:80-118 | The same for a row with any number of values, also none. |
| `MinMaxTree.Builder.Flush` | columnar/builder/builderminmax.h:120-136 | The leaf of the rows collected bounds them; rows without values give zeroes; nothing collected, no leaf. |
| `MinMaxTree.Builder.BuildTree` | columnar/builder/builderminmax.h:138-164 | The levels are built bottom-up by merging neighbours, an odd last block being copied, until one block is left. |
| `MinMaxTree.TreeOfIsTree` | columnar/builder/builderminmax.h:138-164 | Every level of the built tree is the one below it, merged, and the build stops at a level of at most one block. |
| `MinMaxTree.Builder.Save` | columnar/builder/builderminmax.h:166-191 | The leaves bound the rows added, block by block, and the bytes are those of the tree over them, top level first. |
| `MinMaxTree.StoredEnds` | columnar/accessor/attributeheader.cpp:122-131 | An interval stored as lower end and length comes back unchanged for unsigned 32-bit, signed and unsigned 64-bit values, although both casts may wrap. |
| `MinMaxTree.MinMaxTable.LoadElements` | columnar/accessor/attributeheader.cpp:122-131 | The intervals read are those stored. |
| `MinMaxTree.MinMaxTable.Load` | columnar/accessor/attributeheader.cpp:53-89 | Each level of the loaded tree is the level that was saved. |
| `MinMaxEval.TreeWidens` | columnar/builder/builderminmax.h:138-164 | In the built tree, top level first, every block covers the two below it and each level has half as many, rounded up. |
| `MinMaxEval.AncestorAccepted` | columnar/columnar.cpp:108-159 | A monotone tester that accepts a block accepts all its ancestors. |
| `MinMaxEval.ScanExact` | columnar/columnar.cpp:108-159 | The reference scan lists exactly the matching blocks, ascending, each once. |
| `MinMaxEval.MinMaxEval.FillMinMax` | columnar/columnar.cpp:173-187 | The tester sees the bounds of every column at the block in the slot of that column, zeroes elsewhere, although the buffer is reused. |
| `MinMaxEval.MinMaxEval.DoEval` | columnar/columnar.cpp:108-159 | The descent below a block adds exactly the matches below it, in order, or counts them and leaves the list alone; the blocks it tests are those stated. |
| `MinMaxEval.MinMaxEval.LeafResult` | columnar/columnar.cpp:116-137 | A block of the last level is added exactly when its rows meet the row limits. |
| `MinMaxEval.MinMaxEval.EvalChildren` | columnar/columnar.cpp:138-158 | The two blocks below an accepted one together add the matches below both, in order, and test what is stated for each. |
| `MinMaxEval.MinMaxEval.EvalChild` | columnar/columnar.cpp:138-158 | Leaving out a child whose rows miss the limits, computed with 32-bit row numbers, leaves out no match and tests nothing below it. |
| `MinMaxEval.MinMaxEval.Eval` | columnar/columnar.cpp:90-96 | Evaluation adds the matches below the root to the shared list, or counts them. |
| `MinMaxEval.MinMaxEval.EvalAll` | columnar/columnar.cpp:98-106 | The answer says whether the bounds of the whole columns are accepted, or there are no blocks. |
| `MinMaxEval.DescentIsScan` | columnar/columnar.cpp:108-159 | For a monotone tester and any number of columns the descent finds exactly what a linear scan of the last level accepts, cut to the row limits, ascending and without repeats. |
| `MinMaxEval.PruningExact` | columnar/columnar.cpp:108-159 | The descent tests a block below the top if and only if the tester has accepted the block above it and its own rows meet the row limits, and no block twice. |
| `MinMaxEval.EarlyRejectSound` | columnar/columnar.cpp:718-728 | When the whole columns are not accepted, no block is. |
| `MinMaxEval.LeavesCounted` | columnar/columnar.cpp:671-698 | The accepted leaves are at most as many as the accepted blocks of a higher level have leaves below them. |
| `MinMaxEval.EstimateNotBelow` | columnar/columnar.cpp:671-698 | The estimate that stops three levels early on deep trees and scales by 8 is never below the number of rows of accepted leaves. |
| `MinMaxEval.TreeFits` | columnar/columnar.cpp:108-159 | For columns of at most 2 to the power 32 rows no row number of the descent wraps. |
| `MinMaxEval.BuiltQueryIsGood` | columnar/builder/builderminmax.h:138-164 | Columns with trees built over equally many leaves satisfy all that the descent theorems assume. |
| `BlockIterator.LeafRows` | columnar/columnar.cpp:361-368 | A leaf has its full number of rows, the last one what is left of the column. |
| `BlockIterator.BlockIterator.SetCurBlock` | columnar/columnar.cpp:343-359 | What is still to come after going to a leaf are the rows of the listed leaves from it on. |
| `BlockIterator.BlockIterator.GetNextRowIdBlock` | columnar/columnar.cpp:308-335 | A read takes the next 1023 rows of those still to come, or all that are left. |
| `BlockIterator.BlockIterator.HintRowID` | columnar/columnar.cpp:295-306 | A hint is accepted if and only if a listed leaf from the current one on is not before that of the row; then exactly the rows before that leaf are dropped and the iterator stands on the first such leaf; otherwise nothing moves and all that is left lies before it. |
| `BlockIterator.RowsExact` | columnar/columnar.cpp:259-286 | The rows to come are those below the number of documents whose leaf is listed. |
| `BlockIterator.RowsAscend` | columnar/columnar.cpp:259-286 | They ascend strictly. |
| `BlockIterator.FoundBlocksGood` | columnar/columnar.cpp:616-669 | What the descent finds is a list of leaves the iterator can walk. |
| `BlockIterator.RowKept` | columnar/columnar.cpp:616-669 | A row whose values pass the tester is among the rows the prefilter hands out. |
| `BlockIterator.PrefilterRun` | columnar/columnar.cpp:295-335 | Any interleaving of reads and hints ascends strictly, hands out only rows of listed leaves, loses none that no hint has passed, and obeys hints. |
| `BlockIterator.ValueCovered` | columnar/builder/builderminmax.h:57-136 | The leaf of a block covers every value of every row of the block. |
| `RowRuns.RunAscends` | columnar/accessor/accessortraits.h:198-245 | Any interleaving of reads and hints, each of which does what the row sources promise, hands out strictly ascending rows. |
| `RowRuns.RunLosesNothing` | columnar/accessor/accessortraits.h:198-245 | A row no hint has passed has been handed out or is still to come; after a refused hint or an empty read it has been handed out. |
| `RowRuns.RunInventsNothing` | columnar/accessor/accessortraits.h:198-245 | No other rows are handed out. |
| `RowRuns.RunObeysHints` | columnar/accessor/accessortraits.h:198-245 | Over a whole run, after an accepted hint only rows of leaves not before that of the hint are handed out, and after a refused one only rows of leaves before it. |
| `RowRuns.FindBlock` | columnar/accessor/accessor.h:42-49 | The position found is the first from the start on whose block is not below the one looked for. |
| `Analyzer.SubblockPlace` | columnar/accessor/accessortraits.h:44-61 | Shifting and masking subblock numbers gives the block and the place in the block they belong to. |
| `Analyzer.BlockDocs` | columnar/accessor/attributeheader.cpp:201-210 | The rows computed for a block are those it has. |
| `Analyzer.SubblockLength` | columnar/accessor/accessortraits.h:86-96 | The number of values read for a subblock is the number of its rows, never more than the subblock size. |
| `Analyzer.FillWithIncreasingValues` | util/util_private.h:550-568 | The rows written are consecutive up to the last whole group of four, where they start again at the first. |
| `Analyzer.FilledExactIff` | util/util_private.h:550-568 | The rows filled in are consecutive if and only if their number is a multiple of four or less than four. |
| `Analyzer.FilledRestarts` | util/util_private.h:550-568 | Filling five rows from row 100 on gives 100, 101, 102, 103, 100. |
| `Analyzer.ProcessValues` | columnar/accessor/accessorint.cpp:832-848 | Exactly the passing rows of a subblock are appended, in order, behind what was in the buffer. |
| `Analyzer.Analyzer.constructor` | columnar/accessor/accessortraits.h:143-164 | What is to come is what the listed subblocks of blocks that are not rejected yield. |
| `Analyzer.Analyzer.MoveToSubblock` | columnar/accessor/accessortraits.h:166-196 | Moving to a subblock skips only subblocks of rejected blocks and keeps all rows still to come. |
| `Analyzer.Analyzer.MoveToBlock` | columnar/accessor/accessorint.cpp:1157-1198 | The first listed block that is not rejected is set up; those passed over were all rejected. |
| `Analyzer.Analyzer.RewindToNextBlock` | columnar/accessor/accessortraits.h:255-276 | The next listed subblock of another block is found, and only subblocks of the same block are passed over, with or without a list. |
| `Analyzer.Analyzer.ProcessSubblock` | columnar/accessor/accessorint.cpp:1040-1047 | A subblock appends exactly what it is to yield and is visited once. |
| `Analyzer.Analyzer.GetNextRowIdBlock` | columnar/accessor/accessortraits.h:214-245 | A read takes rows from the front of those still to come, subblock by subblock until a subblock of rows or more has been collected and no further, so that the buffer is never overrun; it visits exactly the listed subblocks of accepted blocks, and takes less only at the end. |
| `Analyzer.Analyzer.HintRowID` | columnar/accessor/accessortraits.h:198-212 | A hint is accepted if and only if a listed subblock of an accepted block from the current one on is not before that of the row; then exactly the rows before that subblock are dropped and the analyzer stands on the first such subblock; once it has ended, no rows come and only hints behind the column, or all with a list, are refused. |
| `Analyzer.YieldExactIff` | columnar/accessor/accessorint.cpp:1157-1198 | With sound rejection a subblock yields exactly its passing rows if and only if it is not filled as a whole with a number of rows above four that is no multiple of four. |
| `Analyzer.ScanExact` | columnar/accessor/accessortraits.h:198-276 | Under that guard the rows handed out are those of a scan of all listed subblocks. |
| `Analyzer.PassingFromExact` | columnar/accessor/accessortraits.h:198-276 | A row is found by the scan if and only if it passes and its subblock is listed. |
| `Analyzer.PassingFromAscends` | columnar/accessor/accessortraits.h:198-276 | The scan ascends strictly. |
| `Analyzer.AnalyzerRun` | columnar/accessor/accessortraits.h:198-276 | Under that guard any interleaving of reads and hints ascends strictly, hands out only passing rows of listed subblocks, loses none that no hint has passed, and obeys hints. |
| `Analyzer.FillsRightAlways` | util/util_private.h:550-568 | With a number of rows that is a multiple of four the guard holds for every subblock. |
| `ColumnFilter.SetupConst` | columnar/accessor/accessorint.cpp:498-535 | A block of one value is accepted if and only if the value passes. |
| `ColumnFilter.GetIndexInTable` | columnar/accessor/accessorint.cpp:127-135 | The position of a value in the table is found, and -1 only for a value that is not there. |
| `ColumnFilter.TableFilter.SetupNextBlock` | columnar/accessor/accessorint.cpp:661-722 | A block with a table is accepted exactly as AcceptedExactIff says, and the state kept for its rows is that of this table, whatever it was before. |
| `ColumnFilter.TableFilter.TakesAll` | columnar/accessor/accessorint.cpp:562-756 | A block is taken whole if and only if the stated condition on table and query holds. |
| `ColumnFilter.TableFilter.TakesEntry` | columnar/accessor/accessorint.cpp:562-659 | Each processing function takes a row if and only if the table entry of the row is taken by the query. |
| `ColumnFilter.TableFilter.ProcessSubblock` | columnar/accessor/accessorint.cpp:562-659 | Exactly the rows whose entry is taken are appended. |
| `ColumnFilter.TestPlain` | columnar/accessor/accessorint.cpp:774-848 | The test picked for plain values takes a value exactly as stated, the linear search of excluded lists included. |
| `ColumnFilter.ProcessPlain` | columnar/accessor/accessorint.cpp:774-848 | Exactly the rows whose value is taken are appended. |
| `ColumnFilter.PlainExactIff` | columnar/accessor/accessorint.cpp:792-812 | Plain values are filtered as meant if and only if no excluded list is searched one by one, or it is not empty and holds nothing but the value where it holds the value at all. |
| `ColumnFilter.LinearExcludeTakesAll` | columnar/accessor/accessorint.cpp:792-812 | Excluding 5 and 7 takes 5. |
| `ColumnFilter.ListMeansIff` | columnar/accessor/accessorint.cpp:661-722 | A list of values means what it says for all values of the column if and only if every value it turns into by the cast was on the list. |
| `ColumnFilter.CastFindsOther` | columnar/accessor/accessorint.cpp:667-669 | The value 2 to the power 32 plus 5 finds rows with 5. |
| `ColumnFilter.RejectionSound` | columnar/accessor/accessorint.cpp:498-722 | No row of a rejected block passes. |
| `ColumnFilter.AcceptedExactIff` | columnar/accessor/accessorint.cpp:498-722 | A block of one value or with a table is processed if and only if some value in it passes; with an excluded list a block with a table always is. |
| `ColumnFilter.WholeExactIff` | columnar/accessor/accessorint.cpp:725-756 | All values that a block taken whole may hold pass if and only if no entry of its table is listed twice among the wanted values. |
| `ColumnFilter.WholeWhenAllPass` | columnar/accessor/accessorint.cpp:725-756 | Where all values of a block pass, it is taken whole if and only if no entry of its table is listed twice. |
| `ColumnFilter.WholeSound` | columnar/accessor/accessorint.cpp:725-756 | Every row of a block taken whole passes, when no entry of its table is listed twice. |
| `ColumnFilter.ListedTwice` | columnar/accessor/accessorint.cpp:737-739 | Listing 5 twice takes whole a block with 5 and 7. |
| `ColumnFilter.TakenIsPasses` | columnar/accessor/accessorint.cpp:562-848 | A row of a block that is processed row by row is taken if and only if its value passes, except for plain values that the linear search of an excluded list misjudges. |
| `ColumnFilter.FilterIsSound` | columnar/accessor/accessorint.cpp:1157-1198 | For queries that fit the column, skipping and filling blocks is sound for every mixture of block kinds, when no block is taken whole with an entry listed twice. |
| `ColumnFilter.FilteredRun` | columnar/accessor/accessortraits.h:198-276 | When no subblock is filled wrongly, no entry of a block taken whole is listed twice and every plain value is judged as the query means it, any interleaving of reads and hints ascends strictly, hands out only rows that pass, loses none that no hint has passed, and obeys hints. |
| `ColumnFilter.FillsRightColumn` | util/util_private.h:550-568 | In a column with a multiple of four rows no subblock is filled wrongly. |
| `RadixSort.CountingPass` | knn/iterator.cpp:66-83 | A pass writes to the other buffer the buckets of one byte one after the other, each in the order of the input. |
| `RadixSort.RadixIsStableSort` | knn/iterator.cpp:53-87 | Four passes sort by the whole 32-bit rowid and keep the order of results with the same rowid, for any input. |
| `RadixSort.SameGroupsPermutation` | knn/iterator.cpp:53-87 | A stable rearrangement is a permutation. |
| `RadixSort.StableSortUnique` | knn/iterator.cpp:53-87 | There is only one stable sort of an input. |
| `RadixSort.SortByRowID` | knn/iterator.cpp:53-87 | The results are sorted by rowid and none is lost; from 128 results on the sort is stable and ends in the original buffer. |
| `KnnIterator.ResultsAscend` | knn/iterator.cpp:89-95 | Results with different rowids come in strictly ascending order. |
| `KnnIterator.RowidIteratorKNN.constructor` | knn/iterator.cpp:89-95 | What is to come are the rowids of all results found. |
| `KnnIterator.RowidIteratorKNN.HintRowID` | knn/iterator.cpp:97-114 | A hint drops exactly the rows below it and is refused exactly when none is left, and then nothing more comes. |
| `KnnIterator.RowidIteratorKNN.GetNextRowIdBlock` | knn/iterator.cpp:117-139 | A read takes the next 1000 rows, or all that are left. |
| `BitPlanes.Pack` | knn/quantizer.cpp:285-301 | Bit 7 - i % 8 of byte i / 8 says whether coordinate i is positive; coordinates missing in the last byte count as not positive; other bytes stay. |
| `BitPlanes.PackHighBitsToByte` | knn/quantizer.cpp:524-536 | Each output byte holds the top bits of eight input bytes in order, behind the lowest bit of what it held before. |
| `BitPlanes.TopBitOfSpread` | knn/quantizer.cpp:548-570 | After j shifts of a whole 64-bit word the top bit of every byte is bit 3 - j of the byte it came from, although bits cross between bytes. |
| `Transpose.TransposeGroup` | knn/quantizer.cpp:548-574 | The four planes of 32 coordinates are right and no other byte changes. |
| `Transpose.Transpose` | knn/quantizer.cpp:539-587 | Bit p of every coordinate is in plane p at the place of the coordinate, for every dimension that is a multiple of 8, groups of 32 and the rest alike; bytes behind the planes stay. |
| `Transpose.TransposeAVX` | knn/quantizer.cpp:475-521 | The vector form with 16-bit lanes, byte masks and reversed bytes gives the same planes for dimensions that are a multiple of 32, into any buffer. |
| `Transpose.LaneTop` | knn/quantizer.cpp:484-487 | Shifting inside 16-bit lanes brings the same bits to the top of each byte. |
| `Transpose.TransposedOnce` | knn/quantizer.cpp:475-587 | The planes are determined byte by byte, so the plain and the vector form write the same bytes. |
| `DotProduct.CommonFour` | knn/space.cpp:631-640 | Counting the common bits of a 32-bit word counts those of its four bytes. |
| `DotProduct.CommonEight` | knn/space.cpp:805-840 | Counting the common bits of a 64-bit word counts those of its eight bytes. |
| `DotProduct.BinaryDotProduct` | knn/space.cpp:622-651 | The result is the weighted number of common bits of all four planes. |
| `DotProduct.BinaryDotProduct16` | knn/space.cpp:703-860 | The 16-byte form gives the same number when residuals are counted or there are none; otherwise the number for the whole 16-byte chunks. |
| `DotProduct.BinaryDotProductBatch2` | knn/space.cpp:862-1060 | The form for two candidates gives for each of them the number the single form gives. |
| `DotProduct.WithoutResidualsIff` | knn/space.cpp:842-860 | Leaving out the residuals is right if and only if the planes and the vector have no bit in common there. |
| `DotProduct.DotExact` | knn/space.cpp:622-651 | Over transposed and packed vectors that number is the sum of the 4-bit coordinates whose sign bit is set, for every dimension that is a multiple of 8. |
| `DotProduct.NibbleIs` | knn/quantizer.cpp:345-351 | For the values 0 to 15 that quantization gives, the coordinate is the byte itself. |
| `DeltaCoding.Delta` | util/delta_impl.h:25-30 | The scalar loop leaves the differences of neighbours, modulo the word size. |
| `DeltaCoding.FastDeltaUnaligned` | util/delta_impl.h:32-66 | The lane-parallel loop leaves the same differences, for every length of at least 1. |
| `DeltaCoding.InverseDelta` | util/delta_impl.h:69-84 | The scalar loop leaves the running sums, modulo the word size. |
| `DeltaCoding.FastInverseDeltaUnaligned` | util/delta_impl.h:86-111 | The lane-parallel prefix sums are the scalar ones, for every length. |
| `DeltaCoding.CalcInverseDelta64` | util/delta_impl.h:145-165 | The same in two 64-bit lanes. |
| `DeltaCoding.AscendingRoundTrip` | util/delta_impl.h:25-111 | Running sums of the differences are the original words, modulo 2 to the power 32 or 64. |
| `DeltaCoding.AscendingRoundTripBack` | util/delta_impl.h:25-111 | Differences of the running sums are the original words as well. |
| `DeltaCoding.CalcDescDeltas` | util/delta_impl.h:113-125 | The loop leaves the descending differences. |
| `DeltaCoding.CalcInverseDescDeltas` | util/delta_impl.h:167-173 | The scalar loop leaves the running differences. |
| `DeltaCoding.CalcInverseDelta64Desc` | util/delta_impl.h:200-222 | The 64-bit lane form leaves the scalar running differences, for every length of at least 1. |
| `DeltaCoding.DescendingRoundTrip` | util/delta_impl.h:113-222 | Decoding undoes descending coding. |
| `DeltaCoding.DescendingRoundTripBack` | util/delta_impl.h:113-222 | Descending coding undoes decoding as well. |
| `DeltaCoding.CalcInverseDelta32Desc` | util/delta_impl.h:175-198 | The 32-bit vector form falls back to the scalar loop for lengths that are no multiple of 4, and else leaves what subtracting 64-bit lanes from 32-bit data gives. |
| `DeltaCoding.Desc32ExactIff` | util/delta_impl.h:175-198 | The 32-bit vector form restores the coded words if and only if no low lane ever borrows from its neighbour. |
| `DeltaCoding.Desc32ExactOnNonincreasing` | util/delta_impl.h:175-198 | On data that does not increase, no lane borrows and the form is exact. |
| `DeltaCoding.Desc32NotAlwaysExact` | util/delta_impl.h:175-198 | On 0, 0, 1, 0 it is not, although the scalar form is. |
| `FileReader.FileReader.DoRefill` | util/reader.cpp:156-189 | The window moves to the current position and holds as much of the file as fits; it fails exactly at or behind the end. |
| `FileReader.FileReader.CopyTail` | util/reader.h:149-160 | The rest of the window goes to the destination, which stays a copy of the file. |
| `FileReader.FileReader.ReadPieces` | util/reader.cpp:127-135 | Whole windows are copied until what is left fits into one, and the loop ends; it fails only when the read goes past the end of the file. |
| `FileReader.FileReader.ReadRest` | util/reader.cpp:137-154 | What is left is made available by one more window at most; it fails only past the end of the file. |
| `FileReader.FileReader.Read` | util/reader.cpp:126-154 | For any buffer size and length, also longer than the buffer, a read inside the file copies exactly the file bytes at the position and advances by that many; one across the end sets the error and stands at the end. |
| `FileReader.FileReader.ReadByte` | util/reader.h:35-42 | The next file byte is returned and the position advances by one; at the end zero is returned and the error set. |
| `FileReader.FileReader.ReadFromBuffer` | util/reader.h:66-74 | The bytes handed out are those of the file at the position; when the window does not hold them nothing changes. |
| `FileReader.FileReader.Seek` | util/reader.h:76-87 | The position is the one asked for; a position inside the window keeps the window and another drops it. |
| `FileReader.FileReader.UnpackValue` | util/reader.h:60-61 | Reading a packed value byte by byte gives what decoding the file at the position gives, stops behind it, and sets the error if and only if the code does not end inside the file. |

## Left out

- RowidIterator.RowidIterator.Setup: a bit vector that does not grow keeps marks of earlier lists; the theorems hold for any such marks, which can only add sub-blocks outside the bounds.
- RowWriter.RowWriter.AddValue: requires fewer than 2 to the power 32 - 1 pending rowids, because the source stores their positions in 32 bits.
- RowWriter.RowWriter.DetermineMinMax: promises nothing once the 32-bit count of values wraps.
- IndexBuilder.Process: requires fewer than 2 to the power 32 pairs in all, for the same reason.
- IndexRoundTrip.StoredItemReadable: requires the stored lists of a block to take fewer than 2 to the power 32 bytes, the width of their recorded offsets.
- IndexQuery.GetRangeRows: requires fewer than 2 to the power 31 pairs, the limit of the counter in the bitmap iterator, and an index that is not empty, which the source answers before; no cutoff.
- IndexQuery.GetValsRows: the same, where a value listed twice counts twice; windows of at most 128 positions; no cutoff.
- ValueLookup.BlockReader.LoadBlockValuesToCache: the cache is a map that always takes the values; its limit and its threads are those of BlockCache.
- ValueLookup.BlockReader.CreateBlocksIterator: requires fewer than 2 to the power 31 blocks, the width of the loaded block number.
- ValueLookup.BlockReader.FindAll: requires windows of at most two blocks, which the 128-position windows of the learned index guarantee; what a wider window gives is stated for a single probe.
- DotProduct.BinaryDotProduct16: the AVX2 and AVX-512 loops in front of the 16-byte loop add the same counts in wider chunks and are not modelled; neither are they for the form with two candidates.
- BitPlanes.Pack: coordinates are real numbers in place of floats; only whether they are positive matters.
- BitPlanes.PackHighBitsToByte: whole groups of eight input bytes, the only way it is called.
- Transpose.Transpose: dimensions that are no multiple of 8 are not modelled; the planes then overlap.
- Transpose.TransposeAVX: the byte-reversal table is modelled as the function it tabulates.
- MinMaxEval.EstimateNotBelow: no row limits, which the estimate does not use.
- Analyzer.Analyzer.GetNextRowIdBlock: no cutoff; the limit of rows left is then never reached.
- ColumnFilter.FilteredRun: unsigned 32-bit columns only, because on signed 64-bit columns with tables the source compares ranges unsigned; what happens outside its other guards is said by Analyzer.YieldExactIff, ColumnFilter.WholeExactIff and ColumnFilter.PlainExactIff.
- KnnIterator.RowidIteratorKNN.constructor: the search that finds the results is not modelled.
- Float columns, in the index and in the analyzers: float ranges and probes depend on rounding.
- Query cutoffs, which shorten results on purpose.
- Distances, normalisation and error bounds of the nearest-neighbour code: floating point.
- The internals of the integer codecs, of the learned index and of the nearest-neighbour graph.
- Opening, mapping and deleting files, operating-system calls, error strings and file headers.
- The analyzers of multi-value, string and boolean columns.
- Clearing the block cache while queries run.
- Loading row data of a block for counting only, and the count of values.
- The test whether almost all blocks match, after which the block iterator is not created.
- Scanning split bitmaps, which nothing in the modelled paths uses.
- Min/max trees of booleans and floats.
- Constant, table and plain encodings of columns as stored bytes; the filters work on decoded values.
