# Verified model of the slater storage core

This project models the storage core of the `graph-format` crate in Dafny and proves properties of
the model. `dafny verify dfyconfig.toml` checks all of it.

What is modelled, by module:

- `Clock`, `ClockShard`, `CacheRuns`, `CacheScan`, `CachedScan`: the sharded second-chance caches. `Clock`
  is the sweep on values with the eviction queue it realises, `ClockShard` the mutable shard and cache
  objects, `CacheRuns` the read-probe, unlocked-load, write-publish protocol as a step relation over
  any number of threads.
- `Order`, `Wire`: the value order every sort uses, with the i64 to f64 rounding written out, and the
  varint and value codecs.
- `IsamFormat`, `IsamQuery`, `IsamAnswer`, `IsamReader`, `IsamPipeline`: the sorted index from streamed
  leaves to cached lookups. `IsamAnswer` says what each query answers without a cache, on every index,
  and compares it with a linear filter of the rows.
- `BlockFormat`, `BlockFile`, `BlockWriter`, `BlockReader`, `BlockConcat`: the block file. `BlockFile` is the
  serial reference, `BlockWriter` the inline writer and the state machine of the writer with seal
  workers, `BlockConcat` the splice with and without re-sealing.
- `ExtSort`, `RunFile`, `SpillPool`: the external sort. `ExtSort` is the merge as an object, `RunFile` a
  spilled buffer as a block file of encoded records, `SpillPool` the pushing thread and the spill
  workers as a state machine, up to the whole sort.
- `Bits`, `EliasFano`, `DegreeEf`, `DegreeRle`, `DegreeChunk`, `NodeDegrees`: the degree column, down to the
  bits of its planes and up to the file.
- `MemBudget`, `BudgetReach`, `WorkerPool`: the memory accountant over every interleaving, how far its
  counted bytes can go from any state, and the liveness of a pool of workers that wait on it.
- `Extents`: the routing table.
- `Collections`, `Sorting`: shared sequence facts.

A binary search is a function of the outcomes of its test, fixed only where they change once; what a
search returns elsewhere is left open, as the standard library leaves it. zstd is a pair of functions that undo each other; the cipher is a pair of functions where opening
with the sealing context and nonce succeeds; positional reads return the bytes written. Clocks, hash
functions, record sizes and nonces are parameters. Every statement is for all of them.

Where the code and its comments differ the model follows the code: the in-flight permit of the block
writer is released when a block is sealed, not when it is written (`BlockWriter.UnwrittenBlocksUnbounded`).

Several properties one would expect hold only under a condition, which is proved exact:

- the value order is transitive: `Order.TransitiveIffNoClash`
- a value reads back: `Wire.ValueRoundTripIff`, with a value that does not in `Wire.DeepListIsRefused`
- a block reads back: `BlockFormat.BlockRoundTripIff`, with a block that does not in
  `BlockFormat.LongRecordIsRefused`
- a block file stores every record: `BlockFile.StoresAllIff`, and a run file: `RunFile.RunRoundTripIff`, with
  records that are lost in `BlockFile.EmptyTailIsDropped` and `RunFile.SilentRecordIsLost`
- a field, an element, a plane reads back: `EliasFano.LowReadIff`, `EliasFano.ValueIff`, `EliasFano.PlaneRoundTripIff`,
  with a plane that does not in `EliasFano.WidePlaneLosesBits`
- a sample is exact and the walk from it right: `EliasFano.SampleExactIff`, `EliasFano.FoundIff`, with an accepted
  chunk that fails in `DegreeEf.LongBitmapMisreads`
- an accepted run-length body is the runs it lists: `DegreeRle.DecodedRunsIff`, with a body that fails in
  `DegreeRle.WrappedBodyMisdecodes`
- the accountant keeps its cap: `BudgetReach.CapPassedIffWorth`, with a run past every cap in
  `MemBudget.EmptySubBudgetOverlends` and a spare byte that does no harm in `BudgetReach.ForgottenByteIsLost`
- a finished file, or a finished sort, is complete after a caller went on past an error:
  `BlockWriter.EveryRunWritesTheInlineFile`, `SpillPool.EveryRunFormsSortedRuns`, with runs that are not in
  `BlockWriter.ErrorThenOkIsShort` and `SpillPool.ErrorThenOkLosesRecords`

## Model

| member | source | states |
|---|---|---|
| Clock.SweepPopsQueue | crates/graph-format/src/blockcache.rs:227-252 | The sweep, run one hand step at a time, evicts exactly the front of a queue fixed before it starts: unprotected unreferenced keys in hand order, then unprotected referenced ones in hand order |
| Clock.TurnDecreases | crates/graph-format/src/blockcache.rs:227-252 | Every step of the hand lowers the measure (ring length, set bits, hand on the protected key), so the sweep ends |
| Clock.SweepKeeps | crates/graph-format/src/blockcache.rs:227-252 | A sweep keeps ring and map in agreement and the byte count exact, ends within budget or with one entry, drops exactly its victims, and leaves the protected key as it was |
| Clock.VictimsShortestPrefix | crates/graph-format/src/blockcache.rs:227-252 | The victims are the shortest prefix of that queue that brings the shard within budget or down to one entry |
| Clock.SecondChance | crates/graph-format/src/blockcache.rs:217-252 | If a sweep evicts a key that was referenced when it began, it also evicts every unprotected key that was not |
| Clock.PlacedBehindHand | crates/graph-format/src/blockcache.rs:257-280 | A new entry is the last one the hand will meet |
| Clock.TouchKeeps | crates/graph-format/src/blockcache.rs:190-203 | A hit keeps the shard valid and within budget |
| Clock.InsertKeeps | crates/graph-format/src/blockcache.rs:257-280 | An insert keeps the shard valid and within budget or at one entry, the key just inserted survives its own sweep, and a key already present keeps its first value |
| Clock.InsertCounts | crates/graph-format/src/blockcache.rs:257-280 | Entries before an insert, plus the new one if it is new, are the entries after it plus the evicted ones |
| Clock.ExpireKeeps | crates/graph-format/src/blockcache.rs:286-306 | Idle expiry keeps exactly the entries used within the time limit, and the shard valid |
| ClockShard.ShardInner.EvictToBudget | crates/graph-format/src/isam.rs:338-366 | The mutating sweep loop computes the sweep above, and counts its victims |
| ClockShard.ShardInner.Insert | crates/graph-format/src/isam.rs:371-392 | The mutating insert computes the insert above, returns the canonical value and counts the evicted entries |
| ClockShard.ShardInner.EvictExpired | crates/graph-format/src/blockcache.rs:286-306 | The mutating expiry loop computes the expiry above, resets a hand left past the end, and counts what it dropped |
| ClockShard.ShardedCache.constructor | crates/graph-format/src/isam.rs:482-509 | A new cache has at least one shard, every sub-budget is positive, and together they are at most the byte budget |
| ClockShard.ShardedCache.GetOrLoad | crates/graph-format/src/isam.rs:529-551 | A fetch returns what the loader returns, whatever is resident, and keeps the cache coherent with the loader |
| CacheRuns.StepKeeps | crates/graph-format/src/blockcache.rs:420-444 | Each probe, unlocked load, publish, expiry or partial byte count by any thread keeps the cache invariant |
| CacheRuns.EveryRunIsTransparent | crates/graph-format/src/blockcache.rs:420-444 | In every interleaving of any number of threads every returned value is the loader's, every shard between critical sections is within its sub-budget or holds one entry, and a byte total gathered shard by shard while others write stays within the sum of the sub-budgets when every value fits one |
| CacheRuns.ShardBound | crates/graph-format/src/blockcache.rs:517-522 | A shard whose values each fit a sub-budget never holds more than its sub-budget |
| CacheRuns.ShardSizing | crates/graph-format/src/blockcache.rs:364-394 | The shard count is a power of two, halved only while a shard would own no byte; the sub-budgets fill the budget up to less than one byte a shard |
| CacheRuns.SizingFits | crates/graph-format/src/blockcache.rs:364-394 | Each shard owns at least one byte and the sub-budgets add up to at most the byte budget |
| CacheRuns.EveryRunStaysWithinTheBudget | crates/graph-format/src/blockcache.rs:364-394 | With shards sized that way and values that fit a sub-budget, a byte total gathered in any interleaving is at most the byte budget |
| CacheScan.AscendingScanMissesOncePerBlock | crates/graph-format/src/blockcache.rs:449-465 | Reading keys in grouped order misses once per key, for every budget and starting contents that do not hold them |
| CachedScan.AscendingFileScan | crates/graph-format/src/blockcache.rs:449-465 | Reading a file's records in ascending order through the cache misses exactly once per block, for every positive budget however small |
| Order.CmpKeyFlip | crates/graph-format/src/ids.rs:87-122 | Swapping operands flips the comparison, for all nested values |
| Order.CmpKeyChains | crates/graph-format/src/ids.rs:87-122 | Over a family in which no two integers convert to one float present in it, two comparisons determine the third |
| Order.TransitiveIffNoClash | crates/graph-format/src/ids.rs:103-106 | The order is transitive over a family of integers and floats if and only if no two of its distinct integers convert to one of its floats |
| Order.AsF64Monotone | crates/graph-format/src/ids.rs:103-106 | The i64 to f64 conversion, rounding half to even, is monotone |
| Order.ExactIntegersNeverClash | crates/graph-format/src/ids.rs:103-106 | Integers of magnitude at most 2^53 never clash |
| Order.CycleBeyond2To53 | crates/graph-format/src/ids.rs:103-106 | 2^53, its float and 2^53 + 1 tie, tie, and then compare less |
| Wire.UvarintRoundTrip | crates/graph-format/src/wire.rs:190-229 | Reading a varint undoes writing it for every 64-bit number, whatever follows |
| Wire.ValueRoundTripIff | crates/graph-format/src/wire.rs:242-277 | Reading a value undoes writing it as a prefix code if and only if it nests at most 256 deep; deeper values are refused |
| Wire.DeepListIsRefused | crates/graph-format/src/wire.rs:242-277 | A null inside 256 lists is written and then refused |
| IsamFormat.LeafRoundTripIff | crates/graph-format/src/isam.rs:788-800 | A leaf decodes to its rows if and only if no key nests too deep |
| IsamFormat.FlushIsamBlock | crates/graph-format/src/isam.rs:94-129 | A flush adds one leaf and its first key and keeps the index of the blocks |
| IsamFormat.WriteIsamSorted | crates/graph-format/src/isam.rs:138-200 | The streamed leaves concatenate to the rows, each closes with the row whose bytes reach the target and not before, and the top level holds each leaf's first key |
| IsamQuery.SortedHasProfile | crates/graph-format/src/ids.rs:87-122 | Rows sorted by key lie below, at, then above any key of a clash-free family |
| IsamQuery.EqualRun | crates/graph-format/src/isam.rs:803-850 | From wherever the binary search stops, the loop over one leaf collects the equal run, whatever the rows |
| IsamQuery.LeafEqualIs | crates/graph-format/src/isam.rs:803-850 | On rows that lie below, at, then above the key, that run is exactly the ids of the rows equal to it |
| IsamQuery.RangeRun | crates/graph-format/src/isam.rs:908-969 | From wherever the binary search stops, the loop over one leaf takes rows until one is past the range, and says whether it met one, whatever the rows |
| IsamQuery.LeafRangeIs | crates/graph-format/src/isam.rs:908-969 | On rows in order those are exactly the ids inside the range, and it stops only past the end |
| Sorting.SortDedup | crates/graph-format/src/isam.rs:908-969 | Sorted and deduplicated ids are strictly ascending and exactly the ids found |
| IsamQuery.RunLengthsTally | crates/graph-format/src/isam.rs:976-1010 | On sorted rows the run-length list has one entry per distinct key, in order, with the number of rows equal to it |
| IsamAnswer.TopsProfile | crates/graph-format/src/isam.rs:803-850 | The first keys of an index in order are in order, so a search in the top level has one place to stop |
| IsamAnswer.EqAnswerIs | crates/graph-format/src/isam.rs:803-850 | The cache-free equality answer of an index in order is the sorted ids of a linear filter, for equal runs over any number of leaves |
| IsamAnswer.BatchIsLookups | crates/graph-format/src/isam.rs:857-900 | The cache-free batch answer fails exactly when one of the single answers does, and otherwise its slot i is the single answer for key i, on every index |
| IsamAnswer.RangeAnswerIs | crates/graph-format/src/isam.rs:908-969 | The cache-free range answer of an index in order is the strictly ascending ids of a linear filter |
| IsamAnswer.CountsFromIs | crates/graph-format/src/isam.rs:976-1010 | The cache-free bounded count of an index whose leaves decode is the whole run-length list, or a refusal when it is longer than allowed |
| IsamReader.Reader.LookupEq | crates/graph-format/src/isam.rs:803-850 | On every index, readable or not, sorted or not, for every outcome of the binary searches and whatever the cache has seen, the lookup gives the cache-free answer; on an index in order that is the sorted ids of a linear filter |
| IsamReader.Reader.LookupEqSorted | crates/graph-format/src/isam.rs:857-900 | On every index the batch lookup fails exactly when one of the single lookups would, and otherwise each slot is what the single lookup returns |
| IsamReader.Reader.LookupRange | crates/graph-format/src/isam.rs:908-969 | On every index and for every outcome of the binary searches the range lookup gives the cache-free answer; on an index in order that is the strictly ascending ids of a linear filter, for any bounds and inclusivity |
| IsamReader.Reader.DistinctKeyCountsBounded | crates/graph-format/src/isam.rs:991-1010 | On every index the bounded count gives the cache-free one: unreadable, too many or the list, whichever the leaves decide first; when all leaves decode, the whole list or too many |
| IsamReader.Reader.Block | crates/graph-format/src/isam.rs:758-765 | A leaf read through the cache is the leaf decoded from disk, whatever the cache has seen |
| IsamPipeline.RowsAreOrdered | crates/graph-format/src/isam.rs:66-80 | Key, then id, is a total preorder on rows over a clash-free family |
| IsamPipeline.BuildIndex | crates/graph-format/src/isam.rs:138-200 | Merging the run files of a sorter that became ready without an error and streaming the output gives an index whose leaves decode to a sorted permutation of the pushed rows |
| IsamPipeline.EqualsAfterBuild | crates/graph-format/src/isam.rs:803-850 | Pushed in any order, cut into any runs and leaves, read through a cache of any size: an equality lookup answers with the sorted ids of the pushed rows that compare equal |
| IsamPipeline.BatchAfterBuild | crates/graph-format/src/isam.rs:857-900 | The same for a batch: one such answer per key |
| IsamPipeline.RangeAfterBuild | crates/graph-format/src/isam.rs:908-969 | The same for ranges, deduplicated |
| IsamPipeline.CountsAfterBuild | crates/graph-format/src/isam.rs:991-1010 | The same for the bounded count: a true tally of the pushed rows, or a refusal exactly when the tally is longer than allowed |
| BlockFormat.CheckOffsetTable | crates/graph-format/src/blockfile.rs:1178-1215 | The check accepts exactly the tables that start at 0, never decrease and end at the data length |
| BlockFormat.AcceptedIffPartition | crates/graph-format/src/blockfile.rs:1178-1215 | A table is accepted for some data if and only if it is the table of a record list that concatenates to that data |
| BlockFormat.BlockRoundTripIff | crates/graph-format/src/blockfile.rs:1223-1240 | A serialised block parses back to its own table and data if and only if the data is shorter than 4 GiB; otherwise it is refused |
| BlockFormat.LongRecordIsRefused | crates/graph-format/src/blockfile.rs:1223-1240 | A block of one record of 2^32 bytes is written and then refused |
| BlockFormat.RangeAgreesWithTable | crates/graph-format/src/blockfile.rs:1269-1290 | On every accepted block the two-offset range reader and the parsed table agree on every slot, in range or not |
| BlockFormat.SlotIsRecord | crates/graph-format/src/blockfile.rs:1246-1262 | Slot i of a serialised block is record i |
| BlockFile.StoresAllIff | crates/graph-format/src/blockfile.rs:433-448 | Every appended record reaches the file, in order, if and only if the last open group is absent or holds a byte |
| BlockFile.NonEmptyRecordsStored | crates/graph-format/src/blockfile.rs:433-448 | Non-empty records are all stored |
| BlockFile.EmptyTailIsDropped | crates/graph-format/src/blockfile.rs:433-448 | One empty record is given a location and is not in the file |
| BlockFile.StoredBlocksNonEmpty | crates/graph-format/src/blockfile.rs:433-448 | Every stored block holds at least one record and at least one byte |
| BlockWriter.InlineWriter.AppendRecord | crates/graph-format/src/blockfile.rs:420-431 | Appending keeps the file written so far equal to the reference file of the closed groups, and returns the open block and next slot |
| BlockWriter.InlineWriter.FlushBlock | crates/graph-format/src/blockfile.rs:489-518 | A flush writes the open group as the next block unless it holds no bytes |
| BlockWriter.InlineWriter.WriteSealed | crates/graph-format/src/blockfile.rs:451-466 | A sealed block goes to the end of the region and its entry to the end of the directory |
| BlockWriter.InlineWriter.Finish | crates/graph-format/src/blockfile.rs:574-613 | The finished file is the reference file of all stored groups |
| BlockWriter.LocationIsPosition | crates/graph-format/src/blockfile.rs:420-431 | The location returned for record g names the group and slot that record g ends up in |
| BlockWriter.StepKeeps | crates/graph-format/src/blockfile.rs:489-572 | Each step of the appending thread and of the seal workers keeps the writer invariant |
| BlockWriter.EveryRunWritesTheInlineFile | crates/graph-format/src/blockfile.rs:468-613 | In every order of worker completions, and whatever calls follow an error, the written blocks are a prefix of the submitted ones, written, done, failed and in-flight blocks partition the submitted ones, and permits bound the queued and running seals. A successful finish leaves exactly the inline writer's bytes and directory if and only if no call has returned an error; otherwise it stops at the first block whose seal failed |
| BlockWriter.ErrorThenOkIsShort | crates/graph-format/src/blockfile.rs:468-487 | A run in which an append returns the error and the finish after it succeeds without the block |
| BlockWriter.NeverStuck | crates/graph-format/src/blockfile.rs:489-572 | A writer that is not idle can take a step of its own or of its workers, unless it waits for a permit and other writers hold them all |
| BlockWriter.EveryCallReturns | crates/graph-format/src/blockfile.rs:489-613 | Between two calls of the caller the writer and its workers take at most as many steps as the work they start with |
| BlockWriter.UnwrittenBlocksUnbounded | crates/graph-format/src/blockfile.rs:520-558 | With one permit in use any number of sealed blocks can wait unwritten: the permit bounds seals, not blocks in memory, against the comment at 520-522 |
| BlockReader.Locate | crates/graph-format/src/blockfile.rs:970-986 | With no empty block, a global index maps to the one block that covers it and the offset inside it; indices past the end map nowhere |
| BlockReader.CoversUnique | crates/graph-format/src/blockfile.rs:970-986 | At most one block covers a record index |
| BlockReader.ReadRecordGlobal | crates/graph-format/src/blockfile.rs:989-995 | Reading record g of a written file returns the g-th appended record |
| BlockReader.BlockReadsBack | crates/graph-format/src/blockfile.rs:1029-1041 | Every block of a written file opens at its ordinal and first record and is the block written there |
| BlockReader.ForEachRecordIn | crates/graph-format/src/blockfile.rs:1123-1153 | A ranged scan visits exactly the records of the range, in order, each with its index |
| BlockReader.ScanCut | crates/graph-format/src/blockfile.rs:1123-1153 | Scanning the ranges of any ascending cut of the record space, each on its own, visits every record between the first and the last bound exactly once, in order |
| BlockReader.TotalIsCount | crates/graph-format/src/blockfile.rs:958-963 | The directory's total is the number of stored records |
| BlockConcat.SplicedFiles | crates/graph-format/src/blockfile.rs:715-747 | Copying regions and rebasing offsets gives the reference file of the concatenated blocks |
| BlockConcat.ConcatPlain | crates/graph-format/src/blockfile.rs:661-803 | Concatenating plaintext files is the file of all their blocks in order, with the summed record count; no inputs are refused |
| BlockConcat.PlainUndoes | crates/graph-format/src/blockfile.rs:997-1027 | On a plaintext file opening a stored block undoes writing it, at every position |
| BlockConcat.ResealIsDue | crates/graph-format/src/blockfile.rs:748-779 | Opening a block at its part-local position and sealing it at its output position gives exactly what a writer of the whole would have stored there |
| BlockConcat.ConcatSealed | crates/graph-format/src/blockfile.rs:661-803 | Concatenating sealed files is the file one writer would have produced for all the blocks |
| BlockConcat.EveryResealedBlockOpens | crates/graph-format/src/blockfile.rs:997-1005 | After a sealed concatenation every block opens at its new ordinal and first record and holds its records |
| ExtSort.LoadBlock | crates/graph-format/src/extsort.rs:479-497 | Loading skips empty blocks, stops at one that cannot be read, and leaves the rest of the run to come |
| ExtSort.NextRecord | crates/graph-format/src/extsort.rs:499-515 | A cursor yields the records of its run one by one, then its end or the error of what cannot be read or decoded |
| ExtSort.OpenRuns | crates/graph-format/src/extsort.rs:554-571 | Opening primes the heap with the first record of every run that has one, and fails exactly when a first record cannot be read |
| ExtSort.SortedIter.Next | crates/graph-format/src/extsort.rs:577-585 | Each record returned is one of those left and none of those left is smaller; behind the last readable record of a broken run an error is returned instead of that record |
| ExtSort.Merge | crates/graph-format/src/extsort.rs:535-585 | The merge succeeds if and only if every run reads to its end, and then outputs a sorted permutation of all the runs' records |
| ExtSort.SortedSorts | crates/graph-format/src/extsort.rs:156-158 | Sorting a buffer gives a sorted permutation of it |
| ExtSort.SortedStable | crates/graph-format/src/extsort.rs:156-158 | and keeps records that tie in the order they were pushed |
| RunFile.WriteRun | crates/graph-format/src/extsort.rs:156-172 | A spilled run is the block file of its buffer, sorted, encoded and packed |
| RunFile.ViewStreams | crates/graph-format/src/extsort.rs:479-515 | Reading the file of a run on demand, block by block and slot by slot, gives its stored records and then the end, without an error |
| RunFile.RunRoundTripIff | crates/graph-format/src/extsort.rs:156-172 | A sorted buffer reads back whole and in order from its run file if and only if the records behind its last full block spell a byte |
| RunFile.SilentRecordIsLost | crates/graph-format/src/extsort.rs:156-172 | A record that encodes to nothing, alone in its buffer, is not in the run |
| RunFile.RunHolds | crates/graph-format/src/extsort.rs:156-172 | A run holds records of its buffer in key order, all of them if and only if the tail of the sorted buffer spells a byte, as it does when no record encodes to nothing |
| SpillPool.StepKeeps | crates/graph-format/src/extsort.rs:342-435 | Each push, error check, wait for room, inline spill, spill completion, failure, release and drain keeps the sorter invariant |
| SpillPool.EveryRunFormsSortedRuns | crates/graph-format/src/extsort.rs:342-435 | For every threshold, completion order and calls made after an error, a sorter that becomes ready hands over sorted runs of pushed records: all of them if and only if no call returned an error and no dispatched buffer ends, sorted, in a block that spells nothing; outstanding spills never exceed the cap |
| SpillPool.ErrorThenOkLosesRecords | crates/graph-format/src/extsort.rs:371-391 | A run in which a push returns the error of a spill and the sort after it succeeds without its records |
| SpillPool.NeverStuck | crates/graph-format/src/extsort.rs:371-435 | A sorter that is not idle can take a step that is neither the caller's nor a failure |
| SpillPool.EveryCallReturns | crates/graph-format/src/extsort.rs:371-435 | Between two calls of the caller every run is at most as long as the work it starts with |
| SpillPool.SortSpilled | crates/graph-format/src/extsort.rs:421-435 | From the files of any sorter that became ready, read on demand through the merge: the output is in key order, is all pushed records exactly under the condition above, and with keys that do not tie it is then the only such list |
| ExtSort.OutputIsUnique | crates/graph-format/src/extsort.rs:535-540 | With a key that ties no two different records, the sorted output depends only on what was pushed |
| EliasFano.HighPartIsSmall | crates/graph-format/src/plane.rs:117-123 | The width the encoder picks leaves fewer than two high parts per element |
| EliasFano.WriteLow | crates/graph-format/src/plane.rs:149-156 | Packing sets exactly the bits of the value in its field |
| EliasFano.LowReadIff | crates/graph-format/src/plane.rs:160-172 | Reading a packed field gives the value back if and only if the value fits in the bits that the eight bytes at the field's start hold |
| EliasFano.WideFieldsIff | crates/graph-format/src/plane.rs:160-172 | Every field of every plane fits its eight-byte window if and only if the width is at most 58, or 60 |
| EliasFano.SelectInWord | crates/graph-format/src/plane.rs:104-113 | Clearing the lowest one-bit k times finds the k-th one-bit of a word |
| EliasFano.BuildSample | crates/graph-format/src/plane.rs:175-192 | The samples are the positions of every 64th one-bit of the first m, cut to 32 bits |
| EliasFano.SampleExactIff | crates/graph-format/src/plane.rs:175-192 | A sample is the one-bit it stands for if and only if that bit lies below 2^32 |
| EliasFano.Select1 | crates/graph-format/src/plane.rs:196-216 | From any sample inside the bitmap the walk ends inside it, the given number of one-bits further on |
| EliasFano.FoundIff | crates/graph-format/src/plane.rs:196-216 | On any plane the reader loads, the walk finds every element's own one-bit if and only if every sampled one lies below 2^32 |
| EliasFano.SelectIsPosition | crates/graph-format/src/plane.rs:419-432 | The i-th one-bit of an encoded bitmap sits at the i-th high part plus i, and the bitmap has exactly one per element |
| EliasFano.Encode | crates/graph-format/src/plane.rs:388-443 | The encoder's planes represent the ascending values, with fewer than three bitmap bits an element plus a word |
| EliasFano.RepresentsUsableIff | crates/graph-format/src/plane.rs:388-443 | An encoded plane has exact samples if and only if the sampled high parts plus indices lie below 2^32 |
| EliasFano.ValueIff | crates/graph-format/src/plane.rs:455-458 | At every width and bitmap length an element of an encoded plane reads back if and only if its low part is reached by its window and the walk ends at its one-bit or a multiple of 2^(64 - width) away from it; with exact samples it ends at its one-bit |
| EliasFano.PlaneRoundTripIff | crates/graph-format/src/plane.rs:388-458 | A plane reads back whole if and only if both hold of every element |
| EliasFano.WidePlaneLosesBits | crates/graph-format/src/plane.rs:160-172 | The plane of 0 and 2^63 - 1 does not read back |
| EliasFano.Successor | crates/graph-format/src/plane.rs:463-475 | The binary search returns the first index whose value is at least x |
| DegreeEf.ChunkWidth | crates/graph-format/src/degree_ef.rs:148-152 | A degree chunk never uses more than 31 low bits |
| DegreeEf.EncodeAt | crates/graph-format/src/degree_ef.rs:148-189 | At every width the planes represent the running totals of the degrees |
| DegreeEf.Encode | crates/graph-format/src/degree_ef.rs:148-189 | The same at the chosen width, with the bitmap's exact size |
| DegreeEf.NextOneAfter | crates/graph-format/src/degree_ef.rs:218-227 | The word walk finds the first one-bit after p and stays inside the bitmap |
| DegreeEf.DegreeAt | crates/graph-format/src/degree_ef.rs:251-260 | On any loaded chunk, also one no encoder wrote, the lookup never leaves the planes and gives the clamped 32-bit difference of the two values it finds |
| DegreeEf.DegreeIsDifference | crates/graph-format/src/degree_ef.rs:251-260 | With exact samples those are the two neighbouring totals |
| DegreeEf.DegreesReadBack | crates/graph-format/src/degree_ef.rs:251-260 | Every degree comes back from a plane of its totals, at any width whose low parts are reached and whose sampled positions fit 32 bits |
| DegreeEf.EveryWidthReadsBack | crates/graph-format/src/degree_ef.rs:251-260 | Where the sampled positions fit 32 bits, degrees come back at widths up to 58 and at 60 however many there are, and up to 2^25 of them at every width from 0 to 63 |
| DegreeEf.FewDegreesReadBack | crates/graph-format/src/degree_ef.rs:251-260 | Fewer than 64 degrees come back at every width from 0 to 63 |
| DegreeEf.Deserialize | crates/graph-format/src/degree_ef.rs:275-335 | Decoding accepts exactly the serialisations of well-formed chunks and returns the chunk serialised |
| DegreeEf.AcceptedIsLoaded | crates/graph-format/src/degree_ef.rs:288-335 | Whatever is accepted meets what the lookup asks of a chunk |
| DegreeEf.AcceptedIsUsableIff | crates/graph-format/src/degree_ef.rs:288-335 | On an accepted chunk the lookups find the right bits if and only if every sampled one lies below bit 2^32 |
| DegreeEf.LongBitmapMisreads | crates/graph-format/src/degree_ef.rs:288-335 | An accepted chunk with ones at bits 2^32 and 2^32 + 1 whose lookup starts at bit 0 |
| DegreeRle.RunListIs | crates/graph-format/src/degree_ef.rs:355-399 | The run list of a degree list is well formed, gives back every degree, and has no two equal neighbours |
| DegreeRle.FromDegrees | crates/graph-format/src/degree_ef.rs:355-380 | The loop builds that run list |
| DegreeRle.RunIsFlat | crates/graph-format/src/degree_ef.rs:394-399 | Every node inside a run has the run's value |
| DegreeRle.SearchedDegree | crates/graph-format/src/degree_ef.rs:394-399 | On a well-formed chunk every binary search over the starts finds the run of the node |
| DegreeRle.ToDegrees | crates/graph-format/src/degree_ef.rs:474-485 | Materialising any decoded chunk appends or cuts run by run as the source does |
| DegreeRle.ResizedIsExpand | crates/graph-format/src/degree_ef.rs:474-485 | On a well-formed chunk that gives at every node what the lookup gives |
| DegreeRle.RoundTrip | crates/graph-format/src/degree_ef.rs:415-472 | A chunk comes back from its body, whatever follows it |
| DegreeRle.Deserialize | crates/graph-format/src/degree_ef.rs:432-472 | The decoding loop computes the decoding function, with the source's 32-bit cuts and 64-bit running sum |
| DegreeRle.AcceptedIsWellFormed | crates/graph-format/src/degree_ef.rs:432-472 | Runs that add up without wrapping 64 bits decode to a well-formed chunk of exactly those runs |
| DegreeRle.DecodedRunsIff | crates/graph-format/src/degree_ef.rs:432-472 | An accepted body decodes to a well-formed chunk of the very runs it lists if and only if its run lengths do not wrap 64 bits |
| DegreeRle.WrappedBodyMisdecodes | crates/graph-format/src/degree_ef.rs:432-472 | The body of one node with runs of 2^64 - 1 and 2 is accepted and its second run starts past the end |
| DegreeRle.WrappedBodyMayFit | crates/graph-format/src/degree_ef.rs:432-472 | The body of two nodes with runs of 2^32 + 1 and 2^64 - 2^32 + 1 wraps and decodes to a well-formed chunk of other runs |
| DegreeChunk.Resident | crates/graph-format/src/degree_ef.rs:543-551 | The resident form gives back the list, and is run-length exactly when the list is uniform or empty |
| DegreeChunk.EncodeChunk | crates/graph-format/src/degree_ef.rs:566-638 | A chunk above the ceiling is refused; otherwise the record stores the list, is zstd exactly when zstd is priced and earns its margin, under any comparison of lengths, and is otherwise as short as the shortest of Elias-Fano, run-length and raw |
| DegreeChunk.DecodeChunk | crates/graph-format/src/degree_ef.rs:642-687 | A record of a list, in any of the four forms, decodes to a chunk that gives that list; unknown tags and ragged raw bodies are refused; every accepted record can be read at every offset, and an accepted run-length record is well formed with the runs it lists if and only if its lengths do not wrap |
| DegreeChunk.DegreeAt | crates/graph-format/src/degree_ef.rs:522-530 | A lookup on any accepted chunk: past the end nothing; on a well-formed one the degree; on a run-length one whose lengths wrapped the value of some run, or a panic |
| DegreeChunk.ToDegrees | crates/graph-format/src/degree_ef.rs:533-538 | Materialising any accepted chunk gives its degrees, which on well-formed ones are what the lookups give |
| NodeDegrees.ChunkAddress | crates/graph-format/src/nodedegree.rs:37-39 | Node id sits in chunk id / 2^18 at offset id % 2^18, and that chunk exists |
| NodeDegrees.WriteNodeDegrees | crates/graph-format/src/nodedegree.rs:46-76 | Columns of different length are refused; equal ones are written whenever compression never fails; the file holds one record per chunk, the out half then the in half, all of them and in order |
| NodeDegrees.ReadDegreeChunk | crates/graph-format/src/nodedegree.rs:87-99 | Faulting a chunk of either half gives that half's degrees; a chunk out of range is refused |
| NodeDegrees.DegreeOfNode | crates/graph-format/src/nodedegree.rs:78-99 | A lookup by node id through one chunk gives that node's degree in the right half, and nothing past the last node |
| NodeDegrees.ReadNodeDegrees | crates/graph-format/src/nodedegree.rs:104-136 | The eager read of any file refuses a wrong record count and returns one degree per node in each half or nothing; of a written column it returns both columns |
| MemBudget.StepKeeps | crates/graph-format/src/membudget.rs:95-224 | Each grant, count, split, sub-budget, uncount, dropped handle, sub-budget drop and release keeps the ledger invariant |
| MemBudget.EveryRunStaysWithinTheCap | crates/graph-format/src/membudget.rs:95-224 | In every interleaving each live budget's counter is the sum of what it lends and within its cap, the global counter is the sum of the counted reservations, and that sum is at most the root's cap plus one byte for each live sub-budget made of an empty reservation |
| MemBudget.NonEmptySubBudgetsKeepTheCap | crates/graph-format/src/membudget.rs:198-208 | When no empty reservation is made a sub-budget, the counted bytes never pass the root's cap |
| MemBudget.EmptySubBudgetOverlends | crates/graph-format/src/membudget.rs:198-208 | For every cap, a run through an empty sub-budget counts one byte more than the cap |
| BudgetReach.ReachesTheWorth | crates/graph-format/src/membudget.rs:95-224 | From every reachable state and for every choice of budgets to keep, the counted bytes can be brought to exactly what the choice is worth, without a further sub-budget: close the others, finish what is under way, reserve all that can be asked for |
| BudgetReach.CapPassedIffWorth | crates/graph-format/src/membudget.rs:95-224 | From every reachable state the root's cap can be passed without a further sub-budget if and only if some choice of budgets to keep is worth more than the cap |
| BudgetReach.ReachesTheSpares | crates/graph-format/src/membudget.rs:198-208 | While every handle is held, the counted bytes can be brought to exactly the cap plus one byte for each live sub-budget made of an empty reservation |
| BudgetReach.CapPassedIffSpares | crates/graph-format/src/membudget.rs:198-208 | In every reachable state the cap can be passed only over such a spare byte; while every handle is held, it can exactly when there is one |
| BudgetReach.SparesPositiveIff | crates/graph-format/src/membudget.rs:198-208 | There is a spare byte if and only if some live sub-budget was made of an empty reservation |
| BudgetReach.ForgottenByteIsLost | crates/graph-format/src/membudget.rs:153-161 | A reachable state with a spare byte from which the cap cannot be passed, because the sub-budget's last handle is gone |
| BudgetReach.StarvedByteIsHarmless | crates/graph-format/src/membudget.rs:198-208 | A reachable state with a spare byte that can be asked for, from which the cap still cannot be passed, because the sub-budget above it lies idle without a handle |
| MemBudget.AllDroppedIsZero | crates/graph-format/src/membudget.rs:216-224 | Once every reservation is dropped the counters are zero and no sub-budget is left |
| MemBudget.Accountant.ReserveNow | crates/graph-format/src/membudget.rs:95-116 | The call fails, changing nothing, exactly when less than the floor is free; otherwise it takes at least the floor and at most what is wanted, in the machine's two steps |
| MemBudget.Accountant.TryReserve | crates/graph-format/src/membudget.rs:123-141 | One attempt of the blocking call: refused when the floor passes the cap, waits when the floor is not free, otherwise granted |
| MemBudget.Accountant.Split | crates/graph-format/src/membudget.rs:183-191 | The two halves add up to what was held, the budget is untouched, and a non-empty reservation stays non-empty |
| MemBudget.Accountant.MakeSubBudget | crates/graph-format/src/membudget.rs:198-208 | The new budget is empty and lends exactly the reservation, or one byte for an empty one |
| MemBudget.Accountant.Drop | crates/graph-format/src/membudget.rs:216-224 | A drop uncounts and then gives back |
| MemBudget.Accountant.Forget | crates/graph-format/src/membudget.rs:59-66 | Letting go of the last handle leaves the budget alive while reservations are on it, and nobody can ask it for bytes any more |
| MemBudget.Accountant.CloseSubBudget | crates/graph-format/src/membudget.rs:59-66 | A sub-budget without a handle that lends nothing gives its reservation back to the budget it came from, in the machine's two steps |
| WorkerPool.StepKeeps | crates/graph-format/src/membudget.rs:123-148 | Each step of the workers keeps the pool's counter exact and loses no wake-up |
| WorkerPool.NeverStuck | crates/graph-format/src/membudget.rs:123-148 | With every floor within the cap, a pool with work left can always take a step that is not a spurious wake-up |
| WorkerPool.EveryRunFinishes | crates/graph-format/src/membudget.rs:123-148 | Every run is at most as long as its initial work plus two steps per spurious wake-up, and a run that cannot go on has finished every item and holds nothing |
| Extents.Validate | crates/graph-format/src/extents.rs:158-192 | A table is accepted if and only if its bands tile the id space in order with strictly increasing owners |
| Extents.FromLengths | crates/graph-format/src/extents.rs:82-101 | Accepted if and only if owners increase and the lengths add up within 64 bits; band i starts where the lengths before it end |
| Extents.RoutesToContainer | crates/graph-format/src/extents.rs:137-147 | Every id below the total is routed to the owner of the one band that contains it, and no other id is routed |
| Extents.OwnerIff | crates/graph-format/src/extents.rs:137-147 | A band's owner is routed exactly the ids inside it, so an empty band none |
| Extents.RoutingIsMonotone | crates/graph-format/src/extents.rs:137-147 | A larger id is never routed to an older owner |
| Extents.AppendKeepsOwners | crates/graph-format/src/extents.rs:137-147 | Appending a segment gives it the new ids and leaves every other owner as it was |
| Extents.BandOf | crates/graph-format/src/extents.rs:151-156 | The band returned for an owner is exactly the ids routed to it; non-members have none |
| Extents.FromSet | crates/graph-format/src/extents.rs:217-247 | A set is accepted if and only if its node bands and its edge bands both append to the base without gap |

## Left out

- Files, directories, footers, magics and their byte layout beyond the block region and the directory rows: I/O and framing checks.
- zstd, BLAKE3, XChaCha20-Poly1305 and CRC32C: only their inverse and context laws are used.
- Sealing and compression of index leaves: a leaf is its encoded bytes; block files carry both.
- Atomic memory orderings, metrics and throughput: a lock section or an atomic update is one step.
- UTF-8 validation of strings and the allocation clamps of the decoders: a string is its bytes.
- The 32-bit block and slot fields of a record location: the model's locations are unbounded.
- The bit-packed and raw plane codecs, plane records and their selection in plane.rs: the same bit machinery as the degree column.
- Manifests, postings, columns, histograms, full-text and store wrappers: short codecs and thin wrappers that would only add easy members.
- Failing writes, a missing spill or seal pool and the removal of run files: a worker's failure is the only error of the two pools.
- DegreeChunk.DecodeChunk: takes raw records under 4 GiB, which is what the block format can hold.
- IsamFormat.FlushIsamBlock: leaves out the compression, the sealing and the file offset of a leaf, which block files model.
- RunFile.WriteRun: sorts by insertion where the source calls the standard library's stable sort (`ExtSort.SortedStable`), and seals inline where the source may use the seal pool, whose file is the same (`BlockWriter.EveryRunWritesTheInlineFile`).
- DegreeEf.DegreesReadBack: a sufficient condition for one list; whether all values of a plane read back is exact in `EliasFano.PlaneRoundTripIff`.
