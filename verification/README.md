# Verified models of the oblivious shuffles and sorts

The repository shuffles and sorts data inside an SGX enclave. Its algorithms work on a small transaction memory, one
flat array carved into strips, and on a multi-queue that packs many linked lists into one integer array. This project
models those algorithms in Dafny, layer upon layer, and proves what they compute.

The main results:

- **One specification for three shuffles.** The cache shuffle, the Melbourne shuffle and the bitonic key/value network
  all end with `output[perm[k]] == data[k]` for every k (`Routing.Routed`), and that specification has one solution.
- **Cache shuffle.** The result holds for every length and permutation and for all drawn words whose index is in the
  array (all but -2^31 where the length does not divide 2^31). Three of its four abort checks can never fire; for the
  fourth, a full multi-queue, the exact condition of each spary is a recurrence of queue lengths, and for every capacity
  the queues can address there is an input that meets it. The refinement loop terminates.
- **Melbourne shuffle.** One pass routes its data when no bucket overflows, `checkOFlow` decides that condition, and
  three passes compose. A round is accepted exactly when both checks pass, and that is exactly when no pass drops an item.
- **Oblivious merge sort.** The code with its ring buffers, iterators and transaction resets refines a pure function.
  Whatever it returns is sorted with the same items, and the lengths at which no input can make it abort are exactly
  1 to 46, 48 to 54, 56 and 64. Its main loop is never left by its condition.
  Equal items never abort, at any length.
- **Multi-queue.** Packed doubly linked lists refine independent sequences, through any number of transactions. All
  blocks can be allocated exactly when the last block address is below 0x8000.
- **Transaction memory.** Any run of accessor calls refines one flat sequence per handle when no page boundary cuts the
  metadata a call uses, and that condition is exact: on every other handle the call takes a word of the read strip for
  its position, and some memory that the initializers lay out shows it.
- **Quicksort.** Sorted with its items, and the explicit stack never holds more than 2*floor((n+1)/3) words,
  a bound attained from three items on.

## How it is built

| files | source |
|---|---|
| `TxMemory.dfy`, `TxRegions.dfy`, `TxStraddle.dfy`, `RealLibCoda.dfy` | `Enclave/RealLibCoda.cpp`, `Enclave/RealLibCoda.h` |
| `QueueWords.dfy`, `QueueContents.dfy`, `QueueLimits.dfy`, `MultiQueue.dfy` | `Enclave/multiqueue.hpp` |
| `CacheArith.dfy`, `CacheSpec.dfy`, `CacheFlow.dfy`, `CacheOccupancy.dfy`, `CacheTiles.dfy`, `CachePairs.dfy`, `CacheSpary.dfy`, `CacheShuffle.dfy` | `Enclave/cache_shuffle.cpp` |
| `GenRandom.dfy`, `CellSort.dfy`, `MelbourneSpec.dfy`, `MelbourneRows.dfy`, `Melbourne.dfy`, `MelbourneShuffle.dfy` | `Enclave/coda_melshufflev2.cpp` |
| `Bitonic.dfy`, `SortNet.dfy`, `SortNet1.dfy` | `Enclave/sortnet.cpp`, `Enclave/sortnet1.cpp` |
| `MergeSpec.dfy`, `MergeProofs.dfy`, `RingQueue.dfy`, `ObliMergeSort.dfy` | `Enclave/obli_merge_sort.cpp` |
| `QuickSortSpec.dfy`, `QuickSortRun.dfy`, `QuickSort.dfy`, `QuickSortTx.dfy` | `Enclave/quick_sort.cpp`, `Enclave/quick_sort_tx.cpp` |
| `Common.dfy`, `Routing.dfy`, `Slices.dfy`, `Cells.dfy` | shared by the above |

Objects whose methods update fields are classes, buffers are arrays, and loops are loops. Each such method is tied to a
function or predicate on sequences, and the properties are proved about those. `Eabort` never returns, so a member that
may call it yields a `Status` or a `Result`. A word drawn by `sgx_read_rand` is a nondeterministic value, or a parameter
where the outcome is stated as a function of it. `SqrtN`, `BLOWUPFACTOR` and `QUEUE_CAP` are parameters; the Melbourne
cleanup needs `SqrtN * BLOWUPFACTOR` to be a power of two and a queue capacity of at least `SqrtN`. `ceil`, `log2` and
`sqrt` of 32-bit values are the exact integer functions: on such operands the double results round to the right side.

Some long C++ functions are several methods here, one per loop or transaction, so that each has a contract of its own:
`coda_distribute` is `DistributeRow` and the methods it calls, the three copies of distribute-and-cleanup are `Pass`,
`merge_sort` is `MergeSort` and the methods it calls, `spary` is `Spary` with its phases and steps, and `cache_shuffle`
is `CacheShuffle.Shuffle` with `First`, `Round` and `Collect`.

Where the code and its comments differ, the code is followed. The comment in `Enclave/RealLibCoda.h:16` ends the
random-access strip at word 607, `cal_nob` uses 640 words from 80 on. `coda_distribute` is declared to return a value and
does not; nothing reads it. The constructor of the multi-queue leaves a one-block free list with a link past the end
(`InitialBroken`, `OneBlockPointsOut`), and accepts sizes whose later block addresses read back negative
(`HeadTurnsNegative`). `quick_sort_tx` sorts a copy that is never read back; with one item its second push lands on the
data, so that the result is 0, and with a begin other than 0 its first read is outside the copy (`FirstAccessInside`).

## Model

| member | source | states |
|---|---|---|
| `CacheShuffle.Shuffle` | Enclave/cache_shuffle.cpp:244-309 | For every length, every permutation and all drawn words whose index is in the array, a run that does not halt leaves `arrOut[permIn[k]] == arrIn[k]` for all k; the only halt is a full multi-queue. It does halt when the first spary fills (`FirstFills`, a condition on the permutation alone), and with at least `FirstWidth` blocks it halts in no other case. The refinement loop ends because the partitions always tile the indices and a round adds some while any range has two. |
| `CacheShuffle.EveryCapacityFills` | Enclave/cache_shuffle.cpp:143-146 | The blocks are not always enough: whatever the capacity, 1048576 elements that are in place already fill the queues of the first spary. |
| `CacheShuffle.QueueCapFills` | Enclave/cache_shuffle.cpp:130-146 | With the capacity of 1000, 65536 elements in place do. |
| `CacheShuffle.InPlaceFills` | Enclave/cache_shuffle.cpp:132-187 | In general when the first m + 1 chunks are for the first range and m chunks of one block less, and a chunk, are more than the capacity. |
| `CacheShuffle.Round` | Enclave/cache_shuffle.cpp:265-292 | One round keeps the partitions complete and tiling, and the new list has exactly the number of entries that was counted for its array; a halt needs fewer blocks than the widest range has indices. |
| `CacheShuffle.RoundStep` | Enclave/cache_shuffle.cpp:273-288 | Replacing one partition by what it splits into keeps every other one and the tiling. |
| `CacheShuffle.SplitPart` | Enclave/cache_shuffle.cpp:274-286 | A partition is kept, or reordered and sprayed, into the computed number of complete parts over the same indices; it halts exactly when the order the slots were brought into overfills the queues. |
| `CacheShuffle.CountNext` | Enclave/cache_shuffle.cpp:266-269 | The count is the sum of the partition counts of all ranges. |
| `CacheShuffle.First` | Enclave/cache_shuffle.cpp:255-260 | The whole input, one element a slot, sprayed over at most Q parts; it halts exactly when the permutation overfills the queues. |
| `CacheShuffle.Collect` | Enclave/cache_shuffle.cpp:297-306 | With one index a partition the output is the target sequence. |
| `CacheShuffle.PickReal` | Enclave/cache_shuffle.cpp:298-304 | Whatever the variable starts as, the conditional moves leave the value of the one real slot. |
| `CacheShuffle.CmoveInt32` | Enclave/utility.cpp:27-37 | The destination changes exactly when the condition holds. |
| `CacheShuffle.FewAreSingled` | Enclave/cache_shuffle.cpp:252-265 | Two or three elements, where S is 1, are isolated by the first spary, so the loop never runs with S = 1. |
| `CacheShuffle.PartitionCounts` | Enclave/cache_shuffle.cpp:252-253 | A 32-bit length gives S at most 30, and S at least 2 from four elements on. |
| `CacheSpary.CacheShuffleData.Spary` | Enclave/cache_shuffle.cpp:98-225 | A complete partition becomes complete parts for consecutive chunks of its indices; "invalid partition" and "queue not empty" never happen. "queues full" happens exactly when the recurrence of queue lengths (per input chunk the arrivals, then one element less in every queue that has one) needs more blocks than there are, and then there are fewer blocks than indices. Every part has the computed number of slots. |
| `CacheSpary.CacheShuffleData.MakeParts` | Enclave/cache_shuffle.cpp:118-128 | No output range is empty, so the check never ends the run; all slots start as dummies. |
| `CacheSpary.CacheShuffleData.ReadItems` | Enclave/cache_shuffle.cpp:138-152 | Each real element of the chunk goes behind the queue of the one range that holds its index, in order; a halt happens exactly when queued and real elements of the chunk together are more than the blocks. |
| `CacheSpary.CacheShuffleData.ReadChunk` | Enclave/cache_shuffle.cpp:133-153 | The same for a whole transaction, with the queues written back to their array. |
| `CacheSpary.CacheShuffleData.PopItems` | Enclave/cache_shuffle.cpp:163-175 | Each queue of the step loses its head, and the heads, or dummies for empty queues, reach the iterators in partition order; nothing is lost. |
| `CacheSpary.CacheShuffleData.TakeFront` | Enclave/cache_shuffle.cpp:163-173 | One queue: its first element goes out and off, or (-1, -1) goes out and the queues stay. |
| `CacheSpary.CacheShuffleData.DealOut` | Enclave/cache_shuffle.cpp:157-186 | One write step of at most 48 partitions: slots and queues together still hold what was read. |
| `CacheSpary.CacheShuffleData.WriteRound` | Enclave/cache_shuffle.cpp:155-186 | One slot of every output partition is filled per input chunk, and every queue loses its head. |
| `CacheSpary.CacheShuffleData.ReadPhase` | Enclave/cache_shuffle.cpp:132-187 | After the input loop, early exit included, slots and queues hold every element, each with its own range; it halts exactly when the recurrence overfills. |
| `CacheOccupancy.LevelsRound` | Enclave/cache_shuffle.cpp:132-187 | Arrivals of a chunk and one pop a queue take the lengths of the queues exactly one step of the recurrence on. |
| `CacheOccupancy.OneQueueFills` | Enclave/cache_shuffle.cpp:143-146 | Chunks that are all for the first range fill the queues as soon as their elements, less one a chunk, are more than the blocks. |
| `CacheSpary.CacheShuffleData.RefillItems` | Enclave/cache_shuffle.cpp:197-211 | Dummies are replaced by queue heads while the queue lasts, real slots are kept. |
| `CacheSpary.CacheShuffleData.RefillOne` | Enclave/cache_shuffle.cpp:197-211 | One slot: a dummy gives way to the first element of the queue, which loses it; otherwise slot and queue stay. |
| `CacheSpary.CacheShuffleData.RefillStep` | Enclave/cache_shuffle.cpp:192-213 | The same for the slots of one step, the other partitions untouched. |
| `CacheSpary.CacheShuffleData.RefillPart` | Enclave/cache_shuffle.cpp:189-222 | Afterwards the queue is empty and the partition complete, so the check never ends the run. |
| `CacheSpary.CacheShuffleData.RefillPhase` | Enclave/cache_shuffle.cpp:189-222 | All output partitions end complete for their ranges. |
| `CacheSpary.CacheShuffleData.RandomShuffle` | Enclave/cache_shuffle.cpp:82-96 | The slots become what the drawn words determine, value and index moving together, for all words whose index is in the array. |
| `CacheSpary.CacheShuffleData.Exchange` | Enclave/cache_shuffle.cpp:88-94 | Values and indices of slots i and j change places, every other slot stays. |
| `CacheSpary.ShuffledOnce` | Enclave/cache_shuffle.cpp:82-96 | When every word but that for position i names its own position, the run exchanges slot i with the one the word names and nothing else. |
| `CacheSpary.EveryOrderIsDrawn` | Enclave/cache_shuffle.cpp:82-96 | Every reordering of the slots is reached by some words. |
| `CacheSpary.ShuffleIndexLaws` | Enclave/cache_shuffle.cpp:86-87 | A word that is an index stands for it; its sign does not matter, nor does adding the length. |
| `CacheSpary.ShuffledPermutes` | Enclave/cache_shuffle.cpp:82-96 | Whatever is drawn, that is a reordering: nothing is lost or doubled. |
| `CacheSpary.ShuffleIndexInBounds` | Enclave/cache_shuffle.cpp:86-87 | `abs(j) % len` is an index for every drawn word but the least 32-bit one, and for that one exactly when len divides 2^31. |
| `CacheSpary.CacheShuffleData.constructor` | Enclave/cache_shuffle.cpp:27-35 | Every slot of a new partition is a dummy. |
| `CacheSpary.CacheShuffleData.FromInput` | Enclave/cache_shuffle.cpp:36-46 | The slots are the input elements with their destinations. |
| `CacheSpary.CacheShuffleData.InitReadOb` | Enclave/cache_shuffle.cpp:52-57 | Two read iterators over the same slots. |
| `CacheSpary.CacheShuffleData.InitRwOb` | Enclave/cache_shuffle.cpp:58-63 | Two read/write iterators with room for those slots. |
| `CacheSpary.CacheShuffleData.ResetRwOb` | Enclave/cache_shuffle.cpp:64-71 | The slots become the elements written through the iterators. |
| `CacheSpary.EnoughSlots` | Enclave/cache_shuffle.cpp:101-105 | A complete partition has at least as many slots as indices, so each part has a slot for every index of its chunk. |
| `CacheSpec.QueueRunsDry` | Enclave/cache_shuffle.cpp:216-221 | A partition with no dummy left and slots for all its indices has an empty queue. |
| `CacheSpec.ConservesPop` | Enclave/cache_shuffle.cpp:166-171 | Moving a queue head, or a dummy, into a dummy slot conserves the elements. |
| `CacheSpec.InputComplete` | Enclave/cache_shuffle.cpp:256 | A permutation makes the input one partition in which each index occurs exactly once. |
| `CacheSpec.SubRange` | Enclave/cache_shuffle.cpp:119-123 | A complete partition holds exactly the elements of any part of its range. |
| `CacheSpec.SingleComplete` | Enclave/cache_shuffle.cpp:297-303 | In a complete partition of one index there is a real slot, and every real slot has that index's value. |
| `CacheFlow.FlowPush` | Enclave/cache_shuffle.cpp:142-150 | Reading a real element into its queue keeps every element with its range. |
| `CacheFlow.LaneJoin` | Enclave/cache_shuffle.cpp:138-152 | What a queue takes in keeps the order of reading: later elements come behind earlier ones. |
| `CacheFlow.FlowPop` | Enclave/cache_shuffle.cpp:166-181 | Taking a queue head into a dummy slot does too. |
| `CacheFlow.FlowDone` | Enclave/cache_shuffle.cpp:189-222 | Once everything is read and the slots of a part are used up, its queue is empty and it is complete. |
| `CacheFlow.FullMeansTooMany` | Enclave/cache_shuffle.cpp:143-146 | The multi-queue is full before a push only with more elements than blocks. |
| `CacheFlow.ChunkOf` | Enclave/cache_shuffle.cpp:149 | `(p - begin_idx) / out_p_idx_len` names the one output range that holds p. |
| `CacheFlow.ChunkBounds` | Enclave/cache_shuffle.cpp:119-127 | The ranges of the parts are non-empty and lie end to end. |
| `CacheTiles.ChunksTile` | Enclave/cache_shuffle.cpp:118-128 | They tile the range of the partition. |
| `CacheTiles.TilesReplace` | Enclave/cache_shuffle.cpp:273-288 | Replacing a range by parts that tile it keeps the whole tiling. |
| `CacheTiles.TilesSingles` | Enclave/cache_shuffle.cpp:295-304 | As many ranges as indices means range i is index i. |
| `CacheTiles.OutSumGrows` | Enclave/cache_shuffle.cpp:265-269 | While there are fewer partitions than indices, a round with S of at least two makes more. |
| `CacheArith.CeilDiv` | Enclave/cache_shuffle.cpp:101-105 | The quotient is the least number of parts that covers. |
| `CacheArith.OutPartitionsCut` | Enclave/cache_shuffle.cpp:231-237 | The count is between 1 and S and leaves no recomputed chunk empty and no index out. |
| `CacheArith.OutPartitionsGreatest` | Enclave/cache_shuffle.cpp:231-237 | It is the greatest such count. |
| `CacheShuffle.FirstPartsExactly` | Enclave/cache_shuffle.cpp:252-258 | The first spary makes the greatest number of parts, up to three times the integer part of log2(len), that leaves none empty. |
| `CacheArith.SplitsIff` | Enclave/cache_shuffle.cpp:231-237 | A range splits if and only if it has two indices or more and S is at least two. |
| `CacheArith.InPartitionsCut` | Enclave/cache_shuffle.cpp:227-230 | No input chunk is longer than S. |
| `CacheArith.InPartitionsLeast` | Enclave/cache_shuffle.cpp:227-230 | And the number of chunks is the least for which that is so. |
| `CachePairs.ReadPair` | Enclave/cache_shuffle.cpp:140-141 | One element from two read iterators; all other handles and the queues stay. |
| `CachePairs.WritePair` | Enclave/cache_shuffle.cpp:172-173 | One element to two read/write iterators; all other handles and the queues stay. |
| `MelbourneShuffle.Shuffle` | Enclave/coda_melshufflev2.cpp:197-285 | The shuffle ends exactly when some drawn permutation passes both overflow checks, and then `M_output[M_perm[k]] == M_data[k]` for all k. |
| `MelbourneShuffle.Attempt` | Enclave/coda_melshufflev2.cpp:215-284 | One round of the loop: rejected exactly when an overflow check fails, and `verify` of the first pass is 0. |
| `MelbourneShuffle.ThreePasses` | Enclave/coda_melshufflev2.cpp:223-283 | Carrying the permutation and the data along R and then the data along the carried permutation routes the data by the permutation. |
| `MelbourneShuffle.RoutedPermutation` | Enclave/coda_melshufflev2.cpp:223-241 | The carried permutation is a permutation again. |
| `MelbourneShuffle.AcceptsBy` | Enclave/coda_melshufflev2.cpp:219-251 | The second check decides, since the carried permutation is the only one the specification allows. |
| `MelbourneShuffle.AcceptsExactly` | Enclave/coda_melshufflev2.cpp:219-251 | A random permutation is kept if and only if no pass along it or along the carried permutation drops an item. |
| `MelbourneSpec.NoOverflowExactly` | Enclave/coda_melshufflev2.cpp:65-78 | The condition the overflow check decides is exact: it holds if and only if every item is in the column of its destination. |
| `Melbourne.MelShuffle.Pass` | Enclave/coda_melshufflev2.cpp:254-268 | Distributing every row and cleaning up every column puts `data[k]` at `perm[k]` for all k, if no bucket overflows. |
| `Melbourne.MelShuffle.DistributeRow` | Enclave/coda_melshufflev2.cpp:139-195 | The row of the intermediate buffer becomes the row's buckets, padded with -1 words; the rows before it stay. |
| `Melbourne.MelShuffle.DealItems` | Enclave/coda_melshufflev2.cpp:155-163 | After the transaction each queue holds the items of the row for its column, in order. |
| `Melbourne.MelShuffle.DrainBucket` | Enclave/coda_melshufflev2.cpp:166-184 | The queue goes to its 2 * BLOWUPFACTOR words, destination before value, and -1 words stay behind it. |
| `Melbourne.MelShuffle.DrainBuckets` | Enclave/coda_melshufflev2.cpp:166-188 | The output row holds every queue in its own bucket. |
| `Melbourne.MelShuffle.StoreOutput` | Enclave/coda_melshufflev2.cpp:189-194 | The copy puts the row at its place in the intermediate buffer and changes nothing else. |
| `Melbourne.MelShuffle.MatrixPrepare` | Enclave/coda_melshufflev2.cpp:54-62 | The sort buffer becomes the column: bucket j of every row. |
| `Melbourne.MelShuffle.CleanupColumn` | Enclave/coda_melshufflev2.cpp:233-241 | Destinations j*SqrtN to j*SqrtN + SqrtN - 1 are filled, and the position moves on by exactly SqrtN. |
| `Melbourne.MelShuffle.Collect` | Enclave/coda_melshufflev2.cpp:236-240 | The payloads of the cells whose key is not -1 are appended in order. |
| `Melbourne.MelShuffle.CheckOFlow` | Enclave/coda_melshufflev2.cpp:65-78 | 0 exactly when no row has more than BLOWUPFACTOR items for one column. |
| `Melbourne.MelShuffle.Verify` | Enclave/coda_melshufflev2.cpp:89-93 | 0 exactly when the output holds `data[k]` at `perm[k]` for all k. |
| `MelbourneSpec.CleanColumn` | Enclave/coda_melshufflev2.cpp:99-122 | A column in key order without its dummies is exactly the items for its SqrtN destinations, one each, in order. |
| `MelbourneSpec.ColumnCovers` | Enclave/coda_melshufflev2.cpp:54-62 | Without overflow every item of a column's destinations is in the column. |
| `MelbourneSpec.ColumnDistinct` | Enclave/coda_melshufflev2.cpp:54-62 | No destination is in a column twice. |
| `MelbourneRows.GatherAddress` | Enclave/coda_melshufflev2.cpp:57-59 | The address expression of the gather is word i of the column: row i/(2B), bucket j. |
| `MelbourneRows.ColumnCell` | Enclave/coda_melshufflev2.cpp:57-59 | That cell of the intermediate buffer is the column's cell. |
| `MelbourneRows.StoreRow` | Enclave/coda_melshufflev2.cpp:189-194 | Storing a row keeps the rows stored before. |
| `CellSort.MergeSort` | Enclave/coda_melshufflev2.cpp:105-121 | The buffer returned holds the cells of the input in key order, those of the same key in the opposite order of the input. |
| `CellSort.Merge2Ties` | Enclave/coda_melshufflev2.cpp:28-51 | A merge puts the second run's cells of a key before the first run's. |
| `CellSort.MergeRunsTurn` | Enclave/coda_melshufflev2.cpp:110-118 | A level turns the order of equal keys round in runs twice as long. |
| `CellSort.OrderDetermines` | Enclave/coda_melshufflev2.cpp:105-121 | Key order and the order within each key leave one result. |
| `CellSort.MergeLevel` | Enclave/coda_melshufflev2.cpp:111-114 | One level merges every pair of neighbouring runs into the other buffer. |
| `CellSort.CMerge` | Enclave/coda_melshufflev2.cpp:22-52 | Two adjacent sorted runs are merged into place, the second run first on equal keys; the rest of the buffer stays. |
| `CellSort.MergeRunsSort` | Enclave/coda_melshufflev2.cpp:110-118 | A level doubles the length of the sorted runs. |
| `CellSort.Merge2Sorts` | Enclave/coda_melshufflev2.cpp:28-51 | Merging sorted runs gives a sorted run. |
| `GenRandom.Generate` | Enclave/coda_melshufflev2.cpp:79-88 | The result is a permutation, namely the one the drawn words determine. |
| `GenRandom.Swap` | Enclave/utility.cpp:4-9 | Positions a and b change places, every other one stays. |
| `GenRandom.OneWordDrawn` | Enclave/coda_melshufflev2.cpp:79-88 | When every word but that for position i is 0, i and the position `i + word % (n - i)` change places in the identity, and nothing else moves. |
| `GenRandom.DrawPermutes` | Enclave/coda_melshufflev2.cpp:82-86 | Whatever is drawn, the exchanges keep a permutation. |
| `GenRandom.EveryPermutationIsDrawn` | Enclave/coda_melshufflev2.cpp:79-88 | Every permutation of 0..N-1 is produced by some words. |
| `MultiQueues.MultiQueue.PushBack` | Enclave/multiqueue.hpp:141-154 | One queue gains the element at its back, every other queue stays. |
| `MultiQueues.MultiQueue.PushFront` | Enclave/multiqueue.hpp:125-138 | One queue gains the element at its front, every other queue stays. |
| `MultiQueues.MultiQueue.PopFront` | Enclave/multiqueue.hpp:157-168 | One queue loses its first element, every other queue stays. |
| `MultiQueues.MultiQueue.PopBack` | Enclave/multiqueue.hpp:171-182 | One queue loses its last element, every other queue stays. |
| `MultiQueues.MultiQueue.Front` | Enclave/multiqueue.hpp:111-115 | The first element. |
| `MultiQueues.MultiQueue.Back` | Enclave/multiqueue.hpp:118-122 | The last element. |
| `MultiQueues.MultiQueue.Size` | Enclave/multiqueue.hpp:91-100 | Walking the links counts the elements. |
| `MultiQueues.MultiQueue.Empty` | Enclave/multiqueue.hpp:103-106 | True exactly for the empty queue. |
| `MultiQueues.MultiQueue.Full` | Enclave/multiqueue.hpp:109 | True exactly when the queues together hold the whole capacity, which they never exceed. |
| `MultiQueues.MultiQueue.InitNob` | Enclave/multiqueue.hpp:84 | The queues move into the transaction memory unchanged. |
| `MultiQueues.MultiQueue.ResetNob` | Enclave/multiqueue.hpp:85-88 | Even after the transaction end the array again holds exactly the queues the operations defined: word 0 is never written. |
| `MultiQueues.MultiQueue.Create` | Enclave/multiqueue.hpp:44-82 | Halts exactly when the array would be longer than 65536 words; otherwise the words are the constructor's layout, and with two blocks or more and block addresses below 0x8000 they are empty queues. |
| `QueueLimits.OneBlockPointsOut` | Enclave/multiqueue.hpp:241-252 | With a single block the first allocation finds it, and the address it then takes for the second free block, and would rewrite, is just past the array. |
| `QueueLimits.NoBlockReadsAsFree` | Enclave/multiqueue.hpp:109 | With none, `full` is false, and the free list begins just past the array. |
| `QueueLimits.HeadTurnsNegative` | Enclave/multiqueue.hpp:185-252 | In an accepted array whose last block address is 0x8000 or more, the allocations find their blocks one after the other up to block `FirstLost`, and then the head of the free list reads back as that address less 65536. |
| `QueueLimits.AllBlocksExactly` | Enclave/multiqueue.hpp:241-252 | So all blocks can be allocated, one after the other, if and only if the last address is below 0x8000. |
| `MultiQueues.MultiQueue.constructor` | Enclave/multiqueue.hpp:63-82 | The words of the new array: header, queue addresses and the chain of blocks. |
| `MultiQueues.MultiQueue.AllocBlock` | Enclave/multiqueue.hpp:241-252 | Takes the first block off the free list. |
| `MultiQueues.MultiQueue.FreeBlock` | Enclave/multiqueue.hpp:253-264 | Puts the block at the front of the free list. |
| `QueueContents.PushBackMeaning` | Enclave/multiqueue.hpp:141-154 | The word-level push keeps every block in one list, `prev` inverse to `next`, and means appending to one queue. |
| `QueueContents.PushFrontMeaning` | Enclave/multiqueue.hpp:125-138 | The same for the front. |
| `QueueContents.PopFrontMeaning` | Enclave/multiqueue.hpp:157-168 | The word-level pop means removing the first element of one queue. |
| `QueueContents.PopBackMeaning` | Enclave/multiqueue.hpp:171-182 | The same for the back. |
| `QueueContents.EndsMeaning` | Enclave/multiqueue.hpp:111-122 | The begin and end addresses lead to the first and last element. |
| `QueueContents.Conservation` | Enclave/multiqueue.hpp:241-264 | Free blocks and queued elements together are always the capacity. |
| `QueueContents.EveryBlockInOneList` | Enclave/multiqueue.hpp:241-264 | Every block is in exactly one list, at exactly one place. |
| `QueueContents.InitialRepresents` | Enclave/multiqueue.hpp:65-81 | With two blocks or more the constructor's words are empty queues and a full free list. |
| `QueueContents.InitialBroken` | Enclave/multiqueue.hpp:72-81 | With fewer than two blocks no lists explain the constructor's words: the single block keeps a link past the end. |
| `QueueWords.PackRoundTrip` | Enclave/multiqueue.hpp:185-192 | The low half always reads back; the high half does if and only if the address is below 0x8000, since the shift is signed. |
| `QueueWords.UnlinkFrontLinked` | Enclave/multiqueue.hpp:159-166 | Taking the first block off a list keeps all lists doubly linked. |
| `QueueWords.UnlinkBackLinked` | Enclave/multiqueue.hpp:173-180 | Taking the last block off does. |
| `QueueWords.LinkFrontLinked` | Enclave/multiqueue.hpp:129-137 | Putting a loose block in front does. |
| `QueueWords.LinkBackLinked` | Enclave/multiqueue.hpp:145-153 | Putting a loose block behind does. |
| `TxRegions.RunRefines` | Enclave/RealLibCoda.cpp:102-164 | Any run of reads and writes whose metadata words no page boundary cuts off gives what one flat sequence per handle gives. |
| `TxRegions.StepRefines` | Enclave/RealLibCoda.cpp:102-164 | One accessor call stays in bounds, returns what the flat sequence returns and leaves memory laid out for the changed sequences. |
| `TxRegions.ArrayAlias` | Enclave/RealLibCoda.cpp:102-122 | An array access past the end of its array is the access to the array that has the word. |
| `TxStraddle.RefinesExactly` | Enclave/RealLibCoda.cpp:102-164 | A call yields and leaves what the flat sequences do, on every laid-out memory, if and only if the metadata it uses lies in one page: array calls always, `ob_rw_read_next` on handles other than 5, the other two on handles other than 5 and 10 modulo 16. |
| `TxStraddle.CutHandleFails` | Enclave/RealLibCoda.cpp:32-77 | On every other handle there is a memory, as the initializers lay it out, on which the call goes wrong. |
| `TxStraddle.LayOut` | Enclave/RealLibCoda.cpp:32-100 | Any regions that fit and lie apart are some laid-out memory. |
| `TxStraddle.StraddledRead` | Enclave/RealLibCoda.cpp:124-136 | A read on a cut handle takes its position from a word of the read strip and counts that word up; all data stays stored exactly when no read iterator covers the word. |
| `TxStraddle.StraddledReadShows` | Enclave/RealLibCoda.cpp:124-136 | The next read of an iterator that stands at that word yields one more than its data. |
| `TxStraddle.StraddledWrite` | Enclave/RealLibCoda.cpp:138-150 | A write on a cut handle stores where that word says; memory holds what the sequences hold exactly when no read iterator covers the word and the store lands at the right place or changes nothing. |
| `TxRegions.LaidPrefix` | Enclave/RealLibCoda.h:132-155 | Regions given out first stay laid out when later ones are forgotten. |
| `TxMemory.AddrInjective` | Enclave/RealLibCoda.cpp:20-29 | No two words of the four strips share an address, and exactly the first 16, 16, 48 and 640 times 1024 fit. |
| `TxMemory.CursorMeetsHandle` | Enclave/RealLibCoda.cpp:12-18 | The metadata cursor after 3h steps is the slot the accessors compute for handle h. |
| `TxMemory.MetaWordExactly` | Enclave/RealLibCoda.cpp:104-107 | Metadata word j of a handle is where the accessors look for it exactly when it is in the page of word 0; else they find a definite word of the read strip. |
| `TxMemory.AdmissibleHandles` | Enclave/RealLibCoda.cpp:126-130 | For the third word that is: all handles but 5 and 10 modulo 16; for the second: all but 5. |
| `RealLibCoda.RealCoda.InitializeObIterator` | Enclave/RealLibCoda.cpp:32-54 | A new handle stands for a copy of the data; the handles before it keep theirs. |
| `RealLibCoda.RealCoda.InitializeObRwIterator` | Enclave/RealLibCoda.cpp:56-77 | The same in the read/write strip, both positions 0. |
| `RealLibCoda.RealCoda.InitializeNobArray` | Enclave/RealLibCoda.cpp:79-100 | The same in the random-access strip. |
| `RealLibCoda.RealCoda.NobReadAt` | Enclave/RealLibCoda.cpp:102-111 | Reads the sequence of the handle, or, past its end, that of the array that has the word. |
| `RealLibCoda.RealCoda.NobWriteAt` | Enclave/RealLibCoda.cpp:113-122 | Changes one item of that sequence and nothing else. |
| `RealLibCoda.RealCoda.ObReadNext` | Enclave/RealLibCoda.cpp:124-136 | The next item; only this handle's position moves. |
| `RealLibCoda.RealCoda.ObRwWriteNext` | Enclave/RealLibCoda.cpp:138-150 | Sets the next item; only this handle changes. |
| `RealLibCoda.RealCoda.ObRwReadNext` | Enclave/RealLibCoda.cpp:152-164 | The next item back; only this handle's position moves. |
| `RealLibCoda.RealCoda.TxEnd` | Enclave/RealLibCoda.h:132-155 | The cursors are reset, and what the handles stand for stays readable. |
| `RealLibCoda.RealCoda.constructor` | Enclave/RealLibCoda.h:25-33 | A new memory is valid with no handle given out. |
| `SortNet.Sortnet` | Enclave/sortnet.cpp:75-88 | The keys end sorted with their data in lockstep; a permutation ends as the identity and the data routed by it. |
| `SortNet.Merger` | Enclave/sortnet.cpp:52-64 | The slice of keys and data becomes its sorted form, the rest stays. |
| `SortNet.BitonicSort` | Enclave/sortnet.cpp:40-50 | The slice becomes its bitonic merge, the rest stays. |
| `SortNet.CasV2m` | Enclave/sortnet.cpp:3-38 | Unless the second key is strictly on its side, key and datum of both places change together, also when the keys are equal; everything else stays. |
| `SortNet.SortedCellsOrder` | Enclave/sortnet.cpp:52-64 | The sorted form is ordered by key and a permutation. |
| `SortNet.OrderedCellsAreRouted` | Enclave/sortnet.cpp:75-88 | Cells ordered by keys that are a permutation are at the places their keys name. |
| `Bitonic.SortedByMirrorOrders` | Enclave/sortnet.cpp:52-64 | The mirrored network sorts every key sequence whose length is a power of two. |
| `Bitonic.MergedOrders` | Enclave/sortnet1.cpp:6-16 | Bitonic merging sorts every bitonic sequence and permutes every sequence. |
| `Bitonic.SortedByDirOrders` | Enclave/sortnet1.cpp:18-28 | The directed network sorts every sequence whose length is a power of two, either way. |
| `SortNet1.BitonicSort` | Enclave/sortnet1.cpp:18-28 | The slice becomes its sorted form, the rest stays. |
| `SortNet1.BitonicMerge` | Enclave/sortnet1.cpp:6-16 | The slice becomes its bitonic merge, the rest stays. |
| `SortNet1.BitonicSortMeaning` | Enclave/sortnet1.cpp:18-28 | Ascending for 1 and descending for 0, same items, nothing outside the slice touched. |
| `SortNet1.BitonicMergeMeaning` | Enclave/sortnet1.cpp:6-16 | Every bitonic slice ends sorted in the direction asked for. |
| `SortNet1.SwapByDir` | Enclave/utility.cpp:11-18 | The two items are exchanged exactly when they are out of the order asked for. |
| `ObliMergeSort.MergeSort` | Enclave/obli_merge_sort.cpp:111-240 | A run that does not halt leaves the output sorted with the items of the input; it never halts with "unprocessed data", nor at all for the lengths of `NeverAborts` or when all items are equal. |
| `MergeProofs.EqualItemsNeverAbort` | Enclave/obli_merge_sort.cpp:111-240 | Equal items come out as they are at any length: the rule for equal heads keeps the queues even. |
| `MergeProofs.EqualHeads` | Enclave/obli_merge_sort.cpp:172-189 | Of equal heads the longer queue's goes, so that the lengths come closer by one; of equally long queues the right one's goes. |
| `MergeProofs.NeverAbortsExactly` | Enclave/obli_merge_sort.cpp:111-240 | All inputs of length n succeed if and only if n is at most 46, from 48 to 54, 56 or 64. |
| `MergeProofs.AscendingAborts` | Enclave/obli_merge_sort.cpp:154-198 | At every other length the ascending sequence aborts. |
| `MergeProofs.SafeLevelNeverAborts` | Enclave/obli_merge_sort.cpp:129-203 | A merge whose larger half is shorter than the queues, or both exactly as long, never aborts. |
| `MergeProofs.UnsafeLevelAborts` | Enclave/obli_merge_sort.cpp:129-203 | Any other merge aborts when one half is all below the other. |
| `MergeProofs.NeverFallsThrough` | Enclave/obli_merge_sort.cpp:154-203 | For sorted halves, after any preload, what follows the main loop when its bound is reached has no influence on the result: the loop is left from inside. |
| `MergeProofs.MergeSortSorts` | Enclave/obli_merge_sort.cpp:111-240 | Whatever is returned is sorted with the same items, for every input. |
| `ObliMergeSort.ResetTx` | Enclave/obli_merge_sort.cpp:84-109 | A transaction boundary keeps both queues, the unread inputs and everything emitted. |
| `ObliMergeSort.Flush` | Enclave/obli_merge_sort.cpp:95-96 | The buffered words land right behind what was written before. |
| `ObliMergeSort.EmitOne` | Enclave/obli_merge_sort.cpp:172-189 | The smaller head goes out, on a tie that of the longer queue. |
| `ObliMergeSort.FeedBoth` | Enclave/obli_merge_sort.cpp:155-162 | Each half with items left gives one to its queue, or the run halts on a full one. |
| `ObliMergeSort.MainLoop` | Enclave/obli_merge_sort.cpp:154-198 | The loop with its resets is the loop of the specification. |
| `ObliMergeSort.DrainQueues` | Enclave/obli_merge_sort.cpp:207-231 | What the queues still hold goes out, left queue first. |
| `ObliMergeSort.MergeHalves` | Enclave/obli_merge_sort.cpp:125-236 | One merge with all its transactions returns, or halts with, what the specification says. |
| `RingQueue.Queue.Enqueue` | Enclave/obli_merge_sort.cpp:40-52 | Appends to the bounded FIFO, or halts exactly when it is full. |
| `RingQueue.Queue.Front` | Enclave/obli_merge_sort.cpp:53-62 | The first item, or halts exactly when there is none. |
| `RingQueue.Queue.Dequeue` | Enclave/obli_merge_sort.cpp:63-76 | Drops the first item, or halts exactly when there is none. |
| `RingQueue.Queue.ResetNob` | Enclave/obli_merge_sort.cpp:30-33 | The array holds the same FIFO after the transaction. |
| `RingQueue.EnqueueRing` | Enclave/obli_merge_sort.cpp:49-51 | Writing behind the last item, round the end, appends. |
| `RingQueue.DequeueRing` | Enclave/obli_merge_sort.cpp:72-75 | Moving the front, round the end, drops the first item. |
| `QuickSort.Sort` | Enclave/quick_sort.cpp:20-41 | The range ends sorted with its items, nothing outside touched, using at most 2*floor((n+1)/3) stack words (two for a single item); `high_use` is that of the run on values. |
| `QuickSortRun.StackBoundIsAttained` | Enclave/quick_sort.cpp:20-40 | For every length of three or more some input makes `high_use` + 1 exactly 2*floor((n+1)/3). |
| `QuickSortRun.EightItems` | Enclave/quick_sort.cpp:20-40 | The items 0, 1, 5, 3, 4, 8, 6, 2 make `high_use` 5: the right range is worked off first. |
| `QuickSortRun.HighUseBounded` | Enclave/quick_sort.cpp:36-38 | No input makes it more. |
| `QuickSortRun.FewLeaveNoTrace` | Enclave/quick_sort.cpp:21-38 | For one or two items `high_use` stays -1: it is taken only after the pops, and nothing is pushed again. |
| `QuickSort.Partition` | Enclave/quick_sort.cpp:6-18 | Smaller items before the pivot, the others behind, nothing outside the range touched. |
| `QuickSortSpec.StackIsEnough` | Enclave/quick_sort.cpp:29-36 | Pending ranges of two items or more, apart by a pivot, fit the stack. |
| `QuickSortSpec.SortStep` | Enclave/quick_sort.cpp:25-36 | A step keeps everything in order but for the pending ranges, whose total size shrinks. |
| `QuickSortTx.QuickSort` | Enclave/quick_sort_tx.cpp:25-47 | The array of the data handle ends as a sort of the items of arr if and only if there are two or more, or the single one is 0: a single item becomes 0. The n-word stack never overflows for two or more; arr itself is not written. |
| `QuickSortTx.Partition` | Enclave/quick_sort_tx.cpp:6-23 | The same partition on a random-access array, all other handles untouched. |
| `QuickSortTx.PushRoot` | Enclave/quick_sort_tx.cpp:26-32 | Both ends are pushed; with a stack of one word the second push, the range's end, replaces the data word. |
| `QuickSortTx.FirstAccessInside` | Enclave/quick_sort_tx.cpp:6-8 | The first word the partition reads, number `end`, is in the copy of `end - begin + 1` words if and only if begin is 0. |
| `Routing.RoutedUnique` | Enclave/coda_melshufflev2.cpp:89-93 | The specification all three shuffles meet fixes the output completely. |

## Left out

- Obliviousness, cache behaviour and timing: not functional properties of the code shown.
- SGX start-up, ecalls, ocalls, printing and time: input and output only.
- `coda_txbegin`, the abort handler and stack switching: no functional effect, so a transaction begin is no step at all.
- `app_distribute_coda`: never called.
- `Enclave/expansion.cpp`: three fixed records.
- `Enclave/mergesort.cpp`, `bubble_sort` and `Enclave/baseline_wordobl/`: easier repeats of the merges, networks and specification above.
- `Enclave/DummyLibCoda.cpp`: its meaning appears as the flat sequences of `TxRegions.FlatStep`.
- Lengths that are not a power of two for the networks and the bottom-up merge sort, and length 0: outside what the code handles.
- Delete and destructors: memory is not given back in the model.
- Overflow of 32-bit data words: values are only compared and copied. Where words are packed, `QueueWords.Pack` wraps explicitly; the handle counter wraps at 2^32; cursors stay below 2^20 because every strip has a limit.
- Multi-queue elements of other sizes: an element is its two words, value and destination, as in both users.
- MelbourneShuffle.Shuffle: the random words of finitely many rounds are given, and it may run out of rounds; the source draws until a round is accepted, which need not happen.
- MelbourneShuffle.Attempt: the arrays for the carried permutation and data are new in every round, where the source reuses two; neither is read before it is filled.
- CacheSpary.CacheShuffleData.RandomShuffle: takes only words whose index is in the array; `ShuffleIndexInBounds` says that this shuts out exactly the least 32-bit word, for which `abs` is undefined, where the length does not divide 2^31.
- CacheShuffle.Shuffle: needs `queueCap` of at least 2 and block addresses below 0x8000 for 90 queues, so that the packed addresses read back (1000 in the source), and drawn words as `RandomShuffle` does. With fewer blocks than `FirstWidth`, whether a later round halts depends on the words drawn; `SplitPart` says for which order of the slots it does.
- CacheShuffle.CmoveInt32: a 32-bit move; the assembly moves 64 bits through 32-bit pointers.
- CacheSpary.CacheShuffleData.Spary: the array of output pointers is a sequence of objects; each partition's two arrays are arrays.
- MultiQueues.MultiQueue.Create: says what the queues are only for two blocks or more and addresses below 0x8000; for the other sizes it gives the words, and `QueueLimits.dfy` says where the first allocations then go wrong.
- MultiQueues.MultiQueue.PushBack: requires a free block, and pops and reads require a non-empty queue; the source leaves both to its callers.
- RealLibCoda.RealCoda.ObReadNext: for handles whose metadata words are in one page, as for the two read/write accessors; the source's own callers use handles 0 to 4. What happens on the others is stated on values, in `TxStraddle.dfy`.
- ObliMergeSort.MergeSort: for up to 16384 items, the size of the read strip both halves share.
- QuickSort.Sort: the stack is a parameter at least as long as the proved bound; the source has a global one of ten million words.
- QuickSortTx.QuickSort: for begin 0; for another begin the first read is outside the copy (`FirstAccessInside`), and what a run then computes is not modelled.
