# A verified model of the packet-capture database

The repository captures packets into a circular array of disk blocks, keeps per-block sorted indexes, prefix
Bloom filters and flow chains beside them, and answers queries from these. This project models the parts where
threads, wrapped positions or in-place updates make it hard to see that nothing is lost, and proves what the
design relies on.

## What is modelled

* **Hand-off of data blocks** (`BlockRing`, `DataBlocks`, `Protocol`, `ProtocolSteps`, `HandOff`, `HandOffSteps`,
  `HandOffRuns`, `HandOffCalls`, `ProtocolProgress`). Writers take cells from a shared counter and fill a ring of memory blocks that mirrors the
  circular disk; check threads release blocks by a modular barrier; completions give slots back.
  `DataBlocks.DataBlockBuffer` is the class with its fields and loops, proved to do what the functions of
  `BlockRing` say; `HandOff` lets any number of threads call these in any order and couples the wrapped ids of the
  fields with ids that never wrap (`Protocol`). `HandOffRuns` has the theorems over whole runs, `HandOffCalls` says them
  of the calls. Links that are patched in place are calls of the runs.
* **Back-patching against the barrier** (`BackPatch`), **cells** (`CellLayout`, `CellWriter`, `CellReader`).
* **The layered key index** (`Layers`, `LayerWriter`, `LayerLookup`, `LayerNumbers`): the serializer that trims deeper layers in
  place, and the descent through its layers.
* **The Z-order tree** (`ZCode`, `ZTree`, `ZBox`): Morton codes in three words, the bottom-up tree in one buffer,
  the recursive box search.
* **Skip lists**: sequential (`SkipLevel`, `SkipFind`, `SkipList`) and with concurrent inserters
  (`ConcurrentSkipList`, `ConcurrentRuns`), and a lookup between the inserters' steps (`ConcurrentLookup`).
* **The index path** (`Records`, `Counting`, `PoolState`, `PoolHistory`, `MemoryPool`, `IndexBlocks`, `RingRegions`,
  `Persist`, `TypeHistory`, `PersistMeta`, `IndexSearch`, `IndexNumbers`): ring pools with a list of regions, what they keep of every
  history of insertions and recycles, the gather into the circular index buffer, the sort across its end with a spare
  block, the search.
* **Flow chains** (`FlowChains`, `FlowCapture`, `FlowReader`): aggregator, patched links, chain reader; and from a parsed
  capture to the answer of a query (`CaptureIndex`).
* **Bloom filters and the filtered query** (`BitMap`, `BloomRows`, `PrefixBloom`, `FilteredQuery`, `IndexEntries`,
  `IndexFill`): from the stored entries to the answer of a query over all blocks.
* **The single-producer ring** (`SpscRing`), **the expression evaluator** (`QueryMerge`, `QueryEval`) and
  **IPv6 addresses** (`Ipv6`). `Bits`, `ModArith`, `LittleEndian` and `Basics` hold what
  all share.

Methods of the source that change fields are methods of classes here, loops are loops, and each is proved against
a function or a predicate of the old state; the theorems are lemmas about those.

## What turned out not to hold

Each of these is kept as the code has it, with the condition under which it does hold.

* `getLenOfDiskID` compares `tmp_head + 1` with the list's tail without a modulo. It reports the length of a
  block's region exactly under `PoolState.LengthReadable`: the list is not full, and if the region is the newest one the tail is
  not at slot 0, unless slot 0 begins where the region ends (`PoolState.LengthExactIff`; counterexample
  `PoolState.LengthGoesWrong`, reached from a new pool by four calls in `MemoryPool.ReachWrongLength`).
* The persister takes a block's first region in each pool. It holds everything inserted for the block exactly if no
  insertion for another block came between (`PoolHistory.GatheredIsInserted`); otherwise the later records are lost,
  as three insertions show (`MemoryPool.LoseRecord`). The published region of an index type holds all records exactly
  if this is so in every pool (`TypeHistory.HoldsAllIff`). One reader per pool, with positions that do not go back by a
  round of the disk, meets the condition (`PoolHistory.ForwardIsContiguous`).
* A blocked allocation waits for the list head to move, which only allocations do: the wait test stays true whatever
  is recycled (`PoolState.BlockedForGood`). It does not block exactly if, without the recycled regions at the front,
  there is room for a record and, where one is needed, for a list entry (`PoolState.StoredIff`).
* With a release delay of the whole ring no block is ever released (`HandOffRuns.NothingTaken`). When every writer
  repeats a refused call and nothing is left to recycle, some checker may release a block exactly if the delay is less
  than the ring (`HandOffRuns.RunGoesOn`).
* The sort of a region across the ring's end copies what lies behind the end to one spare block. It stays within
  the spare block exactly under `IndexBlocks.SpareHolds`, which nothing checks; every position is safe exactly for
  lengths of at most one byte more than a block (`IndexBlocks.SpareAlwaysHolds`).
* `fill` of the experiment makes one filter whenever an entry's block id is not below their number, and then uses the
  filter with that id. While the ids do not go back it is there for every entry exactly if no block is without an
  entry (`IndexEntries.FiltersInRangeIff`).
* The constructor of the block buffer publishes a writer's thread id as its block. A writer that has not written
  yet holds the first block back exactly if there are at most `delay + 1` writers (`HandOffRuns.SilentWritersWait`).
* A link is patched after the packet is written. Until the writer publishes a block beyond the delay the
  block to be patched cannot be released (`BackPatch.PassesIff`, `BackPatch.PatchIsInTime`); a packet that
  ends its block can come too late (`BackPatch.PatchTooLate`).
* A released block whose slot is not recycled yet still passes the test for residency: a patch of it is accepted
  (`HandOffSteps.PatchAgrees`) and changes memory on its way to the disk. No other call does
  (`HandOffRuns.ReleasedBlockFrozen`), and no patch of a writer less than the delay behind (`HandOffRuns.PatchBeforeRelease`).
* The hashed rows of the Bloom filter take 256 places for a byte and 1024 for a hash: the rows of a byte reach into those
  of the next three bytes (`BloomRows.HashedRowIff`).
* Recycling marks only a block's first region: a second region of the block is not marked while the first is still
  listed (`PoolState.MarkedBy`).
* The box search of the Z-order tree compares digit by digit. It finds nothing outside the rectangle, and it finds
  everything inside exactly for boxes aligned to a power of four on both sides (`ZBox.CompleteIffAligned`).
* A payload split over two cells is written from its begin again in the second one. `CellReader.RestIsLost` and
  `CellReader.RecoverableIff` say exactly which payloads survive.
* An index entry's `disk_block_id` divides by a macro without parentheses. It names the packet's block exactly for
  positions below 1024 (`FlowCapture.BlockIdIff`).

## Model

| member | source | states |
|---|---|---|
| `BlockRing.BarrierIsCircular` | dpdk_lib/dataBlockbuffer.hpp:54-68 | the two-case comparison holds exactly if the circular distance from id + delay to the writer lies strictly between 0 and D - 2T |
| `BlockRing.BarrierUnwrapped` | dpdk_lib/dataBlockbuffer.hpp:54-68 | within that window the wrapped test is the true order of the unwrapped ids |
| `BlockRing.RingWriteReadsBack` | dpdk_lib/dataBlockbuffer.hpp:191-206 | bytes copied in one or two pieces are found again at their wrapped places |
| `BlockRing.AcceptedIsStored` | dpdk_lib/dataBlockbuffer.hpp:152-214 | an accepted write, of new data or not, leaves byte k of its data k places after its position, wrapped |
| `BlockRing.PatchPublishesNothing` | dpdk_lib/dataBlockbuffer.hpp:152-214 | a write of data that is not new publishes no id and counts no index entry; a refused one stores nothing |
| `BlockRing.CountAtInjective` | dpdk_lib/dataBlockbuffer.hpp:198-212 | different slots and writers count in different cells |
| `BlockRing.ClearCountsAt` | dpdk_lib/dataBlockbuffer.hpp:252-254 | taking a block resets exactly the counters of its slot |
| `DataBlocks.DataBlockBuffer.constructor` | dpdk_lib/dataBlockbuffer.hpp:82-120 | slot i stands for block i, counters zero |
| `DataBlocks.DataBlockBuffer.AddWriteThread` | dpdk_lib/dataBlockbuffer.hpp:128-136 | ids in order, each published as the writer's first block, none beyond the slots |
| `DataBlocks.DataBlockBuffer.AddCheckThread` | dpdk_lib/dataBlockbuffer.hpp:137-151 | ids in order, each the checker's first slot |
| `DataBlocks.DataBlockBuffer.WriteBlock` | dpdk_lib/dataBlockbuffer.hpp:152-214 | the whole new state of a write, accepted or refused; accepted data is at its wrapped places whether it is new or not, and data that is not new leaves ids and counters as they were |
| `DataBlocks.DataBlockBuffer.CheckBlock` | dpdk_lib/dataBlockbuffer.hpp:215-225 | the checker's slot exactly if all writers have passed the barrier |
| `DataBlocks.DataBlockBuffer.GetBlock` | dpdk_lib/dataBlockbuffer.hpp:238-260 | the block with the sum of its counters, counters reset, the checker moved on by the number of checkers |
| `DataBlocks.DataBlockBuffer.RecycleBlock` | dpdk_lib/dataBlockbuffer.hpp:261-266 | the slot stands for the block one ring further |
| `Protocol.TooManyHeld` | dpdk_component/dpdkReader.cpp:121-129 | writers cannot hold all cells of two blocks and one beyond: a writer is never past a second unreached block |
| `Protocol.PublishedInReach` | dpdk_lib/dataBlockbuffer.hpp:54-68 | all published ids stay in the window in which the modular barrier tells the true order |
| `Protocol.AheadOfChecker` | dpdk_lib/dataBlockbuffer.hpp:152-225 | no writer's block, nor the one after it, is behind a checker |
| `ProtocolSteps.NextOwedReached` | dpdk_lib/dataBlockbuffer.hpp:256-257 | when a checker may release, its next slot already stands for the next block it owes |
| `ProtocolSteps.StepKeeps` | dpdk_lib/dataBlockbuffer.hpp:152-266 | every step of writers, checkers and completions keeps the protocol invariant |
| `ProtocolProgress.NeverReleases` | dpdk_lib/dataBlockbuffer.hpp:54-68 | with a delay of the whole ring no checker may ever release |
| `ProtocolProgress.RefusedPublishes` | dpdk_lib/dataBlockbuffer.hpp:152-180 | a refused writer publishes a block, not behind its own, that is not resident |
| `ProtocolProgress.ReleasesIff` | dpdk_lib/dataBlockbuffer.hpp:54-68 | when all writers wait and nothing is in flight, some checker may release exactly if the delay is less than the ring |
| `HandOffSteps.ReleaseAgrees` | dpdk_lib/dataBlockbuffer.hpp:215-225 | the modular test answers for the unwrapped ids, exactly |
| `HandOffSteps.ResidentAgrees` | dpdk_lib/dataBlockbuffer.hpp:153-180 | the modular residency test answers for the unwrapped block, exactly |
| `HandOffSteps.WriteAgrees` | dpdk_lib/dataBlockbuffer.hpp:152-214 | a write call is accepted and publishes exactly as the unwrapped protocol says |
| `HandOffSteps.WritesAvoidReleased` | dpdk_lib/dataBlockbuffer.hpp:152-214 | no write call is aimed at a released block |
| `HandOffSteps.OtherByte` | dpdk_lib/dataBlockbuffer.hpp:191-206 | a write leaves every resident byte outside it alone |
| `HandOffSteps.PatchAgrees` | dpdk_lib/dataBlockbuffer.hpp:152-214 | a patch is accepted exactly if the block it is aimed at is resident, and the next one if it reaches the end |
| `HandOffSteps.PatchedIsResident` | dpdk_component/dpdkReader.cpp:56-74 | what an accepted patch covers is the block that was stored there, not one a round of the disk later |
| `HandOffSteps.StaysGood` | dpdk_lib/dataBlockbuffer.hpp:152-266 | every call keeps the coupling of fields and unwrapped ids, the bytes and the counters |
| `HandOffRuns.RunIsGood` | dpdk_lib/dataBlockbuffer.hpp:152-266 | the invariant holds in every state of every run |
| `HandOffRuns.CheckerFindsItsBlock` | dpdk_lib/dataBlockbuffer.hpp:215-260 | at any time a checker's next slot is not in flight and carries the disk id it owes, and the barrier decides exactly by the unwrapped ids |
| `HandOffRuns.ReleasedOncePerRecycle` | dpdk_lib/dataBlockbuffer.hpp:238-266 | between two releases of a slot there is a recycle of it |
| `HandOffRuns.TakenBlockIsComplete` | dpdk_lib/dataBlockbuffer.hpp:238-260 | the taken block has its disk id, every byte accepted for it, by writes and by patches, and all its index entries counted |
| `HandOffRuns.ReleasedBlockFrozen` | dpdk_lib/dataBlockbuffer.hpp:152-225 | once a block is released no call of any thread adds a byte of it, and none but a patch aimed at it changes one |
| `HandOffRuns.ReleasedBytesStay` | dpdk_lib/dataBlockbuffer.hpp:191-206 | until the slot is recycled the ring holds the released bytes at their places |
| `HandOffRuns.PatchBeforeRelease` | dpdk_lib/dataBlockbuffer.hpp:54-68 | a block is not released while a writer's last call is less than the delay behind it |
| `HandOffRuns.SilentWritersWait` | dpdk_lib/dataBlockbuffer.hpp:128-136 | silent writers hold the first block back exactly if there are at most delay + 1 of them |
| `HandOffRuns.RunGoesOn` | dpdk_lib/dataBlockbuffer.hpp:152-225 | in every run, when all writers repeat refused calls and nothing is in flight, `checkBlock` lets some checker go exactly if the delay is less than the ring |
| `HandOffRuns.NothingTaken` | dpdk_lib/dataBlockbuffer.hpp:215-225 | with a delay of the whole ring no run takes a block |
| `HandOffCalls.WrittenIsLast` | dpdk_lib/dataBlockbuffer.hpp:152-214 | in every run the accepted byte at a position is that of the last accepted call that stored there |
| `HandOffCalls.IndexedIsAnnounced` | dpdk_lib/dataBlockbuffer.hpp:198-212 | the index entries of a writer in a block are the accepted calls that announced one |
| `HandOffCalls.TakenBlockOfCalls` | dpdk_lib/dataBlockbuffer.hpp:238-260 | a taken block holds at every position the byte of the last accepted call there, patched links included, and counts every accepted call that announced an index entry |
| `HandOffCalls.TakesInTurn` | dpdk_lib/dataBlockbuffer.hpp:256-257 | the n-th take of checker k is of block k + n times the number of checkers: every block once, in order |
| `BackPatch.DiffLeads` | dpdk_component/dpdkReader.cpp:253-267 | the difference leads from the earlier packet to the later one, also round the end of the disk |
| `BackPatch.DiffWithinDelay` | dpdk_component/dpdkReader.cpp:253-267 | for two packets of one chain it is the true distance, and at most the delay in bytes |
| `BackPatch.PassesIff` | dpdk_lib/dataBlockbuffer.hpp:54-68 | the writer passes the barrier of the patched packet's block exactly if its block is more than the delay behind, in unwrapped order |
| `BackPatch.PatchIsInTime` | dpdk_lib/packetAggregator.hpp:41-72 | while the writer has published the later packet's block, no checker may take the block to be patched |
| `BackPatch.PatchTooLate` | dpdk_component/dpdkReader.cpp:860-867 | a packet that ends its block lets the patched block be released before the patch |
| `LittleEndian.WordReadsBack` | dpdk_component/dpdkReader.cpp:139-142 | a number stored in k bytes, lowest first, is read back |
| `LittleEndian.WordIsMod` | dpdk_lib/skipListUnlock.hpp:770-772 | storing k bytes of a number keeps its remainder by 256^k |
| `CellLayout.CapLenIsField` | dpdk_lib/header.hpp:10-22 | the captured length is the third of the four fields of a header |
| `CellLayout.PlacesTile` | dpdk_component/dpdkReader.cpp:97-190 | every byte of the cells that the writer has passed belongs to exactly one packet, every other byte to none |
| `CellLayout.EndFits` | dpdk_component/dpdkReader.cpp:97-107 | packets never reach into the pointer's eight bytes |
| `CellWriter.OneMoreKept` | dpdk_component/dpdkReader.cpp:109-190 | writing the next packet keeps all packets and pointers on the disk |
| `CellWriter.DPDKReader.GetOffset` | dpdk_component/dpdkReader.cpp:97-107 | the packet's position, and the offset behind it with the pointer's length if it reaches into it |
| `CellWriter.DPDKReader.WriteSplitHeader` | dpdk_component/dpdkReader.cpp:131-159 | header, pointer, and in the next cell the header's rest and the payload |
| `CellWriter.DPDKReader.WriteSplitPayload` | dpdk_component/dpdkReader.cpp:161-180 | header, the payload's begin, pointer, and in the next cell the payload from its begin again |
| `CellWriter.DPDKReader.WritePacketToPacketBuffer` | dpdk_component/dpdkReader.cpp:109-190 | the whole disk after a packet, and where the writer stands |
| `CellWriter.DPDKReader.Capture` | dpdk_component/dpdkReader.cpp:97-190 | the packet's place follows the last one, and all packets so far are on the disk |
| `CellReader.ReadPacket` | dpdk_component/querier.cpp:276-335 | every header is recovered, also from two cells, and of the payload every byte that is on the disk |
| `CellReader.ReadCaptured` | dpdk_component/querier.cpp:259-345 | that holds for every packet the writer has taken |
| `CellReader.RecoverableIff` | dpdk_component/dpdkReader.cpp:165-178 | the payload is recovered in full exactly if it is not split |
| `CellReader.RestIsLost` | dpdk_component/dpdkReader.cpp:176-178 | the disk is the same for payloads that differ only in the other bytes |
| `Layers.HeadsDistinct` | dpdk_lib/skipListUnlock.hpp:702-711 | neighbouring heads have different keys |
| `LayerWriter.Trim` | dpdk_lib/skipListUnlock.hpp:727-735 | the value index moves up to the layer, the deeper layers lose their last entry, nothing else changes |
| `LayerWriter.AddKey` | dpdk_lib/skipListUnlock.hpp:719-768 | one key more: all layers are as the keys so far demand, the last path still open |
| `LayerWriter.OutputToCharCompressed` | dpdk_lib/skipListUnlock.hpp:688-785 | the layers are exactly the path-compressed index of the distinct keys, the values follow in list order |
| `LayerLookup.LookupIsExact` | dpdk_lib/skipListUnlock.hpp:688-785 | descending by key byte finds, for any byte string, exactly the head whose stored prefix it starts with, and nothing if there is none |
| `LayerNumbers.FirstValueFound` | dpdk_lib/skipListUnlock.hpp:688-785 | in the index of nodes ascending by their keys as numbers, the descent for every key ends at the index of that key's first value |
| `LayerNumbers.KeyBeforeIsLess` | dpdk_lib/skipListUnlock.hpp:231-260 | the order of the digits is the order of the keys as numbers, lowest byte first in memory |
| `LayerNumbers.FindNumber` | dpdk_lib/skipListUnlock.hpp:688-785 | serialized and looked up by number: the first place of the key, and its value unchanged if it fits its length |
| `LayerWriter.StoredIsValue` | dpdk_lib/skipListUnlock.hpp:770-772 | a value that fits its length is stored unchanged, a larger one is cut |
| `ZCode.InterleaveBits` | dpdk_lib/zOrderTree.hpp:22-35 | the loop spreads bit i to bit 2i |
| `ZCode.OfPacket` | dpdk_lib/zOrderTree.hpp:55-60 | the three words are the interleaving of both 48-bit coordinates |
| `ZCode.SuffixIsNibble` | dpdk_lib/zOrderTree.hpp:71-82 | `getSuffix` is the four-bit digit of the code as one number |
| `ZCode.PrefixCompareIsAbove` | dpdk_lib/zOrderTree.hpp:83-98 | `prefixCompare` tells exactly whether two codes agree above their lowest digits |
| `ZCode.LessIsLess` | dpdk_lib/zOrderTree.hpp:100-114 | the word-wise order is the order of the codes as numbers |
| `ZCode.CodeDigits` | dpdk_lib/zOrderTree.hpp:36-51 | a code digit decodes to the base-4 digits of both coordinates at that level |
| `ZTree.ZOrderTree.Place` | dpdk_lib/zOrderTree.hpp:172-220 | a child joins the last node of its level exactly if it agrees with it above the level, else starts a node |
| `ZTree.ZOrderTree.BuildTree` | dpdk_lib/zOrderTree.hpp:273-304 | every node of the buffer stands for an unbroken span of codes and links, per digit, the span of the codes with it |
| `ZTree.ZOrderTree.BuildTreeLevel` | dpdk_lib/zOrderTree.hpp:172-220 | one level above a complete level is complete |
| `ZTree.ZOrderTree.SearchNode` | dpdk_lib/zOrderTree.hpp:236-272 | a node's search gives, in order, exactly the codes of its span whose digits lie within the box's |
| `ZTree.ZOrderTree.Search` | dpdk_lib/zOrderTree.hpp:305-316 | the same for the whole tree |
| `ZBox.SearchIsDigitwise` | dpdk_lib/zOrderTree.hpp:233-272 | an index is found exactly if every base-4 digit of x and y lies within the box's digits |
| `ZBox.SelectedAscending` | dpdk_lib/zOrderTree.hpp:236-272 | the answer is strictly ascending |
| `ZBox.SearchIsSound` | dpdk_lib/zOrderTree.hpp:305-316 | whatever is found lies in the rectangle |
| `ZBox.CompleteIffAligned` | dpdk_lib/zOrderTree.hpp:305-316 | the search misses nothing in a rectangle exactly if both sides are aligned |
| `ZBox.AlignedSearchIsExact` | dpdk_lib/zOrderTree.hpp:305-316 | for aligned boxes it finds exactly the codes in the rectangle |
| `SkipLevel.SpliceSpells` | dpdk_lib/skipListUnlock.hpp:447-457 | splicing a node in changes the chain by just that node |
| `SkipLevel.SpliceSorted` | dpdk_lib/skipListUnlock.hpp:447-457 | and keeps it sorted between its neighbours |
| `SkipFind.FindByKey` | dpdk_lib/skipListUnlock.hpp:463-487 | the truncated values of the bottom chain with that key, in list order |
| `SkipFind.FindByRange` | dpdk_lib/skipListUnlock.hpp:488-512 | the same for a half-open range of keys |
| `SkipFind.HitsAreStored` | dpdk_lib/skipListUnlock.hpp:463-512 | a chain with every node once answers with every value as often as it is stored |
| `SkipFind.SmallValueFound` | dpdk_lib/skipListUnlock.hpp:463-512 | a stored value below 2^32 is itself in the answer |
| `SkipList.SkipList.Insert` | dpdk_lib/skipListUnlock.hpp:416-462 | refused beyond the node limit, dropped silently for a wrong length, else the node stands before the first key not smaller; every level follows |
| `SkipList.SkipList.FindByKey` | dpdk_lib/skipListUnlock.hpp:463-487 | on the list as a whole, with the length check |
| `SkipList.SkipList.FindByRange` | dpdk_lib/skipListUnlock.hpp:488-512 | on the list as a whole, with the length checks |
| `SkipList.LevelWithinLevel` | dpdk_lib/skipListUnlock.hpp:416-462 | each level is a subsequence of the one below |
| `SkipList.ListBottom` | dpdk_lib/skipListUnlock.hpp:416-462 | the bottom level is the whole list, sorted |
| `SkipList.ListInserted` | dpdk_lib/skipListUnlock.hpp:416-462 | after the links are set all levels are sorted chains of the right nodes again |
| `SkipList.AnswerIsComplete` | dpdk_lib/skipListUnlock.hpp:463-512 | a lookup gives each value as often as it was accepted under those keys |
| `ConcurrentSkipList.SpliceKeeps` | dpdk_lib/skipList.hpp:777-793 | the locked re-check and splice is right wherever other inserters are |
| `ConcurrentSkipList.StepKeeps` | dpdk_lib/skipList.hpp:744-805 | no step of any inserter breaks a level, unlinks a node or loses a place found before |
| `ConcurrentRuns.RunIsGood` | dpdk_lib/skipList.hpp:744-805 | in every run all levels are sorted chains, each within the level below |
| `ConcurrentRuns.NeverUnlinked` | dpdk_lib/skipList.hpp:744-805 | a node once linked on a level stays linked there |
| `ConcurrentRuns.NodesAreArrivals` | dpdk_lib/skipList.hpp:744-764 | in every run the nodes behind the head are those of the insertions, in order, with their keys, values and heights |
| `ConcurrentRuns.QuietListIsComplete` | dpdk_lib/skipList.hpp:744-805 | when all inserters are done every node is exactly once on each of its levels, on no other, and the level counter covers it |
| `ConcurrentRuns.FindByKey` | dpdk_lib/skipList.hpp:806-834 | what the bottom level holds under the key |
| `ConcurrentRuns.FindByRange` | dpdk_lib/skipList.hpp:835-863 | what it holds under the range |
| `ConcurrentRuns.QuietAnswer` | dpdk_lib/skipList.hpp:806-863 | with inserters done, each value as often as the arrivals brought it under those keys |
| `ConcurrentLookup.OrderKept` | dpdk_lib/skipList.hpp:777-793 | no event changes the order of the nodes on the bottom level |
| `ConcurrentLookup.LookKeeps` | dpdk_lib/skipList.hpp:806-863 | a step of a lookup takes each node once and passes none that it must find |
| `ConcurrentLookup.OthersKeep` | dpdk_lib/skipList.hpp:744-863 | a step of an inserter moves no node that must be found behind the lookup |
| `ConcurrentLookup.NothingMissed` | dpdk_lib/skipList.hpp:806-863 | in every interleaving a finished lookup has taken every node in range that was linked when it began, and no node twice or out of range |
| `ConcurrentLookup.AnswerIsBetween` | dpdk_lib/skipList.hpp:806-863 | it gives each value at least as often as the list held it at the begin and at most as often as it holds it at the end |
| `ConcurrentLookup.AnswerCountsArrivals` | dpdk_lib/skipList.hpp:744-863 | at most as often as the insertions until its end brought it, and at least as often as those before, if they were done when it began |
| `MemoryPool.MemoryPool.constructor` | dpdk_lib/memoryPool.hpp:50-71 | an empty pool |
| `MemoryPool.MemoryPool.AdvanceHead` | dpdk_lib/memoryPool.hpp:85-91 | the list head passes exactly the leading recycled regions, never the last one |
| `MemoryPool.MemoryPool.Insert` | dpdk_lib/memoryPool.hpp:83-124 | a record joins its block's newest region or a new one, or waits exactly if the pool or the list is full |
| `MemoryPool.MemoryPool.GetLenOfDiskId` | dpdk_lib/memoryPool.hpp:128-154 | the reported length, as the code computes it |
| `MemoryPool.MemoryPool.WriteToBuffer` | dpdk_lib/memoryPool.hpp:155-180 | the block's records in allocation order in the index ring, also when they go round the pool's end, and nothing else changed |
| `MemoryPool.MemoryPool.Recycle` | dpdk_lib/memoryPool.hpp:181-198 | the block's first region is marked; a full list is left as it is |
| `MemoryPool.RegionReadsRound` | dpdk_lib/memoryPool.hpp:83-124 | a region's records lie from its start on, in allocation order, round the end |
| `PoolState.PlaceIsFree` | dpdk_lib/memoryPool.hpp:83-124 | the place handed out holds no record of a region in use |
| `PoolState.BarrierMeansFull` | dpdk_lib/memoryPool.hpp:102-115 | the barrier test is true exactly if the regions fill the pool |
| `PoolState.DropDirtyGivesUpDirty` | dpdk_lib/memoryPool.hpp:85-91 | only recycled regions are given up |
| `PoolState.AppendedOwned` | dpdk_lib/memoryPool.hpp:117-119 | a stored record joins the records of its block and of no other |
| `PoolState.OneRegionOwnsAll` | dpdk_lib/memoryPool.hpp:128-180 | what is gathered of a block is a beginning of what it owns, and all of it exactly if it has at most one region |
| `PoolHistory.HistoryKeeps` | dpdk_lib/memoryPool.hpp:83-198 | after every history of insertions and recycles a block, not recycled, owns exactly the records inserted for it, in order, in one region per unbroken run of insertions |
| `PoolHistory.UnbrokenIsOneRun` | dpdk_lib/memoryPool.hpp:117-119 | insertions are contiguous exactly if they are one run, or none |
| `PoolHistory.OneRegionIff` | dpdk_lib/memoryPool.hpp:117-119 | a block has at most one region exactly if its insertions are contiguous |
| `PoolHistory.GatheredIsInserted` | dpdk_lib/memoryPool.hpp:155-180 | what is gathered of a block is a beginning of what was inserted, and all of it exactly if the insertions are contiguous |
| `PoolHistory.LengthIsInserted` | dpdk_lib/memoryPool.hpp:128-154 | the reported length is the number of records inserted: for contiguous insertions exactly if the region is readable, for a readable region exactly if they are contiguous |
| `PoolHistory.ForwardIsContiguous` | dpdk_lib/indexBufferWithPool.hpp:84-138 | insertions of one reader, whose positions do not go back by a round of the disk, are contiguous for every block |
| `PoolHistory.SinceTraced` | dpdk_lib/memoryPool.hpp:83-198 | the same holds of the calls from any moment on: ids may be used again on the next round of the disk |
| `MemoryPool.LoseRecord` | dpdk_lib/memoryPool.hpp:83-180 | three stored records, the second for another block: the third is never gathered |
| `PoolState.WrittenKeeps` | dpdk_lib/memoryPool.hpp:83-124 | a store keeps every record and every list entry of the pool |
| `PoolState.LengthExactIff` | dpdk_lib/memoryPool.hpp:128-154 | the reported length is right exactly if the region is readable |
| `PoolState.LengthGoesWrong` | dpdk_lib/memoryPool.hpp:138-141 | a pool with tail 0 where it is wrong |
| `MemoryPool.ReachWrongLength` | dpdk_lib/memoryPool.hpp:83-198 | that pool, reached from a new one by insertions and a recycle |
| `PoolState.BlockedForGood` | dpdk_lib/memoryPool.hpp:112-119 | the wait test of a blocked call stays true after any sequence of recycles |
| `PoolState.StoredIff` | dpdk_lib/memoryPool.hpp:83-119 | the condition on the pool before the call under which an insertion does not wait |
| `PoolState.MarkedBy` | dpdk_lib/memoryPool.hpp:181-198 | a region is marked exactly by a recycle of its block, if it is the block's first |
| `PoolState.RecycledAreGivenUp` | dpdk_lib/memoryPool.hpp:85-91 | once all blocks in front of the newest region are recycled, in any order, the next store keeps only the newest |
| `Records.SortRecords` | dpdk_lib/indexBlockBuffer.hpp:187-227 | a key-sorted permutation of the records |
| `Records.FlatRecordAt` | dpdk_lib/indexMemoryPool.hpp:44-85 | records written one after the other are read back |
| `Records.PermutationCounts` | dpdk_lib/indexBlockBuffer.hpp:187-227 | sorting loses, adds and changes no record |
| `Records.WholeIsQuotient` | dpdk_component/querier.cpp:34-66 | the number of whole records in a run is the quotient of the lengths |
| `IndexBlocks.IndexBlockBuffer.WriteBlock` | dpdk_lib/indexBlockBuffer.hpp:138-181 | accepted exactly if the touched blocks are resident; the ring's bytes and the published id |
| `IndexBlocks.IndexBlockBuffer.SortIndex` | dpdk_lib/indexBlockBuffer.hpp:182-233 | the region is replaced by its sorted records, also across the ring's end through the spare block; every byte outside stays |
| `IndexBlocks.RoundReadsBack` | dpdk_lib/indexBlockBuffer.hpp:138-181 | what was laid round the ring is read back |
| `IndexBlocks.PutBack` | dpdk_lib/indexBlockBuffer.hpp:229-231 | copying the spare's part back puts the whole region in place |
| `IndexBlocks.SpareAlwaysHolds` | dpdk_lib/indexBlockBuffer.hpp:182-188 | a length is safe for the spare block at every position exactly if it is at most one byte more than a block |
| `RingRegions.RingWriteTwice` | dpdk_component/indexPersister.cpp:130-139 | two writes, one behind the other, are one |
| `RingRegions.CoveredAccepts` | dpdk_lib/indexBlockBuffer.hpp:146-160 | a write of at most a block within resident positions is accepted |
| `Persist.Gather` | dpdk_component/indexPersister.cpp:128-139 | the records of all pools for the block, one pool behind the other |
| `Persist.PersistType` | dpdk_component/indexPersister.cpp:128-142 | the region holds a key-sorted permutation of all gathered records; nothing else changes |
| `Persist.SortOfRun` | dpdk_lib/indexBlockBuffer.hpp:182-233 | a sort of the run's bytes is a sort of the records |
| `TypeHistory.GatheredIff` | dpdk_component/indexPersister.cpp:128-139 | all pools together give everything inserted for the block exactly if in every pool its insertions are contiguous |
| `TypeHistory.GatheredCounts` | dpdk_component/indexPersister.cpp:128-139 | no value is gathered more often than it was inserted |
| `TypeHistory.HoldsAllIff` | dpdk_component/indexPersister.cpp:128-142 | the sorted region is a sort of everything inserted for the block exactly if the insertions are contiguous |
| `PersistMeta.TotalLength` | dpdk_component/indexPersister.cpp:113-119 | the bytes reserved are those that will be written |
| `PersistMeta.PersistMeta` | dpdk_component/indexPersister.cpp:104-153 | reservation, then each type's sorted region, published bounds included |
| `PersistMeta.PersistTypes` | dpdk_component/indexPersister.cpp:124-147 | the regions of all types lie one behind the other, each the sorted records of its type, and all that were inserted exactly for contiguous insertions; the ring outside is unchanged |
| `PersistMeta.RegionReadBack` | dpdk_component/indexPersister.cpp:142-146 | every published region is read back from the ring as it was sorted |
| `PersistMeta.RegionAnswers` | dpdk_component/querier.cpp:34-92 | a search in a published region gives each value at most as often as it was inserted for the block under those keys, and exactly as often if the insertions are contiguous |
| `IndexSearch.BinarySearch` | dpdk_component/querier.cpp:34-66 | exactly the values stored under the key, in run order |
| `IndexSearch.BinarySearchRange` | dpdk_component/querier.cpp:67-92 | exactly the values stored under the half-open range |
| `IndexSearch.HitsCount` | dpdk_component/querier.cpp:34-92 | an answer holds each value as often as the records do |
| `IndexSearch.AnswerIsInserted` | dpdk_component/querier.cpp:34-92 | through any sort, an answer gives each value as often as it was inserted |
| `IndexNumbers.RecordNumbers` | dpdk_lib/indexMemoryPool.hpp:44-85 | a record written from a key and a position has that key and that position as numbers |
| `IndexNumbers.SearchKey` | dpdk_component/querier.cpp:34-66 | records written, sorted and searched: each position exactly as often as it was written with the key |
| `IndexNumbers.SearchRange` | dpdk_component/querier.cpp:67-92 | the same for a half-open range of keys |
| `FlowChains.LastIsLast` | dpdk_lib/packetAggregator.hpp:41-72 | the packet remembered for a flow is its last one |
| `FlowChains.NextMember` | experiment/dataHandler.cpp:205-240 | behind a packet its chain goes on at the packet that continues it |
| `FlowChains.WalkIsChain` | experiment/queryTest.cpp:423-444 | following the links visits exactly the rest of the chain, in capture order, and ends |
| `FlowChains.WalkFromHead` | experiment/queryTest.cpp:423-444 | from an indexed packet it visits the whole chain |
| `FlowChains.MembersSameFlow` | experiment/dataHandler.cpp:205-240 | one flow per chain |
| `FlowChains.LinkedIff` | dpdk_lib/packetAggregator.hpp:41-72 | a packet continues the last one of its flow exactly if that is not later and within both limits |
| `FlowChains.MembersIff` | experiment/dataHandler.cpp:205-240 | a chain's members are exactly the packets whose first packet it is |
| `FlowChains.MembersAscend` | experiment/dataHandler.cpp:205-240 | they are listed in capture order, each once |
| `FlowChains.WalkVisits` | experiment/queryTest.cpp:423-444 | the walk from a chain's first packet visits exactly the packets of the chain, each once, in capture order |
| `FlowCapture.PacketAggregator.AddPacket` | dpdk_lib/packetAggregator.hpp:41-72 | the packet to continue, or none if the flow is new or too far back, and the new entry |
| `FlowCapture.LastIsPrev` | dpdk_lib/packetAggregator.hpp:41-72 | the answer is exactly the packet to continue |
| `FlowCapture.BufferNext` | experiment/dataHandler.cpp:127-151 | one more packet: its link cleared, the one before it in its chain patched, all others as they were |
| `FlowCapture.Capture.Join` | experiment/dataHandler.cpp:205-240 | a packet is patched into its chain or indexed |
| `FlowCapture.Capture.ParseOne` | experiment/dataHandler.cpp:76-82 | one packet read, its link cleared, joined if it has a flow |
| `FlowCapture.Capture.Parse` | experiment/dataHandler.cpp:205-240 | the whole capture is linked and indexed, or the loop stops at a packet without a flow or a full index buffer |
| `FlowCapture.BlockIdIff` | experiment/dataHandler.cpp:131-147 | an entry names the packet's block exactly for positions below 1024 |
| `FlowReader.ReadChain` | experiment/queryTest.cpp:423-444 | the reader visits the packets of the walk and counts them and their bytes |
| `FlowReader.HeadOnce` | experiment/dataHandler.cpp:205-240 | every chain's first packet is indexed once |
| `FlowReader.ChainsPartition` | experiment/queryTest.cpp:423-444 | the chains of all indexed packets hold every packet exactly once: packets and bytes are conserved |
| `FlowReader.ReadPackets` | experiment/queryTest.cpp:423-444 | any list of indexed offsets is counted with its chains |
| `FlowReader.ReadAll` | experiment/queryTest.cpp:423-444 | reading from every indexed offset counts every packet and every captured byte once |
| `FlowReader.TotalIsLength` | experiment/dataHandler.cpp:76-82 | the captured bytes and a header for each packet are the length of the capture |
| `CaptureIndex.EntryFields` | experiment/dataHandler.cpp:131-147 | the fields of an index entry are the time stamp of the packet, its flow, the position and the address length |
| `CaptureIndex.EntriesTellChains` | experiment/dataHandler.cpp:131-240 | the index entries of a capture tell, per index type, exactly of the first packets of its chains |
| `CaptureIndex.Ask` | experiment/queryTest.cpp:79-205 | a query on the filled index of a capture finds each position exactly as often as a chain with that address or port begins there |
| `BitMap.BitMap.constructor` | dpdk_lib/bitMap.hpp:83-105 | no bit is set |
| `BitMap.BitMap.PlacesApart` | dpdk_lib/bitMap.hpp:27-42 | different rows and columns are different bits |
| `BitMap.BitMap.Get` | dpdk_lib/bitMap.hpp:120-136 | the bit, and false outside the map |
| `BitMap.BitMap.Set` | dpdk_lib/bitMap.hpp:161-178 | sets one bit and changes no other; refused outside the map |
| `BitMap.BitMap.ClearCol` | dpdk_lib/bitMap.hpp:148-159 | clears one column and no other |
| `BloomRows.RowsInExtent` | dpdk_lib/prefixBloomFilter.hpp:58-100 | every row a key sets lies in the part of its kind |
| `BloomRows.KindsApart` | dpdk_lib/prefixBloomFilter.hpp:17-19 | the parts of different kinds do not overlap |
| `BloomRows.PrefixNeverMissed` | dpdk_lib/prefixBloomFilter.hpp:123-217 | an address with the same first n bytes passes the n-byte check |
| `BloomRows.StaysSet` | dpdk_lib/prefixBloomFilter.hpp:275-317 | what an insertion set stays until its column is cleared |
| `BloomRows.NoFalseNegatives` | dpdk_lib/prefixBloomFilter.hpp:101-217 | after any operations, for any hash function and number of hashes, the column of an inserted key passes its check and all its prefix checks |
| `BloomRows.PortsExact` | dpdk_lib/prefixBloomFilter.hpp:275-332 | a port passes exactly if it was inserted |
| `BloomRows.PairsExact` | dpdk_lib/prefixBloomFilter.hpp:58-63 | the two-byte check passes exactly if an address with these bytes was inserted |
| `BloomRows.FirstByteExact` | dpdk_lib/prefixBloomFilter.hpp:123-217 | the one-byte check passes exactly if an address with this first byte was inserted |
| `BloomRows.NothingPasses` | dpdk_lib/prefixBloomFilter.hpp:101-217 | on a column without an address of the kind every check of one byte or more fails |
| `BloomRows.HashedRowIff` | dpdk_lib/prefixBloomFilter.hpp:37-57 | which hashed rows are the same, and that a byte's rows reach into those of the next three |
| `PrefixBloom.PrefixBloomFilter.InsertAddress` | dpdk_lib/prefixBloomFilter.hpp:289-317 | sets exactly the rows of the address in the writing column |
| `PrefixBloom.PrefixBloomFilter.InsertPort` | dpdk_lib/prefixBloomFilter.hpp:275-288 | sets exactly the row of the port |
| `PrefixBloom.PrefixBloomFilter.Insert` | dpdk_lib/prefixBloomFilter.hpp:275-317 | the bit map agrees with the history of operations |
| `PrefixBloom.PrefixBloomFilter.ClearColumn` | dpdk_lib/bitMap.hpp:148-159 | also after a column is cleared |
| `PrefixBloom.PrefixBloomFilter.GetPort` | dpdk_lib/prefixBloomFilter.hpp:318-332 | the check of a port |
| `PrefixBloom.PrefixBloomFilter.GetAddress` | dpdk_lib/prefixBloomFilter.hpp:101-122 | the check of a full address is true exactly if all its rows are set |
| `PrefixBloom.PrefixBloomFilter.GetPrefix` | dpdk_lib/prefixBloomFilter.hpp:123-217 | the check of n bytes, for every n |
| `PrefixBloom.RowsHaveKey` | dpdk_lib/prefixBloomFilter.hpp:101-217 | the filter answers for what the operations left in its reading column |
| `PrefixBloom.InsertedIsFound` | dpdk_lib/prefixBloomFilter.hpp:101-332 | a key inserted into the reading column, not cleared since, passes the check of the filter, and every address with the same n first bytes passes its n-byte check |
| `FilteredQuery.SkippedHasNone` | experiment/queryTest.cpp:470-486 | a block that the filter rejects has no record with the key |
| `FilteredQuery.QueryBlock` | experiment/queryTest.cpp:332-402 | a block's contribution is all its records with the key |
| `FilteredQuery.Query` | experiment/queryTest.cpp:461-489 | for blocks whose keys were inserted into their filters, the filtered query finds every value as often as a scan of all records |
| `FilteredQuery.IndexedIsCovered` | experiment/queryTest.cpp:93-175 | a block whose keys are among the operations on its filter's reading column has no key that the filter rejects, whatever else went into the filter |
| `IndexEntries.FiltersInRangeIff` | experiment/queryTest.cpp:105-140 | while block ids do not go back every entry finds its filter exactly if no block is without an entry |
| `IndexEntries.SortFinishes` | experiment/queryTest.cpp:113-128 | sorting a vector from the last block's begin on finishes the block and leaves the others |
| `IndexEntries.ClosedInserted` | experiment/queryTest.cpp:139-190 | the keys of a finished block were all inserted into its filter's column |
| `IndexEntries.BlocksTellAll` | experiment/queryTest.cpp:93-190 | the records of all blocks say of every key and position just what the entries say |
| `IndexFill.QueryIndex.AddEntry` | experiment/queryTest.cpp:139-185 | an entry goes to the filter of its block and to the vectors of its index types |
| `IndexFill.QueryIndex.Fill` | experiment/queryTest.cpp:79-205 | after all entries every block's stretch of every vector holds its records, sorted, and its filter their keys |
| `IndexFill.QueryIndex.Query` | experiment/queryTest.cpp:461-489 | on the filled index the filtered query finds each position exactly as often as entries have the key in the field of the index type |
| `IndexEntries.PortsTold` | experiment/queryTest.cpp:169-182 | under a source port: the entries with that number in the source port; under a destination port likewise |
| `IndexEntries.ShortAddressesTold` | experiment/queryTest.cpp:139-154 | under an IPv4 address: the entries of version 4 with it as their source, or destination |
| `IndexEntries.LongAddressesTold` | experiment/queryTest.cpp:155-168 | under an IPv6 address: the others |
| `IndexEntries.BlockHolds` | experiment/queryTest.cpp:97-99 | block b holds the positions of its 2^30 bytes |
| `SpscRing.SlotIsTransposed` | dpdk_lib/singleRingBuffer.hpp:73-118 | the masked and shifted slot is the transposed position |
| `Bits.Pow2Test` | dpdk_lib/singleRingBuffer.hpp:34-42 | the bit test of the constructors accepts exactly the powers of two |
| `SpscRing.SlotsApart` | dpdk_lib/singleRingBuffer.hpp:73-118 | different positions of a round have different slots |
| `SpscRing.EverySlotIsUsed` | dpdk_lib/singleRingBuffer.hpp:73-118 | every slot belongs to a position: with the above, a bijection |
| `SpscRing.StepKeeps` | dpdk_lib/singleRingBuffer.hpp:73-118 | every step of producer and consumer keeps the ring a queue |
| `SpscRing.RunIsQueue` | dpdk_lib/singleRingBuffer.hpp:73-118 | in every interleaving items come out in the order they went in, none lost, none overwritten, at most capacity - 1 under way |
| `SpscRing.PutsAreOffered` | dpdk_lib/singleRingBuffer.hpp:73-92 | what was put, with an item under way, are the items offered, in order |
| `SpscRing.PointerRingBuffer.constructor` | dpdk_lib/singleRingBuffer.hpp:38-65 | an empty queue |
| `SpscRing.PointerRingBuffer.Put` | dpdk_lib/singleRingBuffer.hpp:73-92 | appends an item while there is room |
| `SpscRing.PointerRingBuffer.Get` | dpdk_lib/singleRingBuffer.hpp:93-118 | takes the oldest item, or none |
| `QueryMerge.CommonCounts` | dpdk_component/querier.cpp:598-614 | the merge keeps of each value the smaller count |
| `QueryMerge.MergedCounts` | dpdk_component/querier.cpp:615-643 | the merge keeps of each value the larger count |
| `QueryMerge.Intersect` | dpdk_component/querier.cpp:598-614 | erasing in place gives each value as often as both lists have it |
| `QueryMerge.Join` | dpdk_component/querier.cpp:615-643 | each value as often as the list that has it more often |
| `QueryEval.CombineAnswers` | dpdk_component/querier.cpp:644-683 | block by block, an empty list counting as missing |
| `QueryEval.RunOperand` | dpdk_component/querier.cpp:944-1035 | the tokens of an operand add it to the left operand with the current operator, and leave the stacks as they were |
| `QueryEval.RunWhole` | dpdk_component/querier.cpp:944-1035 | the tokens of any expression leave the expression, left-associative, on the left |
| `QueryEval.SearchExpression` | dpdk_component/querier.cpp:944-1035 | on the tokens of any expression the stack loop computes its meaning, per block and position |
| `Ipv6.CompareIsNumeric` | dpdk_lib/util.hpp:34-68 | the comparisons are those of the 128-bit numbers |
| `Ipv6.ShiftIsNumeric` | dpdk_lib/util.hpp:70-85 | shifting the two words is shifting the number |
| `Ipv6.LowIsMod` | dpdk_lib/util.hpp:70-85 | cutting to n bits is the remainder by 2^n |

## Left out

- DPDK, io_uring, mmap, core pinning, timing, printing and `Controller`: foreign calls; a completed write and an arrived packet are steps or parameters.
- The C++ memory model: a locked section, a ring-buffer access and a block-buffer call is one step each.
- HandOffSteps.PatchedIsResident: for patches of bytes that were stored before, by a writer whose last call is less than a round of the disk and two rings further; the aggregator's limit on the distance sees to that.
- DataBlocks.DataBlockBuffer.WriteBlock: does not model the blocks' start and end times.
- DataBlocks.DataBlockBuffer.GetBlock: does not model the start and end time of the block.
- HandOffRuns.RunGoesOn: progress of the checkers once all writers wait; that writers come to wait, fair scheduling and the end of the input are not modelled.
- HandOffRuns.RunIsGood: for deployments whose ring divides the disk, whose checkers divide the ring and are at most the delay, whose delay is at most the ring, with at most delay + 1 writers and one cell per writer and block; only released blocks are recycled.
- Shutdown drains (`directCheckRSS`, `directCheckThread`, the second loops of the run methods): another release rule.
- BackPatch.PatchIsInTime: that the patch in `DPDKReader` writes to the first bytes of the header (dpdk_component/dpdkReader.cpp:867) and not to its link field is not modelled; the flow chains are those of experiment/dataHandler.cpp.
- CellWriter.DPDKReader.Capture: for packets with a flow and no longer than a cell, on one round of the disk; the disk is one byte array and each piece is an accepted block write.
- CellReader.ReadPacket: the cache of cells and the order in which `readPackets` visits offsets are left out.
- LayerWriter.OutputToCharCompressed: leaves out the final concatenation of the layers into one string; the repository has no reader of this format, so the lookup here is the descent the format is made for. `outputToCharCompact` and the integer variant are left out as simpler.
- SkipList.SkipList.Insert: nodes are entries of a numbered table instead of heap nodes, and the random level is a parameter. Keys are numbers of the key's length.
- ConcurrentSkipList.StepKeeps: reading a link, one move along a level, the locked re-check with the splice, and one compare-and-swap are one step each; so is each pointer that a lookup reads.
- ConcurrentRuns.FindByKey: on one state; lookups whose steps lie between those of inserters are in `ConcurrentLookup`.
- ConcurrentRuns.FindByRange: on one state, like `FindByKey`.
- MemoryPool.MemoryPool.Insert: positions count records of the pool's one record length instead of bytes; a store that would spin is an outcome.
- MemoryPool.MemoryPool.WriteToBuffer: asks that the target blocks are resident, since the source ignores a refused write.
- Persist.Gather: asks that the region's blocks are resident, that each pool's records for the block fit one block and that the reported length is readable, since `writeToBuffer` ignores the result of `writeBlock`.
- Persist.PersistType: asks for resident blocks and one block per pool like `Gather`, and for `SpareHolds` like `SortIndex`.
- PersistMeta.PersistTypes: asks of every type what `PersistType` asks.
- IndexBlocks.IndexBlockBuffer.SortIndex: asks for `SpareHolds`; beyond it the source writes past the memory of the ring.
- PoolHistory.HistoryKeeps: for a block that is not recycled in the calls considered; a recycled block's regions may be given up at any later insertion.
- PersistMeta.PersistMeta: the region does not wrap the index disk; the count handshake `checkAndGetMeta` and the release of index blocks (`checkThread`, `getBlock`, `recycleBlock`) are left out.
- Records.SortRecords: `std::sort` is any sort, here by insertion.
- IndexSearch.BinarySearchRange: does not model the 32-bit arithmetic of the run's length, for runs below 4 GB it is the same.
- BackPatch.DiffWithinDelay: the cut to 32 bits when the difference is written is not modelled; below 4 GB of delay nothing is cut.
- `IndexMemoryPool` beyond one pool: plumbing around the pool.
- IndexFill.QueryIndex.Fill: for entries whose block ids do not go back and skip none, below the columns of the bit map; the copy of the vectors to one buffer on the disk and back is left out.
- BloomRows.NoFalseNegatives: per column; the reuse of columns by `clearMeta`, which can share a column between blocks, is left out.
- FilteredQuery.Query: exact keys only; prefix ranges and the IPv6 branch of the querier use masks and key types that do not match the stored keys.
- SpscRing.RunIsQueue: capacities that are powers of two from 8 on; the stop flag is left out.
- QueryEval.SearchExpression: starts from tokens; `splitExpression`, the grammar checks and the parsing of addresses are left out. Every lookup answers for the same blocks in the same order.
- `TrieTree`, `BinaryTree`, `Compressor`, `MemoryBuffer`, `FileBuffer`, `TagAggregator`, scripts: incomplete, bound to I/O, or adding only easy members.
