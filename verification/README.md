# A verified model of parts of the Zend engine

This project models several parts of PHP 7.2.2 in Dafny and proves what they promise.

**The memory manager** (`php-7.2.2/Zend/zend_alloc.c`) is the main part. A heap owns 2 MB chunks of 512
pages. Large blocks are runs of pages. Small blocks are elements of runs, kept on one free list per bin.
Huge blocks are on a list whose cells are small blocks themselves. Many structures repeat the same
facts: the page bitset, the free-page count, `free_tail`, the packed page map, the free lists with their
links inside free memory, the ring of chunks, the cache of chunks and the usage counters. The class
`ZendHeap.Heap` has these fields and updates them as the code does. Its ghost field `view` says what they
stand for: the runs of every chunk, the free slots of every bin, the live blocks. `Valid()` says that all
of it agrees. Every operation keeps it, and `Client.Program.Run` carries it through every run.

The files build on each other: `Words`, `Bitset` (bit arithmetic), `BestFit` (the page search), `Bins`,
`PageInfo` (tables and packed words), `Chunks` (one chunk header), `Blocks`, `Inventory` (what is where),
`Collection`, `GcState`, `SweepState` (garbage collection), `HeapState`, `HugeState`, `HeapSteps` (the
heap invariant step by step), `Ownership` (the callers' view), `Heap` (the operations), `Client` (whole
runs), `LimitCase` (a run with a limit error too early), `ChunkMapping` (alignment of mappings).

**The other parts** are independent modules: `AstExport` (operator expressions and the parser of the
precedence table), `StringExport` (string literals), `AstList` (child lists), `Modules` (sorting and
startup of extensions), `ParseArgs` (argument binding), `Tsrm` and `ThreadStorage` (thread resources),
`Arena`, `WordSets` (word bitsets) and `LineDiff` (the diff of the test runner).

Conventions. Memory is a function from addresses to cells; a cell holds data or, in a free slot, a link.
Addresses and sizes are unbounded, so that rounding near the end of the address space does not wrap. The
OS is a free choice: it refuses, or returns an aligned region that overlaps nothing in use. Page map
words are numbers; their fields do not overlap, so `|` is written as `+`.

What the proofs show about the code, where it differs from what one might expect:

- `free_tail` is not a number of free pages at the end, as the comment at
  `php-7.2.2/Zend/zend_alloc.c:209` has it, but a page number above every run start. The pages from it on
  are free as long as no block has grown in place past it (`Chunks.GrowTail`, with a header for which growth
  does it in `Chunks.GrowthPassesTail`). The search and the gc walk work in either case.
- The main chunk is not exempt from deletion. A heap stays usable only while some run stays in it.
  `Heap.Gc` and the huge allocations therefore ask for a main chunk that keeps a run, `Realloc` for a block
  in the main chunk that the caller keeps, and `Free` for a block that is not the only run of the main
  chunk. `HeapSteps.FreeLargeHeader` and `HeapSteps.MainDeletedExactly` state exactly when the code takes the
  deleting branch.
- A small request that fails leaves the size counter raised by the size of its bin; so does the list cell
  of a huge request. The ghost field `lost` counts this. The size is exactly the sum of the live sizes plus
  `lost`, and `Ownership.LostBy` says by how much each request changes `lost`.
- After a collection of its own, a page allocation does not search the ring again. Its limit error can be
  raised while a run fits. It means that no run fits exactly if, before the call, no stretch of that many
  pages was free of runs that a collection leaves, in a chunk with such a run (`HeapSteps.NoGap`).
  `LimitCase.RefusedTooEarly` is a run in which a page is refused although page 1 is free.
- A counter of 512 does not fit its nine bits, so a collection never gives back a run of bin 0.
- `ts_free_thread` calls destructors with a null pointer for ids that are already done, and
  `ts_free_worker_threads` frees only those worker threads that share the hash value of its caller.
- The printer of expressions puts a pair of parentheses around a prefix operator behind another one, which
  the grammar does not need, since it treats the rows of prefix operators as not associative
  (`AstExport.SparePair`).
- When the arguments end right before a varargs marker, the specification string leaves the variables of
  the slice as they were, while the macro sets them to a null pointer and zero. When a later argument is
  rejected, the string takes the pointer back and the macro does not. In all other calls they agree.

## Model

| member | source | states |
|---|---|---|
| `Words.NtsIsTrailingOnes` | php-7.2.2/Zend/zend_alloc.c:506-542 | the shift ladder returns the position of the lowest clear bit, and 64 for a word without one |
| `Words.NtzIsTrailingZeros` | php-7.2.2/Zend/zend_bitset.h:43-77 | the shift ladder that starts from 1 returns the position of the lowest set bit of every word but zero |
| `Words.ClearLowBits` | php-7.2.2/Zend/zend_alloc.c:932-935 | `tmp &= tmp + 1` clears exactly the set bits below the lowest clear bit |
| `Words.FillLowBits` | php-7.2.2/Zend/zend_alloc.c:957-968 | or-ing a word with itself minus one sets exactly the clear bits below the lowest set bit |
| `Bitset.WithRangeIsUnion` | php-7.2.2/Zend/zend_alloc.c:603-633 | the words that a range set produces contain exactly the old bits and the interval |
| `Bitset.WithoutRangeIsDifference` | php-7.2.2/Zend/zend_alloc.c:635-665 | the words that a range reset produces contain exactly the old bits outside the interval |
| `Bitset.IsSet` | php-7.2.2/Zend/zend_alloc.c:588-591 | tells whether one bit is set |
| `Bitset.SetBit` | php-7.2.2/Zend/zend_alloc.c:593-596 | in place, the bit joins the set and nothing else changes |
| `Bitset.ResetBit` | php-7.2.2/Zend/zend_alloc.c:598-601 | in place, the bit leaves the set and nothing else changes |
| `Bitset.SetRange` | php-7.2.2/Zend/zend_alloc.c:603-633 | in place, for every range of length at least 1 and across any number of words: union with the interval |
| `Bitset.ResetRange` | php-7.2.2/Zend/zend_alloc.c:635-665 | in place, for every range of length at least 1 and across any number of words: difference with the interval |
| `Bitset.IsFreeRange` | php-7.2.2/Zend/zend_alloc.c:667-701 | true exactly when no bit of the interval is set |
| `Bitset.FreeRangeByWords` | php-7.2.2/Zend/zend_alloc.c:667-701 | an interval is free exactly when no word meets its part of the interval |
| `BestFit.Search` | php-7.2.2/Zend/zend_alloc.c:909-970 | the word-skipping loop terminates and finds the earliest of the shortest maximal free runs that are long enough; it reports none exactly when there is none; it leaves `free_tail` as the plain definition says |
| `Bins.BinTable` | php-7.2.2/Zend/zend_alloc_sizes.h:32-62 | the elements of a run fit its pages and no further one would; a run has at least two, and only bin 0 has 512 |
| `Bins.BinSizesIncrease` | php-7.2.2/Zend/zend_alloc_sizes.h:32-62 | a later bin has larger elements |
| `Bins.SizeToBitIsHighest` | php-7.2.2/Zend/zend_alloc.c:1143-1164 | the ladder returns the position of the highest set bit, plus one |
| `Bins.SizeToBinIsSmallest` | php-7.2.2/Zend/zend_alloc.c:1174-1200 | the elements of the bin of a small size are large enough, and those of all bins before it are too small |
| `PageInfo.LrunFields` | php-7.2.2/Zend/zend_alloc.c:161-186 | a large-run word reads back as large, with its page count |
| `PageInfo.SrunFields` | php-7.2.2/Zend/zend_alloc.c:161-186 | a small-run word reads back as small, with its bin and counter, except that a counter of 512 reads back as 0 |
| `PageInfo.NrunFields` | php-7.2.2/Zend/zend_alloc.c:161-186 | an inner page of a small run reads back with its bin and offset |
| `Chunks.MarkRunOk` | php-7.2.2/Zend/zend_alloc.c:1047-1053 | marking free pages as a run keeps bitset, page count, `free_tail` and page map in agreement with the runs |
| `Chunks.FreeRunOk` | php-7.2.2/Zend/zend_alloc.c:1111-1123 | freeing a run keeps them in agreement |
| `Chunks.ShrinkRunOk` | php-7.2.2/Zend/zend_alloc.c:1560-1570 | giving the tail of a large run back keeps them in agreement |
| `Chunks.GrowRunOk` | php-7.2.2/Zend/zend_alloc.c:1580-1598 | growing a large run over free pages behind it keeps them in agreement although `free_tail` is not moved |
| `Chunks.PagesFree` | php-7.2.2/Zend/zend_alloc.c:1585-1586 | the test of the pages behind a run |
| `Chunks.WriteSmallInfo` | php-7.2.2/Zend/zend_alloc.c:1223-1231 | the loop writes the page map of a small run |
| `Chunks.SmallInfoOk` | php-7.2.2/Zend/zend_alloc.c:1223-1231 | a run whose page map is written that way is a small run of its bin |
| `Chunks.InitChunkOk` | php-7.2.2/Zend/zend_alloc.c:813-828 | writing only the first bitset word and the first page map entry gives a good header when the chunk held no run before |
| `Chunks.ZeroedIsFree` | php-7.2.2/Zend/zend_alloc.c:813-828 | a chunk of zeroed memory is such a chunk |
| `Chunks.EmptyChunk` | php-7.2.2/Zend/zend_alloc.c:1120 | the free-page count is 511 exactly when the chunk has no run |
| `Chunks.TailBoundHolds` | php-7.2.2/Zend/zend_alloc.c:939 | no used page starts a run behind `free_tail`, which is what the search needs to stop there |
| `Chunks.SearchTail` | php-7.2.2/Zend/zend_alloc.c:937-956 | every `free_tail` that the search writes keeps all run starts below it |
| `Chunks.SearchKeepsTail` | php-7.2.2/Zend/zend_alloc.c:937-956 | if no page from `free_tail` on is in use, this holds of the `free_tail` that the search writes, and the pages that it finds end before it |
| `Chunks.MarkTail` | php-7.2.2/Zend/zend_alloc.c:1047-1053 | then marking a run keeps this exactly when the run starts at `free_tail` or ends before it |
| `Chunks.FreeTail` | php-7.2.2/Zend/zend_alloc.c:1111-1123 | freeing a run keeps it |
| `Chunks.ShrinkTail` | php-7.2.2/Zend/zend_alloc.c:1560-1570 | giving the tail of a run back keeps it |
| `Chunks.GrowTail` | php-7.2.2/Zend/zend_alloc.c:1580-1598 | growing a run keeps it exactly when the run still ends before `free_tail` |
| `Chunks.GrowthPassesTail` | php-7.2.2/Zend/zend_alloc.c:1580-1598 | a header for which growth loses it: the first block of a new chunk grows by a page |
| `Chunks.TooFewFree` | php-7.2.2/Zend/zend_alloc.c:859-860 | with fewer free pages than asked for, no run can fit |
| `Chunks.FindPages` | php-7.2.2/Zend/zend_alloc.c:858-970 | one chunk's turn: the best-fitting pages and a header that still agrees, or a proof that nothing fits; pages that are free from `free_tail` on stay so |
| `Chunks.Collect` | php-7.2.2/Zend/zend_alloc.c:1935-1958 | the gc walk over one chunk frees exactly the runs whose counter says that all elements are free, resets all counters, and counts the pages; pages that are free from `free_tail` on stay so |
| `Chunks.SmallRunInfo` | php-7.2.2/Zend/zend_alloc.c:1937-1953 | the page map tells small runs from large ones, and a counter equals the number of elements exactly when all are free and the bin is not 0 |
| `Chunks.FreedPositive` | php-7.2.2/Zend/zend_alloc.c:1943-1946 | the pages counted are positive exactly when some run goes |
| `Blocks.BlocksApart` | php-7.2.2/Zend/zend_alloc.c:1204-1258 | different small, large and huge blocks never overlap |
| `Blocks.BlockInRun` | php-7.2.2/Zend/zend_alloc.c:1204-1258 | a small or large block lies inside the pages of its run, which skip the header page |
| `Inventory.LiveApart` | php-7.2.2/Zend/zend_alloc.c:1328-1371 | live blocks are pairwise disjoint |
| `Inventory.LiveOffHeaders` | php-7.2.2/Zend/zend_alloc.c:1328-1371 | no live block touches the header page of a chunk |
| `Inventory.SlotLiveOrFree` | php-7.2.2/Zend/zend_alloc.c:1260-1298 | every slot of every small run is live or on its bin's free list, never both, and on the list once |
| `Inventory.PopSlot` | php-7.2.2/Zend/zend_alloc.c:1271-1274 | taking a slot from a list: the slot was not live, and the inventory stays in order |
| `Inventory.PushSlot` | php-7.2.2/Zend/zend_alloc.c:1280-1298 | returning a slot keeps the inventory in order |
| `Inventory.MakeSmall` | php-7.2.2/Zend/zend_alloc.c:1221-1257 | formatting a run: its first element is live, the others are free |
| `Inventory.LinkOffLive` | php-7.2.2/Zend/zend_alloc.c:1295-1297 | writing the link of a free slot changes no live block |
| `Collection.CountBounds` | php-7.2.2/Zend/zend_alloc.c:1875-1899 | a run has at most as many free slots as elements, and as many exactly when every element is on the list |
| `Collection.CollectionKeepsLive` | php-7.2.2/Zend/zend_alloc.c:1858-1970 | the runs and lists that a collection leaves describe the same live blocks |
| `Collection.CollectionKeepsUse` | php-7.2.2/Zend/zend_alloc.c:1858-1970 | a block is in use after a collection exactly when it was before |
| `Collection.ReclaimedFree` | php-7.2.2/Zend/zend_alloc.c:1943-1945 | every slot of a run that a collection gives back is on a free list |
| `SweepState.CollectedOnce` | php-7.2.2/Zend/zend_alloc.c:1858-1970 | a collection leaves nothing for a second one |
| `SweepState.CollectionProgress` | php-7.2.2/Zend/zend_alloc.c:982-983 | a collection that reports anything leaves fewer small runs |
| `SweepState.CollectedSame` | php-7.2.2/Zend/zend_alloc.c:1858-1970 | after a collection the same blocks are in use, the main chunk keeps a run, and no run is left to collect |
| `SweepState.ReclaimedExactly` | php-7.2.2/Zend/zend_alloc.c:1943-1945 | the runs that a collection gives back are exactly those of bins 1 to 29 whose elements are all on the free list |
| `SweepState.CollectedExactly` | php-7.2.2/Zend/zend_alloc.c:1858-1970 | after a collection a run exists exactly if it did before and was not such a run |
| `SweepState.CollectedFilled` | php-7.2.2/Zend/zend_alloc.c:1959-1962 | after a collection every chunk of the ring holds a run |
| `SweepState.CollectedNothing` | php-7.2.2/Zend/zend_alloc.c:1858-1970 | a collection that frees no page leaves the ring as it is |
| `SweepState.NothingReported` | php-7.2.2/Zend/zend_alloc.c:1943-1946 | a collection reports nothing exactly when there is nothing to collect |
| `SweepState.NothingChanged` | php-7.2.2/Zend/zend_alloc.c:1858-1970 | with nothing to collect, a collection leaves ring and runs alone |
| `SweepState.FreedTwice` | php-7.2.2/Zend/zend_alloc.c:982-983 | two collections in a row free no more than the first |
| `GcState.VisitSlot` | php-7.2.2/Zend/zend_alloc.c:1878-1893 | the address of a free slot leads to the counter of its run |
| `GcState.CountSlot` | php-7.2.2/Zend/zend_alloc.c:1893-1897 | counting one slot raises the counter of its run and of no other |
| `GcState.UnlinkFirst` | php-7.2.2/Zend/zend_alloc.c:1922-1925 | unlinking the head of a list leaves the rest linked |
| `GcState.UnlinkLater` | php-7.2.2/Zend/zend_alloc.c:1922-1928 | unlinking a later slot leaves the rest linked and changes no live block |
| `GcState.FreedInPositive` | php-7.2.2/Zend/zend_alloc.c:1943-1946 | nothing is reported exactly when no run is given back |
| `HeapState.InitialAgree` | php-7.2.2/Zend/zend_alloc.c:1804-1856 | the state that zend_mm_init leaves is in order |
| `HeapState.PushAgree` | php-7.2.2/Zend/zend_alloc.c:1280-1298 | freeing a small block keeps the heap in order and changes no other live block |
| `HeapState.PopAgree` | php-7.2.2/Zend/zend_alloc.c:1271-1274 | the fast path keeps the heap in order; a list head is null exactly when the list is empty |
| `HeapState.LargeAgree` | php-7.2.2/Zend/zend_alloc.c:1047-1053 | a new large run keeps the heap in order, at an address that was not live |
| `HeapState.FreeLargeAgree` | php-7.2.2/Zend/zend_alloc.c:1111-1136 | giving a large run back keeps the heap in order |
| `HeapState.ResizeLargeAgree` | php-7.2.2/Zend/zend_alloc.c:1560-1606 | resizing a large run in place keeps the heap in order |
| `HeapState.SmallRunAgree` | php-7.2.2/Zend/zend_alloc.c:1221-1257 | turning fresh pages into a small run keeps the heap in order and changes no other block |
| `HeapState.NewChunkAgree` | php-7.2.2/Zend/zend_alloc.c:1023-1030 | a chunk from the OS joins the end of the ring |
| `HeapState.ReuseAgree` | php-7.2.2/Zend/zend_alloc.c:975-978 | a cached chunk joins the end of the ring |
| `HeapState.CacheAgree` | php-7.2.2/Zend/zend_alloc.c:1081-1088 | a chunk without runs moves to the cache |
| `HeapState.ReleaseAgree` | php-7.2.2/Zend/zend_alloc.c:1100-1101 | a chunk without runs goes to the OS |
| `HeapState.SwapAgree` | php-7.2.2/Zend/zend_alloc.c:1102-1107 | a chunk without runs replaces the first cached chunk |
| `HeapState.LinkRun` | php-7.2.2/Zend/zend_alloc.c:1233-1248 | the loop links the elements of a new run from the second to the last |
| `HeapState.RunChain` | php-7.2.2/Zend/zend_alloc.c:1233-1248 | the linked elements are the free list of the new run, in address order |
| `HeapState.TotalRemove` | php-7.2.2/Zend/zend_alloc.c:1284-1286 | taking a live block out lowers the sum of sizes by its size, whatever the order of summation |
| `HugeState.AddHugeAgree` | php-7.2.2/Zend/zend_alloc.c:1640-1655 | a huge block and its list cell keep the heap in order |
| `HugeState.RemoveHugeAgree` | php-7.2.2/Zend/zend_alloc.c:1657-1679 | an entry leaves the list and its cell becomes an ordinary small block |
| `HugeState.ResizeHugeAgree` | php-7.2.2/Zend/zend_alloc.c:1697-1715 | changing the size of a listed block keeps the heap in order |
| `HugeState.NodeLive` | php-7.2.2/Zend/zend_alloc.c:1640-1655 | every list cell is a live small block of bin 2 |
| `HeapSteps.FreeLargeHeader` | php-7.2.2/Zend/zend_alloc.c:1111-1123 | freeing a run makes the free-page count 511 exactly when it was the chunk's only run, in the main chunk too |
| `HeapSteps.NodeBinRight` | php-7.2.2/Zend/zend_alloc.c:1640-1642 | the bin of a list cell is the one of its size |
| `HeapSteps.NotEmptyMain` | php-7.2.2/Zend/zend_alloc.c:854-972 | the search fails only when the main chunk is in use |
| `HeapSteps.NoneFitsStill` | php-7.2.2/Zend/zend_alloc.c:858-970 | which pages fit depends on the runs of the chunks only |
| `HeapSteps.NoneFitsAfter` | php-7.2.2/Zend/zend_alloc.c:858-983 | after a collection no run of the length fits anywhere exactly if no stretch of the length was free of runs that the collection leaves, in a chunk that keeps one |
| `HeapSteps.RingStays` | php-7.2.2/Zend/zend_alloc.c:1959-1962 | after a collection the ring holds exactly the chunks in which a run stays |
| `HeapSteps.MainKeptExactly` | php-7.2.2/Zend/zend_alloc.c:1933-1962 | a collection keeps the main chunk exactly if one of its runs has an element in use, is large, or is of bin 0 |
| `HeapSteps.MainDeletedExactly` | php-7.2.2/Zend/zend_alloc.c:1959-1962 | the walk leaves 511 free pages in the main chunk, which deletes it, exactly if it has no such run |
| `ChunkMapping.Trim` | php-7.2.2/Zend/zend_alloc.c:735-744 | cutting an aligned chunk out of a larger mapping: the chunk is aligned, and front, chunk and tail are exactly the mapping |
| `ChunkMapping.OffsetInPages` | php-7.2.2/Zend/zend_alloc.c:735-741 | the offset of a page-aligned address is a whole number of pages |
| `ZendHeap.Heap.constructor` | php-7.2.2/Zend/zend_alloc.c:1804-1856 | the new heap is valid, with one chunk and no block |
| `ZendHeap.Heap.AllocSmall` | php-7.2.2/Zend/zend_alloc.c:1260-1278 | a small block that was not in use, with all other blocks and their bytes untouched; exact counters; on failure the size counter stays raised, as in the code |
| `ZendHeap.Heap.TakeSmall` | php-7.2.2/Zend/zend_alloc.c:1271-1277 | pop from the list when it is not empty, otherwise a new run |
| `ZendHeap.Heap.PopSmall` | php-7.2.2/Zend/zend_alloc.c:1271-1274 | the first slot of the list becomes the block |
| `ZendHeap.Heap.AllocSmallSlow` | php-7.2.2/Zend/zend_alloc.c:1204-1258 | a new run: its first element is the block and the others are the free list, in order; it lies in the first chunk that fits, with everything else as before, unless none fits |
| `ZendHeap.Heap.FormatRun` | php-7.2.2/Zend/zend_alloc.c:1221-1257 | page map and links of a new run |
| `ZendHeap.Heap.FreeSmall` | php-7.2.2/Zend/zend_alloc.c:1280-1298 | the slot is the new head of its list; no other live byte changes |
| `ZendHeap.Heap.AllocPages` | php-7.2.2/Zend/zend_alloc.c:851-1055 | the first chunk of the ring that fits and the best-fitting pages in it; a new chunk exactly when none fits; the limit error only when the cache is empty, one more chunk would exceed the limit and nothing is left to collect; then no run fits exactly if the view before the call had no gap among the runs that a collection leaves; of the two errors, out of memory only when `overflow` is set or one more chunk is within the limit; the ring after it: a chunk found late moves behind the main chunk; a cached chunk goes before the OS; after an error nothing is left to collect |
| `ZendHeap.Heap.FindInRing` | php-7.2.2/Zend/zend_alloc.c:854-1035 | the search through the ring, which changes nothing but `free_tail` fields |
| `ZendHeap.Heap.TakeRun` | php-7.2.2/Zend/zend_alloc.c:1038-1054 | the run is marked, and the chunk moves behind the main chunk after more than two steps for fewer than 8 pages |
| `ZendHeap.Heap.AllocInNew` | php-7.2.2/Zend/zend_alloc.c:973-1030 | the run is the only one of a new chunk |
| `ZendHeap.Heap.MakeRoom` | php-7.2.2/Zend/zend_alloc.c:975-993 | the retry loop terminates, and ends with a cached chunk, with room under the limit, or at the limit with exactly the collectable runs gone and nothing left to collect; with a cached chunk or room at the start nothing changes |
| `ZendHeap.Heap.GrabChunk` | php-7.2.2/Zend/zend_alloc.c:973-1030 | a chunk joins the ring, or an error says why not; never more than one chunk, and within the limit unless `overflow` is set; the limit error only at the limit, with exactly the collectable runs gone; of the two errors, out of memory only when `overflow` is set or one more chunk is within the limit; a cached chunk is taken if there is one, without the OS; after an error nothing is left to collect |
| `ZendHeap.Heap.NewChunk` | php-7.2.2/Zend/zend_alloc.c:994-1027 | a chunk from the OS joins the ring |
| `ZendHeap.Heap.ChunkFromOs` | php-7.2.2/Zend/zend_alloc.c:994-1010 | the two attempts to get a chunk from the OS, with a collection between them; without a chunk nothing is left to collect |
| `ZendHeap.Heap.JoinCached` | php-7.2.2/Zend/zend_alloc.c:975-978 | the first cached chunk becomes the last of the ring |
| `ZendHeap.Heap.JoinNew` | php-7.2.2/Zend/zend_alloc.c:1011-1027 | the new chunk becomes the last of the ring and is counted |
| `ZendHeap.Heap.DeleteChunk` | php-7.2.2/Zend/zend_alloc.c:1076-1109 | the chunk is cached, released, or exchanged with a cached one, with exact counters |
| `ZendHeap.Heap.ReleaseChunk` | php-7.2.2/Zend/zend_alloc.c:1090-1108 | of the chunk and the first cached one, the younger goes to the OS |
| `ZendHeap.Heap.DeleteEmpty` | php-7.2.2/Zend/zend_alloc.c:1120-1122 | an emptied chunk leaves the ring, the main chunk stays first |
| `ZendHeap.Heap.AllocLarge` | php-7.2.2/Zend/zend_alloc.c:1057-1074 | a large block of whole pages that was not in use, with exact counters; it lies in the first chunk that fits, with everything else as before, unless none fits |
| `ZendHeap.Heap.FreeLarge` | php-7.2.2/Zend/zend_alloc.c:1111-1136 | the run is gone, everything else is as before, and an emptied chunk is deleted |
| `ZendHeap.Heap.Gc` | php-7.2.2/Zend/zend_alloc.c:1858-1970 | live blocks and their bytes are untouched; exactly the runs of bins 1 to 29 whose elements are all free are gone, with exactly their slots; all counters are back to zero; the result is the page size times the pages freed; real size and cache change only with the ring |
| `ZendHeap.Heap.CountBin` | php-7.2.2/Zend/zend_alloc.c:1876-1899 | the counters of a bin's runs count their free slots; the flag says whether some run is fully free |
| `ZendHeap.Heap.UnlinkBin` | php-7.2.2/Zend/zend_alloc.c:1905-1930 | the list keeps exactly the slots of runs that stay, in order |
| `ZendHeap.Heap.FilterBins` | php-7.2.2/Zend/zend_alloc.c:1875-1931 | the same for all bins |
| `ZendHeap.Heap.Sweep` | php-7.2.2/Zend/zend_alloc.c:1933-1969 | every chunk is walked over once, and those left empty leave the ring |
| `ZendHeap.Heap.SweepTurn` | php-7.2.2/Zend/zend_alloc.c:1934-1967 | one chunk's turn, with the position after a deletion |
| `ZendHeap.Heap.GcKeeping` | php-7.2.2/Zend/zend_alloc.c:1858-1970 | a second collection would find nothing; a positive result means fewer small runs; the result is zero exactly when there is nothing to collect, and then ring, cache, real size and runs stay; exactly the collectable runs are gone |
| `ZendHeap.Heap.HugeRoom` | php-7.2.2/Zend/zend_alloc.c:1730-1760 | limit check, collection and OS attempts of a huge allocation; the limit error only when the block exceeds the limit as real size stands at the end; after an error nothing is left to collect |
| `ZendHeap.Heap.RecordHuge` | php-7.2.2/Zend/zend_alloc.c:1761-1782 | list cell and counters; real size stays within the limit and one chunk; a failure loses exactly the size of a list cell, and only when there is no free cell |
| `ZendHeap.Heap.AllocHuge` | php-7.2.2/Zend/zend_alloc.c:1717-1783 | a huge block and its list cell, everything else untouched; real size within the limit and one chunk; the limit error only when the block or a chunk for its list cell exceeds the limit at the end; a cell is lost only when there is no free one, and at the limit error exactly when the block itself would have fitted |
| `ZendHeap.Heap.AddHugeBlock` | php-7.2.2/Zend/zend_alloc.c:1640-1655 | the block is the new head of the list and is counted |
| `ZendHeap.Heap.FindHuge` | php-7.2.2/Zend/zend_alloc.c:1681-1692 | the walk over the list finds the entry of every live huge block |
| `ZendHeap.Heap.UnlinkHuge` | php-7.2.2/Zend/zend_alloc.c:1657-1679 | the entry leaves the list, and its sizes leave the counters |
| `ZendHeap.Heap.FreeHuge` | php-7.2.2/Zend/zend_alloc.c:1785-1798 | block and list cell are gone, nothing else is |
| `ZendHeap.Heap.OsPlace` | php-7.2.2/Zend/zend_alloc.c:753-763 | a region from the OS overlaps no chunk and no huge block |
| `ZendHeap.Heap.OsAlloc` | php-7.2.2/Zend/zend_alloc.c:753-763 | the OS returns nothing, or an aligned region that overlaps nothing in use |
| `ZendHeap.Heap.SetLimit` | php-7.2.2/Zend/zend_alloc.c:2563-2569 | the limit is at least one chunk |
| `ZendHeap.Heap.Alloc` | php-7.2.2/Zend/zend_alloc.c:1328-1371 | for every size: the caller owns one more block, of the rounded size, at an address that was not in use; on failure nothing is owned that was not; all bytes in use are unchanged; the limit error only at the limit; the size counter loses nothing on success, and on failure exactly the bin size of a small request, nothing for a large one, and nothing or a list cell for a huge one, at the limit error a cell exactly when the block itself would have fitted; exact peaks; after an error nothing is left to collect |
| `ZendHeap.Heap.Free` | php-7.2.2/Zend/zend_alloc.c:1373-1396 | decoding the address leads to the right kind of block; the caller owns one block less and all other bytes are unchanged; for every owned block but one that is the only run of the main chunk |
| `ZendHeap.Heap.FreeInChunk` | php-7.2.2/Zend/zend_alloc.c:1381-1395 | the same for an address inside a chunk |
| `ZendHeap.Heap.Size` | php-7.2.2/Zend/zend_alloc.c:1398-1424 | the size of every owned block |
| `ZendHeap.Heap.ResizeRun` | php-7.2.2/Zend/zend_alloc.c:1545-1606 | a large block shrinks in place always, and grows in place exactly when the pages behind it are free |
| `ZendHeap.Heap.ResizeEntry` | php-7.2.2/Zend/zend_alloc.c:1695-1715 | size and counters of a huge block that is truncated or extended |
| `ZendHeap.Heap.RoomToGrow` | php-7.2.2/Zend/zend_alloc.c:1484-1497 | the limit check before a huge block grows; the error only when the growth exceeds the limit at the end |
| `ZendHeap.Heap.ReallocHuge` | php-7.2.2/Zend/zend_alloc.c:1442-1516 | truncation and extension of a huge block keep its address and its bytes; an unchanged rounded size always does |
| `ZendHeap.Heap.ReallocInChunk` | php-7.2.2/Zend/zend_alloc.c:1517-1612 | a block stays in its place exactly if it is small and its bin is the first that is large enough, or large, with a large request that is not longer or whose further pages are free |
| `ZendHeap.Heap.ReallocInPlace` | php-7.2.2/Zend/zend_alloc.c:1437-1614 | all attempts to keep the block in its place: for small and large blocks exactly as above, and for every block whose rounded size does not change |
| `ZendHeap.Heap.ReallocCopy` | php-7.2.2/Zend/zend_alloc.c:1616-1630 | allocate, copy, free: bytes carried over, other blocks untouched, peaks rewritten and still at least the current values; what the size counter loses is exact |
| `ZendHeap.Heap.CopyAndFree` | php-7.2.2/Zend/zend_alloc.c:1623-1625 | the copy and the release: the block has moved, with its first bytes |
| `ZendHeap.Heap.Realloc` | php-7.2.2/Zend/zend_alloc.c:1426-1631 | for every owned pointer and size: a block of the rounded size whose first min(old size, copy size) bytes are the old ones, on every path; all other blocks keep their bytes; the limit error only at the limit; what the size counter loses is exact; the block stays at its address, and the call succeeds, whenever the rounded size does not change or there is room in its place, and else a small or large block gets another address; exact peaks |
| `ZendHeap.Heap.ReallocOwned` | php-7.2.2/Zend/zend_alloc.c:1437-1631 | the same for a pointer that is not null |
| `Ownership.SameSizeInPlace` | php-7.2.2/Zend/zend_alloc.c:1533-1559 | a request that rounds to the size of its block finds room in its place, or is huge |
| `Ownership.RoundedSizeEnough` | php-7.2.2/Zend/zend_alloc.c:1328-1371 | a block is never smaller than the request |
| `Ownership.DecodeBlock` | php-7.2.2/Zend/zend_alloc.c:1373-1396 | the address of a live block alone tells its kind, bin and page count |
| `Ownership.PinnedKept` | php-7.2.2/Zend/zend_alloc.c:1959-1962 | while a caller owns a block in the main chunk, no collection deletes that chunk |
| `Ownership.PinnedNotLast` | php-7.2.2/Zend/zend_alloc.c:1120-1122 | nor does freeing another block: that block is not the only run of the main chunk |
| `Ownership.WriteInside` | php-7.2.2/Zend/zend_alloc.c:1623 | writing into a live block changes no free list and no other block |
| `Ownership.CopyFits` | php-7.2.2/Zend/zend_alloc.c:1623 | the copy stays inside the new block exactly when the copied size is not above the size of the block |
| `Ownership.MovedByCopy` | php-7.2.2/Zend/zend_alloc.c:1616-1630 | allocation, copy and release together move a block |
| `Client.Program.Run` | php-7.2.2/Zend/zend_alloc.c:1328-1631 | in every state that any sequence of allocations, releases, reallocations, collections and writes reaches, all structures agree, real size is within the limit and one chunk, every block holds what was written to it, and the size counter is exactly the sum of the live sizes as long as no request has failed |
| `Client.Program.UsageExact` | php-7.2.2/Zend/zend_alloc.c:1328-1631 | the size counter is the sum of the live sizes plus what failed requests have lost |
| `Client.Program.constructor` | php-7.2.2/Zend/zend_alloc.c:1804-1856 | a program with a limit and a first block starts in such a state |
| `Client.Program.DoMalloc` | php-7.2.2/Zend/zend_alloc.c:1328-1371 | the program owns one more block and all contents are kept; a failure is counted |
| `Client.Program.DoRelease` | php-7.2.2/Zend/zend_alloc.c:1373-1396 | the program owns one block less and all other contents are kept |
| `Client.Program.DoResize` | php-7.2.2/Zend/zend_alloc.c:1426-1631 | the contents below the copied size move along, all others are kept |
| `Client.Program.DoCollect` | php-7.2.2/Zend/zend_alloc.c:1858-1970 | blocks and contents are kept |
| `Client.Program.DoRead` | php-7.2.2/Zend/zend_alloc.c:1328-1631 | what was written last is read back |
| `Client.OwnedApart` | php-7.2.2/Zend/zend_alloc.c:1328-1371 | blocks of the program never overlap |
| `LimitCase.RefusedTooEarly` | php-7.2.2/Zend/zend_alloc.c:982-993 | a run from zend_mm_init on in which a page is refused at the limit although a page is free: a small block, a block of 510 pages, the small one released, one more page |
| `LimitCase.FailsTooEarly` | php-7.2.2/Zend/zend_alloc.c:982-993 | the failing call, for every heap whose one chunk is full but for a run that can be collected |
| `AstExport.RoundTrip` | php-7.2.2/Zend/zend_ast.c:1356-1384 | parsing the export of any expression of the fragment with the documented precedence and associativity gives the expression back |
| `AstExport.ParensByTable` | php-7.2.2/Zend/zend_ast.c:1356-1384 | the printer puts parentheses around an operand exactly where the table of levels and associativity asks for them, prefix operators counted as not associative |
| `AstExport.SparePair` | php-7.2.2/Zend/zend_ast.c:1671-1676 | the pair around a prefix operator behind another one is not needed: without it the text is read alike |
| `AstExport.ExportInjective` | php-7.2.2/Zend/zend_ast.c:1356-1384 | different expressions never print alike |
| `AstExport.ExportParse` | php-7.2.2/Zend/zend_ast.c:1663-1676 | the same at every priority and with any tokens behind that cannot be part of the expression |
| `AstExport.TriplesMatchTable` | php-7.2.2/Zend/zend_ast.c:559-592 | the (p, pl, pr) triples of all binary operators agree with the level and associativity of the table |
| `AstExport.PairsMatchTable` | php-7.2.2/Zend/zend_ast.c:559-592 | the pairs of the prefix operators agree with the table as far as the fragment can tell; `!` is printed at 240 where the table says 220 |
| `AstExport.BinParse` | php-7.2.2/Zend/zend_ast.c:1663-1669 | binary operators, left-, right- and non-associative |
| `AstExport.PreParse` | php-7.2.2/Zend/zend_ast.c:1671-1676 | prefix operators |
| `AstExport.CondParse` | php-7.2.2/Zend/zend_ast.c:1576-1588 | the left-associative conditional expression |
| `AstExport.ElvisParse` | php-7.2.2/Zend/zend_ast.c:1576-1588 | its short form |
| `StringExport.ExportSingle` | php-7.2.2/Zend/zend_ast.c:596-609 | the loop produces the single-quoted escape of every byte string |
| `StringExport.ExportQuoted` | php-7.2.2/Zend/zend_ast.c:611-654 | the loop produces the double-quoted or backtick escape of every byte string |
| `StringExport.AppendQuoted` | php-7.2.2/Zend/zend_ast.c:616-652 | what one byte becomes |
| `StringExport.SingleRoundTrip` | php-7.2.2/Zend/zend_language_scanner.l:1968-2034 | scanning the single-quoted export gives back the string and exactly the text behind the literal |
| `StringExport.QuotedRoundTrip` | php-7.2.2/Zend/zend_language_scanner.l:873-1087 | scanning the double-quoted or backtick export, octal escapes included, gives back the string and exactly the text behind the literal, with nothing interpolated |
| `StringExport.QuotedCloses` | php-7.2.2/Zend/zend_ast.c:611-654 | no unescaped quote or dollar sign appears inside the exported text |
| `StringExport.SingleCloses` | php-7.2.2/Zend/zend_ast.c:596-609 | no unescaped quote appears inside the exported text |
| `StringExport.SingleLength` | php-7.2.2/Zend/zend_ast.c:596-609 | the export is longer than the string by its quotes and backslashes, and by nothing else |
| `StringExport.QuotedLength` | php-7.2.2/Zend/zend_ast.c:611-654 | the export is longer by one byte for every short escape and by three for every other control character, and has no control character of its own |
| `AstList.PowerOfTwo` | php-7.2.2/Zend/zend_ast.c:177-179 | the bit test holds exactly for the powers of two |
| `AstList.WordTest` | php-7.2.2/Zend/zend_ast.c:177-179 | the test on 32-bit words holds exactly when the number of the word passes the test on numbers |
| `AstList.LowestBitValue` | php-7.2.2/Zend/zend_ast.c:177-179 | `n & (~n + 1)` on words computes the lowest bit of the number |
| `AstList.RoomOfPower` | php-7.2.2/Zend/zend_ast.c:183-186 | at a power of two from 4 on, the room is used up and doubling gives the next |
| `AstList.RoomStays` | php-7.2.2/Zend/zend_ast.c:183-187 | between two powers of two there is room for one more |
| `AstList.List.constructor` | php-7.2.2/Zend/zend_ast.c:146-155 | a new list is empty |
| `AstList.List.Grow` | php-7.2.2/Zend/zend_ast.c:184-185 | the larger block holds the same children |
| `AstList.List.Append` | php-7.2.2/Zend/zend_ast.c:181-189 | the child is appended; the write is inside the block although no capacity is stored |
| `AstList.List.Rtrim` | php-7.2.2/Zend/zend_ast.h:270-276 | at most one trailing null goes |
| `AstList.TrimmedExactly` | php-7.2.2/Zend/zend_ast.h:270-276 | a trailing null goes, and no other child does |
| `AstList.Perform` | php-7.2.2/Zend/zend_ast.c:181-189 | any sequence of additions and trims acts as on a plain sequence |
| `Modules.SortModules` | php-7.2.2/Zend/zend_API.c:1892-1923 | for every dependency relation without a cycle the sort terminates, permutes the array, and leaves no dependency of an unstarted module behind it; an order that suits already is left alone |
| `Modules.OnlyAcyclicSorts` | php-7.2.2/Zend/zend_API.c:1892-1923 | the condition is exact: if any order suits the dependencies there is no cycle |
| `Modules.FindLate` | php-7.2.2/Zend/zend_API.c:1902-1918 | finds a dependency that stands behind, exactly when there is one |
| `Modules.FindBehind` | php-7.2.2/Zend/zend_API.c:1907-1917 | finds a name behind a position |
| `Modules.SwapKeeps` | php-7.2.2/Zend/zend_API.c:1911-1914 | the swap keeps what is already in order |
| `Modules.StartModule` | php-7.2.2/Zend/zend_API.c:1826-1880 | started exactly when all required modules are registered and started; otherwise the flag is taken back |
| `Modules.ApplyStartup` | php-7.2.2/Zend/zend_API.c:1884-1889 | the pass over the sorted registry keeps exactly the modules that can be loaded, in order |
| `Modules.CheckIsLoads` | php-7.2.2/Zend/zend_API.c:1836-1860 | at its turn a module passes the check exactly when it can be loaded |
| `Modules.StartupModules` | php-7.2.2/Zend/zend_API.c:1996-2001 | exactly the modules are started that lack no required module, directly or through others; they are started in an order that suits the dependencies |
| `Modules.LoadedExactly` | php-7.2.2/Zend/zend_API.c:1996-2001 | a module can be loaded exactly when no path of required dependencies leads to an unregistered name |
| `Modules.CountHandlers` | php-7.2.2/Zend/zend_API.c:1937-1947 | counts the handlers of a phase |
| `Modules.CollectHandlers` | php-7.2.2/Zend/zend_API.c:1927-1970 | one block with three closed lists: startup handlers in registry order, the other two in reverse |
| `Modules.HandlersExactly` | php-7.2.2/Zend/zend_API.c:1937-1947 | a list holds exactly the modules with a handler for its phase |
| `Modules.HandlersInOrder` | php-7.2.2/Zend/zend_API.c:1960-1970 | the handlers of a registry are those of its parts, in order |
| `Modules.ReversedAt` | php-7.2.2/Zend/zend_API.c:1964-1968 | the reverse order, position by position |
| `ParseArgs.Measure` | php-7.2.2/Zend/zend_API.c:846-901 | minimum, maximum and number of types after the marker, for every specification; an error exactly for a second marker or a bad specifier |
| `ParseArgs.CountExactly` | php-7.2.2/Zend/zend_API.c:863-904 | with a bar, a call is rejected for its number of arguments exactly if it has fewer than there are types and `+` before the last bar, or, without a marker, more than there are in all |
| `ParseArgs.CountWithoutBar` | php-7.2.2/Zend/zend_API.c:893-904 | without a bar, exactly if it has fewer than there are types and `+`, or, without a marker, more |
| `ParseArgs.OptionalLeftOut` | php-7.2.2/Zend/zend_API.c:863-904 | one argument is enough for a type, a bar and a type |
| `ParseArgs.BindingAtMarker` | php-7.2.2/Zend/zend_API.c:927-964 | which type or slice each argument is bound to, by the number of types before the marker and in all |
| `ParseArgs.BindingWithoutMarker` | php-7.2.2/Zend/zend_API.c:927-964 | without a marker, argument k is bound to type k |
| `ParseArgs.ParseVaArgs` | php-7.2.2/Zend/zend_API.c:833-967 | every argument is bound once and in order, or the first rejected one is reported; no argument and no specifier is read that is not there; the loop terminates; the slice is written exactly when an argument stands behind the types before the marker, and taken back when a later argument is rejected; too few passed arguments are reported only after specification and count are right |
| `ParseArgs.ParseFast` | php-7.2.2/Zend/zend_API.h:729-803 | the macros bind the same arguments to the same types; the slice is written exactly when the types before the marker have their arguments |
| `ParseArgs.OutcomesCompared` | php-7.2.2/Zend/zend_API.h:1091-1103 | both ways reject the same calls at the same argument and bind the same arguments; the slice variables differ exactly when the arguments end right before the marker, or when an argument behind a slice is rejected |
| `ParseArgs.UnreachedMarker` | php-7.2.2/Zend/zend_API.c:932-953 | one argument for "l*": the string leaves the slice variables alone, the macros set them to nothing |
| `ParseArgs.BindingInOrder` | php-7.2.2/Zend/zend_API.c:927-964 | types are bound in order, each at most once, and the slice is one stretch of arguments |
| `ParseArgs.BindingCovers` | php-7.2.2/Zend/zend_API.c:927-964 | the bound types are the first ones, without a gap |
| `Tsrm.RunsKeep` | php-7.2.2/TSRM/TSRM.c:240-576 | in every state that any interleaving of any number of threads reaches, the table is in order, every resource is in one slot or has been freed once, it has been destructed exactly when it has been freed and its id has a destructor, and at every program point locks and unlocks match |
| `Tsrm.StepKeeps` | php-7.2.2/TSRM/TSRM.c:240-576 | every step keeps the invariant |
| `Tsrm.InitialHolds` | php-7.2.2/TSRM/TSRM.c:132-175 | the invariant holds after startup |
| `Tsrm.AllocateIdOk` | php-7.2.2/TSRM/TSRM.c:240-292 | a new id gives every thread a new slot with a new resource |
| `Tsrm.LinkEntryOk` | php-7.2.2/TSRM/TSRM.c:295-332 | a new entry behind the last one has a slot for every id, null exactly for those that are done; no entry is lost |
| `Tsrm.SearchKeeps` | php-7.2.2/TSRM/TSRM.c:366-387 | the search ends at the entry of the thread, or behind the last entry when there is none |
| `Tsrm.FreeThreadOk` | php-7.2.2/TSRM/TSRM.c:458-496 | the resources of the thread are freed once, and destructed once if their id has a destructor |
| `Tsrm.FreeThreadEntries` | php-7.2.2/TSRM/TSRM.c:458-496 | the entry of the thread is gone, and no other |
| `Tsrm.FreeWorkersOk` | php-7.2.2/TSRM/TSRM.c:500-542 | the same for the entries that ts_free_worker_threads removes |
| `Tsrm.FreeWorkersEntries` | php-7.2.2/TSRM/TSRM.c:500-542 | an entry stays exactly if it is the current thread's or has another hash value: not all worker threads are freed |
| `Tsrm.NullCallsExactly` | php-7.2.2/TSRM/TSRM.c:458-496 | ts_free_thread calls a destructor without a resource exactly when the thread has an entry and an id with a destructor is already done |
| `Tsrm.NullCallHappens` | php-7.2.2/TSRM/TSRM.c:458-496 | it happens in every table: allocate an id with a destructor, ask for the resources, free the id, end the thread |
| `Tsrm.FreeIdOk` | php-7.2.2/TSRM/TSRM.c:546-576 | all resources of the id are freed once and their slots are null |
| `Tsrm.ShutdownFreesAll` | php-7.2.2/TSRM/TSRM.c:179-211 | after shutdown every resource that was ever allocated has been freed exactly once, and destructed exactly once if its id has a destructor and never otherwise |
| `Tsrm.OneEntry` | php-7.2.2/TSRM/TSRM.c:364-388 | a thread has at most one entry, in the bucket of its hash value |
| `Tsrm.RestartOnce` | php-7.2.2/TSRM/TSRM.c:336-395 | a call for the thread's own resources calls itself at most once, unless ts_free_worker_threads has removed entries |
| `Tsrm.HolderAdvances` | php-7.2.2/TSRM/TSRM.c:240-576 | every step of the thread that holds the mutex brings it nearer to the unlock, on every path, and no step of another thread changes the table meanwhile |
| `Tsrm.HolderProceeds` | php-7.2.2/TSRM/TSRM.c:240-576 | the thread that holds the mutex is never stuck |
| `ThreadStorage.ResourcesStay` | php-7.2.2/TSRM/TSRM.c:240-576 | as long as a thread has its entry it keeps its resources, in every run of any number of threads: a slot holds the same resource later, or its id has been freed and the slot is null |
| `ThreadStorage.StepStorage` | php-7.2.2/TSRM/TSRM.c:240-576 | a step changes the storage of any thread only by a slot for a new id, by the resource that ts_free_id takes, or by freeing the entry |
| `ThreadStorage.ExclusiveResources` | php-7.2.2/TSRM/TSRM.c:240-576 | no resource is in the storage of two threads |
| `ThreadStorage.LinkEntryKeeps` | php-7.2.2/TSRM/TSRM.c:295-332 | a new entry leaves the storage of all other threads alone, and all its resources are new |
| `ThreadStorage.FreeThreadKeeps` | php-7.2.2/TSRM/TSRM.c:458-496 | the other threads keep exactly their storage |
| `ThreadStorage.FreeWorkersKeeps` | php-7.2.2/TSRM/TSRM.c:500-542 | the entries that stay keep exactly their storage |
| `ThreadStorage.AllocateIdKeeps` | php-7.2.2/TSRM/TSRM.c:268-287 | a new id appends one new resource to every storage |
| `ThreadStorage.FreeIdKeeps` | php-7.2.2/TSRM/TSRM.c:555-570 | a freed id sets its slot to null in every storage, and no other |
| `Arena.Chain.constructor` | php-7.2.2/Zend/zend_arena.h:34-42 | a new arena is empty |
| `Arena.Chain.Alloc` | php-7.2.2/Zend/zend_arena.h:55-79 | the block is 8-aligned, inside its arena and disjoint from all others; it stands at the pointer of the current arena exactly if it fits there, and else in a new arena that is as large as the old one or just large enough |
| `Arena.Chain.Checkpoint` | php-7.2.2/Zend/zend_arena.h:96-99 | remembers the current end |
| `Arena.Chain.Release` | php-7.2.2/Zend/zend_arena.h:101-113 | restores the chain and the blocks of the checkpoint and frees exactly the newer arenas |
| `Arena.StopsAtCheckpoint` | php-7.2.2/Zend/zend_arena.h:105-110 | the address test passes exactly the newer arenas, also when arenas are adjacent in memory |
| `Arena.Scope` | php-7.2.2/Zend/zend_arena.h:55-113 | checkpoint, any allocations and release leave the arena as it was |
| `WordSets.CombinedMembers` | php-7.2.2/Zend/zend_bitset.h:133-158 | union, intersection and difference of words are those of the sets |
| `WordSets.Combine` | php-7.2.2/Zend/zend_bitset.h:133-158 | the in-place loops |
| `WordSets.Empty` | php-7.2.2/Zend/zend_bitset.h:107-116 | true exactly for the empty set |
| `WordSets.Subset` | php-7.2.2/Zend/zend_bitset.h:178-188 | true exactly for subsets |
| `WordSets.First` | php-7.2.2/Zend/zend_bitset.h:190-200 | the least member, or -1 for the empty set |
| `WordSets.Last` | php-7.2.2/Zend/zend_bitset.h:202-219 | the greatest member, or -1 for the empty set |
| `WordSets.PopFirst` | php-7.2.2/Zend/zend_bitset.h:248-254 | the least member leaves the set and nothing else changes |
| `LineDiff.GenerateDiff` | php-7.2.2/run-tests.php:2328-2391 | terminates; every line is reported at most once and in order; the lines that are not reported are equal in number and match pairwise; the diff is empty exactly for equal texts; one inserted or deleted line is the whole diff, and a changed line like no other is reported as unwanted and as missing, and nothing else |
| `LineDiff.Walk` | php-7.2.2/run-tests.php:2336-2355 | the same for the lines passed by the main loop, by what the two estimates say at a difference |
| `LineDiff.Merge` | php-7.2.2/run-tests.php:2357-2380 | the merge is an order-preserving interleaving of the two lists; an item stands before one of the other kind with a smaller line only if it goes on where its own kind ended |
| `LineDiff.CountDiff` | php-7.2.2/run-tests.php:2286-2326 | the estimate terminates, never promises more matching lines, in order, than there are, never less than the equal lines right in front, and never less than these and the equal lines behind one skipped line if its steps last |

## Left out

- ZendHeap.Heap.AllocHuge: the place of the region is chosen when the list cell exists, where the code asks the OS first; the region of a huge allocation whose list cell cannot be allocated is not tracked.
- ZendHeap.Heap.DeleteChunk: the main chunk, whose deletion would end the heap.
- ZendHeap.Heap.ReleaseChunk: the main chunk, as above.
- ZendHeap.Heap.DeleteEmpty: a main chunk without a run, as above.
- ZendHeap.Heap.FreeLarge: the only run of the main chunk, as above.
- ZendHeap.Heap.FreeInChunk: the only run of the main chunk, as above.
- ZendHeap.Heap.Sweep: a main chunk that would lose its last run, as above.
- ZendHeap.Heap.Gc: a main chunk that would lose its last run, as above.
- ZendHeap.Heap.AllocHuge: an out-of-memory error does not tell whether the OS refused the block or the chunk for its list cell; a cell is lost in the second case.
- ZendHeap.Heap.Free: a large block that is the only run of the main chunk; the code would delete the chunk that holds the heap.
- ZendHeap.Heap.Realloc: calls where both the old size and the copy size are above the rounded new size; a copy would then write behind the new block (`Ownership.CopyFits`).
- Client.Program.Run: the limit does not change during a run; a lower limit set later can be below the current real size.
- Modules.CollectHandlers: fills its three lists one after the other, where the code fills them in one pass; the list of classes with static members is not modelled.
- Modules.StartModule: a startup hook that fails ends the process in the code; here every hook succeeds.
- ParseArgs.ParseVaArgs: whether a type accepts an argument is a parameter; modifiers belong to their type; a `|` directly behind another one or behind the marker is not modelled, nor are the debug assertions of the macros.
- StringExport.QuotedRoundTrip: the scanner's `\u{...}` escapes are not modelled; the printers never produce one.
- Tsrm.RunsKeep: what ts_allocate_id, ts_free_thread, ts_free_worker_threads, ts_free_id and allocate_new_resource do to the table is one step each, so aliasing of entries inside a step is not modelled; allocation failures, the reads outside the mutex and interpreter contexts are not modelled.
- AstList.List.Append: a list with 2^31 children, where the 32-bit doubling wraps, is not modelled.
- LineDiff.GenerateDiff: a line is its number; the formatting of the reported text is not modelled.
- Chunk headers, ring, cache and huge list are values in fields of the heap: the pointers between them, and the ring after the deletion of the main chunk, are not modelled.
- mmap, munmap, madvise, VirtualAlloc, custom heaps and custom storage handlers: calls into foreign code.
- Debug builds of the memory manager: debug records and leak reports.
- zend_mm_shutdown and zend_mm_startup_ex: the soft reset sets the real size to one chunk although cached chunks stay, so the accounting holds for runs without it.
- Wrap-around of sizes near the end of the address space: addresses are unbounded here.
- Export of statements, classes, arrays, calls, instanceof, properties and negative literals: they print a child at priority 0 or depend on hash tables.
- zend_ast_evaluate, the rest of zend_API.c, zend_closures.c, zend.c and the rest of run-tests.php: calls into the executor, hash tables, the OS and processes.
