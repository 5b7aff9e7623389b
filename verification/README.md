# Allocators, a block cache and an image codec, verified

This project models four pieces of the repository as imperative Dafny and proves what they keep over
every run. `dafny verify dfyconfig.toml` checks all of it.

**The glibc allocator core** (`memory-allocator/docs/malloc-impl.c`), one thread, one contiguous arena, no
per-thread cache. Memory is the set of words that chunks and bin headers keep: packed size words, foot words,
`fd`/`bk` links, size links. A ghost shape (chunks by address, bins and size rings as sequences) says what the
words mean, and every operation is proved to keep the two in step. `malloc_sizes` has the size arithmetic,
`malloc_binmap` the 32-bit bitmap words, `malloc_rings` doubly linked rings, `malloc_arena` the boundary-tag
chunk space, `malloc_bins` the free store, `malloc_words` the words of memory and which of them are the
program's, `malloc_lists` what each step does to the lists, `malloc_choice` which chunk a request gets,
`malloc_queues` that small bins are queues, `malloc_state` the operations, `malloc_checks` the allocator's own
debugging checks, `malloc_runs` whole runs. A bin header is addressed by its bin number, below any chunk
address; reading `fd_nextsize` of a header reads the `fd` word of the next header, as the overlapping structures
of the source do. One address of memory is an entry in each table of words; a store by the program changes it in
all of them. A write by the allocator is modelled as changing only the table of its role: no two words that it
relies on share an address (`MemoryWords.RolesApart`), so none of them could change with it. Addresses are taken
to lie below 2^47, where the kernel hands them out. Each test that aborts on a corrupted arena is an `assert`
that is proved, so none is reached, except those that are not part of this model: the test for a chunk at the
very end of the address space (line 4391, first half), those for another thread's interference (3785, 4501),
those of the per-thread cache, and those on the flag of the arena (4057, 4070).

**The project's own allocator** (`memory-allocator/src/mem.c`): a singly linked list of blocks over mapped
regions. `mem_chain` has the list as a sequence with first-fit search, `mem_spans` the memory that ranges cover,
`mem_blocks` and `mem_growth` the headers in memory and what splitting, merging, marking and growing keep,
`mem_outcomes` what allocating and releasing come to, told of addresses alone, `mem_heap` the operations,
`mem_runs` whole runs with the bytes that the program stores. What the kernel answers to a mapping request is a
parameter; an answer that is unaligned, out of range or already mapped counts as a failure. Storing a header may
also write its padding: 24 bytes instead of 17.

**The write-back block cache** (`io-cache/source/monolith/app/cache/Cache.cpp`): at most four blocks, any of
which may be evicted. `cache_model` defines what a program sees of a file, the disk overlaid by the
cached blocks, and what each step does to it; `cache_counts` has the arithmetic of transfers, with the unsigned
subtraction that wraps; `cache_blocks` the operations on block objects and their buffers; `cache_runs` refines
plain files over whole runs. Assumed, as the code needs it: one descriptor per file, reads and writes of
the device that are not cut short. A run in which the write-back of a victim fails ends there. The file
position is a parameter, since reading and writing never move it.

**The BMP codec and rotation** (`image-rotation/solution/src`): `bmp_header` is the packed little-endian header,
`bmp_codec` writing and reading, `bmp_images` and `bmp_rotation` the quarter turn and its group of four,
`bmp_angles` the way from the command-line angle to a number of turns, `bmp_transform` the whole program. A run
that goes on outside a buffer ends in an outcome of its own, `OutOfBounds`, which no status of the program stands for.

Where the code differs from what it seems to promise, the code is modelled and the exact condition proved:

- an aligned request whose padded size does not fit size_t is served with a chunk that is far too small, and the
  next store lies outside the arena: exactly for an alignment above 2^62 that is not refused and the 55 largest
  sizes (`MallocSizes.PadWrapsExactly`, `MallocSizes.LargestRequestWraps`, `MallocState.State.IntMemalign`);
- in the large bin of a request's own size a tie goes to the chunk that was filed last, if there is more than one,
  not to the oldest, as the comments at lines 54 and 1495 to 1508 say (`ChunkChoice.TieGoesToNewest`); in small
  bins it does go to the oldest (`MallocRuns.ServedWaitedLongest`);
- a request so large that page rounding wraps maps a minimal region and still returns NULL
  (`HeapGrowth.GrowthSuffices`, and one such request in `HeapGrowth.WrappedRequest`);
- `heap_init` gives a usable heap only at the fixed address (`ListHeap.Heap.HeapInit`);
- a cached read behind the end of the file, but in its last block, returns bytes that the file does not have
  (`CacheCounts.ReadIsFlat`, `CacheCounts.ReadBehindEnd`);
- a cached block may be dropped without a write-back exactly when the disk has its bytes (`CacheModel.DropShows`;
  one that loses contents is in `CacheModel.DirtyDropLoses`);
- an eviction erases a dirty block that it failed to write back, and does not count it out; its bytes are lost
  exactly when the disk does not have them (`BlockCache.Cache.EvictIfNeeded`, `CacheModel.ErasedShows`);
- rows that are aligned already get four bytes of padding, not none (`BmpCodec.PaddingAligns`);
- an image is written outside the buffer exactly when its data has 2^32 bytes or more (`BmpCodec.SizeFieldCovers`,
  `BmpCodec.ToBmp`), and a file is read outside it exactly when it is accepted with a size field that is too
  small (`BmpCodec.FromBmp`, `BmpCodec.ReachesExactly`); one such image and one such file are in
  `BmpCodec.TallImage` and `BmpCodec.ShortSizeField`;
- an angle is refused exactly when the remainder of its number plus 360, by 360, is at most -90 and above -180:
  "-450" is, no listed angle is, and "right" or "45" are taken for no turn (`Angles.RefusedExactly`,
  `Angles.RefusedMultiples`, `Angles.UnlistedAngles`). The README of image-rotation says that only the seven
  angles are taken, but the test for them is true of every string (`Angles.TestIsAlwaysTrue`). For which
  numbers the count is right is `Angles.CountIsRight`.

Rows whose last column begins with **Main** are the results that the others lead up to.

## Model

| member | source | states |
|---|---|---|
| `MallocSizes.RequestPaddingIsLeast` | memory-allocator/docs/malloc-impl.c:1328-1331 | the padded size is the least legal chunk size with room for the request and a size word |
| `MallocSizes.BinIndexMonotone` | memory-allocator/docs/malloc-impl.c:1561-1601 | larger chunks never go to lower bins, across all seams |
| `MallocSizes.LargebinIndexMonotone` | memory-allocator/docs/malloc-impl.c:1587-1593 | the large-bin index is monotone |
| `MallocSizes.BinIndexRange` | memory-allocator/docs/malloc-impl.c:1600-1601 | every chunk size has a bin from 2 to 126 |
| `MallocSizes.LargebinHolds` | memory-allocator/docs/malloc-impl.c:1534-1593 | the sizes that a large bin holds: 64, 512, 4096, 32768 or 262144 bytes from its start on, with the exact seams |
| `MallocSizes.ExactBins` | memory-allocator/docs/malloc-impl.c:1726-1727 | each fastbin, and each small bin, holds one size |
| `MallocSizes.AlignUpIsNext` | memory-allocator/docs/malloc-impl.c:4936-4937 | masking gives the next multiple of the alignment, still chunk-aligned |
| `MallocSizes.AlignedSpotFits` | memory-allocator/docs/malloc-impl.c:4927-4942 | the spot where memalign cuts is aligned and leaves a leader of at least a minimal chunk and at most the reserve |
| `MallocSizes.AlignedSpotIsFirst` | memory-allocator/docs/malloc-impl.c:4929-4942 | it is the first aligned spot that leaves such a leader |
| `MallocSizes.PowersInWord` | memory-allocator/docs/malloc-impl.c:3483-3500 | a power of two that a size_t holds is at most 2^63, and at most half of that if it is less |
| `MallocSizes.PadWrapsExactly` | memory-allocator/docs/malloc-impl.c:4914-4914 | the padded size of an aligned request leaves size_t exactly for alignment 2^63 and the 55 largest sizes admitted, and wraps to at most 48 |
| `MallocSizes.LargestRequestWraps` | memory-allocator/docs/malloc-impl.c:4914-4914 | for the largest of these requests the sum is 2^64 + 48 |
| `MallocSizes.WrappedSpot` | memory-allocator/docs/malloc-impl.c:4936-4942 | the alignment point of such a request is 2^63 - 16, behind every chunk |
| `BinmapWord.SetBitOnly` | memory-allocator/docs/malloc-impl.c:1701-1701 | marking a bin sets its bit and no other |
| `BinmapWord.ClearBitOnly` | memory-allocator/docs/malloc-impl.c:1702-1702 | unmarking a bin clears its bit and no other |
| `BinmapWord.BitsFrom` | memory-allocator/docs/malloc-impl.c:4217-4218 | a mask that exceeds the word has no set bit of the word at or above it |
| `BinmapWord.ShiftWalksBits` | memory-allocator/docs/malloc-impl.c:4231-4236 | shifting the mask walks the bits in order and becomes zero behind the last |
| `LinkedRings.RingWithout` | memory-allocator/docs/malloc-impl.c:1616-1617 | two link writes take exactly one element off a doubly linked ring |
| `LinkedRings.RingWith` | memory-allocator/docs/malloc-impl.c:4100-4103 | four link writes put exactly one element at a place of a ring |
| `LinkedRings.RingReplace` | memory-allocator/docs/malloc-impl.c:1630-1633 | the writes that let one element take the place of another on a ring |
| `LinkedRings.RingMirror` | memory-allocator/docs/malloc-impl.c:1613-1614 | neighbours on a ring point at each other, so the corruption test never fires |
| `ArenaModel.HeadPacking` | memory-allocator/docs/malloc-impl.c:2120-2120 | masking the flag bits of a packed word gives the size, its lowest bit the flag |
| `ArenaModel.EveryByteInOneChunk` | memory-allocator/docs/malloc-impl.c:2072-2112 | chunks tile the arena: every byte belongs to exactly one |
| `ArenaModel.MergedSpace` | memory-allocator/docs/malloc-impl.c:4553-4571 | joining neighbours keeps the tiling |
| `ArenaModel.MergedTags` | memory-allocator/docs/malloc-impl.c:4571-4594 | size word, foot and cleared flag of a joined chunk keep all boundary tags true |
| `ArenaModel.MergedTopTags` | memory-allocator/docs/malloc-impl.c:4604-4609 | the size word of a grown top keeps them true |
| `ArenaModel.SplitTags` | memory-allocator/docs/malloc-impl.c:4332-4334 | cutting a chunk keeps them true |
| `ArenaModel.AllocatedTags` | memory-allocator/docs/malloc-impl.c:4012-4012 | setting the flag of the successor makes a whole free chunk used |
| `ArenaModel.FreeChunkTags` | memory-allocator/docs/malloc-impl.c:2126-2146 | a free chunk has a used predecessor and successor and a foot that agrees |
| `ArenaModel.PrevChunkTags` | memory-allocator/docs/malloc-impl.c:4553-4558 | a cleared flag leads back to the true predecessor, which is free |
| `ArenaModel.NextChunkTags` | memory-allocator/docs/malloc-impl.c:4562-4571 | what the two following size words say about the next chunk |
| `ArenaModel.CarvedSpace` | memory-allocator/docs/malloc-impl.c:4327-4334 | cutting the front off a free chunk or top keeps tiling, alignment and tags |
| `ArenaModel.CutSpace` | memory-allocator/docs/malloc-impl.c:4954-4957 | cutting a used chunk in two used ones keeps tiling, alignment and tags |
| `ArenaModel.SpanOnce` | memory-allocator/docs/malloc-impl.c:4552-4609 | which neighbours a released chunk is joined with is determined by the arena |
| `FreeStore.HeirTaken` | memory-allocator/docs/malloc-impl.c:1624-1634 | the next chunk of the same size takes the place of an unlinked one on the ring of distinct sizes |
| `FreeStore.AloneTaken` | memory-allocator/docs/malloc-impl.c:1636-1640 | the only chunk of its size leaves that ring |
| `FreeStore.FollowerTaken` | memory-allocator/docs/malloc-impl.c:1618-1618 | unlinking a chunk that is not first of its size needs no size link |
| `FreeStore.FirstPut` | memory-allocator/docs/malloc-impl.c:4059-4089 | a chunk of a new size joins the ring of distinct sizes in order |
| `FreeStore.FollowerPut` | memory-allocator/docs/malloc-impl.c:4077-4080 | a chunk of a size present goes second and stays off that ring |
| `FreeStore.SmallestLast` | memory-allocator/docs/malloc-impl.c:4058-4073 | the first of the firsts heads the bin, the last has the size of the bin's last chunk |
| `FreeStore.PutBitmap` | memory-allocator/docs/malloc-impl.c:4099-4099 | marking a bin keeps "a clear bit means an empty bin" |
| `FreeStore.ClearBitmap` | memory-allocator/docs/malloc-impl.c:4242-4247 | clearing the bit of an empty bin keeps it too |
| `FreeStore.BestInOwnBin` | memory-allocator/docs/malloc-impl.c:4135-4157 | the smallest chunk that fits in the request's own bin is the best fit of all bins |
| `FreeStore.BestInLaterBin` | memory-allocator/docs/malloc-impl.c:4197-4256 | the last chunk of the next non-empty bin is the best fit, and big enough |
| `FreeStore.NoFit` | memory-allocator/docs/malloc-impl.c:4305-4312 | when no later bin has a chunk, no binned chunk fits |
| `FreeStore.BitAhead` | memory-allocator/docs/malloc-impl.c:4230-4236 | there is a set bit ahead whenever the scan starts shifting, so the mask never becomes zero |
| `FreeStore.RestOfWord` | memory-allocator/docs/malloc-impl.c:4217-4218 | skipping the rest of a word skips empty bins only |
| `FreeStore.ZeroWord` | memory-allocator/docs/malloc-impl.c:4219-4224 | a zero word stands for empty bins only |
| `MemoryWords.NotOwn` | memory-allocator/docs/malloc-impl.c:1300-1308 | from its size word to the next, a chunk that the program does not hold has no word of the program |
| `MemoryWords.HeadNotOwn` | memory-allocator/docs/malloc-impl.c:1300-1308 | no size word of any chunk is the program's |
| `MemoryWords.LinksKept` | memory-allocator/docs/malloc-impl.c:1616-1617 | writing links of bin headers, and of chunks that the program does not hold, keeps every word it has stored |
| `MemoryWords.LinksKeptInside` | memory-allocator/docs/malloc-impl.c:3984-3989 | so does writing links anywhere inside such a chunk |
| `MemoryWords.HeadKept` | memory-allocator/docs/malloc-impl.c:4332-4334 | so does writing a size word of, inside, or right behind such a chunk |
| `MemoryWords.FootKept` | memory-allocator/docs/malloc-impl.c:3995-3995 | so does writing its foot |
| `MemoryWords.SizeLinksKept` | memory-allocator/docs/malloc-impl.c:1618-1641 | so do changes of size links in one bin |
| `MemoryWords.KeepsMerged` | memory-allocator/docs/malloc-impl.c:4553-4571 | joining chunks that the program does not hold keeps its words |
| `MemoryWords.KeepsCut` | memory-allocator/docs/malloc-impl.c:4954-4957 | cutting a chunk in which nothing is stored keeps them |
| `MemoryWords.NothingYet` | memory-allocator/docs/malloc-impl.c:4914-4919 | in a chunk new to the program nothing is stored |
| `MemoryWords.KeepsWritten` | memory-allocator/docs/malloc-impl.c:1300-1308 | a store by the program keeps its other words |
| `MemoryWords.RolesApart` | memory-allocator/docs/malloc-impl.c:1158-1169 | no two words that the allocator relies on, in whichever role, share an address |
| `MemoryWords.ProtectedIsRevealed` | memory-allocator/docs/malloc-impl.c:344-346 | a protected fastbin link reads back as it was |
| `ChunkLists.UnbinnedIs` | memory-allocator/docs/malloc-impl.c:1604-1617 | taking a chunk off its bin removes it from all lists, and changes no other order |
| `ChunkLists.SmallBinFed` | memory-allocator/docs/malloc-impl.c:4039-4044 | filing chunks puts those of a small size in front of their bin, those that became free last first |
| `ChunkLists.PlaceIs` | memory-allocator/docs/malloc-impl.c:4052-4093 | the place in a large bin: behind the first chunk of the size if there is one, else between larger and smaller ones |
| `ChunkLists.FiledKeeps` | memory-allocator/docs/malloc-impl.c:4037-4103 | filing a chunk changes the order of no other chunks |
| `ChunkLists.ReleasedOnce` | memory-allocator/docs/malloc-impl.c:4530-4609 | releasing a chunk has one outcome: chunks, bins and their order |
| `ChunkChoice.SortedStep` | memory-allocator/docs/malloc-impl.c:4037-4103 | sorting one more unsorted chunk gives the arena that the search is said to see |
| `ChunkChoice.FiledStep` | memory-allocator/docs/malloc-impl.c:4037-4103 | and the bins that the search is said to see |
| `ChunkChoice.TieGoesToNewest` | memory-allocator/docs/malloc-impl.c:4078-4093 | when a large bin has chunks of the size already, the one filed last is the one that is taken next |
| `ChunkChoice.SortedChoiceIsBestFit` | memory-allocator/docs/malloc-impl.c:4126-4303 | a chunk taken from a sorted bin is the best fit of all chunks that were in sorted bins at the call |
| `ChunkChoice.WorseIsNotChosen` | memory-allocator/docs/malloc-impl.c:4126-4303 | a worse chunk of a sorted bin is never chosen while a better one lies there |
| `ChunkChoice.ChoiceIsBestOfAll` | memory-allocator/docs/malloc-impl.c:3943-4303 | when one round can sort the unsorted chunks, what the bins give is the smallest of all free chunks that fit, and top is cut only if none fits |
| `ChunkChoice.ConsolidatedOnce` | memory-allocator/docs/malloc-impl.c:4666-4761 | consolidation has one outcome: addresses and sizes of all chunks are fixed by those in use |
| `ChunkChoice.FreeOnce` | memory-allocator/docs/malloc-impl.c:4666-4761 | and so is which of them are free |
| `ChunkChoice.ConsolidatedAfterRound` | memory-allocator/docs/malloc-impl.c:4343-4353 | consolidating after a round that found nothing is consolidating the arena before it |
| `ChunkChoice.WorseIsNotWellChosen` | memory-allocator/docs/malloc-impl.c:3721-4365 | with no fastbin in use no request is served from a sorted bin while a smaller chunk there fits |
| `ChunkChoice.LargeRequestIsBestFit` | memory-allocator/docs/malloc-impl.c:3721-4365 | **Main.** a large request gets the smallest of all free chunks that fit, after consolidation if fastbins were in use, and the front of top only if none fits, when one round can sort the unsorted chunks |
| `SmallBinQueues.SortingFeeds` | memory-allocator/docs/malloc-impl.c:4039-4044 | after a round each small bin is the chunks of its size that were sorted, newest first, in front of what it held |
| `SmallBinQueues.ServingQueues` | memory-allocator/docs/malloc-impl.c:3721-4365 | serving a request lets chunks join small bins in front only, also when fastbins were consolidated on the way |
| `SmallBinQueues.FailingQueues` | memory-allocator/docs/malloc-impl.c:3721-4365 | so does a search that finds nothing |
| `SmallBinQueues.FreeShrinks` | memory-allocator/docs/malloc-impl.c:4371-4654 | freeing puts nothing in a small bin and keeps the order there |
| `SmallBinQueues.NoneComesBack` | memory-allocator/docs/malloc-impl.c:4666-4761 | a chunk that consolidation takes out of a small bin has grown: it does not come back to that bin |
| `SmallBinQueues.LastIsServed` | memory-allocator/docs/malloc-impl.c:3853-3865 | a small request is served the last chunk of its small bin whenever that has one and its fastbin has none |
| `SmallBinQueues.LastJoinedFirst` | memory-allocator/docs/malloc-impl.c:1503-1508 | the last chunk of a small bin has been there for as long as any other |
| `MallocState.MergedFree` | memory-allocator/docs/malloc-impl.c:4552-4594 | coalescing up to three chunks keeps tags and free store consistent |
| `MallocState.MergedTop` | memory-allocator/docs/malloc-impl.c:4599-4609 | coalescing into top keeps them consistent |
| `MallocState.PushedFast` | memory-allocator/docs/malloc-impl.c:4445-4515 | a freed small chunk goes in front of its fastbin and stays marked in use |
| `MallocState.CarvedFree` | memory-allocator/docs/malloc-impl.c:4270-4297 | cutting a detached free chunk keeps tags and free store consistent |
| `MallocState.CarvedTop` | memory-allocator/docs/malloc-impl.c:4327-4334 | cutting top keeps them consistent |
| `MallocState.TakenWhole` | memory-allocator/docs/malloc-impl.c:4262-4264 | handing out a whole free chunk keeps them consistent |
| `MallocState.LastRemainderSplit` | memory-allocator/docs/malloc-impl.c:3974-3995 | splitting the lone last remainder keeps them consistent |
| `MallocState.PlacedStore` | memory-allocator/docs/malloc-impl.c:4037-4103 | binning a chunk from the unsorted list keeps them consistent |
| `MallocState.StoresAreForeign` | memory-allocator/docs/malloc-impl.c:1300-1308 | **Main.** whatever word the program stores in its own chunks, all words that the allocator relies on are as it left them |
| `MallocState.GivenUp` | memory-allocator/docs/malloc-impl.c:4530-4548 | a chunk given up by the program, and not yet coalesced, keeps tags and free store consistent |
| `MallocState.UnsortedTests` | memory-allocator/docs/malloc-impl.c:3951-3964 | all five tests on the oldest unsorted chunk pass |
| `MallocState.State.constructor` | memory-allocator/docs/malloc-impl.c:1942-1963 | a fresh arena, all of it top, is valid and nothing is allocated |
| `MallocState.State.UnlinkChunk` | memory-allocator/docs/malloc-impl.c:1604-1642 | its bin loses exactly that chunk; both rings stay well formed |
| `MallocState.State.UnlinkSizeLinks` | memory-allocator/docs/malloc-impl.c:1618-1641 | the part that repairs the ring of distinct sizes |
| `MallocState.State.LinkUnsorted` | memory-allocator/docs/malloc-impl.c:4579-4591 | a detached chunk becomes the first of the unsorted list |
| `MallocState.State.AbsorbPrevious` | memory-allocator/docs/malloc-impl.c:4552-4561 | takes a free chunk before the released one off its bin, and changes no other list |
| `MallocState.State.ReleaseChunk` | memory-allocator/docs/malloc-impl.c:4530-4609 | the chunk and its free neighbours become one chunk of the returned size, in front of the unsorted list, or top; the neighbours leave their bins and nothing else changes |
| `MallocState.State.FinishRelease` | memory-allocator/docs/malloc-impl.c:4566-4597 | flag, size word and foot of the coalesced chunk, which becomes the first unsorted one |
| `MallocState.State.FinishInBin` | memory-allocator/docs/malloc-impl.c:4563-4597 | takes a free chunk behind it off its bin and puts the coalesced chunk in front of the unsorted list |
| `MallocState.State.FinishInTop` | memory-allocator/docs/malloc-impl.c:4604-4609 | the coalesced chunk and top become the new top |
| `MallocState.State.ReleaseFastbin` | memory-allocator/docs/malloc-impl.c:4697-4756 | the chunks of a torn-down fastbin are released one by one, the one freed last first; what the program holds stays |
| `MallocState.State.MallocConsolidate` | memory-allocator/docs/malloc-impl.c:4666-4761 | **Main.** empties every fastbin, from the smallest size on, releasing its chunks in turn, and keeps what the program holds; nothing is left to coalesce, no sorted bin gains a chunk, and one there stays unless it grew or was swallowed |
| `MallocState.State.IntFree` | memory-allocator/docs/malloc-impl.c:4371-4654 | **Main.** the program holds exactly one chunk less, and loses the words stored there and no other; small chunks go on a fastbin, others coalesce with exactly their free neighbours, and fastbins are consolidated then exactly when one was in use and that gave 64k bytes |
| `MallocState.State.TakeFast` | memory-allocator/docs/malloc-impl.c:3790-3843 | takes the chunk freed last from the fastbin, or finds it empty |
| `MallocState.State.TakeSmall` | memory-allocator/docs/malloc-impl.c:3853-3900 | takes the last chunk of the exact small bin, or finds it empty |
| `MallocState.State.PlaceLarge` | memory-allocator/docs/malloc-impl.c:4045-4097 | finds the one place in descending order, second among its own size, and threads the ring of sizes |
| `MallocState.State.SeekLarge` | memory-allocator/docs/malloc-impl.c:4068-4075 | walking the ring of sizes stops at the first size that is not larger |
| `MallocState.State.PlaceInBin` | memory-allocator/docs/malloc-impl.c:4037-4103 | puts the chunk in the bin of its size, a small bin at its front, and marks the bin |
| `MallocState.State.PopUnsorted` | memory-allocator/docs/malloc-impl.c:4002-4006 | takes the oldest unsorted chunk off its list |
| `MallocState.State.SortUnsorted` | memory-allocator/docs/malloc-impl.c:4000-4103 | hands the oldest unsorted chunk out if it fits exactly, else it joins the bin of its size at its place, and no other list changes |
| `MallocState.State.SplitLastRemainder` | memory-allocator/docs/malloc-impl.c:3971-3998 | serves a small request from the lone last remainder; the rest is then the lone unsorted chunk and the last remainder |
| `MallocState.State.ProcessUnsorted` | memory-allocator/docs/malloc-impl.c:3945-4120 | sorts at most 10000 unsorted chunks, oldest first, up to the first that fits exactly or the lone last remainder; all bins, in order, are then those that filing them one by one gives; no test of a chunk fails |
| `MallocState.State.ScanBinmap` | memory-allocator/docs/malloc-impl.c:4208-4247 | reaches the first non-empty bin above, or reports that there is none; bits are only cleared, and of empty bins |
| `MallocState.State.SkipWords` | memory-allocator/docs/malloc-impl.c:4217-4228 | skips words without set bits |
| `MallocState.State.SeekBit` | memory-allocator/docs/malloc-impl.c:4230-4236 | shifts to the next set bit; the mask never becomes zero |
| `MallocState.State.TakeLarge` | memory-allocator/docs/malloc-impl.c:4135-4195 | takes the best fit from the request's own large bin if it has one, the second of its size if there is one; the rest goes in front of the unsorted list |
| `MallocState.State.SearchLarge` | memory-allocator/docs/malloc-impl.c:4144-4154 | gives the smallest chunk that fits, the second of its size if there is one |
| `MallocState.State.WalkSizes` | memory-allocator/docs/malloc-impl.c:4144-4147 | walking the ring of sizes backwards stops at the smallest size that fits |
| `MallocState.State.TakeFromLaterBin` | memory-allocator/docs/malloc-impl.c:4208-4303 | takes the last chunk of the next bin that has any, the best fit; what is left is the first unsorted chunk and, for a small request, the last remainder; the "big enough" assertion holds |
| `MallocState.State.UseTop` | memory-allocator/docs/malloc-impl.c:4305-4340 | cuts top if it leaves at least a minimal chunk; no list changes |
| `MallocState.State.SearchRound` | memory-allocator/docs/malloc-impl.c:3943-4340 | one round, told of the arena and lists at its start: the first unsorted chunk that stops it; else the best fit once the others are sorted; else top, none of them large enough; and all lists that it leaves |
| `MallocState.State.TakeChunk` | memory-allocator/docs/malloc-impl.c:3775-4365 | the chunk freed last of the exact fastbin, the last of the exact small bin, or what a round chooses from the lists there were, or from what tearing down the fastbins makes of them; and all lists that it leaves |
| `MallocState.State.ConsolidateAgain` | memory-allocator/docs/malloc-impl.c:4343-4353 | the second round searches what tearing down the fastbins makes of the lists that the first has left |
| `MallocState.State.IntMalloc` | memory-allocator/docs/malloc-impl.c:3721-4365 | **Main.** serves the request with one new chunk of fitting size, chosen by that rule from the lists at the call, and leaves exactly the bins, fastbins and last remainder that go with the choice; or top is too small, no fastbin is in use and no chunk of a sorted bin fits; small bins stay queues |
| `MallocState.State.CutUsed` | memory-allocator/docs/malloc-impl.c:4952-4957 | an allocated chunk with nothing stored in it becomes two; no list changes |
| `MallocState.State.GiveBackLeader` | memory-allocator/docs/malloc-impl.c:4941-4959 | frees exactly the part before the aligned address, as free would |
| `MallocState.State.GiveBackTail` | memory-allocator/docs/malloc-impl.c:4966-4978 | frees what is left over when it is more than a minimal chunk, as free would |
| `MallocState.State.AlignWithin` | memory-allocator/docs/malloc-impl.c:4925-4978 | an aligned chunk is kept where it is; else the first aligned spot with room for a leader is taken; leader and tail are freed in turn |
| `MallocState.State.IntMemalign` | memory-allocator/docs/malloc-impl.c:4891-4982 | **Main.** serves the request from the chunk that malloc chooses for the padded size: at that chunk if its memory is aligned, else at the first aligned spot with room for a leader; leader and tail are freed, and the lists are those that this gives; or the request is too large or the padded one exhausts the arena; or the padded size wraps, a chunk is found, and the next store lies outside the arena |
| `MallocState.State.RoundAlignment` | memory-allocator/docs/malloc-impl.c:3483-3500 | the least power of two that is not below the alignment nor a minimal chunk |
| `MallocState.State.MidMemalign` | memory-allocator/docs/malloc-impl.c:3461-3523 | any alignment: small ones are malloc's, those beyond 2^63 are refused, others are rounded up and served by that rule |
| `MallocState.State.StoreWord` | memory-allocator/docs/malloc-impl.c:1300-1308 | the program may store any word in its chunks: the allocator stays valid |
| `MallocState.State.LoadWord` | memory-allocator/docs/malloc-impl.c:1300-1308 | a word that the program has stored, and whose chunk it still holds, reads as it was stored |
| `MallocChecks.FreeHolds` | memory-allocator/docs/malloc-impl.c:2117-2146 | the check of free chunks holds for every binned chunk |
| `MallocChecks.InuseHolds` | memory-allocator/docs/malloc-impl.c:2152-2186 | the check of chunks in use, and of their neighbours, holds for every such chunk |
| `MallocChecks.RemallocedHolds` | memory-allocator/docs/malloc-impl.c:2191-2218 | the check of a chunk recycled for a request holds |
| `MallocChecks.ServeChecked` | memory-allocator/docs/malloc-impl.c:2191-2239 | every chunk handed out passes it, and unless it comes from a fastbin the chunk before it is in use, too |
| `MallocChecks.SizeLinksHold` | memory-allocator/docs/malloc-impl.c:2357-2378 | the checks of the size links hold for every large binned chunk |
| `MallocChecks.BinnedHolds` | memory-allocator/docs/malloc-impl.c:2342-2381 | all checks of a chunk in a bin hold: bin, order, size links |
| `MallocChecks.CheckFollowers` | memory-allocator/docs/malloc-impl.c:2382-2387 | the walk over the chunks in use behind a free one finds nothing wrong |
| `MallocChecks.CheckFastbin` | memory-allocator/docs/malloc-impl.c:2293-2325 | the walk over a fastbin finds nothing wrong, and bins past the limit are empty |
| `MallocChecks.CheckBin` | memory-allocator/docs/malloc-impl.c:2327-2389 | the walk over a bin, and its bit in the binmap, finds nothing wrong |
| `MallocChecks.CheckMallocState` | memory-allocator/docs/malloc-impl.c:2253-2394 | **Main.** the allocator's own check of its whole state never fails between calls |
| `MallocRuns.StoredWithin` | memory-allocator/docs/malloc-impl.c:1300-1308 | aligned words within the bytes asked for are words of the program's chunks |
| `MallocRuns.ForgottenWords` | memory-allocator/docs/malloc-impl.c:4371-4381 | what is lost by freeing is what was stored in the bytes asked for there |
| `MallocRuns.Perform` | memory-allocator/docs/malloc-impl.c:3461-4982 | one call keeps what is allocated equal to what the program owns, and memory equal to what it has stored, unless it ends with a store outside the arena |
| `MallocRuns.PerformAligned` | memory-allocator/docs/malloc-impl.c:3461-4982 | the same for a request with an alignment, which may end with a store outside the arena only if its padded size wraps |
| `MallocRuns.OldestWhen` | memory-allocator/docs/malloc-impl.c:3853-3865 | a small request that finds chunks in its small bin and none in its fastbin is served the last one of the bin |
| `MallocRuns.Run` | memory-allocator/docs/malloc-impl.c:2253-4982 | **Main.** over every run of calls, stores and loads no byte is owned twice, pointers are new and aligned, every stored word reads back until it is freed, and all checks pass after every call; the run is cut short only by an aligned request whose padded size wraps, before its store outside the arena; every small bin stays a queue, the oldest chunk served first |
| `MallocRuns.ServedWaitedLongest` | memory-allocator/docs/malloc-impl.c:1503-1508 | **Main.** over every run the chunk that a small request is served from its small bin has waited there at least as long as any other |
| `MemSizes.RegionHoldsQuery` | memory-allocator/src/mem.c:25-41 | a region is the fewest whole pages that do, and has room for the block, exactly when its size does not wrap |
| `BlockChain.SearchIsFirstFit` | memory-allocator/src/mem.c:125-164 | **Main.** not found exactly when no maximal run of adjacent free blocks fits; otherwise the head of the first such run, grown to the run, with everything before it coalesced |
| `BlockChain.FreeBlockIsFound` | memory-allocator/src/mem.c:149-164 | any free block with room makes the search succeed |
| `BlockChain.AbsorbRun` | memory-allocator/src/mem.c:156-156 | absorbing from the front takes in exactly the run |
| `MemorySpans.JoinPair` | memory-allocator/src/mem.c:104-139 | splitting a block, or merging two, covers the same memory |
| `MemorySpans.JoinedCovers` | memory-allocator/src/mem.c:77-95 | joining touching ranges loses and adds no address |
| `MemorySpans.JoinedEdges` | memory-allocator/src/mem.c:87-91 | a joined range starts where some range starts and ends where some range ends |
| `MemorySpans.JoinedDisjoint` | memory-allocator/src/mem.c:77-95 | joined ranges do not overlap |
| `HeapBlocks.MergeSound` | memory-allocator/src/mem.c:129-139 | merging keeps headers, tiling, disjointness and owners |
| `HeapBlocks.SplitSound` | memory-allocator/src/mem.c:104-118 | splitting keeps them, and both parts keep the minimum capacity |
| `HeapBlocks.MarkSound` | memory-allocator/src/mem.c:170-170 | handing out or taking back a block changes exactly one owner |
| `HeapBlocks.WritesInHeader` | memory-allocator/src/mem.c:33-39 | writes within a header touch no payload |
| `HeapBlocks.WritesInFree` | memory-allocator/src/mem.c:33-39 | writes within a free block touch no payload in use |
| `HeapGrowth.LastEndsOnPage` | memory-allocator/src/mem.c:179-179 | the last block ends on a page boundary, so the growth hint is aligned |
| `HeapGrowth.AppendSound` | memory-allocator/src/mem.c:179-181 | a new region becomes one more block, apart from all others, and the blocks tile the regions |
| `HeapGrowth.GrowthSuffices` | memory-allocator/src/mem.c:176-201 | **Main.** the block that growth leaves serves the request exactly when the region size did not wrap |
| `HeapGrowth.WrappedRequest` | memory-allocator/src/mem.c:25-41 | a request of 2^64 - 17 bytes: the region is minimal, and the block that growth leaves far too small |
| `HeapGrowth.OutcomeGrown` | memory-allocator/src/mem.c:193-198 | the second search takes the very block that growth returned |
| `HeapOutcomes.OutcomeServes` | memory-allocator/src/mem.c:186-201 | **Main.** told of addresses alone: the request takes the front of the first maximal run of free memory that fits, what is left of the run becomes one free block if it makes one, all before it is coalesced and all behind it is as it was; or, if none fits, the front of the new region and of free memory that it touches |
| `HeapOutcomes.ReleasedInto` | memory-allocator/src/mem.c:213-218 | a freed block reaches to the end of its successor if that was free and touched it; every other block is as it was |
| `HeapOutcomes.SearchCoalesces` | memory-allocator/src/mem.c:144-164 | a search that finds nothing has left no two free blocks that touch, and the same memory and used blocks |
| `HeapGrowth.ReleasedIsFound` | memory-allocator/src/mem.c:213-218 | a released block is found by any search for no more than its capacity |
| `HeapGrowth.LiveApart` | memory-allocator/src/mem.c:203-207 | what two live pointers own does not overlap, headers included |
| `HeapGrowth.UnreadYet` | memory-allocator/src/mem.c:82-84 | no header is read after its memory was unmapped |
| `HeapGrowth.JoinedUnmapsAll` | memory-allocator/src/mem.c:77-95 | **Main.** the unmapped ranges cover every mapped byte once and lie on region edges |
| `ListHeap.Heap.constructor` | memory-allocator/src/mem.c:71-75 | nothing is mapped yet |
| `ListHeap.Heap.BlockInit` | memory-allocator/src/mem.c:33-39 | one header is stored; at most 24 bytes are written |
| `ListHeap.Heap.TryMergeWithNext` | memory-allocator/src/mem.c:129-139 | merges exactly when both are free and adjacent |
| `ListHeap.Heap.AbsorbNext` | memory-allocator/src/mem.c:156-156 | a block takes in every successor it can |
| `ListHeap.Heap.FindGoodOrLast` | memory-allocator/src/mem.c:149-164 | terminates and leaves the list, and the answer, of the first-fit search |
| `ListHeap.Heap.SplitIfTooBig` | memory-allocator/src/mem.c:104-118 | splits exactly when the rest makes a block of its own |
| `ListHeap.Heap.TryMemallocExisting` | memory-allocator/src/mem.c:166-173 | a block found is cut to size and handed out; no other payload changes |
| `ListHeap.Heap.MapPages` | memory-allocator/src/mem.c:46-48 | one mapping request, at the hint or anywhere |
| `ListHeap.Heap.AllocRegion` | memory-allocator/src/mem.c:50-61 | takes the hint if the kernel grants it, else any place, else none; the region starts with the header of one free block |
| `ListHeap.Heap.HeapInit` | memory-allocator/src/mem.c:71-75 | returns the address that the kernel grants, or NULL; the heap is usable exactly when that is the fixed one |
| `ListHeap.InitElsewhere` | memory-allocator/src/mem.c:71-75 | a kernel for which it returns another address, and the heap is not usable |
| `ListHeap.Heap.GrowHeap` | memory-allocator/src/mem.c:176-184 | the region's block is appended, or merged with the last; or nothing changes |
| `ListHeap.Heap.Memalloc` | memory-allocator/src/mem.c:186-201 | NULL exactly when the search fails and no region that fits can be mapped; the whole new state |
| `ListHeap.Heap.Malloc` | memory-allocator/src/mem.c:203-207 | **Main.** the whole outcome of a request: first fit, growth, or NULL, told of addresses; one owner more; no other payload changes |
| `ListHeap.Heap.Free` | memory-allocator/src/mem.c:213-218 | **Main.** one owner less; the block reaches to the end of its successor if that was free and touched it, and every other block is as it was; no other payload changes |
| `ListHeap.Heap.FreeThenMalloc` | memory-allocator/src/mem.c:186-218 | **Main.** reuse: a request for no more than was freed succeeds without a new region |
| `ListHeap.Heap.HeapTerm` | memory-allocator/src/mem.c:77-95 | **Main.** unmaps exactly the mapped regions, each byte once, and terminates |
| `HeapRuns.AfterAlloc` | memory-allocator/src/mem.c:203-207 | an allocation leaves every stored byte as it was |
| `HeapRuns.AfterRelease` | memory-allocator/src/mem.c:213-218 | a release leaves every byte stored elsewhere as it was |
| `HeapRuns.Perform` | memory-allocator/src/mem.c:186-218 | one action keeps memory in agreement with the program's view |
| `HeapRuns.Run` | memory-allocator/src/mem.c:186-218 | **Main.** over every run, what is owned never overlaps and every stored byte reads back until it is freed |
| `CacheModel.ShowsOverlay` | io-cache/source/monolith/app/cache/Cache.cpp:20-34 | **Main.** what a program sees is the disk overlaid by the cached blocks |
| `CacheModel.LoadFits` | io-cache/source/monolith/app/cache/Cache.cpp:242-276 | a block that is not cached is loaded with the contents, and is empty exactly behind their end |
| `CacheModel.WriteBackShows` | io-cache/source/monolith/app/cache/Cache.cpp:211-217 | writing a block back changes no contents |
| `CacheModel.DropShows` | io-cache/source/monolith/app/cache/Cache.cpp:211-233 | **Main.** a block may be dropped exactly when the disk has its bytes |
| `CacheModel.DirtyDropLoses` | io-cache/source/monolith/app/cache/Cache.cpp:211-233 | one byte changed in the cache: dropping its block loses it |
| `CacheModel.ErasedShows` | io-cache/source/monolith/app/cache/Cache.cpp:224-234 | when a dirty block is erased without a write-back the contents survive exactly when the disk has its bytes |
| `CacheModel.WrittenBackFlushes` | io-cache/source/monolith/app/cache/Cache.cpp:211-217 | writing a block back changes its own bytes on disk and no other byte |
| `CacheModel.AdmittedFrom` | io-cache/source/monolith/app/cache/Cache.cpp:224-240 | adding a block makes no other block dirty, and of the blocks of other files it may only drop one |
| `CacheModel.AllClean` | io-cache/source/monolith/app/cache/Cache.cpp:184-200 | once no block of a file is dirty the disk has its contents |
| `CacheModel.ChangedStores` | io-cache/source/monolith/app/cache/Cache.cpp:168-170 | copying into a block changes the contents at that place and nowhere else |
| `CacheModel.StoresExactly` | io-cache/source/monolith/app/cache/Cache.cpp:134-178 | inside a file or right behind it, a store has exactly one outcome |
| `CacheModel.StoresTwice` | io-cache/source/monolith/app/cache/Cache.cpp:144-175 | stores block by block are one store |
| `CacheModel.ConsistentLoad` | io-cache/source/monolith/app/cache/Cache.cpp:242-276 | loading a block keeps every file's contents |
| `CacheModel.ConsistentDrop` | io-cache/source/monolith/app/cache/Cache.cpp:211-234 | evicting any block keeps every file's contents |
| `CacheModel.ConsistentFlush` | io-cache/source/monolith/app/cache/Cache.cpp:187-196 | flushing a block keeps them |
| `CacheModel.ConsistentChange` | io-cache/source/monolith/app/cache/Cache.cpp:165-170 | changing a block changes one file's contents |
| `CacheModel.OthersWithout` | io-cache/source/monolith/app/cache/Cache.cpp:53-68 | removing a block of a file leaves the blocks of others, in order |
| `CacheCounts.ReadIsFlat` | io-cache/source/monolith/app/cache/Cache.cpp:111-125 | a read transfers what a flat file would exactly when nothing is asked for, the position is not behind the end, or its block is |
| `CacheCounts.ReadBehindEnd` | io-cache/source/monolith/app/cache/Cache.cpp:111-111 | one byte in the file, position 5: ten bytes come back |
| `CacheCounts.ReadStep` | io-cache/source/monolith/app/cache/Cache.cpp:86-126 | one round of the read loop and the rest make the whole count, with the wrapping subtraction |
| `CacheCounts.WriteStep` | io-cache/source/monolith/app/cache/Cache.cpp:144-175 | one round of the write loop and the rest make the whole count |
| `BlockCache.Cache.constructor` | io-cache/source/monolith/app/cache/Cache.cpp:36-36 | an empty cache shows the disk |
| `BlockCache.Cache.ContentsAreOverlay` | io-cache/source/monolith/app/cache/Cache.cpp:20-34 | in every valid state the contents are disk overlaid by cache |
| `BlockCache.CacheBlock.CopyIn` | io-cache/source/monolith/app/cache/Cache.cpp:168-170 | exactly these bytes of the buffer change, and how far it is valid |
| `BlockCache.Cache.FindBlock` | io-cache/source/monolith/app/cache/Cache.cpp:202-209 | the block of a descriptor and offset, or there is none |
| `BlockCache.Cache.DeleteBlock` | io-cache/source/monolith/app/cache/Cache.cpp:211-222 | writes a dirty block back and counts one less, or fails and changes nothing |
| `BlockCache.Cache.RemoveBlock` | io-cache/source/monolith/app/cache/Cache.cpp:228-232 | deletes a block and erases it, or fails exactly when it is dirty and cannot be written; only its bytes may reach the disk; no contents change |
| `BlockCache.Cache.EvictIfNeeded` | io-cache/source/monolith/app/cache/Cache.cpp:224-234 | below four blocks nothing changes; at four exactly one goes, whichever it is, and only its bytes may reach the disk; no contents change unless it is dirty and cannot be written |
| `BlockCache.Cache.AddBlock` | io-cache/source/monolith/app/cache/Cache.cpp:236-240 | adds a loaded block as the last; there are min(old + 1, 4) then; or a dirty block is lost |
| `BlockCache.Cache.LoadBlock` | io-cache/source/monolith/app/cache/Cache.cpp:242-276 | a fresh block with the bytes on disk, nothing exactly behind the end, or a failure |
| `BlockCache.Cache.Fetch` | io-cache/source/monolith/app/cache/Cache.cpp:93-109 | a cached block is found and nothing else happens, but that a write marks it dirty; another is read from disk and added, unless nothing is there; it reaches as far as the contents do, and no contents change; or a dirty block is lost |
| `BlockCache.Cache.ReadRound` | io-cache/source/monolith/app/cache/Cache.cpp:86-126 | one round of the read loop: bytes of the block that holds the position, as many as the count says |
| `BlockCache.Cache.Read` | io-cache/source/monolith/app/cache/Cache.cpp:74-130 | **Main.** returns exactly the contents from the position up to the count or the end, and no contents change, unless a dirty block is lost; up to there the bytes are the same. No block is made dirty; while there is room no block goes and the disk stays, and when all blocks are cached nothing changes |
| `BlockCache.Cache.StoreInto` | io-cache/source/monolith/app/cache/Cache.cpp:168-170 | the contents change at that place and nowhere else |
| `BlockCache.Cache.WriteRound` | io-cache/source/monolith/app/cache/Cache.cpp:144-175 | one round of the write loop |
| `BlockCache.Cache.Write` | io-cache/source/monolith/app/cache/Cache.cpp:134-178 | **Main.** stores exactly min(count, end of the last block minus position) bytes there and nothing else, and other files keep their contents, unless a dirty block is lost; up to there a part of these is stored. Blocks of other files are only dropped; while there is room, or when all blocks are cached, nothing reaches the disk |
| `BlockCache.Cache.FlushBlock` | io-cache/source/monolith/app/cache/Cache.cpp:188-195 | one dirty block is written back, its bytes only, and clean |
| `BlockCache.Cache.Fsync` | io-cache/source/monolith/app/cache/Cache.cpp:184-200 | **Main.** the disk has the contents, the blocks of the file are clean and nothing else about blocks or other files changes; or a block is dirty and cannot be written, and nothing changes |
| `BlockCache.Cache.Close` | io-cache/source/monolith/app/cache/Cache.cpp:53-72 | **Main.** the disk has the contents and exactly the blocks of the file are gone; or a block is dirty and cannot be written, and the disk stays |
| `CacheRuns.RunBound` | io-cache/source/monolith/app/cache/Cache.cpp:153-161 | over any run a file never grows past the block of its last original byte |
| `CacheRuns.Perform` | io-cache/source/monolith/app/cache/Cache.cpp:53-200 | one operation through the cache is one operation on plain files, unless a dirty block is lost |
| `CacheRuns.Run` | io-cache/source/monolith/app/cache/Cache.cpp:53-276 | **Main.** over any run all answers and contents are those of plain files, for every choice of victims; when the write-back of a victim fails the answers up to there are |
| `BmpHeader.UnpackPack` | image-rotation/solution/src/BMP_reader.h:20-39 | packed little-endian fields are read back as they were written |
| `BmpHeader.HeaderSize` | image-rotation/solution/src/BMP_reader.h:20-39 | the packed header has 54 bytes |
| `BmpHeader.HeaderRoundTrip` | image-rotation/solution/src/BMP_reader.c:94-97 | a header in range is read back as it was written |
| `BmpHeader.ReadLaidOut` | image-rotation/solution/src/BMP_reader.h:20-39 | a header is read with each of its 15 fields at its offset, low byte first |
| `BmpHeader.WrittenLaidOut` | image-rotation/solution/src/BMP_reader.h:20-39 | and written so |
| `BmpCodec.PaddingAligns` | image-rotation/solution/src/BMP_reader.c:118-121 | rows are aligned, and padded as the format says exactly when they need padding |
| `BmpCodec.HeaderDescribes` | image-rotation/solution/src/BMP_reader.c:5-23 | the header of an encodable image is accepted and gives its sides and size |
| `BmpCodec.HeaderLabels` | image-rotation/solution/src/BMP_reader.c:5-23 | every byte of the header of any image: "BM", sides, bits, and the sizes of its data and of the file modulo 2^32 |
| `BmpCodec.FileLabelled` | image-rotation/solution/src/BMP_reader.c:5-23 | the number in bytes 2 to 5 of a file is its length exactly when that is below 2^32 |
| `BmpCodec.AcceptedExactly` | image-rotation/solution/src/BMP_reader.c:94-114 | which headers are refused, by their bytes, and what sides and size are read from the others |
| `BmpCodec.SizeFieldCovers` | image-rotation/solution/src/BMP_reader.c:5-29 | the 32-bit size covers all the data exactly when the data is below 2^32 bytes |
| `BmpCodec.RasterUnique` | image-rotation/solution/src/BMP_reader.c:35-46 | every byte of the data is written: it is fixed by the image |
| `BmpCodec.DecodedIsOriginal` | image-rotation/solution/src/BMP_reader.c:78-86 | reading the data of an image gives the image |
| `BmpCodec.ReachesExactly` | image-rotation/solution/src/BMP_reader.c:67-86 | the size field covers every pixel read exactly when the last one lies inside |
| `BmpCodec.WriteRow` | image-rotation/solution/src/BMP_reader.c:37-45 | one row: its pixels, its padding, no other byte |
| `BmpCodec.WriteRows` | image-rotation/solution/src/BMP_reader.c:29-46 | all rows, every index inside the buffer |
| `BmpCodec.ToBmp` | image-rotation/solution/src/BMP_reader.c:4-54 | a whole file exactly when the data is below 2^32 bytes and fits the file; writes outside the buffer exactly when a header went out and the data is larger; else an error and a prefix; the header bytes of what was written, and the length of the file in them |
| `BmpCodec.ReadRow` | image-rotation/solution/src/BMP_reader.c:79-85 | one row of pixels, no other pixel |
| `BmpCodec.FromBmp` | image-rotation/solution/src/BMP_reader.c:57-114 | each status exactly when its condition holds, told of the bytes of the header, reading outside the buffer among them; the pixels that the data gives |
| `BmpCodec.ShortSizeField` | image-rotation/solution/src/BMP_reader.c:67-86 | one accepted file whose size field does not reach its pixel |
| `BmpCodec.TallImage` | image-rotation/solution/src/BMP_reader.c:29-46 | one file that is accepted and read inside its buffer, whose image is written outside |
| `BmpCodec.WriteThenRead` | image-rotation/solution/src/BMP_reader.c:4-92 | **Main.** the identical image comes back, exactly when it has a pixel, its data is below 2^32 bytes and the file took all of it |
| `BmpCodec.CutFile` | image-rotation/solution/src/BMP_reader.c:48-51 | a file cut short is not read |
| `BmpCodec.FileOfNothing` | image-rotation/solution/src/BMP_reader.c:99-111 | the file for an image without pixels is not read |
| `Images.TurnIsBijection` | image-rotation/solution/src/image_transformer.c:8-12 | **Main.** the turn of flat indices is a bijection, with its inverse |
| `Images.TurnedAt` | image-rotation/solution/src/image_transformer.c:8-12 | the turn is clockwise in an image stored from the bottom up |
| `Images.FourTurns` | image-rotation/solution/src/image_transformer.c:2-14 | four turns are none |
| `Images.TurnsCompose` | image-rotation/solution/src/image_transformer.c:16-25 | **Main.** a turns and then b turns are a + b modulo four turns |
| `Rotation.TurnRow` | image-rotation/solution/src/image_transformer.c:9-11 | one row of the turned image, no other pixel |
| `Rotation.Rotate` | image-rotation/solution/src/image_transformer.c:2-14 | a fresh image that is the turned one |
| `Rotation.RotateNumber` | image-rotation/solution/src/image_transformer.c:16-25 | so many turns, none gives the same image; the int counter overflows exactly for counts above 2^31 - 1 |
| `Angles.ListedAngles` | image-rotation/solution/src/main.c:7-18 | each of the seven angles gives the count from 0 to 3 that makes it |
| `Angles.CountIsRight` | image-rotation/solution/src/main.c:15-15 | the count is right exactly for multiples of 90 that are at least -360 or whole turns |
| `Angles.TestIsAlwaysTrue` | image-rotation/solution/src/main.c:8-17 | the test for the seven strings tells no string apart: the result is the count of its number |
| `Angles.RefusedExactly` | image-rotation/solution/src/main.c:15-32 | which strings are refused as a wrong angle |
| `Angles.RefusedMultiples` | image-rotation/solution/src/main.c:15-32 | of the multiples of 90, those below -360 that are 270 modulo 360 |
| `Angles.UnlistedAngles` | image-rotation/solution/src/main.c:7-32 | four unlisted strings: one refused, two taken for no turn, one that gives a negative count |
| `Angles.AnglesAdd` | image-rotation/solution/src/main.c:7-18 | turning by two listed angles is turning by their sum |
| `Transformer.Transform` | image-rotation/solution/src/main.c:21-58 | **Main.** the whole program behind opening the files: refused angle, failed read or write with its status, an overflow, or the file for the image turned so many times, each exactly when |
| `Transformer.CountRange` | image-rotation/solution/src/main.c:7-18 | at most three turns; a negative count, taken as unsigned, is more than the int counter can count |
| `Transformer.FileHolds` | image-rotation/solution/src/BMP_reader.c:57-92 | a file written for an image holds that image |
| `Transformer.HeldOnce` | image-rotation/solution/src/BMP_reader.c:57-92 | a file holds one image only |
| `Transformer.TurnAndBack` | image-rotation/solution/src/main.c:21-58 | **Main.** turning a file by a listed angle, and the result by one that completes whole turns, gives a file for the first image |

## Left out

- glibc: per-thread caches, other arenas and locks, `sysmalloc` and `systrim` (a request they would serve returns 0), mapped chunks, hooks, memory tagging, filling of new and freed memory (`alloc_perturb`, `free_perturb`), statistics, `mallopt`. They rest on files that are not part of this model, or on the kernel.
- glibc, order of independent writes: a coalesced or split chunk gets its size word and foot before it is linked, where the source links first; no step in between reads them.
- glibc, the program's memory: what it stores is modelled by aligned words of 8 bytes; a word that it has not stored since it got the chunk has no value.
- MallocChecks.CheckMallocState: leaves out the sum of sizes, which is never tested, and takes the fastbin limit as a constant, since `mallopt` is not modelled.
- MallocState.State.TakeFast: keeps fastbin links as addresses, where the source stores them combined with the place they are stored at; `MemoryWords.ProtectedIsRevealed` is all that this rests on.
- MallocState.State.IntMemalign: what happens after the store outside the arena is not modelled.
- The list allocator keeps headers and payload bytes in two tables; that no payload overlaps a header is proved, so the two never meet.
- Debug printing of the list allocator, benchmarks, loaders and test programs: output and process control.
- The cache's mutex, random numbers and `lseek`: the operations run one after the other, any victim may be chosen, and the position is a parameter.
- BlockCache.Cache.EvictIfNeeded: what the source does after it has lost a block is not modelled: it goes on with a count that is too high, and draws a victim from an empty vector once four are lost.
- BlockCache.Cache.Write: from a position behind the end of the file the bytes of the gap are left open, since the source leaves them uninitialised.
- Transformer.Transform: does not open, close or print, and exits with a status where the source returns it.
- Rotation.RotateNumber: does not free images or print sides.
- Angles.Validate: takes the number, and that plus 360, to fit an `int`; `Transformer.Transform` has an outcome of its own for angles where they do not.
- The ELF loader, the assembly programs and the shell: seeking, system calls and registers, with no state machine of their own.
