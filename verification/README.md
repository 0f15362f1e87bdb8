# Verified models of memory allocators

The project models the allocators of this repository, and three smaller algorithms that come with it, and proves what
each of them is for.

- **dlmalloc 2.8.6** (`src/steve/dlmalloc.c`), as this repository builds it: 64-bit words, 16-byte alignment, `MORECORE`
  and no `mmap`, no footers and no locks. The heap is a store of words, and every list, tree and boundary tag is a word
  in it. The class `Dlmalloc.MallocState` has the fields of `malloc_state` and one method for each routine, with the
  loads, stores and tests of the source. Ghost fields say what the words mean: the chunks (`heap`), the tries and rings
  (`trees`, `rings`) and the free chunks in bins (`binned`). `Valid()` ties them together: chunks tile every segment,
  head and foot words mirror their neighbours, no two free chunks touch, every free chunk is exactly one of the top,
  the designated victim and a member of the bin of its size, a bin's mark says whether it holds anything, and the
  footprint is the sum of the segments. Every `RTCHECK` of these routines is there; the failing branch is
  `assert false`.
- **rmalloc** (`src/jeff/compact.c`, `src/jeff/listsort.c`), the handle allocator whose blocks move. Headers are heap
  objects linked by `next`, the heap is an array of bytes, and compaction writes both in place.
- **Mmapped chunks of dlmalloc 2.8.3** (`papers/dlmalloc.c`), which the other version is built without.
- **Cachegrind's cache simulation** (`cg_sim.c`), as a refinement of an unbounded least-recently-used list.
- **The buddy splitter** (`src/buddy/buddy.c`) and **Adler-32** with deferred reduction (`valgrind-di-server.c`).

Some of the properties that one might expect fail, and the model says exactly when they hold:

- An mmapped chunk that was aligned and then resized may lie outside its new region. It lies within it if and only if
  its offset fits (`MappedChunks.MmapState.MmapResize`; `MappedChunks.ResizedOutside` leads to a chunk that does not).
- The heap of the buddy splitter is as large as its chunks say if and only if more than 2048 and at most `2^31` bytes
  are asked for (`Buddy.Splitter.constructor`).
- A request for chunks larger than the whole buddy heap is met whenever the root has a free half, and then with a chunk
  that is too small (`Buddy.RequestAboveTop`, `Buddy.LargerThanHeap`).
- A free block of rmalloc is used for a request if and only if it is the first fit, is at least 16 bytes larger and
  there is a header for the rest. A first fit that is not used is dropped from its slot, until a compaction lists all
  free blocks again (`Layouts.Serves` and `AfterMalloc`, `HandleHeap.Rmalloc.Malloc`,
  `HandleHeap.ExactFitDropped`).
- The alignment that `memalign` computes in a word exists if and only if the one asked for is at most `2^63`
  (`Requests.DoublingEnds`).

## Files

| files | what they hold |
|---|---|
| `Common`, `Memory`, `Rings` | powers of two and lists, the store of words, circular lists threaded through it |
| `Tries`, `TrieStore`, `TreeInsertion`, `TreeRemoval` | the tries of large chunks as values, in the store, and their updates |
| `TreeIndex`, `BinMaps`, `Bins`, `SmallBins`, `Search` | which bin a size belongs to, the bin maps, all bins, best fit |
| `Heap`, `Segments`, `HeapOps`, `HeapSteps` | chunks, boundary tags and segments, and what splitting and merging do to them |
| `System`, `Service`, `Growth`, `Requests`, `Tilings` | memory from the system, when a request can be served and by what, padding, uniqueness of coalesced heaps |
| `Dlmalloc`, `Client`, `Independent` | the state record and its routines, whole runs, many chunks from one request |
| `Merging`, `ListSort` | bottom-up merge sort on sequences, and on linked headers |
| `Blocks`, `Choices`, `Layouts` | rmalloc's blocks as values: what a round of compaction decides and does, and what each call does |
| `Ranges`, `Moves`, `Rounds`, `Survival`, `Compaction`, `Slots`, `HandleHeap`, `HandleClient` | rmalloc itself, and whole runs of it |
| `Lru`, `CacheSim` | the ideal list and one set, and the caches |
| `Buddy`, `Adler`, `MappedChunks` | one algorithm each |

## Model

| member | source | states |
|---|---|---|
| Client.Run | src/steve/dlmalloc.c:4553-5237 | any sequence of malloc, free, realloc, memalign, bulk free, trim and stores, with any answers of the system, shows the client what a heap of separate blocks would, and serves it by the policy of the source: every call changes the view and what is free as an abstract step says. A request is refused exactly if neither the bins, the victim, the top nor the system can serve it; it gets a least fit from the bins, else the victim, else the top, and memory is obtained only where all three fail; a block that is to be no larger stays where it is; freeing gives memory back exactly when the threshold is passed and the system takes it. In every view the blocks are 16-byte aligned and do not overlap; all words stored read back; the whole invariant holds, and the footprint is at all times within a non-zero limit |
| Client.Client.Serve | src/steve/dlmalloc.c:4553-5237 | one call of such a run is one abstract step, on what the client sees and on what is free, and keeps what a run keeps |
| Client.HeldApart | src/steve/dlmalloc.c:3262-3307 | at any point of a run the client's blocks are aligned and pairwise disjoint |
| Dlmalloc.MallocState.Malloc | src/steve/dlmalloc.c:4553-4687 | keeps the whole heap invariant; the result is null exactly if no binned chunk fits, the victim and the top are too small and the system does not serve the request; otherwise it is the chunk that the policy chooses: a least fit among the binned chunks, the first of its size in its bin, unless the victim fits and is as tight (for a small request, unless the binned one fits exactly), else the victim, else the lower end of the top, and only where all fail the start of memory just obtained, or of the top it extends; what becomes of the victim, the segments and the footprint is as stated by `Service.Placed`; every other chunk handed out is unchanged down to its words |
| Dlmalloc.MallocState.MallocSmall | src/steve/dlmalloc.c:4584-4636 | the bins serve a small request with the least chunk that fits, the first of its size, be it in a small bin or a tree, and pass it over only if the victim fits and no chunk has exactly the size, or nothing binned fits; what is left over is the new victim |
| Dlmalloc.MallocState.Free | src/steve/dlmalloc.c:4691-4798 | exactly the named chunk is no longer handed out, all others keep their words, null changes nothing, and the invariant, coalescing included, holds again; memory is given back exactly if the top has grown past the threshold, by more than a page can be spared and the system takes it, and then all whole pages that can be spared |
| Dlmalloc.MallocState.DisposeChunk | src/steve/dlmalloc.c:4372-4438 | the chunk merges with the free space on both sides, the chunks in use are those from before without it, and the victim keeps its role in what it merges into, unless that is the top |
| Dlmalloc.MallocState.TmallocLarge | src/steve/dlmalloc.c:4443-4511 | takes a least-size tree chunk of sufficient size over all tree bins, the one of its size that is a node of the tree, strictly smaller than a victim that would do; declines only if no tree chunk suffices or none is tighter than the victim |
| Dlmalloc.MallocState.TmallocSmall | src/steve/dlmalloc.c:4514-4547 | takes the least tree chunk overall; what is left over becomes the designated victim, unless it is smaller than a chunk and stays part of the block |
| Dlmalloc.MallocState.ScanBin | src/steve/dlmalloc.c:4449-4471 | the steered scan of a bin ends, after at most as many steps as the bin has size bits and one, with a candidate and a subtree that holds every better fit of the bin |
| Dlmalloc.MallocState.WalkLeftmost | src/steve/dlmalloc.c:4482-4489 | the leftmost walk of that subtree leaves no better fit, in at most its height of steps |
| Dlmalloc.MallocState.RootAbove | src/steve/dlmalloc.c:4472-4480 | the bit tricks on the tree map lead to the lowest non-empty bin above, and to none only if no tree chunk suffices |
| Search.BestBelow | src/steve/dlmalloc.c:4491-4492 | the unsigned comparison with `dvsize - nb` decides correctly between tree chunk and victim, also when that difference wraps around |
| Dlmalloc.MallocState.InsertLargeChunk | src/steve/dlmalloc.c:3657-3694 | the trie of its bin is the one with the chunk inserted, all bins are well formed again in the store and hold what they held and the new chunk; only the insides of binned chunks were written |
| Dlmalloc.MallocState.DescendToSize | src/steve/dlmalloc.c:3671-3690 | the descent follows the size bits to the node of that size or the empty pointer where it belongs, in no more steps than the bin has size bits |
| Dlmalloc.MallocState.UnlinkLargeChunk | src/steve/dlmalloc.c:3725-3794 | the trie of its bin is the one without the chunk, and all bins are well formed again, in each case: ring member, leader of a ring, leaf, inner node replaced by its rightmost leaf, root |
| Dlmalloc.MallocState.RightmostLeaf | src/steve/dlmalloc.c:3740-3747 | the walk ends at a leaf of the subtree, within the bin's size bits, and names the pointer that leads there |
| Dlmalloc.MallocState.RelinkParent | src/steve/dlmalloc.c:3755-3793 | once the replacement stands ready, relinking parent and children makes the bins well formed without the chunk and clears the mark of a bin left empty |
| Dlmalloc.MallocState.InsertSmallChunk | src/steve/dlmalloc.c:3579-3595 | the chunk comes first in the ring of its size, whose old links are ignored if the bin was unmarked; nothing else changes |
| Dlmalloc.MallocState.UnlinkSmallChunk | src/steve/dlmalloc.c:3598-3621 | the chunk leaves its ring; the mark goes with the last chunk |
| Dlmalloc.MallocState.TryReallocChunk | src/steve/dlmalloc.c:4820-4897 | succeeds exactly if the request fits the old chunk or the chunk together with the free one above it (of the top, something must be left); then the chunk comes to hold the request with less than a minimum chunk to spare and keeps its words as far as both sizes reach, what it lacks comes from the top, the victim or the chunk above, and what it sheds is merged; refusal changes nothing at all |
| Dlmalloc.MallocState.Realloc | src/steve/dlmalloc.c:5194-5237 | null exactly if the request is too large, or can neither be met in place nor served as a new one; met in place whenever it can be, and else placed where a new request would be; on every path the result holds the old words up to the lesser of old size and request, no other chunk handed out changes, and the old block is given up exactly when another takes its place, so that on failure it stays as it was |
| Dlmalloc.MallocState.InternalMemalign | src/steve/dlmalloc.c:4899-4971 | the result is a multiple of the effective alignment, which is the one asked for when that is a power of two from 32 up: the first one that leaves no leader or a whole chunk below, in the chunk that a request of the padded size would get; its size is between the padded request and a minimum chunk more; leader and trailer are back in the heap; null exactly if the padded over-allocation is too large or cannot be served |
| Requests.DoublingEnds | src/steve/dlmalloc.c:4899-4909 | the loop that doubles the alignment in a word reaches the one asked for exactly if that is at most `2^63` |
| Dlmalloc.MallocState.GiveBackLeader | src/steve/dlmalloc.c:4921-4949 | an aligned spot with a leader of at least a minimum chunk always exists in the over-allocation |
| Dlmalloc.MallocState.SysAlloc | src/steve/dlmalloc.c:4046-4247 | whatever the system answers, keeps every segment tiled and the footprint equal to their sum and under a non-zero limit; null exactly if the size wraps around, the limit refuses or no memory is obtained, and then nothing changes but that a failed contiguous call is the last one; otherwise the memory obtained extends the most recent segment upward, or another downward, or is a new one, the request is served from its start or from the top it extends, and the victim changes only by memory right below it |
| Dlmalloc.MallocState.AcquireSpace | src/steve/dlmalloc.c:4070-4187 | memory is obtained exactly if the contiguous call or the other is answered with it, coping with a partial answer; it is said which memory, and what is obtained, with the top it adjoins, is enough for the request and within the limit |
| Dlmalloc.MallocState.ServeFromNew | src/steve/dlmalloc.c:4189-4240 | once memory has been obtained the request is always served, at the place and with the segments, peak and threshold that go with that memory |
| Dlmalloc.MallocState.PrependAlloc | src/steve/dlmalloc.c:3949-3988 | memory below a segment becomes part of it, and what is left after the new chunk joins the top, the victim or a free first chunk, or is binned |
| Dlmalloc.MallocState.AddSegment | src/steve/dlmalloc.c:3991-4041 | the new segment holds the new top; the old one ends with a record and fenceposts, and what was left of the old top is binned |
| Dlmalloc.MallocState.InsertFenceposts | src/steve/dlmalloc.c:4019-4029 | exactly the head words above the record up to the segment's end become fenceposts |
| Dlmalloc.MallocState.SysTrim | src/steve/dlmalloc.c:4304-4367 | trims exactly if the top is larger than the pad by more than a page and the system lets it; then all whole pages beyond the pad are given back, so that at most a page more than the pad is left, and more than the pad; top, footprint and segment shrink alike; a trim in vain of a top past the threshold is the last; no chunk handed out changes |
| System.WrapTest | src/steve/dlmalloc.c:4061-4063 | the test `asize <= nb` catches exactly the requests whose rounding wraps around |
| Dlmalloc.BulkAsEach | src/steve/dlmalloc.c:5106-5146 | on two equal heaps, the bulk loop on one and freeing each entry on the other end with the same heap, chunk by chunk |
| Dlmalloc.MallocState.BulkFree | src/steve/dlmalloc.c:5106-5146 | exactly the chunks named are no longer handed out, all entries are null, none is left unfreed, all others keep their words, and the top is trimmed once, at the end, under the same conditions as when freeing |
| Dlmalloc.MallocState.FreeAll | src/steve/dlmalloc.c:5111-5140 | the loop that fuses neighbours named one after the other removes from the chunks in use exactly those named |
| Tilings.CoalescedIsUnique | src/steve/dlmalloc.c:3273-3293 | two fully coalesced tilings of the same segments with the same chunks in use are equal, wherever their tops were thought to be |
| Tilings.SettledIsUnique | src/steve/dlmalloc.c:3464-3490 | hence so are two valid heaps, whatever the order of frees that led to them |
| Independent.Ialloc | src/steve/dlmalloc.c:4980-5099 | null exactly if the aggregate cannot be served; otherwise it is placed as one request of its size, the elements lie side by side with the padded sizes asked for, the last taking what is over, zero throughout if they are to be cleared, the array holds their addresses, in the caller's array or in a chunk of its own after them, and no chunk handed out before changes; for no elements, the array given or an empty one |
| Tries.InsertIsTrie | src/steve/dlmalloc.c:3657-3694 | insertion keeps the trie property, one node per size, and adds exactly the new size |
| Tries.RemoveIsTrie | src/steve/dlmalloc.c:3725-3794 | removal keeps the trie property also where an inner node gives way to its rightmost leaf, whose size is another |
| Tries.RemoveContents | src/steve/dlmalloc.c:3725-3794 | removal takes out exactly the one chunk |
| Tries.HeightBound | src/steve/dlmalloc.c:2914-2917 | a trie over `2^n` sizes is no deeper than `n + 1` |
| Tries.LeastSizeIsLeast | src/steve/dlmalloc.c:2422 | the walk that goes left where it can passes the least size of the trie |
| TrieStore.DropRightmostStored | src/steve/dlmalloc.c:3743-3749 | clearing one child word takes the rightmost leaf, and nothing else, out of the stored trie |
| TrieStore.AdoptStored | src/steve/dlmalloc.c:3769-3792 | the parent and child words written hand a node's place and subtrees to its replacement |
| TreeIndex.TreeIndexRange | src/steve/dlmalloc.c:2890-2906 | the four-step normalisation computes the bin whose range of sizes holds the size |
| TreeIndex.SteeringStep | src/steve/dlmalloc.c:3672-3676 | the top bit of the shifted size tells the half of the interval, and shifting on steers in that half |
| BinMaps.LeastIndexIsLeast | src/steve/dlmalloc.c:2938-2987 | `compute_bit2idx(least_bit(x))` is the index of the lowest bit set |
| BinMaps.HigherBitsKeep | src/steve/dlmalloc.c:2941-2942 | masking with `left_bits(idx2bit(i))` keeps exactly the bins above `i` |
| BinMaps.AboveBin | src/steve/dlmalloc.c:4609-4611 | so does the shifted form used for the small bins |
| Requests.RequestFits | src/steve/dlmalloc.c:2236-2245 | the padded size is 16-aligned, covers request and overhead, bounds the waste and separates small from large requests |
| ListSort.Sort | src/jeff/listsort.c:80-181 | relinks the list in place into a null-terminated one without repetitions that has the same headers, sorted by address with unused headers last, stably, in the least number of passes that doubling needs |
| ListSort.OnePass | src/jeff/listsort.c:95-168 | one run of the outer loop links the list as a pass of merges on sequences would, and counts one merge or none exactly when that sorted everything |
| ListSort.Compare | src/jeff/listsort.c:45-60 | the comparison orders by address, with null above all |
| Merging.PassSorts | src/jeff/listsort.c:95-168 | a pass over sorted runs leaves sorted runs of twice the length |
| Merging.PassesSort | src/jeff/listsort.c:80-181 | all passes together sort stably and keep the elements |
| Merging.PassCountIsLog | src/jeff/listsort.c:80-181 | their number is the least that reaches the length by doubling, and at least one |
| HandleHeap.Rmalloc.Compact | src/jeff/compact.c:1287-1650 | ends on every heap; its rounds move what `Choices.Choose` says and no more, until there is nothing left to do, or until the time is up and not before; the free blocks at the end are given up and the others listed anew; each block in use keeps its bytes and kind and does not shrink, a locked one stays where it is and as large; without a limit no unlocked block is left right above a free one, locks or none; with no lock nothing free is left, order and sizes are kept, and the heap ends after the last block |
| HandleClient.Run | src/jeff/compact.c:1227-1650 | any sequence of malloc, free, lock, weak lock, unlock, stores into locked blocks and compactions, from an empty heap on, does to the blocks and slots of the heap, and to the contents, kinds and locked addresses that the client knows of its handles, what an abstract step says; a compaction does nothing to the latter; at the end each handle in use leads to a block of its own that holds those contents, where it was said to be if it is locked |
| HandleClient.HandleClient.Serve | src/jeff/compact.c:1227-1650 | one call of such a run is one step, and a request is met exactly if there is a header and the top has room or the first fit of the slots is large enough to be cut |
| Compaction.Compact | src/jeff/compact.c:1308-1575 | the main loop alone, by the measure of unlocked blocks after the root and then of blocks: the blocks are those after so many rounds, and it stops only where a round finds nothing to do or after the rounds the limit allows |
| Compaction.Round | src/jeff/compact.c:1326-1565 | one turn of it, adjacent or not: the blocks are those of the next round, the list stays sorted without gaps, blocks in use survive, and the measure falls unless the loop ends |
| Ranges.Survey | src/jeff/compact.c:1330-1383 | the first half of the loop body decides on the blocks as `Choices.Choose` says: to stop, to look again from a later block, or which blocks to slide where |
| Choices.StopsIff | src/jeff/compact.c:1334-1370 | a round ends the compaction if and only if no block in use lies above the first run of free blocks, or a locked one follows it and above that there is neither another free block nor an unlocked one that fits |
| Choices.MovesIff | src/jeff/compact.c:981-1080 | a round moves something if and only if an unlocked block follows the first run of free blocks, or some unlocked block is no larger than the run and no free block lies between it and the first unlocked one |
| Choices.FitMoves | src/jeff/compact.c:1384-1528 | the first unlocked block that fits, with only locked or larger ones between it and the run, is moved to the start of the run, and nothing below changes |
| Choices.RoundCloses | src/jeff/compact.c:1326-1565 | a round leaves no unlocked block right above a free one below its new start |
| Choices.EndCloses | src/jeff/compact.c:1326-1565 | so where there is nothing left to do, there is none anywhere |
| Rounds.SlideOver | src/jeff/compact.c:1384-1561 | moving the unlocked blocks and relinking gives exactly the blocks and bytes that the round is meant to give, one new header at most |
| Rounds.RoundSurvives | src/jeff/compact.c:1389-1528 | every block outside the free run has its kind, its bytes and at least its size after the move |
| Survival.RoundKeeps | src/jeff/compact.c:1326-1565 | the round keeps the set of handles in use, and each survives |
| Survival.RoundUsesUp | src/jeff/compact.c:1326-1565 | fewer unlocked blocks lie after the new root than after the old |
| Survival.RoundOrder | src/jeff/compact.c:1326-1565 | an adjacent round keeps the order and sizes of the blocks in use |
| HandleHeap.Rmalloc.Malloc | src/jeff/compact.c:313-381 | for requests up to the heap size: no abort is reached; a block is handed out exactly if there is a header and either the top has room or the first fit of the slots is at least 16 bytes larger than the request; blocks, slots and headers are afterwards as `Layouts.AfterMalloc` says: a new block on top, or the upper part of the first fit, whose lower part is listed in its place; every other block stays where it is; a first fit that is looked at is no longer listed, whether or not it was used |
| HandleHeap.Rmalloc.FreeblockFind | src/jeff/compact.c:715-928 | finds the first fit and takes it out of its slot; answers it, cut to exactly the size and with the rest listed first of its size, if and only if it is at least 16 bytes larger than the request and a header can be had; otherwise null |
| HandleHeap.ExactFitDropped | src/jeff/compact.c:886-891 | a client that has taken 800 of 1000 bytes and given them back is refused 800 bytes, while the free block is in no slot any more |
| HandleHeap.Rmalloc.Release | src/jeff/compact.c:388-582 | the block is free and listed once, first in the slot of its size; a free one is left alone; nothing else in the heap changes |
| HandleHeap.Rmalloc.Lock | src/jeff/compact.c:1265-1271 | the handle's block becomes locked and its address is answered; handles and the heap stay as they are |
| HandleHeap.Rmalloc.WeakLock | src/jeff/compact.c:1273-1279 | likewise, weakly locked |
| HandleHeap.Rmalloc.Unlock | src/jeff/compact.c:1281-1285 | the handle's block may be moved again |
| HandleHeap.HandlesApart | src/jeff/compact.c:313-582 | two handles lead to blocks of the heap that do not overlap |
| Slots.TakeFit | src/jeff/compact.c:715-880 | the search over the slots takes out just the first fit: the first block of the lowest slot above that of the size that lists any, else the first large enough in the slot of the size; there is none exactly if no listed block is large enough |
| Slots.FirstFitListed | src/jeff/compact.c:715-880 | the first fit is a listed block of at least the size, and there is one exactly if some listed block is |
| Slots.Rebuild | src/jeff/compact.c:1106-1162 | afterwards a block is listed exactly if it is free, each slot in the reverse of the order in which the list has them |
| Layouts.RelistedFalls | src/jeff/compact.c:1106-1162 | after a compaction, every slot lists free blocks of its sizes, from the highest address down |
| MappedChunks.MmapState.MmapAlloc | papers/dlmalloc.c:3117-3141 | the new chunk's words describe exactly its system region; the footprint grows by it; it fails exactly on refusal or when the size wraps around, and then changes nothing; no word outside the region is written |
| MappedChunks.MmapState.Free | papers/dlmalloc.c:4178-4186 | what is unmapped is exactly the region, and then the footprint falls by it |
| MappedChunks.MmapState.AlignChunk | papers/dlmalloc.c:3831-3860 | the chunk moves up to an aligned place in the same region with room for the request left, the first that leaves a least chunk below, and its words say so; no other word changes |
| MappedChunks.MmapState.MmapResize | papers/dlmalloc.c:3144-3176 | a chunk that is not small stays where it is exactly if it has room for the request and at most two granules more; null exactly for a small request or where a chunk that may not stay is refused by the system; a moved one keeps its offset and, if well mapped, its words and all words outside both regions, the footprint changes by the difference of the regions, and all chunks are again well mapped if and only if the offset fits in the new region |
| MappedChunks.ResizedOutside | papers/dlmalloc.c:3144-3176 | a block of 200000 bytes aligned to a megabyte and resized to 300000 bytes ends up behind its region |
| CacheSim.SetRefIsMiss | valgrind-3.9.0/cachegrind/cg_sim.c:87-122 | moves the tag to the front of its set, evicting the last on a miss; misses exactly if the tag was not there; touches no other set |
| Lru.HitIff | valgrind-3.9.0/cachegrind/cg_sim.c:87-122 | after any trace a tag is in a set if and only if fewer than `assoc` different others were referenced since it last was, the zeros at the start counting as one reference to tag 0 |
| Lru.Inclusion | valgrind-3.9.0/cachegrind/cg_sim.c:87-122 | a set holds a prefix of what it would hold with more ways |
| CacheSim.Cache.Reference | valgrind-3.9.0/cachegrind/cg_sim.c:124-163 | the same of the tag array of a whole cache: a reference hits exactly by that rule within its set |
| CacheSim.Cache.RefIsMiss | valgrind-3.9.0/cachegrind/cg_sim.c:124-163 | an access misses if one of its blocks does, both being referenced when it straddles two lines, and panics exactly if it covers more than two |
| CacheSim.MoreWays | valgrind-3.9.0/cachegrind/cg_sim.c:124-163 | more ways never make more accesses of any trace miss, straddling ones included |
| CacheSim.FewerWays | valgrind-3.9.0/cachegrind/cg_sim.c:54-163 | of two caches with equal sets that have seen the same accesses, the smaller holds a prefix of each set of the larger and has missed at least as often |
| CacheSim.I1DorefGen | valgrind-3.9.0/cachegrind/cg_sim.c:177-187 | the last cache sees exactly the accesses that miss in the first, and both counters count exactly the misses |
| CacheSim.I1DorefNoX | valgrind-3.9.0/cachegrind/cg_sim.c:189-203 | on a fetch from one line the shortcut does what the general routine does |
| CacheSim.Cache.constructor | valgrind-3.9.0/cachegrind/cg_sim.c:54-80 | a new cache holds what the empty trace leaves |
| Buddy.Splitter.Request | src/buddy/buddy.c:302-382 | finds a chunk with a free half at exactly the level asked for (the root, if that is larger) if and only if some level at least as large has a free half; nothing is split if the level asked for has one; else the first free half of the smallest larger level is, and just one half on each level in between; otherwise nothing changes; no mark of use changes |
| Buddy.SplitDownIs | src/buddy/buddy.c:334-374 | splitting the first free half of a level, and what comes of it, down to a level with none in between, splits one half on each level and adds one item to each at the same address, of which the last has both halves free |
| Buddy.Splitter.Split | src/buddy/buddy.c:264-300 | splitting a free half keeps the partition of the heap into aligned halves |
| Buddy.SplitPartition | src/buddy/buddy.c:264-300 | every address is covered by exactly one unsplit half before and after a split |
| Buddy.Splitter.Mark | src/buddy/buddy.c:61-67 | marking halves used or free keeps the partition |
| Buddy.Splitter.constructor | src/buddy/buddy.c:384-436 | for every size: the root covers what the chunks say is the heap; what was obtained is the least power of two; the two are the same if and only if more than 2048 and at most `2^31` bytes were asked for, and otherwise the root covers more |
| Buddy.RequestAboveTop | src/buddy/buddy.c:302-382 | a request for chunks larger than the heap is met exactly if the root has a free half, and then with a chunk of the size of the heap |
| Buddy.LargerThanHeap | src/buddy/buddy.c:302-382 | so a new splitter of any size, asked for twice its heap, finds the root chunk for it |
| Buddy.Up2 | src/buddy/buddy.c:75-87 | smearing the highest bit gives the least power of two that is not less, or 0 for 0 and above `2^31` |
| Adler.Adler32 | valgrind-3.9.0/auxprogs/valgrind-di-server.c:229-346 | for every buffer and every reduced state no addition passes 32 bits, and the result is the checksum reduced after every byte |
| Adler.ChecksumIsRfc1950 | valgrind-3.9.0/auxprogs/valgrind-di-server.c:229-346 | from state 1 that checksum is the pair of sums in section 2.2 of RFC 1950 |
| Adler.ChecksumConcat | valgrind-3.9.0/auxprogs/valgrind-di-server.c:229-346 | continuing after `x` with `y` is the checksum of both |
| Adler.RunIsFold | valgrind-3.9.0/auxprogs/valgrind-di-server.c:307-332 | reducing once at the end of a block is reducing after every byte |
| Adler.NmaxIsMost | valgrind-3.9.0/auxprogs/valgrind-di-server.c:232-235 | blocks of `n` bytes never take a sum past 32 bits, from any reduced sums, if and only if `n` is at most `NMAX` |
| Adler.Mod | valgrind-3.9.0/auxprogs/valgrind-di-server.c:244-263 | the shifted subtractions compute the remainder, for every 32-bit number |
| Adler.Mod4 | valgrind-3.9.0/auxprogs/valgrind-di-server.c:264-271 | so do the shorter ones, for the numbers that occur there |

## Left out

dlmalloc 2.8.6:

- The state record and the bin headers lie at fixed addresses below the heap. The list of segments is a sequence of
  the record, not a list in memory; its records in the heap are chunks in use whose contents are not read.
- The store is by words: a client stores whole words, and `memcpy` copies the words that the bytes reach into.
- Independent stores that no load separates are at places made in another order than in the source.
- The answers of `MORECORE` and the break are parameters; `MORECORE` extends by what is asked or fails, and memory
  that does not adjoin the most recent segment ends on a 16-byte boundary. Page size and granularity are 4096.
- `footprint` and `maxFootprint` do not wrap around.
- `dlfree` calls `dispose_chunk` where the source repeats its text. `release_unused_segments` and its counter do
  nothing in a build without `mmap`.
- The alignment tests on bit masks are remainders.
- Dlmalloc.MallocState.FreeEach: frees each entry by the part of `dlfree` before its trim, because a trim of the top
  moves a segment's end; the bulk loop is compared with it before its own trim.
- Independent.Ialloc: sizes and products do not overflow, and the head of an element is written when it is split off.
  `dlcalloc` is not modelled.
- Dlmalloc.MallocState.InternalMemalign: alignments are at most `2^63`, because above that the program does not return.
- Mspaces, `mallopt`, statistics, inspection, `mmap`, footers, locks and the x86 form of `compute_tree_index`.

rmalloc:

- HandleHeap.Rmalloc.Malloc: requests are at most the heap size; a larger one would name a slot past the last.
- HandleHeap.Rmalloc.Compact: the clock is a number of rounds; how many unused headers lie at the bottom of their area
  at the end is a parameter, and the header for a left-over block is taken even where the header area has no room for
  it.
- Headers are objects, and their area is its lower bound only. Which unused header is used again, and if one can be,
  are parameters, since unused headers get lost from their list in the source; no claim is made that none is lost.
- The root header before its first use is null. Addresses are offsets from the start of the heap. The records of free
  blocks are the slots' sequences, not bytes in the blocks. Statistics and debug output.

Others:

- MappedChunks.MmapState.MmapResize: promises a well-mapped chunk only where the offset fits, because otherwise there
  is none. The answers of `mmap` and `mremap` are parameters, and the granularity is at most 4 GB.
- CacheSim.Cache.RefIsMiss: shifts and masks by powers of two are quotients and remainders; counters do not wrap
  around. The data cache is the same routine as the instruction cache with other arguments. Branch prediction and the
  cost centres.
- Buddy.Splitter.constructor: the memory for the heap and the items is obtained.
- Buddy.Splitter.Request: levels and items are indices into sequences rather than pointers, the level asked for is not
  negative, and `pow` is a power of integers. `merge_nibbles`, `balloc`, `bfree` and the destroy functions.
- Adler.Adler32: shifts and masks are arithmetic, and the length given is the buffer's.
- Everything else under `valgrind-3.9.0`, the plots, the scripts and the documentation.
