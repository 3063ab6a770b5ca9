# A verified model of the dlmalloc heap and of the plugin around it

This project models, in Dafny, the memory allocator that the plugin is built with (dlmalloc over an sbrk for
WebAssembly linear memory), the runtime helpers whose arithmetic matters, and the configuration and session
state of the plugin, and proves what they promise.

The allocator is modelled word by word. `Memory` is linear memory as 8-byte granules; a `MallocState` object has the
fields of `struct malloc_state` and that memory, and every operation writes the words the C code writes, in the same
order and under the same branches. Beside them stands a ghost view: the layout (the chunks by address), the free
lists (chunks by size, oldest first, each with the time it was listed) and the tries (which size sits at which bit
path). The invariant says how words represent the view. It covers what the file's own debug checks demand:

* chunks tile the one segment from its aligned base to top, whose end is 40 bytes short of the heap end, every
  PINUSE bit and footer agrees with the neighbour, and no two free chunks touch;
* every free chunk is top, is dv, or is listed once, under its own size, in the ring its links form, and the map
  bits are set exactly for the bins that are not empty (links of an unmarked small bin mean nothing);
* each tree holds one node per size on the path of that size's bits, with right child and parent words, and the
  chunks of one size form a ring whose oldest member is the node;
* footprint is the segment's size, and the segment ends where `wasm_heap_end` is.

The main results, each for all inputs and all states that satisfy the invariant:

* every public call keeps the invariant and changes no payload byte of a live block it is not about;
* `Runs.Run`: for any client, any number of calls and any pattern of `memory.grow` refusals, the allocator behaves as a
  map from pointers to byte strings, with writes of the client among the calls; and every call does to the allocator
  exactly what `Runs.Transition` says: its answer, and the layout, the order of every free list, dv, top, segment,
  footprint and heap end afterwards are functions of those before, of the request and of what the host answers;
* what those functions mean is proved of them: where a freed chunk goes (`Policies.FreedPlace`, `FreedQueue`), where the
  rest of a granted one goes (`RestPlace`, `RestQueue`), how the first request finds the linker's heap
  (`Provisions.FirstRequest`, `FirstBlock`), by how much the heap grows (`AskLeast`, `GrowthExact`), and why a request
  goes unmet (`UnmetIsDenied`);
* `Provisions.RequestMet`: in any run a request is met as long as all that was asked for fits below the last page and
  the footprint limit, and the memory was there from the start or the host does not refuse it;
* chunks of one large size are served first in, first out: in every state each tree holds the oldest chunk of each of
  its sizes, and no call, of any kind, changes the order of chunks that stay listed;
* the documented policy determines where a request is served (large ones by the best fit over all trees, small ones by
  an exact fit, dv, or the smallest chunk that fits; among chunks of one size the oldest of a tree and the youngest of a
  small bin), and a request that is not too large fails only if no free chunk could serve it and more memory is
  forbidden or refused;
* every check of `do_check_malloc_state`, its walks through rings, trees and chains included, passes in every state;
* once there is a segment, growth always extends it: the code for partial failures and for further segments is dead;
* the layout is a function of the live allocations, so neither the order of frees nor bulk freeing leaves a trace;
* realloc keeps contents on every path, memalign's over-allocation suffices, calloc's overflow test is exact, ialloc
  partitions one chunk into chunks that can each be freed, and enters their addresses in the array and nowhere else;
* `umul64wide` and `__multi3` are exact; the plugin's registry is a finite map whose overrides reach exactly one
  formatting call; options, style, validity and diagnostics of a configuration are characterised in full, and a
  formatting call rewrites with exactly that style (`Styles.ResolutionComesTo`, `Sessions.Formatting`).

The build's configuration is fixed: 32-bit `size_t`, alignment 8, granularity 4096, no mmap, no locks, no footers, no
trimming (src/wasm_allocator.c:1-13, support/allocators/dlmalloc/malloc.c:1594).

## Layout of the project

Bottom up: `Memory`, `Layout`s, `Tags`, `Payloads` (words, tilings, head and foot words, who owns which word);
`Powers`, `Rings`, `Bins`, `Ages`, `BinMaps`, `SmallBins`; `TreeIndices`, `Positions`, `Tries`, `Depths`,
`TreeBins`, `PortableIndex`; `Heaps`, `HeapSteps`, `HeapBins` (the whole invariant and the steps that keep it);
`MallocState` (the class and its bin operations); `Policies` (what each operation makes of layout, lists, dv and top);
`Freeing`, `Searching`, `Allocating`; `Growing`, `Morecore`, `Machines` (growth, and what dlmalloc makes of the whole
allocator), `SysAlloc`, `Malloc`;
`Bytes`, `UserWrites`, `Calloc`; `Reallocating`, `Realloc`; `Alignments`, `Memalign`; `Pieces`, `Ialloc`; `Canonical`,
`BulkFree`; `Fifo`; `BinFind`, `Checks`, `BinChecks`; `Clients`, `Independent`, `Runs`, `Provisions`. Apart from these:
`WideMultiply`, and `Styles`, `Sessions`, `Plugin`.

Consistency checks of the C code (`RTCHECK`, `assert`) appear as `assert` statements: they never fail.

## Where code and comments differ

The model follows the code.

* The comment on tree depth gives "6 up to 21" steps (malloc.c:2394-2397). The last bin branches from bit 31 and allows
  30 nodes on a path: `Depths.DepthBound` and `Depths.DepthAttained`.
* `dlmalloc_set_footprint_limit(0)` computes a minimal size and then overwrites it with 0, which means no limit
  (malloc.c:5438-5447): `Runs.SetLimit`.
* `internal_memalign` rounds an alignment up to a power of two in a loop that does not end for alignments above 2^31
  that are not powers of two (malloc.c:4925-4929): `Alignments.RoundingEnds` and `RoundingNeverEnds`. The calls therefore
  require an alignment of at most 2^31.
* A memory of 65536 pages has a byte size that wraps to 0, and the page count of an end in the last page wraps to 0,
  so `wasm_morecore` refuses both although WebAssembly allows them (wasm_allocator.c:37-44):
  `LinearMemory.WasmMorecore`.
* `ialloc` adds up sizes in 32 bits without a check, so it asks for too little when they do not fit
  (malloc.c:5028-5048): `Iallocs.AggregateExact` and `Iallocs.AggregateWraps`. The calls therefore require that they fit.
* A plugin configuration can be valid and still have a diagnostic, namely when its only settings are global ones that
  do not parse (dprint_plugin.cpp:297-300): `Styles.WhenValid`.
* `parse_register_payload` notes "Missing plugin config object", but `register_config` drops that list of diagnostics
  when parsing succeeds (dprint_plugin.cpp:343-369, 517-534): `Sessions.MissingPluginUnreported`.

## Model

| member | source | states |
|---|---|---|
| `Layouts.OneTiled` | support/allocators/dlmalloc/malloc.c:4382-4448 | Merging neighbouring chunks into one keeps the boundary-tag tiling: aligned sizes, no overlap, each PINUSE bit equal to the predecessor's use, no two free neighbours |
| `Layouts.TwoTiled` | support/allocators/dlmalloc/malloc.c:4842-4919 | Rebuilding a stretch as an in-use chunk and a second one keeps the tiling |
| `Layouts.Predecessor` | support/allocators/dlmalloc/malloc.c:2057-2190 | Walking from the first chunk reaches every boundary, so each chunk but the first has a predecessor |
| `Tags.ReadHead` | support/allocators/dlmalloc/malloc.c:2246-2285 | The size and both flags of any chunk can be read back from its head word |
| `Tags.ReadFoot` | support/allocators/dlmalloc/malloc.c:2281-2289 | A clear PINUSE bit makes prev_foot lead to the free chunk in front |
| `Tags.OneFree` | support/allocators/dlmalloc/malloc.c:2291-2297 | set_free_with_pinuse and set_size_and_pinuse_of_free_chunk write exactly the tags of the merged layout, and change no other word |
| `Tags.TwoInuse` | support/allocators/dlmalloc/malloc.c:3055-3071 | Two set_inuse in either order tag both pieces rightly, whatever the words between them held |
| `Canonical.LayoutIsCanonical` | support/allocators/dlmalloc/malloc.c:4382-4448 | Two tilings of one segment with the same live allocations are equal, head bits included |
| `Payloads.LinkWritesKeep` | support/allocators/dlmalloc/malloc.c:2225-2227 | Writing links of free chunks disturbs neither tags nor any live payload |
| `Payloads.TagWritesQuiet` | support/allocators/dlmalloc/malloc.c:2291-2297 | Writing tags of a stretch disturbs no payload outside it |
| `UserWrites.CoreUserWrites` | support/allocators/dlmalloc/malloc.c:2057-2190 | A program that writes only inside live payloads, up to and including the next chunk's prev_foot, breaks neither the heap nor another payload |
| `Heaps.SmallUnderLarge` | support/allocators/dlmalloc/malloc.c:3575-3635 | Working on tree bins leaves every small bin intact |
| `Heaps.LargeUnderSmall` | support/allocators/dlmalloc/malloc.c:3653-3790 | Working on a small bin leaves every tree bin intact |
| `HeapSteps.CoreOneFree` | support/allocators/dlmalloc/malloc.c:4382-4448 | Turning [a, e) into one free chunk keeps the whole heap invariant, and every payload outside |
| `HeapSteps.CoreTwoTop` | support/allocators/dlmalloc/malloc.c:4669-4681 | Cutting the front off top keeps the whole heap invariant |
| `HeapSteps.CoreTwoGrown` | support/allocators/dlmalloc/malloc.c:4874-4885 | Growing an in-use chunk into the free chunk behind it keeps the whole heap invariant |
| `TreeIndices.IndexRange` | support/allocators/dlmalloc/malloc.c:2842-2917 | Bin i holds exactly the sizes from minsize(i) up to minsize(i + 1), both ways, for every size of at least 256 |
| `TreeIndices.IndexMonotone` | support/allocators/dlmalloc/malloc.c:2842-2854 | The tree index is monotone in the size |
| `TreeIndices.RootPrefixOf` | support/allocators/dlmalloc/malloc.c:2906-2912 | All sizes of a bin share the bits above the one its root branches on |
| `TreeIndices.KeyBit` | support/allocators/dlmalloc/malloc.c:2910-2912 | The sign bit of the key shifted left once per level is the bit of the size that the level branches on |
| `PortableIndex.PortableIndexOfSize` | support/allocators/dlmalloc/malloc.c:2842-2903 | For every 32-bit size the portable shift-and-mask form of compute_tree_index yields the bin index of the clz form |
| `PortableIndex.PortableBit2IdxAgrees` | support/allocators/dlmalloc/malloc.c:2946-2984 | For the least bit of every map that is not empty the portable form of compute_bit2idx yields what ctz does |
| `BinMaps.MarkBin` | support/allocators/dlmalloc/malloc.c:2922-2931 | Marking a bin marks it and no other |
| `BinMaps.LowestBin` | support/allocators/dlmalloc/malloc.c:2934-2950 | least_bit and ctz select the lowest marked bin |
| `BinMaps.BinsLeftOf` | support/allocators/dlmalloc/malloc.c:4631-4633 | left_bits of an index bit, and the shifted small map, leave exactly the marked bins above the index |
| `BinMaps.TwoBins` | support/allocators/dlmalloc/malloc.c:4606-4612 | The two low bits of the shifted small map tell whether the exact bin or the next is marked, and the branchless step picks it |
| `Rings.RingUnlink` | support/allocators/dlmalloc/malloc.c:3594-3616 | Unlinking an element of a circular list removes exactly that element |
| `MallocStates.MallocState.InsertSmallChunk` | support/allocators/dlmalloc/malloc.c:3575-3590 | The chunk is listed last under its size, nothing else moves, stale header links of an unmarked bin do no harm |
| `MallocStates.MallocState.UnlinkSmallChunk` | support/allocators/dlmalloc/malloc.c:3594-3616 | Exactly the chunk is unlisted; the consistency checks on its neighbours pass; the map bit is cleared exactly when the list empties |
| `MallocStates.MallocState.UnlinkFirstSmallChunk` | support/allocators/dlmalloc/malloc.c:3620-3635 | The chunk listed last is taken, and it has the bin's size |
| `HeapBins.SmallMarked` | support/allocators/dlmalloc/malloc.c:3371-3373 | A small map bit is set exactly when chunks of that size are listed |
| `MallocStates.MallocState.InsertLargeChunk` | support/allocators/dlmalloc/malloc.c:3653-3702 | The chunk is listed last under its size, in the right tree, with the trie invariant kept: bit paths, parent links, unique sizes, the treemap bit |
| `MallocStates.MallocState.InsertBelowRoot` | support/allocators/dlmalloc/malloc.c:3666-3700 | The descent ends, for the size bits run out, and attaches a node or chains behind one of the same size |
| `MallocStates.MallocState.UnlinkLargeChunk` | support/allocators/dlmalloc/malloc.c:3721-3790 | Exactly the chunk is unlisted, whether chained, head of a chain, leaf or interior node; all consistency checks pass |
| `MallocStates.MallocState.TakeRightmost` | support/allocators/dlmalloc/malloc.c:3731-3745 | The leaf where the descent ends that goes right wherever it can is found and its slot cleared, also when it is the node's direct child; r is 0 exactly when the node is that leaf |
| `MallocStates.MallocState.ReplaceNode` | support/allocators/dlmalloc/malloc.c:3746-3789 | The replacement takes over position, parent link and children |
| `TreeBins.NodeInserted` | support/allocators/dlmalloc/malloc.c:3653-3673 | Attaching a new node keeps every trie and ring |
| `TreeBins.HeadUnlinked` | support/allocators/dlmalloc/malloc.c:3724-3730 | When a tree-resident chunk with a chain leaves, the next oldest of the chain takes its place |
| `TreeBins.InnerUnlinked` | support/allocators/dlmalloc/malloc.c:3731-3790 | Replacing an interior node by a leaf under it keeps every trie and ring |
| `Tries.PathsMerge` | support/allocators/dlmalloc/malloc.c:2360-2398 | Two sizes whose paths agree down to bit 3 are equal, so the descent always ends |
| `Tries.LeftIsSmaller` | support/allocators/dlmalloc/malloc.c:2379-2392 | Sizes in a left subtree are below those in its sibling |
| `Depths.DepthBound` | support/allocators/dlmalloc/malloc.c:2394-2397 | No path is longer than the bits from the root's down to bit 3, and one more: at most 20 nodes, and at most 30 in the last bin, which the comment leaves out |
| `Depths.DepthAttained` | support/allocators/dlmalloc/malloc.c:2394-2397 | In every bin, the last included, some trie has a path of just that many nodes |
| `Ages.OrderKept` | support/allocators/dlmalloc/malloc.c:2365-2369 | When the lists change as one call may change them, two chunks of one size that both stay keep their order |
| `Fifo.AlwaysOldestFirst` | support/allocators/dlmalloc/malloc.c:2365-2369 | In every state between calls the tree-resident chunk of each large size is the one of that size that was listed first |
| `Fifo.HeadStays` | support/allocators/dlmalloc/malloc.c:2365-2369 | Over any number of calls no chunk overtakes the oldest of its size: as long as that is not taken out it stays the oldest |
| `Fifo.FirstInFirstOut` | support/allocators/dlmalloc/malloc.c:2365-2369 | Between any two states of a run the resident chunk of a size changes only by being taken out |
| `Fifo.CallsKeepOrder` | support/allocators/dlmalloc/malloc.c:2365-2369 | No call of a run, whichever it is, changes the order of two chunks listed under one size before and after it |
| `Fifo.FreeingKeepsOrder` | support/allocators/dlmalloc/malloc.c:4382-4448 | Freeing a chunk leaves the listed chunks that stay in their order |
| `Fifo.ResidentIsOldest` | support/allocators/dlmalloc/malloc.c:2365-2369 | The node a size has in its tree was listed before every other chunk of that size |
| `Searching.WalkLeftmost` | support/allocators/dlmalloc/malloc.c:4497-4506 | The leftmost walk ends with a candidate such that every tree size that fits is at least as large |
| `Searching.SearchOwnBin` | support/allocators/dlmalloc/malloc.c:4458-4481 | The bit-guided path of the request's own bin leaves no better size unseen but those in the deepest untaken right subtree |
| `Searching.FindBestFit` | support/allocators/dlmalloc/malloc.c:4453-4506 | The search yields a chunk of minimum size of at least nb over all trees, the oldest of that size, or none exactly when none fits |
| `Searching.FindSmallest` | support/allocators/dlmalloc/malloc.c:4524-4546 | The small search yields the smallest chunk of any tree |
| `Allocating.TmallocLarge` | support/allocators/dlmalloc/malloc.c:4453-4520 | Best fit over all trees; 0 is returned only when no tree chunk fits strictly better than dv, in spite of the unsigned wrap of -nb and dvsize - nb |
| `Allocating.TmallocSmall` | support/allocators/dlmalloc/malloc.c:4524-4558 | The smallest tree chunk serves a small request: it leaves its list, a remainder of at least 16 bytes becomes dv, right behind the grant, with the old dv listed, and nothing else of the lists, dv or top changes |
| `Allocating.ReplaceDv` | support/allocators/dlmalloc/malloc.c:3637-3648 | The old dv, which at this point is absent or small, goes to its bin |
| `Allocating.CutSmallBin` | support/allocators/dlmalloc/malloc.c:4629-4650 | The first chunk of the next marked bin is split: its remainder, always of at least 16 bytes, becomes dv, the old dv is listed, and the other lists and top stay as they were |
| `Allocating.MallocSmall` | support/allocators/dlmalloc/malloc.c:4595-4657 | A small request takes the smallest listed chunk that fits, and none exactly when dv fits and neither the exact nor the next bin has a chunk, or when dv is too small and nothing listed fits; which chunk of its size is taken, the lists, dv and top afterwards are those of AfterMalloc |
| `Allocating.UseDv` | support/allocators/dlmalloc/malloc.c:4669-4686 | Splitting or exhausting dv grants at least nb and less than nb + 16 bytes |
| `Allocating.UseTop` | support/allocators/dlmalloc/malloc.c:4688-4698 | Splitting top grants exactly nb bytes and leaves a top |
| `Policies.RestPlace` | support/allocators/dlmalloc/malloc.c:4524-4650 | Where the rest of a chunk taken from a bin goes, if it is at least 16 bytes: it becomes dv, right behind the grant, when the request was small, the old dv being listed, and is listed when the request was large; otherwise dv stays, and top always does |
| `Policies.RestQueue` | support/allocators/dlmalloc/malloc.c:4524-4650 | After a request served from a bin a chunk is listed exactly if it was and is not the one taken, or is the rest of a large request, or the dv that the rest of a small one replaced |
| `Policies.SomethingFits` | support/allocators/dlmalloc/malloc.c:4595-4657 | Unless the bins are passed over, a listed size fits, and the smallest that does is the one used |
| `Mallocs.PaddedEnough` | support/allocators/dlmalloc/malloc.c:2231-2241 | The padded size leaves room for the request and the overhead, is aligned, exceeds the request by less than 12 bytes unless it is the least size of 16, and tells too large requests apart |
| `Mallocs.BlankBins` | support/allocators/dlmalloc/malloc.c:4595-4617 | Before any memory is found every test of the small path fails, so the call falls through to the system |
| `Mallocs.MallocSettled` | support/allocators/dlmalloc/malloc.c:4568-4709 | On an initialised heap the documented policy alone determines where the request is served and what it leaves: the smallest binned chunk that fits, unless dv is to be preferred, and the front of top only when neither fits; layout, lists, dv, top and the room for growth are then those of ServedStep, so the next request is determined too; a null answer means no free chunk fits and nothing changed |
| `Mallocs.Malloc` | support/allocators/dlmalloc/malloc.c:4568-4709 | Every state between calls satisfies the invariant again; success adds one live chunk of nb to nb + 15 bytes and keeps every other payload; failure keeps all; the linker's heap is made the first segment before the first request, and answer, layout, lists, dv, top, segment and growth are those of MallocStep |
| `Morecores.LinearMemory.WasmMorecore` | src/wasm_allocator.c:22-50 | The heap end moves up by exactly the size and the old end is returned, or nothing moves; a positive size is refused exactly when the memory has 65536 pages, the new end would lie in the last page or beyond, or more pages are needed and the host refuses them; no page more than needed is added; a refusal is counted exactly where the size could be had |
| `Morecores.PagesNeeded` | src/wasm_allocator.c:37-46 | The wrapped 32-bit page arithmetic asks for just enough pages, or, for an end in the last page or a full memory, for an impossible number of them |
| `Growing.CoreExtended` | support/allocators/dlmalloc/malloc.c:4213-4216 | Growing top in place keeps the heap invariant, all live chunks and payloads |
| `SysAllocs.InitTop` | support/allocators/dlmalloc/malloc.c:3901-3913 | Top starts at the aligned address, its head and the foot behind it are written |
| `SysAllocs.InitBins` | support/allocators/dlmalloc/malloc.c:3916-3923 | init_bins makes every small bin a ring of its header alone and writes nothing else |
| `SysAllocs.TryInitAllocator` | support/allocators/dlmalloc/malloc.c:5221-5259 | The linker's heap becomes the first segment, all of it but the foot and the alignment offset top, exactly when it is large enough for a minimal request; footprint and its peak are its size |
| `SysAllocs.AppendSegment` | support/allocators/dlmalloc/malloc.c:4204-4216 | The append path keeps one segment that ends where linear memory's heap ends |
| `SysAllocs.FirstMorecore` | support/allocators/dlmalloc/malloc.c:4102-4128 | The first call asks for just FirstAsk bytes, if the limit allows it, and gets them at the heap end exactly when they come |
| `SysAllocs.ContiguousMorecore` | support/allocators/dlmalloc/malloc.c:4102-4167 | Just FirstAsk bytes are asked for: with a heap what top lacks, rounded up to granules; what MORECORE returns always starts at the segment's end, so the recovery from a partial failure is never entered; contiguity is given up exactly when nothing comes |
| `SysAllocs.NoncontiguousMorecore` | support/allocators/dlmalloc/malloc.c:4178-4195 | The last resort asks for just asize bytes, and also extends contiguously |
| `SysAllocs.GrowTop` | support/allocators/dlmalloc/malloc.c:4197-4243 | Once there is a segment only the append path is taken; top grows by what was obtained, footprint, its peak and the base are recorded, and afterwards nb < topsize |
| `SysAllocs.SysAlloc` | support/allocators/dlmalloc/malloc.c:4042-4260 | For any pattern of memory.grow failures: what is asked for, in which order, what comes of it and what is recorded are as in Sought: first what top lacks, then all of asize; a successful call extends the one segment by just that, within the limit, and serves the request from top; a failed one changes nothing represented |
| `Provisions.FirstRequest` | support/allocators/dlmalloc/malloc.c:4599-4601 | Before there is a heap, a request that fits in the linker's is served from its aligned start; that is then the segment, and neither heap end nor pages move |
| `Provisions.FirstGrowth` | support/allocators/dlmalloc/malloc.c:4599-4601 | A larger first request finds the segment at the linker's heap too, and the heap grows, if at all, by what its top lacks or by asize |
| `Provisions.AskLeast` | support/allocators/dlmalloc/malloc.c:4126-4127 | What is asked for first is the least multiple of the granularity that makes up what top lacks of nb and the padding |
| `Provisions.AskToBoundary` | support/allocators/dlmalloc/malloc.c:4102-4122 | Without a heap it is asize and what takes the end to a granularity boundary |
| `Provisions.GrowthExact` | support/allocators/dlmalloc/malloc.c:4124-4134 | If that is in reach, and within the pages there are or not refused, the request is met from the old top, and footprint and heap end rise by just that |
| `Provisions.UnmetIsDenied` | support/allocators/dlmalloc/malloc.c:4056-4195 | A null answer means that nothing in the heap fits and that the size or the limit rules the request out, or that both what top lacks and, in the last resort, asize were denied |
| `Freeing.ConsolidateBackward` | support/allocators/dlmalloc/malloc.c:4386-4410 | A free chunk in front is unlinked and joined, or, when it is dv and the next chunk is in use, dv grows over p and all is done; the heap is then just that |
| `Freeing.DisposeChunk` | support/allocators/dlmalloc/malloc.c:4382-4448 | Freeing removes exactly p from the live allocations, coalesces with both neighbours, dv and top, keeps every other payload and the order of the lists; what becomes top, dv or listed is just what AfterFree says |
| `Freeing.Free` | support/allocators/dlmalloc/malloc.c:4713-4820 | dlfree of a live pointer does the same: layout, lists, dv and top are those of AfterFree; of a null pointer nothing |
| `Reallocs.DlFree` | support/allocators/dlmalloc/malloc.c:4713-4820 | dlfree keeps the invariant of all state, and leaves the heap of AfterFree |
| `Policies.FreedPlace` | support/allocators/dlmalloc/malloc.c:4713-4820 | With its free neighbours the freed chunk becomes top if they touch the end, dv if dv is among them, and a binned chunk otherwise, dv and top being kept; the chunks in front and behind are as they were |
| `Policies.FreedQueue` | support/allocators/dlmalloc/malloc.c:4713-4820 | After a free a chunk is listed exactly if it was and is not part of the new one, or is the new one and that is neither top nor dv |
| `Freeing.SettledSound` | support/allocators/dlmalloc/malloc.c:3460-3486 | Between calls the lists hold free chunks of the layout, each once, under its size, so the two above apply |
| `BulkFrees.BulkFree` | support/allocators/dlmalloc/malloc.c:5128-5168 | Every array entry is nulled, exactly the named chunks are freed, in spite of entries that come to stand for merged chunks; listed chunks that stay keep their order; lists, dv and top are those of AfterBulk |
| `BulkFrees.FreeEach` | support/allocators/dlmalloc/malloc.c:4713-4820 | Freeing a list of live pointers one by one, in any order, frees exactly their chunks, and leaves the heap of one free after the other |
| `BulkFrees.OrderIsIrrelevant` | support/allocators/dlmalloc/malloc.c:5121-5168 | Freeing the same pointers in bulk, or one by one in any order, leaves the same chunks, head bits included, and the same top |
| `Reallocating.TryReallocChunk` | support/allocators/dlmalloc/malloc.c:4842-4919 | It succeeds exactly when the chunk and the free chunk behind it have the room, keeps the payload both sizes share, leaves layout, lists, dv and top as AfterResize says, and otherwise changes nothing |
| `Reallocating.SplitAndDispose` | support/allocators/dlmalloc/malloc.c:4855-4862 | Splitting off a remainder and disposing of it leaves exactly nb bytes at p, and the remainder where a free puts it |
| `Reallocating.ExtendIntoTop` | support/allocators/dlmalloc/malloc.c:4863-4874 | Growing into top leaves exactly nb bytes and a smaller top right behind |
| `Reallocating.ExtendIntoDv` | support/allocators/dlmalloc/malloc.c:4875-4896 | Growing into dv leaves what is not needed as dv, right behind, or uses all of it when that is less than 16 bytes |
| `Reallocating.ExtendIntoNext` | support/allocators/dlmalloc/malloc.c:4897-4914 | Growing into a binned neighbour unlinks it and frees what is not needed, if that is at least 16 bytes |
| `Reallocs.CopyBlock` | support/allocators/dlmalloc/malloc.c:5299-5300 | The first min(old usable size, bytes) bytes are copied to the new block |
| `Reallocs.Realloc` | support/allocators/dlmalloc/malloc.c:5266-5309 | On every path the first min(old usable size, bytes) bytes survive and all other blocks are kept; a failure leaves everything as it was; in place exactly when the room is there; what is allocated, freed, listed and grown is as in ReallocStep |
| `Reallocs.ReallocInPlace` | support/allocators/dlmalloc/malloc.c:5311-5340 | It succeeds exactly when the room is there, never moves the block, and leaves the heap of AfterResize or the old one |
| `Alignments.AndLessOne` | support/allocators/dlmalloc/malloc.c:4925 | a & (a - 1) is 0 exactly for powers of two |
| `Alignments.AndNegated` | support/allocators/dlmalloc/malloc.c:4953-4956 | y & -a rounds y down to a multiple of a |
| `Alignments.AlignedSpots` | support/allocators/dlmalloc/malloc.c:4943-4958 | The spot computed with masks is the next multiple of a, less than a further on |
| `Alignments.RoundAlignment` | support/allocators/dlmalloc/malloc.c:4923-4929 | The alignment becomes the least power of two that is at least 16 and at least the one asked for |
| `Alignments.RoundingEnds` | support/allocators/dlmalloc/malloc.c:4925-4929 | The rounding loop ends if and only if the alignment is at most 2^31 |
| `Alignments.RoundingNeverEnds` | support/allocators/dlmalloc/malloc.c:4925-4929 | For alignment 0x80000001 no iteration ever reaches it |
| `Memaligns.AlignWithin` | support/allocators/dlmalloc/malloc.c:4943-4974 | The over-allocation always has room for a leader of at least 16 bytes, even at the second spot; the spot is the first of the two that fits, and the leader is freed |
| `Memaligns.GiveBackTail` | support/allocators/dlmalloc/malloc.c:4976-4986 | Spare room beyond nb + 16 is freed, and less than that is kept |
| `Memaligns.InternalMemalign` | support/allocators/dlmalloc/malloc.c:4921-4993 | The address is a multiple of the unit, at least nb bytes are there, leader and tail are free again, every other payload is kept; request, address, and the heap afterwards are those of AlignedStep |
| `Memaligns.UnitIsUnitOf` | support/allocators/dlmalloc/malloc.c:4923-4929 | The unit given is the least power of two that is at least 16 and at least the alignment |
| `Memaligns.UnitIsAlignment` | support/allocators/dlmalloc/malloc.c:4923-4929 | A power of two of at least 16 is given as it is asked for |
| `Memaligns.Memalign` | support/allocators/dlmalloc/malloc.c:5342-5347 | dlmemalign gives a multiple of any power of two asked for, as in MemalignStep |
| `Memaligns.PosixMemalign` | support/allocators/dlmalloc/malloc.c:5349-5370 | It refuses exactly the alignments that are not a power of two times the pointer size, and otherwise gives a multiple of the alignment or nothing, as in PosixStep; a refusal changes nothing |
| `Callocs.HighBitsSet` | support/allocators/dlmalloc/malloc.c:4827 | The mask test is whether either factor needs more than 16 bits |
| `Callocs.CallocRequestExact` | support/allocators/dlmalloc/malloc.c:4822-4829 | The overflow test is exact: the product when 32 bits hold it, and otherwise a size that always fails |
| `Callocs.Calloc` | support/allocators/dlmalloc/malloc.c:4822-4835 | A non-null result has room for all n * size bytes, all zero; an overflowing product fails; otherwise it is one request of dlmalloc |
| `Bytes.Memset` | src/wasm_runtime_core.cpp:23-29 | Exactly the bytes of the range change, to the value's low byte |
| `Bytes.Memcpy` | src/wasm_runtime_core.cpp:31-38 | Exactly the destination bytes change, to the source's, when the ranges do not overlap |
| `Bytes.Memmove` | src/wasm_runtime_core.cpp:40-53 | The same for any overlap, by choosing the direction |
| `PieceHeads.TakePiece` | support/allocators/dlmalloc/malloc.c:5091-5093 | Writing one head splits an element off; the chunk that remains is in order but for its own head |
| `Iallocs.ContentsSize` | support/allocators/dlmalloc/malloc.c:5036-5046 | contents_size is the sum of the padded sizes, cut to 32 bits |
| `Iallocs.AggregateExact` | support/allocators/dlmalloc/malloc.c:5028-5048 | The chunk asked for has the size that elements and array need exactly when that is below 2^32, and otherwise a smaller one |
| `Iallocs.AggregateWraps` | support/allocators/dlmalloc/malloc.c:5036-5048 | 0x10000001 elements of 12 bytes need more than 4 GiB, and a chunk of 16 bytes is asked for |
| `Iallocs.SplitElements` | support/allocators/dlmalloc/malloc.c:5084-5099 | The loop partitions the chunk into one piece per element, each of the size it needs, the last absorbing the slop |
| `Iallocs.Ialloc` | support/allocators/dlmalloc/malloc.c:5002-5112 | n consecutive live chunks, each large enough, zeroed when asked, with their addresses stored in the caller's array, of whose block nothing else changes, or in one behind them; every other payload is kept; the chunk asked for, where it is cut, and the addresses are those of IallocStep |
| `Iallocs.StorePointer` | support/allocators/dlmalloc/malloc.c:5085 | Storing a pointer in the array keeps the heap, the chunk being cut, and every other payload |
| `Independents.DoIndependent` | support/allocators/dlmalloc/malloc.c:5386-5395 | independent_calloc and independent_comalloc give new blocks, pairwise distinct, of the sizes asked for, whose addresses, in order, can be read from the array; no other byte of any block changes |
| `Iallocs.ElementFreeable` | support/allocators/dlmalloc/malloc.c:5084-5099 | Each element is a live allocation of its own, so it can be freed on its own |
| `Checks.TraverseAndCheck` | support/allocators/dlmalloc/malloc.c:3428-3456 | Every check of the traversal passes in every reachable state, and the total is the footprint less the bytes lost to aligning the base |
| `Checks.FreePasses` | support/allocators/dlmalloc/malloc.c:3269-3289 | do_check_free_chunk passes |
| `Checks.InusePasses` | support/allocators/dlmalloc/malloc.c:3258-3266 | do_check_inuse_chunk passes |
| `Checks.TopPasses` | support/allocators/dlmalloc/malloc.c:3230-3241 | do_check_top_chunk passes |
| `BinFinds.BinFind` | support/allocators/dlmalloc/malloc.c:3392-3425 | The walk through ring or tree and chain finds a chunk exactly when it is free and neither dv nor top |
| `BinChecks.CheckSmallBin` | support/allocators/dlmalloc/malloc.c:3368-3389 | Every check of do_check_smallbin passes, and its walk meets exactly the chunks listed under the size, oldest first |
| `BinChecks.CheckChain` | support/allocators/dlmalloc/malloc.c:3317-3353 | Every check on the chain of a tree node passes, the walk meets all chunks of its size, and the node alone has a parent |
| `BinChecks.CheckTree` | support/allocators/dlmalloc/malloc.c:3306-3354 | Every check of do_check_tree passes, and the recursion meets exactly the nodes at or below the one it starts from |
| `BinChecks.CheckTreeBin` | support/allocators/dlmalloc/malloc.c:3357-3365 | do_check_treebin passes and meets every node of the bin |
| `BinChecks.CheckMallocState` | support/allocators/dlmalloc/malloc.c:3460-3486 | All checks of do_check_malloc_state pass in every reachable state |
| `BinChecks.TreesPass` | support/allocators/dlmalloc/malloc.c:3306-3354 | The checks do_check_tree makes of a node, its parent and its children pass at every node of every tree |
| `Runs.Serve` | support/allocators/dlmalloc/malloc.c:5266-5400 | Each legal call has its meaning on a map from pointers to byte strings, keeps the invariant and the order of listed chunks that stay, and does to layout, lists, dv, top and growth just what Transition says, its answer included |
| `Runs.Run` | support/allocators/dlmalloc/malloc.c:4568-5400 | For every client, choosing each call by the answers so far, and every pattern of memory.grow refusals, blocks behave as that map, the invariant holds after every call, each tree holds the oldest chunk of each of its sizes in every state, and every call does to layout, lists, dv, top and growth just what Transition says |
| `Provisions.EndBounded` | support/allocators/dlmalloc/malloc.c:4042-4260 | After any number of calls the heap has grown by no more than the chunks asked for and 8240 bytes for each, and the memory by no more pages than that takes |
| `Provisions.RequestMet` | support/allocators/dlmalloc/malloc.c:4042-4260 | In any run a request is met if all that was asked for so far fits below the last page and the footprint limit, and either was there from the start or the host does not refuse |
| `Provisions.FirstBlock` | support/allocators/dlmalloc/malloc.c:5221-5259 | The first block of a run is the start of the linker's heap if it fits there, whatever the host would answer |
| `Runs.BlocksApart` | support/allocators/dlmalloc/malloc.c:2225-2227 | In every reachable state blocks are 8-byte aligned, pairwise disjoint, and inside the one segment |
| `Runs.SetLimit` | support/allocators/dlmalloc/malloc.c:5438-5447 | The limit is rounded up to granules; it is stored as 0, no limit, exactly for 0 and for sizes whose rounding overflows |
| `WideMultiply.Umul64WideExact` | src/wasm_runtime_core.cpp:350-366 | umul64wide is the exact product for all 64-bit factors |
| `WideMultiply.AddColumnsValue` | src/wasm_runtime_core.cpp:360-365 | No column sum overflows 64 bits, and or-ing the halves of the low word is adding them |
| `WideMultiply.Multi3Congruent` | src/wasm_runtime_core.cpp:368-384 | __multi3 is congruent to the signed product modulo 2^128 and in signed range |
| `WideMultiply.Multi3Exact` | src/wasm_runtime_core.cpp:368-384 | __multi3 is the product whenever the product fits |
| `Styles.Precedence` | src/dprint_plugin.cpp:207-301 | An option in force is the override's, else the plugin's own, else what the global setting amounts to |
| `Styles.ResolutionComesTo` | src/dprint_plugin.cpp:207-317 | Options, style, validity and diagnostics are exactly these: the options in force for every key; the LLVM style, and all complaints, if there is no option or anything is wrong with a setting; otherwise the style that parsing those options makes, and its error if there is one |
| `Styles.WhenValid` | src/dprint_plugin.cpp:278-317 | Exactly when a configuration counts as valid, and exactly when it does so in spite of a diagnostic |
| `Styles.ValidButDiagnosed` | src/dprint_plugin.cpp:297-300 | A configuration can be valid and have a diagnostic |
| `Sessions.MissingPluginUnreported` | src/dprint_plugin.cpp:343-369 | A payload without a plugin object counts as one with an empty object, and the diagnostic noted for it is dropped |
| `Sessions.Registering` | src/dprint_plugin.cpp:517-534 | Under the id, and no other, stands what the plugin and global objects of the payload come to, or the error if it is no object |
| `Sessions.HandedOver` | src/dprint_plugin.cpp:508-534 | What the host fills in is what the next call takes: the payload, the override, or the path |
| `Sessions.Formatting` | src/dprint_plugin.cpp:403-491 | format and format_range answer 2 for a bad range, an unknown id and a failed rewrite, each with its message, and 0 or 1 with the text that rewriting the range makes under exactly the style that options and override come to, in the language of the path, or the stored style if they come to nothing valid; input and override are used up |
| `Sessions.RegistryIsLastRegistered` | src/dprint_plugin.cpp:517-544 | Over any run an id is known exactly when the last call about it registered it, with the entry of that call's payload |
| `Sessions.OverrideInEffect` | src/dprint_plugin.cpp:429-454 | The override a formatting call uses is the one set last, unless a formatting call came since |
| `Sessions.OverrideUsedUp` | src/dprint_plugin.cpp:429-491 | Whichever exit a formatting call takes, the override is gone, and only that call's result can tell what it was |
| `Sessions.OverrideReach` | src/dprint_plugin.cpp:429-454 | From the second formatting call on, session and answers are the same with any other override in its place |
| `Sessions.TextFetched` | src/dprint_plugin.cpp:581-584 | get_formatted_text delivers what the last formatting call left, once, and nothing if that was fetched since or there was none |
| `Sessions.ErrorFetched` | src/dprint_plugin.cpp:586-589 | get_error_text does the same for the error |
| `Sessions.PathInEffect` | src/dprint_plugin.cpp:565-568 | The path in effect is the one set last, with slashes for backslashes |
| `Sessions.ConfigFetched` | src/dprint_plugin.cpp:546-558 | The getters of a config deliver what the payload registered last under the id came to, and {} and [] for no config |
| `Plugins.Plugin.FindConfig` | src/dprint_plugin.cpp:99-106 | The first match is the map's entry, and there is one exactly when the id is known |
| `Plugins.Plugin.UpsertConfig` | src/dprint_plugin.cpp:335-341 | The vector, whose ids stay unique, maps the id to the new entry and all others as before |
| `Plugins.Plugin.RegisterConfig` | src/dprint_plugin.cpp:517-534 | register_config is the abstract step |
| `Plugins.Plugin.ReleaseConfig` | src/dprint_plugin.cpp:536-544 | release_config removes the id and nothing else |
| `Plugins.Plugin.FormatInner` | src/dprint_plugin.cpp:429-491 | format_inner is the abstract step on every exit |
| `Plugins.Plugin.Perform` | src/dprint_plugin.cpp:502-594 | Each exported call that reads or writes the statics refines its abstract step and answer |
| `Plugins.Run` | src/dprint_plugin.cpp:502-594 | Every run of calls on a fresh plugin refines the abstract session |

## Left out

Assumed of the surroundings:

- The linker places `malloc_state` below `__heap_base`, and `__heap_end` is 8-byte aligned (`Placed`); linear memory's unused part is not otherwise constrained.
- Pointers given to free, realloc and bulk_free are live or null, and bulk_free's are distinct, as the C library demands (C11, section 7.22.3).
- `memory.grow` succeeds or fails at the host's choice, within 65536 pages; its result is otherwise as in section 4.4.7 of the WebAssembly Core Specification 2.0.

Not modelled:

- mmap, mremap and munmap paths, mspaces, locks, Win32 code, footers, PROCEED_ON_ERROR: compiled out.
- sys_trim and release_unused_segments: trimming is off, and wasm_morecore refuses negative sizes, so they release nothing.
- add_segment, prepend_alloc and the recovery from a partial MORECORE failure: proved unreachable (`SysAllocs.ContiguousMorecore`, `SysAllocs.GrowTop`).
- Heaps that were corrupted: the consistency checks are proved to pass, and their failing branches are not modelled.
- mallinfo, malloc_stats, inspect_all, mallopt, usable_size, valloc and pvalloc: reporting, tuning, or one call to memalign.
- magic, sflags, trim_check and release_checks of malloc_state, and errno: nothing modelled depends on them.
- Addresses that are not 0 or 4 modulo 8 as words: the allocator reads and writes none; bytes are digits of words.
- clang-format, the JSON parser and printer, strtod and the replacement engine: functions about which nothing is assumed; numbers are taken after their cast to int64_t.
- The plugin's version number and the pointer to its shared bytes: constants; the texts of its constant getters are a parameter of the call.
- The C string, printf, ctype, qsort and floating-point functions of the runtime, and aligned operator new: stubs and approximations.

Stated weaker than they could be:

- Freeing.Free: the shared body of dlfree and dispose_chunk is modelled once; dlfree's own trimming and release counters have no effect here.
- Memaligns.InternalMemalign: requires an alignment of at most 2^31, because the code does not end for any other it cannot use (`Alignments.RoundingEnds`).
- Iallocs.Ialloc: requires sums below 2^32, which the code does not check (`Iallocs.AggregateExact` says what it asks for otherwise), and so do the calls built on it; a caller's array is taken to lie in one of his live blocks, apart from the array of sizes.
- BulkFrees.BulkFree: the array of pointers is an array of its own, not words of linear memory, so one that lies in a block it names is not modelled.
- Runs.Run: posix_memalign answers with the address alone; its error codes are in `Memaligns.PosixMemalign`.
- Callocs.Calloc: tests the factors with comparisons; that the mask test is the same is `Callocs.HighBitsSet`.
- Plugins.Plugin.GetFormattedText: the string moved from is taken to be empty afterwards, as the library in use leaves it.
