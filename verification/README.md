# A verified model of the JMEngine cores

JMEngine is a C++ server engine. This project models the parts of it that carry its hardest obligations and proves what
they promise, for all inputs, all states and all runs:

- **The memory space** of `include/memory/malloc.c.h`: a boundary-tag heap whose free chunks live in circular small bins,
  in bitwise tries, in a designated victim (dv) and in a top chunk, with segments obtained from and given back to the
  system. The central class is `Mspaces.Mspace`; its `Valid()` holds what the DEBUG checkers of the file ask for, except that a
  directly mapped chunk is not small, plus the exact accounting of mapped pages. `MspaceRuns` states what follows for whole
  runs.
- **The thread cache and pool** of `source/memory/nedmalloc.cpp`: `ThreadCaches` for the bins and their eviction by age,
  `Nedpools` for the pool in front of several mspaces, `LargestBin` for blocks that a cache may not take back, `PoolProtocol`,
  `PoolRuns` and `PoolProgress` for threads that share and create mspaces, and `SpinLocks` for the reentrant lock underneath.
- **The RPC client and server** of `source/rpc`: `Rpc` and `RpcCallbacks`, interleaved steps over a network that loses, delays, reorders and
  duplicates messages.
- **The protobuf symbol index** of `include/google/protobuf/descriptor_database.cc`: `SymbolIndex`.
- **Blowfish** of `source/util/JME_Encrypt.cpp`: `Blowfish`, `RoundFunction`, `CipherModes`, `KeySchedule` and
  `BlowfishCipher`, with `Sums` for the addition of words. The modes follow sections 6.1 to 6.3 of NIST SP 800-38A.

Constants are those of the 64-bit build that nedmalloc compiles: `SIZE_T_SIZE` 8, alignment 8, `FOOTERS` 1 and so 16 bytes of
overhead, `MIN_CHUNK_SIZE` 32, `TOP_FOOT_SIZE` 80, granularity 1 MB, mmap threshold 256 KB, trim threshold 2 MB. Machine
words are modelled with their width where the code depends on it: bin maps and cipher words are bit-vectors, and
`-nb`, `S >> 8`, `nb + SYS_ALLOC_PADDING` and the alignment masks wrap around at 2^64.

## How the heap is put together

`Sizes`, `Bits`, `BinMap` and `TreeIndex` hold the arithmetic of sizes and maps. `Rings`, `Tries`, `TreeSearch` and `TreeDepth` are about
values; `TreeBins` and `SmallBins` are the classes that change the links in place. `Chunks`, `ChunkGrowth`, `Segments`,
`SegmentGrowth`, `Heaps`, `HeapGrowth`, `Merging` and `Footprints` show, one change of the words at a time, that the
invariants of tags, segments, free structures and mapped pages survive. `System` is the operating system: a set of mapped
pages and a script that decides which calls fail and which addresses are returned. `Masks` is the power-of-two arithmetic
of memalign.

An operation of `Mspace` that is under way has chunks *in hand*: free chunks that are in no bin at the moment. `Inv()` holds
throughout, with the chunks in hand named in the ghost field `g.loose`; `Valid()` is `Inv()` with nothing in hand.

## Where the code does not do what it is meant to do

Each of these has a counterexample, and where a condition decides whether the code is right, the condition is exact.

- `compute_tree_index` for x86 narrows the shifted size to 32 bits. The bin is right if and only if the size is below 2^40 or its
  bits 8 to 39 are at least 0xC000 (`TreeIndex.NarrowIndexAgrees`). The tree bins use the form that keeps the whole size.
- `mmap_resize` keeps the offset of a chunk in its region but sizes the new region for an offset of at most 24 bytes. The
  resized chunk holds every request if and only if the offset is at most 24 (`Mspaces.ResizeHoldsRequest`); every directly
  mapped chunk that memalign returns has an offset of 32 or more, and falls short (`MspaceRuns.AlignedThenShort`).
- A block of the largest cache bin may be a little too large for the cache to take back. It is taken back if and only if its
  chunk exceeds the padded size by at most 16 bytes (`LargestBin.LargestReturns`, with a pool in `LargestBin.NotTakenBack`).
- `nedtrimthreadcache` stores the negated slot where readers expect one less. The value still decodes to a populated slot or to
  "unset", but never to the slot last used (`PoolProtocol.DisabledValue`, reached by the runs of `PoolRuns`).
- The dead callback runs even when a late reply has taken the entry. Both callbacks of a call can run if and only if it is
  timed and its handler may answer, and of a settled call they have both run if and only if the timer expired before it was
  cancelled and the reply took the entry before the dead callback could (`RpcCallbacks.BothCanRunIff`,
  `RpcCallbacks.CallbackOutcome`).
- `AddSymbol` does not compare a name that sorts below all keys with the first key. The invariant survives if and only if the name
  is not overlooked in this way (`SymbolIndex.DescriptorIndex.AddSymbol`, `SymbolIndex.OverlookedIsMissed`).
- `Decrypt_2` in CFB mode writes nothing back. It is right if and only if every block is chained to the block that
  enciphers to zero (`CipherModes.CfbUntouchedIff`). The comments on the four buffer operations speak of a returned `false`; they
  return nothing.

The comment at `include/memory/malloc.c.h:2375-2379` gives the range of tree depths as 6 to 53. `TreeDepth.PathLength` proves the
bound that follows from the code instead, which is 5 nodes for the first bin and 62 for the last one.

## Model

| member | source | states |
|---|---|---|
| BinMap.Mark | include/memory/malloc.c.h:2872-2880 | after marking bin i the marked bins are the old ones and i, bit by bit of the 32-bit word |
| BinMap.Clear | include/memory/malloc.c.h:2872-2880 | after clearing bin i the marked bins are the old ones without i |
| BinMap.LeftOf | include/memory/malloc.c.h:2884-2890 | masking with left_bits of the bit of i keeps exactly the marked bins above i |
| BinMap.LeastIndex | include/memory/malloc.c.h:2895-2933 | the branch-free search for the least bit finds the smallest marked bin of any non-zero map |
| BinMap.NonZero | include/memory/malloc.c.h:2872-2880 | a map word is zero exactly when no bin is marked |
| BinMap.ExactBin | include/memory/malloc.c.h:5179-5183 | the low two bits of the shifted map select bin i if it is marked, else i + 1 if that is, and nothing otherwise |
| BinMap.NextBin | include/memory/malloc.c.h:5195-5201 | the shifted map masked with left_bits selects the least marked bin above i when bins i and i + 1 are empty |
| TreeIndex.IndexBounds | include/memory/malloc.c.h:2791-2866 | minsize(i) <= S for the computed index i, and S < minsize(i + 1) unless i is the last bin, for every large S |
| TreeIndex.IndexUnique | include/memory/malloc.c.h:2835-2866 | the computed index is the only bin whose range holds the size |
| TreeIndex.IndexMono | include/memory/malloc.c.h:2835-2850 | the index is monotone in the size |
| TreeIndex.ComputeIndex | include/memory/malloc.c.h:2835-2850 | the shift-and-borrow form without a bit-scan instruction computes the same index as the bit-scan form |
| TreeIndex.SameBinSameRoot | include/memory/malloc.c.h:2855-2861 | sizes of one bin agree on every digit above those that the trie of the bin inspects |
| TreeIndex.NarrowIndexAgrees | include/memory/malloc.c.h:2791-2803 | the x86 form, which narrows S >> 8 to 32 bits, names the right bin if and only if S < 2^40 or bits 8 to 39 of S are at least 0xC000 |
| TreeIndex.NarrowIndexWrong | include/memory/malloc.c.h:2791-2803 | 2^40 is a size that the narrowed form puts into bin 0 instead of bin 31 |
| TreeDepth.PathLength | include/memory/malloc.c.h:3619-3651 | no path in bin i has more nodes than one plus the bits from bit_for_tree_index(i) down to bit 3, so every descent ends |
| TreeDepth.SameSizeSameNode | include/memory/malloc.c.h:3263-3312 | two tree nodes never have the same size |
| Rings.InsertKeepsRing | include/memory/malloc.c.h:3637-3645 | hooking a chunk behind a ring head keeps every fd/bk ring closed, uniform in size and headed by one node |
| Rings.RemoveHeadKeepsRing | include/memory/malloc.c.h:3675-3685 | when the head of a ring goes, its bk neighbour heads what is left of the ring |
| Tries.AddLeafKeepsValid | include/memory/malloc.c.h:3621-3630 | a new leaf keeps the bitwise-trie order, the ranges of the nodes and the parent links |
| Tries.UnhookKeepsValid | include/memory/malloc.c.h:3686-3700 | cutting a leaf off keeps the trie |
| Tries.ReplaceKeepsValid | include/memory/malloc.c.h:3702-3740 | putting any node of its size range in the place of another one keeps the trie |
| Tries.NextCovers | include/memory/malloc.c.h:3620-3625 | stepping to the child on the side of s never leaves a node of size s behind |
| TreeBins.TreeBins.InsertLargeChunk | include/memory/malloc.c.h:3604-3653 | insert_large_chunk keeps the whole tree-bin invariant and adds exactly the one chunk with its size |
| TreeBins.TreeBins.UnlinkLargeChunk | include/memory/malloc.c.h:3672-3741 | unlink_large_chunk, by ring neighbour or rightmost leaf, keeps the invariant and removes exactly the one chunk |
| TreeBins.TreeBins.FindSlot | include/memory/malloc.c.h:3619-3651 | the descent ends at the node of the same size, or at an empty child where the size belongs and no node of that size exists |
| TreeBins.TreeBins.RightmostLeaf | include/memory/malloc.c.h:3686-3694 | the walk ends at a leaf below x, with the child slot that holds it |
| TreeBins.TreeBins.FindLarge | include/memory/malloc.c.h:4304-4350 | the search of tmalloc_large returns a best fit over all stored large chunks, and 0 only when nothing fits |
| TreeBins.TreeBins.FindSmall | include/memory/malloc.c.h:4375-4390 | one leftmost walk from the first marked tree finds the smallest chunk of all trees |
| TreeBins.WrappedRemainder | include/memory/malloc.c.h:4306-4321 | comparing size - nb against the sentinel -nb in 64-bit wrap-around arithmetic keeps exactly the better fit and drops exactly the too small |
| TreeBins.SettledIsBest | include/memory/malloc.c.h:4343-4353 | when the walk has ended, the candidate is a best fit over all stored chunks, or nothing fits |
| TreeBins.MarkedIffHolds | include/memory/malloc.c.h:3314-3323 | a treemap bit is set exactly when a chunk of the range of that bin is stored |
| TreeBins.RelinkedIsReplace | include/memory/malloc.c.h:3702-3740 | the pointer assignments that move parent and children to the replacement are the trie operation Replace |
| TreeSearch.SeekEnds | include/memory/malloc.c.h:4310-4332 | when the descent towards nb ends, everything that can still be the best fit is under the remembered right subtree |
| TreeSearch.NextBin | include/memory/malloc.c.h:4333-4341 | when the bin of nb holds no fit, the next marked bin holds the best fit |
| TreeSearch.WalkStep | include/memory/malloc.c.h:4343-4350 | one step of the leftmost walk loses no better fit |
| SmallBins.SmallBins.InsertSmallChunk | include/memory/malloc.c.h:3531-3547 | keeps the ring, map and size invariant of the small bins and adds exactly the one chunk |
| SmallBins.SmallBins.UnlinkSmallChunk | include/memory/malloc.c.h:3550-3567 | keeps the invariant and removes exactly the one chunk |
| SmallBins.SmallBins.TakeFirst | include/memory/malloc.c.h:3570-3585 | the first chunk of a marked bin has the size of that bin and is the only one removed |
| SmallBins.MarkedIffHolds | include/memory/malloc.c.h:3325-3346 | a smallmap bit is set exactly when a chunk of that size is stored |
| SmallBins.SmallBins.constructor | include/memory/malloc.c.h:3860-3867 | all small bins start empty and valid |
| Chunks.TakeWholeKeepsTags | include/memory/malloc.c.h:3037-3041 | marking a whole free chunk in use keeps the boundary tags of all chunks |
| Chunks.SplitKeepsTags | include/memory/malloc.c.h:3042-3046 | splitting a free chunk into a used front and a free rest keeps all boundary tags |
| Chunks.MergeKeepsTags | include/memory/malloc.c.h:2270-2280 | turning a run of neighbours into one free chunk keeps all boundary tags |
| Chunks.MergeTopKeepsTags | include/memory/malloc.c.h:5326-5337 | a run that ends with top becomes top and keeps all boundary tags |
| ChunkGrowth.PrependKeepsTags | include/memory/malloc.c.h:3889-3928 | chunks in front of the first chunk of a segment keep all boundary tags |
| ChunkGrowth.RetireKeepsTags | include/memory/malloc.c.h:3931-3981 | a new top, a segment record and fenceposts in the old top keep all boundary tags |
| Segments.MergeKeepsSegs | include/memory/malloc.c.h:3416-3442 | merging inside a segment keeps every chunk inside one segment and every segment tiled |
| SegmentGrowth.PrependKeepsSegs | include/memory/malloc.c.h:4155-4164 | new memory in front of a segment keeps the segments apart and tiled |
| SegmentGrowth.PushKeepsSegs | include/memory/malloc.c.h:3931-3981 | a new first segment keeps the segments apart and tiled, with the record of the old one in its tail |
| SegmentGrowth.DropKeepsSegs | include/memory/malloc.c.h:4189-4234 | dropping a segment without chunks in use keeps the others |
| Heaps.SplitFrontKeepsSound | include/memory/malloc.c.h:5195-5219 | taking the front of a free chunk keeps the whole heap invariant |
| Heaps.MergeKeepsSound | include/memory/malloc.c.h:5305-5356 | coalescing keeps the whole heap invariant, with the merged chunk in hand |
| HeapGrowth.PushKeepsSound | include/memory/malloc.c.h:3931-3981 | add_segment keeps the whole heap invariant |
| HeapGrowth.DropSegKeepsSound | include/memory/malloc.c.h:4189-4234 | dropping an unused segment keeps the whole heap invariant |
| Merging.MergeChain | include/memory/malloc.c.h:5305-5356 | a chain of up to three free neighbours becomes one free chunk and no two free chunks touch |
| Merging.MergeTopChain | include/memory/malloc.c.h:5326-5337 | a chain that ends with top becomes the new top |
| Merging.NextIsChunk | include/memory/malloc.c.h:2249-2268 | behind a chunk that a caller holds there is a chunk, never a fencepost |
| Masks.PowerTest | include/memory/malloc.c.h:4494-4494 | x & (x - 1) is zero exactly for the powers of two |
| Masks.AlignUpIsLeast | include/memory/malloc.c.h:4524-4527 | the mask expression is the least multiple of the alignment not below the address, if nothing wraps around |
| Masks.RoundAlignment | include/memory/malloc.c.h:4489-4498 | the alignment becomes the least power of two that is at least 32 and not below it, for every alignment up to 2^63 |
| System.System.Mmap | include/memory/malloc.c.h:1555-1572 | mmap maps fresh, page-aligned pages exactly if the system offers them, and otherwise counts one refusal and changes nothing |
| System.System.Munmap | include/memory/malloc.c.h:1554-1554 | munmap fails without change, and is counted, or unmaps exactly the pages of the range |
| System.System.Mremap | include/memory/malloc.c.h:1661-1665 | mremap fails without change, and is counted, or gives the region its new size, at the same place unless it may move |
| Footprints.MappedBytes | include/memory/malloc.c.h:3416-3442 | mapped bytes are the sum of all segment sizes, of all directly mapped regions and of the pages munmap refused to take |
| Mspaces.Mspace.constructor | include/memory/malloc.c.h:5067-5088 | init_user_mstate gives a valid mspace without live or binned chunks whose footprint is its segment and whose top is the rest of it |
| Mspaces.RequestSizeIsLeast | include/memory/malloc.c.h:2216-2227 | the padded size is the least multiple of 8 that is a chunk size and holds the request and the overhead |
| Mspaces.Mspace.UnlinkChunk | include/memory/malloc.c.h:3749-3752 | the chunk leaves exactly the bin its size selects; the invariant holds with the chunk in hand |
| Mspaces.Mspace.InsertChunk | include/memory/malloc.c.h:3745-3747 | the chunk in hand goes to exactly the bin its size selects |
| Mspaces.Mspace.ReplaceDv | include/memory/malloc.c.h:3590-3599 | the old dv goes to its small bin and the chunk in hand becomes dv; every caller meets the condition that the old dv is small |
| Mspaces.Mspace.MallocExact | include/memory/malloc.c.h:5181-5192 | the first chunk of the exact or next bin is granted as it is and is the only one that leaves the bins |
| Mspaces.Mspace.MallocNextSmall | include/memory/malloc.c.h:5195-5219 | a stored chunk of the next small bin is granted; the rest becomes dv, unless it is too small for a chunk and the caller gets it too |
| Mspaces.Mspace.TmallocSmall | include/memory/malloc.c.h:4375-4410 | takes the smallest chunk of all trees; the rest becomes dv, unless it is too small for a chunk and the caller gets it too |
| Mspaces.Mspace.TmallocLarge | include/memory/malloc.c.h:4304-4372 | grants from a best fit over all trees, all of it if the rest would be too small, and bins the rest otherwise; returns 0, unchanged, exactly when no tree chunk fits or dv fits at least as well |
| Mspaces.Mspace.ServeSmall | include/memory/malloc.c.h:5174-5228 | for a small request: an exact fit if one is stored, else one with 8 bytes to spare, else, if dv is too small, the best fit of the small bins, else the smallest tree chunk; 0 and no change exactly if none of these applies |
| Mspaces.Mspace.MallocFromDv | include/memory/malloc.c.h:5237-5255 | grants the front of dv and leaves the rest as dv, or grants all of it and leaves no dv when less than 32 bytes would be left |
| Mspaces.Mspace.MallocFromTop | include/memory/malloc.c.h:5257-5267 | grants exactly nb bytes from the front of top |
| Mspaces.Mspace.MmapAlloc | include/memory/malloc.c.h:3782-3806 | a region of its own in fresh pages for one aligned chunk of at least nb bytes, charged to the footprint; 0 exactly if the size wraps around or the system refused |
| Mspaces.PageAlignRoom | include/memory/malloc.c.h:3783-3786 | the test mmsize > nb passes exactly the requests whose rounded size does not wrap around |
| Mspaces.GranularityRoom | include/memory/malloc.c.h:4081-4091 | the test rsize > nb passes exactly the requests whose padded and rounded size does not wrap around |
| Mspaces.Mspace.ExtendTop | include/memory/malloc.c.h:4142-4150 | appending memory to the segment of top enlarges top by exactly that memory |
| Mspaces.Mspace.SegmentHolding | include/memory/malloc.c.h:2654-2662 | finds the segment whose range holds an address, and none only if there is none |
| Mspaces.Mspace.HasSegmentLink | include/memory/malloc.c.h:2665-2673 | tells exactly whether the record of some segment lies inside a segment |
| Mspaces.Mspace.ReleaseSegment | include/memory/malloc.c.h:4197-4224 | an unused segment is unmapped and leaves list and footprint, or everything stays and one failure of munmap is counted |
| Mspaces.Mspace.ReleaseUnusedSegments | include/memory/malloc.c.h:4189-4234 | releases no memory a caller holds; every segment in use stays; if the system takes all it is given, no segment but the first is left idle; the result is exactly the decrease of the footprint |
| Mspaces.Mspace.UnmapTail | include/memory/malloc.c.h:4254-4259 | mremap or munmap: the last pages are gone, or nothing has changed |
| Mspaces.Mspace.CutTop | include/memory/malloc.c.h:4239-4286 | if the system takes the pages and no record pins the segment, top is cut to at most one unit of granularity more than the pad, by whole units and never to the pad or below; a pinned top stays |
| Mspaces.Mspace.SysTrim | include/memory/malloc.c.h:4236-4298 | keeps all held chunks and the place of top; what it gives back of top are whole units and leaves more than pad + TOP_FOOT_SIZE, and, if the system takes the pages and nothing pins top, at most one unit more; then no segment but the first is left idle; true exactly if the footprint fell |
| Mspaces.Mspace.ConsolidateBackward | include/memory/malloc.c.h:5297-5321 | the freed chunk and a free chunk before it come into hand as one run, dv marked as moving if it is that chunk; the freed chunk alone if its pinuse bit is set |
| Mspaces.Mspace.JoinTop | include/memory/malloc.c.h:5326-5337 | top starts with the freed run and ends where it did, unless trimming follows |
| Mspaces.Mspace.GrowDvBack | include/memory/malloc.c.h:5313-5317 | a run that starts with dv and is followed by a chunk in use is dv afterwards |
| Mspaces.Mspace.GrowDvFront | include/memory/malloc.c.h:5338-5343 | a run that is followed by dv is dv afterwards, together with the old dv |
| Mspaces.Mspace.JoinNext | include/memory/malloc.c.h:5344-5353 | a free neighbour behind the run leaves its bin and joins the run |
| Mspaces.Mspace.FreeChunk | include/memory/malloc.c.h:5295-5371 | frees exactly the one chunk, with all coalescing, and keeps the mspace valid; between two chunks in use it goes to the bin of its size and nothing else changes in the bins |
| Mspaces.Mspace.FreeDirect | include/memory/malloc.c.h:5297-5304 | frees exactly the one directly mapped chunk; its pages leave the footprint unless munmap failed, and stay charged exactly if it did |
| Mspaces.Mspace.Free | include/memory/malloc.c.h:5279-5378 | mspace_free takes exactly the one chunk from the live ones, nothing for a null pointer, and keeps the mspace valid; no page is lost unless the system refused to take it; an enclosed chunk is binned as it is |
| Mspaces.Mspace.PrependAlloc | include/memory/malloc.c.h:3889-3928 | memory in front of a segment: nb bytes for the caller; the rest becomes top or dv together with a first chunk that was top or dv, and goes to a bin otherwise |
| Mspaces.Mspace.PlaceRecord | include/memory/malloc.c.h:3931-3945 | the record of the old segment fits with its fenceposts, at top or at least 32 bytes behind it |
| Mspaces.Mspace.AddSegment | include/memory/malloc.c.h:3931-3981 | new memory becomes a segment with the new top; the rest of the old top is binned; held chunks stay |
| Mspaces.Mspace.UseMemory | include/memory/malloc.c.h:4112-4182 | append, prepend or add, and then a fresh chunk of nb bytes, at the start of the new memory or of the old top |
| Mspaces.Mspace.SysAlloc | include/memory/malloc.c.h:3986-4184 | a fresh chunk from pages that were not the mspace's, or from top once it is extended; in a region of its own only from the mmap threshold on, and then whenever the mspace uses mmap and the system does not refuse; or 0 and no change at all, only if the size wraps around or the system refused |
| Mspaces.Mspace.Malloc | include/memory/malloc.c.h:5165-5277 | a fresh aligned chunk with both in-use bits set, apart from all live ones, of at least the padded size and less than 32 bytes more unless directly mapped, which no request below the threshold is; the chunk is the one due: for a small request an exact fit of the bins, else one with 8 bytes to spare, else dv if it is large enough, else the best fit of the bins, else the smallest tree chunk; for a large one the best fit of the trees if it beats dv; else dv, else the front of top, else new memory, mapped directly from the threshold on; fails only for a request that is too large, or when no bin, tree, dv or top can serve it and the system refuses or the size wraps around |
| Mspaces.Mspace.CutHeld | include/memory/malloc.c.h:3032-3036 | a chunk of a caller is cut in two chunks of that caller which tile it |
| Mspaces.Mspace.ShiftDirect | include/memory/malloc.c.h:4534-4537 | a directly mapped chunk moves to a later place of the same region; the accounts do not change |
| Mspaces.Mspace.Carve | include/memory/malloc.c.h:4515-4556 | leader, aligned chunk and trailer tile the original chunk exactly; leader and trailer are empty or at least 32 bytes |
| Mspaces.AlignedSpot | include/memory/malloc.c.h:4515-4532 | the chosen place is aligned and leaves room for a leader of at least 32 bytes |
| Mspaces.Mspace.KeepAligned | include/memory/malloc.c.h:4510-4568 | leader and trailer are freed and the aligned chunk is all the caller keeps |
| Mspaces.Mspace.Memalign | include/memory/malloc.c.h:4489-4572 | for every alignment up to 2^63 an aligned fresh chunk of at least the padded size, at most 32 bytes more unless directly mapped, and then at an offset of at least 32; for a power of two a multiple of it; or 0 and no change of hands, only if malloc cannot serve the request with the room for alignment added |
| Mspaces.Mspace.MmapResize | include/memory/malloc.c.h:3809-3840 | 0 exactly for a small request or if mremap failed; the same chunk, unchanged, exactly if it has between 8 bytes and two units of granularity to spare; otherwise its new size when the remapped region fits it; the footprint is exact on every path |
| Mspaces.ResizeHoldsRequest | include/memory/malloc.c.h:3818-3830 | a remapped chunk holds every request if and only if its offset in the region is at most 24 |
| Mspaces.MovedFallsShort | include/memory/malloc.c.h:3818-3830 | a chunk at an offset of at least 32 that is remapped for 2 * PAGE - 56 bytes has less than that |
| MspaceRuns.AlignedThenShort | include/memory/malloc.c.h:4489-4572 | in every valid mspace, a directly mapped chunk from memalign that is then remapped for 2 * PAGE - 56 bytes ends up short |
| MspaceRuns.CreateMspace | include/memory/malloc.c.h:5090-5106 | a valid mspace without live chunks in fresh pages, with at least the capacity and less than one unit of granularity more free in top; or null and nothing mapped, only if the capacity is too large or the system refused, and with the default capacity exactly if it offers no memory |
| MspaceRuns.ChunksTile | include/memory/malloc.c.h:3416-3442 | every address of a segment below its end mark is in exactly one chunk, and that chunk lies in the segment |
| MspaceRuns.LiveApart | include/memory/malloc.c.h:3249-3260 | chunks that callers hold never overlap, directly mapped ones included |
| MspaceRuns.ChunkReport | include/memory/malloc.c.h:3181-3260 | each chunk of a valid mspace: head, pinuse bit of the next chunk, foot of a free one, no free neighbour, and for a free one exactly one of top, dv or the bin of its size |
| MspaceRuns.DirectReport | include/memory/malloc.c.h:3201-3213 | each directly mapped chunk spans whole pages with its offset and pad, and a fencepost and a zero head follow it |
| MspaceRuns.MapReport | include/memory/malloc.c.h:3314-3346 | map bits are set exactly when the bin holds a free chunk of its sizes |
| MspaceRuns.FootprintReport | include/memory/malloc.c.h:3782-3840 | footprint is segment bytes plus directly mapped bytes plus refused pages, and at most max_footprint |
| MspaceRuns.Step | include/memory/malloc.c.h:5165-5378 | each operation keeps the mspace valid and the held chunks distinct and exactly the live ones |
| MspaceRuns.Run | include/memory/malloc.c.h:5165-5378 | the same for every run of malloc, memalign, free and trim from a fresh mspace |
| CacheSizes.BinBounds | source/memory/nedmalloc.cpp:599-643 | size2binidx(size) is i exactly when 2^(i+4) <= size < 2^(i+5) |
| CacheSizes.FirstBinIsLeast | source/memory/nedmalloc.cpp:794-824 | the rounded request is the least bin size that holds it |
| CacheSizes.GrantedUsable | include/memory/malloc.c.h:3249-3260 | a block granted for a rounded request has less than 32 usable bytes more than asked for |
| CacheSizes.SameBin | source/memory/nedmalloc.cpp:895-922 | a block with less than 32 bytes of excess over the rounded request belongs to the bin that the request probes first, and fits the cache for requests up to 4096 bytes |
| Nedpools.MissReturns | source/memory/nedmalloc.cpp:1330-1440 | a block that nedpmalloc serves on a cache miss for at most 4096 bytes is, after any calls of other users, put by nedpfree at the head of the bin that its request probes first, in the cache of whichever thread frees it |
| Nedpools.HeadIsReused | source/memory/nedmalloc.cpp:1330-1348 | the newest block of the bin that a request is rounded to is the block the request gets, so a block that nedpfree has just put there comes back at once |
| LargestBin.LargestReturns | source/memory/nedmalloc.cpp:1435-1436 | a block of more than 4096 bytes served on a miss from a best-fitting tree chunk of s bytes is taken back by a cache if and only if s exceeds the padded size by at most 16 bytes or by enough to be split |
| LargestBin.SpareTree | include/memory/malloc.c.h:5165-5378 | a valid mspace, made by two allocations and a free, whose best fit for 8192 bytes has 24 bytes more than the padded size |
| LargestBin.NotTakenBack | source/memory/nedmalloc.cpp:1435-1436 | a pool in which a thread gets 8192 bytes, frees them, and its cache does not take the block |
| ThreadCaches.ThreadCache.ThreadcacheMalloc | source/memory/nedmalloc.cpp:789-875 | the newest block of the first bin, or else of the next bin, that has one; 0 exactly if both are empty; freeInCache falls by its recorded size |
| ThreadCaches.ThreadCache.RemoveCacheEntries | source/memory/nedmalloc.cpp:687-724 | exactly blocks not freed among the last age frees leave, and none such stays |
| ThreadCaches.ThreadCache.EvictBin | source/memory/nedmalloc.cpp:698-718 | the loop over one bin from its oldest end leaves only young blocks in it |
| ThreadCaches.ThreadCache.ReleaseFreeInCache | source/memory/nedmalloc.cpp:876-891 | no pass exactly if freeInCache is below THREADCACHEMAXFREESPACE, else one or two, after which it is; exactly the blocks not freed among the last 64 or 32 frees leave |
| ThreadCaches.ThreadCache.ThreadcacheFree | source/memory/nedmalloc.cpp:892-954 | the block goes to the head of the bin whose size is the largest not above its own and stays there; nothing leaves the cache while freeInCache stays below the limit, and otherwise exactly the blocks that one or two passes find old; lists, sums and order stay right |
| ThreadCaches.ThreadCache.Trim | source/memory/nedmalloc.cpp:1234-1236 | everything leaves the cache and freeInCache is zero |
| ThreadCaches.YoungTotal | source/memory/nedmalloc.cpp:876-891 | blocks freed at different times among the last age frees hold at most age * 8192 bytes |
| ThreadCaches.TailIsOldest | source/memory/nedmalloc.cpp:700-718 | the tail of a bin has the least lastUsed of the bin |
| ThreadCaches.NewestIsHead | source/memory/nedmalloc.cpp:932-946 | the block of the latest free heads its bin |
| ThreadCaches.HeadWord | source/memory/nedmalloc.cpp:645-685 | the head word of a bin is zero exactly when the cache holds no block of that bin |
| ThreadCaches.PushKeepsInv | source/memory/nedmalloc.cpp:932-946 | hooking a block in at the head keeps lists, order, sizes and freeInCache |
| ThreadCaches.EvictKeepsInv | source/memory/nedmalloc.cpp:702-715 | unhooking the tail keeps them |
| ThreadCaches.PopKeepsInv | source/memory/nedmalloc.cpp:837-862 | unhooking the head keeps them |
| Nedpools.Nedpool.Nedpmalloc | source/memory/nedmalloc.cpp:1330-1348 | if the cache has a block in the first or second bin of the request, exactly the newest block of the first such bin moves from the cache to the user and nothing else changes; otherwise a fresh block that mspace i owes the rounded request, or 0, and that only if mspace i has nothing for it and the system refuses or the size wraps around; never a block somebody holds; on a miss for at most 4096 bytes the block suits the bin that the request probes first |
| Nedpools.Nedpool.Nedpfree | source/memory/nedmalloc.cpp:1413-1440 | the user gives up exactly that block: it heads the bin of its size in the cache if there is one and the size suits, and otherwise is back in the mspace it came from; other caches do not change, and nothing leaves this one while it stays below its limit |
| Nedpools.Nedpool.CallMalloc | source/memory/nedmalloc.cpp:222-254 | a block that no user, cache or mspace had handed out, which is the chunk mspace i owes the request, with less than 32 bytes of excess below the mmap threshold; 0 only if the mspace has nothing and the system refuses or the size wraps around |
| Nedpools.Nedpool.CallFree | source/memory/nedmalloc.cpp:347-376 | the block goes back to the mspace that granted it and is live nowhere else |
| Nedpools.Nedpool.Nedblksize | source/memory/nedmalloc.cpp:509-540 | the usable size of a held block is its chunk size less the overhead |
| Nedpools.Nedpool.Nedtrimthreadcache | source/memory/nedmalloc.cpp:1213-1245 | without disabling: this cache is emptied into the mspaces, other caches do not change and no user loses a block |
| Nedpools.Step | source/memory/nedmalloc.cpp:1330-1440 | each pool call keeps the partition of blocks |
| Nedpools.Run | source/memory/nedmalloc.cpp:1330-1440 | in every run of pool calls no live block is handed out twice, users hold exactly the blocks granted and not freed, and these have no byte in common |
| Nedpools.UsersApart | source/memory/nedmalloc.cpp:1330-1440 | the chunks of all blocks that users hold are disjoint, whichever mspaces they came from |
| SpinLocks.StepKeepsInv | include/memory/malloc.c.h:1788-1867 | every atomic step of acquire, release and try by any thread keeps the lock invariant |
| SpinLocks.MutualExclusion | include/memory/malloc.c.h:1788-1867 | in every interleaving at most one thread owns the lock, threadid names only an owner, c is its nesting depth, threadid is 0 while l is 0, and no assertion after the exchange fails |
| SpinLocks.AcquireEnds | include/memory/malloc.c.h:1788-1826 | from every reachable state, a thread that takes all steps has the lock once more after at most six if the lock is free or its own; otherwise it goes on reading the lock and changes nothing |
| SpinLocks.WaiterEnters | include/memory/malloc.c.h:1791-1813 | a thread that waits in the loop has the lock within six steps of its own once the lock is free |
| SpinLocks.TryEnds | include/memory/malloc.c.h:1843-1867 | a thread that takes all steps ends the attempt within six: it has the lock once more if the lock was free or its own at the start, and nothing has changed otherwise |
| SpinLocks.ReleaseEnds | include/memory/malloc.c.h:1828-1841 | a thread that takes all steps ends a release within seven: it has the lock once less, and l, c and threadid are 0 if that was the last time |
| PoolProtocol.StepKeepsInv | source/memory/nedmalloc.cpp:747-1057 | every shared access of any thread, in nedpmalloc, nedpfree or nedtrimthreadcache, keeps the pool invariant and stays in bounds |
| PoolProtocol.RunKeepsInv | source/memory/nedmalloc.cpp:997-1057 | every run keeps the invariant, and between any two of its states p->m only grows |
| PoolProtocol.PoolIsSafe | source/memory/nedmalloc.cpp:997-1314 | in every interleaving p->m is a gap-free prefix of at most p->threads entries that only grows from any state to any later one, TLS values stand for a live cache or a populated slot, and GetMSpace returns only with that mspace locked by the caller |
| PoolProtocol.DisabledValue | source/memory/nedmalloc.cpp:1226-1233 | the value nedtrimthreadcache stores decodes to the slot before the one last used, which is populated, and to "unset" for slot 0 |
| PoolProgress.GetMSpaceFinds | source/memory/nedmalloc.cpp:997-1057 | in every state that the invariant of all runs admits, a thread in GetMSpace that takes all steps locks its last mspace if it can, else the first free one above it, else the first free one below it, else a new one at the end of the list, and remembers it; it waits only if all are busy and no new one can be made or another thread has the pool lock |
| PoolProgress.FallbackWaits | source/memory/nedmalloc.cpp:1043-1046 | a thread that fell back on its last mspace gets it as soon as it can be locked, and changes nothing until then |
| PoolProgress.UseEnds | source/memory/nedmalloc.cpp:1251-1258 | the mspace that a thread used is free again when the thread has left |
| PoolProgress.CacheAssigned | source/memory/nedmalloc.cpp:747-787 | a thread without cache and TLS value that takes all steps gets the first empty slot, with the mspace that its id selects among those there are; with all slots taken or no memory it does without, on mspace 0 |
| PoolRuns.DisabledAfterFirst | source/memory/nedmalloc.cpp:1226-1233 | a run in which a thread that last used slot 0 disables its cache |
| PoolRuns.DisabledAfterSecond | source/memory/nedmalloc.cpp:1226-1233 | a run of two threads in which the one that made and last used slot 1 disables its cache |
| Rpc.StepKeepsInv | source/rpc/JME_RpcClient.cpp:60-223 | every client, server, timer and network step keeps the protocol invariant |
| Rpc.RunKeepsInv | source/rpc/JME_RpcClient.cpp:60-223 | every run of steps keeps it |
| Rpc.RepliesAreSafe | source/rpc/JME_RpcClient.cpp:173-223 | over every run each reply callback runs at most once, with a result of the handler for the method and parameters of its own call, and never for a call whose entry its dead callback removed |
| Rpc.BothCallbacksCanRun | source/rpc/JME_RpcClient.cpp:216-223 | for every timed call its handler may answer there is a run in which both its reply callback and its dead callback run |
| RpcCallbacks.CallbackOutcome | source/rpc/JME_RpcClient.cpp:173-223 | in every run a dead callback means a timed call with an expired timer, and that it removed the entry or a reply had taken it, never both; both callbacks have run exactly if the reply callback has and the timer is finished; once a call is settled its dead callback has run exactly if the timer expired, and its reply callback exactly if a reply took the entry |
| RpcCallbacks.BothCanRunIff | source/rpc/JME_RpcClient.cpp:173-223 | both callbacks of a call can run if and only if it is timed and its handler may answer |
| RpcCallbacks.OnePlace | source/rpc/JME_RpcClient.cpp:60-223 | in every run a call with a callback is in exactly one of these places from its start on: waiting, taken by a reply, answered, removed; one without a callback is in none |
| RpcCallbacks.CallStays | source/rpc/JME_RpcClient.cpp:60-92 | a call that has started keeps its id, method, parameters and form |
| RpcCallbacks.ReplyIsAnswered | source/rpc/JME_RpcClient.cpp:173-197 | after any run, receiving a response to a waiting call, cancelling its timer if it has one and running the callback adds exactly one answer, with the parameters of the response, and removes exactly that entry |
| RpcCallbacks.AnswerCanFollow | source/rpc/JME_RpcClient.cpp:60-197 | after any run, a new call with a callback can be started and answered with any result its handler may give |
| RpcCallbacks.CanBeAnsweredIff | source/rpc/JME_RpcClient.cpp:60-197 | some run answers a call if and only if it has a callback and its handler may answer |
| Rpc.RpcClient.NextCall | source/rpc/JME_RpcClient.cpp:60-92 | a fresh id, under which an entry is registered if and only if the call has a callback, with a timer if and only if it is timed; the other entries stay; no id is used up while the session is down |
| Rpc.RpcClient.TakeEntry | source/rpc/JME_RpcClient.cpp:173-197 | whoever finds the entry has removed it |
| Rpc.RpcClient.RemoveDeadRPC | source/rpc/JME_RpcClient.cpp:205-214 | the entry is gone and the result tells whether it was there |
| Rpc.RpcHandlers.RegRpcHandler | source/rpc/JME_RpcHandler.cpp:13-26 | a second registration of a method is refused |
| Rpc.RpcHandlers.ServeRequest | source/rpc/JME_RpcServer.cpp:63-82 | answered exactly if the method is known and its handler gives a result, under the id and name of the request; this is a server step of the protocol |
| SymbolIndex.ValidateSymbolName | include/google/protobuf/descriptor_database.cc:234-247 | true exactly for names of letters, digits, underscores and dots |
| SymbolIndex.EnclosedIffExtended | include/google/protobuf/descriptor_database.cc:226-232 | a symbol encloses exactly itself and the names that continue it behind a dot |
| SymbolIndex.BetweenIsEnclosed | include/google/protobuf/descriptor_database.cc:88-90 | a valid name that sorts between a scope and a name in it is in that scope |
| SymbolIndex.ProbeIsScan | include/google/protobuf/descriptor_database.cc:179-186 | the single probe gives the answer of the linear scan for every query string while no stored symbol encloses another one |
| SymbolIndex.ProbeCompleteIff | include/google/protobuf/descriptor_database.cc:179-186 | over valid sorted keys the probe agrees with the scan on all names if and only if no stored symbol encloses another one |
| SymbolIndex.ProbeIsSound | include/google/protobuf/descriptor_database.cc:179-186 | whatever is stored, a probe that finds something found an enclosing symbol |
| SymbolIndex.FirstAboveConflicts | include/google/protobuf/descriptor_database.cc:113-117 | of the keys above a name the first one is in its scope if any is |
| SymbolIndex.AcceptsIff | include/google/protobuf/descriptor_database.cc:85-134 | the two keys that AddSymbol looks at decide: accepted exactly if the name conflicts with no key, or is overlooked |
| SymbolIndex.OverlookedIsMissed | include/google/protobuf/descriptor_database.cc:214-224 | whenever an overlooked name is taken, some name in its scope is no longer found |
| SymbolIndex.OverlookedName | include/google/protobuf/descriptor_database.cc:214-224 | with foo.bar stored, foo conflicts and is overlooked |
| SymbolIndex.DescriptorIndex.FindSymbol | include/google/protobuf/descriptor_database.cc:179-186 | returns what the linear scan returns |
| SymbolIndex.DescriptorIndex.AddSymbol | include/google/protobuf/descriptor_database.cc:85-134 | refuses exactly the invalid and the conflicting names except the overlooked ones; the invariant survives if and only if the name is not overlooked |
| Sums.PlusNum | source/util/JME_Encrypt.cpp:288-291 | adding two 32-bit words adds the numbers they stand for modulo 2^32 |
| RoundFunction.OnlySelectedMatter | source/util/JME_Encrypt.cpp:282-291 | the result of F depends on the four cells alone that the bytes of the word select, the most significant byte in the first box |
| RoundFunction.FourthBoxAdds | source/util/JME_Encrypt.cpp:288-291 | what is added to the cell of the fourth box is added to the result of F modulo 2^32 |
| RoundFunction.ThirdBoxXors | source/util/JME_Encrypt.cpp:288-291 | with 0 in the cell of the fourth box, what is xored into the cell of the third is xored into the result of F |
| RoundFunction.FirstBoxesAdd | source/util/JME_Encrypt.cpp:288-291 | with 0 in the cells of the last two boxes the result of F is the sum of the other two modulo 2^32 |
| Blowfish.RoundsUndone | source/util/JME_Encrypt.cpp:344-380 | round j of the network with reversed subkeys undoes round 16 - j |
| Blowfish.CipherInverts | source/util/JME_Encrypt.cpp:344-380 | for all tables and blocks deciphering undoes enciphering and the other way round |
| BlowfishCipher.Cipher.Encrypt4 | source/util/JME_Encrypt.cpp:344-361 | the unrolled code is the sixteen-round network |
| BlowfishCipher.Cipher.Decrypt4 | source/util/JME_Encrypt.cpp:363-380 | the unrolled code is the network with the subkeys reversed |
| CipherModes.PutGet | source/util/JME_Encrypt.cpp:382-435 | BytesToBlock and BlockToBytes are inverse to each other at every offset |
| BlowfishCipher.BytesToBlock | source/util/JME_Encrypt.cpp:382-411 | reads the big-endian block at an offset |
| BlowfishCipher.BlockToBytes | source/util/JME_Encrypt.cpp:414-435 | writes exactly the eight bytes before the end pointer |
| BlowfishCipher.Cipher.constructor | source/util/JME_Encrypt.cpp:294-341 | the key, cut to 56 bytes and repeated, is added to the subkeys, and all 521 word pairs are then overwritten by the chain of blocks that the evolving cipher produces |
| BlowfishCipher.NextWord | source/util/JME_Encrypt.cpp:311-333 | the recycled key pointer takes the bytes of the key modulo its length |
| KeySchedule.ScheduleUnique | source/util/JME_Encrypt.cpp:334-341 | the key determines the tables |
| KeySchedule.AllOverlaid | source/util/JME_Encrypt.cpp:334-341 | every word of the initial tables is overwritten: the final tables depend on the blocks of the chain alone |
| CipherModes.EncryptsIffDecrypts | source/util/JME_Encrypt.cpp:439-610 | in each mode and for all tables, chains and buffers, one text encrypts to another exactly if the other decrypts to it |
| CipherModes.RoundTrip | source/util/JME_Encrypt.cpp:526-610 | decrypting what was encrypted gives the plain text back in all three modes |
| CipherModes.EncryptsUnique | source/util/JME_Encrypt.cpp:439-478 | the plain text determines the cipher text |
| CipherModes.DecryptsUnique | source/util/JME_Encrypt.cpp:482-522 | the cipher text determines the plain text |
| CipherModes.CfbUntouchedIff | source/util/JME_Encrypt.cpp:501-512 | in CFB mode an untouched cipher text is its own decryption if and only if every block is chained to the block that enciphers to zero |
| CipherModes.CfbUntouchedFails | source/util/JME_Encrypt.cpp:501-512 | for all tables there is a chain for which no non-empty buffer is decrypted in place in CFB mode |
| BlowfishCipher.Cipher.Encrypt3 | source/util/JME_Encrypt.cpp:526-565 | out is the encryption of what was in input, also when the two are one buffer; bytes from n on and ragged lengths stay untouched |
| BlowfishCipher.Cipher.Decrypt3 | source/util/JME_Encrypt.cpp:569-610 | out is the decryption of what was in input, also when the two are one buffer |
| BlowfishCipher.Cipher.Encrypt2 | source/util/JME_Encrypt.cpp:439-478 | the buffer becomes the encryption of what it held, in each mode |
| BlowfishCipher.Cipher.Decrypt2 | source/util/JME_Encrypt.cpp:482-522 | the buffer becomes the decryption of what it held in ECB and CBC mode, and does not change in CFB mode |
| BlowfishCipher.Cipher.InPlaceAgrees | source/util/JME_Encrypt.cpp:439-610 | the in-place forms produce the bytes of the out-of-place forms |
| BlowfishCipher.Cipher.InPlaceRoundTrip | source/util/JME_Encrypt.cpp:439-522 | encrypting and decrypting in place restores the buffer in ECB and CBC mode, and in CFB mode exactly under the condition on the chain |

## Left out

- Mspaces.Mspace.MmapResize: promises a valid mspace only when the remapped region fits the chunk; the other case is the defect above, and the footprint is exact in both.
- Mspaces.Mspace.Malloc: does not model the lock around the operation; one mspace is used by one thread at a time, which `SpinLocks` and `PoolProtocol` are about.
- Mspaces.Mspace.Free: takes only chunks that are live; the usage checks for foreign, freed or corrupted pointers (`RTCHECK`, `ok_address`, magic words, `PROCEED_ON_ERROR`) are not modelled.
- Mspaces.Mspace.Memalign: alignments above 2^63 are excluded; the loop that rounds them up to a power of two does not end.
- Mspaces.Mspace.ReplaceDv: the condition that the old dv is small is a precondition, which every caller is proved to meet.
- ThreadCaches.ThreadCache.ThreadcacheFree: the counter of frees does not wrap around, and evicted blocks are returned in order for the pool to free.
- Nedpools.Nedpool.Nedpmalloc: the set of mspaces and caches of the pool is fixed during sequential runs; `PoolProtocol` is about its growth.
- Nedpools.Nedpool.Nedtrimthreadcache: the branch that disables the cache is in `PoolProtocol` only.
- MspaceRuns.DirectReport: that a directly mapped chunk is not small is not stated.
- Nedpools.Nedpool.CallFree: a map from blocks to mspaces stands for the footer that names the mspace; foreign blocks are not modelled.
- SpinLocks.MutualExclusion: steps are sequentially consistent; yielding and spin counts are not modelled.
- SpinLocks.AcquireEnds: is about a thread that takes all steps; nothing is promised under a scheduler that lets others take the lock again and again, and the source promises no fairness either.
- PoolProgress.GetMSpaceFinds: is about a thread that takes all steps, and `calloc` and `create_mspace` succeed always or never during them.
- PoolProtocol.PoolIsSafe: locks are taken as atomic, callers release the mspace they were given, and pools are not destroyed.
- Rpc.RepliesAreSafe: fewer than 2^31 calls; serialisation is taken as lossless and handlers as a relation between parameters and results.
- BlowfishCipher.Cipher.constructor: the initial tables are arbitrary and the empty key, which leaves them unset, is excluded.
- BlowfishCipher.Cipher.Encrypt3: the two buffers are one buffer or do not overlap.
- The subkey and substitution tables of the cipher are sequence-valued fields, so only the byte buffers are updated in place.
- The first word of a chunk and the last word of the chunk before it share memory with user data in the source; head words and feet are maps of their own here, so overwriting by users is not modelled.
- Memory links of the bins (`fd`, `bk`, `child`, `parent`) are maps in a field of the bin classes, so aliasing with user data is not modelled.
- mremap moves the foot word of a chunk together with its contents.
- `mspace_realloc` apart from `mmap_resize`, `mspace_calloc`, the independent allocations, `mallinfo` and statistics.
- Global `dlmalloc`, MORECORE, Win32 and large-page variants.
- The string wrappers `Encrypt` and `Decrypt` of the cipher, which read past the end of ragged input.
- `AddFile`, `AddExtension` and the other maps of the descriptor database.
- Sessions, acceptors, logging, JSON and database code.
