# IOMMU DMA mapping, GPU VMA lifecycle and DWMAC4 register logic in Dafny

This project models three pieces of an Android arm64 kernel tree and proves
properties of the models.

**The arm64 IOMMU DMA mapper** (`arch/arm64/mm/dma-mapping.c`):

- **The bitmap IOVA allocator.** `__alloc_iova` rounds a size up to a page and
  pads it with a guard region up to `min_iova_align`. It aligns the run to a
  capped power of two, finds the first clear run of the bitmap, sets it and
  maps the guard page. `__free_iova` recomputes the run and clears it.
- **The buffer mapper built on the allocator:**
  - `__iommu_create_mapping` issues one `iommu_map` per maximal run of
    consecutive page frames and unwinds a partial failure;
    `__iommu_remove_mapping` undoes it.
  - `__iommu_alloc_buffer` fills the page array with the largest page order
    that still fits, retrying lower orders, and `__iommu_free_buffer` releases
    it.
  - The atomic and blocking paths of `arm_iommu_alloc_attrs`, with
    `arm_iommu_free_attrs` and `arm_iommu_mmap_attrs`.
  - The single-page, resource and scatter-gather map, unmap and sync paths.
  - The protection-flag functions.
- **The mapping lifecycle.** `arm_iommu_create_mapping`,
  `arm_iommu_init_mapping` with its backend choice, `bitmap_iommu_init_mapping`,
  attach, detach and `arm_iommu_release_mapping`.

**The MSM GPU VMA lifecycle** (`drivers/gpu/drm/msm/msm_gem_vma.c`):

- A vma's `iova`, `mapped` and `inuse` fields under init, map, unmap, purge
  and close.
- The reference-counted address space, with its destructor dispatch.
- The SMMU map and unmap of a vma.
- The op-table dispatchers.

**The DWMAC4 DMA register logic**
(`drivers/net/ethernet/stmicro/stmmac/dwmac4_lib.c`):

- Start and stop of the TX and RX engines.
- Interrupt enable and disable.
- Decoding the DMA interrupt status into counters and return flags.
- Packing a MAC address into two register words and reading it back.
- The MAC enable switch.
- The VLAN filter programming with its argument checks and bounded busy-waits.

**How the model is built:**

- The IOMMU driver, the page allocators, `vm_insert_page`, `drm_mm`, the MMU
  function table and hardware register reads are not visible code. They
  become parameters of the operations: booleans, return codes, or functions
  from the call's position to the answer. Each model is therefore
  deterministic in its inputs.
- The IOMMU requests a mapping makes are appended to the domain's request
  log, so "which `iommu_map`/`iommu_unmap` calls are made" is an equation on
  that log.
- Cache maintenance is recorded as the list of calls made, without their
  memory effect.
- Code that updates state in place is modelled as classes:
  - `IommuMapping` with its bitmap array;
  - `Domain`;
  - `Device`;
  - `Vma` and `AddressSpace`;
  - `Mmio`, the register file as a map from register to word;
  - `ExtraStats`, the interrupt counters.
- Each method is proved against a specification function of the old state,
  and the properties are proved about those functions.
- The pure flag and offset arithmetic is written as functions and lemmas.

Two behaviours of the code that the model keeps as they are:

- **Attaching an initialised mapping.** `arm_iommu_init_mapping` returns at
  once for a mapping that is already initialised
  (`arch/arm64/mm/dma-mapping.c:1066-1067`), so attaching a second device
  takes no further reference; `Device.AttachDevice` states this.
- **The dispatching `msm_gem_map_vma`/`msm_gem_unmap_vma`.** They read
  `aspace->ops` without a NULL check (`msm_gem_vma.c:238`, `247`), while the
  active-list and callback dispatchers do check it.

## Model

| member | source | states |
|---|---|---|
| PageMath.AlignUp | arch/arm64/mm/dma-mapping.c:142 | ALIGN(x, a) is a multiple of a, at least x and less than a past it |
| PageMath.AlignUpLeast | arch/arm64/mm/dma-mapping.c:142 | no multiple of a at or above x lies below ALIGN(x, a): it is the least such multiple |
| PageMath.PageAlign | arch/arm64/mm/dma-mapping.c:140 | PAGE_ALIGN gives a page multiple at least x and less than a page past it, and leaves a page multiple unchanged |
| PageMath.PageOffset | arch/arm64/mm/dma-mapping.c:374 | the in-page offset is below PAGE_SIZE |
| PageMath.PageBase | arch/arm64/mm/dma-mapping.c:375 | the page base is page aligned, not above x, and base plus in-page offset gives x back |
| PageMath.Fls | arch/arm64/mm/dma-mapping.c:251-252 | fls is 0 exactly for 0, and otherwise x lies in [2^(r-1), 2^r) |
| PageMath.GetOrder | arch/arm64/mm/dma-mapping.c:146 | get_order(size) is the least order whose 2^order pages hold size bytes (52 for size 0) |
| IovaBitmap.SetRun | arch/arm64/mm/dma-mapping.c:165 | bitmap_set sets exactly the bits of the run and keeps every other bit |
| IovaBitmap.ClearRun | arch/arm64/mm/dma-mapping.c:200 | bitmap_clear clears exactly the bits of the run and keeps every other bit |
| IovaBitmap.ClearUndoesSet | arch/arm64/mm/dma-mapping.c:165 | clearing a run that was set on clear bits restores the bitmap (also lines 200) |
| IovaBitmap.FirstZeroFrom | arch/arm64/mm/dma-mapping.c:159-163 | the first clear bit at or after from, with every bit before it set, or the size when there is none |
| IovaBitmap.FirstSetIn | arch/arm64/mm/dma-mapping.c:159-163 | the first set bit in [lo, hi), every bit before it clear, or hi |
| IovaBitmap.ZeroArea | arch/arm64/mm/dma-mapping.c:159-163 | a result inside the bitmap is a multiple of the alignment and starts a clear run of count bits |
| IovaBitmap.ZeroAreaFirstFit | arch/arm64/mm/dma-mapping.c:159-163 | first fit: no aligned start before the result (none at all on failure) starts a clear run of count bits |
| IovaBitmap.GuardLen | arch/arm64/mm/dma-mapping.c:141-144 | the guard is zero without min_iova_align and otherwise pads the size to a multiple of it, by less than one alignment |
| IovaBitmap.PlanAllocSound | arch/arm64/mm/dma-mapping.c:140-150 | __alloc_iova's plan: size rounded up to a page, guard as GuardLen, count covers size plus guard, order capped at CONFIG_ARM64_DMA_IOMMU_ALIGNMENT and otherwise large enough |
| IovaBitmap.PlanAlloc | arch/arm64/mm/dma-mapping.c:140-150 | the rounded size, guard, bit count and capped order __alloc_iova computes; PlanAllocSound states their bounds |
| IovaBitmap.PlanFreeSound | arch/arm64/mm/dma-mapping.c:186-199 | __free_iova's run starts at the page of addr and counts the whole pages of rounded size plus guard |
| IovaBitmap.PlanFree | arch/arm64/mm/dma-mapping.c:186-197 | the first bit, bit count, guard and rounded size __free_iova recomputes from its address and size; PlanFreeSound states them |
| IovaBitmap.FreeMatchesAlloc | arch/arm64/mm/dma-mapping.c:140-150 | with a page-multiple min_iova_align and base, __free_iova of base + start pages recomputes exactly __alloc_iova's size, guard and count (also lines 186-199) |
| IovaBitmap.PageMultipleAlign | arch/arm64/mm/dma-mapping.c:142 | aligning a page multiple to a page multiple stays a page multiple |
| IovaBitmap.AllocAligned | arch/arm64/mm/dma-mapping.c:150-167 | a found range's address is aligned to PAGE_SIZE << order when the base is aligned to the largest order |
| IovaBitmap.AllocKeepsLiveRuns | arch/arm64/mm/dma-mapping.c:159-165 | setting a clear run keeps the invariant that live runs are set and pairwise disjoint |
| IovaBitmap.FreeKeepsLiveRuns | arch/arm64/mm/dma-mapping.c:200 | clearing one live run keeps every other live run set and disjoint |
| DmaFlags.DirectionToProt | arch/arm64/mm/dma-mapping.c:588-607 | READ exactly for bidirectional and to-device, WRITE exactly for bidirectional and from-device, nothing else |
| DmaFlags.IommuPgprot | arch/arm64/mm/dma-mapping.c:74-87 | keeps prot and adds NOEXEC unless EXEC_MAPPING, the upstream hint and LLC no-write-allocate on their attributes, CACHE for coherent devices, and nothing else |
| DmaFlags.PagePathProt | arch/arm64/mm/dma-mapping.c:739-768 | a page mapping never asks for MMIO or guard protection, and reads and writes as its direction says |
| DmaFlags.DevToCpuOp | arch/arm64/mm/dma-mapping.c:101-111 | the page is marked clean exactly when the whole page came from the device |
| DmaFlags.ClearBufferOps | arch/arm64/mm/dma-mapping.c:115-128 | the buffer is zeroed exactly without SKIP_ZEROING and flushed exactly for a non-coherent device, zeroing first |
| DmaFlags.PageSyncNeeded | arch/arm64/mm/dma-mapping.c:784-785 | caches are maintained unless the device is coherent or DMA_ATTR_SKIP_CPU_SYNC is set; MapPage and UnmapPage state their calls by it |
| DmaMapping.AllocSpecSound | arch/arm64/mm/dma-mapping.c:130-178 | success iff a first-fit aligned run exists and the guard map (if any) succeeds; then the address is base + start pages and exactly that run turned from clear to set; on failure the bitmap is unchanged |
| DmaMapping.AllocSpec | arch/arm64/mm/dma-mapping.c:130-178 | __alloc_iova on the bitmap: the plan, the first-fit search, then AllocFrom; AllocSpecSound and FreeIovaUndoesAlloc state what it promises |
| DmaMapping.AllocFromSound | arch/arm64/mm/dma-mapping.c:152-177 | after the search the bitmap changes only on success, and the one request is the guard map past the range, made exactly when a range was found and the guard is not empty |
| DmaMapping.ShiftedIova | arch/arm64/mm/dma-mapping.c:164 | the address as written, with start << PAGE_SHIFT kept in 32 bits: within 4 GiB of base, and base + start pages while that fits |
| DmaMapping.ShiftedIovaAliases | arch/arm64/mm/dma-mapping.c:164-197 | as written, page 2^20 gets the base address of page 0, and the free of that address clears the run at page 0 instead of the run at 2^20 |
| DmaMapping.AllocFrom | arch/arm64/mm/dma-mapping.c:156-177 | the part after the search: no range, or the run set at base + start pages, then the guard map and its undo; AllocFromSound states it |
| DmaMapping.FreeIovaUndoesAlloc | arch/arm64/mm/dma-mapping.c:130-202 | __free_iova on a successful __alloc_iova clears exactly the bits it set and unmaps exactly its guard map |
| DmaMapping.AllocFromThenFree | arch/arm64/mm/dma-mapping.c:152-202 | FreeIovaUndoesAlloc for any clear run the search may return |
| DmaMapping.FreeReqs | arch/arm64/mm/dma-mapping.c:195-198 | the guard unmap is made exactly when the errata alignment is on, at the end of the rounded range, for the guard length |
| DmaMapping.IommuMapping.Bits | arch/arm64/mm/dma-mapping.c:159 | the allocator sees the first bits bits of the bitmap |
| DmaMapping.IommuMapping.GuardPhys | arch/arm64/mm/dma-mapping.c:171 | the guard page's physical address |
| DmaMapping.IommuMapping.WriteRun | arch/arm64/mm/dma-mapping.c:165 | bitmap_set/bitmap_clear in place change the allocator's bits as SetRun/ClearRun and nothing past them (also lines 200) |
| DmaMapping.IommuMapping.AllocIova | arch/arm64/mm/dma-mapping.c:130-178 | the address, new bitmap and requests are AllocSpec's |
| DmaMapping.IommuMapping.Commit | arch/arm64/mm/dma-mapping.c:164-177 | marking and guard mapping after the search are AllocFrom's |
| DmaMapping.IommuMapping.FreeIova | arch/arm64/mm/dma-mapping.c:180-202 | the run PlanFree computes is cleared and the guard unmap FreeReqs made |
| DmaBuffer.OrderMask | arch/arm64/mm/dma-mapping.c:243-244 | the orders of pgsize_bitmap that are at most MAX_ORDER |
| DmaBuffer.Narrow | arch/arm64/mm/dma-mapping.c:251 | narrowing only removes orders |
| DmaBuffer.NarrowFits | arch/arm64/mm/dma-mapping.c:251 | an order survives exactly when its chunk fits the pages still needed |
| DmaBuffer.Highest | arch/arm64/mm/dma-mapping.c:252 | __fls of a non-empty mask is its largest order |
| DmaBuffer.Retry | arch/arm64/mm/dma-mapping.c:254-261 | the retries end on an order of the mask not above the first, the page is the allocator's answer for it, and on success the mask left tops at that order |
| DmaBuffer.RetryDropsRefused | arch/arm64/mm/dma-mapping.c:256-261 | every order the retries drop was refused at that slot and lies above the order they end on |
| DmaBuffer.PickAt | arch/arm64/mm/dma-mapping.c:251-261 | a chunk obtained has an order of the mask, fits the pages still needed and is the allocator's page for it |
| DmaBuffer.NoFitReachesFlsOfZero | arch/arm64/mm/dma-mapping.c:251-252 | as written, a mask with no order that fits reaches __fls(0) |
| DmaBuffer.LastOrderRefusedReachesFlsOfZero | arch/arm64/mm/dma-mapping.c:256-258 | as written, refusing the only order that fits reaches __fls(0) |
| DmaBuffer.OnePageOn64KReachesFlsOfZero | arch/arm64/mm/dma-mapping.c:243-252 | as written, a one-page buffer on an IOMMU whose smallest page is 64 KiB reaches __fls(0) |
| DmaBuffer.RefusedBlockOn64KReachesFlsOfZero | arch/arm64/mm/dma-mapping.c:243-258 | as written, a sixteen-page buffer on that IOMMU with no 64 KiB block free reaches __fls(0) |
| DmaBuffer.AsWrittenAgrees | arch/arm64/mm/dma-mapping.c:248-277 | the corrected loop equals the code as written wherever that is defined and fails the allocation where it is not |
| DmaBuffer.FillFrom | arch/arm64/mm/dma-mapping.c:248-277 | the corrected outer loop: chunk by chunk from the largest fitting order, failing where the code would take __fls(0); FillCount, FillOrders and AsWrittenAgrees state its properties |
| DmaBuffer.FillAfter | arch/arm64/mm/dma-mapping.c:263-277 | the rest of a pass once an order was picked; FillAfterCount and FillAfterOrders state its properties |
| DmaBuffer.FillAsWritten | arch/arm64/mm/dma-mapping.c:248-277 | the outer loop as written, undefined where it reaches __fls(0); NoFitReachesFlsOfZero shows where, AsWrittenAgrees that it agrees elsewhere |
| DmaBuffer.AsWrittenAfter | arch/arm64/mm/dma-mapping.c:263-277 | the rest of a pass as written; AfterAgrees relates it to FillAfter |
| DmaBuffer.AfterAgrees | arch/arm64/mm/dma-mapping.c:263-277 | AsWrittenAgrees for the rest of a pass |
| DmaBuffer.Split | arch/arm64/mm/dma-mapping.c:266-271 | a chunk fills 2^order slots with pages[i + j] = pages[i] + j |
| DmaBuffer.Expand | arch/arm64/mm/dma-mapping.c:266-275 | the chunks fill as many slots as they hold pages |
| DmaBuffer.FillCount | arch/arm64/mm/dma-mapping.c:248-277 | on success the chunks hold exactly count pages, on failure fewer |
| DmaBuffer.FillAfterCount | arch/arm64/mm/dma-mapping.c:263-277 | FillCount for the rest of a pass |
| DmaBuffer.FillOrders | arch/arm64/mm/dma-mapping.c:248-277 | every chunk's order is one of the starting mask |
| DmaBuffer.FillAfterOrders | arch/arm64/mm/dma-mapping.c:263-277 | FillOrders for the rest of a pass |
| DmaBuffer.FirstChunkLargest | arch/arm64/mm/dma-mapping.c:251-261 | largest fit: the first chunk is below a fitting order only when that order was refused |
| DmaBuffer.ExpandAppend | arch/arm64/mm/dma-mapping.c:266-275 | the slots of two lists of chunks are the slots of each in turn |
| DmaBuffer.ExpandAllPages | arch/arm64/mm/dma-mapping.c:266-275 | every slot the chunks fill holds a page |
| DmaBuffer.ClearOpsAppend | arch/arm64/mm/dma-mapping.c:273-274 | the clear-buffer calls of two lists of chunks are those of each in turn |
| DmaBuffer.FreeOrder | arch/arm64/mm/dma-mapping.c:281-283 | the error path gives back at most one frame per slot |
| DmaBuffer.Frames | arch/arm64/mm/dma-mapping.c:301-303 | the free loop gives back at most one frame per slot |
| DmaBuffer.FramesOfFull | arch/arm64/mm/dma-mapping.c:301-303 | a full array gives back each slot's page once, in slot order |
| DmaBuffer.FreeOrderReverses | arch/arm64/mm/dma-mapping.c:281-283 | the error path gives back the same frames as the free loop, in the opposite order (also lines 301-303) |
| DmaBuffer.FramesCons | arch/arm64/mm/dma-mapping.c:301-303 | the free loop's frames are the first slot's and then the rest's |
| DmaBuffer.FilledArrayFrees | arch/arm64/mm/dma-mapping.c:248-283 | an array the loop filled gives back every page, in slot order through the free loop and in reverse through the error path (also lines 301-303) |
| DmaBuffer.Contiguous | arch/arm64/mm/dma-mapping.c:233-234 | slot i holds the CMA region's page i |
| DmaBuffer.RetrySlot | arch/arm64/mm/dma-mapping.c:254-261 | the retry loop computes Retry |
| DmaBuffer.PlaceChunk | arch/arm64/mm/dma-mapping.c:266-271 | the chunk's pages go to the slots from i on, every other slot unchanged |
| DmaBuffer.PassUnfolds | arch/arm64/mm/dma-mapping.c:251-277 | one pass either fails the loop or takes a fitting chunk and continues from the slot after it |
| DmaBuffer.EmptyPassFails | arch/arm64/mm/dma-mapping.c:251-252 | a pass with no fitting order fails the allocation |
| DmaBuffer.Pass | arch/arm64/mm/dma-mapping.c:251-276 | one pass in place: a failure is FillFrom's failure, a chunk advances slot and count by its size and FillFrom continues from there |
| DmaBuffer.FillLoop | arch/arm64/mm/dma-mapping.c:248-277 | the loop fills the first slots with the chunks FillFrom obtains, succeeds exactly when FillFrom does, and makes the clear-buffer calls of those chunks |
| DmaBuffer.ChunkStep | arch/arm64/mm/dma-mapping.c:266-276 | one more chunk adds its pages, slots and clear-buffer calls |
| DmaBuffer.PagesAppend | arch/arm64/mm/dma-mapping.c:275-276 | one more chunk adds 2^order pages |
| DmaBuffer.FreeBackwards | arch/arm64/mm/dma-mapping.c:281-283 | the error loop gives back the non-NULL pages of the filled slots, last first |
| DmaBuffer.BufferOf | arch/arm64/mm/dma-mapping.c:204-289 | a returned array has one page in every slot of size / PAGE_SIZE |
| DmaBuffer.AllocBuffer | arch/arm64/mm/dma-mapping.c:204-289 | NULL without an array, without CMA pages, or with an empty mask; the CMA region page by page; otherwise FillFrom's chunks on success, or NULL with every page obtained given back in reverse; the clear-buffer calls made |
| DmaBuffer.ReleaseOf | arch/arm64/mm/dma-mapping.c:291-311 | the CMA region is released exactly for a forced-contiguous buffer, otherwise at most one page per slot is freed |
| DmaBuffer.FreeBuffer | arch/arm64/mm/dma-mapping.c:291-311 | __iommu_free_buffer releases ReleaseOf |
| DmaCreate.RunFrom | arch/arm64/mm/dma-mapping.c:348-350 | the end of the maximal run of consecutive frames from i |
| DmaCreate.Translations | arch/arm64/mm/dma-mapping.c:343-359 | no requests translate no pages |
| DmaCreate.Window | arch/arm64/mm/dma-mapping.c:343-359 | the reference translation has one entry per page |
| DmaCreate.TranslationsCons | arch/arm64/mm/dma-mapping.c:343-359 | requests translate in order |
| DmaCreate.WindowSplit | arch/arm64/mm/dma-mapping.c:355-357 | two adjacent windows make one |
| DmaCreate.RunTranslation | arch/arm64/mm/dma-mapping.c:348-353 | one run's iommu_map translates its pages to consecutive frames |
| DmaCreate.ConsInstalls | arch/arm64/mm/dma-mapping.c:352-357 | a successful run in front of a pass keeps what the pass installs |
| DmaCreate.ConsInstallsAll | arch/arm64/mm/dma-mapping.c:352-357 | a run in front of a complete pass translates the whole window |
| DmaCreate.ConsInstallsPart | arch/arm64/mm/dma-mapping.c:352-357 | a run in front of a failed pass translates the pages mapped so far |
| DmaCreate.MapRunsSound | arch/arm64/mm/dma-mapping.c:343-359 | the loop translates every page to its own frame, or on a failed map exactly the pages before the failing run |
| DmaCreate.MapRuns | arch/arm64/mm/dma-mapping.c:343-359 | the mapping loop: one iommu_map per run of consecutive frames until one fails; MapRunsSound and RunsMaximal state what it installs |
| DmaCreate.OkInstalls | arch/arm64/mm/dma-mapping.c:352-357 | MapRunsSound after a successful map |
| DmaCreate.ConsMaximal | arch/arm64/mm/dma-mapping.c:348-353 | a map that abuts the next request without continuing its frames keeps the runs maximal |
| DmaCreate.RunsMaximal | arch/arm64/mm/dma-mapping.c:343-359 | one iommu_map per maximal run, in order, abutting in IOVA, the first at dma_addr |
| DmaCreate.NextRunApart | arch/arm64/mm/dma-mapping.c:348-350 | the frame after a run does not continue it |
| DmaCreate.RunEnd | arch/arm64/mm/dma-mapping.c:348-350 | the inner loop finds RunFrom |
| DmaCreate.MapOne | arch/arm64/mm/dma-mapping.c:344-357 | one run's map is logged, and on success the pass continues from the run's end at the advanced IOVA |
| DmaCreate.Advance | arch/arm64/mm/dma-mapping.c:356-357 | iova stays dma_addr plus the pages mapped |
| DmaCreate.MapLoop | arch/arm64/mm/dma-mapping.c:343-359 | the loop's requests and outcome are MapRuns', and iova stops past the pages mapped |
| DmaCreate.CreateSpecSound | arch/arm64/mm/dma-mapping.c:326-365 | an address exactly when the reservation and every map succeed, then page aligned with the whole window installed; on failure the bitmap is unchanged and a failed map unmaps exactly the pages mapped |
| DmaCreate.CreateSpec | arch/arm64/mm/dma-mapping.c:326-365 | __iommu_create_mapping on the bitmap: the reservation, then MapSpec; CreateSpecSound states its outcome |
| DmaCreate.MapSpecSound | arch/arm64/mm/dma-mapping.c:343-364 | success keeps the reservation and installs the window; a failed map unmaps [dma_addr, iova) and clears the reservation |
| DmaCreate.MapSpec | arch/arm64/mm/dma-mapping.c:343-364 | the mapping loop and its fail label; MapSpecSound states what success and failure leave |
| DmaCreate.CreateMapping | arch/arm64/mm/dma-mapping.c:326-365 | the address, bitmap and requests are CreateSpec's |
| DmaCreate.MapOrUnwind | arch/arm64/mm/dma-mapping.c:343-364 | the loop and fail label are MapSpec's |
| DmaCreate.Unwind | arch/arm64/mm/dma-mapping.c:361-363 | the mapped prefix is unmapped and the reservation released |
| DmaCreate.RemoveMapping | arch/arm64/mm/dma-mapping.c:367-382 | the page range covering [iova, iova + size) is unmapped and its run cleared, with the guard unmap |
| DmaCreate.CreateThenRemove | arch/arm64/mm/dma-mapping.c:130-202 | removing a successful reservation clears exactly the bits it set and makes its guard request (also lines 367-382) |
| DmaCreate.CreateSpecThenRemove | arch/arm64/mm/dma-mapping.c:326-382 | __iommu_remove_mapping on a successful create's address and size restores the bitmap |
| DmaCreate.AllocSpecThenRemove | arch/arm64/mm/dma-mapping.c:130-178 | the same for the reservation alone (also lines 367-382) |
| DmaCreate.CreatedIsAllocated | arch/arm64/mm/dma-mapping.c:337-359 | a successful create returns its reservation's address and bitmap |
| DmaCreate.MapCoversSize | arch/arm64/mm/dma-mapping.c:334 | a successful loop covers PAGE_ALIGN(size), each page to its frame (also lines 343-359) |
| DmaCreate.AllocAddrAligned | arch/arm64/mm/dma-mapping.c:130-178 | reserved addresses are page aligned, from the base on |
| DmaCreate.RemoveRecomputes | arch/arm64/mm/dma-mapping.c:367-382 | on a page-aligned address the remove frees what __free_iova frees for the unaligned size |
| DmaCreate.ContiguousOneRun | arch/arm64/mm/dma-mapping.c:343-359 | a contiguous array is one iommu_map of the whole range (also lines 441-444) |
| DmaOps.AskAt | arch/arm64/mm/dma-mapping.c:747-767 | the request is made at the range's start with the path's protection (also lines 858-871, 640-645) |
| DmaOps.PageAsk | arch/arm64/mm/dma-mapping.c:755-760 | the request for a page mapping: the page of the first byte with the direction and attribute protection; MapPageCovers states it |
| DmaOps.ReserveSound | arch/arm64/mm/dma-mapping.c:747-767 | a map path succeeds iff reservation and request do; then the handle is the range plus the in-page offset, the run is set and the last request is at the range's start; every failure leaves the bitmap as it was (also lines 853-871, 636-655) |
| DmaOps.ReserveSpec | arch/arm64/mm/dma-mapping.c:747-767 | the shared shape of the map paths: __alloc_iova, one request, __free_iova when it fails; ReserveSound states the outcome |
| DmaOps.SettleSpec | arch/arm64/mm/dma-mapping.c:759-767 | the request after the reservation and the fail label that releases it; ReserveSound states the outcome |
| DmaOps.InPageSplit | arch/arm64/mm/dma-mapping.c:767 | adding the offset to the aligned address keeps the page and makes the offset its in-page part (also lines 870) |
| DmaOps.ReserveThenRemove | arch/arm64/mm/dma-mapping.c:739-817 | unmap on the handle a map returned, with a size rounding to the reserved length, clears exactly the bits the map set (also lines 847-884) |
| DmaOps.RemoveAt | arch/arm64/mm/dma-mapping.c:367-382 | the remove arithmetic on an offset handle recovers the reservation |
| DmaOps.Reserve | arch/arm64/mm/dma-mapping.c:747-767 | reservation and request in place are ReserveSpec's |
| DmaOps.Settle | arch/arm64/mm/dma-mapping.c:760-767 | the request and the fail label in place are SettleSpec's |
| DmaOps.CoherentMapPage | arch/arm64/mm/dma-mapping.c:739-768 | reserves PAGE_ALIGN(offset + size) and maps the buffer's page, as ReserveSpec |
| DmaOps.MapPage | arch/arm64/mm/dma-mapping.c:780-789 | cleans the caches first exactly when a sync is needed, then maps as CoherentMapPage |
| DmaOps.MapPageCovers | arch/arm64/mm/dma-mapping.c:739-768 | the handle lands on the buffer's first byte, the mapping reaches past its last byte, and no MMIO or guard bit is asked for |
| DmaOps.UnmapPage | arch/arm64/mm/dma-mapping.c:800-817 | syncs for the CPU exactly when needed, then unmaps and releases the handle's page range |
| DmaOps.UnmapSyncMatchesMap | arch/arm64/mm/dma-mapping.c:784-786 | the sync at unmap covers the same bytes as the one at map (also lines 809-813) |
| DmaOps.MapResource | arch/arm64/mm/dma-mapping.c:847-871 | reserves PAGE_ALIGN(size + offset) and maps the resource's page, as ReserveSpec |
| DmaOps.MapResourceCovers | arch/arm64/mm/dma-mapping.c:847-871 | the handle lands on phys, the mapping covers the resource, and the protection is always MMIO plus the direction's read and write |
| DmaOps.ResourceAsk | arch/arm64/mm/dma-mapping.c:862-865 | the request for an MMIO resource: the page of phys with the direction protection and IOMMU_MMIO; MapResourceCovers states it |
| DmaOps.UnmapResource | arch/arm64/mm/dma-mapping.c:873-884 | unmaps and releases the page range of the address |
| DmaOps.Tail | arch/arm64/mm/dma-mapping.c:648-652 | the lengths before k plus those from k on make the total |
| DmaOps.Tagged | arch/arm64/mm/dma-mapping.c:648-652 | one tagged segment per segment |
| DmaOps.TaggedLayout | arch/arm64/mm/dma-mapping.c:648-652 | each dma address is the previous plus the CPU length, each dma length runs to the end of the whole range, the first segment carries start and total, nothing else changes |
| DmaOps.TaggedAt | arch/arm64/mm/dma-mapping.c:648-652 | TaggedLayout at one segment |
| DmaOps.SumLengths | arch/arm64/mm/dma-mapping.c:631-632 | the first loop sums the segment lengths |
| DmaOps.TagSegments | arch/arm64/mm/dma-mapping.c:648-652 | the second loop writes the tagged layout in place |
| DmaOps.MapScatterlist | arch/arm64/mm/dma-mapping.c:621-655 | reserves the total; on success returns nents with the tagged layout, otherwise 0 with the IOVA released and the list untouched |
| DmaOps.SgAsk | arch/arm64/mm/dma-mapping.c:638-642 | the iommu_map_sg request of map_sg with the direction and attribute protection |
| DmaOps.UnmapScatterlist | arch/arm64/mm/dma-mapping.c:667-679 | unmaps and releases the range read back from the first segment |
| DmaOps.WholeRoundTrip | arch/arm64/mm/dma-mapping.c:636-655 | a reservation released with its own length clears exactly its bits (also lines 667-679) |
| DmaOps.SgRoundTrip | arch/arm64/mm/dma-mapping.c:621-679 | unmap_sg after map_sg of the same list clears exactly the bits map_sg set |
| DmaOps.TaggedFirst | arch/arm64/mm/dma-mapping.c:648-652 | the first segment carries the whole mapping |
| DmaOps.SyncSg | arch/arm64/mm/dma-mapping.c:688-726 | nothing for a coherent IOVA, otherwise one call per segment in order |
| DmaOps.SegmentOp | arch/arm64/mm/dma-mapping.c:700-725 | the cache call on one segment, toward the CPU or the device; SyncSg states the sequence |
| DmaOps.SyncSingle | arch/arm64/mm/dma-mapping.c:819-845 | nothing exactly for a coherent IOVA, otherwise one call covering size bytes from the handle's offset in the page it maps to |
| DmaOps.MappingError | arch/arm64/mm/dma-mapping.c:886-890 | a handle is an error exactly when it is DMA_ERROR_CODE |
| DmaAttrs.AtomicOneMap | arch/arm64/mm/dma-mapping.c:441-444 | an atomic allocation is mapped with one iommu_map, and succeeds iff reservation and that map do |
| DmaAttrs.AllocAtomic | arch/arm64/mm/dma-mapping.c:411-459 | nothing without array or pages; otherwise CreateSpec on the contiguous pages, with the linear or pool address on success and the pages given back on failure |
| DmaAttrs.FillContiguous | arch/arm64/mm/dma-mapping.c:441-442 | slot i holds page + i |
| DmaAttrs.MapContiguous | arch/arm64/mm/dma-mapping.c:444 | the create over the contiguous array is CreateSpec's |
| DmaAttrs.AllocBlocking | arch/arm64/mm/dma-mapping.c:490-513 | nothing when no buffer; otherwise the create over its pages, then the array, the kernel mapping, or the unwind |
| DmaAttrs.MapBuffer | arch/arm64/mm/dma-mapping.c:495-513 | the create over the buffer, then the array, the remap, or removal and freeing |
| DmaAttrs.UnwindBuffer | arch/arm64/mm/dma-mapping.c:509-512 | the bitmap is back to its state before the create and the buffer is released |
| DmaAttrs.CreateOutcome | arch/arm64/mm/dma-mapping.c:326-382 | a failed create leaves the bitmap; a successful one's address restores it on removal |
| DmaAttrs.AllocAttrs | arch/arm64/mm/dma-mapping.c:468-514 | a failure leaves the IOVA bitmap as it was; a success returns an aligned handle whose removal restores it and pages free and mmap can find. The atomic path returns CreateSpec's handle over the contiguous pages, with its bitmap and its iommu_map requests in the domain log, the pool or linear address on success and the pages given back on failure. The blocking path returns CreateSpec's handle over BufferOf's pages, left as Settled says (both paths together are the predicate Paths): the array or its remap, or the mapping removed and the buffer freed. Without pages the handle is DMA_ERROR_CODE and nothing is requested |
| DmaAttrs.GetPages | arch/arm64/mm/dma-mapping.c:395-409 | pool addresses give their page, NO_KERNEL_MAPPING takes the address as the array, a remap gives its array, anything else NULL |
| DmaAttrs.BlockingFindsPages | arch/arm64/mm/dma-mapping.c:395-409 | a blocking allocation finds its page array again (also lines 490-507) |
| DmaAttrs.LinearFindsNoPages | arch/arm64/mm/dma-mapping.c:395-409 | a coherent atomic allocation is never found (also lines 431-433) |
| DmaAttrs.FreeAttrs | arch/arm64/mm/dma-mapping.c:549-572 | as written: pool addresses go back through __iommu_free_atomic, found arrays are unmapped and released, anything else only warns |
| DmaAttrs.FreeAtomic | arch/arm64/mm/dma-mapping.c:461-466 | removes the mapping and gives the buffer back to the pool |
| DmaAttrs.FreeFound | arch/arm64/mm/dma-mapping.c:566-571 | kernel mapping unless none, then IOVA mapping, then buffer |
| DmaAttrs.UnmappedRestores | arch/arm64/mm/dma-mapping.c:367-382 | removing what a create added restores the bitmap |
| DmaAttrs.FreeAttrsCorrected | arch/arm64/mm/dma-mapping.c:549-572 | as FreeAttrs, except that a coherent atomic allocation is unmapped and its pages freed |
| DmaAttrs.AllocThenFree | arch/arm64/mm/dma-mapping.c:468-572 | alloc then the corrected free with the same size and attrs restores the bitmap and releases the memory |
| DmaAttrs.FreeAllocated | arch/arm64/mm/dma-mapping.c:549-572 | the corrected free of a live allocation returns the bitmap to what it was before the allocation and releases the memory |
| DmaAttrs.CoherentAtomicLeaks | arch/arm64/mm/dma-mapping.c:431-433 | as written, a coherent atomic allocation's free only warns, leaving its IOVA range reserved and its pages held (also lines 549-565) |
| DmaAttrs.MmapLoop | arch/arm64/mm/dma-mapping.c:531-540 | the loop only appends inserts, and a success inserts one page per page of the vma |
| DmaAttrs.MmapReadsPastEnd | arch/arm64/mm/dma-mapping.c:531-540 | as written, a vma larger than the array reads past its end when the inserts succeed |
| DmaAttrs.MmapStaysInBounds | arch/arm64/mm/dma-mapping.c:531-540 | a vma no larger than the array ends with a return code |
| DmaAttrs.MmapOverrunExample | arch/arm64/mm/dma-mapping.c:531-540 | a one-page buffer in a two-page vma reads past the array |
| DmaAttrs.MmapAttrsAsWritten | arch/arm64/mm/dma-mapping.c:516-543 | no pages gives -ENXIO; a page array never reads a non-array |
| DmaAttrs.MmapAttrs | arch/arm64/mm/dma-mapping.c:516-543 | the corrected mmap never reads past the array: an oversized vma gets -ENXIO, and otherwise it behaves as written, inserting the array's pages in order |
| DmaAttrs.InsertPages | arch/arm64/mm/dma-mapping.c:531-540 | the loop computes MmapLoop and, on success, maps page k at vm_start + k pages |
| DmaAttrs.MmapStep | arch/arm64/mm/dma-mapping.c:531-540 | one turn of the do-while: stop on an error, finish on the last page, continue otherwise |
| DmaAttach.MappingBits | arch/arm64/mm/dma-mapping.c:933 | bits is size >> PAGE_SHIFT truncated to 32 bits (also lines 945) |
| DmaAttach.HugeSizeWraps | arch/arm64/mm/dma-mapping.c:933-935 | 2^32 pages are stored as zero and refused |
| DmaAttach.BitmapWords | arch/arm64/mm/dma-mapping.c:984 | the bitmap holds bits rounded up to whole longs |
| DmaAttach.GuardVmid | arch/arm64/mm/dma-mapping.c:989-994 | the secure VMID when in range, else VMID_HLOS |
| DmaAttach.CreateMapping | arch/arm64/mm/dma-mapping.c:930-956 | -EINVAL for less than a page, -ENOMEM for a failed allocation, otherwise a fresh uninitialised mapping over the domain |
| DmaAttach.IommuInit | arch/arm64/mm/dma-mapping.c:958-977 | succeeds iff the domain has no cookie yet and both calls succeed; then iommu-dma ops and a cookie, otherwise -EINVAL with the cookie unchanged |
| DmaAttach.BitmapInit | arch/arm64/mm/dma-mapping.c:979-1010 | errata alignment and guard page first; -ENOMEM without a guard page or a bitmap; on success a zeroed bitmap of the rounded size and bitmap ops |
| DmaAttach.Backend | arch/arm64/mm/dma-mapping.c:1074-1089 | backend by priority: bypass, fast, bitmap, iommu-dma |
| DmaAttach.BackendInitOk | arch/arm64/mm/dma-mapping.c:958-1010 | whether the chosen backend initialises, from the answers of the calls it makes; InitMapping states the outcome by it |
| DmaAttach.IovaEnd | arch/arm64/mm/dma-mapping.c:1069 | the last IOVA of the mapping, base + (bits << PAGE_SHIFT) - 1, which InitMapping compares with the DMA mask |
| DmaAttach.InitMapping | arch/arm64/mm/dma-mapping.c:1066-1095 | an initialised mapping is left alone; a range past the mask gets -EINVAL; only a successful backend init makes it initialised with one reference |
| DmaAttach.Device.AttachDevice | arch/arm64/mm/dma-mapping.c:1119-1140 | -EINVAL changing nothing without group or with a domain; a failed init undoes the group attach; success records mapping and ops, with no new reference for an initialised mapping |
| DmaAttach.Device.DetachDevice | arch/arm64/mm/dma-mapping.c:1160-1182 | nothing without mapping or group; otherwise mapping and domain are forgotten and ops cleared unless in bypass |
| DmaAttach.ReleaseMapping | arch/arm64/mm/dma-mapping.c:1013-1025 | an uninitialised mapping is freed at once; otherwise one reference is dropped and the last frees it through its backend (also lines 1039-1055) |
| DmaAttach.OneDeviceLifecycle | arch/arm64/mm/dma-mapping.c:930-1182 | create, attach, detach and release free the mapping exactly when the attach succeeded |
| MsmGemVma.ShiftedSize | drivers/gpu/drm/msm/msm_gem_vma.c:78 | npages << PAGE_SHIFT kept in 32 bits (also lines 107) |
| MsmGemVma.ShiftedSizeWraps | drivers/gpu/drm/msm/msm_gem_vma.c:107 | 2^20 pages map with size 0 |
| MsmGemVma.StepKeepsInv | drivers/gpu/drm/msm/msm_gem_vma.c:75-174 | init, map, purge, close and paired unmaps keep "unmapped implies unused, mapped implies an iova" |
| MsmGemVma.InitStep | drivers/gpu/drm/msm/msm_gem_vma.c:151-174 | the vma after init: unchanged on -EBUSY or a failed insert, else the node's IOVA, unmapped; StepKeepsInv and Vma.Init state it |
| MsmGemVma.MapStep | drivers/gpu/drm/msm/msm_gem_vma.c:102-131 | the vma after map: unchanged without an IOVA or on a failed first map, else one more user and mapped; StepKeepsInv and Vma.Map state it |
| MsmGemVma.UnmapStep | drivers/gpu/drm/msm/msm_gem_vma.c:94-100 | the vma after unmap: one user fewer with an IOVA; MapThenUnmap and UnpairedUnmapBreaksInv state it |
| MsmGemVma.PurgeStep | drivers/gpu/drm/msm/msm_gem_vma.c:74-92 | the vma after purge: unmapped once it has no users; StepKeepsInv and Vma.Purge state it |
| MsmGemVma.CloseStep | drivers/gpu/drm/msm/msm_gem_vma.c:133-148 | the vma after close: its IOVA cleared once it has no users and is unmapped; StepKeepsInv and Vma.Close state it |
| MsmGemVma.RunKeepsInv | drivers/gpu/drm/msm/msm_gem_vma.c:75-174 | the invariant holds after any run in which every unmap is paired |
| MsmGemVma.UnpairedUnmapBreaksInv | drivers/gpu/drm/msm/msm_gem_vma.c:95-100 | without pairing, unmap drives inuse negative |
| MsmGemVma.MapThenUnmap | drivers/gpu/drm/msm/msm_gem_vma.c:95-131 | a successful map then unmap leaves the user count as it was and the vma mapped |
| MsmGemVma.AddressSpaceCreate | drivers/gpu/drm/msm/msm_gem_vma.c:189-211 | as written: the mmu's error, -ENOMEM, or a space with one reference, its range given to drm_mm, and NULL ops |
| MsmGemVma.AddressSpaceCreateCorrected | drivers/gpu/drm/msm/msm_gem_vma.c:183-211 | the same with msm_iommu_aspace_ops installed |
| MsmGemVma.AddressSpaceGet | drivers/gpu/drm/msm/msm_gem_vma.c:65-72 | a space gains one reference, nothing else changes |
| MsmGemVma.AddressSpacePut | drivers/gpu/drm/msm/msm_gem_vma.c:176-181 | drops one reference; the last runs ops->destroy if present and frees once; NULL ops are dereferenced (also lines 214-231) |
| MsmGemVma.CreateThenPut | drivers/gpu/drm/msm/msm_gem_vma.c:189-231 | as written, a created space's only put dereferences NULL ops |
| MsmGemVma.CreateThenPutCorrected | drivers/gpu/drm/msm/msm_gem_vma.c:176-231 | with the ops installed, the only put takes down drm_mm, destroys the mmu and frees the space |
| MsmGemVma.Vma.Init | drivers/gpu/drm/msm/msm_gem_vma.c:151-174 | -EBUSY with an iova; the insert's error with no reference; on success the node's iova, unmapped, and one more space reference |
| MsmGemVma.Vma.Map | drivers/gpu/drm/msm/msm_gem_vma.c:102-131 | -EINVAL without an iova; otherwise one more user, and the first map maps npages pages, undone on an MMU failure |
| MsmGemVma.Vma.Unmap | drivers/gpu/drm/msm/msm_gem_vma.c:94-100 | one user fewer when there is an iova; mapped untouched |
| MsmGemVma.Vma.Purge | drivers/gpu/drm/msm/msm_gem_vma.c:74-92 | nothing while used or unmapped; otherwise the node's pages are unmapped and the vma is no longer mapped |
| MsmGemVma.Vma.Close | drivers/gpu/drm/msm/msm_gem_vma.c:133-148 | nothing while used or mapped, and no put (NoPut); otherwise the node is removed if there is an iova, the iova cleared and one space reference dropped. When that was the last reference, NULL ops are dereferenced after the removal, and a table's destroy takes down drm_mm after the removal and destroys the MMU, and the space is freed |
| MsmGemVma.Vma.SmmuMap | drivers/gpu/drm/msm/msm_gem_vma.c:28-46 | -EINVAL without an attached space; otherwise the map's result, the address on success, and a reference taken either way |
| MsmGemVma.Vma.SmmuUnmap | drivers/gpu/drm/msm/msm_gem_vma.c:12-26 | nothing without an iova (NoPut); otherwise the table unmapped, the iova cleared and one reference dropped. When that was the last reference, NULL ops are dereferenced, or the table's destroy adds the drm_mm takedown and the MMU destroy and the space is freed |
| MsmGemVma.VmaLifecycle | drivers/gpu/drm/msm/msm_gem_vma.c:75-231 | init, map, unmap, purge, close and put end with a zeroed vma, the space freed, and the map and unmap of the same range |
| MsmGemVma.DispatchMap | drivers/gpu/drm/msm/msm_gem_vma.c:242-251 | the op's result when space and op exist, -EINVAL otherwise, a NULL deref with NULL ops |
| MsmGemVma.DispatchUnmap | drivers/gpu/drm/msm/msm_gem_vma.c:233-240 | calls the op when space and op exist, otherwise nothing; a NULL deref with NULL ops |
| MsmGemVma.DispatchActive | drivers/gpu/drm/msm/msm_gem_vma.c:263-281 | calls the op only when space, ops and op exist; never dereferences NULL |
| MsmGemVma.DispatchCb | drivers/gpu/drm/msm/msm_gem_vma.c:283-301 | the op's result when space, ops and op exist, -EINVAL otherwise |
| MsmGemVma.NullOpsReaders | drivers/gpu/drm/msm/msm_gem_vma.c:233-301 | with NULL ops, map and unmap dereference it and the others return their defaults |
| MsmGemVma.IommuOpsDispatch | drivers/gpu/drm/msm/msm_gem_vma.c:183-187 | with msm_iommu_aspace_ops, map and unmap reach the ops and the rest find nothing (also lines 233-301) |
| Dwmac4Lib.SetSets | drivers/net/ethernet/stmicro/stmmac/dwmac4_lib.c:43 | OR-ing a mask sets all its bits |
| Dwmac4Lib.SetKeeps | drivers/net/ethernet/stmicro/stmmac/dwmac4_lib.c:43 | OR-ing a mask keeps every other bit |
| Dwmac4Lib.ClearClears | drivers/net/ethernet/stmicro/stmmac/dwmac4_lib.c:54 | AND-ing the complement clears all its bits |
| Dwmac4Lib.ClearTwice | drivers/net/ethernet/stmicro/stmmac/dwmac4_lib.c:54 | clearing twice is clearing once |
| Dwmac4Lib.SetAfterClear | drivers/net/ethernet/stmicro/stmmac/dwmac4_lib.c:43 | setting after clearing is setting (also lines 54) |
| Dwmac4Lib.SetTwice | drivers/net/ethernet/stmicro/stmmac/dwmac4_lib.c:43 | setting is idempotent |
| Dwmac4Lib.SetUnion | drivers/net/ethernet/stmicro/stmmac/dwmac4_lib.c:213 | setting two masks in turn sets their union |
| Dwmac4Lib.ClearUnion | drivers/net/ethernet/stmicro/stmmac/dwmac4_lib.c:215 | clearing two masks in turn clears their union |
| Dwmac4Lib.SetNone | drivers/net/ethernet/stmicro/stmmac/dwmac4_lib.c:43 | OR-ing zero changes nothing |
| Dwmac4Lib.ClearNone | drivers/net/ethernet/stmicro/stmmac/dwmac4_lib.c:54 | clearing zero changes nothing |
| Dwmac4Lib.UnionCommutes | drivers/net/ethernet/stmicro/stmmac/dwmac4_lib.c:213 | the union of two masks does not depend on their order (also lines 215) |
| Dwmac4Lib.Mmio.WriteReg | drivers/net/ethernet/stmicro/stmmac/dwmac4_lib.c:44 | writel stores the word in its register and logs the write, every other register unchanged |
| Dwmac4Lib.StartTx | drivers/net/ethernet/stmicro/stmmac/dwmac4_lib.c:38-48 | sets ST in the channel's TX control and TE in the MAC configuration, keeping all else |
| Dwmac4Lib.StopTx | drivers/net/ethernet/stmicro/stmmac/dwmac4_lib.c:50-56 | clears ST only |
| Dwmac4Lib.StartRx | drivers/net/ethernet/stmicro/stmmac/dwmac4_lib.c:58-69 | sets SR and RE, keeping all else |
| Dwmac4Lib.StopRx | drivers/net/ethernet/stmicro/stmmac/dwmac4_lib.c:71-77 | clears SR only |
| Dwmac4Lib.StartThenStopTx | drivers/net/ethernet/stmicro/stmmac/dwmac4_lib.c:38-56 | start then stop leaves ST clear and the rest of the control word as it was, with TE still on |
| Dwmac4Lib.StartThenStopRx | drivers/net/ethernet/stmicro/stmmac/dwmac4_lib.c:58-77 | the same for SR and RE |
| Dwmac4Lib.EnableIsSet | drivers/net/ethernet/stmicro/stmmac/dwmac4_lib.c:89-111 | enabling ORs in exactly the RX mask when rx is asked for and the TX mask when tx is |
| Dwmac4Lib.EnableIrqValue | drivers/net/ethernet/stmicro/stmmac/dwmac4_lib.c:89-111 | the enable word after an enable call; EnableIsSet, EnableIrqBits and EnableDisableInverse state it |
| Dwmac4Lib.DisableIsClear | drivers/net/ethernet/stmicro/stmmac/dwmac4_lib.c:113-135 | disabling clears exactly the selected masks |
| Dwmac4Lib.DisableIrqValue | drivers/net/ethernet/stmicro/stmmac/dwmac4_lib.c:113-135 | the enable word after a disable call; DisableIsClear and DisableIrqBits state it |
| Dwmac4Lib.EnableIrqBits | drivers/net/ethernet/stmicro/stmmac/dwmac4_lib.c:89-111 | after enabling the selected bits are set and every other bit is kept |
| Dwmac4Lib.DisableIrqBits | drivers/net/ethernet/stmicro/stmmac/dwmac4_lib.c:113-135 | after disabling the selected bits are clear and every other bit is kept |
| Dwmac4Lib.EnableDisableInverse | drivers/net/ethernet/stmicro/stmmac/dwmac4_lib.c:89-135 | enable and disable differ only on the selected bits |
| Dwmac4Lib.EnableDmaIrq | drivers/net/ethernet/stmicro/stmmac/dwmac4_lib.c:89-111 | the channel's enable word becomes EnableIrqValue of the old one, with the version's masks, and nothing else changes |
| Dwmac4Lib.DisableDmaIrq | drivers/net/ethernet/stmicro/stmmac/dwmac4_lib.c:113-135 | the same with DisableIrqValue |
| Dwmac4Lib.IrqFlags | drivers/net/ethernet/stmicro/stmmac/dwmac4_lib.c:149-185 | hard error iff AIS with TPS or FBE; RX work iff RI; TX work iff TI or TBU |
| Dwmac4Lib.MaskedOut | drivers/net/ethernet/stmicro/stmmac/dwmac4_lib.c:144-147 | a bit outside the direction's mask never shows in the masked status |
| Dwmac4Lib.Masked | drivers/net/ethernet/stmicro/stmmac/dwmac4_lib.c:144-147 | the status restricted to the serviced direction; MaskedOut and DirectionsStayApart state it |
| Dwmac4Lib.DirectionsStayApart | drivers/net/ethernet/stmicro/stmmac/dwmac4_lib.c:144-185 | servicing one direction never asks for the other's work when its mask leaves those bits out |
| Dwmac4Lib.AbnormalIrq | drivers/net/ethernet/stmicro/stmmac/dwmac4_lib.c:149-167 | under AIS each abnormal bit bumps its counter; hard error iff TPS or FBE; the normal counters unchanged |
| Dwmac4Lib.NormalIrq | drivers/net/ethernet/stmicro/stmmac/dwmac4_lib.c:168-185 | NIS, RI, TI and ERI bump their counters, RI and TI the channel's queue counters; RI asks for RX work, TI or TBU for TX work |
| Dwmac4Lib.DmaInterrupt | drivers/net/ethernet/stmicro/stmmac/dwmac4_lib.c:137-188 | the flags are IrqFlags of the status masked for the direction, the counters move as the two parts say, and status AND enabled is written back |
| Dwmac4Lib.LowBytes | drivers/net/ethernet/stmicro/stmmac/dwmac4_lib.c:202 | the four bytes packed into the low word read back (also lines 231-234) |
| Dwmac4Lib.HighBytes | drivers/net/ethernet/stmicro/stmmac/dwmac4_lib.c:195-201 | the two bytes packed into the high word read back whatever flags above bit 15 are OR-ed in (also lines 235-236) |
| Dwmac4Lib.MacHighWord | drivers/net/ethernet/stmicro/stmmac/dwmac4_lib.c:195-201 | the high address word: addr[4], addr[5], then the flags; HighBytes and MacRoundTrip state it |
| Dwmac4Lib.MacLowWord | drivers/net/ethernet/stmicro/stmmac/dwmac4_lib.c:202 | the low address word: addr[0] to addr[3]; LowBytes and MacRoundTrip state it |
| Dwmac4Lib.MacRoundTrip | drivers/net/ethernet/stmicro/stmmac/dwmac4_lib.c:190-237 | reading back the words written for an address gives the address, when the flags lie above bit 15 |
| Dwmac4Lib.LowRepack | drivers/net/ethernet/stmicro/stmmac/dwmac4_lib.c:202 | a low word is its four bytes packed again (also lines 231-234) |
| Dwmac4Lib.HighRepack | drivers/net/ethernet/stmicro/stmmac/dwmac4_lib.c:195 | bits 0-15 of a high word are its two bytes packed again (also lines 235-236) |
| Dwmac4Lib.MacWordsRoundTrip | drivers/net/ethernet/stmicro/stmmac/dwmac4_lib.c:190-237 | writing back an address read from two words gives the low word and the high word up to its flags |
| Dwmac4Lib.MacRoundTripNeedsFlagsAbove | drivers/net/ethernet/stmicro/stmmac/dwmac4_lib.c:195-201 | an AE flag in bit 0 would read back as part of addr[4] (also lines 235) |
| Dwmac4Lib.SetMacAddr | drivers/net/ethernet/stmicro/stmmac/dwmac4_lib.c:190-204 | writes the high word, then the low word |
| Dwmac4Lib.GetMacAddr | drivers/net/ethernet/stmicro/stmmac/dwmac4_lib.c:221-237 | decodes the address from the two registers |
| Dwmac4Lib.MacFromWords | drivers/net/ethernet/stmicro/stmmac/dwmac4_lib.c:221-237 | the address decoded from the two words; MacRoundTrip and MacWordsRoundTrip state it |
| Dwmac4Lib.SetThenGetMacAddr | drivers/net/ethernet/stmicro/stmmac/dwmac4_lib.c:190-237 | set then get on distinct registers returns the address |
| Dwmac4Lib.MacConfigBits | drivers/net/ethernet/stmicro/stmmac/dwmac4_lib.c:212-215 | enable sets RE and TE, disable clears both, every other bit kept |
| Dwmac4Lib.MacConfigValue | drivers/net/ethernet/stmicro/stmmac/dwmac4_lib.c:212-215 | the configuration word after set_mac; MacConfigBits and MacConfigIdempotent state it |
| Dwmac4Lib.MacConfigIdempotent | drivers/net/ethernet/stmicro/stmmac/dwmac4_lib.c:212-215 | applying the same switch twice is applying it once |
| Dwmac4Lib.SetMac | drivers/net/ethernet/stmicro/stmmac/dwmac4_lib.c:206-219 | the configuration becomes MacConfigValue of the old one and is written only when it changed |
| Dwmac4Lib.SetMacTwice | drivers/net/ethernet/stmicro/stmmac/dwmac4_lib.c:206-219 | repeating the call writes nothing the second time |
| Dwmac4Lib.VlanDataRoundTrip | drivers/net/ethernet/stmicro/stmmac/dwmac4_lib.c:275-280 | the VLAN id and the queue can be read back from the data word |
| Dwmac4Lib.VlanDataWord | drivers/net/ethernet/stmicro/stmmac/dwmac4_lib.c:275-280 | the VLAN data word: id, flags and queue at its shift; VlanDataRoundTrip states it |
| Dwmac4Lib.PollMeaning | drivers/net/ethernet/stmicro/stmmac/dwmac4_lib.c:265-273 | the wait finds the first idle read within its window, or every read of the window was busy (also lines 286-300) |
| Dwmac4Lib.Poll | drivers/net/ethernet/stmicro/stmmac/dwmac4_lib.c:265-273 | the busy-wait: the first idle read within the window, if any; PollMeaning states it |
| Dwmac4Lib.WaitIdle | drivers/net/ethernet/stmicro/stmmac/dwmac4_lib.c:265-273 | the busy-wait loop computes Poll (also lines 286-300) |
| Dwmac4Lib.WriteVlanData | drivers/net/ethernet/stmicro/stmmac/dwmac4_lib.c:275-282 | writes the data word |
| Dwmac4Lib.WriteVlanCtrl | drivers/net/ethernet/stmicro/stmmac/dwmac4_lib.c:289-295 | writes the control word built from the idle read |
| Dwmac4Lib.VlanCtrlWord | drivers/net/ethernet/stmicro/stmmac/dwmac4_lib.c:291-293 | the control word: OB set, CT cleared, the offset OR-ed in, the rest as read; WriteVlanCtrl writes it |
| Dwmac4Lib.RouteQueue | drivers/net/ethernet/stmicro/stmmac/dwmac4_lib.c:303-306 | ORs the DMA-channel bit into the queue map |
| Dwmac4Lib.SetVlanFilter | drivers/net/ethernet/stmicro/stmmac/dwmac4_lib.c:244-307 | bad arguments iff queue >= 4 or id >= 4096, with no access; busy through the first wait: nothing written; busy through the second: only the data word; otherwise data, control and routing words in order |

## Left out

- I/O and foreign calls. The IOMMU driver (`iommu_map`, `iommu_map_sg`,
  `iommu_unmap`, `iommu_iova_to_phys`, `iommu_is_iova_coherent`), the page
  allocators, CMA, the atomic pool, `dma_common_pages_remap`,
  `vm_insert_page`, `drm_mm` and the MMU function table are parameters
  answering success or failure. They are not models of that code.
- Cache-maintenance bodies (`__dma_map_area`, `__dma_unmap_area`,
  `__dma_flush_area`), `memset` and `page_address`. Only the decision to call
  them and the arguments are recorded.
- Locks, spinlocks, kref atomicity and the deferred-unmap drain in detach
  (`msm_dma_unmap_all_for_dev`). Everything is modelled sequentially.
- `bitmap_find_next_zero_area`, `find_next_zero_bit` and `find_next_bit` live
  in the kernel library, which is not part of this model. They are written
  after the library's algorithm.
- IovaBitmap.ZeroAreaFirstFit: proved only for a non-empty request. A
  zero-length search succeeds at the first aligned start, so first fit says
  nothing there.
- `arm_iommu_get_sgtable` (dma-mapping.c:574-586) hands the page array to
  `sg_alloc_table_from_pages`, a foreign call. Its lookup is
  `DmaAttrs.GetPages`.
- `__get_dma_pgprot` and `vma->vm_pgoff`: the kernel page protection of a
  remap or a user mapping is not modelled.
- The fast SMMU, iommu-dma and swiotlb backends. `fast_smmu_init_mapping`
  and `iommu_dma_init_domain` are answers in `InitAnswers`, and the fast
  release is only reported as `FastReleased`.
- Integer widths in dma-mapping.c (`size_t`, `dma_addr_t`, `unsigned int
  count` and `len`) are unbounded naturals. The exception is the 32-bit
  `bits` field of `arm_iommu_create_mapping`, where the truncation is written
  out in `MappingBits`.
- DmaMapping.AllocSpec: computes `mapping->base + (start << PAGE_SHIFT)` in
  the width of `dma_addr_t`, not with the 32-bit wrap of the `unsigned int`
  shift. A range found at page 2^20 or above gets its own address, not one
  4 GiB lower. The wrap is modelled by `ShiftedIova` and listed under
  Findings.
- DmaOps.MapScatterlist: `total_length` is an `unsigned int` sum of the
  segment lengths in the source. The model sums without wrapping, so a list
  of 4 GiB or more is not reserved and mapped with the truncated length as
  the code would do.
- CONFIG_ARM64_DMA_IOMMU_ALIGNMENT and ARM_SMMU_MIN_IOVA_ALIGN come from
  Kconfig and a header that are not part of this model. The values are
  assumed: `IovaBitmap.MaxAlignOrder` is 9 and
  `DmaMapping.ArmSmmuMinIovaAlign` is 8192 (SZ_8K).
- DmaAttrs.AllocBlocking: a forced-contiguous allocation of size 0 is given
  no CMA pages (`cma.NoPage?`). `dma_alloc_from_contiguous` with a count of
  0 returns NULL.
- DmaBuffer.AllocBuffer: the page-array kzalloc/vzalloc choice and its
  freeing are one `arrayOk` answer.
- The page arrays handed out by the allocation paths are distinct `array`
  objects. A caller passing a pointer other than the one it got is not
  modelled.
- msm_gem_vma.c:
  - `smmu_aspace_destroy` (48-54) and `smmu_aspace_add_to_active` (56-63)
    are static and not reachable from the code shown; `put_pid`, the list
    handling and the WARN lock check are not modelled.
  - `msm_gem_get_aspace_device` (253-261) only forwards a foreign call.
  - `iommu_aspace_map_vma` and `iommu_aspace_unmap_vma` are referenced at
    183-187 but not defined in the file. They appear only as the presence of
    `map` and `unmap` in the ops table.
  - `ERR_PTR` values are a separate constructor; `IS_ERR_OR_NULL` in `get`
    is modelled as NULL only.
  - drm_mm node contents are recorded as the insert and remove requests.
- MsmGemVma.Vma.Map: `inuse` is an unbounded integer, so the `int` overflow
  of a counter past 2^31 - 1 is not modelled.
- dwmac4_lib.c:
  - `dwmac4_dma_reset` (15-26) polls with a timeout.
  - The tail-pointer and ring-length setters (28-36, 79-87) are single
    register writes with no logic.
  - `pr_info` and `usleep_range` are not modelled.
- Dwmac4Lib.SetVlanFilter: the read of `GMAC_VLAN_DATA_TAG` whose value is
  overwritten at once is not modelled. The model is for an ideal register
  store: reads return the last write, with no write-one-to-clear bits or
  read-only bits.
- Register offsets and bit masks come from headers that are not part of this
  model. They are parameters of the operations (`RunBits`, `IrqMasks`,
  `StatusBits`, `MacBits`, `VlanBits`). Distinct channels and registers are
  distinct keys of the register map.
- Dwmac4Lib.DmaInterrupt: the `unsigned long` statistics counters never wrap.
- Dwmac4Lib.SetMacAddr: the shifts are done in `int`. `addr[3] << 24` can
  reach the sign bit and be widened to an `unsigned long` with the upper
  bits set, but `writel` keeps only the low 32 bits, which the model
  computes. Shift amounts of 32 or more are not modelled.
- Words are modelled as sequences of 32 bits, not as machine integers.

## Findings

| source | as written | input that shows it | evidently intended | confidence | as-written member | corrected member |
|---|---|---|---|---|---|---|
| arch/arm64/mm/dma-mapping.c:251-258 | `__iommu_alloc_buffer` narrows `order_mask` and takes `__fls` of it without checking it is non-zero; the retry loop does the same after dropping a refused order | an IOMMU whose smallest page is 64 KiB (`pgsize_bitmap` orders 4 and 13) and a one-page buffer; or a sixteen-page buffer when no 64 KiB block is free | fail the allocation when no order is left | not executed; high | DmaBuffer.NoFitReachesFlsOfZero | DmaBuffer.AsWrittenAgrees |
| arch/arm64/mm/dma-mapping.c:531-540 | `arm_iommu_mmap_attrs` inserts one page per page of the vma without comparing the vma's size with the buffer's | a one-page buffer mapped into a two-page vma | refuse (or stop at) a vma larger than the buffer | not executed; medium | DmaAttrs.MmapOverrunExample | DmaAttrs.MmapAttrs |
| arch/arm64/mm/dma-mapping.c:549-565 | a coherent atomic allocation (lines 431-433) returns a linear-map address, which `arm_iommu_free_attrs` neither finds in the atomic pool nor through `find_vm_area`, so it warns and returns | a non-blocking allocation on a coherent device without `DMA_ATTR_NO_KERNEL_MAPPING`, then its free | remove the mapping and free the pages, as the atomic path's error label does | not executed; medium | DmaAttrs.CoherentAtomicLeaks | DmaAttrs.FreeAttrsCorrected |
| drivers/gpu/drm/msm/msm_gem_vma.c:189-221 | `msm_gem_address_space_create` never sets `aspace->ops`, which stays NULL from `kzalloc`, and the destructor reads `aspace->ops->destroy` | create an address space, then drop its only reference | install `msm_iommu_aspace_ops`, the table the file defines and never uses | not executed; medium | MsmGemVma.CreateThenPut | MsmGemVma.CreateThenPutCorrected |
| arch/arm64/mm/dma-mapping.c:164 | `__alloc_iova` computes `mapping->base + (start << PAGE_SHIFT)` with `start` an `unsigned int`, so the shift wraps at 32 bits | a mapping of 2^21 pages whose first 2^20 pages are taken, then a one-page allocation: the search returns page 2^20 and the address is `mapping->base`, the address of page 0; `__free_iova` on it then clears the run at page 0 | widen start to `dma_addr_t` before the shift | not executed; medium | DmaMapping.ShiftedIovaAliases | DmaMapping.FreeIovaUndoesAlloc |
