/** The coherent-allocation half of iommu_ops in arch/arm64/mm/dma-mapping.c:
    arm_iommu_alloc_attrs, arm_iommu_free_attrs and arm_iommu_mmap_attrs.
    An allocation gets pages (from the atomic pool, alloc_pages or
    __iommu_alloc_buffer), maps them with __iommu_create_mapping and, unless
    the caller asked for no kernel mapping, maps them into the kernel's
    address space; every failure gives back what was taken. The page
    allocators' and the remapper's answers are parameters. */
module DmaAttrs {
  import opened PageMath
  import opened IovaBitmap
  import opened DmaFlags
  import opened DmaMapping
  import opened DmaBuffer
  import opened DmaCreate

  const ENXIO: int := 6

  /** The CPU address an allocation hands back, by where it points. */
  datatype CpuAddr =
    | NoAddr                            // NULL
    | PoolAddr(pfn: nat)                // __alloc_from_pool: inside the atomic pool
    | LinearAddr(pfn: nat)              // page_address(alloc_pages(...)): the linear map
    | PageArray(pages: array<PageRef>)  // DMA_ATTR_NO_KERNEL_MAPPING: the page array itself
    | Remapped(pages: array<PageRef>)   // __iommu_alloc_remap: a vmap area over the pages

  /** Memory handed back to the allocator it came from. */
  datatype Give =
    | PagesBack(pfn: nat, order: nat)   // __free_pages
    | PoolBack(pfn: nat, size: nat)     // __free_from_pool
    | BufferBack(rel: Release)          // __iommu_free_buffer
    | KernelMappingBack                 // dma_common_free_remap

  /** The prot __iommu_create_mapping maps with. */
  function CreateProt(attrs: set<Attr>, coherent: bool): set<Prot>
  {
    IommuPgprot(attrs, {Read, Write}, coherent)
  }

  // ---------------------------------------------------------------------
  // The atomic path

  /** An atomic allocation is physically contiguous, so __iommu_create_mapping
      makes one request after the reservation's: a map of the whole buffer
      at the address it returns. It succeeds exactly when the reservation
      and that one map do. */
  lemma AtomicOneMap(bm: seq<bool>, pfn: nat, size: nat, minAlign: nat, base: nat, guardPhys: nat,
                     guardMapOk: bool, prot: set<Prot>, mapOk: nat -> bool)
    requires minAlign % PageSize == 0 && base % PageSize == 0 && size % PageSize == 0 && size > 0
    ensures var c := CreateSpec(bm, Frames(Contiguous(pfn, size / PageSize)), size, minAlign, base, guardPhys,
                                guardMapOk, prot, mapOk);
      var a := AllocSpec(bm, size, minAlign, base, guardPhys, guardMapOk);
      (c.dma.DmaAddr? <==> a.dma.DmaAddr? && mapOk(0)) &&
      (c.dma.DmaAddr? ==> c.reqs == a.reqs + [Map(c.dma.addr, pfn * PageSize, size, prot)])
  {
    var n := size / PageSize;
    var s := Contiguous(pfn, n);
    FramesOfFull(s);
    var pfns := Frames(s);
    assert pfns == seq(n, k => pfn + k);
    assert n * PageSize == size;
    CreateSpecSound(bm, pfns, size, minAlign, base, guardPhys, guardMapOk, prot, mapOk);
    var a := AllocSpec(bm, size, minAlign, base, guardPhys, guardMapOk);
    if a.dma.DmaAddr? {
      ContiguousOneRun(pfn, n, a.dma.addr, prot, mapOk);
    }
  }

  /** __iommu_alloc_atomic (dma-mapping.c:411-459) for a page-aligned size.
      arrayOk is whether the temporary page array was allocated; page is
      what alloc_pages (coherent) or __alloc_from_pool (otherwise) returned. */
  method AllocAtomic(mapping: IommuMapping, size: nat, attrs: set<Attr>, coherent: bool, arrayOk: bool, page: PageRef,
                     guardMapOk: bool, mapOk: nat -> bool)
    returns (cpu: CpuAddr, handle: Dma, back: seq<Give>)
    requires mapping.Ready() && mapping.base % PageSize == 0 && mapping.minIovaAlign % PageSize == 0
    requires size % PageSize == 0
    modifies mapping.bitmap, mapping.domain
    ensures !arrayOk || page.NoPage? ==>
      cpu == NoAddr && handle == DmaError && back == [] &&
      mapping.Bits() == old(mapping.Bits()) && mapping.domain.log == old(mapping.domain.log)
    ensures arrayOk && page.Page? ==>
      var c := CreateSpec(old(mapping.Bits()), Frames(Contiguous(page.pfn, size / PageSize)), size, mapping.minIovaAlign,
                          mapping.base, mapping.GuardPhys(), guardMapOk, CreateProt(attrs, coherent), mapOk);
      handle == c.dma && mapping.Bits() == c.bm && mapping.domain.log == old(mapping.domain.log) + c.reqs &&
      (c.dma.DmaAddr? ==> cpu == (if coherent then LinearAddr(page.pfn) else PoolAddr(page.pfn)) && back == []) &&
      (c.dma.DmaError? ==>
        cpu == NoAddr && back == [if coherent then PagesBack(page.pfn, GetOrder(size)) else PoolBack(page.pfn, size)])
    ensures mapping.bitmap[mapping.bits..] == old(mapping.bitmap[mapping.bits..])
    ensures mapping.domain.freed == old(mapping.domain.freed)
  {
    if !arrayOk || page.NoPage? {
      return NoAddr, DmaError, [];
    }
    var pages := FillContiguous(page.pfn, size / PageSize);
    handle := MapContiguous(mapping, pages, page.pfn, size, attrs, coherent, guardMapOk, mapOk);
    if handle.DmaError? {
      cpu := NoAddr;
      back := [if coherent then PagesBack(page.pfn, GetOrder(size)) else PoolBack(page.pfn, size)];
    } else {
      cpu := if coherent then LinearAddr(page.pfn) else PoolAddr(page.pfn);
      back := [];
    }
  }

  /** The loop of __iommu_alloc_atomic that points each slot of the
      temporary array at the next page of the contiguous allocation
      (dma-mapping.c:441-442). */
  method FillContiguous(pfn: nat, count: nat) returns (pages: array<PageRef>)
    ensures fresh(pages) && pages[..] == Contiguous(pfn, count)
  {
    pages := new PageRef[count](_ => NoPage);
    for i := 0 to count
      invariant forall k :: 0 <= k < i ==> pages[k] == Page(pfn + k)
    {
      pages[i] := Page(pfn + i);
    }
  }

  /** __iommu_create_mapping over the temporary array of a contiguous
      allocation (dma-mapping.c:444). */
  method MapContiguous(mapping: IommuMapping, pages: array<PageRef>, pfn: nat, size: nat, attrs: set<Attr>, coherent: bool,
                       guardMapOk: bool, mapOk: nat -> bool) returns (handle: Dma)
    requires mapping.Ready() && mapping.base % PageSize == 0 && mapping.minIovaAlign % PageSize == 0
    requires size % PageSize == 0 && pages[..] == Contiguous(pfn, size / PageSize)
    modifies mapping.bitmap, mapping.domain
    ensures var c := CreateSpec(old(mapping.Bits()), Frames(Contiguous(pfn, size / PageSize)), size, mapping.minIovaAlign,
                                mapping.base, mapping.GuardPhys(), guardMapOk, CreateProt(attrs, coherent), mapOk);
      handle == c.dma && mapping.Bits() == c.bm && mapping.domain.log == old(mapping.domain.log) + c.reqs
    ensures mapping.bitmap[mapping.bits..] == old(mapping.bitmap[mapping.bits..])
    ensures mapping.domain.freed == old(mapping.domain.freed)
  {
    FramesOfFull(pages[..]);
    handle := CreateMapping(mapping, Frames(pages[..]), size, attrs, coherent, guardMapOk, mapOk);
  }

  // ---------------------------------------------------------------------
  // The blocking path

  /** The blocking half of arm_iommu_alloc_attrs (dma-mapping.c:490-513) for
      a page-aligned size. arrayOk, cma and grant answer
      __iommu_alloc_buffer's allocations; remapOk is whether
      __iommu_alloc_remap mapped the pages into the kernel. */
  method AllocBlocking(mapping: IommuMapping, size: nat, attrs: set<Attr>, coherent: bool, arrayOk: bool, cma: PageRef,
                       grant: (nat, nat) -> PageRef, guardMapOk: bool, mapOk: nat -> bool, remapOk: bool)
    returns (cpu: CpuAddr, handle: Dma, back: seq<Give>)
    requires mapping.Ready() && mapping.base % PageSize == 0 && mapping.minIovaAlign % PageSize == 0
    requires size % PageSize == 0
    requires ForceContiguous in attrs && size == 0 ==> cma.NoPage?
    modifies mapping.bitmap, mapping.domain
    ensures var b := BufferOf(size, attrs, mapping.domain.pgsizeOrders, arrayOk, cma, grant);
      b.NoBuffer? ==>
        cpu == NoAddr && handle == DmaError && back == [] &&
        mapping.Bits() == old(mapping.Bits()) && mapping.domain.log == old(mapping.domain.log)
    ensures var b := BufferOf(size, attrs, mapping.domain.pgsizeOrders, arrayOk, cma, grant);
      b.Filled? ==>
        var c := CreateSpec(old(mapping.Bits()), Frames(b.pages), size, mapping.minIovaAlign, mapping.base,
                            mapping.GuardPhys(), guardMapOk, CreateProt(attrs, coherent), mapOk);
        handle == c.dma && Settled(cpu, back, b.pages, size, attrs, remapOk, c, old(mapping.Bits()), mapping.Bits(),
                                   old(mapping.domain.log), mapping.domain.log, mapping.minIovaAlign)
    ensures cpu.PageArray? || cpu.Remapped? ==> fresh(cpu.pages)
    ensures mapping.bitmap[mapping.bits..] == old(mapping.bitmap[mapping.bits..])
    ensures mapping.domain.freed == old(mapping.domain.freed)
  {
    var pages, freed, ops := AllocBuffer(size, attrs, coherent, mapping.domain.pgsizeOrders, arrayOk, cma, grant);
    if pages == null {
      return NoAddr, DmaError, [];
    }
    cpu, handle, back := MapBuffer(mapping, pages, size, attrs, coherent, guardMapOk, mapOk, remapOk);
  }

  /** What the blocking path leaves after __iommu_create_mapping answered c
      for the buffer pages: on a failed create the buffer is freed; on
      success the caller gets the array itself (no kernel mapping) or the
      kernel mapping, and when that cannot be made the mapping is removed
      and the buffer freed. bm0, bm and log0, log are the bitmap and the
      request log before and after. */
  ghost predicate Settled(cpu: CpuAddr, back: seq<Give>, pages: seq<PageRef>, size: nat, attrs: set<Attr>, remapOk: bool,
                          c: Created, bm0: seq<bool>, bm: seq<bool>, log0: seq<IommuReq>, log: seq<IommuReq>, minAlign: nat)
    reads if cpu.PageArray? || cpu.Remapped? then {cpu.pages} else {}
  {
    size / PageSize <= |pages| && (ForceContiguous in attrs ==> |pages| > 0) &&
    var rel := [BufferBack(ReleaseOf(pages, size, attrs))];
    if c.dma.DmaError? then
      cpu == NoAddr && back == rel && bm == c.bm && log == log0 + c.reqs
    else if NoKernelMapping in attrs then
      cpu.PageArray? && cpu.pages[..] == pages && back == [] && bm == c.bm && log == log0 + c.reqs
    else if remapOk then
      cpu.Remapped? && cpu.pages[..] == pages && back == [] && bm == c.bm && log == log0 + c.reqs
    else
      cpu == NoAddr && back == rel && bm == bm0 &&
      log == log0 + c.reqs + [Unmap(c.dma.addr, size)] + FreeReqs(c.dma.addr, size, minAlign)
  }

  /** The rest of the blocking path once __iommu_alloc_buffer returned pages
      (dma-mapping.c:499-513). */
  method MapBuffer(mapping: IommuMapping, pages: array<PageRef>, size: nat, attrs: set<Attr>, coherent: bool,
                   guardMapOk: bool, mapOk: nat -> bool, remapOk: bool)
    returns (cpu: CpuAddr, handle: Dma, back: seq<Give>)
    requires mapping.Ready() && mapping.base % PageSize == 0 && mapping.minIovaAlign % PageSize == 0
    requires size % PageSize == 0 && pages.Length == size / PageSize
    requires forall i :: 0 <= i < pages.Length ==> pages[i].Page?
    requires ForceContiguous in attrs ==> pages.Length > 0
    modifies mapping.bitmap, mapping.domain
    ensures var c := CreateSpec(old(mapping.Bits()), Frames(pages[..]), size, mapping.minIovaAlign, mapping.base,
                                mapping.GuardPhys(), guardMapOk, CreateProt(attrs, coherent), mapOk);
      handle == c.dma && Settled(cpu, back, pages[..], size, attrs, remapOk, c, old(mapping.Bits()), mapping.Bits(),
                                 old(mapping.domain.log), mapping.domain.log, mapping.minIovaAlign)
    ensures cpu.PageArray? || cpu.Remapped? ==> cpu.pages == pages
    ensures mapping.bitmap[mapping.bits..] == old(mapping.bitmap[mapping.bits..])
    ensures mapping.domain.freed == old(mapping.domain.freed)
  {
    ghost var bm0 := mapping.Bits();
    ghost var c := CreateSpec(bm0, Frames(pages[..]), size, mapping.minIovaAlign, mapping.base,
                              mapping.GuardPhys(), guardMapOk, CreateProt(attrs, coherent), mapOk);
    FramesOfFull(pages[..]);
    CreateSpecThenRemove(bm0, Frames(pages[..]), size, mapping.minIovaAlign, mapping.base,
                         mapping.GuardPhys(), guardMapOk, CreateProt(attrs, coherent), mapOk);
    handle := CreateMapping(mapping, Frames(pages[..]), size, attrs, coherent, guardMapOk, mapOk);
    if handle.DmaError? {
      var rel := FreeBuffer(pages, size, attrs);
      return NoAddr, handle, [BufferBack(rel)];
    }
    if NoKernelMapping in attrs {
      return PageArray(pages), handle, [];
    }
    if remapOk {
      return Remapped(pages), handle, [];
    }
    var rel := UnwindBuffer(mapping, pages, handle.addr, size, attrs, bm0);
    back := [BufferBack(rel)];
    cpu := NoAddr;
  }

  /** The err_mapping and err_buffer labels of arm_iommu_alloc_attrs
      (dma-mapping.c:509-512): __iommu_remove_mapping on the page-aligned
      address the create returned, then __iommu_free_buffer. bm0 is the
      bitmap before the create. */
  method UnwindBuffer(mapping: IommuMapping, pages: array<PageRef>, addr: nat, size: nat, attrs: set<Attr>,
                      ghost bm0: seq<bool>)
    returns (rel: Release)
    requires mapping.Ready() && addr % PageSize == 0 && size % PageSize == 0
    requires RemoveRestores(bm0, mapping.Bits(), addr, size, mapping.minIovaAlign, mapping.base)
    requires size / PageSize <= pages.Length && (ForceContiguous in attrs ==> pages.Length > 0)
    modifies mapping.bitmap, mapping.domain
    ensures mapping.Bits() == bm0
    ensures mapping.domain.log == old(mapping.domain.log) + [Unmap(addr, size)] + FreeReqs(addr, size, mapping.minIovaAlign)
    ensures rel == ReleaseOf(pages[..], size, attrs)
    ensures mapping.bitmap[mapping.bits..] == old(mapping.bitmap[mapping.bits..])
    ensures mapping.domain.freed == old(mapping.domain.freed)
  {
    assert PageBase(addr) == addr && PageOffset(addr) == 0 && PageAlign(size) == size;
    RemoveMapping(mapping, addr, size);
    rel := FreeBuffer(pages, size, attrs);
  }

  // ---------------------------------------------------------------------
  // arm_iommu_alloc_attrs

  /** What the pages of a live allocation look like to free and mmap: the
      page array (or the kernel mapping over it) holds one present page per
      page of the aligned size, and the array is the one the attrs say. */
  ghost predicate Allocated(cpu: CpuAddr, attrs: set<Attr>, size: nat)
    reads if cpu.PageArray? || cpu.Remapped? then {cpu.pages} else {}
  {
    match cpu
    case NoAddr => false
    case PoolAddr(_) => true
    case LinearAddr(_) => true
    case PageArray(p) => NoKernelMapping in attrs && Holds(p[..], size, attrs)
    case Remapped(p) => NoKernelMapping !in attrs && Holds(p[..], size, attrs)
  }

  /** A buffer of size bytes as __iommu_alloc_buffer leaves it. */
  ghost predicate Holds(pages: seq<PageRef>, size: nat, attrs: set<Attr>)
  {
    |pages| == size / PageSize && (forall i :: 0 <= i < |pages| ==> pages[i].Page?) &&
    (ForceContiguous in attrs ==> |pages| > 0)
  }

  /** Whichever way __iommu_create_mapping ends, the bitmap is accounted for:
      a failed create leaves it as it was, and the page-aligned address of a
      successful one is what __iommu_remove_mapping must be given to restore
      it. */
  lemma CreateOutcome(bm: seq<bool>, pfns: seq<nat>, size: nat, minAlign: nat, base: nat, guardPhys: nat,
                      guardMapOk: bool, prot: set<Prot>, mapOk: nat -> bool)
    requires minAlign % PageSize == 0 && base % PageSize == 0 && size % PageSize == 0
    ensures var c := CreateSpec(bm, pfns, size, minAlign, base, guardPhys, guardMapOk, prot, mapOk);
      (c.dma.DmaError? ==> c.bm == bm) &&
      (c.dma.DmaAddr? ==> c.dma.addr % PageSize == 0 && RemoveRestores(bm, c.bm, c.dma.addr, size, minAlign, base))
  {
    CreateSpecSound(bm, pfns, size, minAlign, base, guardPhys, guardMapOk, prot, mapOk);
    CreateSpecThenRemove(bm, pfns, size, minAlign, base, guardPhys, guardMapOk, prot, mapOk);
  }

  /** What each path of arm_iommu_alloc_attrs leaves for a page-aligned
      size, given the bitmap bm0 and the request log log0 before it and bm
      and log after. The atomic path without its array or pages returns
      nothing and requests nothing; with them, the handle, bitmap and
      requests are __iommu_create_mapping's over the contiguous pages, and
      a failed create gives the pages back to the pool or the page
      allocator. The blocking path without a buffer returns nothing and
      requests nothing; with one, the handle is __iommu_create_mapping's
      over the buffer, settled as Settled says. */
  ghost predicate Paths(cpu: CpuAddr, handle: Dma, back: seq<Give>, size: nat, attrs: set<Attr>, coherent: bool,
                        blocking: bool, arrayOk: bool, page: PageRef, cma: PageRef, grant: (nat, nat) -> PageRef,
                        guardMapOk: bool, mapOk: nat -> bool, remapOk: bool, orders: set<nat>, minAlign: nat, base: nat,
                        guardPhys: nat, bm0: seq<bool>, bm: seq<bool>, log0: seq<IommuReq>, log: seq<IommuReq>)
    requires minAlign % PageSize == 0 && base % PageSize == 0
    reads if cpu.PageArray? || cpu.Remapped? then {cpu.pages} else {}
  {
    if !blocking then
      if !arrayOk || page.NoPage? then
        cpu == NoAddr && handle == DmaError && back == [] && log == log0
      else
        var c := CreateSpec(bm0, Frames(Contiguous(page.pfn, size / PageSize)), size, minAlign, base, guardPhys,
                            guardMapOk, CreateProt(attrs, coherent), mapOk);
        handle == c.dma && bm == c.bm && log == log0 + c.reqs &&
        (c.dma.DmaAddr? ==> cpu == (if coherent then LinearAddr(page.pfn) else PoolAddr(page.pfn)) && back == []) &&
        (c.dma.DmaError? ==>
          cpu == NoAddr && back == [if coherent then PagesBack(page.pfn, GetOrder(size)) else PoolBack(page.pfn, size)])
    else
      var b := BufferOf(size, attrs, orders, arrayOk, cma, grant);
      if b.NoBuffer? then
        cpu == NoAddr && handle == DmaError && back == [] && log == log0
      else
        var c := CreateSpec(bm0, Frames(b.pages), size, minAlign, base, guardPhys, guardMapOk,
                            CreateProt(attrs, coherent), mapOk);
        handle == c.dma && Settled(cpu, back, b.pages, size, attrs, remapOk, c, bm0, bm, log0, log, minAlign)
  }

  /** arm_iommu_alloc_attrs (dma-mapping.c:468-514). blocking is
      gfpflags_allow_blocking(gfp); arrayOk and page answer the atomic
      path's allocations, arrayOk, cma and grant the blocking path's, and
      remapOk the kernel remap. Whatever the path, a failed allocation
      leaves the IOVA bitmap as it was, and a successful one hands back an
      address whose removal restores it, with pages free and mmap can use. */
  method AllocAttrs(mapping: IommuMapping, size: nat, attrs: set<Attr>, coherent: bool, blocking: bool,
                    arrayOk: bool, page: PageRef, cma: PageRef, grant: (nat, nat) -> PageRef,
                    guardMapOk: bool, mapOk: nat -> bool, remapOk: bool)
    returns (cpu: CpuAddr, handle: Dma, back: seq<Give>)
    requires mapping.Ready() && mapping.base % PageSize == 0 && mapping.minIovaAlign % PageSize == 0
    requires ForceContiguous in attrs && size == 0 ==> cma.NoPage?
    modifies mapping.bitmap, mapping.domain
    ensures cpu == NoAddr ==> mapping.Bits() == old(mapping.Bits())
    ensures cpu != NoAddr ==>
      handle.DmaAddr? && handle.addr % PageSize == 0 && back == [] &&
      RemoveRestores(old(mapping.Bits()), mapping.Bits(), handle.addr, PageAlign(size), mapping.minIovaAlign, mapping.base) &&
      Allocated(cpu, attrs, PageAlign(size))
    ensures !blocking ==> !cpu.PageArray? && !cpu.Remapped? && (cpu.LinearAddr? ==> coherent) && (cpu.PoolAddr? ==> !coherent)
    ensures blocking ==> !cpu.PoolAddr? && !cpu.LinearAddr? && (cpu.Remapped? ==> remapOk)
    ensures Paths(cpu, handle, back, PageAlign(size), attrs, coherent, blocking, arrayOk, page, cma, grant, guardMapOk, mapOk,
                  remapOk, mapping.domain.pgsizeOrders, mapping.minIovaAlign, mapping.base, mapping.GuardPhys(),
                  old(mapping.Bits()), mapping.Bits(), old(mapping.domain.log), mapping.domain.log)
    ensures cpu.PageArray? || cpu.Remapped? ==> fresh(cpu.pages)
    ensures mapping.bitmap[mapping.bits..] == old(mapping.bitmap[mapping.bits..])
    ensures mapping.domain.freed == old(mapping.domain.freed)
  {
    var sz := PageAlign(size);
    if !blocking {
      if arrayOk && page.Page? {
        CreateOutcome(mapping.Bits(), Frames(Contiguous(page.pfn, sz / PageSize)), sz, mapping.minIovaAlign, mapping.base,
                      mapping.GuardPhys(), guardMapOk, CreateProt(attrs, coherent), mapOk);
      }
      cpu, handle, back := AllocAtomic(mapping, sz, attrs, coherent, arrayOk, page, guardMapOk, mapOk);
    } else {
      var b := BufferOf(sz, attrs, mapping.domain.pgsizeOrders, arrayOk, cma, grant);
      if b.Filled? {
        CreateOutcome(mapping.Bits(), Frames(b.pages), sz, mapping.minIovaAlign, mapping.base,
                      mapping.GuardPhys(), guardMapOk, CreateProt(attrs, coherent), mapOk);
      }
      cpu, handle, back := AllocBlocking(mapping, sz, attrs, coherent, arrayOk, cma, grant, guardMapOk, mapOk, remapOk);
    }
  }

  // ---------------------------------------------------------------------
  // __iommu_get_pages and arm_iommu_free_attrs

  /** What __iommu_get_pages hands back. */
  datatype PagesLookup =
    | NullPages                         // NULL
    | PagesArray(pages: array<PageRef>) // a real page array
    | PoolPage(pfn: nat)                // __atomic_get_pages: the pool page's descriptor, cast to an array
    | NotArray                          // cpu_addr itself, when it is not a page array

  /** __iommu_get_pages (dma-mapping.c:395-409): an address inside the
      atomic pool gives its page; with DMA_ATTR_NO_KERNEL_MAPPING the
      address is taken to be the page array; otherwise the array is found
      through the kernel mapping (find_vm_area), and an address with no
      mapping gives NULL. */
  function GetPages(cpu: CpuAddr, attrs: set<Attr>): (r: PagesLookup)
    ensures r.PagesArray? <==> (cpu.PageArray? && NoKernelMapping in attrs) || (cpu.Remapped? && NoKernelMapping !in attrs)
    ensures r.PagesArray? ==> r.pages == cpu.pages
    ensures r.PoolPage? <==> cpu.PoolAddr?
    ensures r.NotArray? ==> NoKernelMapping in attrs
  {
    match cpu
    case PoolAddr(pfn) => PoolPage(pfn)
    case NoAddr => NullPages
    case LinearAddr(_) => if NoKernelMapping in attrs then NotArray else NullPages
    case PageArray(p) => if NoKernelMapping in attrs then PagesArray(p) else NullPages
    case Remapped(p) => if NoKernelMapping in attrs then NotArray else PagesArray(p)
  }

  /** Every blocking allocation finds its page array again, with the attrs
      it was made with. */
  lemma BlockingFindsPages(cpu: CpuAddr, attrs: set<Attr>, size: nat)
    requires Allocated(cpu, attrs, size) && (cpu.PageArray? || cpu.Remapped?)
    ensures GetPages(cpu, attrs) == PagesArray(cpu.pages)
    ensures cpu.pages.Length == size / PageSize
  {
  }

  /** A coherent atomic allocation lives in the linear map: it is neither in
      the pool nor a page array, so __iommu_get_pages never finds its pages. */
  lemma LinearFindsNoPages(pfn: nat, attrs: set<Attr>)
    ensures var r := GetPages(LinearAddr(pfn), attrs);
      (NoKernelMapping !in attrs ==> r == NullPages) && (NoKernelMapping in attrs ==> r == NotArray)
  {
  }

  /** How arm_iommu_free_attrs ends. */
  datatype FreeOutcome =
    | Warned                            // WARN "trying to free invalid coherent area": nothing released
    | Released(back: seq<Give>)         // what went back, in order
    | FreesNonArray                     // __iommu_free_buffer handed an address that is no page array

  /** The remove request arm_iommu_free_attrs makes is one the bitmap can
      take: the range __free_iova clears lies inside it. */
  predicate Removable(mapping: IommuMapping, handle: nat, size: nat)
    reads mapping, mapping.bitmap
  {
    mapping.Ready() && mapping.base <= PageBase(handle) &&
    var f := PlanFree(PageBase(handle), PageAlign(PageOffset(handle) + size), mapping.minIovaAlign, mapping.base);
    f.start + f.count <= mapping.bits
  }

  /** arm_iommu_free_attrs as written (dma-mapping.c:549-572). A pool
      address goes back through __iommu_free_atomic; otherwise the pages are
      looked up, and when none are found the call warns and releases
      nothing -- which is what happens to a coherent atomic allocation
      (LinearAddr). */
  method FreeAttrs(mapping: IommuMapping, size: nat, cpu: CpuAddr, handle: nat, attrs: set<Attr>)
    returns (out: FreeOutcome)
    requires mapping.Ready()
    requires !GetPages(cpu, attrs).NullPages? ==> Removable(mapping, handle, PageAlign(size))
    requires GetPages(cpu, attrs).PagesArray? ==>
      PageAlign(size) / PageSize <= cpu.pages.Length && (ForceContiguous in attrs ==> cpu.pages.Length > 0)
    modifies mapping.bitmap, mapping.domain
    ensures GetPages(cpu, attrs).NullPages? ==>
      out == Warned && mapping.Bits() == old(mapping.Bits()) && mapping.domain.log == old(mapping.domain.log)
    ensures !GetPages(cpu, attrs).NullPages? ==>
      Unmapped(mapping.Bits(), mapping.domain.log, handle, PageAlign(size),
               mapping.minIovaAlign, mapping.base, old(mapping.Bits()), old(mapping.domain.log))
    ensures cpu.PoolAddr? ==> out == Released([PoolBack(cpu.pfn, PageAlign(size))])
    ensures GetPages(cpu, attrs).NotArray? ==> out == FreesNonArray
    ensures GetPages(cpu, attrs).PagesArray? ==>
      out == Released((if NoKernelMapping in attrs then [] else [KernelMappingBack]) +
                      [BufferBack(ReleaseOf(cpu.pages[..], PageAlign(size), attrs))])
    ensures cpu.LinearAddr? && NoKernelMapping !in attrs ==> out == Warned
    ensures mapping.bitmap[mapping.bits..] == old(mapping.bitmap[mapping.bits..])
    ensures mapping.domain.freed == old(mapping.domain.freed)
  {
    var sz := PageAlign(size);
    if cpu.PoolAddr? {
      var back := FreeAtomic(mapping, cpu.pfn, handle, sz);
      return Released(back);
    }
    var pages := GetPages(cpu, attrs);
    if pages.NullPages? {
      return Warned;
    }
    out := FreeFound(mapping, sz, handle, pages, attrs);
  }

  /** __iommu_free_atomic (dma-mapping.c:461-466): remove the mapping, then
      give the buffer back to the atomic pool. */
  method FreeAtomic(mapping: IommuMapping, pfn: nat, handle: nat, size: nat) returns (back: seq<Give>)
    requires Removable(mapping, handle, size)
    modifies mapping.bitmap, mapping.domain
    ensures Unmapped(mapping.Bits(), mapping.domain.log, handle, size,
               mapping.minIovaAlign, mapping.base, old(mapping.Bits()), old(mapping.domain.log))
    ensures back == [PoolBack(pfn, size)]
    ensures mapping.bitmap[mapping.bits..] == old(mapping.bitmap[mapping.bits..])
    ensures mapping.domain.freed == old(mapping.domain.freed)
  {
    RemoveMapping(mapping, handle, size);
    back := [PoolBack(pfn, size)];
  }

  /** The tail of arm_iommu_free_attrs once __iommu_get_pages found
      something (dma-mapping.c:566-571): the kernel mapping goes unless there
      is none, then the IOVA mapping, then the buffer. */
  method FreeFound(mapping: IommuMapping, size: nat, handle: nat, pages: PagesLookup, attrs: set<Attr>)
    returns (out: FreeOutcome)
    requires Removable(mapping, handle, size) && (pages.NotArray? || pages.PagesArray?)
    requires pages.PagesArray? ==>
      size / PageSize <= pages.pages.Length && (ForceContiguous in attrs ==> pages.pages.Length > 0)
    modifies mapping.bitmap, mapping.domain
    ensures Unmapped(mapping.Bits(), mapping.domain.log, handle, size,
               mapping.minIovaAlign, mapping.base, old(mapping.Bits()), old(mapping.domain.log))
    ensures pages.NotArray? ==> out == FreesNonArray
    ensures pages.PagesArray? ==>
      out == Released((if NoKernelMapping in attrs then [] else [KernelMappingBack]) +
                      [BufferBack(ReleaseOf(pages.pages[..], size, attrs))])
    ensures mapping.bitmap[mapping.bits..] == old(mapping.bitmap[mapping.bits..])
    ensures mapping.domain.freed == old(mapping.domain.freed)
  {
    var back := if NoKernelMapping in attrs then [] else [KernelMappingBack];
    RemoveMapping(mapping, handle, size);
    if pages.NotArray? {
      return FreesNonArray;
    }
    var rel := FreeBuffer(pages.pages, size, attrs);
    out := Released(back + [BufferBack(rel)]);
  }

  /** The bitmap bm and request log log that __iommu_remove_mapping(handle,
      size) leaves behind bitmap bm0 and log log0. */
  ghost predicate Unmapped(bm: seq<bool>, log: seq<IommuReq>, handle: nat, size: nat, minAlign: nat, base: nat,
                           bm0: seq<bool>, log0: seq<IommuReq>)
  {
    base <= PageBase(handle) &&
    var sz := PageAlign(PageOffset(handle) + size);
    var f := PlanFree(PageBase(handle), sz, minAlign, base);
    |bm0| == |bm| && f.start + f.count <= |bm0| && bm == ClearRun(bm0, f.start, f.count) &&
    log == log0 + [Unmap(PageBase(handle), sz)] + FreeReqs(PageBase(handle), sz, minAlign)
  }

  /** Removing what a create added gives back the bitmap from before it. */
  lemma UnmappedRestores(bm0: seq<bool>, bm1: seq<bool>, bm2: seq<bool>, log2: seq<IommuReq>, handle: nat, size: nat,
                         minAlign: nat, base: nat, log1: seq<IommuReq>)
    requires RemoveRestores(bm0, bm1, handle, size, minAlign, base)
    requires Unmapped(bm2, log2, handle, size, minAlign, base, bm1, log1)
    ensures bm2 == bm0
  {
  }

  /** arm_iommu_free_attrs with the coherent atomic case handled: an address
      in the linear map is a coherent atomic allocation, whose mapping is
      removed and whose pages go back to alloc_pages' allocator, the
      counterpart of __iommu_alloc_atomic's coherent branch. Every other
      address is freed as FreeAttrs frees it. */
  method FreeAttrsCorrected(mapping: IommuMapping, size: nat, cpu: CpuAddr, handle: nat, attrs: set<Attr>)
    returns (out: FreeOutcome)
    requires mapping.Ready()
    requires cpu.LinearAddr? || !GetPages(cpu, attrs).NullPages? ==> Removable(mapping, handle, PageAlign(size))
    requires GetPages(cpu, attrs).PagesArray? ==>
      PageAlign(size) / PageSize <= cpu.pages.Length && (ForceContiguous in attrs ==> cpu.pages.Length > 0)
    modifies mapping.bitmap, mapping.domain
    ensures cpu.LinearAddr? ==>
      out == Released([PagesBack(cpu.pfn, GetOrder(PageAlign(size)))])
    ensures !cpu.LinearAddr? && GetPages(cpu, attrs).NullPages? ==>
      out == Warned && mapping.Bits() == old(mapping.Bits()) && mapping.domain.log == old(mapping.domain.log)
    ensures cpu.LinearAddr? || !GetPages(cpu, attrs).NullPages? ==>
      Unmapped(mapping.Bits(), mapping.domain.log, handle, PageAlign(size),
               mapping.minIovaAlign, mapping.base, old(mapping.Bits()), old(mapping.domain.log))
    ensures cpu.PoolAddr? ==> out == Released([PoolBack(cpu.pfn, PageAlign(size))])
    ensures !cpu.LinearAddr? && GetPages(cpu, attrs).NotArray? ==> out == FreesNonArray
    ensures GetPages(cpu, attrs).PagesArray? ==>
      out == Released((if NoKernelMapping in attrs then [] else [KernelMappingBack]) +
                      [BufferBack(ReleaseOf(cpu.pages[..], PageAlign(size), attrs))])
    ensures mapping.bitmap[mapping.bits..] == old(mapping.bitmap[mapping.bits..])
    ensures mapping.domain.freed == old(mapping.domain.freed)
  {
    if cpu.LinearAddr? {
      var sz := PageAlign(size);
      RemoveMapping(mapping, handle, sz);
      assert Unmapped(mapping.Bits(), mapping.domain.log, handle, sz,
               mapping.minIovaAlign, mapping.base, old(mapping.Bits()), old(mapping.domain.log));
      return Released([PagesBack(cpu.pfn, GetOrder(sz))]);
    }
    out := FreeAttrs(mapping, size, cpu, handle, attrs);
  }

  /** Every allocation arm_iommu_alloc_attrs hands out can be freed with the
      same size and attrs, and the free gives the IOVA space back: the
      bitmap ends as it began, and the allocation's memory is released. */
  method AllocThenFree(mapping: IommuMapping, size: nat, attrs: set<Attr>, coherent: bool, blocking: bool,
                       arrayOk: bool, page: PageRef, cma: PageRef, grant: (nat, nat) -> PageRef,
                       guardMapOk: bool, mapOk: nat -> bool, remapOk: bool)
    returns (cpu: CpuAddr, out: FreeOutcome)
    requires mapping.Ready() && mapping.base % PageSize == 0 && mapping.minIovaAlign % PageSize == 0
    requires ForceContiguous in attrs && size == 0 ==> cma.NoPage?
    modifies mapping.bitmap, mapping.domain
    ensures mapping.Bits() == old(mapping.Bits())
    ensures cpu != NoAddr ==> out.Released?
  {
    var handle, back;
    cpu, handle, back := AllocAttrs(mapping, size, attrs, coherent, blocking, arrayOk, page, cma, grant,
                                    guardMapOk, mapOk, remapOk);
    if cpu == NoAddr {
      return NoAddr, Warned;
    }
    out := FreeAllocated(mapping, size, cpu, handle.addr, attrs, old(mapping.Bits()));
  }

  /** The corrected arm_iommu_free_attrs on what a successful
      arm_iommu_alloc_attrs handed out, with bm0 the bitmap before that
      allocation: the bitmap returns to bm0 and the memory is released. */
  method FreeAllocated(mapping: IommuMapping, size: nat, cpu: CpuAddr, handle: nat, attrs: set<Attr>, ghost bm0: seq<bool>)
    returns (out: FreeOutcome)
    requires mapping.Ready() && handle % PageSize == 0
    requires RemoveRestores(bm0, mapping.Bits(), handle, PageAlign(size), mapping.minIovaAlign, mapping.base)
    requires Allocated(cpu, attrs, PageAlign(size))
    modifies mapping.bitmap, mapping.domain
    ensures mapping.Bits() == bm0 && out.Released?
  {
    if cpu.PageArray? || cpu.Remapped? {
      BlockingFindsPages(cpu, attrs, PageAlign(size));
    }
    ghost var bm1, log1 := mapping.Bits(), mapping.domain.log;
    out := FreeAttrsCorrected(mapping, size, cpu, handle, attrs);
    UnmappedRestores(bm0, bm1, mapping.Bits(), mapping.domain.log, handle, PageAlign(size),
                     mapping.minIovaAlign, mapping.base, log1);
  }

  /** The coherent atomic allocation freed by arm_iommu_free_attrs as
      written (no DMA_ATTR_NO_KERNEL_MAPPING): the allocation succeeds with
      a linear-map address, and the free only warns, so its IOVA range is
      still reserved -- it takes a remove to get the bitmap back -- and its
      pages are never released. */
  method CoherentAtomicLeaks(mapping: IommuMapping, size: nat, attrs: set<Attr>, arrayOk: bool, page: PageRef,
                             guardMapOk: bool, mapOk: nat -> bool)
    returns (cpu: CpuAddr, handle: Dma, out: FreeOutcome)
    requires mapping.Ready() && mapping.base % PageSize == 0 && mapping.minIovaAlign % PageSize == 0
    requires NoKernelMapping !in attrs
    modifies mapping.bitmap, mapping.domain
    ensures cpu != NoAddr ==>
      cpu.LinearAddr? && out == Warned && handle.DmaAddr? &&
      RemoveRestores(old(mapping.Bits()), mapping.Bits(), handle.addr, PageAlign(size), mapping.minIovaAlign, mapping.base)
  {
    var back;
    cpu, handle, back := AllocAttrs(mapping, size, attrs, true, false, arrayOk, page, NoPage, (_, _) => NoPage,
                                    guardMapOk, mapOk, false);
    if cpu == NoAddr {
      return cpu, handle, Warned;
    }
    LinearFindsNoPages(cpu.pfn, attrs);
    out := FreeAttrs(mapping, size, cpu, if handle.DmaAddr? then handle.addr else 0, attrs);
  }

  // ---------------------------------------------------------------------
  // arm_iommu_mmap_attrs

  /** One vm_insert_page: user address uaddr now maps page. */
  datatype Insert = Insert(uaddr: nat, page: PageRef)

  /** How arm_iommu_mmap_attrs ends: with a return code and the pages
      inserted so far, by reading past the end of the page array, or by
      reading something that is no page array. */
  datatype MmapOutcome =
    | MmapRet(ret: int, inserted: seq<Insert>)
    | ReadPastEnd(inserted: seq<Insert>)
    | ReadsNonArray

  /** The do-while loop of arm_iommu_mmap_attrs as written
      (dma-mapping.c:530-540), from page k at user address uaddr with usize
      bytes of the vma left and the inserts done so far. insertRet(k) is
      what vm_insert_page returns for the k-th page. The loop runs until the
      vma is full and never looks at how many pages the array holds. */
  function MmapLoop(pages: seq<PageRef>, k: nat, uaddr: nat, usize: nat, insertRet: nat -> int,
                    done: seq<Insert>): (r: MmapOutcome)
    requires usize > 0 && usize % PageSize == 0
    ensures !r.ReadsNonArray? && done <= r.inserted
    ensures r.MmapRet? && r.ret == 0 ==> |r.inserted| == |done| + usize / PageSize
    decreases usize
  {
    if k >= |pages| then ReadPastEnd(done)
    else if insertRet(k) != 0 then MmapRet(insertRet(k), done)
    else
      var done' := done + [Insert(uaddr, pages[k])];
      if usize == PageSize then MmapRet(0, done')
      else MmapLoop(pages, k + 1, uaddr + PageSize, usize - PageSize, insertRet, done')
  }

  /** When every insert succeeds and the vma holds more pages than are left
      in the array, the loop reads past the end of the array. */
  lemma {:induction false} MmapReadsPastEnd(pages: seq<PageRef>, k: nat, uaddr: nat, usize: nat,
                                            insertRet: nat -> int, done: seq<Insert>)
    requires usize > 0 && usize % PageSize == 0
    requires k <= |pages| && usize / PageSize > |pages| - k
    requires forall j :: k <= j < |pages| ==> insertRet(j) == 0
    ensures MmapLoop(pages, k, uaddr, usize, insertRet, done).ReadPastEnd?
    decreases |pages| - k
  {
    if k < |pages| {
      MmapReadsPastEnd(pages, k + 1, uaddr + PageSize, usize - PageSize, insertRet, done + [Insert(uaddr, pages[k])]);
    }
  }

  /** When the array holds a page for every page of the vma that is left,
      the loop ends with a return code and never reads past the array. */
  lemma {:induction false} MmapStaysInBounds(pages: seq<PageRef>, k: nat, uaddr: nat, usize: nat,
                                             insertRet: nat -> int, done: seq<Insert>)
    requires usize > 0 && usize % PageSize == 0
    requires k + usize / PageSize <= |pages|
    ensures MmapLoop(pages, k, uaddr, usize, insertRet, done).MmapRet?
    decreases usize
  {
    if insertRet(k) == 0 && usize != PageSize {
      MmapStaysInBounds(pages, k + 1, uaddr + PageSize, usize - PageSize, insertRet, done + [Insert(uaddr, pages[k])]);
    }
  }

  /** The smallest case: a one-page buffer mapped into a two-page vma. */
  lemma MmapOverrunExample()
    ensures MmapLoop([Page(7)], 0, 0, 2 * PageSize, _ => 0, []) == ReadPastEnd([Insert(0, Page(7))])
  {
    var usize := 2 * PageSize;
    assert usize / PageSize == 2;
    assert MmapLoop([Page(7)], 0, 0, usize, _ => 0, []) == MmapLoop([Page(7)], 1, PageSize, PageSize, _ => 0, [Insert(0, Page(7))]);
  }

  /** arm_iommu_mmap_attrs as written (dma-mapping.c:516-543), for a vma from
      vmStart to vmEnd. */
  function MmapAttrsAsWritten(cpu: CpuAddr, attrs: set<Attr>, vmStart: nat, vmEnd: nat, insertRet: nat -> int)
    : (r: MmapOutcome)
    requires vmStart < vmEnd && (vmEnd - vmStart) % PageSize == 0
    reads if cpu.PageArray? || cpu.Remapped? then {cpu.pages} else {}
    ensures GetPages(cpu, attrs).NullPages? ==> r == MmapRet(-ENXIO, [])
    ensures GetPages(cpu, attrs).PagesArray? ==> !r.ReadsNonArray?
  {
    match GetPages(cpu, attrs)
    case NullPages => MmapRet(-ENXIO, [])
    case PagesArray(p) => MmapLoop(p[..], 0, vmStart, vmEnd - vmStart, insertRet, [])
    case _ => ReadsNonArray
  }

  /** arm_iommu_mmap_attrs with the array's length checked before the loop:
      a vma larger than the buffer is refused with -ENXIO, and otherwise the
      loop is the one as written, which then inserts the buffer's pages in
      order from vmStart, one per page of the vma, stopping at the first
      insert that fails. */
  method MmapAttrs(cpu: CpuAddr, attrs: set<Attr>, vmStart: nat, vmEnd: nat, insertRet: nat -> int)
    returns (r: MmapOutcome)
    requires vmStart < vmEnd && (vmEnd - vmStart) % PageSize == 0
    ensures !r.ReadPastEnd?
    ensures GetPages(cpu, attrs).NullPages? ==> r == MmapRet(-ENXIO, [])
    ensures GetPages(cpu, attrs).PoolPage? || GetPages(cpu, attrs).NotArray? ==> r == ReadsNonArray
    ensures GetPages(cpu, attrs).PagesArray? ==>
      var n := (vmEnd - vmStart) / PageSize;
      (n > cpu.pages.Length ==> r == MmapRet(-ENXIO, [])) &&
      (n <= cpu.pages.Length ==> r == MmapAttrsAsWritten(cpu, attrs, vmStart, vmEnd, insertRet))
    ensures GetPages(cpu, attrs).PagesArray? && r.MmapRet? && r.ret == 0 ==>
      |r.inserted| == (vmEnd - vmStart) / PageSize &&
      forall k :: 0 <= k < |r.inserted| ==> r.inserted[k] == Insert(vmStart + k * PageSize, cpu.pages[k])
  {
    var look := GetPages(cpu, attrs);
    if look.NullPages? {
      return MmapRet(-ENXIO, []);
    }
    if !look.PagesArray? {
      return ReadsNonArray;
    }
    var usize := vmEnd - vmStart;
    if usize / PageSize > look.pages.Length {
      return MmapRet(-ENXIO, []);
    }
    r := InsertPages(look.pages, vmStart, usize, insertRet);
  }

  /** The do-while loop of arm_iommu_mmap_attrs over a page array that holds
      at least one page per page of the vma: it computes what MmapLoop
      defines, and when every insert succeeds the vma maps the array's
      pages in order. */
  method InsertPages(pages: array<PageRef>, vmStart: nat, usize: nat, insertRet: nat -> int) returns (r: MmapOutcome)
    requires usize > 0 && usize % PageSize == 0 && usize / PageSize <= pages.Length
    ensures r.MmapRet? && r == MmapLoop(pages[..], 0, vmStart, usize, insertRet, [])
    ensures r.MmapRet? && r.ret == 0 ==>
      |r.inserted| == usize / PageSize &&
      forall k :: 0 <= k < |r.inserted| ==> r.inserted[k] == Insert(vmStart + k * PageSize, pages[k])
  {
    ghost var n := usize / PageSize;
    assert usize == n * PageSize;
    ghost var ps := pages[..];
    ghost var asWritten := MmapLoop(ps, 0, vmStart, usize, insertRet, []);
    var inserted := [];
    var i, uaddr, left := 0, vmStart, usize;
    while left > 0
      invariant i <= n && uaddr == vmStart + i * PageSize && left == (n - i) * PageSize
      invariant |inserted| == i
      invariant forall k :: 0 <= k < i ==> inserted[k] == Insert(vmStart + k * PageSize, pages[k])
      invariant left > 0 ==> asWritten == MmapLoop(ps, i, uaddr, left, insertRet, inserted)
      invariant left == 0 ==> asWritten == MmapRet(0, inserted)
    {
      MmapStep(ps, i, uaddr, left, insertRet, inserted);
      var ret := insertRet(i);
      if ret != 0 {
        return MmapRet(ret, inserted);
      }
      inserted := inserted + [Insert(uaddr, pages[i])];
      i, uaddr, left := i + 1, uaddr + PageSize, left - PageSize;
    }
    r := MmapRet(0, inserted);
  }

  /** One turn of the do-while loop, read off MmapLoop. */
  lemma MmapStep(pages: seq<PageRef>, k: nat, uaddr: nat, usize: nat, insertRet: nat -> int, done: seq<Insert>)
    requires usize > 0 && usize % PageSize == 0 && k < |pages|
    ensures var r := MmapLoop(pages, k, uaddr, usize, insertRet, done);
      var done' := done + [Insert(uaddr, pages[k])];
      (insertRet(k) != 0 ==> r == MmapRet(insertRet(k), done)) &&
      (insertRet(k) == 0 && usize == PageSize ==> r == MmapRet(0, done')) &&
      (insertRet(k) == 0 && usize > PageSize ==>
         r == MmapLoop(pages, k + 1, uaddr + PageSize, usize - PageSize, insertRet, done'))
  {
  }
}
