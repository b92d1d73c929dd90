/** struct dma_iommu_mapping and its bitmap IOVA allocator: __alloc_iova and
    __free_iova of arch/arm64/mm/dma-mapping.c, working in place on the
    mapping's bitmap. The requests the allocator makes of the IOMMU driver
    are appended to the domain's log; whether iommu_map succeeds is a
    parameter. */
module DmaMapping {
  import opened PageMath
  import opened IovaBitmap
  import opened DmaFlags

  /** A dma_addr_t result: an address, or DMA_ERROR_CODE. */
  datatype Dma = DmaAddr(addr: nat) | DmaError

  /** A struct page pointer, by page frame number; NoPage is NULL. */
  datatype PageRef = NoPage | Page(pfn: nat)

  /** The requests made of the IOMMU driver, in the order they are made. */
  datatype IommuReq =
    | Map(iova: nat, phys: nat, len: nat, prot: set<Prot>)    // iommu_map
    | Unmap(iova: nat, len: nat)                              // iommu_unmap
    | MapSg(iova: nat, nents: nat, prot: set<Prot>)           // iommu_map_sg

  /** The dma_map_ops a mapping installs: none yet, the bitmap allocator's
      iommu_ops, iommu_dma_ops, swiotlb_dma_ops (stage-1 bypass) or the fast
      SMMU backend's. */
  datatype OpsKind = NoOps | BitmapOps | IommuDmaOps | SwiotlbOps | FastOps

  /** ARM_SMMU_MIN_IOVA_ALIGN, the IOVA alignment the MMU-500 errata needs.
      The header that defines it is not part of this model; SZ_8K is assumed. */
  const ArmSmmuMinIovaAlign: nat := 8192

  /** struct iommu_domain, reduced to what the mapper reads of it (its page
      sizes and the DOMAIN_ATTR_* answers of iommu_domain_get_attr) and to
      the requests made of its driver. */
  class Domain {
    /** pgsize_bitmap >> PAGE_SHIFT, as the set of page orders the IOMMU maps. */
    const pgsizeOrders: set<nat>
    const s1Bypass: bool
    const isFast: bool
    const isBitmap: bool
    const errataMinIovaAlign: bool
    const secureVmid: int
    var log: seq<IommuReq>
    /** Whether the domain holds an iommu-dma cookie (iommu_get_dma_cookie). */
    var cookie: bool
    var freed: bool

    constructor (pgsizeOrders: set<nat>, s1Bypass: bool, isFast: bool, isBitmap: bool,
                 errataMinIovaAlign: bool, secureVmid: int)
      ensures this.pgsizeOrders == pgsizeOrders && this.s1Bypass == s1Bypass
      ensures this.isFast == isFast && this.isBitmap == isBitmap
      ensures this.errataMinIovaAlign == errataMinIovaAlign && this.secureVmid == secureVmid
      ensures log == [] && !cookie && !freed
    {
      this.pgsizeOrders := pgsizeOrders;
      this.s1Bypass := s1Bypass;
      this.isFast := isFast;
      this.isBitmap := isBitmap;
      this.errataMinIovaAlign := errataMinIovaAlign;
      this.secureVmid := secureVmid;
      log := [];
      cookie := false;
      freed := false;
    }
  }

  /** What __alloc_iova does to a bitmap of the mapping's size, and the
      requests it makes: the result, the new bitmap and the new log entries. */
  datatype AllocResult = AllocResult(dma: Dma, bm: seq<bool>, reqs: seq<IommuReq>)

  /** __alloc_iova on a bitmap of the mapping's size. */
  function AllocSpec(bm: seq<bool>, size: nat, minAlign: nat, base: nat, guardPhys: nat, guardMapOk: bool): AllocResult
  {
    var p := PlanAlloc(size, minAlign);
    AllocFrom(bm, p, ZeroArea(bm, 0, p.count, Pow2(p.order)), base, guardPhys, guardMapOk)
  }

  /** The part of __alloc_iova after the search returned s. */
  function AllocFrom(bm: seq<bool>, p: IovaPlan, s: nat, base: nat, guardPhys: nat, guardMapOk: bool): AllocResult
    requires s <= |bm| ==> s + p.count <= |bm|
  {
    if s > |bm| then AllocResult(DmaError, bm, [])
    else
      var iova := base + s * PageSize;
      var marked := SetRun(bm, s, p.count);
      if p.guard == 0 then AllocResult(DmaAddr(iova), marked, [])
      else
        var req := Map(iova + p.size, guardPhys, p.guard, GuardProt);
        if guardMapOk then AllocResult(DmaAddr(iova), marked, [req])
        else AllocResult(DmaError, ClearRun(marked, s, p.count), [req])
  }

  /** `mapping->base + (start << PAGE_SHIFT)` as __alloc_iova writes it:
      start is an unsigned int, so the shift is done in 32 bits and wraps
      once start reaches 2^20 pages (4 GiB). AllocFrom computes the address
      in dma_addr_t's width instead. */
  function ShiftedIova(base: nat, s: nat): (iova: nat)
    ensures base <= iova < base + 0x1_0000_0000
    ensures s * PageSize < 0x1_0000_0000 ==> iova == base + s * PageSize
  {
    base + (s * PageSize) % 0x1_0000_0000
  }

  /** As written, a range found at page 2^20 of a mapping larger than 4 GiB
      is handed out at the mapping's base, the address of page 0, which
      AllocFrom places 4 GiB higher; __free_iova on that address then
      clears the run at page 0, not the run that was set. */
  lemma ShiftedIovaAliases(base: nat, size: nat, minAlign: nat)
    requires base % PageSize == 0
    ensures ShiftedIova(base, 0x10_0000) == base != base + 0x10_0000 * PageSize
    ensures PlanFree(ShiftedIova(base, 0x10_0000), size, minAlign, base).start == 0
    ensures PlanFree(base + 0x10_0000 * PageSize, size, minAlign, base).start == 0x10_0000
  {
    var k := base / PageSize;
    DivModUnique(base, PageSize, k, 0);
    var hi := base + 0x10_0000 * PageSize;
    DivModUnique(hi, PageSize, k + 0x10_0000, 0);
    MultipleMod(0x10_0000, PageSize);
  }

  /** __alloc_iova's promise: on success the address is base plus s pages,
      where s is the first fit, a multiple of 2^order, and the count bits from
      s were clear and are now set, nothing else changing; on failure (no
      range, or the guard map failed) the bitmap is as before. */
  lemma AllocSpecSound(bm: seq<bool>, size: nat, minAlign: nat, base: nat, guardPhys: nat, guardMapOk: bool)
    ensures var r := AllocSpec(bm, size, minAlign, base, guardPhys, guardMapOk);
      var p := PlanAlloc(size, minAlign);
      var s := ZeroArea(bm, 0, p.count, Pow2(p.order));
      |r.bm| == |bm| &&
      (r.dma.DmaError? ==> r.bm == bm) &&
      (r.dma.DmaAddr? <==> s <= |bm| && (p.guard == 0 || guardMapOk)) &&
      (r.dma.DmaAddr? ==>
        r.dma.addr == base + s * PageSize && s % Pow2(p.order) == 0 &&
        RunClear(bm, s, p.count) && r.bm == SetRun(bm, s, p.count) && RunSet(r.bm, s, p.count))
  {
    var p := PlanAlloc(size, minAlign);
    var s := ZeroArea(bm, 0, p.count, Pow2(p.order));
    var r := AllocSpec(bm, size, minAlign, base, guardPhys, guardMapOk);
    assert r == AllocFrom(bm, p, s, base, guardPhys, guardMapOk);
    AllocFromSound(bm, p, s, base, guardPhys, guardMapOk);
  }

  /** After the search: the bitmap is marked only on success, and the only
      request made is the guard map, made exactly when a range was found and
      the guard is not empty. */
  lemma AllocFromSound(bm: seq<bool>, p: IovaPlan, s: nat, base: nat, guardPhys: nat, guardMapOk: bool)
    requires s <= |bm| ==> RunClear(bm, s, p.count)
    ensures var r := AllocFrom(bm, p, s, base, guardPhys, guardMapOk);
      |r.bm| == |bm| &&
      (r.dma.DmaError? ==> r.bm == bm) &&
      (r.dma.DmaAddr? <==> s <= |bm| && (p.guard == 0 || guardMapOk)) &&
      (r.dma.DmaAddr? ==> r.dma.addr == base + s * PageSize && r.bm == SetRun(bm, s, p.count) && RunSet(r.bm, s, p.count)) &&
      (r.reqs == [] <==> p.guard == 0 || s > |bm|) &&
      (r.reqs != [] ==> r.reqs == [Map(base + s * PageSize + p.size, guardPhys, p.guard, GuardProt)])
  {
    if s <= |bm| && p.guard != 0 && !guardMapOk {
      ClearUndoesSet(bm, s, p.count);
    }
  }

  /** The guard unmap of __free_iova covers exactly the guard map of
      __alloc_iova, and the bits it clears are exactly the bits set: freeing
      a successful allocation restores the bitmap. A failed allocation
      leaves it as it was. */
  lemma FreeIovaUndoesAlloc(bm: seq<bool>, size: nat, minAlign: nat, base: nat, guardPhys: nat, guardMapOk: bool)
    requires minAlign % PageSize == 0 && base % PageSize == 0
    ensures var r := AllocSpec(bm, size, minAlign, base, guardPhys, guardMapOk);
      (r.dma.DmaError? ==> r.bm == bm) &&
      (r.dma.DmaAddr? ==>
        |r.bm| == |bm| && base <= PageBase(r.dma.addr) &&
        var f := PlanFree(r.dma.addr, size, minAlign, base);
        f.start + f.count <= |bm| &&
        ClearRun(r.bm, f.start, f.count) == bm &&
        (r.reqs != [] ==> r.reqs[0].iova == PageBase(r.dma.addr) + f.size && r.reqs[0].len == f.guard))
  {
    var p := PlanAlloc(size, minAlign);
    var s := ZeroArea(bm, 0, p.count, Pow2(p.order));
    assert AllocSpec(bm, size, minAlign, base, guardPhys, guardMapOk) == AllocFrom(bm, p, s, base, guardPhys, guardMapOk);
    AllocFromThenFree(bm, p, s, size, minAlign, base, guardPhys, guardMapOk);
  }

  /** FreeIovaUndoesAlloc for the range found at s. */
  lemma AllocFromThenFree(bm: seq<bool>, p: IovaPlan, s: nat, size: nat, minAlign: nat, base: nat,
                          guardPhys: nat, guardMapOk: bool)
    requires minAlign % PageSize == 0 && base % PageSize == 0
    requires p == PlanAlloc(size, minAlign)
    requires s <= |bm| ==> RunClear(bm, s, p.count)
    ensures var r := AllocFrom(bm, p, s, base, guardPhys, guardMapOk);
      (r.dma.DmaError? ==> r.bm == bm) &&
      (r.dma.DmaAddr? ==>
        |r.bm| == |bm| && base <= PageBase(r.dma.addr) &&
        var f := PlanFree(r.dma.addr, size, minAlign, base);
        f.start + f.count <= |bm| &&
        ClearRun(r.bm, f.start, f.count) == bm &&
        (r.reqs != [] ==> r.reqs[0].iova == PageBase(r.dma.addr) + f.size && r.reqs[0].len == f.guard))
  {
    AllocFromSound(bm, p, s, base, guardPhys, guardMapOk);
    if s <= |bm| {
      FreeMatchesAlloc(size, minAlign, base, s);
      ClearUndoesSet(bm, s, p.count);
    }
  }

  /** struct dma_iommu_mapping. bitmap is NULL (null) until the bitmap
      backend initialises the mapping. */
  class IommuMapping {
    const base: nat
    const bits: nat
    const domain: Domain
    var bitmap: array?<bool>
    var minIovaAlign: nat
    var guardPage: PageRef
    var init: bool
    var kref: nat
    var ops: OpsKind
    /** Set once kfree(mapping) has run. */
    var freed: bool

    /** The state arm_iommu_create_mapping leaves after kzalloc and its field
        assignments (the rest of the structure is zero). */
    constructor (base: nat, bits: nat, domain: Domain)
      ensures this.base == base && this.bits == bits && this.domain == domain
      ensures bitmap == null && minIovaAlign == 0 && guardPage == NoPage
      ensures !init && kref == 0 && ops == NoOps && !freed
    {
      this.base := base;
      this.bits := bits;
      this.domain := domain;
      bitmap := null;
      minIovaAlign := 0;
      guardPage := NoPage;
      init := false;
      kref := 0;
      ops := NoOps;
      freed := false;
    }

    /** Neither the mapping nor its domain has been freed, and the mapping
        holds references exactly when it is initialised. */
    predicate Live()
      reads this, domain
    {
      !freed && !domain.freed && (init <==> kref > 0)
    }

    /** The state arm_iommu_create_mapping returns a mapping in. */
    predicate Fresh()
      reads this
    {
      !init && kref == 0 && ops == NoOps && bitmap == null && minIovaAlign == 0 && guardPage == NoPage && !freed
    }

    /** The bitmap allocator may run: the bitmap exists and covers bits. */
    predicate Ready()
      reads this
    {
      bitmap != null && bits <= bitmap.Length
    }

    /** The allocator's view of the bitmap: its first bits bits. */
    function Bits(): (bm: seq<bool>)
      reads this, bitmap
      requires Ready()
      ensures |bm| == bits
    {
      bitmap[..bits]
    }

    /** page_to_phys(mapping->guard_page). */
    function GuardPhys(): (phys: nat)
      reads this
      ensures guardPage.Page? ==> phys == guardPage.pfn * PageSize
    {
      if guardPage.Page? then guardPage.pfn * PageSize else 0
    }

    /** bitmap_set / bitmap_clear of bits [start, start + count). */
    method WriteRun(start: nat, count: nat, value: bool)
      requires Ready() && start + count <= bits
      modifies bitmap
      ensures Bits() == if value then SetRun(old(Bits()), start, count) else ClearRun(old(Bits()), start, count)
      ensures bitmap[bits..] == old(bitmap[bits..])
    {
      for k := start to start + count
        invariant forall t :: 0 <= t < bitmap.Length ==>
          bitmap[t] == if start <= t < k then value else old(bitmap[t])
      {
        bitmap[k] := value;
      }
    }

    /** __alloc_iova (dma-mapping.c:130-178). guardMapOk is whether the IOMMU
        driver maps the guard region. */
    method AllocIova(size: nat, guardMapOk: bool) returns (r: Dma)
      requires Ready()
      modifies bitmap, domain
      ensures var a := AllocSpec(old(Bits()), size, minIovaAlign, base, GuardPhys(), guardMapOk);
        r == a.dma && Bits() == a.bm && domain.log == old(domain.log) + a.reqs
      ensures bitmap[bits..] == old(bitmap[bits..])
      ensures domain.freed == old(domain.freed)
    {
      ghost var bm := Bits();
      var p := PlanAlloc(size, minIovaAlign);
      var start := ZeroArea(bitmap[..bits], 0, p.count, Pow2(p.order));
      assert AllocSpec(bm, size, minIovaAlign, base, GuardPhys(), guardMapOk)
          == AllocFrom(bm, p, start, base, GuardPhys(), guardMapOk);
      r := Commit(p, start, guardMapOk);
    }

    /** The part of __alloc_iova after the search returned start
        (dma-mapping.c:152-177): mark the range, then map the guard. */
    method Commit(p: IovaPlan, start: nat, guardMapOk: bool) returns (r: Dma)
      requires Ready()
      requires start <= bits ==> start + p.count <= bits
      modifies bitmap, domain
      ensures var a := AllocFrom(old(Bits()), p, start, base, GuardPhys(), guardMapOk);
        r == a.dma && Bits() == a.bm && domain.log == old(domain.log) + a.reqs
      ensures bitmap[bits..] == old(bitmap[bits..])
      ensures domain.freed == old(domain.freed)
    {
      ghost var bm := Bits();
      ghost var a := AllocFrom(bm, p, start, base, GuardPhys(), guardMapOk);
      if start > bits {
        return DmaError;
      }
      WriteRun(start, p.count, true);
      var iova := base + start * PageSize;
      if p.guard != 0 {
        var req := Map(iova + p.size, GuardPhys(), p.guard, GuardProt);
        domain.log := domain.log + [req];
        assert a.reqs == [req];
        if !guardMapOk {
          WriteRun(start, p.count, false);
          return DmaError;
        }
      }
      return DmaAddr(iova);
    }

    /** __free_iova (dma-mapping.c:180-202). The caller must pass an address
        and size of a live allocation: the C code clears whatever bits the
        arithmetic names, so the run must lie in the bitmap. */
    method FreeIova(addr: nat, size: nat)
      requires Ready() && base <= PageBase(addr)
      requires var f := PlanFree(addr, size, minIovaAlign, base); f.start + f.count <= bits
      modifies bitmap, domain
      ensures var f := PlanFree(addr, size, minIovaAlign, base);
        Bits() == ClearRun(old(Bits()), f.start, f.count) &&
        domain.log == old(domain.log) + FreeReqs(addr, size, minIovaAlign)
      ensures bitmap[bits..] == old(bitmap[bits..])
      ensures domain.freed == old(domain.freed)
    {
      var f := PlanFree(addr, size, minIovaAlign, base);
      if minIovaAlign != 0 {
        domain.log := domain.log + [Unmap(PageBase(addr) + f.size, f.guard)];
      }
      assert domain.log == old(domain.log) + FreeReqs(addr, size, minIovaAlign);
      WriteRun(f.start, f.count, false);
    }
  }

  /** The guard unmap __free_iova asks for; it is made whenever the errata
      alignment is on, even when the guard is empty. */
  function FreeReqs(addr: nat, size: nat, minAlign: nat): (reqs: seq<IommuReq>)
    ensures minAlign == 0 <==> reqs == []
    ensures reqs != [] ==> reqs == [Unmap(PageBase(addr) + PageAlign(size), GuardLen(PageAlign(size), minAlign))]
  {
    if minAlign != 0 then [Unmap(PageBase(addr) + PageAlign(size), GuardLen(PageAlign(size), minAlign))] else []
  }
}
