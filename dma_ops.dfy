/** The streaming half of iommu_ops in arch/arm64/mm/dma-mapping.c: mapping
    a page, an MMIO resource or a scatterlist into a fresh IOVA range,
    unmapping it again, and the cache-maintenance decisions of the sync
    calls. Each map reserves IOVA with __alloc_iova, makes one request of
    the IOMMU driver and releases the reservation when the driver refuses;
    the driver's answers are parameters. */
module DmaOps {
  import opened PageMath
  import opened IovaBitmap
  import opened DmaFlags
  import opened DmaMapping
  import opened DmaCreate

  // ---------------------------------------------------------------------
  // One request on a fresh reservation

  /** The request a map path makes on its reservation: iommu_map of a
      physical range, or iommu_map_sg of a list of nents segments. */
  datatype Ask = MapPhys(phys: nat, prot: set<Prot>) | MapList(nents: nat, prot: set<Prot>)

  function AskAt(ask: Ask, iova: nat, len: nat): (req: IommuReq)
    ensures (req.Map? || req.MapSg?) && req.iova == iova && req.prot == ask.prot
    ensures ask.MapPhys? ==> req == Map(iova, ask.phys, len, ask.prot)
    ensures ask.MapList? ==> req == MapSg(iova, ask.nents, ask.prot)
  {
    match ask
    case MapPhys(phys, prot) => Map(iova, phys, len, prot)
    case MapList(nents, prot) => MapSg(iova, nents, prot)
  }

  /** After a reservation of len bytes at dma: the request is made; if the
      driver refuses, __free_iova releases the reservation. The caller's
      address is dma plus the in-page offset of what it maps. */
  function SettleSpec(dma: nat, bm: seq<bool>, req: IommuReq, ok: bool, len: nat, minAlign: nat, base: nat,
                   inPage: nat): Created
    requires base <= PageBase(dma)
    requires var f := PlanFree(dma, len, minAlign, base); f.start + f.count <= |bm|
  {
    if ok then Created(DmaAddr(dma + inPage), bm, [req])
    else
      var f := PlanFree(dma, len, minAlign, base);
      Created(DmaError, ClearRun(bm, f.start, f.count), [req] + FreeReqs(dma, len, minAlign))
  }

  /** Reserve len bytes, then ask; s is the start the bitmap search returned. */
  function ReserveFrom(bm: seq<bool>, p: IovaPlan, s: nat, len: nat, inPage: nat, ask: Ask, ok: bool,
                       minAlign: nat, base: nat, guardPhys: nat, guardMapOk: bool): Created
    requires minAlign % PageSize == 0 && base % PageSize == 0
    requires p == PlanAlloc(len, minAlign) && (s <= |bm| ==> RunClear(bm, s, p.count))
  {
    var a := AllocFrom(bm, p, s, base, guardPhys, guardMapOk);
    if a.dma.DmaError? then Created(DmaError, a.bm, a.reqs)
    else
      AllocFromThenFree(bm, p, s, len, minAlign, base, guardPhys, guardMapOk);
      var x := SettleSpec(a.dma.addr, a.bm, AskAt(ask, a.dma.addr, len), ok, len, minAlign, base, inPage);
      Created(x.dma, x.bm, a.reqs + x.reqs)
  }

  /** The common shape of arm_coherent_iommu_map_page, arm_iommu_dma_map_resource
      and arm_iommu_map_sg on a bitmap: __alloc_iova(len), one request, and
      __free_iova(dma, len) when the request fails. */
  function ReserveSpec(bm: seq<bool>, len: nat, inPage: nat, ask: Ask, ok: bool,
                       minAlign: nat, base: nat, guardPhys: nat, guardMapOk: bool): Created
    requires minAlign % PageSize == 0 && base % PageSize == 0
  {
    var p := PlanAlloc(len, minAlign);
    ReserveFrom(bm, p, ZeroArea(bm, 0, p.count, Pow2(p.order)), len, inPage, ask, ok, minAlign, base, guardPhys, guardMapOk)
  }

  /** A map path succeeds exactly when the reservation and the request do.
      Then the address is the reserved page-aligned range plus the in-page
      offset, the reserved bits are set and the last request is the ask at
      the range's start. On every failure the bitmap is as before: a refused
      request releases exactly what was reserved. */
  lemma ReserveSound(bm: seq<bool>, p: IovaPlan, s: nat, len: nat, inPage: nat, ask: Ask, ok: bool,
                     minAlign: nat, base: nat, guardPhys: nat, guardMapOk: bool)
    requires minAlign % PageSize == 0 && base % PageSize == 0
    requires p == PlanAlloc(len, minAlign) && (s <= |bm| ==> RunClear(bm, s, p.count))
    requires inPage < PageSize
    ensures var a := AllocFrom(bm, p, s, base, guardPhys, guardMapOk);
      var c := ReserveFrom(bm, p, s, len, inPage, ask, ok, minAlign, base, guardPhys, guardMapOk);
      |c.bm| == |bm| &&
      (c.dma.DmaError? ==> c.bm == bm) &&
      (c.dma.DmaAddr? <==> a.dma.DmaAddr? && ok) &&
      (c.dma.DmaAddr? ==>
        PageBase(c.dma.addr) == base + s * PageSize && PageOffset(c.dma.addr) == inPage &&
        c.bm == SetRun(bm, s, p.count) && RunSet(c.bm, s, p.count) &&
        c.reqs != [] && c.reqs[|c.reqs| - 1] == AskAt(ask, PageBase(c.dma.addr), len))
  {
    var a := AllocFrom(bm, p, s, base, guardPhys, guardMapOk);
    AllocFromThenFree(bm, p, s, len, minAlign, base, guardPhys, guardMapOk);
    AllocFromSound(bm, p, s, base, guardPhys, guardMapOk);
    if a.dma.DmaAddr? {
      var dma := a.dma.addr;
      FreeMatchesAlloc(len, minAlign, base, s);
      InPageSplit(dma, inPage);
      var c := ReserveFrom(bm, p, s, len, inPage, ask, ok, minAlign, base, guardPhys, guardMapOk);
      var req := AskAt(ask, dma, len);
      if ok {
        assert c.dma == DmaAddr(dma + inPage) && c.bm == a.bm && c.reqs == a.reqs + [req];
        assert PageBase(c.dma.addr) == dma && c.reqs[|c.reqs| - 1] == req;
      } else {
        var f := PlanFree(dma, len, minAlign, base);
        assert c.dma == DmaError && c.bm == ClearRun(a.bm, f.start, f.count);
      }
    }
  }

  /** Adding an in-page offset to a page-aligned address keeps the page and
      makes the offset the address's in-page part. */
  lemma InPageSplit(dma: nat, inPage: nat)
    requires PageBase(dma) == dma && inPage < PageSize
    ensures PageBase(dma + inPage) == dma && PageOffset(dma + inPage) == inPage
  {
    MultipleIs(dma, PageSize);
    DivModUnique(dma + inPage, PageSize, dma / PageSize, inPage);
  }

  /** __iommu_remove_mapping(h, size) releases a reservation of len bytes
      that turned before into after: the range it computes (h's page and
      PAGE_ALIGN(offset + size)) is the reserved length, clearing its run
      from after gives back before, and the guard unmap it asks for is the
      one for len. */
  predicate Releases(before: seq<bool>, after: seq<bool>, h: nat, size: nat, len: nat, minAlign: nat, base: nat)
  {
    var sz := PageAlign(PageOffset(h) + size);
    base <= PageBase(h) && sz == PageAlign(len) && |after| == |before| &&
    var f := PlanFree(PageBase(h), sz, minAlign, base);
    f.start + f.count <= |before| && ClearRun(after, f.start, f.count) == before &&
    FreeReqs(PageBase(h), sz, minAlign) == FreeReqs(PageBase(h), len, minAlign)
  }

  /** The unmap paths (arm_iommu_unmap_page, arm_iommu_dma_unmap_resource,
      arm_iommu_unmap_sg) all run __iommu_remove_mapping's arithmetic on the
      address they are given. On the address a map returned, with a size
      that rounds to the reserved length, that arithmetic gives back the
      reserved range, and __free_iova clears exactly the bits the map set
      and asks for the guard unmap of the reserved length. */
  lemma ReserveThenRemove(bm: seq<bool>, p: IovaPlan, s: nat, len: nat, inPage: nat, ask: Ask, ok: bool,
                          minAlign: nat, base: nat, guardPhys: nat, guardMapOk: bool, size: nat)
    requires minAlign % PageSize == 0 && base % PageSize == 0
    requires p == PlanAlloc(len, minAlign) && (s <= |bm| ==> RunClear(bm, s, p.count))
    requires inPage < PageSize && PageAlign(inPage + size) == PageAlign(len)
    ensures var c := ReserveFrom(bm, p, s, len, inPage, ask, ok, minAlign, base, guardPhys, guardMapOk);
      c.dma.DmaAddr? ==> PageOffset(c.dma.addr) == inPage && Releases(bm, c.bm, c.dma.addr, size, len, minAlign, base)
  {
    var a := AllocFrom(bm, p, s, base, guardPhys, guardMapOk);
    AllocFromThenFree(bm, p, s, len, minAlign, base, guardPhys, guardMapOk);
    if a.dma.DmaAddr? && ok {
      AllocFromSound(bm, p, s, base, guardPhys, guardMapOk);
      FreeMatchesAlloc(len, minAlign, base, s);
      var c := ReserveFrom(bm, p, s, len, inPage, ask, ok, minAlign, base, guardPhys, guardMapOk);
      assert c.dma == DmaAddr(a.dma.addr + inPage) && c.bm == a.bm;
      RemoveAt(bm, c.bm, a.dma.addr, c.dma.addr, inPage, size, len, minAlign, base);
    } else {
      assert ReserveFrom(bm, p, s, len, inPage, ask, ok, minAlign, base, guardPhys, guardMapOk).dma == DmaError;
    }
  }

  /** __iommu_remove_mapping's arithmetic on a page-aligned reservation plus
      an in-page offset, with a size that rounds to the reserved length,
      recovers the reservation's start, length, run and guard request: when
      freeing the reservation's run from after gives back before, so does
      the unmap at the offset address. */
  lemma RemoveAt(before: seq<bool>, after: seq<bool>, dma: nat, h: nat, inPage: nat, size: nat, len: nat, minAlign: nat, base: nat)
    requires PageBase(dma) == dma && base <= dma && inPage < PageSize && h == dma + inPage
    requires PageAlign(inPage + size) == PageAlign(len) && |after| == |before|
    requires var f := PlanFree(dma, len, minAlign, base);
      f.start + f.count <= |before| && ClearRun(after, f.start, f.count) == before
    ensures PageOffset(h) == inPage
    ensures Releases(before, after, h, size, len, minAlign, base)
  {
    InPageSplit(dma, inPage);
    assert PageAlign(PageAlign(len)) == PageAlign(len);
    assert PlanFree(dma, PageAlign(len), minAlign, base) == PlanFree(dma, len, minAlign, base);
  }

  /** The reservation and its release, in place on the mapping. */
  method Reserve(mapping: IommuMapping, len: nat, inPage: nat, ask: Ask, ok: bool, guardMapOk: bool)
    returns (r: Dma)
    requires mapping.Ready() && mapping.base % PageSize == 0 && mapping.minIovaAlign % PageSize == 0
    modifies mapping.bitmap, mapping.domain
    ensures var c := ReserveSpec(old(mapping.Bits()), len, inPage, ask, ok, mapping.minIovaAlign, mapping.base,
                                 mapping.GuardPhys(), guardMapOk);
      r == c.dma && mapping.Bits() == c.bm && mapping.domain.log == old(mapping.domain.log) + c.reqs
    ensures mapping.bitmap[mapping.bits..] == old(mapping.bitmap[mapping.bits..])
    ensures mapping.domain.freed == old(mapping.domain.freed)
  {
    ghost var bm := mapping.Bits();
    ghost var p := PlanAlloc(len, mapping.minIovaAlign);
    ghost var s := ZeroArea(bm, 0, p.count, Pow2(p.order));
    ghost var a := AllocFrom(bm, p, s, mapping.base, mapping.GuardPhys(), guardMapOk);
    assert AllocSpec(bm, len, mapping.minIovaAlign, mapping.base, mapping.GuardPhys(), guardMapOk) == a;
    AllocFromThenFree(bm, p, s, len, mapping.minIovaAlign, mapping.base, mapping.GuardPhys(), guardMapOk);
    ghost var log0 := mapping.domain.log;
    var dma := mapping.AllocIova(len, guardMapOk);
    if dma.DmaError? {
      return DmaError;
    }
    r := Settle(mapping, dma.addr, AskAt(ask, dma.addr, len), ok, len, inPage);
    ghost var x := SettleSpec(dma.addr, a.bm, AskAt(ask, dma.addr, len), ok, len, mapping.minIovaAlign, mapping.base, inPage);
    SeqAssoc(log0, a.reqs, x.reqs);
  }

  /** The request and the fail label of the map paths, after the reservation at dma. */
  method Settle(mapping: IommuMapping, dma: nat, req: IommuReq, ok: bool, len: nat, inPage: nat) returns (r: Dma)
    requires mapping.Ready() && mapping.base <= PageBase(dma)
    requires var f := PlanFree(dma, len, mapping.minIovaAlign, mapping.base); f.start + f.count <= mapping.bits
    modifies mapping.bitmap, mapping.domain
    ensures var x := SettleSpec(dma, old(mapping.Bits()), req, ok, len, mapping.minIovaAlign, mapping.base, inPage);
      r == x.dma && mapping.Bits() == x.bm && mapping.domain.log == old(mapping.domain.log) + x.reqs
    ensures mapping.bitmap[mapping.bits..] == old(mapping.bitmap[mapping.bits..])
    ensures mapping.domain.freed == old(mapping.domain.freed)
  {
    mapping.domain.log := mapping.domain.log + [req];
    if !ok {
      mapping.FreeIova(dma, len);
      return DmaError;
    }
    return DmaAddr(dma + inPage);
  }

  // ---------------------------------------------------------------------
  // Single pages

  /** The request arm_coherent_iommu_map_page makes for offset into the page
      with frame pfn: the page holding the buffer's first byte, mapped with
      the direction's and the attributes' protection. */
  function PageAsk(pfn: nat, offset: nat, dir: Direction, attrs: set<Attr>, coherent: bool): Ask
  {
    MapPhys(pfn * PageSize + PageBase(offset), IommuPgprot(attrs, DirectionToProt(dir), coherent))
  }

  /** arm_coherent_iommu_map_page (dma-mapping.c:739-768). mapOk is iommu_map's
      answer. */
  method CoherentMapPage(mapping: IommuMapping, pfn: nat, offset: nat, size: nat, dir: Direction,
                         attrs: set<Attr>, coherent: bool, guardMapOk: bool, mapOk: bool) returns (r: Dma)
    requires mapping.Ready() && mapping.base % PageSize == 0 && mapping.minIovaAlign % PageSize == 0
    modifies mapping.bitmap, mapping.domain
    ensures var c := ReserveSpec(old(mapping.Bits()), PageAlign(PageOffset(offset) + size), PageOffset(offset),
                                 PageAsk(pfn, offset, dir, attrs, coherent), mapOk,
                                 mapping.minIovaAlign, mapping.base, mapping.GuardPhys(), guardMapOk);
      r == c.dma && mapping.Bits() == c.bm && mapping.domain.log == old(mapping.domain.log) + c.reqs
    ensures mapping.bitmap[mapping.bits..] == old(mapping.bitmap[mapping.bits..])
    ensures mapping.domain.freed == old(mapping.domain.freed)
  {
    r := Reserve(mapping, PageAlign(PageOffset(offset) + size), PageOffset(offset), PageAsk(pfn, offset, dir, attrs, coherent),
                 mapOk, guardMapOk);
  }

  /** arm_iommu_map_page (dma-mapping.c:780-789): the CPU caches are cleaned
      for the device first, unless the device is coherent or the caller
      skips the sync. */
  method MapPage(mapping: IommuMapping, pfn: nat, offset: nat, size: nat, dir: Direction,
                 attrs: set<Attr>, coherent: bool, guardMapOk: bool, mapOk: bool)
    returns (r: Dma, ops: seq<CacheOp>)
    requires mapping.Ready() && mapping.base % PageSize == 0 && mapping.minIovaAlign % PageSize == 0
    modifies mapping.bitmap, mapping.domain
    ensures ops == if PageSyncNeeded(coherent, attrs) then [CpuToDev(pfn, offset, size, dir)] else []
    ensures var c := ReserveSpec(old(mapping.Bits()), PageAlign(PageOffset(offset) + size), PageOffset(offset),
                                 PageAsk(pfn, offset, dir, attrs, coherent), mapOk,
                                 mapping.minIovaAlign, mapping.base, mapping.GuardPhys(), guardMapOk);
      r == c.dma && mapping.Bits() == c.bm && mapping.domain.log == old(mapping.domain.log) + c.reqs
    ensures mapping.bitmap[mapping.bits..] == old(mapping.bitmap[mapping.bits..])
    ensures mapping.domain.freed == old(mapping.domain.freed)
  {
    ops := [];
    if PageSyncNeeded(coherent, attrs) {
      ops := [CpuToDev(pfn, offset, size, dir)];
    }
    r := CoherentMapPage(mapping, pfn, offset, size, dir, attrs, coherent, guardMapOk, mapOk);
  }

  /** What map_page gives the device: the handle's page is mapped to the
      page holding the buffer's first byte, the handle's in-page offset
      lands on that byte, and the mapped length reaches past the buffer's
      last byte. The protection never includes MMIO or the guard bit. */
  lemma MapPageCovers(bm: seq<bool>, p: IovaPlan, s: nat, pfn: nat, offset: nat, size: nat, dir: Direction,
                      attrs: set<Attr>, coherent: bool, mapOk: bool,
                      minAlign: nat, base: nat, guardPhys: nat, guardMapOk: bool)
    requires minAlign % PageSize == 0 && base % PageSize == 0
    requires p == PlanAlloc(PageAlign(PageOffset(offset) + size), minAlign)
    requires s <= |bm| ==> RunClear(bm, s, p.count)
    ensures var len := PageAlign(PageOffset(offset) + size);
      var ask := PageAsk(pfn, offset, dir, attrs, coherent);
      var c := ReserveFrom(bm, p, s, len, PageOffset(offset), ask, mapOk, minAlign, base, guardPhys, guardMapOk);
      c.dma.DmaAddr? ==>
        var h := c.dma.addr;
        c.reqs != [] &&
        var last := c.reqs[|c.reqs| - 1];
        last.Map? && last.iova == PageBase(h) && last.len == len &&
        last.phys % PageSize == 0 && last.phys + PageOffset(h) == pfn * PageSize + offset &&
        PageOffset(h) + size <= last.len &&
        Mmio !in last.prot && Guard !in last.prot
  {
    var len := PageAlign(PageOffset(offset) + size);
    var ask := PageAsk(pfn, offset, dir, attrs, coherent);
    ReserveSound(bm, p, s, len, PageOffset(offset), ask, mapOk, minAlign, base, guardPhys, guardMapOk);
    PagePathProt(attrs, dir, coherent);
    FrameAligned(pfn, PageBase(offset));
  }

  /** A frame's address plus a page multiple is a page multiple. */
  lemma FrameAligned(pfn: nat, x: nat)
    requires x % PageSize == 0
    ensures (pfn * PageSize + x) % PageSize == 0
  {
    MultipleIs(x, PageSize);
    assert pfn * PageSize + x == (pfn + x / PageSize) * PageSize;
    MultipleMod(pfn + x / PageSize, PageSize);
  }

  /** arm_iommu_unmap_page (dma-mapping.c:800-817). phys is what
      iommu_iova_to_phys answers for the handle's page; the rest is
      __iommu_remove_mapping's arithmetic on the handle. The handle must
      come from a live map of size bytes. */
  method UnmapPage(mapping: IommuMapping, handle: nat, size: nat, dir: Direction, attrs: set<Attr>,
                   coherent: bool, phys: nat) returns (ops: seq<CacheOp>)
    requires mapping.Ready() && mapping.base <= PageBase(handle)
    requires var f := PlanFree(PageBase(handle), PageAlign(PageOffset(handle) + size), mapping.minIovaAlign, mapping.base);
      f.start + f.count <= mapping.bits
    modifies mapping.bitmap, mapping.domain
    ensures ops == if PageSyncNeeded(coherent, attrs) then [DevToCpuOp(phys / PageSize, PageOffset(handle), size, dir)] else []
    ensures var sz := PageAlign(PageOffset(handle) + size);
      var f := PlanFree(PageBase(handle), sz, mapping.minIovaAlign, mapping.base);
      mapping.Bits() == ClearRun(old(mapping.Bits()), f.start, f.count) &&
      mapping.domain.log == old(mapping.domain.log) + [Unmap(PageBase(handle), sz)] + FreeReqs(PageBase(handle), sz, mapping.minIovaAlign)
    ensures mapping.bitmap[mapping.bits..] == old(mapping.bitmap[mapping.bits..])
    ensures mapping.domain.freed == old(mapping.domain.freed)
  {
    var offset := PageOffset(handle);
    ops := [];
    if PageSyncNeeded(coherent, attrs) {
      ops := [DevToCpuOp(phys / PageSize, offset, size, dir)];
    }
    RemoveMapping(mapping, handle, size);
  }

  /** unmap_page finds the buffer through the IOMMU. Given the handle
      map_page returned and the translation map_page installed for its page,
      the cache maintenance at unmap covers the same bytes as the one at
      map: it starts at the buffer's first byte and has its size. */
  lemma UnmapSyncMatchesMap(pfn: nat, offset: nat, size: nat, dir: Direction, h: nat)
    requires PageOffset(h) == PageOffset(offset)
    ensures var phys := pfn * PageSize + PageBase(offset);
      var op := DevToCpuOp(phys / PageSize, PageOffset(h), size, dir);
      var mapOp := CpuToDev(pfn, offset, size, dir);
      op.pfn * PageSize + op.offset == mapOp.pfn * PageSize + mapOp.offset && op.size == mapOp.size
  {
    var q := PageBase(offset) / PageSize;
    MultipleIs(PageBase(offset), PageSize);
    var phys := pfn * PageSize + PageBase(offset);
    assert phys == (pfn + q) * PageSize;
    MultipleMod(pfn + q, PageSize);
  }

  // ---------------------------------------------------------------------
  // MMIO resources

  /** The request arm_iommu_dma_map_resource makes: the page holding phys,
      with the direction's protection and IOMMU_MMIO. The attributes and
      coherency play no part. */
  function ResourceAsk(phys: nat, dir: Direction): Ask
  {
    MapPhys(PageBase(phys), DirectionToProt(dir) + {Mmio})
  }

  /** arm_iommu_dma_map_resource (dma-mapping.c:847-871). mapOk is iommu_map's
      answer. */
  method MapResource(mapping: IommuMapping, phys: nat, size: nat, dir: Direction, guardMapOk: bool, mapOk: bool)
    returns (r: Dma)
    requires mapping.Ready() && mapping.base % PageSize == 0 && mapping.minIovaAlign % PageSize == 0
    modifies mapping.bitmap, mapping.domain
    ensures var c := ReserveSpec(old(mapping.Bits()), PageAlign(size + PageOffset(phys)), PageOffset(phys),
                                 ResourceAsk(phys, dir), mapOk,
                                 mapping.minIovaAlign, mapping.base, mapping.GuardPhys(), guardMapOk);
      r == c.dma && mapping.Bits() == c.bm && mapping.domain.log == old(mapping.domain.log) + c.reqs
    ensures mapping.bitmap[mapping.bits..] == old(mapping.bitmap[mapping.bits..])
    ensures mapping.domain.freed == old(mapping.domain.freed)
  {
    r := Reserve(mapping, PageAlign(size + PageOffset(phys)), PageOffset(phys), ResourceAsk(phys, dir), mapOk, guardMapOk);
  }

  /** What map_resource gives the device: the handle's page maps the page
      holding phys, its in-page offset lands on phys, the length covers the
      resource, and the protection is MMIO with the direction's read and
      write bits and nothing else. */
  lemma MapResourceCovers(bm: seq<bool>, p: IovaPlan, s: nat, phys: nat, size: nat, dir: Direction, mapOk: bool,
                          minAlign: nat, base: nat, guardPhys: nat, guardMapOk: bool)
    requires minAlign % PageSize == 0 && base % PageSize == 0
    requires p == PlanAlloc(PageAlign(size + PageOffset(phys)), minAlign)
    requires s <= |bm| ==> RunClear(bm, s, p.count)
    ensures var len := PageAlign(size + PageOffset(phys));
      var c := ReserveFrom(bm, p, s, len, PageOffset(phys), ResourceAsk(phys, dir), mapOk, minAlign, base, guardPhys, guardMapOk);
      c.dma.DmaAddr? ==>
        var h := c.dma.addr;
        c.reqs != [] &&
        var last := c.reqs[|c.reqs| - 1];
        last.Map? && last.iova == PageBase(h) && last.len == len &&
        last.phys + PageOffset(h) == phys && PageOffset(h) + size <= last.len &&
        Mmio in last.prot && last.prot - {Mmio} <= {Read, Write} &&
        (Read in last.prot <==> dir == Bidirectional || dir == ToDevice) &&
        (Write in last.prot <==> dir == Bidirectional || dir == FromDevice)
  {
    var len := PageAlign(size + PageOffset(phys));
    ReserveSound(bm, p, s, len, PageOffset(phys), ResourceAsk(phys, dir), mapOk, minAlign, base, guardPhys, guardMapOk);
  }

  /** arm_iommu_dma_unmap_resource (dma-mapping.c:873-884): the address less
      its in-page offset, for PAGE_ALIGN(size + offset) bytes, is unmapped
      and released. */
  method UnmapResource(mapping: IommuMapping, addr: nat, size: nat)
    requires mapping.Ready() && mapping.base <= PageBase(addr)
    requires var f := PlanFree(PageBase(addr), PageAlign(size + PageOffset(addr)), mapping.minIovaAlign, mapping.base);
      f.start + f.count <= mapping.bits
    modifies mapping.bitmap, mapping.domain
    ensures var len := PageAlign(size + PageOffset(addr));
      var f := PlanFree(PageBase(addr), len, mapping.minIovaAlign, mapping.base);
      mapping.Bits() == ClearRun(old(mapping.Bits()), f.start, f.count) &&
      mapping.domain.log == old(mapping.domain.log) + [Unmap(PageBase(addr), len)] + FreeReqs(PageBase(addr), len, mapping.minIovaAlign)
    ensures mapping.bitmap[mapping.bits..] == old(mapping.bitmap[mapping.bits..])
    ensures mapping.domain.freed == old(mapping.domain.freed)
  {
    assert PageBase(PageBase(addr)) == PageBase(addr);
    mapping.domain.log := mapping.domain.log + [Unmap(PageBase(addr), PageAlign(size + PageOffset(addr)))];
    mapping.FreeIova(PageBase(addr), PageAlign(size + PageOffset(addr)));
  }

  // ---------------------------------------------------------------------
  // Scatterlists

  /** struct scatterlist, by the fields the mapper reads and writes: the
      page frame, offset and length of the CPU buffer, and sg_dma_address /
      sg_dma_len. */
  datatype Segment = Segment(pfn: nat, offset: nat, length: nat, dmaAddress: nat, dmaLength: nat)

  /** The sum of the segments' lengths. */
  function SgTotal(segs: seq<Segment>): nat
  {
    if segs == [] then 0 else SgTotal(segs[..|segs| - 1]) + segs[|segs| - 1].length
  }

  lemma PrefixStep(segs: seq<Segment>, k: nat)
    requires k < |segs|
    ensures SgTotal(segs[..k + 1]) == SgTotal(segs[..k]) + segs[k].length
  {
    assert segs[..k + 1][..k] == segs[..k];
  }

  lemma {:induction false} SgTotalAppend(a: seq<Segment>, b: seq<Segment>)
    ensures SgTotal(a + b) == SgTotal(a) + SgTotal(b)
    decreases |b|
  {
    if b == [] {
      assert a + b == a;
    } else {
      var b' := b[..|b| - 1];
      assert (a + b)[..|a + b| - 1] == a + b';
      SgTotalAppend(a, b');
    }
  }

  /** The lengths of segment k and every segment after it. */
  function Tail(segs: seq<Segment>, k: nat): (r: nat)
    requires k <= |segs|
    ensures SgTotal(segs[..k]) + r == SgTotal(segs)
  {
    assert segs == segs[..k] + segs[k..];
    SgTotalAppend(segs[..k], segs[k..]);
    SgTotal(segs[k..])
  }

  /** The list after arm_iommu_map_sg's second loop, with the range at iova:
      each segment's dma address is iova plus the lengths before it, and its
      dma length is the total less those lengths. */
  function Tagged(segs: seq<Segment>, iova: nat): (t: seq<Segment>)
    ensures |t| == |segs|
  {
    seq(|segs|, k requires 0 <= k < |segs| =>
      segs[k].(dmaAddress := iova + SgTotal(segs[..k]), dmaLength := Tail(segs, k)))
  }

  /** The convention arm_iommu_map_sg follows: the whole list is one IOVA
      range, and every segment's dma length runs from its dma address to
      the end of that range rather than to the end of the segment. The
      first segment carries the range's start and total length, each next
      address is the previous one plus the segment's CPU length, and each
      dma length is at least the segment's CPU length. Nothing but the two
      dma fields changes. */
  lemma TaggedLayout(segs: seq<Segment>, iova: nat)
    ensures var t := Tagged(segs, iova);
      (forall k :: 0 <= k < |t| ==>
        t[k].pfn == segs[k].pfn && t[k].offset == segs[k].offset && t[k].length == segs[k].length &&
        t[k].dmaAddress + t[k].dmaLength == iova + SgTotal(segs) && segs[k].length <= t[k].dmaLength) &&
      (|t| > 0 ==> t[0].dmaAddress == iova && t[0].dmaLength == SgTotal(segs)) &&
      (forall k :: 0 <= k < |t| - 1 ==> t[k + 1].dmaAddress == t[k].dmaAddress + segs[k].length)
  {
    var t := Tagged(segs, iova);
    forall k | 0 <= k < |t|
      ensures t[k].pfn == segs[k].pfn && t[k].offset == segs[k].offset && t[k].length == segs[k].length
      ensures t[k].dmaAddress + t[k].dmaLength == iova + SgTotal(segs) && segs[k].length <= t[k].dmaLength
      ensures k + 1 < |t| ==> t[k + 1].dmaAddress == t[k].dmaAddress + segs[k].length
    {
      TaggedAt(segs, iova, k);
    }
    if |t| > 0 {
      assert segs[..0] == [];
    }
  }

  /** TaggedLayout for the segment at k. */
  lemma TaggedAt(segs: seq<Segment>, iova: nat, k: nat)
    requires k < |segs|
    ensures var t := Tagged(segs, iova);
      t[k].pfn == segs[k].pfn && t[k].offset == segs[k].offset && t[k].length == segs[k].length &&
      t[k].dmaAddress + t[k].dmaLength == iova + SgTotal(segs) && segs[k].length <= t[k].dmaLength &&
      (k + 1 < |t| ==> t[k + 1].dmaAddress == t[k].dmaAddress + segs[k].length)
  {
    var t := Tagged(segs, iova);
    assert t[k] == segs[k].(dmaAddress := iova + SgTotal(segs[..k]), dmaLength := Tail(segs, k));
    PrefixStep(segs, k);
    var after := Tail(segs, k + 1);
    if k + 1 < |t| {
      assert t[k + 1].dmaAddress == iova + SgTotal(segs[..k + 1]);
    }
  }

  /** The first loop of arm_iommu_map_sg (dma-mapping.c:631-632). */
  method SumLengths(sg: array<Segment>) returns (total: nat)
    ensures total == SgTotal(sg[..])
  {
    total := 0;
    for i := 0 to sg.Length
      invariant total == SgTotal(sg[..i])
    {
      PrefixStep(sg[..], i);
      assert sg[..][..i + 1] == sg[..i + 1] && sg[..][..i] == sg[..i];
      total := total + sg[i].length;
    }
    assert sg[..] == sg[..sg.Length];
  }

  /** The second loop of arm_iommu_map_sg (dma-mapping.c:648-652), writing
      each segment's dma fields in place. */
  method TagSegments(sg: array<Segment>, iova: nat, total: nat)
    requires total == SgTotal(sg[..])
    modifies sg
    ensures sg[..] == Tagged(old(sg[..]), iova)
  {
    ghost var segs := sg[..];
    ghost var t := Tagged(segs, iova);
    var current := 0;
    for i := 0 to sg.Length
      invariant current == SgTotal(segs[..i])
      invariant forall k :: 0 <= k < i ==> sg[k] == t[k]
      invariant forall k :: i <= k < sg.Length ==> sg[k] == segs[k]
    {
      PrefixStep(segs, i);
      ghost var rest := Tail(segs, i);
      assert t[i] == segs[i].(dmaAddress := iova + current, dmaLength := total - current);
      sg[i] := sg[i].(dmaAddress := iova + current, dmaLength := total - current);
      current := current + sg[i].length;
    }
    assert sg[..] == t;
  }

  /** The request arm_iommu_map_sg makes: iommu_map_sg of the nents
      segments with the direction's and the attributes' protection. */
  function SgAsk(nents: nat, dir: Direction, attrs: set<Attr>, coherent: bool): Ask
  {
    MapList(nents, IommuPgprot(attrs, DirectionToProt(dir), coherent))
  }

  /** arm_iommu_map_sg (dma-mapping.c:621-655) on the nents == sg.Length
      segments. mapped is what iommu_map_sg returns; anything but the total
      length counts as failure. Returns nents, or 0 with the IOVA released
      and the list untouched. */
  method MapScatterlist(mapping: IommuMapping, sg: array<Segment>, dir: Direction, attrs: set<Attr>, coherent: bool,
               guardMapOk: bool, mapped: nat) returns (n: nat)
    requires mapping.Ready() && mapping.base % PageSize == 0 && mapping.minIovaAlign % PageSize == 0
    modifies mapping.bitmap, mapping.domain, sg
    ensures var total := SgTotal(old(sg[..]));
      var c := ReserveSpec(old(mapping.Bits()), total, 0, SgAsk(sg.Length, dir, attrs, coherent), mapped == total,
                           mapping.minIovaAlign, mapping.base, mapping.GuardPhys(), guardMapOk);
      mapping.Bits() == c.bm && mapping.domain.log == old(mapping.domain.log) + c.reqs &&
      (c.dma.DmaAddr? ==> n == sg.Length && sg[..] == Tagged(old(sg[..]), c.dma.addr)) &&
      (c.dma.DmaError? ==> n == 0 && sg[..] == old(sg[..]))
    ensures mapping.bitmap[mapping.bits..] == old(mapping.bitmap[mapping.bits..])
    ensures mapping.domain.freed == old(mapping.domain.freed)
  {
    var total := SumLengths(sg);
    var prot := DirectionToProt(dir);
    prot := IommuPgprot(attrs, prot, coherent);
    var r := Reserve(mapping, total, 0, MapList(sg.Length, prot), mapped == total, guardMapOk);
    if r.DmaError? {
      return 0;
    }
    TagSegments(sg, r.addr, total);
    return sg.Length;
  }

  /** arm_iommu_unmap_sg (dma-mapping.c:667-679): the range is read back from
      the first segment's dma address and length, then unmapped and
      released. */
  method UnmapScatterlist(mapping: IommuMapping, sg: array<Segment>)
    requires sg.Length > 0
    requires mapping.Ready() && mapping.base <= PageBase(sg[0].dmaAddress)
    requires var f := PlanFree(PageBase(sg[0].dmaAddress), PageAlign(PageOffset(sg[0].dmaAddress) + sg[0].dmaLength),
                               mapping.minIovaAlign, mapping.base);
      f.start + f.count <= mapping.bits
    modifies mapping.bitmap, mapping.domain
    ensures Removed(old(mapping.Bits()), mapping.Bits(), old(mapping.domain.log), mapping.domain.log,
                    old(sg[0]).dmaAddress, old(sg[0]).dmaLength, mapping.minIovaAlign, mapping.base)
    ensures mapping.bitmap[mapping.bits..] == old(mapping.bitmap[mapping.bits..])
    ensures mapping.domain.freed == old(mapping.domain.freed)
  {
    RemoveMapping(mapping, sg[0].dmaAddress, sg[0].dmaLength);
  }

  /** ReserveThenRemove for a reservation made and released with the same
      length and no in-page offset, as map_sg and unmap_sg use it. */
  lemma WholeRoundTrip(bm: seq<bool>, p: IovaPlan, s: nat, total: nat, ask: Ask, ok: bool,
                       minAlign: nat, base: nat, guardPhys: nat, guardMapOk: bool)
    requires minAlign % PageSize == 0 && base % PageSize == 0
    requires p == PlanAlloc(total, minAlign) && (s <= |bm| ==> RunClear(bm, s, p.count))
    ensures var c := ReserveFrom(bm, p, s, total, 0, ask, ok, minAlign, base, guardPhys, guardMapOk);
      c.dma.DmaAddr? ==> PageBase(c.dma.addr) == c.dma.addr && Releases(bm, c.bm, c.dma.addr, total, total, minAlign, base)
  {
    ReserveThenRemove(bm, p, s, total, 0, ask, ok, minAlign, base, guardPhys, guardMapOk, total);
  }

  /** unmap_sg after a successful map_sg of the same list releases exactly
      the map's reservation: the first segment holds the range's start and
      the total length, so the bits cleared are the bits set. */
  lemma {:induction false} SgRoundTrip(bm: seq<bool>, p: IovaPlan, s: nat, segs: seq<Segment>, ask: Ask, mapped: nat,
                                       minAlign: nat, base: nat, guardPhys: nat, guardMapOk: bool)
    requires minAlign % PageSize == 0 && base % PageSize == 0 && |segs| > 0
    requires p == PlanAlloc(SgTotal(segs), minAlign) && (s <= |bm| ==> RunClear(bm, s, p.count))
    ensures var total := SgTotal(segs);
      var c := ReserveFrom(bm, p, s, total, 0, ask, mapped == total, minAlign, base, guardPhys, guardMapOk);
      c.dma.DmaAddr? ==>
        var first := Tagged(segs, c.dma.addr)[0];
        first.dmaAddress == c.dma.addr && first.dmaLength == total &&
        Releases(bm, c.bm, first.dmaAddress, first.dmaLength, total, minAlign, base)
  {
    var total := SgTotal(segs);
    WholeRoundTrip(bm, p, s, total, ask, mapped == total, minAlign, base, guardPhys, guardMapOk);
    var c := ReserveFrom(bm, p, s, total, 0, ask, mapped == total, minAlign, base, guardPhys, guardMapOk);
    if c.dma.DmaAddr? {
      TaggedFirst(segs, c.dma.addr);
    }
  }

  /** The first tagged segment carries the whole mapping. */
  lemma TaggedFirst(segs: seq<Segment>, iova: nat)
    requires |segs| > 0
    ensures Tagged(segs, iova)[0].dmaAddress == iova && Tagged(segs, iova)[0].dmaLength == SgTotal(segs)
  {
    TaggedLayout(segs, iova);
  }

  // ---------------------------------------------------------------------
  // Cache maintenance of the sync calls

  /** The call the sg sync functions make on one segment: __dma_page_dev_to_cpu
      for the CPU, __dma_page_cpu_to_dev for the device. */
  function SegmentOp(seg: Segment, dir: Direction, toCpu: bool): CacheOp
  {
    if toCpu then DevToCpuOp(seg.pfn, seg.offset, seg.length, dir) else CpuToDev(seg.pfn, seg.offset, seg.length, dir)
  }

  /** arm_iommu_sync_sg_for_cpu (toCpu) and arm_iommu_sync_sg_for_device
      (dma-mapping.c:688-726). iovaCoherent is iommu_is_iova_coherent's
      answer for the first segment's dma address: when it holds nothing is
      done, otherwise one call per segment, in order. */
  method SyncSg(sg: array<Segment>, dir: Direction, iovaCoherent: bool, toCpu: bool) returns (ops: seq<CacheOp>)
    requires sg.Length > 0
    ensures iovaCoherent ==> ops == []
    ensures !iovaCoherent ==> |ops| == sg.Length
    ensures !iovaCoherent ==> forall k :: 0 <= k < sg.Length ==> ops[k] == SegmentOp(sg[k], dir, toCpu)
  {
    if iovaCoherent {
      return [];
    }
    ops := [];
    for i := 0 to sg.Length
      invariant |ops| == i
      invariant forall k :: 0 <= k < i ==> ops[k] == SegmentOp(sg[k], dir, toCpu)
    {
      ops := ops + [SegmentOp(sg[i], dir, toCpu)];
    }
  }

  /** arm_iommu_sync_single_for_cpu (toCpu) and _for_device
      (dma-mapping.c:819-845). phys is iommu_iova_to_phys of the handle's
      page and iovaCoherent iommu_is_iova_coherent's answer for the handle.
      Nothing is done for a coherent IOVA; otherwise one call covers size
      bytes from the handle's in-page offset in the page the IOVA maps to. */
  function SyncSingle(handle: nat, size: nat, dir: Direction, iovaCoherent: bool, phys: nat, toCpu: bool)
    : (ops: seq<CacheOp>)
    ensures iovaCoherent <==> ops == []
    ensures ops != [] ==>
      |ops| == 1 && (ops[0].DevToCpu? || ops[0].CpuToDev?) && ops[0].pfn == phys / PageSize && ops[0].offset == PageOffset(handle) &&
      ops[0].size == size && ops[0].dir == dir && (ops[0].DevToCpu? <==> toCpu)
  {
    if iovaCoherent then []
    else if toCpu then [DevToCpuOp(phys / PageSize, PageOffset(handle), size, dir)]
    else [CpuToDev(phys / PageSize, PageOffset(handle), size, dir)]
  }

  /** arm_iommu_mapping_error (dma-mapping.c:886-890). */
  predicate MappingError(dma: Dma)
  {
    dma == DmaError
  }
}
