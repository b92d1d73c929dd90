/** The flag logic of the arm64 IOMMU DMA mapper: DMA directions, DMA_ATTR_*
    attributes and IOMMU_* protection bits, the two functions that turn one
    into the other, and the decisions of whether a cache-maintenance call is
    made. Bit masks are modelled as sets of named flags, since the bit values
    live in headers that are not part of this model. */
module DmaFlags {
  import opened PageMath

  /** enum dma_data_direction; NoDirection stands for DMA_NONE and any other
      value the switch in __dma_direction_to_prot does not name. */
  datatype Direction = Bidirectional | ToDevice | FromDevice | NoDirection

  /** The IOMMU_* protection bits the mapper passes to iommu_map. Guard stands
      for ARM_SMMU_GUARD_PROT, the protection of the errata guard page. */
  datatype Prot = Read | Write | Cache | NoExec | Mmio | UpstreamHint | LlcNwa | Guard

  /** The DMA_ATTR_* bits the mapper tests. */
  datatype Attr =
    | ExecMapping
    | IommuUseUpstreamHint
    | IommuUseLlcNwa
    | SkipCpuSync
    | SkipZeroing
    | ForceContiguous
    | NoKernelMapping

  const GuardProt: set<Prot> := {Guard}

  /** __dma_direction_to_prot (arch/arm64/mm/dma-mapping.c:588-607). */
  function DirectionToProt(dir: Direction): (prot: set<Prot>)
    ensures prot <= {Read, Write}
    ensures Read in prot <==> dir == Bidirectional || dir == ToDevice
    ensures Write in prot <==> dir == Bidirectional || dir == FromDevice
  {
    match dir
    case Bidirectional => {Read, Write}
    case ToDevice => {Read}
    case FromDevice => {Write}
    case NoDirection => {}
  }

  /** __get_iommu_pgprot: the bits the attributes and coherency add to prot. */
  function IommuPgprot(attrs: set<Attr>, prot: set<Prot>, coherent: bool): (r: set<Prot>)
    ensures prot <= r
    ensures r - prot <= {NoExec, UpstreamHint, LlcNwa, Cache}
    ensures NoExec in r <==> NoExec in prot || ExecMapping !in attrs
    ensures UpstreamHint in r <==> UpstreamHint in prot || IommuUseUpstreamHint in attrs
    ensures LlcNwa in r <==> LlcNwa in prot || IommuUseLlcNwa in attrs
    ensures Cache in r <==> Cache in prot || coherent
  {
    var p1 := if ExecMapping !in attrs then prot + {NoExec} else prot;
    var p2 := if IommuUseUpstreamHint in attrs then p1 + {UpstreamHint} else p1;
    var p3 := if IommuUseLlcNwa in attrs then p2 + {LlcNwa} else p2;
    if coherent then p3 + {Cache} else p3
  }

  /** Only the listed bits can come out of a mapping the page path builds:
      it never asks for MMIO or guard protection. */
  lemma PagePathProt(attrs: set<Attr>, dir: Direction, coherent: bool)
    ensures var r := IommuPgprot(attrs, DirectionToProt(dir), coherent);
      Mmio !in r && Guard !in r &&
      (Read in r <==> dir in {Bidirectional, ToDevice}) &&
      (Write in r <==> dir in {Bidirectional, FromDevice})
  {
  }

  // ---------------------------------------------------------------------
  // Cache maintenance, kept as the decision only

  /** The cache-maintenance calls the mapper makes; their bodies are not
      part of this model. Frames are page frame numbers. */
  datatype CacheOp =
    | CpuToDev(pfn: nat, offset: nat, size: nat, dir: Direction)     // __dma_page_cpu_to_dev
    | DevToCpu(pfn: nat, offset: nat, size: nat, dir: Direction, markClean: bool)  // __dma_page_dev_to_cpu
    | Zero(pfn: nat, size: nat)                                     // memset in __dma_clear_buffer
    | Flush(pfn: nat, size: nat)                                    // __dma_flush_area in __dma_clear_buffer

  /** __dma_page_dev_to_cpu: the page is marked D-cache clean when the whole
      page came from the device. */
  function DevToCpuOp(pfn: nat, offset: nat, size: nat, dir: Direction): (op: CacheOp)
    ensures op.DevToCpu? && op.pfn == pfn && op.offset == offset && op.size == size && op.dir == dir
    ensures op.markClean ==> dir != ToDevice && offset == 0 && size >= PageSize
    ensures dir != ToDevice && offset == 0 && size >= PageSize ==> op.markClean
  {
    DevToCpu(pfn, offset, size, dir, dir != ToDevice && offset == 0 && size >= PageSize)
  }

  /** __dma_clear_buffer: zero unless DMA_ATTR_SKIP_ZEROING, then flush unless
      the device is coherent. */
  function ClearBufferOps(pfn: nat, size: nat, attrs: set<Attr>, coherent: bool): (ops: seq<CacheOp>)
    ensures |ops| <= 2
    ensures Zero(pfn, size) in ops <==> SkipZeroing !in attrs
    ensures Flush(pfn, size) in ops <==> !coherent
    ensures forall op :: op in ops ==> op == Zero(pfn, size) || op == Flush(pfn, size)
    ensures |ops| == 2 ==> ops[0].Zero?
  {
    (if SkipZeroing !in attrs then [Zero(pfn, size)] else []) +
    (if !coherent then [Flush(pfn, size)] else [])
  }

  /** The guard of arm_iommu_map_page and arm_iommu_unmap_page: CPU caches
      are maintained unless the device is coherent or the caller asked to
      skip the sync. */
  predicate PageSyncNeeded(coherent: bool, attrs: set<Attr>)
  {
    !coherent && SkipCpuSync !in attrs
  }
}
