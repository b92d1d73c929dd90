/** The GPU virtual memory areas of drivers/gpu/drm/msm/msm_gem_vma.c: a
    vma gets an IOVA range from its address space (msm_gem_init_vma), is
    mapped into the MMU on first use and counted per user
    (msm_gem_map_vma / msm_gem_unmap_vma), can be unmapped once nobody uses
    it (msm_gem_purge_vma) and gives its range back when closed
    (msm_gem_close_vma). The address space is reference counted: every vma
    with a range holds one reference. The range allocator (drm_mm) and the
    MMU are outside the model: their answers are parameters and the calls
    made to them are logged. */
module MsmGemVma {
  import opened PageMath

  const EINVAL: int := 22
  const ENOMEM: int := 12
  const EBUSY: int := 16

  /** `unsigned size = npages << PAGE_SHIFT`: the byte size of npages pages,
      kept in 32 bits. */
  function ShiftedSize(npages: nat): (size: nat)
    ensures size < 0x1_0000_0000
    ensures npages * PageSize < 0x1_0000_0000 ==> size == npages * PageSize
  {
    (npages * PageSize) % 0x1_0000_0000
  }

  /** A buffer of 2^20 pages (4 GiB) is mapped and unmapped with size 0. */
  lemma ShiftedSizeWraps()
    ensures ShiftedSize(0x10_0000) == 0
  {
    assert 0x10_0000 * PageSize == 0x1_0000_0000;
  }

  // ---------------------------------------------------------------------
  // The vma, as a value

  /** The fields of struct msm_gem_vma the lifecycle works on. */
  datatype VmaState = VmaState(iova: nat, mapped: bool, inuse: int)

  /** Every user holds a mapped vma, and only a vma with an IOVA is mapped. */
  predicate Inv(s: VmaState)
  {
    s.inuse >= 0 && (!s.mapped ==> s.inuse == 0) && (s.iova == 0 ==> !s.mapped)
  }

  /** msm_gem_init_vma (msm_gem_vma.c:151-174) on the vma: insertRet is what
      drm_mm_insert_node_in_range returned and start the node's first page. */
  function InitStep(s: VmaState, insertRet: int, start: nat): VmaState
  {
    if s.iova != 0 || insertRet != 0 then s
    else VmaState(start * PageSize, false, s.inuse)
  }

  /** msm_gem_map_vma (msm_gem_vma.c:102-131) on the vma: mmuRet is what the
      MMU's map returns, or 0 when there is no MMU to call. */
  function MapStep(s: VmaState, mmuRet: int): VmaState
  {
    if s.iova == 0 then s
    else if s.mapped then s.(inuse := s.inuse + 1)
    else if mmuRet != 0 then s
    else s.(mapped := true, inuse := s.inuse + 1)
  }

  /** msm_gem_unmap_vma (msm_gem_vma.c:94-100) on the vma. */
  function UnmapStep(s: VmaState): VmaState
  {
    if s.iova == 0 then s else s.(inuse := s.inuse - 1)
  }

  /** msm_gem_purge_vma (msm_gem_vma.c:74-92) on the vma. */
  function PurgeStep(s: VmaState): VmaState
  {
    if s.inuse > 0 || !s.mapped then s else s.(mapped := false)
  }

  /** msm_gem_close_vma (msm_gem_vma.c:133-148) on the vma. */
  function CloseStep(s: VmaState): VmaState
  {
    if s.inuse > 0 || s.mapped then s else s.(iova := 0)
  }

  /** One lifecycle operation with the answers it gets. */
  datatype VmaOp = InitOp(insertRet: int, start: nat) | MapOp(mmuRet: int) | UnmapOp | PurgeOp | CloseOp

  function Step(s: VmaState, op: VmaOp): VmaState
  {
    match op
    case InitOp(insertRet, start) => InitStep(s, insertRet, start)
    case MapOp(mmuRet) => MapStep(s, mmuRet)
    case UnmapOp => UnmapStep(s)
    case PurgeOp => PurgeStep(s)
    case CloseOp => CloseStep(s)
  }

  /** An unmap of a vma with an IOVA is paired with an earlier successful
      map that it undoes: the vma still has a user. */
  predicate Paired(s: VmaState, op: VmaOp)
  {
    op.UnmapOp? && s.iova != 0 ==> s.inuse > 0
  }

  /** The state after running ops from s. */
  function Run(s: VmaState, ops: seq<VmaOp>): VmaState
    decreases |ops|
  {
    if ops == [] then s else Run(Step(s, ops[0]), ops[1..])
  }

  /** Every unmap in the run is paired. */
  predicate PairedRun(s: VmaState, ops: seq<VmaOp>)
    decreases |ops|
  {
    ops == [] || (Paired(s, ops[0]) && PairedRun(Step(s, ops[0]), ops[1..]))
  }

  /** Each operation keeps the invariant, the unmap when it is paired. */
  lemma StepKeepsInv(s: VmaState, op: VmaOp)
    requires Inv(s) && Paired(s, op)
    ensures Inv(Step(s, op))
  {
  }

  /** "mapped = false implies inuse = 0" holds after any run of init, map,
      unmap, purge and close from a state where it holds, as long as every
      unmap is paired with an earlier map. */
  lemma {:induction false} RunKeepsInv(s: VmaState, ops: seq<VmaOp>)
    requires Inv(s) && PairedRun(s, ops)
    ensures Inv(Run(s, ops))
    decreases |ops|
  {
    if ops != [] {
      StepKeepsInv(s, ops[0]);
      RunKeepsInv(Step(s, ops[0]), ops[1..]);
    }
  }

  /** Without pairing the invariant breaks: an unmap of an unused mapped vma
      leaves it mapped with a negative count. */
  lemma UnpairedUnmapBreaksInv()
    ensures var s := VmaState(PageSize, true, 1);
      Inv(s) && !Inv(Run(s, [UnmapOp, UnmapOp]))
  {
    var s := VmaState(PageSize, true, 1);
    assert Run(s, [UnmapOp, UnmapOp]) == Run(VmaState(PageSize, true, 0), [UnmapOp]);
  }

  /** A map that succeeds is undone by one unmap: the user count is back
      where it was and the vma stays mapped. */
  lemma MapThenUnmap(s: VmaState, mmuRet: int)
    requires Inv(s) && s.iova != 0 && (s.mapped || mmuRet == 0)
    ensures UnmapStep(MapStep(s, mmuRet)) == s.(mapped := true)
    ensures MapStep(s, mmuRet).inuse == s.inuse + 1
  {
  }

  // ---------------------------------------------------------------------
  // The address space

  /** A call made to the MMU. */
  datatype MmuCall =
    | MmuMap(iova: nat, size: nat, prot: int)  // funcs->map
    | MmuUnmap(iova: nat, size: nat)           // funcs->unmap
    | MapDmaBuf                                // funcs->map_dma_buf
    | UnmapDmaBuf                              // funcs->unmap_dma_buf
    | MmuDestroy                               // funcs->destroy

  /** A call made to the address space's range allocator. */
  datatype MmCall =
    | MmInit(start: nat, size: nat)            // drm_mm_init, in pages
    | MmInsert(npages: nat, rangeStart: nat, rangeEnd: nat)
    | MmRemove(start: nat)                     // drm_mm_remove_node
    | MmTakedown                               // drm_mm_takedown

  /** aspace->ops: NULL, or a table saying which operations it has. */
  datatype OpsTable =
    | NullOps
    | Table(hasMap: bool, hasUnmap: bool, hasDestroy: bool, hasAddToActive: bool, hasRemoveFromActive: bool,
            hasRegisterCb: bool, hasUnregisterCb: bool)

  /** msm_iommu_aspace_ops (msm_gem_vma.c:183-187): map, unmap and destroy. */
  const IommuAspaceOps: OpsTable := Table(true, true, true, false, false, false, false)

  /** struct msm_gem_address_space. */
  class AddressSpace {
    const hasMmu: bool
    var ops: OpsTable
    var domainAttached: bool
    var kref: nat
    /** Set once kfree(aspace) has run. */
    var freed: bool
    var mmuLog: seq<MmuCall>
    var mmLog: seq<MmCall>

    /** The state msm_gem_address_space_create leaves (kzalloc, then the
        fields it sets): one reference, its range handed to drm_mm, no ops. */
    constructor (hasMmu: bool, vaStart: nat, size: nat)
      ensures this.hasMmu == hasMmu && ops == NullOps && !domainAttached
      ensures kref == 1 && !freed && mmuLog == [] && mmLog == [MmInit(vaStart / PageSize, size / PageSize)]
    {
      this.hasMmu := hasMmu;
      ops := NullOps;
      domainAttached := false;
      kref := 1;
      freed := false;
      mmuLog := [];
      mmLog := [MmInit(vaStart / PageSize, size / PageSize)];
    }
  }

  /** ERR_PTR(err) or an address space. */
  datatype NewAspace = AspacePtr(aspace: AddressSpace) | ErrAspace(err: int)

  /** msm_gem_address_space_create as written (msm_gem_vma.c:189-211).
      mmuErr is IS_ERR(mmu)'s error, 0 for a real MMU (hasMmu says whether
      it is not NULL); allocOk is whether kzalloc succeeded. The new space
      holds one reference and its ops are never set: they stay NULL. */
  method AddressSpaceCreate(mmuErr: int, hasMmu: bool, allocOk: bool, vaStart: nat, size: nat)
    returns (r: NewAspace)
    ensures mmuErr != 0 ==> r == ErrAspace(mmuErr)
    ensures mmuErr == 0 && !allocOk ==> r == ErrAspace(-ENOMEM)
    ensures mmuErr == 0 && allocOk ==>
      r.AspacePtr? && fresh(r.aspace) && r.aspace.hasMmu == hasMmu && r.aspace.kref == 1 && !r.aspace.freed &&
      r.aspace.ops == NullOps && r.aspace.mmuLog == [] && r.aspace.mmLog == [MmInit(vaStart / PageSize, size / PageSize)]
  {
    if mmuErr != 0 {
      return ErrAspace(mmuErr);
    }
    if !allocOk {
      return ErrAspace(-ENOMEM);
    }
    var a := new AddressSpace(hasMmu, vaStart, size);
    r := AspacePtr(a);
  }

  /** msm_gem_address_space_create with the table the file defines for it
      installed: the new space's ops are msm_iommu_aspace_ops. */
  method AddressSpaceCreateCorrected(mmuErr: int, hasMmu: bool, allocOk: bool, vaStart: nat, size: nat)
    returns (r: NewAspace)
    ensures mmuErr != 0 ==> r == ErrAspace(mmuErr)
    ensures mmuErr == 0 && !allocOk ==> r == ErrAspace(-ENOMEM)
    ensures mmuErr == 0 && allocOk ==>
      r.AspacePtr? && fresh(r.aspace) && r.aspace.hasMmu == hasMmu && r.aspace.kref == 1 && !r.aspace.freed &&
      r.aspace.ops == IommuAspaceOps && r.aspace.mmuLog == [] &&
      r.aspace.mmLog == [MmInit(vaStart / PageSize, size / PageSize)]
  {
    r := AddressSpaceCreate(mmuErr, hasMmu, allocOk, vaStart, size);
    if r.AspacePtr? {
      r.aspace.ops := IommuAspaceOps;
    }
  }

  /** msm_gem_address_space_get (msm_gem_vma.c:65-72) on a space or NULL. */
  method AddressSpaceGet(a: AddressSpace?)
    modifies if a != null then {a} else {}
    ensures a != null ==> a.kref == old(a.kref) + 1 && a.freed == old(a.freed) && a.ops == old(a.ops)
    ensures a != null ==> a.mmuLog == old(a.mmuLog) && a.mmLog == old(a.mmLog)
  {
    if a != null {
      a.kref := a.kref + 1;
    }
  }

  /** How msm_gem_address_space_put ends. */
  datatype PutOutcome =
    | NoSpace                           // NULL: nothing to do
    | Dropped                           // one reference dropped, others remain
    | Destroyed                         // last reference: destroyed and freed
    | NullOpsDeref                      // last reference, but aspace->ops is NULL and is read
    | NoPut                             // the caller returned before putting its reference

  /** msm_gem_address_space_put and the destructor it ends in
      (msm_gem_vma.c:214-231, with iommu_aspace_destroy at 176-181). The
      last reference runs ops->destroy when the table has one -- the range
      allocator is taken down and the MMU destroyed -- and frees the space
      once. The destructor reads aspace->ops without checking it, so a
      space whose ops are NULL cannot be destroyed. */
  method AddressSpacePut(a: AddressSpace?) returns (out: PutOutcome)
    requires a != null ==> a.kref > 0 && !a.freed
    modifies if a != null then {a} else {}
    ensures a == null ==> out == NoSpace
    ensures a != null ==> a.kref == old(a.kref) - 1
    ensures a != null && a.kref > 0 ==>
      out == Dropped && !a.freed && a.mmuLog == old(a.mmuLog) && a.mmLog == old(a.mmLog)
    ensures a != null && a.kref == 0 && a.ops.NullOps? ==>
      out == NullOpsDeref && !a.freed && a.mmuLog == old(a.mmuLog) && a.mmLog == old(a.mmLog)
    ensures a != null && a.kref == 0 && a.ops.Table? ==>
      out == Destroyed && a.freed &&
      a.mmLog == old(a.mmLog) + (if a.ops.hasDestroy then [MmTakedown] else []) &&
      a.mmuLog == old(a.mmuLog) + (if a.ops.hasDestroy && a.hasMmu then [MmuDestroy] else [])
    ensures a != null ==> a.ops == old(a.ops)
  {
    if a == null {
      return NoSpace;
    }
    a.kref := a.kref - 1;
    if a.kref > 0 {
      return Dropped;
    }
    if a.ops.NullOps? {
      return NullOpsDeref;
    }
    if a.ops.hasDestroy {
      a.mmLog := a.mmLog + [MmTakedown];
      if a.hasMmu {
        a.mmuLog := a.mmuLog + [MmuDestroy];
      }
    }
    a.freed := true;
    out := Destroyed;
  }

  /** An address space made by msm_gem_address_space_create as written and
      dropped by its only holder reaches the destructor with NULL ops. */
  method CreateThenPut(hasMmu: bool, vaStart: nat, size: nat) returns (out: PutOutcome)
    ensures out == NullOpsDeref
  {
    var r := AddressSpaceCreate(0, hasMmu, true, vaStart, size);
    out := AddressSpacePut(r.aspace);
  }

  /** With msm_iommu_aspace_ops installed, the only reference's put destroys
      the space: the range allocator is taken down, the MMU destroyed, and
      the space freed. */
  method CreateThenPutCorrected(hasMmu: bool, vaStart: nat, size: nat) returns (a: AddressSpace, out: PutOutcome)
    ensures out == Destroyed && a.freed && a.kref == 0
    ensures a.mmLog == [MmInit(vaStart / PageSize, size / PageSize), MmTakedown]
    ensures a.mmuLog == if hasMmu then [MmuDestroy] else []
  {
    var r := AddressSpaceCreateCorrected(0, hasMmu, true, vaStart, size);
    a := r.aspace;
    out := AddressSpacePut(a);
  }

  // ---------------------------------------------------------------------
  // The vma

  /** struct msm_gem_vma: its IOVA, whether it is mapped, its user count and
      its drm_mm node (first page and length in pages). */
  class Vma {
    var iova: nat
    var mapped: bool
    var inuse: int
    var nodeStart: nat
    var nodeSize: nat

    /** A zeroed vma. */
    constructor ()
      ensures State() == VmaState(0, false, 0)
    {
      iova := 0;
      mapped := false;
      inuse := 0;
      nodeStart := 0;
      nodeSize := 0;
    }

    function State(): VmaState
      reads this
    {
      VmaState(iova, mapped, inuse)
    }

    /** msm_gem_init_vma (msm_gem_vma.c:151-174). insertRet is what
        drm_mm_insert_node_in_range returns and start the first page it
        picks. A vma that has an IOVA is refused with -EBUSY; a failed
        insert returns its error; on success the vma gets the node's IOVA,
        unmapped, and holds a new reference on the address space. */
    method Init(aspace: AddressSpace, npages: nat, rangeStart: nat, rangeEnd: nat, insertRet: int, start: nat)
      returns (ret: int)
      modifies this, aspace
      ensures State() == InitStep(old(State()), insertRet, start)
      ensures old(iova) != 0 ==> ret == -EBUSY && aspace.mmLog == old(aspace.mmLog)
      ensures old(iova) == 0 ==> ret == insertRet && aspace.mmLog == old(aspace.mmLog) + [MmInsert(npages, rangeStart, rangeEnd)]
      ensures ret == 0 ==> nodeStart == start && nodeSize == npages && aspace.kref == old(aspace.kref) + 1
      ensures ret != 0 ==> aspace.kref == old(aspace.kref) && nodeStart == old(nodeStart) && nodeSize == old(nodeSize)
      ensures aspace.mmuLog == old(aspace.mmuLog) && aspace.ops == old(aspace.ops) && aspace.freed == old(aspace.freed)
    {
      if iova != 0 {
        return -EBUSY;
      }
      aspace.mmLog := aspace.mmLog + [MmInsert(npages, rangeStart, rangeEnd)];
      if insertRet != 0 {
        return insertRet;
      }
      nodeStart, nodeSize := start, npages;
      iova := start * PageSize;
      mapped := false;
      aspace.kref := aspace.kref + 1;
      ret := 0;
    }

    /** msm_gem_map_vma, the counting one (msm_gem_vma.c:102-131). mmuRet is
        what the MMU's map returns. A vma without an IOVA is refused with
        -EINVAL; otherwise the user count rises, and the first map maps
        npages pages at the IOVA, undoing both the flag and the count when
        the MMU fails. */
    method Map(aspace: AddressSpace?, prot: int, npages: nat, mmuRet: int) returns (ret: int)
      modifies this, if aspace != null then {aspace} else {}
      ensures var called := aspace != null && aspace.hasMmu;
        State() == MapStep(old(State()), if called then mmuRet else 0)
      ensures old(iova) == 0 ==> ret == -EINVAL
      ensures old(iova) != 0 && old(mapped) ==> ret == 0
      ensures old(iova) != 0 && !old(mapped) ==> ret == (if aspace != null && aspace.hasMmu then mmuRet else 0)
      ensures aspace != null ==>
        aspace.mmuLog == old(aspace.mmuLog) +
          (if old(iova) != 0 && !old(mapped) && aspace.hasMmu then [MmuMap(iova, ShiftedSize(npages), prot)] else [])
      ensures aspace != null ==>
        aspace.kref == old(aspace.kref) && aspace.mmLog == old(aspace.mmLog) && aspace.ops == old(aspace.ops) &&
        aspace.freed == old(aspace.freed)
      ensures nodeStart == old(nodeStart) && nodeSize == old(nodeSize)
    {
      var size := ShiftedSize(npages);
      if iova == 0 {
        return -EINVAL;
      }
      inuse := inuse + 1;
      if mapped {
        return 0;
      }
      mapped := true;
      ret := 0;
      if aspace != null && aspace.hasMmu {
        aspace.mmuLog := aspace.mmuLog + [MmuMap(iova, size, prot)];
        ret := mmuRet;
      }
      if ret != 0 {
        mapped := false;
        inuse := inuse - 1;
      }
    }

    /** msm_gem_unmap_vma, the counting one (msm_gem_vma.c:94-100): one user
        fewer when the vma has an IOVA; the mapping itself stays. */
    method Unmap()
      modifies this
      ensures State() == UnmapStep(old(State()))
      ensures nodeStart == old(nodeStart) && nodeSize == old(nodeSize)
    {
      if iova != 0 {
        inuse := inuse - 1;
      }
    }

    /** msm_gem_purge_vma (msm_gem_vma.c:74-92): nothing while the vma has
        users or is not mapped; otherwise the node's pages are unmapped from
        the MMU and the vma is no longer mapped. */
    method Purge(aspace: AddressSpace)
      modifies this, aspace
      ensures State() == PurgeStep(old(State()))
      ensures aspace.mmuLog == old(aspace.mmuLog) +
        (if old(inuse) <= 0 && old(mapped) && aspace.hasMmu then [MmuUnmap(iova, ShiftedSize(nodeSize))] else [])
      ensures aspace.kref == old(aspace.kref) && aspace.mmLog == old(aspace.mmLog) && aspace.ops == old(aspace.ops)
      ensures aspace.freed == old(aspace.freed)
      ensures nodeStart == old(nodeStart) && nodeSize == old(nodeSize)
    {
      var size := ShiftedSize(nodeSize);
      if inuse > 0 {
        return;
      }
      if !mapped {
        return;
      }
      if aspace.hasMmu {
        aspace.mmuLog := aspace.mmuLog + [MmuUnmap(iova, size)];
      }
      mapped := false;
    }

    /** msm_gem_close_vma (msm_gem_vma.c:133-148): nothing while the vma has
        users or is mapped; otherwise its node goes back to the range
        allocator (when it has an IOVA), the IOVA is cleared and the vma's
        reference on the address space is dropped. */
    method Close(aspace: AddressSpace) returns (put: PutOutcome)
      requires !(inuse > 0 || mapped) ==> aspace.kref > 0 && !aspace.freed
      modifies this, aspace
      ensures State() == CloseStep(old(State()))
      ensures old(inuse) > 0 || old(mapped) ==>
        put == NoPut && aspace.kref == old(aspace.kref) && aspace.mmLog == old(aspace.mmLog) &&
        aspace.mmuLog == old(aspace.mmuLog) && aspace.freed == old(aspace.freed)
      ensures !(old(inuse) > 0 || old(mapped)) ==>
        aspace.kref == old(aspace.kref) - 1
      ensures !(old(inuse) > 0 || old(mapped)) && aspace.kref > 0 ==>
        put == Dropped && !aspace.freed && aspace.mmuLog == old(aspace.mmuLog) &&
        aspace.mmLog == old(aspace.mmLog) + (if old(iova) != 0 then [MmRemove(nodeStart)] else [])
      ensures !(old(inuse) > 0 || old(mapped)) && aspace.kref == 0 && aspace.ops.NullOps? ==>
        put == NullOpsDeref && !aspace.freed && aspace.mmuLog == old(aspace.mmuLog) &&
        aspace.mmLog == old(aspace.mmLog) + (if old(iova) != 0 then [MmRemove(nodeStart)] else [])
      ensures !(old(inuse) > 0 || old(mapped)) && aspace.kref == 0 && aspace.ops.Table? ==>
        put == Destroyed && aspace.freed &&
        aspace.mmLog == old(aspace.mmLog) + (if old(iova) != 0 then [MmRemove(nodeStart)] else []) +
          (if aspace.ops.hasDestroy then [MmTakedown] else []) &&
        aspace.mmuLog == old(aspace.mmuLog) + (if aspace.ops.hasDestroy && aspace.hasMmu then [MmuDestroy] else [])
      ensures aspace.ops == old(aspace.ops)
      ensures nodeStart == old(nodeStart) && nodeSize == old(nodeSize)
    {
      if inuse > 0 || mapped {
        return NoPut;
      }
      if iova != 0 {
        aspace.mmLog := aspace.mmLog + [MmRemove(nodeStart)];
      }
      iova := 0;
      put := AddressSpacePut(aspace);
    }

    /** smmu_aspace_map_vma (msm_gem_vma.c:28-46). mapRet is what the MMU's
        map_dma_buf returns and dmaAddr the address of the mapped table. A
        missing or detached space is refused with -EINVAL; otherwise the
        vma gets the address when the map succeeds, and the space gains a
        reference either way. */
    method SmmuMap(aspace: AddressSpace?, mapRet: int, dmaAddr: nat) returns (ret: int)
      modifies this, if aspace != null then {aspace} else {}
      ensures aspace == null || !old(aspace.domainAttached) ==> ret == -EINVAL && iova == old(iova)
      ensures aspace != null && old(aspace.domainAttached) ==>
        ret == mapRet && iova == (if mapRet == 0 then dmaAddr else old(iova)) &&
        aspace.kref == old(aspace.kref) + 1 && aspace.mmuLog == old(aspace.mmuLog) + [MapDmaBuf]
      ensures aspace != null && !old(aspace.domainAttached) ==> aspace.kref == old(aspace.kref) && aspace.mmuLog == old(aspace.mmuLog)
      ensures aspace != null ==> aspace.mmLog == old(aspace.mmLog) && aspace.ops == old(aspace.ops) && aspace.freed == old(aspace.freed)
      ensures mapped == old(mapped) && inuse == old(inuse)
    {
      if aspace == null || !aspace.domainAttached {
        return -EINVAL;
      }
      aspace.mmuLog := aspace.mmuLog + [MapDmaBuf];
      ret := mapRet;
      if ret == 0 {
        iova := dmaAddr;
      }
      aspace.kref := aspace.kref + 1;
    }

    /** smmu_aspace_unmap_vma (msm_gem_vma.c:12-26): nothing for a vma
        without an IOVA; otherwise the table is unmapped from the MMU (when
        there is a space), the IOVA cleared and one reference dropped. */
    method SmmuUnmap(aspace: AddressSpace?) returns (put: PutOutcome)
      requires iova != 0 && aspace != null ==> aspace.kref > 0 && !aspace.freed
      modifies this, if aspace != null then {aspace} else {}
      ensures old(iova) == 0 ==> iova == 0 && put == NoPut
      ensures old(iova) == 0 && aspace != null ==> aspace.kref == old(aspace.kref) && aspace.mmuLog == old(aspace.mmuLog)
      ensures old(iova) != 0 ==> iova == 0
      ensures old(iova) != 0 && aspace == null ==> put == NoSpace
      ensures old(iova) != 0 && aspace != null ==>
        aspace.kref == old(aspace.kref) - 1 &&
        (aspace.kref > 0 ==>
          put == Dropped && !aspace.freed && aspace.mmuLog == old(aspace.mmuLog) + [UnmapDmaBuf] &&
          aspace.mmLog == old(aspace.mmLog)) &&
        (aspace.kref == 0 && aspace.ops.NullOps? ==>
          put == NullOpsDeref && !aspace.freed && aspace.mmuLog == old(aspace.mmuLog) + [UnmapDmaBuf] &&
          aspace.mmLog == old(aspace.mmLog)) &&
        (aspace.kref == 0 && aspace.ops.Table? ==>
          put == Destroyed && aspace.freed &&
          aspace.mmuLog == old(aspace.mmuLog) + [UnmapDmaBuf] +
            (if aspace.ops.hasDestroy && aspace.hasMmu then [MmuDestroy] else []) &&
          aspace.mmLog == old(aspace.mmLog) + (if aspace.ops.hasDestroy then [MmTakedown] else []))
      ensures mapped == old(mapped) && inuse == old(inuse)
    {
      if iova == 0 {
        return NoPut;
      }
      if aspace != null {
        aspace.mmuLog := aspace.mmuLog + [UnmapDmaBuf];
      }
      iova := 0;
      put := AddressSpacePut(aspace);
    }
  }

  /** A whole lifetime: a space is created (with its ops installed), a vma
      gets npages pages from it at page start, is mapped, unmapped by its
      one user, purged and closed, and the creator drops the space. The
      MMU sees one map and one unmap of the same range, then its destroy;
      the range allocator sees the insert and the removal; the vma ends as
      it began and the space is freed. */
  method VmaLifecycle(hasMmu: bool, vaStart: nat, size: nat, npages: nat, start: nat, prot: int)
    returns (vma: Vma, a: AddressSpace)
    requires 0 < start && npages < 0x10_0000
    ensures vma.State() == VmaState(0, false, 0) && a.freed && a.kref == 0
    ensures a.mmuLog ==
      (if hasMmu then [MmuMap(start * PageSize, npages * PageSize, prot), MmuUnmap(start * PageSize, npages * PageSize), MmuDestroy]
       else [])
    ensures a.mmLog == [MmInit(vaStart / PageSize, size / PageSize), MmInsert(npages, 0, 0), MmRemove(start), MmTakedown]
  {
    var r := AddressSpaceCreateCorrected(0, hasMmu, true, vaStart, size);
    a := r.aspace;
    vma := new Vma();
    var ret := vma.Init(a, npages, 0, 0, 0, start);
    ret := vma.Map(a, prot, npages, 0);
    vma.Unmap();
    vma.Purge(a);
    var put := vma.Close(a);
    put := AddressSpacePut(a);
  }

  // ---------------------------------------------------------------------
  // The op-table dispatchers (msm_gem_vma.c:233-301)

  /** How a dispatcher ends: it called the space's operation, which
      returned ret (0 for one that returns nothing); it found no space or no
      operation and returned ret; or it read the ops of a space whose ops
      are NULL. */
  datatype Dispatch = Called(ret: int) | NotCalled(ret: int) | ReadsNullOps

  /** msm_gem_map_vma, the dispatching one (msm_gem_vma.c:242-251): a
      missing space or map operation gives -EINVAL. The ops pointer itself
      is not checked. opRet is what the space's map returns. */
  function DispatchMap(present: bool, ops: OpsTable, opRet: int): (d: Dispatch)
    ensures d.Called? <==> present && ops.Table? && ops.hasMap
    ensures d.NotCalled? ==> d.ret == -EINVAL
    ensures d.ReadsNullOps? <==> present && ops.NullOps?
    ensures d.Called? ==> d.ret == opRet
  {
    if !present then NotCalled(-EINVAL)
    else if ops.NullOps? then ReadsNullOps
    else if ops.hasMap then Called(opRet)
    else NotCalled(-EINVAL)
  }

  /** msm_gem_unmap_vma, the dispatching one (msm_gem_vma.c:233-240): does
      nothing without a space or an unmap operation; the ops pointer is not
      checked. */
  function DispatchUnmap(present: bool, ops: OpsTable): (d: Dispatch)
    ensures d.Called? <==> present && ops.Table? && ops.hasUnmap
    ensures d.ReadsNullOps? <==> present && ops.NullOps?
    ensures !d.ReadsNullOps? ==> d.ret == 0
  {
    if !present then NotCalled(0)
    else if ops.NullOps? then ReadsNullOps
    else if ops.hasUnmap then Called(0)
    else NotCalled(0)
  }

  /** msm_gem_add_obj_to_aspace_active_list and
      msm_gem_remove_obj_from_aspace_active_list (msm_gem_vma.c:263-281):
      the operation (has says whether the table has it) is called only when
      there is a space with ops that has it; otherwise nothing happens. */
  function DispatchActive(present: bool, ops: OpsTable, add: bool): (d: Dispatch)
    ensures !d.ReadsNullOps? && d.ret == 0
    ensures d.Called? <==> present && ops.Table? && (if add then ops.hasAddToActive else ops.hasRemoveFromActive)
  {
    if present && ops.Table? && (if add then ops.hasAddToActive else ops.hasRemoveFromActive) then Called(0)
    else NotCalled(0)
  }

  /** msm_gem_address_space_register_cb and _unregister_cb
      (msm_gem_vma.c:283-301): the operation is called, and its result
      returned, only when there is a space with ops that has it; otherwise
      -EINVAL. */
  function DispatchCb(present: bool, ops: OpsTable, register: bool, opRet: int): (d: Dispatch)
    ensures !d.ReadsNullOps?
    ensures d.Called? <==> present && ops.Table? && (if register then ops.hasRegisterCb else ops.hasUnregisterCb)
    ensures d.Called? ==> d.ret == opRet
    ensures d.NotCalled? ==> d.ret == -EINVAL
  {
    if present && ops.Table? && (if register then ops.hasRegisterCb else ops.hasUnregisterCb) then Called(opRet)
    else NotCalled(-EINVAL)
  }

  /** The dispatchers that read an operation off a space with NULL ops:
      map and unmap do, the active-list and callback ones never do. */
  lemma NullOpsReaders(opRet: int, add: bool, register: bool)
    ensures DispatchMap(true, NullOps, opRet) == ReadsNullOps && DispatchUnmap(true, NullOps) == ReadsNullOps
    ensures DispatchActive(true, NullOps, add) == NotCalled(0) && DispatchCb(true, NullOps, register, opRet) == NotCalled(-EINVAL)
  {
  }

  /** With msm_iommu_aspace_ops, map and unmap reach the space's operations
      and the other dispatchers find nothing to call. */
  lemma IommuOpsDispatch(opRet: int, add: bool, register: bool)
    ensures DispatchMap(true, IommuAspaceOps, opRet) == Called(opRet)
    ensures DispatchUnmap(true, IommuAspaceOps) == Called(0)
    ensures DispatchActive(true, IommuAspaceOps, add) == NotCalled(0)
    ensures DispatchCb(true, IommuAspaceOps, register, opRet) == NotCalled(-EINVAL)
  {
  }
}
