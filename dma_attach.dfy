/** The life of a struct dma_iommu_mapping in arch/arm64/mm/dma-mapping.c:
    arm_iommu_create_mapping makes it uninitialised, the first
    arm_iommu_attach_device initialises it (arm_iommu_init_mapping, with the
    backend chosen by the domain's attributes) and gives it one reference,
    arm_iommu_detach_device undoes an attach, and arm_iommu_release_mapping
    frees an uninitialised mapping at once and otherwise drops a reference.
    The answers of the allocators and of the IOMMU core are parameters. */
module DmaAttach {
  import opened PageMath
  import opened DmaMapping

  const EINVAL: int := 22
  const ENOMEM: int := 12

  /** The bits arm_iommu_create_mapping stores: size >> PAGE_SHIFT, kept in
      an unsigned int, so reduced modulo 2^32. */
  function MappingBits(size: nat): (bits: nat)
    ensures bits < 0x1_0000_0000 && bits <= size / PageSize
    ensures size / PageSize < 0x1_0000_0000 ==> bits == size / PageSize
  {
    (size / PageSize) % 0x1_0000_0000
  }

  /** A size of 2^32 pages is stored as zero pages and refused. */
  lemma HugeSizeWraps()
    ensures MappingBits(0x1_0000_0000 * PageSize) == 0
  {
    assert 0x1_0000_0000 * PageSize / PageSize == 0x1_0000_0000;
  }

  /** BITS_TO_LONGS(bits) * sizeof(long) bytes, counted in bits: bits rounded
      up to whole 64-bit words. */
  function BitmapWords(bits: nat): (n: nat)
    ensures bits <= n < bits + 64 && n % 64 == 0
  {
    (bits + 63) / 64 * 64
  }

  /** The VMID bitmap_iommu_init_mapping asks for the guard page with: the
      domain's secure VMID, or VMID_HLOS when it is out of range. hlos and
      last are VMID_HLOS and VMID_LAST, whose values the headers define. */
  function GuardVmid(vmid: int, hlos: int, last: int): (v: int)
    ensures 0 <= vmid < last ==> v == vmid
    ensures !(0 <= vmid < last) ==> v == hlos
  {
    if vmid >= last || vmid < 0 then hlos else vmid
  }

  /** ERR_PTR(err) or a mapping. */
  datatype NewMapping = MappingPtr(mapping: IommuMapping) | ErrPtr(err: int)

  /** arm_iommu_create_mapping (dma-mapping.c:930-956). allocOk is whether
      kzalloc succeeded, domain what iommu_domain_alloc returned. A space of
      less than a page is refused with -EINVAL, an allocation failure gives
      -ENOMEM, and a new mapping starts uninitialised, with no bitmap, no
      reference and no ops. */
  method CreateMapping(base: nat, size: nat, allocOk: bool, domain: Domain?) returns (r: NewMapping)
    ensures r.ErrPtr? ==> r.err == -EINVAL || r.err == -ENOMEM
    ensures r.MappingPtr? <==> MappingBits(size) > 0 && allocOk && domain != null
    ensures size < PageSize ==> r == ErrPtr(-EINVAL)
    ensures MappingBits(size) > 0 && (!allocOk || domain == null) ==> r == ErrPtr(-ENOMEM)
    ensures MappingBits(size) > 0 && allocOk && domain != null ==>
      r.MappingPtr? && fresh(r.mapping) && r.mapping.domain == domain &&
      r.mapping.base == base && r.mapping.bits == MappingBits(size) && r.mapping.bits * PageSize <= size &&
      r.mapping.Fresh()
  {
    var bits := MappingBits(size);
    if bits == 0 {
      return ErrPtr(-EINVAL);
    }
    if !allocOk || domain == null {
      return ErrPtr(-ENOMEM);
    }
    var m := new IommuMapping(base, bits, domain);
    r := MappingPtr(m);
  }

  /** iommu_init_mapping (dma-mapping.c:958-977): take a dma cookie for the
      domain and set it up for the IOVA range; cookieOk and initOk are the
      answers of iommu_get_dma_cookie and iommu_dma_init_domain, and a
      domain that already holds a cookie cannot get another. Either failure
      gives -EINVAL and leaves the domain's cookie as it was. */
  method IommuInit(mapping: IommuMapping, cookieOk: bool, initOk: bool) returns (err: int)
    modifies mapping, mapping.domain
    ensures err == 0 || err == -EINVAL
    ensures err == 0 <==> !old(mapping.domain.cookie) && cookieOk && initOk
    ensures err == 0 ==> mapping.ops == IommuDmaOps && mapping.domain.cookie
    ensures err != 0 ==> mapping.ops == old(mapping.ops) && mapping.domain.cookie == old(mapping.domain.cookie)
    ensures mapping.init == old(mapping.init) && mapping.kref == old(mapping.kref) && mapping.freed == old(mapping.freed)
    ensures mapping.bitmap == old(mapping.bitmap)
    ensures mapping.domain.log == old(mapping.domain.log) && mapping.domain.freed == old(mapping.domain.freed)
  {
    if mapping.domain.cookie || !cookieOk {
      return -EINVAL;
    }
    mapping.domain.cookie := true;
    if !initOk {
      mapping.domain.cookie := false;
      return -EINVAL;
    }
    mapping.ops := IommuDmaOps;
    err := 0;
  }

  /** bitmap_iommu_init_mapping (dma-mapping.c:979-1010). guardFor is
      arm_smmu_errata_get_guard_page; kzallocOk and vzallocOk say whether the
      two attempts at the bitmap succeed. Under the MMU-500 errata the
      alignment and the guard page are set first, and a missing guard page
      fails with -ENOMEM before any bitmap is allocated; on success the
      bitmap allocator is ready with every IOVA page free. */
  method BitmapInit(mapping: IommuMapping, hlos: int, last: int, guardFor: int -> PageRef,
                    kzallocOk: bool, vzallocOk: bool) returns (err: int)
    modifies mapping
    ensures err == 0 || err == -ENOMEM
    ensures mapping.domain.errataMinIovaAlign ==>
      mapping.minIovaAlign == ArmSmmuMinIovaAlign &&
      mapping.guardPage == guardFor(GuardVmid(mapping.domain.secureVmid, hlos, last))
    ensures !mapping.domain.errataMinIovaAlign ==>
      mapping.minIovaAlign == old(mapping.minIovaAlign) && mapping.guardPage == old(mapping.guardPage)
    ensures mapping.domain.errataMinIovaAlign && mapping.guardPage.NoPage? ==>
      err == -ENOMEM && mapping.bitmap == old(mapping.bitmap)
    ensures err == 0 <==>
      (!mapping.domain.errataMinIovaAlign || mapping.guardPage.Page?) && (kzallocOk || vzallocOk)
    ensures err == 0 ==>
      mapping.ops == BitmapOps && mapping.Ready() && fresh(mapping.bitmap) &&
      mapping.bitmap.Length == BitmapWords(mapping.bits) &&
      forall k :: 0 <= k < mapping.bitmap.Length ==> !mapping.bitmap[k]
    ensures err != 0 ==> mapping.ops == old(mapping.ops)
    ensures mapping.init == old(mapping.init) && mapping.kref == old(mapping.kref) && mapping.freed == old(mapping.freed)
  {
    if mapping.domain.errataMinIovaAlign {
      mapping.minIovaAlign := ArmSmmuMinIovaAlign;
      mapping.guardPage := guardFor(GuardVmid(mapping.domain.secureVmid, hlos, last));
      if mapping.guardPage.NoPage? {
        return -ENOMEM;
      }
    }
    if !kzallocOk && !vzallocOk {
      return -ENOMEM;
    }
    mapping.bitmap := new bool[BitmapWords(mapping.bits)](_ => false);
    mapping.ops := BitmapOps;
    err := 0;
  }

  /** The answers arm_iommu_init_mapping's backends get from the code this
      model does not contain: fast_smmu_init_mapping's result, the dma
      cookie and iommu_dma_init_domain, the VMID constants and guard pages,
      and the two bitmap allocations. */
  datatype InitAnswers = InitAnswers(fastErr: int, cookieOk: bool, dmaInitOk: bool, hlos: int, last: int,
                                     guardFor: int -> PageRef, kzallocOk: bool, vzallocOk: bool)

  /** The backend arm_iommu_init_mapping picks, by priority: stage-1 bypass,
      then the fast SMMU, then the bitmap allocator, then iommu-dma. */
  function Backend(d: Domain): (ops: OpsKind)
    reads d
    ensures ops in {SwiotlbOps, FastOps, BitmapOps, IommuDmaOps}
    ensures d.s1Bypass <==> ops == SwiotlbOps
    ensures ops == FastOps <==> !d.s1Bypass && d.isFast
    ensures ops == BitmapOps <==> !d.s1Bypass && !d.isFast && d.isBitmap
  {
    if d.s1Bypass then SwiotlbOps
    else if d.isFast then FastOps
    else if d.isBitmap then BitmapOps
    else IommuDmaOps
  }

  /** Whether the backend Backend(d) initialises, given the answers and
      whether the domain already holds a dma cookie. */
  predicate BackendInitOk(d: Domain, cookie: bool, ans: InitAnswers)
    reads d
  {
    if d.s1Bypass then true
    else if d.isFast then ans.fastErr == 0
    else if d.isBitmap then
      (!d.errataMinIovaAlign || ans.guardFor(GuardVmid(d.secureVmid, ans.hlos, ans.last)).Page?) &&
      (ans.kzallocOk || ans.vzallocOk)
    else !cookie && ans.cookieOk && ans.dmaInitOk
  }

  /** The last IOVA of the mapping's range, base + (bits << PAGE_SHIFT) - 1. */
  function IovaEnd(mapping: IommuMapping): int
    reads mapping
  {
    mapping.base + mapping.bits * PageSize - 1
  }

  /** arm_iommu_init_mapping (dma-mapping.c:1066-1095) for a device whose DMA
      mask is dmaMask. An initialised mapping is left alone. A range that
      ends above the mask is refused with -EINVAL. Otherwise the backend is
      initialised, and only when that succeeds does the mapping become
      initialised with one reference. */
  method InitMapping(mapping: IommuMapping, dmaMask: nat, ans: InitAnswers) returns (err: int)
    requires mapping.Live()
    modifies mapping, mapping.domain
    ensures mapping.Live()
    ensures old(mapping.init) ==> err == 0 && mapping.kref == old(mapping.kref) && mapping.ops == old(mapping.ops)
    ensures !old(mapping.init) && IovaEnd(mapping) > dmaMask ==> err == -EINVAL && !mapping.init
    ensures !old(mapping.init) ==>
      (err == 0 <==> IovaEnd(mapping) <= dmaMask && BackendInitOk(mapping.domain, old(mapping.domain.cookie), ans))
    ensures !old(mapping.init) && err == 0 ==>
      IovaEnd(mapping) <= dmaMask && mapping.init && mapping.kref == 1 && mapping.ops == Backend(mapping.domain)
    ensures !old(mapping.init) && err != 0 ==> !mapping.init && mapping.kref == 0
    ensures mapping.freed == old(mapping.freed) && mapping.domain.freed == old(mapping.domain.freed)
  {
    if mapping.init {
      return 0;
    }
    if IovaEnd(mapping) > dmaMask {
      return -EINVAL;
    }
    var d := mapping.domain;
    if d.s1Bypass {
      mapping.ops := SwiotlbOps;
      err := 0;
    } else if d.isFast {
      err := ans.fastErr;
      if err == 0 {
        mapping.ops := FastOps;
      }
    } else if d.isBitmap {
      err := BitmapInit(mapping, ans.hlos, ans.last, ans.guardFor, ans.kzallocOk, ans.vzallocOk);
    } else {
      err := IommuInit(mapping, ans.cookieOk, ans.dmaInitOk);
    }
    if err == 0 {
      mapping.kref := 1;
      mapping.init := true;
    }
  }

  /** A device, as attach and detach see it. */
  class Device {
    /** dev->iommu_group != NULL. */
    const hasGroup: bool
    const dmaMask: nat
    /** iommu_get_domain_for_dev: the domain the device's group is attached to. */
    var domain: Domain?
    /** dev->archdata.mapping. */
    var mapping: IommuMapping?
    /** The device's dma_map_ops. */
    var ops: OpsKind

    constructor (hasGroup: bool, dmaMask: nat)
      ensures this.hasGroup == hasGroup && this.dmaMask == dmaMask
      ensures domain == null && mapping == null && ops == NoOps
    {
      this.hasGroup := hasGroup;
      this.dmaMask := dmaMask;
      domain := null;
      mapping := null;
      ops := NoOps;
    }

    /** arm_iommu_attach_device (dma-mapping.c:1119-1140). attachErr is what
        iommu_attach_group returns. A device with no group or already in a
        domain is refused with -EINVAL and nothing changes; when the
        mapping cannot be initialised the group is detached again. On
        success the device records the mapping and takes its ops. A mapping
        that is already initialised gets no further reference. */
    method AttachDevice(m: IommuMapping, attachErr: int, ans: InitAnswers) returns (err: int)
      requires m.Live()
      modifies this, m, m.domain
      ensures m.Live()
      ensures !hasGroup || old(domain) != null ==>
        err == -EINVAL && domain == old(domain) && mapping == old(mapping) && ops == old(ops) &&
        m.init == old(m.init) && m.kref == old(m.kref)
      ensures hasGroup && old(domain) == null && attachErr != 0 ==>
        err == attachErr && domain == null && mapping == old(mapping) && ops == old(ops) &&
        m.init == old(m.init) && m.kref == old(m.kref)
      ensures hasGroup && old(domain) == null && attachErr == 0 ==>
        (err == 0 <==> old(m.init) || (IovaEnd(m) <= dmaMask && BackendInitOk(m.domain, old(m.domain.cookie), ans)))
      ensures err == 0 ==> domain == m.domain && mapping == m && ops == m.ops && m.init
      ensures err != 0 ==> m.init == old(m.init) && m.kref == old(m.kref)
      ensures err == 0 && old(m.init) ==> m.kref == old(m.kref)
      ensures err == 0 && !old(m.init) ==> m.kref == 1
      ensures err != 0 ==> domain == old(domain) && mapping == old(mapping) && ops == old(ops)
      ensures m.freed == old(m.freed) && m.domain.freed == old(m.domain.freed)
    {
      if !hasGroup {
        return -EINVAL;
      }
      if domain != null {
        return -EINVAL;
      }
      if attachErr != 0 {
        return attachErr;
      }
      domain := m.domain;
      err := InitMapping(m, dmaMask, ans);
      if err != 0 {
        domain := null;
        return err;
      }
      mapping := m;
      ops := m.ops;
    }

    /** arm_iommu_detach_device (dma-mapping.c:1160-1182). A device with no
        mapping, or no group, is left as it is. Otherwise the group leaves
        the domain, the device forgets the mapping, and its ops are cleared
        unless the domain bypasses stage 1. The mapping's reference count is
        not touched. */
    method DetachDevice()
      modifies this
      ensures old(mapping) == null || !hasGroup ==>
        domain == old(domain) && mapping == old(mapping) && ops == old(ops)
      ensures old(mapping) != null && hasGroup ==>
        domain == null && mapping == null &&
        ops == (if old(mapping).domain.s1Bypass then old(ops) else NoOps)
    {
      if mapping == null {
        return;
      }
      if !hasGroup {
        return;
      }
      var bypass := mapping.domain.s1Bypass;
      domain := null;
      mapping := null;
      if !bypass {
        ops := NoOps;
      }
    }
  }

  /** How arm_iommu_release_mapping ends. */
  datatype ReleaseOutcome =
    | NullMapping                       // called with NULL
    | FreedUninit                       // an uninitialised mapping, freed at once
    | Dropped                           // one reference dropped, others remain
    | FastReleased                      // last reference: fast_smmu_release_mapping
    | Destroyed(bitmapFreed: bool)      // last reference: release_iommu_mapping

  /** arm_iommu_release_mapping (dma-mapping.c:1039-1055) with the kref_put
      it ends in and release_iommu_mapping (dma-mapping.c:1012-1024). An
      uninitialised mapping and its domain are freed at once; otherwise one
      reference is dropped, and the last one frees the mapping through the
      backend's release. */
  method ReleaseMapping(m: IommuMapping?) returns (out: ReleaseOutcome)
    requires m != null ==> m.Live()
    modifies if m != null then {m, m.domain} else {}
    ensures m == null ==> out == NullMapping
    ensures m != null && !old(m.init) ==> out == FreedUninit && m.freed && m.domain.freed
    ensures m != null && old(m.init) ==>
      m.kref == old(m.kref) - 1 &&
      (m.kref > 0 ==> out == Dropped && !m.freed && !m.domain.freed) &&
      (m.kref == 0 && m.domain.isFast ==> out == FastReleased) &&
      (m.kref == 0 && !m.domain.isFast ==> out == Destroyed(m.domain.isBitmap) && m.freed && m.domain.freed)
    ensures m != null ==> m.init == old(m.init)
  {
    if m == null {
      return NullMapping;
    }
    if !m.init {
      m.domain.freed := true;
      m.freed := true;
      return FreedUninit;
    }
    m.kref := m.kref - 1;
    if m.kref > 0 {
      return Dropped;
    }
    if m.domain.isFast {
      return FastReleased;
    }
    m.domain.freed := true;
    m.freed := true;
    out := Destroyed(m.domain.isBitmap);
  }

  /** The whole life of a mapping used by one device: created, attached
      (which initialises it with one reference), detached, released. The
      one release frees it, whatever backend it got, unless that is the
      fast SMMU's, whose release is not part of this model. */
  method OneDeviceLifecycle(dev: Device, base: nat, size: nat, domain: Domain, attachErr: int, ans: InitAnswers)
    returns (attached: bool, out: ReleaseOutcome)
    requires dev.domain == null && dev.mapping == null && !domain.freed && !domain.cookie
    modifies dev, domain
    ensures attached ==> out == (if domain.isFast then FastReleased else Destroyed(domain.isBitmap))
    ensures attached ==> dev.mapping == null && dev.domain == null
    ensures !attached ==> out.NullMapping? || out == FreedUninit
    ensures attached <==>
      MappingBits(size) > 0 && dev.hasGroup && attachErr == 0 &&
      base + MappingBits(size) * PageSize - 1 <= dev.dmaMask && BackendInitOk(domain, false, ans)
  {
    var r := CreateMapping(base, size, true, domain);
    if r.ErrPtr? {
      return false, NullMapping;
    }
    var m := r.mapping;
    var err := dev.AttachDevice(m, attachErr, ans);
    if err != 0 {
      out := ReleaseMapping(m);
      return false, out;
    }
    dev.DetachDevice();
    out := ReleaseMapping(m);
    attached := true;
  }
}
