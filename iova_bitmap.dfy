/** The bitmap IOVA range allocator of arch/arm64/mm/dma-mapping.c, as pure
    functions over the bitmap's contents: one bit per IOVA page, set while the
    page belongs to a live allocation. The in-place versions on the mapping's
    array are in module DmaMapping. */
module IovaBitmap {
  import opened PageMath

  /** CONFIG_ARM64_DMA_IOMMU_ALIGNMENT: the largest page order an IOVA range is
      aligned to. A Kconfig option whose definition is not part of this model;
      the value 9 is assumed. */
  const MaxAlignOrder: nat := 9

  // ---------------------------------------------------------------------
  // Runs of bits

  /** Bits [start, start + count) lie in the bitmap and are all clear. */
  predicate RunClear(bm: seq<bool>, start: nat, count: nat)
  {
    start + count <= |bm| && forall k :: start <= k < start + count ==> !bm[k]
  }

  /** Bits [start, start + count) lie in the bitmap and are all set. */
  predicate RunSet(bm: seq<bool>, start: nat, count: nat)
  {
    start + count <= |bm| && forall k :: start <= k < start + count ==> bm[k]
  }

  /** bitmap_set(map, start, count). */
  function SetRun(bm: seq<bool>, start: nat, count: nat): (r: seq<bool>)
    requires start + count <= |bm|
    ensures |r| == |bm|
    ensures forall k :: 0 <= k < |r| ==> r[k] == (bm[k] || start <= k < start + count)
  {
    bm[..start] + seq(count, _ => true) + bm[start + count..]
  }

  /** bitmap_clear(map, start, count). */
  function ClearRun(bm: seq<bool>, start: nat, count: nat): (r: seq<bool>)
    requires start + count <= |bm|
    ensures |r| == |bm|
    ensures forall k :: 0 <= k < |r| ==> r[k] == (bm[k] && !(start <= k < start + count))
  {
    bm[..start] + seq(count, _ => false) + bm[start + count..]
  }

  /** Clearing a run that was just set on clear bits gives back the bitmap. */
  lemma ClearUndoesSet(bm: seq<bool>, start: nat, count: nat)
    requires RunClear(bm, start, count)
    ensures ClearRun(SetRun(bm, start, count), start, count) == bm
  {
    var r := ClearRun(SetRun(bm, start, count), start, count);
    assert forall k :: 0 <= k < |bm| ==> r[k] == bm[k];
  }

  // ---------------------------------------------------------------------
  // bitmap_find_next_zero_area (lib/bitmap.c): the search __alloc_iova runs
  // under the mapping lock. The library is not part of this model; these
  // functions follow its algorithm step for step.

  /** find_next_zero_bit(map, size, from): the first clear bit at or after
      from, or the bitmap size when there is none. */
  function FirstZeroFrom(bm: seq<bool>, from: nat): (z: nat)
    requires from <= |bm|
    ensures from <= z <= |bm|
    ensures z < |bm| ==> !bm[z]
    ensures forall k :: from <= k < z ==> bm[k]
    decreases |bm| - from
  {
    if from == |bm| || !bm[from] then from else FirstZeroFrom(bm, from + 1)
  }

  /** find_next_bit(map, hi, lo): the first set bit in [lo, hi), or hi. */
  function FirstSetIn(bm: seq<bool>, lo: nat, hi: nat): (k: nat)
    requires lo <= hi <= |bm|
    ensures lo <= k <= hi
    ensures k < hi ==> bm[k]
    ensures forall t :: lo <= t < k ==> !bm[t]
    decreases hi - lo
  {
    if lo == hi || bm[lo] then lo else FirstSetIn(bm, lo + 1, hi)
  }

  /** bitmap_find_next_zero_area(map, |bm|, from, count, align - 1): the start
      of the first run of count clear bits whose start is a multiple of align.
      On failure it returns a value past the end of the bitmap, which is what
      __alloc_iova tests for. A result inside the bitmap is aligned and starts
      a clear run of count bits. */
  function ZeroArea(bm: seq<bool>, from: nat, count: nat, align: nat): (r: nat)
    requires from <= |bm| && align > 0
    ensures r <= |bm| ==> r % align == 0 && RunClear(bm, r, count)
    decreases |bm| - from
  {
    var index := AlignUp(FirstZeroFrom(bm, from), align);
    if index + count > |bm| then index + count
    else
      var i := FirstSetIn(bm, index, index + count);
      if i < index + count then ZeroArea(bm, i + 1, count, align) else index
  }

  /** First fit: for a non-empty request, no aligned start before the one
      found (or, on failure, no aligned start at all) has a clear run. */
  lemma {:induction false} ZeroAreaFirstFit(bm: seq<bool>, from: nat, count: nat, align: nat, c: nat)
    requires from <= |bm| && align > 0 && count > 0
    requires from <= c && c % align == 0
    requires c < ZeroArea(bm, from, count, align) || ZeroArea(bm, from, count, align) > |bm|
    ensures !RunClear(bm, c, count)
    decreases |bm| - from
  {
    var z := FirstZeroFrom(bm, from);
    var index := AlignUp(z, align);
    if c + count > |bm| {
      return;
    }
    if c < z {
      assert bm[c];
      return;
    }
    AlignUpLeast(z, align, c);
    if index + count > |bm| {
      assert false;
    }
    var i := FirstSetIn(bm, index, index + count);
    if i < index + count {
      if c <= i {
        assert bm[i];
      } else {
        var next := i + 1;
        assert next <= c && next <= |bm|;
        assert ZeroArea(bm, from, count, align) == ZeroArea(bm, next, count, align);
        ZeroAreaFirstFit(bm, next, count, align, c);
      }
    }
  }

  // ---------------------------------------------------------------------
  // The size arithmetic of __alloc_iova and __free_iova

  /** What __alloc_iova computes before searching: the page-aligned size, the
      guard length, the number of bitmap bits and the alignment order. */
  datatype IovaPlan = IovaPlan(size: nat, guard: nat, count: nat, order: nat)

  /** The guard that pads a page-aligned size up to min_iova_align (none when
      the errata alignment is off). */
  function GuardLen(size: nat, minAlign: nat): (g: nat)
    ensures minAlign == 0 ==> g == 0
    ensures minAlign > 0 ==> (size + g) % minAlign == 0 && g < minAlign
  {
    if minAlign != 0 then AlignUp(size, minAlign) - size else 0
  }

  function PlanAlloc(size: nat, minAlign: nat): IovaPlan
  {
    var sz := PageAlign(size);
    var guard := GuardLen(sz, minAlign);
    var order := GetOrder(sz + guard);
    IovaPlan(sz, guard, PageAlign(sz + guard) / PageSize, if order > MaxAlignOrder then MaxAlignOrder else order)
  }

  /** The plan of __alloc_iova: the size is rounded up to a page, the guard
      pads it to min_iova_align, count is the number of pages of both, and
      2^order pages hold them unless the order was capped. */
  lemma PlanAllocSound(size: nat, minAlign: nat)
    ensures var p := PlanAlloc(size, minAlign);
      p.size % PageSize == 0 && size <= p.size < size + PageSize &&
      p.guard == GuardLen(p.size, minAlign) &&
      p.count * PageSize == PageAlign(p.size + p.guard) &&
      p.order <= MaxAlignOrder &&
      (p.order == MaxAlignOrder || p.size + p.guard == 0 || p.size + p.guard <= PageSize * Pow2(p.order))
  {
    var p := PlanAlloc(size, minAlign);
    MultipleIs(PageAlign(p.size + p.guard), PageSize);
  }

  /** What __free_iova recomputes from the address and size it is given: the
      first bit and the number of bits to clear. */
  datatype IovaRun = IovaRun(start: nat, count: nat, guard: nat, size: nat)

  function PlanFree(addr: nat, size: nat, minAlign: nat, base: nat): IovaRun
    requires base <= PageBase(addr)
  {
    var sz := PageAlign(size);
    var guard := GuardLen(sz, minAlign);
    IovaRun((PageBase(addr) - base) / PageSize, (sz + guard) / PageSize, guard, sz)
  }

  /** The run __free_iova clears: from the page of addr, for the whole pages
      of the rounded size and guard (the shift truncates a partial page). */
  lemma PlanFreeSound(addr: nat, size: nat, minAlign: nat, base: nat)
    requires base <= PageBase(addr)
    ensures var f := PlanFree(addr, size, minAlign, base);
      f.size % PageSize == 0 && size <= f.size < size + PageSize &&
      f.guard == GuardLen(f.size, minAlign) &&
      f.start * PageSize <= PageBase(addr) - base < (f.start + 1) * PageSize &&
      f.count * PageSize <= f.size + f.guard < (f.count + 1) * PageSize
  {
    var f := PlanFree(addr, size, minAlign, base);
    var off := PageBase(addr) - base;
    DivModUnique(off, PageSize, off / PageSize, off % PageSize);
    DivModUnique(f.size + f.guard, PageSize, (f.size + f.guard) / PageSize, (f.size + f.guard) % PageSize);
  }

  /** __free_iova(base + start * PAGE_SIZE, size) recomputes exactly the run
      __alloc_iova(size) set, provided min_iova_align is a whole number of
      pages and the IOVA base is page aligned. */
  lemma FreeMatchesAlloc(size: nat, minAlign: nat, base: nat, start: nat)
    requires minAlign % PageSize == 0 && base % PageSize == 0
    ensures PageBase(base + start * PageSize) == base + start * PageSize
    ensures var p := PlanAlloc(size, minAlign);
      var f := PlanFree(base + start * PageSize, size, minAlign, base);
      f.start == start && f.count == p.count && f.guard == p.guard && f.size == p.size
  {
    var addr := base + start * PageSize;
    MultipleIs(base, PageSize);
    assert addr == (base / PageSize + start) * PageSize;
    MultipleMod(base / PageSize + start, PageSize);
    assert PageBase(addr) == addr;
    var p := PlanAlloc(size, minAlign);
    var f := PlanFree(addr, size, minAlign, base);
    PlanAllocSound(size, minAlign);
    PlanFreeSound(addr, size, minAlign, base);
    DivModUnique(addr - base, PageSize, start, 0);
    assert f.size == p.size;
    var g := p.guard;
    if minAlign > 0 {
      MultipleIs(p.size, PageSize);
      MultipleIs(minAlign, PageSize);
      PageMultipleAlign(p.size, minAlign);
    }
    assert (p.size + g) % PageSize == 0;
    MultipleIs(p.size + g, PageSize);
    DivModUnique(p.size + g, PageSize, (p.size + g) / PageSize, 0);
  }

  /** ALIGN of a page multiple to a page multiple stays a page multiple. */
  lemma PageMultipleAlign(x: nat, a: nat)
    requires x % PageSize == 0 && a > 0 && a % PageSize == 0
    ensures AlignUp(x, a) % PageSize == 0
  {
    var r := AlignUp(x, a);
    MultipleIs(r, a);
    MultipleIs(a, PageSize);
    assert r == (r / a) * ((a / PageSize) * PageSize);
    assert r == ((r / a) * (a / PageSize)) * PageSize;
    MultipleMod((r / a) * (a / PageSize), PageSize);
  }

  /** A found range starts on a 2^order page boundary relative to the IOVA
      base, so its address is aligned to PAGE_SIZE << order when the base is. */
  lemma AllocAligned(bm: seq<bool>, count: nat, order: nat, base: nat, s: nat)
    requires order <= MaxAlignOrder
    requires base % (PageSize * Pow2(MaxAlignOrder)) == 0
    requires s == ZeroArea(bm, 0, count, Pow2(order)) && s <= |bm|
    ensures (base + s * PageSize) % (PageSize * Pow2(order)) == 0
  {
    var a := Pow2(order);
    AlignedSum(base, s, order);
  }

  lemma AlignedSum(base: nat, s: nat, order: nat)
    requires order <= MaxAlignOrder
    requires base % (PageSize * Pow2(MaxAlignOrder)) == 0
    requires s % Pow2(order) == 0
    ensures (base + s * PageSize) % (PageSize * Pow2(order)) == 0
  {
    Pow2Divides(order, MaxAlignOrder);
    var u := BaseInUnits(base, Pow2(MaxAlignOrder), Pow2(order));
    AddUnits(base, s, Pow2(order), u);
  }

  lemma AddUnits(base: nat, s: nat, a: nat, u: nat)
    requires a > 0 && s % a == 0 && base == u * (PageSize * a)
    ensures (base + s * PageSize) % (PageSize * a) == 0
  {
    var t := s / a;
    MultipleIs(s, a);
    assert s * PageSize == (t * a) * PageSize;
    MulAssoc(t, a, PageSize);
    assert s * PageSize == t * (PageSize * a);
    DistribUnits(u, t, PageSize * a);
    MultipleMod(u + t, PageSize * a);
  }

  lemma DistribUnits(u: nat, t: nat, w: nat)
    ensures u * w + t * w == (u + t) * w
  {
  }

  lemma MulAssoc(x: nat, y: nat, z: nat)
    ensures (x * y) * z == x * (z * y)
  {
  }

  /** A multiple of PAGE_SIZE * big is a multiple of PAGE_SIZE * a when a divides big. */
  lemma BaseInUnits(base: nat, big: nat, a: nat) returns (u: nat)
    requires a > 0 && big > 0 && big % a == 0
    requires base % (PageSize * big) == 0
    ensures base == u * (PageSize * a)
  {
    var k := base / (PageSize * big);
    MultipleIs(base, PageSize * big);
    var m := big / a;
    MultipleIs(big, a);
    assert PageSize * big == (m * PageSize) * a by { MulAssoc(m, a, PageSize); }
    u := k * m;
    calc {
      base;
      k * (PageSize * big);
      k * ((m * PageSize) * a);
      { MulAssoc(k, m * PageSize, a); }
      (k * (m * PageSize)) * a;
      { MulAssoc(k, m, PageSize); }
      ((k * m) * PageSize) * a;
      { MulAssoc(k * m, PageSize, a); }
      u * (PageSize * a);
    }
  }

  // ---------------------------------------------------------------------
  // P1: live allocations never overlap

  /** Two runs of bits that share no bit. */
  predicate Disjoint(a: IovaRun, b: IovaRun)
  {
    a.start + a.count <= b.start || b.start + b.count <= a.start
  }

  /** The allocator invariant: every live run is non-empty and set in the
      bitmap, and no two live runs overlap. */
  predicate LiveRuns(bm: seq<bool>, live: seq<IovaRun>)
  {
    && (forall i :: 0 <= i < |live| ==> live[i].count > 0 && RunSet(bm, live[i].start, live[i].count))
    && (forall i, j :: 0 <= i < j < |live| ==> Disjoint(live[i], live[j]))
  }

  /** A run that __alloc_iova found clear and then set keeps the invariant. */
  lemma AllocKeepsLiveRuns(bm: seq<bool>, live: seq<IovaRun>, run: IovaRun)
    requires LiveRuns(bm, live)
    requires run.count > 0 && RunClear(bm, run.start, run.count)
    ensures LiveRuns(SetRun(bm, run.start, run.count), live + [run])
  {
    var bm' := SetRun(bm, run.start, run.count);
    var live' := live + [run];
    forall i | 0 <= i < |live|
      ensures Disjoint(live[i], run)
    {
      var r := live[i];
      // the later of the two starts: a bit both runs hold when they overlap
      var k := if r.start <= run.start then run.start else r.start;
      var bit := k < |bm| && bm[k];
      if !Disjoint(r, run) {
        assert false;
      }
    }
    assert forall i :: 0 <= i < |live'| ==> RunSet(bm', live'[i].start, live'[i].count);
  }

  /** Freeing one live run keeps every other live run set. */
  lemma FreeKeepsLiveRuns(bm: seq<bool>, live: seq<IovaRun>, i: nat)
    requires LiveRuns(bm, live) && i < |live|
    ensures LiveRuns(ClearRun(bm, live[i].start, live[i].count), live[..i] + live[i + 1..])
  {
    var bm' := ClearRun(bm, live[i].start, live[i].count);
    var live' := live[..i] + live[i + 1..];
    assert forall j :: 0 <= j < |live'| ==> live'[j] == (if j < i then live[j] else live[j + 1]);
    forall j | 0 <= j < |live'|
      ensures RunSet(bm', live'[j].start, live'[j].count)
    {
      var jj := if j < i then j else j + 1;
      assert Disjoint(live[jj], live[i]) || Disjoint(live[i], live[jj]);
    }
    forall a, b | 0 <= a < b < |live'|
      ensures Disjoint(live'[a], live'[b])
    {
      var aa := if a < i then a else a + 1;
      var bb := if b < i then b else b + 1;
      assert aa < bb;
    }
  }
}
