/** __iommu_alloc_buffer and __iommu_free_buffer of
    arch/arm64/mm/dma-mapping.c: filling an array of page pointers with
    chunks of the largest page order the IOMMU maps and the remaining count
    allows, retrying lower orders when the page allocator refuses, and
    freeing what was allocated on failure. The page allocator
    (alloc_pages, dma_alloc_from_contiguous) is a parameter: grant(slot,
    order) is what alloc_pages returns when asked for 2^order pages to put at
    slot; split_page is the arithmetic it allows on the pointers. */
module DmaBuffer {
  import opened PageMath
  import opened DmaFlags
  import opened DmaMapping

  /** MAX_ORDER of an arm64 kernel with 4 KiB pages: order_mask keeps the
      orders 0..MAX_ORDER, the bits of (2U << MAX_ORDER) - 1. */
  const MaxOrder: nat := 11

  // ---------------------------------------------------------------------
  // Order masks, as sets of page orders

  /** Every order of the mask is one the page allocator is asked for. */
  predicate Bounded(mask: set<nat>)
  {
    forall k :: k in mask ==> k <= MaxOrder
  }

  /** (pgsize_bitmap >> PAGE_SHIFT) & ((2U << MAX_ORDER) - 1). */
  function OrderMask(pgsizeOrders: set<nat>): (mask: set<nat>)
    ensures Bounded(mask)
    ensures forall k :: k in mask <==> k in pgsizeOrders && k <= MaxOrder
  {
    set k | k in pgsizeOrders && k <= MaxOrder
  }

  /** order_mask &= (2U << __fls(count)) - 1: the orders not above the top bit
      of count. */
  function Narrow(mask: set<nat>, count: nat): (m: set<nat>)
    requires count > 0
    ensures m <= mask
  {
    set k | k in mask && k < Fls(count)
  }

  /** An order survives the narrowing exactly when its chunk fits the pages
      still needed. */
  lemma NarrowFits(mask: set<nat>, count: nat, k: nat)
    requires count > 0
    ensures k in Narrow(mask, count) <==> k in mask && Pow2(k) <= count
  {
    var f := Fls(count);
    if k < f {
      Pow2Divides(k, f - 1);
    } else {
      Pow2Divides(f, k);
    }
  }

  /** A non-empty set of orders has a largest one. */
  lemma {:induction false} LargestExists(mask: set<nat>) returns (k: nat)
    requires mask != {}
    ensures k in mask && forall j :: j in mask ==> j <= k
    decreases |mask|
  {
    var x :| x in mask;
    var rest := mask - {x};
    if rest == {} {
      k := x;
      forall j | j in mask
        ensures j <= k
      {
        assert j in rest || j == x;
      }
    } else {
      var y := LargestExists(rest);
      k := if x <= y then y else x;
      forall j | j in mask
        ensures j <= k
      {
        if j != x {
          assert j in rest;
        }
      }
    }
  }

  /** __fls(order_mask) on a non-empty mask: its largest order. */
  function Highest(mask: set<nat>): (k: nat)
    requires mask != {}
    ensures k in mask && forall j :: j in mask ==> j <= k
  {
    assert exists k: nat :: k in mask && forall j :: j in mask ==> j <= k by {
      var k := LargestExists(mask);
    }
    var k: nat :| k in mask && forall j :: j in mask ==> j <= k;
    k
  }

  // ---------------------------------------------------------------------
  // The chunks the allocation loop obtains

  /** 2^order pages from pfn, as alloc_pages returned them. */
  datatype Chunk = Chunk(pfn: nat, order: nat)

  /** The inner retry loop at one slot, starting from an attempt at order:
      while the page allocator refuses and the order is above 0, the order
      is dropped from the mask and the highest remaining one is tried. An
      empty mask ends the retries with no page. Returns the page (or none),
      the last order tried and the mask left. */
  function Retry(mask: set<nat>, order: nat, slot: nat, grant: (nat, nat) -> PageRef): (r: (PageRef, nat, set<nat>))
    requires order in mask && forall j :: j in mask ==> j <= order
    ensures r.1 in mask && r.2 <= mask && r.1 <= order
    ensures r.0 == grant(slot, r.1)
    ensures r.0.Page? ==> r.1 in r.2 && forall j :: j in r.2 ==> j <= r.1
    decreases |mask|
  {
    var pg := grant(slot, order);
    if pg.Page? || order == 0 then
      (pg, order, mask)
    else
      var m := mask - {order};
      if m == {} then (NoPage, order, m)
      else Retry(m, Highest(m), slot, grant)
  }

  /** Every order the retries dropped was refused by the page allocator at
      this slot, and is above the order they ended on. */
  lemma {:induction false} RetryDropsRefused(mask: set<nat>, order: nat, slot: nat, grant: (nat, nat) -> PageRef, j: nat)
    requires order in mask && forall i :: i in mask ==> i <= order
    requires j in mask && j !in Retry(mask, order, slot, grant).2
    ensures grant(slot, j).NoPage? && j >= Retry(mask, order, slot, grant).1
    decreases |mask|
  {
    var m := mask - {order};
    if j != order && m != {} {
      RetryDropsRefused(m, Highest(m), slot, grant, j);
    }
  }

  /** What one pass of the outer loop obtains at a slot. FlsOfZero is the
      pass the C code takes __fls of an empty order mask in: after narrowing
      to the orders that fit, or after the retries have dropped every order. */
  datatype Pick = Got(pfn: nat, order: nat, mask: set<nat>) | Refused | FlsOfZero

  /** One pass of the outer loop at slot with count pages still needed:
      narrow the mask to the orders that fit, then try from the highest. */
  function PickAt(mask: set<nat>, count: nat, slot: nat, grant: (nat, nat) -> PageRef): (p: Pick)
    requires count > 0
    ensures p.Got? ==> p.order in mask && p.mask <= mask
    ensures p.Got? ==> Pow2(p.order) <= count && grant(slot, p.order) == Page(p.pfn)
  {
    var m := Narrow(mask, count);
    if m == {} then FlsOfZero
    else
      var r := Retry(m, Highest(m), slot, grant);
      if r.0.Page? then
        NarrowFits(mask, count, r.1);
        Got(r.0.pfn, r.1, r.2)
      else if r.2 == {} then FlsOfZero
      else Refused
  }

  /** What the allocation loop ends with: whether every slot was filled, and
      the chunks obtained, in slot order. */
  datatype Fill = Fill(ok: bool, chunks: seq<Chunk>)

  /** The outer loop from slot with count pages still needed and the mask as
      it stands. A pass that would take __fls of an empty mask fails the
      allocation instead. */
  function FillFrom(slot: nat, count: nat, mask: set<nat>, grant: (nat, nat) -> PageRef): (f: Fill)
    decreases count, 1
  {
    if count == 0 then Fill(true, [])
    else FillAfter(PickAt(mask, count, slot, grant), slot, count, grant)
  }

  /** The rest of a pass once p was picked: the chunk, then the loop from
      the slot after it. */
  function FillAfter(p: Pick, slot: nat, count: nat, grant: (nat, nat) -> PageRef): (f: Fill)
    requires p.Got? ==> 0 < Pow2(p.order) <= count
    decreases count, 0
  {
    if p.Got? then
      var rest := FillFrom(slot + Pow2(p.order), count - Pow2(p.order), p.mask, grant);
      Fill(rest.ok, [Chunk(p.pfn, p.order)] + rest.chunks)
    else Fill(false, [])
  }

  /** The outer loop as written: Undefined where it evaluates __fls(0), whose
      value the kernel leaves undefined. */
  datatype Outcome = Defined(fill: Fill) | Undefined

  function FillAsWritten(slot: nat, count: nat, mask: set<nat>, grant: (nat, nat) -> PageRef): (o: Outcome)
    decreases count, 1
  {
    if count == 0 then Defined(Fill(true, []))
    else AsWrittenAfter(PickAt(mask, count, slot, grant), slot, count, grant)
  }

  /** The rest of a pass as written once p was picked. */
  function AsWrittenAfter(p: Pick, slot: nat, count: nat, grant: (nat, nat) -> PageRef): (o: Outcome)
    requires p.Got? ==> 0 < Pow2(p.order) <= count
    decreases count, 0
  {
    if p.Got? then
      var rest := FillAsWritten(slot + Pow2(p.order), count - Pow2(p.order), p.mask, grant);
      if rest.Undefined? then Undefined
      else Defined(Fill(rest.fill.ok, [Chunk(p.pfn, p.order)] + rest.fill.chunks))
    else if p.Refused? then Defined(Fill(false, []))
    else Undefined
  }

  /** When no order of the mask fits the pages still needed, the narrowed
      mask is empty and the code as written takes __fls(0). */
  lemma NoFitReachesFlsOfZero(slot: nat, count: nat, mask: set<nat>, grant: (nat, nat) -> PageRef)
    requires count > 0
    requires forall k :: k in mask ==> Pow2(k) > count
    ensures FillAsWritten(slot, count, mask, grant) == Undefined
  {
    forall k | k in Narrow(mask, count)
      ensures false
    {
      NarrowFits(mask, count, k);
    }
    assert PickAt(mask, count, slot, grant) == FlsOfZero;
  }

  /** When the only order that fits is refused, the retry drops it, leaves
      the mask empty and the code as written takes __fls(0). */
  lemma LastOrderRefusedReachesFlsOfZero(slot: nat, count: nat, mask: set<nat>, grant: (nat, nat) -> PageRef, k: nat)
    requires count > 0
    requires k in mask && k > 0 && Pow2(k) <= count && grant(slot, k).NoPage?
    requires forall j :: j in mask && j != k ==> Pow2(j) > count
    ensures FillAsWritten(slot, count, mask, grant) == Undefined
  {
    var m := Narrow(mask, count);
    NarrowFits(mask, count, k);
    forall j | j in m
      ensures j == k
    {
      NarrowFits(mask, count, j);
    }
    assert m == {k};
    assert m - {k} == {};
    assert Retry(m, Highest(m), slot, grant) == (NoPage, k, {});
    assert PickAt(mask, count, slot, grant) == FlsOfZero;
  }

  /** An IOMMU whose smallest page is 64 KiB (order 4) and a one-page
      buffer: the code as written reaches __fls(0). */
  lemma OnePageOn64KReachesFlsOfZero(grant: (nat, nat) -> PageRef)
    ensures FillAsWritten(0, 1, OrderMask({4, 13}), grant) == Undefined
  {
    var mask := OrderMask({4, 13});
    assert mask == {4};
    assert Pow2(4) == 16;
    NoFitReachesFlsOfZero(0, 1, mask, grant);
  }

  /** The same IOMMU and a sixteen-page buffer when the page allocator has
      no 64 KiB block: the retry drops order 4 and reaches __fls(0). */
  lemma RefusedBlockOn64KReachesFlsOfZero(grant: (nat, nat) -> PageRef)
    requires grant(0, 4).NoPage?
    ensures FillAsWritten(0, 16, OrderMask({4, 13}), grant) == Undefined
  {
    var mask := OrderMask({4, 13});
    assert mask == {4};
    assert Pow2(4) == 16;
    LastOrderRefusedReachesFlsOfZero(0, 16, mask, grant, 4);
  }

  /** The corrected loop agrees with the code as written wherever the latter
      is defined, and fails the allocation where it is not. */
  lemma {:induction false} AsWrittenAgrees(slot: nat, count: nat, mask: set<nat>, grant: (nat, nat) -> PageRef)
    ensures var o := FillAsWritten(slot, count, mask, grant);
      (o.Defined? ==> o.fill == FillFrom(slot, count, mask, grant)) &&
      (o.Undefined? ==> !FillFrom(slot, count, mask, grant).ok)
    decreases count, 1
  {
    if count > 0 {
      AfterAgrees(PickAt(mask, count, slot, grant), slot, count, grant);
    }
  }

  /** AsWrittenAgrees for the rest of a pass once p was picked. */
  lemma {:induction false} AfterAgrees(p: Pick, slot: nat, count: nat, grant: (nat, nat) -> PageRef)
    requires p.Got? ==> 0 < Pow2(p.order) <= count
    ensures var o := AsWrittenAfter(p, slot, count, grant);
      (o.Defined? ==> o.fill == FillAfter(p, slot, count, grant)) &&
      (o.Undefined? ==> !FillAfter(p, slot, count, grant).ok)
    decreases count, 0
  {
    if p.Got? {
      AsWrittenAgrees(slot + Pow2(p.order), count - Pow2(p.order), p.mask, grant);
    }
  }

  /** The number of pages a list of chunks holds. */
  function Pages(chunks: seq<Chunk>): nat
  {
    if chunks == [] then 0 else Pow2(chunks[0].order) + Pages(chunks[1..])
  }

  /** The pointers one chunk puts in the array once split_page has made its
      pages separate: pages[i + j] = pages[i] + j. */
  function Split(c: Chunk): (s: seq<PageRef>)
    ensures |s| == Pow2(c.order)
    ensures forall j :: 0 <= j < |s| ==> s[j] == Page(c.pfn + j)
  {
    seq(Pow2(c.order), j requires 0 <= j => Page(c.pfn + j))
  }

  /** The page pointers a list of chunks puts in the array. */
  function Expand(chunks: seq<Chunk>): (s: seq<PageRef>)
    ensures |s| == Pages(chunks)
  {
    if chunks == [] then [] else Split(chunks[0]) + Expand(chunks[1..])
  }

  /** The allocation loop's promise on the count: on success the chunks
      hold exactly count pages, on failure fewer. */
  lemma {:induction false} FillCount(slot: nat, count: nat, mask: set<nat>, grant: (nat, nat) -> PageRef)
    ensures var f := FillFrom(slot, count, mask, grant);
      (f.ok ==> Pages(f.chunks) == count) && (!f.ok ==> Pages(f.chunks) < count)
    decreases count, 1
  {
    if count > 0 {
      var p := PickAt(mask, count, slot, grant);
      assert FillFrom(slot, count, mask, grant) == FillAfter(p, slot, count, grant);
      FillAfterCount(p, slot, count, grant);
    } else {
      assert FillFrom(slot, count, mask, grant) == Fill(true, []);
    }
  }

  lemma {:induction false} FillAfterCount(p: Pick, slot: nat, count: nat, grant: (nat, nat) -> PageRef)
    requires count > 0 && (p.Got? ==> Pow2(p.order) <= count)
    ensures var f := FillAfter(p, slot, count, grant);
      (f.ok ==> Pages(f.chunks) == count) && (!f.ok ==> Pages(f.chunks) < count)
    decreases count, 0
  {
    if p.Got? {
      var rest := FillFrom(slot + Pow2(p.order), count - Pow2(p.order), p.mask, grant);
      FillCount(slot + Pow2(p.order), count - Pow2(p.order), p.mask, grant);
      var chunks := [Chunk(p.pfn, p.order)] + rest.chunks;
      assert chunks[1..] == rest.chunks;
    }
  }

  /** The allocation loop's promise on the orders: each chunk's order is one
      the IOMMU maps, from the mask it started with. */
  lemma {:induction false} FillOrders(slot: nat, count: nat, mask: set<nat>, grant: (nat, nat) -> PageRef)
    ensures forall i :: 0 <= i < |FillFrom(slot, count, mask, grant).chunks| ==>
      FillFrom(slot, count, mask, grant).chunks[i].order in mask
    decreases count, 1
  {
    if count > 0 {
      var p := PickAt(mask, count, slot, grant);
      assert FillFrom(slot, count, mask, grant) == FillAfter(p, slot, count, grant);
      FillAfterOrders(p, slot, count, mask, grant);
    } else {
      assert FillFrom(slot, count, mask, grant).chunks == [];
    }
  }

  lemma {:induction false} FillAfterOrders(p: Pick, slot: nat, count: nat, mask: set<nat>, grant: (nat, nat) -> PageRef)
    requires count > 0 && (p.Got? ==> Pow2(p.order) <= count && p.order in mask && p.mask <= mask)
    ensures var f := FillAfter(p, slot, count, grant);
      forall i :: 0 <= i < |f.chunks| ==> f.chunks[i].order in mask
    decreases count, 0
  {
    if p.Got? {
      var rest := FillFrom(slot + Pow2(p.order), count - Pow2(p.order), p.mask, grant);
      FillOrders(slot + Pow2(p.order), count - Pow2(p.order), p.mask, grant);
      var chunks := [Chunk(p.pfn, p.order)] + rest.chunks;
      forall i | 0 <= i < |chunks|
        ensures chunks[i].order in mask
      {
        if i > 0 {
          assert chunks[i] == rest.chunks[i - 1];
          assert rest.chunks[i - 1].order in p.mask;
        }
      }
    }
  }

  /** Largest fit: the first chunk's order is below an order of the mask
      that fits only when the page allocator refused that order at this
      slot. */
  lemma FirstChunkLargest(slot: nat, count: nat, mask: set<nat>, grant: (nat, nat) -> PageRef, k: nat)
    requires count > 0
    requires k in mask && Pow2(k) <= count
    requires var p := PickAt(mask, count, slot, grant); p.Got? && p.order < k
    ensures grant(slot, k).NoPage?
  {
    NarrowFits(mask, count, k);
    var m := Narrow(mask, count);
    var r := Retry(m, Highest(m), slot, grant);
    RetryDropsRefused(m, Highest(m), slot, grant, k);
  }

  /** The loop's state after some chunks, as the rest of the whole allocation. */
  function Join(done: seq<Chunk>, rest: Fill): Fill
  {
    Fill(rest.ok, done + rest.chunks)
  }

  lemma {:induction false} ExpandAppend(a: seq<Chunk>, b: seq<Chunk>)
    ensures Expand(a + b) == Expand(a) + Expand(b)
    decreases |a|
  {
    if a != [] {
      assert (a + b)[0] == a[0];
      assert (a + b)[1..] == a[1..] + b;
      ExpandAppend(a[1..], b);
      assert Expand(a + b) == Split(a[0]) + Expand(a[1..] + b);
      assert Expand(a) == Split(a[0]) + Expand(a[1..]);
    } else {
      assert a + b == b;
    }
  }

  /** Every slot a list of chunks fills holds a page. */
  lemma {:induction false} ExpandAllPages(chunks: seq<Chunk>)
    ensures forall i :: 0 <= i < |Expand(chunks)| ==> Expand(chunks)[i].Page?
  {
    if chunks != [] {
      ExpandAllPages(chunks[1..]);
      var e := Expand(chunks);
      var h := Split(chunks[0]);
      forall i | 0 <= i < |e|
        ensures e[i].Page?
      {
        if i >= |h| {
          assert e[i] == Expand(chunks[1..])[i - |h|];
        }
      }
    }
  }

  /** The cache maintenance __dma_clear_buffer does on each chunk. */
  function ClearOps(chunks: seq<Chunk>, attrs: set<Attr>, coherent: bool): seq<CacheOp>
  {
    if chunks == [] then []
    else ClearBufferOps(chunks[0].pfn, PageSize * Pow2(chunks[0].order), attrs, coherent)
         + ClearOps(chunks[1..], attrs, coherent)
  }

  lemma {:induction false} ClearOpsAppend(a: seq<Chunk>, b: seq<Chunk>, attrs: set<Attr>, coherent: bool)
    ensures ClearOps(a + b, attrs, coherent) == ClearOps(a, attrs, coherent) + ClearOps(b, attrs, coherent)
    decreases |a|
  {
    if a != [] {
      assert (a + b)[0] == a[0];
      assert (a + b)[1..] == a[1..] + b;
      ClearOpsAppend(a[1..], b, attrs, coherent);
      var h := ClearBufferOps(a[0].pfn, PageSize * Pow2(a[0].order), attrs, coherent);
      assert ClearOps(a + b, attrs, coherent) == h + ClearOps(a[1..] + b, attrs, coherent);
      assert ClearOps(a, attrs, coherent) == h + ClearOps(a[1..], attrs, coherent);
    } else {
      assert a + b == b;
    }
  }

  // ---------------------------------------------------------------------
  // Freeing

  /** The page frames of the non-NULL pointers, from the last to the first:
      the order of the error path's while (i--) loop. */
  function FreeOrder(s: seq<PageRef>): (freed: seq<nat>)
    ensures |freed| <= |s|
  {
    if s == [] then []
    else FreeOrder(s[1..]) + (if s[0].Page? then [s[0].pfn] else [])
  }

  /** The page frames of the non-NULL pointers, first to last: the order of
      __iommu_free_buffer. */
  function Frames(s: seq<PageRef>): (frames: seq<nat>)
    ensures |frames| <= |s|
  {
    if s == [] then []
    else Frames(s[..|s| - 1]) + (if s[|s| - 1].Page? then [s[|s| - 1].pfn] else [])
  }

  /** An array whose slots all hold pages gives back each of them once, in
      slot order, through the free loop of __iommu_free_buffer. */
  lemma {:induction false} FramesOfFull(s: seq<PageRef>)
    requires forall i :: 0 <= i < |s| ==> s[i].Page?
    ensures |Frames(s)| == |s|
    ensures forall i :: 0 <= i < |s| ==> Frames(s)[i] == s[i].pfn
  {
    if s != [] {
      FramesOfFull(s[..|s| - 1]);
    }
  }

  /** The error path gives back the same frames in the opposite order. */
  lemma {:induction false} FreeOrderReverses(s: seq<PageRef>)
    ensures |FreeOrder(s)| == |Frames(s)|
    ensures forall i :: 0 <= i < |Frames(s)| ==> FreeOrder(s)[i] == Frames(s)[|Frames(s)| - 1 - i]
  {
    if s != [] {
      // Frames from the front, so that it meets FreeOrder's recursion.
      FreeOrderReverses(s[1..]);
      FramesCons(s);
      var head: seq<nat> := if s[0].Page? then [s[0].pfn] else [];
      var a := FreeOrder(s[1..]);
      var b := Frames(s[1..]);
      assert FreeOrder(s) == a + head;
      assert Frames(s) == head + b;
      forall i | 0 <= i < |Frames(s)|
        ensures FreeOrder(s)[i] == Frames(s)[|Frames(s)| - 1 - i]
      {
        if i < |a| {
          assert FreeOrder(s)[i] == a[i];
          assert Frames(s)[|Frames(s)| - 1 - i] == b[|b| - 1 - i];
        }
      }
    }
  }

  /** Frames peels off the first slot as well as the last. */
  lemma {:induction false} FramesCons(s: seq<PageRef>)
    requires s != []
    ensures Frames(s) == (if s[0].Page? then [s[0].pfn] else []) + Frames(s[1..])
    decreases |s|
  {
    if |s| > 1 {
      var t := s[..|s| - 1];
      FramesCons(t);
      assert t[1..] == s[1..][..|s| - 2];
      assert t[0] == s[0];
    } else {
      assert s[1..] == [];
      assert s[..0] == [];
    }
  }

  /** What the page array of a successful allocation gives back: through
      __iommu_free_buffer, every page in slot order; through the error
      path's loop, the same pages in the opposite order. */
  lemma FilledArrayFrees(chunks: seq<Chunk>)
    ensures var s := Expand(chunks);
      |Frames(s)| == |s| == Pages(chunks) &&
      (forall i :: 0 <= i < |s| ==> s[i].Page? && Frames(s)[i] == s[i].pfn) &&
      |FreeOrder(s)| == |s| &&
      (forall i :: 0 <= i < |s| ==> s[|s| - 1 - i].Page? && FreeOrder(s)[i] == s[|s| - 1 - i].pfn)
  {
    var s := Expand(chunks);
    ExpandAllPages(chunks);
    FramesOfFull(s);
    FreeOrderReverses(s);
  }

  /** dma_alloc_from_contiguous's pages, one pointer per slot. */
  function Contiguous(pfn: nat, count: nat): (s: seq<PageRef>)
    ensures |s| == count
    ensures forall i :: 0 <= i < count ==> s[i] == Page(pfn + i)
  {
    seq(count, i requires 0 <= i => Page(pfn + i))
  }

  // ---------------------------------------------------------------------
  // The two functions

  /** The retry loop of __iommu_alloc_buffer at one slot, from the first
      attempt at order0. */
  method RetrySlot(mask0: set<nat>, order0: nat, slot: nat, grant: (nat, nat) -> PageRef)
    returns (pg: PageRef, order: nat, mask: set<nat>)
    requires order0 in mask0 && forall j :: j in mask0 ==> j <= order0
    ensures (pg, order, mask) == Retry(mask0, order0, slot, grant)
  {
    mask, order := mask0, order0;
    pg := grant(slot, order);
    while pg.NoPage? && order > 0
      invariant order in mask && forall j :: j in mask ==> j <= order
      invariant pg == grant(slot, order)
      invariant Retry(mask0, order0, slot, grant) == Retry(mask, order, slot, grant)
      decreases |mask|
    {
      mask := mask - {order};
      if mask == {} {
        return NoPage, order, mask;
      }
      order := Highest(mask);
      pg := grant(slot, order);
    }
  }

  /** split_page and the loop after it: the chunk's pages go to the slots
      from i on. */
  method PlaceChunk(pages: array<PageRef>, i: nat, c: Chunk)
    requires i + Pow2(c.order) <= pages.Length
    modifies pages
    ensures pages[..i + Pow2(c.order)] == old(pages[..i]) + Split(c)
    ensures forall t :: 0 <= t < pages.Length && !(i <= t < i + Pow2(c.order)) ==> pages[t] == old(pages[t])
  {
    var n := Pow2(c.order);
    pages[i] := Page(c.pfn);
    var j := n;
    while j > 1
      invariant 1 <= j <= n
      invariant forall t :: 0 <= t < pages.Length && !(i <= t < i + n) ==> pages[t] == old(pages[t])
      invariant pages[i] == Page(c.pfn)
      invariant forall t :: i + j <= t < i + n ==> pages[t] == Page(c.pfn + (t - i))
    {
      j := j - 1;
      pages[i + j] := Page(c.pfn + j);
    }
    assert pages[..i + n] == old(pages[..i]) + Split(c);
  }

  /** One pass of the outer loop, as the method computes it: the narrowed
      mask, then the retries from its highest order. */
  lemma PassUnfolds(mask: set<nat>, left: nat, slot: nat, grant: (nat, nat) -> PageRef,
                    pg: PageRef, order: nat, rest: set<nat>)
    requires left > 0 && Narrow(mask, left) != {}
    requires (pg, order, rest) == Retry(Narrow(mask, left), Highest(Narrow(mask, left)), slot, grant)
    ensures pg.NoPage? ==> FillFrom(slot, left, mask, grant) == Fill(false, [])
    ensures pg.Page? ==> Pow2(order) <= left
    ensures pg.Page? ==>
      var tail := FillFrom(slot + Pow2(order), left - Pow2(order), rest, grant);
      FillFrom(slot, left, mask, grant) == Fill(tail.ok, [Chunk(pg.pfn, order)] + tail.chunks)
  {
    var p := PickAt(mask, left, slot, grant);
    assert FillFrom(slot, left, mask, grant) == FillAfter(p, slot, left, grant);
    if pg.Page? {
      assert p == Got(pg.pfn, order, rest);
    }
  }

  /** A pass whose narrowed mask is empty ends the loop with a failure. */
  lemma EmptyPassFails(mask: set<nat>, left: nat, slot: nat, grant: (nat, nat) -> PageRef)
    requires left > 0 && Narrow(mask, left) == {}
    ensures FillFrom(slot, left, mask, grant) == Fill(false, [])
  {
    assert PickAt(mask, left, slot, grant) == FlsOfZero;
    assert FillFrom(slot, left, mask, grant) == FillAfter(FlsOfZero, slot, left, grant);
  }

  /** One pass of the outer loop at slot: narrow the mask to the orders that
      fit, then allocate from the highest, retrying lower ones. got says
      whether a chunk of 2^order pages from pfn was obtained. */
  method Pass(mask: set<nat>, left: nat, slot: nat, grant: (nat, nat) -> PageRef)
    returns (got: bool, pfn: nat, order: nat, nextSlot: nat, nextLeft: nat, next: set<nat>, ghost tail: Fill)
    requires left > 0
    ensures !got ==> FillFrom(slot, left, mask, grant) == Fill(false, [])
    ensures got ==> nextSlot == slot + Pow2(order) && nextLeft + Pow2(order) == left
    ensures got ==> tail == FillFrom(nextSlot, nextLeft, next, grant)
    ensures got ==> FillFrom(slot, left, mask, grant) == Fill(tail.ok, [Chunk(pfn, order)] + tail.chunks)
  {
    var m := Narrow(mask, left);
    if m == {} {
      EmptyPassFails(mask, left, slot, grant);
      return false, 0, 0, 0, 0, {}, Fill(false, []);
    }
    var pg;
    pg, order, next := RetrySlot(m, Highest(m), slot, grant);
    PassUnfolds(mask, left, slot, grant, pg, order, next);
    if pg.NoPage? {
      return false, 0, 0, 0, 0, {}, Fill(false, []);
    }
    var n := Pow2(order);
    return true, pg.pfn, order, slot + n, left - n, next, FillFrom(slot + n, left - n, next, grant);
  }

  /** The outer loop of __iommu_alloc_buffer over a zeroed page array,
      proved against FillFrom: i slots are filled, with the pages of the
      chunks obtained, and ok says whether every slot was. */
  method FillLoop(arr: array<PageRef>, mask0: set<nat>, attrs: set<Attr>, coherent: bool,
                  grant: (nat, nat) -> PageRef)
    returns (i: nat, ok: bool, ops: seq<CacheOp>)
    requires forall t :: 0 <= t < arr.Length ==> arr[t] == NoPage
    modifies arr
    ensures var f := FillFrom(0, arr.Length, mask0, grant);
      ok == f.ok && i == Pages(f.chunks) && i <= arr.Length && (ok ==> i == arr.Length) &&
      arr[..i] == Expand(f.chunks) && ops == ClearOps(f.chunks, attrs, coherent)
  {
    var count := arr.Length;
    var mask := mask0;
    ghost var whole := FillFrom(0, count, mask0, grant);
    ghost var done: seq<Chunk> := [];
    ghost var rest := whole;
    var left: nat := count;
    i, ok, ops := 0, true, [];
    assert [] + rest.chunks == rest.chunks;
    while left > 0
      invariant i + left == count
      invariant rest == FillFrom(i, left, mask, grant)
      invariant whole == Join(done, rest)
      invariant i == Pages(done)
      invariant arr[..i] == Expand(done)
      invariant forall t :: i <= t < count ==> arr[t] == NoPage
      invariant ops == ClearOps(done, attrs, coherent)
    {
      var got, pfn, order, nextSlot, nextLeft, next, tail := Pass(mask, left, i, grant);
      if !got {
        assert done + [] == done;
        return i, false, ops;
      }
      var c := Chunk(pfn, order);
      PlaceChunk(arr, i, c);
      ops := ops + ClearBufferOps(c.pfn, PageSize * Pow2(order), attrs, coherent);
      ChunkStep(done, c, tail, attrs, coherent);
      done, rest := done + [c], tail;
      i, left, mask := nextSlot, nextLeft, next;
    }
    assert rest == Fill(true, []);
    assert done + [] == done;
  }

  /** What one more chunk does to the loop's bookkeeping. */
  lemma ChunkStep(done: seq<Chunk>, c: Chunk, tail: Fill, attrs: set<Attr>, coherent: bool)
    ensures Join(done, Fill(tail.ok, [c] + tail.chunks)) == Join(done + [c], tail)
    ensures Pages(done + [c]) == Pages(done) + Pow2(c.order)
    ensures Expand(done + [c]) == Expand(done) + Split(c)
    ensures ClearOps(done + [c], attrs, coherent) ==
      ClearOps(done, attrs, coherent) + ClearBufferOps(c.pfn, PageSize * Pow2(c.order), attrs, coherent)
  {
    assert (done + [c]) + tail.chunks == done + ([c] + tail.chunks);
    PagesAppend(done, c);
    ExpandAppend(done, [c]);
    assert Expand([c]) == Split(c) + Expand([]);
    ClearOpsAppend(done, [c], attrs, coherent);
    assert ClearOps([c], attrs, coherent) ==
      ClearBufferOps(c.pfn, PageSize * Pow2(c.order), attrs, coherent) + ClearOps([], attrs, coherent);
  }

  lemma {:induction false} PagesAppend(chunks: seq<Chunk>, c: Chunk)
    ensures Pages(chunks + [c]) == Pages(chunks) + Pow2(c.order)
  {
    if chunks != [] {
      assert (chunks + [c])[1..] == chunks[1..] + [c];
      PagesAppend(chunks[1..], c);
    } else {
      assert [c][1..] == [];
    }
  }

  /** The error path's while (i--) loop over the first i slots. */
  method FreeBackwards(arr: array<PageRef>, i: nat) returns (freed: seq<nat>)
    requires i <= arr.Length
    ensures freed == FreeOrder(arr[..i])
  {
    freed := [];
    var k := i;
    while k > 0
      invariant 0 <= k <= i
      invariant freed == FreeOrder(arr[k..i])
    {
      k := k - 1;
      assert arr[k..i][1..] == arr[k + 1..i];
      if arr[k].Page? {
        freed := freed + [arr[k].pfn];
      }
    }
    assert arr[0..i] == arr[..i];
  }

  /** The outcome of __iommu_alloc_buffer: the array it returns, or NULL. */
  datatype Buffer = NoBuffer | Filled(pages: seq<PageRef>)

  /** The array __iommu_alloc_buffer returns for size bytes: the CMA region
      page by page when the buffer must be contiguous, otherwise the chunks
      the order-by-order loop obtains, when it obtains enough. Every slot of
      a returned array holds a page. */
  function BufferOf(size: nat, attrs: set<Attr>, pgsizeOrders: set<nat>, arrayOk: bool, cma: PageRef,
                    grant: (nat, nat) -> PageRef): (b: Buffer)
    ensures b.Filled? ==> |b.pages| == size / PageSize && forall i :: 0 <= i < |b.pages| ==> b.pages[i].Page?
  {
    var count := size / PageSize;
    if !arrayOk then NoBuffer
    else if ForceContiguous in attrs then
      if cma.NoPage? then NoBuffer else Filled(Contiguous(cma.pfn, count))
    else
      var mask := OrderMask(pgsizeOrders);
      if mask == {} then NoBuffer
      else
        var f := FillFrom(0, count, mask, grant);
        FillCount(0, count, mask, grant);
        ExpandAllPages(f.chunks);
        if f.ok then Filled(Expand(f.chunks)) else NoBuffer
  }

  /** __iommu_alloc_buffer for size bytes. arrayOk says whether kzalloc or
      vzalloc gave the page array; cma is what dma_alloc_from_contiguous
      returns; grant answers alloc_pages. Returns the page array (null where
      the C code returns NULL), the frames its error path gives back, in the
      order given back, and the cache maintenance of __dma_clear_buffer. */
  method AllocBuffer(size: nat, attrs: set<Attr>, coherent: bool, pgsizeOrders: set<nat>,
                     arrayOk: bool, cma: PageRef, grant: (nat, nat) -> PageRef)
    returns (pages: array?<PageRef>, freed: seq<nat>, ops: seq<CacheOp>)
    ensures pages != null ==> fresh(pages) && pages.Length == size / PageSize
    ensures var b := BufferOf(size, attrs, pgsizeOrders, arrayOk, cma, grant);
      (pages == null <==> b.NoBuffer?) && (pages != null ==> pages[..] == b.pages)
    ensures !arrayOk ==> pages == null && freed == [] && ops == []
    ensures arrayOk && ForceContiguous in attrs ==>
      freed == [] &&
      (cma.NoPage? ==> pages == null && ops == []) &&
      (cma.Page? ==> pages != null && pages[..] == Contiguous(cma.pfn, size / PageSize) &&
                     ops == ClearBufferOps(cma.pfn, size, attrs, coherent))
    ensures arrayOk && ForceContiguous !in attrs && OrderMask(pgsizeOrders) == {} ==>
      pages == null && freed == [] && ops == []
    ensures arrayOk && ForceContiguous !in attrs && OrderMask(pgsizeOrders) != {} ==>
      var f := FillFrom(0, size / PageSize, OrderMask(pgsizeOrders), grant);
      ops == ClearOps(f.chunks, attrs, coherent) &&
      (f.ok ==> pages != null && pages[..] == Expand(f.chunks) && freed == []) &&
      (!f.ok ==> pages == null && freed == FreeOrder(Expand(f.chunks)))
  {
    var count := size / PageSize;
    if !arrayOk {
      return null, [], [];
    }
    var arr := new PageRef[count](_ => NoPage);
    if ForceContiguous in attrs {
      if cma.NoPage? {
        return null, [], [];
      }
      ops := ClearBufferOps(cma.pfn, size, attrs, coherent);
      for t := 0 to count
        invariant forall u :: 0 <= u < t ==> arr[u] == Page(cma.pfn + u)
      {
        arr[t] := Page(cma.pfn + t);
      }
      return arr, [], ops;
    }
    var mask := OrderMask(pgsizeOrders);
    if mask == {} {
      return null, [], [];
    }
    var i, ok;
    i, ok, ops := FillLoop(arr, mask, attrs, coherent, grant);
    if ok {
      assert arr[..] == arr[..i];
      ExpandAllPages(FillFrom(0, count, mask, grant).chunks);
      return arr, [], ops;
    }
    freed := FreeBackwards(arr, i);
    return null, freed, ops;
  }

  /** What __iommu_free_buffer gives back: the contiguous region from its
      first page, or each non-NULL page. */
  datatype Release = ReleasedContiguous(first: PageRef, count: nat) | FreedPages(frames: seq<nat>)

  /** What __iommu_free_buffer gives back for an array filled for size
      bytes: the CMA region from its first page when the buffer was forced
      contiguous, otherwise the frame of every non-NULL slot in order. */
  function ReleaseOf(pages: seq<PageRef>, size: nat, attrs: set<Attr>): (rel: Release)
    requires size / PageSize <= |pages|
    requires ForceContiguous in attrs ==> |pages| > 0
    ensures rel.ReleasedContiguous? <==> ForceContiguous in attrs
    ensures rel.FreedPages? ==> |rel.frames| <= size / PageSize
  {
    if ForceContiguous in attrs then ReleasedContiguous(pages[0], size / PageSize)
    else FreedPages(Frames(pages[..size / PageSize]))
  }

  /** __iommu_free_buffer for size bytes. */
  method FreeBuffer(pages: array<PageRef>, size: nat, attrs: set<Attr>) returns (rel: Release)
    requires size / PageSize <= pages.Length
    requires ForceContiguous in attrs ==> pages.Length > 0
    ensures rel == ReleaseOf(pages[..], size, attrs)
  {
    var count := size / PageSize;
    if ForceContiguous in attrs {
      return ReleasedContiguous(pages[0], count);
    }
    var frames := [];
    for t := 0 to count
      invariant frames == Frames(pages[..t])
    {
      assert pages[..t + 1][..t] == pages[..t];
      if pages[t].Page? {
        frames := frames + [pages[t].pfn];
      }
    }
    return FreedPages(frames);
  }
}
