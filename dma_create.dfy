/** __iommu_create_mapping and __iommu_remove_mapping of
    arch/arm64/mm/dma-mapping.c: an IOVA range is reserved for a page array,
    and each maximal run of consecutive page frames is mapped with one
    iommu_map call. The answers of iommu_map are the parameter mapOk, indexed
    by the number of runs mapped before. */
module DmaCreate {
  import opened PageMath
  import opened IovaBitmap
  import opened DmaFlags
  import opened DmaMapping

  /** The end of the run of consecutive frames that starts at index i, when
      the frames up to j are known to continue it: the inner loop of
      __iommu_create_mapping, with next_pfn == pfns[i] + (j - i). */
  function RunFrom(pfns: seq<nat>, i: nat, j: nat): (e: nat)
    requires i < j <= |pfns|
    requires forall k :: i < k < j ==> pfns[k] == pfns[i] + (k - i)
    ensures j <= e <= |pfns|
    ensures forall k :: i < k < e ==> pfns[k] == pfns[i] + (k - i)
    ensures e == |pfns| || pfns[e] != pfns[i] + (e - i)
    decreases |pfns| - j
  {
    if j == |pfns| || pfns[j] != pfns[i] + (j - i) then j else RunFrom(pfns, i, j + 1)
  }

  /** The requests the mapping loop makes from index i on, whether it
      reached the end, and how many pages it mapped before a failure. */
  datatype MapPass = MapPass(reqs: seq<IommuReq>, ok: bool, pages: nat)

  /** The mapping loop of __iommu_create_mapping from page index i, with
      the IOVA at iova and k runs mapped before. */
  function MapRuns(pfns: seq<nat>, i: nat, iova: nat, prot: set<Prot>, mapOk: nat -> bool, k: nat): MapPass
    requires i <= |pfns|
    decreases |pfns| - i
  {
    if i == |pfns| then MapPass([], true, 0)
    else
      var j := RunFrom(pfns, i, i + 1);
      var req := Map(iova, pfns[i] * PageSize, (j - i) * PageSize, prot);
      if !mapOk(k) then MapPass([req], false, 0)
      else
        var rest := MapRuns(pfns, j, iova + (j - i) * PageSize, prot, mapOk, k + 1);
        MapPass([req] + rest.reqs, rest.ok, (j - i) + rest.pages)
  }

  /** The page-by-page translation that a list of requests installs: one
      (iova, phys) pair per page of each map request, in order. */
  function Translations(reqs: seq<IommuReq>): (t: seq<(nat, nat)>)
    ensures reqs == [] ==> t == []
  {
    if reqs == [] then []
    else Translation(reqs[0]) + Translations(reqs[1..])
  }

  function Translation(r: IommuReq): seq<(nat, nat)>
  {
    if r.Map? then seq(r.len / PageSize, m => (r.iova + m * PageSize, r.phys + m * PageSize)) else []
  }

  /** The reference translation: n pages from index i, the page at
      iova + k * PAGE_SIZE going to the frame pfns[i + k]. */
  function Window(pfns: seq<nat>, i: nat, iova: nat, n: nat): (w: seq<(nat, nat)>)
    requires i + n <= |pfns|
    ensures |w| == n
  {
    seq(n, k requires 0 <= k < n => (iova + k * PageSize, pfns[i + k] * PageSize))
  }

  lemma TranslationsCons(r: IommuReq, rest: seq<IommuReq>)
    ensures Translations([r] + rest) == Translation(r) + Translations(rest)
  {
    assert ([r] + rest)[0] == r;
    assert ([r] + rest)[1..] == rest;
  }

  lemma WindowSplit(pfns: seq<nat>, i: nat, iova: nat, a: nat, j: nat, iova': nat, b: nat, c: nat)
    requires j == i + a && iova' == iova + a * PageSize && c == a + b && i + c <= |pfns|
    ensures Window(pfns, i, iova, a) + Window(pfns, j, iova', b) == Window(pfns, i, iova, c)
  {
    var l := Window(pfns, i, iova, a) + Window(pfns, j, iova', b);
    var w := Window(pfns, i, iova, c);
    forall k | 0 <= k < c
      ensures l[k] == w[k]
    {
      if k >= a {
        assert l[k] == Window(pfns, j, iova', b)[k - a];
      }
    }
  }

  /** One run's request translates its pages to consecutive frames. */
  lemma RunTranslation(pfns: seq<nat>, i: nat, iova: nat, prot: set<Prot>)
    requires i < |pfns|
    ensures var j := RunFrom(pfns, i, i + 1);
      Translation(Map(iova, pfns[i] * PageSize, (j - i) * PageSize, prot)) == Window(pfns, i, iova, j - i)
  {
    var j := RunFrom(pfns, i, i + 1);
    var t := Translation(Map(iova, pfns[i] * PageSize, (j - i) * PageSize, prot));
    MultipleMod(j - i, PageSize);
    assert |t| == j - i;
    forall m | 0 <= m < j - i
      ensures t[m] == Window(pfns, i, iova, j - i)[m]
    {
      assert m == 0 || pfns[i + m] == pfns[i] + m;
    }
  }

  /** What a pass of the mapping loop from index i installs: when it
      reaches the end, its requests translate every page from i on to its
      own frame, in order; when an iommu_map fails, the requests before the
      failing one translate exactly the first r.pages pages, and the failing
      one starts right after them. */
  predicate Installs(pfns: seq<nat>, i: nat, iova: nat, r: MapPass)
    requires i <= |pfns|
  {
    i + r.pages <= |pfns| &&
    (r.ok ==>
      i + r.pages == |pfns| && Translations(r.reqs) == Window(pfns, i, iova, |pfns| - i)) &&
    (!r.ok ==>
      r.reqs != [] && r.reqs[|r.reqs| - 1].Map? && r.reqs[|r.reqs| - 1].iova == iova + r.pages * PageSize &&
      Translations(r.reqs[..|r.reqs| - 1]) == Window(pfns, i, iova, r.pages))
  }

  /** A successful request for the run [i, j) in front of a pass from j. */
  lemma ConsInstalls(pfns: seq<nat>, i: nat, iova: nat, req: IommuReq, j: nat, iova': nat, rest: MapPass, r: MapPass)
    requires i < j <= |pfns| && iova' == iova + (j - i) * PageSize
    requires Translation(req) == Window(pfns, i, iova, j - i)
    requires Installs(pfns, j, iova', rest)
    requires r == MapPass([req] + rest.reqs, rest.ok, (j - i) + rest.pages)
    ensures Installs(pfns, i, iova, r)
  {
    if rest.ok {
      ConsInstallsAll(pfns, i, iova, req, j, iova', rest.reqs);
    } else {
      ConsInstallsPart(pfns, i, iova, req, j, iova', rest.reqs, rest.pages);
    }
  }

  lemma ConsInstallsAll(pfns: seq<nat>, i: nat, iova: nat, req: IommuReq, j: nat, iova': nat, reqs: seq<IommuReq>)
    requires i < j <= |pfns| && iova' == iova + (j - i) * PageSize
    requires Translation(req) == Window(pfns, i, iova, j - i)
    requires Translations(reqs) == Window(pfns, j, iova', |pfns| - j)
    ensures Translations([req] + reqs) == Window(pfns, i, iova, |pfns| - i)
  {
    TranslationsCons(req, reqs);
    WindowSplit(pfns, i, iova, j - i, j, iova', |pfns| - j, |pfns| - i);
  }

  lemma ConsInstallsPart(pfns: seq<nat>, i: nat, iova: nat, req: IommuReq, j: nat, iova': nat,
                         reqs: seq<IommuReq>, pages: nat)
    requires i < j <= |pfns| && iova' == iova + (j - i) * PageSize && j + pages <= |pfns| && reqs != []
    requires Translation(req) == Window(pfns, i, iova, j - i)
    requires Translations(reqs[..|reqs| - 1]) == Window(pfns, j, iova', pages)
    ensures var all := [req] + reqs;
      all[..|all| - 1] == [req] + reqs[..|reqs| - 1] &&
      Translations(all[..|all| - 1]) == Window(pfns, i, iova, (j - i) + pages)
  {
    var all := [req] + reqs;
    var front := reqs[..|reqs| - 1];
    assert all[..|all| - 1] == [req] + front;
    TranslationsCons(req, front);
    WindowSplit(pfns, i, iova, j - i, j, iova', pages, (j - i) + pages);
  }

  /** The mapping loop installs what Installs describes. */
  lemma {:induction false} MapRunsSound(pfns: seq<nat>, i: nat, iova: nat, prot: set<Prot>, mapOk: nat -> bool, k: nat)
    requires i <= |pfns|
    ensures Installs(pfns, i, iova, MapRuns(pfns, i, iova, prot, mapOk, k))
    decreases |pfns| - i, 1
  {
    var r := MapRuns(pfns, i, iova, prot, mapOk, k);
    if i == |pfns| {
      assert r == MapPass([], true, 0);
      assert Window(pfns, i, iova, 0) == [];
    } else {
      var j := RunFrom(pfns, i, i + 1);
      var req := Map(iova, pfns[i] * PageSize, (j - i) * PageSize, prot);
      if mapOk(k) {
        OkInstalls(pfns, i, iova, prot, mapOk, k);
      } else {
        assert r == MapPass([req], false, 0);
        assert r.reqs[..0] == [];
      }
    }
  }

  /** A successful map of the run from i keeps what the rest installs. */
  lemma {:induction false} OkInstalls(pfns: seq<nat>, i: nat, iova: nat, prot: set<Prot>, mapOk: nat -> bool, k: nat)
    requires i < |pfns| && mapOk(k)
    ensures Installs(pfns, i, iova, MapRuns(pfns, i, iova, prot, mapOk, k))
    decreases |pfns| - i, 0
  {
    var r := MapRuns(pfns, i, iova, prot, mapOk, k);
    var j := RunFrom(pfns, i, i + 1);
    var req := Map(iova, pfns[i] * PageSize, (j - i) * PageSize, prot);
    var iova' := iova + (j - i) * PageSize;
    var rest := MapRuns(pfns, j, iova', prot, mapOk, k + 1);
    assert r == MapPass([req] + rest.reqs, rest.ok, (j - i) + rest.pages);
    MapRunsSound(pfns, j, iova', prot, mapOk, k + 1);
    RunTranslation(pfns, i, iova, prot);
    ConsInstalls(pfns, i, iova, req, j, iova', rest, r);
  }

  /** Requests that are all maps with protection prot, each non-empty and
      starting where the previous one ended in IOVA space, and none
      mergeable with the next one: the next one's first frame does not
      follow the previous one's last frame. */
  predicate MaximalRuns(reqs: seq<IommuReq>, prot: set<Prot>)
  {
    (forall t :: 0 <= t < |reqs| ==> reqs[t].Map? && reqs[t].prot == prot && reqs[t].len > 0) &&
    (forall t :: 0 <= t < |reqs| - 1 ==>
      reqs[t + 1].iova == reqs[t].iova + reqs[t].len &&
      reqs[t + 1].phys != reqs[t].phys + reqs[t].len)
  }

  /** A map that abuts the next request without being mergeable with it. */
  lemma ConsMaximal(req: IommuReq, rest: seq<IommuReq>, prot: set<Prot>)
    requires req.Map? && req.prot == prot && req.len > 0 && MaximalRuns(rest, prot)
    requires rest != [] ==> rest[0].iova == req.iova + req.len && rest[0].phys != req.phys + req.len
    ensures MaximalRuns([req] + rest, prot)
  {
    var r := [req] + rest;
    forall t | 1 <= t < |r|
      ensures r[t] == rest[t - 1]
    {
    }
  }

  /** The requests are one iommu_map per maximal run, in order, the first
      at iova for the frame pfns[i]. */
  lemma {:induction false} RunsMaximal(pfns: seq<nat>, i: nat, iova: nat, prot: set<Prot>, mapOk: nat -> bool, k: nat)
    requires i <= |pfns|
    ensures var r := MapRuns(pfns, i, iova, prot, mapOk, k);
      MaximalRuns(r.reqs, prot) &&
      (r.reqs != [] ==> r.reqs[0].iova == iova && r.reqs[0].phys == pfns[i] * PageSize)
    decreases |pfns| - i
  {
    var r := MapRuns(pfns, i, iova, prot, mapOk, k);
    if i < |pfns| {
      var j := RunFrom(pfns, i, i + 1);
      var req := Map(iova, pfns[i] * PageSize, (j - i) * PageSize, prot);
      MulPositive(j - i);
      if mapOk(k) {
        var iova' := iova + (j - i) * PageSize;
        var rest := MapRuns(pfns, j, iova', prot, mapOk, k + 1);
        assert r == MapPass([req] + rest.reqs, rest.ok, (j - i) + rest.pages);
        RunsMaximal(pfns, j, iova', prot, mapOk, k + 1);
        if rest.reqs != [] {
          NextRunApart(pfns, i, j);
        }
        ConsMaximal(req, rest.reqs, prot);
      } else {
        assert r == MapPass([req], false, 0);
        ConsMaximal(req, [], prot);
      }
    }
  }

  lemma MulPositive(n: nat)
    requires n > 0
    ensures n * PageSize > 0
  {
  }

  /** The frame after a maximal run [i, j) does not continue it. */
  lemma NextRunApart(pfns: seq<nat>, i: nat, j: nat)
    requires i < j < |pfns| && j == RunFrom(pfns, i, i + 1)
    ensures pfns[j] * PageSize != pfns[i] * PageSize + (j - i) * PageSize
  {
    var a, b := pfns[j], pfns[i] + (j - i);
    assert pfns[i] * PageSize + (j - i) * PageSize == b * PageSize;
    DivModUnique(a * PageSize, PageSize, a, 0);
    DivModUnique(b * PageSize, PageSize, b, 0);
  }

  /** The inner loop of __iommu_create_mapping (dma-mapping.c:348-350):
      the end of the run of consecutive frames that starts at i. */
  method RunEnd(pfns: seq<nat>, i: nat) returns (j: nat)
    requires i < |pfns|
    ensures j == RunFrom(pfns, i, i + 1)
  {
    var next := pfns[i] + 1;
    j := i + 1;
    while j < |pfns| && pfns[j] == next
      invariant i < j <= |pfns| && next == pfns[i] + (j - i)
      invariant forall t :: i < t < j ==> pfns[t] == pfns[i] + (t - i)
      invariant RunFrom(pfns, i, j) == RunFrom(pfns, i, i + 1)
      decreases |pfns| - j
    {
      j := j + 1;
      next := next + 1;
    }
  }

  /** One iteration of the mapping loop of __iommu_create_mapping
      (dma-mapping.c:344-358): the run from i is found and mapped at iova;
      on success the loop goes on from its end. */
  method MapOne(domain: Domain, pfns: seq<nat>, i: nat, iova: nat, prot: set<Prot>, mapOk: nat -> bool, k: nat)
    returns (ok: bool, j: nat, nextIova: nat, ghost rest: MapPass)
    requires i < |pfns|
    modifies domain
    ensures i < j <= |pfns|
    ensures var req := Map(iova, pfns[i] * PageSize, (j - i) * PageSize, prot);
      domain.log == old(domain.log) + [req] &&
      (!ok ==> MapRuns(pfns, i, iova, prot, mapOk, k) == MapPass([req], false, 0)) &&
      (ok ==>
        nextIova == iova + (j - i) * PageSize &&
        rest == MapRuns(pfns, j, nextIova, prot, mapOk, k + 1) &&
        MapRuns(pfns, i, iova, prot, mapOk, k) == MapPass([req] + rest.reqs, rest.ok, (j - i) + rest.pages))
    ensures domain.freed == old(domain.freed)
  {
    j := RunEnd(pfns, i);
    var len := (j - i) * PageSize;
    domain.log := domain.log + [Map(iova, pfns[i] * PageSize, len, prot)];
    ok := mapOk(k);
    nextIova := iova + len;
    rest := MapRuns(pfns, j, nextIova, prot, mapOk, k + 1);
  }

  lemma Advance(dma: nat, i: nat, j: nat, iova: nat)
    requires i <= j && iova == dma + i * PageSize
    ensures iova + (j - i) * PageSize == dma + j * PageSize
  {
  }

  /** The mapping loop of __iommu_create_mapping (dma-mapping.c:343-359):
      from dma on, one iommu_map per run of consecutive frames, stopping at
      the first failure. iova is where the loop stopped: the end of the
      range, or the start of the run whose map failed. */
  method MapLoop(domain: Domain, pfns: seq<nat>, dma: nat, prot: set<Prot>, mapOk: nat -> bool)
    returns (ok: bool, iova: nat)
    modifies domain
    ensures var m := MapRuns(pfns, 0, dma, prot, mapOk, 0);
      ok == m.ok && iova >= dma && iova - dma == m.pages * PageSize &&
      domain.log == old(domain.log) + m.reqs
    ensures domain.freed == old(domain.freed)
  {
    iova := dma;
    var i: nat := 0;
    var k: nat := 0;
    ghost var whole := MapRuns(pfns, 0, dma, prot, mapOk, 0);
    ghost var done: seq<IommuReq> := [];
    ghost var rest := whole;
    while i < |pfns|
      invariant i <= |pfns|
      invariant domain.log == old(domain.log) + done && domain.freed == old(domain.freed)
      invariant iova == dma + i * PageSize
      invariant rest == MapRuns(pfns, i, iova, prot, mapOk, k)
      invariant whole.reqs == done + rest.reqs && whole.ok == rest.ok && whole.pages == i + rest.pages
      decreases |pfns| - i
    {
      var more, j, nextIova, rest' := MapOne(domain, pfns, i, iova, prot, mapOk, k);
      ghost var req := Map(iova, pfns[i] * PageSize, (j - i) * PageSize, prot);
      SeqAssoc(old(domain.log), done, [req]);
      if !more {
        return false, iova;
      }
      Advance(dma, i, j, iova);
      SeqAssoc(done, [req], rest'.reqs);
      done := done + [req];
      rest := rest';
      iova := nextIova;
      i := j;
      k := k + 1;
    }
    assert done + [] == done;
    return true, iova;
  }

  /** What __iommu_create_mapping returns, the bitmap it leaves and the
      requests it makes. */
  datatype Created = Created(dma: Dma, bm: seq<bool>, reqs: seq<IommuReq>)

  /** __iommu_create_mapping on a bitmap: reserve the IOVA, then map. */
  function CreateSpec(bm: seq<bool>, pfns: seq<nat>, size: nat, minAlign: nat, base: nat, guardPhys: nat,
                      guardMapOk: bool, prot: set<Prot>, mapOk: nat -> bool): Created
    requires minAlign % PageSize == 0 && base % PageSize == 0
  {
    var a := AllocSpec(bm, size, minAlign, base, guardPhys, guardMapOk);
    if a.dma.DmaError? then Created(DmaError, a.bm, a.reqs)
    else
      FreeIovaUndoesAlloc(bm, size, minAlign, base, guardPhys, guardMapOk);
      var x := MapSpec(a.dma.addr, a.bm, pfns, size, minAlign, base, prot, mapOk);
      Created(x.dma, x.bm, a.reqs + x.reqs)
  }

  /** The part of __iommu_create_mapping after the reservation at dma:
      map the runs, and on a failed map unmap [dma, iova) and release the
      reservation. */
  function MapSpec(dma: nat, bm: seq<bool>, pfns: seq<nat>, size: nat, minAlign: nat, base: nat,
                   prot: set<Prot>, mapOk: nat -> bool): Created
    requires base <= PageBase(dma)
    requires var f := PlanFree(dma, size, minAlign, base); f.start + f.count <= |bm|
  {
    var m := MapRuns(pfns, 0, dma, prot, mapOk, 0);
    if m.ok then Created(DmaAddr(dma), bm, m.reqs)
    else
      var f := PlanFree(dma, size, minAlign, base);
      Created(DmaError, ClearRun(bm, f.start, f.count),
              m.reqs + [Unmap(dma, m.pages * PageSize)] + FreeReqs(dma, size, minAlign))
  }

  /** __iommu_create_mapping's promise: it returns an address exactly when
      the reservation and every run's map succeed; then the address is page
      aligned, the bitmap is __alloc_iova's and the requests after the
      reservation's translate page k of the range to pfns[k]. On every
      failure the bitmap is as before, and after a failed map the unmap
      covers exactly the pages whose maps succeeded. */
  lemma CreateSpecSound(bm: seq<bool>, pfns: seq<nat>, size: nat, minAlign: nat, base: nat, guardPhys: nat,
                        guardMapOk: bool, prot: set<Prot>, mapOk: nat -> bool)
    requires minAlign % PageSize == 0 && base % PageSize == 0
    ensures var c := CreateSpec(bm, pfns, size, minAlign, base, guardPhys, guardMapOk, prot, mapOk);
      var a := AllocSpec(bm, size, minAlign, base, guardPhys, guardMapOk);
      |c.bm| == |bm| &&
      (c.dma.DmaError? ==> c.bm == bm) &&
      (a.dma.DmaError? ==> c.dma == DmaError && c.reqs == a.reqs) &&
      (a.dma.DmaAddr? ==>
        var m := MapRuns(pfns, 0, a.dma.addr, prot, mapOk, 0);
        (c.dma.DmaAddr? <==> m.ok) &&
        (m.ok ==>
          c.dma == a.dma && c.dma.addr % PageSize == 0 && c.bm == a.bm &&
          c.reqs == a.reqs + m.reqs && Translations(m.reqs) == Window(pfns, 0, c.dma.addr, |pfns|)) &&
        (!m.ok ==>
          c.reqs == a.reqs + (m.reqs + [Unmap(a.dma.addr, m.pages * PageSize)] + FreeReqs(a.dma.addr, size, minAlign)) &&
          m.reqs != [] && m.pages <= |pfns| &&
          Translations(m.reqs[..|m.reqs| - 1]) == Window(pfns, 0, a.dma.addr, m.pages)))
  {
    var a := AllocSpec(bm, size, minAlign, base, guardPhys, guardMapOk);
    FreeIovaUndoesAlloc(bm, size, minAlign, base, guardPhys, guardMapOk);
    AllocAddrAligned(bm, size, minAlign, base, guardPhys, guardMapOk);
    if a.dma.DmaAddr? {
      MapSpecSound(a.dma.addr, a.bm, pfns, size, minAlign, base, prot, mapOk);
    }
  }

  /** The mapping half of __iommu_create_mapping: success keeps the
      reservation and installs the whole window; a failed map unmaps the
      pages installed so far and clears the reservation's bits. */
  lemma MapSpecSound(dma: nat, bm: seq<bool>, pfns: seq<nat>, size: nat, minAlign: nat, base: nat,
                     prot: set<Prot>, mapOk: nat -> bool)
    requires base <= PageBase(dma)
    requires var f := PlanFree(dma, size, minAlign, base); f.start + f.count <= |bm|
    ensures var x := MapSpec(dma, bm, pfns, size, minAlign, base, prot, mapOk);
      var m := MapRuns(pfns, 0, dma, prot, mapOk, 0);
      var f := PlanFree(dma, size, minAlign, base);
      (x.dma.DmaAddr? <==> m.ok) &&
      (m.ok ==>
        x.dma == DmaAddr(dma) && x.bm == bm && x.reqs == m.reqs &&
        Translations(m.reqs) == Window(pfns, 0, dma, |pfns|)) &&
      (!m.ok ==>
        x.dma == DmaError && x.bm == ClearRun(bm, f.start, f.count) &&
        x.reqs == m.reqs + [Unmap(dma, m.pages * PageSize)] + FreeReqs(dma, size, minAlign) &&
        m.reqs != [] && m.pages <= |pfns| &&
        Translations(m.reqs[..|m.reqs| - 1]) == Window(pfns, 0, dma, m.pages))
  {
    MapRunsSound(pfns, 0, dma, prot, mapOk, 0);
  }

  /** __iommu_create_mapping (dma-mapping.c:326-365). pfns are the frames of
      pages[0..count). iommu_map's answer for the k-th run is mapOk(k);
      guardMapOk is the answer for __alloc_iova's guard map. The IOVA base and
      min_iova_align must be page multiples for __free_iova to undo the
      reservation. */
  method CreateMapping(mapping: IommuMapping, pfns: seq<nat>, size: nat, attrs: set<Attr>, coherent: bool,
                       guardMapOk: bool, mapOk: nat -> bool) returns (r: Dma)
    requires mapping.Ready() && |pfns| == PageAlign(size) / PageSize
    requires mapping.base % PageSize == 0 && mapping.minIovaAlign % PageSize == 0
    modifies mapping.bitmap, mapping.domain
    ensures var c := CreateSpec(old(mapping.Bits()), pfns, size, mapping.minIovaAlign, mapping.base, mapping.GuardPhys(),
                                guardMapOk, IommuPgprot(attrs, {Read, Write}, coherent), mapOk);
      r == c.dma && mapping.Bits() == c.bm && mapping.domain.log == old(mapping.domain.log) + c.reqs
    ensures mapping.bitmap[mapping.bits..] == old(mapping.bitmap[mapping.bits..])
    ensures mapping.domain.freed == old(mapping.domain.freed)
  {
    ghost var bm := mapping.Bits();
    ghost var a := AllocSpec(bm, size, mapping.minIovaAlign, mapping.base, mapping.GuardPhys(), guardMapOk);
    FreeIovaUndoesAlloc(bm, size, mapping.minIovaAlign, mapping.base, mapping.GuardPhys(), guardMapOk);
    ghost var log0 := mapping.domain.log;
    var dma := mapping.AllocIova(size, guardMapOk);
    if dma.DmaError? {
      return dma;
    }
    var prot := IommuPgprot(attrs, {Read, Write}, coherent);
    ghost var log1 := mapping.domain.log;
    r := MapOrUnwind(mapping, dma.addr, pfns, size, prot, mapOk);
    ghost var x := MapSpec(dma.addr, a.bm, pfns, size, mapping.minIovaAlign, mapping.base, prot, mapOk);
    calc {
      mapping.domain.log;
      log1 + x.reqs;
      (log0 + a.reqs) + x.reqs;
      { SeqAssoc(log0, a.reqs, x.reqs); }
      log0 + (a.reqs + x.reqs);
    }
  }

  lemma SeqAssoc<T>(p: seq<T>, q: seq<T>, t: seq<T>)
    ensures (p + q) + t == p + (q + t)
  {
  }

  /** The loop and the fail label of __iommu_create_mapping
      (dma-mapping.c:343-364), after the reservation at dma. */
  method MapOrUnwind(mapping: IommuMapping, dma: nat, pfns: seq<nat>, size: nat, prot: set<Prot>, mapOk: nat -> bool)
    returns (r: Dma)
    requires mapping.Ready() && mapping.base <= PageBase(dma)
    requires var f := PlanFree(dma, size, mapping.minIovaAlign, mapping.base); f.start + f.count <= mapping.bits
    modifies mapping.bitmap, mapping.domain
    ensures var x := MapSpec(dma, old(mapping.Bits()), pfns, size, mapping.minIovaAlign, mapping.base, prot, mapOk);
      r == x.dma && mapping.Bits() == x.bm && mapping.domain.log == old(mapping.domain.log) + x.reqs
    ensures mapping.bitmap[mapping.bits..] == old(mapping.bitmap[mapping.bits..])
    ensures mapping.domain.freed == old(mapping.domain.freed)
  {
    ghost var m := MapRuns(pfns, 0, dma, prot, mapOk, 0);
    var ok, iova := MapLoop(mapping.domain, pfns, dma, prot, mapOk);
    if !ok {
      Unwind(mapping, dma, iova, size);
      return DmaError;
    }
    return DmaAddr(dma);
  }

  /** The fail label of __iommu_create_mapping (dma-mapping.c:361-363): the
      range mapped so far, [dma, iova), is unmapped and the reservation is
      released. */
  method Unwind(mapping: IommuMapping, dma: nat, iova: nat, size: nat)
    requires mapping.Ready() && mapping.base <= PageBase(dma) && dma <= iova
    requires var f := PlanFree(dma, size, mapping.minIovaAlign, mapping.base); f.start + f.count <= mapping.bits
    modifies mapping.bitmap, mapping.domain
    ensures var f := PlanFree(dma, size, mapping.minIovaAlign, mapping.base);
      mapping.Bits() == ClearRun(old(mapping.Bits()), f.start, f.count) &&
      mapping.domain.log == old(mapping.domain.log) + [Unmap(dma, iova - dma)] + FreeReqs(dma, size, mapping.minIovaAlign)
    ensures mapping.bitmap[mapping.bits..] == old(mapping.bitmap[mapping.bits..])
    ensures mapping.domain.freed == old(mapping.domain.freed)
  {
    mapping.domain.log := mapping.domain.log + [Unmap(dma, iova - dma)];
    mapping.FreeIova(dma, size);
  }

  /** The effect of __iommu_remove_mapping(iova, size) on the allocator's
      bits and the domain's request log: the page range covering
      [iova, iova + size) is unmapped, then its run is cleared and the guard
      unmap of that length, if any, is asked for. */
  predicate Removed(bitsBefore: seq<bool>, bitsAfter: seq<bool>, logBefore: seq<IommuReq>, logAfter: seq<IommuReq>,
                    iova: nat, size: nat, minAlign: nat, base: nat)
  {
    var sz := PageAlign(PageOffset(iova) + size);
    base <= PageBase(iova) &&
    var f := PlanFree(PageBase(iova), sz, minAlign, base);
    f.start + f.count <= |bitsBefore| &&
    bitsAfter == ClearRun(bitsBefore, f.start, f.count) &&
    logAfter == logBefore + [Unmap(PageBase(iova), sz)] + FreeReqs(PageBase(iova), sz, minAlign)
  }

  /** __iommu_remove_mapping (dma-mapping.c:367-382): the in-page offset of
      iova is added to size, both are taken to page boundaries, and that
      range is unmapped and released. The range must be a live reservation
      for __free_iova to clear bits inside the bitmap. */
  method RemoveMapping(mapping: IommuMapping, iova: nat, size: nat)
    requires mapping.Ready() && mapping.base <= PageBase(iova)
    requires var f := PlanFree(PageBase(iova), PageAlign(PageOffset(iova) + size), mapping.minIovaAlign, mapping.base);
      f.start + f.count <= mapping.bits
    modifies mapping.bitmap, mapping.domain
    ensures var sz := PageAlign(PageOffset(iova) + size);
      var f := PlanFree(PageBase(iova), sz, mapping.minIovaAlign, mapping.base);
      mapping.Bits() == ClearRun(old(mapping.Bits()), f.start, f.count) &&
      mapping.domain.log == old(mapping.domain.log) + [Unmap(PageBase(iova), sz)] + FreeReqs(PageBase(iova), sz, mapping.minIovaAlign)
    ensures mapping.bitmap[mapping.bits..] == old(mapping.bitmap[mapping.bits..])
    ensures mapping.domain.freed == old(mapping.domain.freed)
    ensures Removed(old(mapping.Bits()), mapping.Bits(), old(mapping.domain.log), mapping.domain.log,
                    iova, size, mapping.minIovaAlign, mapping.base)
  {
    assert PageBase(PageBase(iova)) == PageBase(iova);
    mapping.domain.log := mapping.domain.log + [Unmap(PageBase(iova), PageAlign(PageOffset(iova) + size))];
    mapping.FreeIova(PageBase(iova), PageAlign(PageOffset(iova) + size));
  }

  /** Removing what a successful __iommu_create_mapping reserved undoes the
      reservation: the address has no in-page offset, so __free_iova
      recomputes the run __alloc_iova set, clears exactly those bits and
      makes the same guard request. s is the range the search returned (any
      clear run of the planned length; ZeroArea returns the first fit), so
      AllocFrom(bm, p, s, ...) is AllocSpec for that search. */
  lemma CreateThenRemove(bm: seq<bool>, p: IovaPlan, s: nat, size: nat, minAlign: nat, base: nat,
                         guardPhys: nat, guardMapOk: bool)
    requires minAlign % PageSize == 0 && base % PageSize == 0
    requires p == PlanAlloc(size, minAlign)
    requires s <= |bm| ==> RunClear(bm, s, p.count)
    ensures var a := AllocFrom(bm, p, s, base, guardPhys, guardMapOk);
      a.dma.DmaAddr? ==>
        var addr := a.dma.addr;
        var sz := PageAlign(PageOffset(addr) + size);
        PageBase(addr) == addr && base <= addr &&
        var f := PlanFree(PageBase(addr), sz, minAlign, base);
        f.start + f.count <= |bm| && ClearRun(a.bm, f.start, f.count) == bm &&
        FreeReqs(PageBase(addr), sz, minAlign) == FreeReqs(addr, size, minAlign)
  {
    AllocFromThenFree(bm, p, s, size, minAlign, base, guardPhys, guardMapOk);
    var a := AllocFrom(bm, p, s, base, guardPhys, guardMapOk);
    if a.dma.DmaAddr? {
      FreeMatchesAlloc(size, minAlign, base, s);
      var addr := a.dma.addr;
      RemoveRecomputes(addr, size, minAlign, base);
    }
  }

  /** __iommu_remove_mapping(addr, size) on the bitmap after turns it back
      into before: the range it recomputes from addr and size starts at or
      after the IOVA base, lies inside the bitmap, and clearing it restores
      every bit. */
  predicate RemoveRestores(before: seq<bool>, after: seq<bool>, addr: nat, size: nat, minAlign: nat, base: nat)
  {
    base <= PageBase(addr) &&
    var f := PlanFree(PageBase(addr), PageAlign(PageOffset(addr) + size), minAlign, base);
    f.start + f.count <= |after| && ClearRun(after, f.start, f.count) == before
  }

  /** CreateThenRemove for the range __iommu_create_mapping's search finds:
      __iommu_remove_mapping on the address a successful create returned,
      with the same size, clears exactly the bits the create set. */
  lemma CreateSpecThenRemove(bm: seq<bool>, pfns: seq<nat>, size: nat, minAlign: nat, base: nat, guardPhys: nat,
                             guardMapOk: bool, prot: set<Prot>, mapOk: nat -> bool)
    requires minAlign % PageSize == 0 && base % PageSize == 0
    ensures var c := CreateSpec(bm, pfns, size, minAlign, base, guardPhys, guardMapOk, prot, mapOk);
      c.dma.DmaAddr? ==>
        var addr := c.dma.addr;
        addr % PageSize == 0 && RemoveRestores(bm, c.bm, addr, size, minAlign, base)
  {
    CreatedIsAllocated(bm, pfns, size, minAlign, base, guardPhys, guardMapOk, prot, mapOk);
    AllocSpecThenRemove(bm, size, minAlign, base, guardPhys, guardMapOk);
  }

  /** __iommu_remove_mapping's arithmetic on a successful reservation gives
      back the run __alloc_iova set. */
  lemma AllocSpecThenRemove(bm: seq<bool>, size: nat, minAlign: nat, base: nat, guardPhys: nat, guardMapOk: bool)
    requires minAlign % PageSize == 0 && base % PageSize == 0
    ensures var a := AllocSpec(bm, size, minAlign, base, guardPhys, guardMapOk);
      a.dma.DmaAddr? ==>
        var addr := a.dma.addr;
        addr % PageSize == 0 && RemoveRestores(bm, a.bm, addr, size, minAlign, base)
  {
    FreeIovaUndoesAlloc(bm, size, minAlign, base, guardPhys, guardMapOk);
    AllocAddrAligned(bm, size, minAlign, base, guardPhys, guardMapOk);
    var a := AllocSpec(bm, size, minAlign, base, guardPhys, guardMapOk);
    if a.dma.DmaAddr? {
      var addr := a.dma.addr;
      var f := PlanFree(addr, size, minAlign, base);
      RemoveRecomputes(addr, size, minAlign, base);
      assert PlanFree(PageBase(addr), PageAlign(PageOffset(addr) + size), minAlign, base) == f;
      assert RemoveRestores(bm, a.bm, addr, size, minAlign, base);
    }
  }

  /** A successful __iommu_create_mapping returns the address and bitmap of
      its reservation. */
  lemma CreatedIsAllocated(bm: seq<bool>, pfns: seq<nat>, size: nat, minAlign: nat, base: nat, guardPhys: nat,
                           guardMapOk: bool, prot: set<Prot>, mapOk: nat -> bool)
    requires minAlign % PageSize == 0 && base % PageSize == 0
    ensures var c := CreateSpec(bm, pfns, size, minAlign, base, guardPhys, guardMapOk, prot, mapOk);
      var a := AllocSpec(bm, size, minAlign, base, guardPhys, guardMapOk);
      c.dma.DmaAddr? ==> c.dma == a.dma && c.bm == a.bm
  {
    CreateSpecSound(bm, pfns, size, minAlign, base, guardPhys, guardMapOk, prot, mapOk);
  }

  /** A successful mapping loop covers the page-aligned size: as many pages
      as PAGE_ALIGN(size) holds, each translated to its frame. */
  lemma MapCoversSize(pfns: seq<nat>, size: nat, addr: nat, prot: set<Prot>, mapOk: nat -> bool)
    requires |pfns| == PageAlign(size) / PageSize && addr % PageSize == 0
    ensures var m := MapRuns(pfns, 0, addr, prot, mapOk, 0);
      m.ok ==>
        m.pages == |pfns| && PageAlign(PageOffset(addr) + size) == m.pages * PageSize &&
        Translations(m.reqs) == Window(pfns, 0, addr, m.pages)
  {
    MapRunsSound(pfns, 0, addr, prot, mapOk, 0);
    MultipleIs(PageAlign(size), PageSize);
    assert PageOffset(addr) == 0;
  }

  /** __alloc_iova hands out page-aligned addresses from the base on. */
  lemma AllocAddrAligned(bm: seq<bool>, size: nat, minAlign: nat, base: nat, guardPhys: nat, guardMapOk: bool)
    requires minAlign % PageSize == 0 && base % PageSize == 0
    ensures var a := AllocSpec(bm, size, minAlign, base, guardPhys, guardMapOk);
      a.dma.DmaAddr? ==> a.dma.addr % PageSize == 0 && base <= a.dma.addr
  {
    var p := PlanAlloc(size, minAlign);
    var s := ZeroArea(bm, 0, p.count, Pow2(p.order));
    assert AllocSpec(bm, size, minAlign, base, guardPhys, guardMapOk) == AllocFrom(bm, p, s, base, guardPhys, guardMapOk);
    if s <= |bm| {
      FreeMatchesAlloc(size, minAlign, base, s);
    }
  }

  /** __iommu_remove_mapping on a page-aligned address frees what
      __free_iova would free for the unaligned size. */
  lemma RemoveRecomputes(addr: nat, size: nat, minAlign: nat, base: nat)
    requires addr % PageSize == 0 && base <= addr
    ensures PageBase(addr) == addr && PageAlign(PageOffset(addr) + size) == PageAlign(size)
    ensures PlanFree(addr, PageAlign(size), minAlign, base) == PlanFree(addr, size, minAlign, base)
    ensures FreeReqs(addr, PageAlign(size), minAlign) == FreeReqs(addr, size, minAlign)
    ensures var sz := PageAlign(PageOffset(addr) + size);
      PlanFree(PageBase(addr), sz, minAlign, base) == PlanFree(addr, size, minAlign, base) &&
      FreeReqs(PageBase(addr), sz, minAlign) == FreeReqs(addr, size, minAlign)
  {
    var sz := PageAlign(size);
    assert PageAlign(sz) == sz;
    assert PageOffset(addr) == 0 && PageBase(addr) == addr;
  }

  /** A physically contiguous array, as __iommu_alloc_atomic builds, is one
      run: a single iommu_map of the whole range. */
  lemma ContiguousOneRun(first: nat, n: nat, iova: nat, prot: set<Prot>, mapOk: nat -> bool)
    requires n > 0
    ensures var pfns := seq(n, k => first + k);
      var r := MapRuns(pfns, 0, iova, prot, mapOk, 0);
      r.reqs == [Map(iova, first * PageSize, n * PageSize, prot)] && r.ok == mapOk(0) &&
      (r.ok ==> r.pages == n)
  {
    var pfns := seq(n, k => first + k);
    var j := RunFrom(pfns, 0, 1);
    assert j == n;
    var r := MapRuns(pfns, 0, iova, prot, mapOk, 0);
    if mapOk(0) {
      assert MapRuns(pfns, n, iova + n * PageSize, prot, mapOk, 1) == MapPass([], true, 0);
    }
  }
}
