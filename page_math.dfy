/** Page-size arithmetic shared by the IOMMU mapper: PAGE_ALIGN, ALIGN,
    the PAGE_MASK split of an address, and get_order. Addresses are unbounded
    naturals; the 64-bit width of dma_addr_t is not modelled. */
module PageMath {

  /** PAGE_SHIFT and PAGE_SIZE of a 4 KiB-page arm64 kernel. */
  const PageShift: nat := 12
  const PageSize: nat := 4096

  /** BITS_PER_LONG - PAGE_SHIFT: what get_order(0) evaluates to on a 64-bit kernel. */
  const OrderOfZero: nat := 52

  // ---------------------------------------------------------------------
  // Multiplication and division facts, proved once in small steps.

  lemma MulNonNegative(d: int, a: int)
    requires d >= 0 && a >= 0
    ensures d * a >= 0
  {
  }

  lemma MulMonotone(i: int, j: int, a: int)
    requires i <= j && a >= 0
    ensures i * a <= j * a
  {
    MulNonNegative(j - i, a);
    assert j * a - i * a == (j - i) * a;
  }

  lemma DivModUnique(x: int, a: int, q: int, r: int)
    requires a > 0 && 0 <= r < a && x == q * a + r
    ensures x / a == q && x % a == r
  {
    var q0, r0 := x / a, x % a;
    assert x == q0 * a + r0;
    if q0 > q {
      assert (q + 1) * a == q * a + a;
      MulMonotone(q + 1, q0, a);
      assert false;
    } else if q0 < q {
      assert (q0 + 1) * a == q0 * a + a;
      MulMonotone(q0 + 1, q, a);
      assert false;
    }
  }

  lemma MultipleMod(k: nat, a: nat)
    requires a > 0
    ensures (k * a) % a == 0 && (k * a) / a == k
  {
    DivModUnique(k * a, a, k, 0);
  }

  /** Every non-negative multiple of a is k * a for k == m / a. */
  lemma MultipleIs(m: nat, a: nat)
    requires a > 0 && m % a == 0
    ensures m == (m / a) * a
  {
  }

  // ---------------------------------------------------------------------

  function Pow2(k: nat): (r: nat)
    ensures r >= 1
  {
    if k == 0 then 1 else 2 * Pow2(k - 1)
  }

  lemma {:induction false} Pow2Add(j: nat, d: nat)
    ensures Pow2(j + d) == Pow2(d) * Pow2(j)
  {
    if d > 0 {
      Pow2Add(j, d - 1);
      var a: int, b: int := Pow2(d - 1), Pow2(j);
      assert Pow2(j + d) == 2 * Pow2(j + (d - 1));
      assert 2 * (a * b) == (2 * a) * b;
    }
  }

  /** A smaller power of two divides a larger one. */
  lemma Pow2Divides(j: nat, k: nat)
    requires j <= k
    ensures Pow2(j) <= Pow2(k)
    ensures Pow2(k) % Pow2(j) == 0
  {
    Pow2Add(j, k - j);
    MultipleMod(Pow2(k - j), Pow2(j));
    MulMonotone(1, Pow2(k - j), Pow2(j));
  }

  /** ALIGN(x, a): a multiple of a that is at least x and less than a
      past it; AlignUpLeast shows it is the least such multiple. */
  function AlignUp(x: nat, a: nat): (r: nat)
    requires a > 0
    ensures r % a == 0 && x <= r < x + a
  {
    var q := x / a;
    if x % a == 0 then x
    else
      AlignUpNext(x, a);
      (q + 1) * a
  }

  lemma AlignUpNext(x: nat, a: nat)
    requires a > 0 && x % a != 0
    ensures var r := (x / a + 1) * a;
      r % a == 0 && x <= r < x + a
  {
    var q := x / a;
    var r := (q + 1) * a;
    assert r == q * a + a;
    MultipleMod(q + 1, a);
  }

  /** No multiple of a at or above x lies below ALIGN(x, a). */
  lemma AlignUpLeast(x: nat, a: nat, m: nat)
    requires a > 0 && x <= m && m % a == 0
    ensures AlignUp(x, a) <= m
  {
    if x % a != 0 {
      var q := x / a;
      var k := m / a;
      MultipleIs(m, a);
      if k <= q {
        MulMonotone(k, q, a);
        assert false;
      }
      MulMonotone(q + 1, k, a);
    }
  }

  /** PAGE_ALIGN(x). */
  function PageAlign(x: nat): (r: nat)
    ensures r % PageSize == 0 && x <= r < x + PageSize
    ensures x % PageSize == 0 ==> r == x
  {
    AlignUp(x, PageSize)
  }

  /** x & ~PAGE_MASK: the offset of x inside its page. */
  function PageOffset(x: nat): (r: nat)
    ensures r < PageSize
  {
    x % PageSize
  }

  /** x & PAGE_MASK: the start of the page that holds x. */
  function PageBase(x: nat): (r: nat)
    ensures r % PageSize == 0 && r <= x
    ensures r + PageOffset(x) == x
  {
    x - x % PageSize
  }

  /** fls(x): the number of significant bits of x (fls(0) == 0). */
  function Fls(x: nat): (r: nat)
    ensures x == 0 <==> r == 0
    ensures x > 0 ==> Pow2(r - 1) <= x < Pow2(r)
  {
    if x == 0 then 0
    else
      var f := Fls(x / 2);
      assert f > 0 ==> Pow2(f) == 2 * Pow2(f - 1);
      assert Pow2(f + 1) == 2 * Pow2(f);
      1 + f
  }

  /** get_order(size): the order of the smallest power-of-two number of pages
      that holds size bytes. */
  function GetOrder(size: nat): (r: nat)
    ensures size == 0 ==> r == OrderOfZero
    ensures size > 0 ==> size <= PageSize * Pow2(r)
    ensures size > 0 && r > 0 ==> PageSize * Pow2(r - 1) < size
  {
    if size == 0 then OrderOfZero
    else
      var n := (size - 1) / PageSize;
      var f := Fls(n);
      assert n + 1 <= Pow2(f);
      MulMonotone(n + 1, Pow2(f), PageSize);
      assert f > 0 ==> Pow2(f - 1) <= n;
      assert f > 0 ==> Pow2(f - 1) * PageSize <= n * PageSize by {
        if f > 0 { MulMonotone(Pow2(f - 1), n, PageSize); }
      }
      f
  }
}
