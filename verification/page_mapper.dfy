/**
 * The page mapper of ps3vram.c: `map_lpar_to_ea` installs one uncacheable
 * mapping per page-sized stride of a range, `unmap_lpar_from_ea` removes
 * them again. Both are loops over the kernel page table, specified here by
 * the functions `Mapped` and `Unmapped` on the table's value.
 */
module PageMapper {
  import opened Base
  import opened Pmap

  /**
   * The virtual pages the loops visit for a range of `size` bytes at `ea`:
   * `ea + i` for `i = 0, PAGE_SIZE, 2 * PAGE_SIZE, ...` while `i < size`.
   */
  function WindowPages(ea: nat, size: nat): set<nat>
  {
    set va: nat | ea <= va < ea + size && InWindow(ea, size, va)
  }

  /** `va` is one of the pages the loops visit for `size` bytes at `ea`. */
  predicate InWindow(ea: nat, size: nat, va: nat)
  {
    ea <= va < ea + size && (va - ea) % PAGE_SIZE == 0
  }

  /** Whole pages needed to cover `size` bytes, rounding up. */
  function PageCount(size: nat): nat
  {
    (size + PAGE_SIZE - 1) / PAGE_SIZE
  }

  /** The page table after mapping `size` bytes at virtual `ea` onto physical `lpar`. */
  function Mapped(pt: PageTable, lpar: nat, ea: nat, size: nat): PageTable
  {
    map va | va in pt.Keys + WindowPages(ea, size) ::
      if va in WindowPages(ea, size) then Entry(lpar + (va - ea), Uncacheable) else pt[va]
  }

  /** The page table after unmapping `size` bytes at virtual `ea`. */
  function Unmapped(pt: PageTable, ea: nat, size: nat): PageTable
  {
    pt - WindowPages(ea, size)
  }

  /** One more stride adds exactly one new page to the window. */
  lemma StrideStep(ea: nat, i: nat)
    requires i % PAGE_SIZE == 0
    ensures WindowPages(ea, i + PAGE_SIZE) == WindowPages(ea, i) + {ea + i}
    ensures ea + i !in WindowPages(ea, i)
  {
    var next := i + PAGE_SIZE;
    forall va: nat | InWindow(ea, next, va)
      ensures va in WindowPages(ea, i) + {ea + i}
    {
      if va >= ea + i {
        assert va - ea - i < PAGE_SIZE;
        assert (va - ea - i) % PAGE_SIZE == 0;
      }
    }
  }

  /**
   * A loop counter that stepped past `size` by less than a page has visited
   * the same pages as `size` itself.
   */
  lemma SameStrides(ea: nat, i: nat, size: nat)
    requires i % PAGE_SIZE == 0 && size <= i < size + PAGE_SIZE
    ensures WindowPages(ea, i) == WindowPages(ea, size)
  {
    forall va: nat | InWindow(ea, i, va)
      ensures va < ea + size
    {
      assert va - ea <= i - PAGE_SIZE;
    }
  }

  /**
   * The range is rounded up, not truncated: `size` bytes map exactly the
   * pages of `PageCount(size)` whole pages, so a partial last page is mapped.
   */
  lemma MappingRoundsUp(ea: nat, size: nat)
    ensures WindowPages(ea, size) == WindowPages(ea, PageCount(size) * PAGE_SIZE)
    ensures size > 0 ==> ea + (PageCount(size) - 1) * PAGE_SIZE in WindowPages(ea, size)
  {
    SameStrides(ea, PageCount(size) * PAGE_SIZE, size);
  }

  /** The loops touch exactly `PageCount(size)` pages. */
  lemma {:induction false} WindowPagesCount(ea: nat, size: nat)
    ensures |WindowPages(ea, size)| == PageCount(size)
    decreases size
  {
    if size == 0 {
      assert WindowPages(ea, 0) == {};
    } else {
      var last := (PageCount(size) - 1) * PAGE_SIZE;
      SameStrides(ea, last + PAGE_SIZE, size);
      StrideStep(ea, last);
      WindowPagesCount(ea, last);
    }
  }

  /** Mapping one more stride is one `pmap_kenter_attr` on the table mapped so far. */
  lemma MappedStep(pt: PageTable, lpar: nat, ea: nat, i: nat)
    requires i % PAGE_SIZE == 0
    ensures Mapped(pt, lpar, ea, i + PAGE_SIZE) == Mapped(pt, lpar, ea, i)[ea + i := Entry(lpar + i, Uncacheable)]
  {
    StrideStep(ea, i);
  }

  /**
   * What mapping does to the table: every window page maps uncacheable onto
   * the same offset of the physical range, and every other page is untouched.
   */
  lemma MappedExactly(pt: PageTable, lpar: nat, ea: nat, size: nat)
    ensures Mapped(pt, lpar, ea, size).Keys == pt.Keys + WindowPages(ea, size)
    ensures forall i :: 0 <= i < size && i % PAGE_SIZE == 0 ==>
      Mapped(pt, lpar, ea, size)[ea + i] == Entry(lpar + i, Uncacheable)
    ensures forall va :: va in pt && va !in WindowPages(ea, size) ==> Mapped(pt, lpar, ea, size)[va] == pt[va]
  {
    forall i | 0 <= i < size && i % PAGE_SIZE == 0
      ensures Mapped(pt, lpar, ea, size)[ea + i] == Entry(lpar + i, Uncacheable)
    {
      assert ea + i in WindowPages(ea, size);
    }
  }

  /** Unmapping removes exactly the window pages and leaves every other entry alone. */
  lemma UnmappedExactly(pt: PageTable, ea: nat, size: nat)
    ensures Unmapped(pt, ea, size).Keys == pt.Keys - WindowPages(ea, size)
    ensures forall i :: 0 <= i < size && i % PAGE_SIZE == 0 ==> ea + i !in Unmapped(pt, ea, size)
    ensures forall va :: va in Unmapped(pt, ea, size) ==> Unmapped(pt, ea, size)[va] == pt[va]
  {
    forall i | 0 <= i < size && i % PAGE_SIZE == 0
      ensures ea + i !in Unmapped(pt, ea, size)
    {
      assert ea + i in WindowPages(ea, size);
    }
  }

  /** Map followed by unmap of the same window gives back a table in which the window was free. */
  lemma MapThenUnmap(pt: PageTable, lpar: nat, ea: nat, size: nat)
    requires WindowPages(ea, size) !! pt.Keys
    ensures Unmapped(Mapped(pt, lpar, ea, size), ea, size) == pt
  {
    var r := Unmapped(Mapped(pt, lpar, ea, size), ea, size);
    assert r.Keys == pt.Keys;
    forall va | va in pt ensures r[va] == pt[va] {
      assert va !in WindowPages(ea, size);
    }
  }

  /**
   * With a page-aligned window and physical base, byte `j` of the mapped
   * window resolves to physical address `lpar + j`.
   */
  lemma MappedTranslates(pt: PageTable, lpar: nat, ea: nat, size: nat, j: nat)
    requires ea % PAGE_SIZE == 0 && lpar % PAGE_SIZE == 0 && j < size
    ensures Translate(Mapped(pt, lpar, ea, size), ea + j) == Some(lpar + j)
  {
    var off := j - j % PAGE_SIZE;
    assert PageOf(ea + j) == ea + off;
    assert ea + off in WindowPages(ea, size);
    assert Mapped(pt, lpar, ea, size)[ea + off] == Entry(lpar + off, Uncacheable);
    assert PageOf(lpar + off) == lpar + off;
  }

  /** `map_lpar_to_ea`: map `size` bytes at virtual `eaAddr` onto physical `lparAddr`, page by page. */
  method MapLparToEa(pm: KernelPmap, lparAddr: nat, eaAddr: nat, size: nat)
    requires eaAddr % PAGE_SIZE == 0
    modifies pm
    ensures pm.entries == Mapped(old(pm.entries), lparAddr, eaAddr, size)
  {
    var i: nat := 0;
    while i < size
      invariant i % PAGE_SIZE == 0
      invariant i < size + PAGE_SIZE
      invariant pm.entries == Mapped(old(pm.entries), lparAddr, eaAddr, i)
    {
      MappedStep(old(pm.entries), lparAddr, eaAddr, i);
      pm.KEnterAttr(eaAddr + i, lparAddr + i, Uncacheable);
      i := i + PAGE_SIZE;
    }
    SameStrides(eaAddr, i, size);
  }

  /** `unmap_lpar_from_ea`: remove the mappings of `size` bytes at virtual `eaAddr`, page by page. */
  method UnmapLparFromEa(pm: KernelPmap, eaAddr: nat, size: nat)
    requires eaAddr % PAGE_SIZE == 0
    modifies pm
    ensures pm.entries == Unmapped(old(pm.entries), eaAddr, size)
  {
    var i: nat := 0;
    while i < size
      invariant i % PAGE_SIZE == 0
      invariant i < size + PAGE_SIZE
      invariant pm.entries == Unmapped(old(pm.entries), eaAddr, i)
    {
      StrideStep(eaAddr, i);
      pm.KRemove(eaAddr + i);
      i := i + PAGE_SIZE;
    }
    SameStrides(eaAddr, i, size);
  }
}
