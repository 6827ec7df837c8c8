/**
 * The kernel page-table primitives the driver relies on, abstracted as a
 * finite map from virtual page address to physical address and a memory
 * attribute. `pmap_kenter_attr` becomes an insertion, `pmap_kremove` a
 * removal; the attribute is kept only as a tag.
 */
module Pmap {
  import opened Base

  /** The host page size (4 KiB on the PowerPC kernels the driver targets). */
  const PAGE_SIZE: nat := 4096

  /** Cacheability of a kernel mapping: the kernel's default or `VM_MEMATTR_UNCACHEABLE`. */
  datatype MemAttr = Default | Uncacheable

  datatype Entry = Entry(pa: nat, attr: MemAttr)

  /** Virtual page address |-> mapping of that page. */
  type PageTable = map<nat, Entry>

  /** The address of the page that contains `a`. */
  function PageOf(a: nat): (p: nat)
    ensures p <= a < p + PAGE_SIZE
    ensures p % PAGE_SIZE == 0
  {
    a - a % PAGE_SIZE
  }

  /**
   * The physical address that the virtual address `va` resolves to, if its
   * page is mapped: the page frame comes from the entry, the offset within
   * the page from `va`.
   */
  function Translate(pt: PageTable, va: nat): (r: Option<nat>)
    ensures r.Some? <==> PageOf(va) in pt
    ensures r.Some? ==> r.value % PAGE_SIZE == va % PAGE_SIZE
  {
    var page := PageOf(va);
    if page in pt then Some(PageOf(pt[page].pa) + va % PAGE_SIZE) else None
  }

  /** The kernel's own page table (the kernel pmap). */
  class KernelPmap {
    var entries: PageTable

    constructor ()
      ensures entries == map[]
    {
      entries := map[];
    }

    /** `pmap_kenter_attr(va, pa, attr)`: install (or replace) the mapping of one page. */
    method KEnterAttr(va: nat, pa: nat, attr: MemAttr)
      requires va % PAGE_SIZE == 0
      modifies this
      ensures entries == old(entries)[va := Entry(pa, attr)]
    {
      entries := entries[va := Entry(pa, attr)];
    }

    /** `pmap_kremove(va)`: remove the mapping of one page, if any. */
    method KRemove(va: nat)
      requires va % PAGE_SIZE == 0
      modifies this
      ensures entries == old(entries) - {va}
    {
      entries := entries - {va};
    }
  }
}
