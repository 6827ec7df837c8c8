/**
 * The driver context of ps3vram.c: load (`ps3vram_init`), the block
 * strategy routine (`ps3vram_disk_strategy`) and unload (`ps3vram_destroy`).
 * The global `context` struct is a `Context` object; the kernel page table,
 * the hypervisor and the request are passed in.
 */
module Ps3Vram {
  import opened Base
  import opened Pmap
  import opened PageMapper
  import opened Broker
  import opened Transfer

  /** The fixed kernel virtual address of the mapping window. */
  const WINDOW_BASE: nat := 0x1_0000_0000

  /** `d_maxsize`: the largest single transfer, and so the size of the window. */
  const MAX_TRANSFER: nat := 1 * MiB

  /** The fields of the registered GEOM disk that the driver sets. */
  datatype Disk = Disk(name: string, maxsize: nat, sectorsize: nat, unit: nat, mediasize: nat, flags: nat)

  /** How a driver entry point ends: normally, or by a kernel panic. */
  datatype Outcome = Normal | Panic(message: string)

  /** The disk `ps3vram_init` registers for a granted region of `ddrSize` bytes. */
  function RegisteredDisk(ddrSize: nat): Disk
  {
    Disk("ps3vram", MAX_TRANSFER, PAGE_SIZE, 0, ddrSize, 0)
  }

  /**
   * The registered disk of any granted region: its media is a whole number
   * of sectors and a largest transfer spans 256 whole pages of the window.
   */
  lemma RegisteredGeometry(ddrSize: nat)
    requires ddrSize % MiB == 0
    ensures RegisteredDisk(ddrSize).mediasize % RegisteredDisk(ddrSize).sectorsize == 0
    ensures RegisteredDisk(ddrSize).maxsize % RegisteredDisk(ddrSize).sectorsize == 0
    ensures PageCount(RegisteredDisk(ddrSize).maxsize) == 256
  {
  }

  class Context {
    var ddrSize: nat
    var memoryHandle: nat
    var ddrLpar: nat
    var virtAddr: nat
    var diskBlocksize: nat
    var dsk: Option<Disk>
    /** Contents of the backing region: `ddr[k]` is the byte at physical address `ddrLpar + k`. */
    var ddr: array<byte>

    /** The state between a successful `ps3vram_init` and `ps3vram_destroy`. */
    ghost predicate Valid()
      reads this
    {
      && 0 < ddrSize <= INITIAL_DDR_SIZE && ddrSize % MiB == 0
      && ddr.Length == ddrSize
      && ddrLpar % PAGE_SIZE == 0
      && virtAddr == WINDOW_BASE
      && diskBlocksize == PAGE_SIZE
      && dsk == Some(RegisteredDisk(ddrSize))
    }

    /** No page of the mapping window is mapped: no transfer holds it. */
    ghost predicate WindowIdle(pt: PageTable)
      reads this
    {
      WindowPages(virtAddr, MAX_TRANSFER) !! pt.Keys
    }

    /** Byte `j < len` of the window resolves to byte `off + j` of the backing region. */
    ghost predicate WindowShows(pt: PageTable, off: nat, len: nat)
      reads this
    {
      forall va :: virtAddr <= va < virtAddr + len ==>
        Translate(pt, va) == Some(ddrLpar + off + (va - virtAddr))
    }

    /** The zero-filled global `context` before the module is loaded. */
    constructor ()
      ensures ddrSize == 0 && memoryHandle == 0 && ddrLpar == 0 && virtAddr == 0
      ensures diskBlocksize == 0 && dsk == None && ddr.Length == 0
    {
      ddrSize, memoryHandle, ddrLpar, virtAddr, diskBlocksize := 0, 0, 0, 0, 0;
      dsk := None;
      ddr := new byte[0];
    }

    /**
     * `ps3vram_init`: negotiate the region with the hypervisor, starting at
     * 256 MiB and stepping down by 1 MiB, then fix the window and register
     * the disk. `calls` records the sizes passed to the allocator.
     */
    method Init(allocate: nat -> Alloc) returns (st: Outcome, ghost calls: seq<nat>)
      requires forall size :: Accepts(allocate, size) ==> allocate(size).lpar % PAGE_SIZE == 0
      modifies this
      ensures calls == Attempts(allocate, INITIAL_DDR_SIZE)
      ensures st.Panic? <==> Negotiate(allocate, INITIAL_DDR_SIZE) == None
      ensures st.Normal? ==>
        && Valid() && fresh(ddr)
        && Negotiate(allocate, INITIAL_DDR_SIZE) == Some(ddrSize)
        && memoryHandle == allocate(ddrSize).handle
        && ddrLpar == allocate(ddrSize).lpar
    {
      ddrSize := INITIAL_DDR_SIZE;
      calls := [];
      ghost var outcome, trace := Negotiate(allocate, ddrSize), Attempts(allocate, ddrSize);
      while true
        invariant ddrSize % MiB == 0 && ddrSize <= INITIAL_DDR_SIZE
        invariant Negotiate(allocate, ddrSize) == outcome
        invariant calls + Attempts(allocate, ddrSize) == trace
        decreases ddrSize
      {
        if ddrSize == 0 {
          st := Panic("ps3vram: allocate gpu memory failed!");
          return;
        }
        var r := allocate(ddrSize);
        calls := calls + [ddrSize];
        if r.status == 0 {
          assert calls == trace && outcome == Some(ddrSize);
          memoryHandle, ddrLpar := r.handle, r.lpar;
          break;
        }
        assert Negotiate(allocate, ddrSize) == Negotiate(allocate, ddrSize - MiB);
        assert Attempts(allocate, ddrSize) == [ddrSize] + Attempts(allocate, ddrSize - MiB);
        ddrSize := ddrSize - MiB;
      }
      virtAddr := WINDOW_BASE;
      diskBlocksize := PAGE_SIZE;
      dsk := Some(Disk("ps3vram", MAX_TRANSFER, diskBlocksize, 0, ddrSize, 0));
      ddr := new byte[ddrSize];
      st := Normal;
    }

    /** Once the window is mapped onto `ddrLpar + off`, it shows the region from byte `off` on. */
    lemma MappedWindowShows(pt: PageTable, m: PageTable, off: nat, len: nat)
      requires virtAddr % PAGE_SIZE == 0 && (ddrLpar + off) % PAGE_SIZE == 0
      requires m == Mapped(pt, ddrLpar + off, virtAddr, len)
      ensures WindowShows(m, off, len)
    {
      forall va | virtAddr <= va < virtAddr + len
        ensures Translate(m, va) == Some(ddrLpar + off + (va - virtAddr))
      {
        MappedTranslates(pt, ddrLpar + off, virtAddr, len, va - virtAddr);
      }
    }

    /** Mapping and then unmapping at most a window's worth of bytes leaves an idle window's table as it was. */
    lemma IdleAfterTransfer(pt: PageTable, m: PageTable, off: nat, len: nat)
      requires WindowIdle(pt) && len <= MAX_TRANSFER
      requires m == Mapped(pt, ddrLpar + off, virtAddr, len)
      ensures Unmapped(m, virtAddr, len) == pt
    {
      forall va: nat | InWindow(virtAddr, len, va) ensures va !in pt {
        assert InWindow(virtAddr, MAX_TRANSFER, va);
      }
      MapThenUnmap(pt, ddrLpar + off, virtAddr, len);
    }

    /** `memcpy(dst, virt_addr, len)`: read `len` bytes through the window. */
    method CopyFromWindow(pm: KernelPmap, dst: array<byte>, ghost off: nat, len: nat)
      requires off + len <= ddr.Length && len <= dst.Length && dst != ddr
      requires WindowShows(pm.entries, off, len)
      modifies dst
      ensures dst[..len] == ddr[off..off + len]
      ensures dst[len..] == old(dst[len..])
    {
      var j := 0;
      while j < len
        invariant j <= len
        invariant forall k :: 0 <= k < j ==> dst[k] == ddr[off + k]
        invariant forall k :: j <= k < dst.Length ==> dst[k] == old(dst[k])
      {
        var pa := Translate(pm.entries, virtAddr + j).value;
        assert pa == ddrLpar + off + j;
        dst[j] := ddr[pa - ddrLpar];
        j := j + 1;
      }
      assert dst[..len] == ddr[off..off + len];
    }

    /** `memcpy(virt_addr, src, len)`: write `len` bytes through the window. */
    method CopyToWindow(pm: KernelPmap, src: array<byte>, ghost off: nat, len: nat)
      requires off + len <= ddr.Length && len <= src.Length && src != ddr
      requires WindowShows(pm.entries, off, len)
      modifies ddr
      ensures ddr[..] == Written(old(ddr[..]), off, src[..len])
    {
      var j := 0;
      while j < len
        invariant j <= len
        invariant forall k :: 0 <= k < j ==> ddr[off + k] == src[k]
        invariant forall k :: 0 <= k < ddr.Length && !(off <= k < off + j) ==> ddr[k] == old(ddr[k])
      {
        var pa := Translate(pm.entries, virtAddr + j).value;
        assert pa == ddrLpar + off + j;
        ddr[pa - ddrLpar] := src[j];
        j := j + 1;
      }
      ghost var w := Written(old(ddr[..]), off, src[..len]);
      forall k | off <= k < off + len ensures ddr[k] == w[k] {
        assert w[k] == w[off..off + len][k - off];
      }
    }

    /**
     * `ps3vram_disk_strategy`: serve one request by mapping the window onto
     * `ddrLpar + offset`, copying through it and unmapping it again. A
     * command other than read or write panics before anything is touched.
     */
    method Strategy(pm: KernelPmap, bp: Bio) returns (st: Outcome)
      requires Valid() && WindowIdle(pm.entries)
      requires bp.data != ddr
      requires bp.offset % PAGE_SIZE == 0 && bp.length <= MAX_TRANSFER
      requires bp.offset + bp.length <= ddrSize && bp.length <= bp.data.Length
      modifies pm, bp`error, bp`resid, bp`flags, bp.data, ddr
      ensures st.Panic? <==> bp.cmd != BIO_READ && bp.cmd != BIO_WRITE
      ensures st.Panic? ==> unchanged(pm) && unchanged(bp) && unchanged(bp.data) && unchanged(ddr)
      ensures st.Normal? ==>
        && pm.entries == old(pm.entries)
        && bp.error == 0 && bp.resid == 0 && bp.flags == old(bp.flags) | BIO_DONE
      ensures bp.cmd == BIO_READ ==>
        && bp.data[..bp.length] == old(ddr[bp.offset..bp.offset + bp.length])
        && bp.data[bp.length..] == old(bp.data[bp.length..])
        && unchanged(ddr)
      ensures bp.cmd == BIO_WRITE ==>
        && ddr[..] == Written(old(ddr[..]), bp.offset, old(bp.data[..bp.length]))
        && unchanged(bp.data)
    {
      if bp.cmd != BIO_READ && bp.cmd != BIO_WRITE {
        return Panic("bad!");
      }
      var offset := bp.offset;
      ghost var pt := pm.entries;
      MapLparToEa(pm, ddrLpar + offset, virtAddr, bp.length);
      ghost var mapped := pm.entries;
      assert (ddrLpar + offset) % PAGE_SIZE == 0;
      MappedWindowShows(pt, mapped, offset, bp.length);
      if bp.cmd == BIO_READ {
        CopyFromWindow(pm, bp.data, offset, bp.length);
      } else if bp.cmd == BIO_WRITE {
        CopyToWindow(pm, bp.data, offset, bp.length);
      } else {
        assert false;
      }
      ghost var data, memory := bp.data[..], ddr[..];
      UnmapLparFromEa(pm, virtAddr, bp.length);
      IdleAfterTransfer(pt, mapped, offset, bp.length);
      bp.error := 0;
      bp.resid := 0;
      bp.flags := bp.flags | BIO_DONE;
      assert bp.data[..] == data && ddr[..] == memory;
      st := Normal;
    }

    /**
     * `ps3vram_destroy`: deregister the disk and free the region; a nonzero
     * status from the hypervisor is fatal.
     */
    method Destroy(free: nat -> int) returns (st: Outcome)
      requires Valid()
      modifies this`dsk
      ensures dsk == None
      ensures st.Panic? <==> free(memoryHandle) != 0
    {
      dsk := None;
      var err := free(memoryHandle);
      if err != 0 {
        return Panic("ps3vram: free gpu memory failed!");
      }
      st := Normal;
    }
  }

  /**
   * A write followed by a read of the same range returns the written bytes,
   * and leaves the window idle for the next request.
   */
  method WriteThenRead(ctx: Context, pm: KernelPmap, w: Bio, r: Bio)
    requires ctx.Valid() && ctx.WindowIdle(pm.entries)
    requires w.cmd == BIO_WRITE && r.cmd == BIO_READ
    requires w.data != ctx.ddr && r.data != ctx.ddr
    requires w.offset == r.offset && w.length == r.length
    requires w.offset % PAGE_SIZE == 0 && w.length <= MAX_TRANSFER
    requires w.offset + w.length <= ctx.ddrSize
    requires w.length <= w.data.Length && r.length <= r.data.Length
    modifies pm, w`error, w`resid, w`flags, r`error, r`resid, r`flags, w.data, r.data, ctx.ddr
    ensures r.data[..r.length] == old(w.data[..w.length])
    ensures r.Done() && r.error == 0 && ctx.WindowIdle(pm.entries)
  {
    var st := ctx.Strategy(pm, w);
    st := ctx.Strategy(pm, r);
  }
}
