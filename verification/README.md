# ps3vram in Dafny

A verified model of `ps3vram.c`, the FreeBSD driver that makes a
hypervisor-allocated region of PlayStation 3 video memory (the "DDR" region)
available as the GEOM block disk `ps3vram`.

The driver has four pieces of logic, and the model keeps each one in the form
the C code gives it:

- **Page mapper** (`PageMapper`). `map_lpar_to_ea` and `unmap_lpar_from_ea`
  are loops that step by `PAGE_SIZE`. They install or remove one kernel page
  mapping per stride. Here they are methods over a `KernelPmap` object
  (module `Pmap`). Its `entries` map takes each virtual page address to a
  physical address and a cacheability tag. The loops are proved against the
  functions `Mapped` and `Unmapped`, and the lemmas state exactly which pages
  change.
- **Memory broker** (`Broker`). The loop in `ps3vram_init` asks the
  hypervisor for 256 MiB. After each refusal it asks for 1 MiB less, and it
  panics once the request reaches 0. The hypervisor call is an oracle,
  `allocate: nat -> Alloc`. `Negotiate` and `Attempts` specify the loop's
  result and the sequence of calls it makes.
- **Transfer strategy** (`Ps3Vram.Context.Strategy`). The routine rejects a
  command other than read or write. It maps the window at `0x100000000` onto
  `ddr_lpar + bio_offset` and copies through the window. Each byte is
  resolved through the page table, as the MMU would do it. It then unmaps the
  window and completes the bio.
- **Lifecycle** (`Ps3Vram.Context.Init`, `Destroy`). `Init` registers the
  disk geometry. `Destroy` deregisters the disk and treats a failed free as
  fatal.

The global `struct ps3vram_context_s context` becomes the class
`Ps3Vram.Context`. The backing region becomes its array `ddr`: `ddr[k]` is
the byte at physical address `ddr_lpar + k`. A `struct bio` becomes a
`Transfer.Bio` object. A kernel panic becomes the outcome `Panic(message)`.
The model does not follow control into the dead code that comes after a
panic.

The guard `i < size` (ps3vram.c:26, 38) takes one more stride for a partial
last page, so the loops round the length up to whole pages instead of
truncating it. The commented-out `size % PAGE_SIZE` checks (ps3vram.c:23-24,
35-36) show the author expected page-aligned sizes.
`PageMapper.MappingRoundsUp` states this.

## Model

| member | source | states |
|---|---|---|
| Pmap.KernelPmap.KEnterAttr | ps3vram.c:28-29 | `pmap_kenter_attr` as an update: the table afterwards is the old one with exactly the page `va` mapped to `pa` with the given attribute |
| Pmap.KernelPmap.KRemove | ps3vram.c:40 | `pmap_kremove` as a removal: the table afterwards is the old one without the page `va` |
| Pmap.Translate | ps3vram.c:98-100 | an address through the window resolves if and only if its page is mapped, and it keeps its offset within the page |
| PageMapper.MapLparToEa | ps3vram.c:21-31 | the loop leaves the page table equal to `Mapped(old table, lpar, ea, size)`, which covers every stride `i < size` including a partial last page |
| PageMapper.UnmapLparFromEa | ps3vram.c:33-42 | the loop leaves the page table equal to `Unmapped(old table, ea, size)`, the old table without the same strides |
| PageMapper.MappedExactly | ps3vram.c:26-30 | after mapping, the keys are the old keys plus the window pages; each `ea + i` for a stride `i < size` maps uncacheable onto `lpar + i`; every other entry is unchanged |
| PageMapper.UnmappedExactly | ps3vram.c:38-41 | after unmapping, the keys are the old keys minus the window pages; no `ea + i` stride is mapped; every remaining entry is unchanged |
| PageMapper.WindowPagesCount | ps3vram.c:26 | the loops touch exactly ⌈size / PAGE_SIZE⌉ pages |
| PageMapper.MappingRoundsUp | ps3vram.c:23-26 | the length is rounded up to whole pages, not truncated: `size` bytes touch the same pages as ⌈size / PAGE_SIZE⌉ whole pages, and the partial last page is among them |
| PageMapper.MapThenUnmap | ps3vram.c:95-104 | mapping and then unmapping the same window restores a table in which the window pages were free |
| PageMapper.MappedTranslates | ps3vram.c:95-100 | once mapped, with a page-aligned window and physical base, byte `j < size` of the window resolves to physical `lpar + j` |
| Broker.NegotiateGrantsLargest | ps3vram.c:121-134 | a granted size is nonzero, a multiple of 1 MiB, at most the first request and accepted by the allocator; every larger multiple of 1 MiB up to the first request was refused |
| Broker.NegotiateFailsIffAllRefused | ps3vram.c:123-126 | the loop panics if and only if the allocator refuses every size from the first request down to 1 MiB |
| Broker.AttemptsStepDown | ps3vram.c:121-133 | the k-th request is the first request minus k MiB and is never 0; the requests end with the granted size, or after `size / MiB` refusals when the loop panics |
| Transfer.Written | ps3vram.c:100 | a write through the window leaves the target range holding the source bytes and every other byte of the region unchanged |
| Transfer.WriteBackUnchanged | ps3vram.c:97-100 | writing back the bytes a read of the same range returned leaves the region unchanged |
| Transfer.LastWriteWins | ps3vram.c:100 | of two writes to the same range, the second determines the contents |
| Ps3Vram.RegisteredGeometry | ps3vram.c:144-156 | the registered media size is a whole number of sectors, and the largest transfer is a whole number of sectors spanning 256 window pages |
| Ps3Vram.Context.constructor | ps3vram.c:60 | the global context starts zero-filled, with no disk registered |
| Ps3Vram.Context.Init | ps3vram.c:115-164 | the calls made to the allocator are `Attempts(allocate, 256 MiB)`; the loop panics exactly when `Negotiate` fails; otherwise the context is valid: `ddr_size` is the negotiated size, the handle and `ddr_lpar` come from the accepting call, the window is `0x100000000`, and the disk has `d_mediasize == ddr_size`, `d_sectorsize == PAGE_SIZE` and `d_maxsize == 1 MiB` |
| Ps3Vram.Context.MappedWindowShows | ps3vram.c:95-100 | after `map_lpar_to_ea(ddr_lpar + offset, virt_addr, len)`, byte `j < len` of the window is byte `offset + j` of the region |
| Ps3Vram.Context.IdleAfterTransfer | ps3vram.c:93-106 | if the window was idle, mapping and unmapping at most 1 MiB through it leaves the page table exactly as it was |
| Ps3Vram.Context.CopyFromWindow | ps3vram.c:98 | `memcpy` out of the window: the first `len` bytes of the buffer become region bytes `off..off+len`, and the rest of the buffer is unchanged |
| Ps3Vram.Context.CopyToWindow | ps3vram.c:100 | `memcpy` into the window: the region becomes `Written(old region, off, buffer[..len])` |
| Ps3Vram.Context.Strategy | ps3vram.c:72-113 | a command other than READ or WRITE panics and changes nothing. READ fills `bio_data[..bio_length]` from region bytes `bio_offset..` and leaves the region unchanged. WRITE stores `bio_data[..bio_length]` there and changes no other byte. On success `bio_error == 0`, `bio_resid == 0`, `BIO_DONE` is added to `bio_flags`, and the page table equals its state before the call |
| Ps3Vram.Context.Destroy | ps3vram.c:166-181 | the disk is deregistered; the call panics if and only if the hypervisor's free returns a nonzero status |
| Ps3Vram.WriteThenRead | ps3vram.c:89-112 | a WRITE followed by a READ of the same range returns the written bytes, completes the read with `BIO_DONE` and error 0, and leaves the window idle |

## Left out

- The mutex (ps3vram.c:15-19, 93, 106, 119, 177). Each strategy call is modelled as one atomic step, so the exclusive use of the window is the precondition `WindowIdle`, which every call re-establishes.
- The hypervisor calls `lv1_gpu_memory_allocate` and `lv1_gpu_memory_free` are oracle parameters (`allocate`, `free`). Values the hypervisor may write into the out-parameters on a refused call are not modelled. The hypervisor is assumed to return a page-aligned physical base on an accepted call (a requires of `Init`).
- The initial contents of the video memory are not specified. The array starts zero-filled, and no contract depends on that.
- GEOM plumbing: `disk_alloc`, `disk_create`, `disk_destroy` and `biodone`. The registered disk is a record with its name, `d_maxsize`, `d_sectorsize`, `d_unit`, `d_mediasize` and `d_flags`. The `d_open`, `d_close` and `d_strategy` function pointers and the module registration (ps3vram.c:183-199) are not modelled. `biodone` is visible only as the `BIO_DONE` flag.
- `ps3vram_disk_open` and `ps3vram_disk_close` always return 0 and are not modelled. `printf` logging is not modelled.
- The code after each `panic` (ps3vram.c:82-86, 102) is unreachable and is not modelled.
- The mapping loops: addresses are unbounded integers, so the 64-bit wrap-around of `i += PAGE_SIZE` and of `ea_addr + i` is not modelled. From the driver it is unreachable, because `bio_length <= d_maxsize = 1 MiB`.
- Ps3Vram.Context.Strategy: requires what GEOM guarantees for a request to this disk: a page-aligned offset (the sector size is `PAGE_SIZE`), `bio_length <= d_maxsize`, `bio_offset + bio_length <= d_mediasize`, and a data buffer of at least `bio_length` bytes that is not the video memory. The driver itself checks none of these.
- `Pmap.Translate` is the model's own account of how the MMU resolves a window address (page frame from the entry, offset within the page from the address). The source only relies on this implicitly, through `memcpy` on `virt_addr`.
