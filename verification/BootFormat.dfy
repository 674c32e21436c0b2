/**
 Boot memory in numbers: the memory slots and the e820 map, the page tables, and the fields of an ELF file (gABI,
 chapters 4 and 5) that the loader goes by.
 */
module BootFormat {
  import opened Words
  import opened GuestMemory
  import MemoryLayout
  import PageTables
  import Elf
  import IoDispatch

  // ---- memory slots and e820 map ----

  /** Less than 3.25 GiB: one slot; the guest is told of all but 0x9fc00 to 1 MiB. Below 1 MiB the difference wraps. */
  lemma SmallMemory(mem: u64)
    requires mem < 0xd000_0000
    ensures MemoryLayout.MappingSize(mem) == mem
    ensures MemoryLayout.Slots(mem) == [MemoryLayout.MemorySlot(0, Range(0, mem), 0)]
    ensures 0x10_0000 <= mem ==> MemoryLayout.E820(mem) == [Range(0, 0x9fc00), Range(0x10_0000, mem - 0x10_0000)]
    ensures mem < 0x10_0000 ==>
      MemoryLayout.E820(mem) == [Range(0, 0x9fc00), Range(0x10_0000, 0xffff_ffff_fff0_0000 + mem)]
  {
  }

  /** Within 768 MiB of 2^64 the mapping size wraps: the guest gets one slot of what is left. */
  lemma HugeMemory(mem: u64)
    requires mem + 0x3000_0000 >= 0x1_0000_0000_0000_0000
    ensures var size := mem + 0x3000_0000 - 0x1_0000_0000_0000_0000;
      && MemoryLayout.MappingSize(mem) == size
      && MemoryLayout.Slots(size) == [MemoryLayout.MemorySlot(0, Range(0, size), 0)]
  {
  }

  /** From there on: slot 0 up to 0xd0000000, slot 1 from 4 GiB with the rest; the mapping has a gap of 768 MiB. */
  lemma LargeMemory(mem: u64)
    requires 0xd000_0000 <= mem && mem + 0x3000_0000 < 0x1_0000_0000_0000_0000
    ensures MemoryLayout.MappingSize(mem) == mem + 0x3000_0000
    ensures MemoryLayout.Slots(mem + 0x3000_0000)
         == [MemoryLayout.MemorySlot(0, Range(0, 0xd000_0000), 0),
             MemoryLayout.MemorySlot(1, Range(0x1_0000_0000, mem - 0xd000_0000), 0x1_0000_0000)]
    ensures MemoryLayout.E820(mem + 0x3000_0000)
         == [Range(0, 0x9fc00), Range(0x10_0000, 0xcff0_0000), Range(0x1_0000_0000, mem - 0xd000_0000)]
  {
  }

  /** No two slots have the same number: the second registration does not replace the first. */
  lemma SlotIdsAreDistinct(mem: u64, i: nat, j: nat)
    requires i < j < |MemoryLayout.Slots(MemoryLayout.MappingSize(mem))|
    ensures var slots := MemoryLayout.Slots(MemoryLayout.MappingSize(mem)); slots[i].id == i && slots[j].id == j
    ensures |MemoryLayout.Slots(MemoryLayout.MappingSize(mem))| <= 2
  {
  }

  // ---- device windows ----

  /** The keyboard and the four serial ports are reached at the ports where the guest's drivers look for them. */
  lemma PortDeviceIsReached(ws: seq<IoDispatch.Window>, addr: u64, width: u64, port: u64)
    requires multiset(ws) == multiset(IoDispatch.PORT_WINDOWS) && addr <= port < addr + width
    requires (addr == 0x60 && width == 5) || (addr in {0x3f8, 0x2f8, 0x3e8, 0x2e8} && width == 8)
    ensures IoDispatch.Target(ws, port) == Some(IoDispatch.Window(addr, width))
  {
    var w, known := IoDispatch.Window(addr, width), IoDispatch.PORT_WINDOWS;
    assert w == known[0] || w == known[1] || w == known[2] || w == known[3] || w == known[4];
    hide *;
    assert w in known && w in multiset(ws);
    IoDispatch.InRangePlainly(w, port);
    IoDispatch.RegisteredDeviceIsReached(ws, w, port);
  }

  /** The block, entropy and network device at their pages from 0xd0000000 on. */
  lemma VirtioDeviceIsReached(ws: seq<IoDispatch.Window>, addr: u64, port: u64)
    requires multiset(ws) == multiset(IoDispatch.VIRTIO_WINDOWS) && addr <= port < addr + 0x1000
    requires addr in {0xd000_0000, 0xd000_1000, 0xd000_2000}
    ensures IoDispatch.Target(ws, port) == Some(IoDispatch.Window(addr, 0x1000))
  {
    var w, known := IoDispatch.Window(addr, 0x1000), IoDispatch.VIRTIO_WINDOWS;
    assert w == known[0] || w == known[1] || w == known[2];
    hide *;
    assert w in known && w in multiset(ws);
    IoDispatch.InRangePlainly(w, port);
    IoDispatch.RegisteredDeviceIsReached(ws, w, port);
  }

  /** No address of a virtio device is guest memory: the windows lie in the gap, whatever the memory size. */
  lemma DevicesAreNotMemory(mem: u64, port: u64)
    requires MemoryLayout.Fits(mem) && 0xd000_0000 <= port < 0xd000_3000
    ensures !MemoryLayout.InSlot(MemoryLayout.Slots(MemoryLayout.MappingSize(mem)), port)
  {
    hide MemoryLayout.Slots, MemoryLayout.InSlot;
    if MemoryLayout.InSlot(MemoryLayout.Slots(MemoryLayout.MappingSize(mem)), port) {
      MemoryLayout.TranslationIsSound(mem, port);
    }
  }

  // ---- page tables ----

  /** PML4 at 0x9000, PDPT at 0xa000, page directory at 0xb000: present and writable, 2-MByte pages. */
  lemma TableEntries(m: Bytes, k: nat)
    requires 0xc000 <= |m| && k < 512
    ensures var m' := PageTables.WithTables(m);
      && |m'| == |m| && U64At(m', 0x9000) == 0xa003 && U64At(m', 0xa000) == 0xb003
      && U64At(m', 0xb000 + 8 * k) == 0x20_0000 * k + 0x83
  {
    hide LeValue, U64At, PageTables.WithTables;
    PageTables.TablesRead(m);
  }

  /** Every other byte of guest memory is kept. */
  lemma TablesFrame(m: Bytes, i: nat)
    requires 0xc000 <= |m| && i < |m|
    requires !(0x9000 <= i < 0x9008) && !(0xa000 <= i < 0xa008) && !(0xb000 <= i < 0xc000)
    ensures PageTables.WithTables(m)[i] == m[i]
  {
    hide LeBytes, PageTables.PdeBytes, Splice;
    var m1 := Splice(m, 0x9000, PageTables.Pointer(0xa));
    var m2 := Splice(m1, 0xa000, PageTables.Pointer(0xb));
    SpliceAt(m, 0x9000, PageTables.Pointer(0xa), i);
    SpliceAt(m1, 0xa000, PageTables.Pointer(0xb), i);
    SpliceAt(m2, 0xb000, PageTables.PdeBytes(512), i);
  }

  /** With 0x9000 in cr3 the first GByte is mapped to itself, and with nothing else in the upper tables only that. */
  lemma FirstGigabyte(m: Bytes, va: nat)
    requires 0xc000 <= |m| && va < 0x1_0000_0000_0000
    ensures va < 0x4000_0000 ==>
      PageTables.WalkPage(PageTables.WithTables(m), 0x9000, va) == Some(PageTables.Mapping(va, true))
    ensures PageTables.UpperTablesClear(m) && 0x4000_0000 <= va ==>
      PageTables.WalkPage(PageTables.WithTables(m), 0x9000, va) == None
  {
    hide PageTables.WalkPage, PageTables.WithTables, PageTables.UpperTablesClear;
    if va < 0x4000_0000 {
      PageTables.IdentityBelowOneGb(m, va);
    } else if PageTables.UpperTablesClear(m) {
      PageTables.MapsFirstGbOnly(m, va);
    }
  }

  // ---- ELF files ----

  /** Headers: number at 56, place at 32, 56 bytes each; type at 0, offset at 8, address at 24, sizes at 32 and 40. */
  lemma ProgramHeader(file: Bytes, i: nat)
    requires Elf.Readable(file) && i < |Elf.Phdrs(file)|
    ensures |file| >= 64 && |Elf.Phdrs(file)| == U16At(file, 56) && U64At(file, 32) + 56 * (i + 1) <= |file|
    ensures var a, p := U64At(file, 32) + 56 * i, Elf.Phdrs(file)[i];
      && p.kind == U32At(file, a) && p.offset == U64At(file, a + 8) && p.paddr == U64At(file, a + 24)
      && p.filesz == U64At(file, a + 32) && p.memsz == U64At(file, a + 40)
  {
    hide U16At, U32At, U64At;
  }

  /** A loadable segment is malformed if its file image is empty or longer than the segment. */
  predicate Bad(p: Elf.Phdr) { p.kind == 1 && (p.filesz == 0 || p.filesz > p.memsz) }

  /** Type 1 is loaded, unless malformed; other types are passed over. */
  lemma LoadedTypes(p: Elf.Phdr)
    ensures p.Malformed() <==> Bad(p)
    ensures p.Copied() <==> p.kind == 1 && 0 < p.filesz <= p.memsz
  {
  }

  /** What is reported: no ELF file, -EINVAL exactly if there is a malformed segment, else the entry point. */
  lemma ResultMeans(file: Bytes)
    requires Elf.Readable(file)
    ensures |file| >= 64
    ensures Elf.Result(file) == Elf.NotElf <==> file[0..4] != [0x7f, 'E' as int, 'L' as int, 'F' as int]
    ensures Elf.Result(file).Returned? && (exists i :: 0 <= i < |Elf.Phdrs(file)| && Bad(Elf.Phdrs(file)[i])) ==>
      Elf.Result(file).value == 0x1_0000_0000_0000_0000 - 22
    ensures Elf.Result(file).Returned? && (forall i :: 0 <= i < |Elf.Phdrs(file)| ==> !Bad(Elf.Phdrs(file)[i])) ==>
      Elf.Result(file).value == U64At(file, 24)
  {
    hide U16At, U32At, U64At, Elf.Phdrs;
    var ps := Elf.Phdrs(file);
    var n := Elf.Processed(ps);
    forall i | 0 <= i < |ps|
      ensures ps[i].Malformed() <==> Bad(ps[i])
    {
      LoadedTypes(ps[i]);
    }
  }

  /** So for a file with the given headers: the entry point if none of them is malformed, else -EINVAL. */
  lemma EntryIsReturned(entry: u64, ps: seq<Elf.Phdr>, contents: Bytes)
    requires |ps| < TWO_TO_THE_16
    ensures Elf.Readable(Elf.ElfFile(entry, ps, contents))
    ensures Elf.Result(Elf.ElfFile(entry, ps, contents))
         == if forall i :: 0 <= i < |ps| ==> !Bad(ps[i]) then Elf.Returned(entry)
            else Elf.Returned(0x1_0000_0000_0000_0000 - 22)
  {
    hide U16At, U32At, U64At, Elf.Phdrs, Elf.ElfFile, Elf.Readable, Elf.Processed, Bad, Elf.Result;
    Elf.ElfFileReadsBack(entry, ps, contents);
    ResultMeans(Elf.ElfFile(entry, ps, contents));
  }
}
