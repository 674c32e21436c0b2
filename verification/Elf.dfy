/** The ELF loader of src/elf/elf.h: program headers are read from the file, segments copied to physical memory. */
module Elf {
  import opened Words
  import opened GuestMemory

  const EHDR_SIZE: nat := 64
  const PHDR_SIZE: nat := 56
  const PT_LOAD: nat := 1
  const ELF_MAGIC: Bytes := [0x7f, 0x45, 0x4c, 0x46]

  datatype Phdr = Phdr(kind: u32, offset: u64, paddr: u64, filesz: u64, memsz: u64) {
    /** The two checks of the loader. */
    predicate Malformed() { kind == PT_LOAD && (filesz > memsz || filesz == 0) }

    predicate Copied() { kind == PT_LOAD && !Malformed() }

    /** The physical range the file image of the segment is copied to. */
    function Target(): Range { Range(paddr, filesz) }

    function Source(): Range { Range(offset, filesz) }

    /** All of the physical memory the segment is to occupy. */
    function Claim(): Range { Range(paddr, memsz) }
  }

  /** A 64-byte header, the packed array of program headers, and a segment count that fits the file. */
  predicate Readable(file: Bytes) {
    && EHDR_SIZE <= |file|
    && U64At(file, 32) + PHDR_SIZE * U16At(file, 56) <= |file|
    && (U16At(file, 54) as nat >= PHDR_SIZE || U16At(file, 56) == 0)
  }

  function PhdrAt(file: Bytes, a: nat): Phdr
    requires a + PHDR_SIZE <= |file|
  {
    Phdr(U32At(file, a), U64At(file, a + 8), U64At(file, a + 24), U64At(file, a + 32), U64At(file, a + 40))
  }

  function Phdrs(file: Bytes): (ps: seq<Phdr>)
    requires Readable(file)
    ensures |ps| == U16At(file, 56)
  {
    var n: nat, at := U16At(file, 56), U64At(file, 32);
    seq(n, i requires 0 <= i < n => PhdrAt(file, at + PHDR_SIZE * i))
  }

  /** How many headers the loader processes: up to the first malformed one. */
  function Processed(ps: seq<Phdr>): (n: nat)
    ensures n <= |ps|
    ensures forall i :: 0 <= i < n ==> !ps[i].Malformed()
    ensures n < |ps| ==> ps[n].Malformed()
  {
    if ps == [] || ps[0].Malformed() then 0 else 1 + Processed(ps[1..])
  }

  /** The segments that are copied lie in the file and in memory. */
  predicate Loadable(ps: seq<Phdr>, fileSize: nat, memSize: nat) {
    forall i :: 0 <= i < Processed(ps) && ps[i].Copied() ==>
      ps[i].Source().Within(fileSize) && ps[i].Target().Within(memSize)
  }

  /** Memory after the first n segments, copied in order. */
  function Overlay(m: Bytes, file: Bytes, ps: seq<Phdr>, n: nat): (m': Bytes)
    requires n <= Processed(ps) && Loadable(ps, |file|, |m|)
    ensures |m'| == |m|
  {
    if n == 0 then m
    else
      var before := Overlay(m, file, ps, n - 1);
      if ps[n - 1].Copied() then Splice(before, ps[n - 1].paddr, Slice(file, ps[n - 1].Source())) else before
  }

  /** The last of the first n segments whose file image covers physical address a. */
  function LastWriter(ps: seq<Phdr>, n: nat, a: nat): Option<nat>
    requires n <= |ps|
  {
    if n == 0 then None
    else if ps[n - 1].Copied() && ps[n - 1].Target().Contains(a) then Some(n - 1)
    else LastWriter(ps, n - 1, a)
  }

  /** What is found there: a copied segment that covers the address and that no later one covers. */
  lemma {:induction false} LastWriterIsLast(ps: seq<Phdr>, n: nat, a: nat)
    requires n <= |ps|
    ensures match LastWriter(ps, n, a)
      case Some(k) =>
        && k < n && ps[k].Copied() && ps[k].Target().Contains(a)
        && forall i :: k < i < n ==> !(ps[i].Copied() && ps[i].Target().Contains(a))
      case None => forall i :: 0 <= i < n ==> !(ps[i].Copied() && ps[i].Target().Contains(a))
  {
    if n > 0 {
      LastWriterIsLast(ps, n - 1, a);
    }
  }

  /** Last writer wins: every byte comes from the last segment that covers it, or was there before. */
  lemma {:induction false} OverlayAt(m: Bytes, file: Bytes, ps: seq<Phdr>, n: nat, a: nat)
    requires n <= Processed(ps) && Loadable(ps, |file|, |m|) && a < |m|
    ensures match LastWriter(ps, n, a)
      case Some(k) => k < n && ps[k].Target().Contains(a) && ps[k].Source().Within(|file|)
                      && Overlay(m, file, ps, n)[a] == file[ps[k].offset + (a - ps[k].paddr)]
      case None => Overlay(m, file, ps, n)[a] == m[a]
  {
    hide Splice;
    if n > 0 {
      OverlayAt(m, file, ps, n - 1, a);
      if ps[n - 1].Copied() {
        SpliceAt(Overlay(m, file, ps, n - 1), ps[n - 1].paddr, Slice(file, ps[n - 1].Source()), a);
      }
    }
  }

  // ---- the part of a segment behind its file image ----

  /** The last of the first n segments that claims address a, with its file image or the rest of its memory size. */
  function LastOwner(ps: seq<Phdr>, n: nat, a: nat): (k: Option<nat>)
    requires n <= |ps|
    ensures k.Some? ==> k.value < n && ps[k.value].Copied() && ps[k.value].Claim().Contains(a)
  {
    if n == 0 then None
    else if ps[n - 1].Copied() && ps[n - 1].Claim().Contains(a) then Some(n - 1)
    else LastOwner(ps, n - 1, a)
  }

  /** The address belongs, according to the program headers, to the part of a segment that is to be zero. */
  predicate InTail(ps: seq<Phdr>, n: nat, a: nat)
    requires n <= |ps|
  {
    LastOwner(ps, n, a).Some? && !ps[LastOwner(ps, n, a).value].Target().Contains(a)
  }

  /** The specified loader (gABI, chapter 5, Program Header): each segment is its file image, filled up with zeros. */
  function ZeroFilled(m: Bytes, file: Bytes, ps: seq<Phdr>, n: nat): (m': Bytes)
    requires n <= Processed(ps) && Loadable(ps, |file|, |m|) && Roomy(ps, |m|)
    ensures |m'| == |m|
  {
    if n == 0 then m
    else
      var before, p := ZeroFilled(m, file, ps, n - 1), ps[n - 1];
      if p.Copied() then
        Splice(Splice(before, p.paddr, Slice(file, p.Source())), p.paddr + p.filesz, Zeros(p.memsz - p.filesz))
      else before
  }

  /** Memory has room for the segments with their zero parts. */
  predicate Roomy(ps: seq<Phdr>, memSize: nat) {
    forall i :: 0 <= i < Processed(ps) && ps[i].Copied() ==> ps[i].Claim().Within(memSize)
  }

  lemma TailStep(ps: seq<Phdr>, n: nat, a: nat)
    requires 0 < n <= |ps|
    ensures InTail(ps, n, a)
        <==> if ps[n - 1].Copied() && ps[n - 1].Claim().Contains(a) then !ps[n - 1].Target().Contains(a)
             else InTail(ps, n - 1, a)
  {
  }

  lemma {:induction false} ZeroFilledAt(m: Bytes, file: Bytes, ps: seq<Phdr>, n: nat, a: nat)
    requires n <= Processed(ps) && Loadable(ps, |file|, |m|) && Roomy(ps, |m|) && a < |m|
    ensures ZeroFilled(m, file, ps, n)[a]
         == if InTail(ps, n, a) then 0 else Overlay(m, file, ps, n)[a]
  {
    hide Splice, Slice;
    if n > 0 {
      ZeroFilledAt(m, file, ps, n - 1, a);
      TailStep(ps, n, a);
      hide InTail;
      var before, p := ZeroFilled(m, file, ps, n - 1), ps[n - 1];
      if p.Copied() {
        var image := Slice(file, p.Source());
        SpliceAt(Overlay(m, file, ps, n - 1), p.paddr, image, a);
        SpliceAt(before, p.paddr, image, a);
        SpliceAt(Splice(before, p.paddr, image), p.paddr + p.filesz, Zeros(p.memsz - p.filesz), a);
      }
    }
  }

  /** What the loader leaves at an address, in terms of its inputs. */
  function Leftover(m: Bytes, file: Bytes, ps: seq<Phdr>, n: nat, a: nat): u8
    requires n <= Processed(ps) && Loadable(ps, |file|, |m|) && a < |m|
  {
    LastWriterIsLast(ps, n, a);
    match LastWriter(ps, n, a)
    case Some(k) => file[ps[k].offset + (a - ps[k].paddr)]
    case None => m[a]
  }

  /**
   The loader never clears a tail, so it does what the specification asks exactly if every address that belongs to a
   tail is 0 in the file image of the last segment that covers it there, or 0 in memory beforehand if none does.
   */
  lemma LoadsAsSpecifiedIff(m: Bytes, file: Bytes, ps: seq<Phdr>, n: nat)
    requires n <= Processed(ps) && Loadable(ps, |file|, |m|) && Roomy(ps, |m|)
    ensures Overlay(m, file, ps, n) == ZeroFilled(m, file, ps, n)
            <==> forall a :: 0 <= a < |m| && InTail(ps, n, a) ==> Leftover(m, file, ps, n, a) == 0
  {
    hide ZeroFilled, Overlay, InTail, LastWriter;
    forall a | 0 <= a < |m|
      ensures Overlay(m, file, ps, n)[a] == Leftover(m, file, ps, n, a)
      ensures ZeroFilled(m, file, ps, n)[a] == if InTail(ps, n, a) then 0 else Leftover(m, file, ps, n, a)
    {
      OverlayAt(m, file, ps, n, a);
      ZeroFilledAt(m, file, ps, n, a);
    }
  }

  /** The memory sizes of the segments do not overlap. */
  predicate Separate(ps: seq<Phdr>, n: nat)
    requires n <= |ps|
  {
    forall i, j :: 0 <= i < j < n && ps[i].Copied() && ps[j].Copied() ==> ps[i].Claim().Apart(ps[j].Claim())
  }

  lemma TailHasNoWriter(ps: seq<Phdr>, n: nat, a: nat)
    requires n <= Processed(ps) && Separate(ps, n) && InTail(ps, n, a)
    ensures LastWriter(ps, n, a).None?
  {
    hide LastWriter, LastOwner;
    LastWriterIsLast(ps, n, a);
  }

  /**
   For segments that do not overlap, the tails are left as they were, so loading them as specified takes exactly zeroed
   memory there. The monitor loads into a fresh mapping, which is zero, so it does.
   */
  lemma SeparateLoadIff(m: Bytes, file: Bytes, ps: seq<Phdr>, n: nat)
    requires n <= Processed(ps) && Loadable(ps, |file|, |m|) && Roomy(ps, |m|) && Separate(ps, n)
    ensures Overlay(m, file, ps, n) == ZeroFilled(m, file, ps, n)
            <==> forall a :: 0 <= a < |m| && InTail(ps, n, a) ==> m[a] == 0
  {
    hide ZeroFilled, Overlay, LastWriter, InTail, Separate;
    LoadsAsSpecifiedIff(m, file, ps, n);
    forall a | 0 <= a < |m| && InTail(ps, n, a)
      ensures Leftover(m, file, ps, n, a) == m[a]
    {
      TailHasNoWriter(ps, n, a);
    }
  }

  // ---- an image that is not loaded as specified ----

  function PhdrBytes(p: Phdr): (bs: Bytes)
    ensures |bs| == PHDR_SIZE
  {
    Le32(p.kind) + Zeros(4) + Le64(p.offset) + Zeros(8) + Le64(p.paddr) + Le64(p.filesz) + Le64(p.memsz) + Zeros(8)
  }

  function PhdrsBytes(ps: seq<Phdr>): (bs: Bytes)
    ensures |bs| == PHDR_SIZE * |ps|
  {
    if ps == [] then [] else PhdrBytes(ps[0]) + PhdrsBytes(ps[1..])
  }

  /** An ELF file: header, program headers right behind it, segment contents. */
  function ElfFile(entry: u64, ps: seq<Phdr>, contents: Bytes): (file: Bytes)
    requires |ps| < TWO_TO_THE_16
    ensures |file| == EHDR_SIZE + PHDR_SIZE * |ps| + |contents|
  {
    Ehdr(entry, |ps|) + PhdrsBytes(ps) + contents
  }

  function Ehdr(entry: u64, phnum: u16): (bs: Bytes)
    ensures |bs| == EHDR_SIZE
  {
    ELF_MAGIC + Zeros(20) + Le64(entry) + Le64(EHDR_SIZE) + Zeros(14) + Le16(PHDR_SIZE) + Le16(phnum) + Zeros(6)
  }

  lemma PhdrReadsBack(file: Bytes, a: nat, p: Phdr)
    requires a + PHDR_SIZE <= |file| && file[a..a + PHDR_SIZE] == PhdrBytes(p)
    ensures PhdrAt(file, a) == p
  {
    hide LeValue, LeBytes;
    var bs := PhdrBytes(p);
    CopiedSlice(file, a, bs, 0, 4);
    CopiedSlice(file, a, bs, 8, 16);
    CopiedSlice(file, a, bs, 24, 32);
    CopiedSlice(file, a, bs, 32, 40);
    CopiedSlice(file, a, bs, 40, 48);
    PhdrSlices(p);
    WordSizes();
    LeRoundTrip(p.kind, 4);
    LeRoundTrip(p.offset, 8);
    LeRoundTrip(p.paddr, 8);
    LeRoundTrip(p.filesz, 8);
    LeRoundTrip(p.memsz, 8);
  }

  lemma PhdrSlices(p: Phdr)
    ensures var bs := PhdrBytes(p);
      && bs[0..4] == Le32(p.kind) && bs[8..16] == Le64(p.offset) && bs[24..32] == Le64(p.paddr)
      && bs[32..40] == Le64(p.filesz) && bs[40..48] == Le64(p.memsz)
  {
    hide LeBytes;
  }

  lemma {:induction false} PhdrSlot(ps: seq<Phdr>, i: nat)
    requires i < |ps|
    ensures PHDR_SIZE * (i + 1) <= |PhdrsBytes(ps)|
    ensures PhdrsBytes(ps)[PHDR_SIZE * i..PHDR_SIZE * (i + 1)] == PhdrBytes(ps[i])
  {
    hide PhdrBytes;
    if i > 0 {
      PhdrSlot(ps[1..], i - 1);
      var rest := PhdrsBytes(ps[1..]);
      assert PhdrsBytes(ps)[PHDR_SIZE..] == rest;
      assert PhdrsBytes(ps)[PHDR_SIZE * i..PHDR_SIZE * (i + 1)] == rest[PHDR_SIZE * (i - 1)..PHDR_SIZE * i];
    }
  }

  lemma EhdrFields(entry: u64, phnum: u16)
    ensures var h := Ehdr(entry, phnum);
      && h[0..4] == ELF_MAGIC && U64At(h, 24) == entry && U64At(h, 32) == EHDR_SIZE && U16At(h, 54) == PHDR_SIZE
      && U16At(h, 56) == phnum
  {
    hide LeValue, LeBytes;
    var h := Ehdr(entry, phnum);
    assert h[24..32] == Le64(entry) && h[32..40] == Le64(EHDR_SIZE) && h[54..56] == Le16(PHDR_SIZE);
    assert h[56..58] == Le16(phnum);
    WordSizes();
    LeRoundTrip(entry, 8);
    LeRoundTrip(EHDR_SIZE, 8);
    LeRoundTrip(PHDR_SIZE, 2);
    LeRoundTrip(phnum, 2);
  }

  /** Reading the headers of a file gives the headers it was made of. */
  lemma ElfFileReadsBack(entry: u64, ps: seq<Phdr>, contents: Bytes)
    requires |ps| < TWO_TO_THE_16
    ensures var file := ElfFile(entry, ps, contents);
      && Readable(file) && Phdrs(file) == ps && file[0..4] == ELF_MAGIC && U64At(file, 24) == entry
  {
    hide LeValue, LeBytes, PhdrAt, PhdrBytes, PhdrsBytes, Ehdr;
    var file, h, n := ElfFile(entry, ps, contents), Ehdr(entry, |ps|), |ps|;
    EhdrFields(entry, n);
    assert file[0..EHDR_SIZE] == h;
    CopiedSlice(file, 0, h, 0, 4);
    CopiedSlice(file, 0, h, 24, 32);
    CopiedSlice(file, 0, h, 32, 40);
    CopiedSlice(file, 0, h, 54, 56);
    CopiedSlice(file, 0, h, 56, 58);
    assert file[EHDR_SIZE..EHDR_SIZE + PHDR_SIZE * n] == PhdrsBytes(ps);
    forall i | 0 <= i < n
      ensures Phdrs(file)[i] == ps[i]
    {
      PhdrSlot(ps, i);
      CopiedSlice(file, EHDR_SIZE, PhdrsBytes(ps), PHDR_SIZE * i, PHDR_SIZE * (i + 1));
      PhdrReadsBack(file, EHDR_SIZE + PHDR_SIZE * i, ps[i]);
    }
  }

  /** Two segments at the same address: a two-byte one, then a one-byte one with a one-byte tail. */
  const OVERLAPPING: seq<Phdr> := [Phdr(PT_LOAD, 176, 0, 2, 2), Phdr(PT_LOAD, 176, 0, 1, 2)]

  lemma Overlapping(size: nat)
    requires size >= 2
    ensures Processed(OVERLAPPING) == 2 && InTail(OVERLAPPING, 2, 1) && LastWriter(OVERLAPPING, 2, 1) == Some(0)
    ensures Loadable(OVERLAPPING, 178, size) && Roomy(OVERLAPPING, size)
  {
    var ps := OVERLAPPING;
    assert Processed(ps[1..]) == 1 by {
      assert ps[1..][0] == ps[1] && ps[1..][1..] == [];
    }
  }

  lemma ContentsAtEnd(entry: u64, ps: seq<Phdr>, contents: Bytes, i: nat)
    requires |ps| < TWO_TO_THE_16 && i < |contents|
    ensures ElfFile(entry, ps, contents)[EHDR_SIZE + PHDR_SIZE * |ps| + i] == contents[i]
  {
    hide Ehdr, PhdrsBytes;
  }

  lemma TailKeepsFirst(m: Bytes, file: Bytes, ps: seq<Phdr>, b: u8)
    requires 2 <= Processed(ps) && Loadable(ps, |file|, |m|) && Roomy(ps, |m|) && |m| >= 2
    requires InTail(ps, 2, 1) && LastWriter(ps, 2, 1) == Some(0)
    requires ps[0].paddr == 0 && ps[0].offset + 1 < |file| && file[ps[0].offset + 1] == b
    ensures Overlay(m, file, ps, 2)[1] == b && ZeroFilled(m, file, ps, 2)[1] == 0
  {
    hide *;
    OverlayAt(m, file, ps, 2, 1);
    ZeroFilledAt(m, file, ps, 2, 1);
  }

  /** Even in zeroed memory the tail keeps the byte of the first segment. */
  lemma TailIsNotCleared(m: Bytes)
    requires |m| >= 2
    ensures var ps, file := OVERLAPPING, ElfFile(0, OVERLAPPING, [7, 7]);
      && Readable(file) && Phdrs(file) == ps && Processed(ps) == |ps|
      && Loadable(ps, |file|, |m|) && Roomy(ps, |m|)
      && Overlay(m, file, ps, 2)[1] == 7 && ZeroFilled(m, file, ps, 2)[1] == 0
  {
    hide Overlay, ZeroFilled, ElfFile, Readable, Phdrs, Processed, InTail, LastWriter, Loadable, Roomy;
    ElfFileReadsBack(0, OVERLAPPING, [7, 7]);
    Overlapping(|m|);
    ContentsAtEnd(0, OVERLAPPING, [7, 7], 1);
    TailKeepsFirst(m, ElfFile(0, OVERLAPPING, [7, 7]), OVERLAPPING, 7);
  }

  // ---- the loader ----

  datatype Outcome =
    | NotElf
    | Returned(value: u64)

  /** -EINVAL as the unsigned return value. */
  const MINUS_EINVAL: u64 := TWO_TO_THE_64 - 22

  /** The entry point if every header was processed, else -EINVAL. */
  function Result(file: Bytes): Outcome
    requires Readable(file)
  {
    if file[0..4] != ELF_MAGIC then NotElf
    else if Processed(Phdrs(file)) < |Phdrs(file)| then Returned(MINUS_EINVAL)
    else Returned(U64At(file, 24))
  }

  method Load(memory: array<u8>, file: Bytes) returns (r: Outcome)
    requires Readable(file) && Loadable(Phdrs(file), |file|, memory.Length)
    modifies memory
    ensures r == Result(file)
    ensures memory[..] == if r.NotElf? then old(memory[..])
                          else Overlay(old(memory[..]), file, Phdrs(file), Processed(Phdrs(file)))
  {
    if file[0..4] != ELF_MAGIC {
      return NotElf;
    }
    hide LeValue, Splice, PhdrAt, Processed;
    ghost var ps := Phdrs(file);
    var count: nat, at := U16At(file, 56), U64At(file, 32);
    ghost var stop := Processed(ps);
    for i := 0 to count
      invariant i <= stop && memory[..] == Overlay(old(memory[..]), file, ps, i)
    {
      var p := PhdrAt(file, at + PHDR_SIZE * i);
      assert p == ps[i];
      if p.kind != PT_LOAD {
        assert i < stop;
        continue;
      }
      if p.filesz > p.memsz {
        return Returned(MINUS_EINVAL);
      }
      if p.filesz == 0 {
        return Returned(MINUS_EINVAL);
      }
      assert i < stop;
      CopyIn(memory, p.paddr, Slice(file, p.Source()));
    }
    return Returned(U64At(file, 24));
  }
}
