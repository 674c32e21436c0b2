/**
 The boot page tables that src/kvm/regs.h writes, checked by a 4-level page walk (Intel SDM volume 3A, section 4.5).
 */
module PageTables {
  import opened Words
  import opened Bits
  import opened GuestMemory

  const PML4_START: nat := 0x9000
  const PDPTE_START: nat := 0xa000
  const PDE_START: nat := 0xb000
  const PAGE_SIZE: nat := 0x1000
  const ENTRIES: nat := 512

  const PDE64_PRESENT: nat := 0x1
  const PDE64_RW: nat := 0x2
  const PDE64_PS: nat := 0x80

  const TWO_MB: nat := 0x20_0000
  const ONE_GB: nat := 0x4000_0000

  // ---- what is written ----

  /** `(i << 21) + PRESENT | RW | PS`, with the addition binding tighter than the or. */
  function PdeEntry(i: nat): nat {
    BitOr(BitOr(Shl(i, 21) + PDE64_PRESENT, PDE64_RW), PDE64_PS)
  }

  function PointerEntry(table: nat): nat {
    BitOr(BitOr(table, PDE64_PRESENT), PDE64_RW)
  }

  lemma OrFlags()
    ensures BitOr(1, 2) == 3 && BitOr(3, 0x80) == 0x83
  {
  }

  lemma PdeValue(i: nat)
    ensures PdeEntry(i) == TWO_MB * i + 0x83
  {
    hide Shl;
    ShlPage(i);
    ShlPage(1);
    ShlZero(21);
    OrZero(i);
    OrFlags();
    hide BitOr;
    OrFields(i, 1, 0, 2, 21);
    OrFields(i, 3, 0, 0x80, 21);
  }

  lemma PointerValue(page: nat)
    ensures PointerEntry(PAGE_SIZE * page) == PAGE_SIZE * page + 3
  {
    ShlPage(page);
    ShlPage(1);
    OrZero(page);
    OrFields(page, 0, 0, 1, 12);
    OrFields(page, 1, 0, 2, 12);
    assert BitOr(1, 2) == 3;
    OrZero(1);
    ShlZero(12);
  }

  /** The first n page-directory entries, in memory order. */
  function PdeBytes(n: nat): (bs: Bytes)
    requires n <= ENTRIES
    ensures |bs| == 8 * n
  {
    if n == 0 then [] else PdeBytes(n - 1) + EntryBytes(n - 1)
  }

  function EntryBytes(i: nat): (bs: Bytes)
    requires i < ENTRIES
    ensures |bs| == 8
  {
    PdeValue(i);
    Le64(PdeEntry(i))
  }

  lemma {:induction false} PdeBytesAt(n: nat, i: nat)
    requires i < n <= ENTRIES
    ensures PdeBytes(n)[8 * i..8 * i + 8] == EntryBytes(i)
  {
    hide EntryBytes;
    if i < n - 1 {
      PdeBytesAt(n - 1, i);
      assert PdeBytes(n)[8 * i..8 * i + 8] == PdeBytes(n - 1)[8 * i..8 * i + 8];
    }
  }

  function Pointer(page: nat): (bs: Bytes)
    requires page < 16
    ensures |bs| == 8
  {
    PointerValue(page);
    Le64(PointerEntry(PAGE_SIZE * page))
  }

  /** Memory after the three tables were written. */
  function WithTables(m: Bytes): (m': Bytes)
    requires PDE_START + PAGE_SIZE <= |m|
    ensures |m'| == |m|
  {
    Splice(Splice(Splice(m, PML4_START, Pointer(0xa)), PDPTE_START, Pointer(0xb)), PDE_START, PdeBytes(ENTRIES))
  }

  method SetupPageTables(mem: array<u8>)
    requires PDE_START + PAGE_SIZE <= mem.Length
    modifies mem
    ensures mem[..] == WithTables(old(mem[..]))
  {
    hide Splice, LeBytes, BitOr;
    PointerValue(0xa);
    PointerValue(0xb);
    Store64(mem, PML4_START, PointerEntry(PDPTE_START));
    Store64(mem, PDPTE_START, PointerEntry(PDE_START));
    ghost var m := mem[..];
    SpliceNothing(m, PDE_START);
    for i := 0 to ENTRIES
      invariant mem[..] == Splice(m, PDE_START, PdeBytes(i))
    {
      PdeValue(i);
      Store64(mem, PDE_START + 8 * i, PdeEntry(i));
      SpliceJoin(m, PDE_START, PdeBytes(i), PDE_START + 8 * i, EntryBytes(i));
    }
  }

  // ---- the page walk ----

  datatype Mapping = Mapping(physical: nat, writable: bool)

  predicate Present(e: nat) { e % 2 == 1 }

  predicate Writable(e: nat) { e / 2 % 2 == 1 }

  predicate Large(e: nat) { e / 0x80 % 2 == 1 }

  /** Bits 51 to 12: the next table or the 4-KByte frame. */
  function Frame(e: nat): nat { e / PAGE_SIZE % 0x100_0000_0000 * PAGE_SIZE }

  /** The entry of `table` that 9 bits of the virtual address select; not present where there is no memory. */
  function EntryAt(m: Bytes, table: nat, va: nat, granule: nat): nat
    requires granule > 0
  {
    var a := table + 8 * (va / granule % ENTRIES);
    if a + 8 <= |m| then U64At(m, a) else 0
  }

  /** Section 4.5: PML4, PDPT, page directory, page table; a large page ends the walk early. */
  function WalkPage(m: Bytes, cr3: nat, va: nat): Option<Mapping> {
    var e4 := EntryAt(m, cr3, va, 0x80_0000_0000);
    if !Present(e4) then None
    else
      var e3 := EntryAt(m, Frame(e4), va, ONE_GB);
      if !Present(e3) then None
      else if Large(e3) then
        Some(Mapping(Frame(e3) / ONE_GB * ONE_GB + va % ONE_GB, Writable(e4) && Writable(e3)))
      else
        var e2 := EntryAt(m, Frame(e3), va, TWO_MB);
        if !Present(e2) then None
        else if Large(e2) then
          Some(Mapping(Frame(e2) / TWO_MB * TWO_MB + va % TWO_MB, Writable(e4) && Writable(e3) && Writable(e2)))
        else
          var e1 := EntryAt(m, Frame(e2), va, PAGE_SIZE);
          if !Present(e1) then None
          else Some(Mapping(Frame(e1) + va % PAGE_SIZE,
                            Writable(e4) && Writable(e3) && Writable(e2) && Writable(e1)))
  }

  /** The three tables as the walk reads them. */
  lemma TablesRead(m: Bytes)
    requires PDE_START + PAGE_SIZE <= |m|
    ensures var m' := WithTables(m);
      && U64At(m', PML4_START) == PDPTE_START + 3 && U64At(m', PDPTE_START) == PDE_START + 3
      && (forall k :: 1 <= k < ENTRIES ==> U64At(m', PML4_START + 8 * k) == U64At(m, PML4_START + 8 * k))
      && (forall k :: 1 <= k < ENTRIES ==> U64At(m', PDPTE_START + 8 * k) == U64At(m, PDPTE_START + 8 * k))
      && (forall k :: 0 <= k < ENTRIES ==> U64At(m', PDE_START + 8 * k) == TWO_MB * k + 0x83)
  {
    hide Splice, LeBytes, LeValue, BitOr, PdeBytes;
    var m1 := Splice(m, PML4_START, Pointer(0xa));
    var m2 := Splice(m1, PDPTE_START, Pointer(0xb));
    PointerValue(0xa);
    PointerValue(0xb);
    SpliceReads64(m, PML4_START, PDPTE_START + 3);
    SpliceMiss(m1, PDPTE_START, Pointer(0xb), PML4_START, 8);
    SpliceMiss(m2, PDE_START, PdeBytes(ENTRIES), PML4_START, 8);
    SpliceReads64(m1, PDPTE_START, PDE_START + 3);
    SpliceMiss(m2, PDE_START, PdeBytes(ENTRIES), PDPTE_START, 8);
    forall k | 1 <= k < ENTRIES
      ensures U64At(WithTables(m), PML4_START + 8 * k) == U64At(m, PML4_START + 8 * k)
      ensures U64At(WithTables(m), PDPTE_START + 8 * k) == U64At(m, PDPTE_START + 8 * k)
    {
      OtherEntryKept(m, PML4_START + 8 * k);
      OtherEntryKept(m, PDPTE_START + 8 * k);
    }
    forall k | 0 <= k < ENTRIES
      ensures U64At(WithTables(m), PDE_START + 8 * k) == TWO_MB * k + 0x83
    {
      PdeRead(m2, k);
    }
  }

  lemma OtherEntryKept(m: Bytes, a: nat)
    requires PDE_START + PAGE_SIZE <= |m|
    requires PML4_START + 8 <= a <= PDPTE_START - 8 || PDPTE_START + 8 <= a <= PDE_START - 8
    ensures U64At(WithTables(m), a) == U64At(m, a)
  {
    hide Splice, LeBytes, LeValue, BitOr, PdeBytes;
    var m1 := Splice(m, PML4_START, Pointer(0xa));
    var m2 := Splice(m1, PDPTE_START, Pointer(0xb));
    SpliceMiss(m, PML4_START, Pointer(0xa), a, 8);
    SpliceMiss(m1, PDPTE_START, Pointer(0xb), a, 8);
    SpliceMiss(m2, PDE_START, PdeBytes(ENTRIES), a, 8);
  }

  lemma PdeRead(m: Bytes, k: nat)
    requires PDE_START + PAGE_SIZE <= |m| && k < ENTRIES
    ensures U64At(Splice(m, PDE_START, PdeBytes(ENTRIES)), PDE_START + 8 * k) == TWO_MB * k + 0x83
  {
    hide Splice, LeBytes, LeValue, BitOr, PdeBytes;
    var m', pdes := Splice(m, PDE_START, PdeBytes(ENTRIES)), PdeBytes(ENTRIES);
    SpliceHit(m, PDE_START, pdes);
    PdeBytesAt(ENTRIES, k);
    var a := PDE_START + 8 * k;
    CopiedSlice(m', PDE_START, pdes, 8 * k, 8 * k + 8);
    assert m'[a..a + 8] == EntryBytes(k);
    PdeValue(k);
    WordSizes();
    LeRoundTrip(PdeEntry(k), 8);
  }

  lemma PointerBits(page: nat)
    requires page < 16
    ensures var e := PAGE_SIZE * page + 3; Present(e) && Writable(e) && !Large(e) && Frame(e) == PAGE_SIZE * page
  {
  }

  lemma PdeFlags(k: nat)
    ensures var e := TWO_MB * k + 0x83; Present(e) && Writable(e) && Large(e)
  {
    var e := TWO_MB * k + 0x83;
    assert e == 2 * (0x10_0000 * k + 0x41) + 1 && 0x10_0000 * k + 0x41 == 2 * (0x8_0000 * k + 0x20) + 1;
    assert e == 0x80 * (0x4000 * k + 1) + 3 && 0x4000 * k + 1 == 2 * (0x2000 * k) + 1;
    Halves(e, 0x10_0000 * k + 0x41);
    Halves(0x10_0000 * k + 0x41, 0x8_0000 * k + 0x20);
    Quotient(e, 0x80, 0x4000 * k + 1, 3);
    Halves(0x4000 * k + 1, 0x2000 * k);
  }

  lemma Halves(e: nat, h: nat)
    requires e == 2 * h + 1
    ensures e / 2 == h && e % 2 == 1
  {
  }

  lemma Quotient(e: nat, d: nat, q: nat, r: nat)
    requires r < d && e == d * q + r
    ensures e / d == q
  {
    RemainderIsUnique(q, r, d);
    assert e == d * (e / d) + r;
    assert d * (e / d - q) == 0;
    ProductIsNotSmall(d, e / d - q);
  }

  lemma PdeFrame(k: nat)
    requires k < ENTRIES
    ensures Frame(TWO_MB * k + 0x83) / TWO_MB * TWO_MB == TWO_MB * k
  {
    assert (TWO_MB * k + 0x83) / PAGE_SIZE == ENTRIES * k;
  }

  /** Every address below 1 GByte is mapped to itself, writable, whatever was in memory before. */
  lemma IdentityBelowOneGb(m: Bytes, va: nat)
    requires PDE_START + PAGE_SIZE <= |m| && va < ONE_GB
    ensures WalkPage(WithTables(m), PML4_START, va) == Some(Mapping(va, true))
  {
    hide WithTables, Present, Writable, Large, Frame, U64At;
    TablesRead(m);
    PointerBits(0xa);
    PointerBits(0xb);
    var k := va / TWO_MB;
    assert va / 0x80_0000_0000 % ENTRIES == 0 && va / ONE_GB % ENTRIES == 0 && k % ENTRIES == k;
    PdeFlags(k);
    PdeFrame(k);
  }

  /** No entry but the first of the two upper tables is present. */
  ghost predicate UpperTablesClear(m: Bytes)
    requires PDE_START + PAGE_SIZE <= |m|
  {
    forall k :: 1 <= k < ENTRIES ==>
      !Present(U64At(m, PML4_START + 8 * k)) && !Present(U64At(m, PDPTE_START + 8 * k))
  }

  lemma UpperIndices(va: nat)
    requires ONE_GB <= va < 0x1_0000_0000_0000
    ensures var k4, k3 := va / 0x80_0000_0000 % ENTRIES, va / ONE_GB % ENTRIES;
      1 <= k4 < ENTRIES || (k4 == 0 && 1 <= k3 < ENTRIES)
  {
  }

  /** The tables map exactly the first GByte of the 48-bit address space, each address to itself and writable. */
  lemma MapsFirstGbOnly(m: Bytes, va: nat)
    requires PDE_START + PAGE_SIZE <= |m| && UpperTablesClear(m) && va < 0x1_0000_0000_0000
    ensures WalkPage(WithTables(m), PML4_START, va) == if va < ONE_GB then Some(Mapping(va, true)) else None
  {
    if va < ONE_GB {
      IdentityBelowOneGb(m, va);
    } else {
      UpperIndices(va);
      NothingAbove(m, va, va / 0x80_0000_0000 % ENTRIES, va / ONE_GB % ENTRIES);
    }
  }

  lemma NothingAbove(m: Bytes, va: nat, k4: nat, k3: nat)
    requires PDE_START + PAGE_SIZE <= |m| && UpperTablesClear(m)
    requires k4 == va / 0x80_0000_0000 % ENTRIES && k3 == va / ONE_GB % ENTRIES
    requires k4 == 0 ==> k3 >= 1
    ensures WalkPage(WithTables(m), PML4_START, va) == None
  {
    hide WithTables, Present, Writable, Large, Frame, U64At;
    TablesRead(m);
    PointerBits(0xa);
    if k4 > 0 {
      assert EntryAt(WithTables(m), PML4_START, va, 0x80_0000_0000) == U64At(m, PML4_START + 8 * k4);
    } else {
      assert EntryAt(WithTables(m), PML4_START, va, 0x80_0000_0000) == PDPTE_START + 3;
      assert EntryAt(WithTables(m), PDPTE_START, va, ONE_GB) == U64At(m, PDPTE_START + 8 * k3);
    }
  }
}
