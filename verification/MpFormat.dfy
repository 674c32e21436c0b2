/**
 The MP configuration table, byte by byte at its place in guest memory, with the numbers of chapter 4 of the
 MultiProcessor Specification 1.4 written out. Nothing here goes through the entry functions of `MpTable`.
 */
module MpFormat {
  import opened Words
  import opened GuestMemory
  import opened ByteLayout
  import opened MpTable

  /** The byte sum is determined by its value on single bytes and on concatenations. */
  lemma SumIsSum(x: Bytes, b: u8, y: Bytes)
    ensures Sum([]) == 0 && Sum(x + [b] + y) == Sum(x) + b as nat + Sum(y)
  {
    SumConcat(x + [b], y);
    SumConcat(x, [b]);
  }

  /** Guest memory after the table was set up for n processors. */
  function WithTable(m: Bytes, n: nat): (m': Bytes)
    requires 0x9fc00 + |Image(n)| <= |m|
    ensures |m'| == |m|
  {
    Splice(m, 0x9fc00, Image(n))
  }

  lemma TableSize(n: nat)
    ensures |Image(n)| == (76 + 20 * n + 15) / 16 * 16 + 16 >= 76 + 20 * n + 16
  {
    hide Image, FinalTable, FinalMpf;
  }

  /** A part of the image, in memory. */
  lemma PartInMemory(m: Bytes, n: nat, o: nat, part: Bytes)
    requires 0x9fc00 + |Image(n)| <= |m| && o + |part| <= |Image(n)| && Image(n)[o..o + |part|] == part
    ensures WithTable(m, n)[0x9fc00 + o..0x9fc00 + o + |part|] == part
    ensures forall k :: 0 <= k < |part| ==> WithTable(m, n)[0x9fc00 + o + k] == part[k]
  {
    hide Image, Splice;
    var m' := WithTable(m, n);
    SpliceHit(m, 0x9fc00, Image(n));
    CopiedSlice(m', 0x9fc00, Image(n), o, o + |part|);
    forall k | 0 <= k < |part|
      ensures m'[0x9fc00 + o + k] == part[k]
    {
      assert m'[0x9fc00 + o..0x9fc00 + o + |part|][k] == part[k];
    }
  }

  // ---- the entries ----

  lemma {:induction false} CpusAt(i: nat, k: nat, n: nat)
    requires k < i
    ensures Cpus(i, n)[20 * k..20 * k + 20] == Cpu(k, n)
  {
    hide Cpu;
    if k < i - 1 {
      CpusAt(i - 1, k, n);
      assert Cpus(i, n)[20 * k..20 * k + 20] == Cpus(i - 1, n)[20 * k..20 * k + 20];
    }
  }

  lemma EntriesPart(n: nat, o: nat, part: Bytes)
    requires o + |part| <= |Entries(n)| && Entries(n)[o..o + |part|] == part
    ensures 44 + o + |part| <= |Image(n)| && Image(n)[44 + o..44 + o + |part|] == part
  {
    hide FinalTable, FinalMpf, Entries;
    TableFields(n);
    var t := FinalTable(n);
    SliceOfSuffix(t, 44, o, |part|);
    SliceOfPrefix(t, Image(n)[|t|..], 44 + o, |part|);
    assert Image(n) == t + Image(n)[|t|..];
  }

  lemma SliceOfSuffix(bs: Bytes, a: nat, o: nat, n: nat)
    requires a + o + n <= |bs|
    ensures bs[a..][o..o + n] == bs[a + o..a + o + n]
  {
  }

  lemma SliceOfPrefix(x: Bytes, y: Bytes, o: nat, n: nat)
    requires o + n <= |x|
    ensures (x + y)[o..o + n] == x[o..o + n]
  {
  }

  lemma CpuBytes(i: nat, n: nat, bs: Bytes, a: nat)
    requires i < n && a + 20 <= |bs| && bs[a..a + 20] == Cpu(i, n)
    ensures bs[a] == 0 && bs[a + 1] == i % 0x100 && bs[a + 2] == 0x14 && bs[a + 3] == (if i == 0 then 3 else 1)
    ensures U32At(bs, a + 4) == 0x600 && U32At(bs, a + 8) == 0x201
  {
    hide LeValue, LeBytes;
    var c := Cpu(i, n);
    forall k | 0 <= k < 4
      ensures bs[a + k] == c[k]
    {
      assert bs[a..a + 20][k] == c[k];
    }
    CopiedSlice(bs, a, c, 4, 8);
    CopiedSlice(bs, a, c, 8, 12);
    assert c[4..8] == Le32(0x600) && c[8..12] == Le32(0x201);
    WordSizes();
    LeRoundTrip(0x600, 4);
    LeRoundTrip(0x201, 4);
  }

  /** Entry i: a processor with id i modulo 256, enabled, and the boot processor exactly if it is the first. */
  lemma ProcessorEntry(m: Bytes, n: nat, i: nat)
    requires 0x9fc00 + |Image(n)| <= |m| && i < n
    ensures 0x9fc00 + 44 + 20 * i + 20 <= |m|
    ensures var m', a := WithTable(m, n), 0x9fc00 + 44 + 20 * i;
      && m'[a] == 0 && m'[a + 1] == i % 0x100 && m'[a + 2] == 0x14 && m'[a + 3] == (if i == 0 then 3 else 1)
      && U32At(m', a + 4) == 0x600 && U32At(m', a + 8) == 0x201
  {
    hide Image, Cpu, Cpus, U32At, WithTable;
    CpusAt(n, i, n);
    assert Entries(n)[20 * i..20 * i + 20] == Cpus(n, n)[20 * i..20 * i + 20];
    hide Entries;
    EntriesPart(n, 20 * i, Cpu(i, n));
    PartInMemory(m, n, 44 + 20 * i, Cpu(i, n));
    CpuBytes(i, n, WithTable(m, n), 0x9fc00 + 44 + 20 * i);
  }

  /** The four entries behind the processors: PCI bus 0, the IO-APIC, and the local interrupts INT on 0 and NMI on 1. */
  function LastEntries(n: nat): (bs: Bytes)
    ensures |bs| == 32
  {
    [1, 0, 0x50, 0x43, 0x49, 0x20, 0x20, 0x20]
    + [2, (n + 1) % 0x100, 0x14, 1, 0, 0, 0xc0, 0xfe]
    + [4, 0, 0, 0, 0, 0, 0, 0]
    + [4, 1, 0, 0, 0, 0, 0, 1]
  }

  lemma IoApicAddress()
    ensures Le32(IOAPIC_BASE) == [0, 0, 0xc0, 0xfe]
  {
    var bs := Le32(IOAPIC_BASE);
    assert bs == [0] + LeBytes(0xfec000, 3);
    assert LeBytes(0xfec000, 3) == [0] + LeBytes(0xfec0, 2);
    assert LeBytes(0xfec0, 2) == [0xc0] + LeBytes(0xfe, 1);
    assert LeBytes(0xfe, 1) == [0xfe] + LeBytes(0, 0);
  }

  lemma EntriesBehindCpus(m: Bytes, n: nat)
    requires 0x9fc00 + |Image(n)| <= |m|
    ensures 0x9fc00 + 44 + 20 * n + 32 <= |m|
    ensures WithTable(m, n)[0x9fc00 + 44 + 20 * n..0x9fc00 + 44 + 20 * n + 32] == LastEntries(n)
  {
    hide Image, Cpus, WithTable, LeBytes;
    IoApicAddress();
    assert IoApic(n) == [2, (n + 1) % 0x100, 0x14, 1, 0, 0, 0xc0, 0xfe];
    assert Bus() + IoApic(n) + LocalInt(0) + LocalInt(1) == LastEntries(n);
    hide Bus, IoApic, LocalInt;
    assert Entries(n)[20 * n..20 * n + 32] == Bus() + IoApic(n) + LocalInt(0) + LocalInt(1);
    hide Entries, LastEntries;
    EntriesPart(n, 20 * n, LastEntries(n));
    PartInMemory(m, n, 44 + 20 * n, LastEntries(n));
  }

  // ---- the header and the floating pointer ----

  const OEM_AND_PRODUCT: string := "KVMCPU000.1         "

  lemma NameBytes(i: nat)
    requires i < 20
    ensures Names()[i] == OEM_AND_PRODUCT[i] as int
  {
    assert Names()[i] == if i < 8 then OEM[i] else PRODUCT_ID[i - 8];
  }

  /** The header as it is in the image: the checksum is the byte at 7. */
  lemma HeaderParts(n: nat)
    ensures var t, count := Image(n), (n + 4) % TWO_TO_THE_16;
      && t[0..4] == PCMP && t[4..6] == Le16(LengthField(n)) && t[6] == 4 && t[8..34] == Names()
      && t[34..36] == Le16(count) && t[36..40] == Le32(APIC_BASE)
  {
    hide LeBytes, Sum, Entries, FinalMpf, Names;
    var count := (n + 4) % TWO_TO_THE_16;
    var t, front := FinalTable(n), Front(LengthField(n));
    assert t == front + ([t[7]] + ((Names() + (Le16(count) + (Le32(APIC_BASE) + Zeros(4)))) + Entries(n)));
    assert front[0..4] == PCMP && front[4..6] == Le16(LengthField(n)) && front[6] == 4;
    assert t[0..7] == front;
    assert t[8..] == (Names() + (Le16(count) + (Le32(APIC_BASE) + Zeros(4)))) + Entries(n);
    assert t[8..][..26] == Names() && t[8..][26..28] == Le16(count) && t[8..][28..32] == Le32(APIC_BASE);
    assert t[8..34] == t[8..][..26] && t[34..36] == t[8..][26..28] && t[36..40] == t[8..][28..32];
    hide FinalTable, Front;
    var im := Image(n);
    assert im[..44] == t[..44];
    assert im[0..4] == im[..44][0..4] && im[4..6] == im[..44][4..6] && im[8..34] == im[..44][8..34];
    assert im[34..36] == im[..44][34..36] && im[36..40] == im[..44][36..40] && im[6] == im[..44][6];
    assert t[0..4] == t[..44][0..4] && t[4..6] == t[..44][4..6] && t[8..34] == t[..44][8..34];
    assert t[34..36] == t[..44][34..36] && t[36..40] == t[..44][36..40] && t[6] == t[..44][6];
    assert t[0..4] == t[0..7][0..4] && t[4..6] == t[0..7][4..6] && t[6] == t[0..7][6];
  }

  /**
   "PCMP", length, specification revision 4, OEM and product id, entry count, local APIC address; both numbers modulo
   2^16. The bytes that the length field counts sum to 0 whenever it covers the checksum.
   */
  lemma HeaderInMemory(m: Bytes, n: nat)
    requires 0x9fc00 + |Image(n)| <= |m|
    ensures 0x9fc00 + 44 <= |m|
    ensures var m', a := WithTable(m, n), 0x9fc00;
      && m'[a] == 'P' as int && m'[a + 1] == 'C' as int && m'[a + 2] == 'M' as int && m'[a + 3] == 'P' as int
      && U16At(m', a + 4) == (76 + 20 * n) % 0x1_0000 && m'[a + 6] == 4
      && (forall i :: 0 <= i < 20 ==> m'[a + 8 + i] == OEM_AND_PRODUCT[i] as int)
      && U16At(m', a + 34) == (n + 4) % 0x1_0000 && U32At(m', a + 36) == 0xfee0_0000
  {
    hide Image, WithTable, LeBytes, LeValue, Names;
    var m', a, im := WithTable(m, n), 0x9fc00, Image(n);
    TableSize(n);
    HeaderParts(n);
    PartInMemory(m, n, 0, PCMP);
    PartInMemory(m, n, 4, Le16(LengthField(n)));
    assert im[6..7] == [4];
    PartInMemory(m, n, 6, [4]);
    PartInMemory(m, n, 8, Names());
    PartInMemory(m, n, 34, Le16((n + 4) % TWO_TO_THE_16));
    PartInMemory(m, n, 36, Le32(APIC_BASE));
    forall i: nat | i < 20
      ensures m'[a + 8 + i] == OEM_AND_PRODUCT[i] as int
    {
      NameBytes(i);
    }
    WordSizes();
    LeRoundTrip(LengthField(n), 2);
    LeRoundTrip((n + 4) % TWO_TO_THE_16, 2);
    LeRoundTrip(APIC_BASE, 4);
  }

  lemma PointerPart(n: nat)
    ensures var off := (76 + 20 * n + 15) / 16 * 16; off + 16 == |Image(n)| && Image(n)[off..off + 16] == FinalMpf()
    ensures FinalMpf()[9] == 4
  {
    hide FinalTable, Sum, LeBytes;
    assert FinalMpf()[9] == 4;
    hide FinalMpf;
  }

  /** "_MP_", the table's address, one paragraph long, revision 4, at the next 16-byte boundary behind the table. */
  lemma PointerLayout(m: Bytes, n: nat)
    requires 0x9fc00 + |Image(n)| <= |m|
    ensures 0x9fc00 + (76 + 20 * n + 15) / 16 * 16 + 16 <= |m|
    ensures var m', a := WithTable(m, n), 0x9fc00 + (76 + 20 * n + 15) / 16 * 16;
      && m'[a] == '_' as int && m'[a + 1] == 'M' as int && m'[a + 2] == 'P' as int && m'[a + 3] == '_' as int
      && U32At(m', a + 4) == 0x9fc00 && m'[a + 8] == 1 && m'[a + 9] == 4 && Sum(m'[a..a + 16]) % 0x100 == 0
  {
    hide WithTable, LeBytes, LeValue, Sum, Image, FinalMpf;
    var off := (76 + 20 * n + 15) / 16 * 16;
    PointerPart(n);
    MpfFields();
    MpfSumsToZero();
    PartInMemory(m, n, off, FinalMpf());
    var m', a := WithTable(m, n), 0x9fc00 + off;
    CopiedSlice(m', a, FinalMpf(), 4, 8);
    assert FinalMpf()[0] == FinalMpf()[0..4][0] && FinalMpf()[1] == FinalMpf()[0..4][1];
    assert FinalMpf()[2] == FinalMpf()[0..4][2] && FinalMpf()[3] == FinalMpf()[0..4][3];
    WordSizes();
    LeRoundTrip(0x9fc00, 4);
  }

  // ---- what the reader is told about the processors ----

  /** Of the processors read back, all are enabled (bit 0) and exactly the first is the boot processor (bit 1). */
  lemma OneBootProcessor(m: Bytes, n: nat, i: nat)
    requires 0x9fc00 + |Image(n)| <= |m| && i < n <= 3272
    ensures var read := ReadMpTable(WithTable(m, n), 0x9fc00 + (76 + 20 * n + 15) / 16 * 16);
      && read.Some? && |read.value| == n + 4
      && read.value[i].Processor? && read.value[i].apicId == i % 0x100
      && read.value[i].flags % 2 == 1 && (read.value[i].flags / 2 % 2 == 1 <==> i == 0)
      && read.value[i].flags == if i == 0 then 3 else 1
  {
    hide Image, ExpectedFrom, ReadMpTable, Splice;
    MpTableReadsBack(m, n);
    ExpectedProcessor(0, i, n);
  }

  /** The operating system searches from 0x9fc00 to 0xa0000 and finds the table exactly up to 46 processors. */
  lemma FoundBelow640K(m: Bytes, n: nat)
    requires 0x9fc00 + |Image(n)| <= |m|
    ensures Search(WithTable(m, n), 0x9fc00, 0xa0000)
         == if n <= 46 then Some(0x9fc00 + (76 + 20 * n + 15) / 16 * 16) else None
    ensures Discover(WithTable(m, n)).Some? <==> n <= 46
  {
    hide Image, ExpectedFrom, ReadMpTable, Splice, IsPointer;
    FloatingPointerFoundIff(m, n);
  }
}
