/** The MP configuration table of src/kvm/mptable.h, with a reader as in the MultiProcessor Specification 1.4. */
module MpTable {
  import opened Words
  import opened GuestMemory

  const MPTABLE_START: nat := 0x9fc00
  const MPTABLE_MAX_SIZE: nat := 32 * 0x10_0000

  const HEADER_LEN: nat := 44
  const CPU_LEN: nat := 20
  const ENTRY_LEN: nat := 8
  const MPF_LEN: nat := 16

  const MP_PROCESSOR: u8 := 0
  const MP_BUS: u8 := 1
  const MP_IOAPIC: u8 := 2
  const MP_LINTSRC: u8 := 4

  const PCMP: Bytes := [0x50, 0x43, 0x4d, 0x50]
  const MP_ANCHOR: Bytes := [0x5f, 0x4d, 0x50, 0x5f]
  const OEM: Bytes := [0x4b, 0x56, 0x4d, 0x43, 0x50, 0x55, 0x30, 0x30]
  const PRODUCT_ID: Bytes := [0x30, 0x2e, 0x31, 0x20, 0x20, 0x20, 0x20, 0x20, 0x20, 0x20, 0x20, 0x20]
  const PCI_BUS: Bytes := [0x50, 0x43, 0x49, 0x20, 0x20, 0x20]

  const APIC_VERSION: u8 := 0x14
  const APIC_BASE: u32 := 0xfee0_0000
  const IOAPIC_BASE: u32 := 0xfec0_0000

  // ---- sums ----

  function Sum(bs: Bytes): nat {
    if bs == [] then 0 else bs[0] + Sum(bs[1..])
  }

  lemma {:induction false} SumConcat(x: Bytes, y: Bytes)
    ensures Sum(x + y) == Sum(x) + Sum(y)
    decreases |x|
  {
    if x == [] {
      assert x + y == y;
    } else {
      assert (x + y)[1..] == x[1..] + y;
      SumConcat(x[1..], y);
    }
  }

  /** The two's complement negation of a byte. */
  function Negate(b: u8): u8 { (0x100 - b) % 0x100 }

  lemma SameByte(x: nat, y: nat, b: u8)
    requires x % 0x100 == y % 0x100
    ensures (x + b) % 0x100 == (y + b) % 0x100
  {
    var p, q, r := x / 0x100, y / 0x100, x % 0x100;
    assert x + b == 0x100 * p + (r + b) && y + b == 0x100 * q + (r + b);
    MultiplesDropOut(p, r + b, 0x100);
    MultiplesDropOut(q, r + b, 0x100);
  }

  lemma AddByte(total: u32, sum: nat, b: u8)
    requires total % 0x100 == sum % 0x100
    ensures (total + b) % TWO_TO_THE_32 % 0x100 == (sum + b) % 0x100
  {
    SameByte(total, sum, b);
    var t := total + b;
    if t >= TWO_TO_THE_32 {
      var u: nat := t - TWO_TO_THE_32;
      RemainderIsUnique(1, u, TWO_TO_THE_32);
      assert t == 0x100 * 0x100_0000 + u;
      MultiplesDropOut(0x100_0000, u, 0x100);
    } else {
      RemainderIsUnique(0, t, TWO_TO_THE_32);
    }
  }

  /** mpf_checksum: a 32-bit sum cut to a byte. */
  method MpfChecksum(a: array<u8>, start: nat, len: nat) returns (sum: u8)
    requires start + len <= a.Length
    ensures sum == Sum(a[start..start + len]) % 0x100
  {
    var total: u32 := 0;
    for i := 0 to len
      invariant total % 0x100 == Sum(a[start..start + i]) % 0x100
    {
      assert Sum(a[start..start + i + 1]) == Sum(a[start..start + i]) + a[start + i] by {
        SumConcat(a[start..start + i], [a[start + i]]);
        assert a[start..start + i + 1] == a[start..start + i] + [a[start + i]];
      }
      AddByte(total, Sum(a[start..start + i]), a[start + i]);
      total := (total + a[start + i]) % TWO_TO_THE_32;
    }
    sum := total % 0x100;
  }

  // ---- the bytes that are written ----

  /** gen_cpu_flag: enabled, and the first one is the boot processor. */
  function CpuFlag(cpu: nat, ncpu: nat): u8 {
    (if cpu < ncpu then 1 else 0) + (if cpu == 0 then 2 else 0)
  }

  function Cpu(i: nat, n: nat): (bs: Bytes)
    ensures |bs| == CPU_LEN
  {
    [MP_PROCESSOR, i % 0x100, APIC_VERSION, CpuFlag(i, n)] + Le32(0x600) + Le32(0x201) + Zeros(8)
  }

  function Cpus(i: nat, n: nat): (bs: Bytes)
    ensures |bs| == CPU_LEN * i
  {
    if i == 0 then [] else Cpus(i - 1, n) + Cpu(i - 1, n)
  }

  function Bus(): (bs: Bytes)
    ensures |bs| == ENTRY_LEN
  {
    [MP_BUS, 0] + PCI_BUS
  }

  function IoApic(n: nat): (bs: Bytes)
    ensures |bs| == ENTRY_LEN
  {
    [MP_IOAPIC, (n + 1) % 0x100, APIC_VERSION, 1] + Le32(IOAPIC_BASE)
  }

  /** Local interrupt pin `pin`; the first is an ordinary interrupt (0), the second the NMI (1). */
  function LocalInt(pin: u8): (bs: Bytes)
    ensures |bs| == ENTRY_LEN
  {
    [MP_LINTSRC, pin, 0, 0, 0, 0, 0, pin]
  }

  function Entries(n: nat): (bs: Bytes)
    ensures |bs| == CPU_LEN * n + 4 * ENTRY_LEN
  {
    Cpus(n, n) + Bus() + IoApic(n) + LocalInt(0) + LocalInt(1)
  }

  function TableLen(n: nat): nat { HEADER_LEN + CPU_LEN * n + 4 * ENTRY_LEN }

  /** The 16-bit length field. */
  function LengthField(n: nat): u16 { TableLen(n) % TWO_TO_THE_16 }

  /** The header up to the checksum byte. */
  function Front(length: u16): (bs: Bytes)
    ensures |bs| == 7
  {
    PCMP + Le16(length) + [4]
  }

  function Names(): (bs: Bytes)
    ensures |bs| == 26
  {
    OEM + PRODUCT_ID + Zeros(6)
  }

  /** The header behind the checksum byte. */
  function Back(count: u16): (bs: Bytes)
    ensures |bs| == 36
  {
    Names() + (Le16(count) + (Le32(APIC_BASE) + Zeros(4)))
  }

  function Table(n: nat, length: u16, checksum: u8, count: u16): (bs: Bytes)
    ensures |bs| == TableLen(n)
  {
    Front(length) + ([checksum] + (Back(count) + Entries(n)))
  }

  /** The finished table: the count is the number of entries, the checksum negates the sum of `length` bytes. */
  function FinalTable(n: nat): (bs: Bytes)
    ensures |bs| == TableLen(n)
  {
    var count := (n + 4) % TWO_TO_THE_16;
    var unsummed := Table(n, LengthField(n), 0, count);
    Table(n, LengthField(n), Negate(Sum(unsummed[..LengthField(n)]) % 0x100), count)
  }

  function AlignUp(x: nat): nat { (x + 15) / 16 * 16 }

  /** The floating pointer structure. */
  function Mpf(checksum: u8): (bs: Bytes)
    ensures |bs| == MPF_LEN
  {
    (MP_ANCHOR + Le32(MPTABLE_START) + [1, 4]) + ([checksum] + Zeros(5))
  }

  function FinalMpf(): (bs: Bytes)
    ensures |bs| == MPF_LEN
  {
    Mpf(Negate(Sum(Mpf(0)) % 0x100))
  }

  /** Everything copied to guest memory: table, padding, floating pointer. */
  function Image(n: nat): (bs: Bytes)
    ensures |bs| == AlignUp(TableLen(n)) + MPF_LEN
  {
    FinalTable(n) + Zeros(AlignUp(TableLen(n)) - TableLen(n)) + FinalMpf()
  }

  // ---- checksums ----

  lemma NegateCancels(x: nat, y: nat)
    ensures (x + Negate((x + y) % 0x100) + y) % 0x100 == 0
  {
  }

  /** Putting the negated sum into a zero byte makes the sum vanish. */
  lemma SumWithChecksum(x: Bytes, y: Bytes)
    ensures Sum(x + ([Negate(Sum(x + ([0] + y)) % 0x100)] + y)) % 0x100 == 0
  {
    var c := Negate(Sum(x + ([0] + y)) % 0x100);
    SumConcat(x, [0] + y);
    SumConcat([0], y);
    SumConcat(x, [c] + y);
    SumConcat([c], y);
    assert Sum([c]) == c && Sum([0]) == 0;
    NegateCancels(Sum(x), Sum(y));
  }

  /** The first `length` bytes of the table sum to 0, for every CPU count for which the field covers the checksum. */
  lemma TableSumsToZero(n: nat)
    requires LengthField(n) >= 8
    ensures LengthField(n) <= |FinalTable(n)| && Sum(FinalTable(n)[..LengthField(n)]) % 0x100 == 0
  {
    var length, count := LengthField(n), (n + 4) % TWO_TO_THE_16;
    var rest := (Back(count) + Entries(n))[..length - 8];
    var c := Negate(Sum(Table(n, length, 0, count)[..length]) % 0x100);
    assert Table(n, length, 0, count)[..length] == Front(length) + ([0] + rest);
    assert Table(n, length, c, count)[..length] == Front(length) + ([c] + rest);
    SumWithChecksum(Front(length), rest);
  }

  lemma MpfSumsToZero()
    ensures Sum(FinalMpf()) % 0x100 == 0
  {
    SumWithChecksum(MP_ANCHOR + Le32(MPTABLE_START) + [1, 4], Zeros(5));
  }

  // ---- reading the table back ----

  datatype Entry =
    | Processor(apicId: u8, flags: u8)
    | IsaBus(id: u8, name: Bytes)
    | IoApicEntry(apicId: u8, usable: bool, address: u32)
    | LocalInterrupt(kind: u8, bus: u8, busIrq: u8, apic: u8, pin: u8)

  function EntryType(e: Entry): nat {
    match e
    case Processor(_, _) => 0
    case IsaBus(_, _) => 1
    case IoApicEntry(_, _, _) => 2
    case LocalInterrupt(_, _, _, _, _) => 4
  }

  /** Walks the entries by their type byte; the walk must end exactly at the end. */
  function ParseEntries(bs: Bytes): Option<seq<Entry>> {
    if bs == [] then Some([])
    else if bs[0] == MP_PROCESSOR && |bs| >= CPU_LEN then
      Prepend(Processor(bs[1], bs[3]), ParseEntries(bs[CPU_LEN..]))
    else if |bs| < ENTRY_LEN then None
    else if bs[0] == MP_BUS then
      Prepend(IsaBus(bs[1], bs[2..8]), ParseEntries(bs[ENTRY_LEN..]))
    else if bs[0] == MP_IOAPIC then
      Prepend(IoApicEntry(bs[1], bs[3] % 2 == 1, U32At(bs, 4)), ParseEntries(bs[ENTRY_LEN..]))
    else if bs[0] == MP_LINTSRC then
      Prepend(LocalInterrupt(bs[1], bs[4], bs[5], bs[6], bs[7]), ParseEntries(bs[ENTRY_LEN..]))
    else None
  }

  function Prepend(e: Entry, rest: Option<seq<Entry>>): Option<seq<Entry>> {
    match rest
    case None => None
    case Some(es) => Some([e] + es)
  }

  /** The processors from number i on, then bus, IO-APIC and the two local interrupts. */
  function ExpectedFrom(i: nat, n: nat): (es: seq<Entry>)
    requires i <= n
    ensures |es| == n - i + 4
    decreases n - i
  {
    if i < n then [Processor(i % 0x100, CpuFlag(i, n))] + ExpectedFrom(i + 1, n)
    else [IsaBus(0, PCI_BUS), IoApicEntry((n + 1) % 0x100, true, IOAPIC_BASE),
          LocalInterrupt(0, 0, 0, 0, 0), LocalInterrupt(1, 0, 0, 0, 1)]
  }

  /** The bytes of the entries from processor i on. */
  function EntriesFrom(i: nat, n: nat): Bytes
    requires i <= n
    decreases n - i
  {
    if i < n then Cpu(i, n) + EntriesFrom(i + 1, n) else Bus() + (IoApic(n) + (LocalInt(0) + LocalInt(1)))
  }

  lemma {:induction false} EntriesSplit(i: nat, n: nat)
    requires i <= n
    ensures Cpus(i, n) + EntriesFrom(i, n) == Entries(n)
    decreases n - i
  {
    if i < n {
      EntriesSplit(i + 1, n);
      assert Cpus(i, n) + (Cpu(i, n) + EntriesFrom(i + 1, n)) == Cpus(i + 1, n) + EntriesFrom(i + 1, n);
    }
  }

  lemma ParseCpu(i: nat, n: nat, rest: Bytes)
    ensures ParseEntries(Cpu(i, n) + rest) == Prepend(Processor(i % 0x100, CpuFlag(i, n)), ParseEntries(rest))
  {
    assert (Cpu(i, n) + rest)[CPU_LEN..] == rest;
  }

  lemma ParseBus(rest: Bytes)
    ensures ParseEntries(Bus() + rest) == Prepend(IsaBus(0, PCI_BUS), ParseEntries(rest))
  {
    assert (Bus() + rest)[ENTRY_LEN..] == rest && (Bus() + rest)[2..8] == PCI_BUS;
  }

  lemma ParseIoApic(n: nat, rest: Bytes)
    ensures ParseEntries(IoApic(n) + rest)
         == Prepend(IoApicEntry((n + 1) % 0x100, true, IOAPIC_BASE), ParseEntries(rest))
  {
    hide LeBytes, LeValue;
    var bs := IoApic(n) + rest;
    assert bs[ENTRY_LEN..] == rest;
    assert bs[4..8] == Le32(IOAPIC_BASE);
    WordSizes();
    LeRoundTrip(IOAPIC_BASE, 4);
  }

  lemma ParseLocalInt(pin: u8, rest: Bytes)
    ensures ParseEntries(LocalInt(pin) + rest) == Prepend(LocalInterrupt(pin, 0, 0, 0, pin), ParseEntries(rest))
  {
    assert (LocalInt(pin) + rest)[ENTRY_LEN..] == rest;
  }

  lemma {:induction false} ParseFrom(i: nat, n: nat)
    requires i <= n
    ensures ParseEntries(EntriesFrom(i, n)) == Some(ExpectedFrom(i, n))
    decreases n - i
  {
    hide ParseEntries, Cpu, Bus, IoApic, LocalInt;
    if i < n {
      ParseCpu(i, n, EntriesFrom(i + 1, n));
      ParseFrom(i + 1, n);
    } else {
      ParseBus(IoApic(n) + (LocalInt(0) + LocalInt(1)));
      ParseIoApic(n, LocalInt(0) + LocalInt(1));
      ParseLocalInt(0, LocalInt(1));
      ParseLocalInt(1, []);
      assert LocalInt(1) + [] == LocalInt(1);
      ParseNothing();
      var bus, apic := IsaBus(0, PCI_BUS), IoApicEntry((n + 1) % 0x100, true, IOAPIC_BASE);
      var l0, l1 := LocalInterrupt(0, 0, 0, 0, 0), LocalInterrupt(1, 0, 0, 0, 1);
      assert [bus] + ([apic] + ([l0] + ([l1] + []))) == ExpectedFrom(i, n);
    }
  }

  lemma ParseNothing()
    ensures ParseEntries([]) == Some([])
  {
  }

  // ---- an operating system's view of the whole thing ----

  /**
   Sections 4.1 to 4.3 of the specification: at the floating pointer check anchor, length and checksum, follow the
   physical address, check signature, length and checksum of the table, walk the entries, compare their count.
   */
  function ReadMpTable(m: Bytes, at: nat): Option<seq<Entry>> {
    if IsPointer(m, at) then ReadTable(m, U32At(m, at + 4)) else None
  }

  /** Anchor, length and checksum of a floating pointer structure. */
  predicate IsPointer(m: Bytes, at: nat) {
    && at + MPF_LEN <= |m|
    && m[at..at + 4] == MP_ANCHOR && m[at + 8] == 1 && Sum(m[at..at + MPF_LEN]) % 0x100 == 0
  }

  function ReadTable(m: Bytes, at: nat): Option<seq<Entry>> {
    if at + HEADER_LEN > |m| || m[at..at + 4] != PCMP then None
    else
      var len := U16At(m, at + 4);
      if len < HEADER_LEN || at + len > |m| || Sum(m[at..at + len]) % 0x100 != 0 then None
      else
        match ParseEntries(m[at + HEADER_LEN..at + len])
        case None => None
        case Some(es) => if |es| == U16At(m, at + 34) then Some(es) else None
  }

  function EncodedSize(es: seq<Entry>): nat {
    if es == [] then 0 else (if es[0].Processor? then CPU_LEN else ENTRY_LEN) + EncodedSize(es[1..])
  }

  /** A walk that succeeds has used up exactly the bytes of its entries. */
  lemma {:induction false} ParseUsesAll(bs: Bytes)
    ensures ParseEntries(bs).Some? ==> EncodedSize(ParseEntries(bs).value) == |bs|
    decreases |bs|
  {
    if bs != [] && ParseEntries(bs).Some? {
      var n := if bs[0] == MP_PROCESSOR && |bs| >= CPU_LEN then CPU_LEN else ENTRY_LEN;
      ParseUsesAll(bs[n..]);
      assert ParseEntries(bs).value[1..] == ParseEntries(bs[n..]).value;
    }
  }

  lemma SizeCons(e: Entry, es: seq<Entry>)
    ensures EncodedSize([e] + es) == (if e.Processor? then CPU_LEN else ENTRY_LEN) + EncodedSize(es)
  {
    assert ([e] + es)[1..] == es;
  }

  lemma {:induction false} ExpectedSize(i: nat, n: nat)
    requires i <= n
    ensures EncodedSize(ExpectedFrom(i, n)) == CPU_LEN * (n - i) + 4 * ENTRY_LEN
    decreases n - i
  {
    var es := ExpectedFrom(i, n);
    if i < n {
      ExpectedSize(i + 1, n);
      assert es[1..] == ExpectedFrom(i + 1, n);
    } else {
      assert es == [es[0]] + ([es[1]] + ([es[2]] + ([es[3]] + [])));
      SizeCons(es[3], []);
      SizeCons(es[2], [es[3]] + []);
      SizeCons(es[1], [es[2]] + ([es[3]] + []));
      SizeCons(es[0], [es[1]] + ([es[2]] + ([es[3]] + [])));
    }
  }

  /** The fields of the table, as slices. */
  lemma TableFields(n: nat)
    ensures var t := FinalTable(n);
      && t[0..4] == PCMP && t[4..6] == Le16(LengthField(n)) && t[34..36] == Le16((n + 4) % TWO_TO_THE_16)
      && t[HEADER_LEN..] == Entries(n)
  {
    hide LeBytes, Entries, Sum;
    var count := (n + 4) % TWO_TO_THE_16;
    var t, front, names := FinalTable(n), Front(LengthField(n)), Names();
    var tail := Le32(APIC_BASE) + Zeros(4);
    var c := t[7];
    assert t == front + ([c] + ((names + (Le16(count) + tail)) + Entries(n)));
    assert front[0..4] == PCMP && front[4..6] == Le16(LengthField(n));
    assert t[0..7] == front;
    assert t[0..4] == front[0..4] && t[4..6] == front[4..6];
    assert t[8..] == (names + (Le16(count) + tail)) + Entries(n);
    assert t[8..][26..28] == Le16(count);
    assert t[34..36] == t[8..][26..28];
    assert t[8..][36..] == Entries(n);
  }

  lemma MpfFields()
    ensures var f := FinalMpf(); f[0..4] == MP_ANCHOR && f[4..8] == Le32(MPTABLE_START) && f[8] == 1
  {
    hide LeBytes, Sum;
  }

  /** A table in memory, as a reader sees its header. */
  lemma TableHeader(m: Bytes, n: nat)
    requires MPTABLE_START + TableLen(n) <= |m|
    requires m[MPTABLE_START..MPTABLE_START + TableLen(n)] == FinalTable(n)
    ensures m[MPTABLE_START..MPTABLE_START + 4] == PCMP
    ensures U16At(m, MPTABLE_START + 4) == LengthField(n) && U16At(m, MPTABLE_START + 34) == (n + 4) % TWO_TO_THE_16
  {
    hide LeBytes, LeValue, FinalTable, Entries;
    var t := FinalTable(n);
    TableFields(n);
    CopiedSlice(m, MPTABLE_START, t, 0, 4);
    CopiedSlice(m, MPTABLE_START, t, 4, 6);
    CopiedSlice(m, MPTABLE_START, t, 34, 36);
    WordSizes();
    LeRoundTrip(LengthField(n), 2);
    LeRoundTrip((n + 4) % TWO_TO_THE_16, 2);
  }

  lemma FittingTable(m: Bytes, n: nat)
    requires MPTABLE_START + TableLen(n) <= |m| && TableLen(n) < TWO_TO_THE_16
    requires m[MPTABLE_START..MPTABLE_START + TableLen(n)] == FinalTable(n)
    ensures ReadTable(m, MPTABLE_START) == Some(ExpectedFrom(0, n))
  {
    hide FinalTable, Entries, ParseEntries, Sum, ExpectedFrom, U16At;
    var t, len := FinalTable(n), TableLen(n);
    TableHeader(m, n);
    TableFields(n);
    RemainderIsUnique(0, len, TWO_TO_THE_16);
    RemainderIsUnique(0, n + 4, TWO_TO_THE_16);
    TableSumsToZero(n);
    assert t[..len] == t;
    CopiedSlice(m, MPTABLE_START, t, HEADER_LEN, len);
    EntriesSplit(0, n);
    assert Cpus(0, n) + EntriesFrom(0, n) == EntriesFrom(0, n);
    ParseFrom(0, n);
  }

  lemma OversizeTable(m: Bytes, n: nat)
    requires MPTABLE_START + TableLen(n) <= |m| && TableLen(n) >= TWO_TO_THE_16
    requires m[MPTABLE_START..MPTABLE_START + TableLen(n)] == FinalTable(n)
    ensures ReadTable(m, MPTABLE_START) != Some(ExpectedFrom(0, n))
  {
    hide FinalTable, ParseEntries, Sum, ExpectedFrom, EncodedSize, U16At;
    TableHeader(m, n);
    if ReadTable(m, MPTABLE_START) == Some(ExpectedFrom(0, n)) {
      ParseUsesAll(m[MPTABLE_START + HEADER_LEN..MPTABLE_START + LengthField(n)]);
      ExpectedSize(0, n);
    }
  }

  /** The table reads back as the expected entries exactly if its length fits the 16-bit field. */
  lemma TableReadsBack(m: Bytes, n: nat)
    requires MPTABLE_START + TableLen(n) <= |m|
    requires m[MPTABLE_START..MPTABLE_START + TableLen(n)] == FinalTable(n)
    ensures ReadTable(m, MPTABLE_START) == Some(ExpectedFrom(0, n)) <==> TableLen(n) < TWO_TO_THE_16
  {
    hide ReadTable, FinalTable, ExpectedFrom;
    if TableLen(n) < TWO_TO_THE_16 {
      FittingTable(m, n);
    } else {
      OversizeTable(m, n);
    }
  }

  /**
   Round trip: an operating system that finds the floating pointer behind the table reads back n processors, the bus,
   the IO-APIC and the two local interrupts, for exactly the CPU counts whose table length fits in 16 bits.
   */
  lemma MpTableReadsBack(m: Bytes, n: nat)
    requires MPTABLE_START + |Image(n)| <= |m|
    ensures var m' := Splice(m, MPTABLE_START, Image(n));
      ReadMpTable(m', MPTABLE_START + AlignUp(TableLen(n))) == Some(ExpectedFrom(0, n)) <==> n <= 3272
  {
    hide LeBytes, LeValue, FinalTable, FinalMpf, ReadTable, IsPointer, Sum, ExpectedFrom, Splice;
    var m', image, off := Splice(m, MPTABLE_START, Image(n)), Image(n), AlignUp(TableLen(n));
    SpliceHit(m, MPTABLE_START, image);
    var at := MPTABLE_START + off;
    CopiedSlice(m', MPTABLE_START, image, 0, TableLen(n));
    assert image[0..TableLen(n)] == FinalTable(n);
    assert image[off..off + MPF_LEN] == FinalMpf();
    CopiedSlice(m', MPTABLE_START, image, off, off + MPF_LEN);
    PointerInMemory(m, n);
    MpfFields();
    CopiedSlice(m', at, FinalMpf(), 4, 8);
    WordSizes();
    LeRoundTrip(MPTABLE_START, 4);
    assert U32At(m', at + 4) == MPTABLE_START;
    TableReadsBack(m', n);
  }

  /** The entry types ascend, as section 4.3 asks. */
  lemma {:induction false} TypesAscend(i: nat, n: nat)
    requires i <= n
    ensures forall a, b :: 0 <= a <= b < n - i + 4 ==>
      EntryType(ExpectedFrom(i, n)[a]) <= EntryType(ExpectedFrom(i, n)[b])
    decreases n - i
  {
    if i < n {
      TypesAscend(i + 1, n);
    }
  }

  lemma {:induction false} ExpectedProcessor(i: nat, k: nat, n: nat)
    requires i <= k < n
    ensures ExpectedFrom(i, n)[k - i] == Processor(k % 0x100, CpuFlag(k, n))
    decreases k - i
  {
    if i < k {
      ExpectedProcessor(i + 1, k, n);
    }
  }

  /** The id an entry claims on the APIC bus. */
  predicate Claims(e: Entry, id: u8) {
    (e.Processor? && e.apicId == id) || (e.IoApicEntry? && e.apicId == id)
  }

  ghost predicate DistinctApicIds(es: seq<Entry>) {
    forall a, b, id :: 0 <= a < b < |es| && Claims(es[a], id) ==> !Claims(es[b], id)
  }

  lemma {:induction false} ExpectedTail(i: nat, n: nat)
    requires i <= n
    ensures var es := ExpectedFrom(i, n);
      && es[n - i] == IsaBus(0, PCI_BUS) && es[n - i + 1] == IoApicEntry((n + 1) % 0x100, true, IOAPIC_BASE)
      && es[n - i + 2].LocalInterrupt? && es[n - i + 3].LocalInterrupt?
    decreases n - i
  {
    if i < n {
      ExpectedTail(i + 1, n);
    }
  }

  /** Processors and IO-APIC have distinct 8-bit ids exactly up to 254 CPUs. */
  lemma ApicIdsDistinctIff(n: nat)
    ensures DistinctApicIds(ExpectedFrom(0, n)) <==> n <= 254
  {
    hide ExpectedFrom;
    var es := ExpectedFrom(0, n);
    ExpectedTail(0, n);
    forall k | 0 <= k < n
      ensures es[k] == Processor(k % 0x100, CpuFlag(k, n))
    {
      ExpectedProcessor(0, k, n);
    }
    if n >= 255 {
      var k := (n + 1) % 0x100;
      if n == 255 || n == 256 {
        assert Claims(es[k], k) && Claims(es[n + 1], k);
      } else {
        assert Claims(es[0], 0) && Claims(es[0x100], 0);
      }
    }
  }

  // ---- finding it ----

  const SEARCH_END: nat := MPTABLE_START + 0x400

  /** Section 4: look at every 16-byte boundary for a floating pointer structure that lies in front of the end. */
  function Search(m: Bytes, at: nat, end: nat): (found: Option<nat>)
    ensures found.Some? ==> IsPointer(m, found.value)
    decreases end - at
  {
    if at + MPF_LEN > end then None
    else if IsPointer(m, at) then Some(at)
    else Search(m, at + 16, end)
  }

  /** What an operating system that searches the last kilobyte of base memory reads. */
  function Discover(m: Bytes): Option<seq<Entry>> {
    match Search(m, MPTABLE_START, SEARCH_END)
    case None => None
    case Some(at) => ReadMpTable(m, at)
  }

  /** No byte at a multiple of 4 in a processor entry is an underscore, whatever the processor's number. */
  lemma CpuWords(i: nat, n: nat, o: nat)
    requires o < CPU_LEN && o % 4 == 0
    ensures Cpu(i, n)[o] != MP_ANCHOR[0]
  {
    assert Le32(0x600)[0] == 0 && Le32(0x201)[0] == 1;
    assert o in {0, 4, 8, 12, 16};
  }

  lemma {:induction false} CpusWords(i: nat, n: nat, o: nat)
    requires o < CPU_LEN * i && o % 4 == 0
    ensures Cpus(i, n)[o] != MP_ANCHOR[0]
  {
    hide Cpu;
    if o < CPU_LEN * (i - 1) {
      CpusWords(i - 1, n, o);
    } else {
      CpuWords(i - 1, n, o - CPU_LEN * (i - 1));
    }
  }

  lemma EntriesWords(n: nat, o: nat)
    requires o < CPU_LEN * n + 4 * ENTRY_LEN && o % 4 == 0
    ensures Entries(n)[o] != MP_ANCHOR[0]
  {
    hide Cpu, Cpus;
    if o < CPU_LEN * n {
      CpusWords(n, n, o);
    } else {
      var k := o - CPU_LEN * n;
      assert k in {0, 4, 8, 12, 16, 20, 24, 28};
      assert Le32(IOAPIC_BASE)[0] == 0;
      assert Entries(n)[o] == (Bus() + IoApic(n) + LocalInt(0) + LocalInt(1))[k];
    }
  }

  /** The header, at the 16-byte boundaries in it. */
  lemma HeaderWords(n: nat, o: nat)
    requires o in {0, 16, 32}
    ensures FinalTable(n)[o] != MP_ANCHOR[0]
  {
    hide LeBytes, Sum, Entries;
    var count := (n + 4) % TWO_TO_THE_16;
    var t, front, names, c := FinalTable(n), Front(LengthField(n)), Names(), FinalTable(n)[7];
    assert t == front + ([c] + ((names + (Le16(count) + (Le32(APIC_BASE) + Zeros(4)))) + Entries(n)));
    assert t[0] == front[0] && t[16] == names[8] && t[32] == names[24];
  }

  lemma ImageFront(n: nat, o: nat)
    requires o < AlignUp(TableLen(n))
    ensures Image(n)[o] == if o < TableLen(n) then FinalTable(n)[o] else 0
  {
    hide FinalTable, FinalMpf;
  }

  lemma TableBody(n: nat, o: nat)
    requires HEADER_LEN <= o < TableLen(n)
    ensures FinalTable(n)[o] == Entries(n)[o - HEADER_LEN]
  {
    TableFields(n);
    hide FinalTable, Entries;
    assert FinalTable(n)[o] == FinalTable(n)[HEADER_LEN..][o - HEADER_LEN];
  }

  /** In front of the floating pointer no 16-byte boundary holds the first byte of the anchor. */
  lemma NoAnchorInTable(n: nat, k: nat)
    requires 16 * k < AlignUp(TableLen(n))
    ensures Image(n)[16 * k] != MP_ANCHOR[0]
  {
    hide Image, FinalTable, Entries, AlignUp;
    var o := 16 * k;
    ImageFront(n, o);
    if o < HEADER_LEN {
      assert k in {0, 1, 2};
      HeaderWords(n, o);
    } else if o < TableLen(n) {
      TableBody(n, o);
      assert o - HEADER_LEN == 4 * (4 * k - 11);
      EntriesWords(n, o - HEADER_LEN);
    }
  }

  /** The search passes k boundaries at which there is no floating pointer. */
  lemma {:induction false} SearchSkips(m: Bytes, at: nat, k: nat, end: nat)
    requires forall i {:trigger IsPointer(m, at + 16 * i)} :: 0 <= i < k ==> !IsPointer(m, at + 16 * i)
    ensures at + 16 * k + MPF_LEN <= end ==> Search(m, at, end) == Search(m, at + 16 * k, end)
    ensures end <= at + 16 * k ==> Search(m, at, end).None?
    decreases k
  {
    hide IsPointer;
    if k > 0 {
      assert !IsPointer(m, at + 16 * 0);
      forall i | 0 <= i < k - 1
        ensures !IsPointer(m, at + 16 + 16 * i)
      {
        assert !IsPointer(m, at + 16 * (i + 1));
      }
      SearchSkips(m, at + 16, k - 1, end);
    }
  }

  lemma PointerStarts(m: Bytes, at: nat)
    requires IsPointer(m, at)
    ensures m[at] == MP_ANCHOR[0]
  {
    hide Sum;
    assert m[at] == m[at..at + 4][0];
  }

  lemma ImageInMemory(m: Bytes, n: nat, k: nat)
    requires MPTABLE_START + |Image(n)| <= |m| && 16 * k < AlignUp(TableLen(n))
    ensures !IsPointer(Splice(m, MPTABLE_START, Image(n)), MPTABLE_START + 16 * k)
  {
    hide Image, Splice, IsPointer, AlignUp;
    var m', at := Splice(m, MPTABLE_START, Image(n)), MPTABLE_START + 16 * k;
    NoAnchorInTable(n, k);
    SpliceAt(m, MPTABLE_START, Image(n), at);
    if IsPointer(m', at) {
      PointerStarts(m', at);
    }
  }

  /** The floating pointer is at a boundary, and inside the searched range exactly up to 46 CPUs. */
  lemma PointerPlace(n: nat) returns (k: nat)
    ensures AlignUp(TableLen(n)) == 16 * k
    ensures if n <= 46 then 16 * k + MPF_LEN <= 0x400 else 0x400 <= 16 * k
  {
    k := (TableLen(n) + 15) / 16;
  }

  lemma PointerInMemory(m: Bytes, n: nat)
    requires MPTABLE_START + |Image(n)| <= |m|
    ensures IsPointer(Splice(m, MPTABLE_START, Image(n)), MPTABLE_START + AlignUp(TableLen(n)))
  {
    hide LeBytes, FinalTable, FinalMpf, Sum, Splice;
    var m', image, off := Splice(m, MPTABLE_START, Image(n)), Image(n), AlignUp(TableLen(n));
    var at := MPTABLE_START + off;
    SpliceHit(m, MPTABLE_START, image);
    assert image[off..off + MPF_LEN] == FinalMpf();
    CopiedSlice(m', MPTABLE_START, image, off, off + MPF_LEN);
    MpfFields();
    MpfSumsToZero();
    CopiedSlice(m', at, FinalMpf(), 0, 4);
    CopiedSlice(m', at, FinalMpf(), 8, 9);
    assert m'[at + 8] == m'[at + 8..at + 9][0] == FinalMpf()[8..9][0];
  }

  /**
   The operating system's search of the last kilobyte of base memory finds the floating pointer that was written, and
   with it the processors, bus, IO-APIC and local interrupts, exactly up to 46 CPUs; for more it finds nothing at all.
   */
  lemma FloatingPointerFoundIff(m: Bytes, n: nat)
    requires MPTABLE_START + |Image(n)| <= |m|
    ensures var m' := Splice(m, MPTABLE_START, Image(n));
      && Search(m', MPTABLE_START, SEARCH_END)
         == (if n <= 46 then Some(MPTABLE_START + AlignUp(TableLen(n))) else None)
      && (Discover(m') == Some(ExpectedFrom(0, n)) <==> n <= 46)
  {
    hide Image, Splice, ExpectedFrom, ReadMpTable, IsPointer, AlignUp, TableLen;
    var m', off := Splice(m, MPTABLE_START, Image(n)), AlignUp(TableLen(n));
    var k := PointerPlace(n);
    forall i | 0 <= i < k
      ensures !IsPointer(m', MPTABLE_START + 16 * i)
    {
      ImageInMemory(m, n, i);
    }
    SearchSkips(m', MPTABLE_START, k, SEARCH_END);
    PointerInMemory(m, n);
    MpTableReadsBack(m, n);
  }

  // ---- building it ----

  lemma ZerosSplit(k: nat, i: nat)
    requires i <= k
    ensures Zeros(k) == Zeros(i) + Zeros(k - i)
  {
  }

  /** Writing behind what is built appends to it. */
  lemma Append(built: Bytes, k: nat, bs: Bytes)
    requires |bs| <= k
    ensures Splice(built + Zeros(k), |built|, bs) == built + bs + Zeros(k - |bs|)
  {
    ZerosSplit(k, |bs|);
  }

  /** Overwriting a part in place. */
  lemma Patch(x: Bytes, y: Bytes, y': Bytes, z: Bytes)
    requires |y| == |y'|
    ensures Splice(x + (y + z), |x|, y') == x + (y' + z)
  {
  }

  /** The table before the last three assignments: count still the CPU number, no length, no checksum. */
  function Draft(n: nat): (bs: Bytes)
    ensures |bs| == HEADER_LEN
  {
    Front(0) + ([0] + Back(n % TWO_TO_THE_16))
  }

  method EmitEntries(buf: array<u8>, n: nat) returns (pos: nat)
    requires TableLen(n) <= buf.Length
    requires buf[..] == Draft(n) + Zeros(buf.Length - HEADER_LEN)
    modifies buf
    ensures pos == TableLen(n)
    ensures buf[..] == Draft(n) + Entries(n) + Zeros(buf.Length - pos)
  {
    hide Splice, Draft, Bus, IoApic, LocalInt, Cpu, Zeros;
    ghost var d := Draft(n);
    pos := HEADER_LEN;
    assert d + Cpus(0, n) == d;
    for i := 0 to n
      invariant pos == HEADER_LEN + CPU_LEN * i
      invariant buf[..] == d + Cpus(i, n) + Zeros(buf.Length - pos)
    {
      Append(d + Cpus(i, n), buf.Length - pos, Cpu(i, n));
      CopyIn(buf, pos, Cpu(i, n));
      assert d + Cpus(i, n) + Cpu(i, n) == d + Cpus(i + 1, n);
      pos := pos + CPU_LEN;
    }
    ghost var built := d + Cpus(n, n);
    Append(built, buf.Length - pos, Bus());
    CopyIn(buf, pos, Bus());
    pos, built := pos + ENTRY_LEN, built + Bus();
    Append(built, buf.Length - pos, IoApic(n));
    CopyIn(buf, pos, IoApic(n));
    pos, built := pos + ENTRY_LEN, built + IoApic(n);
    Append(built, buf.Length - pos, LocalInt(0));
    CopyIn(buf, pos, LocalInt(0));
    pos, built := pos + ENTRY_LEN, built + LocalInt(0);
    Append(built, buf.Length - pos, LocalInt(1));
    CopyIn(buf, pos, LocalInt(1));
    pos, built := pos + ENTRY_LEN, built + LocalInt(1);
    assert built == d + Entries(n);
  }

  method SetupMpTable(memory: array<u8>, n: u32)
    requires |Image(n)| <= MPTABLE_MAX_SIZE && MPTABLE_START + |Image(n)| <= memory.Length
    modifies memory
    ensures memory[..] == Splice(old(memory[..]), MPTABLE_START, Image(n))
  {
    hide Splice, Draft, Entries, FinalMpf, FinalTable;
    var buf := new u8[MPTABLE_MAX_SIZE](_ => 0);
    StartDraft(buf, n);
    var last := EmitEntries(buf, n);
    var mpf := AlignUp(last);
    EmitFloatingPointer(buf, n, mpf);
    assert buf[..] == Draft(n) + Behind(n, buf.Length - mpf - MPF_LEN);
    FinishHeader(buf, n, buf.Length - mpf - MPF_LEN);
    SignTable(buf, n, buf.Length - mpf - MPF_LEN);
    assert buf[..mpf + MPF_LEN] == Image(n);
    CopyIn(memory, MPTABLE_START, buf[..mpf + MPF_LEN]);
  }

  /** The header fields that are assigned first, into the zeroed buffer. */
  method StartDraft(buf: array<u8>, n: nat)
    requires HEADER_LEN <= buf.Length && forall i :: 0 <= i < buf.Length ==> buf[i] == 0
    modifies buf
    ensures buf[..] == Draft(n) + Zeros(buf.Length - HEADER_LEN)
  {
    hide Splice, Draft;
    assert buf[..] == [] + Zeros(buf.Length);
    Append([], buf.Length, Draft(n));
    CopyIn(buf, 0, Draft(n));
    assert [] + Draft(n) == Draft(n);
  }

  /** Fills the floating pointer, then replaces its checksum byte. */
  method EmitFloatingPointer(buf: array<u8>, n: nat, mpf: nat)
    requires mpf == AlignUp(TableLen(n)) && mpf + MPF_LEN <= buf.Length
    requires buf[..] == Draft(n) + Entries(n) + Zeros(buf.Length - TableLen(n))
    modifies buf
    ensures buf[..] == Draft(n) + Entries(n) + Zeros(mpf - TableLen(n)) + FinalMpf() + Zeros(buf.Length - mpf - MPF_LEN)
  {
    hide Splice, Draft, Entries, LeBytes, Sum;
    ghost var built := Draft(n) + Entries(n) + Zeros(mpf - TableLen(n));
    ghost var rest := Zeros(buf.Length - mpf - MPF_LEN);
    ZerosSplit(buf.Length - TableLen(n), mpf - TableLen(n));
    assert buf[..] == built + Zeros(buf.Length - mpf);
    Append(built, buf.Length - mpf, Mpf(0));
    CopyIn(buf, mpf, Mpf(0));
    assert buf[..] == built + Mpf(0) + rest;
    assert buf[mpf..mpf + MPF_LEN] == Mpf(0);
    var sum := MpfChecksum(buf, mpf, MPF_LEN);
    ghost var front := MP_ANCHOR + Le32(MPTABLE_START) + [1, 4];
    assert built + Mpf(0) + rest == (built + front) + ([0] + (Zeros(5) + rest));
    Patch(built + front, [0], [Negate(sum)], Zeros(5) + rest);
    CopyIn(buf, mpf + 10, [Negate(sum)]);
    assert (built + front) + ([Negate(sum)] + (Zeros(5) + rest)) == built + Mpf(Negate(sum)) + rest;
  }

  /** What lies behind the header: entries, padding, floating pointer, unused buffer. */
  function Behind(n: nat, unused: nat): Bytes {
    Entries(n) + Zeros(AlignUp(TableLen(n)) - TableLen(n)) + FinalMpf() + Zeros(unused)
  }

  /** Entry count and length are known last. */
  method FinishHeader(buf: array<u8>, n: nat, unused: nat)
    requires buf[..] == Draft(n) + Behind(n, unused)
    modifies buf
    ensures buf[..] == Front(LengthField(n)) + ([0] + (Back((n + 4) % TWO_TO_THE_16) + Behind(n, unused)))
  {
    hide Splice, LeBytes, Behind, Zeros, Names;
    var count := (n + 4) % TWO_TO_THE_16;
    ghost var tail, rest := Le32(APIC_BASE) + Zeros(4), Behind(n, unused);
    ghost var x := Front(0) + ([0] + Names());
    assert buf[..] == x + (Le16(n % TWO_TO_THE_16) + (tail + rest));
    Patch(x, Le16(n % TWO_TO_THE_16), Le16(count), tail + rest);
    CopyIn(buf, 34, Le16(count));
    ghost var z := [4] + ([0] + (Back(count) + rest));
    assert x + (Le16(count) + (tail + rest)) == PCMP + (Le16(0) + z);
    Patch(PCMP, Le16(0), Le16(LengthField(n)), z);
    CopyIn(buf, 4, Le16(LengthField(n)));
    assert PCMP + (Le16(LengthField(n)) + z) == Front(LengthField(n)) + ([0] + (Back(count) + rest));
  }

  /** The checksum over `length` bytes, with the checksum byte still zero. */
  method SignTable(buf: array<u8>, n: nat, unused: nat)
    requires buf[..] == Front(LengthField(n)) + ([0] + (Back((n + 4) % TWO_TO_THE_16) + Behind(n, unused)))
    requires buf.Length == |Image(n)| + unused
    modifies buf
    ensures buf[..] == Image(n) + Zeros(unused)
  {
    hide Splice, Sum, Behind, Table, Front, Back, Image, Zeros;
    ghost var length, count := LengthField(n), (n + 4) % TWO_TO_THE_16;
    SignedBytes(n, 0, unused);
    assert buf[0..length] == Table(n, length, 0, count)[..length];
    var sum := MpfChecksum(buf, 0, LengthField(n));
    SignedBytes(n, Negate(sum), unused);
    Patch(Front(length), [0], [Negate(sum)], Back(count) + Behind(n, unused));
    CopyIn(buf, 7, [Negate(sum)]);
    ImageParts(n);
  }

  lemma SignedBytes(n: nat, c: u8, unused: nat)
    ensures var length, count := LengthField(n), (n + 4) % TWO_TO_THE_16;
      Front(length) + ([c] + (Back(count) + Behind(n, unused)))
      == Table(n, length, c, count) + Zeros(AlignUp(TableLen(n)) - TableLen(n)) + FinalMpf() + Zeros(unused)
  {
    hide Entries, Zeros, FinalMpf, Front, Back;
  }

  lemma ImageParts(n: nat)
    ensures Image(n) == FinalTable(n) + Zeros(AlignUp(TableLen(n)) - TableLen(n)) + FinalMpf()
  {
  }
}
