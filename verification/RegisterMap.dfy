/**
 The register map of section 4.2.2 of VIRTIO 1.1 with every offset and value written out: what each register reads as
 and what it holds after any history of accesses. Nothing here goes through the offset constants of `Mmio`.
 */
module RegisterMap {
  import opened Words
  import opened Bits
  import opened GuestMemory
  import opened Queues
  import opened Interrupts
  import opened Mmio
  import BringUp
  import VirtioSystem

  // ---- reading ----

  /** The word a driver reads at an offset; the device adds its id and its feature word. */
  function WordAt(s: DeviceRegs, offset: nat, id: u32, features: u32): u32
    requires CanRead(s, offset, 4)
  {
    U32At(ReadBytes(s, offset, 4, id, features), 0)
  }

  /** What each readable register says: identification, features, queues, interrupt, status and generation. */
  lemma RegisterValues(s: DeviceRegs, id: u32, features: u32)
    ensures forall offset: nat :: offset != 0x44 ==> CanRead(s, offset, 4)
    ensures WordAt(s, 0x00, id, features) == 0x7472_6976 && WordAt(s, 0x04, id, features) == 2
    ensures WordAt(s, 0x08, id, features) == id && WordAt(s, 0x0c, id, features) == 0x4b54_4858
    ensures WordAt(s, 0x10, id, features) == if s.deviceSel then 1 else features % 0x100_0000
    ensures WordAt(s, 0x34, id, features) == 512
    ensures WordAt(s, 0x60, id, features) == if s.line.level then 1 else 0
    ensures WordAt(s, 0x70, id, features) == s.status && WordAt(s, 0xfc, id, features) == s.generation
  {
    hide LeValue, LeBytes, BitOr;
    FeatureWord(s, id, features);
    WordReadsBack(s, 0x00, 4, id, features);
    WordReadsBack(s, 0x04, 4, id, features);
    WordReadsBack(s, 0x08, 4, id, features);
    WordReadsBack(s, 0x0c, 4, id, features);
    WordReadsBack(s, 0x34, 4, id, features);
    WordReadsBack(s, 0x60, 4, id, features);
    WordReadsBack(s, 0x70, 4, id, features);
    WordReadsBack(s, 0xfc, 4, id, features);
  }

  lemma FeatureWord(s: DeviceRegs, id: u32, features: u32)
    ensures WordAt(s, 0x10, id, features) == if s.deviceSel then 1 else features % 0x100_0000
  {
    hide LeValue, LeBytes, BitOr;
    WordReadsBack(s, 0x10, 4, id, features);
    JoinedFeatures(features);
  }

  lemma ReadyValue(s: DeviceRegs, id: u32, features: u32)
    requires s.selected < |s.queues|
    ensures WordAt(s, 0x44, id, features) == if s.queues[s.selected].ready then 1 else 0
  {
    hide LeValue, LeBytes;
    WordReadsBack(s, 0x44, 4, id, features);
  }

  /** A longer read is padded with zeros; registers that are not readable are all zeros. */
  lemma RestIsZero(s: DeviceRegs, offset: nat, size: nat, id: u32, features: u32, i: nat)
    requires CanRead(s, offset, size) && offset < 0x100 && i < size
    requires i >= 4 || offset !in {0x00, 0x04, 0x08, 0x0c, 0x10, 0x34, 0x44, 0x60, 0x70, 0xfc}
    ensures ReadBytes(s, offset, size, id, features)[i] == 0
  {
    hide LeBytes;
  }

  /** Every size of read of a register starts with the word. */
  lemma SameWord(s: DeviceRegs, offset: nat, size: nat, id: u32, features: u32)
    requires CanRead(s, offset, size) && size >= 4 && offset < 0x100
    ensures U32At(ReadBytes(s, offset, size, id, features), 0) == WordAt(s, offset, id, features)
  {
    hide LeValue, LeBytes;
    assert ReadBytes(s, offset, size, id, features)[0..4] == ReadBytes(s, offset, 4, id, features)[0..4];
  }

  // ---- after any history ----

  /** The value written last to a register, or the initial one. */
  function LastTo(ws: seq<Access>, offset: nat, initial: u32): u32 {
    if ws == [] then initial
    else
      var a := ws[|ws| - 1];
      if a.Register? && a.w.offset == offset then a.w.value else LastTo(ws[..|ws| - 1], offset, initial)
  }

  /** How often the register was written with the value. */
  function Count(ws: seq<Access>, offset: nat, value: nat): nat {
    if ws == [] then 0
    else
      var a := ws[|ws| - 1];
      Count(ws[..|ws| - 1], offset, value) + if a.Register? && a.w.offset == offset && a.w.value == value then 1 else 0
  }

  /** One access, register by register. */
  lemma OneAccess(s: DeviceRegs, a: Access, q: nat)
    requires s.Accepts(a) && q < |s.queues|
    ensures var s', r := s.After(a), a.Register?;
      && |s'.queues| == |s'.notified| == |s.queues|
      && s'.status == (if r && a.w.offset == 0x70 then a.w.value % 0x100 else s.status)
      && s'.selected == (if r && a.w.offset == 0x30 then a.w.value else s.selected)
      && s'.deviceSel == (if r && a.w.offset == 0x14 then a.w.value == 1 else s.deviceSel)
      && s'.driverSel == (if r && a.w.offset == 0x24 then a.w.value == 1 else s.driverSel)
      && s'.notified[q]
         == (if r && a.w.offset == 0x50 && a.w.value == q then (s.notified[q] + 1) % TWO_TO_THE_64 else s.notified[q])
      && s'.line == (if r && a.w.offset == 0x64 && a.w.value == 1 then Line(false, s.line.signals) else s.line)
  {
    hide WriteQueue, Or64, Splice;
  }

  lemma CountWraps(start: nat, n: nat)
    ensures ((start + n) % TWO_TO_THE_64 + 1) % TWO_TO_THE_64 == (start + (n + 1)) % TWO_TO_THE_64
  {
  }

  /**
   From power-on, after any history: status is the low byte of what was written last to 0x70, the selected queue what
   was written last to 0x30; the selectors at 0x14 and 0x24 choose the high half exactly if the last value was 1; a
   queue was notified as often as its number was written to 0x50; the line falls exactly on a write of 1 to 0x64.
   */
  lemma {:induction false} RegistersAfterHistory(s: DeviceRegs, ws: seq<Access>, q: nat)
    requires AcceptsAll(s, ws) && q < |s.queues| == |s.notified| && s.status == 0 && s.selected == 0
    requires !s.deviceSel && !s.driverSel && s.notified[q] == 0
    ensures |AfterAll(s, ws).notified| == |s.queues|
    ensures var s' := AfterAll(s, ws);
      && s'.status == LastTo(ws, 0x70, 0) % 0x100 && s'.selected == LastTo(ws, 0x30, 0)
      && (s'.deviceSel <==> LastTo(ws, 0x14, 0) == 1) && (s'.driverSel <==> LastTo(ws, 0x24, 0) == 1)
      && s'.notified[q] == Count(ws, 0x50, q) % 0x1_0000_0000_0000_0000
      && (s'.line.level <==> s.line.level && Count(ws, 0x64, 1) == 0) && s'.line.signals == s.line.signals
  {
    if ws != [] {
      hide DeviceRegs.After, DeviceRegs.Accepts;
      var n := |ws| - 1;
      RegistersAfterHistory(s, ws[..n], q);
      OneAccess(AfterAll(s, ws[..n]), ws[n], q);
      CountWraps(0, Count(ws[..n], 0x50, q));
    }
  }

  /**
   Read after write, over any history: the driver reads back the status it wrote last and the half it chose last, and
   the generation counts the stores that lay inside the configuration space.
   */
  lemma OwnRegistersReadBack(queueCount: nat, config: Bytes, ws: seq<Access>, id: u32, features: u32)
    requires queueCount > 0 && AcceptsAll(PowerOn(queueCount, config), ws)
    ensures var s := AfterAll(PowerOn(queueCount, config), ws);
      && CanRead(s, 0x70, 4) && WordAt(s, 0x70, id, features) == LastTo(ws, 0x70, 0) % 0x100
      && CanRead(s, 0x10, 4)
      && WordAt(s, 0x10, id, features) == (if LastTo(ws, 0x14, 0) == 1 then 1 else features % 0x100_0000)
      && CanRead(s, 0xfc, 4)
      && WordAt(s, 0xfc, id, features) == ConfigWrites(PowerOn(queueCount, config), ws) % 0x1_0000_0000
  {
    hide AfterAll, AcceptsAll, LastTo, Count, ReadBytes, ConfigWrites;
    GenerationCounts(PowerOn(queueCount, config), ws);
    RegistersAfterHistory(PowerOn(queueCount, config), ws, 0);
    RegisterValues(AfterAll(PowerOn(queueCount, config), ws), id, features);
  }

  /** A write to 0x20 adds its word to the driver's features, in the half that 0x24 chose. */
  lemma DriverFeatureWords(s: DeviceRegs, ws: seq<Access>, a: Access)
    requires AcceptsAll(s, ws + [a]) && s.driverFeatures == 0
    ensures AcceptsAll(s, ws)
    ensures var half := if AfterAll(s, ws).driverSel then 1 else 0;
      FeatureWrites(s, ws + [a])
      == FeatureWrites(s, ws) + if a.Register? && a.w.offset == 0x20 then [Write(half, a.w.value)] else []
    ensures var fw := FeatureWrites(s, ws);
      AfterAll(s, ws).driverFeatures == OrAll(Values(fw, 0)) + 0x1_0000_0000 * OrAll(Values(fw, 1))
  {
    assert (ws + [a])[..|ws|] == ws;
    FeaturesAfterHistory(s, ws);
    hide OrAll, Values;
  }

  // ---- the registers of a queue ----

  /** A write reaches queue q exactly if q is selected and the offset is one of the eight queue registers. */
  lemma ReachesQueue(s: DeviceRegs, ws: seq<Access>, a: Access, q: nat)
    requires AcceptsAll(s, ws + [a])
    ensures AcceptsAll(s, ws)
    ensures WritesTo(s, ws + [a], q)
         == WritesTo(s, ws, q)
            + if a.Register? && AfterAll(s, ws).selected == q
                 && a.w.offset in {0x38, 0x44, 0x80, 0x84, 0x90, 0x94, 0xa0, 0xa4} then [a.w] else []
  {
    assert (ws + [a])[..|ws|] == ws;
  }

  /** Size at 0x38, ready at 0x44, descriptors at 0x80 and 0x84, available at 0x90 and 0x94, used at 0xa0 and 0xa4. */
  lemma QueueRegisters(s: DeviceRegs, ws: seq<Access>, q: nat)
    requires AcceptsAll(s, ws) && q < |s.queues| && s.queues[q] == ZERO_REGS
    ensures var own, r := WritesTo(s, ws, q), AfterAll(s, ws).queues[q];
      && r.place.desc == OrAll(Values(own, 0x80)) + 0x1_0000_0000 * OrAll(Values(own, 0x84))
      && r.place.avail == OrAll(Values(own, 0x90)) + 0x1_0000_0000 * OrAll(Values(own, 0x94))
      && r.place.used == OrAll(Values(own, 0xa0)) + 0x1_0000_0000 * OrAll(Values(own, 0xa4))
      && (r.ready <==> Values(own, 0x44) != [])
      && r.place.size == if Values(own, 0x38) == [] then 0 else Values(own, 0x38)[|Values(own, 0x38)| - 1]
  {
    hide WritesTo, Values, OrAll, AfterAll, AcceptsAll;
    QueuesDoNotInterfere(s, ws, q);
    QueueAfterHistory(WritesTo(s, ws, q));
  }

  /** The writes with which `BringUp` sets queue q up. */
  lemma SetUpWrites(q: u32, l: Layout)
    ensures BringUp.SetUp(l)
         == [Write(0x38, l.size), Write(0x80, l.desc % 0x1_0000_0000), Write(0x84, l.desc / 0x1_0000_0000),
             Write(0x90, l.avail % 0x1_0000_0000), Write(0x94, l.avail / 0x1_0000_0000),
             Write(0xa0, l.used % 0x1_0000_0000), Write(0xa4, l.used / 0x1_0000_0000), Write(0x44, 1)]
    ensures BringUp.Accesses(q, []) == [Register(Write(0x30, q))]
  {
  }

  // ---- storing through the window ----

  /** Below 0x100 a register, its word the first four bytes, least significant first; from there on configuration. */
  lemma WindowLayout(offset: nat, data: Bytes)
    requires |data| >= 4
    ensures offset < 0x100 ==> AccessOf(offset, data) == Register(Write(offset, U32At(data, 0)))
    ensures offset >= 0x100 ==> AccessOf(offset, data) == Config(offset - 0x100, data)
  {
    hide U32At;
  }

  /** What is stored at 0x100 + at is read there, if it lies inside the configuration space. */
  lemma StoredIsRead(s: DeviceRegs, at: nat, data: Bytes, id: u32, features: u32)
    requires s.Accepts(AccessOf(0x100 + at, data)) && at + |data| <= |s.config|
    ensures CanRead(s.After(AccessOf(0x100 + at, data)), 0x100 + at, |data|)
    ensures ReadBytes(s.After(AccessOf(0x100 + at, data)), 0x100 + at, |data|, id, features) == data
  {
    hide Splice, ReadRegister;
    SpliceHit(s.config, at, data);
  }

  // ---- the interrupt handler's reads ----

  lemma StepKeepsLine(s: VirtioSystem.System, a: VirtioSystem.Action)
    requires VirtioSystem.Shaped(s) && VirtioSystem.Enabled(s, a) && VirtioSystem.LineInv(s)
    ensures VirtioSystem.LineInv(VirtioSystem.Apply(s, a))
  {
    hide VirtioSystem.ApplyOp, VirtioSystem.OpEnabled;
  }

  lemma {:induction false} RunKeepsLine(s: VirtioSystem.System, actions: seq<VirtioSystem.Action>)
    requires VirtioSystem.Shaped(s) && VirtioSystem.IsRun(s, actions) && VirtioSystem.LineInv(s)
    ensures VirtioSystem.LineInv(VirtioSystem.Run(s, actions))
    decreases |actions|
  {
    hide VirtioSystem.Apply, VirtioSystem.Enabled, VirtioSystem.LineInv;
    if actions != [] {
      StepKeepsLine(s, actions[0]);
      RunKeepsLine(VirtioSystem.Apply(s, actions[0]), actions[1..]);
    }
  }

  /**
   In every run of any configuration, a handler that has taken the interrupt reads 1 at 0x60; when it has written 1 to
   0x64 it reads 0, and the system is where acknowledging leads.
   */
  lemma HandlerSeesInterrupt(c: seq<VirtioSystem.QueueConfig>, actions: seq<VirtioSystem.Action>, regs: DeviceRegs,
                             id: u32, features: u32)
    requires c != [] && VirtioSystem.ValidConfig(c) && VirtioSystem.IsRun(VirtioSystem.Init(c), actions)
    requires VirtioSystem.Run(VirtioSystem.Init(c), actions).driver.Acking?
    requires regs.line == VirtioSystem.Run(VirtioSystem.Init(c), actions).line && |regs.notified| == |regs.queues|
    ensures regs.Accepts(Register(Write(0x64, 1)))
    ensures var s, after := VirtioSystem.Run(VirtioSystem.Init(c), actions), regs.After(Register(Write(0x64, 1)));
      && CanRead(regs, 0x60, 4) && WordAt(regs, 0x60, id, features) == 1
      && CanRead(after, 0x60, 4) && WordAt(after, 0x60, id, features) == 0
      && after.line == VirtioSystem.Apply(s, VirtioSystem.Acknowledge).line
  {
    hide VirtioSystem.Run, VirtioSystem.IsRun, ReadBytes, WriteQueue, Or64;
    RunKeepsLine(VirtioSystem.Init(c), actions);
    RegisterValues(regs, id, features);
    RegisterValues(regs.After(Register(Write(0x64, 1))), id, features);
  }
}
