/**
 The virtio-mmio register file of src/kvm/virtio/mmio.h and src/kvm/virtio/device.h: one device with any number of
 queues. Registers are accessed as 32-bit words (section 4.2.2 of VIRTIO 1.1), configuration space by the byte.
 */
module Mmio {
  import opened Words
  import opened Bits
  import opened GuestMemory
  import opened Rings
  import opened Queues
  import opened Interrupts

  const DEVICE_FEATURES: nat := 0x010
  const DEVICE_FEATURES_SEL: nat := 0x014
  const DRIVER_FEATURES: nat := 0x020
  const DRIVER_FEATURES_SEL: nat := 0x024
  const QUEUE_SEL: nat := 0x030
  const QUEUE_NUM_MAX: nat := 0x034
  const QUEUE_NUM: nat := 0x038
  const QUEUE_READY: nat := 0x044
  const QUEUE_NOTIFY: nat := 0x050
  const INTERRUPT_STATUS: nat := 0x060
  const INTERRUPT_ACK: nat := 0x064
  const STATUS: nat := 0x070
  const QUEUE_DESC_LOW: nat := 0x080
  const QUEUE_DESC_HIGH: nat := 0x084
  const QUEUE_AVAIL_LOW: nat := 0x090
  const QUEUE_AVAIL_HIGH: nat := 0x094
  const QUEUE_USED_LOW: nat := 0x0a0
  const QUEUE_USED_HIGH: nat := 0x0a4
  const CONFIG_GENERATION: nat := 0x0fc

  /** `a | b` on 64-bit registers. */
  function Or64(a: u64, b: u64): u64 {
    ShlWord(1);
    ShlWord(0x1_0000_0000);
    ShlSum(1, 32, 32);
    OrFields(0, a, 0, b, 64);
    BitOr(a, b)
  }

  // ---- the registers of one queue ----

  datatype QueueRegs = QueueRegs(place: Layout, ready: bool)

  const ZERO_REGS: QueueRegs := QueueRegs(Layout(0, 0, 0, 0), false)

  datatype Write = Write(offset: nat, value: u32) {
    predicate ForSelectedQueue() {
      offset in {QUEUE_NUM, QUEUE_READY, QUEUE_DESC_LOW, QUEUE_DESC_HIGH, QUEUE_AVAIL_LOW, QUEUE_AVAIL_HIGH,
                 QUEUE_USED_LOW, QUEUE_USED_HIGH}
    }
  }

  function WriteQueue(r: QueueRegs, w: Write): QueueRegs {
    var low: u64, high: u64 := w.value, w.value * TWO_TO_THE_32;
    if w.offset == QUEUE_NUM then r.(place := r.place.(size := w.value))
    else if w.offset == QUEUE_READY then r.(ready := true)
    else if w.offset == QUEUE_DESC_LOW then r.(place := r.place.(desc := Or64(r.place.desc, low)))
    else if w.offset == QUEUE_DESC_HIGH then r.(place := r.place.(desc := Or64(r.place.desc, high)))
    else if w.offset == QUEUE_AVAIL_LOW then r.(place := r.place.(avail := Or64(r.place.avail, low)))
    else if w.offset == QUEUE_AVAIL_HIGH then r.(place := r.place.(avail := Or64(r.place.avail, high)))
    else if w.offset == QUEUE_USED_LOW then r.(place := r.place.(used := Or64(r.place.used, low)))
    else if w.offset == QUEUE_USED_HIGH then r.(place := r.place.(used := Or64(r.place.used, high)))
    else r
  }

  function WriteQueueAll(r: QueueRegs, ws: seq<Write>): QueueRegs {
    if ws == [] then r else WriteQueue(WriteQueueAll(r, ws[..|ws| - 1]), ws[|ws| - 1])
  }

  // ---- the whole device ----

  /** A write to a register below offset 0x100, or of some bytes to the configuration space behind it. */
  datatype Access =
    | Register(w: Write)
    | Config(at: nat, data: Bytes)

  /** The access that storing `data` at an offset of the device's window is; a register takes the first word of it. */
  function AccessOf(offset: nat, data: Bytes): Access
    requires offset < CONFIG ==> |data| >= 4
  {
    if offset >= CONFIG then Config(offset - CONFIG, data) else Register(Write(offset, U32At(data, 0)))
  }

  datatype DeviceRegs = DeviceRegs(
    status: u8,
    selected: u32,
    driverFeatures: u64,
    deviceSel: bool,
    driverSel: bool,
    queues: seq<QueueRegs>,
    notified: seq<u64>,
    config: Bytes,
    generation: u32,
    line: Line)
  {
    /** Register accesses index the queue array without a check. */
    predicate Accepts(a: Access) {
      && |notified| == |queues|
      && (a.Register? ==>
            && (a.w.ForSelectedQueue() ==> selected < |queues|)
            && (a.w.offset == QUEUE_NOTIFY ==> a.w.value < |queues|))
    }

    function After(a: Access): (s': DeviceRegs)
      requires Accepts(a)
      ensures |s'.queues| == |queues| && |s'.notified| == |notified| && |s'.config| == |config|
    {
      match a
      case Register(w) => AfterWrite(w)
      case Config(at, data) =>
        if at + |data| > |config| then this
        else this.(config := Splice(config, at, data), generation := (generation + 1) % TWO_TO_THE_32)
    }

    function AfterWrite(w: Write): (s': DeviceRegs)
      requires Accepts(Register(w))
      ensures |s'.queues| == |queues| && |s'.notified| == |notified| && s'.config == config
    {
      if w.ForSelectedQueue() then this.(queues := queues[selected := WriteQueue(queues[selected], w)])
      else if w.offset == STATUS then this.(status := w.value % TWO_TO_THE_8)
      else if w.offset == DEVICE_FEATURES_SEL then this.(deviceSel := w.value == 1)
      else if w.offset == DRIVER_FEATURES_SEL then this.(driverSel := w.value == 1)
      else if w.offset == DRIVER_FEATURES then
        this.(driverFeatures := Or64(driverFeatures, if driverSel then w.value * TWO_TO_THE_32 else w.value))
      else if w.offset == QUEUE_SEL then this.(selected := w.value)
      else if w.offset == QUEUE_NOTIFY then
        this.(notified := notified[w.value := (notified[w.value] + 1) % TWO_TO_THE_64])
      else if w.offset == INTERRUPT_ACK && w.value == 1 then this.(line := line.Set(false))
      else this
    }
  }

  /** A device as constructed. */
  function PowerOn(queueCount: nat, config: Bytes): DeviceRegs {
    DeviceRegs(0, 0, 0, false, false, seq(queueCount, _ => ZERO_REGS), seq(queueCount, _ => 0), config, 0,
               Line(false, 0))
  }

  predicate AcceptsAll(s: DeviceRegs, ws: seq<Access>)
    decreases |ws|, 0
  {
    ws == [] || (AcceptsAll(s, ws[..|ws| - 1]) && AfterAll(s, ws[..|ws| - 1]).Accepts(ws[|ws| - 1]))
  }

  function AfterAll(s: DeviceRegs, ws: seq<Access>): (s': DeviceRegs)
    requires AcceptsAll(s, ws)
    ensures |s'.queues| == |s.queues| && |s'.notified| == |s.notified| && |s'.config| == |s.config|
    decreases |ws|, 1
  {
    if ws == [] then s else AfterAll(s, ws[..|ws| - 1]).After(ws[|ws| - 1])
  }

  /** The queue register writes issued while queue q was selected, in order. */
  function WritesTo(s: DeviceRegs, ws: seq<Access>, q: nat): seq<Write>
    requires AcceptsAll(s, ws)
  {
    if ws == [] then []
    else
      var n := |ws| - 1;
      var last := ws[n];
      WritesTo(s, ws[..n], q)
      + if last.Register? && last.w.ForSelectedQueue() && AfterAll(s, ws[..n]).selected == q then [last.w] else []
  }

  /** One access changes a queue exactly if it is a write to one of the queue registers while that queue is selected. */
  lemma AccessToQueue(s: DeviceRegs, a: Access, q: nat)
    requires s.Accepts(a) && q < |s.queues|
    ensures s.After(a).queues[q]
         == if a.Register? && a.w.ForSelectedQueue() && s.selected == q then WriteQueue(s.queues[q], a.w)
            else s.queues[q]
  {
    hide WriteQueue, Or64, Splice;
  }

  lemma LastWrite(r: QueueRegs, ws: seq<Write>, w: Write)
    ensures WriteQueueAll(r, ws + [w]) == WriteQueue(WriteQueueAll(r, ws), w)
  {
    hide WriteQueue;
    assert (ws + [w])[..|ws|] == ws;
  }

  /** Each queue's configuration is what the writes issued while it was selected make of it; no other write matters. */
  lemma {:induction false} QueuesDoNotInterfere(s: DeviceRegs, ws: seq<Access>, q: nat)
    requires AcceptsAll(s, ws) && q < |s.queues|
    ensures AfterAll(s, ws).queues[q] == WriteQueueAll(s.queues[q], WritesTo(s, ws, q))
  {
    if ws != [] {
      var n := |ws| - 1;
      QueuesDoNotInterfere(s, ws[..n], q);
      var before, last := WritesTo(s, ws[..n], q), ws[n];
      AccessToQueue(AfterAll(s, ws[..n]), last, q);
      hide WriteQueue, WriteQueueAll, DeviceRegs.After, DeviceRegs.Accepts;
      if last.Register? && last.w.ForSelectedQueue() && AfterAll(s, ws[..n]).selected == q {
        LastWrite(s.queues[q], before, last.w);
      } else {
        assert before + [] == before;
      }
    }
  }

  // ---- what a history of writes leaves in a queue ----

  /** The values written to one register, in order. */
  function Values(ws: seq<Write>, offset: nat): seq<nat> {
    if ws == [] then []
    else
      var n := |ws| - 1;
      Values(ws[..n], offset) + if ws[n].offset == offset then [ws[n].value] else []
  }

  lemma {:induction false} ValuesAreWords(ws: seq<Write>, offset: nat)
    ensures forall i :: 0 <= i < |Values(ws, offset)| ==> Values(ws, offset)[i] < TWO_TO_THE_32
  {
    if ws != [] {
      ValuesAreWords(ws[..|ws| - 1], offset);
    }
  }

  /** The or of the low words written, below the or of the high words written. */
  function Accumulated(ws: seq<Write>, low: nat, high: nat): nat {
    OrAll(Values(ws, low)) + TWO_TO_THE_32 * OrAll(Values(ws, high))
  }

  lemma ValuesStep(ws: seq<Write>, w: Write, offset: nat)
    ensures Values(ws + [w], offset) == Values(ws, offset) + if w.offset == offset then [w.value] else []
  {
    assert (ws + [w])[..|ws|] == ws;
  }

  /** Or with a low word changes the low word only, or with a high word the part above it. */
  lemma OrLowWord(low: nat, high: nat, v: nat)
    requires low < TWO_TO_THE_32 && v < TWO_TO_THE_32
    ensures BitOr(low + TWO_TO_THE_32 * high, v) == BitOr(low, v) + TWO_TO_THE_32 * high
  {
    hide BitOr, Shl;
    ShlWord(1);
    ShlWord(high);
    ShlZero(32);
    OrZero(high);
    OrFields(high, low, 0, v, 32);
  }

  lemma OrHighWord(low: nat, high: nat, v: nat)
    requires low < TWO_TO_THE_32
    ensures BitOr(low + TWO_TO_THE_32 * high, TWO_TO_THE_32 * v) == low + TWO_TO_THE_32 * BitOr(high, v)
  {
    hide BitOr, Shl;
    ShlWord(1);
    ShlWord(high);
    ShlWord(v);
    ShlWord(BitOr(high, v));
    OrZero(low);
    OrFields(high, low, v, 0, 32);
  }

  lemma OrAllIsWord(ws: seq<Write>, offset: nat)
    ensures OrAll(Values(ws, offset)) < TWO_TO_THE_32
  {
    hide Shl, OrAll, Values;
    ShlWord(1);
    ValuesAreWords(ws, offset);
    OrAllBound(Values(ws, offset), 32);
  }

  lemma AccumulatedStep(ws: seq<Write>, w: Write, low: nat, high: nat)
    requires low != high
    ensures Accumulated(ws + [w], low, high)
         == if w.offset == low then BitOr(Accumulated(ws, low, high), w.value)
            else if w.offset == high then BitOr(Accumulated(ws, low, high), TWO_TO_THE_32 * w.value)
            else Accumulated(ws, low, high)
  {
    hide BitOr, OrAll, Values;
    var lo, hi, v: nat := Values(ws, low), Values(ws, high), w.value;
    ValuesStep(ws, w, low);
    ValuesStep(ws, w, high);
    OrAllStep(lo, v);
    OrAllStep(hi, v);
    OrAllIsWord(ws, low);
    OrLowWord(OrAll(lo), OrAll(hi), v);
    OrHighWord(OrAll(lo), OrAll(hi), v);
  }

  lemma OrAllStep(vs: seq<nat>, v: nat)
    ensures OrAll(vs + [v]) == BitOr(OrAll(vs), v)
    ensures vs + [] == vs
  {
    assert (vs + [v])[..|vs|] == vs;
  }

  lemma WriteOneAddress(r: QueueRegs, w: Write)
    ensures var l, l', v: nat := r.place, WriteQueue(r, w).place, w.value;
      && l'.desc == (if w.offset == QUEUE_DESC_LOW then BitOr(l.desc, v)
                     else if w.offset == QUEUE_DESC_HIGH then BitOr(l.desc, TWO_TO_THE_32 * v) else l.desc)
      && l'.avail == (if w.offset == QUEUE_AVAIL_LOW then BitOr(l.avail, v)
                      else if w.offset == QUEUE_AVAIL_HIGH then BitOr(l.avail, TWO_TO_THE_32 * v) else l.avail)
      && l'.used == (if w.offset == QUEUE_USED_LOW then BitOr(l.used, v)
                     else if w.offset == QUEUE_USED_HIGH then BitOr(l.used, TWO_TO_THE_32 * v) else l.used)
  {
    hide BitOr;
  }

  lemma {:induction false} AddressesAfterHistory(ws: seq<Write>)
    ensures var l := WriteQueueAll(ZERO_REGS, ws).place;
      && l.desc == Accumulated(ws, QUEUE_DESC_LOW, QUEUE_DESC_HIGH)
      && l.avail == Accumulated(ws, QUEUE_AVAIL_LOW, QUEUE_AVAIL_HIGH)
      && l.used == Accumulated(ws, QUEUE_USED_LOW, QUEUE_USED_HIGH)
  {
    if ws != [] {
      hide BitOr, Accumulated, Values, WriteQueue, WriteQueueAll;
      var n := |ws| - 1;
      AddressesAfterHistory(ws[..n]);
      assert ws == ws[..n] + [ws[n]];
      LastWrite(ZERO_REGS, ws[..n], ws[n]);
      WriteOneAddress(WriteQueueAll(ZERO_REGS, ws[..n]), ws[n]);
      AccumulatedStep(ws[..n], ws[n], QUEUE_DESC_LOW, QUEUE_DESC_HIGH);
      AccumulatedStep(ws[..n], ws[n], QUEUE_AVAIL_LOW, QUEUE_AVAIL_HIGH);
      AccumulatedStep(ws[..n], ws[n], QUEUE_USED_LOW, QUEUE_USED_HIGH);
    } else {
      NothingWritten();
    }
  }

  lemma NothingWritten()
    ensures WriteQueueAll(ZERO_REGS, []) == ZERO_REGS && forall low, high :: Accumulated([], low, high) == 0
  {
  }

  lemma {:induction false} SizeAndReadyAfterHistory(ws: seq<Write>)
    ensures var r, sizes := WriteQueueAll(ZERO_REGS, ws), Values(ws, QUEUE_NUM);
      && (r.ready <==> Values(ws, QUEUE_READY) != [])
      && r.place.size == if sizes == [] then 0 else sizes[|sizes| - 1]
  {
    hide Or64;
    if ws != [] {
      SizeAndReadyAfterHistory(ws[..|ws| - 1]);
    }
  }

  /**
   The registers of a queue after any history of writes: the size is the last one written, the queue is ready once
   QUEUE_READY was written at all, whatever the value, and each address is the or of everything written to it.
   */
  lemma QueueAfterHistory(ws: seq<Write>)
    ensures var r, sizes := WriteQueueAll(ZERO_REGS, ws), Values(ws, QUEUE_NUM);
      && r.place.desc == Accumulated(ws, QUEUE_DESC_LOW, QUEUE_DESC_HIGH)
      && r.place.avail == Accumulated(ws, QUEUE_AVAIL_LOW, QUEUE_AVAIL_HIGH)
      && r.place.used == Accumulated(ws, QUEUE_USED_LOW, QUEUE_USED_HIGH)
      && (r.ready <==> Values(ws, QUEUE_READY) != [])
      && r.place.size == if sizes == [] then 0 else sizes[|sizes| - 1]
  {
    AddressesAfterHistory(ws);
    SizeAndReadyAfterHistory(ws);
  }

  /** Low and high word written in any order, any number of times, always the same: the address is theirs. */
  lemma AddressWritten(ws: seq<Write>, low: nat, high: nat, lo: u32, hi: u32)
    requires Values(ws, low) != [] && forall i :: 0 <= i < |Values(ws, low)| ==> Values(ws, low)[i] == lo
    requires Values(ws, high) != [] && forall i :: 0 <= i < |Values(ws, high)| ==> Values(ws, high)[i] == hi
    ensures Accumulated(ws, low, high) == lo + TWO_TO_THE_32 * hi
  {
    OrAllSame(Values(ws, low), lo);
    OrAllSame(Values(ws, high), hi);
  }

  /**
   Section 4.2.2 of VIRTIO 1.1 lets the driver write an address anew. The register then shows the words written last
   exactly if no earlier word had a bit outside the last one.
   */
  lemma AddressIsLastIff(ws: seq<Write>, low: nat, high: nat)
    requires Values(ws, low) != [] && Values(ws, high) != []
    ensures var los, his := Values(ws, low), Values(ws, high);
      var lo, hi := los[|los| - 1], his[|his| - 1];
      Accumulated(ws, low, high) == lo + TWO_TO_THE_32 * hi
      <==> (forall i :: 0 <= i < |los| ==> Within(los[i], lo)) && (forall i :: 0 <= i < |his| ==> Within(his[i], hi))
  {
    var los, his := Values(ws, low), Values(ws, high);
    ValuesAreWords(ws, low);
    ShlWord(1);
    OrAllBound(los, 32);
    OrAllIsLastIff(los);
    OrAllIsLastIff(his);
  }

  /** An address moved from 0x1000 to 0x2000: the register shows 0x3000. */
  lemma StaleAddressBit()
    ensures var ws := [Write(QUEUE_DESC_LOW, 0x1000), Write(QUEUE_DESC_LOW, 0x2000)];
      WriteQueueAll(ZERO_REGS, ws).place.desc == 0x3000
  {
    hide BitOr;
    var first, second := Write(QUEUE_DESC_LOW, 0x1000), Write(QUEUE_DESC_LOW, 0x2000);
    var ws := [first, second];
    assert ws[..1] == [first] && [first][..0] == [];
    OrZero(0x1000);
    assert WriteQueueAll(ZERO_REGS, [first]).place.desc == 0x1000;
    OrOneTwo(12);
    ShlPage(1);
    ShlPage(2);
    ShlPage(3);
    assert WriteQueueAll(ZERO_REGS, ws) == WriteQueue(WriteQueueAll(ZERO_REGS, [first]), second);
  }

  lemma {:induction false} OrOneTwo(k: nat)
    ensures BitOr(Shl(1, k), Shl(2, k)) == Shl(3, k)
  {
    if k > 0 {
      OrOneTwo(k - 1);
      OrHalves(Shl(1, k), Shl(2, k));
    } else {
      assert BitOr(0, 1) == 1;
    }
  }

  // ---- withdrawing a queue ----

  /**
   Section 4.2.2 of VIRTIO 1.1 lets the driver withdraw a queue by writing 0 to QUEUE_READY. After any history of a
   device in which that register was written, the queue is ready exactly as last written if that was 1, and never else.
   */
  lemma ReadyIsLastIff(s: DeviceRegs, ws: seq<Access>, q: nat)
    requires AcceptsAll(s, ws) && q < |s.queues| && s.queues[q] == ZERO_REGS
    requires Values(WritesTo(s, ws, q), QUEUE_READY) != []
    ensures var vs := Values(WritesTo(s, ws, q), QUEUE_READY);
      var last := vs[|vs| - 1];
      (AfterAll(s, ws).queues[q].ready <==> last == 1) <==> last == 1
  {
    hide WriteQueue, Values;
    QueuesDoNotInterfere(s, ws, q);
    SizeAndReadyAfterHistory(WritesTo(s, ws, q));
  }

  /** No register of the queue was given a value other than its initial one, or the size was set back to 0. */
  predicate LeftAlone(ws: seq<Write>) {
    var sizes := Values(ws, QUEUE_NUM);
    && Values(ws, QUEUE_READY) == []
    && (sizes == [] || sizes[|sizes| - 1] == 0)
    && AllZero(Values(ws, QUEUE_DESC_LOW)) && AllZero(Values(ws, QUEUE_DESC_HIGH))
    && AllZero(Values(ws, QUEUE_AVAIL_LOW)) && AllZero(Values(ws, QUEUE_AVAIL_HIGH))
    && AllZero(Values(ws, QUEUE_USED_LOW)) && AllZero(Values(ws, QUEUE_USED_HIGH))
  }

  predicate AllZero(vs: seq<nat>) { forall i :: 0 <= i < |vs| ==> vs[i] == 0 }

  lemma {:induction false} OrAllIsZeroIff(vs: seq<nat>)
    ensures OrAll(vs) == 0 <==> AllZero(vs)
  {
    WithinOrAll(vs, 0);
    OrZero(OrAll(vs));
    forall i | 0 <= i < |vs|
      ensures Within(vs[i], 0) <==> vs[i] == 0
    {
      OrZero(vs[i]);
    }
  }

  lemma AccumulatedIsZeroIff(ws: seq<Write>, low: nat, high: nat)
    ensures Accumulated(ws, low, high) == 0 <==> AllZero(Values(ws, low)) && AllZero(Values(ws, high))
  {
    OrAllIsZeroIff(Values(ws, low));
    OrAllIsZeroIff(Values(ws, high));
  }

  const RESET: Access := Register(Write(STATUS, 0))

  /**
   Writing 0 to STATUS is the driver's request for a reset (section 4.2.2 of VIRTIO 1.1). Whatever the history, status
   then reads 0, no queue has changed, and a queue is back in its initial state exactly if it was left alone before.
   */
  lemma ResetClearsIff(s: DeviceRegs, ws: seq<Access>, q: nat)
    requires AcceptsAll(s, ws) && q < |s.queues| == |s.notified| && s.queues[q] == ZERO_REGS
    ensures AcceptsAll(s, ws + [RESET]) && AfterAll(s, ws + [RESET]) == AfterAll(s, ws).(status := 0)
    ensures AfterAll(s, ws + [RESET]).queues[q] == ZERO_REGS <==> LeftAlone(WritesTo(s, ws, q))
  {
    hide WriteQueue, Values, Accumulated, Or64, AllZero;
    assert (ws + [RESET])[..|ws|] == ws;
    var own := WritesTo(s, ws, q);
    QueuesDoNotInterfere(s, ws, q);
    QueueAfterHistory(own);
    AccumulatedIsZeroIff(own, QUEUE_DESC_LOW, QUEUE_DESC_HIGH);
    AccumulatedIsZeroIff(own, QUEUE_AVAIL_LOW, QUEUE_AVAIL_HIGH);
    AccumulatedIsZeroIff(own, QUEUE_USED_LOW, QUEUE_USED_HIGH);
  }

  /** A queue that was made ready, then withdrawn, then reset is still ready. */
  lemma WithdrawnQueueStaysReady(config: Bytes)
    ensures var ws := [Register(Write(QUEUE_READY, 1)), Register(Write(QUEUE_READY, 0)), RESET];
      && AcceptsAll(PowerOn(1, config), ws) && AfterAll(PowerOn(1, config), ws).queues[0].ready
      && AfterAll(PowerOn(1, config), ws[..2]).queues[0].ready
  {
    var s, on, off := PowerOn(1, config), Register(Write(QUEUE_READY, 1)), Register(Write(QUEUE_READY, 0));
    var ws := [on, off, RESET];
    assert ws[..2] == [on, off] && [on, off][..1] == [on] && [on][..0] == [];
    assert AcceptsAll(s, [on]) && AfterAll(s, [on]).queues[0].ready;
    assert AcceptsAll(s, [on, off]) && AfterAll(s, [on, off]).queues[0].ready;
  }

  // ---- configuration space ----

  /** The number of accesses that changed the configuration space or could have. */
  function ConfigWrites(s: DeviceRegs, ws: seq<Access>): (n: nat)
    ensures n <= |ws|
  {
    if ws == [] then 0
    else
      var last := ws[|ws| - 1];
      ConfigWrites(s, ws[..|ws| - 1]) + if last.Config? && last.at + |last.data| <= |s.config| then 1 else 0
  }

  lemma {:induction false} GenerationCounts(s: DeviceRegs, ws: seq<Access>)
    requires AcceptsAll(s, ws)
    ensures AfterAll(s, ws).generation == Wrap32(s.generation + ConfigWrites(s, ws))
    ensures ConfigWrites(s, ws) == 0 ==> AfterAll(s, ws).config == s.config
  {
    hide WriteQueue, Or64, Splice, Wrap32, DeviceRegs.AfterWrite;
    var start: nat := s.generation;
    if ws == [] {
      WrapSmall(start);
    } else {
      GenerationCounts(s, ws[..|ws| - 1]);
      GenerationStep(AfterAll(s, ws[..|ws| - 1]), ws[|ws| - 1]);
      hide DeviceRegs.After;
      AddWraps(start + ConfigWrites(s, ws[..|ws| - 1]), 1);
    }
  }

  lemma WrapSmall(x: nat)
    requires x < TWO_TO_THE_32
    ensures Wrap32(x) == x
  {
  }

  lemma GenerationStep(s: DeviceRegs, a: Access)
    requires s.Accepts(a)
    ensures s.After(a).generation
         == if a.Config? && a.at + |a.data| <= |s.config| then Wrap32(s.generation as nat + 1) else s.generation
    ensures !(a.Config? && a.at + |a.data| <= |s.config|) ==> s.After(a).config == s.config
  {
    hide WriteQueue, Or64, Splice;
  }

  /**
   Section 2.4 of VIRTIO 1.1 has the driver read the configuration between two equal readings of the generation. That
   is sound over every stretch of fewer than 2^32 accesses: an unchanged generation means an unchanged configuration.
   */
  lemma GenerationGuardsConfig(s: DeviceRegs, ws: seq<Access>)
    requires AcceptsAll(s, ws) && |ws| < TWO_TO_THE_32
    ensures AfterAll(s, ws).generation == s.generation ==> AfterAll(s, ws).config == s.config
  {
    GenerationCounts(s, ws);
  }

  // ---- negotiated features ----

  /** The feature words written, as writes to a low and a high register chosen by the selector at the time. */
  function FeatureWrites(s: DeviceRegs, ws: seq<Access>): seq<Write>
    requires AcceptsAll(s, ws)
  {
    if ws == [] then []
    else
      var n := |ws| - 1;
      FeatureWrites(s, ws[..n]) + FeatureWrite(AfterAll(s, ws[..n]), ws[n])
  }

  function FeatureWrite(s: DeviceRegs, a: Access): seq<Write> {
    if a.Register? && a.w.offset == DRIVER_FEATURES then [Write(if s.driverSel then 1 else 0, a.w.value)] else []
  }

  lemma FeatureStep(s: DeviceRegs, a: Access, before: seq<Write>)
    requires s.Accepts(a) && s.driverFeatures == Accumulated(before, 0, 1)
    ensures s.After(a).driverFeatures == Accumulated(before + FeatureWrite(s, a), 0, 1)
  {
    hide BitOr, Accumulated, WriteQueue, Splice;
    if a.Register? && a.w.offset == DRIVER_FEATURES {
      AccumulatedStep(before, Write(if s.driverSel then 1 else 0, a.w.value), 0, 1);
    } else {
      assert before + [] == before;
    }
  }

  /** The driver's features are the or of everything written, each word in the half selected when it was written. */
  lemma {:induction false} FeaturesAfterHistory(s: DeviceRegs, ws: seq<Access>)
    requires AcceptsAll(s, ws) && s.driverFeatures == 0
    ensures AfterAll(s, ws).driverFeatures == Accumulated(FeatureWrites(s, ws), 0, 1)
  {
    if ws != [] {
      hide Accumulated, FeatureWrite, DeviceRegs.After, DeviceRegs.Accepts;
      var n := |ws| - 1;
      FeaturesAfterHistory(s, ws[..n]);
      FeatureStep(AfterAll(s, ws[..n]), ws[n], FeatureWrites(s, ws[..n]));
    }
  }

  // ---- reading ----

  const VIRTIO_F_VERSION_1: nat := 0x1_0000_0000

  /** DEVICE_FEATURES: VERSION_1 joined to the device's 32 feature bits, the selected half cut to 24 bits. */
  function ReadFeatures(features: u32, deviceSel: bool): u32 {
    var all := BitOr(features, VIRTIO_F_VERSION_1);
    (if deviceSel then all / TWO_TO_THE_32 else all) % 0x100_0000
  }

  lemma JoinedFeatures(features: u32)
    ensures BitOr(features, VIRTIO_F_VERSION_1) == TWO_TO_THE_32 + features
  {
    hide BitOr;
    ShlWord(1);
    OrBelow(1, features, 32);
  }

  /** The driver is shown the device's feature bits exactly if they lie below bit 24; VERSION_1 is always shown. */
  lemma FeaturesShownIff(features: u32)
    ensures ReadFeatures(features, false) == features <==> features < 0x100_0000
    ensures ReadFeatures(features, true) == 1
  {
    JoinedFeatures(features);
    hide BitOr;
  }

  /** The block device's feature word: SIZE_MAX, SEG_MAX and bit 29, EVENT_IDX. */
  const BLK_FEATURES: u32 := 0x2 + 0x4 + 0x2000_0000

  /** The weight of bit 29, VIRTIO_RING_F_EVENT_IDX. */
  const EVENT_IDX: nat := 0x2000_0000

  /** Among the feature bits below 32, does the driver read the one of weight w as set? */
  predicate Shows(features: u32, w: nat)
    requires w > 0
  {
    ReadFeatures(features, false) / w % 2 == 1
  }

  /** EVENT_IDX, which the block device relies on, is offered in its feature word but never shown to the driver. */
  lemma EventIdxNotShown()
    ensures BLK_FEATURES / EVENT_IDX % 2 == 1 && !Shows(BLK_FEATURES, EVENT_IDX)
    ensures ReadFeatures(BLK_FEATURES, false) == 0x2 + 0x4
  {
    JoinedFeatures(BLK_FEATURES);
    hide BitOr;
  }

  const VIRTIO_MMIO_MAGIC: u32 := 0x7472_6976
  const VIRTIO_VENDOR: u32 := 0x4b54_4858

  /** The register values a driver reads; the device adds its id and its feature word. */
  function ReadRegister(s: DeviceRegs, offset: nat, deviceId: u32, features: u32): u32
    requires offset == QUEUE_READY ==> s.selected < |s.queues|
  {
    if offset == 0 then VIRTIO_MMIO_MAGIC
    else if offset == 4 then 2
    else if offset == 8 then deviceId
    else if offset == 0xc then VIRTIO_VENDOR
    else if offset == DEVICE_FEATURES then ReadFeatures(features, s.deviceSel)
    else if offset == QUEUE_NUM_MAX then QUEUE_SIZE_MAX
    else if offset == QUEUE_READY then if s.queues[s.selected].ready then 1 else 0
    else if offset == INTERRUPT_STATUS then if s.line.level then 1 else 0
    else if offset == STATUS then s.status
    else if offset == CONFIG_GENERATION then s.generation
    else 0
  }

  const CONFIG: nat := 0x100

  /** The registers that can be read; the device stores a whole word into the buffer for them. */
  predicate IsReadable(offset: nat) {
    offset in {0, 4, 8, 0xc, DEVICE_FEATURES, QUEUE_NUM_MAX, QUEUE_READY, INTERRUPT_STATUS, STATUS, CONFIG_GENERATION}
  }

  /** A read of any size at any offset is defined, but for a register into a buffer shorter than a word. */
  predicate CanRead(s: DeviceRegs, offset: nat, size: nat) {
    (IsReadable(offset) ==> size >= 4) && (offset == QUEUE_READY ==> s.selected < |s.queues|)
  }

  /** The bytes the driver gets. */
  function ReadBytes(s: DeviceRegs, offset: nat, size: nat, deviceId: u32, features: u32): (bs: Bytes)
    requires CanRead(s, offset, size)
    ensures |bs| == size
  {
    if offset >= CONFIG then
      var at := offset - CONFIG;
      if at + size > |s.config| then Zeros(size) else s.config[at..at + size]
    else if IsReadable(offset) then Le32(ReadRegister(s, offset, deviceId, features)) + Zeros(size - 4)
    else Zeros(size)
  }

  lemma WordReadsBack(s: DeviceRegs, offset: nat, size: nat, deviceId: u32, features: u32)
    requires CanRead(s, offset, size) && IsReadable(offset)
    ensures U32At(ReadBytes(s, offset, size, deviceId, features), 0) == ReadRegister(s, offset, deviceId, features)
  {
    hide LeValue, LeBytes, ReadRegister;
    var v := ReadRegister(s, offset, deviceId, features);
    assert ReadBytes(s, offset, size, deviceId, features)[0..4] == Le32(v);
    WordSizes();
    LeRoundTrip(v, 4);
  }

  /** The access stores to byte x of a configuration space of the given size. */
  predicate Covers(a: Access, configSize: nat, x: nat) {
    a.Config? && a.at + |a.data| <= configSize && a.at <= x < a.at + |a.data|
  }

  /** What the driver expects to find in byte x: what it stored there last, or what was there initially. */
  function LastStored(s: DeviceRegs, ws: seq<Access>, x: nat): u8
    requires x < |s.config|
  {
    if ws == [] then s.config[x]
    else
      var last := ws[|ws| - 1];
      if Covers(last, |s.config|, x) then last.data[x - last.at] else LastStored(s, ws[..|ws| - 1], x)
  }

  lemma StoresByte(s: DeviceRegs, a: Access, x: nat)
    requires s.Accepts(a) && x < |s.config|
    ensures s.After(a).config[x] == if Covers(a, |s.config|, x) then a.data[x - a.at] else s.config[x]
  {
    hide WriteQueue, Or64, Splice;
    if a.Config? && a.at + |a.data| <= |s.config| {
      SpliceAt(s.config, a.at, a.data, x);
    }
  }

  lemma {:induction false} ConfigByte(s: DeviceRegs, ws: seq<Access>, x: nat)
    requires AcceptsAll(s, ws) && x < |s.config|
    ensures AfterAll(s, ws).config[x] == LastStored(s, ws, x)
  {
    hide DeviceRegs.After, DeviceRegs.Accepts;
    if ws != [] {
      var n := |ws| - 1;
      ConfigByte(s, ws[..n], x);
      StoresByte(AfterAll(s, ws[..n]), ws[n], x);
    }
  }

  /**
   Read after write: after any history of accesses, a read inside the configuration space delivers, byte by byte, what
   was stored there last by a write that lay inside it as a whole, or the initial byte; a read that leaves the space
   delivers zeros.
   */
  lemma ConfigReadsBack(s: DeviceRegs, ws: seq<Access>, at: nat, size: nat, deviceId: u32, features: u32)
    requires AcceptsAll(s, ws)
    ensures CanRead(AfterAll(s, ws), CONFIG + at, size)
    ensures var bs := ReadBytes(AfterAll(s, ws), CONFIG + at, size, deviceId, features);
      forall i :: 0 <= i < size ==> bs[i] == if at + size <= |s.config| then LastStored(s, ws, at + i) else 0
  {
    hide AfterAll, AcceptsAll, LastStored, ReadRegister;
    var bs := ReadBytes(AfterAll(s, ws), CONFIG + at, size, deviceId, features);
    forall i | 0 <= i < size
      ensures bs[i] == if at + size <= |s.config| then LastStored(s, ws, at + i) else 0
    {
      if at + size <= |s.config| {
        ConfigByte(s, ws, at + i);
      }
    }
  }

  /**
   What the driver reads after a reset that followed any history: the status register says the reset is complete, while
   the queue it selected last still reads as ready if it ever was made so.
   */
  lemma ResetReads(s: DeviceRegs, ws: seq<Access>, deviceId: u32, features: u32)
    requires AcceptsAll(s, ws) && AfterAll(s, ws).selected < |s.queues| == |s.notified|
    requires s.queues[AfterAll(s, ws).selected] == ZERO_REGS
    ensures AcceptsAll(s, ws + [RESET])
    ensures var s' := AfterAll(s, ws + [RESET]);
      && ReadRegister(s', STATUS, deviceId, features) == 0
      && (ReadRegister(s', QUEUE_READY, deviceId, features) == 1
          <==> Values(WritesTo(s, ws, s'.selected), QUEUE_READY) != [])
  {
    hide WriteQueue, Values, LeftAlone;
    var q := AfterAll(s, ws).selected;
    ResetClearsIff(s, ws, q);
    QueuesDoNotInterfere(s, ws, q);
    SizeAndReadyAfterHistory(WritesTo(s, ws, q));
  }

  // ---- the device object ----

  class Device {
    const queues: seq<Queue>
    const irq: Interrupt
    const deviceId: u32
    const features: u32
    var status: u8
    var queueIndex: u32
    var driverFeatures: u64
    var deviceFeatureSel: bool
    var driverFeatureSel: bool
    const config: array<u8>
    var generation: u32

    constructor (queues: seq<Queue>, irq: Interrupt, deviceId: u32, features: u32, config: array<u8>)
      ensures this.queues == queues && this.irq == irq && this.config == config
      ensures this.deviceId == deviceId && this.features == features && generation == 0
      ensures status == 0 && queueIndex == 0 && driverFeatures == 0 && !deviceFeatureSel && !driverFeatureSel
    {
      this.queues, this.irq, this.deviceId, this.features, this.config := queues, irq, deviceId, features, config;
      status, queueIndex, driverFeatures, deviceFeatureSel, driverFeatureSel := 0, 0, 0, false, false;
      generation := 0;
    }

    ghost predicate Valid() {
      forall i, j :: 0 <= i < j < |queues| ==> queues[i] != queues[j]
    }

    ghost function State(): DeviceRegs
      reads this, queues, irq, config
    {
      DeviceRegs(status, queueIndex, driverFeatures, deviceFeatureSel, driverFeatureSel,
                 seq(|queues|, i requires 0 <= i < |queues| reads queues =>
                   QueueRegs(queues[i].Where(), queues[i].ready)),
                 seq(|queues|, i requires 0 <= i < |queues| reads queues => queues[i].notify),
                 config[..], generation, irq.Now())
    }

    method WriteRegister(w: Write)
      requires Valid() && State().Accepts(Register(w))
      modifies this, queues, irq
      ensures State() == old(State()).AfterWrite(w)
    {
      hide Or64, WriteQueue;
      if w.ForSelectedQueue() {
        ghost var s := State();
        WriteSelected(queues[queueIndex], w);
        assert State().queues == s.queues[queueIndex := WriteQueue(s.queues[queueIndex], w)];
      } else if w.offset == QUEUE_NOTIFY {
        ghost var s := State();
        queues[w.value].SetNotify();
        assert State().notified == s.notified[w.value := (s.notified[w.value] + 1) % TWO_TO_THE_64];
      } else {
        WriteOwn(w);
      }
    }

    /** The registers that belong to no queue. */
    method WriteOwn(w: Write)
      requires State().Accepts(Register(w)) && !w.ForSelectedQueue() && w.offset != QUEUE_NOTIFY
      modifies this, irq
      ensures State() == old(State()).AfterWrite(w)
    {
      hide Or64;
      if w.offset == STATUS {
        status := w.value % TWO_TO_THE_8;
      } else if w.offset == DEVICE_FEATURES_SEL {
        deviceFeatureSel := w.value == 1;
      } else if w.offset == DRIVER_FEATURES_SEL {
        driverFeatureSel := w.value == 1;
      } else if w.offset == DRIVER_FEATURES {
        driverFeatures := Or64(driverFeatures, if driverFeatureSel then w.value * TWO_TO_THE_32 else w.value);
      } else if w.offset == QUEUE_SEL {
        queueIndex := w.value;
      } else if w.offset == INTERRUPT_ACK && w.value == 1 {
        irq.SetLevel(false);
      }
    }

    /** Any write: to a register, or of bytes to the configuration space, which must lie inside it as a whole. */
    method Write(a: Access)
      requires Valid() && State().Accepts(a)
      modifies this, queues, irq, config
      ensures State() == old(State()).After(a)
    {
      match a
      case Register(w) => WriteRegister(w);
      case Config(at, data) =>
        if at + |data| > config.Length {
          return;
        }
        CopyIn(config, at, data);
        generation := (generation + 1) % TWO_TO_THE_32;
    }

    /** A store to the device's window. */
    method Store(offset: nat, data: Bytes)
      requires Valid() && (offset < CONFIG ==> |data| >= 4) && State().Accepts(AccessOf(offset, data))
      modifies this, queues, irq, config
      ensures State() == old(State()).After(AccessOf(offset, data))
    {
      Write(AccessOf(offset, data));
    }

    method Read(offset: nat, size: nat) returns (bs: Bytes)
      requires CanRead(State(), offset, size)
      ensures bs == ReadBytes(State(), offset, size, deviceId, features)
    {
      hide Le32;
      if offset >= CONFIG {
        var at := offset - CONFIG;
        if at + size > config.Length {
          return Zeros(size);
        }
        bs := CopyOut(config, Range(at, size));
        return;
      }
      var value: u32;
      match offset {
      case 0x000 => value := VIRTIO_MMIO_MAGIC;
      case 0x004 => value := 2;
      case 0x008 => value := deviceId;
      case 0x00c => value := VIRTIO_VENDOR;
      case 0x010 => value := ReadFeatures(features, deviceFeatureSel);
      case 0x034 => value := QUEUE_SIZE_MAX;
      case 0x044 => value := if queues[queueIndex].ready then 1 else 0;
      case 0x060 =>
        var level := irq.Level();
        value := if level then 1 else 0;
      case 0x070 => value := status;
      case 0x0fc => value := generation;
      case _ => return Zeros(size);
      }
      bs := Le32(value) + Zeros(size - 4);
    }

    method WriteSelected(q: Queue, w: Write)
      requires w.ForSelectedQueue()
      modifies q`size, q`ready, q`descAddr, q`availAddr, q`usedAddr
      ensures QueueRegs(q.Where(), q.ready) == old(WriteQueue(QueueRegs(q.Where(), q.ready), w))
    {
      hide Or64;
      var low: u64, high: u64 := w.value, w.value * TWO_TO_THE_32;
      match w.offset
      case 0x038 => q.size := w.value;
      case 0x044 => q.SetReady();
      case 0x080 => q.descAddr := Or64(q.descAddr, low);
      case 0x084 => q.descAddr := Or64(q.descAddr, high);
      case 0x090 => q.availAddr := Or64(q.availAddr, low);
      case 0x094 => q.availAddr := Or64(q.availAddr, high);
      case 0x0a0 => q.usedAddr := Or64(q.usedAddr, low);
      case 0x0a4 => q.usedAddr := Or64(q.usedAddr, high);
      case _ =>
    }
  }
}
