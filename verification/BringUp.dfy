/**
 From power-on to a running queue: the register writes with which a driver sets up a queue (section 4.2.3.2 of VIRTIO
 1.1) put the block device and its driver into a state from which `BlkRuns` starts; acknowledging the interrupt is the
 step of `VirtioSystem`.
 */
module BringUp {
  import opened Words
  import opened GuestMemory
  import opened Rings
  import opened Queues
  import opened Mmio
  import VirtioSystem
  import BlkRuns
  import BlkTransfer

  // ---- any history that configures a queue ----

  /** The register was written, and nothing but v. */
  predicate OnlyWord(own: seq<Write>, offset: nat, v: nat) {
    Values(own, offset) != [] && forall i :: 0 <= i < |Values(own, offset)| ==> Values(own, offset)[i] == v
  }

  predicate OnlyAddress(own: seq<Write>, low: nat, high: nat, a: u64) {
    OnlyWord(own, low, a % TWO_TO_THE_32) && OnlyWord(own, high, a / TWO_TO_THE_32)
  }

  /** The writes to a queue's registers, in any order and any number of times, place it at l and make it ready. */
  predicate Configures(own: seq<Write>, l: Layout) {
    var sizes := Values(own, QUEUE_NUM);
    && sizes != [] && sizes[|sizes| - 1] == l.size && Values(own, QUEUE_READY) != []
    && OnlyAddress(own, QUEUE_DESC_LOW, QUEUE_DESC_HIGH, l.desc)
    && OnlyAddress(own, QUEUE_AVAIL_LOW, QUEUE_AVAIL_HIGH, l.avail)
    && OnlyAddress(own, QUEUE_USED_LOW, QUEUE_USED_HIGH, l.used)
  }

  lemma AddressPlaced(own: seq<Write>, low: nat, high: nat, a: u64)
    requires OnlyAddress(own, low, high, a)
    ensures Accumulated(own, low, high) == a
  {
    hide Accumulated, Values;
    var lo: u32, hi: u32 := a % TWO_TO_THE_32, a / TWO_TO_THE_32;
    AddressWritten(own, low, high, lo, hi);
  }

  /** After any history of the device, a queue that was configured in it has its place and is ready. */
  lemma ConfiguredQueue(s: DeviceRegs, ws: seq<Access>, q: nat, l: Layout)
    requires AcceptsAll(s, ws) && q < |s.queues| && s.queues[q] == ZERO_REGS && Configures(WritesTo(s, ws, q), l)
    ensures AfterAll(s, ws).queues[q] == QueueRegs(l, true)
  {
    hide AcceptsAll, AfterAll, WritesTo, Values, Accumulated, OnlyAddress;
    var own := WritesTo(s, ws, q);
    QueuesDoNotInterfere(s, ws, q);
    QueueAfterHistory(own);
    AddressPlaced(own, QUEUE_DESC_LOW, QUEUE_DESC_HIGH, l.desc);
    AddressPlaced(own, QUEUE_AVAIL_LOW, QUEUE_AVAIL_HIGH, l.avail);
    AddressPlaced(own, QUEUE_USED_LOW, QUEUE_USED_HIGH, l.used);
  }

  // ---- the standard's sequence ----

  /** Selecting queue q, then writing its registers. */
  function Accesses(q: u32, own: seq<Write>): seq<Access> {
    if own == [] then [Register(Write(QUEUE_SEL, q))]
    else Accesses(q, own[..|own| - 1]) + [Register(own[|own| - 1])]
  }

  lemma {:induction false} SelectedWrites(s: DeviceRegs, q: u32, own: seq<Write>)
    requires q < |s.queues| == |s.notified| && forall i :: 0 <= i < |own| ==> own[i].ForSelectedQueue()
    ensures var ws := Accesses(q, own);
      AcceptsAll(s, ws) && AfterAll(s, ws).selected == q && WritesTo(s, ws, q) == own
  {
    hide WriteQueue, Or64;
    if own == [] {
      var select := Register(Write(QUEUE_SEL, q));
      assert [select][..0] == [];
      assert AcceptsAll(s, []) && AfterAll(s, []) == s && WritesTo(s, [], q) == [];
      assert WritesTo(s, [select], q) == [];
    } else {
      var n := |own| - 1;
      var before, last := Accesses(q, own[..n]), Register(own[n]);
      SelectedWrites(s, q, own[..n]);
      assert (before + [last])[..|before|] == before;
      assert own == own[..n] + [own[n]];
    }
  }

  /** Size, addresses, ready. */
  function SetUp(l: Layout): seq<Write> {
    SetAddress(SetAddress(SetAddress([Write(QUEUE_NUM, l.size)], QUEUE_DESC_LOW, QUEUE_DESC_HIGH, l.desc),
                          QUEUE_AVAIL_LOW, QUEUE_AVAIL_HIGH, l.avail),
               QUEUE_USED_LOW, QUEUE_USED_HIGH, l.used)
    + [Write(QUEUE_READY, 1)]
  }

  function SetAddress(ws: seq<Write>, low: nat, high: nat, a: u64): seq<Write> {
    ws + [Write(low, a % TWO_TO_THE_32)] + [Write(high, a / TWO_TO_THE_32)]
  }

  lemma SetAddressValues(ws: seq<Write>, low: nat, high: nat, a: u64, offset: nat)
    requires low != high
    ensures Values(SetAddress(ws, low, high, a), offset)
         == Values(ws, offset)
            + if offset == low then [a % TWO_TO_THE_32] else if offset == high then [a / TWO_TO_THE_32] else []
  {
    hide Values;
    var lo, hi := Write(low, a % TWO_TO_THE_32), Write(high, a / TWO_TO_THE_32);
    ValuesStep(ws, lo, offset);
    ValuesStep(ws + [lo], hi, offset);
  }

  lemma SetUpValues(l: Layout, offset: nat)
    ensures Values(SetUp(l), offset)
         == if offset == QUEUE_NUM then [l.size]
            else if offset == QUEUE_DESC_LOW then [l.desc % TWO_TO_THE_32]
            else if offset == QUEUE_DESC_HIGH then [l.desc / TWO_TO_THE_32]
            else if offset == QUEUE_AVAIL_LOW then [l.avail % TWO_TO_THE_32]
            else if offset == QUEUE_AVAIL_HIGH then [l.avail / TWO_TO_THE_32]
            else if offset == QUEUE_USED_LOW then [l.used % TWO_TO_THE_32]
            else if offset == QUEUE_USED_HIGH then [l.used / TWO_TO_THE_32]
            else if offset == QUEUE_READY then [1] else []
  {
    var size := Write(QUEUE_NUM, l.size);
    assert Values([], offset) == [] && [] + [size] == [size];
    hide Values, SetAddress;
    var ws1 := SetAddress([size], QUEUE_DESC_LOW, QUEUE_DESC_HIGH, l.desc);
    var ws2 := SetAddress(ws1, QUEUE_AVAIL_LOW, QUEUE_AVAIL_HIGH, l.avail);
    var ws3 := SetAddress(ws2, QUEUE_USED_LOW, QUEUE_USED_HIGH, l.used);
    ValuesStep([], size, offset);
    SetAddressValues([size], QUEUE_DESC_LOW, QUEUE_DESC_HIGH, l.desc, offset);
    SetAddressValues(ws1, QUEUE_AVAIL_LOW, QUEUE_AVAIL_HIGH, l.avail, offset);
    SetAddressValues(ws2, QUEUE_USED_LOW, QUEUE_USED_HIGH, l.used, offset);
    ValuesStep(ws3, Write(QUEUE_READY, 1), offset);
  }

  lemma SetUpConfigures(l: Layout)
    ensures Configures(SetUp(l), l)
  {
    hide SetUp, Values;
    forall offset: nat
      ensures |Values(SetUp(l), offset)| <= 1
    {
      SetUpValues(l, offset);
    }
    SetUpValues(l, QUEUE_NUM);
    SetUpValues(l, QUEUE_READY);
    SetUpValues(l, QUEUE_DESC_LOW);
    SetUpValues(l, QUEUE_DESC_HIGH);
    SetUpValues(l, QUEUE_AVAIL_LOW);
    SetUpValues(l, QUEUE_AVAIL_HIGH);
    SetUpValues(l, QUEUE_USED_LOW);
    SetUpValues(l, QUEUE_USED_HIGH);
  }

  lemma SetUpIsForQueue(l: Layout)
    ensures forall i :: 0 <= i < |SetUp(l)| ==> SetUp(l)[i].ForSelectedQueue()
  {
  }

  /** The standard's sequence is accepted and places the queue. */
  lemma SetUpWorks(s: DeviceRegs, q: u32, l: Layout)
    requires q < |s.queues| == |s.notified| && s.queues[q] == ZERO_REGS
    ensures var ws := Accesses(q, SetUp(l)); AcceptsAll(s, ws) && AfterAll(s, ws).queues[q] == QueueRegs(l, true)
  {
    hide SetUp, Configures, AfterAll, AcceptsAll, WritesTo, Accesses;
    SetUpIsForQueue(l);
    SelectedWrites(s, q, SetUp(l));
    SetUpConfigures(l);
    ConfiguredQueue(s, Accesses(q, SetUp(l)), q, l);
  }

  // ---- the queue that runs ----

  /** The device, with a queue in the given registers, and a driver that has issued nothing yet. */
  function WorldOf(r: QueueRegs, m: Bytes, disk: Bytes, arms: bool, rechecks: bool): BlkRuns.World {
    var u := VirtioSystem.InitQueue(VirtioSystem.QueueConfig(r.place.size, true, arms, rechecks));
    BlkRuns.World(r.place, u, m, disk, [], BlkTransfer.Unread)
  }

  /** A driver that sets the queue up and zeroes its rings gets the sequential answers of `BlkRuns`, in every run. */
  lemma RunsAfterSetUp(s: DeviceRegs, q: u32, l: Layout, m: Bytes, disk: Bytes, arms: bool, rechecks: bool,
                       steps: seq<BlkRuns.Step>)
    requires q < |s.queues| == |s.notified| && s.queues[q] == ZERO_REGS
    requires VirtioSystem.ValidSize(l.size) && l.Mapped(|m|) && RingOf(m, l, 0, true) == EmptyRing(l.size)
    ensures AcceptsAll(s, Accesses(q, SetUp(l)))
    ensures var w := WorldOf(AfterAll(s, Accesses(q, SetUp(l))).queues[q], m, disk, arms, rechecks);
      && BlkRuns.IsStart(w)
      && (BlkRuns.IsRun(w, steps) ==>
            forall k :: |BlkRuns.Run(w, steps).u.reaped| <= k < |BlkRuns.Run(w, steps).u.completed| ==>
              BlkRuns.Readable(BlkRuns.Run(w, steps), disk, k))
  {
    hide SetUp, AfterAll, AcceptsAll, Accesses, RingOf, EmptyRing, BlkRuns.Readable, Layout.Mapped;
    SetUpWorks(s, q, l);
    var w := WorldOf(QueueRegs(l, true), m, disk, arms, rechecks);
    assert BlkRuns.IsStart(w);
    if BlkRuns.IsRun(w, steps) {
      hide BlkRuns.IsRun, BlkRuns.Run;
      BlkRuns.RunsAreSequential(w, steps);
    }
  }

  // ---- acknowledging ----

  /** The driver's write of 1 to INTERRUPT_ACK is the acknowledging step; no other access moves the line. */
  lemma AcknowledgeIff(s: DeviceRegs, a: Access, sys: VirtioSystem.System)
    requires s.Accepts(a) && VirtioSystem.Shaped(sys) && sys.driver.Acking? && sys.line == s.line && s.line.level
    ensures s.After(a).line == VirtioSystem.Apply(sys, VirtioSystem.Acknowledge).line
            <==> a == Register(Write(INTERRUPT_ACK, 1))
    ensures a != Register(Write(INTERRUPT_ACK, 1)) ==> s.After(a).line == s.line
  {
    hide WriteQueue, Or64, Splice;
  }
}
