/** The virtqueue of src/kvm/virtio/queue.h over the bytes of guest memory. */
module Queues {
  import opened Words
  import opened GuestMemory
  import opened Rings

  const DESC_SIZE: nat := 16
  const AVAIL_SIZE: nat := 4 + 2 * QUEUE_SIZE_MAX + 2
  const USED_SIZE: nat := 4 + 8 * QUEUE_SIZE_MAX + 2

  const VRING_DESC_F_NEXT: nat := 1

  datatype Desc = Desc(addr: u64, len: u32, flags: u16, next: u16) {
    predicate HasNext() { flags % 2 == VRING_DESC_F_NEXT }

    function Buffer(): Range { Range(addr, len) }
  }

  function DescAt(m: Bytes, table: nat, i: nat): Desc
    requires table + DESC_SIZE * (i + 1) <= |m|
  {
    var a := table + DESC_SIZE * i;
    Desc(U64At(m, a), U32At(m, a + 8), U16At(m, a + 12), U16At(m, a + 14))
  }

  // ---- the two rings in memory ----

  function AvailSlot(avail: nat, i: nat): nat { avail + 4 + 2 * i }

  function UsedSlot(used: nat, i: nat): nat { used + 4 + 8 * i }

  function AvailRing(m: Bytes, avail: nat): seq<u16>
    requires avail + AVAIL_SIZE <= |m|
  {
    seq(QUEUE_SIZE_MAX, i requires 0 <= i < QUEUE_SIZE_MAX => U16At(m, AvailSlot(avail, i)))
  }

  function UsedElemAt(m: Bytes, used: nat, i: nat): UsedElem
    requires used + USED_SIZE <= |m| && i < QUEUE_SIZE_MAX
  {
    UsedElem(U32At(m, UsedSlot(used, i)), U32At(m, UsedSlot(used, i) + 4))
  }

  function UsedRing(m: Bytes, used: nat): seq<UsedElem>
    requires used + USED_SIZE <= |m|
  {
    seq(QUEUE_SIZE_MAX, i requires 0 <= i < QUEUE_SIZE_MAX => UsedElemAt(m, used, i))
  }

  // ---- the bytes each party writes ----

  /** add_used(): the element, then the index. */
  function AddUsedBytes(m: Bytes, used: nat, size: nat, e: UsedElem): (m': Bytes)
    requires used + USED_SIZE <= |m| && 0 < size <= QUEUE_SIZE_MAX
    ensures |m'| == |m|
  {
    var idx := U16At(m, used + 2);
    var a := UsedSlot(used, Slot(idx, size));
    Splice(Splice(m, a, Le32(e.id) + Le32(e.len)), used + 2, Le16((idx + 1) % TWO_TO_THE_16))
  }

  /** The driver's side of section 2.6.13 of VIRTIO 1.1: ring entry, then index. */
  function PublishBytes(m: Bytes, avail: nat, size: nat, k: nat, head: u16): (m': Bytes)
    requires avail + AVAIL_SIZE <= |m| && 0 < size <= QUEUE_SIZE_MAX
    ensures |m'| == |m|
  {
    var a := AvailSlot(avail, Slot(k % TWO_TO_THE_16, size));
    Splice(Splice(m, a, Le16(head)), avail + 2, Le16((k + 1) % TWO_TO_THE_16))
  }

  /** The driver writes used_event behind `size` entries of the available ring (section 2.6.6 of VIRTIO 1.1). */
  function ArmBytes(m: Bytes, avail: nat, size: nat, seen: u16): (m': Bytes)
    requires avail + AVAIL_SIZE <= |m| && 0 < size <= QUEUE_SIZE_MAX
    ensures |m'| == |m|
  {
    Splice(m, AvailSlot(avail, size), Le16(seen))
  }

  /** One element of the used ring after add_used(): the current slot holds the new one, the others are as before. */
  lemma AddUsedElem(m: Bytes, used: nat, size: nat, e: UsedElem, i: nat)
    requires used + USED_SIZE <= |m| && 0 < size <= QUEUE_SIZE_MAX && i < QUEUE_SIZE_MAX
    ensures UsedElemAt(AddUsedBytes(m, used, size, e), used, i)
            == if i == Slot(U16At(m, used + 2), size) then e else UsedElemAt(m, used, i)
  {
    hide LeValue, LeBytes, Splice;
    var idx := U16At(m, used + 2);
    var a, b := UsedSlot(used, Slot(idx, size)), UsedSlot(used, i);
    var m1, last := Splice(m, a, Le32(e.id) + Le32(e.len)), Le16((idx + 1) % TWO_TO_THE_16);
    SpliceMiss(m1, used + 2, last, b, 4);
    SpliceMiss(m1, used + 2, last, b + 4, 4);
    if a == b {
      SpliceReadsPair(m, a, e.id, e.len);
    } else {
      SpliceMiss(m, a, Le32(e.id) + Le32(e.len), b, 4);
      SpliceMiss(m, a, Le32(e.id) + Le32(e.len), b + 4, 4);
    }
  }

  lemma AddUsedIdx(m: Bytes, used: nat, size: nat, e: UsedElem)
    requires used + USED_SIZE <= |m| && 0 < size <= QUEUE_SIZE_MAX
    ensures U16At(AddUsedBytes(m, used, size, e), used + 2) == (U16At(m, used + 2) + 1) % TWO_TO_THE_16
  {
    var idx := U16At(m, used + 2);
    var a := UsedSlot(used, Slot(idx, size));
    SpliceReads16(Splice(m, a, Le32(e.id) + Le32(e.len)), used + 2, (idx + 1) % TWO_TO_THE_16);
  }

  /** add_used() writes the index and one slot, nothing else. */
  lemma AddUsedChanges(m: Bytes, used: nat, size: nat, e: UsedElem, i: nat)
    requires used + USED_SIZE <= |m| && 0 < size <= QUEUE_SIZE_MAX && i < |m|
    requires !Range(used + 2, 2).Contains(i)
    requires !Range(UsedSlot(used, Slot(U16At(m, used + 2), size)), 8).Contains(i)
    ensures AddUsedBytes(m, used, size, e)[i] == m[i]
  {
  }

  lemma PublishEntry(m: Bytes, avail: nat, size: nat, k: nat, head: u16, i: nat)
    requires avail + AVAIL_SIZE <= |m| && 0 < size <= QUEUE_SIZE_MAX && i <= QUEUE_SIZE_MAX
    ensures U16At(PublishBytes(m, avail, size, k, head), AvailSlot(avail, i))
            == if i == Slot(k % TWO_TO_THE_16, size) then head else U16At(m, AvailSlot(avail, i))
  {
    var a := AvailSlot(avail, Slot(k % TWO_TO_THE_16, size));
    SpliceMiss(Splice(m, a, Le16(head)), avail + 2, Le16((k + 1) % TWO_TO_THE_16), AvailSlot(avail, i), 2);
    if a == AvailSlot(avail, i) {
      SpliceReads16(m, a, head);
    } else {
      SpliceMiss(m, a, Le16(head), AvailSlot(avail, i), 2);
    }
  }

  lemma ArmEntry(m: Bytes, avail: nat, size: nat, seen: u16, i: nat)
    requires avail + AVAIL_SIZE <= |m| && 0 < size <= QUEUE_SIZE_MAX && i <= QUEUE_SIZE_MAX
    ensures U16At(ArmBytes(m, avail, size, seen), AvailSlot(avail, i))
            == if i == size then seen else U16At(m, AvailSlot(avail, i))
  {
    if i == size {
      SpliceReads16(m, AvailSlot(avail, size), seen);
    } else {
      SpliceMiss(m, AvailSlot(avail, size), Le16(seen), AvailSlot(avail, i), 2);
    }
  }

  // ---- the decoded ring ----

  /** The registers that place a queue in guest memory. */
  datatype Layout = Layout(size: u32, desc: u64, avail: u64, used: u64) {
    function DescRange(): Range { Range(desc, DESC_SIZE * QUEUE_SIZE_MAX) }

    function AvailRange(): Range { Range(avail, AVAIL_SIZE) }

    function UsedRange(): Range { Range(used, USED_SIZE) }

    /** A usable size, and three parts inside memory that do not overlap. */
    predicate Mapped(memSize: nat) {
      && 0 < size <= QUEUE_SIZE_MAX
      && DescRange().Within(memSize) && AvailRange().Within(memSize) && UsedRange().Within(memSize)
      && AvailRange().Apart(UsedRange()) && DescRange().Apart(AvailRange()) && DescRange().Apart(UsedRange())
    }
  }

  /** The ring that the bytes of memory encode. */
  function RingOf(m: Bytes, l: Layout, lastAvail: u32, ready: bool): (r: Ring)
    requires l.Mapped(|m|)
    ensures r.Configured()
  {
    Ring(l.size, ready, lastAvail,
         U16At(m, l.avail + 2), AvailRing(m, l.avail), U16At(m, AvailSlot(l.avail, QUEUE_SIZE_MAX)),
         U16At(m, l.used + 2), UsedRing(m, l.used))
  }

  lemma UsedFrame(m: Bytes, m': Bytes, used: nat)
    requires used + USED_SIZE <= |m| && Agree(m, m', Range(used, USED_SIZE))
    ensures UsedRing(m', used) == UsedRing(m, used) && U16At(m', used + 2) == U16At(m, used + 2)
  {
    AgreeSlice(m, m', Range(used, USED_SIZE), used + 2, 2);
    forall i | 0 <= i < QUEUE_SIZE_MAX
      ensures UsedElemAt(m', used, i) == UsedElemAt(m, used, i)
    {
      AgreeSlice(m, m', Range(used, USED_SIZE), UsedSlot(used, i), 4);
      AgreeSlice(m, m', Range(used, USED_SIZE), UsedSlot(used, i) + 4, 4);
    }
  }

  lemma AvailFrame(m: Bytes, m': Bytes, avail: nat)
    requires avail + AVAIL_SIZE <= |m| && Agree(m, m', Range(avail, AVAIL_SIZE))
    ensures AvailRing(m', avail) == AvailRing(m, avail) && U16At(m', avail + 2) == U16At(m, avail + 2)
    ensures U16At(m', AvailSlot(avail, QUEUE_SIZE_MAX)) == U16At(m, AvailSlot(avail, QUEUE_SIZE_MAX))
  {
    AgreeSlice(m, m', Range(avail, AVAIL_SIZE), avail + 2, 2);
    forall i | 0 <= i <= QUEUE_SIZE_MAX
      ensures U16At(m', AvailSlot(avail, i)) == U16At(m, AvailSlot(avail, i))
    {
      AgreeSlice(m, m', Range(avail, AVAIL_SIZE), AvailSlot(avail, i), 2);
    }
  }

  /** Writes that stay clear of both rings do not change the ring. */
  lemma RingOfFrame(m: Bytes, m': Bytes, l: Layout, lastAvail: u32, ready: bool)
    requires |m| == |m'| && l.Mapped(|m|) && Agree(m, m', l.AvailRange()) && Agree(m, m', l.UsedRange())
    ensures RingOf(m', l, lastAvail, ready) == RingOf(m, l, lastAvail, ready)
  {
    AvailFrame(m, m', l.avail);
    UsedFrame(m, m', l.used);
  }

  lemma AddUsedAgree(m: Bytes, l: Layout, e: UsedElem, r: Range)
    requires l.Mapped(|m|) && r.Within(|m|) && r.Apart(l.UsedRange())
    ensures Agree(m, AddUsedBytes(m, l.used, l.size, e), r)
  {
    forall i | 0 <= i < |m| && r.Contains(i)
      ensures m[i] == AddUsedBytes(m, l.used, l.size, e)[i]
    {
      AddUsedChanges(m, l.used, l.size, e, i);
    }
  }

  /** On the decoded ring, the bytes written by add_used() are `Ring.AddUsed`. */
  lemma AddUsedRefines(m: Bytes, l: Layout, e: UsedElem, lastAvail: u32, ready: bool)
    requires l.Mapped(|m|)
    ensures RingOf(AddUsedBytes(m, l.used, l.size, e), l, lastAvail, ready)
            == RingOf(m, l, lastAvail, ready).AddUsed(e)
  {
    hide U16At, U32At, Splice;
    var m', slot := AddUsedBytes(m, l.used, l.size, e), Slot(U16At(m, l.used + 2), l.size);
    assert UsedRing(m', l.used) == UsedRing(m, l.used)[slot := e] by {
      forall i | 0 <= i < QUEUE_SIZE_MAX
        ensures UsedRing(m', l.used)[i] == UsedRing(m, l.used)[slot := e][i]
      {
        AddUsedElem(m, l.used, l.size, e, i);
      }
    }
    AddUsedIdx(m, l.used, l.size, e);
    AddUsedAgree(m, l, e, l.AvailRange());
    AvailFrame(m, m', l.avail);
  }

  /** The driver's bytes are `Ring.Publish`. */
  lemma PublishRefines(m: Bytes, l: Layout, k: nat, head: u16, lastAvail: u32, ready: bool)
    requires l.Mapped(|m|)
    ensures RingOf(PublishBytes(m, l.avail, l.size, k, head), l, lastAvail, ready)
            == RingOf(m, l, lastAvail, ready).Publish(k, head)
  {
    hide U16At, U32At, LeValue;
    var m', slot := PublishBytes(m, l.avail, l.size, k, head), Slot(k % TWO_TO_THE_16, l.size);
    SpliceReads16(Splice(m, AvailSlot(l.avail, slot), Le16(head)), l.avail + 2, (k + 1) % TWO_TO_THE_16);
    forall i | 0 <= i < QUEUE_SIZE_MAX
      ensures AvailRing(m', l.avail)[i] == AvailRing(m, l.avail)[slot := head][i]
    {
      PublishEntry(m, l.avail, l.size, k, head, i);
    }
    PublishEntry(m, l.avail, l.size, k, head, QUEUE_SIZE_MAX);
    UsedFrame(m, m', l.used);
  }

  /** The driver's used_event bytes are `Ring.Arm`: the device sees them only in a queue of QUEUE_SIZE_MAX entries. */
  lemma ArmRefines(m: Bytes, l: Layout, seen: u16, lastAvail: u32, ready: bool)
    requires l.Mapped(|m|)
    ensures RingOf(ArmBytes(m, l.avail, l.size, seen), l, lastAvail, ready)
            == RingOf(m, l, lastAvail, ready).Arm(seen)
  {
    hide LeValue, LeBytes, Splice;
    var m' := ArmBytes(m, l.avail, l.size, seen);
    forall i | 0 <= i <= QUEUE_SIZE_MAX
      ensures U16At(m', AvailSlot(l.avail, i)) == if i == l.size then seen else U16At(m, AvailSlot(l.avail, i))
    {
      ArmEntry(m, l.avail, l.size, seen, i);
    }
    SpliceMiss(m, AvailSlot(l.avail, l.size), Le16(seen), l.avail + 2, 2);
    SpliceAgree(m, AvailSlot(l.avail, l.size), Le16(seen), l.UsedRange());
    UsedFrame(m, m', l.used);
    assert AvailRing(m', l.avail)
        == if l.size < QUEUE_SIZE_MAX then AvailRing(m, l.avail)[l.size := seen] else AvailRing(m, l.avail);
  }

  /** The private counter of the device is not in memory. */
  lemma RingOfCounter(m: Bytes, l: Layout, x: u32, y: u32)
    requires l.Mapped(|m|)
    ensures RingOf(m, l, y, true) == RingOf(m, l, x, true).(lastAvail := y)
  {
  }

  lemma RingFields(m: Bytes, l: Layout, lastAvail: u32, ready: bool)
    requires l.Mapped(|m|)
    ensures var r := RingOf(m, l, lastAvail, ready);
      && r.size == l.size && r.lastAvail == lastAvail && r.ready == ready && r.usedIdx == U16At(m, l.used + 2)
      && r.availIdx == U16At(m, l.avail + 2) && r.usedEvent == U16At(m, AvailSlot(l.avail, QUEUE_SIZE_MAX))
  {
  }

  /** Zeroed memory holds the empty ring. */
  lemma ZerosHoldEmptyRing(n: nat, l: Layout)
    requires l.Mapped(n)
    ensures RingOf(Zeros(n), l, 0, true) == EmptyRing(l.size)
  {
    hide LeValue;
    var m := Zeros(n);
    forall a: nat | a + 2 <= n
      ensures U16At(m, a) == 0
    {
      LeValueOfZeros(m[a..a + 2], 0);
    }
    forall a: nat | a + 4 <= n
      ensures U32At(m, a) == 0
    {
      LeValueOfZeros(m[a..a + 4], 0);
    }
    hide U16At, U32At;
  }

  /** What next() does to its counter, on the decoded ring. */
  lemma NextOnRing(m: Bytes, l: Layout, lastAvail: u32)
    requires l.Mapped(|m|)
    ensures l.avail + AVAIL_SIZE <= |m|
    ensures var r, next := RingOf(m, l, lastAvail, true), (lastAvail + 1) % TWO_TO_THE_32;
      && (U16At(m, l.avail + 2) <= lastAvail <==> !r.CanPop())
      && r.Pop() == if r.CanPop() then RingOf(m, l, next, true) else r
  {
    RingFields(m, l, lastAvail, true);
    RingOfCounter(m, l, lastAvail, (lastAvail + 1) % TWO_TO_THE_32);
    hide RingOf, U16At;
  }

  // ---- a queue and the memory it lives in ----

  /** What a device thread sees of one queue: guest memory, the queue's registers and its private counter. */
  datatype Port = Port(m: Bytes, l: Layout, lastAvail: u32, ready: bool) {
    predicate Mapped() { l.Mapped(|m|) }

    function Ring(): (r: Ring)
      requires Mapped()
      ensures r.Configured()
    {
      RingOf(m, l, lastAvail, ready)
    }

    predicate Waiting() { ready && Mapped() && Ring().CanPop() }

    /** The chain that next() hands out. */
    function Head(): u16
      requires Mapped()
    {
      Ring().Pop().AvailId()
    }

    function Take(): (p: Port)
      requires Mapped()
      ensures p.Mapped()
    {
      this.(lastAvail := Ring().Pop().lastAvail)
    }

    /** The chain was taken, serving it left memory `m1`, and `len` bytes are reported for it. */
    function Finish(m1: Bytes, len: u32): (p: Port)
      requires Mapped() && |m1| == |m|
      ensures p.Mapped()
    {
      Take().(m := AddUsedBytes(m1, l.used, l.size, UsedElem(Head(), len)))
    }
  }

  lemma TakeOnRing(p: Port)
    requires p.Mapped()
    ensures p.Take().Ring() == p.Ring().Pop()
  {
  }

  /** If serving kept off the rings, finishing a chain is next() followed by add_used() on the ring. */
  lemma FinishOnRing(p: Port, m1: Bytes, len: u32)
    requires p.Mapped() && Agree(p.m, m1, p.l.AvailRange()) && Agree(p.m, m1, p.l.UsedRange())
    ensures p.Finish(m1, len).Ring() == p.Ring().Pop().AddUsed(UsedElem(p.Head(), len))
  {
    hide RingOf, AddUsedBytes;
    var lastAvail := p.Take().lastAvail;
    TakeOnRing(p);
    RingOfFrame(p.m, m1, p.l, lastAvail, p.ready);
    AddUsedRefines(m1, p.l, UsedElem(p.Head(), len), lastAvail, p.ready);
  }

  /** Outside the used ring, finishing a chain leaves what serving left. */
  lemma FinishAgree(p: Port, m1: Bytes, len: u32, r: Range)
    requires p.Mapped() && r.Within(|p.m|) && Agree(p.m, m1, r) && r.Apart(p.l.UsedRange())
    ensures Agree(p.m, p.Finish(m1, len).m, r)
  {
    AddUsedAgree(m1, p.l, UsedElem(p.Head(), len), r);
  }

  // ---- the queue object ----

  class Queue {
    const mem: array<u8>
    var size: u32
    var descAddr: u64
    var availAddr: u64
    var usedAddr: u64
    var notify: u64
    var lastAvail: u32
    var ready: bool

    constructor (mem: array<u8>)
      ensures this.mem == mem && size == 0 && descAddr == 0 && availAddr == 0 && usedAddr == 0
      ensures notify == 0 && lastAvail == 0 && !ready
    {
      this.mem := mem;
      size, descAddr, availAddr, usedAddr := 0, 0, 0, 0;
      notify, lastAvail, ready := 0, 0, false;
    }

    function Where(): Layout
      reads this
    {
      Layout(size, descAddr, availAddr, usedAddr)
    }

    /** What the owner must have configured before the device polls a ready queue. */
    ghost predicate Usable()
      reads this
    {
      Where().Mapped(mem.Length)
    }

    ghost function Now(): Port
      reads this, mem
    {
      Port(mem[..], Where(), lastAvail, ready)
    }

    ghost function View(): (r: Ring)
      reads this, mem
      requires Usable()
      ensures r.Configured()
    {
      Now().Ring()
    }

    method AvailId() returns (id: u16)
      requires Usable()
      ensures id == View().AvailId()
    {
      hide LeValue;
      var pos := (lastAvail - 1) % TWO_TO_THE_32;
      SlotIsRemainder(pos, size);
      id := Load16(mem, availAddr + 4 + 2 * (pos % size));
      assert id == AvailRing(mem[..], availAddr)[Slot(pos, size)];
    }

    /** The descriptor pointer of the source is the index of the head in the descriptor table. */
    method Next() returns (head: Option<u16>)
      requires ready ==> Usable()
      modifies this`lastAvail
      ensures !old(ready) ==> head == None && lastAvail == old(lastAvail)
      ensures old(ready) ==> View() == old(View()).Pop()
      ensures old(ready) ==> head == if old(View()).CanPop() then Some(old(View()).Pop().AvailId()) else None
    {
      hide RingOf, U16At, Ring.Pop, Ring.CanPop, Ring.AvailId, Layout.Mapped;
      if !ready {
        return None;
      }
      NextOnRing(mem[..], Where(), lastAvail);
      if Load16(mem, availAddr + 2) <= lastAvail {
        return None;
      }
      lastAvail := (lastAvail + 1) % TWO_TO_THE_32;
      var id := AvailId();
      return Some(id);
    }

    method PopBack()
      requires Usable()
      modifies this`lastAvail
      ensures View() == old(View()).PopBack()
    {
      lastAvail := (lastAvail - 1) % TWO_TO_THE_32;
    }

    method AddUsed(start: u32, len: u32) returns (idx: u16)
      requires Usable()
      modifies mem
      ensures mem[..] == AddUsedBytes(old(mem[..]), usedAddr, size, UsedElem(start, len))
      ensures View() == old(View()).AddUsed(UsedElem(start, len))
      ensures idx == View().usedIdx
    {
      hide U16At, U32At, Splice, LeBytes;
      ghost var before := mem[..];
      var at := Load16(mem, usedAddr + 2);
      SlotIsRemainder(at, size);
      var slot := usedAddr + 4 + 8 * (at % size);
      Store32(mem, slot + 4, len);
      Store32(mem, slot, start);
      SpliceJoin(before, slot, Le32(start), slot + 4, Le32(len));
      Store16(mem, usedAddr + 2, (at + 1) % TWO_TO_THE_16);
      assert mem[..] == AddUsedBytes(before, usedAddr, size, UsedElem(start, len));
      AddUsedRefines(before, Where(), UsedElem(start, len), lastAvail, ready);
      idx := Load16(mem, usedAddr + 2);
    }

    method SetNotify()
      modifies this`notify
      ensures notify == (old(notify) + 1) % TWO_TO_THE_64
    {
      notify := (notify + 1) % TWO_TO_THE_64;
    }

    method SetReady()
      modifies this`ready
      ensures ready
    {
      ready := true;
    }
  }
}
