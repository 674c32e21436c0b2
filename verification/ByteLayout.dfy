/**
 The memory format of a virtqueue with every offset and constant written out, as sections 2.6.5 to 2.6.8 of VIRTIO 1.1
 and the structs of src/kvm/virtio/queue.h fix it. Nothing here goes through the address functions of `Queues`.
 */
module ByteLayout {
  import opened Words
  import opened GuestMemory
  import opened Rings
  import opened Queues
  import opened Chains

  // ---- words ----

  /** The first digit of a little-endian number. */
  lemma LeDigit(bs: Bytes, i: nat)
    requires i < |bs|
    ensures LeValue(bs, i) == bs[i] + 0x100 * LeValue(bs, i + 1)
  {
  }

  lemma LeEnd(bs: Bytes)
    ensures LeValue(bs, |bs|) == 0
  {
  }

  lemma DigitsOfFour(w: Bytes, i: nat)
    requires i + 4 <= |w|
    ensures LeValue(w, i) == (w[i] as nat) + 0x100 * (w[i + 1] as nat) + 0x1_0000 * (w[i + 2] as nat)
                             + 0x100_0000 * (w[i + 3] as nat) + 0x1_0000_0000 * LeValue(w, i + 4)
  {
    hide LeValue;
    LeDigit(w, i);
    LeDigit(w, i + 1);
    LeDigit(w, i + 2);
    LeDigit(w, i + 3);
  }

  /** Words are little-endian. */
  lemma HalfWordBytes(m: Bytes, a: nat)
    requires a + 2 <= |m|
    ensures U16At(m, a) == (m[a] as nat) + 0x100 * (m[a + 1] as nat)
  {
    hide LeValue;
    var w := m[a..a + 2];
    LeDigit(w, 0);
    LeDigit(w, 1);
    LeEnd(w);
  }

  lemma WordBytes(m: Bytes, a: nat)
    requires a + 4 <= |m|
    ensures U32At(m, a) == (m[a] as nat) + 0x100 * (m[a + 1] as nat) + 0x1_0000 * (m[a + 2] as nat)
                           + 0x100_0000 * (m[a + 3] as nat)
  {
    hide LeValue;
    DigitsOfFour(m[a..a + 4], 0);
    LeEnd(m[a..a + 4]);
  }

  lemma DoubleWordBytes(m: Bytes, a: nat)
    requires a + 8 <= |m|
    ensures U64At(m, a) == (U32At(m, a) as nat) + 0x1_0000_0000 * (U32At(m, a + 4) as nat)
  {
    hide LeValue, U32At;
    var w := m[a..a + 8];
    DigitsOfFour(w, 0);
    DigitsOfFour(w, 4);
    LeEnd(w);
    WordBytes(m, a);
    WordBytes(m, a + 4);
  }

  // ---- the three parts of a queue ----

  /** Section 2.6.5 of VIRTIO 1.1: 16 bytes a descriptor; bit 0 of the flags says that the chain goes on. */
  lemma DescriptorLayout(m: Bytes, table: nat, i: nat)
    requires table + 16 * (i + 1) <= |m|
    ensures table + DESC_SIZE * (i + 1) <= |m|
    ensures var d := DescAt(m, table, i);
      && d.addr == U64At(m, table + 16 * i) && d.len == U32At(m, table + 16 * i + 8)
      && d.flags == U16At(m, table + 16 * i + 12) && d.next == U16At(m, table + 16 * i + 14)
      && (d.HasNext() <==> d.flags % 2 == 1) && d.Buffer().addr == d.addr && d.Buffer().len == d.len
  {
    hide U16At, U32At, U64At;
  }

  /** Sections 2.6.6 and 2.6.8 of VIRTIO 1.1, for 512 entries as in the source's structs. */
  lemma RingLayout(m: Bytes, l: Layout, lastAvail: u32, ready: bool, i: nat)
    requires l.Mapped(|m|) && i < 512
    ensures l.avail + 1030 <= |m| && l.used + 4102 <= |m| && |RingOf(m, l, lastAvail, ready).avail| == 512
    ensures |RingOf(m, l, lastAvail, ready).used| == 512
    ensures var r := RingOf(m, l, lastAvail, ready);
      && r.availIdx == U16At(m, l.avail + 2) && r.avail[i] == U16At(m, l.avail + 4 + 2 * i)
      && r.usedEvent == U16At(m, l.avail + 1028)
      && r.usedIdx == U16At(m, l.used + 2)
      && r.used[i].id == U32At(m, l.used + 4 + 8 * i) && r.used[i].len == U32At(m, l.used + 8 + 8 * i)
  {
    hide U16At, U32At;
  }

  // ---- what the two parties do to them ----

  /** next(): the head comes from the entry the counter points to, and the counter moves on by one. */
  lemma NextLayout(p: Port)
    requires p.ready && p.l.Mapped(|p.m|)
    ensures p.l.avail + 1030 <= |p.m| && p.l.used + 4102 <= |p.m| && 0 < p.l.size <= 512
    ensures p.Waiting() <==> p.lastAvail < U16At(p.m, p.l.avail + 2)
    ensures p.Waiting() ==>
      && p.lastAvail % p.l.size < 512
      && p.Head() == U16At(p.m, p.l.avail + 4 + 2 * (p.lastAvail % p.l.size))
      && p.Take().lastAvail == p.lastAvail + 1 && p.Take().m == p.m
  {
    hide LeValue, U16At, U32At, RingOf, Slot;
    RingLayout(p.m, p.l, p.lastAvail, p.ready, 0);
    RingFields(p.m, p.l, p.lastAvail, p.ready);
    if p.Waiting() {
      PopAdvances(p.Ring());
      SlotIsRemainder(p.lastAvail, p.l.size);
      HeadAfterPop(p.Ring());
      RingLayout(p.m, p.l, p.lastAvail, p.ready, Slot(p.lastAvail, p.l.size));
    }
  }

  lemma HeadAfterPop(r: Ring)
    requires r.Configured() && r.CanPop()
    ensures r.Pop().AvailId() == r.avail[Slot(r.lastAvail, r.size)]
  {
    hide Slot;
    PopAdvances(r);
    RemainderIsUnique(0, r.lastAvail, TWO_TO_THE_32);
  }

  /** add_used(): id and length at 4 and 8 bytes behind the used ring plus 8 an entry, the index at 2. */
  lemma CompletionLayout(m: Bytes, used: nat, size: nat, e: UsedElem)
    requires used + USED_SIZE <= |m| && 0 < size <= QUEUE_SIZE_MAX
    ensures used + 4102 <= |m| && U16At(m, used + 2) % size < 512
    ensures var k, m' := U16At(m, used + 2) % size, AddUsedBytes(m, used, size, e);
      && U32At(m', used + 4 + 8 * k) == e.id && U32At(m', used + 8 + 8 * k) == e.len
      && U16At(m', used + 2) == (U16At(m, used + 2) + 1) % 0x1_0000
      && forall i :: 0 <= i < |m| && !(used + 2 <= i < used + 4) && !(used + 4 + 8 * k <= i < used + 12 + 8 * k) ==>
           m'[i] == m[i]
  {
    hide LeValue, AddUsedBytes, U16At, U32At;
    var idx := U16At(m, used + 2);
    SlotIsRemainder(idx, size);
    AddUsedElem(m, used, size, e, Slot(idx, size));
    AddUsedIdx(m, used, size, e);
    forall i | 0 <= i < |m| && !(used + 2 <= i < used + 4)
               && !(used + 4 + 8 * (idx % size) <= i < used + 12 + 8 * (idx % size))
      ensures AddUsedBytes(m, used, size, e)[i] == m[i]
    {
      AddUsedChanges(m, used, size, e, i);
    }
  }

  /** The driver's k-th chain: the head in its entry, the count modulo 2^16 in the index. */
  lemma PublicationLayout(m: Bytes, avail: nat, size: nat, k: nat, head: u16)
    requires avail + AVAIL_SIZE <= |m| && 0 < size <= QUEUE_SIZE_MAX
    ensures avail + 1030 <= |m| && k % 0x1_0000 % size < 512
    ensures var m' := PublishBytes(m, avail, size, k, head);
      && U16At(m', avail + 4 + 2 * (k % 0x1_0000 % size)) == head && U16At(m', avail + 2) == (k + 1) % 0x1_0000
  {
    hide LeValue, LeBytes, U16At, Splice;
    SlotIsRemainder(k % 0x1_0000, size);
    PublishEntry(m, avail, size, k, head, Slot(k % 0x1_0000, size));
    var a := AvailSlot(avail, Slot(k % 0x1_0000, size));
    SpliceReads16(Splice(m, a, Le16(head)), avail + 2, (k + 1) % 0x1_0000);
  }

  /** The driver's used_event lies behind the entries of its ring: 4 + 2 * size. */
  lemma ArmingLayout(m: Bytes, avail: nat, size: nat, seen: u16)
    requires avail + AVAIL_SIZE <= |m| && 0 < size <= QUEUE_SIZE_MAX
    ensures avail + 1030 <= |m| && U16At(ArmBytes(m, avail, size, seen), avail + 4 + 2 * size) == seen
  {
    hide LeValue, LeBytes, U16At, Splice;
    ArmEntry(m, avail, size, seen, size);
  }

  // ---- chains and their buffers ----

  /** A chain goes on to the descriptor named by `next` while bit 0 of the flags is set, and ends where it is not. */
  lemma {:induction false} ChainMeans(t: Table, i: nat, path: seq<nat>)
    ensures IsChain(t, i, path) <==>
      && path != [] && path[0] == i && (forall k :: 0 <= k < |path| ==> path[k] < |t|)
      && (forall k :: 0 <= k < |path| - 1 ==> t[path[k]].flags % 2 == 1 && path[k + 1] == t[path[k]].next)
      && t[path[|path| - 1]].flags % 2 == 0
    decreases |path|
  {
    if path != [] && path[0] == i && i < |t| {
      if t[i].HasNext() && |path| > 1 {
        ChainMeans(t, t[i].next, path[1..]);
        ChainTail(t, i, path);
      }
    }
  }

  lemma ChainTail(t: Table, i: nat, path: seq<nat>)
    requires |path| > 1 && path[0] == i < |t| && t[i].flags % 2 == 1
    ensures (var p := path[1..];
      && p != [] && p[0] == t[i].next && (forall k :: 0 <= k < |p| ==> p[k] < |t|)
      && (forall k :: 0 <= k < |p| - 1 ==> t[p[k]].flags % 2 == 1 && p[k + 1] == t[p[k]].next)
      && t[p[|p| - 1]].flags % 2 == 0)
      <==>
      && (forall k :: 0 <= k < |path| ==> path[k] < |t|)
      && (forall k :: 0 <= k < |path| - 1 ==> t[path[k]].flags % 2 == 1 && path[k + 1] == t[path[k]].next)
      && t[path[|path| - 1]].flags % 2 == 0
  {
    var p := path[1..];
    assert forall k :: 0 <= k < |p| ==> p[k] == path[k + 1];
    assert forall k :: 0 < k < |path| ==> path[k] == p[k - 1];
  }

  /** The data buffers of a chain are those of all its descriptors but the last, in order. */
  lemma {:induction false} DataOfAt(t: Table, path: seq<nat>, i: nat)
    requires InTable(t, path) && path != []
    ensures |DataOf(t, path)| == |path| - 1
    ensures i < |path| - 1 ==> DataOf(t, path)[i].addr == t[path[i]].addr && DataOf(t, path)[i].len == t[path[i]].len
    decreases |path|
  {
    if |path| > 1 {
      DataOfAt(t, path[1..], if i > 0 then i - 1 else 0);
    }
  }

  lemma {:induction false} BuffersAt(t: Table, path: seq<nat>, i: nat)
    requires InTable(t, path)
    ensures |Buffers(t, path)| == |path|
    ensures i < |path| ==> Buffers(t, path)[i].addr == t[path[i]].addr && Buffers(t, path)[i].len == t[path[i]].len
    decreases |path|
  {
    if path != [] {
      BuffersAt(t, path[1..], if i > 0 then i - 1 else 0);
    }
  }

  /** Gathering puts byte j of buffer i behind the bytes of the buffers before it. */
  lemma {:induction false} GatherAt(m: Bytes, bufs: seq<Range>, i: nat, j: nat)
    requires AllWithin(bufs, |m|) && i < |bufs| && j < bufs[i].len
    ensures Total(bufs[..i]) + j < |Gather(m, bufs)|
    ensures bufs[i].addr + j < |m| && Gather(m, bufs)[Total(bufs[..i]) + j] == m[bufs[i].addr + j]
    decreases |bufs|
  {
    assert bufs[i].Within(|m|);
    if i > 0 {
      GatherAt(m, bufs[1..], i - 1, j);
      assert bufs[..i][0] == bufs[0] && bufs[..i][1..] == bufs[1..][..i - 1];
    } else {
      assert bufs[..0] == [];
    }
  }
}
