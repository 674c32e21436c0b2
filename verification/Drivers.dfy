/**
 The driver's half of a virtqueue in guest memory (sections 2.6.5 and 2.6.13 of VIRTIO 1.1): descriptors written into
 any distinct slots of the table, linked, and published as a chain.
 */
module Drivers {
  import opened Words
  import opened GuestMemory
  import opened Rings
  import opened Queues
  import opened Chains

  const VRING_DESC_F_WRITE: nat := 2

  // ---- descriptors ----

  function DescBytes(d: Desc): (bs: Bytes)
    ensures |bs| == DESC_SIZE
  {
    Le64(d.addr) + ((Le32(d.len) + Le16(d.flags)) + Le16(d.next))
  }

  lemma DescReadsBack(m: Bytes, desc: nat, i: nat, d: Desc)
    requires desc + DESC_SIZE * (i + 1) <= |m|
    ensures DescAt(Splice(m, desc + DESC_SIZE * i, DescBytes(d)), desc, i) == d
  {
    hide LeValue, LeBytes, Splice;
    var a, bs := desc + DESC_SIZE * i, DescBytes(d);
    var m' := Splice(m, a, bs);
    SpliceHit(m, a, bs);
    CopiedSlice(m', a, bs, 0, 8);
    CopiedSlice(m', a, bs, 8, 12);
    CopiedSlice(m', a, bs, 12, 14);
    CopiedSlice(m', a, bs, 14, 16);
    assert bs[0..8] == Le64(d.addr) && bs[8..12] == Le32(d.len) && bs[12..14] == Le16(d.flags);
    assert bs[14..16] == Le16(d.next);
    WordSizes();
    LeRoundTrip(d.addr, 8);
    LeRoundTrip(d.len, 4);
    LeRoundTrip(d.flags, 2);
    LeRoundTrip(d.next, 2);
  }

  lemma DescFrame(m: Bytes, m': Bytes, desc: nat, i: nat, r: Range)
    requires desc + DESC_SIZE * (i + 1) <= |m| && Agree(m, m', r)
    requires r.addr <= desc + DESC_SIZE * i && desc + DESC_SIZE * (i + 1) <= r.addr + r.len && r.Within(|m|)
    ensures DescAt(m', desc, i) == DescAt(m, desc, i)
  {
    hide LeValue;
    var a := desc + DESC_SIZE * i;
    AgreeSlice(m, m', r, a, 8);
    AgreeSlice(m, m', r, a + 8, 4);
    AgreeSlice(m, m', r, a + 12, 2);
    AgreeSlice(m, m', r, a + 14, 2);
  }

  // ---- a chain in the table ----

  /** Descriptors and the distinct table slots they go to. */
  predicate Placeable(ds: seq<Desc>, slots: seq<nat>) {
    ds != [] && |ds| == |slots| && Distinct(slots) && forall i :: 0 <= i < |slots| ==> slots[i] < QUEUE_SIZE_MAX
  }

  /** Memory after the first n descriptors were written. */
  function LayChain(m: Bytes, desc: nat, ds: seq<Desc>, slots: seq<nat>, n: nat): (m': Bytes)
    requires desc + DESC_SIZE * QUEUE_SIZE_MAX <= |m| && Placeable(ds, slots) && n <= |ds|
    ensures |m'| == |m|
  {
    if n == 0 then m
    else Splice(LayChain(m, desc, ds, slots, n - 1), desc + DESC_SIZE * slots[n - 1], DescBytes(ds[n - 1]))
  }

  /** Writing a descriptor into one slot leaves the others. */
  lemma OtherDesc(m: Bytes, desc: nat, i: nat, d: Desc, j: nat)
    requires desc + DESC_SIZE * QUEUE_SIZE_MAX <= |m| && i < QUEUE_SIZE_MAX && j < QUEUE_SIZE_MAX && i != j
    ensures DescAt(Splice(m, desc + DESC_SIZE * i, DescBytes(d)), desc, j) == DescAt(m, desc, j)
  {
    hide DescAt, DescBytes, Splice;
    var range := Range(desc + DESC_SIZE * j, DESC_SIZE);
    SpliceAgree(m, desc + DESC_SIZE * i, DescBytes(d), range);
    DescFrame(m, Splice(m, desc + DESC_SIZE * i, DescBytes(d)), desc, j, range);
  }

  /** Each descriptor written stays what it is while the others are written. */
  lemma {:induction false} LaidDesc(m: Bytes, desc: nat, ds: seq<Desc>, slots: seq<nat>, n: nat, i: nat)
    requires desc + DESC_SIZE * QUEUE_SIZE_MAX <= |m| && Placeable(ds, slots) && i < n <= |ds|
    ensures DescAt(LayChain(m, desc, ds, slots, n), desc, slots[i]) == ds[i]
  {
    hide DescAt, DescBytes, Splice;
    var before := LayChain(m, desc, ds, slots, n - 1);
    if i == n - 1 {
      DescReadsBack(before, desc, slots[i], ds[i]);
    } else {
      LaidDesc(m, desc, ds, slots, n - 1, i);
      OtherDesc(before, desc, slots[n - 1], ds[n - 1], slots[i]);
    }
  }

  /** Slots that are not used keep their descriptors. */
  lemma {:induction false} LaidOther(m: Bytes, desc: nat, ds: seq<Desc>, slots: seq<nat>, n: nat, j: nat)
    requires desc + DESC_SIZE * QUEUE_SIZE_MAX <= |m| && Placeable(ds, slots) && n <= |ds|
    requires j < QUEUE_SIZE_MAX && j !in slots
    ensures DescAt(LayChain(m, desc, ds, slots, n), desc, j) == DescAt(m, desc, j)
  {
    hide DescAt, DescBytes, Splice;
    if n > 0 {
      LaidOther(m, desc, ds, slots, n - 1, j);
      OtherDesc(LayChain(m, desc, ds, slots, n - 1), desc, slots[n - 1], ds[n - 1], j);
    }
  }

  lemma {:induction false} LaidFrame(m: Bytes, desc: nat, ds: seq<Desc>, slots: seq<nat>, n: nat, range: Range)
    requires desc + DESC_SIZE * QUEUE_SIZE_MAX <= |m| && Placeable(ds, slots) && n <= |ds|
    requires range.Apart(Range(desc, DESC_SIZE * QUEUE_SIZE_MAX))
    ensures Agree(m, LayChain(m, desc, ds, slots, n), range)
  {
    hide DescBytes, Splice;
    if n > 0 {
      var before, a := LayChain(m, desc, ds, slots, n - 1), desc + DESC_SIZE * slots[n - 1];
      LaidFrame(m, desc, ds, slots, n - 1, range);
      SpliceAgree(before, a, DescBytes(ds[n - 1]), range);
      AgreeTransitive(m, before, Splice(before, a, DescBytes(ds[n - 1])), range);
    }
  }

  // ---- posting a chain ----

  /** The driver writes the chain and makes it available as its k-th. */
  function PostBytes(m: Bytes, l: Layout, k: nat, ds: seq<Desc>, slots: seq<nat>): (m': Bytes)
    requires l.Mapped(|m|) && Placeable(ds, slots)
    ensures |m'| == |m|
  {
    PublishBytes(LayChain(m, l.desc, ds, slots, |ds|), l.avail, l.size, k, slots[0])
  }

  lemma PublishAgree(m: Bytes, l: Layout, k: nat, head: u16, range: Range)
    requires l.Mapped(|m|) && range.Apart(l.AvailRange())
    ensures Agree(m, PublishBytes(m, l.avail, l.size, k, head), range)
  {
    hide LeBytes, Splice;
    var a := AvailSlot(l.avail, Slot(k % TWO_TO_THE_16, l.size));
    var m1 := Splice(m, a, Le16(head));
    SpliceAgree(m, a, Le16(head), range);
    SpliceAgree(m1, l.avail + 2, Le16((k + 1) % TWO_TO_THE_16), range);
    AgreeTransitive(m, m1, PublishBytes(m, l.avail, l.size, k, head), range);
  }

  /** The table holds the descriptors in their slots. */
  ghost predicate Laid(m: Bytes, desc: nat, ds: seq<Desc>, slots: seq<nat>) {
    && desc + DESC_SIZE * QUEUE_SIZE_MAX <= |m| && Placeable(ds, slots)
    && forall i :: 0 <= i < |ds| ==> DescAt(m, desc, slots[i]) == ds[i]
  }

  lemma PublishKeepsDesc(m: Bytes, l: Layout, k: nat, head: u16, j: nat)
    requires l.Mapped(|m|) && j < QUEUE_SIZE_MAX
    ensures DescAt(PublishBytes(m, l.avail, l.size, k, head), l.desc, j) == DescAt(m, l.desc, j)
  {
    hide PublishBytes, DescAt;
    PublishAgree(m, l, k, head, l.DescRange());
    DescFrame(m, PublishBytes(m, l.avail, l.size, k, head), l.desc, j, l.DescRange());
  }

  lemma Posted(m: Bytes, l: Layout, k: nat, ds: seq<Desc>, slots: seq<nat>)
    requires l.Mapped(|m|) && Placeable(ds, slots)
    ensures Laid(PostBytes(m, l, k, ds, slots), l.desc, ds, slots)
  {
    hide LayChain, PublishBytes, DescAt;
    var m1, m2 := LayChain(m, l.desc, ds, slots, |ds|), PostBytes(m, l, k, ds, slots);
    forall i | 0 <= i < |ds|
      ensures DescAt(m2, l.desc, slots[i]) == ds[i]
    {
      LaidDesc(m, l.desc, ds, slots, |ds|, i);
      PublishKeepsDesc(m1, l, k, slots[0], slots[i]);
    }
  }

  lemma PostedOther(m: Bytes, l: Layout, k: nat, ds: seq<Desc>, slots: seq<nat>, j: nat)
    requires l.Mapped(|m|) && Placeable(ds, slots) && j < QUEUE_SIZE_MAX && j !in slots
    ensures DescAt(PostBytes(m, l, k, ds, slots), l.desc, j) == DescAt(m, l.desc, j)
  {
    hide LayChain, PublishBytes, DescAt;
    LaidOther(m, l.desc, ds, slots, |ds|, j);
    PublishKeepsDesc(LayChain(m, l.desc, ds, slots, |ds|), l, k, slots[0], j);
  }

  /** Posting changes nothing outside the table and the available ring. */
  lemma PostFrame(m: Bytes, l: Layout, k: nat, ds: seq<Desc>, slots: seq<nat>, range: Range)
    requires l.Mapped(|m|) && Placeable(ds, slots) && range.Apart(l.DescRange()) && range.Apart(l.AvailRange())
    ensures Agree(m, PostBytes(m, l, k, ds, slots), range)
  {
    hide LayChain, PublishBytes;
    var m1 := LayChain(m, l.desc, ds, slots, |ds|);
    LaidFrame(m, l.desc, ds, slots, |ds|, range);
    PublishAgree(m1, l, k, slots[0], range);
    AgreeTransitive(m, m1, PostBytes(m, l, k, ds, slots), range);
  }

  /** On the ring, posting is `Ring.Publish`. */
  lemma PostedRing(m: Bytes, l: Layout, k: nat, ds: seq<Desc>, slots: seq<nat>, lastAvail: u32, ready: bool)
    requires l.Mapped(|m|) && Placeable(ds, slots)
    ensures RingOf(PostBytes(m, l, k, ds, slots), l, lastAvail, ready)
            == RingOf(m, l, lastAvail, ready).Publish(k, slots[0])
  {
    hide LayChain, PublishBytes, RingOf;
    var m1 := LayChain(m, l.desc, ds, slots, |ds|);
    LaidFrame(m, l.desc, ds, slots, |ds|, l.AvailRange());
    LaidFrame(m, l.desc, ds, slots, |ds|, l.UsedRange());
    RingOfFrame(m, m1, l, lastAvail, ready);
    PublishRefines(m1, l, k, slots[0], lastAvail, ready);
  }

  /** A device that has taken everything before sees the posted chain, exactly until its counter stalls. */
  lemma PostedIsSeen(m: Bytes, l: Layout, k: nat, ds: seq<Desc>, slots: seq<nat>)
    requires l.Mapped(|m|) && Placeable(ds, slots) && k < TWO_TO_THE_16
    ensures var p := Port(PostBytes(m, l, k, ds, slots), l, k, true);
      && p.Mapped() && (p.Waiting() <==> k + 1 < TWO_TO_THE_16)
      && (p.Waiting() ==> p.Head() == slots[0])
  {
    hide PostBytes, RingOf, Layout.Mapped, Slot, Ring.Publish, Ring.Pop, Ring.AvailId;
    PostedRing(m, l, k, ds, slots, k, true);
    RingFields(m, l, k, true);
    PublishedIsSeen(RingOf(m, l, k, true), k, slots[0]);
  }

  lemma PublishedIsSeen(r: Ring, k: nat, head: u16)
    requires r.Configured() && r.ready && r.lastAvail == k < TWO_TO_THE_16
    ensures var r' := r.Publish(k, head);
      && r'.Configured() && (r'.CanPop() <==> k + 1 < TWO_TO_THE_16)
      && (r'.CanPop() ==> r'.Pop().AvailId() == head)
  {
    hide Slot;
    RemainderIsUnique(0, k, TWO_TO_THE_16);
    if k + 1 < TWO_TO_THE_16 {
      PopAdvances(r.Publish(k, head));
      RemainderIsUnique(0, k, TWO_TO_THE_32);
    }
  }

  // ---- walking a posted chain ----

  /** Every descriptor but the last links to the next one. */
  predicate Linked(ds: seq<Desc>, slots: seq<nat>)
    requires |ds| == |slots|
  {
    forall i :: 0 <= i < |ds| ==>
      if i < |ds| - 1 then ds[i].HasNext() && ds[i].next == slots[i + 1] else !ds[i].HasNext()
  }

  function BuffersOf(ds: seq<Desc>): (bufs: seq<Range>)
    ensures |bufs| == |ds| && forall i :: 0 <= i < |ds| ==> bufs[i] == ds[i].Buffer()
  {
    if ds == [] then [] else [ds[0].Buffer()] + BuffersOf(ds[1..])
  }

  /** From every descriptor of the chain on, the walk visits the rest of it and finds its buffers. */
  lemma {:induction false} LinkedWalk(t: Table, ds: seq<Desc>, slots: seq<nat>, k: nat)
    requires Placeable(ds, slots) && Linked(ds, slots) && |t| == QUEUE_SIZE_MAX && k < |ds|
    requires forall i :: 0 <= i < |ds| ==> t[slots[i]] == ds[i]
    ensures IsChain(t, slots[k], slots[k..]) && InTable(t, slots[k..])
    ensures Buffers(t, slots[k..]) == BuffersOf(ds[k..])
    ensures DataOf(t, slots[k..]) == BuffersOf(ds[k..|ds| - 1])
    decreases |ds| - k
  {
    assert t[slots[k]] == ds[k] && ds[k..][0] == ds[k] && ds[k..][1..] == ds[k + 1..];
    if k < |ds| - 1 {
      LinkedWalk(t, ds, slots, k + 1);
      assert slots[k..][1..] == slots[k + 1..];
      assert ds[k..|ds| - 1][1..] == ds[k + 1..|ds| - 1];
    } else {
      assert slots[k..] == [slots[k]];
    }
  }

  /** The device walks a posted chain exactly as it was linked. */
  lemma PostedWalk(m: Bytes, desc: nat, ds: seq<Desc>, slots: seq<nat>, k: nat)
    requires Laid(m, desc, ds, slots) && Linked(ds, slots) && k < |ds|
    ensures var t := TableOf(m, desc);
      && ChainFrom(t, slots[k]) == Some(slots[k..]) && InTable(t, slots[k..])
      && Buffers(t, slots[k..]) == BuffersOf(ds[k..]) && DataOf(t, slots[k..]) == BuffersOf(ds[k..|ds| - 1])
  {
    hide TableOf, DescAt, Linked, IsChain, Buffers, DataOf, ChainFrom;
    var t := TableOf(m, desc);
    forall i | 0 <= i < |ds|
      ensures t[slots[i]] == ds[i]
    {
      TableAt(m, desc, slots[i]);
    }
    LinkedWalk(t, ds, slots, k);
    ChainWalked(t, slots[k], slots[k..]);
  }
}
