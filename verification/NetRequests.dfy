/**
 Buffers as a driver offers them to the network device (section 5.1.6 of VIRTIO 1.1): a chain posted to the receive or
 transmit queue. What the driver gets, from the bytes it writes to the bytes it reads or the packet on the tap.
 */
module NetRequests {
  import opened Words
  import opened GuestMemory
  import opened Rings
  import opened Queues
  import opened Chains
  import opened Interrupts
  import opened Drivers
  import opened Net

  /** A chain of buffers together with the descriptors the driver uses for it. */
  datatype Offer = Offer(bufs: seq<Range>, slots: seq<nat>) {
    predicate Encodable() {
      && bufs != [] && |slots| == |bufs| && Distinct(slots)
      && (forall i :: 0 <= i < |slots| ==> slots[i] < QUEUE_SIZE_MAX)
      && forall i :: 0 <= i < |bufs| ==> bufs[i].addr < TWO_TO_THE_64 && bufs[i].len < TWO_TO_THE_32
    }

    /** The device writes to receive buffers and reads transmit buffers. */
    function Descs(deviceWrites: bool): (ds: seq<Desc>)
      requires Encodable()
      ensures Placeable(ds, slots)
    {
      seq(|slots|, i requires 0 <= i < |slots| => DescOf(i, deviceWrites))
    }

    function DescOf(i: nat, deviceWrites: bool): Desc
      requires Encodable() && i < |slots|
    {
      var flags := if deviceWrites then VRING_DESC_F_WRITE else 0;
      if i < |slots| - 1 then Desc(bufs[i].addr, bufs[i].len, VRING_DESC_F_NEXT + flags, slots[i + 1])
      else Desc(bufs[i].addr, bufs[i].len, flags, 0)
    }

    /** The buffers lie in memory and off the queue. */
    predicate Proper(memSize: nat, l: Layout) {
      && l.Mapped(memSize) && Encodable() && AllWithin(bufs, memSize)
      && ApartFrom(bufs, l.DescRange()) && ApartFrom(bufs, l.AvailRange()) && ApartFrom(bufs, l.UsedRange())
    }
  }

  lemma OfferDesc(o: Offer, deviceWrites: bool, i: nat)
    requires o.Encodable() && i < |o.slots|
    ensures var d := o.Descs(deviceWrites)[i];
      && d.Buffer() == o.bufs[i]
      && if i < |o.slots| - 1 then d.HasNext() && d.next == o.slots[i + 1] else !d.HasNext()
  {
    assert o.Descs(deviceWrites)[i] == o.DescOf(i, deviceWrites);
  }

  lemma OfferDescs(o: Offer, deviceWrites: bool)
    requires o.Encodable()
    ensures Linked(o.Descs(deviceWrites), o.slots) && BuffersOf(o.Descs(deviceWrites)) == o.bufs
  {
    forall i | 0 <= i < |o.slots|
      ensures var d := o.Descs(deviceWrites)[i];
        && d.Buffer() == o.bufs[i]
        && if i < |o.slots| - 1 then d.HasNext() && d.next == o.slots[i + 1] else !d.HasNext()
    {
      OfferDesc(o, deviceWrites, i);
    }
    hide Offer.Descs, Desc.HasNext, Desc.Buffer;
  }

  /** The device's state when the driver has posted the chain as its k-th and all earlier ones were taken. */
  function Offered(m: Bytes, l: Layout, k: nat, o: Offer, deviceWrites: bool, line: Line, sent: seq<Bytes>): NetState
    requires l.Mapped(|m|) && o.Encodable() && k < TWO_TO_THE_16
  {
    NetState(Port(PostBytes(m, l, k, o.Descs(deviceWrites), o.slots), l, k, true), line, sent)
  }

  /** The device finds the chain posted, with exactly its buffers, if and only if its counter has not stalled. */
  lemma OfferedIsDue(m: Bytes, l: Layout, k: nat, o: Offer, deviceWrites: bool, line: Line, sent: seq<Bytes>)
    requires l.Mapped(|m|) && o.Encodable() && AllWithin(o.bufs, |m|) && k < TWO_TO_THE_16
    ensures var s := Offered(m, l, k, o, deviceWrites, line, sent);
      && (s.Due() <==> k + 1 < TWO_TO_THE_16)
      && (s.Due() ==> s.port.Head() == o.slots[0] && s.Chain() == Some(o.slots) && s.Bufs() == o.bufs)
  {
    hide PostBytes, RingOf, TableOf, Laid, Buffers, BuffersOf, ChainFrom, Layout.Mapped, Linked, Offer.Descs;
    var ds := o.Descs(deviceWrites);
    PostedIsSeen(m, l, k, ds, o.slots);
    Posted(m, l, k, ds, o.slots);
    OfferDescs(o, deviceWrites);
    PostedWalk(PostBytes(m, l, k, ds, o.slots), l.desc, ds, o.slots, 0);
    assert o.slots[0..] == o.slots && ds[0..] == ds;
  }

  /** The packet's prefix is in the buffers, in order, as far as they have room, and its length in the used element. */
  ghost predicate Receives(s: NetState, o: Offer, packet: Bytes)
    requires s.SoundRx() && |packet| <= BUFFER_LEN && s.port.Mapped()
  {
    var s', n, f := s.Rx(Some(packet)), Min(|packet|, Total(o.bufs)), Fitted(o.bufs, |packet|);
    && AllWithin(f, |s'.port.m|) && Gather(s'.port.m, f) == packet[..n] && s'.line.level
    && s'.port.Mapped() && o.slots != [] && o.slots[0] < QUEUE_SIZE_MAX && n < TWO_TO_THE_32
    && s'.port.Ring() == s.port.Ring().Pop().AddUsed(UsedElem(o.slots[0], n))
  }

  /** The driver posts receive buffers; a packet arrives. The driver finds it in the buffers. */
  lemma DriverReceives(m: Bytes, l: Layout, k: nat, o: Offer, line: Line, sent: seq<Bytes>, packet: Bytes)
    requires o.Proper(|m|, l) && PairwiseApart(o.bufs) && |packet| <= BUFFER_LEN && k + 1 < TWO_TO_THE_16
    ensures var s := Offered(m, l, k, o, true, line, sent); s.SoundRx() && Receives(s, o, packet)
  {
    hide PostBytes, RingOf, Layout.Mapped, Offer.Descs, NetState.Bufs, NetState.Chain, Gather, Fitted, NetState.Rx;
    var s := Offered(m, l, k, o, true, line, sent);
    OfferedIsDue(m, l, k, o, true, line, sent);
    RxDelivers(s, packet);
    assert s.Rx(Some(packet)).port.Mapped() by {
      RxKeepsQueue(s, packet);
    }
  }

  lemma RxKeepsQueue(s: NetState, packet: Bytes)
    requires s.SoundRx() && s.port.Waiting() && |packet| <= BUFFER_LEN
    ensures s.Rx(Some(packet)).port.Mapped()
  {
    hide NetState.Bufs, NetState.Chain, RingOf, AddUsedBytes, Pour;
  }

  /** The tap gets exactly the given bytes, and their number is in the used element. */
  ghost predicate Sends(s: NetState, o: Offer, bytes: Bytes)
    requires s.SoundTx() && s.port.Waiting()
  {
    && s.Tx().sent == s.sent + [bytes] && s.Tx().line.level
    && s.Tx().port.Mapped() && o.slots != [] && o.slots[0] < QUEUE_SIZE_MAX && |bytes| < TWO_TO_THE_32
    && s.Tx().port.Ring() == s.port.Ring().Pop().AddUsed(UsedElem(o.slots[0], |bytes|))
  }

  /** The driver posts transmit buffers; the tap gets exactly the bytes the driver had put into them. */
  lemma DriverSends(m: Bytes, l: Layout, k: nat, o: Offer, line: Line, sent: seq<Bytes>)
    requires o.Proper(|m|, l) && Total(o.bufs) <= BUFFER_LEN && k + 1 < TWO_TO_THE_16
    ensures var s := Offered(m, l, k, o, false, line, sent);
      s.SoundTx() && s.port.Waiting() && Sends(s, o, Gather(m, o.bufs))
  {
    hide PostBytes, RingOf, Layout.Mapped, Offer.Descs, NetState.Bufs, NetState.Chain, Gather, NetState.Tx;
    var s := Offered(m, l, k, o, false, line, sent);
    OfferedIsDue(m, l, k, o, false, line, sent);
    TxSends(s);
    assert s.Tx().port.Mapped() by {
      TxKeepsQueue(s);
    }
    OfferKeepsData(m, l, k, o);
  }

  lemma TxKeepsQueue(s: NetState)
    requires s.SoundTx() && s.port.Waiting()
    ensures s.Tx().port.Mapped()
  {
    hide NetState.Bufs, NetState.Chain, RingOf, AddUsedBytes;
  }

  lemma OfferKeepsData(m: Bytes, l: Layout, k: nat, o: Offer)
    requires o.Proper(|m|, l)
    ensures Gather(PostBytes(m, l, k, o.Descs(false), o.slots), o.bufs) == Gather(m, o.bufs)
  {
    hide PostBytes, Layout.Mapped, Offer.Descs, Gather;
    var m' := PostBytes(m, l, k, o.Descs(false), o.slots);
    forall i | 0 <= i < |o.bufs|
      ensures Agree(m, m', o.bufs[i])
    {
      PostFrame(m, l, k, o.Descs(false), o.slots, o.bufs[i]);
    }
    GatherFrame(m, m', o.bufs);
  }

  /** Such chains exist, in every memory of at least 20 KiB. */
  lemma ProperOffersExist(memSize: nat)
    requires 0x5000 <= memSize
    ensures exists l: Layout, o: Offer ::
      o.Proper(memSize, l) && PairwiseApart(o.bufs) && |o.bufs| == 2 && 0 < Total(o.bufs) <= BUFFER_LEN
  {
    var l := Layout(QUEUE_SIZE_MAX, 0, 0x2000, 0x2408);
    var b0, b1 := Range(0x4100, 0x100), Range(0x4400, 0x600);
    var o := Offer([b0, b1], [9, 4]);
    assert l.Mapped(memSize);
    assert o.bufs[0] == b0 && o.bufs[1..] == [b1] && [b1][1..] == [];
    assert Total([b1]) == b1.len + Total([]);
    assert ApartFrom([b1], b0) && PairwiseApart([b1]);
    assert o.Proper(memSize, l);
  }
}
