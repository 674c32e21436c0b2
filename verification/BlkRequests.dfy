/**
 Block requests as a driver issues them (section 5.2.6 of VIRTIO 1.1): header and descriptor chain written to guest
 memory, then the chain published. The device parses exactly the request issued.
 */
module BlkRequests {
  import opened Words
  import opened GuestMemory
  import opened Rings
  import opened Queues
  import opened Chains
  import opened Interrupts
  import opened Drivers
  import opened Blk

  // ---- the driver's bytes ----

  /** A request together with where the driver puts its header and its descriptors. */
  datatype Order = Order(r: Request, header: nat, slots: seq<nat>) {
    /** The fields fit a chain of header, data and status in distinct slots. */
    predicate Encodable() {
      && r.Handled() && (r.kind == VIRTIO_BLK_T_GET_ID ==> |r.data| == 1)
      && header < TWO_TO_THE_64
      && r.status.addr < TWO_TO_THE_64 && r.status.len == 1
      && (forall i :: 0 <= i < |r.data| ==> r.data[i].addr < TWO_TO_THE_64 && r.data[i].len < TWO_TO_THE_32)
      && |slots| == |r.data| + 2 && Distinct(slots) && forall i :: 0 <= i < |slots| ==> slots[i] < QUEUE_SIZE_MAX
    }

    function DescOf(i: nat): Desc
      requires Encodable() && i < |slots|
    {
      if i == 0 then Desc(header, HEADER_SIZE, VRING_DESC_F_NEXT, slots[1])
      else if i <= |r.data| then
        Desc(r.data[i - 1].addr, r.data[i - 1].len,
             VRING_DESC_F_NEXT + if r.kind == VIRTIO_BLK_T_OUT then 0 else VRING_DESC_F_WRITE, slots[i + 1])
      else Desc(r.status.addr, 1, VRING_DESC_F_WRITE, 0)
    }

    function Descs(): (ds: seq<Desc>)
      requires Encodable()
      ensures Placeable(ds, slots)
    {
      seq(|slots|, i requires 0 <= i < |slots| => DescOf(i))
    }

    function HeaderRange(): Range { Range(header, HEADER_SIZE) }

    /** The header is kept off the three parts of the queue. */
    predicate HeaderOff(l: Layout) {
      var h := HeaderRange();
      h.Apart(l.DescRange()) && h.Apart(l.AvailRange()) && h.Apart(l.UsedRange())
    }

    /** The request can be served, and its buffers keep off the queue. */
    predicate Proper(memSize: nat, diskSize: nat, l: Layout) {
      && l.Mapped(memSize) && Encodable() && HeaderRange().Within(memSize) && HeaderOff(l)
      && r.Servable(memSize, diskSize) && r.Spares(l.DescRange()) && r.Spares(l.AvailRange()) && r.Spares(l.UsedRange())
    }

    /** The data of a write keeps off what the driver writes besides. */
    predicate DataOff(l: Layout) {
      ApartFrom(r.data, HeaderRange()) && ApartFrom(r.data, l.DescRange()) && ApartFrom(r.data, l.AvailRange())
    }
  }

  function HeaderBytes(r: Request): (bs: Bytes)
    ensures |bs| == HEADER_SIZE
  {
    (Le32(r.kind) + Le32(0)) + Le64(r.sector)
  }

  function IssueBytes(m: Bytes, l: Layout, k: nat, o: Order): (m': Bytes)
    requires l.Mapped(|m|) && o.Encodable() && o.HeaderRange().Within(|m|)
    ensures |m'| == |m|
  {
    PostBytes(Splice(m, o.header, HeaderBytes(o.r)), l, k, o.Descs(), o.slots)
  }

  // ---- what the bytes decode to ----

  /** Memory holds the header and the chain of the request. */
  ghost predicate Written(m: Bytes, desc: nat, o: Order) {
    && o.Encodable() && o.HeaderRange().Within(|m|) && Laid(m, desc, o.Descs(), o.slots)
    && U32At(m, o.header) == o.r.kind && U64At(m, o.header + 8) == o.r.sector
  }

  lemma HeaderReadsBack(m: Bytes, header: nat, r: Request)
    requires header + HEADER_SIZE <= |m|
    ensures var m' := Splice(m, header, HeaderBytes(r));
      U32At(m', header) == r.kind && U64At(m', header + 8) == r.sector
  {
    hide LeValue, LeBytes, Splice;
    var bs := HeaderBytes(r);
    var m' := Splice(m, header, bs);
    SpliceHit(m, header, bs);
    CopiedSlice(m', header, bs, 0, 4);
    CopiedSlice(m', header, bs, 8, 16);
    assert bs[0..4] == Le32(r.kind) && bs[8..16] == Le64(r.sector);
    WordSizes();
    LeRoundTrip(r.kind, 4);
    LeRoundTrip(r.sector, 8);
  }

  /** A request that is written stays so while its header and its slots are left alone. */
  lemma WrittenFrame(m: Bytes, m': Bytes, desc: nat, o: Order)
    requires Written(m, desc, o) && Agree(m, m', o.HeaderRange())
    requires forall i :: 0 <= i < |o.slots| ==> DescAt(m', desc, o.slots[i]) == DescAt(m, desc, o.slots[i])
    ensures Written(m', desc, o)
  {
    hide DescAt, LeValue, Order.Descs, Order.Encodable;
    AgreeSlice(m, m', o.HeaderRange(), o.header, 4);
    AgreeSlice(m, m', o.HeaderRange(), o.header + 8, 8);
  }

  lemma DataDescs(o: Order)
    requires o.Encodable()
    ensures Linked(o.Descs(), o.slots) && BuffersOf(o.Descs()[1..|o.slots| - 1]) == o.r.data
  {
    var ds, n := o.Descs(), |o.slots| - 1;
    forall i | 0 <= i < |o.r.data|
      ensures BuffersOf(ds[1..n])[i] == o.r.data[i]
    {
      assert ds[1..n][i] == ds[i + 1] == o.DescOf(i + 1);
    }
  }

  /** Memory that holds header and chain of a request parses as that request. */
  lemma WrittenParses(m: Bytes, desc: nat, o: Order)
    requires Written(m, desc, o)
    ensures RequestAt(m, desc, o.slots[0]) == Some(o.r)
  {
    hide TableOf, DescAt, U32At, U64At, BuffersOf, ChainFrom, Linked;
    var t, n, ds := TableOf(m, desc), |o.slots| - 1, o.Descs();
    TableAt(m, desc, o.slots[0]);
    TableAt(m, desc, o.slots[1]);
    TableAt(m, desc, o.slots[n]);
    if o.r.Transfers() {
      DataDescs(o);
      PostedWalk(m, desc, ds, o.slots, 1);
      assert o.slots[1..][n - 1] == o.slots[n];
      hide DataOf;
      assert Transfer(t, o.r.kind, o.r.sector, o.slots[1]) == Some(o.r);
    } else {
      assert n == 2 && o.r.data == [o.r.data[0]];
    }
  }

  // ---- issuing a request ----

  /** The state of the device when its driver has issued the order as its k-th and all earlier ones were taken. */
  function Issued(m: Bytes, disk: Bytes, line: Line, l: Layout, k: nat, o: Order): BlkState
    requires l.Mapped(|m|) && o.Encodable() && o.HeaderRange().Within(|m|) && k < TWO_TO_THE_16
  {
    BlkState(Port(IssueBytes(m, l, k, o), l, k, true), disk, line)
  }

  /** Issuing a request changes nothing outside the header, the descriptor table and the available ring. */
  lemma IssueFrame(m: Bytes, l: Layout, k: nat, o: Order, range: Range)
    requires l.Mapped(|m|) && o.Encodable() && o.HeaderRange().Within(|m|)
    requires range.Apart(o.HeaderRange()) && range.Apart(l.DescRange()) && range.Apart(l.AvailRange())
    ensures Agree(m, IssueBytes(m, l, k, o), range)
  {
    hide PostBytes, HeaderBytes, Splice, Order.Encodable, Order.Descs;
    var m1 := Splice(m, o.header, HeaderBytes(o.r));
    SpliceAgree(m, o.header, HeaderBytes(o.r), range);
    PostFrame(m1, l, k, o.Descs(), o.slots, range);
    AgreeTransitive(m, m1, IssueBytes(m, l, k, o), range);
  }

  /** ... and no descriptor in a slot it does not use. */
  lemma IssueKeepsDesc(m: Bytes, l: Layout, k: nat, o: Order, j: nat)
    requires l.Mapped(|m|) && o.Encodable() && o.HeaderRange().Within(|m|) && o.HeaderOff(l)
    requires j < QUEUE_SIZE_MAX && j !in o.slots
    ensures DescAt(IssueBytes(m, l, k, o), l.desc, j) == DescAt(m, l.desc, j)
  {
    hide PostBytes, HeaderBytes, Splice, DescAt, Order.Encodable, Order.Descs;
    var m1 := Splice(m, o.header, HeaderBytes(o.r));
    SpliceAgree(m, o.header, HeaderBytes(o.r), l.DescRange());
    DescFrame(m, m1, l.desc, j, l.DescRange());
    PostedOther(m1, l, k, o.Descs(), o.slots, j);
  }

  lemma IssuedIsWritten(m: Bytes, l: Layout, k: nat, o: Order)
    requires l.Mapped(|m|) && o.Encodable() && o.HeaderRange().Within(|m|) && o.HeaderOff(l)
    ensures Written(IssueBytes(m, l, k, o), l.desc, o)
  {
    hide PostBytes, HeaderBytes, Splice, LeValue, Order.Encodable, Order.Descs, Laid;
    var m1 := Splice(m, o.header, HeaderBytes(o.r));
    HeaderReadsBack(m, o.header, o.r);
    PostFrame(m1, l, k, o.Descs(), o.slots, o.HeaderRange());
    AgreeSlice(m1, IssueBytes(m, l, k, o), o.HeaderRange(), o.header, 4);
    AgreeSlice(m1, IssueBytes(m, l, k, o), o.HeaderRange(), o.header + 8, 8);
    Posted(m1, l, k, o.Descs(), o.slots);
  }

  /** The bytes a driver writes for a request parse as that request, whichever descriptors it uses. */
  lemma IssuedParses(m: Bytes, l: Layout, k: nat, o: Order)
    requires l.Mapped(|m|) && o.Encodable() && o.HeaderRange().Within(|m|) && o.HeaderOff(l)
    ensures RequestAt(IssueBytes(m, l, k, o), l.desc, o.slots[0]) == Some(o.r)
  {
    IssuedIsWritten(m, l, k, o);
    WrittenParses(IssueBytes(m, l, k, o), l.desc, o);
  }

  /** The device has a proper request to serve, exactly the one issued, if and only if its counter has not stalled. */
  lemma IssuedIsDue(m: Bytes, disk: Bytes, line: Line, l: Layout, k: nat, o: Order)
    requires o.Proper(|m|, |disk|, l) && k < TWO_TO_THE_16
    ensures var s := Issued(m, disk, line, l, k, o);
      && (s.Due() <==> k + 1 < TWO_TO_THE_16)
      && (s.Due() ==> s.port.Head() == o.slots[0] && s.Current() == Some(o.r) && s.OffRings())
  {
    hide PostBytes, RequestAt, RingOf, Order.Encodable, Order.Descs, Request.Servable, Request.Spares, Layout.Mapped;
    PostedIsSeen(Splice(m, o.header, HeaderBytes(o.r)), l, k, o.Descs(), o.slots);
    IssuedParses(m, l, k, o);
  }

  /** Issuing a write leaves its data where it was. */
  lemma IssueKeepsData(m: Bytes, l: Layout, k: nat, o: Order)
    requires l.Mapped(|m|) && o.Encodable() && o.HeaderRange().Within(|m|)
    requires AllWithin(o.r.data, |m|) && o.DataOff(l)
    ensures Gather(IssueBytes(m, l, k, o), o.r.data) == Gather(m, o.r.data)
  {
    hide IssueBytes, Order.Encodable, Gather;
    var m' := IssueBytes(m, l, k, o);
    forall i | 0 <= i < |o.r.data|
      ensures Agree(m, m', o.r.data[i])
    {
      IssueFrame(m, l, k, o, o.r.data[i]);
    }
    GatherFrame(m, m', o.r.data);
  }

  /**
   What a driver gets: it issues a write of the bytes in its buffers, and later, from any guest memory, through any
   descriptors and buffers, a read of the same range. The read delivers those bytes.
   */
  lemma DriverReadsWhatItWrote(m1: Bytes, disk: Bytes, line1: Line, l1: Layout, k1: nat, w: Order,
                               m2: Bytes, line2: Line, l2: Layout, k2: nat, o: Order)
    requires k1 + 1 < TWO_TO_THE_16 && k2 + 1 < TWO_TO_THE_16
    requires w.Proper(|m1|, |disk|, l1) && w.r.kind == VIRTIO_BLK_T_OUT && w.DataOff(l1)
    requires o.Proper(|m2|, |disk|, l2) && o.r.kind == VIRTIO_BLK_T_IN && o.r.Disjoint()
    requires w.r.Extent() == o.r.Extent()
    ensures var sw := Issued(m1, disk, line1, l1, k1, w);
      && sw.Due() && |sw.Turn().disk| == |disk|
      && var sr := Issued(m2, sw.Turn().disk, line2, l2, k2, o);
      && sr.Due() && Gather(sr.Turn().port.m, o.r.data) == Gather(m1, w.r.data)
  {
    hide IssueBytes, RequestAt, RingOf, Order.Encodable, Layout.Mapped, BlkState.Turn, Gather, Request.Spares,
         BlkState.OffRings;
    IssuedIsDue(m1, disk, line1, l1, k1, w);
    var sw := Issued(m1, disk, line1, l1, k1, w);
    TurnKeepsDiskSize(sw);
    var sr := Issued(m2, sw.Turn().disk, line2, l2, k2, o);
    IssuedIsDue(m2, sw.Turn().disk, line2, l2, k2, o);
    WriteThenRead(sw, sr);
    IssueKeepsData(m1, l1, k1, w);
  }

  // ---- such requests exist ----

  /** A queue of full size at the bottom of memory. */
  const SAMPLE_LAYOUT: Layout := Layout(QUEUE_SIZE_MAX, 0, 0x2000, 0x2408)

  /** A one-sector transfer in two buffers, inside the page at `page`, with its chain in the slots from `first` on. */
  function Sample(kind: u32, page: nat, first: nat): Order {
    Order(Request(kind, 0, [Range(page + 0x100, 0x80), Range(page + 0x400, 0x180)], Range(page + 0x200, 1)), page,
          [first + 2, first, first + 3, first + 1])
  }

  /** They are proper, for every disk of at least one sector and every memory behind the queue that holds the page. */
  lemma SampleIsProper(kind: u32, page: nat, first: nat, memSize: nat, diskSize: nat)
    requires kind == VIRTIO_BLK_T_IN || kind == VIRTIO_BLK_T_OUT
    requires 0x4000 <= page && page + 0x1000 <= memSize <= TWO_TO_THE_64
    requires first + 4 <= QUEUE_SIZE_MAX && SECTOR_SIZE <= diskSize
    ensures var o := Sample(kind, page, first);
      && o.Proper(memSize, diskSize, SAMPLE_LAYOUT) && o.r.Disjoint() && o.DataOff(SAMPLE_LAYOUT)
      && Total(o.r.data) == SECTOR_SIZE
  {
    var o := Sample(kind, page, first);
    var b0, b1 := o.r.data[0], o.r.data[1];
    assert SAMPLE_LAYOUT.Mapped(memSize);
    assert o.r.data[1..] == [b1] && [b1][1..] == [];
    assert Total([b1]) == b1.len + Total([]);
    assert ApartFrom([b1], b0) && PairwiseApart([b1]);
    assert ApartFrom(o.r.data, o.r.status) && o.DataOff(SAMPLE_LAYOUT);
  }
}
