/** The block device of src/kvm/virtio/blk.h. The backing file is a byte array; I/O inside it succeeds. */
module Blk {
  import opened Words
  import opened GuestMemory
  import opened Rings
  import opened Queues
  import opened Chains
  import opened Interrupts

  const VIRTIO_BLK_T_IN: u32 := 0
  const VIRTIO_BLK_T_OUT: u32 := 1
  const VIRTIO_BLK_T_GET_ID: u32 := 8
  const VIRTIO_BLK_S_OK: u8 := 0
  const SECTOR_SIZE: nat := 512
  const HEADER_SIZE: nat := 16

  /** "kthxvm" three times, "disk" and the terminating zero. */
  const DISK_ID: Bytes := KTHXVM + KTHXVM + KTHXVM + [0x64, 0x69, 0x73, 0x6b, 0]
  const KTHXVM: Bytes := [0x6b, 0x74, 0x68, 0x78, 0x76, 0x6d]

  // ---- requests in guest memory ----

  /** A request chain: header, data buffers, and the descriptor whose first byte takes the status. */
  datatype Request = Request(kind: u32, sector: u64, data: seq<Range>, status: Range) {
    predicate Transfers() { kind == VIRTIO_BLK_T_IN || kind == VIRTIO_BLK_T_OUT }

    predicate Handled() { Transfers() || kind == VIRTIO_BLK_T_GET_ID }

    /** The byte offset in the file, a 64-bit product. */
    function Offset(): nat { sector * SECTOR_SIZE % TWO_TO_THE_64 }

    function Extent(): Range { Range(Offset(), Total(data)) }

    function Reported(): u32 { Wrap32(Total(data) + 1) }

    /** What the device relies on: buffers in guest memory, the transfer inside the file, a short enough identifier. */
    predicate Servable(memSize: nat, diskSize: nat) {
      && AllWithin(data, memSize)
      && (Handled() ==> status.Within(memSize) && status.len == 1)
      && (Transfers() ==> Extent().Within(diskSize))
      && (kind == VIRTIO_BLK_T_GET_ID ==> |data| == 1 && data[0].len <= |DISK_ID|)
    }

    /** None of the bytes the device writes while serving lies in the range; the data of an OUT request is only read. */
    predicate Spares(r: Range) {
      status.Apart(r) && (kind == VIRTIO_BLK_T_OUT || ApartFrom(data, r))
    }

    /** The buffers the device fills overlap neither each other nor the status byte. */
    predicate Disjoint() { PairwiseApart(data) && ApartFrom(data, status) }
  }

  /**
   The request whose chain starts at `head`. A transfer follows `next` while NEXT is set; the identifier is stored one
   link behind the header and the status two links behind, whatever the flags; of other types only the header is read.
   */
  function RequestAt(m: Bytes, desc: nat, head: nat): Option<Request>
    requires desc + DESC_SIZE * QUEUE_SIZE_MAX <= |m|
  {
    var t := TableOf(m, desc);
    if head >= |t| || t[head].addr + HEADER_SIZE > |m| then None
    else
      var kind, sector, first := U32At(m, t[head].addr), U64At(m, t[head].addr + 8), t[head].next;
      if kind == VIRTIO_BLK_T_IN || kind == VIRTIO_BLK_T_OUT then Transfer(t, kind, sector, first)
      else if kind == VIRTIO_BLK_T_GET_ID then
        if first < |t| && t[first].next < |t| then
          Some(Request(kind, sector, [t[first].Buffer()], Range(t[t[first].next].addr, 1)))
        else None
      else Some(Request(kind, sector, [], Range(0, 0)))
  }

  /** A transfer over the chain from `first`, if the walk ends. */
  function Transfer(t: Table, kind: u32, sector: u64, first: nat): (r: Option<Request>)
    ensures r.Some? ==> r.value.kind == kind && r.value.sector == sector
  {
    match ChainFrom(t, first)
    case None => None
    case Some(path) =>
      WalkEndsIff(t, first);
      ChainInTable(t, first, path);
      Some(Request(kind, sector, DataOf(t, path), Range(t[path[|path| - 1]].addr, 1)))
  }

  /** A transfer, spelled out: the walk, and the descriptor it ends at. */
  lemma TransferParts(t: Table, kind: u32, sector: u64, first: nat)
    requires Transfer(t, kind, sector, first).Some?
    ensures ChainFrom(t, first).Some?
    ensures var path, r := ChainFrom(t, first).value, Transfer(t, kind, sector, first).value;
      && IsChain(t, first, path) && InTable(t, path) && path != [] && path[0] == first < |t|
      && r == Request(kind, sector, DataOf(t, path), Range(t[path[|path| - 1]].addr, 1))
  {
    WalkEndsIff(t, first);
    ChainInTable(t, first, ChainFrom(t, first).value);
  }

  /** A parsed request, spelled out in terms of the descriptors in memory. */
  lemma RequestParts(m: Bytes, desc: nat, head: nat)
    requires desc + DESC_SIZE * QUEUE_SIZE_MAX <= |m| && RequestAt(m, desc, head).Some?
    ensures head < QUEUE_SIZE_MAX && DescAt(m, desc, head).addr + HEADER_SIZE <= |m|
    ensures var d, r := DescAt(m, desc, head), RequestAt(m, desc, head).value;
      r.kind == U32At(m, d.addr) && r.sector == U64At(m, d.addr + 8)
    ensures RequestAt(m, desc, head).value.Transfers() ==>
      && ChainFrom(TableOf(m, desc), DescAt(m, desc, head).next).Some?
      && var t, d, r := TableOf(m, desc), DescAt(m, desc, head), RequestAt(m, desc, head).value;
      var path := ChainFrom(t, d.next).value;
      && IsChain(t, d.next, path) && InTable(t, path) && path != [] && path[0] == d.next < QUEUE_SIZE_MAX
      && r.data == DataOf(t, path) && r.status == Range(DescAt(m, desc, path[|path| - 1]).addr, 1)
    ensures RequestAt(m, desc, head).value.kind == VIRTIO_BLK_T_GET_ID ==>
      var first, r := DescAt(m, desc, head).next, RequestAt(m, desc, head).value;
      && first < QUEUE_SIZE_MAX && DescAt(m, desc, first).next < QUEUE_SIZE_MAX
      && r.data == [DescAt(m, desc, first).Buffer()]
      && r.status == Range(DescAt(m, desc, DescAt(m, desc, first).next).addr, 1)
  {
    hide LeValue, DescAt, TableOf, U32At, U64At, Transfer;
    var t := TableOf(m, desc);
    TableAt(m, desc, head);
    var first, r := t[head].next, RequestAt(m, desc, head).value;
    assert r.kind == U32At(m, t[head].addr) && r.sector == U64At(m, t[head].addr + 8);
    if r.Transfers() {
      hide ChainFrom, IsChain, DataOf;
      assert Transfer(t, r.kind, r.sector, first) == Some(r);
      TransferParts(t, r.kind, r.sector, first);
      var path := ChainFrom(t, first).value;
      TableAt(m, desc, path[|path| - 1]);
    } else if r.kind == VIRTIO_BLK_T_GET_ID {
      TableAt(m, desc, first);
      TableAt(m, desc, t[first].next);
    }
  }

  datatype Outcome =
    | Dropped
    | Done(m: Bytes, disk: Bytes, len: u32)

  /** The effect of one request on guest memory and disk, and the length reported for it. */
  function Serve(m: Bytes, disk: Bytes, r: Request): (o: Outcome)
    requires r.Servable(|m|, |disk|)
    ensures o.Done? ==> |o.m| == |m| && |o.disk| == |disk|
  {
    if r.kind == VIRTIO_BLK_T_IN then
      Done(Splice(Scatter(m, r.data, Slice(disk, r.Extent())), r.status.addr, [VIRTIO_BLK_S_OK]), disk, r.Reported())
    else if r.kind == VIRTIO_BLK_T_OUT then
      Done(Splice(m, r.status.addr, [VIRTIO_BLK_S_OK]), Splice(disk, r.Offset(), Gather(m, r.data)), r.Reported())
    else if r.kind == VIRTIO_BLK_T_GET_ID then
      Done(Splice(Splice(m, r.data[0].addr, DISK_ID[..r.data[0].len]), r.status.addr, [VIRTIO_BLK_S_OK]), disk,
           r.Reported())
    else Dropped
  }

  // ---- one turn of the service loop ----

  datatype BlkState = BlkState(port: Port, disk: Bytes, line: Line) {
    function Current(): Option<Request>
      requires port.Mapped()
    {
      RequestAt(port.m, port.l.desc, port.Head())
    }

    /** If a chain is waiting, it is a request the device can serve without overwriting the chain it walks. */
    predicate Sound() {
      && (port.ready ==> port.Mapped())
      && (port.Waiting() ==>
            && Current().Some? && Current().value.Servable(|port.m|, |disk|)
            && Current().value.Spares(port.l.DescRange()))
    }

    /** A sound request is waiting. */
    predicate Due() { port.Waiting() && Sound() }

    /** The buffers of the waiting request keep off the two rings. */
    predicate OffRings()
      requires Due()
    {
      Current().value.Spares(port.l.AvailRange()) && Current().value.Spares(port.l.UsedRange())
    }

    function Turn(): (s': BlkState)
      requires Sound()
    {
      if !port.Waiting() then this
      else
        match Serve(port.m, disk, Current().value)
        case Dropped => this.(port := port.Take())
        case Done(m1, d1, len) =>
          var p := port.Finish(m1, len);
          BlkState(p, d1, if p.Ring().WantsInterrupt(p.Ring().usedIdx) then line.Set(true) else line)
    }
  }

  // ---- what serving a request means ----

  /** Serving a request changes guest memory only in its data buffers and its status byte. */
  lemma ServeFrame(m: Bytes, disk: Bytes, r: Request, range: Range)
    requires r.Servable(|m|, |disk|) && r.Spares(range) && Serve(m, disk, r).Done?
    ensures Agree(m, Serve(m, disk, r).m, range)
  {
    var ok := [VIRTIO_BLK_S_OK];
    var m1 :=
      if r.kind == VIRTIO_BLK_T_IN then Scatter(m, r.data, Slice(disk, r.Extent()))
      else if r.kind == VIRTIO_BLK_T_OUT then m
      else Splice(m, r.data[0].addr, DISK_ID[..r.data[0].len]);
    if r.kind == VIRTIO_BLK_T_IN {
      ScatterFrame(m, r.data, Slice(disk, r.Extent()), range);
    } else if r.kind != VIRTIO_BLK_T_OUT {
      SpliceAgree(m, r.data[0].addr, DISK_ID[..r.data[0].len], range);
    }
    SpliceAgree(m1, r.status.addr, ok, range);
    AgreeTransitive(m, m1, Serve(m, disk, r).m, range);
  }

  /** A read fills the data buffers, in chain order, with the disk bytes from the sector on, and reports success. */
  lemma ReadFills(m: Bytes, disk: Bytes, r: Request)
    requires r.Servable(|m|, |disk|) && r.kind == VIRTIO_BLK_T_IN && r.Disjoint()
    ensures var o := Serve(m, disk, r);
      && o.Done? && o.disk == disk && o.len == r.Reported()
      && Gather(o.m, r.data) == Slice(disk, r.Extent())
      && o.m[r.status.addr] == VIRTIO_BLK_S_OK
  {
    var m1, m2 := Scatter(m, r.data, Slice(disk, r.Extent())), Serve(m, disk, r).m;
    GatherScatter(m, r.data, Slice(disk, r.Extent()));
    forall i | 0 <= i < |r.data|
      ensures Agree(m1, m2, r.data[i])
    {
      assert r.data[i].Apart(r.status);
      SpliceAgree(m1, r.status.addr, [VIRTIO_BLK_S_OK], r.data[i]);
    }
    GatherFrame(m1, m2, r.data);
  }

  /** A write stores the gathered data buffers from the sector on and touches no other disk byte. */
  lemma WriteStores(m: Bytes, disk: Bytes, r: Request)
    requires r.Servable(|m|, |disk|) && r.kind == VIRTIO_BLK_T_OUT
    ensures var o := Serve(m, disk, r);
      && o.Done? && o.len == r.Reported() && o.m[r.status.addr] == VIRTIO_BLK_S_OK
      && Slice(o.disk, r.Extent()) == Gather(m, r.data)
      && forall i :: 0 <= i < |disk| && !r.Extent().Contains(i) ==> o.disk[i] == disk[i]
  {
    hide Splice, Gather;
    var o := Serve(m, disk, r);
    SpliceHit(disk, r.Offset(), Gather(m, r.data));
    SpliceAt(m, r.status.addr, [VIRTIO_BLK_S_OK], r.status.addr);
    forall i | 0 <= i < |disk| && !r.Extent().Contains(i)
      ensures o.disk[i] == disk[i]
    {
      SpliceAt(disk, r.Offset(), Gather(m, r.data), i);
    }
  }

  // ---- one turn against the ring ----

  /**
   One turn is, on the ring, next() and then add_used() of the chain taken, with the status byte counted in; an
   unhandled request type is taken and never completed. The line rises exactly when the test against used_event holds.
   */
  lemma TurnOnRing(s: BlkState)
    requires s.Due() && s.OffRings()
    ensures var p', r := s.Turn().port, s.Current().value;
      && p'.Mapped() && p'.l == s.port.l && p'.ready == s.port.ready
      && match Serve(s.port.m, s.disk, r)
         case Dropped => p'.Ring() == s.port.Ring().Pop() && s.Turn().line == s.line
         case Done(_, _, _) =>
           && p'.Ring() == s.port.Ring().Pop().AddUsed(UsedElem(s.port.Head(), r.Reported()))
           && s.Turn().line == if p'.Ring().WantsInterrupt(p'.Ring().usedIdx) then s.line.Set(true) else s.line
  {
    hide RequestAt, RingOf, AddUsedBytes, Splice, Scatter, Gather;
    var r := s.Current().value;
    TakeOnRing(s.port);
    match Serve(s.port.m, s.disk, r)
    case Dropped =>
    case Done(m1, _, len) =>
      ServeFrame(s.port.m, s.disk, r, s.port.l.AvailRange());
      ServeFrame(s.port.m, s.disk, r, s.port.l.UsedRange());
      FinishOnRing(s.port, m1, len);
  }

  /** A turn changes guest memory only in the request's buffers and status byte and in the used ring. */
  lemma TurnFrame(s: BlkState, range: Range)
    requires s.Due() && range.Within(|s.port.m|)
    requires s.Current().value.Spares(range) && range.Apart(s.port.l.UsedRange())
    ensures Agree(s.port.m, s.Turn().port.m, range)
  {
    hide RequestAt, RingOf, AddUsedBytes;
    var r := s.Current().value;
    match Serve(s.port.m, s.disk, r)
    case Dropped =>
    case Done(m1, _, len) =>
      ServeFrame(s.port.m, s.disk, r, range);
      FinishAgree(s.port, m1, len, range);
  }

  /** The data buffers read back after a whole turn what serving put there: add_used() does not disturb them. */
  lemma TurnKeepsData(s: BlkState)
    requires s.Due() && s.Current().value.kind == VIRTIO_BLK_T_IN && s.OffRings()
    ensures var r := s.Current().value; Gather(s.Turn().port.m, r.data) == Gather(Serve(s.port.m, s.disk, r).m, r.data)
  {
    hide RequestAt, RingOf, Gather, Scatter, Splice, AddUsedBytes;
    var r := s.Current().value;
    var o := Serve(s.port.m, s.disk, r);
    forall i | 0 <= i < |r.data|
      ensures Agree(o.m, s.Turn().port.m, r.data[i])
    {
      AddUsedAgree(o.m, s.port.l, UsedElem(s.port.Head(), o.len), r.data[i]);
    }
    GatherFrame(o.m, s.Turn().port.m, r.data);
  }

  // ---- the disk over a history of requests ----

  /** The device takes these turns; between them the driver may change anything but the disk. */
  ghost predicate IsHistory(ss: seq<BlkState>) {
    && (forall k :: 0 <= k < |ss| ==> ss[k].Due())
    && (forall k :: 0 < k < |ss| ==> ss[k].disk == ss[k - 1].Turn().disk)
  }

  predicate Writes(s: BlkState, x: nat)
    requires s.Due()
  {
    s.Current().value.kind == VIRTIO_BLK_T_OUT && s.Current().value.Extent().Contains(x)
  }

  /** The byte at x according to the driver: what the last of the first n requests that covers x wrote there. */
  ghost function LastWritten(ss: seq<BlkState>, n: nat, x: nat): u8
    requires IsHistory(ss) && n < |ss| && x < |ss[0].disk|
    decreases n
  {
    if n == 0 then ss[0].disk[x]
    else if Writes(ss[n - 1], x) then
      var r := ss[n - 1].Current().value;
      Gather(ss[n - 1].port.m, r.data)[x - r.Offset()]
    else LastWritten(ss, n - 1, x)
  }

  /** The disk that one turn leaves. */
  function DiskAfterServing(m: Bytes, disk: Bytes, r: Request): (d: Bytes)
    requires r.Servable(|m|, |disk|)
    ensures |d| == |disk|
  {
    match Serve(m, disk, r)
    case Dropped => disk
    case Done(_, d, _) => d
  }

  lemma TurnsDisk(s: BlkState)
    requires s.Due()
    ensures s.Turn().disk == DiskAfterServing(s.port.m, s.disk, s.Current().value)
  {
    hide RequestAt, RingOf, Serve;
  }

  lemma ServedDisk(m: Bytes, disk: Bytes, r: Request, x: nat)
    requires r.Servable(|m|, |disk|) && x < |disk|
    ensures DiskAfterServing(m, disk, r)[x]
         == if r.kind == VIRTIO_BLK_T_OUT && r.Extent().Contains(x) then Gather(m, r.data)[x - r.Offset()] else disk[x]
  {
    hide Gather, Splice, Scatter;
    if r.kind == VIRTIO_BLK_T_OUT {
      SpliceAt(disk, r.Offset(), Gather(m, r.data), x);
    }
  }

  /** One turn writes exactly the bytes of an OUT request to the disk. */
  lemma TurnOnDisk(s: BlkState, x: nat)
    requires s.Due() && x < |s.disk|
    ensures |s.Turn().disk| == |s.disk|
    ensures var r := s.Current().value;
      s.Turn().disk[x] == if Writes(s, x) then Gather(s.port.m, r.data)[x - r.Offset()] else s.disk[x]
  {
    hide RequestAt, RingOf, Serve, BlkState.Turn, DiskAfterServing, Gather;
    TurnsDisk(s);
    ServedDisk(s.port.m, s.disk, s.Current().value, x);
  }

  lemma {:induction false} DiskHoldsLastWrite(ss: seq<BlkState>, n: nat, x: nat)
    requires IsHistory(ss) && n < |ss| && x < |ss[0].disk|
    ensures |ss[n].disk| == |ss[0].disk| && ss[n].disk[x] == LastWritten(ss, n, x)
    decreases n
  {
    hide BlkState.Turn, BlkState.Sound, BlkState.Current;
    if n > 0 {
      DiskHoldsLastWrite(ss, n - 1, x);
      TurnOnDisk(ss[n - 1], x);
    }
  }

  /** In any history of requests, every byte a read delivers is the byte most recently written there. */
  lemma ReadsSeeLastWrites(ss: seq<BlkState>, n: nat, j: nat)
    requires IsHistory(ss) && n < |ss|
    requires ss[n].OffRings() && ss[n].Current().value.Disjoint()
    requires ss[n].Current().value.kind == VIRTIO_BLK_T_IN && j < Total(ss[n].Current().value.data)
    ensures var r := ss[n].Current().value;
      && |ss[0].disk| == |ss[n].disk|
      && Gather(ss[n].Turn().port.m, r.data)[j] == LastWritten(ss, n, r.Offset() + j)
  {
    hide BlkState.Turn, RingOf, RequestAt, Gather, Request.Servable, LastWritten;
    ReadDelivers(ss[n], j);
    SameDiskSize(ss, n);
    DiskHoldsLastWrite(ss, n, ss[n].Current().value.Offset() + j);
  }

  lemma ReadDelivers(s: BlkState, j: nat)
    requires s.Due() && s.OffRings() && s.Current().value.Disjoint() && s.Current().value.kind == VIRTIO_BLK_T_IN
    requires j < Total(s.Current().value.data)
    ensures var r := s.Current().value;
      r.Offset() + j < |s.disk| && Gather(s.Turn().port.m, r.data)[j] == s.disk[r.Offset() + j]
  {
    hide BlkState.Turn, RequestAt, RingOf, Serve, Gather;
    var r := s.Current().value;
    ReadFills(s.port.m, s.disk, r);
    TurnKeepsData(s);
    assert Slice(s.disk, r.Extent())[j] == s.disk[r.Offset() + j];
  }

  lemma TurnKeepsDiskSize(s: BlkState)
    requires s.Due()
    ensures |s.Turn().disk| == |s.disk|
  {
  }

  lemma {:induction false} SameDiskSize(ss: seq<BlkState>, n: nat)
    requires IsHistory(ss) && n < |ss|
    ensures |ss[n].disk| == |ss[0].disk|
    decreases n
  {
    hide BlkState.Turn, BlkState.Sound, BlkState.Current;
    if n > 0 {
      SameDiskSize(ss, n - 1);
      TurnKeepsDiskSize(ss[n - 1]);
    }
  }

  /**
   A read after a write of the same sector and total length delivers the written bytes, however either chain splits
   them and whatever the driver did to guest memory in between; the rest of the disk is unchanged.
   */
  lemma WriteThenRead(w: BlkState, r: BlkState)
    requires w.Due() && r.Due() && r.disk == w.Turn().disk
    requires w.Current().value.kind == VIRTIO_BLK_T_OUT && r.Current().value.kind == VIRTIO_BLK_T_IN
    requires r.OffRings() && r.Current().value.Disjoint()
    requires w.Current().value.Extent() == r.Current().value.Extent()
    ensures Gather(r.Turn().port.m, r.Current().value.data) == Gather(w.port.m, w.Current().value.data)
    ensures forall i :: 0 <= i < |w.disk| && !w.Current().value.Extent().Contains(i) ==> r.Turn().disk[i] == w.disk[i]
  {
    WriteStores(w.port.m, w.disk, w.Current().value);
    ReadFills(r.port.m, r.disk, r.Current().value);
    TurnKeepsData(r);
  }

  // ---- the two transfer loops ----

  /**
   The read loop has filled the buffers before `last` and will fill those of `rest`: scattering the rest of the file
   range into the current memory gives what scattering all of it into the initial memory gives.
   */
  ghost predicate Reading(m0: Bytes, m: Bytes, desc: nat, path: seq<nat>, data: Bytes, last: nat, rest: seq<nat>,
                          left: Bytes)
  {
    && |m| == |m0|
    && path != [] && Walkable(m0, desc, path[0], path) && Walkable(m0, desc, last, rest)
    && Agree(m0, m, Range(desc, DESC_SIZE * QUEUE_SIZE_MAX))
    && ApartFrom(DataOf(TableOf(m0, desc), rest), Range(desc, DESC_SIZE * QUEUE_SIZE_MAX))
    && rest[|rest| - 1] == path[|path| - 1]
    && var t := TableOf(m0, desc);
    && |data| == Total(DataOf(t, path)) && |left| == Total(DataOf(t, rest))
    && Scatter(m, DataOf(t, rest), left) == Scatter(m0, DataOf(t, path), data)
  }

  lemma ReadStart(m: Bytes, desc: nat, first: nat, path: seq<nat>, data: Bytes)
    requires path != [] && Walkable(m, desc, first, path) && |data| == Total(DataOf(TableOf(m, desc), path))
    requires ApartFrom(DataOf(TableOf(m, desc), path), Range(desc, DESC_SIZE * QUEUE_SIZE_MAX))
    ensures first < QUEUE_SIZE_MAX && Reading(m, m, desc, path, data, first, path, data)
  {
  }

  /** The first buffer of a chain and the rest of it. */
  lemma FirstBuffer(m: Bytes, b: Range, tail: seq<Range>, table: Range, left: Bytes)
    requires AllWithin([b] + tail, |m|) && ApartFrom([b] + tail, table) && |left| == Total([b] + tail)
    ensures b.Within(|m|) && b.Apart(table) && AllWithin(tail, |m|) && ApartFrom(tail, table)
    ensures b.len <= |left| && |left[b.len..]| == Total(tail)
    ensures Scatter(m, [b] + tail, left) == Scatter(Splice(m, b.addr, left[..b.len]), tail, left[b.len..])
  {
    hide Splice;
    var bufs := [b] + tail;
    assert bufs[0] == b && bufs[1..] == tail;
    forall i | 0 <= i < |tail|
      ensures tail[i].Within(|m|) && tail[i].Apart(table)
    {
      assert bufs[i + 1] == tail[i];
    }
  }

  lemma SameDesc(m0: Bytes, m: Bytes, desc: nat, i: nat)
    requires desc + DESC_SIZE * QUEUE_SIZE_MAX <= |m0| && Agree(m0, m, Range(desc, DESC_SIZE * QUEUE_SIZE_MAX))
    requires i < QUEUE_SIZE_MAX
    ensures DescAt(m, desc, i) == DescAt(m0, desc, i) == TableOf(m0, desc)[i]
  {
    hide TableOf, DescAt;
    TableFrame(m0, m, desc);
    TableAt(m, desc, i);
    TableAt(m0, desc, i);
  }

  lemma ReadMore(m0: Bytes, m: Bytes, desc: nat, path: seq<nat>, data: Bytes, last: nat, rest: seq<nat>, left: Bytes)
    requires Reading(m0, m, desc, path, data, last, rest, left) && last < QUEUE_SIZE_MAX && rest != []
    requires TableOf(m0, desc)[last].HasNext()
    ensures var d := TableOf(m0, desc)[last];
      && d.next < QUEUE_SIZE_MAX && d.len <= |left| && d.addr + d.len <= |m|
      && Reading(m0, Splice(m, d.addr, left[..d.len]), desc, path, data, d.next, rest[1..], left[d.len..])
  {
    hide TableOf, Splice, Scatter, IsChain, DataOf, AllWithin, ApartFrom, Total;
    var t, table := TableOf(m0, desc), Range(desc, DESC_SIZE * QUEUE_SIZE_MAX);
    var d := t[last];
    DataOfStep(t, last, rest);
    FirstBuffer(m, d.Buffer(), DataOf(t, rest[1..]), table, left);
    SpliceAgree(m, d.addr, left[..d.len], table);
    AgreeTransitive(m0, m, Splice(m, d.addr, left[..d.len]), table);
  }

  lemma ReadEnd(m0: Bytes, m: Bytes, desc: nat, path: seq<nat>, data: Bytes, last: nat, rest: seq<nat>, left: Bytes)
    requires Reading(m0, m, desc, path, data, last, rest, left) && last < QUEUE_SIZE_MAX
    requires !TableOf(m0, desc)[last].HasNext()
    ensures path != [] && Walkable(m0, desc, path[0], path) && |data| == Total(DataOf(TableOf(m0, desc), path))
    ensures m == Scatter(m0, DataOf(TableOf(m0, desc), path), data) && left == [] && last == path[|path| - 1]
  {
    hide TableOf, IsChain, DataOf, AllWithin, ApartFrom;
    DataOfStep(TableOf(m0, desc), last, rest);
    ScatterStep(m, [], left);
  }

  lemma ReadHere(m0: Bytes, m: Bytes, desc: nat, path: seq<nat>, data: Bytes, last: nat, rest: seq<nat>, left: Bytes)
    requires Reading(m0, m, desc, path, data, last, rest, left)
    ensures path != [] && |m| == |m0| && desc + DESC_SIZE * QUEUE_SIZE_MAX <= |m| && last < QUEUE_SIZE_MAX && rest != []
    ensures DescAt(m, desc, last) == DescAt(m0, desc, last) == TableOf(m0, desc)[last]
  {
    hide TableOf, DescAt, DataOf, IsChain, AllWithin, ApartFrom, Scatter, Total;
    DataOfStep(TableOf(m0, desc), last, rest);
    SameDesc(m0, m, desc, last);
  }

  /** One turn of the loop: store into the buffer and go on, or stop with everything stored. */
  lemma ReadStep(m0: Bytes, m: Bytes, desc: nat, path: seq<nat>, data: Bytes, last: nat, rest: seq<nat>, left: Bytes)
    requires Reading(m0, m, desc, path, data, last, rest, left)
    ensures path != [] && |m| == |m0| && desc + DESC_SIZE * QUEUE_SIZE_MAX <= |m| && last < QUEUE_SIZE_MAX && rest != []
    ensures var d := DescAt(m, desc, last);
      if d.HasNext() then
        && d.next < QUEUE_SIZE_MAX && d.len <= |left| && d.addr + d.len <= |m|
        && Reading(m0, Splice(m, d.addr, left[..d.len]), desc, path, data, d.next, rest[1..], left[d.len..])
      else
        && Walkable(m0, desc, path[0], path) && |data| == Total(DataOf(TableOf(m0, desc), path))
        && m == Scatter(m0, DataOf(TableOf(m0, desc), path), data)
        && left == [] && last == path[|path| - 1] && d == DescAt(m0, desc, last)
  {
    hide Reading, TableOf, DescAt, Splice, Scatter, DataOf, Walkable;
    ReadHere(m0, m, desc, path, data, last, rest, left);
    if DescAt(m, desc, last).HasNext() {
      ReadMore(m0, m, desc, path, data, last, rest, left);
    } else {
      ReadEnd(m0, m, desc, path, data, last, rest, left);
    }
  }

  // ---- the device object ----

  class Device {
    const queue: Queue
    const irq: Interrupt
    const file: array<u8>

    constructor (queue: Queue, irq: Interrupt, file: array<u8>)
      ensures this.queue == queue && this.irq == irq && this.file == file
    {
      this.queue, this.irq, this.file := queue, irq, file;
    }

    ghost function State(): BlkState
      reads queue, queue.mem, irq, file
    {
      BlkState(queue.Now(), file[..], irq.Now())
    }

    function DescOf(i: nat): Desc
      reads queue, queue.mem
      requires queue.descAddr + DESC_SIZE * QUEUE_SIZE_MAX <= queue.mem.Length && i < QUEUE_SIZE_MAX
      ensures DescOf(i) == TableOf(queue.mem[..], queue.descAddr)[i]
    {
      DescAt(queue.mem[..], queue.descAddr, i)
    }

    /** The loop of VIRTIO_BLK_T_IN: fills the data buffers from the file and stops at the status descriptor. */
    method ReadChain(first: nat, offset: nat, ghost path: seq<nat>) returns (len: u32, last: nat)
      requires queue.mem != file && path != [] && Walkable(queue.mem[..], queue.descAddr, first, path)
      requires offset + Total(DataOf(TableOf(queue.mem[..], queue.descAddr), path)) <= file.Length
      requires ApartFrom(DataOf(TableOf(queue.mem[..], queue.descAddr), path), queue.Where().DescRange())
      modifies queue.mem
      ensures var data := DataOf(TableOf(old(queue.mem[..]), queue.descAddr), path);
        && queue.mem[..] == Scatter(old(queue.mem[..]), data, file[offset..offset + Total(data)])
        && len == Wrap32(Total(data))
      ensures last == path[|path| - 1] < QUEUE_SIZE_MAX
      ensures DescOf(last) == old(DescOf(path[|path| - 1]))
    {
      hide Reading, Splice, Scatter, DataOf, DescAt, TableOf, LeValue;
      ghost var m0, rest := queue.mem[..], path;
      ghost var end := offset + Total(DataOf(TableOf(m0, queue.descAddr), path));
      ghost var data := file[offset..end];
      last, len := first, 0;
      var pos := offset;
      ReadStart(m0, queue.descAddr, first, path, data);
      while DescOf(last).HasNext()
        invariant last < QUEUE_SIZE_MAX && offset <= pos <= end && len == Wrap32(pos - offset)
        invariant Reading(m0, queue.mem[..], queue.descAddr, path, data, last, rest, file[pos..end])
        decreases |rest|
      {
        var d := DescOf(last);
        ReadStep(m0, queue.mem[..], queue.descAddr, path, data, last, rest, file[pos..end]);
        assert file[pos..end][..d.len] == file[pos..pos + d.len] && file[pos..end][d.len..] == file[pos + d.len..end];
        CopyIn(queue.mem, d.addr, file[pos..pos + d.len]);
        AddWraps(pos - offset, d.len);
        len := Wrap32(len + d.len);
        pos := pos + d.len;
        last := d.next;
        rest := rest[1..];
      }
      ReadStep(m0, queue.mem[..], queue.descAddr, path, data, last, rest, file[pos..end]);
    }

    /** The loop of VIRTIO_BLK_T_OUT: stores the data buffers in the file and stops at the status descriptor. */
    method WriteChain(first: nat, offset: nat, ghost path: seq<nat>) returns (len: u32, last: nat)
      requires queue.mem != file && path != [] && Walkable(queue.mem[..], queue.descAddr, first, path)
      requires offset + Total(DataOf(TableOf(queue.mem[..], queue.descAddr), path)) <= file.Length
      modifies file
      ensures var data := DataOf(TableOf(queue.mem[..], queue.descAddr), path);
        && file[..] == Splice(old(file[..]), offset, Gather(queue.mem[..], data))
        && len == Wrap32(Total(data))
      ensures last == path[|path| - 1] < QUEUE_SIZE_MAX
    {
      hide Gathering, Splice, Gather, DataOf, DescAt, TableOf, LeValue;
      ghost var m, f0, rest, got := queue.mem[..], file[..], path, [];
      last, len := first, 0;
      var pos := offset;
      GatherStart(m, queue.descAddr, first, path);
      SpliceNothing(f0, offset);
      while DescOf(last).HasNext()
        invariant last < QUEUE_SIZE_MAX && pos == offset + |got| <= file.Length && len == Wrap32(|got|)
        invariant queue.mem[..] == m && Gathering(m, queue.descAddr, path, last, rest, got)
        invariant file[..] == Splice(f0, offset, got)
        decreases |rest|
      {
        var d := DescOf(last);
        GatherWalk(m, queue.descAddr, path, last, rest, got);
        var bytes := CopyOut(queue.mem, d.Buffer());
        CopyIn(file, pos, bytes);
        SpliceJoin(f0, offset, got, pos, bytes);
        AddWraps(|got|, d.len);
        len := Wrap32(len + d.len);
        pos := pos + d.len;
        last := d.next;
        rest, got := rest[1..], got + bytes;
      }
      GatherWalk(m, queue.descAddr, path, last, rest, got);
    }

    /** VIRTIO_BLK_T_GET_ID: copies the identifier into one buffer and goes on to the status descriptor. */
    method CopyId(first: nat) returns (len: u32, last: nat)
      requires queue.Where().DescRange().Within(queue.mem.Length)
      requires first < QUEUE_SIZE_MAX && DescOf(first).next < QUEUE_SIZE_MAX
      requires var b := DescOf(first).Buffer();
        b.Within(queue.mem.Length) && b.len <= |DISK_ID| && b.Apart(queue.Where().DescRange())
      modifies queue.mem
      ensures var d := old(DescOf(first));
        && queue.mem[..] == Splice(old(queue.mem[..]), d.addr, DISK_ID[..d.len])
        && len == d.len && last == d.next && DescOf(last) == old(DescOf(last))
    {
      hide Splice, DescAt, TableOf, LeValue;
      ghost var m0 := queue.mem[..];
      var d := DescOf(first);
      CopyIn(queue.mem, d.addr, DISK_ID[..d.len]);
      SpliceAgree(m0, d.addr, DISK_ID[..d.len], queue.Where().DescRange());
      TableFrame(m0, queue.mem[..], queue.descAddr);
      len, last := d.len, d.next;
    }

    /** The switch of the service loop, for the request whose chain starts at `head`. */
    method ServeHead(head: nat) returns (handled: bool, len: u32)
      requires queue.Usable() && queue.mem != file
      requires RequestAt(queue.mem[..], queue.descAddr, head).Some?
      requires var r := RequestAt(queue.mem[..], queue.descAddr, head).value;
        r.Servable(queue.mem.Length, file.Length) && r.Spares(queue.Where().DescRange())
      modifies queue.mem, file
      ensures var r := RequestAt(old(queue.mem[..]), queue.descAddr, head).value;
        match Serve(old(queue.mem[..]), old(file[..]), r)
        case Dropped => !handled && queue.mem[..] == old(queue.mem[..]) && file[..] == old(file[..])
        case Done(m, disk, l) => handled && queue.mem[..] == m && file[..] == disk && len == l
    {
      hide TableOf, DescAt, LeValue, U32At, U64At, Splice, Scatter, Gather, IsChain, DataOf, ChainFrom, RequestAt;
      hide Wrap32;
      ghost var m0, desc := queue.mem[..], queue.descAddr;
      RequestParts(m0, desc, head);
      ghost var r := RequestAt(m0, desc, head).value;
      ghost var path := if r.Transfers() then ChainFrom(TableOf(m0, desc), DescAt(m0, desc, head).next).value else [];
      var first := DescOf(head);
      var kind := Load32(queue.mem, first.addr);
      var last: nat;
      if kind == VIRTIO_BLK_T_IN {
        var sector := Load64(queue.mem, first.addr + 8);
        len, last := ReadChain(first.next, sector * SECTOR_SIZE % TWO_TO_THE_64, path);
      } else if kind == VIRTIO_BLK_T_OUT {
        var sector := Load64(queue.mem, first.addr + 8);
        len, last := WriteChain(first.next, sector * SECTOR_SIZE % TWO_TO_THE_64, path);
      } else if kind == VIRTIO_BLK_T_GET_ID {
        len, last := CopyId(first.next);
      } else {
        return false, 0;
      }
      AddWraps(Total(r.data), 1);
      CopyIn(queue.mem, DescOf(last).addr, [VIRTIO_BLK_S_OK]);
      return true, Wrap32(len + 1);
    }

    /** One turn of the service loop. */
    method Turn()
      requires queue.mem != file && State().Sound()
      modifies queue`lastAvail, queue.mem, file, irq
      ensures State() == old(State()).Turn()
    {
      hide RingOf, AddUsedBytes, RequestAt, Serve, LeValue;
      ghost var s := State();
      var head := queue.Next();
      if s.port.ready {
        RingFields(s.port.m, s.port.l, s.port.lastAvail, s.port.ready);
        RingFields(s.port.m, s.port.l, queue.lastAvail, s.port.ready);
        assert queue.Now() == s.port.Take() || head.None?;
      }
      if head.None? {
        return;
      }
      var start := queue.AvailId();
      var handled, len := ServeHead(head.value);
      if !handled {
        return;
      }
      var idx := queue.AddUsed(start, len);
      RingFields(queue.mem[..], s.port.l, queue.lastAvail, s.port.ready);
      if (idx as int) - 1 == Load16(queue.mem, AvailSlot(queue.availAddr, QUEUE_SIZE_MAX)) {
        irq.SetLevel(true);
      }
    }
  }
}
