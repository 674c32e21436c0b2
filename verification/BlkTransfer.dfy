/**
 Serving one block request access by access, as the service loop of src/kvm/virtio/blk.h does: the header is read, then
 each descriptor and its buffer, then the status byte is written. Others may use memory between any two of these.
 */
module BlkTransfer {
  import opened Words
  import opened GuestMemory
  import opened Rings
  import opened Queues
  import opened Chains
  import opened Drivers
  import opened Blk
  import opened BlkRequests

  /** What the service loop holds in its variables: request type, descriptor, file position, length so far. */
  datatype Job =
    | Unread
    | Moving(kind: u32, cur: nat, pos: nat, len: u32)
    | Finishing(cur: nat, len: u32)
    | Moved(len: u32)

  /** The two memories the device works on. */
  datatype Store = Store(m: Bytes, disk: Bytes)

  // ---- one access ----

  predicate CanAdvance(s: Store, desc: nat, head: nat, job: Job)
    requires desc + DESC_SIZE * QUEUE_SIZE_MAX <= |s.m|
  {
    match job
    case Unread =>
      && head < QUEUE_SIZE_MAX
      && var a := DescAt(s.m, desc, head).addr;
      && a + HEADER_SIZE <= |s.m|
      && U32At(s.m, a) in {VIRTIO_BLK_T_IN, VIRTIO_BLK_T_OUT, VIRTIO_BLK_T_GET_ID}
    case Moving(kind, cur, pos, _) =>
      && cur < QUEUE_SIZE_MAX
      && var d := DescAt(s.m, desc, cur);
      if kind == VIRTIO_BLK_T_GET_ID then d.Buffer().Within(|s.m|) && d.len <= |DISK_ID|
      else if d.HasNext() then d.Buffer().Within(|s.m|) && pos + d.len <= |s.disk|
      else d.addr < |s.m|
    case Finishing(cur, _) => cur < QUEUE_SIZE_MAX && DescAt(s.m, desc, cur).addr < |s.m|
    case Moved(_) => false
  }

  /** One access of the device: what it stores, and where it goes on. */
  function Advance(s: Store, desc: nat, head: nat, job: Job): (r: (Store, Job))
    requires desc + DESC_SIZE * QUEUE_SIZE_MAX <= |s.m| && CanAdvance(s, desc, head, job)
    ensures |r.0.m| == |s.m| && |r.0.disk| == |s.disk|
  {
    match job
    case Unread =>
      var d := DescAt(s.m, desc, head);
      var kind, sector := U32At(s.m, d.addr), U64At(s.m, d.addr + 8);
      (s, Moving(kind, d.next, if kind == VIRTIO_BLK_T_GET_ID then 0 else sector * SECTOR_SIZE % TWO_TO_THE_64, 0))
    case Moving(kind, cur, pos, len) =>
      var d := DescAt(s.m, desc, cur);
      if kind == VIRTIO_BLK_T_GET_ID then (s.(m := Splice(s.m, d.addr, DISK_ID[..d.len])), Finishing(d.next, d.len))
      else if d.HasNext() then
        var s' := if kind == VIRTIO_BLK_T_IN then s.(m := Splice(s.m, d.addr, s.disk[pos..pos + d.len]))
                  else s.(disk := Splice(s.disk, pos, Slice(s.m, d.Buffer())));
        (s', Moving(kind, d.next, pos + d.len, Wrap32(len + d.len)))
      else (WriteStatus(s, d), Moved(Wrap32(len as nat + 1)))
    case Finishing(cur, len) => (WriteStatus(s, DescAt(s.m, desc, cur)), Moved(Wrap32(len as nat + 1)))
  }

  function WriteStatus(s: Store, d: Desc): (s': Store)
    requires d.addr < |s.m|
    ensures |s'.m| == |s.m| && s'.disk == s.disk
  {
    s.(m := Splice(s.m, d.addr, [VIRTIO_BLK_S_OK]))
  }

  // ---- how far a request has been served ----

  /** The first i buffers of the request were moved; `before` is the disk when it was taken up. */
  ghost predicate MovedSoFar(s: Store, desc: nat, o: Order, payload: Bytes, before: Bytes, job: Job, i: nat) {
    && job.Moving? && o.Encodable() && Laid(s.m, desc, o.Descs(), o.slots) && AllWithin(o.r.data, |s.m|)
    && i <= |o.r.data| && job.kind == o.r.kind && job.cur == o.slots[i + 1] && job.len == Wrap32(Total(o.r.data[..i]))
    && |s.disk| == |before| && (o.r.Transfers() ==> job.pos == o.r.Offset() + Total(o.r.data[..i]) <= |before|)
    && (o.r.kind == VIRTIO_BLK_T_IN ==>
          s.disk == before && Gather(s.m, o.r.data[..i]) == before[o.r.Offset()..job.pos])
    && (o.r.kind == VIRTIO_BLK_T_OUT ==>
          && Gather(s.m, o.r.data) == payload && Total(o.r.data[..i]) <= |payload|
          && s.disk == Splice(before, o.r.Offset(), payload[..Total(o.r.data[..i])]))
    && (o.r.kind == VIRTIO_BLK_T_GET_ID ==> i == 0 && s.disk == before)
  }

  /** The request is answered: status OK, the data delivered. */
  ghost predicate AnsweredFrom(m: Bytes, o: Order, before: Bytes) {
    var r := o.r;
    && r.Servable(|m|, |before|) && r.Handled()
    && m[r.status.addr] == VIRTIO_BLK_S_OK
    && (r.kind == VIRTIO_BLK_T_IN ==> Gather(m, r.data) == Slice(before, r.Extent()))
    && (r.kind == VIRTIO_BLK_T_GET_ID ==> Gather(m, r.data) == DISK_ID[..r.data[0].len])
  }

  /** The disk that a request leaves. */
  function DiskWith(before: Bytes, o: Order, payload: Bytes): (d: Bytes)
    ensures |d| == |before|
  {
    if o.r.kind == VIRTIO_BLK_T_OUT && o.r.Offset() + |payload| <= |before|
    then Splice(before, o.r.Offset(), payload) else before
  }

  ghost predicate InProgress(s: Store, desc: nat, o: Order, payload: Bytes, before: Bytes, job: Job) {
    match job
    case Unread => false
    case Moving(_, _, _, _) => exists i: nat :: MovedSoFar(s, desc, o, payload, before, job, i)
    case Finishing(cur, len) =>
      && o.Encodable() && Laid(s.m, desc, o.Descs(), o.slots) && AllWithin(o.r.data, |s.m|)
      && o.r.kind == VIRTIO_BLK_T_GET_ID && o.r.data[0].len <= |DISK_ID|
      && cur == o.slots[2] && len == Wrap32(Total(o.r.data))
      && Gather(s.m, o.r.data) == DISK_ID[..o.r.data[0].len] && s.disk == before
    case Moved(len) =>
      AnsweredFrom(s.m, o, before) && s.disk == DiskWith(before, o, payload) && len == o.r.Reported()
  }

  // ---- sums over prefixes ----

  lemma {:induction false} TotalConcat(x: seq<Range>, y: seq<Range>)
    ensures Total(x + y) == Total(x) + Total(y)
    decreases |x|
  {
    if x == [] {
      assert x + y == y;
    } else {
      assert (x + y)[1..] == x[1..] + y;
      TotalConcat(x[1..], y);
    }
  }

  lemma {:induction false} GatherConcat(m: Bytes, x: seq<Range>, y: seq<Range>)
    requires AllWithin(x, |m|) && AllWithin(y, |m|)
    ensures AllWithin(x + y, |m|) && Gather(m, x + y) == Gather(m, x) + Gather(m, y)
    decreases |x|
  {
    hide Slice;
    if x == [] {
      assert x + y == y;
    } else {
      assert (x + y)[1..] == x[1..] + y && (x + y)[0] == x[0];
      GatherConcat(m, x[1..], y);
    }
  }

  lemma OneBuffer(m: Bytes, b: Range)
    requires b.Within(|m|)
    ensures AllWithin([b], |m|) && Total([b]) == b.len && Gather(m, [b]) == Slice(m, b)
  {
    assert [b][1..] == [];
    assert Total([]) == 0;
  }

  lemma PartWithin(bufs: seq<Range>, a: nat, b: nat, size: nat)
    requires AllWithin(bufs, size) && a <= b <= |bufs|
    ensures AllWithin(bufs[a..b], size)
  {
  }

  lemma TakeOneMore<T>(xs: seq<T>, i: nat)
    requires i < |xs|
    ensures xs[..i + 1] == xs[..i] + [xs[i]] && xs == xs[..i + 1] + xs[i + 1..]
  {
  }

  lemma ConcatBuffer(m: Bytes, x: seq<Range>, b: Range, y: seq<Range>)
    requires AllWithin(x, |m|) && b.Within(|m|) && AllWithin(y, |m|)
    ensures AllWithin(x + [b], |m|) && AllWithin(x + [b] + y, |m|)
    ensures Total(x + [b]) == Total(x) + b.len <= Total(x + [b] + y)
    ensures Gather(m, x + [b]) == Gather(m, x) + Slice(m, b) <= Gather(m, x + [b] + y)
  {
    hide Gather, Total, Slice, AllWithin;
    OneBuffer(m, b);
    TotalConcat(x, [b]);
    TotalConcat(x + [b], y);
    GatherConcat(m, x, [b]);
    GatherConcat(m, x + [b], y);
  }

  /** One buffer more. */
  lemma NextBuffer(m: Bytes, bufs: seq<Range>, i: nat)
    requires AllWithin(bufs, |m|) && i < |bufs|
    ensures AllWithin(bufs[..i], |m|) && AllWithin(bufs[..i + 1], |m|) && bufs[i].Within(|m|)
    ensures Total(bufs[..i + 1]) == Total(bufs[..i]) + bufs[i].len <= Total(bufs)
    ensures Gather(m, bufs[..i + 1]) == Gather(m, bufs[..i]) + Slice(m, bufs[i]) <= Gather(m, bufs)
  {
    assert AllWithin(bufs[..i], |m|) && AllWithin(bufs[i + 1..], |m|) && bufs[i].Within(|m|);
    hide Gather, Total, Slice, AllWithin;
    TakeOneMore(bufs, i);
    ConcatBuffer(m, bufs[..i], bufs[i], bufs[i + 1..]);
  }

  lemma {:induction false} PairApart(bufs: seq<Range>, i: nat, j: nat)
    requires PairwiseApart(bufs) && i < j < |bufs|
    ensures bufs[i].Apart(bufs[j])
    decreases i
  {
    if i == 0 {
      assert bufs[1..][j - 1].Apart(bufs[0]);
    } else {
      PairApart(bufs[1..], i - 1, j - 1);
    }
  }

  // ---- what one access leaves alone ----

  /** The device writes only what a request may be written to. */
  lemma AdvanceFrame(s: Store, desc: nat, head: nat, job: Job, o: Order, payload: Bytes, before: Bytes, range: Range)
    requires desc + DESC_SIZE * QUEUE_SIZE_MAX <= |s.m| && CanAdvance(s, desc, head, job)
    requires job.Unread? || InProgress(s, desc, o, payload, before, job)
    requires o.r.Spares(range) && o.r.status.len == 1
    ensures Agree(s.m, Advance(s, desc, head, job).0.m, range)
  {
    match job
    case Unread =>
    case Moving(kind, cur, pos, len) =>
      var i: nat :| MovedSoFar(s, desc, o, payload, before, job, i);
      MovingFrame(s, desc, head, job, o, payload, before, range, i);
    case Finishing(cur, len) =>
      StatusDesc(s.m, desc, o);
      SpliceAgree(s.m, o.r.status.addr, [VIRTIO_BLK_S_OK], range);
    case Moved(_) =>
  }

  lemma BufferDesc(m: Bytes, desc: nat, o: Order, i: nat)
    requires o.Encodable() && Laid(m, desc, o.Descs(), o.slots) && i < |o.r.data|
    ensures o.slots[i + 1] < QUEUE_SIZE_MAX
    ensures var d := DescAt(m, desc, o.slots[i + 1]);
      d.Buffer() == o.r.data[i] && d.HasNext() && d.next == o.slots[i + 2]
  {
    hide DescAt;
    assert o.Descs()[i + 1] == o.DescOf(i + 1);
    DataDesc(o, i);
  }

  lemma DataDesc(o: Order, i: nat)
    requires o.Encodable() && i < |o.r.data|
    ensures var d := o.DescOf(i + 1); d.Buffer() == o.r.data[i] && d.HasNext() && d.next == o.slots[i + 2]
  {
  }

  lemma StatusDesc(m: Bytes, desc: nat, o: Order)
    requires o.Encodable() && Laid(m, desc, o.Descs(), o.slots)
    ensures desc + DESC_SIZE * QUEUE_SIZE_MAX <= |m|
    ensures var n := |o.r.data|;
      && o.slots[n + 1] < QUEUE_SIZE_MAX && !DescAt(m, desc, o.slots[n + 1]).HasNext()
      && DescAt(m, desc, o.slots[n + 1]).addr == o.r.status.addr
  {
    assert o.Descs()[|o.r.data| + 1] == o.DescOf(|o.r.data| + 1);
  }

  lemma MovingFrame(s: Store, desc: nat, head: nat, job: Job, o: Order, payload: Bytes, before: Bytes, range: Range,
                    i: nat)
    requires desc + DESC_SIZE * QUEUE_SIZE_MAX <= |s.m| && CanAdvance(s, desc, head, job)
    requires MovedSoFar(s, desc, o, payload, before, job, i) && o.r.Spares(range) && o.r.status.len == 1
    ensures Agree(s.m, Advance(s, desc, head, job).0.m, range)
  {
    hide Laid, Gather, Splice, Order.Encodable, Order.Descs, DescAt, Total, Wrap32, Request.Offset;
    OneForId(o);
    if i < |o.r.data| {
      BufferDesc(s.m, desc, o, i);
      var b := o.r.data[i];
      if o.r.kind != VIRTIO_BLK_T_OUT {
        assert b.Apart(range);
        var bs := if o.r.kind == VIRTIO_BLK_T_IN then s.disk[job.pos..job.pos + b.len] else DISK_ID[..b.len];
        SpliceAgree(s.m, b.addr, bs, range);
      }
    } else {
      StatusDesc(s.m, desc, o);
      SpliceAgree(s.m, o.r.status.addr, [VIRTIO_BLK_S_OK], range);
    }
  }

  lemma OneForId(o: Order)
    requires o.Encodable()
    ensures o.r.kind == VIRTIO_BLK_T_GET_ID ==> |o.r.data| == 1
    ensures o.r.Handled() && o.slots != []
  {
  }

  // ---- every access brings the request forward ----

  lemma TakesHeader(s: Store, desc: nat, o: Order, payload: Bytes)
    requires Written(s.m, desc, o) && AllWithin(o.r.data, |s.m|) && o.r.Servable(|s.m|, |s.disk|)
    requires o.r.kind == VIRTIO_BLK_T_OUT ==> Gather(s.m, o.r.data) == payload
    ensures desc + DESC_SIZE * QUEUE_SIZE_MAX <= |s.m| && o.slots != [] && CanAdvance(s, desc, o.slots[0], Unread)
    ensures var (s', job) := Advance(s, desc, o.slots[0], Unread);
      s' == s && MovedSoFar(s, desc, o, payload, s.disk, job, 0)
  {
    hide Gather, U32At, U64At, DescAt, Splice;
    OneForId(o);
    assert o.Descs()[0] == o.DescOf(0);
    assert o.r.data[..0] == [];
    NothingMoved(s, o);
  }

  lemma NothingMoved(s: Store, o: Order)
    ensures Total([]) == 0 && Wrap32(0) == 0 && Gather(s.m, []) == []
    ensures forall a: nat {:trigger Splice(s.disk, a, [])} :: a <= |s.disk| ==> Splice(s.disk, a, []) == s.disk
  {
    forall a: nat | a <= |s.disk|
      ensures Splice(s.disk, a, []) == s.disk
    {
      SpliceNothing(s.disk, a);
    }
  }

  /** What the access to the i-th buffer of a transfer does. */
  lemma AccessesBuffer(s: Store, desc: nat, o: Order, payload: Bytes, before: Bytes, job: Job, i: nat, head: nat)
    requires MovedSoFar(s, desc, o, payload, before, job, i) && i < |o.r.data| && o.r.Transfers()
    requires o.r.Servable(|s.m|, |before|)
    ensures CanAdvance(s, desc, head, job)
    ensures var b := o.r.data[i];
      && b.Within(|s.m|) && job.pos + b.len <= |s.disk|
      && Advance(s, desc, head, job)
         == (if o.r.kind == VIRTIO_BLK_T_IN then s.(m := Splice(s.m, b.addr, s.disk[job.pos..job.pos + b.len]))
             else s.(disk := Splice(s.disk, job.pos, Slice(s.m, b))),
             Moving(o.r.kind, o.slots[i + 2], job.pos + b.len, Wrap32(Total(o.r.data[..i + 1]))))
  {
    hide Gather, Splice, DescAt, Total, Order.Encodable, Order.Descs, Wrap32, Laid, Slice, Request.Offset;
    BufferDesc(s.m, desc, o, i);
    NextBuffer(s.m, o.r.data, i);
    AddWraps(Total(o.r.data[..i]), o.r.data[i].len);
  }

  lemma LaidStays(m: Bytes, m': Bytes, desc: nat, o: Order)
    requires o.Encodable() && Laid(m, desc, o.Descs(), o.slots)
    requires Agree(m, m', Range(desc, DESC_SIZE * QUEUE_SIZE_MAX))
    ensures Laid(m', desc, o.Descs(), o.slots)
  {
    hide DescAt, Order.Descs, Order.Encodable;
    forall i | 0 <= i < |o.slots|
      ensures DescAt(m', desc, o.slots[i]) == DescAt(m, desc, o.slots[i])
    {
      DescFrame(m, m', desc, o.slots[i], Range(desc, DESC_SIZE * QUEUE_SIZE_MAX));
    }
  }

  /** Filling the i-th of disjoint buffers adds to what the ones before it hold. */
  lemma FillAdds(m: Bytes, bufs: seq<Range>, i: nat, piece: Bytes)
    requires AllWithin(bufs, |m|) && PairwiseApart(bufs) && i < |bufs| && |piece| == bufs[i].len
    ensures AllWithin(bufs[..i], |m|) && AllWithin(bufs[..i + 1], |m|) && bufs[i].Within(|m|)
    ensures Gather(Splice(m, bufs[i].addr, piece), bufs[..i + 1]) == Gather(m, bufs[..i]) + piece
  {
    NextBuffer(m, bufs, i);
    hide Gather, Splice, Slice;
    var b := bufs[i];
    var m' := Splice(m, b.addr, piece);
    forall j | 0 <= j < i
      ensures Agree(m, m', bufs[..i][j])
    {
      PairApart(bufs, j, i);
      SpliceAgree(m, b.addr, piece, bufs[j]);
    }
    GatherFrame(m, m', bufs[..i]);
    SliceOfSplice(m, b, piece);
    NextBuffer(m', bufs, i);
  }

  /** A buffer of a read is filled from the file. */
  lemma FillsBuffer(s: Store, desc: nat, o: Order, payload: Bytes, before: Bytes, job: Job, i: nat, head: nat)
    requires MovedSoFar(s, desc, o, payload, before, job, i) && i < |o.r.data| && o.r.kind == VIRTIO_BLK_T_IN
    requires o.r.Servable(|s.m|, |before|) && o.r.Disjoint()
    requires o.r.Spares(Range(desc, DESC_SIZE * QUEUE_SIZE_MAX))
    ensures CanAdvance(s, desc, head, job)
    ensures var (s', job') := Advance(s, desc, head, job);
      job'.Moving? && MovedSoFar(s', desc, o, payload, before, job', i + 1)
  {
    hide Gather, Splice, DescAt, Total, Order.Encodable, Order.Descs, Wrap32, CanAdvance, Advance, Laid, Slice;
    hide Request.Offset, PairwiseApart;
    AccessesBuffer(s, desc, o, payload, before, job, i, head);
    NextBuffer(s.m, o.r.data, i);
    var b := o.r.data[i];
    var piece := s.disk[job.pos..job.pos + b.len];
    assert b.Apart(Range(desc, DESC_SIZE * QUEUE_SIZE_MAX));
    SpliceAgree(s.m, b.addr, piece, Range(desc, DESC_SIZE * QUEUE_SIZE_MAX));
    LaidStays(s.m, Splice(s.m, b.addr, piece), desc, o);
    FillAdds(s.m, o.r.data, i, piece);
    assert before[o.r.Offset()..job.pos] + piece == before[o.r.Offset()..job.pos + b.len];
  }

  /** A buffer of a write is stored in the file. */
  lemma StoresBuffer(s: Store, desc: nat, o: Order, payload: Bytes, before: Bytes, job: Job, i: nat, head: nat)
    requires MovedSoFar(s, desc, o, payload, before, job, i) && i < |o.r.data| && o.r.kind == VIRTIO_BLK_T_OUT
    requires o.r.Servable(|s.m|, |before|)
    ensures CanAdvance(s, desc, head, job)
    ensures var (s', job') := Advance(s, desc, head, job);
      job'.Moving? && MovedSoFar(s', desc, o, payload, before, job', i + 1)
  {
    hide Gather, Splice, DescAt, Total, Order.Encodable, Order.Descs, Wrap32, CanAdvance, Advance, Laid, Slice;
    hide Request.Offset;
    AccessesBuffer(s, desc, o, payload, before, job, i, head);
    NextBuffer(s.m, o.r.data, i);
    PrefixSoFar(s.m, o.r.data, i);
    SpliceJoin(before, o.r.Offset(), payload[..Total(o.r.data[..i])], job.pos, Slice(s.m, o.r.data[i]));
  }

  /** What the first i buffers hold is the start of what all of them hold. */
  lemma PrefixSoFar(m: Bytes, bufs: seq<Range>, i: nat)
    requires AllWithin(bufs, |m|) && i < |bufs|
    ensures var all, n := Gather(m, bufs), Total(bufs[..i]);
      n + bufs[i].len <= |all| && all[..n] + Slice(m, bufs[i]) == all[..n + bufs[i].len]
  {
    NextBuffer(m, bufs, i);
    hide Gather, Slice, Total;
    var x, y, all := Gather(m, bufs[..i]), Slice(m, bufs[i]), Gather(m, bufs);
    assert x + y == all[..|x + y|];
  }

  /** Writing the status byte leaves the data as it was. */
  lemma StatusStored(m: Bytes, r: Request)
    requires AllWithin(r.data, |m|) && r.status.Within(|m|) && r.status.len == 1 && r.Disjoint()
    ensures var m' := Splice(m, r.status.addr, [VIRTIO_BLK_S_OK]);
      m'[r.status.addr] == VIRTIO_BLK_S_OK && Gather(m', r.data) == Gather(m, r.data)
  {
    hide Gather, Splice, PairwiseApart;
    var m' := Splice(m, r.status.addr, [VIRTIO_BLK_S_OK]);
    SpliceAt(m, r.status.addr, [VIRTIO_BLK_S_OK], r.status.addr);
    forall i | 0 <= i < |r.data|
      ensures Agree(m, m', r.data[i])
    {
      SpliceAgree(m, r.status.addr, [VIRTIO_BLK_S_OK], r.data[i]);
    }
    GatherFrame(m, m', r.data);
  }

  /** What the device relies on while it serves the order. */
  predicate Serveable(o: Order, memSize: nat, diskSize: nat, desc: nat) {
    && o.Encodable() && o.r.Servable(memSize, diskSize) && o.r.Disjoint()
    && o.r.Spares(Range(desc, DESC_SIZE * QUEUE_SIZE_MAX))
  }

  lemma EndsTransfer(s: Store, desc: nat, o: Order, payload: Bytes, before: Bytes, job: Job, head: nat)
    requires MovedSoFar(s, desc, o, payload, before, job, |o.r.data|) && o.r.Transfers()
    requires Serveable(o, |s.m|, |before|, desc)
    ensures CanAdvance(s, desc, head, job)
    ensures var (s', job') := Advance(s, desc, head, job); InProgress(s', desc, o, payload, before, job')
  {
    hide Gather, Splice, DescAt, Total, Order.Encodable, Order.Descs, Wrap32, Laid, Request.Offset;
    OneForId(o);
    StatusDesc(s.m, desc, o);
    StatusStored(s.m, o.r);
    AddWraps(Total(o.r.data), 1);
    assert o.r.data[..|o.r.data|] == o.r.data;
    assert payload[..|payload|] == payload;
  }

  lemma Identifies(s: Store, desc: nat, o: Order, payload: Bytes, before: Bytes, job: Job, head: nat)
    requires MovedSoFar(s, desc, o, payload, before, job, 0) && o.r.kind == VIRTIO_BLK_T_GET_ID
    requires Serveable(o, |s.m|, |before|, desc)
    ensures CanAdvance(s, desc, head, job)
    ensures var (s', job') := Advance(s, desc, head, job); InProgress(s', desc, o, payload, before, job')
  {
    hide Gather, Splice, DescAt, Total, Order.Encodable, Order.Descs, Wrap32, Laid, Request.Offset, PairwiseApart;
    OneForId(o);
    var b := o.r.data[0];
    BufferDesc(s.m, desc, o, 0);
    assert o.r.data == [b];
    var m' := Splice(s.m, b.addr, DISK_ID[..b.len]);
    assert b.Apart(Range(desc, DESC_SIZE * QUEUE_SIZE_MAX));
    SpliceAgree(s.m, b.addr, DISK_ID[..b.len], Range(desc, DESC_SIZE * QUEUE_SIZE_MAX));
    LaidStays(s.m, m', desc, o);
    OneBuffer(m', b);
    SliceOfSplice(s.m, b, DISK_ID[..b.len]);
    WrapsSmall(b.len);
  }

  lemma WrapsSmall(x: nat)
    requires x < TWO_TO_THE_32
    ensures Wrap32(x) == x
  {
  }

  lemma Finishes(s: Store, desc: nat, o: Order, payload: Bytes, before: Bytes, job: Job, head: nat)
    requires job.Finishing? && InProgress(s, desc, o, payload, before, job) && Serveable(o, |s.m|, |before|, desc)
    ensures desc + DESC_SIZE * QUEUE_SIZE_MAX <= |s.m| && CanAdvance(s, desc, head, job)
    ensures var (s', job') := Advance(s, desc, head, job); InProgress(s', desc, o, payload, before, job')
  {
    hide Gather, Splice, DescAt, Total, Order.Encodable, Order.Descs, Wrap32, Laid, Request.Offset;
    OneForId(o);
    StatusDesc(s.m, desc, o);
    StatusStored(s.m, o.r);
    AddWraps(Total(o.r.data), 1);
  }

  /** Every further access of the device is possible and brings the request forward. */
  lemma Progresses(s: Store, desc: nat, o: Order, payload: Bytes, before: Bytes, job: Job, head: nat)
    requires !job.Moved? && InProgress(s, desc, o, payload, before, job) && Serveable(o, |s.m|, |before|, desc)
    ensures desc + DESC_SIZE * QUEUE_SIZE_MAX <= |s.m| && CanAdvance(s, desc, head, job)
    ensures var (s', job') := Advance(s, desc, head, job);
      InProgress(s', desc, o, payload, before, job') && (job'.Moving? || job'.Finishing? || job'.Moved?)
  {
    hide MovedSoFar, Advance, CanAdvance, Laid, Order.Encodable, Request.Servable;
    if job.Finishing? {
      Finishes(s, desc, o, payload, before, job, head);
    } else {
      var i: nat :| MovedSoFar(s, desc, o, payload, before, job, i);
      MovedBounds(s, desc, o, payload, before, job, i);
      if o.r.kind == VIRTIO_BLK_T_GET_ID {
        Identifies(s, desc, o, payload, before, job, head);
      } else if i == |o.r.data| {
        EndsTransfer(s, desc, o, payload, before, job, head);
      } else if o.r.kind == VIRTIO_BLK_T_IN {
        FillsBuffer(s, desc, o, payload, before, job, i, head);
      } else {
        StoresBuffer(s, desc, o, payload, before, job, i, head);
      }
    }
  }

  lemma MovedBounds(s: Store, desc: nat, o: Order, payload: Bytes, before: Bytes, job: Job, i: nat)
    requires MovedSoFar(s, desc, o, payload, before, job, i)
    ensures i <= |o.r.data| && (o.r.kind == VIRTIO_BLK_T_GET_ID ==> i == 0) && o.r.Handled()
    ensures desc + DESC_SIZE * QUEUE_SIZE_MAX <= |s.m|
  {
  }

  // ---- without interference ----

  /** The first n accesses, with nothing else touching memory. */
  function AdvanceAll(s: Store, desc: nat, head: nat, job: Job, n: nat): (r: Option<(Store, Job)>)
    requires desc + DESC_SIZE * QUEUE_SIZE_MAX <= |s.m|
    decreases n
  {
    if n == 0 then Some((s, job))
    else if !CanAdvance(s, desc, head, job) then None
    else
      var (s', job') := Advance(s, desc, head, job);
      AdvanceAll(s', desc, head, job', n - 1)
  }

  lemma OneAccess(s: Store, desc: nat, head: nat, job: Job, s': Store, job': Job)
    requires desc + DESC_SIZE * QUEUE_SIZE_MAX <= |s.m| && CanAdvance(s, desc, head, job)
    requires Advance(s, desc, head, job) == (s', job')
    ensures AdvanceAll(s, desc, head, job, 1) == Some((s', job'))
    ensures forall n: nat :: AdvanceAll(s, desc, head, job, n + 1) == AdvanceAll(s', desc, head, job', n)
  {
    hide Advance, CanAdvance;
    assert AdvanceAll(s', desc, head, job', 0) == Some((s', job'));
  }

  /** The rest of a read: it scatters the rest of the file range and reports success. */
  lemma {:induction false} RestOfRead(s: Store, desc: nat, o: Order, payload: Bytes, before: Bytes, job: Job, i: nat,
                                      head: nat) returns (n: nat)
    requires MovedSoFar(s, desc, o, payload, before, job, i) && o.r.kind == VIRTIO_BLK_T_IN
    requires Serveable(o, |s.m|, |before|, desc) && desc + DESC_SIZE * QUEUE_SIZE_MAX <= |s.m|
    ensures var rest, end := o.r.data[i..], o.r.Offset() + Total(o.r.data);
      && AllWithin(rest, |s.m|) && job.pos <= end <= |before| && end - job.pos == Total(rest)
      && AdvanceAll(s, desc, head, job, n)
         == Some((Store(Splice(Scatter(s.m, rest, before[job.pos..end]), o.r.status.addr, [VIRTIO_BLK_S_OK]), before),
                  Moved(o.r.Reported())))
    decreases |o.r.data| - i
  {
    hide Gather, Splice, Scatter, DescAt, Total, Order.Encodable, Order.Descs, Wrap32, CanAdvance, Advance, Laid;
    hide Request.Offset, PairwiseApart, AdvanceAll, Slice;
    var data, end := o.r.data, o.r.Offset() + Total(o.r.data);
    PartWithin(data, i, |data|, |s.m|);
    assert data[i..|data|] == data[i..] && data == data[..i] + data[i..];
    TotalConcat(data[..i], data[i..]);
    ScatterStep(s.m, data[i..], before[job.pos..end]);
    if i == |data| {
      LastOfTransfer(s, desc, o, payload, before, job, head);
      n := 1;
    } else {
      AccessesBuffer(s, desc, o, payload, before, job, i, head);
      FillsBuffer(s, desc, o, payload, before, job, i, head);
      var (s', job') := Advance(s, desc, head, job);
      OneAccess(s, desc, head, job, s', job');
      var more := RestOfRead(s', desc, o, payload, before, job', i + 1, head);
      n := more + 1;
      var b := data[i];
      assert data[i..][0] == b && data[i..][1..] == data[i + 1..];
      assert before[job.pos..end][..b.len] == before[job.pos..job.pos + b.len];
      assert before[job.pos..end][b.len..] == before[job.pos + b.len..end];
    }
  }

  /** The access that ends a transfer. */
  lemma LastOfTransfer(s: Store, desc: nat, o: Order, payload: Bytes, before: Bytes, job: Job, head: nat)
    requires MovedSoFar(s, desc, o, payload, before, job, |o.r.data|) && o.r.Transfers()
    requires Serveable(o, |s.m|, |before|, desc) && desc + DESC_SIZE * QUEUE_SIZE_MAX <= |s.m|
    ensures AdvanceAll(s, desc, head, job, 1)
         == Some((s.(m := Splice(s.m, o.r.status.addr, [VIRTIO_BLK_S_OK])), Moved(o.r.Reported())))
  {
    hide Gather, Splice, DescAt, Total, Order.Encodable, Order.Descs, Wrap32, Laid, Request.Offset, AdvanceAll;
    OneForId(o);
    StatusDesc(s.m, desc, o);
    AddWraps(Total(o.r.data), 1);
    assert o.r.data[..|o.r.data|] == o.r.data;
    var (s', job') := Advance(s, desc, head, job);
    OneAccess(s, desc, head, job, s', job');
  }

  /** The rest of a write: the disk gets the whole payload, and success is reported. */
  lemma {:induction false} RestOfWrite(s: Store, desc: nat, o: Order, payload: Bytes, before: Bytes, job: Job, i: nat,
                                       head: nat) returns (n: nat)
    requires MovedSoFar(s, desc, o, payload, before, job, i) && o.r.kind == VIRTIO_BLK_T_OUT
    requires Serveable(o, |s.m|, |before|, desc) && desc + DESC_SIZE * QUEUE_SIZE_MAX <= |s.m|
    requires o.r.Offset() + |payload| <= |before|
    ensures AdvanceAll(s, desc, head, job, n)
         == Some((Store(Splice(s.m, o.r.status.addr, [VIRTIO_BLK_S_OK]), Splice(before, o.r.Offset(), payload)),
                  Moved(o.r.Reported())))
    decreases |o.r.data| - i
  {
    hide Gather, Splice, DescAt, Total, Order.Encodable, Order.Descs, Wrap32, CanAdvance, Advance, Laid;
    hide Request.Offset, PairwiseApart, AdvanceAll, Slice;
    if i == |o.r.data| {
      LastOfTransfer(s, desc, o, payload, before, job, head);
      assert o.r.data[..i] == o.r.data && payload[..|payload|] == payload;
      n := 1;
    } else {
      AccessesBuffer(s, desc, o, payload, before, job, i, head);
      StoresBuffer(s, desc, o, payload, before, job, i, head);
      var (s', job') := Advance(s, desc, head, job);
      OneAccess(s, desc, head, job, s', job');
      var more := RestOfWrite(s', desc, o, payload, before, job', i + 1, head);
      n := more + 1;
    }
  }

  /** An identification: two more accesses. */
  lemma RestOfId(s: Store, desc: nat, o: Order, payload: Bytes, before: Bytes, job: Job, head: nat)
    requires MovedSoFar(s, desc, o, payload, before, job, 0) && o.r.kind == VIRTIO_BLK_T_GET_ID
    requires Serveable(o, |s.m|, |before|, desc) && desc + DESC_SIZE * QUEUE_SIZE_MAX <= |s.m|
    ensures |o.r.data| == 1
    ensures var b := o.r.data[0];
      AdvanceAll(s, desc, head, job, 2)
      == Some((Store(Splice(Splice(s.m, b.addr, DISK_ID[..b.len]), o.r.status.addr, [VIRTIO_BLK_S_OK]), before),
               Moved(o.r.Reported())))
  {
    hide Gather, Splice, DescAt, Total, Order.Encodable, Order.Descs, Wrap32, Laid, Request.Offset, PairwiseApart;
    hide AdvanceAll;
    OneForId(o);
    Identifies(s, desc, o, payload, before, job, head);
    var (s1, job1) := Advance(s, desc, head, job);
    OneAccess(s, desc, head, job, s1, job1);
    BufferDesc(s.m, desc, o, 0);
    Finishes(s1, desc, o, payload, before, job1, head);
    var (s2, job2) := Advance(s1, desc, head, job1);
    OneAccess(s1, desc, head, job1, s2, job2);
    StatusDesc(s1.m, desc, o);
    AddWraps(Total(o.r.data), 1);
  }

  /** If nothing else touches memory, the accesses of the device together do what serving the request does. */
  lemma UninterruptedIsServe(s: Store, desc: nat, o: Order) returns (n: nat)
    requires Written(s.m, desc, o) && Serveable(o, |s.m|, |s.disk|, desc)
    requires desc + DESC_SIZE * QUEUE_SIZE_MAX <= |s.m| && o.slots != []
    ensures var out := Serve(s.m, s.disk, o.r);
      out.Done? && AdvanceAll(s, desc, o.slots[0], Unread, n) == Some((Store(out.m, out.disk), Moved(out.len)))
  {
    hide Gather, Splice, Scatter, DescAt, Total, Order.Encodable, Order.Descs, Wrap32, CanAdvance, Advance, Laid;
    hide Written, Request.Offset, PairwiseApart, AdvanceAll, MovedSoFar;
    OneForId(o);
    var payload, head := Gather(s.m, o.r.data), o.slots[0];
    TakesHeader(s, desc, o, payload);
    var (s', job) := Advance(s, desc, head, Unread);
    OneAccess(s, desc, head, Unread, s, job);
    var more;
    if o.r.kind == VIRTIO_BLK_T_IN {
      StartsAtOffset(s, desc, o, payload, job);
      more := RestOfRead(s, desc, o, payload, s.disk, job, 0, head);
      assert o.r.data[0..] == o.r.data;
    } else if o.r.kind == VIRTIO_BLK_T_OUT {
      more := RestOfWrite(s, desc, o, payload, s.disk, job, 0, head);
    } else {
      RestOfId(s, desc, o, payload, s.disk, job, head);
      more := 2;
    }
    n := more + 1;
  }

  lemma StartsAtOffset(s: Store, desc: nat, o: Order, payload: Bytes, job: Job)
    requires MovedSoFar(s, desc, o, payload, s.disk, job, 0) && o.r.Transfers()
    ensures job.pos == o.r.Offset()
  {
    assert o.r.data[..0] == [];
  }
}
