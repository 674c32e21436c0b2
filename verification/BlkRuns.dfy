/**
 The block device and its driver on shared memory, bytes and protocol together: any number of requests are outstanding,
 and the driver writes guest memory, issues and reaps between any two accesses of the device to a descriptor, a buffer,
 the status byte or the used ring. The queue side of every step is a step of `VirtioSystem`.
 */
module BlkRuns {
  import opened Words
  import opened GuestMemory
  import opened Rings
  import opened Queues
  import opened Chains
  import opened VirtioSystem
  import opened Drivers
  import opened Blk
  import opened BlkRequests
  import opened BlkTransfer

  /** A request the driver has issued, and what its data buffers held then: what a write is to store. */
  datatype Entry = Entry(o: Order, payload: Bytes)

  datatype World = World(
    l: Layout,
    u: QueueState,
    m: Bytes,
    disk: Bytes,
    entries: seq<Entry>,     // everything issued so far
    job: Job)                // how far the device is with the request in service

  datatype Step =
    | Issue(o: Order)
    | Put(a: nat, bs: Bytes)
    | Access
    | Report
    | OnQueue(op: QueueOp)

  // ---- what the driver keeps apart ----

  /** Header, status and data of the order keep off the range. */
  predicate Clear(o: Order, r: Range) {
    o.HeaderRange().Apart(r) && o.r.status.Apart(r) && ApartFrom(o.r.data, r)
  }

  predicate ClearOfQueue(o: Order, l: Layout) {
    Clear(o, l.DescRange()) && Clear(o, l.AvailRange()) && Clear(o, l.UsedRange())
  }

  /** A request as section 2.6 of VIRTIO 1.1 wants it: servable, in memory of its own. */
  predicate Placed(o: Order, memSize: nat, diskSize: nat, l: Layout) {
    && o.Proper(memSize, diskSize, l) && o.r.Disjoint() && ClearOfQueue(o, l)
    && (o.r.kind == VIRTIO_BLK_T_OUT ==> o.DataOff(l))
  }

  /** Two outstanding requests share neither descriptors nor memory. */
  predicate Separate(a: Order, b: Order) {
    && (forall i :: 0 <= i < |a.slots| ==> a.slots[i] !in b.slots)
    && Clear(a, b.HeaderRange()) && Clear(a, b.r.status) && forall j :: 0 <= j < |b.r.data| ==> Clear(a, b.r.data[j])
  }

  lemma SeparateIsSymmetric(a: Order, b: Order)
    requires Separate(a, b)
    ensures Separate(b, a)
  {
    forall j | 0 <= j < |a.r.data|
      ensures Clear(b, a.r.data[j])
    {
      forall i | 0 <= i < |b.r.data|
        ensures b.r.data[i].Apart(a.r.data[j])
      {
        assert Clear(a, b.r.data[i]);
      }
    }
  }

  // ---- steps ----

  predicate Outstanding(w: World, k: int) { |w.u.reaped| <= k < |w.entries| }

  /** The steps of the queue protocol that move no data. */
  predicate MovesNoData(op: QueueOp) {
    op.Pop? || op.Start? || op.Decide? || op.Raise? || op.Reap? || op.Arm?
  }

  predicate Shaped(w: World) {
    w.u.ring.Configured() && w.l.Mapped(|w.m|)
  }

  ghost predicate Enabled(w: World, s: Step)
    requires Shaped(w)
  {
    match s
    case Issue(o) =>
      && Placed(o, |w.m|, |w.disk|, w.l) && OpEnabled(w.u, Publish(o.slots[0]))
      && forall k :: Outstanding(w, k) ==> Separate(w.entries[k].o, o)
    case Put(a, bs) =>
      var r := Range(a, |bs|);
      && r.Within(|w.m|) && r.Apart(w.l.DescRange()) && r.Apart(w.l.AvailRange()) && r.Apart(w.l.UsedRange())
      && forall k :: Outstanding(w, k) ==> Clear(w.entries[k].o, r)
    case Access => w.u.device.Started? && CanAdvance(Store(w.m, w.disk), w.l.desc, w.u.device.id, w.job)
    case Report => w.u.device.Started? && w.job.Moved?
    case OnQueue(op) => MovesNoData(op) && OpEnabled(w.u, op)
  }

  ghost function Apply(w: World, s: Step): (w': World)
    requires Shaped(w) && Enabled(w, s)
    ensures Shaped(w') && |w'.m| == |w.m| && |w'.disk| == |w.disk| && w'.l == w.l
  {
    match s
    case Issue(o) =>
      w.(u := ApplyOp(w.u, Publish(o.slots[0])), m := IssueBytes(w.m, w.l, |w.entries|, o),
         entries := w.entries + [Entry(o, Gather(w.m, o.r.data))])
    case Put(a, bs) => w.(m := Splice(w.m, a, bs))
    case Access =>
      var (s', job') := Advance(Store(w.m, w.disk), w.l.desc, w.u.device.id, w.job);
      w.(m := s'.m, disk := s'.disk, job := job')
    case Report =>
      w.(u := ApplyOp(w.u, Complete(w.job.len)), job := Unread,
         m := AddUsedBytes(w.m, w.l.used, w.l.size, UsedElem(w.u.device.id, w.job.len)))
    case OnQueue(op) =>
      w.(u := ApplyOp(w.u, op),
         m := if op.Arm? && w.u.arms then ArmBytes(w.m, w.l.avail, w.l.size, w.u.Seen()) else w.m)
  }

  ghost predicate IsRun(w: World, steps: seq<Step>)
    requires Shaped(w)
    decreases |steps|
  {
    steps == [] || (Enabled(w, steps[0]) && IsRun(Apply(w, steps[0]), steps[1..]))
  }

  ghost function Run(w: World, steps: seq<Step>): (w': World)
    requires Shaped(w) && IsRun(w, steps)
    ensures Shaped(w') && w'.l == w.l && |w'.disk| == |w.disk|
    decreases |steps|
  {
    if steps == [] then w else Run(Apply(w, steps[0]), steps[1..])
  }

  /** Nothing issued yet, ring memory zeroed, the queue configured and ready. */
  predicate IsStart(w: World) {
    && ValidSize(w.l.size) && w.l.Mapped(|w.m|) && w.entries == [] && w.job == Unread
    && w.u == InitQueue(QueueConfig(w.l.size, true, w.u.arms, w.u.rechecks))
    && RingOf(w.m, w.l, 0, true) == EmptyRing(w.l.size)
  }

  // ---- the sequential meaning of a history ----

  /** The disk after the requests were executed one at a time, in the order they were issued. */
  function DiskAfter(disk: Bytes, es: seq<Entry>): (d: Bytes)
    ensures |d| == |disk|
  {
    if es == [] then disk
    else
      var e := es[|es| - 1];
      DiskWith(DiskAfter(disk, es[..|es| - 1]), e.o, e.payload)
  }

  /** Request k is answered in memory as if everything before it, and nothing else, had been executed. */
  ghost predicate Answered(m: Bytes, disk: Bytes, es: seq<Entry>, k: nat)
    requires k < |es|
  {
    AnsweredFrom(m, es[k].o, DiskAfter(disk, es[..k]))
  }

  /** Request k waits in memory as it was issued. */
  ghost predicate Waits(m: Bytes, l: Layout, es: seq<Entry>, k: nat)
    requires k < |es|
  {
    var o := es[k].o;
    && Written(m, l.desc, o) && AllWithin(o.r.data, |m|)
    && (o.r.kind == VIRTIO_BLK_T_OUT ==> Gather(m, o.r.data) == es[k].payload)
  }

  // ---- the invariant ----

  ghost predicate QueueInv(w: World) {
    && Shaped(w) && RingInv(w.u) && w.l.size == w.u.ring.size
    && RingOf(w.m, w.l, w.u.ring.lastAvail, true) == w.u.ring
    && |w.entries| == |w.u.published| && |w.u.completed| == |w.u.served|
    && (forall k :: 0 <= k < |w.entries| ==> w.entries[k].o.slots != [] && w.u.published[k] == w.entries[k].o.slots[0])
    && (!w.job.Unread? ==> w.u.device.Started?)
  }

  /** The used element for a request: head and reported length. */
  predicate Reports(e: UsedElem, o: Order) {
    o.slots != [] && e.id == o.slots[0] && e.len == o.r.Reported()
  }

  /** What is reported is the head and the length of each request, in the order of issue. */
  ghost predicate ReportInv(w: World) {
    && |w.u.completed| <= |w.entries|
    && (forall k :: 0 <= k < |w.u.completed| ==> Reports(w.u.completed[k], w.entries[k].o))
  }

  ghost predicate EntryInv(w: World, disk: Bytes, k: nat)
    requires k < |w.entries|
  {
    var e, c := w.entries[k], |w.u.served|;
    && Placed(e.o, |w.m|, |w.disk|, w.l)
    && if k < c then Answered(w.m, disk, w.entries, k)
       else if k == c && !w.job.Unread? then
         InProgress(Store(w.m, w.disk), w.l.desc, e.o, e.payload, DiskAfter(disk, w.entries[..c]), w.job)
       else Waits(w.m, w.l, w.entries, k)
  }

  ghost predicate EntriesInv(w: World, disk: Bytes) {
    && (forall k :: Outstanding(w, k) ==> EntryInv(w, disk, k))
    && (forall j, k :: Outstanding(w, j) && Outstanding(w, k) && j < k ==> Separate(w.entries[j].o, w.entries[k].o))
  }

  ghost predicate WorldInv(w: World, disk: Bytes) {
    && Shaped(w) && QueueInv(w) && ReportInv(w) && EntriesInv(w, disk)
    && |w.disk| == |disk| && |w.u.served| <= |w.entries|
    && (w.job.Unread? ==> w.disk == DiskAfter(disk, w.entries[..|w.u.served|]))
  }

  // ---- what a change of memory leaves alone ----

  /** Nothing that belongs to the order changes: header, status, data and its descriptors. */
  ghost predicate Keeps(m: Bytes, m': Bytes, l: Layout, o: Order) {
    && l.Mapped(|m|) && o.Encodable() && |m'| == |m|
    && Agree(m, m', o.HeaderRange()) && Agree(m, m', o.r.status)
    && (forall i :: 0 <= i < |o.r.data| ==> Agree(m, m', o.r.data[i]))
    && forall i :: 0 <= i < |o.slots| ==> DescAt(m', l.desc, o.slots[i]) == DescAt(m, l.desc, o.slots[i])
  }

  lemma WaitsFrame(m: Bytes, m': Bytes, l: Layout, es: seq<Entry>, k: nat)
    requires k < |es| && Keeps(m, m', l, es[k].o) && Waits(m, l, es, k)
    ensures Waits(m', l, es, k)
  {
    hide Written, Gather, DescAt, Order.Encodable;
    WrittenFrame(m, m', l.desc, es[k].o);
    GatherFrame(m, m', es[k].o.r.data);
  }

  lemma AnsweredFrame(m: Bytes, m': Bytes, l: Layout, o: Order, before: Bytes)
    requires Keeps(m, m', l, o) && AnsweredFrom(m, o, before)
    ensures AnsweredFrom(m', o, before)
  {
    hide Gather, DescAt, Order.Encodable, Request.Extent;
    GatherFrame(m, m', o.r.data);
    assert o.r.status.Contains(o.r.status.addr);
  }

  lemma LaidFrame(m: Bytes, m': Bytes, l: Layout, o: Order)
    requires Keeps(m, m', l, o) && Laid(m, l.desc, o.Descs(), o.slots)
    ensures Laid(m', l.desc, o.Descs(), o.slots)
  {
    hide DescAt, Order.Descs, Order.Encodable;
  }

  lemma MovedFrame(m: Bytes, m': Bytes, l: Layout, disk: Bytes, o: Order, payload: Bytes, before: Bytes, job: Job,
                   i: nat)
    requires Keeps(m, m', l, o) && MovedSoFar(Store(m, disk), l.desc, o, payload, before, job, i)
    ensures MovedSoFar(Store(m', disk), l.desc, o, payload, before, job, i)
  {
    hide Gather, DescAt, Order.Encodable, Order.Descs, Laid, Total, Wrap32, Splice, Request.Offset;
    LaidFrame(m, m', l, o);
    GatherFrame(m, m', o.r.data);
    GatherFrame(m, m', o.r.data[..i]);
  }

  /** What the device has done so far stays while the request's own memory is left alone. */
  lemma ProgressFrame(m: Bytes, m': Bytes, l: Layout, disk: Bytes, o: Order, payload: Bytes, before: Bytes, job: Job)
    requires Keeps(m, m', l, o) && InProgress(Store(m, disk), l.desc, o, payload, before, job)
    ensures InProgress(Store(m', disk), l.desc, o, payload, before, job)
  {
    hide Gather, DescAt, Order.Encodable, Order.Descs, MovedSoFar, Laid, Total, Wrap32, AnsweredFrom;
    match job
    case Moving(_, _, _, _) =>
      var i: nat :| MovedSoFar(Store(m, disk), l.desc, o, payload, before, job, i);
      MovedFrame(m, m', l, disk, o, payload, before, job, i);
    case Finishing(_, _) =>
      LaidFrame(m, m', l, o);
      GatherFrame(m, m', o.r.data);
    case Moved(_) =>
      AnsweredFrame(m, m', l, o, before);
  }

  /** A change that keeps off a range the orders are clear of, and off the table, leaves them alone. */
  lemma ClearKeeps(m: Bytes, m': Bytes, l: Layout, o: Order)
    requires l.Mapped(|m|) && o.Encodable() && |m'| == |m| && Agree(m, m', l.DescRange())
    requires Agree(m, m', o.HeaderRange()) && Agree(m, m', o.r.status)
    requires forall i :: 0 <= i < |o.r.data| ==> Agree(m, m', o.r.data[i])
    ensures Keeps(m, m', l, o)
  {
    hide DescAt;
    forall i | 0 <= i < |o.slots|
      ensures DescAt(m', l.desc, o.slots[i]) == DescAt(m, l.desc, o.slots[i])
    {
      DescFrame(m, m', l.desc, o.slots[i], l.DescRange());
    }
  }

  lemma EntryFrame(w: World, w': World, disk: Bytes, k: nat)
    requires k < |w.entries| && EntryInv(w, disk, k) && Keeps(w.m, w'.m, w.l, w.entries[k].o)
    requires w.entries <= w'.entries && w'.l == w.l && |w'.m| == |w.m| && w'.disk == w.disk
    requires w'.u.served == w.u.served && w'.job == w.job
    ensures EntryInv(w', disk, k)
  {
    hide Placed, Keeps, Waits, Written, Layout.Mapped, Gather, DiskAfter, AnsweredFrom, InProgress;
    var e, c := w.entries[k], |w.u.served|;
    assert w'.entries[..k] == w.entries[..k] && w'.entries[k] == e;
    if k < c {
      AnsweredFrame(w.m, w'.m, w.l, e.o, DiskAfter(disk, w.entries[..k]));
    } else if k == c && !w.job.Unread? {
      ProgressFrame(w.m, w'.m, w.l, w.disk, e.o, e.payload, DiskAfter(disk, w.entries[..k]), w.job);
    } else {
      WaitsFrame(w.m, w'.m, w.l, w.entries, k);
      WaitsPrefix(w'.m, w.l, w.entries, w'.entries, k);
    }
  }

  lemma WaitsPrefix(m: Bytes, l: Layout, es: seq<Entry>, es': seq<Entry>, k: nat)
    requires k < |es| && es <= es' && Waits(m, l, es, k)
    ensures Waits(m, l, es', k)
  {
    hide Written, Gather;
  }

  /** Requests whose memory is left alone by a step that neither issues, nor transfers, nor reports stay as they are. */
  lemma EntriesFrame(w: World, w': World, disk: Bytes)
    requires Shaped(w) && EntriesInv(w, disk)
    requires w'.entries == w.entries && w'.l == w.l && |w'.m| == |w.m| && w'.disk == w.disk
    requires |w.u.reaped| <= |w'.u.reaped| && w'.u.served == w.u.served && w'.job == w.job
    requires forall k :: Outstanding(w, k) ==> Keeps(w.m, w'.m, w.l, w.entries[k].o)
    ensures EntriesInv(w', disk)
  {
    hide Keeps, EntryInv, Separate, Layout.Mapped;
    forall k | Outstanding(w', k)
      ensures EntryInv(w', disk, k)
    {
      assert Outstanding(w, k) && EntryInv(w, disk, k);
      EntryFrame(w, w', disk, k);
    }
    forall j, k | Outstanding(w', j) && Outstanding(w', k) && j < k
      ensures Separate(w'.entries[j].o, w'.entries[k].o)
    {
      assert Outstanding(w, j) && Outstanding(w, k);
    }
  }

  lemma PlacedIsEncodable(o: Order, memSize: nat, diskSize: nat, l: Layout)
    requires Placed(o, memSize, diskSize, l)
    ensures l.Mapped(memSize) && o.Encodable() && o.HeaderRange().Within(memSize) && o.HeaderOff(l)
    ensures o.r.Handled() && o.r.Servable(memSize, diskSize) && o.r.Disjoint() && ClearOfQueue(o, l)
    ensures AllWithin(o.r.data, memSize) && (o.r.kind == VIRTIO_BLK_T_OUT ==> o.DataOff(l))
    ensures o.r.Spares(l.DescRange()) && o.r.Spares(l.AvailRange()) && o.r.Spares(l.UsedRange())
  {
  }

  /** A change inside the two rings leaves every order alone. */
  lemma RingChangeKeeps(m: Bytes, m': Bytes, l: Layout, o: Order, changed: Range)
    requires l.Mapped(|m|) && o.Encodable() && ClearOfQueue(o, l) && |m'| == |m|
    requires changed == l.AvailRange() || changed == l.UsedRange()
    requires forall r: Range {:trigger Agree(m, m', r)} :: r.Within(|m|) && r.Apart(changed) ==> Agree(m, m', r)
    requires o.HeaderRange().Within(|m|) && o.r.status.Within(|m|) && AllWithin(o.r.data, |m|)
    ensures Keeps(m, m', l, o)
  {
    hide Keeps;
    assert Clear(o, changed) && l.DescRange().Apart(changed);
    forall i | 0 <= i < |o.r.data|
      ensures Agree(m, m', o.r.data[i])
    {
      assert o.r.data[i].Apart(changed);
    }
    ClearKeeps(m, m', l, o);
  }

  // ---- what is reported ----

  lemma HeadInService(w: World)
    requires QueueInv(w) && w.u.device.Started?
    ensures |w.u.served| < |w.entries| && |w.u.reaped| <= |w.u.served|
    ensures w.u.device.id == w.entries[|w.u.served|].o.slots[0]
  {
  }

  /** What was reported stays right when more requests are issued. */
  lemma ReportFrame(w: World, w': World)
    requires ReportInv(w) && w.entries <= w'.entries
    requires w'.u.completed == w.u.completed
    ensures ReportInv(w')
  {
    hide Reports, Request.Reported;
  }

  // ---- the driver stores into memory of its own ----

  lemma PutKeepsEntries(w: World, disk: Bytes, a: nat, bs: Bytes)
    requires WorldInv(w, disk) && Enabled(w, Put(a, bs))
    ensures EntriesInv(Apply(w, Put(a, bs)), disk)
  {
    hide Splice, Placed, Separate, Answered, InProgress, Waits, Keeps, QueueInv, ReportInv, Layout.Mapped, DiskAfter;
    var m' := Splice(w.m, a, bs);
    SpliceAgree(w.m, a, bs, w.l.DescRange());
    forall k | Outstanding(w, k)
      ensures Keeps(w.m, m', w.l, w.entries[k].o)
    {
      assert EntryInv(w, disk, k);
      var o := w.entries[k].o;
      PlacedIsEncodable(o, |w.m|, |w.disk|, w.l);
      assert Clear(o, Range(a, |bs|));
      SpliceAgree(w.m, a, bs, o.HeaderRange());
      SpliceAgree(w.m, a, bs, o.r.status);
      forall i | 0 <= i < |o.r.data|
        ensures Agree(w.m, m', o.r.data[i])
      {
        SpliceAgree(w.m, a, bs, o.r.data[i]);
      }
      ClearKeeps(w.m, m', w.l, o);
    }
    EntriesFrame(w, Apply(w, Put(a, bs)), disk);
  }

  lemma PutKeeps(w: World, disk: Bytes, a: nat, bs: Bytes)
    requires WorldInv(w, disk) && Enabled(w, Put(a, bs))
    ensures WorldInv(Apply(w, Put(a, bs)), disk)
  {
    hide Splice, EntriesInv, RingInv, RingOf, Layout.Mapped;
    PutKeepsEntries(w, disk, a, bs);
    SpliceAgree(w.m, a, bs, w.l.AvailRange());
    SpliceAgree(w.m, a, bs, w.l.UsedRange());
    RingOfFrame(w.m, Splice(w.m, a, bs), w.l, w.u.ring.lastAvail, true);
  }

  // ---- steps of the queue protocol ----

  lemma ArmAgree(m: Bytes, l: Layout, seen: u16, r: Range)
    requires l.Mapped(|m|) && r.Apart(l.AvailRange())
    ensures Agree(m, ArmBytes(m, l.avail, l.size, seen), r)
  {
    hide LeBytes, Splice;
    SpliceAgree(m, AvailSlot(l.avail, l.size), Le16(seen), r);
  }

  lemma OpOnRing(w: World, op: QueueOp)
    requires QueueInv(w) && Enabled(w, OnQueue(op))
    ensures var w' := Apply(w, OnQueue(op)); RingOf(w'.m, w.l, w'.u.ring.lastAvail, true) == w'.u.ring
  {
    hide RingOf, RingInv, ArmBytes, Slot, Layout.Mapped;
    if op.Arm? && w.u.arms {
      ArmRefines(w.m, w.l, w.u.Seen(), w.u.ring.lastAvail, true);
    } else {
      RingOfCounter(w.m, w.l, w.u.ring.lastAvail, ApplyOp(w.u, op).ring.lastAvail);
    }
  }

  lemma OpKeepsEntries(w: World, disk: Bytes, op: QueueOp)
    requires WorldInv(w, disk) && Enabled(w, OnQueue(op))
    ensures EntriesInv(Apply(w, OnQueue(op)), disk)
  {
    hide Placed, Separate, Answered, InProgress, Waits, Keeps, QueueInv, ReportInv, ArmBytes, Layout.Mapped, Slot;
    hide DiskAfter;
    var w' := Apply(w, OnQueue(op));
    forall k | Outstanding(w, k)
      ensures Keeps(w.m, w'.m, w.l, w.entries[k].o)
    {
      assert EntryInv(w, disk, k);
      var o := w.entries[k].o;
      PlacedIsEncodable(o, |w.m|, |w.disk|, w.l);
      if op.Arm? && w.u.arms {
        forall r: Range | r.Within(|w.m|) && r.Apart(w.l.AvailRange())
          ensures Agree(w.m, w'.m, r)
        {
          ArmAgree(w.m, w.l, w.u.Seen(), r);
        }
        RingChangeKeeps(w.m, w'.m, w.l, o, w.l.AvailRange());
      } else {
        ClearKeeps(w.m, w'.m, w.l, o);
      }
    }
    EntriesFrame(w, w', disk);
  }

  lemma OpKeepsQueue(w: World, op: QueueOp)
    requires QueueInv(w) && Enabled(w, OnQueue(op))
    ensures QueueInv(Apply(w, OnQueue(op)))
  {
    hide RingInv, RingOf, ArmBytes, Slot, Layout.Mapped;
    OpKeepsRing(w.u, op);
    OpOnRing(w, op);
  }

  lemma OpMovesNoData(w: World, op: QueueOp)
    requires Shaped(w) && Enabled(w, OnQueue(op))
    ensures var w' := Apply(w, OnQueue(op));
      && w'.u.completed == w.u.completed && w'.u.served == w.u.served
      && w' == w.(u := w'.u, m := w'.m)
  {
    hide ArmBytes, Slot, Layout.Mapped;
  }

  lemma OpKeeps(w: World, disk: Bytes, op: QueueOp)
    requires WorldInv(w, disk) && Enabled(w, OnQueue(op))
    ensures WorldInv(Apply(w, OnQueue(op)), disk)
  {
    hide EntriesInv, QueueInv, ReportInv, Apply, Enabled;
    OpKeepsQueue(w, op);
    OpMovesNoData(w, op);
    ReportFrame(w, Apply(w, OnQueue(op)));
    OpKeepsEntries(w, disk, op);
  }

  // ---- an access of the device ----

  /** The request in service is outstanding, and as it was issued or as far as the device has come. */
  lemma ServiceState(w: World, disk: Bytes)
    requires WorldInv(w, disk) && w.u.device.Started?
    ensures var c := |w.u.served|;
      && c < |w.entries| && Outstanding(w, c) && EntryInv(w, disk, c)
      && w.entries[c].o.slots != [] && w.u.device.id == w.entries[c].o.slots[0]
  {
    hide EntryInv, ReportInv, RingOf, DiskAfter;
    HeadInService(w);
    assert Outstanding(w, |w.u.served|);
  }

  lemma PlacedIsServeable(o: Order, memSize: nat, diskSize: nat, l: Layout)
    requires Placed(o, memSize, diskSize, l)
    ensures Serveable(o, memSize, diskSize, l.desc) && o.r.status.len == 1
  {
  }

  /** The device can always make its next access, and it brings the request in service forward. */
  lemma AccessAdvances(w: World, disk: Bytes)
    requires WorldInv(w, disk) && w.u.device.Started? && !w.job.Moved?
    ensures |w.u.served| < |w.entries| && Enabled(w, Access)
    ensures var e, w' := w.entries[|w.u.served|], Apply(w, Access);
      && !w'.job.Unread?
      && InProgress(Store(w'.m, w'.disk), w.l.desc, e.o, e.payload, DiskAfter(disk, w.entries[..|w.u.served|]), w'.job)
  {
    hide RingInv, RingOf, ReportInv, DiskAfter, Advance, CanAdvance, MovedSoFar, Written, Placed, Serveable, Answered;
    ServiceState(w, disk);
    var c, e, s := |w.u.served|, w.entries[|w.u.served|], Store(w.m, w.disk);
    PlacedIsServeable(e.o, |w.m|, |w.disk|, w.l);
    if w.job.Unread? {
      PlacedIsEncodable(e.o, |w.m|, |w.disk|, w.l);
      TakesHeader(s, w.l.desc, e.o, e.payload);
      var (s', job') := Advance(s, w.l.desc, e.o.slots[0], Unread);
      JustStarted(s', w.l.desc, e.o, e.payload, w.disk, job');
    } else {
      Progresses(s, w.l.desc, e.o, e.payload, DiskAfter(disk, w.entries[..c]), w.job, w.u.device.id);
    }
  }

  lemma JustStarted(s: Store, desc: nat, o: Order, payload: Bytes, before: Bytes, job: Job)
    requires MovedSoFar(s, desc, o, payload, before, job, 0)
    ensures job.Moving? && InProgress(s, desc, o, payload, before, job)
  {
  }

  /** It changes memory nowhere but where the request may be written to. */
  lemma AccessFrame(w: World, disk: Bytes, range: Range)
    requires WorldInv(w, disk) && Enabled(w, Access) && |w.u.served| < |w.entries|
    requires w.entries[|w.u.served|].o.r.Spares(range)
    ensures Agree(w.m, Apply(w, Access).m, range)
  {
    hide RingInv, RingOf, ReportInv, DiskAfter, Advance, InProgress, Waits, Placed, Answered;
    ServiceState(w, disk);
    var e, s := w.entries[|w.u.served|], Store(w.m, w.disk);
    PlacedIsServeable(e.o, |w.m|, |w.disk|, w.l);
    AdvanceFrame(s, w.l.desc, w.u.device.id, w.job, e.o, e.payload, DiskAfter(disk, w.entries[..|w.u.served|]), range);
  }

  lemma AccessParts(w: World)
    requires Shaped(w) && Enabled(w, Access)
    ensures var w' := Apply(w, Access);
      && w' == w.(m := w'.m, disk := w'.disk, job := w'.job)
      && w.u.device.Started? && !w.job.Moved? && |w'.m| == |w.m| && |w'.disk| == |w.disk|
  {
    hide Advance;
  }

  /** Any other outstanding request is left alone. */
  lemma AccessKeeps(w: World, disk: Bytes, k: nat)
    requires WorldInv(w, disk) && Enabled(w, Access) && Outstanding(w, k) && k != |w.u.served| < |w.entries|
    ensures Keeps(w.m, Apply(w, Access).m, w.l, w.entries[k].o)
  {
    hide QueueInv, ReportInv, Apply, Enabled, EntryInv, DiskAfter, Keeps;
    AccessParts(w);
    ServiceState(w, disk);
    var c := |w.u.served|;
    var a, o, m' := w.entries[c].o, w.entries[k].o, Apply(w, Access).m;
    ServedIsSeparate(w, disk, k);
    EntryIsPlaced(w, disk, c);
    EntryIsPlaced(w, disk, k);
    PlacedIsEncodable(a, |w.m|, |w.disk|, w.l);
    PlacedIsEncodable(o, |w.m|, |w.disk|, w.l);
    hide EntriesInv, Placed, Layout.Mapped, Order.Encodable;
    AccessFrame(w, disk, w.l.DescRange());
    AccessFrame(w, disk, o.HeaderRange());
    AccessFrame(w, disk, o.r.status);
    forall i | 0 <= i < |o.r.data|
      ensures Agree(w.m, m', o.r.data[i])
    {
      assert Clear(a, o.r.data[i]);
      AccessFrame(w, disk, o.r.data[i]);
    }
    ClearKeeps(w.m, m', w.l, o);
  }

  lemma EntryIsPlaced(w: World, disk: Bytes, k: nat)
    requires EntriesInv(w, disk) && Outstanding(w, k)
    ensures Placed(w.entries[k].o, |w.m|, |w.disk|, w.l)
  {
    hide Placed, Answered, InProgress, Waits, Separate;
    assert EntryInv(w, disk, k);
  }

  lemma ServedIsSeparate(w: World, disk: Bytes, k: nat)
    requires EntriesInv(w, disk) && Outstanding(w, k) && Outstanding(w, |w.u.served|) && k != |w.u.served|
    ensures Separate(w.entries[|w.u.served|].o, w.entries[k].o)
  {
    hide Separate, EntryInv;
    if k < |w.u.served| {
      SeparateIsSymmetric(w.entries[k].o, w.entries[|w.u.served|].o);
    }
  }

  lemma OtherEntryKept(w: World, w': World, disk: Bytes, k: nat)
    requires WorldInv(w, disk) && Enabled(w, Access) && Outstanding(w, k) && k != |w.u.served| < |w.entries|
    requires w' == Apply(w, Access)
    ensures k < |w'.entries| && EntryInv(w', disk, k)
  {
    hide QueueInv, ReportInv, Apply, Enabled, DiskAfter, Keeps, Placed, AnsweredFrom, InProgress, Waits, Separate;
    AccessParts(w);
    AccessKeeps(w, disk, k);
    assert EntryInv(w, disk, k);
    if k < |w.u.served| {
      AnsweredFrame(w.m, w'.m, w.l, w.entries[k].o, DiskAfter(disk, w.entries[..k]));
    } else {
      WaitsFrame(w.m, w'.m, w.l, w.entries, k);
    }
  }

  lemma AccessKeepsEntries(w: World, disk: Bytes)
    requires WorldInv(w, disk) && Enabled(w, Access)
    ensures EntriesInv(Apply(w, Access), disk)
  {
    hide QueueInv, ReportInv, Apply, Enabled, DiskAfter, Placed, Answered, InProgress, Waits, Separate;
    AccessParts(w);
    ServiceState(w, disk);
    AccessAdvances(w, disk);
    var c, w' := |w.u.served|, Apply(w, Access);
    forall k | Outstanding(w', k)
      ensures EntryInv(w', disk, k)
    {
      assert Outstanding(w, k) && EntryInv(w, disk, k);
      if k != c {
        OtherEntryKept(w, w', disk, k);
      }
    }
    hide EntryInv;
    forall j, k | Outstanding(w', j) && Outstanding(w', k) && j < k
      ensures Separate(w'.entries[j].o, w'.entries[k].o)
    {
      assert Outstanding(w, j) && Outstanding(w, k);
    }
  }

  lemma AccessKeepsQueue(w: World, disk: Bytes)
    requires WorldInv(w, disk) && Enabled(w, Access)
    ensures QueueInv(Apply(w, Access))
  {
    hide RingInv, RingOf, ReportInv, Apply, Enabled, DiskAfter, EntryInv, Layout.Mapped;
    AccessParts(w);
    ServiceState(w, disk);
    EntryIsPlaced(w, disk, |w.u.served|);
    PlacedIsEncodable(w.entries[|w.u.served|].o, |w.m|, |w.disk|, w.l);
    hide Placed, EntriesInv;
    AccessFrame(w, disk, w.l.AvailRange());
    AccessFrame(w, disk, w.l.UsedRange());
    RingOfFrame(w.m, Apply(w, Access).m, w.l, w.u.ring.lastAvail, true);
  }

  lemma AccessKeepsInv(w: World, disk: Bytes)
    requires WorldInv(w, disk) && Enabled(w, Access)
    ensures WorldInv(Apply(w, Access), disk)
  {
    hide QueueInv, ReportInv, EntriesInv, Apply, Enabled, DiskAfter, InProgress;
    AccessParts(w);
    AccessAdvances(w, disk);
    AccessKeepsQueue(w, disk);
    AccessKeepsEntries(w, disk);
    ReportFrame(w, Apply(w, Access));
  }

  // ---- reporting ----

  lemma DiskStep(disk: Bytes, es: seq<Entry>, k: nat)
    requires k < |es|
    ensures DiskAfter(disk, es[..k + 1]) == DiskWith(DiskAfter(disk, es[..k]), es[k].o, es[k].payload)
  {
    hide DiskWith;
    assert es[..k + 1][..k] == es[..k] && es[..k + 1][k] == es[k];
  }

  /** What is known when the device is about to report. */
  lemma ReportState(w: World, disk: Bytes)
    requires WorldInv(w, disk) && Enabled(w, Report)
    ensures var c := |w.u.served|;
      && c < |w.entries| && Outstanding(w, c) && w.entries[c].o.slots != [] && w.u.device.id == w.entries[c].o.slots[0]
      && Answered(w.m, disk, w.entries, c) && w.job.len == w.entries[c].o.r.Reported()
      && w.disk == DiskAfter(disk, w.entries[..c + 1])
  {
    hide QueueInv, ReportInv, EntriesInv, DiskAfter, AnsweredFrom, DiskWith, Placed, Request.Reported;
    ServiceState(w, disk);
    DiskStep(disk, w.entries, |w.u.served|);
  }

  lemma ReportParts(w: World)
    requires Shaped(w) && Enabled(w, Report)
    ensures w.u.device.Started? && w.job.Moved?
    ensures var e, w' := UsedElem(w.u.device.id, w.job.len), Apply(w, Report);
      && w' == w.(u := w'.u, m := AddUsedBytes(w.m, w.l.used, w.l.size, e), job := Unread)
      && w'.u.completed == w.u.completed + [e] && w'.u.served == w.u.served + [true] && w'.u.reaped == w.u.reaped
      && w'.u.published == w.u.published
  {
    hide AddUsedBytes, Slot, Layout.Mapped;
  }

  lemma ReportKeepsOrder(w: World, disk: Bytes, k: nat)
    requires WorldInv(w, disk) && Enabled(w, Report) && Outstanding(w, k)
    ensures Keeps(w.m, Apply(w, Report).m, w.l, w.entries[k].o)
  {
    hide QueueInv, ReportInv, EntryInv, AddUsedBytes, Apply, Enabled, Keeps, Layout.Mapped;
    ReportParts(w);
    EntryIsPlaced(w, disk, k);
    PlacedIsEncodable(w.entries[k].o, |w.m|, |w.disk|, w.l);
    hide EntriesInv, Placed;
    var e, m' := UsedElem(w.u.device.id, w.job.len), Apply(w, Report).m;
    forall r: Range | r.Within(|w.m|) && r.Apart(w.l.UsedRange())
      ensures Agree(w.m, m', r)
    {
      AddUsedAgree(w.m, w.l, e, r);
    }
    RingChangeKeeps(w.m, m', w.l, w.entries[k].o, w.l.UsedRange());
  }

  lemma EntryAfterReport(w: World, w': World, disk: Bytes, k: nat)
    requires WorldInv(w, disk) && Enabled(w, Report) && Outstanding(w, k) && w' == Apply(w, Report)
    ensures k < |w'.entries| && EntryInv(w', disk, k)
  {
    hide QueueInv, ReportInv, Apply, Enabled, Keeps, Placed, AnsweredFrom, InProgress, Waits, Separate, DiskAfter;
    ReportParts(w);
    ReportState(w, disk);
    ReportKeepsOrder(w, disk, k);
    assert EntryInv(w, disk, k);
    if k <= |w.u.served| {
      AnsweredFrame(w.m, w'.m, w.l, w.entries[k].o, DiskAfter(disk, w.entries[..k]));
    } else {
      WaitsFrame(w.m, w'.m, w.l, w.entries, k);
    }
  }

  lemma ReportKeepsEntries(w: World, disk: Bytes)
    requires WorldInv(w, disk) && Enabled(w, Report)
    ensures EntriesInv(Apply(w, Report), disk)
  {
    hide QueueInv, ReportInv, Apply, Enabled, EntryInv, Separate, DiskAfter;
    ReportParts(w);
    var w' := Apply(w, Report);
    forall k | Outstanding(w', k)
      ensures EntryInv(w', disk, k)
    {
      EntryAfterReport(w, w', disk, k);
    }
    forall j, k | Outstanding(w', j) && Outstanding(w', k) && j < k
      ensures Separate(w'.entries[j].o, w'.entries[k].o)
    {
      assert Outstanding(w, j) && Outstanding(w, k);
    }
  }

  lemma ReportKeepsQueue(w: World)
    requires QueueInv(w) && Enabled(w, Report)
    ensures QueueInv(Apply(w, Report))
  {
    hide RingInv, RingOf, AddUsedBytes, Slot, Layout.Mapped;
    OpKeepsRing(w.u, Complete(w.job.len));
    AddUsedRefines(w.m, w.l, UsedElem(w.u.device.id, w.job.len), w.u.ring.lastAvail, true);
  }

  lemma ReportAdds(w: World, disk: Bytes)
    requires WorldInv(w, disk) && Enabled(w, Report)
    ensures ReportInv(Apply(w, Report))
  {
    hide RingInv, RingOf, EntriesInv, Apply, Enabled, DiskAfter, Answered, Request.Reported, Layout.Mapped;
    ReportParts(w);
    ReportState(w, disk);
    var c, w' := |w.u.completed|, Apply(w, Report);
    forall k | 0 <= k < c + 1
      ensures Reports(w'.u.completed[k], w'.entries[k].o)
    {
      if k < c {
        assert w'.u.completed[k] == w.u.completed[k];
      }
    }
  }

  lemma ReportKeeps(w: World, disk: Bytes)
    requires WorldInv(w, disk) && Enabled(w, Report)
    ensures WorldInv(Apply(w, Report), disk)
  {
    hide EntriesInv, QueueInv, ReportInv, Apply, Enabled, DiskAfter;
    ReportParts(w);
    ReportState(w, disk);
    ReportKeepsQueue(w);
    ReportAdds(w, disk);
    ReportKeepsEntries(w, disk);
  }

  // ---- issuing ----

  /** Issuing a request leaves the outstanding ones alone. */
  lemma IssueKeepsOrder(m: Bytes, l: Layout, k: nat, o: Order, a: Order, diskSize: nat)
    requires Placed(o, |m|, diskSize, l) && Placed(a, |m|, diskSize, l) && Separate(a, o)
    ensures Keeps(m, IssueBytes(m, l, k, o), l, a)
  {
    PlacedIsEncodable(a, |m|, diskSize, l);
    PlacedIsEncodable(o, |m|, diskSize, l);
    hide Order.Encodable, Layout.Mapped, Order.HeaderOff, Request.Servable, IssueBytes, DescAt;
    var m' := IssueBytes(m, l, k, o);
    IssueFrame(m, l, k, o, a.HeaderRange());
    IssueFrame(m, l, k, o, a.r.status);
    forall i | 0 <= i < |a.r.data|
      ensures Agree(m, m', a.r.data[i])
    {
      IssueFrame(m, l, k, o, a.r.data[i]);
    }
    forall i | 0 <= i < |a.slots|
      ensures DescAt(m', l.desc, a.slots[i]) == DescAt(m, l.desc, a.slots[i])
    {
      SlotInTable(a, i);
      IssueKeepsDesc(m, l, k, o, a.slots[i]);
    }
  }

  lemma SlotInTable(o: Order, i: nat)
    requires o.Encodable() && i < |o.slots|
    ensures o.slots[i] < QUEUE_SIZE_MAX
  {
  }

  lemma IssuedWaits(m: Bytes, l: Layout, es: seq<Entry>, o: Order, diskSize: nat)
    requires Placed(o, |m|, diskSize, l)
    ensures o.Encodable() && o.HeaderRange().Within(|m|) && l.Mapped(|m|) && AllWithin(o.r.data, |m|)
    ensures Waits(IssueBytes(m, l, |es|, o), l, es + [Entry(o, Gather(m, o.r.data))], |es|)
  {
    PlacedIsEncodable(o, |m|, diskSize, l);
    hide *;
    WrittenAndKept(m, l, |es|, o);
    var all := es + [Entry(o, Gather(m, o.r.data))];
    WaitsIf(IssueBytes(m, l, |es|, o), l, all, |es|);
  }

  lemma WrittenAndKept(m: Bytes, l: Layout, k: nat, o: Order)
    requires l.Mapped(|m|) && o.Encodable() && o.HeaderRange().Within(|m|) && o.HeaderOff(l)
    requires AllWithin(o.r.data, |m|) && ClearOfQueue(o, l) && (o.r.kind == VIRTIO_BLK_T_OUT ==> o.DataOff(l))
    ensures Written(IssueBytes(m, l, k, o), l.desc, o) && AllWithin(o.r.data, |IssueBytes(m, l, k, o)|)
    ensures o.r.kind == VIRTIO_BLK_T_OUT ==> Gather(IssueBytes(m, l, k, o), o.r.data) == Gather(m, o.r.data)
  {
    hide Order.Encodable, Layout.Mapped, IssueBytes, Written, Gather;
    IssuedIsWritten(m, l, k, o);
    if o.r.kind == VIRTIO_BLK_T_OUT {
      IssueKeepsData(m, l, k, o);
    }
  }

  lemma WaitsIf(m: Bytes, l: Layout, es: seq<Entry>, k: nat)
    requires k < |es| && Written(m, l.desc, es[k].o) && AllWithin(es[k].o.r.data, |m|)
    requires es[k].o.r.kind == VIRTIO_BLK_T_OUT ==> Gather(m, es[k].o.r.data) == es[k].payload
    ensures Waits(m, l, es, k)
  {
    hide Written, Gather;
  }

  lemma IssueKeepsEntries(w: World, disk: Bytes, o: Order)
    requires WorldInv(w, disk) && Enabled(w, Issue(o))
    ensures EntriesInv(Apply(w, Issue(o)), disk)
  {
    hide Placed, Answered, Waits, InProgress, Keeps, ReportInv, Layout.Mapped, Separate, IssueBytes, ApplyOp, Gather;
    hide RingInv, RingOf, DiskAfter;
    var n, w' := |w.entries|, Apply(w, Issue(o));
    IssuedWaits(w.m, w.l, w.entries, o, |w.disk|);
    IssueTakesNothing(w, o);
    ServiceIsOld(w);
    forall k | Outstanding(w', k)
      ensures EntryInv(w', disk, k)
    {
      if k < n {
        assert Outstanding(w, k) && EntryInv(w, disk, k);
        IssueKeepsOrder(w.m, w.l, n, o, w.entries[k].o, |w.disk|);
        EntryFrame(w, w', disk, k);
      }
    }
    hide EntryInv;
    forall j, k | Outstanding(w', j) && Outstanding(w', k) && j < k
      ensures Separate(w'.entries[j].o, w'.entries[k].o)
    {
      assert Outstanding(w, j) && (k < n ==> Outstanding(w, k));
    }
  }

  lemma ServiceIsOld(w: World)
    requires QueueInv(w)
    ensures !w.job.Unread? ==> |w.u.served| < |w.entries|
  {
    if !w.job.Unread? {
      HeadInService(w);
    }
  }

  lemma IssueTakesNothing(w: World, o: Order)
    requires Shaped(w) && Enabled(w, Issue(o))
    ensures var w' := Apply(w, Issue(o));
      && w'.u == w.u.(ring := w'.u.ring, published := w'.u.published) && w'.job == w.job && w'.disk == w.disk
      && w.entries <= w'.entries
  {
    hide Placed, Separate, IssueBytes, Layout.Mapped, Gather, Slot;
  }

  lemma IssueKeepsQueue(w: World, o: Order)
    requires QueueInv(w) && Enabled(w, Issue(o))
    ensures QueueInv(Apply(w, Issue(o)))
  {
    hide RingInv, RingOf, IssueBytes, Slot, Layout.Mapped, Order.Encodable, Placed, Separate, Gather;
    PlacedIsEncodable(o, |w.m|, |w.disk|, w.l);
    HeadIsSlot(o);
    OpKeepsRing(w.u, Publish(o.slots[0]));
    IssueOnRing(w.m, w.l, |w.entries|, o, w.u.ring.lastAvail);
  }

  lemma HeadIsSlot(o: Order)
    requires o.Encodable()
    ensures o.slots != [] && o.slots[0] < QUEUE_SIZE_MAX
  {
  }

  lemma IssueOnRing(m: Bytes, l: Layout, k: nat, o: Order, lastAvail: u32)
    requires l.Mapped(|m|) && o.Encodable() && o.HeaderRange().Within(|m|) && o.HeaderOff(l)
    ensures RingOf(IssueBytes(m, l, k, o), l, lastAvail, true) == RingOf(m, l, lastAvail, true).Publish(k, o.slots[0])
  {
    hide Order.Encodable, Order.Descs, PostBytes, HeaderBytes, Splice, RingOf;
    var m1 := Splice(m, o.header, HeaderBytes(o.r));
    SpliceAgree(m, o.header, HeaderBytes(o.r), l.AvailRange());
    SpliceAgree(m, o.header, HeaderBytes(o.r), l.UsedRange());
    RingOfFrame(m, m1, l, lastAvail, true);
    PostedRing(m1, l, k, o.Descs(), o.slots, lastAvail, true);
  }

  lemma IssueKeeps(w: World, disk: Bytes, o: Order)
    requires WorldInv(w, disk) && Enabled(w, Issue(o))
    ensures WorldInv(Apply(w, Issue(o)), disk)
  {
    hide EntriesInv, QueueInv, ReportInv, IssueBytes, ApplyOp, DiskAfter, Placed, Separate, Apply, Enabled;
    IssueKeepsEntries(w, disk, o);
    IssueKeepsQueue(w, o);
    IssueTakesNothing(w, o);
    var w', t := Apply(w, Issue(o)), |w.u.served|;
    ReportFrame(w, w');
    assert w'.entries[..t] == w.entries[..t];
  }

  // ---- runs ----

  lemma StepKeeps(w: World, disk: Bytes, s: Step)
    requires WorldInv(w, disk) && Enabled(w, s)
    ensures WorldInv(Apply(w, s), disk)
  {
    hide WorldInv, Apply, Enabled;
    match s
    case Issue(o) => IssueKeeps(w, disk, o);
    case Put(a, bs) => PutKeeps(w, disk, a, bs);
    case Access => AccessKeepsInv(w, disk);
    case Report => ReportKeeps(w, disk);
    case OnQueue(op) => OpKeeps(w, disk, op);
  }

  lemma {:induction false} RunKeeps(w: World, disk: Bytes, steps: seq<Step>)
    requires WorldInv(w, disk) && IsRun(w, steps)
    ensures WorldInv(Run(w, steps), disk)
    decreases |steps|
  {
    hide Apply, Enabled, QueueInv, ReportInv, EntriesInv;
    if steps != [] {
      StepKeeps(w, disk, steps[0]);
      RunKeeps(Apply(w, steps[0]), disk, steps[1..]);
    }
  }

  lemma StartInv(w: World)
    requires IsStart(w)
    ensures WorldInv(w, w.disk)
  {
    hide RingOf, Layout.Mapped;
    assert w.entries[..0] == [];
  }

  /** Completion k lies in the used ring with the head and length of request k, which is answered. */
  ghost predicate Readable(w: World, disk: Bytes, k: nat)
    requires Shaped(w)
  {
    && k < |w.entries| && Answered(w.m, disk, w.entries, k)
    && Reports(UsedElemAt(w.m, w.l.used, Slot(k, w.l.size)), w.entries[k].o)
  }

  /**
   Over every run, with any number of requests outstanding and the driver at work between any two accesses of the
   device: each completion the driver can read names the head and the length of the request issued in that place; the
   status byte is OK and, for a read, the buffers hold what the disk holds after exactly the requests issued before it,
   executed one at a time; between two requests the disk itself is that of the requests served so far.
   */
  lemma RunsAreSequential(w: World, steps: seq<Step>)
    requires IsStart(w) && IsRun(w, steps)
    ensures var w' := Run(w, steps);
      && |w'.u.served| <= |w'.entries|
      && (w'.job.Unread? ==> w'.disk == DiskAfter(w.disk, w'.entries[..|w'.u.served|]))
      && forall k :: |w'.u.reaped| <= k < |w'.u.completed| ==> Readable(w', w.disk, k)
  {
    StartInv(w);
    RunKeeps(w, w.disk, steps);
    hide IsRun, Run, IsStart, EntriesInv, QueueInv, ReportInv;
    var w' := Run(w, steps);
    forall k | |w'.u.reaped| <= k < |w'.u.completed|
      ensures Readable(w', w.disk, k)
    {
      ReadableEntry(w', w.disk, k);
    }
  }

  lemma ReadableEntry(w: World, disk: Bytes, k: nat)
    requires WorldInv(w, disk) && |w.u.reaped| <= k < |w.u.completed|
    ensures Readable(w, disk, k)
  {
    hide Answered, Placed, Waits, InProgress, UsedElemAt, DiskAfter, CompletedHeads;
    assert Outstanding(w, k) && EntryInv(w, disk, k);
    assert w.u.ring.used[Slot(k, w.l.size)] == w.u.completed[k];
    assert UsedRing(w.m, w.l.used)[Slot(k, w.l.size)] == w.u.completed[k];
  }

  lemma ServingContinues(w: World, disk: Bytes)
    requires WorldInv(w, disk) && w.u.device.Started?
    ensures Enabled(w, Access) || Enabled(w, Report)
  {
    hide QueueInv, ReportInv, EntriesInv, DiskAfter, CanAdvance;
    if !w.job.Moved? {
      AccessAdvances(w, disk);
    }
  }

  /** In every state of every run the device can make its next access to the request it took, or report it. */
  lemma DeviceIsNeverStuck(w: World, steps: seq<Step>)
    requires IsStart(w) && IsRun(w, steps) && Run(w, steps).u.device.Started?
    ensures Enabled(Run(w, steps), Access) || Enabled(Run(w, steps), Report)
  {
    StartInv(w);
    RunKeeps(w, w.disk, steps);
    hide WorldInv, Run, IsRun, IsStart, Apply, Enabled;
    ServingContinues(Run(w, steps), w.disk);
  }

  // ---- such runs exist ----

  lemma SampleIsPlaced(kind: u32, page: nat, first: nat, memSize: nat, diskSize: nat)
    requires kind == VIRTIO_BLK_T_IN || kind == VIRTIO_BLK_T_OUT
    requires 0x4000 <= page && page + 0x1000 <= memSize <= TWO_TO_THE_64
    requires first + 4 <= QUEUE_SIZE_MAX && SECTOR_SIZE <= diskSize
    ensures Placed(Sample(kind, page, first), memSize, diskSize, SAMPLE_LAYOUT)
  {
    SampleIsProper(kind, page, first, memSize, diskSize);
    hide Order.Proper, Request.Disjoint;
  }

  lemma SamplesAreSeparate()
    ensures Separate(Sample(VIRTIO_BLK_T_OUT, 0x4000, 0), Sample(VIRTIO_BLK_T_IN, 0x5000, 4))
  {
  }

  /** Zeroed memory, nothing issued. */
  function StartWorld(n: nat, disk: Bytes, arms: bool): World {
    World(SAMPLE_LAYOUT, InitQueue(QueueConfig(SAMPLE_LAYOUT.size, true, arms, true)), Zeros(n), disk, [], Unread)
  }

  lemma CanIssue(w: World, o: Order)
    requires Shaped(w) && Placed(o, |w.m|, |w.disk|, w.l) && |w.u.published| - |w.u.reaped| < w.u.ring.size
    requires forall k :: Outstanding(w, k) ==> Separate(w.entries[k].o, o)
    ensures o.Encodable() && Enabled(w, Issue(o))
    ensures var w' := Apply(w, Issue(o));
      && |w'.entries| == |w.entries| + 1 && w'.entries[|w.entries|].o == o && w'.u.ring.size == w.u.ring.size
      && |w'.u.published| == |w.u.published| + 1 && w'.u.reaped == w.u.reaped
  {
    PlacedIsEncodable(o, |w.m|, |w.disk|, w.l);
    HeadIsSlot(o);
    hide Placed, Separate, IssueBytes, Layout.Mapped, Order.Encodable, Gather, Slot;
  }

  /** A driver can issue two requests that are separate before either is served, if the queue has room. */
  lemma IssueTwo(w: World, a: Order, b: Order)
    requires IsStart(w) && w.l.size >= 2 && Separate(a, b)
    requires Placed(a, |w.m|, |w.disk|, w.l) && Placed(b, |w.m|, |w.disk|, w.l)
    ensures IsRun(w, [Issue(a), Issue(b)]) && |Run(w, [Issue(a), Issue(b)]).entries| == 2
  {
    StartIsEmpty(w);
    hide Placed, Separate, Enabled, Apply, Layout.Mapped, IsStart;
    CanIssue(w, a);
    CanIssue(Apply(w, Issue(a)), b);
    TwoSteps(w, Issue(a), Issue(b));
  }

  lemma StartIsEmpty(w: World)
    requires IsStart(w)
    ensures Shaped(w) && w.entries == [] && w.u.published == [] && w.u.reaped == [] && w.u.ring.size == w.l.size
  {
    hide RingOf, Layout.Mapped;
  }

  lemma TwoSteps(w: World, s: Step, t: Step)
    requires Shaped(w) && Enabled(w, s) && Enabled(Apply(w, s), t)
    ensures IsRun(w, [s, t]) && Run(w, [s, t]) == Apply(Apply(w, s), t)
  {
    hide Enabled, Apply;
    assert [s, t][1..] == [t] && [t][1..] == [];
    assert IsRun(Apply(w, s), [t]) && Run(Apply(w, s), [t]) == Apply(Apply(w, s), t);
  }

  /** From there a driver can issue a write and, before it is served, a read. */
  lemma TwoOutstanding(n: nat, disk: Bytes, arms: bool)
    requires 0x6000 <= n <= TWO_TO_THE_64 && SECTOR_SIZE <= |disk|
    ensures var w := StartWorld(n, disk, arms);
      var write, read := Sample(VIRTIO_BLK_T_OUT, 0x4000, 0), Sample(VIRTIO_BLK_T_IN, 0x5000, 4);
      && IsStart(w) && IsRun(w, [Issue(write), Issue(read)])
      && |Run(w, [Issue(write), Issue(read)]).entries| == 2
  {
    ZerosHoldEmptyRing(n, SAMPLE_LAYOUT);
    SampleIsPlaced(VIRTIO_BLK_T_OUT, 0x4000, 0, n, |disk|);
    SampleIsPlaced(VIRTIO_BLK_T_IN, 0x5000, 4, n, |disk|);
    SamplesAreSeparate();
    hide RingOf, Placed, Separate, Zeros, EmptyRing, Sample;
    IssueTwo(StartWorld(n, disk, arms), Sample(VIRTIO_BLK_T_OUT, 0x4000, 0), Sample(VIRTIO_BLK_T_IN, 0x5000, 4));
  }
}
