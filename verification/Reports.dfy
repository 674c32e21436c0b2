/**
 What the guest finds after one turn of a device, at literal places in its memory: the completed head, the reported
 length, the used index, the interrupt. And what a turn with nothing to do leaves: everything.
 */
module Reports {
  import opened Words
  import opened GuestMemory
  import opened Rings
  import opened Queues
  import opened Chains
  import opened Interrupts
  import opened ByteLayout
  import Blk
  import Net
  import Rng

  /** The line: a rising edge is one more signal on the eventfd; a level that stays, or falls, is none. */
  lemma OnlyRisingEdgesSignal(line: Line, level: bool)
    ensures line.Set(level).level == level
    ensures line.Set(level).signals == line.signals + if !line.level && level then 1 else 0
  {
  }

  /** The chain taken next was reported with the given length: at index k = used_idx % size, 8 bytes an element. */
  ghost predicate Reported(p: Port, p': Port, len: nat)
    requires p.l.Mapped(|p.m|) && p'.l == p.l && |p'.m| == |p.m|
  {
    var k, slot := U16At(p.m, p.l.used + 2) % p.l.size, p.lastAvail % p.l.size;
    && k < 512 && slot < 512 && p.l.used + 4102 <= |p.m| && p.l.avail + 1030 <= |p.m|
    && U32At(p'.m, p.l.used + 4 + 8 * k) == U16At(p.m, p.l.avail + 4 + 2 * slot)
    && U32At(p'.m, p.l.used + 8 + 8 * k) == len
    && U16At(p'.m, p.l.used + 2) == (U16At(p.m, p.l.used + 2) + 1) % 0x1_0000
    && p'.lastAvail == p.lastAvail + 1
  }

  lemma OneMoreUsed(r: Ring, e: UsedElem)
    requires r.Configured() && r.CanPop()
    ensures var r' := r.Pop().AddUsed(e);
      && r'.Configured() && r'.lastAvail == r.lastAvail + 1 && r'.usedIdx == (r.usedIdx + 1) % 0x1_0000
      && r'.used[Slot(r.usedIdx, r.size)] == e
  {
    hide Slot;
    PopAdvances(r);
  }

  lemma ReportedOnRing(p: Port, p': Port, len: u32)
    requires p.Waiting() && p'.Mapped() && p'.l == p.l && |p'.m| == |p.m|
    requires p'.Ring() == p.Ring().Pop().AddUsed(UsedElem(p.Head(), len))
    ensures Reported(p, p', len)
    ensures p'.l.avail + 1030 <= |p'.m| && p'.Ring().usedEvent == U16At(p'.m, p'.l.avail + 1028)
    ensures p'.Ring().usedIdx == U16At(p'.m, p'.l.used + 2)
  {
    hide LeValue, U16At, U32At, RingOf, Slot, Layout.Mapped, Ring.Pop, Ring.CanPop, Ring.AvailId, Ring.AddUsed;
    NextLayout(p);
    RingFields(p.m, p.l, p.lastAvail, p.ready);
    OneMoreUsed(p.Ring(), UsedElem(p.Head(), len));
    var idx := U16At(p.m, p.l.used + 2);
    SlotIsRemainder(idx, p.l.size);
    RingLayout(p.m, p.l, p.lastAvail, p.ready, Slot(idx, p.l.size));
    RingLayout(p'.m, p'.l, p'.lastAvail, p'.ready, Slot(idx, p.l.size));
    RingFields(p'.m, p'.l, p'.lastAvail, p'.ready);
  }

  /**
   The block device reports the bytes transferred and one for the status. The line rises exactly if the index just
   written, less one, is what the driver has at byte 1028 of the available ring.
   */
  lemma BlkReports(s: Blk.BlkState)
    requires s.Due() && s.OffRings()
    ensures var p, p', r := s.port, s.Turn().port, s.Current().value;
      && p'.l == p.l && |p'.m| == |p.m| && p.l.used + 4102 <= |p.m| && p.l.avail + 1030 <= |p.m|
      && if r.kind == 0 || r.kind == 1 || r.kind == 8 then
           && Reported(p, p', (Total(r.data) + 1) % 0x1_0000_0000)
           && (s.Turn().line.level <==>
                 s.line.level || U16At(p'.m, p.l.used + 2) as int - 1 == U16At(p'.m, p.l.avail + 1028))
         else
           p' == p.(lastAvail := p.lastAvail + 1) && s.Turn().line == s.line
  {
    hide LeValue, U16At, U32At, RingOf, Blk.RequestAt, Slot, AddUsedBytes, Splice, Scatter, Gather, Reported;
    hide Blk.Request.Spares, Blk.Request.Servable, Total;
    Blk.TurnOnRing(s);
    NextLayout(s.port);
    var r := s.Current().value;
    if r.Handled() {
      ReportedOnRing(s.port, s.Turn().port, r.Reported());
    }
  }

  lemma RxReports(s: Net.NetState, packet: Bytes)
    requires s.SoundRx() && s.port.Waiting() && |packet| <= 65562 && PairwiseApart(s.Bufs())
    requires ApartFrom(s.Bufs(), s.port.l.AvailRange()) && ApartFrom(s.Bufs(), s.port.l.UsedRange())
    ensures var s', room := s.Rx(Some(packet)), Total(s.Bufs());
      && s'.port.l == s.port.l && |s'.port.m| == |s.port.m|
      && Reported(s.port, s'.port, if |packet| < room then |packet| else room)
      && s'.line == s.line.Set(true) && s'.sent == s.sent
  {
    hide LeValue, U16At, U32At, RingOf, Slot, AddUsedBytes, Splice, Net.Pour, Gather, TableOf, Reported;
    hide Net.NetState.Bufs, Net.NetState.Chain, Total;
    Net.RxDelivers(s, packet);
    ReportedOnRing(s.port, s.Rx(Some(packet)).port, Net.Min(|packet|, Total(s.Bufs())));
  }

  lemma TxReports(s: Net.NetState)
    requires s.Sound() && s.port.Waiting() && Total(s.Bufs()) <= 65562
    ensures var s' := s.Tx();
      && s'.port.l == s.port.l && |s'.port.m| == |s.port.m|
      && Reported(s.port, s'.port, Total(s.Bufs())) && s'.line == s.line.Set(true)
  {
    hide LeValue, U16At, U32At, RingOf, Slot, AddUsedBytes, Gather, TableOf, Reported;
    hide Net.NetState.Bufs, Net.NetState.Chain, Total;
    Net.TxSends(s);
    ReportedOnRing(s.port, s.Tx().port, Total(s.Bufs()));
  }

  lemma RngReports(s: Rng.RngState, noise: Bytes)
    requires s.Sound(noise) && s.port.Waiting()
    requires s.Target().Apart(s.port.l.AvailRange()) && s.Target().Apart(s.port.l.UsedRange())
    ensures s.port.l.desc + 16 * (s.port.Head() + 1) <= |s.port.m|
    ensures s.Target() == Range(U64At(s.port.m, s.port.l.desc + 16 * s.port.Head()),
                                U32At(s.port.m, s.port.l.desc + 16 * s.port.Head() + 8))
    ensures var s', len := s.Turn(noise), U32At(s.port.m, s.port.l.desc + 16 * s.port.Head() + 8);
      && s'.port.l == s.port.l && |s'.port.m| == |s.port.m|
      && Reported(s.port, s'.port, len) && s'.line == s.line.Set(true)
  {
    hide LeValue, U16At, U32At, RingOf, Slot, AddUsedBytes, Splice, Reported, DescAt;
    Rng.TurnDelivers(s, noise);
    DescriptorLayout(s.port.m, s.port.l.desc, s.port.Head());
    ReportedOnRing(s.port, s.Turn(noise).port, s.Target().len);
  }

  /** A poll that finds no new chain changes nothing, whichever device polls. */
  lemma IdlePolls(b: Blk.BlkState, n: Net.NetState, packet: Option<Bytes>, g: Rng.RngState, noise: Bytes)
    ensures b.Sound() && !b.port.Waiting() ==> b.Turn() == b
    ensures n.SoundRx() && !n.port.Waiting() && (packet.Some? ==> |packet.value| <= 65562) ==> n.Rx(packet) == n
    ensures n.SoundTx() && !n.port.Waiting() ==> n.Tx() == n
    ensures g.Sound(noise) && !g.port.Waiting() ==> g.Turn(noise) == g
  {
  }
}
