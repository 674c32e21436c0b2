/**
 The device loops, run on bytes, are runs of the step system: a turn of a device on guest memory and a sequence of
 system steps of the same queue lead to the same ring and the same interrupt line.
 */
module DeviceRuns {
  import opened Words
  import opened GuestMemory
  import opened Rings
  import opened Queues
  import opened Interrupts
  import opened VirtioSystem
  import Blk
  import Chains
  import Net
  import Rng

  /** Queue q of the system is the queue behind the port, its device thread is at the top of its loop. */
  ghost predicate Matches(sys: System, q: nat, p: Port, line: Line) {
    && Shaped(sys) && q < |sys.queues| && p.Mapped()
    && sys.queues[q].ring == p.Ring() && sys.queues[q].device.Polling?
    && sys.line == line
  }

  /** Only the device of queue q moved: driver, other queues and the driver's own counters are as before. */
  ghost predicate OnlyDevice(sys: System, sys': System, q: nat)
    requires q < |sys.queues| == |sys'.queues|
  {
    && sys'.driver == sys.driver
    && sys'.queues == sys.queues[q := sys'.queues[q]]
    && sys'.queues[q].published == sys.queues[q].published && sys'.queues[q].reaped == sys.queues[q].reaped
  }

  /** next(), avail_id(), serving, add_used(), the notification test, and set_level(true) if it says so. */
  lemma CompletingRun(sys: System, q: nat, p: Port, line: Line, p': Port, line': Line, len: u32)
    returns (actions: seq<Action>)
    requires Matches(sys, q, p, line) && p.Waiting() && p'.Mapped()
    requires p'.Ring() == p.Ring().Pop().AddUsed(UsedElem(p.Head(), len))
    requires line' == if !sys.queues[q].usesEvent || p'.Ring().WantsInterrupt(p'.Ring().usedIdx) then line.Set(true)
                      else line
    ensures IsRun(sys, actions)
    ensures var sys' := Run(sys, actions);
      && Matches(sys', q, p', line') && OnlyDevice(sys, sys', q)
      && sys'.queues[q].completed == sys.queues[q].completed + [UsedElem(p.Head(), len)]
  {
    hide RingOf, Slot, ApplyOps, OpsEnabled;
    var u := sys.queues[q];
    var u1 := ApplyOp(u, Pop);
    var u2 := ApplyOp(u1, Start);
    var u3 := ApplyOp(u2, Complete(len));
    var u4 := ApplyOp(u3, Decide);
    assert u3.ring == p'.Ring();
    NoOps(u4);
    OpsCons(u3, Decide, []);
    OpsCons(u2, Complete(len), [Decide] + []);
    OpsCons(u1, Start, [Complete(len)] + ([Decide] + []));
    OpsCons(u, Pop, [Start] + ([Complete(len)] + ([Decide] + [])));
    actions := LocalRun(sys, q, [Pop] + ([Start] + ([Complete(len)] + ([Decide] + []))));
    if u4.device.Raising? {
      actions := Then(sys, actions, On(q, Raise));
    }
  }

  /** next(), avail_id(), and an unhandled request. */
  lemma DroppingRun(sys: System, q: nat, p: Port, line: Line, p': Port) returns (actions: seq<Action>)
    requires Matches(sys, q, p, line) && p.Waiting() && p'.Mapped() && p'.Ring() == p.Ring().Pop()
    ensures IsRun(sys, actions) && Matches(Run(sys, actions), q, p', line) && OnlyDevice(sys, Run(sys, actions), q)
  {
    hide RingOf, Slot, ApplyOps, OpsEnabled;
    var u := sys.queues[q];
    var u1 := ApplyOp(u, Pop);
    var u2 := ApplyOp(u1, Start);
    NoOps(ApplyOp(u2, Drop));
    OpsCons(u2, Drop, []);
    OpsCons(u1, Start, [Drop] + []);
    OpsCons(u, Pop, [Start] + ([Drop] + []));
    actions := LocalRun(sys, q, [Pop] + ([Start] + ([Drop] + [])));
  }

  lemma BlkTurnIsRun(sys: System, q: nat, s: Blk.BlkState) returns (actions: seq<Action>)
    requires Matches(sys, q, s.port, s.line) && sys.queues[q].usesEvent && s.Due() && s.OffRings()
    ensures IsRun(sys, actions)
    ensures Matches(Run(sys, actions), q, s.Turn().port, s.Turn().line) && OnlyDevice(sys, Run(sys, actions), q)
  {
    hide RingOf, Blk.RequestAt, Blk.Serve, Blk.BlkState.Turn;
    Blk.TurnOnRing(s);
    match Blk.Serve(s.port.m, s.disk, s.Current().value)
    case Dropped =>
      actions := DroppingRun(sys, q, s.port, s.line, s.Turn().port);
    case Done(_, _, _) =>
      actions := CompletingRun(sys, q, s.port, s.line, s.Turn().port, s.Turn().line, s.Current().value.Reported());
  }

  /** The receive loop without a packet is next() and pop_back(). */
  lemma RxIdleIsRun(sys: System, q: nat, s: Net.NetState) returns (actions: seq<Action>)
    requires Matches(sys, q, s.port, s.line) && s.SoundRx() && s.port.Waiting()
    ensures IsRun(sys, actions) && Run(sys, actions) == sys
    ensures s.Rx(None) == s
  {
    hide RingOf, ApplyOps, OpsEnabled;
    Net.RxWithoutPacket(s);
    var u := sys.queues[q];
    var u1 := ApplyOp(u, Pop);
    PopThenPopBack(u.ring);
    NoOps(u);
    OpsCons(u1, PutBack, []);
    OpsCons(u, Pop, [PutBack] + []);
    actions := LocalRun(sys, q, [Pop] + ([PutBack] + []));
    assert sys.queues[q := u] == sys.queues;
  }

  lemma RxIsRun(sys: System, q: nat, s: Net.NetState, packet: Bytes) returns (actions: seq<Action>)
    requires Matches(sys, q, s.port, s.line) && !sys.queues[q].usesEvent
    requires s.SoundRx() && s.port.Waiting() && |packet| <= Net.BUFFER_LEN && Chains.PairwiseApart(s.Bufs())
    requires Chains.ApartFrom(s.Bufs(), s.port.l.AvailRange()) && Chains.ApartFrom(s.Bufs(), s.port.l.UsedRange())
    ensures IsRun(sys, actions)
    ensures var s' := s.Rx(Some(packet));
      Matches(Run(sys, actions), q, s'.port, s'.line) && OnlyDevice(sys, Run(sys, actions), q)
  {
    hide RingOf, Net.NetState.Bufs, Net.NetState.Chain;
    Net.RxDelivers(s, packet);
    var s' := s.Rx(Some(packet));
    actions := CompletingRun(sys, q, s.port, s.line, s'.port, s'.line, Net.Min(|packet|, Chains.Total(s.Bufs())));
  }

  lemma TxIsRun(sys: System, q: nat, s: Net.NetState) returns (actions: seq<Action>)
    requires Matches(sys, q, s.port, s.line) && !sys.queues[q].usesEvent && s.SoundTx() && s.port.Waiting()
    ensures IsRun(sys, actions)
    ensures Matches(Run(sys, actions), q, s.Tx().port, s.Tx().line) && OnlyDevice(sys, Run(sys, actions), q)
  {
    hide RingOf, Net.NetState.Bufs, Net.NetState.Chain;
    Net.TxSends(s);
    actions := CompletingRun(sys, q, s.port, s.line, s.Tx().port, s.Tx().line, Chains.Total(s.Bufs()));
  }

  lemma RngTurnIsRun(sys: System, q: nat, s: Rng.RngState, noise: Bytes) returns (actions: seq<Action>)
    requires Matches(sys, q, s.port, s.line) && !sys.queues[q].usesEvent && s.Sound(noise) && s.port.Waiting()
    requires s.Target().Apart(s.port.l.AvailRange()) && s.Target().Apart(s.port.l.UsedRange())
    ensures IsRun(sys, actions)
    ensures var s' := s.Turn(noise);
      Matches(Run(sys, actions), q, s'.port, s'.line) && OnlyDevice(sys, Run(sys, actions), q)
  {
    hide RingOf;
    Rng.TurnDelivers(s, noise);
    var s' := s.Turn(noise);
    actions := CompletingRun(sys, q, s.port, s.line, s'.port, s'.line, s.Target().len);
  }
}
