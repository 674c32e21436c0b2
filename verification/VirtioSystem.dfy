/**
 The virtqueue protocol as a step system: any number of queues whose device threads share one interrupt line, and one
 guest driver. Every step is one atomic action of the source (a critical section or a single memory access) or of a
 driver that follows VIRTIO 1.1; the steps of different parties interleave freely. A ring entry and the index that makes
 it visible count as one step. Whether the driver writes used_event, and whether it looks at the used index once more
 after that, is part of the configuration: section 2.6.7 of VIRTIO 1.1 has it write used_event only after EVENT_IDX was
 negotiated. Device steps use the operations of `Rings`, which the byte-level methods of `Queues` implement.
 */
module VirtioSystem {
  import opened Words
  import opened Rings
  import opened Interrupts

  /** Where a device thread stands in its service loop. */
  datatype DevicePc =
    | Polling
    | Popped                // next() returned a descriptor
    | Started(id: u16)      // avail_id() was read: the chain is being served
    | Added(idx: u16)       // add_used() returned idx
    | Raising               // about to call set_level(true)

  /** Where the guest's interrupt handler stands. */
  datatype DriverPc =
    | Idle
    | Acking                // interrupt taken, not yet acknowledged
    | Reaping(q: nat)       // collecting used elements of queue q
    | Drained(q: nat)       // saw nothing more in queue q, about to write used_event (if it does that)
    | Armed(q: nat)         // about to look at queue q once more (if it does that) and to go on
  {
    predicate Visiting() { Reaping? || Drained? || Armed? }
  }

  datatype QueueState = QueueState(
    usesEvent: bool,        // blk: interrupt only at used_event; net and rng: always interrupt
    arms: bool,             // does the driver write used_event?
    rechecks: bool,         // does it look at the used index once more after that?
    ring: Ring,
    device: DevicePc,
    published: seq<u16>,    // heads in the order the driver made them available
    served: seq<bool>,      // one per chain the device is done with: was it completed?
    completed: seq<UsedElem>,
    reaped: seq<UsedElem>)  // what the driver read from the used ring
  {
    function Seen(): u16 { |reaped| % TWO_TO_THE_16 }
  }

  datatype System = System(queues: seq<QueueState>, line: Line, driver: DriverPc)

  /** A step on one queue: the driver's Publish, Reap and Arm, and the steps of the device thread. */
  datatype QueueOp =
    | Publish(head: u16)
    | Pop
    | PutBack
    | Start
    | Drop
    | Complete(len: u32)
    | Decide
    | Raise
    | Reap
    | Arm

  datatype Action =
    | On(q: nat, op: QueueOp)
    | TakeInterrupt
    | Acknowledge
    | LookEmpty
    | Recheck

  // ---- configurations and initial states ----

  datatype QueueConfig = QueueConfig(size: nat, usesEvent: bool, arms: bool, rechecks: bool)

  /** A queue size is a power of two of at most QUEUE_SIZE_MAX (section 2.6 of VIRTIO 1.1 and the register limit). */
  predicate ValidSize(size: nat) {
    size in {1, 2, 4, 8, 16, 32, 64, 128, 256, 512}
  }

  predicate ValidConfig(c: seq<QueueConfig>) {
    c != [] && forall q :: 0 <= q < |c| ==> ValidSize(c[q].size)
  }

  function InitQueue(c: QueueConfig): QueueState {
    QueueState(c.usesEvent, c.arms, c.rechecks, EmptyRing(c.size), Polling, [], [], [], [])
  }

  function Init(c: seq<QueueConfig>): System {
    System(seq(|c|, q requires 0 <= q < |c| => InitQueue(c[q])), Line(false, 0), Idle)
  }

  // ---- steps ----

  predicate OpEnabled(u: QueueState, op: QueueOp) {
    match op
    case Publish(_) => |u.published| - |u.reaped| < u.ring.size
    case Pop => u.device.Polling? && u.ring.CanPop()
    case PutBack => u.device.Popped?
    case Start => u.device.Popped?
    case Drop => u.device.Started?
    case Complete(_) => u.device.Started?
    case Decide => u.device.Added?
    case Raise => u.device.Raising?
    case Reap => u.ring.usedIdx != u.Seen()
    case Arm => true
  }

  function ApplyOp(u: QueueState, op: QueueOp): (u': QueueState)
    requires u.ring.Configured() && OpEnabled(u, op)
    ensures u'.ring.Configured()
  {
    match op
    case Publish(head) =>
      u.(ring := u.ring.Publish(|u.published|, head), published := u.published + [head])
    case Pop => u.(ring := u.ring.Pop(), device := Popped)
    case PutBack => u.(ring := u.ring.PopBack(), device := Polling)
    case Start => u.(device := Started(u.ring.AvailId()))
    case Drop => u.(device := Polling, served := u.served + [false])
    case Complete(len) =>
      var e := UsedElem(u.device.id, len);
      var r := u.ring.AddUsed(e);
      u.(ring := r, device := Added(r.usedIdx), served := u.served + [true], completed := u.completed + [e])
    case Decide =>
      u.(device := if !u.usesEvent || u.ring.WantsInterrupt(u.device.idx) then Raising else Polling)
    case Raise => u.(device := Polling)
    case Reap => u.(reaped := u.reaped + [u.ring.used[Slot(u.Seen(), u.ring.size)]])
    case Arm => if u.arms then u.(ring := u.ring.Arm(u.Seen())) else u
  }

  /** Well-formedness the steps need in order to be defined. */
  predicate Shaped(s: System) {
    && s.queues != []
    && (forall q :: 0 <= q < |s.queues| ==> s.queues[q].ring.Configured())
    && (s.driver.Visiting() ==> s.driver.q < |s.queues|)
  }

  predicate Enabled(s: System, a: Action)
    requires Shaped(s)
  {
    match a
    case On(q, op) =>
      && q < |s.queues| && OpEnabled(s.queues[q], op)
      && (op.Reap? ==> s.driver == Reaping(q)) && (op.Arm? ==> s.driver == Drained(q))
    case TakeInterrupt => s.driver.Idle? && s.line.signals > 0
    case Acknowledge => s.driver.Acking?
    case LookEmpty => s.driver.Reaping? && s.queues[s.driver.q].ring.usedIdx == s.queues[s.driver.q].Seen()
    case Recheck => s.driver.Armed?
  }

  function Apply(s: System, a: Action): (s': System)
    requires Shaped(s) && Enabled(s, a)
    ensures Shaped(s') && |s'.queues| == |s.queues|
  {
    match a
    case On(q, op) =>
      var s' := s.(queues := s.queues[q := ApplyOp(s.queues[q], op)]);
      if op.Raise? then s'.(line := s.line.Set(true))
      else if op.Arm? then s'.(driver := Armed(q))
      else s'
    case TakeInterrupt => s.(driver := Acking, line := s.line.(signals := 0))
    case Acknowledge => s.(driver := Reaping(0), line := s.line.Set(false))
    case LookEmpty => s.(driver := Drained(s.driver.q))
    case Recheck =>
      var q := s.driver.q;
      if s.queues[q].rechecks && s.queues[q].ring.usedIdx != s.queues[q].Seen() then s.(driver := Reaping(q))
      else if q + 1 < |s.queues| then s.(driver := Reaping(q + 1))
      else s.(driver := Idle)
  }

  predicate IsRun(s: System, actions: seq<Action>)
    requires Shaped(s)
    decreases |actions|
  {
    actions == [] || (Enabled(s, actions[0]) && IsRun(Apply(s, actions[0]), actions[1..]))
  }

  function Run(s: System, actions: seq<Action>): (s': System)
    requires Shaped(s) && IsRun(s, actions)
    ensures Shaped(s') && |s'.queues| == |s.queues|
    decreases |actions|
  {
    if actions == [] then s else Run(Apply(s, actions[0]), actions[1..])
  }

  /** Prolongs a run by one step. */
  lemma {:induction false} Then(s: System, actions: seq<Action>, a: Action) returns (longer: seq<Action>)
    requires Shaped(s) && IsRun(s, actions) && Enabled(Run(s, actions), a)
    ensures longer == actions + [a]
    ensures IsRun(s, longer) && Run(s, longer) == Apply(Run(s, actions), a)
    decreases |actions|
  {
    longer := actions + [a];
    if actions == [] {
      assert Run(Apply(s, a), longer[1..]) == Apply(s, a);
    } else {
      assert longer[1..] == actions[1..] + [a];
      var _ := Then(Apply(s, actions[0]), actions[1..], a);
    }
  }

  /** Concatenates two runs. */
  lemma {:induction false} Join(s: System, first: seq<Action>, second: seq<Action>) returns (both: seq<Action>)
    requires Shaped(s) && IsRun(s, first) && IsRun(Run(s, first), second)
    ensures both == first + second && IsRun(s, both) && Run(s, both) == Run(Run(s, first), second)
    decreases |first|
  {
    both := first + second;
    if first == [] {
      assert both == second;
    } else {
      assert both[1..] == first[1..] + second;
      var _ := Join(Apply(s, first[0]), first[1..], second);
    }
  }

  // ---- several operations on one queue ----

  /** Operations that concern nothing but their queue. */
  predicate Local(op: QueueOp) { !op.Raise? && !op.Reap? && !op.Arm? }

  predicate OpsEnabled(u: QueueState, ops: seq<QueueOp>)
    requires u.ring.Configured()
    decreases |ops|
  {
    ops == [] || (Local(ops[0]) && OpEnabled(u, ops[0]) && OpsEnabled(ApplyOp(u, ops[0]), ops[1..]))
  }

  function ApplyOps(u: QueueState, ops: seq<QueueOp>): (u': QueueState)
    requires u.ring.Configured() && OpsEnabled(u, ops)
    ensures u'.ring.Configured()
    decreases |ops|
  {
    if ops == [] then u else ApplyOps(ApplyOp(u, ops[0]), ops[1..])
  }

  lemma NoOps(u: QueueState)
    requires u.ring.Configured()
    ensures OpsEnabled(u, []) && ApplyOps(u, []) == u
  {
  }

  lemma OpsCons(u: QueueState, op: QueueOp, rest: seq<QueueOp>)
    requires u.ring.Configured() && Local(op) && OpEnabled(u, op) && OpsEnabled(ApplyOp(u, op), rest)
    ensures OpsEnabled(u, [op] + rest) && ApplyOps(u, [op] + rest) == ApplyOps(ApplyOp(u, op), rest)
  {
    assert ([op] + rest)[1..] == rest;
  }

  /** They are a run of the system that changes nothing else. */
  lemma {:induction false} LocalRun(s: System, q: nat, ops: seq<QueueOp>) returns (actions: seq<Action>)
    requires Shaped(s) && q < |s.queues| && OpsEnabled(s.queues[q], ops)
    ensures IsRun(s, actions) && Run(s, actions) == s.(queues := s.queues[q := ApplyOps(s.queues[q], ops)])
    decreases |ops|
  {
    hide ApplyOp, OpEnabled;
    if ops == [] {
      actions := [];
      assert s.queues[q := s.queues[q]] == s.queues;
    } else {
      var a := On(q, ops[0]);
      var s' := Apply(s, a);
      assert s' == s.(queues := s.queues[q := ApplyOp(s.queues[q], ops[0])]);
      var rest := LocalRun(s', q, ops[1..]);
      actions := [a] + rest;
      assert actions[1..] == rest;
      assert s'.queues[q := ApplyOps(s.queues[q], ops)] == s.queues[q := ApplyOps(s.queues[q], ops)];
    }
  }

  // ---- the ring invariant: order, exactly-once, no overwritten slot ----

  /** The heads of the chains that were completed rather than dropped, in order. */
  function CompletedHeads(published: seq<u16>, served: seq<bool>): seq<u16>
    requires |served| <= |published|
  {
    if served == [] then []
    else
      var n := |served| - 1;
      CompletedHeads(published, served[..n]) + if served[n] then [published[n]] else []
  }

  predicate InService(u: QueueState) { u.device.Popped? || u.device.Started? }

  function Ids(es: seq<UsedElem>): (ids: seq<u32>)
    ensures |ids| == |es|
    ensures forall k :: 0 <= k < |es| ==> ids[k] == es[k].id
  {
    seq(|es|, k requires 0 <= k < |es| => es[k].id)
  }

  /** At most `size` chains are outstanding, and the device is at most one chain ahead of what it has reported. */
  predicate CountersInv(u: QueueState) {
    var r, p := u.ring, |u.published|;
    && r.Configured() && ValidSize(r.size) && r.ready
    && r.availIdx == p % TWO_TO_THE_16
    && r.usedIdx == |u.completed| % TWO_TO_THE_16
    && |u.reaped| <= |u.completed| <= |u.served| <= r.lastAvail <= p <= |u.reaped| + r.size
    && r.lastAvail < TWO_TO_THE_16
    && r.lastAvail - |u.served| == (if InService(u) then 1 else 0)
    && (u.device.Added? ==> u.device.idx == |u.completed| != 0)
  }

  /** Every chain the device is not done with is still in its available-ring slot. */
  ghost predicate AvailInv(u: QueueState)
    requires CountersInv(u)
  {
    && (forall k {:trigger u.published[k]} ::
          |u.served| <= k < |u.published| ==> u.ring.avail[Slot(k, u.ring.size)] == u.published[k])
    && (u.device.Started? ==> u.device.id == u.published[|u.served|])
  }

  /** Every completion the driver has not read is still in its slot; what it has read is what was completed. */
  ghost predicate UsedInv(u: QueueState)
    requires CountersInv(u)
  {
    && (forall k {:trigger u.completed[k]} ::
          |u.reaped| <= k < |u.completed| ==> u.ring.used[Slot(k, u.ring.size)] == u.completed[k])
    && u.reaped <= u.completed
  }

  ghost predicate RingInv(u: QueueState) {
    && CountersInv(u) && AvailInv(u) && UsedInv(u)
    && Ids(u.completed) == CompletedHeads(u.published, u.served)
  }

  ghost predicate Inv(s: System) {
    Shaped(s) && forall q :: 0 <= q < |s.queues| ==> RingInv(s.queues[q])
  }

  lemma CompletedHeadsIgnoresLater(published: seq<u16>, head: u16, served: seq<bool>)
    requires |served| <= |published|
    ensures CompletedHeads(published + [head], served) == CompletedHeads(published, served)
  {
  }

  lemma OneMoreServed(published: seq<u16>, served: seq<bool>, done: bool)
    requires |served| < |published|
    ensures CompletedHeads(published, served + [done])
         == CompletedHeads(published, served) + if done then [published[|served|]] else []
  {
    assert (served + [done])[..|served|] == served;
  }

  lemma TakingKeepsCounters(u: QueueState, op: QueueOp)
    requires CountersInv(u) && OpEnabled(u, op) && (op.Pop? || op.PutBack?)
    ensures CountersInv(ApplyOp(u, op))
  {
    hide Slot, Ring.Pop, Ring.PopBack;
    if op.Pop? {
      PopAdvances(u.ring);
    } else {
      PopBackRetreats(u.ring);
    }
    WrappedIsSmaller(u.ring.availIdx, |u.published|);
  }

  lemma WrappedIsSmaller(x: u16, p: nat)
    requires x == p % TWO_TO_THE_16
    ensures x <= p
  {
  }

  lemma DriverKeepsCounters(u: QueueState, op: QueueOp)
    requires CountersInv(u) && OpEnabled(u, op) && (op.Publish? || op.Reap?)
    ensures CountersInv(ApplyOp(u, op))
  {
    hide Slot;
    assert op.Reap? ==> |u.reaped| < |u.completed|;
  }

  lemma OpKeepsCounters(u: QueueState, op: QueueOp)
    requires CountersInv(u) && OpEnabled(u, op)
    ensures CountersInv(ApplyOp(u, op))
  {
    hide Slot;
    if op.Pop? || op.PutBack? {
      TakingKeepsCounters(u, op);
    } else if op.Publish? || op.Reap? {
      DriverKeepsCounters(u, op);
    }
  }

  lemma PublishKeepsRing(u: QueueState, head: u16)
    requires RingInv(u) && OpEnabled(u, Publish(head))
    ensures RingInv(ApplyOp(u, Publish(head)))
  {
    hide Slot, CompletedHeads, Ids;
    var p, size, u' := |u.published|, u.ring.size, ApplyOp(u, Publish(head));
    OpKeepsCounters(u, Publish(head));
    SlotOfCounter(p, size);
    CompletedHeadsIgnoresLater(u.published, head, u.served);
    forall k | |u.served| <= k < p + 1
      ensures u'.ring.avail[Slot(k, size)] == u'.published[k]
    {
      if k < p {
        DistinctSlots(k, p, size);
        assert u'.published[k] == u.published[k];
      }
    }
  }

  lemma CompleteKeepsUsed(u: QueueState, len: u32)
    requires CountersInv(u) && UsedInv(u) && OpEnabled(u, Complete(len))
    ensures CountersInv(ApplyOp(u, Complete(len))) && UsedInv(ApplyOp(u, Complete(len)))
  {
    hide Slot, CompletedHeads, Ids;
    var c, size, u' := |u.completed|, u.ring.size, ApplyOp(u, Complete(len));
    OpKeepsCounters(u, Complete(len));
    forall k | |u.reaped| <= k < c + 1
      ensures u'.ring.used[Slot(k, size)] == u'.completed[k]
    {
      if k < c {
        DistinctSlots(k, c, size);
        assert u'.completed[k] == u.completed[k];
      }
    }
  }

  lemma CompleteKeepsRing(u: QueueState, len: u32)
    requires RingInv(u) && OpEnabled(u, Complete(len))
    ensures RingInv(ApplyOp(u, Complete(len)))
  {
    hide Slot, CompletedHeads;
    CompleteKeepsUsed(u, len);
    OneMoreServed(u.published, u.served, true);
    assert Ids(ApplyOp(u, Complete(len)).completed) == Ids(u.completed) + [u.published[|u.served|]];
  }

  /** Between next() and avail_id() the driver cannot reuse the slot of the chain in service. */
  lemma StartKeepsRing(u: QueueState)
    requires RingInv(u) && OpEnabled(u, Start)
    ensures RingInv(ApplyOp(u, Start))
  {
    hide Slot, CompletedHeads, Ids;
    OpKeepsCounters(u, Start);
    assert u.published[|u.served|] == u.ring.AvailId();
  }

  lemma DropKeepsRing(u: QueueState)
    requires RingInv(u) && OpEnabled(u, Drop)
    ensures RingInv(ApplyOp(u, Drop))
  {
    hide Slot, CompletedHeads, Ids;
    OpKeepsCounters(u, Drop);
    OneMoreServed(u.published, u.served, false);
  }

  lemma ReapKeepsRing(u: QueueState)
    requires RingInv(u) && OpEnabled(u, Reap)
    ensures RingInv(ApplyOp(u, Reap))
  {
    hide Slot, CompletedHeads, Ids;
    OpKeepsCounters(u, Reap);
    var n, u' := |u.reaped|, ApplyOp(u, Reap);
    assert u.Seen() == n < |u.completed|;
    assert u'.reaped == u.reaped + [u.completed[n]];
  }

  lemma ArmKeepsRing(u: QueueState)
    requires RingInv(u) && OpEnabled(u, Arm)
    ensures RingInv(ApplyOp(u, Arm))
  {
    hide Slot, CompletedHeads, Ids;
    OpKeepsCounters(u, Arm);
    assert forall k :: 0 <= k ==> Slot(k, u.ring.size) < u.ring.size;
  }

  predicate IsMove(op: QueueOp) { op.Pop? || op.PutBack? || op.Decide? || op.Raise? }

  /** The remaining operations move the device along without touching ring memory or history. */
  lemma MoveKeepsRing(u: QueueState, op: QueueOp)
    requires RingInv(u) && OpEnabled(u, op) && IsMove(op)
    ensures RingInv(ApplyOp(u, op))
  {
    hide Slot, CompletedHeads, Ids;
    OpKeepsCounters(u, op);
    var u' := ApplyOp(u, op);
    assert u' == u.(ring := u.ring.(lastAvail := u'.ring.lastAvail), device := u'.device);
  }

  lemma OpKeepsRing(u: QueueState, op: QueueOp)
    requires RingInv(u) && OpEnabled(u, op)
    ensures RingInv(ApplyOp(u, op))
  {
    match op
    case Publish(head) => PublishKeepsRing(u, head);
    case Complete(len) => CompleteKeepsRing(u, len);
    case Start => StartKeepsRing(u);
    case Drop => DropKeepsRing(u);
    case Reap => ReapKeepsRing(u);
    case Arm => ArmKeepsRing(u);
    case _ => MoveKeepsRing(u, op);
  }

  lemma StepKeepsInv(s: System, a: Action)
    requires Inv(s) && Enabled(s, a)
    ensures Inv(Apply(s, a))
  {
    if a.On? {
      OpKeepsRing(s.queues[a.q], a.op);
    }
  }

  lemma {:induction false} RunKeepsInv(s: System, actions: seq<Action>)
    requires Inv(s) && IsRun(s, actions)
    ensures Inv(Run(s, actions))
    decreases |actions|
  {
    if actions != [] {
      StepKeepsInv(s, actions[0]);
      RunKeepsInv(Apply(s, actions[0]), actions[1..]);
    }
  }

  lemma InitInv(c: seq<QueueConfig>)
    requires ValidConfig(c)
    ensures Inv(Init(c))
  {
  }

  /** Every state a run of the system can reach satisfies the ring invariant. */
  lemma ReachableInv(c: seq<QueueConfig>, actions: seq<Action>)
    requires ValidConfig(c) && IsRun(Init(c), actions)
    ensures Inv(Run(Init(c), actions))
  {
    InitInv(c);
    RunKeepsInv(Init(c), actions);
  }

  // ---- in-order, exactly-once completion ----

  lemma {:induction false} AllServedHeads(published: seq<u16>, served: seq<bool>)
    requires |served| <= |published| && false !in served
    ensures CompletedHeads(published, served) == published[..|served|]
  {
    if served != [] {
      AllServedHeads(published, served[..|served| - 1]);
    }
  }

  /**
   Over every run, of any length: what the device reports is the published heads in order, each once, less the requests
   it chose to drop; the device is at most one chain ahead of its reports; the driver reads exactly what was reported,
   in order; and no completion is overwritten before the driver reads it.
   */
  lemma InOrderExactlyOnce(c: seq<QueueConfig>, actions: seq<Action>, q: nat)
    requires ValidConfig(c) && IsRun(Init(c), actions) && q < |c|
    ensures var u := Run(Init(c), actions).queues[q];
      && |u.served| <= |u.published|
      && Ids(u.completed) == CompletedHeads(u.published, u.served)
      && (false !in u.served ==> Ids(u.completed) == u.published[..|u.served|])
      && 0 <= u.ring.lastAvail - |u.served| <= 1
      && u.reaped <= u.completed
      && (forall k {:trigger u.completed[k]} ::
            |u.reaped| <= k < |u.completed| ==> u.ring.used[Slot(k, u.ring.size)] == u.completed[k])
  {
    ReachableInv(c, actions);
    var u := Run(Init(c), actions).queues[q];
    assert RingInv(u);
    if false !in u.served {
      AllServedHeads(u.published, u.served);
    }
  }

  // ---- no lost wake-up ----

  ghost predicate CountersAll(s: System) {
    Shaped(s) && forall q :: 0 <= q < |s.queues| ==> CountersInv(s.queues[q])
  }

  lemma StepKeepsCounters(s: System, a: Action)
    requires CountersAll(s) && Enabled(s, a)
    ensures CountersAll(Apply(s, a))
  {
    if a.On? {
      OpKeepsCounters(s.queues[a.q], a.op);
    }
  }

  /**
   The handler has looked at queue q for the last time: it has moved on, or it has found the queue drained and will not
   depend on another look, because the device interrupts for every completion.
   */
  predicate PastVisit(s: System, q: nat)
    requires q < |s.queues|
  {
    || s.driver.Idle?
    || (s.driver.Visiting() && q < s.driver.q)
    || ((s.driver == Drained(q) || s.driver == Armed(q)) && !s.queues[q].usesEvent)
  }

  /** The handler is at queue q and has not written used_event since. */
  predicate Unarmed(s: System, q: nat) { s.driver == Reaping(q) || s.driver == Drained(q) }

  /** The device is between add_used() and set_level(), on its way to raising the line. */
  predicate Notifying(u: QueueState) {
    u.device.Raising? || (u.device.Added? && (u.usesEvent ==> |u.completed| == |u.reaped| + 1))
  }

  /** The interrupt line: high exactly from the eventfd write until the driver acknowledges. */
  predicate LineInv(s: System) {
    && s.line.signals == (if s.line.level && !s.driver.Acking? then 1 else 0)
    && (s.driver.Acking? ==> s.line.level)
  }

  /** For a queue that interrupts at used_event: the driver writes it where the device reads it, and looks again. */
  predicate EventPlaced(u: QueueState) { u.usesEvent ==> u.arms && u.rechecks && u.ring.size == QUEUE_SIZE_MAX }

  /**
   Unless the handler is at it, the queue is armed at what the driver has seen; and if the handler has looked at it for
   the last time, unread completions mean that an interrupt is pending or that the device is about to raise one.
   */
  predicate QueueWake(u: QueueState, unarmed: bool, past: bool, pending: bool) {
    && EventPlaced(u)
    && (u.usesEvent && !unarmed ==> u.ring.usedEvent == u.Seen())
    && (past ==> |u.completed| == |u.reaped| || pending || Notifying(u))
    && (unarmed && past ==> !u.usesEvent)
  }

  lemma OpKeepsQueueWake(u: QueueState, op: QueueOp, unarmed: bool, past: bool, pending: bool)
    requires CountersInv(u) && OpEnabled(u, op) && QueueWake(u, unarmed, past, pending)
    requires (op.Reap? ==> unarmed && !past) && (op.Arm? ==> unarmed)
    ensures QueueWake(ApplyOp(u, op), unarmed && !op.Arm?, past, pending || op.Raise?)
  {
  }

  ghost predicate WakeInv(s: System) {
    && CountersAll(s) && LineInv(s)
    && forall q :: 0 <= q < |s.queues| ==>
         QueueWake(s.queues[q], Unarmed(s, q), PastVisit(s, q), s.line.signals == 1)
  }

  lemma OpKeepsWake(s: System, q: nat, op: QueueOp)
    requires WakeInv(s) && Enabled(s, On(q, op))
    ensures WakeInv(Apply(s, On(q, op)))
  {
    StepKeepsCounters(s, On(q, op));
    OpKeepsQueueWake(s.queues[q], op, Unarmed(s, q), PastVisit(s, q), s.line.signals == 1);
  }

  /** The handler's own steps: a queue it moves past was found to have nothing unread after it was armed. */
  lemma HandlerKeepsWake(s: System, a: Action)
    requires WakeInv(s) && Enabled(s, a) && !a.On?
    ensures WakeInv(Apply(s, a))
  {
    var s' := Apply(s, a);
    assert s'.queues == s.queues;
    if a.LookEmpty? || a.Recheck? {
      var u := s.queues[s.driver.q];
      assert CountersInv(u);
      assert u.ring.usedIdx == u.Seen() ==> |u.completed| == |u.reaped|;
    }
    assert LineInv(s');
    forall q | 0 <= q < |s'.queues|
      ensures QueueWake(s'.queues[q], Unarmed(s', q), PastVisit(s', q), s'.line.signals == 1)
    {
      assert QueueWake(s.queues[q], Unarmed(s, q), PastVisit(s, q), s.line.signals == 1);
    }
  }

  lemma StepKeepsWake(s: System, a: Action)
    requires WakeInv(s) && Enabled(s, a)
    ensures WakeInv(Apply(s, a))
  {
    if a.On? {
      OpKeepsWake(s, a.q, a.op);
    } else {
      HandlerKeepsWake(s, a);
    }
  }

  lemma {:induction false} RunKeepsWake(s: System, actions: seq<Action>)
    requires WakeInv(s) && IsRun(s, actions)
    ensures WakeInv(Run(s, actions))
    decreases |actions|
  {
    if actions != [] {
      StepKeepsWake(s, actions[0]);
      RunKeepsWake(Apply(s, actions[0]), actions[1..]);
    }
  }

  /** An idle driver with unread completions, outside the device's add-and-notify window, has an interrupt coming. */
  ghost predicate NoLostWakeup(s: System) {
    s.driver.Idle? ==>
      forall q :: 0 <= q < |s.queues| && |s.queues[q].reaped| < |s.queues[q].completed| ==>
        s.queues[q].device.Added? || s.queues[q].device.Raising? || (s.line.level && s.line.signals > 0)
  }

  predicate EventConfig(c: seq<QueueConfig>) {
    forall q :: 0 <= q < |c| && c[q].usesEvent ==> c[q].arms && c[q].rechecks && c[q].size == QUEUE_SIZE_MAX
  }

  lemma ReachableWake(c: seq<QueueConfig>, actions: seq<Action>)
    requires ValidConfig(c) && EventConfig(c) && IsRun(Init(c), actions)
    ensures WakeInv(Run(Init(c), actions))
  {
    InitInv(c);
    RunKeepsWake(Init(c), actions);
  }

  lemma WakeupsArrive(c: seq<QueueConfig>, actions: seq<Action>)
    requires ValidConfig(c) && EventConfig(c) && IsRun(Init(c), actions)
    ensures NoLostWakeup(Run(Init(c), actions))
  {
    ReachableWake(c, actions);
  }

  // ---- progress ----

  /** No step is possible except making another chain available. */
  ghost predicate Quiescent(s: System)
    requires Shaped(s)
  {
    forall a :: Enabled(s, a) ==> a.On? && a.op.Publish?
  }

  lemma HandlerCanMove(s: System)
    requires Shaped(s) && (!s.driver.Idle? || s.line.signals > 0)
    ensures exists a :: Enabled(s, a) && !(a.On? && a.op.Publish?)
  {
    match s.driver
    case Idle => assert Enabled(s, TakeInterrupt);
    case Acking => assert Enabled(s, Acknowledge);
    case Reaping(q) => assert Enabled(s, On(q, Reap)) || Enabled(s, LookEmpty);
    case Drained(q) => assert Enabled(s, On(q, Arm));
    case Armed(_) => assert Enabled(s, Recheck);
  }

  lemma DeviceCanMove(s: System, q: nat)
    requires Shaped(s) && q < |s.queues| && (!s.queues[q].device.Polling? || s.queues[q].ring.CanPop())
    ensures exists a :: Enabled(s, a) && !(a.On? && a.op.Publish?)
  {
    match s.queues[q].device
    case Polling => assert Enabled(s, On(q, Pop));
    case Popped => assert Enabled(s, On(q, Start));
    case Started(_) => assert Enabled(s, On(q, Drop));
    case Added(_) => assert Enabled(s, On(q, Decide));
    case Raising => assert Enabled(s, On(q, Raise));
  }

  /**
   When the whole system comes to rest, the device is done with everything published on a queue exactly if fewer than
   2^16 chains were ever published there, and if wake-ups are not lost the driver has read every completion.
   */
  lemma RestMeansDone(c: seq<QueueConfig>, actions: seq<Action>, q: nat)
    requires ValidConfig(c) && IsRun(Init(c), actions) && q < |c|
    requires Quiescent(Run(Init(c), actions))
    ensures var u := Run(Init(c), actions).queues[q];
      && (|u.served| == |u.published| <==> |u.published| < TWO_TO_THE_16)
      && (EventConfig(c) ==> u.reaped == u.completed)
  {
    hide Slot, CompletedHeads, Ids, Run, IsRun;
    var s := Run(Init(c), actions);
    ReachableInv(c, actions);
    assert RingInv(s.queues[q]);
    if !s.driver.Idle? || s.line.signals > 0 {
      HandlerCanMove(s);
    }
    if !s.queues[q].device.Polling? || s.queues[q].ring.CanPop() {
      DeviceCanMove(s, q);
    }
    RestingQueue(s.queues[q]);
    if EventConfig(c) {
      ReachableWake(c, actions);
      InOrderExactlyOnce(c, actions, q);
    }
  }

  lemma RestingQueue(u: QueueState)
    requires CountersInv(u) && u.device.Polling? && !u.ring.CanPop()
    ensures |u.served| == |u.published| <==> |u.published| < TWO_TO_THE_16
  {
  }

  // ---- the 2^16 limit ----

  /** No queue ever gets past chain number 65535. */
  lemma FewerThanWrap(c: seq<QueueConfig>, actions: seq<Action>, q: nat)
    requires ValidConfig(c) && IsRun(Init(c), actions) && q < |c|
    ensures |Run(Init(c), actions).queues[q].served| < TWO_TO_THE_16
  {
    ReachableInv(c, actions);
    assert RingInv(Run(Init(c), actions).queues[q]);
  }

  lemma CompletedFit(u: QueueState)
    requires CountersInv(u)
    ensures u.ring.usedIdx == |u.completed| < TWO_TO_THE_16 && (u.device.Added? ==> u.device.idx != 0)
  {
  }

  /**
   Because of that the device's notification test is the standard's in every state a run can reach, without exception:
   the used index does not wrap after a completion.
   */
  lemma NotificationTestReached(c: seq<QueueConfig>, actions: seq<Action>, q: nat)
    requires ValidConfig(c) && IsRun(Init(c), actions) && q < |c|
    ensures var u := Run(Init(c), actions).queues[q];
      && u.ring.usedIdx == |u.completed|
      && (u.device.Added? ==>
            var idx := u.device.idx;
            u.ring.WantsInterrupt(idx) <==> NeedEvent(u.ring.usedEvent, idx, (idx - 1) % TWO_TO_THE_16))
  {
    ReachableInv(c, actions);
    var u := Run(Init(c), actions).queues[q];
    assert RingInv(u);
    CompletedFit(u);
    hide *;
    if u.device.Added? {
      NotificationTestIff(u.ring, u.device.idx);
    }
  }

  /** Once 2^16 chains were published, the device takes no further one, in any continuation of the run. */
  lemma {:induction false} StalledForever(s: System, actions: seq<Action>, q: nat)
    requires CountersAll(s) && IsRun(s, actions) && q < |s.queues|
    requires |s.queues[q].published| >= TWO_TO_THE_16
    ensures Run(s, actions).queues[q].ring.lastAvail <= s.queues[q].ring.lastAvail
    decreases |actions|
  {
    hide CountersInv, ApplyOp;
    if actions != [] {
      var a := actions[0];
      StepKeepsCounters(s, a);
      if a.On? && a.q == q {
        StalledStep(s.queues[q], a.op);
      }
      StalledForever(Apply(s, a), actions[1..], q);
    }
  }

  lemma StalledStep(u: QueueState, op: QueueOp)
    requires CountersInv(u) && OpEnabled(u, op) && |u.published| >= TWO_TO_THE_16
    ensures ApplyOp(u, op).ring.lastAvail <= u.ring.lastAvail && |ApplyOp(u, op).published| >= |u.published|
  {
  }
}
