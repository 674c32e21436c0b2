/**
 Where the wake-up guarantee ends: a queue that interrupts at used_event, with a driver that does not write it or does
 not look once more after that, or with a size other than QUEUE_SIZE_MAX, has a run that leaves the guest hanging. The
 driver is idle with an unread completion, no interrupt is on its way, and no step is possible.
 */
module LostWakeups {
  import opened Words
  import opened Rings
  import opened Interrupts
  import opened VirtioSystem
  import opened Schedules
  import Mmio

  /** The device interrupts at used_event, and what it reads there is never what the driver wrote. */
  predicate Deaf(c: QueueConfig) { c.usesEvent && !(c.arms && c.size == QUEUE_SIZE_MAX) }

  /** The device interrupts at used_event, and the driver does not look again after writing it. */
  predicate Hasty(c: QueueConfig) { c.usesEvent && !c.rechecks }

  /** A guest that hangs: nothing can happen any more except publishing, and there is a completion it has not read. */
  ghost predicate Hangs(s: System)
    requires Shaped(s)
  {
    Quiescent(s) && exists q :: 0 <= q < |s.queues| && |s.queues[q].reaped| < |s.queues[q].completed|
  }

  /** The driver reads the first completion and finds nothing more. */
  lemma DrainOne(c: seq<QueueConfig>, q: nat) returns (actions: seq<Action>)
    requires ValidConfig(c) && q < |c|
    ensures IsRun(Init(c), actions)
    ensures var s := Run(Init(c), actions);
      && s.driver == Drained(q) && s.line == Line(false, 0) && |s.queues| == |c| && OthersQuiet(s, q)
      && AtRest(s.queues[q], 1, 1) && SameSetup(InitQueue(c[q]), s.queues[q])
  {
    hide Slot, Run, IsRun;
    actions := ComeToQueue(c, q);
    actions := Then(Init(c), actions, On(q, Reap));
    actions := Then(Init(c), actions, LookEmpty);
  }

  /** The device serves a second chain and stays silent, because it reads used_event as 0. */
  lemma SilentSecond(s: System, q: nat) returns (actions: seq<Action>)
    requires Shaped(s) && q < |s.queues| && AtRest(s.queues[q], 1, 1)
    requires s.queues[q].usesEvent && s.queues[q].ring.usedEvent == 0
    ensures IsRun(s, actions)
    ensures var s' := Run(s, actions);
      && s'.driver == s.driver && s'.line == s.line && |s'.queues| == |s.queues|
      && (OthersQuiet(s, q) ==> OthersQuiet(s', q))
      && AtRest(s'.queues[q], 2, 1) && SameSetup(s.queues[q], s'.queues[q])
  {
    hide Slot, Run, IsRun;
    actions := ServeOne(s, q, 1, 1);
    actions := Then(s, actions, On(q, Decide));
  }

  /** The driver arms the queue, goes on without finding anything, and is idle. */
  lemma LeaveQueue(s: System, q: nat) returns (actions: seq<Action>)
    requires Shaped(s) && s.driver == Drained(q) && OthersQuiet(s, q)
    requires s.queues[q].rechecks ==> s.queues[q].ring.usedIdx == s.queues[q].Seen()
    ensures IsRun(s, actions)
    ensures var s' := Run(s, actions);
      && s'.driver == Idle && s'.line == s.line && |s'.queues| == |s.queues| && OthersQuiet(s', q)
      && s'.queues[q] == ApplyOp(s.queues[q], Arm)
  {
    hide Slot, Run, IsRun;
    NoRun(s);
    actions := Then(s, [], On(q, Arm));
    actions := Then(s, actions, Recheck);
    assert Run(s, actions).driver == At(s, q + 1);
    hide OthersQuiet, Apply, ApplyOp;
    var sweep := Sweep(Run(s, actions), q, |s.queues|);
    actions := Join(s, actions, sweep);
  }

  lemma ArmKeepsRest(u: QueueState, n: nat, read: nat)
    requires AtRest(u, n, read)
    ensures AtRest(ApplyOp(u, Arm), n, read)
    ensures !(u.arms && u.ring.size == QUEUE_SIZE_MAX) ==> SameSetup(u, ApplyOp(u, Arm))
  {
    hide Slot;
  }

  /** An idle driver, a silent device, and one completion more than the driver has read. */
  lemma IdleIsHanging(s: System, q: nat)
    requires Shaped(s) && q < |s.queues| && s.driver.Idle? && s.line == Line(false, 0)
    requires OthersQuiet(s, q) && AtRest(s.queues[q], 2, 1)
    ensures !NoLostWakeup(s) && Hangs(s)
  {
  }

  /** With a deaf device the driver goes idle properly, but used_event still reads 0 for the second completion. */
  lemma DeafQueueHangs(c: seq<QueueConfig>, q: nat) returns (actions: seq<Action>)
    requires ValidConfig(c) && q < |c| && Deaf(c[q])
    ensures IsRun(Init(c), actions) && !NoLostWakeup(Run(Init(c), actions)) && Hangs(Run(Init(c), actions))
  {
    var s := Init(c);
    actions := DrainOne(c, q);
    ArmKeepsRest(Run(s, actions).queues[q], 1, 1);
    assert Run(s, actions).queues[q].ring.usedIdx == Run(s, actions).queues[q].Seen();
    hide Run, IsRun, OthersQuiet, AtRest, ApplyOp, Init;
    var leave := LeaveQueue(Run(s, actions), q);
    actions := Join(s, actions, leave);
    var second := SilentSecond(Run(s, actions), q);
    actions := Join(s, actions, second);
    IdleIsHanging(Run(s, actions), q);
  }

  /** With a hasty driver the second completion falls between its last look and the arming. */
  lemma HastyDriverHangs(c: seq<QueueConfig>, q: nat) returns (actions: seq<Action>)
    requires ValidConfig(c) && q < |c| && Hasty(c[q])
    ensures IsRun(Init(c), actions) && !NoLostWakeup(Run(Init(c), actions)) && Hangs(Run(Init(c), actions))
  {
    var s := Init(c);
    hide Run, IsRun, OthersQuiet, AtRest, ApplyOp;
    actions := DrainOne(c, q);
    var second := SilentSecond(Run(s, actions), q);
    actions := Join(s, actions, second);
    ArmKeepsRest(Run(s, actions).queues[q], 2, 1);
    var leave := LeaveQueue(Run(s, actions), q);
    actions := Join(s, actions, leave);
    IdleIsHanging(Run(s, actions), q);
  }

  lemma WakeupLost(c: seq<QueueConfig>, q: nat) returns (actions: seq<Action>)
    requires ValidConfig(c) && q < |c| && (Deaf(c[q]) || Hasty(c[q]))
    ensures IsRun(Init(c), actions) && !NoLostWakeup(Run(Init(c), actions)) && Hangs(Run(Init(c), actions))
  {
    if Deaf(c[q]) {
      actions := DeafQueueHangs(c, q);
    } else {
      actions := HastyDriverHangs(c, q);
    }
  }

  /**
   For every configuration: no run loses a wake-up if and only if for every queue that interrupts at used_event the
   driver writes it and looks once more after that, and the queue has QUEUE_SIZE_MAX entries.
   */
  lemma WakeupsArriveIff(c: seq<QueueConfig>)
    requires ValidConfig(c)
    ensures (forall actions :: IsRun(Init(c), actions) ==> NoLostWakeup(Run(Init(c), actions))) <==> EventConfig(c)
  {
    if EventConfig(c) {
      forall actions | IsRun(Init(c), actions)
        ensures NoLostWakeup(Run(Init(c), actions))
      {
        WakeupsArrive(c, actions);
      }
    } else {
      var q :| 0 <= q < |c| && (Deaf(c[q]) || Hasty(c[q]));
      var actions := WakeupLost(c, q);
    }
  }

  /** The same condition decides whether the guest can hang with a completion it has not read. */
  lemma HangsIff(c: seq<QueueConfig>)
    requires ValidConfig(c)
    ensures (exists actions :: IsRun(Init(c), actions) && Hangs(Run(Init(c), actions))) <==> !EventConfig(c)
  {
    if EventConfig(c) {
      forall actions | IsRun(Init(c), actions)
        ensures !Hangs(Run(Init(c), actions))
      {
        forall q | 0 <= q < |c| && Quiescent(Run(Init(c), actions))
          ensures Run(Init(c), actions).queues[q].reaped == Run(Init(c), actions).queues[q].completed
        {
          RestMeansDone(c, actions, q);
        }
      }
    } else {
      var q :| 0 <= q < |c| && (Deaf(c[q]) || Hasty(c[q]));
      var actions := WakeupLost(c, q);
    }
  }

  // ---- with the features the devices really show ----

  /** A driver that follows section 2.6.7 of VIRTIO 1.1 writes used_event only if the device showed it EVENT_IDX. */
  predicate Conforms(c: QueueConfig, features: u32) {
    c.arms ==> Mmio.Shows(features, Mmio.EVENT_IDX)
  }

  /**
   The block device shows no EVENT_IDX and interrupts only at used_event: with a driver that conforms, whatever the
   size of its queue and whatever other queues share the line, the guest can hang.
   */
  lemma ConformingDriverHangs(c: seq<QueueConfig>, q: nat) returns (actions: seq<Action>)
    requires ValidConfig(c) && q < |c| && c[q].usesEvent && Conforms(c[q], Mmio.BLK_FEATURES)
    ensures IsRun(Init(c), actions) && Hangs(Run(Init(c), actions))
  {
    Mmio.EventIdxNotShown();
    actions := WakeupLost(c, q);
  }
}
