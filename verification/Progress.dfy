/**
 Liveness of the step system: once the driver stops publishing, every schedule of the remaining steps comes to rest.
 Putting a chain back (the receive loop without a packet) is the one step that can be repeated for ever; between two of
 them there is only a bounded number of other steps.
 */
module Progress {
  import opened Words
  import opened Rings
  import opened VirtioSystem
  import opened Schedules

  predicate IsPublish(a: Action) { a.On? && a.op.Publish? }

  predicate IsPutBack(a: Action) { a.On? && a.op.PutBack? }

  predicate Productive(a: Action) { !IsPublish(a) && !IsPutBack(a) }

  /** More than the steps of one pass of the interrupt handler over n queues. */
  function PassCost(n: nat): nat { 3 * n + 3 }

  /** More than the steps that serving one chain takes, including the handler pass it may cause. */
  function ChainCost(n: nat): nat { PassCost(n) + 8 }

  function DeviceWork(d: DevicePc, n: nat): int {
    match d
    case Polling => 0
    case Popped => -1
    case Started(_) => -2
    case Added(_) => PassCost(n) + 2
    case Raising => PassCost(n) + 1
  }

  /** What is left to do on one queue: chains to serve, the device's current step, completions to read. */
  function QueueWork(u: QueueState, n: nat): int {
    ChainCost(n) * (|u.published| - |u.served|) + DeviceWork(u.device, n) + |u.published| - |u.reaped|
  }

  function QueuesWork(us: seq<QueueState>, n: nat): int {
    if us == [] then 0 else QueueWork(us[0], n) + QueuesWork(us[1..], n)
  }

  /** The rest of the current handler pass; a queue with completions the driver has overlooked is visited once more. */
  function HandlerWork(s: System): int
    requires Shaped(s)
  {
    var n := |s.queues|;
    match s.driver
    case Idle => 0
    case Acking => 3 * n + 1
    case Reaping(q) => 3 * (n - q)
    case Drained(q) => 3 * (n - q) - 1 + Overlooked(s.queues[q])
    case Armed(q) => 3 * (n - q) - 2 + Overlooked(s.queues[q])
  }

  function Overlooked(u: QueueState): int { if |u.reaped| < |u.completed| then 3 else 0 }

  function Work(s: System): int
    requires Shaped(s)
  {
    QueuesWork(s.queues, |s.queues|) + PassCost(|s.queues|) * s.line.signals + HandlerWork(s)
  }

  lemma {:induction false} QueuesWorkUpdate(us: seq<QueueState>, q: nat, u: QueueState, n: nat)
    requires q < |us|
    ensures QueuesWork(us[q := u], n) == QueuesWork(us, n) - QueueWork(us[q], n) + QueueWork(u, n)
    decreases |us|
  {
    hide QueueWork;
    if q == 0 {
      assert us[q := u][1..] == us[1..];
    } else {
      QueuesWorkUpdate(us[1..], q - 1, u, n);
      assert us[q := u][1..] == us[1..][q - 1 := u];
    }
  }

  lemma QueueWorkNonNegative(u: QueueState, n: nat)
    requires CountersInv(u)
    ensures QueueWork(u, n) >= 0
  {
    var open := |u.published| - |u.served|;
    assert open >= if InService(u) then 1 else 0;
    hide CountersInv;
    ProductIsNotSmall(ChainCost(n), open);
  }

  lemma {:induction false} QueuesWorkNonNegative(us: seq<QueueState>, n: nat)
    requires forall q :: 0 <= q < |us| ==> CountersInv(us[q])
    ensures QueuesWork(us, n) >= 0
  {
    hide QueueWork, CountersInv;
    if us != [] {
      QueueWorkNonNegative(us[0], n);
      QueuesWorkNonNegative(us[1..], n);
    }
  }

  lemma WorkNonNegative(s: System)
    requires CountersAll(s)
    ensures Work(s) >= 0
  {
    QueuesWorkNonNegative(s.queues, |s.queues|);
  }

  /** How much an operation takes off the work of its queue. */
  function Saved(op: QueueOp, n: nat): int {
    match op
    case Raise => PassCost(n) + 1
    case Complete(_) => 4
    case Arm => 0
    case _ => 1
  }

  lemma OpSavesWork(u: QueueState, op: QueueOp, n: nat)
    requires CountersInv(u) && OpEnabled(u, op) && !op.Publish? && !op.PutBack?
    ensures QueueWork(ApplyOp(u, op), n) <= QueueWork(u, n) - Saved(op, n)
  {
    var cost, open := ChainCost(n), |u.published| - |u.served|;
    if op.Complete? || op.Drop? {
      assert cost * (open - 1) == cost * open - cost;
    }
  }

  /** Only raising the line can add a signal. */
  lemma SignalsAfterOp(s: System, q: nat, op: QueueOp, cost: nat)
    requires Shaped(s) && Enabled(s, On(q, op))
    ensures cost * Apply(s, On(q, op)).line.signals <= cost * s.line.signals + if op.Raise? then cost else 0
    ensures Apply(s, On(q, op)).queues == s.queues[q := ApplyOp(s.queues[q], op)]
  {
    hide ApplyOp, OpEnabled;
    assert cost * (s.line.signals + 1) == cost * s.line.signals + cost;
  }

  lemma OpDecreases(s: System, q: nat, op: QueueOp)
    requires CountersAll(s) && Enabled(s, On(q, op)) && !op.Publish? && !op.PutBack?
    ensures Work(Apply(s, On(q, op))) < Work(s)
  {
    hide QueueWork, CountersInv, QueuesWork, ApplyOp, OpEnabled, HandlerWork, PassCost, Apply;
    var n, u := |s.queues|, s.queues[q];
    OpSavesWork(u, op, n);
    QueuesWorkUpdate(s.queues, q, ApplyOp(u, op), n);
    SignalsAfterOp(s, q, op, PassCost(n));
    HandlerAfterOp(s, q, op);
  }

  /** An operation on a queue adds at most three steps to the handler's pass, and arming takes one off. */
  lemma HandlerAfterOp(s: System, q: nat, op: QueueOp)
    requires CountersAll(s) && Enabled(s, On(q, op)) && !op.Publish? && !op.PutBack?
    ensures var before, after := HandlerWork(s), HandlerWork(Apply(s, On(q, op)));
      after <= before + (if op.Complete? then 3 else 0) - (if op.Arm? then 1 else 0)
  {
    assert CountersInv(s.queues[q]);
  }

  lemma HandlerDecreases(s: System, a: Action)
    requires CountersAll(s) && Enabled(s, a) && !a.On?
    ensures Work(Apply(s, a)) < Work(s)
  {
    hide QueuesWork, QueueWork, PassCost;
    HandlerAdvances(s, a);
    if a.TakeInterrupt? {
      PassCoversHandler(|s.queues|);
      AtLeastOnce(PassCost(|s.queues|), s.line.signals);
    }
  }

  lemma PassCoversHandler(n: nat)
    ensures PassCost(n) > 3 * n + 1
  {
  }

  /** A step of the handler touches no queue, and but for taking an interrupt it gets on with its pass. */
  lemma HandlerAdvances(s: System, a: Action)
    requires CountersAll(s) && Enabled(s, a) && !a.On?
    ensures var s' := Apply(s, a);
      && s'.queues == s.queues && s'.line.signals == (if a.TakeInterrupt? then 0 else s.line.signals)
      && (a.TakeInterrupt? ==> HandlerWork(s) == 0 && HandlerWork(s') == 3 * |s.queues| + 1)
      && (!a.TakeInterrupt? ==> HandlerWork(s') < HandlerWork(s))
  {
    if a.LookEmpty? || a.Recheck? {
      assert CountersInv(s.queues[s.driver.q]);
    }
  }

  lemma AtLeastOnce(x: nat, times: nat)
    requires times > 0
    ensures x * times >= x
  {
    assert x * times == x * (times - 1) + x;
  }

  lemma StepDecreases(s: System, a: Action)
    requires CountersAll(s) && Enabled(s, a) && Productive(a)
    ensures Work(Apply(s, a)) < Work(s)
  {
    match a
    case On(q, op) => OpDecreases(s, q, op);
    case _ => HandlerDecreases(s, a);
  }

  function PutBacks(actions: seq<Action>): (n: nat)
    ensures n <= |actions|
  {
    if actions == [] then 0 else (if IsPutBack(actions[0]) then 1 else 0) + PutBacks(actions[1..])
  }

  /** Putting a chain back is the only step besides publishing that adds work, and it adds one. */
  lemma PutBackCosts(s: System, q: nat)
    requires CountersAll(s) && Enabled(s, On(q, PutBack))
    ensures Work(Apply(s, On(q, PutBack))) <= Work(s) + 1
  {
    var n, u, u', s' := |s.queues|, s.queues[q], ApplyOp(s.queues[q], PutBack), Apply(s, On(q, PutBack));
    QueuesWorkUpdate(s.queues, q, u', n);
    assert QueueWork(u', n) == QueueWork(u, n) + 1;
    hide QueueWork, CountersInv, QueuesWork;
    assert s'.queues == s.queues[q := u'];
  }

  /** Whatever the schedule, a run without publications is no longer than the work at its start and two per put-back. */
  lemma {:induction false} RunsAreFinite(s: System, actions: seq<Action>)
    requires CountersAll(s) && IsRun(s, actions) && forall k :: 0 <= k < |actions| ==> !IsPublish(actions[k])
    ensures |actions| <= Work(s) + 2 * PutBacks(actions)
    decreases |actions|
  {
    hide Work;
    if actions == [] {
      WorkNonNegative(s);
    } else {
      var a := actions[0];
      StepKeepsCounters(s, a);
      if IsPutBack(a) {
        PutBackCosts(s, a.q);
      } else {
        StepDecreases(s, a);
      }
      RunsAreFinite(Apply(s, a), actions[1..]);
    }
  }

  /** Neither publishing nor giving up on a chain. */
  predicate Serving(a: Action) { Productive(a) && (a.On? ==> !a.op.Drop?) }

  predicate AllServing(actions: seq<Action>) {
    forall k :: 0 <= k < |actions| ==> Serving(actions[k])
  }

  /** A step that brings the system closer to rest, if it is not at rest. */
  lemma NextServing(s: System) returns (a: Action)
    requires Shaped(s) && !Quiescent(s)
    ensures Enabled(s, a) && Serving(a)
  {
    a :| Enabled(s, a) && !(a.On? && a.op.Publish?);
    if a.On? && a.op.PutBack? {
      a := On(a.q, Start);
    } else if a.On? && a.op.Drop? {
      a := On(a.q, Complete(0));
    }
  }

  /** From every state the system can be brought to rest by serving what is there. */
  lemma {:induction false} ComesToRest(s: System) returns (actions: seq<Action>)
    requires CountersAll(s)
    ensures IsRun(s, actions) && Quiescent(Run(s, actions)) && AllServing(actions)
    decreases Work(s)
  {
    WorkNonNegative(s);
    if Quiescent(s) {
      return [];
    }
    var a := NextServing(s);
    StepKeepsCounters(s, a);
    StepDecreases(s, a);
    WorkNonNegative(Apply(s, a));
    var rest := ComesToRest(Apply(s, a));
    actions := [a] + rest;
    assert actions[1..] == rest;
  }

  /**
   Liveness: after any run of the whole system, every way of continuing it without publishing is at most Work steps long
   and two more for each put-back; and when it can go no further, every chain has been served if fewer than 2^16 were
   published on the queue, and all completions have been read if wake-ups are not lost.
   */
  lemma EverythingGetsDone(c: seq<QueueConfig>, actions: seq<Action>, more: seq<Action>, q: nat)
    requires ValidConfig(c) && q < |c|
    requires IsRun(Init(c), actions) && IsRun(Run(Init(c), actions), more)
    requires forall k :: 0 <= k < |more| ==> !IsPublish(more[k])
    ensures |more| <= Work(Run(Init(c), actions)) + 2 * PutBacks(more)
    ensures var s := Run(Run(Init(c), actions), more);
      Quiescent(s) ==>
        && (|s.queues[q].published| < TWO_TO_THE_16 ==> |s.queues[q].served| == |s.queues[q].published|)
        && (EventConfig(c) ==> s.queues[q].reaped == s.queues[q].completed)
  {
    ReachableCounters(c, actions);
    hide Init, CountersInv;
    RunsAreFinite(Run(Init(c), actions), more);
    var both := Join(Init(c), actions, more);
    if Quiescent(Run(Init(c), both)) {
      RestMeansDone(c, both, q);
    }
  }

  lemma ReachableCounters(c: seq<QueueConfig>, actions: seq<Action>)
    requires ValidConfig(c) && IsRun(Init(c), actions)
    ensures CountersAll(Run(Init(c), actions))
  {
    ReachableInv(c, actions);
    forall q | 0 <= q < |Run(Init(c), actions).queues|
      ensures CountersInv(Run(Init(c), actions).queues[q])
    {
      assert RingInv(Run(Init(c), actions).queues[q]);
    }
  }

  // ---- the 2^16 limit is reached ----

  lemma {:induction false} ServingKeeps(s: System, actions: seq<Action>, q: nat)
    requires Shaped(s) && IsRun(s, actions) && AllServing(actions) && q < |s.queues|
    requires false !in s.queues[q].served
    ensures Run(s, actions).queues[q].published == s.queues[q].published
    ensures false !in Run(s, actions).queues[q].served
    decreases |actions|
  {
    if actions != [] {
      var s' := Apply(s, actions[0]);
      assert s'.queues[q].published == s.queues[q].published && false !in s'.queues[q].served;
      ServingKeeps(s', actions[1..], q);
    }
  }

  /** The handler is at queue q, where n chains have been published, served and read. */
  ghost predicate Following(s: System, q: nat, n: nat) {
    && q < |s.queues| && s.driver == Reaping(q) && AtRest(s.queues[q], n, n) && s.queues[q].ring.size > 0
    && false !in s.queues[q].served
  }

  /** The device decides about the interrupt, and the driver reads the completion. */
  lemma DecideAndReap(s: System, q: nat, n: nat) returns (actions: seq<Action>)
    requires Shaped(s) && q < |s.queues| && s.driver == Reaping(q) && 0 < n < TWO_TO_THE_16
    requires s.queues[q].device == Added(n) && AtRest(s.queues[q].(device := Polling), n, n - 1)
    requires s.queues[q].ring.size > 0 && false !in s.queues[q].served
    ensures IsRun(s, actions) && Following(Run(s, actions), q, n)
  {
    hide Slot, Run, IsRun;
    NoRun(s);
    actions := Then(s, [], On(q, Decide));
    if Run(s, actions).queues[q].device.Raising? {
      actions := Then(s, actions, On(q, Raise));
    }
    actions := Then(s, actions, On(q, Reap));
  }

  /** One more chain is published, served and read, without the handler leaving the queue. */
  lemma OneMore(s: System, q: nat, n: nat) returns (actions: seq<Action>)
    requires Shaped(s) && Following(s, q, n) && n + 1 < TWO_TO_THE_16
    ensures IsRun(s, actions) && Following(Run(s, actions), q, n + 1)
  {
    hide Run, IsRun, AtRest, ApplyOp;
    actions := ServeOne(s, q, n, n);
    var reap := DecideAndReap(Run(s, actions), q, n + 1);
    actions := Join(s, actions, reap);
  }

  lemma {:induction false} ServesAll(c: seq<QueueConfig>, q: nat, n: nat) returns (actions: seq<Action>)
    requires ValidConfig(c) && q < |c| && 0 < n < TWO_TO_THE_16
    ensures IsRun(Init(c), actions) && Following(Run(Init(c), actions), q, n)
    decreases n
  {
    if n == 1 {
      actions := ComeToQueue(c, q);
      hide Run, IsRun;
      actions := Then(Init(c), actions, On(q, Reap));
    } else {
      hide Run, IsRun, Following;
      actions := ServesAll(c, q, n - 1);
      var more := OneMore(Run(Init(c), actions), q, n - 1);
      actions := Join(Init(c), actions, more);
    }
  }

  lemma PublishGrows(s: System, q: nat, n: nat)
    requires Shaped(s) && Following(s, q, n)
    ensures Enabled(s, On(q, Publish(0)))
    ensures var u, u' := s.queues[q], Apply(s, On(q, Publish(0))).queues[q];
      |u'.published| == n + 1 && u'.served == u.served
  {
    hide Slot;
  }

  /**
   The limit is real: in every configuration each queue has a run that publishes 2^16 chains and comes to rest with the
   last one not served; by StalledForever it never will be.
   */
  lemma LastChainStuck(c: seq<QueueConfig>, q: nat) returns (actions: seq<Action>)
    requires ValidConfig(c) && q < |c|
    ensures IsRun(Init(c), actions) && Quiescent(Run(Init(c), actions))
    ensures var u := Run(Init(c), actions).queues[q]; |u.published| == TWO_TO_THE_16 > |u.served|
  {
    actions := ServesAll(c, q, TWO_TO_THE_16 - 1);
    PublishGrows(Run(Init(c), actions), q, TWO_TO_THE_16 - 1);
    assert false !in Run(Init(c), actions).queues[q].served;
    hide Following, Run, IsRun, Apply, Enabled;
    actions := Then(Init(c), actions, On(q, Publish(0)));
    ReachableCounters(c, actions);
    var s := Run(Init(c), actions);
    var rest := ComesToRest(s);
    ServingKeeps(s, rest, q);
    actions := Join(Init(c), actions, rest);
    FewerThanWrap(c, actions, q);
  }
}
