/** Particular runs of the step system, put together step by step: what the examples and counterexamples are made of. */
module Schedules {
  import opened Words
  import opened Rings
  import opened Interrupts
  import opened VirtioSystem

  /** A queue whose device is idle after n chains, all completed; the driver has read some of the completions. */
  predicate AtRest(u: QueueState, n: nat, read: nat) {
    && u.ring.Configured() && u.ring.ready && u.device.Polling?
    && u.ring.lastAvail == u.ring.availIdx == u.ring.usedIdx == n
    && |u.published| == |u.served| == |u.completed| == n && |u.reaped| == read
  }

  /** Nothing but counters and ring contents changed. */
  predicate SameSetup(u: QueueState, v: QueueState) {
    && v.usesEvent == u.usesEvent && v.arms == u.arms && v.rechecks == u.rechecks
    && v.ring.size == u.ring.size && v.ring.usedEvent == u.ring.usedEvent
  }

  lemma NoRun(s: System)
    requires Shaped(s)
    ensures IsRun(s, []) && Run(s, []) == s
  {
  }

  // ---- serving one chain ----

  const SERVE_ONE: seq<QueueOp> := [Publish(0)] + ([Pop] + ([Start] + ([Complete(0)] + [])))

  /** Publishing, taking and serving one chain are possible, one after the other, and advance all counters by one. */
  lemma ServingSteps(u: QueueState, n: nat, read: nat)
    requires AtRest(u, n, read) && n - read < u.ring.size && n + 1 < TWO_TO_THE_16
    ensures OpEnabled(u, Publish(0))
    ensures var u1 := ApplyOp(u, Publish(0));
      && OpEnabled(u1, Pop)
      && var u2 := ApplyOp(u1, Pop);
      && OpEnabled(u2, Start)
      && var u3 := ApplyOp(u2, Start);
      && OpEnabled(u3, Complete(0))
      && var u4 := ApplyOp(u3, Complete(0));
      && u4.device == Added(n + 1) && AtRest(u4.(device := Polling), n + 1, read) && SameSetup(u, u4)
      && u4.served == u.served + [true]
  {
    hide Slot;
    RemainderIsUnique(0, n + 1, TWO_TO_THE_16);
    RemainderIsUnique(0, n + 1, TWO_TO_THE_32);
  }

  lemma ServingOne(u: QueueState, n: nat, read: nat)
    requires AtRest(u, n, read) && n - read < u.ring.size && n + 1 < TWO_TO_THE_16
    ensures OpsEnabled(u, SERVE_ONE)
    ensures var u' := ApplyOps(u, SERVE_ONE);
      && u'.device == Added(n + 1) && AtRest(u'.(device := Polling), n + 1, read) && SameSetup(u, u')
      && u'.served == u.served + [true]
  {
    ServingSteps(u, n, read);
    assert u.ring.Configured();
    hide ApplyOps, OpsEnabled, ApplyOp, OpEnabled, AtRest, Ring.Configured;
    var u1 := ApplyOp(u, Publish(0));
    var u2 := ApplyOp(u1, Pop);
    var u3 := ApplyOp(u2, Start);
    NoOps(ApplyOp(u3, Complete(0)));
    OpsCons(u3, Complete(0), []);
    OpsCons(u2, Start, [Complete(0)] + []);
    OpsCons(u1, Pop, [Start] + ([Complete(0)] + []));
    OpsCons(u, Publish(0), [Pop] + ([Start] + ([Complete(0)] + [])));
  }

  /** The device serves one more chain, up to the point where it has added the used element. */
  lemma ServeOne(s: System, q: nat, n: nat, read: nat) returns (actions: seq<Action>)
    requires Shaped(s) && q < |s.queues| && AtRest(s.queues[q], n, read)
    requires n - read < s.queues[q].ring.size && n + 1 < TWO_TO_THE_16
    ensures IsRun(s, actions)
    ensures var s' := Run(s, actions);
      && s' == s.(queues := s.queues[q := s'.queues[q]])
      && s'.queues[q].device == Added(n + 1) && AtRest(s'.queues[q].(device := Polling), n + 1, read)
      && SameSetup(s.queues[q], s'.queues[q]) && s'.queues[q].served == s.queues[q].served + [true]
  {
    hide AtRest, ApplyOps, OpsEnabled, SameSetup;
    ServingOne(s.queues[q], n, read);
    actions := LocalRun(s, q, SERVE_ONE);
  }

  // ---- a pass of the handler over queues with nothing to read ----

  /** Queues other than q have nothing to serve and nothing to read. */
  predicate OthersQuiet(s: System, q: nat) {
    forall j :: 0 <= j < |s.queues| && j != q ==>
      s.queues[j].device.Polling? && !s.queues[j].ring.CanPop() && s.queues[j].ring.usedIdx == s.queues[j].Seen()
  }

  /** Where the handler goes when it is done with the queues before `to`. */
  function At(s: System, to: nat): DriverPc { if to < |s.queues| then Reaping(to) else Idle }

  /** The handler looks at a queue other than q, finds nothing, and goes on. */
  lemma VisitOther(s: System, q: nat) returns (actions: seq<Action>)
    requires Shaped(s) && s.driver.Reaping? && s.driver.q != q < |s.queues| && OthersQuiet(s, q)
    ensures IsRun(s, actions)
    ensures var s' := Run(s, actions);
      && s'.driver == At(s, s.driver.q + 1) && s'.line == s.line && |s'.queues| == |s.queues|
      && OthersQuiet(s', q) && s'.queues[q] == s.queues[q]
  {
    hide Slot, Run, IsRun;
    NoRun(s);
    actions := Then(s, [], LookEmpty);
    actions := Then(s, actions, On(s.driver.q, Arm));
    actions := Then(s, actions, Recheck);
  }

  /** The handler visits the queues up to `to`, queue q not among them. */
  lemma {:induction false} Sweep(s: System, q: nat, to: nat) returns (actions: seq<Action>)
    requires Shaped(s) && q < |s.queues| && OthersQuiet(s, q) && to <= |s.queues|
    requires s.driver.Reaping? ==> s.driver.q <= to && (q < s.driver.q || to <= q)
    requires !s.driver.Reaping? ==> s.driver.Idle? && to == |s.queues|
    ensures IsRun(s, actions)
    ensures var s' := Run(s, actions);
      && s'.driver == At(s, to) && s'.line == s.line && |s'.queues| == |s.queues|
      && OthersQuiet(s', q) && s'.queues[q] == s.queues[q]
    decreases if s.driver.Reaping? then to - s.driver.q else 0
  {
    hide Run, IsRun, OthersQuiet;
    if s.driver.Reaping? && s.driver.q < to {
      actions := VisitOther(s, q);
      var rest := Sweep(Run(s, actions), q, to);
      actions := Join(s, actions, rest);
    } else {
      NoRun(s);
      actions := [];
    }
  }

  // ---- the first interrupt ----

  /** In every configuration the first completion of a queue interrupts: used_event is still 0. */
  lemma FirstInterrupt(c: seq<QueueConfig>, q: nat) returns (actions: seq<Action>)
    requires ValidConfig(c) && q < |c|
    ensures IsRun(Init(c), actions)
    ensures var s := Run(Init(c), actions);
      && s.driver == Reaping(0) && s.line == Line(false, 0) && |s.queues| == |c| && OthersQuiet(s, q)
      && AtRest(s.queues[q], 1, 0) && SameSetup(InitQueue(c[q]), s.queues[q]) && s.queues[q].served == [true]
  {
    hide Slot, Run, IsRun;
    var s := Init(c);
    actions := ServeOne(s, q, 0, 0);
    actions := Then(s, actions, On(q, Decide));
    actions := Then(s, actions, On(q, Raise));
    actions := Then(s, actions, TakeInterrupt);
    actions := Then(s, actions, Acknowledge);
  }

  /** The handler then comes to that queue with its one completion unread. */
  lemma ComeToQueue(c: seq<QueueConfig>, q: nat) returns (actions: seq<Action>)
    requires ValidConfig(c) && q < |c|
    ensures IsRun(Init(c), actions)
    ensures var s := Run(Init(c), actions);
      && s.driver == Reaping(q) && s.line == Line(false, 0) && |s.queues| == |c| && OthersQuiet(s, q)
      && AtRest(s.queues[q], 1, 0) && SameSetup(InitQueue(c[q]), s.queues[q]) && s.queues[q].served == [true]
  {
    hide Run, IsRun, OthersQuiet, AtRest, SameSetup;
    actions := FirstInterrupt(c, q);
    var sweep := Sweep(Run(Init(c), actions), q, q);
    actions := Join(Init(c), actions, sweep);
  }
}
