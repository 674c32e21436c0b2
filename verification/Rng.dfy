/** The entropy device of src/kvm/virtio/rng.h; `/dev/random` is a stream that always has enough bytes. */
module Rng {
  import opened Words
  import opened GuestMemory
  import opened Rings
  import opened Queues
  import opened Chains
  import opened Interrupts

  datatype RngState = RngState(port: Port, line: Line) {
    /** The one descriptor the device fills: it never follows `next`. */
    function Target(): Range
      requires port.Mapped() && port.Head() < QUEUE_SIZE_MAX
    {
      DescAt(port.m, port.l.desc, port.Head()).Buffer()
    }

    predicate Sound(noise: Bytes) {
      && (port.ready ==> port.Mapped())
      && (port.Waiting() ==>
            port.Head() < QUEUE_SIZE_MAX && Target().Within(|port.m|) && Target().len <= |noise|)
    }

    function Turn(noise: Bytes): RngState
      requires Sound(noise)
    {
      if !port.Waiting() then this
      else
        var m1 := Splice(port.m, Target().addr, noise[..Target().len]);
        RngState(port.Finish(m1, Target().len), line.Set(true))
    }
  }

  /** A waiting chain is completed at once: its first buffer holds the noise, all is reported, the line is high. */
  lemma TurnDelivers(s: RngState, noise: Bytes)
    requires s.Sound(noise) && s.port.Waiting()
    requires s.Target().Apart(s.port.l.AvailRange()) && s.Target().Apart(s.port.l.UsedRange())
    ensures var s', b := s.Turn(noise), s.Target();
      && s'.port.Ring() == s.port.Ring().Pop().AddUsed(UsedElem(s.port.Head(), b.len))
      && Slice(s'.port.m, b) == noise[..b.len] && s'.line.level
      && forall r: Range {:trigger Agree(s.port.m, s'.port.m, r)} ::
           r.Within(|s.port.m|) && r.Apart(b) && r.Apart(s.port.l.UsedRange()) ==> Agree(s.port.m, s'.port.m, r)
  {
    hide RingOf, AddUsedBytes, DescAt, Splice;
    var b, s' := s.Target(), s.Turn(noise);
    var bs := noise[..b.len];
    var m1 := Splice(s.port.m, b.addr, bs);
    SpliceAgree(s.port.m, b.addr, bs, s.port.l.AvailRange());
    SpliceAgree(s.port.m, b.addr, bs, s.port.l.UsedRange());
    FinishOnRing(s.port, m1, b.len);
    AddUsedAgree(m1, s.port.l, UsedElem(s.port.Head(), b.len), b);
    AgreeGivesSlice(m1, s'.port.m, b);
    SliceOfSplice(s.port.m, b, bs);
    forall r: Range | r.Within(|s.port.m|) && r.Apart(b) && r.Apart(s.port.l.UsedRange())
      ensures Agree(s.port.m, s'.port.m, r)
    {
      SpliceAgree(s.port.m, b.addr, bs, r);
      FinishAgree(s.port, m1, b.len, r);
    }
  }

  class Device {
    const queue: Queue
    const irq: Interrupt

    constructor (queue: Queue, irq: Interrupt)
      ensures this.queue == queue && this.irq == irq
    {
      this.queue, this.irq := queue, irq;
    }

    ghost function State(): RngState
      reads queue, queue.mem, irq
    {
      RngState(queue.Now(), irq.Now())
    }

    method Update(noise: Bytes)
      requires State().Sound(noise)
      modifies queue`lastAvail, queue.mem, irq
      ensures State() == old(State()).Turn(noise)
    {
      hide RingOf, AddUsedBytes, DescAt, Splice;
      ghost var s := State();
      var head := queue.Next();
      if s.port.ready {
        RingFields(s.port.m, s.port.l, s.port.lastAvail, s.port.ready);
        RingFields(s.port.m, s.port.l, queue.lastAvail, s.port.ready);
        assert queue.Now() == s.port.Take() || head.None?;
      }
      if head.None? {
        return;
      }
      var start := queue.AvailId();
      var d := DescAt(queue.mem[..], queue.descAddr, head.value);
      CopyIn(queue.mem, d.addr, noise[..d.len]);
      var _ := queue.AddUsed(start, d.len);
      irq.SetLevel(true);
    }
  }
}
