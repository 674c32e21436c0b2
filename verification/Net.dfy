/** The network device of src/kvm/virtio/net.h. The tap hands over whole packets and accepts whole packets. */
module Net {
  import opened Words
  import opened GuestMemory
  import opened Rings
  import opened Queues
  import opened Chains
  import opened Interrupts

  /** The static packet buffer: 65550 bytes and the 12-byte virtio_net_hdr_v1. */
  const BUFFER_LEN: nat := 65550 + 12

  function Min(a: nat, b: nat): nat { if a < b then a else b }

  // ---- receive: pouring a packet into a chain ----

  /** Each buffer takes what it can hold of what is left; the walk stops when nothing is left. */
  function Pour(m: Bytes, bufs: seq<Range>, data: Bytes): (m': Bytes)
    requires AllWithin(bufs, |m|)
    ensures |m'| == |m|
    decreases |bufs|
  {
    if bufs == [] then m
    else
      var n := Min(|data|, bufs[0].len);
      var m1 := Splice(m, bufs[0].addr, data[..n]);
      if n == |data| then m1 else Pour(m1, bufs[1..], data[n..])
  }

  /** The parts of the buffers that n bytes occupy. */
  function Fitted(bufs: seq<Range>, n: nat): seq<Range> {
    if bufs == [] then []
    else
      var k := Min(n, bufs[0].len);
      [Range(bufs[0].addr, k)] + if k == n then [] else Fitted(bufs[1..], n - k)
  }

  /** Every buffer but the last one used is full, the last one is filled from its start, and the sizes add up. */
  lemma {:induction false} FittedShape(bufs: seq<Range>, n: nat)
    ensures var f := Fitted(bufs, n);
      && |f| <= |bufs| && Total(f) == Min(n, Total(bufs))
      && (forall i :: 0 <= i < |f| - 1 ==> f[i] == bufs[i])
      && (forall i :: 0 <= i < |f| ==> f[i].addr == bufs[i].addr && f[i].len <= bufs[i].len)
    decreases |bufs|
  {
    if bufs != [] {
      var k := Min(n, bufs[0].len);
      FittedShape(bufs[1..], n - k);
    }
  }

  lemma {:induction false} FittedApart(bufs: seq<Range>, n: nat, r: Range)
    requires ApartFrom(bufs, r)
    ensures ApartFrom(Fitted(bufs, n), r)
  {
    FittedShape(bufs, n);
    var f := Fitted(bufs, n);
    forall i | 0 <= i < |f|
      ensures f[i].Apart(r)
    {
      assert bufs[i].Apart(r);
    }
  }

  lemma FittedWithin(bufs: seq<Range>, n: nat, size: nat)
    requires AllWithin(bufs, size)
    ensures AllWithin(Fitted(bufs, n), size)
  {
    FittedShape(bufs, n);
  }

  lemma {:induction false} FittedPairwise(bufs: seq<Range>, n: nat)
    requires PairwiseApart(bufs)
    ensures PairwiseApart(Fitted(bufs, n))
    decreases |bufs|
  {
    if bufs != [] {
      var k := Min(n, bufs[0].len);
      FittedPairwise(bufs[1..], n - k);
      var f, rest := Fitted(bufs, n), Fitted(bufs[1..], n - k);
      assert bufs[0].Apart(Range(0, 0));
      forall i | 0 <= i < |bufs[1..]|
        ensures bufs[1..][i].Apart(Range(bufs[0].addr, k))
      {
        assert bufs[1..][i].Apart(bufs[0]);
      }
      FittedApart(bufs[1..], n - k, Range(bufs[0].addr, k));
      assert k != n ==> f[1..] == rest;
    }
  }

  /** Pouring a packet is scattering its prefix over the parts of the chain it occupies. */
  lemma {:induction false} PourIsScatter(m: Bytes, bufs: seq<Range>, data: Bytes)
    requires AllWithin(bufs, |m|)
    ensures AllWithin(Fitted(bufs, |data|), |m|)
    ensures Total(Fitted(bufs, |data|)) == Min(|data|, Total(bufs))
    ensures Pour(m, bufs, data) == Scatter(m, Fitted(bufs, |data|), data[..Min(|data|, Total(bufs))])
    decreases |bufs|
  {
    hide Splice;
    FittedWithin(bufs, |data|, |m|);
    FittedShape(bufs, |data|);
    if bufs != [] {
      var n, f := Min(|data|, bufs[0].len), Fitted(bufs, |data|);
      var m1 := Splice(m, bufs[0].addr, data[..n]);
      var all := data[..Min(|data|, Total(bufs))];
      assert all[..n] == data[..n];
      ScatterStep(m, f, all);
      if n == |data| {
        assert f[1..] == [];
      } else {
        PourIsScatter(m1, bufs[1..], data[n..]);
        assert f[1..] == Fitted(bufs[1..], |data| - n);
        assert all[n..] == data[n..][..Min(|data[n..]|, Total(bufs[1..]))];
      }
    }
  }

  // ---- the device's state ----

  datatype NetState = NetState(port: Port, line: Line, sent: seq<Bytes>) {
    function Chain(): Option<seq<nat>>
      requires port.Mapped()
    {
      ChainFrom(TableOf(port.m, port.l.desc), port.Head())
    }

    function Bufs(): seq<Range>
      requires port.Mapped() && Chain().Some?
    {
      var t := TableOf(port.m, port.l.desc);
      WalkEndsIff(t, port.Head());
      ChainInTable(t, port.Head(), Chain().value);
      Buffers(t, Chain().value)
    }

    /** A waiting chain ends and its buffers lie in guest memory. */
    predicate Sound() {
      && (port.ready ==> port.Mapped())
      && (port.Waiting() ==> Chain().Some? && AllWithin(Bufs(), |port.m|))
    }

    predicate Due() { port.Waiting() && Sound() }

    /** For receiving, the buffers also keep off the chain that is being walked. */
    predicate SoundRx() {
      Sound() && (port.Waiting() ==> ApartFrom(Bufs(), port.l.DescRange()))
    }

    predicate SoundTx() {
      Sound() && (port.Waiting() ==> Total(Bufs()) <= BUFFER_LEN)
    }

    /** update_rx, where `packet` is what the tap has ready. */
    function Rx(packet: Option<Bytes>): NetState
      requires SoundRx() && (packet.Some? ==> |packet.value| <= BUFFER_LEN)
    {
      if !port.Waiting() then this
      else
        match packet
        case None =>
          var taken := port.Take();
          this.(port := taken.(lastAvail := taken.Ring().PopBack().lastAvail))
        case Some(p) =>
          NetState(port.Finish(Pour(port.m, Bufs(), p), Min(|p|, Total(Bufs()))), line.Set(true), sent)
    }

    /** update_tx. */
    function Tx(): NetState
      requires SoundTx()
    {
      if !port.Waiting() then this
      else NetState(port.Finish(port.m, Total(Bufs())), line.Set(true), sent + [Gather(port.m, Bufs())])
    }
  }

  /** Without a packet the chain is put back: nothing changes, so no chain is skipped and none is taken twice. */
  lemma RxWithoutPacket(s: NetState)
    requires s.SoundRx()
    ensures s.Rx(None) == s
  {
    hide RingOf;
    if s.port.Waiting() {
      TakeOnRing(s.port);
      PopThenPopBack(s.port.Ring());
      RingFields(s.port.m, s.port.l, s.port.lastAvail, s.port.ready);
    }
  }

  /**
   The bytes received, in chain order, are the packet's prefix as long as the chain can hold; that length is reported;
   on the ring it is next() and add_used(); and nothing outside the filled parts and the used ring changes.
   */
  lemma RxDelivers(s: NetState, p: Bytes)
    requires s.SoundRx() && s.port.Waiting() && |p| <= BUFFER_LEN && PairwiseApart(s.Bufs())
    requires ApartFrom(s.Bufs(), s.port.l.AvailRange()) && ApartFrom(s.Bufs(), s.port.l.UsedRange())
    ensures var s', n, f := s.Rx(Some(p)), Min(|p|, Total(s.Bufs())), Fitted(s.Bufs(), |p|);
      && AllWithin(f, |s'.port.m|) && Gather(s'.port.m, f) == p[..n]
      && s'.port.Ring() == s.port.Ring().Pop().AddUsed(UsedElem(s.port.Head(), n)) && s'.line.level
      && forall r: Range {:trigger Agree(s.port.m, s'.port.m, r)} ::
           r.Within(|s.port.m|) && ApartFrom(f, r) && r.Apart(s.port.l.UsedRange()) ==> Agree(s.port.m, s'.port.m, r)
  {
    hide RingOf, AddUsedBytes, Pour, Scatter, Gather, Fitted, TableOf, NetState.Bufs, NetState.Chain;
    var s', n, bufs := s.Rx(Some(p)), Min(|p|, Total(s.Bufs())), s.Bufs();
    var f, m1 := Fitted(bufs, |p|), Pour(s.port.m, bufs, p);
    PourIsScatter(s.port.m, bufs, p);
    FittedPairwise(bufs, |p|);
    GatherScatter(s.port.m, f, p[..n]);
    FittedApart(bufs, |p|, s.port.l.AvailRange());
    FittedApart(bufs, |p|, s.port.l.UsedRange());
    ScatterFrame(s.port.m, f, p[..n], s.port.l.AvailRange());
    ScatterFrame(s.port.m, f, p[..n], s.port.l.UsedRange());
    FinishOnRing(s.port, m1, n);
    forall i | 0 <= i < |f|
      ensures Agree(m1, s'.port.m, f[i])
    {
      AddUsedAgree(m1, s.port.l, UsedElem(s.port.Head(), n), f[i]);
    }
    GatherFrame(m1, s'.port.m, f);
    forall r: Range | r.Within(|s.port.m|) && ApartFrom(f, r) && r.Apart(s.port.l.UsedRange())
      ensures Agree(s.port.m, s'.port.m, r)
    {
      ScatterFrame(s.port.m, f, p[..n], r);
      FinishAgree(s.port, m1, n, r);
    }
  }

  /** The packet handed to the tap is the chain's buffers in order; guest memory changes only in the used ring. */
  lemma TxSends(s: NetState)
    requires s.SoundTx() && s.port.Waiting()
    ensures var s' := s.Tx();
      && s'.sent == s.sent + [Gather(s.port.m, s.Bufs())] && |s'.sent[|s.sent|]| == Total(s.Bufs())
      && s'.port.Ring() == s.port.Ring().Pop().AddUsed(UsedElem(s.port.Head(), Total(s.Bufs()))) && s'.line.level
      && forall r: Range {:trigger Agree(s.port.m, s'.port.m, r)} ::
           r.Within(|s.port.m|) && r.Apart(s.port.l.UsedRange()) ==> Agree(s.port.m, s'.port.m, r)
  {
    hide RingOf, AddUsedBytes, Gather, TableOf, NetState.Bufs, NetState.Chain;
    FinishOnRing(s.port, s.port.m, Total(s.Bufs()));
    forall r: Range | r.Within(|s.port.m|) && r.Apart(s.port.l.UsedRange())
      ensures Agree(s.port.m, s.Tx().port.m, r)
    {
      FinishAgree(s.port, s.port.m, Total(s.Bufs()), r);
    }
  }

  lemma FittedStep(bufs: seq<Range>, n: nat)
    requires bufs != []
    ensures var k := Min(n, bufs[0].len);
      Fitted(bufs, n) == [Range(bufs[0].addr, k)] + if k == n then [] else Fitted(bufs[1..], n - k)
  {
  }

  lemma GatherCons(m: Bytes, b: Range, tail: seq<Range>)
    requires AllWithin([b] + tail, |m|)
    ensures b.Within(|m|) && AllWithin(tail, |m|) && Gather(m, [b] + tail) == Slice(m, b) + Gather(m, tail)
  {
    var bufs := [b] + tail;
    assert bufs[0] == b && bufs[1..] == tail;
    forall i | 0 <= i < |tail|
      ensures tail[i].Within(|m|)
    {
      assert bufs[i + 1] == tail[i];
    }
  }

  lemma PrefixOfSum(x: Bytes, y: Bytes, z: Bytes)
    requires y <= z
    ensures x + y <= x + z
  {
    assert z == y + z[|y|..];
    assert x + z == x + y + z[|y|..];
  }

  /** The gathered chain starts with the gathered parts that n bytes occupy. */
  lemma {:induction false} GatherFitted(m: Bytes, bufs: seq<Range>, n: nat)
    requires AllWithin(bufs, |m|)
    ensures AllWithin(Fitted(bufs, n), |m|) && Gather(m, Fitted(bufs, n)) <= Gather(m, bufs)
    decreases |bufs|
  {
    FittedWithin(bufs, n, |m|);
    if bufs == [] {
    } else {
      hide Gather, Fitted, AllWithin;
      var k, b := Min(n, bufs[0].len), bufs[0];
      FittedStep(bufs, n);
      assert bufs == [b] + bufs[1..];
      GatherCons(m, b, bufs[1..]);
      if k == n {
        GatherCons(m, Range(b.addr, k), []);
        GatherNothing(m);
        assert Slice(m, Range(b.addr, k)) == Slice(m, b)[..k];
      } else {
        GatherCons(m, b, Fitted(bufs[1..], n - k));
        GatherFitted(m, bufs[1..], n - k);
        PrefixOfSum(Slice(m, b), Gather(m, Fitted(bufs[1..], n - k)), Gather(m, bufs[1..]));
      }
    }
  }

  lemma GatherNothing(m: Bytes)
    ensures AllWithin([], |m|) && Gather(m, []) == []
  {
  }

  /**
   Sending from the buffers a packet was received into gives the packet back as the start of what is sent, exactly if
   the chain had room for it.
   */
  lemma ReceivedComesBack(s: NetState, p: Bytes, t: NetState)
    requires s.SoundRx() && s.port.Waiting() && |p| <= BUFFER_LEN && PairwiseApart(s.Bufs())
    requires ApartFrom(s.Bufs(), s.port.l.AvailRange()) && ApartFrom(s.Bufs(), s.port.l.UsedRange())
    requires t.SoundTx() && t.port.Waiting() && t.Bufs() == s.Bufs() && |t.port.m| == |s.port.m|
    requires forall i :: 0 <= i < |s.Bufs()| ==> Agree(s.Rx(Some(p)).port.m, t.port.m, s.Bufs()[i])
    ensures p <= t.Tx().sent[|t.sent|] <==> |p| <= Total(s.Bufs())
  {
    hide RingOf, AddUsedBytes, Pour, Gather, Fitted, TableOf, NetState.Bufs, NetState.Chain;
    RxDelivers(s, p);
    GatherFrame(s.Rx(Some(p)).port.m, t.port.m, s.Bufs());
    GatherFitted(s.Rx(Some(p)).port.m, s.Bufs(), |p|);
    if |p| <= Total(s.Bufs()) {
      assert p[..|p|] == p;
    }
  }

  // ---- the loops ----

  predicate Listed(m: Bytes, desc: nat, first: nat, path: seq<nat>) {
    && desc + DESC_SIZE * QUEUE_SIZE_MAX <= |m| && path != []
    && var t := TableOf(m, desc);
    && IsChain(t, first, path) && InTable(t, path) && AllWithin(Buffers(t, path), |m|)
  }

  /** The receive loop has filled the buffers before `cur`; `left` is still to be poured into those of `rest`. */
  ghost predicate Filling(m0: Bytes, m: Bytes, desc: nat, path: seq<nat>, packet: Bytes, cur: nat, rest: seq<nat>,
                          left: Bytes)
  {
    && |m| == |m0| && path != [] && Listed(m0, desc, path[0], path) && Listed(m0, desc, cur, rest)
    && var t := TableOf(m0, desc);
    && Agree(m0, m, Range(desc, DESC_SIZE * QUEUE_SIZE_MAX))
    && ApartFrom(Buffers(t, rest), Range(desc, DESC_SIZE * QUEUE_SIZE_MAX))
    && |left| <= |packet|
    && |packet| - |left| + Min(|left|, Total(Buffers(t, rest))) == Min(|packet|, Total(Buffers(t, path)))
    && Pour(m, Buffers(t, rest), left) == Pour(m0, Buffers(t, path), packet)
  }

  lemma FillStart(m: Bytes, desc: nat, first: nat, path: seq<nat>, packet: Bytes)
    requires Listed(m, desc, first, path)
    requires ApartFrom(Buffers(TableOf(m, desc), path), Range(desc, DESC_SIZE * QUEUE_SIZE_MAX))
    ensures packet[0..] == packet && Filling(m, m, desc, path, packet, first, path, packet)
  {
  }

  lemma PourStep(m: Bytes, bufs: seq<Range>, data: Bytes)
    requires AllWithin(bufs, |m|) && bufs != []
    ensures var n := Min(|data|, bufs[0].len);
      var m1 := Splice(m, bufs[0].addr, data[..n]);
      Pour(m, bufs, data) == if n == |data| || |bufs| == 1 then m1 else Pour(m1, bufs[1..], data[n..])
  {
  }

  lemma FillStep(m0: Bytes, m: Bytes, desc: nat, path: seq<nat>, packet: Bytes, cur: nat, rest: seq<nat>, left: Bytes)
    requires Filling(m0, m, desc, path, packet, cur, rest, left)
    ensures |m| == |m0| && desc + DESC_SIZE * QUEUE_SIZE_MAX <= |m| && cur < QUEUE_SIZE_MAX
    ensures path != [] && rest != [] && Listed(m0, desc, path[0], path) && |left| <= |packet|
    ensures var d := DescAt(m, desc, cur);
      var n := Min(|left|, d.len);
      && d.addr + n <= |m|
      && var m' := Splice(m, d.addr, left[..n]);
      if n == |left| || !d.HasNext() then
        && m' == Pour(m0, Buffers(TableOf(m0, desc), path), packet)
        && |packet| - |left| + n == Min(|packet|, Total(Buffers(TableOf(m0, desc), path)))
      else
        d.next < QUEUE_SIZE_MAX && Filling(m0, m', desc, path, packet, d.next, rest[1..], left[n..])
  {
    hide TableOf, DescAt, Splice, Pour, IsChain, Buffers;
    var t, table := TableOf(m0, desc), Range(desc, DESC_SIZE * QUEUE_SIZE_MAX);
    BuffersStep(t, cur, rest);
    var d, bufs := t[cur], Buffers(t, rest);
    assert d == DescAt(m, desc, cur) by {
      TableFrame(m0, m, desc);
      TableAt(m, desc, cur);
    }
    var n := Min(|left|, d.len);
    PourStep(m, bufs, left);
    assert bufs[0] == d.Buffer() && bufs[0].Within(|m|) && bufs[0].Apart(table);
    assert Total(bufs) == d.len + Total(bufs[1..]) && (!d.HasNext() ==> bufs[1..] == []);
    if d.HasNext() && n != |left| {
      var tail := Buffers(t, rest[1..]);
      assert bufs[1..] == tail && forall i :: 0 <= i < |tail| ==> tail[i] == bufs[i + 1];
      SpliceAgree(m, d.addr, left[..n], table);
      AgreeTransitive(m0, m, Splice(m, d.addr, left[..n]), table);
    }
  }

  class Device {
    const irq: Interrupt
    var sent: seq<Bytes>

    constructor (irq: Interrupt)
      ensures this.irq == irq && sent == []
    {
      this.irq, sent := irq, [];
    }

    ghost function State(q: Queue): NetState
      reads this, q, q.mem, irq
    {
      NetState(q.Now(), irq.Now(), sent)
    }

    method ReceiveChain(q: Queue, first: nat, packet: Bytes, ghost path: seq<nat>) returns (len: nat)
      requires |packet| <= BUFFER_LEN && Listed(q.mem[..], q.descAddr, first, path)
      requires ApartFrom(Buffers(TableOf(q.mem[..], q.descAddr), path), q.Where().DescRange())
      modifies q.mem
      ensures var bufs := Buffers(TableOf(old(q.mem[..]), q.descAddr), path);
        q.mem[..] == Pour(old(q.mem[..]), bufs, packet) && len == Min(|packet|, Total(bufs))
    {
      hide Filling, Pour, Splice, TableOf, DescAt, Buffers, LeValue;
      ghost var m0, rest := q.mem[..], path;
      var cur: nat := first;
      len := 0;
      FillStart(m0, q.descAddr, first, path, packet);
      while true
        invariant len <= |packet| && Filling(m0, q.mem[..], q.descAddr, path, packet, cur, rest, packet[len..])
        decreases |rest|
      {
        FillStep(m0, q.mem[..], q.descAddr, path, packet, cur, rest, packet[len..]);
        var d := DescAt(q.mem[..], q.descAddr, cur);
        var n := Min(|packet| - len, d.len);
        assert packet[len..][..n] == packet[len..len + n] && packet[len..][n..] == packet[len + n..];
        CopyIn(q.mem, d.addr, packet[len..len + n]);
        len := len + n;
        if len == |packet| {
          break;
        }
        if !d.HasNext() {
          break;
        }
        cur := d.next;
        rest := rest[1..];
      }
    }

    method UpdateRx(q: Queue, packet: Option<Bytes>)
      requires State(q).SoundRx() && (packet.Some? ==> |packet.value| <= BUFFER_LEN)
      modifies q`lastAvail, q.mem, irq
      ensures State(q) == old(State(q)).Rx(packet)
    {
      hide RingOf, AddUsedBytes, Pour, TableOf, Buffers, LeValue, AllWithin, ApartFrom, Ring.CanPop;
      ghost var s := State(q);
      var head := q.Next();
      if s.port.ready {
        RingFields(s.port.m, s.port.l, s.port.lastAvail, s.port.ready);
        RingFields(s.port.m, s.port.l, q.lastAvail, s.port.ready);
        assert q.Now() == s.port.Take() || head.None?;
      }
      if head.None? {
        return;
      }
      if packet.None? {
        q.PopBack();
        RingFields(s.port.m, s.port.l, q.lastAvail, s.port.ready);
        return;
      }
      ghost var t := TableOf(s.port.m, s.port.l.desc);
      WalkEndsIff(t, s.port.Head());
      ChainInTable(t, s.port.Head(), s.Chain().value);
      var start := q.AvailId();
      var len := ReceiveChain(q, head.value, packet.value, s.Chain().value);
      var _ := q.AddUsed(start, len);
      irq.SetLevel(true);
    }

    method SendChain(q: Queue, first: nat, ghost path: seq<nat>) returns (buffer: Bytes)
      requires Listed(q.mem[..], q.descAddr, first, path)
      requires Total(Buffers(TableOf(q.mem[..], q.descAddr), path)) <= BUFFER_LEN
      ensures buffer == Gather(q.mem[..], Buffers(TableOf(q.mem[..], q.descAddr), path))
    {
      hide TableOf, DescAt, Buffers, Gather, LeValue, IsChain;
      ghost var m, t, rest := q.mem[..], TableOf(q.mem[..], q.descAddr), path;
      var cur: nat := first;
      buffer := [];
      BuffersStep(t, cur, rest);
      while true
        invariant Listed(m, q.descAddr, cur, rest) && cur < QUEUE_SIZE_MAX
        invariant buffer + Gather(m, Buffers(t, rest)) == Gather(m, Buffers(t, path))
        decreases |rest|
      {
        BuffersStep(t, cur, rest);
        GatherStep(m, Buffers(t, rest));
        TableAt(m, q.descAddr, cur);
        var d := DescAt(q.mem[..], q.descAddr, cur);
        assert Buffers(t, rest)[0] == d.Buffer();
        var bytes := CopyOut(q.mem, d.Buffer());
        ghost var before := buffer;
        buffer := buffer + bytes;
        if !d.HasNext() {
          GatherStep(m, Buffers(t, rest)[1..]);
          break;
        }
        assert Buffers(t, rest)[1..] == Buffers(t, rest[1..]);
        assert forall i :: 0 <= i < |Buffers(t, rest[1..])| ==> Buffers(t, rest[1..])[i] == Buffers(t, rest)[i + 1];
        assert before + (bytes + Gather(m, Buffers(t, rest[1..]))) == buffer + Gather(m, Buffers(t, rest[1..]));
        cur := d.next;
        rest := rest[1..];
      }
    }

    method UpdateTx(q: Queue)
      requires State(q).SoundTx()
      modifies q`lastAvail, q.mem, irq, this`sent
      ensures State(q) == old(State(q)).Tx()
    {
      hide RingOf, AddUsedBytes, Gather, TableOf, Buffers, LeValue;
      ghost var s := State(q);
      var head := q.Next();
      if s.port.ready {
        RingFields(s.port.m, s.port.l, s.port.lastAvail, s.port.ready);
        RingFields(s.port.m, s.port.l, q.lastAvail, s.port.ready);
        assert q.Now() == s.port.Take() || head.None?;
      }
      if head.None? {
        return;
      }
      ghost var t := TableOf(s.port.m, s.port.l.desc);
      WalkEndsIff(t, s.port.Head());
      ChainInTable(t, s.port.Head(), s.Chain().value);
      var start := q.AvailId();
      var buffer := SendChain(q, head.value, s.Chain().value);
      sent := sent + [buffer];
      var _ := q.AddUsed(start, |buffer|);
      irq.SetLevel(true);
    }
  }
}
