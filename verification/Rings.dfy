/**
 The decoded state of one split virtqueue as the device sees it, and the pure meaning of the operations of
 `class queue` on it. The ring arrays always have QUEUE_SIZE_MAX entries, whatever `size` the driver configured.
 */
module Rings {
  import opened Words

  const QUEUE_SIZE_MAX: nat := 0x200

  /** One used-ring element: the head of a finished chain and the number of bytes reported for it. */
  datatype UsedElem = UsedElem(id: u32, len: u32)

  datatype Ring = Ring(
    size: nat,
    ready: bool,
    lastAvail: u32,
    availIdx: u16,
    avail: seq<u16>,
    usedEvent: u16,
    usedIdx: u16,
    used: seq<UsedElem>)
  {
    predicate Configured() {
      0 < size <= QUEUE_SIZE_MAX && |avail| == QUEUE_SIZE_MAX && |used| == QUEUE_SIZE_MAX
    }

    /** The device may take a chain: a 16-bit index is compared with a 32-bit counter, without wrap-around. */
    predicate CanPop() {
      ready && lastAvail < availIdx
    }

    function Pop(): Ring {
      if CanPop() then this.(lastAvail := (lastAvail + 1) % TWO_TO_THE_32) else this
    }

    function PopBack(): Ring {
      this.(lastAvail := (lastAvail - 1) % TWO_TO_THE_32)
    }

    /** The head of the chain taken last. */
    function AvailId(): u16
      requires Configured()
    {
      avail[Slot((lastAvail - 1) % TWO_TO_THE_32, size)]
    }

    function AddUsed(e: UsedElem): Ring
      requires Configured()
    {
      this.(used := used[Slot(usedIdx, size) := e], usedIdx := (usedIdx + 1) % TWO_TO_THE_16)
    }

    /** The block device's notification test, an `int` subtraction: `idx - 1` is -1 when the counter wrapped to 0. */
    predicate WantsInterrupt(idx: u16) {
      idx - 1 == usedEvent
    }

    /** What the driver writes when it makes `head` available as its `k`-th chain (section 2.6.13 of VIRTIO 1.1). */
    function Publish(k: nat, head: u16): Ring
      requires Configured()
    {
      this.(avail := avail[Slot(k % TWO_TO_THE_16, size) := head], availIdx := (k + 1) % TWO_TO_THE_16)
    }

    /**
     The driver writes `used_event` right behind `size` ring entries (section 2.6.6 of VIRTIO 1.1). The device looks
     behind QUEUE_SIZE_MAX entries, so for a smaller ring the write lands in a ring entry neither side uses.
     */
    function Arm(seen: u16): Ring
      requires Configured()
    {
      if size == QUEUE_SIZE_MAX then this.(usedEvent := seen) else this.(avail := avail[size := seen])
    }
  }

  /** Zeroed ring memory. */
  function EmptyRing(size: nat): Ring {
    Ring(size, true, 0, 0, seq(QUEUE_SIZE_MAX, _ => 0), 0, 0, seq(QUEUE_SIZE_MAX, _ => UsedElem(0, 0)))
  }

  // ---- the used ring over runs of any length ----

  function AddUsedAll(r: Ring, es: seq<UsedElem>): (r': Ring)
    requires r.Configured()
    ensures r'.Configured() && r'.size == r.size
  {
    if es == [] then r else AddUsedAll(r, es[..|es| - 1]).AddUsed(es[|es| - 1])
  }

  lemma AddMod(x: nat)
    ensures (x % TWO_TO_THE_16 + 1) % TWO_TO_THE_16 == (x + 1) % TWO_TO_THE_16
  {
  }

  /** The used index advances with the completions, modulo 2^16; used_event is the driver's. */
  lemma {:induction false} AddUsedAllIndex(r: Ring, es: seq<UsedElem>)
    requires r.Configured()
    ensures var r' := AddUsedAll(r, es);
      r'.usedIdx == (r.usedIdx + |es|) % TWO_TO_THE_16 && r'.usedEvent == r.usedEvent
  {
    hide Slot;
    if es != [] {
      AddUsedAllIndex(r, es[..|es| - 1]);
      AddMod(r.usedIdx + |es| - 1);
    }
  }

  /** From zeroed memory the used index counts completions modulo 2^16. */
  lemma UsedIdxCounts(size: nat, es: seq<UsedElem>)
    requires 0 < size <= QUEUE_SIZE_MAX
    ensures AddUsedAll(EmptyRing(size), es).usedIdx == |es| % TWO_TO_THE_16
  {
    AddUsedAllIndex(EmptyRing(size), es);
  }

  /** Each of the last `size` completions is in the slot where the driver looks for it. */
  ghost predicate KeepsLatest(r: Ring, es: seq<UsedElem>)
    requires r.Configured()
  {
    forall k {:trigger es[k]} :: 0 <= k < |es| && |es| - r.size <= k ==> r.used[Slot(k, r.size)] == es[k]
  }

  /** Below 2^16 completions the slot law holds for every size, beyond for those that divide 2^16. */
  lemma {:induction false} LatestKept(size: nat, es: seq<UsedElem>)
    requires 0 < size <= QUEUE_SIZE_MAX && (TWO_TO_THE_16 % size == 0 || |es| <= TWO_TO_THE_16)
    ensures KeepsLatest(AddUsedAll(EmptyRing(size), es), es)
  {
    if es != [] {
      var n := |es| - 1;
      var before, after := AddUsedAll(EmptyRing(size), es[..n]), AddUsedAll(EmptyRing(size), es);
      LatestKept(size, es[..n]);
      UsedIdxCounts(size, es[..n]);
      if TWO_TO_THE_16 % size == 0 {
        SlotOfCounter(n, size);
      } else {
        RemainderIsUnique(0, n, TWO_TO_THE_16);
      }
      forall k | 0 <= k < |es| && |es| - size <= k
        ensures after.used[Slot(k, size)] == es[k]
      {
        if k < n {
          DistinctSlots(k, n, size);
          assert es[..n][k] == es[k];
        }
      }
    }
  }

  /** Every slot holds its initial value or one of the completions added so far. */
  lemma {:induction false} UsedSlotOrigin(size: nat, es: seq<UsedElem>, i: nat)
    requires 0 < size <= QUEUE_SIZE_MAX && i < QUEUE_SIZE_MAX
    ensures var e := AddUsedAll(EmptyRing(size), es).used[i]; e == UsedElem(0, 0) || e in es
  {
    if es != [] {
      var n := |es| - 1;
      UsedSlotOrigin(size, es[..n], i);
      assert es == es[..n] + [es[n]];
    }
  }

  /**
   The slot law holds for completion sequences of every length exactly for the sizes that divide 2^16, the powers of two
   up to 512. For any other size it breaks when the 16-bit index first wraps, at completion number 2^16; by LatestKept
   not before.
   */
  lemma LatestKeptIff(size: nat)
    requires 0 < size <= QUEUE_SIZE_MAX
    ensures (forall es :: KeepsLatest(AddUsedAll(EmptyRing(size), es), es)) <==> TWO_TO_THE_16 % size == 0
  {
    if TWO_TO_THE_16 % size == 0 {
      forall es
        ensures KeepsLatest(AddUsedAll(EmptyRing(size), es), es)
      {
        LatestKept(size, es);
      }
    } else {
      var es := seq(TWO_TO_THE_16 + 1, k requires 0 <= k <= TWO_TO_THE_16 => UsedElem(k, 1));
      WrapMissesSlot(size, es[..TWO_TO_THE_16], es[TWO_TO_THE_16]);
      assert es == es[..TWO_TO_THE_16] + [es[TWO_TO_THE_16]];
    }
  }

  lemma WrapMissesSlot(size: nat, es: seq<UsedElem>, e: UsedElem)
    requires 0 < size <= QUEUE_SIZE_MAX && TWO_TO_THE_16 % size != 0
    requires |es| == TWO_TO_THE_16 && e !in es && e != UsedElem(0, 0)
    ensures !KeepsLatest(AddUsedAll(EmptyRing(size), es + [e]), es + [e])
  {
    var before, all := AddUsedAll(EmptyRing(size), es), es + [e];
    UsedIdxCounts(size, es);
    UsedSlotOrigin(size, es, Slot(|es|, size));
    SlotIsRemainder(|es|, size);
    assert all[..|all| - 1] == es && all[|es|] == e;
    var after := before.AddUsed(e);
    assert AddUsedAll(EmptyRing(size), all) == after;
    assert before.usedIdx == 0;
    assert after.used[Slot(|es|, size)] != e;
  }

  // ---- the notification test ----

  /** `vring_need_event` of section 2.6.7.2 of VIRTIO 1.1: does moving the used index from old to new pass `event`? */
  predicate NeedEvent(event: u16, new_: u16, old_: u16) {
    (new_ - event - 1) % TWO_TO_THE_16 < (new_ - old_) % TWO_TO_THE_16
  }

  /** The block device's test is the standard's test, except that it misses the step from 65535 to 0. */
  lemma NotificationTestIff(r: Ring, idx: u16)
    ensures r.WantsInterrupt(idx) == NeedEvent(r.usedEvent, idx, (idx - 1) % TWO_TO_THE_16)
            <==> !(idx == 0 && r.usedEvent == 0xFFFF)
  {
    assert (idx - (idx - 1) % TWO_TO_THE_16) % TWO_TO_THE_16 == 1;
  }

  /** How many completions come before the one numbered `event`, when the used index is `idx`. */
  function Distance(idx: u16, event: u16): (d: nat)
    ensures d < TWO_TO_THE_16
  {
    if idx <= event then event - idx else event + TWO_TO_THE_16 - idx
  }

  lemma ArmedNumber(idx: u16, event: u16, n: nat, after: u16)
    requires 0 < n <= TWO_TO_THE_16 && after == (idx + n) % TWO_TO_THE_16
    ensures after - 1 == event <==> n - 1 == Distance(idx, event) && event != 0xFFFF
  {
    assert after == if idx + n < TWO_TO_THE_16 then idx + n else idx + n - TWO_TO_THE_16;
  }

  /**
   A driver that arms used_event ahead of time hears nothing of the completions before the armed one and is interrupted
   by that one: of the next 2^16 completions exactly the one whose number it wrote, unless that is the wrapping one.
   */
  lemma CompletionInterruptsIff(r: Ring, es: seq<UsedElem>)
    requires r.Configured() && 0 < |es| <= TWO_TO_THE_16
    ensures var r' := AddUsedAll(r, es);
      r'.WantsInterrupt(r'.usedIdx) <==> |es| - 1 == Distance(r.usedIdx, r.usedEvent) && r.usedEvent != 0xFFFF
  {
    hide AddUsedAll, Distance;
    AddUsedAllIndex(r, es);
    ArmedNumber(r.usedIdx, r.usedEvent, |es|, AddUsedAll(r, es).usedIdx);
  }

  // ---- next() against the number of chains really published ----

  /**
   With `published` chains made available and at most 2^16 - 1 of them not yet taken, the device takes a waiting chain
   exactly while fewer than 2^16 chains were ever published: the 16-bit index never wraps past a 32-bit counter.
   */
  lemma PopIff(r: Ring, published: nat)
    requires r.ready && r.availIdx == published % TWO_TO_THE_16
    requires r.lastAvail < published < r.lastAvail + TWO_TO_THE_16
    ensures r.CanPop() <==> published < TWO_TO_THE_16
  {
  }

  /** A chain is taken while the counter is below a 16-bit index, so the counter itself does not wrap. */
  lemma PopAdvances(r: Ring)
    requires r.CanPop()
    ensures r.Pop() == r.(lastAvail := r.lastAvail + 1)
  {
    RemainderIsUnique(0, r.lastAvail + 1, TWO_TO_THE_32);
  }

  lemma PopBackRetreats(r: Ring)
    requires r.lastAvail > 0
    ensures r.PopBack() == r.(lastAvail := r.lastAvail - 1)
  {
    RemainderIsUnique(0, r.lastAvail - 1, TWO_TO_THE_32);
  }

  /** Taking a chain and putting it back changes nothing, so no chain is skipped. */
  lemma PopThenPopBack(r: Ring)
    requires r.CanPop()
    ensures r.Pop().PopBack() == r
  {
  }
}
