/** Guest physical memory of src/kvm/vm.h: the KVM slots around the 32-bit gap and the e820 map handed to the guest. */
module MemoryLayout {
  import opened Words
  import opened GuestMemory

  const KVM_32BIT_MAX_MEM_SIZE: nat := 0x1_0000_0000
  const KVM_32BIT_GAP_SIZE: nat := 768 * 0x10_0000
  const KVM_32BIT_GAP_START: nat := KVM_32BIT_MAX_MEM_SIZE - KVM_32BIT_GAP_SIZE
  const EBDA_START: nat := 0x9fc00
  const HIMEM_START: nat := 0x10_0000

  /** A memory slot: guest range and the offset of its backing in the host mapping. */
  datatype MemorySlot = MemorySlot(id: nat, guest: Range, host: nat)

  // ---- what is computed ----

  /** The size of the host mapping, a 64-bit sum. */
  function MappingSize(mem: u64): u64 {
    if mem >= KVM_32BIT_GAP_START then (mem + KVM_32BIT_GAP_SIZE) % TWO_TO_THE_64 else mem
  }

  function Slots(size: u64): seq<MemorySlot> {
    if size < KVM_32BIT_GAP_START then [MemorySlot(0, Range(0, size), 0)]
    else [MemorySlot(0, Range(0, KVM_32BIT_GAP_START), 0),
          MemorySlot(1, Range(KVM_32BIT_MAX_MEM_SIZE, (size - KVM_32BIT_MAX_MEM_SIZE) % TWO_TO_THE_64),
                     KVM_32BIT_MAX_MEM_SIZE)]
  }

  /** The RAM ranges of the e820 map; sizes are 64-bit differences. */
  function E820(size: u64): seq<Range> {
    [Range(0, EBDA_START)]
    + if size < KVM_32BIT_GAP_START then [Range(HIMEM_START, (size - HIMEM_START) % TWO_TO_THE_64)]
      else [Range(HIMEM_START, KVM_32BIT_GAP_START - HIMEM_START),
            Range(KVM_32BIT_MAX_MEM_SIZE, (size - KVM_32BIT_MAX_MEM_SIZE) % TWO_TO_THE_64)]
  }

  /** The virtual machine, as far as memory is concerned. */
  class Vm {
    var memorySize: u64
    var slots: seq<MemorySlot>
    var e820: seq<Range>

    constructor ()
      ensures memorySize == 0 && slots == [] && e820 == []
    {
      memorySize, slots, e820 := 0, [], [];
    }

    method CreateMemory(mem: u64)
      modifies this`memorySize, this`slots
      ensures memorySize == MappingSize(mem) && slots == old(slots) + Slots(memorySize)
    {
      memorySize := mem;
      if mem >= KVM_32BIT_GAP_START {
        memorySize := (memorySize + KVM_32BIT_GAP_SIZE) % TWO_TO_THE_64;
      }
      if memorySize < KVM_32BIT_GAP_START {
        slots := slots + [MemorySlot(0, Range(0, memorySize), 0)];
      } else {
        slots := slots + [MemorySlot(0, Range(0, KVM_32BIT_GAP_START), 0)];
        slots := slots + [MemorySlot(1, Range(KVM_32BIT_MAX_MEM_SIZE,
                                              (memorySize - KVM_32BIT_MAX_MEM_SIZE) % TWO_TO_THE_64),
                                     KVM_32BIT_MAX_MEM_SIZE)];
        assert slots == old(slots) + Slots(memorySize);
      }
    }

    method SetupBootparams()
      modifies this`e820
      ensures e820 == E820(memorySize)
    {
      e820 := [];
      e820 := e820 + [Range(0, EBDA_START)];
      if memorySize < KVM_32BIT_GAP_START {
        e820 := e820 + [Range(HIMEM_START, (memorySize - HIMEM_START) % TWO_TO_THE_64)];
      } else {
        e820 := e820 + [Range(HIMEM_START, KVM_32BIT_GAP_START - HIMEM_START)];
        e820 := e820 + [Range(KVM_32BIT_MAX_MEM_SIZE, (memorySize - KVM_32BIT_MAX_MEM_SIZE) % TWO_TO_THE_64)];
      }
    }
  }

  // ---- what it guarantees ----

  function TotalSize(slots: seq<MemorySlot>): nat {
    if slots == [] then 0 else slots[0].guest.len + TotalSize(slots[1..])
  }

  function TotalRange(rs: seq<Range>): nat {
    if rs == [] then 0 else rs[0].len + TotalRange(rs[1..])
  }

  lemma TotalCons(r: Range, rs: seq<Range>)
    ensures TotalRange([r] + rs) == r.len + TotalRange(rs)
  {
    assert ([r] + rs)[1..] == rs;
  }

  predicate Fits(mem: u64) { mem + KVM_32BIT_GAP_SIZE < TWO_TO_THE_64 }

  /** The guest gets exactly the memory asked for, exactly if adding the gap does not overflow 64 bits. */
  lemma SizeConservedIff(mem: u64)
    ensures TotalSize(Slots(MappingSize(mem))) == mem <==> Fits(mem)
  {
    var slots := Slots(MappingSize(mem));
    assert TotalSize(slots[1..]) == if |slots| == 2 then slots[1].guest.len else 0 by {
      assert |slots| == 2 ==> slots[1..] == [slots[1]];
    }
  }

  predicate InSlot(slots: seq<MemorySlot>, a: nat) {
    exists i :: 0 <= i < |slots| && slots[i].guest.Contains(a)
  }

  /**
   The slots are disjoint, leave the 32-bit gap free, and guest address equals host offset: so `ptr + addr` is the
   backing of every RAM address and stays inside the mapping.
   */
  lemma TranslationIsSound(mem: u64, a: nat)
    requires Fits(mem) && InSlot(Slots(MappingSize(mem)), a)
    ensures var slots := Slots(MappingSize(mem));
      && a < MappingSize(mem) && !(KVM_32BIT_GAP_START <= a < KVM_32BIT_MAX_MEM_SIZE)
      && exists i :: 0 <= i < |slots| && slots[i].guest.Contains(a) && slots[i].host + (a - slots[i].guest.addr) == a
           && forall j :: 0 <= j < |slots| && j != i ==> !slots[j].guest.Contains(a)
  {
    var slots := Slots(MappingSize(mem));
    var i :| 0 <= i < |slots| && slots[i].guest.Contains(a);
    assert forall j :: 0 <= j < |slots| && j != i ==> !slots[j].guest.Contains(a);
  }

  predicate Inside(r: Range, slots: seq<MemorySlot>) {
    exists i :: 0 <= i < |slots|
      && slots[i].guest.addr <= r.addr && r.addr + r.len <= slots[i].guest.addr + slots[i].guest.len
  }

  /** Every e820 RAM range is backed by one slot exactly if the mapping has at least 1 MiB. */
  lemma E820BackedIff(mem: u64)
    ensures (forall k :: 0 <= k < |E820(MappingSize(mem))| ==>
               Inside(E820(MappingSize(mem))[k], Slots(MappingSize(mem))))
            <==> MappingSize(mem) >= HIMEM_START
  {
    var size := MappingSize(mem);
    var rs, slots := E820(size), Slots(size);
    if size >= KVM_32BIT_GAP_START {
      assert Inside(rs[0], slots) && Inside(rs[1], slots) by {
        assert slots[0].guest.addr <= rs[0].addr && rs[1].addr + rs[1].len <= slots[0].guest.len;
      }
      assert slots[1].guest == rs[2];
    } else if size >= HIMEM_START {
      assert slots[0].guest.addr <= rs[0].addr && rs[1].addr + rs[1].len <= slots[0].guest.len;
    } else {
      assert !Inside(rs[1], slots);
    }
  }

  /** The map gives the guest all its memory except the hole from the EBDA to 1 MiB. */
  lemma E820Complete(mem: u64)
    requires Fits(mem) && mem >= HIMEM_START
    ensures TotalRange(E820(MappingSize(mem))) + (HIMEM_START - EBDA_START) == mem
    ensures forall a: nat :: InSlot(Slots(MappingSize(mem)), a) && !(EBDA_START <= a < HIMEM_START) ==>
              exists k :: 0 <= k < |E820(MappingSize(mem))| && E820(MappingSize(mem))[k].Contains(a)
  {
    var size := MappingSize(mem);
    var rs, slots := E820(size), Slots(size);
    if size < KVM_32BIT_GAP_START {
      assert rs == [rs[0]] + ([rs[1]] + []);
      TotalCons(rs[1], []);
      TotalCons(rs[0], [rs[1]] + []);
    } else {
      assert rs == [rs[0]] + ([rs[1]] + ([rs[2]] + []));
      TotalCons(rs[2], []);
      TotalCons(rs[1], [rs[2]] + []);
      TotalCons(rs[0], [rs[1]] + ([rs[2]] + []));
    }
    forall a: nat | InSlot(slots, a) && !(EBDA_START <= a < HIMEM_START)
      ensures exists k :: 0 <= k < |rs| && rs[k].Contains(a)
    {
      if a < EBDA_START {
        assert rs[0].Contains(a);
      } else if a < KVM_32BIT_GAP_START {
        assert rs[1].Contains(a);
      } else {
        assert rs[2].Contains(a);
      }
    }
  }
}
