/**
 The fixed-width unsigned integers of the source, as ranges of the mathematical integers.
 Wrap-around is always written out where the source relies on it.
 */
module Words {
  const TWO_TO_THE_8: int := 0x100
  const TWO_TO_THE_16: int := 0x1_0000
  const TWO_TO_THE_32: int := 0x1_0000_0000
  const TWO_TO_THE_64: int := 0x1_0000_0000_0000_0000

  type u8 = x: int | 0 <= x < TWO_TO_THE_8
  type u16 = x: int | 0 <= x < TWO_TO_THE_16
  type u32 = x: int | 0 <= x < TWO_TO_THE_32
  type u64 = x: int | 0 <= x < TWO_TO_THE_64

  datatype Option<+T> = None | Some(value: T)

  lemma ProductIsNotSmall(x: nat, d: int)
    ensures d == 0 || x * d >= x || x * d + x <= 0
  {
  }

  lemma RemainderIsUnique(q: nat, r: nat, size: nat)
    requires r < size
    ensures (size * q + r) % size == r
  {
    var x := size * q + r;
    assert x == size * (x / size) + x % size;
    ProductIsNotSmall(size, q - x / size);
  }

  lemma MultiplesDropOut(m: nat, r: nat, size: nat)
    requires 0 < size
    ensures (size * m + r) % size == r % size
  {
    assert size * m + r == size * (m + r / size) + r % size;
    RemainderIsUnique(m + r / size, r % size, size);
  }

  function Wrap32(x: nat): u32 { x % TWO_TO_THE_32 }

  /** A 32-bit running sum: adding to the reduced sum gives the reduced sum. */
  lemma AddWraps(done: nat, more: nat)
    ensures Wrap32(Wrap32(done) + more) == Wrap32(done + more)
  {
  }

  /**
   The ring slot of a free-running counter, `k % size`. The recursive form keeps non-linear arithmetic out of every
   proof that only needs slots to be in range and distinct.
   */
  function Slot(k: nat, size: nat): (i: nat)
    requires 0 < size
    ensures i < size
  {
    if k < size then k else Slot(k - size, size)
  }

  lemma {:induction false} SlotIsRemainder(k: nat, size: nat)
    requires 0 < size
    ensures Slot(k, size) == k % size
  {
    if k < size {
      RemainderIsUnique(0, k, size);
    } else {
      SlotIsRemainder(k - size, size);
      MultiplesDropOut(1, k - size, size);
    }
  }

  /** Counters less than `size` apart have different slots: the positions of one window never collide. */
  lemma {:induction false} DistinctSlots(a: nat, b: nat, size: nat)
    requires a < b < a + size
    ensures Slot(a, size) != Slot(b, size)
  {
    if size <= a {
      DistinctSlots(a - size, b - size, size);
    } else if size <= b {
      assert Slot(b, size) == b - size;
    }
  }

  /** Reducing a free-running 16-bit counter modulo a ring size that divides 2^16 loses nothing. */
  lemma SlotOfCounter(k: nat, size: nat)
    requires 0 < size && TWO_TO_THE_16 % size == 0
    ensures Slot(k % TWO_TO_THE_16, size) == Slot(k, size)
  {
    var w, q, r := TWO_TO_THE_16 / size, k / TWO_TO_THE_16, k % TWO_TO_THE_16;
    assert TWO_TO_THE_16 == size * w;
    assert k == size * (w * q) + r;
    MultiplesDropOut(w * q, r, size);
    SlotIsRemainder(k, size);
    SlotIsRemainder(r, size);
  }
}
