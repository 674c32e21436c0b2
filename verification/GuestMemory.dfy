/**
 Guest memory as the device sees it: a byte array at host address 0, little-endian words, and `memcpy` into it.
 A sequence of bytes is the contents of the array at one moment.
 */
module GuestMemory {
  import opened Words

  type Bytes = seq<u8>

  /** The contents after `bs` was copied to address `a`; everything else is unchanged. */
  function Splice(m: Bytes, a: nat, bs: Bytes): (r: Bytes)
    requires a + |bs| <= |m|
    ensures |r| == |m|
  {
    m[..a] + bs + m[a + |bs|..]
  }

  lemma SpliceAt(m: Bytes, a: nat, bs: Bytes, i: nat)
    requires a + |bs| <= |m| && i < |m|
    ensures Splice(m, a, bs)[i] == if a <= i < a + |bs| then bs[i - a] else m[i]
  {
  }

  lemma SpliceHit(m: Bytes, a: nat, bs: Bytes)
    requires a + |bs| <= |m|
    ensures Splice(m, a, bs)[a..a + |bs|] == bs
  {
  }

  lemma SpliceMiss(m: Bytes, a: nat, bs: Bytes, b: nat, n: nat)
    requires a + |bs| <= |m| && b + n <= |m|
    requires b + n <= a || a + |bs| <= b
    ensures Splice(m, a, bs)[b..b + n] == m[b..b + n]
  {
  }

  lemma SpliceNothing(m: Bytes, a: nat)
    requires a <= |m|
    ensures Splice(m, a, []) == m
  {
  }

  function Zeros(k: nat): (bs: Bytes)
    ensures |bs| == k
  {
    seq(k, _ => 0)
  }

  /** Two neighbouring copies are one copy. */
  lemma SpliceJoin(m: Bytes, a: nat, x: Bytes, b: nat, y: Bytes)
    requires b == a + |x| && b + |y| <= |m|
    ensures Splice(Splice(m, b, y), a, x) == Splice(m, a, x + y)
    ensures Splice(Splice(m, a, x), b, y) == Splice(m, a, x + y)
  {
  }

  /** A part of what was copied to `at`. */
  lemma CopiedSlice(m: Bytes, at: nat, t: Bytes, i: nat, j: nat)
    requires at + |t| <= |m| && m[at..at + |t|] == t && i <= j <= |t|
    ensures m[at + i..at + j] == t[i..j]
  {
    forall k | 0 <= k < j - i
      ensures m[at + i..at + j][k] == t[i..j][k]
    {
      assert m[at..at + |t|][i + k] == t[i + k];
    }
  }

  // ---- little-endian words ----

  /** The number whose digits in base 256 are the bytes from position i on, least significant first. */
  function LeValue(bs: Bytes, i: nat): nat
    decreases |bs| - i
  {
    if i < |bs| then bs[i] + 0x100 * LeValue(bs, i + 1) else 0
  }

  function LeBytes(v: nat, n: nat): (bs: Bytes)
    ensures |bs| == n
  {
    if n == 0 then [] else [v % 0x100] + LeBytes(v / 0x100, n - 1)
  }

  function Pow256(n: nat): nat {
    if n == 0 then 1 else 0x100 * Pow256(n - 1)
  }

  lemma {:induction false} LeValueBound(bs: Bytes, i: nat)
    requires i <= |bs|
    ensures LeValue(bs, i) < Pow256(|bs| - i)
    decreases |bs| - i
  {
    if i < |bs| {
      LeValueBound(bs, i + 1);
    }
  }

  lemma {:induction false} LeValueTail(b: u8, bs: Bytes, i: nat)
    ensures LeValue([b] + bs, i + 1) == LeValue(bs, i)
    decreases |bs| - i
  {
    if i < |bs| {
      LeValueTail(b, bs, i + 1);
    }
  }

  /** Encoding a number in enough bytes and decoding it gives the number back. */
  lemma {:induction false} LeRoundTrip(v: nat, n: nat)
    requires v < Pow256(n)
    ensures LeValue(LeBytes(v, n), 0) == v
  {
    if n != 0 {
      LeRoundTrip(v / 0x100, n - 1);
      LeValueTail(v % 0x100, LeBytes(v / 0x100, n - 1), 0);
    }
  }

  lemma {:induction false} LeValueOfZeros(bs: Bytes, i: nat)
    requires forall k :: 0 <= k < |bs| ==> bs[k] == 0
    ensures LeValue(bs, i) == 0
    decreases |bs| - i
  {
    if i < |bs| {
      LeValueOfZeros(bs, i + 1);
    }
  }

  lemma WordSizes()
    ensures Pow256(2) == TWO_TO_THE_16 && Pow256(4) == TWO_TO_THE_32 && Pow256(8) == TWO_TO_THE_64
  {
    assert Pow256(4) == 0x1_0000 * Pow256(2);
    assert Pow256(6) == 0x1_0000 * Pow256(4);
  }

  function U16At(m: Bytes, a: nat): u16
    requires a + 2 <= |m|
  {
    LeValueBound(m[a..a + 2], 0);
    WordSizes();
    LeValue(m[a..a + 2], 0)
  }

  function U32At(m: Bytes, a: nat): u32
    requires a + 4 <= |m|
  {
    LeValueBound(m[a..a + 4], 0);
    WordSizes();
    LeValue(m[a..a + 4], 0)
  }

  function U64At(m: Bytes, a: nat): u64
    requires a + 8 <= |m|
  {
    LeValueBound(m[a..a + 8], 0);
    WordSizes();
    LeValue(m[a..a + 8], 0)
  }

  function Le16(v: u16): (bs: Bytes)
    ensures |bs| == 2
  {
    LeBytes(v, 2)
  }

  function Le32(v: u32): (bs: Bytes)
    ensures |bs| == 4
  {
    LeBytes(v, 4)
  }

  function Le64(v: u64): (bs: Bytes)
    ensures |bs| == 8
  {
    LeBytes(v, 8)
  }

  lemma SpliceReads16(m: Bytes, a: nat, v: u16)
    requires a + 2 <= |m|
    ensures U16At(Splice(m, a, Le16(v)), a) == v
  {
    SpliceHit(m, a, Le16(v));
    WordSizes();
    LeRoundTrip(v, 2);
  }

  lemma SpliceReads32(m: Bytes, a: nat, v: u32)
    requires a + 4 <= |m|
    ensures U32At(Splice(m, a, Le32(v)), a) == v
  {
    SpliceHit(m, a, Le32(v));
    WordSizes();
    LeRoundTrip(v, 4);
  }

  lemma SpliceReads64(m: Bytes, a: nat, v: u64)
    requires a + 8 <= |m|
    ensures U64At(Splice(m, a, Le64(v)), a) == v
  {
    SpliceHit(m, a, Le64(v));
    WordSizes();
    LeRoundTrip(v, 8);
  }

  lemma SpliceReadsPair(m: Bytes, a: nat, x: u32, y: u32)
    requires a + 8 <= |m|
    ensures U32At(Splice(m, a, Le32(x) + Le32(y)), a) == x && U32At(Splice(m, a, Le32(x) + Le32(y)), a + 4) == y
  {
    SpliceJoin(m, a, Le32(x), a + 4, Le32(y));
    SpliceReads32(Splice(m, a + 4, Le32(y)), a, x);
    SpliceReads32(Splice(m, a, Le32(x)), a + 4, y);
  }

  // ---- address ranges ----

  datatype Range = Range(addr: nat, len: nat) {
    predicate Within(size: nat) { addr + len <= size }

    predicate Contains(i: nat) { addr <= i < addr + len }

    /** No address lies in both; an empty range meets nothing. */
    predicate Apart(other: Range) {
      len == 0 || other.len == 0 || addr + len <= other.addr || other.addr + other.len <= addr
    }
  }

  function Slice(m: Bytes, r: Range): (bs: Bytes)
    requires r.Within(|m|)
    ensures |bs| == r.len
  {
    m[r.addr..r.addr + r.len]
  }

  /** The two memories agree on the range. */
  ghost predicate Agree(m: Bytes, m': Bytes, r: Range) {
    |m| == |m'| && forall i :: 0 <= i < |m| && r.Contains(i) ==> m[i] == m'[i]
  }

  lemma SpliceAgree(m: Bytes, a: nat, bs: Bytes, r: Range)
    requires a + |bs| <= |m| && r.Apart(Range(a, |bs|))
    ensures Agree(m, Splice(m, a, bs), r)
  {
  }

  lemma AgreeSlice(m: Bytes, m': Bytes, r: Range, a: nat, n: nat)
    requires Agree(m, m', r) && r.Within(|m|) && r.addr <= a && a + n <= r.addr + r.len
    ensures m[a..a + n] == m'[a..a + n]
  {
  }

  // ---- the array operations ----

  /** `memcpy(mem + a, bs, |bs|)`. */
  method CopyIn(mem: array<u8>, a: nat, bs: Bytes)
    requires a + |bs| <= mem.Length
    modifies mem
    ensures mem[..] == Splice(old(mem[..]), a, bs)
  {
    for i := 0 to |bs|
      invariant forall k :: 0 <= k < mem.Length ==> mem[k] == if a <= k < a + i then bs[k - a] else old(mem[k])
    {
      mem[a + i] := bs[i];
    }
  }

  method Store16(mem: array<u8>, a: nat, v: u16)
    requires a + 2 <= mem.Length
    modifies mem
    ensures mem[..] == Splice(old(mem[..]), a, Le16(v))
  {
    CopyIn(mem, a, Le16(v));
  }

  method Store32(mem: array<u8>, a: nat, v: u32)
    requires a + 4 <= mem.Length
    modifies mem
    ensures mem[..] == Splice(old(mem[..]), a, Le32(v))
  {
    CopyIn(mem, a, Le32(v));
  }

  method Store64(mem: array<u8>, a: nat, v: u64)
    requires a + 8 <= mem.Length
    modifies mem
    ensures mem[..] == Splice(old(mem[..]), a, Le64(v))
  {
    CopyIn(mem, a, Le64(v));
  }

  /** `memcpy` out of guest memory. */
  method CopyOut(mem: array<u8>, r: Range) returns (bs: Bytes)
    requires r.Within(mem.Length)
    ensures bs == Slice(mem[..], r)
  {
    bs := mem[r.addr..r.addr + r.len];
  }

  function Load16(mem: array<u8>, a: nat): u16
    reads mem
    requires a + 2 <= mem.Length
  {
    U16At(mem[..], a)
  }

  function Load32(mem: array<u8>, a: nat): u32
    reads mem
    requires a + 4 <= mem.Length
  {
    U32At(mem[..], a)
  }

  function Load64(mem: array<u8>, a: nat): u64
    reads mem
    requires a + 8 <= mem.Length
  {
    U64At(mem[..], a)
  }
}
