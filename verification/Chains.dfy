/** Descriptor chains: the walk along `next` links, and scatter/gather over the buffers of a chain. */
module Chains {
  import opened Words
  import opened GuestMemory
  import opened Rings
  import opened Queues

  type Table = seq<Desc>

  function TableOf(m: Bytes, desc: nat): (t: Table)
    requires desc + DESC_SIZE * QUEUE_SIZE_MAX <= |m|
    ensures |t| == QUEUE_SIZE_MAX
  {
    seq(QUEUE_SIZE_MAX, i requires 0 <= i < QUEUE_SIZE_MAX => DescAt(m, desc, i))
  }

  lemma TableAt(m: Bytes, desc: nat, i: nat)
    requires desc + DESC_SIZE * QUEUE_SIZE_MAX <= |m| && i < QUEUE_SIZE_MAX
    ensures TableOf(m, desc)[i] == DescAt(m, desc, i)
  {
  }

  lemma TableFrame(m: Bytes, m': Bytes, desc: nat)
    requires desc + DESC_SIZE * QUEUE_SIZE_MAX <= |m| && Agree(m, m', Range(desc, DESC_SIZE * QUEUE_SIZE_MAX))
    ensures TableOf(m', desc) == TableOf(m, desc)
  {
    hide LeValue;
    forall i | 0 <= i < QUEUE_SIZE_MAX
      ensures DescAt(m', desc, i) == DescAt(m, desc, i)
    {
      var a, r := desc + DESC_SIZE * i, Range(desc, DESC_SIZE * QUEUE_SIZE_MAX);
      AgreeSlice(m, m', r, a, 8);
      AgreeSlice(m, m', r, a + 8, 4);
      AgreeSlice(m, m', r, a + 12, 2);
      AgreeSlice(m, m', r, a + 14, 2);
    }
  }

  // ---- walking a chain ----

  /** `path` lists the descriptors a walk from i visits: it follows `next` while NEXT is set and stops otherwise. */
  predicate IsChain(t: Table, i: nat, path: seq<nat>)
    decreases |path|
  {
    && path != [] && path[0] == i && i < |t|
    && if t[i].HasNext() then IsChain(t, t[i].next, path[1..]) else |path| == 1
  }

  /** The walk with the unvisited descriptors as its measure; None when it leaves the table or comes back. */
  function Walk(t: Table, i: nat, unvisited: set<nat>): Option<seq<nat>>
    requires forall k :: k in unvisited ==> k < |t|
    decreases unvisited
  {
    if i !in unvisited then None
    else if !t[i].HasNext() then Some([i])
    else
      match Walk(t, t[i].next, unvisited - {i})
      case None => None
      case Some(rest) => Some([i] + rest)
  }

  function UpTo(n: nat): (s: set<nat>)
    ensures |s| == n && forall k :: k in s <==> 0 <= k < n
  {
    if n == 0 then {} else UpTo(n - 1) + {n - 1}
  }

  /** The path of the walk from i, if it ends. */
  function ChainFrom(t: Table, i: nat): Option<seq<nat>> { Walk(t, i, UpTo(|t|)) }

  predicate InTable(t: Table, path: seq<nat>) {
    forall k :: 0 <= k < |path| ==> path[k] < |t|
  }

  predicate Distinct(path: seq<nat>) {
    forall a, b :: 0 <= a < b < |path| ==> path[a] != path[b]
  }

  lemma {:induction false} WalkSound(t: Table, i: nat, unvisited: set<nat>)
    requires (forall k :: k in unvisited ==> k < |t|) && Walk(t, i, unvisited).Some?
    ensures var path := Walk(t, i, unvisited).value;
      && IsChain(t, i, path) && Distinct(path) && (forall k :: 0 <= k < |path| ==> path[k] in unvisited)
      && |path| <= |unvisited|
    decreases unvisited
  {
    if t[i].HasNext() {
      WalkSound(t, t[i].next, unvisited - {i});
      var rest := Walk(t, t[i].next, unvisited - {i}).value;
      assert ([i] + rest)[1..] == rest;
    }
  }

  lemma {:induction false} ChainSuffix(t: Table, i: nat, path: seq<nat>, k: nat)
    requires IsChain(t, i, path) && k < |path|
    ensures IsChain(t, path[k], path[k..])
    decreases |path|
  {
    if k > 0 {
      ChainSuffix(t, t[i].next, path[1..], k - 1);
      assert path[1..][k - 1..] == path[k..];
    } else {
      assert path[0..] == path;
    }
  }

  lemma {:induction false} ChainUnique(t: Table, i: nat, p: seq<nat>, q: seq<nat>)
    requires IsChain(t, i, p) && IsChain(t, i, q)
    ensures p == q
    decreases |p|
  {
    if t[i].HasNext() {
      ChainUnique(t, t[i].next, p[1..], q[1..]);
      assert p == [i] + p[1..] && q == [i] + q[1..];
    }
  }

  /** A walk that ends visits no descriptor twice. */
  lemma ChainDistinct(t: Table, i: nat, path: seq<nat>)
    requires IsChain(t, i, path)
    ensures Distinct(path)
  {
    forall a, b | 0 <= a < b < |path|
      ensures path[a] != path[b]
    {
      if path[a] == path[b] {
        ChainSuffix(t, i, path, a);
        ChainSuffix(t, i, path, b);
        ChainUnique(t, path[a], path[a..], path[b..]);
      }
    }
  }

  lemma {:induction false} WalkFollows(t: Table, i: nat, path: seq<nat>, unvisited: set<nat>)
    requires IsChain(t, i, path) && Distinct(path)
    requires (forall k :: k in unvisited ==> k < |t|) && forall k :: 0 <= k < |path| ==> path[k] in unvisited
    ensures Walk(t, i, unvisited) == Some(path)
    decreases |path|
  {
    assert path[0] in unvisited && path == [i] + path[1..];
    if t[i].HasNext() {
      assert forall k :: 0 <= k < |path[1..]| ==> path[1..][k] == path[k + 1] != path[0];
      WalkFollows(t, t[i].next, path[1..], unvisited - {i});
    } else {
      assert path == [i];
    }
  }

  lemma {:induction false} ChainInTable(t: Table, i: nat, path: seq<nat>)
    requires IsChain(t, i, path)
    ensures InTable(t, path)
    decreases |path|
  {
    if t[i].HasNext() {
      ChainInTable(t, t[i].next, path[1..]);
      assert path == [i] + path[1..];
    }
  }

  /** The descriptor a walk reaches after k links. */
  function After(t: Table, i: nat, k: nat): Option<nat>
    decreases k
  {
    if i >= |t| then None
    else if k == 0 then Some(i)
    else if t[i].HasNext() then After(t, t[i].next, k - 1)
    else None
  }

  /** The unbounded loop of the device ends: after some number of links it is at a descriptor without NEXT. */
  ghost predicate WalkEnds(t: Table, i: nat) {
    exists k: nat :: EndsAfter(t, i, k)
  }

  predicate EndsAfter(t: Table, i: nat, k: nat) {
    After(t, i, k).Some? && After(t, i, k).value < |t| && !t[After(t, i, k).value].HasNext()
  }

  lemma {:induction false} EndedWalk(t: Table, i: nat, k: nat) returns (path: seq<nat>)
    requires EndsAfter(t, i, k)
    ensures IsChain(t, i, path) && |path| == k + 1
    decreases k
  {
    if k == 0 {
      path := [i];
    } else {
      assert EndsAfter(t, t[i].next, k - 1);
      var rest := EndedWalk(t, t[i].next, k - 1);
      path := [i] + rest;
      assert path[1..] == rest;
    }
  }

  lemma {:induction false} ChainEnds(t: Table, i: nat, path: seq<nat>)
    requires IsChain(t, i, path)
    ensures EndsAfter(t, i, |path| - 1)
    ensures forall k :: 0 <= k < |path| ==> After(t, i, k) == Some(path[k])
    decreases |path|
  {
    if t[i].HasNext() {
      ChainEnds(t, t[i].next, path[1..]);
      forall k | 0 <= k < |path|
        ensures After(t, i, k) == Some(path[k])
      {
        if k > 0 {
          assert After(t, i, k) == After(t, t[i].next, k - 1);
          assert path[1..][k - 1] == path[k];
        }
      }
    }
  }

  /**
   The device's walk ends if and only if the walk with the unvisited descriptors as measure succeeds, and then it
   visits exactly the descriptors of that path, each once, at most as many as the table has.
   */
  lemma WalkEndsIff(t: Table, i: nat)
    ensures WalkEnds(t, i) <==> ChainFrom(t, i).Some?
    ensures ChainFrom(t, i).Some? ==>
      var path := ChainFrom(t, i).value;
      && IsChain(t, i, path) && Distinct(path) && |path| <= |t|
      && forall k :: 0 <= k < |path| ==> After(t, i, k) == Some(path[k])
  {
    if ChainFrom(t, i).Some? {
      WalkSound(t, i, UpTo(|t|));
      ChainEnds(t, i, ChainFrom(t, i).value);
    } else if WalkEnds(t, i) {
      var k: nat :| EndsAfter(t, i, k);
      var path := EndedWalk(t, i, k);
      ChainWalked(t, i, path);
    }
  }

  lemma ChainWalked(t: Table, i: nat, path: seq<nat>)
    requires IsChain(t, i, path)
    ensures ChainFrom(t, i) == Some(path)
  {
    ChainInTable(t, i, path);
    ChainDistinct(t, i, path);
    WalkFollows(t, i, path, UpTo(|t|));
  }

  // ---- the buffers of a chain ----

  function Buffers(t: Table, path: seq<nat>): (bufs: seq<Range>)
    requires InTable(t, path)
    ensures |bufs| == |path|
  {
    if path == [] then [] else [t[path[0]].Buffer()] + Buffers(t, path[1..])
  }

  lemma BuffersStep(t: Table, i: nat, path: seq<nat>)
    requires IsChain(t, i, path) && InTable(t, path)
    ensures i < |t| && path != []
    ensures t[i].HasNext() ==>
      && t[i].next < |t| && |path| > 1 && InTable(t, path[1..]) && IsChain(t, t[i].next, path[1..])
      && Buffers(t, path) == [t[i].Buffer()] + Buffers(t, path[1..])
    ensures !t[i].HasNext() ==> Buffers(t, path) == [t[i].Buffer()] && path == [i]
  {
  }

  function Total(bufs: seq<Range>): nat {
    if bufs == [] then 0 else bufs[0].len + Total(bufs[1..])
  }

  predicate AllWithin(bufs: seq<Range>, size: nat) {
    forall i :: 0 <= i < |bufs| ==> bufs[i].Within(size)
  }

  predicate ApartFrom(bufs: seq<Range>, r: Range) {
    forall i :: 0 <= i < |bufs| ==> bufs[i].Apart(r)
  }

  predicate PairwiseApart(bufs: seq<Range>) {
    bufs == [] || (ApartFrom(bufs[1..], bufs[0]) && PairwiseApart(bufs[1..]))
  }

  /** The bytes of the buffers, in chain order. */
  function Gather(m: Bytes, bufs: seq<Range>): (bs: Bytes)
    requires AllWithin(bufs, |m|)
    ensures |bs| == Total(bufs)
  {
    if bufs == [] then [] else Slice(m, bufs[0]) + Gather(m, bufs[1..])
  }

  /** Memory after `data` was stored into the buffers, in chain order. */
  function Scatter(m: Bytes, bufs: seq<Range>, data: Bytes): (m': Bytes)
    requires AllWithin(bufs, |m|) && |data| == Total(bufs)
    ensures |m'| == |m|
    decreases |bufs|
  {
    if bufs == [] then m
    else Scatter(Splice(m, bufs[0].addr, data[..bufs[0].len]), bufs[1..], data[bufs[0].len..])
  }

  lemma AgreeTransitive(a: Bytes, b: Bytes, c: Bytes, r: Range)
    requires Agree(a, b, r) && Agree(b, c, r)
    ensures Agree(a, c, r)
  {
  }

  /** Scattering changes nothing outside the buffers. */
  lemma {:induction false} ScatterFrame(m: Bytes, bufs: seq<Range>, data: Bytes, r: Range)
    requires AllWithin(bufs, |m|) && |data| == Total(bufs) && ApartFrom(bufs, r)
    ensures Agree(m, Scatter(m, bufs, data), r)
    decreases |bufs|
  {
    if bufs != [] {
      var m1 := Splice(m, bufs[0].addr, data[..bufs[0].len]);
      assert bufs[0].Apart(r);
      SpliceAgree(m, bufs[0].addr, data[..bufs[0].len], r);
      ScatterFrame(m1, bufs[1..], data[bufs[0].len..], r);
      AgreeTransitive(m, m1, Scatter(m, bufs, data), r);
    }
  }

  lemma SliceOfSplice(m: Bytes, r: Range, bs: Bytes)
    requires r.Within(|m|) && |bs| == r.len
    ensures Slice(Splice(m, r.addr, bs), r) == bs
  {
  }

  lemma AgreeGivesSlice(m: Bytes, m': Bytes, r: Range)
    requires Agree(m, m', r) && r.Within(|m|)
    ensures Slice(m, r) == Slice(m', r)
  {
  }

  /** Gathering what was scattered into disjoint buffers gives the data back. */
  lemma {:induction false} GatherScatter(m: Bytes, bufs: seq<Range>, data: Bytes)
    requires AllWithin(bufs, |m|) && |data| == Total(bufs) && PairwiseApart(bufs)
    ensures Gather(Scatter(m, bufs, data), bufs) == data
    decreases |bufs|
  {
    hide Splice, Slice;
    if bufs != [] {
      var b := bufs[0];
      var m1 := Splice(m, b.addr, data[..b.len]);
      GatherScatter(m1, bufs[1..], data[b.len..]);
      ScatterFrame(m1, bufs[1..], data[b.len..], b);
      AgreeGivesSlice(m1, Scatter(m, bufs, data), b);
      SliceOfSplice(m, b, data[..b.len]);
      assert data == data[..b.len] + data[b.len..];
    }
  }

  lemma {:induction false} GatherFrame(m: Bytes, m': Bytes, bufs: seq<Range>)
    requires AllWithin(bufs, |m|) && |m'| == |m|
    requires forall i :: 0 <= i < |bufs| ==> Agree(m, m', bufs[i])
    ensures Gather(m', bufs) == Gather(m, bufs)
    decreases |bufs|
  {
    if bufs != [] {
      AgreeGivesSlice(m, m', bufs[0]);
      GatherFrame(m, m', bufs[1..]);
    }
  }

  // ---- transfers along a chain ----

  /** The data buffers of a walk: all but the descriptor it ends at. */
  function DataOf(t: Table, path: seq<nat>): (data: seq<Range>)
    requires InTable(t, path) && path != []
  {
    if |path| == 1 then [] else [t[path[0]].Buffer()] + DataOf(t, path[1..])
  }

  lemma DataOfStep(t: Table, i: nat, path: seq<nat>)
    requires IsChain(t, i, path) && InTable(t, path)
    ensures i < |t| && path != []
    ensures t[i].HasNext() ==>
      && t[i].next < |t| && |path| > 1 && InTable(t, path[1..]) && IsChain(t, t[i].next, path[1..])
      && DataOf(t, path) == [t[i].Buffer()] + DataOf(t, path[1..])
    ensures !t[i].HasNext() ==> DataOf(t, path) == [] && path == [i]
  {
  }

  lemma ScatterStep(m: Bytes, bufs: seq<Range>, data: Bytes)
    requires AllWithin(bufs, |m|) && |data| == Total(bufs)
    ensures bufs == [] ==> Scatter(m, bufs, data) == m
    ensures bufs != [] ==>
      Scatter(m, bufs, data) == Scatter(Splice(m, bufs[0].addr, data[..bufs[0].len]), bufs[1..], data[bufs[0].len..])
  {
  }

  /** What the transfer loops need of the chain they walk: it ends, and its data buffers are in bounds. */
  predicate Walkable(m: Bytes, desc: nat, first: nat, path: seq<nat>) {
    && desc + DESC_SIZE * QUEUE_SIZE_MAX <= |m|
    && var t := TableOf(m, desc);
    && IsChain(t, first, path) && InTable(t, path) && AllWithin(DataOf(t, path), |m|)
  }

  /** A gathering walk has taken `got` from the buffers before `last` and has those of `rest` to go. */
  ghost predicate Gathering(m: Bytes, desc: nat, path: seq<nat>, last: nat, rest: seq<nat>, got: Bytes) {
    && path != [] && Walkable(m, desc, path[0], path) && Walkable(m, desc, last, rest)
    && rest[|rest| - 1] == path[|path| - 1]
    && got + Gather(m, DataOf(TableOf(m, desc), rest)) == Gather(m, DataOf(TableOf(m, desc), path))
  }

  lemma GatherStart(m: Bytes, desc: nat, first: nat, path: seq<nat>)
    requires path != [] && Walkable(m, desc, first, path)
    ensures first < QUEUE_SIZE_MAX && Gathering(m, desc, path, first, path, [])
  {
  }

  lemma GatherStep(m: Bytes, bufs: seq<Range>)
    requires AllWithin(bufs, |m|)
    ensures bufs == [] ==> Gather(m, bufs) == []
    ensures bufs != [] ==> Gather(m, bufs) == Slice(m, bufs[0]) + Gather(m, bufs[1..])
  {
  }

  lemma GatherWalk(m: Bytes, desc: nat, path: seq<nat>, last: nat, rest: seq<nat>, got: Bytes)
    requires Gathering(m, desc, path, last, rest, got)
    ensures path != [] && desc + DESC_SIZE * QUEUE_SIZE_MAX <= |m| && last < QUEUE_SIZE_MAX && rest != []
    ensures Walkable(m, desc, path[0], path)
    ensures var d, all := DescAt(m, desc, last), Gather(m, DataOf(TableOf(m, desc), path));
      if d.HasNext() then
        && d.next < QUEUE_SIZE_MAX && d.addr + d.len <= |m| && |got| + d.len <= |all|
        && Gathering(m, desc, path, d.next, rest[1..], got + Slice(m, d.Buffer()))
      else
        got == all && last == path[|path| - 1]
  {
    hide TableOf, DescAt, Gather, IsChain, DataOf, Slice;
    var t := TableOf(m, desc);
    DataOfStep(t, last, rest);
    var d := DescAt(m, desc, last);
    TableAt(m, desc, last);
    var bufs := DataOf(t, rest);
    GatherStep(m, bufs);
    if d.HasNext() {
      assert bufs[0] == d.Buffer() && bufs[1..] == DataOf(t, rest[1..]);
      assert Walkable(m, desc, d.next, rest[1..]) by {
        assert forall i :: 0 <= i < |DataOf(t, rest[1..])| ==> DataOf(t, rest[1..])[i] == bufs[i + 1];
      }
      assert got + (Slice(m, bufs[0]) + Gather(m, bufs[1..])) == got + Slice(m, bufs[0]) + Gather(m, bufs[1..]);
    }
  }
}
