/**
 Block requests with every number of section 5.2.6 of VIRTIO 1.1 written out: where a sector lies, what the types are,
 what is reported. These lemmas tie `Serve`, a turn and the sequential answer to the literal places on the disk.
 */
module BlkFormat {
  import opened Words
  import opened GuestMemory
  import opened Rings
  import opened Queues
  import opened Chains
  import opened Interrupts
  import opened Blk
  import opened BlkRequests
  import opened BlkTransfer
  import opened ByteLayout

  /** Type at 0 and sector at 8 of the header, which lies where the first descriptor of the chain points. */
  lemma HeaderLayout(m: Bytes, desc: nat, head: nat)
    requires desc + 0x2000 <= |m| && RequestAt(m, desc, head).Some?
    ensures head < 512 && desc + 16 * head + 16 <= |m|
    ensures var a, r := U64At(m, desc + 16 * head), RequestAt(m, desc, head).value;
      a + 16 <= |m| && r.kind == U32At(m, a) && r.sector == U64At(m, a + 8)
  {
    hide LeValue, RequestAt, DescAt, U64At, U32At;
    RequestParts(m, desc, head);
    DescriptorLayout(m, desc, head);
  }

  /** 0 reads, 1 writes, 8 identifies. */
  lemma RequestTypes(r: Request)
    ensures r.Transfers() <==> r.kind == 0 || r.kind == 1
    ensures r.Handled() <==> r.kind == 0 || r.kind == 1 || r.kind == 8
  {
  }

  // ---- serving one request ----

  lemma TransferFits(r: Request, memSize: nat, diskSize: nat)
    requires r.Servable(memSize, diskSize) && r.Transfers()
    ensures AllWithin(r.data, memSize) && r.status.addr < memSize && r.Extent().Within(diskSize)
    ensures r.Extent() == Range(512 * r.sector % 0x1_0000_0000_0000_0000, Total(r.data))
  {
    hide Total;
  }

  /** A read delivers the bytes from 512 times the sector on. */
  lemma SectorIsRead(m: Bytes, disk: Bytes, r: Request)
    requires r.Servable(|m|, |disk|) && r.kind == 0 && r.Disjoint() && 512 * r.sector < 0x1_0000_0000_0000_0000
    ensures Serve(m, disk, r).Done? && 512 * r.sector + Total(r.data) <= |disk|
    ensures var o := Serve(m, disk, r);
      && Gather(o.m, r.data) == disk[512 * r.sector..512 * r.sector + Total(r.data)]
      && o.disk == disk && o.m[r.status.addr] == 0 && o.len == (Total(r.data) + 1) % 0x1_0000_0000
  {
    hide Gather, Scatter, Splice;
    ReadFills(m, disk, r);
  }

  /** A write stores them there, and no other byte of the disk changes. */
  lemma SectorIsWritten(m: Bytes, disk: Bytes, r: Request)
    requires r.Servable(|m|, |disk|) && r.kind == 1 && 512 * r.sector < 0x1_0000_0000_0000_0000
    ensures Serve(m, disk, r).Done? && 512 * r.sector + Total(r.data) <= |disk|
    ensures var at, o := 512 * r.sector, Serve(m, disk, r);
      && o.disk[at..at + Total(r.data)] == Gather(m, r.data)
      && (forall i :: 0 <= i < |disk| && !(at <= i < at + Total(r.data)) ==> o.disk[i] == disk[i])
      && o.m[r.status.addr] == 0 && o.len == (Total(r.data) + 1) % 0x1_0000_0000
  {
    hide Gather, Serve, Total, Request.Servable, Request.Extent;
    TransferFits(r, |m|, |disk|);
    WriteStores(m, disk, r);
  }

  /** From sector 2^55 on the 64-bit product wraps: the transfer goes to the product modulo 2^64. */
  lemma ProductWraps(m: Bytes, disk: Bytes, r: Request)
    requires r.Servable(|m|, |disk|) && r.Transfers() && r.Disjoint()
    ensures Serve(m, disk, r).Done? && 512 * r.sector % 0x1_0000_0000_0000_0000 + Total(r.data) <= |disk|
    ensures var at, o := 512 * r.sector % 0x1_0000_0000_0000_0000, Serve(m, disk, r);
      o.disk[at..at + Total(r.data)] == Gather(if r.kind == 0 then o.m else m, r.data)
  {
    hide Gather, Serve, Total, Request.Servable, Request.Extent;
    TransferFits(r, |m|, |disk|);
    if r.kind == 0 {
      ReadFills(m, disk, r);
    } else {
      WriteStores(m, disk, r);
    }
  }

  const IDENTIFIER: string := "kthxvmkthxvmkthxvmdisk"

  /** An identification delivers the identifier's first bytes; the 23rd is zero. */
  lemma IdentifierIsRead(m: Bytes, disk: Bytes, r: Request, i: nat)
    requires r.Servable(|m|, |disk|) && r.kind == 8 && r.Disjoint() && |r.data| == 1 && i < r.data[0].len
    ensures Serve(m, disk, r).Done? && r.data[0].len <= 23 && r.data[0].addr + i < |m|
    ensures var o := Serve(m, disk, r);
      && o.m[r.data[0].addr + i] == (if i < 22 then IDENTIFIER[i] as int else 0)
      && o.disk == disk && o.m[r.status.addr] == 0 && o.len == r.data[0].len + 1
  {
    hide Splice;
    var b := r.data[0];
    var m1 := Splice(m, b.addr, DISK_ID[..b.len]);
    SpliceAt(m, b.addr, DISK_ID[..b.len], b.addr + i);
    SpliceAt(m1, r.status.addr, [VIRTIO_BLK_S_OK], b.addr + i);
    SpliceAt(m1, r.status.addr, [VIRTIO_BLK_S_OK], r.status.addr);
    assert b.Apart(r.status);
    IdentifierBytes(i);
    assert r.data == [b];
    assert Total(r.data) == b.len by {
      assert r.data[1..] == [];
    }
  }

  lemma IdentifierBytes(i: nat)
    requires i < 23
    ensures |DISK_ID| == 23 && DISK_ID[i] == if i < 22 then IDENTIFIER[i] as int else 0
  {
    if i < 18 {
      assert DISK_ID[i] == KTHXVM[i % 6];
    } else {
      assert DISK_ID[i] == [0x64, 0x69, 0x73, 0x6b, 0][i - 18];
    }
  }

  /** Every other type is dropped: no status, no completion. */
  lemma OtherTypesAreDropped(m: Bytes, disk: Bytes, r: Request)
    requires r.Servable(|m|, |disk|)
    ensures Serve(m, disk, r) == Dropped <==> r.kind != 0 && r.kind != 1 && r.kind != 8
  {
  }

  // ---- a turn, and the answers of a run ----

  /** What one turn of the loop does to guest memory and disk, for a read. */
  lemma TurnReadsSector(s: BlkState)
    requires s.Due() && s.OffRings() && s.Current().value.kind == 0 && s.Current().value.Disjoint()
    requires 512 * s.Current().value.sector < 0x1_0000_0000_0000_0000
    ensures var r := s.Current().value;
      && 512 * r.sector + Total(r.data) <= |s.disk| && s.Turn().disk == s.disk
      && Gather(s.Turn().port.m, r.data) == s.disk[512 * r.sector..512 * r.sector + Total(r.data)]
  {
    hide RequestAt, RingOf, Gather, Serve, Request.Servable, Request.Disjoint, BlkState.OffRings;
    SectorIsRead(s.port.m, s.disk, s.Current().value);
    TurnKeepsData(s);
  }

  /** ... and for a write. */
  lemma TurnWritesSector(s: BlkState)
    requires s.Due() && s.Current().value.kind == 1
    requires 512 * s.Current().value.sector < 0x1_0000_0000_0000_0000
    ensures var r := s.Current().value;
      && 512 * r.sector + Total(r.data) <= |s.disk| == |s.Turn().disk|
      && s.Turn().disk[512 * r.sector..512 * r.sector + Total(r.data)] == Gather(s.port.m, r.data)
  {
    hide RequestAt, RingOf, Gather, Serve, Request.Servable;
    SectorIsWritten(s.port.m, s.disk, s.Current().value);
  }

  /** What `AnsweredFrom`, the promise of every interleaved run, says of guest memory. */
  lemma AnswerMeans(m: Bytes, o: Order, before: Bytes)
    requires AnsweredFrom(m, o, before)
    ensures o.r.status.addr < |m| && m[o.r.status.addr] == 0 && AllWithin(o.r.data, |m|)
    ensures o.r.kind == 0 && 512 * o.r.sector < 0x1_0000_0000_0000_0000 ==>
      && 512 * o.r.sector + Total(o.r.data) <= |before|
      && Gather(m, o.r.data) == before[512 * o.r.sector..512 * o.r.sector + Total(o.r.data)]
    ensures o.r.kind == 8 ==>
      && |Gather(m, o.r.data)| <= 23
      && forall i :: 0 <= i < |Gather(m, o.r.data)| ==>
           Gather(m, o.r.data)[i] == if i < 22 then IDENTIFIER[i] as int else 0
  {
    hide Gather;
    forall i: nat | i < 23
      ensures |DISK_ID| == 23 && DISK_ID[i] == if i < 22 then IDENTIFIER[i] as int else 0
    {
      IdentifierBytes(i);
    }
  }

  /** The disk a request of the sequential execution leaves. */
  lemma DiskWithMeans(before: Bytes, o: Order, payload: Bytes)
    requires 512 * o.r.sector + |payload| <= |before| < 0x1_0000_0000_0000_0000 && payload != []
    ensures var at, d := 512 * o.r.sector, DiskWith(before, o, payload);
      && (o.r.kind == 1 ==>
            && d[at..at + |payload|] == payload
            && d[..at] == before[..at] && d[at + |payload|..] == before[at + |payload|..])
      && (o.r.kind != 1 ==> d == before)
  {
  }
}
