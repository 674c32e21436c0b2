/** Address windows of src/kvm/device/io_device.h and the first-match dispatch loops over them. */
module IoDispatch {
  import opened Words

  /** A device's window; the source adds `addr + width` in 64 bits. */
  datatype Window = Window(addr: u64, width: u64) {
    predicate InRange(port: u64) { addr <= port < (addr + width) % TWO_TO_THE_64 }

    function Offset(port: u64): u64 { (port - addr) % TWO_TO_THE_64 }
  }

  /** No port lies in two windows. */
  ghost predicate Disjoint(ws: seq<Window>) {
    forall i, j, port: u64 {:trigger ws[i].InRange(port), ws[j].InRange(port)} ::
      0 <= i < j < |ws| && ws[i].InRange(port) ==> !ws[j].InRange(port)
  }

  /** The dispatch loop: the first device whose window contains the port, and the offset handed to it. */
  method Dispatch(ws: seq<Window>, port: u64) returns (found: Option<nat>, offset: u64)
    ensures match found
      case Some(i) => i < |ws| && ws[i].InRange(port) && offset < ws[i].width
                      && ws[i].addr + offset == port && forall j :: 0 <= j < i ==> !ws[j].InRange(port)
      case None => forall j :: 0 <= j < |ws| ==> !ws[j].InRange(port)
    ensures Target(ws, port) == if found.Some? then Some(ws[found.value]) else None
  {
    for i := 0 to |ws|
      invariant forall j :: 0 <= j < i ==> !ws[j].InRange(port)
      invariant Target(ws[i..], port) == Target(ws, port)
    {
      if ws[i].InRange(port) {
        return Some(i), ws[i].Offset(port);
      }
    }
    return None, 0;
  }

  /** What dispatch finds, as a value. */
  function Target(ws: seq<Window>, port: u64): Option<Window> {
    if ws == [] then None else if ws[0].InRange(port) then Some(ws[0]) else Target(ws[1..], port)
  }

  lemma {:induction false} TargetMember(ws: seq<Window>, port: u64)
    ensures Target(ws, port).Some? ==> Target(ws, port).value in ws && Target(ws, port).value.InRange(port)
    ensures Target(ws, port).None? ==> forall w :: w in ws ==> !w.InRange(port)
  {
    if ws != [] {
      TargetMember(ws[1..], port);
      assert ws == [ws[0]] + ws[1..];
    }
  }

  /** With disjoint windows the order in which devices were registered does not matter. */
  lemma OrderDoesNotMatter(ws: seq<Window>, ws': seq<Window>, port: u64)
    requires Disjoint(ws) && multiset(ws) == multiset(ws')
    ensures Target(ws, port) == Target(ws', port)
  {
    TargetMember(ws, port);
    TargetMember(ws', port);
    forall w
      ensures w in ws <==> w in ws'
    {
      assert w in ws <==> w in multiset(ws);
      assert w in ws' <==> w in multiset(ws');
    }
    if Target(ws, port).Some? && Target(ws', port).Some? {
      var i :| 0 <= i < |ws| && ws[i] == Target(ws, port).value;
      var j :| 0 <= j < |ws| && ws[j] == Target(ws', port).value;
      assert ws[i].InRange(port) && ws[j].InRange(port);
    }
  }

  /** The virtio windows of the virtual machine monitor, all in the 32-bit gap. */
  const VIRTIO_WINDOWS: seq<Window> :=
    [Window(0xd000_0000, 0x1000), Window(0xd000_1000, 0x1000), Window(0xd000_2000, 0x1000)]

  /** Its port windows: keyboard and four serial ports. */
  const PORT_WINDOWS: seq<Window> :=
    [Window(0x60, 5), Window(0x3f8, 8), Window(0x2f8, 8), Window(0x3e8, 8), Window(0x2e8, 8)]

  lemma InRangePlainly(w: Window, port: u64)
    requires w.addr + w.width < TWO_TO_THE_64
    ensures w.InRange(port) <==> w.addr <= port < w.addr + w.width
  {
  }

  /** Windows that do not wrap and do not overlap are disjoint. */
  lemma DisjointIf(ws: seq<Window>)
    requires forall i :: 0 <= i < |ws| ==> ws[i].addr + ws[i].width < TWO_TO_THE_64
    requires forall i, j :: 0 <= i < j < |ws| ==>
      ws[i].addr + ws[i].width <= ws[j].addr || ws[j].addr + ws[j].width <= ws[i].addr
    ensures Disjoint(ws)
  {
    forall i, j, port: u64 | 0 <= i < j < |ws| && ws[i].InRange(port)
      ensures !ws[j].InRange(port)
    {
      InRangePlainly(ws[i], port);
      InRangePlainly(ws[j], port);
      hide *;
    }
  }

  lemma KnownWindowsDisjoint()
    ensures Disjoint(VIRTIO_WINDOWS) && Disjoint(PORT_WINDOWS)
  {
    hide Disjoint;
    DisjointIf(VIRTIO_WINDOWS);
    DisjointIf(PORT_WINDOWS);
  }

  /** With disjoint windows an access to the window of a registered device reaches that device. */
  lemma OwnerIsReached(known: seq<Window>, ws: seq<Window>, w: Window, port: u64)
    requires Disjoint(known) && multiset(known) == multiset(ws) && w in ws && w.InRange(port)
    ensures Target(ws, port) == Some(w)
  {
    hide Target;
    TargetMember(ws, port);
    var v := Target(ws, port).value;
    assert v in multiset(ws) && w in multiset(ws);
    assert v in known && w in known;
    var i :| 0 <= i < |known| && known[i] == v;
    var j :| 0 <= j < |known| && known[j] == w;
    assert known[i].InRange(port) && known[j].InRange(port);
  }

  /** Whatever order the devices of the monitor are registered in, an access to the window of one of them reaches it. */
  lemma RegisteredDeviceIsReached(ws: seq<Window>, w: Window, port: u64)
    requires multiset(ws) == multiset(VIRTIO_WINDOWS) || multiset(ws) == multiset(PORT_WINDOWS)
    requires w in ws && w.InRange(port)
    ensures Target(ws, port) == Some(w)
  {
    hide *;
    KnownWindowsDisjoint();
    if multiset(ws) == multiset(VIRTIO_WINDOWS) {
      OwnerIsReached(VIRTIO_WINDOWS, ws, w, port);
    } else {
      OwnerIsReached(PORT_WINDOWS, ws, w, port);
    }
  }
}
