/**
 The serial port's registers as a driver of a 16550 uses them, with offsets, bits and values written out: what each
 register reads as after any run, what a byte from the terminal does, what a byte to the transmitter does.
 */
module UartRegisters {
  import opened Words
  import opened Interrupts
  import opened Uart

  // ---- the line status and the interrupt identification ----

  /** Data ready is bit 0, break bit 4, transmitter empty bit 5, transmitter idle bit 6. */
  lemma LineStatusBits(l: LineStatus)
    ensures (l.Value() % 2 == 1 <==> l.data) && (l.Value() / 0x10 % 2 == 1 <==> l.brk)
    ensures (l.Value() / 0x20 % 2 == 1 <==> l.empty) && (l.Value() / 0x40 % 2 == 1 <==> l.idle)
    ensures l.Value() / 2 % 8 == 0 && l.Value() < 0x80
  {
  }

  /** With bit 0 of offset 1 enabled the driver is told of received data, with bit 1 of an idle transmitter. */
  function Pending(s: State): u8 {
    (if s.ier % 2 == 1 && s.lsr.data then 4 else 0) + (if s.ier / 2 % 2 == 1 && s.lsr.idle then 2 else 0)
  }

  /** Whenever interrupts are worked out, 4 for received data and 2 for the transmitter, 1 for neither, and one edge. */
  lemma CausesAreTold(s: State)
    ensures s.UpdateIrq().iir == if Pending(s) == 0 then 1 else Pending(s)
    ensures !s.UpdateIrq().line.level
    ensures s.UpdateIrq().line.signals == s.line.signals + if Pending(s) != 0 && !s.line.level then 1 else 0
  {
  }

  /** What the driver reads at offset 2 and 5 in any reachable state. */
  lemma StatusReads(accesses: seq<Access>)
    ensures var s := Run(accesses).state;
      && s.done <= |s.rx|
      && s.ReadValue(5) == 0x60 + (if s.done < |s.rx| then 1 else 0)
      && s.ReadValue(2) == 0xc0 + (if Pending(s) == 0 then 1 else Pending(s))
      && Pending(s) == (if s.ier % 2 == 1 && s.done < |s.rx| then 4 else 0) + (if s.ier / 2 % 2 == 1 then 2 else 0)
  {
    hide Run;
    var s := Run(accesses).state;
    assert Inv(s);
    assert s.iir < 0x40;
  }

  // ---- a byte from the terminal ----

  /** A byte typed into an empty port, loopback off: if the driver asked for that, it is told by one edge. */
  lemma TypedByteInterrupts(s: State, b: u8)
    requires Inv(s) && s.rx == [] && s.mcr / 0x10 % 2 == 0
    ensures var s' := s.AfterStdin([b]);
      && (s.ier % 2 == 1 ==> s'.line.signals == s.line.signals + 1 && s'.iir / 4 % 2 == 1)
      && (s.ier % 4 == 0 ==> s'.line.signals == s.line.signals && s'.iir == 1)
  {
    hide State.UpdateIrq, State.AfterStdin;
    StdinFills(s, [b]);
    assert [b][..1] == [b];
    CausesAreTold(s.(rx := [b], lsr := s.lsr.(data := true)));
  }

  /** ... and it is what the driver reads at offset 0 with the latch closed. */
  lemma TypedByteIsRead(s: State, b: u8)
    requires Inv(s) && s.rx == [] && s.mcr / 0x10 % 2 == 0
    ensures var s' := s.AfterStdin([b]);
      s'.rx == [b] && s'.done == 0 && s'.lsr.data && (s.lcr < 0x80 ==> s'.ReadValue(0) == b)
  {
    hide State.AfterStdin;
    StdinFills(s, [b]);
    assert [b][..1] == [b];
  }

  lemma StdinFills(s: State, input: seq<u8>)
    requires Inv(s) && s.rx == [] && s.mcr / 0x10 % 2 == 0
    ensures var n := if |input| < 64 then |input| else 64;
      s.AfterStdin(input) == s.(rx := input[..n], lsr := s.lsr.(data := n > 0)).UpdateIrq()
  {
    hide State.UpdateIrq;
    var n := if |input| < 64 then |input| else 64;
    ReceiveAllSettles(s, input[..n]);
    assert [] + input[..n] == input[..n];
  }

  /** An empty port takes the first 64 bytes that are there; one that holds bytes, or loops back, takes none. */
  lemma TerminalIsTaken(s: State, input: seq<u8>)
    requires Inv(s)
    ensures s.mcr / 0x10 % 2 == 0 && s.rx == [] ==>
      s.AfterStdin(input).rx == (if |input| < 64 then input else input[..64]) && s.AfterStdin(input).done == 0
    ensures s.mcr / 0x10 % 2 == 1 || s.rx != [] ==>
      s.AfterStdin(input).rx == s.rx && s.AfterStdin(input).done == s.done
    ensures s.mcr / 0x10 % 2 == 1 ==> s.AfterStdin(input) == s
  {
    if s.mcr / 0x10 % 2 == 0 && s.rx == [] {
      StdinFills(s, input);
      assert |input| < 64 ==> input[..|input|] == input;
    }
  }

  /** Reading offset 0 with the latch closed takes the oldest byte. */
  lemma OldestByteIsRead(s: State)
    requires Inv(s) && s.lcr < 0x80 && s.done < |s.rx|
    ensures s.ReadValue(0) == s.rx[s.done]
    ensures s.AfterRead(0).done <= |s.AfterRead(0).rx|
    ensures s.AfterRead(0).rx[s.AfterRead(0).done..] == s.rx[s.done + 1..]
  {
    ReadIsGood(s, 0);
    assert Delivered(s, Read(0)) == [s.rx[s.done]];
    assert s.rx[s.done..] == [s.rx[s.done]] + s.rx[s.done + 1..];
    assert s.rx[s.done..] + [] == s.rx[s.done..];
  }

  /** With the latch closed nothing unread reads as 0; so does a break, which is cleared and takes no byte. */
  lemma NothingToRead(s: State)
    requires s.done <= |s.rx| && s.lcr < 0x80
    ensures s.done == |s.rx| ==>
      s.ReadValue(0) == 0 && s.AfterRead(0).rx == s.rx && s.AfterRead(0).done == s.done
    ensures s.lsr.brk && s.done < |s.rx| ==>
      && s.ReadValue(0) == 0 && s.AfterRead(0).rx == s.rx && s.AfterRead(0).done == s.done
      && !s.AfterRead(0).lsr.brk && s.AfterRead(0).lsr.data == s.lsr.data
  {
  }

  // ---- a byte to the transmitter ----

  /** The transmitter in every state: with room the byte goes out behind what waits, at 64 it is lost and it shows. */
  lemma Transmitter(s: State, b: u8)
    ensures |s.tx| < 64 ==>
      s.Send(b) == s.(tx := [], out := s.out + (s.tx + [b]), lsr := s.lsr.(empty := true, idle := true))
    ensures |s.tx| >= 64 ==> s.Send(b) == s.(lsr := s.lsr.(empty := false, idle := false))
    ensures s.ier / 2 % 2 == 0 ==> s.UpdateIrq().out == s.out + s.tx && s.UpdateIrq().tx == []
    ensures s.ier / 2 % 2 == 1 ==> s.UpdateIrq().out == s.out && s.UpdateIrq().tx == s.tx
  {
  }

  /** Outside loopback a write to offset 0, and no other access, puts exactly its byte on the terminal. */
  lemma ByteIsSent(s: State, a: Access)
    requires Inv(s)
    ensures After(s, a).out
         == s.out + if a.Write? && a.offset == 0 && s.mcr / 0x10 % 2 == 0 then [a.value] else []
  {
    hide After, Accepted, Delivered, Inv;
    StepIsGood(s, a);
  }

  /** In loopback it is received instead, while there is room for it. */
  lemma LoopedByteIsReceived(s: State, b: u8)
    requires Inv(s) && s.mcr / 0x10 % 2 == 1
    ensures s.AfterWrite(0, b).rx == s.rx + if |s.rx| < 64 then [b] else []
  {
    hide State.UpdateIrq, Latched;
    LatchClosed(s, 0, b);
    LatchKeepsBuffers(s, 0, b);
    var s1 := Latched(s, 0, b);
    UpdateIrqSettles(s1.Receive(b));
  }

  lemma LatchKeepsBuffers(s: State, offset: nat, b: u8)
    ensures Latched(s, offset, b) == s.(divisor := Latched(s, offset, b).divisor)
  {
  }

  /** A driver that asked for it is told, by one edge, that the byte is out. */
  lemma SentByteInterrupts(s: State, b: u8)
    requires Inv(s) && s.mcr / 0x10 % 2 == 0 && s.ier / 2 % 2 == 1
    ensures s.AfterWrite(0, b).line.signals == s.line.signals + 1 && s.AfterWrite(0, b).iir / 2 % 2 == 1
  {
    hide State.UpdateIrq, Latched, State.Send;
    LatchClosed(s, 0, b);
    LatchKeepsBuffers(s, 0, b);
    SendSettles(Latched(s, 0, b), b);
    CausesAreTold(Latched(s, 0, b).Send(b));
  }

  // ---- read after write ----

  /** The byte written last to an offset, or the initial one. */
  function LastByte(accesses: seq<Access>, offset: nat, initial: u8): u8 {
    if accesses == [] then initial
    else
      var n := |accesses| - 1;
      var a := accesses[n];
      if a.Write? && a.offset == offset then a.value else LastByte(accesses[..n], offset, initial)
  }

  /** The byte written last to an offset while bit 7 of offset 3 was set. */
  ghost function LastLatched(accesses: seq<Access>, offset: nat): u8 {
    if accesses == [] then 0
    else
      var n := |accesses| - 1;
      var a := accesses[n];
      if a.Write? && a.offset == offset && LastByte(accesses[..n], 3, 0) >= 0x80 then a.value
      else LastLatched(accesses[..n], offset)
  }

  lemma {:induction false} ReceivingKeepsRegisters(s: State, bs: seq<u8>)
    ensures var s' := s.ReceiveAll(bs);
      && s'.divisor == s.divisor && s'.ier == s.ier && s'.fcr == s.fcr && s'.lcr == s.lcr && s'.mcr == s.mcr
      && s'.msr == s.msr && s'.scr == s.scr
  {
    if bs != [] {
      ReceivingKeepsRegisters(s, bs[..|bs| - 1]);
    }
  }

  /** Working out interrupts, and everything that moves bytes, leaves the registers alone. */
  ghost predicate SameRegisters(s: State, s': State) {
    && s'.divisor == s.divisor && s'.ier == s.ier && s'.fcr == s.fcr && s'.lcr == s.lcr && s'.mcr == s.mcr
    && s'.msr == s.msr && s'.scr == s.scr
  }

  lemma MovingKeepsRegisters(s: State, b: u8)
    ensures SameRegisters(s, s.UpdateIrq()) && SameRegisters(s, s.Receive(b)) && SameRegisters(s, s.Send(b))
  {
  }

  lemma OnlyWritesChangeRegisters(s: State, a: Access)
    requires s.done <= |s.rx| && !a.Write?
    ensures SameRegisters(s, After(s, a))
  {
    hide State.UpdateIrq, State.ReceiveAll;
    MovingKeepsRegisters(s, 0);
    if a.Stdin? {
      var s1 := s.ReceiveAll(a.input[..s.Taken(a.input)]);
      ReceivingKeepsRegisters(s, a.input[..s.Taken(a.input)]);
      MovingKeepsRegisters(s1, 0);
    } else {
      MovingKeepsRegisters(s.(lsr := s.lsr.(brk := false)), 0);
      MovingKeepsRegisters(s.(lsr := s.lsr.(data := false), rx := [], done := 0), 0);
      MovingKeepsRegisters(s.(done := s.done + 1), 0);
    }
  }

  /** The registers behind a write: each is written at its own offset. */
  lemma WriteStores(s: State, offset: nat, b: u8)
    ensures var s' := s.AfterWrite(offset, b);
      && s'.ier == (if offset == 1 then b % 0x10 else s.ier)
      && s'.fcr == (if offset == 2 then b else s.fcr)
      && s'.lcr == (if offset == 3 then b else s.lcr)
      && s'.mcr == (if offset == 4 then b else s.mcr)
      && s'.scr == (if offset == 7 then b else s.scr)
      && s'.msr == s.msr && s'.divisor == Latched(s, offset, b).divisor
  {
    hide State.UpdateIrq, State.Receive, State.Send, Latched;
    var s1 := Latched(s, offset, b);
    LatchKeepsBuffers(s, offset, b);
    MovingKeepsRegisters(s1, b);
    var s2 := if offset != 0 then Stored(s1, offset, b) else if s1.Loop() then s1.Receive(b) else s1.Send(b);
    MovingKeepsRegisters(s2, b);
  }

  /** One access: only writes change these registers, each the one at its offset. */
  lemma RegisterStep(s: State, a: Access)
    requires s.done <= |s.rx|
    ensures var s', w := After(s, a), a.Write?;
      && s'.ier == (if w && a.offset == 1 then a.value % 0x10 else s.ier)
      && s'.fcr == (if w && a.offset == 2 then a.value else s.fcr)
      && s'.lcr == (if w && a.offset == 3 then a.value else s.lcr)
      && s'.mcr == (if w && a.offset == 4 then a.value else s.mcr)
      && s'.scr == (if w && a.offset == 7 then a.value else s.scr)
      && s'.msr == s.msr
  {
    hide State.AfterRead, State.AfterWrite, State.AfterStdin;
    if a.Write? {
      WriteStores(s, a.offset, a.value);
    } else {
      OnlyWritesChangeRegisters(s, a);
    }
  }

  lemma LatchBytes(s: State, offset: nat, b: u8)
    ensures var s', open := Latched(s, offset, b), s.lcr >= 0x80;
      && s'.divisor % 0x100 == (if open && offset == 0 then b else s.divisor % 0x100)
      && s'.divisor / 0x100 == (if open && offset == 1 then b else s.divisor / 0x100)
  {
  }

  lemma DivisorStep(s: State, a: Access)
    requires s.done <= |s.rx|
    ensures var s', w := After(s, a), a.Write? && s.lcr >= 0x80;
      && s'.divisor % 0x100 == (if w && a.offset == 0 then a.value else s.divisor % 0x100)
      && s'.divisor / 0x100 == (if w && a.offset == 1 then a.value else s.divisor / 0x100)
  {
    hide State.AfterRead, State.AfterWrite, State.AfterStdin, Latched;
    if a.Write? {
      WriteStores(s, a.offset, a.value);
      LatchBytes(s, a.offset, a.value);
    } else {
      OnlyWritesChangeRegisters(s, a);
    }
  }

  lemma {:induction false} DivisorAfterRun(accesses: seq<Access>)
    ensures var s := Run(accesses).state;
      s.divisor % 0x100 == LastLatched(accesses, 0) && s.divisor / 0x100 == LastLatched(accesses, 1)
  {
    if accesses != [] {
      var n := |accesses| - 1;
      var s := Run(accesses[..n]).state;
      DivisorAfterRun(accesses[..n]);
      RegistersAfterRun(accesses[..n]);
      DivisorStep(s, accesses[n]);
      hide After, Accepted, Delivered, Inv, LastByte;
    }
  }

  /** After any run each register holds what was written last to its offset. */
  lemma {:induction false} RegistersAfterRun(accesses: seq<Access>)
    ensures var s := Run(accesses).state;
      && s.ier == LastByte(accesses, 1, 0) % 0x10 && s.fcr == LastByte(accesses, 2, 0)
      && s.lcr == LastByte(accesses, 3, 0) && s.mcr == LastByte(accesses, 4, 0x08)
      && s.scr == LastByte(accesses, 7, 0) && s.msr == 0xb0
  {
    if accesses != [] {
      var n := |accesses| - 1;
      var s := Run(accesses[..n]).state;
      RegistersAfterRun(accesses[..n]);
      RegisterStep(s, accesses[n]);
      hide After, Accepted, Delivered, Inv;
    }
  }

  /**
   Read after write over every run. Offsets 3, 4, 6 and 7 read back always; offset 1 its low four bits with the latch
   closed; with it open offsets 0 and 1 read back the divisor's bytes.
   */
  lemma ReadsBackWritten(accesses: seq<Access>)
    ensures var s := Run(accesses).state;
      && s.done <= |s.rx|
      && s.ReadValue(3) == LastByte(accesses, 3, 0) && s.ReadValue(4) == LastByte(accesses, 4, 0x08)
      && s.ReadValue(6) == 0xb0 && s.ReadValue(7) == LastByte(accesses, 7, 0)
      && (LastByte(accesses, 3, 0) < 0x80 ==> s.ReadValue(1) == LastByte(accesses, 1, 0) % 0x10)
      && (LastByte(accesses, 3, 0) >= 0x80 ==>
            s.ReadValue(0) == LastLatched(accesses, 0) && s.ReadValue(1) == LastLatched(accesses, 1))
  {
    hide Run, LastByte, LastLatched;
    RegistersAfterRun(accesses);
    DivisorAfterRun(accesses);
    assert Inv(Run(accesses).state);
  }
}
