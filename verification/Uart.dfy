/**
 The serial port of src/kvm/device/uart.h. Registers are bytes; of the line status register only the four bits the
 source ever sets are kept, as flags. The interrupt identification that update_irq builds is taken to start at 0;
 terminal input is what is readable when write_stdio runs.
 */
module Uart {
  import opened Words
  import opened Interrupts

  const DATA: nat := 0
  const IER: nat := 1
  const IIR: nat := 2
  const FCR: nat := 2
  const LCR: nat := 3
  const MCR: nat := 4
  const LSR: nat := 5
  const MSR: nat := 6
  const SCR: nat := 7

  const IIR_FIFO_BITS: u8 := 0xc0
  const IIR_NONE_BIT: u8 := 0x01
  const IIR_THR_BIT: u8 := 0x02
  const IIR_RECV_BIT: u8 := 0x04

  const FIFO_LEN: nat := 64

  predicate Bit(v: u8, weight: nat)
    requires weight > 0
  {
    v / weight % 2 == 1
  }

  /** `iir | 0xc0`: the identification proper has only bits below those. */
  function WithFifoBits(iir: u8): u8 { iir % 0x40 + IIR_FIFO_BITS }

  /** The line status register: data ready, break, transmitter empty, transmitter idle. */
  datatype LineStatus = LineStatus(data: bool, brk: bool, empty: bool, idle: bool) {
    function Value(): u8 {
      (if data then 0x01 else 0) + (if brk then 0x10 else 0) + (if empty then 0x20 else 0) + (if idle then 0x40 else 0)
    }
  }

  /**
   The state of the port: `rx` are the bytes in the receive buffer of which `done` have been read, `tx` those waiting
   to be sent, `out` all that was handed to the terminal.
   */
  datatype State = State(
    divisor: u16, ier: u8, iir: u8, fcr: u8, lcr: u8, mcr: u8, lsr: LineStatus, msr: u8, scr: u8,
    rx: seq<u8>, done: nat, tx: seq<u8>, out: seq<u8>, line: Line)
  {
    predicate Dlab() { Bit(lcr, 0x80) }

    predicate Loop() { Bit(mcr, 0x10) }

    predicate WantsReceive() { Bit(ier, 0x1) }

    predicate WantsTransmit() { Bit(ier, 0x2) }

    /** flush_tx with a terminal attached. */
    function Flush(): State {
      this.(lsr := lsr.(empty := true, idle := true), out := out + tx, tx := [])
    }

    /** Pending causes. */
    function Causes(): u8 {
      (if WantsReceive() && lsr.data then IIR_RECV_BIT else 0)
      + (if WantsTransmit() && lsr.idle then IIR_THR_BIT else 0)
    }

    /** update_irq: the line is pulsed while a cause is pending. */
    function UpdateIrq(): State {
      var s :=
        if Causes() == 0 then this.(iir := IIR_NONE_BIT, line := line.Set(false))
        else this.(iir := Causes(), line := line.Set(true).Set(false));
      if WantsTransmit() then s else s.Flush()
    }

    /** Storing a byte into the receive buffer, if there is room. */
    function Receive(b: u8): State {
      if |rx| < FIFO_LEN then this.(rx := rx + [b], lsr := lsr.(data := true)) else this
    }

    function Send(b: u8): State {
      if |tx| < FIFO_LEN then
        var s := this.(tx := tx + [b], lsr := lsr.(idle := false));
        (if |s.tx| == FIFO_LEN / 2 then s.(lsr := s.lsr.(empty := false)) else s).Flush()
      else this.(lsr := lsr.(empty := false, idle := false))
    }

    /** The byte a read returns. */
    function ReadValue(offset: nat): u8
      requires done <= |rx|
    {
      if Dlab() && offset == 0 then divisor % 0x100
      else if Dlab() && offset == 1 then divisor / 0x100
      else if offset == DATA then
        if |rx| == done || lsr.brk then 0 else rx[done]
      else if offset == IER then ier
      else if offset == IIR then WithFifoBits(iir)
      else if offset == LCR then lcr
      else if offset == MCR then mcr
      else if offset == LSR then lsr.Value()
      else if offset == MSR then msr
      else if offset == SCR then scr
      else 0
    }

    function AfterRead(offset: nat): State
      requires done <= |rx|
    {
      if Dlab() && offset <= 1 then this
      else if offset == DATA && |rx| != done then
        if lsr.brk then this.(lsr := lsr.(brk := false)).UpdateIrq()
        else if |rx| == done + 1 then this.(lsr := lsr.(data := false), rx := [], done := 0).UpdateIrq()
        else this.(done := done + 1).UpdateIrq()
      else UpdateIrq()
    }

    /** A write with the divisor latch open sets the divisor and then falls into the ordinary registers as well. */
    function AfterWrite(offset: nat, b: u8): State {
      var s := Latched(this, offset, b);
      (if offset == DATA then if Loop() then s.Receive(b) else s.Send(b) else Stored(s, offset, b)).UpdateIrq()
    }

    /** write_stdio with `input` readable on the terminal. */
    function AfterStdin(input: seq<u8>): State {
      if Loop() then this
      else if lsr.data || rx != [] then UpdateIrq()
      else ReceiveAll(input[..Taken(input)]).UpdateIrq()
    }

    function Taken(input: seq<u8>): (n: nat)
      ensures n <= |input|
    {
      if |rx| >= FIFO_LEN then 0 else if |input| <= FIFO_LEN - |rx| then |input| else FIFO_LEN - |rx|
    }

    function ReceiveAll(bs: seq<u8>): State {
      if bs == [] then this else ReceiveAll(bs[..|bs| - 1]).Receive(bs[|bs| - 1])
    }
  }

  /** The first half of a write: the divisor latch. */
  function Latched(s: State, offset: nat, b: u8): State {
    if s.Dlab() && offset == 0 then s.(divisor := s.divisor / 0x100 * 0x100 + b)
    else if s.Dlab() && offset == 1 then s.(divisor := s.divisor % 0x100 + 0x100 * b)
    else s
  }

  /** The second half, except for the data register. */
  function Stored(s: State, offset: nat, b: u8): State {
    if offset == IER then s.(ier := b % 0x10)
    else if offset == FCR then s.(fcr := b)
    else if offset == LCR then s.(lcr := b)
    else if offset == MCR then s.(mcr := b)
    else if offset == SCR then s.(scr := b)
    else s
  }

  const START: State := State(0, 0, IIR_NONE_BIT, 0, 0, 0x08, LineStatus(false, false, true, true), 0xb0, 0, [], 0, [],
                              [], Line(false, 0))

  // ---- runs and their histories ----

  datatype Access =
    | Read(offset: nat)
    | Write(offset: nat, value: u8)
    | Stdin(input: seq<u8>)

  function After(s: State, a: Access): State
    requires s.done <= |s.rx|
  {
    match a
    case Read(offset) => s.AfterRead(offset)
    case Write(offset, b) => s.AfterWrite(offset, b)
    case Stdin(input) => s.AfterStdin(input)
  }

  /** Bytes the port takes in: loopback writes and terminal input, as far as the buffer has room. */
  function Accepted(s: State, a: Access): seq<u8> {
    match a
    case Read(_) => []
    case Write(offset, b) => if offset == DATA && s.Loop() && |s.rx| < FIFO_LEN then [b] else []
    case Stdin(input) =>
      if s.Loop() || s.lsr.data || s.rx != [] then [] else input[..s.Taken(input)]
  }

  /** The byte a read takes out of the receive buffer. */
  function Delivered(s: State, a: Access): seq<u8>
    requires s.done <= |s.rx|
  {
    if a == Read(DATA) && !s.Dlab() && s.done < |s.rx| && !s.lsr.brk then [s.ReadValue(DATA)] else []
  }

  /** Writes to offset 0 outside loopback. */
  function Offset0(s: State, a: Access): seq<u8> {
    if a.Write? && a.offset == DATA && !s.Loop() then [a.value] else []
  }

  /** Writes to the transmit register proper: offset 0 with the divisor latch closed, outside loopback. */
  function Transmitted(s: State, a: Access): seq<u8> {
    if a.Write? && a.offset == DATA && !s.Loop() && !s.Dlab() then [a.value] else []
  }

  /** The line status agrees with the buffers, nothing waits to be sent, and iir agrees with ier and lsr. */
  ghost predicate Inv(s: State) {
    && s.done <= |s.rx| <= FIFO_LEN
    && s.lsr == LineStatus(s.done < |s.rx|, false, true, true)
    && (s.done == |s.rx| ==> s.rx == [])
    && s.tx == []
    && s.iir == (if s.Causes() == 0 then IIR_NONE_BIT else s.Causes())
    && !s.line.level
  }

  /** What update_irq keeps of a state whose buffers and line status agree. */
  lemma UpdateIrqSettles(s: State)
    requires s.done <= |s.rx| <= FIFO_LEN && s.lsr == LineStatus(s.done < |s.rx|, false, true, true)
    requires (s.done == |s.rx| ==> s.rx == []) && s.tx == [] && !s.line.level
    ensures var s' := s.UpdateIrq();
      && Inv(s') && s'.rx == s.rx && s'.done == s.done && s'.out == s.out
      && s'.line.signals == s.line.signals + if s'.iir == IIR_NONE_BIT then 0 else 1
  {
  }

  lemma SendSettles(s: State, b: u8)
    requires s.tx == [] && s.lsr.empty && s.lsr.idle
    ensures s.Send(b) == s.(out := s.out + [b])
  {
  }

  lemma NothingReceived(s: State, input: seq<u8>)
    ensures s.ReceiveAll(input[..0]) == s
  {
  }

  lemma ReceiveNext(s: State, input: seq<u8>, n: nat)
    requires n < |input|
    ensures s.ReceiveAll(input[..n + 1]) == s.ReceiveAll(input[..n]).Receive(input[n])
  {
    assert input[..n + 1][..n] == input[..n];
  }

  lemma {:induction false} ReceiveAllSettles(s: State, bs: seq<u8>)
    requires |s.rx| + |bs| <= FIFO_LEN
    ensures s.ReceiveAll(bs) == s.(rx := s.rx + bs, lsr := s.lsr.(data := s.lsr.data || bs != []))
  {
    if bs != [] {
      ReceiveAllSettles(s, bs[..|bs| - 1]);
      assert s.rx + bs == s.rx + bs[..|bs| - 1] + [bs[|bs| - 1]];
    } else {
      assert s.rx + bs == s.rx;
    }
  }

  /** One access: the invariant, and exactly which bytes move. */
  ghost predicate GoodStep(s: State, a: Access)
    requires Inv(s)
  {
    var s' := After(s, a);
    && Inv(s')
    && s.rx[s.done..] + Accepted(s, a) == Delivered(s, a) + s'.rx[s'.done..]
    && s'.out == s.out + Offset0(s, a)
  }

  lemma ReadIsGood(s: State, offset: nat)
    requires Inv(s)
    ensures GoodStep(s, Read(offset))
  {
    if !(s.Dlab() && offset <= 1) {
      if offset == DATA && |s.rx| != s.done {
        if |s.rx| == s.done + 1 {
          UpdateIrqSettles(s.(lsr := s.lsr.(data := false), rx := [], done := 0));
        } else {
          UpdateIrqSettles(s.(done := s.done + 1));
        }
      } else {
        UpdateIrqSettles(s);
      }
    }
  }

  lemma LatchClosed(s: State, offset: nat, b: u8)
    ensures !s.Dlab() ==> Latched(s, offset, b) == s
    ensures Latched(s, offset, b).Loop() == s.Loop()
  {
  }

  lemma RegistersOnly(s: State, offset: nat, b: u8)
    ensures var s' := Stored(Latched(s, offset, b), offset, b);
      s'.lsr == s.lsr && s'.rx == s.rx && s'.done == s.done && s'.tx == s.tx && s'.out == s.out && s'.line == s.line
  {
  }

  lemma WriteDataIsGood(s: State, b: u8)
    requires Inv(s)
    ensures GoodStep(s, Write(DATA, b))
  {
    hide State.UpdateIrq, State.Send, State.Flush;
    var s1 := Latched(s, DATA, b);
    if !s.Loop() {
      SendSettles(s1, b);
      UpdateIrqSettles(s1.(out := s1.out + [b]));
    } else {
      UpdateIrqSettles(s1.Receive(b));
    }
  }

  lemma WriteIsGood(s: State, offset: nat, b: u8)
    requires Inv(s)
    ensures GoodStep(s, Write(offset, b))
  {
    if offset == DATA {
      WriteDataIsGood(s, b);
    } else {
      RegistersOnly(s, offset, b);
      hide State.UpdateIrq, State.Send, State.Receive, Latched, Stored, Bit;
      UpdateIrqSettles(Stored(Latched(s, offset, b), offset, b));
    }
  }

  lemma StdinIsGood(s: State, input: seq<u8>)
    requires Inv(s)
    ensures GoodStep(s, Stdin(input))
  {
    if !s.Loop() {
      if s.rx != [] {
        UpdateIrqSettles(s);
      } else {
        var bs := input[..s.Taken(input)];
        ReceiveAllSettles(s, bs);
        UpdateIrqSettles(s.ReceiveAll(bs));
      }
    }
  }

  lemma StepIsGood(s: State, a: Access)
    requires Inv(s)
    ensures GoodStep(s, a)
  {
    match a
    case Read(offset) => ReadIsGood(s, offset);
    case Write(offset, b) => WriteIsGood(s, offset, b);
    case Stdin(input) => StdinIsGood(s, input);
  }

  /** The state after a run from power-on, together with what was accepted, delivered and transmitted on the way. */
  datatype Trace = Trace(state: State, accepted: seq<u8>, delivered: seq<u8>, offset0: seq<u8>, transmitted: seq<u8>)

  ghost function Extend(t: Trace, a: Access): (t': Trace)
    requires Inv(t.state)
    ensures Inv(t'.state)
  {
    StepIsGood(t.state, a);
    Trace(After(t.state, a), t.accepted + Accepted(t.state, a), t.delivered + Delivered(t.state, a),
          t.offset0 + Offset0(t.state, a), t.transmitted + Transmitted(t.state, a))
  }

  ghost function Run(accesses: seq<Access>): (t: Trace)
    ensures Inv(t.state)
  {
    if accesses == [] then Trace(START, [], [], [], [])
    else Extend(Run(accesses[..|accesses| - 1]), accesses[|accesses| - 1])
  }

  /** What was accepted is what was delivered, followed by what is unread; what was put out is what came to offset 0. */
  ghost predicate Faithful(t: Trace)
    requires Inv(t.state)
  {
    t.accepted == t.delivered + t.state.rx[t.state.done..] && t.state.out == t.offset0
  }

  lemma ExtendFaithful(t: Trace, a: Access)
    requires Inv(t.state) && Faithful(t)
    ensures Faithful(Extend(t, a))
  {
    hide After, Accepted, Delivered, Offset0, Transmitted;
    StepIsGood(t.state, a);
    var unread := t.state.rx[t.state.done..];
    assert t.delivered + (unread + Accepted(t.state, a)) == t.accepted + Accepted(t.state, a);
  }

  /**
   Over every run: the bytes read are the bytes accepted, in order, and those still unread are exactly the rest; the
   terminal has received exactly the offset-0 writes made outside loopback.
   */
  lemma {:induction false} StreamsArePreserved(accesses: seq<Access>)
    ensures var t := Run(accesses);
      t.accepted == t.delivered + t.state.rx[t.state.done..] && t.state.out == t.offset0
  {
    if accesses != [] {
      hide Extend, Inv;
      StreamsArePreserved(accesses[..|accesses| - 1]);
      ExtendFaithful(Run(accesses[..|accesses| - 1]), accesses[|accesses| - 1]);
    }
  }

  /** Some write of the run set the divisor's low byte outside loopback. */
  ghost predicate LeaksDivisor(accesses: seq<Access>) {
    if accesses == [] then false
    else
      var n := |accesses| - 1;
      var s, a := Run(accesses[..n]).state, accesses[n];
      LeaksDivisor(accesses[..n]) || (a.Write? && a.offset == DATA && s.Dlab() && !s.Loop())
  }

  lemma {:induction false} LeakCount(accesses: seq<Access>)
    ensures |Run(accesses).transmitted| <= |Run(accesses).offset0|
    ensures Run(accesses).transmitted == Run(accesses).offset0 <==> !LeaksDivisor(accesses)
    ensures LeaksDivisor(accesses) ==> |Run(accesses).transmitted| < |Run(accesses).offset0|
  {
    if accesses != [] {
      hide After, Accepted, Delivered, Inv;
      LeakCount(accesses[..|accesses| - 1]);
    }
  }

  /**
   The terminal shows exactly what was written to the transmit register if and only if the driver never sets the low
   divisor byte outside loopback: that byte is transmitted as well.
   */
  lemma OutputIsTransmittedIff(accesses: seq<Access>)
    ensures Run(accesses).state.out == Run(accesses).transmitted <==> !LeaksDivisor(accesses)
  {
    StreamsArePreserved(accesses);
    LeakCount(accesses);
  }

  /** Opening the divisor latch and setting its low byte puts that byte on the terminal. */
  lemma DivisorIsTransmitted(b: u8)
    ensures var t := Run([Write(LCR, 0x80), Write(DATA, b)]); t.state.out == [b] && t.transmitted == []
  {
    var latch, divisor := Write(LCR, 0x80), Write(DATA, b);
    assert [latch, divisor][..1] == [latch] && [latch][..0] == [];
    var t := Run([latch]);
    LatchOpened(t);
    StreamsArePreserved([latch, divisor]);
    hide After, Accepted, Delivered, Inv;
    assert Run([latch, divisor]) == Extend(t, divisor);
  }

  lemma LatchOpened(t: Trace)
    requires t == Run([Write(LCR, 0x80)])
    ensures t.state.Dlab() && !t.state.Loop() && t.offset0 == t.transmitted == []
  {
    assert [Write(LCR, 0x80)][..0] == [];
    assert t == Extend(Run([]), Write(LCR, 0x80));
  }

  // ---- the interrupt enable register and the divisor latch ----

  lemma {:induction false} ReceivingKeepsIer(s: State, bs: seq<u8>)
    ensures s.ReceiveAll(bs).ier == s.ier && s.ReceiveAll(bs).lcr == s.lcr
  {
    if bs != [] {
      ReceivingKeepsIer(s, bs[..|bs| - 1]);
    }
  }

  /** Offset 1 is the enable register for every write, the latch notwithstanding; nothing else changes it. */
  lemma IerStep(s: State, a: Access)
    requires s.done <= |s.rx|
    ensures After(s, a).ier == if a.Write? && a.offset == IER then a.value % 0x10 else s.ier
  {
    if a.Stdin? {
      ReceivingKeepsIer(s, a.input[..s.Taken(a.input)]);
    }
  }

  /** What the driver asked for: the low four bits it last wrote to offset 1 with the divisor latch closed. */
  ghost function Asked(accesses: seq<Access>): u8 {
    if accesses == [] then 0
    else
      var n := |accesses| - 1;
      var a := accesses[n];
      if a.Write? && a.offset == IER && !Run(accesses[..n]).state.Dlab() then a.value % 0x10 else Asked(accesses[..n])
  }

  /** The low four bits of the last write to offset 1, if that set the high byte of the divisor. */
  ghost function Clobbered(accesses: seq<Access>): Option<u8> {
    if accesses == [] then None
    else
      var n := |accesses| - 1;
      var a := accesses[n];
      if a.Write? && a.offset == IER then
        if Run(accesses[..n]).state.Dlab() then Some(a.value % 0x10) else None
      else Clobbered(accesses[..n])
  }

  lemma {:induction false} IerAfterRun(accesses: seq<Access>)
    ensures Run(accesses).state.ier
         == match Clobbered(accesses) case None => Asked(accesses) case Some(v) => v
  {
    if accesses != [] {
      var n := |accesses| - 1;
      IerAfterRun(accesses[..n]);
      IerStep(Run(accesses[..n]).state, accesses[n]);
      hide After, Accepted, Delivered, Inv, State.Dlab;
    }
  }

  /**
   Over every run the interrupts enabled are the ones the driver asked for if and only if the last write to offset 1 did
   not set the divisor's high byte to something with other low bits: setting the divisor overwrites the register.
   */
  lemma EnabledAsAskedIff(accesses: seq<Access>)
    ensures Run(accesses).state.ier == Asked(accesses)
            <==> Clobbered(accesses).None? || Clobbered(accesses).value == Asked(accesses)
  {
    IerAfterRun(accesses);
  }

  /** Enabling receive interrupts and then setting the divisor to a value below 256 disables them. */
  lemma DivisorDisablesInterrupts()
    ensures var ws := [Write(IER, 1), Write(LCR, 0x80), Write(IER, 0)];
      Asked(ws) == 1 && Run(ws).state.ier == 0
  {
    var enable, latch, high := Write(IER, 1), Write(LCR, 0x80), Write(IER, 0);
    assert [enable, latch, high][..2] == [enable, latch] && [enable, latch][..1] == [enable] && [enable][..0] == [];
    assert !Run([]).state.Dlab();
    assert Asked([enable]) == 1 && Asked([enable, latch]) == 1;
    LatchSet(Run([enable]).state);
    IerAfterRun([enable, latch, high]);
    hide After, Accepted, Delivered, Inv, State.Dlab;
    assert Run([enable, latch]).state.Dlab();
  }

  lemma LatchSet(s: State)
    requires s.done <= |s.rx|
    ensures After(s, Write(LCR, 0x80)).Dlab()
  {
  }

  // ---- the device object ----

  class Device {
    const irq: Interrupt
    var baudDivisor: u16
    var ier: u8
    var iir: u8
    var fcr: u8
    var lcr: u8
    var mcr: u8
    var lsr: LineStatus
    var msr: u8
    var scr: u8
    const rxBuf: array<u8>
    var rxCnt: nat
    var rxDone: nat
    const txBuf: array<u8>
    var txCnt: nat
    var out: seq<u8>

    constructor (irq: Interrupt)
      requires irq.Now() == Line(false, 0)
      ensures this.irq == irq && Valid() && fresh(rxBuf) && fresh(txBuf) && Now() == START
    {
      this.irq := irq;
      baudDivisor, ier, iir, fcr, lcr, mcr := 0, 0, IIR_NONE_BIT, 0, 0, 0x08;
      lsr, msr, scr := LineStatus(false, false, true, true), 0xb0, 0;
      rxBuf, rxCnt, rxDone := new u8[FIFO_LEN], 0, 0;
      txBuf, txCnt, out := new u8[FIFO_LEN], 0, [];
    }

    ghost predicate Valid()
      reads this
    {
      rxBuf != txBuf && rxBuf.Length == txBuf.Length == FIFO_LEN && rxDone <= rxCnt <= FIFO_LEN && txCnt <= FIFO_LEN
    }

    ghost function Now(): State
      reads this, rxBuf, txBuf, irq
      requires Valid()
    {
      State(baudDivisor, ier, iir, fcr, lcr, mcr, lsr, msr, scr, rxBuf[..rxCnt], rxDone, txBuf[..txCnt], out, irq.Now())
    }

    method FlushTx()
      requires Valid()
      modifies this`lsr, this`txCnt, this`out
      ensures Valid() && Now() == old(Now()).Flush()
    {
      lsr := lsr.(empty := true, idle := true);
      if txCnt != 0 {
        out := out + txBuf[..txCnt];
        txCnt := 0;
      }
    }

    method UpdateIrq()
      requires Valid()
      modifies this`iir, this`lsr, this`txCnt, this`out, irq
      ensures Valid() && Now() == old(Now()).UpdateIrq()
    {
      var tmpIir: u8 := 0;
      if Bit(ier, 0x1) && lsr.data {
        tmpIir := tmpIir + IIR_RECV_BIT;
      }
      if Bit(ier, 0x2) && lsr.idle {
        tmpIir := tmpIir + IIR_THR_BIT;
      }
      if tmpIir == 0 {
        iir := IIR_NONE_BIT;
        irq.SetLevel(false);
      } else {
        iir := tmpIir;
        irq.SetLevel(true);
        irq.SetLevel(false);
      }
      if !Bit(ier, 0x2) {
        FlushTx();
      }
    }

    method Read(offset: nat) returns (value: u8)
      requires Valid()
      modifies this, irq
      ensures Valid() && Now() == old(Now()).AfterRead(offset) && value == old(Now()).ReadValue(offset)
    {
      hide State.UpdateIrq, State.Flush, State.Causes, Bit;
      value := 0;
      if Bit(lcr, 0x80) {
        if offset == 0 {
          return baudDivisor % 0x100;
        } else if offset == 1 {
          return baudDivisor / 0x100;
        }
      }
      if offset == DATA {
        if rxCnt != rxDone {
          if lsr.brk {
            lsr := lsr.(brk := false);
          } else {
            value := rxBuf[rxDone];
            rxDone := rxDone + 1;
            if rxCnt == rxDone {
              lsr := lsr.(data := false);
              rxCnt, rxDone := 0, 0;
            }
          }
        }
      } else {
        value := if offset == IER then ier else if offset == IIR then WithFifoBits(iir)
                 else if offset == LCR then lcr else if offset == MCR then mcr else if offset == LSR then lsr.Value()
                 else if offset == MSR then msr else if offset == SCR then scr else 0;
      }
      UpdateIrq();
    }

    method Write(offset: nat, b: u8)
      requires Valid()
      modifies this, rxBuf, txBuf, irq
      ensures Valid() && Now() == old(Now()).AfterWrite(offset, b)
    {
      hide State.UpdateIrq, State.Send, State.Receive, State.Flush, Latched, Stored, Bit;
      if Bit(lcr, 0x80) {
        WriteLatch(offset, b);
      }
      LatchClosed(old(Now()), offset, b);
      if offset == DATA {
        WriteData(b);
      } else {
        WriteRegister(offset, b);
      }
      UpdateIrq();
    }

    method WriteLatch(offset: nat, b: u8)
      requires Valid() && Now().Dlab()
      modifies this`baudDivisor
      ensures Valid() && Now() == Latched(old(Now()), offset, b)
    {
      if offset == 0 {
        baudDivisor := baudDivisor / 0x100 * 0x100 + b;
      } else if offset == 1 {
        baudDivisor := baudDivisor % 0x100 + 0x100 * b;
      }
    }

    method WriteRegister(offset: nat, b: u8)
      requires Valid()
      modifies this`ier, this`fcr, this`lcr, this`mcr, this`scr
      ensures Valid() && Now() == Stored(old(Now()), offset, b)
    {
      if offset == IER {
        ier := b % 0x10;
      } else if offset == FCR {
        fcr := b;
      } else if offset == LCR {
        lcr := b;
      } else if offset == MCR {
        mcr := b;
      } else if offset == SCR {
        scr := b;
      }
    }

    method WriteData(b: u8)
      requires Valid()
      modifies this`rxCnt, this`txCnt, this`lsr, this`out, rxBuf, txBuf
      ensures Valid() && Now() == if old(Now()).Loop() then old(Now()).Receive(b) else old(Now()).Send(b)
    {
      hide State.Flush, Bit;
      ghost var s := Now();
      if Bit(mcr, 0x10) {
        if rxCnt < FIFO_LEN {
          rxBuf[rxCnt] := b;
          rxCnt := rxCnt + 1;
          assert rxBuf[..rxCnt] == s.rx + [b];
          lsr := lsr.(data := true);
        }
        return;
      }
      if txCnt < FIFO_LEN {
        txBuf[txCnt] := b;
        txCnt := txCnt + 1;
        assert txBuf[..txCnt] == s.tx + [b];
        lsr := lsr.(idle := false);
        if txCnt == FIFO_LEN / 2 {
          lsr := lsr.(empty := false);
        }
        FlushTx();
      } else {
        lsr := lsr.(empty := false, idle := false);
      }
    }

    method WriteStdio(input: seq<u8>) returns (polled: nat)
      requires Valid()
      modifies this, rxBuf, irq
      ensures Valid() && Now() == old(Now()).AfterStdin(input)
      ensures polled == if old(Now()).Loop() || old(Now()).lsr.data || old(Now()).rx != [] then 0 else 1
    {
      hide State.UpdateIrq, State.Flush, State.Causes, State.ReceiveAll, Bit;
      if Bit(mcr, 0x10) {
        return 0;
      }
      if lsr.data || rxCnt != 0 {
        UpdateIrq();
        return 0;
      }
      ghost var s := Now();
      var used := 0;
      NothingReceived(s, input);
      while used < |input| && rxCnt < FIFO_LEN
        invariant Valid() && used <= s.Taken(input) && rxCnt == used
        invariant Now() == s.ReceiveAll(input[..used])
        decreases |input| - used
      {
        ReceiveNext(s, input, used);
        ghost var before := rxBuf[..rxCnt];
        rxBuf[rxCnt] := input[used];
        rxCnt := rxCnt + 1;
        assert rxBuf[..rxCnt] == before + [input[used]];
        lsr := lsr.(data := true);
        used := used + 1;
      }
      UpdateIrq();
      return 1;
    }
  }
}
