/** The real-time clock driver, running on the I2C driver with the clock chip at the far end of
  * the bus. The foreground spins on the driver's mode while interrupts are served; a write that
  * is not waited for is still on the bus when the call returns.
  */
module Rtc {
  import opened Words
  import opened TwiDriver
  import opened TwiBus
  import opened TwiMaster
  import opened RtcChip

  const MAX_BUFFER_LENGTH := 8

  /** The chip while call `c`, begun when it was `before`, is under way. */
  ghost predicate ChipInStep(d: Drv, hw: Hw, c: Call, before: Chip, chip: Chip, got: seq<uint8>)
    requires before.Valid()
  {
    match hw
    case Free => chip == AfterCall(before, c) && (c.Read? ==> got == Reading(before, c.length))
    case Starting => chip == before && got == []
    case SendingAddress(_) => chip == before && got == []
    case SendingData(_) =>
      c.Write? && 0 < d.masterIndex <= |c.data| && chip == Fed(before, c.data[..d.masterIndex - 1]) && got == []
    case Receiving(_) => c.Read? && chip == Drained(before, d.masterIndex) && got == Reading(before, d.masterIndex)
  }

  predicate ForChip(c: Call) {
    c.Proper() && c.FitsBuffer() && c.addr == RTC_ADDRESS
  }

  ghost predicate KeepsChip(d: Drv, hw: Hw, c: Call, p: Phase, before: Chip, chip: Chip, got: seq<uint8>)
    requires c.Proper() && before.Valid() && chip.Valid() && !hw.Free?
    requires Possible(hw, Answer(chip, hw)) && InBounds(WithData(d, Answer(chip, hw)), StatusOf(hw, Answer(chip, hw)))
  {
    var o := Answer(chip, hw);
    var st := StatusOf(hw, o);
    var d' := Isr(WithData(d, o), st, []);
    var hw' := NextHw(st, d'.control, d'.twdr);
    && ChipInStep(d', hw', c, before, Step(chip, hw), if o.Arrived? then got + [o.byte] else got)
    && (hw'.Free? ==> PhaseAfter(c, p, hw, o, d') == Over(Complete))
  }

  lemma ChipWhileAddressing(d: Drv, b: uint8, c: Call, p: Phase, before: Chip, chip: Chip, got: seq<uint8>)
    requires d.WellFormed() && ForChip(c) && before.Valid() && chip.Valid()
    requires InProgress(d, SendingAddress(b), c, p, got) && ChipInStep(d, SendingAddress(b), c, before, chip, got)
    ensures KeepsChip(d, SendingAddress(b), c, p, before, chip, got)
  {
    AddressReply(d, c, b);
    assert c.Write? ==> c.data[..0] == [] && (c.data == [] ==> Fed(before, c.data) == before.(expectPointer := true));
  }

  lemma ChipWhileSending(d: Drv, b: uint8, c: Call, p: Phase, before: Chip, chip: Chip, got: seq<uint8>)
    requires d.WellFormed() && ForChip(c) && before.Valid() && chip.Valid()
    requires InProgress(d, SendingData(b), c, p, got) && ChipInStep(d, SendingData(b), c, before, chip, got)
    ensures KeepsChip(d, SendingData(b), c, p, before, chip, got)
  {
    FedAt(before, c.data, d.masterIndex - 1);
    assert c.data[..|c.data|] == c.data;
  }

  lemma ChipWhileReceiving(d: Drv, ack: bool, c: Call, p: Phase, before: Chip, chip: Chip, got: seq<uint8>)
    requires d.WellFormed() && ForChip(c) && before.Valid() && chip.Valid()
    requires InProgress(d, Receiving(ack), c, p, got) && ChipInStep(d, Receiving(ack), c, before, chip, got)
    ensures KeepsChip(d, Receiving(ack), c, p, before, chip, got)
  {
  }

  /** One interrupt of a call to the chip: the driver, the monitor and the chip move together. */
  lemma ChipStep(d: Drv, hw: Hw, c: Call, p: Phase, before: Chip, chip: Chip, got: seq<uint8>)
    requires d.WellFormed() && ForChip(c) && before.Valid() && chip.Valid()
    requires InProgress(d, hw, c, p, got) && ChipInStep(d, hw, c, before, chip, got)
    ensures Possible(hw, Answer(chip, hw)) && InBounds(WithData(d, Answer(chip, hw)), StatusOf(hw, Answer(chip, hw)))
    ensures KeepsStep(d, hw, c, p, got, Answer(chip, hw)) && KeepsChip(d, hw, c, p, before, chip, got)
  {
    ProgressStep(d, hw, c, p, got, Answer(chip, hw));
    match hw
    case Starting =>
    case SendingAddress(b) => ChipWhileAddressing(d, b, c, p, before, chip, got);
    case SendingData(b) => ChipWhileSending(d, b, c, p, before, chip, got);
    case Receiving(ack) => ChipWhileReceiving(d, ack, c, p, before, chip, got);
  }

  /** A call on the bus: what it is, the chip when it began, how far the monitor sees it, and
    * what it has read.
    */
  datatype Transfer = Transfer(call: Call, before: Chip, phase: Phase, got: seq<uint8>)

  ghost predicate Underway(d: Drv, hw: Hw, chip: Chip, t: Transfer) {
    && d.WellFormed() && chip.Valid() && ForChip(t.call) && t.before.Valid()
    && !hw.Free?
    && InProgress(d, hw, t.call, t.phase, t.got)
    && ChipInStep(d, hw, t.call, t.before, chip, t.got)
  }

  /** The call is over: the chip has taken all of it, and the driver holds the result. */
  ghost predicate Ended(d: Drv, hw: Hw, chip: Chip, t: Transfer) {
    && chip.Valid() && t.before.Valid()
    && hw.Free? && d.mode == Ready
    && chip == AfterCall(t.before, t.call)
    && match t.call
       case Write(_, _, _) => d.error == NoFault
       case Read(_, length) =>
         d.masterIndex == length <= |d.masterBuffer| && d.masterBuffer[..length] == Reading(t.before, length)
  }

  function Replied(t: Transfer, d: Drv, hw: Hw, o: Outcome): Transfer
    requires t.call.Proper() && Possible(hw, o) && InBounds(WithData(d, o), StatusOf(hw, o))
  {
    t.(phase := PhaseAfter(t.call, t.phase, hw, o, Isr(WithData(d, o), StatusOf(hw, o), [])),
       got := if o.Arrived? then t.got + [o.byte] else t.got)
  }

  lemma TransferStep(d: Drv, hw: Hw, chip: Chip, t: Transfer)
    requires Underway(d, hw, chip, t)
    ensures Possible(hw, Answer(chip, hw)) && InBounds(WithData(d, Answer(chip, hw)), StatusOf(hw, Answer(chip, hw)))
    ensures
      var o := Answer(chip, hw);
      var st := StatusOf(hw, o);
      var d' := Isr(WithData(d, o), st, []);
      var hw' := NextHw(st, d'.control, d'.twdr);
      var t' := Replied(t, d, hw, o);
      && (Underway(d', hw', Step(chip, hw), t') || Ended(d', hw', Step(chip, hw), t'))
      && 0 <= Remaining(d', hw', t.call) < Remaining(d, hw, t.call)
  {
    ChipStep(d, hw, t.call, t.phase, t.before, chip, t.got);
    var o := Answer(chip, hw);
    ReplyBringsEnd(d, hw, t.call, t.phase, t.got, o);
    var d' := Isr(WithData(d, o), StatusOf(hw, o), []);
    if NextHw(StatusOf(hw, o), d'.control, d'.twdr).Free? && t.call.Read? {
      assert |Reading(t.before, t.call.length)| == t.call.length;
    }
  }

  /** The foreground program, the I2C driver, its hardware, and the chip on the other side. */
  class Clock {
    const twi: Twi
    const txBuffer: array<uint8>
    const rxBuffer: array<uint8>
    var hw: Hw
    var chip: Chip
    var rtcState: nat
    ghost var transfer: Transfer

    ghost function Repr(): set<object> {
      {this, txBuffer, rxBuffer} + twi.Repr()
    }

    ghost predicate Valid()
      reads Repr()
    {
      && twi.Valid() && chip.Valid()
      && txBuffer.Length == rxBuffer.Length == MAX_BUFFER_LENGTH
      && txBuffer != rxBuffer && txBuffer !in twi.Repr() && rxBuffer !in twi.Repr()
      && (hw.Free? <==> twi.mode == Ready)
      && (!hw.Free? ==> Underway(twi.Snapshot(), hw, chip, transfer))
    }

    /** The chip once the call under way, if any, is over. */
    ghost function Settled(): (c: Chip)
      requires Valid()
      reads Repr()
      ensures c.Valid()
    {
      if hw.Free? then chip else AfterCall(transfer.before, transfer.call)
    }

    constructor (chip: Chip)
      requires chip.Valid()
      ensures Valid() && fresh(Repr())
      ensures hw == Free && Settled() == chip
    {
      twi := new Twi();
      txBuffer := new uint8[MAX_BUFFER_LENGTH];
      rxBuffer := new uint8[MAX_BUFFER_LENGTH];
      hw := Free;
      rtcState := 0;
      this.chip := chip;
    }

    /** One interrupt: the bus answers, and the driver's routine runs. */
    method ServeInterrupt()
      requires Valid() && !hw.Free?
      modifies this`hw, this`chip, this`transfer, twi, twi.masterBuffer, twi.txBuffer, twi.rxBuffer
      ensures Valid() && Settled() == old(Settled())
      ensures transfer.call == old(transfer.call) && transfer.before == old(transfer.before)
      ensures 0 <= Remaining(twi.Snapshot(), hw, transfer.call) < old(Remaining(twi.Snapshot(), hw, transfer.call))
      ensures hw.Free? ==> Ended(twi.Snapshot(), hw, chip, transfer)
    {
      ghost var d := twi.Snapshot();
      TransferStep(d, hw, chip, transfer);
      var o := Answer(chip, hw);
      var st := StatusOf(hw, o);
      transfer := Replied(transfer, d, hw, o);
      chip := Step(chip, hw);
      if o.Arrived? {
        twi.twdr := o.byte;
      }
      assert twi.Snapshot() == WithData(d, o);
      var _ := twi.Interrupt(st, []);
      hw := NextHw(st, twi.twcr, twi.twdr);
    }

    /** The spin loop at the start of every call and at the end of a waited one: interrupts are
      * served until the driver is ready.
      */
    method SpinUntilReady()
      requires Valid()
      modifies this`hw, this`chip, this`transfer, twi, twi.masterBuffer, twi.txBuffer, twi.rxBuffer
      ensures Valid() && hw.Free? && Settled() == old(Settled())
      ensures old(hw).Free? ==> chip == old(chip) && twi.Snapshot() == old(twi.Snapshot())
      ensures !old(hw).Free? ==> Ended(twi.Snapshot(), hw, chip, transfer)
      ensures transfer.call == old(transfer.call) && transfer.before == old(transfer.before)
    {
      while twi.mode != Ready
        invariant Valid() && Settled() == old(Settled())
        invariant old(hw).Free? ==> hw.Free? && chip == old(chip) && twi.Snapshot() == old(twi.Snapshot())
        invariant !old(hw).Free? && hw.Free? ==> Ended(twi.Snapshot(), hw, chip, transfer)
        invariant transfer.call == old(transfer.call) && transfer.before == old(transfer.before)
        decreases Remaining(twi.Snapshot(), hw, transfer.call)
      {
        ServeInterrupt();
      }
    }

    /** Sends the first `length` bytes of the transmit buffer to the chip, waiting for the end of
      * the transfer only if asked to.
      */
    method WriteTo(length: nat, wait: bool) returns (code: nat)
      requires Valid() && length <= MAX_BUFFER_LENGTH
      modifies this`hw, this`chip, this`transfer, twi, twi.masterBuffer, twi.txBuffer, twi.rxBuffer
      ensures Valid() && Settled() == Fed(old(Settled()), txBuffer[..length])
      ensures wait ==> code == 0 && hw.Free?
      ensures transfer.call == Write(0x6F, txBuffer[..length], wait)
    {
      assert length <= BUFFER_LENGTH;
      SpinUntilReady();
      ghost var c := Write(RTC_ADDRESS, txBuffer[..length], wait);
      CallBegins(twi.Snapshot(), chip, c);
      twi.BeginWrite(RTC_ADDRESS, txBuffer, length, wait);
      hw := Starting;
      transfer := Transfer(c, chip, Begin, []);
      if wait {
        SpinUntilReady();
      }
      code := WriteCode(twi.error);
    }

    /** Reads `length` bytes from the chip into the receive buffer. */
    method ReadFrom(length: nat) returns (n: nat)
      requires Valid() && 1 <= length <= MAX_BUFFER_LENGTH
      modifies this`hw, this`chip, this`transfer, twi, twi.masterBuffer, twi.txBuffer, twi.rxBuffer, rxBuffer
      ensures Valid() && hw.Free? && Settled() == Drained(old(Settled()), length)
      ensures n == length && rxBuffer[..length] == Reading(old(Settled()), length)
      ensures transfer.call == Read(0x6F, length)
    {
      SpinUntilReady();
      ghost var c := Read(RTC_ADDRESS, length);
      CallBegins(twi.Snapshot(), chip, c);
      twi.BeginRead(RTC_ADDRESS, length);
      hw := Starting;
      transfer := Transfer(c, chip, Begin, []);
      SpinUntilReady();
      n := twi.FinishRead(rxBuffer, length);
    }

    /** Reads one register: selects it, then reads a byte. */
    method ReadAddress(address: uint8) returns (b: uint8)
      requires Valid()
      modifies this`hw, this`chip, this`transfer, this`rtcState, twi, twi.masterBuffer, twi.txBuffer, twi.rxBuffer, txBuffer, rxBuffer
      ensures Valid() && Settled().regs == old(Settled().regs)
      ensures b == old(Settled().regs[address])
    {
      txBuffer[0] := address;
      ghost var chip0 := Settled();
      SelectThenRead(chip0, address);
      assert txBuffer[..1] == [address];
      rtcState := WriteTo(1, true);
      b := 0;
      if rtcState == 0 {
        var messageLength := ReadFrom(1);
        if messageLength != 0 {
          assert rxBuffer[0] == rxBuffer[..1][0];
          b := rxBuffer[0];
        }
      }
    }

    /** Writes one register without waiting. */
    method WriteAddress(address: uint8, data: uint8) returns (code: nat)
      requires Valid()
      modifies this`hw, this`chip, this`transfer, this`rtcState, twi, twi.masterBuffer, twi.txBuffer, twi.rxBuffer, txBuffer
      ensures Valid() && Settled().regs == old(Settled().regs)[address := data]
      ensures code == rtcState
    {
      txBuffer[0] := address;
      txBuffer[1] := data;
      WriteOne(Settled(), txBuffer[..2]);
      rtcState := WriteTo(2, false);
      return rtcState;
    }

    /** Fills the transmit buffer with a register number and three values, and sends them
      * without waiting.
      */
    method WriteBlock(r: uint8, a: uint8, b: uint8, c: uint8)
      requires Valid() && r <= 252
      modifies this`hw, this`chip, this`transfer, this`rtcState, twi, twi.masterBuffer, twi.txBuffer, twi.rxBuffer, txBuffer
      ensures Valid() && Settled().regs == old(Settled().regs)[r := a][r + 1 := b][r + 2 := c]
    {
      txBuffer[0] := r;
      txBuffer[1] := a;
      txBuffer[2] := b;
      txBuffer[3] := c;
      WriteThree(Settled(), txBuffer[..4]);
      rtcState := WriteTo(4, false);
    }

    /** Sets the clock with two writes, neither of them waited for. */
    method SetTime(t: Time)
      requires Valid()
      modifies this`hw, this`chip, this`transfer, this`rtcState, twi, twi.masterBuffer, twi.txBuffer, twi.rxBuffer, txBuffer
      ensures Valid() && Settled().regs == TimeRegisters(old(Settled().regs), t)
      ensures Representable(t) ==> IsTimeIn(Settled().regs, t, old(Settled().regs))
    {
      ghost var regs := Settled().regs;
      if Representable(t) {
        RegisterMap(regs, t);
      }
      var minutes := Dec2Bcd(t.minute % 128);
      var hour := Dec2Bcd(t.hour % 64);
      var day := Dec2Bcd(t.day % 64);
      var month := Dec2Bcd(t.month % 32);
      var year := Dec2Bcd(t.year);
      WriteBlock(0x00, SecondsRegister(t), minutes, hour);
      WriteBlock(0x04, day, month, year);
    }

    /** Reads the clock register by register. */
    method GetTime() returns (t: Time)
      requires Valid()
      modifies this`hw, this`chip, this`transfer, this`rtcState, twi, twi.masterBuffer, twi.txBuffer, twi.rxBuffer, txBuffer, rxBuffer
      ensures Valid() && Settled().regs == old(Settled().regs)
      ensures t == ReadTime(old(Settled().regs))
      ensures IsReadFrom(t, old(Settled().regs))
    {
      ReadMap(Settled().regs);
      var seconds := ReadAddress(0x00);
      var minutes := ReadAddress(0x01);
      var hour := ReadAddress(0x02);
      var day := ReadAddress(0x04);
      var month := ReadAddress(0x05);
      var year := ReadAddress(0x06);
      return Time(Bcd2Dec(year), Bcd2Dec(month % 32), Bcd2Dec(day % 64),
                  Bcd2Dec(hour % 64), Bcd2Dec(minutes % 128), Bcd2Dec(seconds % 128));
    }

    /** A time set is the time read back exactly when all its fields fit their registers; the
      * weekday register between the two blocks is never touched.
      */
    method SetThenGet(t: Time) returns (r: Time)
      requires Valid()
      modifies this`hw, this`chip, this`transfer, this`rtcState, twi, twi.masterBuffer, twi.txBuffer, twi.rxBuffer, txBuffer, rxBuffer
      ensures Valid() && Settled().regs[3] == old(Settled().regs[3])
      ensures r == t <==> Representable(t)
      ensures IsCalendarTime(t) ==> r == t
    {
      TimeRoundTripIff(Settled().regs, t);
      SetTime(t);
      r := GetTime();
    }
  }

  lemma CallBegins(d: Drv, chip: Chip, c: Call)
    requires d.WellFormed() && chip.Valid() && ForChip(c)
    ensures Underway(Launch(d, c), Starting, chip, Transfer(c, chip, Begin, []))
  {
  }
}
