/** The I2C driver: its state, the set-up part of its calls, and its interrupt routine. The class
  * `Twi` is the driver as written, over fields and fixed buffers; the functions on `Drv` say what
  * each of its methods does to that state, and the protocol proofs use those.
  */
module TwiDriver {
  import opened Words

  const BUFFER_LENGTH := 32

  datatype Mode = Ready | MasterReceive | MasterTransmit | SlaveReceive | SlaveTransmit

  datatype Fault = NoFault | AddressNack | DataNack | ArbitrationLost | BusFault

  /** The codes of the status register. */
  datatype Status =
    | Start | RepStart
    | MtSlaAck | MtSlaNack | MtDataAck | MtDataNack | ArbLost
    | MrSlaAck | MrSlaNack | MrDataAck | MrDataNack
    | SrSlaAck | SrGcallAck | SrArbLostSlaAck | SrArbLostGcallAck
    | SrDataAck | SrGcallDataAck | SrDataNack | SrGcallDataNack | SrStop
    | StSlaAck | StArbLostSlaAck | StDataAck | StDataNack | StLastData
    | NoInfo | BusError

  /** What the last write to the control register asked for. */
  datatype Control = SendStart | Reply(ack: bool) | SendStop | Release

  /** The driver's variables, with the data register and the last control command. */
  datatype Drv = Drv(
    mode: Mode, slarw: uint8, error: Fault,
    masterBuffer: seq<uint8>, masterIndex: nat, masterLength: nat,
    txBuffer: seq<uint8>, txIndex: nat, txLength: nat,
    rxBuffer: seq<uint8>, rxIndex: nat,
    twdr: uint8, control: Control)
  {
    predicate WellFormed() {
      |masterBuffer| == |txBuffer| == |rxBuffer| == BUFFER_LENGTH
    }
  }

  datatype Call =
    | Read(addr: nat, length: nat)
    | Write(addr: nat, data: seq<uint8>, wait: bool)
  {
    /** What the driver's callers must respect: a 7-bit address, and at least one byte to read. */
    predicate Proper() {
      addr < 128 && (Read? ==> length >= 1)
    }

    predicate FitsBuffer() {
      (if Read? then length else |data|) <= BUFFER_LENGTH
    }

    /** The address byte: the address and the direction bit. */
    function AddressByte(): uint8
      requires addr < 128
    {
      if Read? then 2 * addr + 1 else 2 * addr
    }
  }

  function Overwrite(buffer: seq<uint8>, data: seq<uint8>): (r: seq<uint8>)
    requires |data| <= |buffer|
    ensures |r| == |buffer| && r[..|data|] == data
  {
    data + buffer[|data|..]
  }

  /** A master call from the moment it finds the driver ready to its START command. */
  function Launch(d: Drv, c: Call): (d': Drv)
    requires d.WellFormed() && c.addr < 128 && c.FitsBuffer()
    ensures d'.WellFormed()
  {
    match c
    case Read(addr, length) =>
      d.(mode := MasterReceive, error := NoFault, masterIndex := 0, masterLength := (length + 255) % 256,
         slarw := c.AddressByte(), control := SendStart)
    case Write(addr, data, wait) =>
      d.(mode := MasterTransmit, error := NoFault, masterIndex := 0, masterLength := |data|,
         masterBuffer := Overwrite(d.masterBuffer, data), slarw := c.AddressByte(), control := SendStart)
  }

  function WriteCode(error: Fault): nat {
    match error
    case NoFault => 0
    case AddressNack => 2
    case DataNack => 3
    case _ => 4
  }

  function Stop(d: Drv): Drv {
    d.(control := SendStop, mode := Ready)
  }

  function ReleaseBus(d: Drv): Drv {
    d.(control := Release, mode := Ready)
  }

  /** One call of the transmit routine; its code is 0 when the data was taken. */
  function TransmitCode(d: Drv, data: seq<uint8>): nat {
    if |data| > BUFFER_LENGTH then 1 else if d.mode != SlaveTransmit then 2 else 0
  }

  function Transmit(d: Drv, data: seq<uint8>): (d': Drv)
    requires d.WellFormed()
    ensures d'.WellFormed()
  {
    if TransmitCode(d, data) == 0 then
      d.(txLength := |data|, txBuffer := Overwrite(d.txBuffer, data))
    else d
  }

  /** The transmit callback: a list of calls of the transmit routine. */
  function TransmitAll(d: Drv, loads: seq<seq<uint8>>): (d': Drv)
    requires d.WellFormed()
    ensures d'.WellFormed()
    decreases |loads|
  {
    if loads == [] then d else TransmitAll(Transmit(d, loads[0]), loads[1..])
  }

  /** The indices that a status makes the routine use lie inside the buffers. */
  predicate InBounds(d: Drv, st: Status) {
    && d.WellFormed()
    && (st.MrDataAck? || st.MrDataNack? ==> d.masterIndex < BUFFER_LENGTH)
    && (st.MtSlaAck? || st.MtDataAck? ==> d.masterIndex < d.masterLength ==> d.masterIndex < BUFFER_LENGTH)
    && (st.StDataAck? ==> d.txIndex < BUFFER_LENGTH)
  }

  predicate IsReceiveStatus(st: Status) {
    || st.SrSlaAck? || st.SrGcallAck? || st.SrArbLostSlaAck? || st.SrArbLostGcallAck?
    || st.SrDataAck? || st.SrGcallDataAck? || st.SrDataNack? || st.SrGcallDataNack? || st.SrStop?
  }

  predicate IsTransmitStatus(st: Status) {
    st.StSlaAck? || st.StArbLostSlaAck? || st.StDataAck? || st.StDataNack? || st.StLastData?
  }

  function StoreMaster(d: Drv): (d': Drv)
    requires d.WellFormed() && d.masterIndex < BUFFER_LENGTH
    ensures d'.WellFormed()
  {
    d.(masterBuffer := d.masterBuffer[d.masterIndex := d.twdr], masterIndex := d.masterIndex + 1)
  }

  function ReplyMaster(d: Drv): Drv {
    d.(control := Reply(d.masterIndex < d.masterLength))
  }

  function SendTx(d: Drv): (d': Drv)
    requires d.WellFormed() && d.txIndex < BUFFER_LENGTH
    ensures d'.WellFormed()
  {
    d.(twdr := d.txBuffer[d.txIndex], txIndex := d.txIndex + 1, control := Reply(d.txIndex + 1 < d.txLength))
  }

  /** Entry to slave transmission: the callback's data, or a single zero. */
  function OpenTx(d: Drv, loads: seq<seq<uint8>>): (d': Drv)
    requires d.WellFormed()
    ensures d'.WellFormed() && d'.txIndex == 0
  {
    TransmitKeepsIndex(d.(mode := SlaveTransmit, txIndex := 0, txLength := 0), loads);
    var loaded := TransmitAll(d.(mode := SlaveTransmit, txIndex := 0, txLength := 0), loads);
    if loaded.txLength == 0 then loaded.(txLength := 1, txBuffer := loaded.txBuffer[0 := 0]) else loaded
  }

  lemma {:induction false} TransmitKeepsIndex(d: Drv, loads: seq<seq<uint8>>)
    requires d.WellFormed()
    ensures TransmitAll(d, loads).txIndex == d.txIndex
    decreases |loads|
  {
    if loads != [] {
      TransmitKeepsIndex(Transmit(d, loads[0]), loads[1..]);
    }
  }

  /** What the interrupt routine does for status `st`; `loads` is what the transmit callback
    * offers if it is called.
    */
  function Isr(d: Drv, st: Status, loads: seq<seq<uint8>>): (d': Drv)
    requires InBounds(d, st)
    ensures d'.WellFormed()
  {
    match st
    case Start => d.(twdr := d.slarw, control := Reply(true))
    case RepStart => d.(twdr := d.slarw, control := Reply(true))
    case MtSlaAck => MasterSend(d)
    case MtDataAck => MasterSend(d)
    case MtSlaNack => Stop(d.(error := AddressNack))
    case MtDataNack => Stop(d.(error := DataNack))
    case ArbLost => ReleaseBus(d.(error := ArbitrationLost))
    case MrSlaAck => ReplyMaster(d)
    case MrDataAck => ReplyMaster(StoreMaster(d))
    case MrDataNack => Stop(StoreMaster(d))
    case MrSlaNack => Stop(d)
    case SrSlaAck => OpenRx(d)
    case SrGcallAck => OpenRx(d)
    case SrArbLostSlaAck => OpenRx(d)
    case SrArbLostGcallAck => OpenRx(d)
    case SrDataAck => StoreRx(d)
    case SrGcallDataAck => StoreRx(d)
    case SrDataNack => d.(control := Reply(false))
    case SrGcallDataNack => d.(control := Reply(false))
    case SrStop => CloseRx(d)
    case StSlaAck => SendTx(OpenTx(d, loads))
    case StArbLostSlaAck => SendTx(OpenTx(d, loads))
    case StDataAck => SendTx(d)
    case StDataNack => d.(control := Reply(true), mode := Ready)
    case StLastData => d.(control := Reply(true), mode := Ready)
    case NoInfo => d
    case BusError => Stop(d.(error := BusFault))
  }

  function MasterSend(d: Drv): (d': Drv)
    requires d.WellFormed() && (d.masterIndex < d.masterLength ==> d.masterIndex < BUFFER_LENGTH)
    ensures d'.WellFormed()
  {
    if d.masterIndex < d.masterLength then
      d.(twdr := d.masterBuffer[d.masterIndex], masterIndex := d.masterIndex + 1, control := Reply(true))
    else Stop(d)
  }

  function OpenRx(d: Drv): Drv {
    d.(mode := SlaveReceive, rxIndex := 0, control := Reply(true))
  }

  function StoreRx(d: Drv): (d': Drv)
    requires d.WellFormed()
    ensures d'.WellFormed()
  {
    if d.rxIndex < BUFFER_LENGTH then
      d.(rxBuffer := d.rxBuffer[d.rxIndex := d.twdr], rxIndex := d.rxIndex + 1, control := Reply(true))
    else d.(control := Reply(false))
  }

  function CloseRx(d: Drv): (d': Drv)
    requires d.WellFormed()
    ensures d'.WellFormed()
  {
    ReleaseBus(d.(rxBuffer := if d.rxIndex < BUFFER_LENGTH then d.rxBuffer[d.rxIndex := 0] else d.rxBuffer, rxIndex := 0))
  }

  /** What the receive callback is given when a STOP arrives. */
  function Delivered(d: Drv): seq<uint8>
    requires d.rxIndex <= |d.rxBuffer|
  {
    d.rxBuffer[..d.rxIndex]
  }

  // ----- the driver as written -----

  class Twi {
    var mode: Mode
    var slarw: uint8
    const masterBuffer: array<uint8>
    var masterBufferIndex: nat
    var masterBufferLength: nat
    const txBuffer: array<uint8>
    var txBufferIndex: nat
    var txBufferLength: nat
    const rxBuffer: array<uint8>
    var rxBufferIndex: nat
    var error: Fault
    var twdr: uint8
    var twcr: Control

    ghost predicate Valid() {
      && masterBuffer.Length == txBuffer.Length == rxBuffer.Length == BUFFER_LENGTH
      && masterBuffer != txBuffer && masterBuffer != rxBuffer && txBuffer != rxBuffer
    }

    ghost function Repr(): set<object> {
      {this, masterBuffer, txBuffer, rxBuffer}
    }

    ghost function Snapshot(): (d: Drv)
      requires Valid()
      reads Repr()
      ensures d.WellFormed()
    {
      Drv(mode, slarw, error, masterBuffer[..], masterBufferIndex, masterBufferLength,
          txBuffer[..], txBufferIndex, txBufferLength, rxBuffer[..], rxBufferIndex, twdr, twcr)
    }

    constructor ()
      ensures Valid() && fresh(Repr())
      ensures mode == Ready
    {
      masterBuffer := new uint8[BUFFER_LENGTH];
      txBuffer := new uint8[BUFFER_LENGTH];
      rxBuffer := new uint8[BUFFER_LENGTH];
      mode, slarw, error, twdr, twcr := Ready, 0, NoFault, 0, Reply(true);
      masterBufferIndex, masterBufferLength := 0, 0;
      txBufferIndex, txBufferLength, rxBufferIndex := 0, 0, 0;
    }

    /** The part of a read between finding the driver ready and waiting for the result. */
    method BeginRead(address: nat, length: nat)
      requires Valid() && address < 128 && length <= BUFFER_LENGTH
      modifies this
      ensures Snapshot() == Launch(old(Snapshot()), Read(address, length))
    {
      mode := MasterReceive;
      error := NoFault;
      masterBufferIndex := 0;
      masterBufferLength := (length + 255) % 256;
      slarw := 2 * address + 1;
      twcr := SendStart;
    }

    /** The part of a write between finding the driver ready and waiting for the result. */
    method BeginWrite(address: nat, data: array<uint8>, length: nat, ghost wait: bool)
      requires Valid() && address < 128 && length <= BUFFER_LENGTH && length <= data.Length
      requires data != masterBuffer
      modifies this, masterBuffer
      ensures Snapshot() == Launch(old(Snapshot()), Write(address, data[..length], wait))
    {
      mode := MasterTransmit;
      error := NoFault;
      masterBufferIndex := 0;
      masterBufferLength := length;
      var i := 0;
      while i < length
        modifies masterBuffer
        invariant 0 <= i <= length
        invariant forall k :: 0 <= k < i ==> masterBuffer[k] == data[k]
        invariant forall k :: i <= k < BUFFER_LENGTH ==> masterBuffer[k] == old(masterBuffer[k])
      {
        masterBuffer[i] := data[i];
        i := i + 1;
      }
      assert masterBuffer[..] == Overwrite(old(masterBuffer[..]), data[..length]);
      slarw := 2 * address;
      twcr := SendStart;
    }

    /** The end of a read: copies what arrived, at most `length` bytes, to `data`. */
    method FinishRead(data: array<uint8>, length: nat) returns (n: nat)
      requires Valid() && length <= BUFFER_LENGTH && length <= data.Length && data !in Repr()
      modifies data
      ensures n == Min(masterBufferIndex, length)
      ensures data[..n] == masterBuffer[..n] && data[n..] == old(data[..])[n..]
    {
      n := length;
      if masterBufferIndex < n {
        n := masterBufferIndex;
      }
      var i := 0;
      while i < n
        invariant 0 <= i <= n
        invariant forall k :: 0 <= k < i ==> data[k] == masterBuffer[k]
        invariant forall k :: i <= k < data.Length ==> data[k] == old(data[k])
      {
        data[i] := masterBuffer[i];
        i := i + 1;
      }
    }

    method StopBus()
      modifies `twcr, `mode
      ensures twcr == SendStop && mode == Ready
    {
      twcr := SendStop;
      mode := Ready;
    }

    method ReleaseTheBus()
      modifies `twcr, `mode
      ensures twcr == Release && mode == Ready
    {
      twcr := Release;
      mode := Ready;
    }

    /** Fills the slave transmit buffer. */
    method TransmitData(data: seq<uint8>) returns (code: nat)
      requires Valid()
      modifies this, txBuffer
      ensures Snapshot() == Transmit(old(Snapshot()), data)
      ensures code == if |data| > 32 then 1 else if old(mode) != SlaveTransmit then 2 else 0
      ensures if code == 0 then txBufferLength == |data| && txBuffer[..|data|] == data else Snapshot() == old(Snapshot())
    {
      if BUFFER_LENGTH < |data| { return 1; }
      if SlaveTransmit != mode { return 2; }
      txBufferLength := |data|;
      var i := 0;
      while i < |data|
        modifies txBuffer
        invariant 0 <= i <= |data|
        invariant forall k :: 0 <= k < i ==> txBuffer[k] == data[k]
        invariant forall k :: i <= k < BUFFER_LENGTH ==> txBuffer[k] == old(txBuffer[k])
      {
        txBuffer[i] := data[i];
        i := i + 1;
      }
      assert txBuffer[..] == Overwrite(old(txBuffer[..]), data);
      return 0;
    }

    /** The user's transmit callback, which offers `loads` one after the other. */
    method OnSlaveTransmit(loads: seq<seq<uint8>>)
      requires Valid()
      modifies this, txBuffer
      ensures Snapshot() == TransmitAll(old(Snapshot()), loads)
      decreases |loads|
    {
      if loads != [] {
        var _ := TransmitData(loads[0]);
        OnSlaveTransmit(loads[1..]);
      }
    }

    /** The interrupt routine. `loads` is what the transmit callback offers if it is called;
      * `delivered` is what the receive callback is given.
      */
    method Interrupt(status: Status, loads: seq<seq<uint8>>) returns (delivered: Option<seq<uint8>>)
      requires Valid() && InBounds(Snapshot(), status) && (status.SrStop? ==> rxBufferIndex <= BUFFER_LENGTH)
      modifies Repr()
      ensures Snapshot() == Isr(old(Snapshot()), status, loads)
      ensures delivered == if status.SrStop? then Some(Delivered(old(Snapshot()))) else None
    {
      if IsReceiveStatus(status) {
        delivered := ReceiveInterrupt(status, loads);
      } else {
        if IsTransmitStatus(status) {
          TransmitInterrupt(status, loads);
        } else {
          MasterInterrupt(status, loads);
        }
        delivered := None;
      }
    }

    /** The cases of a master, and those of neither side. */
    method MasterInterrupt(status: Status, ghost loads: seq<seq<uint8>>)
      requires Valid() && InBounds(Snapshot(), status) && !IsReceiveStatus(status) && !IsTransmitStatus(status)
      modifies this, masterBuffer
      ensures Snapshot() == Isr(old(Snapshot()), status, loads)
    {
      match status
      case Start | RepStart =>
        twdr := slarw;
        twcr := Reply(true);
      case MtSlaAck | MtDataAck =>
        SendMasterByte();
      case MtSlaNack =>
        error := AddressNack;
        StopBus();
      case MtDataNack =>
        error := DataNack;
        StopBus();
      case ArbLost =>
        error := ArbitrationLost;
        ReleaseTheBus();
      case MrDataAck =>
        StoreMasterByte();
        twcr := Reply(masterBufferIndex < masterBufferLength);
      case MrSlaAck =>
        twcr := Reply(masterBufferIndex < masterBufferLength);
      case MrDataNack =>
        StoreMasterByte();
        StopBus();
      case MrSlaNack =>
        StopBus();
      case NoInfo =>
      case BusError =>
        error := BusFault;
        StopBus();
    }

    /** The cases of a slave that receives. */
    method ReceiveInterrupt(status: Status, ghost loads: seq<seq<uint8>>) returns (delivered: Option<seq<uint8>>)
      requires Valid() && IsReceiveStatus(status) && (status.SrStop? ==> rxBufferIndex <= BUFFER_LENGTH)
      modifies this, rxBuffer
      ensures Snapshot() == Isr(old(Snapshot()), status, loads)
      ensures delivered == if status.SrStop? then Some(Delivered(old(Snapshot()))) else None
    {
      delivered := None;
      if status.SrStop? {
        var bytes := CloseReceive();
        delivered := Some(bytes);
      } else if status.SrDataAck? || status.SrGcallDataAck? {
        StoreReceivedByte();
      } else if status.SrDataNack? || status.SrGcallDataNack? {
        twcr := Reply(false);
      } else {
        OpenReceive();
      }
    }

    method OpenReceive()
      requires Valid()
      modifies this
      ensures Snapshot() == OpenRx(old(Snapshot()))
    {
      mode := SlaveReceive;
      rxBufferIndex := 0;
      twcr := Reply(true);
    }

    /** The cases of a slave that transmits. */
    method TransmitInterrupt(status: Status, loads: seq<seq<uint8>>)
      requires Valid() && InBounds(Snapshot(), status) && IsTransmitStatus(status)
      modifies this, txBuffer
      ensures Snapshot() == Isr(old(Snapshot()), status, loads)
    {
      if status.StDataNack? || status.StLastData? {
        twcr := Reply(true);
        mode := Ready;
      } else {
        if !status.StDataAck? {
          BeginSlaveTransmit(loads);
        }
        SendTxByte();
      }
    }

    /** Master transmission: the next byte, or STOP when there is none. */
    method SendMasterByte()
      requires Valid() && (masterBufferIndex < masterBufferLength ==> masterBufferIndex < BUFFER_LENGTH)
      modifies this
      ensures Snapshot() == MasterSend(old(Snapshot()))
    {
      if masterBufferIndex < masterBufferLength {
        twdr := masterBuffer[masterBufferIndex];
        masterBufferIndex := masterBufferIndex + 1;
        twcr := Reply(true);
      } else {
        StopBus();
      }
    }

    method StoreMasterByte()
      requires Valid() && masterBufferIndex < BUFFER_LENGTH
      modifies this, masterBuffer
      ensures Snapshot() == StoreMaster(old(Snapshot()))
    {
      masterBuffer[masterBufferIndex] := twdr;
      masterBufferIndex := masterBufferIndex + 1;
    }

    /** Slave reception: keeps the byte while there is room, and refuses the next one otherwise. */
    method StoreReceivedByte()
      requires Valid()
      modifies this, rxBuffer
      ensures Snapshot() == StoreRx(old(Snapshot()))
    {
      if rxBufferIndex < BUFFER_LENGTH {
        rxBuffer[rxBufferIndex] := twdr;
        rxBufferIndex := rxBufferIndex + 1;
        twcr := Reply(true);
      } else {
        twcr := Reply(false);
      }
    }

    /** End of a slave reception: `bytes` is what the receive callback is given. */
    method CloseReceive() returns (bytes: seq<uint8>)
      requires Valid() && rxBufferIndex <= BUFFER_LENGTH
      modifies this, rxBuffer
      ensures Snapshot() == CloseRx(old(Snapshot())) && bytes == Delivered(old(Snapshot()))
    {
      if rxBufferIndex < BUFFER_LENGTH {
        rxBuffer[rxBufferIndex] := 0;
      }
      StopBus();
      bytes := rxBuffer[..rxBufferIndex];
      rxBufferIndex := 0;
      ReleaseTheBus();
    }

    /** Entry to slave transmission. */
    method BeginSlaveTransmit(loads: seq<seq<uint8>>)
      requires Valid()
      modifies this, txBuffer
      ensures Snapshot() == OpenTx(old(Snapshot()), loads)
    {
      mode := SlaveTransmit;
      txBufferIndex := 0;
      txBufferLength := 0;
      ghost var before := Snapshot();
      OnSlaveTransmit(loads);
      TransmitKeepsIndex(before, loads);
      if 0 == txBufferLength {
        txBufferLength := 1;
        txBuffer[0] := 0x00;
      }
    }

    /** The tail shared by slave transmission's first and later bytes. */
    method SendTxByte()
      requires Valid() && txBufferIndex < BUFFER_LENGTH
      modifies this
      ensures Snapshot() == SendTx(old(Snapshot()))
    {
      twdr := txBuffer[txBufferIndex];
      txBufferIndex := txBufferIndex + 1;
      twcr := Reply(txBufferIndex < txBufferLength);
    }
  }
}
