/**
  The SPI device registry of App/Utils/spi_io.h and App/Utils/spi_io.c.

  The header fixes the bit encodings of a device's operation mask (`op`) and
  of its status word (`state`: a three-bit phase field plus the ABORT, ERROR
  and SELECTED flags) and the size of the packet buffers.  The source file
  keeps a static table of three devices and the interrupt callbacks that set
  and clear bits in a device's status word.  Here each table entry is a
  `Device` object and the table an array of them inside a `Registry`; a
  callback may modify only the `state` field of the one device it
  concerns.  The level read from the chip-select
  pin is a parameter, and the receive the falling edge arms is returned as an
  `RxRequest` event instead of being started.
*/
module SpiIo {

  import opened Wrappers

  /** `SPI_BUFF_SIZE`: the length of `tx_buff` and `rx_buff`. */
  const BuffSize: nat := 255

  // SPIOperation_t: which transfer directions are in flight.
  const OpNone: bv8 := 0x00
  const OpTx: bv8 := 0x01
  const OpRx: bv8 := 0x02
  const OpTxRx: bv8 := 0x03

  // SPIDeviceState_t: the phase field (low three bits) ...
  const StatePending: bv8 := 0x00
  const StateCplt: bv8 := 0x01
  const StateTxPending: bv8 := 0x02
  const StateTxCplt: bv8 := 0x03
  const StateRxPending: bv8 := 0x04
  const StateRxCplt: bv8 := 0x05
  const StateTxRxPending: bv8 := 0x06
  const StateTxRxCplt: bv8 := 0x07
  // ... and the three flags.
  const StateAbort: bv8 := 0x08
  const StateError: bv8 := 0x10
  const StateSelected: bv8 := 0x20

  /** The bits of the phase sub-field. */
  const PhaseMask: bv8 := 0x07

  /** The phase encodings are unions of the two pending bits and the completion bit. */
  lemma PhaseEncodings()
    ensures StateTxCplt == StateTxPending | StateCplt
    ensures StateRxCplt == StateRxPending | StateCplt
    ensures StateTxRxPending == StateTxPending | StateRxPending
    ensures StateTxRxCplt == StateTxRxPending | StateCplt
    ensures StatePending == 0 && StateTxRxCplt == PhaseMask
  {
  }

  predicate SingleBit(b: bv8) {
    b != 0 && b & (b - 1) == 0
  }

  /** ABORT, ERROR and SELECTED are distinct single bits outside the phase field. */
  lemma FlagBits()
    ensures SingleBit(StateAbort) && SingleBit(StateError) && SingleBit(StateSelected)
    ensures StateAbort & StateError == 0 && StateAbort & StateSelected == 0 && StateError & StateSelected == 0
    ensures (StateAbort | StateError | StateSelected) & PhaseMask == 0
  {
  }

  /** No operation is zero, and the two-direction value is the union of the two directions. */
  lemma OpEncodings()
    ensures OpNone == 0 && OpTxRx == OpTx | OpRx && OpTx & OpRx == 0
  {
  }

  /** All status bits lie below 0x40, so a status word fits in a byte with room to spare. */
  const StateBits: bv8 := PhaseMask | StateAbort | StateError | StateSelected

  predicate InStatusWord(s: bv8) {
    s & !StateBits == 0
  }

  // Handles of the three SPI peripherals (hspi1, hspi3, hspi5) and of any other.
  datatype Handle = Hspi1 | Hspi3 | Hspi5 | OtherHandle(address: nat)

  /** An index into the three-entry device table. */
  type DeviceIndex = i: nat | i < 3

  /**
    `hspi_to_struct`: the table entry of a handle.  Any handle other than
    hspi1, hspi3 and hspi5 is not found.
  */
  function Lookup(h: Handle): (r: Option<DeviceIndex>)
    ensures r.None? <==> h.OtherHandle?
    ensures r == Some(0) <==> h == Hspi1
    ensures r == Some(1) <==> h == Hspi3
    ensures r == Some(2) <==> h == Hspi5
  {
    match h
    case Hspi1 => Some(0)
    case Hspi3 => Some(1)
    case Hspi5 => Some(2)
    case OtherHandle(_) => None
  }

  /** The level `HAL_GPIO_ReadPin` reports. */
  datatype PinLevel = PinReset | PinSet

  /** `HAL_SPI_Receive_IT(handle, rx_buff, length)`, armed for a table entry. */
  datatype RxRequest = RxRequest(handle: Handle, device: DeviceIndex, length: nat)

  /**
    The fields of `SPIDevice_t` (GPIO ports are left out).  Handle, pins
    and buffers are fixed by the table; the remaining fields are variables
    of the device.
  */
  class Device {
    const handle: Handle
    const csPinIn: bv16
    const csPinOut: bv16
    var state: bv8
    var op: bv8
    var txPos: bv8
    var txLen: bv8
    var rxPos: bv8
    var rxLen: bv8
    const txBuff: array<bv8>
    const rxBuff: array<bv8>
    var name: string

    /** A table entry as the static initialiser leaves it: every other field zero. */
    constructor (h: Handle, pinIn: bv16, pinOut: bv16)
      ensures handle == h && csPinIn == pinIn && csPinOut == pinOut
      ensures state == StatePending && op == OpNone
      ensures txPos == 0 && txLen == 0 && rxPos == 0 && rxLen == 0 && name == ""
      ensures fresh(txBuff) && fresh(rxBuff) && txBuff != rxBuff
      ensures txBuff[..] == seq(BuffSize, _ => 0) && rxBuff[..] == seq(BuffSize, _ => 0)
    {
      handle, csPinIn, csPinOut := h, pinIn, pinOut;
      state, op := StatePending, OpNone;
      txPos, txLen, rxPos, rxLen := 0, 0, 0, 0;
      txBuff := new bv8[BuffSize](_ => 0);
      rxBuff := new bv8[BuffSize](_ => 0);
      name := "";
    }
  }

  predicate WellFormed(d: Device) {
    d.txBuff.Length == BuffSize && d.rxBuff.Length == BuffSize
  }

  /** Any `uint8_t` index below `SPI_BUFF_SIZE` addresses both buffers in bounds. */
  lemma ByteIndexInBuffers(d: Device, i: bv8)
    requires WellFormed(d) && (i as int) < BuffSize
    ensures (i as int) < d.txBuff.Length && (i as int) < d.rxBuff.Length
  {
  }

  // The state updates the callbacks perform.

  /** `state |= SPISTATE_SELECTED`. */
  function MarkSelected(s: bv8): (r: bv8)
    ensures r & StateSelected == StateSelected
    ensures r & !StateSelected == s & !StateSelected
  {
    s | StateSelected
  }

  /** `state &= ~SPISTATE_SELECTED`. */
  function MarkDeselected(s: bv8): (r: bv8)
    ensures r & StateSelected == 0
    ensures r & !StateSelected == s & !StateSelected
  {
    s & !StateSelected
  }

  /** `state |= SPISTATE_ERROR`. */
  function MarkError(s: bv8): (r: bv8)
    ensures r & StateError == StateError
    ensures r & !StateError == s & !StateError
  {
    s | StateError
  }

  /** `state |= SPISTATE_ABORT`. */
  function MarkAborted(s: bv8): (r: bv8)
    ensures r & StateAbort == StateAbort
    ensures r & !StateAbort == s & !StateAbort
  {
    s | StateAbort
  }

  /** `state |= SPISTATE_TX_CPLT`: the TX-pending and completion bits. */
  function MarkTxComplete(s: bv8): (r: bv8)
    ensures r & StateTxCplt == StateTxCplt
    ensures r & !StateTxCplt == s & !StateTxCplt
  {
    s | StateTxCplt
  }

  /** `state |= SPISTATE_RX_CPLT`: the RX-pending and completion bits. */
  function MarkRxComplete(s: bv8): (r: bv8)
    ensures r & StateRxCplt == StateRxCplt
    ensures r & !StateRxCplt == s & !StateRxCplt
  {
    s | StateRxCplt
  }

  /** The setting callbacks never clear a bit. */
  lemma MarksOnlySetBits(s: bv8)
    ensures MarkSelected(s) & s == s && MarkError(s) & s == s && MarkAborted(s) & s == s
    ensures MarkTxComplete(s) & s == s && MarkRxComplete(s) & s == s
  {
  }

  /** Each completion update is idempotent. */
  lemma CompletionsIdempotent(s: bv8)
    ensures MarkTxComplete(MarkTxComplete(s)) == MarkTxComplete(s)
    ensures MarkRxComplete(MarkRxComplete(s)) == MarkRxComplete(s)
  {
  }

  /** TX completion then RX completion (in either order) leaves the phase TX_RX_CPLT. */
  lemma TxThenRxComplete(s: bv8)
    ensures MarkRxComplete(MarkTxComplete(s)) & PhaseMask == StateTxRxCplt
    ensures MarkTxComplete(MarkRxComplete(s)) == MarkRxComplete(MarkTxComplete(s))
  {
  }

  /** No update leaves the status word's bits. */
  lemma MarksStayInStatusWord(s: bv8)
    requires InStatusWord(s)
    ensures InStatusWord(MarkSelected(s)) && InStatusWord(MarkDeselected(s))
    ensures InStatusWord(MarkError(s)) && InStatusWord(MarkAborted(s))
    ensures InStatusWord(MarkTxComplete(s)) && InStatusWord(MarkRxComplete(s))
    ensures s < 0x40
  {
  }

  /**
    The static `devices` table of spi_io.c and the chip-select input pins
    `SPI3_CS_IN_Pin` and `SPI5_CS_IN_Pin` that the EXTI callback tests.
  */
  class Registry {
    const devices: array<Device>
    const spi3CsInPin: bv16
    const spi5CsInPin: bv16

    ghost predicate Valid()
      reads this, devices
    {
      && devices.Length == 3
      && devices[0] != devices[1] && devices[0] != devices[2] && devices[1] != devices[2]
      && devices[0].handle == Hspi1
      && devices[1].handle == Hspi3 && devices[1].csPinIn == spi3CsInPin
      && devices[2].handle == Hspi5 && devices[2].csPinIn == spi5CsInPin
      && WellFormed(devices[0]) && WellFormed(devices[1]) && WellFormed(devices[2])
    }

    /** The table as the program starts: SPI1 has no chip-select wiring. */
    constructor (spi3CsIn: bv16, spi3CsOut: bv16, spi5CsIn: bv16, spi5CsOut: bv16)
      ensures Valid() && fresh(devices)
      ensures spi3CsInPin == spi3CsIn && spi5CsInPin == spi5CsIn
      ensures devices[1].csPinOut == spi3CsOut && devices[2].csPinOut == spi5CsOut
      ensures devices[0].csPinIn == 0 && devices[0].csPinOut == 0
      ensures forall i :: 0 <= i < 3 ==> fresh(devices[i])
      ensures forall i :: 0 <= i < 3 ==> devices[i].state == StatePending && devices[i].op == OpNone
      ensures forall i :: 0 <= i < 3 ==>
        && devices[i].txPos == 0 && devices[i].txLen == 0 && devices[i].rxPos == 0 && devices[i].rxLen == 0
        && devices[i].name == ""
      ensures forall i :: 0 <= i < 3 ==>
        devices[i].txBuff[..] == seq(BuffSize, _ => 0) && devices[i].rxBuff[..] == seq(BuffSize, _ => 0)
    {
      var d1 := new Device(Hspi1, 0, 0);
      var d3 := new Device(Hspi3, spi3CsIn, spi3CsOut);
      var d5 := new Device(Hspi5, spi5CsIn, spi5CsOut);
      spi3CsInPin, spi5CsInPin := spi3CsIn, spi5CsIn;
      devices := new Device[] [d1, d3, d5];
    }

    /** The device whose chip-select input is `pin`, as the EXTI callback picks it. */
    function EdgeDevice(pin: bv16): (i: Option<DeviceIndex>)
      ensures i.None? <==> pin != spi3CsInPin && pin != spi5CsInPin
      ensures i == Some(1) <==> pin == spi3CsInPin
      ensures i == Some(2) <==> pin == spi5CsInPin && pin != spi3CsInPin
    {
      if pin == spi3CsInPin || pin == spi5CsInPin then
        Lookup(if pin == spi3CsInPin then Hspi3 else Hspi5)
      else None
    }

    /**
      `HAL_GPIO_EXTI_Callback(pin)`, with `level` the chip-select input as
      read.  Only an edge on the SPI3 or SPI5 chip-select input does
      anything, and only to that device's status word: a falling edge
      (RESET) sets SELECTED and arms a receive of `SPI_BUFF_SIZE` bytes
      into `rx_buff` whatever `op` is; a rising edge clears SELECTED.
    */
    method GpioExtiCallback(pin: bv16, level: PinLevel) returns (armed: Option<RxRequest>)
      requires Valid()
      modifies {devices[1], devices[2]}`state
      ensures Valid()
      ensures EdgeDevice(pin).None? ==>
        devices[1].state == old(devices[1].state) && devices[2].state == old(devices[2].state) && armed == None
      ensures EdgeDevice(pin).Some? ==>
        var i := EdgeDevice(pin).value;
        && devices[i].state == (if level == PinReset then MarkSelected(old(devices[i].state))
                                else MarkDeselected(old(devices[i].state)))
        && devices[3 - i].state == old(devices[3 - i].state)
        && armed == if level == PinReset then Some(RxRequest(devices[i].handle, i, BuffSize)) else None
    {
      armed := None;
      if pin == spi3CsInPin || pin == spi5CsInPin {
        var spid := devices[Lookup(if pin == spi3CsInPin then Hspi3 else Hspi5).value];
        if level == PinReset {
          spid.state := MarkSelected(spid.state);
          armed := Some(RxRequest(spid.handle, Lookup(spid.handle).value, BuffSize));
        } else {
          spid.state := MarkDeselected(spid.state);
        }
      }
    }

    /** `HAL_SPI_ErrorCpltCallback`: sets ERROR on the handle's device. */
    method ErrorCallback(h: Handle)
      requires Valid() && Lookup(h).Some?
      modifies {devices[Lookup(h).value]}`state
      ensures Valid()
      ensures devices[Lookup(h).value].state == MarkError(old(devices[Lookup(h).value].state))
    {
      var spid := devices[Lookup(h).value];
      spid.state := MarkError(spid.state);
    }

    /** `HAL_SPI_AbortCpltCallback`: sets ABORT on the handle's device. */
    method AbortCallback(h: Handle)
      requires Valid() && Lookup(h).Some?
      modifies {devices[Lookup(h).value]}`state
      ensures Valid()
      ensures devices[Lookup(h).value].state == MarkAborted(old(devices[Lookup(h).value].state))
    {
      var spid := devices[Lookup(h).value];
      spid.state := MarkAborted(spid.state);
    }

    /** `HAL_SPI_TxCpltCallback`: ORs TX_CPLT into the handle's device. */
    method TxCpltCallback(h: Handle)
      requires Valid() && Lookup(h).Some?
      modifies {devices[Lookup(h).value]}`state
      ensures Valid()
      ensures devices[Lookup(h).value].state == MarkTxComplete(old(devices[Lookup(h).value].state))
    {
      var spid := devices[Lookup(h).value];
      spid.state := MarkTxComplete(spid.state);
    }

    /** `HAL_SPI_RxCpltCallback`: ORs RX_CPLT into the handle's device. */
    method RxCpltCallback(h: Handle)
      requires Valid() && Lookup(h).Some?
      modifies {devices[Lookup(h).value]}`state
      ensures Valid()
      ensures devices[Lookup(h).value].state == MarkRxComplete(old(devices[Lookup(h).value].state))
    {
      var spid := devices[Lookup(h).value];
      spid.state := MarkRxComplete(spid.state);
    }
  }
}
