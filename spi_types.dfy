/**
 * The configuration values of an SPI slave device (PeripheralSPIImpl.h).
 * Each enumerated setting is a datatype; `Code()` gives the byte the C code
 * stores in the corresponding `uint8_t` field and `Decode…` recovers the
 * setting from such a byte, failing on bytes that name no setting.
 */
module SpiTypes {
  import opened Wrappers

  /** Whether a byte is shifted out most or least significant bit first. */
  datatype DataOrder = MsbFirst | LsbFirst {
    function Code(): bv8 {
      match this
      case MsbFirst => 0
      case LsbFirst => 1
    }
  }

  function DecodeDataOrder(c: bv8): (r: Option<DataOrder>)
    ensures r.Some? <==> c < 2
    ensures r.Some? ==> r.value.Code() == c
  {
    if c == 0 then Some(MsbFirst) else if c == 1 then Some(LsbFirst) else None
  }

  /** The factor by which the controller's clock is divided to give the SPI clock. */
  datatype ClockRateDivider = Div4 | Div8 | Div16 | Div32 | Div64 | Div128 {
    function Code(): bv8 {
      match this
      case Div4 => 4
      case Div8 => 8
      case Div16 => 16
      case Div32 => 32
      case Div64 => 64
      case Div128 => 128
    }
  }

  function DecodeClockRateDivider(c: bv8): (r: Option<ClockRateDivider>)
    ensures r.Some? <==> c == 4 || c == 8 || c == 16 || c == 32 || c == 64 || c == 128
    ensures r.Some? ==> r.value.Code() == c
  {
    if c == 4 then Some(Div4)
    else if c == 8 then Some(Div8)
    else if c == 16 then Some(Div16)
    else if c == 32 then Some(Div32)
    else if c == 64 then Some(Div64)
    else if c == 128 then Some(Div128)
    else None
  }

  /** The four combinations of clock polarity and clock phase. */
  datatype SpiMode = Mode0 | Mode1 | Mode2 | Mode3 {
    function Code(): bv8 {
      match this
      case Mode0 => 0
      case Mode1 => 1
      case Mode2 => 2
      case Mode3 => 3
    }
  }

  function DecodeSpiMode(c: bv8): (r: Option<SpiMode>)
    ensures r.Some? <==> c < 4
    ensures r.Some? ==> r.value.Code() == c
  {
    if c == 0 then Some(Mode0)
    else if c == 1 then Some(Mode1)
    else if c == 2 then Some(Mode2)
    else if c == 3 then Some(Mode3)
    else None
  }

  /** The level of the line while the slave is idle. */
  datatype IdleSignal = IdleLow | IdleHigh {
    function Code(): bv8 {
      match this
      case IdleLow => 0
      case IdleHigh => 1
    }
  }

  function DecodeIdleSignal(c: bv8): (r: Option<IdleSignal>)
    ensures r.Some? <==> c < 2
    ensures r.Some? ==> r.value.Code() == c
  {
    if c == 0 then Some(IdleLow) else if c == 1 then Some(IdleHigh) else None
  }

  /** Decoding a stored code gives back the setting it was made from. */
  lemma CodesRoundTrip(o: DataOrder, d: ClockRateDivider, m: SpiMode, i: IdleSignal)
    ensures DecodeDataOrder(o.Code()) == Some(o)
    ensures DecodeClockRateDivider(d.Code()) == Some(d)
    ensures DecodeSpiMode(m.Code()) == Some(m)
    ensures DecodeIdleSignal(i.Code()) == Some(i)
  {
    match o case MsbFirst => case LsbFirst =>
    match d case Div4 => case Div8 => case Div16 => case Div32 => case Div64 => case Div128 =>
    match m case Mode0 => case Mode1 => case Mode2 => case Mode3 =>
    match i case IdleLow => case IdleHigh =>
  }

  /**
   * The static description of one slave on the bus. The chip-select port
   * registers are memory-mapped I/O and are not part of this model; the pin
   * number on that port is kept.
   */
  datatype SpiSlave = SpiSlave(
    slaveSelectPin: bv8,
    clockRateDivider: ClockRateDivider,
    dataOrder: DataOrder,
    idleSignal: IdleSignal,
    spiMode: SpiMode)

  /**
   * The descriptor as the C struct stores it: the pin number and one
   * `uint8_t` code per setting, which may or may not name a setting.
   */
  datatype RawSpiSlave = RawSpiSlave(
    slaveSelectPin: bv8,
    clockRateDivider: bv8,
    dataOrder: bv8,
    idleSignal: bv8,
    spiMode: bv8)

  /** The stored form of a descriptor. */
  function Encode(s: SpiSlave): RawSpiSlave
  {
    RawSpiSlave(s.slaveSelectPin, s.clockRateDivider.Code(), s.dataOrder.Code(), s.idleSignal.Code(), s.spiMode.Code())
  }

  /** Reads a stored descriptor, failing when any field holds a code that names no setting. */
  function DecodeSlave(raw: RawSpiSlave): (r: Option<SpiSlave>)
    ensures r.Some? <==>
      DecodeClockRateDivider(raw.clockRateDivider).Some? && DecodeDataOrder(raw.dataOrder).Some? &&
      DecodeIdleSignal(raw.idleSignal).Some? && DecodeSpiMode(raw.spiMode).Some?
    ensures r.Some? ==> Encode(r.value) == raw
  {
    match (DecodeClockRateDivider(raw.clockRateDivider), DecodeDataOrder(raw.dataOrder),
           DecodeIdleSignal(raw.idleSignal), DecodeSpiMode(raw.spiMode))
    case (Some(d), Some(o), Some(i), Some(m)) => Some(SpiSlave(raw.slaveSelectPin, d, o, i, m))
    case _ => None
  }

  /** Every descriptor survives being stored and read back. */
  lemma SlaveRoundTrip(s: SpiSlave)
    ensures DecodeSlave(Encode(s)) == Some(s)
  {
    CodesRoundTrip(s.dataOrder, s.clockRateDivider, s.spiMode, s.idleSignal);
  }

  /**
   * A device on the bus. The interface layer only ever passes a device on and
   * keys the bus mutex by it, so what matters is its identity; its descriptor
   * never changes after construction.
   */
  class Peripheral {
    const slave: SpiSlave

    constructor (slave: SpiSlave)
      ensures this.slave == slave
    {
      this.slave := slave;
    }
  }
}
