/**
 * Client code that uses only the contracts of the dispatch layer, for the
 * usage patterns the layer is designed for: a loop-back round trip, reading
 * a flash chip's identification bytes, and two devices contending for the bus.
 */
module Scenarios {
  import opened SpiTypes
  import opened Mutex
  import opened DriverTrace
  import opened Arbitration
  import opened PeripheralInterface

  /**
   * Over a loop-back driver with nothing queued, a blocking write of n bytes
   * followed by a blocking read of n bytes gives back the same bytes in the
   * same order (even when both buffers are the same array).
   */
  method LoopbackRoundTrip(h: Handle, buffer: array<bv8>, destination: array<bv8>, n: nat)
    requires h.driver.loopback && h.driver.rx == []
    requires n <= buffer.Length && n <= destination.Length
    modifies h.driver, destination
    ensures destination[..n] == old(buffer[..n])
    ensures h.driver.rx == []
    ensures h.driver.calls == old(h.driver.calls) + WriteTrace(old(buffer[..n])) + ReadTrace(old(buffer[..n]))
  {
    ghost var sent := buffer[..n];
    h.WriteBlocking(buffer, n);
    assert h.driver.rx == sent;
    h.ReadBlocking(destination, n);
    DeliveredQueue(sent, h.driver.idle);
  }

  /** The JEDEC "read identification" command of serial flash chips. */
  const ReadIdCommand: bv8 := 0x9F

  /**
   * A flash chip configured with clock divider 64, mode 0 and idle level high
   * answers the command byte with its three identification bytes; the
   * interface layer hands them over unchanged and the bus is free afterwards.
   */
  method ReadFlashId(id: seq<bv8>) returns (selected: Status, released: Status, result: seq<bv8>)
    requires |id| == 3
    ensures selected == Ok && released == Ok
    ensures result == id
  {
    var flash := new Driver(false, 0xFF, id);
    var h := new Handle(flash);
    // pin 4, SPI_CLOCK_RATE_DIVIDER_64, SPI_DATA_ORDER_MSB_FIRST, SPI_IDLE_SIGNAL_HIGH, SPI_MODE_0
    var stored := DecodeSlave(RawSpiSlave(4, 64, 0, 1, 0));
    var chip := new Peripheral(stored.value);
    selected := h.SelectPeripheral(chip);
    var command := new bv8[1];
    command[0] := ReadIdCommand;
    h.WriteBlocking(command, 1);
    var answer := new bv8[3];
    h.ReadBlocking(answer, 3);
    DeliveredQueue(id, flash.idle);
    result := answer[..];
    released := h.DeselectPeripheral(chip);
  }

  /**
   * Two devices contending for one bus: while `a` holds it, `b` can neither
   * take it nor release it, `a` keeps it, and once `a` has released it `b`
   * can take it.
   */
  method Contention(a: Peripheral, b: Peripheral) returns (statuses: seq<Status>, owner: MutexState)
    requires a != b
    ensures statuses == [Ok, Busy, Busy, Ok, Ok]
    ensures owner == Locked(b)
  {
    var driver := new Driver(false, 0xFF, []);
    var h := new Handle(driver);
    var s1 := h.SelectPeripheral(a);
    var s2 := h.SelectPeripheral(b);
    assert h.mutex == Locked(a);
    var s3 := h.DeselectPeripheral(b);
    var s4 := h.DeselectPeripheral(a);
    var s5 := h.SelectPeripheral(b);
    statuses := [s1, s2, s3, s4, s5];
    owner := h.mutex;
  }
}
