/**
 * The generic dispatch layer of a peripheral interface (PeripheralInterface.c).
 * A `Handle` is the interface object the application holds: it carries the
 * bus mutex and the driver its dispatch table points to. Every entry point
 * of the layer is a method of `Handle`; it either forwards to the driver,
 * loops over single-byte driver calls, or arbitrates the bus through the
 * mutex before calling the driver.
 */
module PeripheralInterface {
  import opened SpiTypes
  import opened Mutex
  import opened DriverTrace
  import opened Arbitration

  /**
   * The concrete driver behind the dispatch table, reduced to what the
   * dispatch layer can observe. Its implementation is not part of this model;
   * this stand-in records every call it receives in `calls` and answers
   * single-byte reads from the bytes the selected device has queued (`rx`),
   * the line's `idle` value once the queue is empty. A loop-back driver queues
   * every byte it writes.
   */
  class Driver {
    ghost var calls: seq<Call>
    var rx: seq<bv8>
    const loopback: bool
    const idle: bv8

    constructor (loopback: bool, idle: bv8, rx: seq<bv8>)
      ensures this.loopback == loopback && this.idle == idle && this.rx == rx
      ensures calls == []
    {
      this.loopback := loopback;
      this.idle := idle;
      this.rx := rx;
      calls := [];
    }

    method WriteByteBlocking(b: bv8)
      modifies this
      ensures calls == old(calls) + [WriteByte(b)]
      ensures rx == if loopback then old(rx) + [b] else old(rx)
    {
      calls := calls + [WriteByte(b)];
      if loopback {
        rx := rx + [b];
      }
    }

    method ReadByteBlocking() returns (b: bv8)
      modifies this
      ensures b == NextByte(old(rx), idle) && rx == Shift(old(rx))
      ensures calls == old(calls) + [ReadByte(b)]
    {
      b := NextByte(rx, idle);
      rx := Shift(rx);
      calls := calls + [ReadByte(b)];
    }

    /** Drives the device's chip-select active; `self` is the handle, as the dispatch table passes it. */
    method SelectPeripheral(self: Handle, device: Peripheral)
      modifies this
      ensures calls == old(calls) + [SelectDevice(device, self.mutex)]
      ensures rx == old(rx)
    {
      calls := calls + [SelectDevice(device, self.mutex)];
    }

    method DeselectPeripheral(self: Handle, device: Peripheral)
      modifies this
      ensures calls == old(calls) + [DeselectDevice(device, self.mutex)]
      ensures rx == old(rx)
    {
      calls := calls + [DeselectDevice(device, self.mutex)];
    }

    method WriteNonBlocking(context: NonBlockingWriteContext)
      modifies this
      ensures calls == old(calls) + [Call.WriteNonBlocking(context)]
      ensures rx == old(rx)
    {
      calls := calls + [Call.WriteNonBlocking(context)];
    }

    method ReadNonBlocking(destination: array<bv8>, length: uint16)
      modifies this
      ensures calls == old(calls) + [Call.ReadNonBlocking(destination, length)]
      ensures rx == old(rx)
    {
      calls := calls + [Call.ReadNonBlocking(destination, length)];
    }

    method HandleWriteInterrupt()
      modifies this
      ensures calls == old(calls) + [Call.HandleWriteInterrupt]
      ensures rx == old(rx)
    {
      calls := calls + [Call.HandleWriteInterrupt];
    }

    method HandleReadInterrupt()
      modifies this
      ensures calls == old(calls) + [Call.HandleReadInterrupt]
      ensures rx == old(rx)
    {
      calls := calls + [Call.HandleReadInterrupt];
    }
  }

  class Handle {
    var mutex: MutexState
    const driver: Driver

    /** The devices the driver has selected are exactly the holders of the mutex. */
    ghost predicate Valid()
      reads this, driver
    {
      Selected(driver.calls) == Holders(mutex)
    }

    constructor (driver: Driver)
      requires Selected(driver.calls) == {}
      ensures this.driver == driver && mutex == Unlocked
      ensures Valid()
    {
      this.driver := driver;
      mutex := Unlocked;
    }

    /** Sends `buffer[0..size)` with one blocking single-byte driver write per byte, in order. */
    method WriteBlocking(buffer: array<bv8>, size: nat)
      requires size <= buffer.Length
      modifies driver
      ensures driver.calls == old(driver.calls) + WriteTrace(buffer[..size])
      ensures driver.rx == if driver.loopback then old(driver.rx) + buffer[..size] else old(driver.rx)
      ensures Selected(driver.calls) == Selected(old(driver.calls))
      ensures old(Valid()) ==> Valid()
    {
      var p, n := 0, size;
      while n > 0
        invariant p + n == size
        invariant driver.calls == old(driver.calls) + WriteTrace(buffer[..p])
        invariant driver.rx == if driver.loopback then old(driver.rx) + buffer[..p] else old(driver.rx)
      {
        driver.WriteByteBlocking(buffer[p]);
        assert WriteTrace([buffer[p]]) == [WriteByte(buffer[p])];
        WriteTraceAppend(buffer[..p], [buffer[p]]);
        assert buffer[..p + 1] == buffer[..p] + [buffer[p]];
        p, n := p + 1, n - 1;
      }
      SelectedIgnoresWrites(old(driver.calls), buffer[..size]);
    }

    method WriteNonBlocking(context: NonBlockingWriteContext)
      modifies driver
      ensures driver.calls == old(driver.calls) + [Call.WriteNonBlocking(context)]
      ensures driver.rx == old(driver.rx)
      ensures Selected(driver.calls) == Selected(old(driver.calls))
      ensures old(Valid()) ==> Valid()
    {
      SelectedAppend(driver.calls, Call.WriteNonBlocking(context));
      driver.WriteNonBlocking(context);
    }

    /**
     * Takes the bus for `device`: the mutex is locked first, and the driver
     * selects the device only once the lock is held. A mutex failure is
     * reported as `Busy` and the driver is not called.
     */
    method SelectPeripheral(device: Peripheral) returns (status: Status)
      requires Valid()
      modifies this, driver
      ensures Valid()
      ensures var o := SelectOutcome(old(mutex), device);
              status == o.status && mutex == o.mutex && driver.calls == old(driver.calls) + o.calls
      ensures driver.rx == old(driver.rx)
    {
      StepKeepsSelectionWithHolder(driver.calls, mutex, SelectRequest(device));
      var locked := Lock(mutex, device);
      if locked.None? {
        return Busy;
      }
      mutex := locked.value;
      driver.SelectPeripheral(this, device);
      status := Ok;
    }

    /**
     * Releases the bus held by `device`: the mutex is unlocked first and the
     * driver deselects the device afterwards. A mutex failure, such as a
     * device that does not hold the bus, is reported as `Busy` and the
     * driver is not called.
     */
    method DeselectPeripheral(device: Peripheral) returns (status: Status)
      requires Valid()
      modifies this, driver
      ensures Valid()
      ensures var o := DeselectOutcome(old(mutex), device);
              status == o.status && mutex == o.mutex && driver.calls == old(driver.calls) + o.calls
      ensures driver.rx == old(driver.rx)
    {
      StepKeepsSelectionWithHolder(driver.calls, mutex, DeselectRequest(device));
      var unlocked := Unlock(mutex, device);
      if unlocked.None? {
        return Busy;
      }
      mutex := unlocked.value;
      driver.DeselectPeripheral(this, device);
      status := Ok;
    }

    /**
     * Fills `destination[0..size)` with one blocking single-byte driver read
     * per cell, the i-th byte read going to cell i; cells from `size` on are
     * left alone.
     */
    method ReadBlocking(destination: array<bv8>, size: nat)
      requires size <= destination.Length
      modifies driver, destination
      ensures driver.calls == old(driver.calls) + ReadTrace(destination[..size])
      ensures destination[..size] == Delivered(old(driver.rx), driver.idle, size)
      ensures destination[size..] == old(destination[size..])
      ensures driver.rx == Remaining(old(driver.rx), size)
      ensures Selected(driver.calls) == Selected(old(driver.calls))
      ensures old(Valid()) ==> Valid()
    {
      ghost var wasValid, calls0, rx0 := Valid(), driver.calls, driver.rx;
      var p, n := 0, size;
      while n > 0
        invariant 0 <= p <= size && p + n == size
        invariant destination[..p] == Delivered(rx0, driver.idle, p)
        invariant forall k :: p <= k < destination.Length ==> destination[k] == old(destination[k])
        invariant driver.rx == Remaining(rx0, p)
        invariant driver.calls == calls0 + ReadTrace(destination[..p])
      {
        ghost var done := destination[..p];
        var b := driver.ReadByteBlocking();
        destination[p] := b;
        assert destination[..p + 1] == done + [b];
        ReadTraceStep(calls0, done, b);
        DeliveredStep(rx0, driver.idle, p);
        p, n := p + 1, n - 1;
      }
      assert destination[size..] == old(destination[size..]);
      SelectedIgnoresReads(calls0, destination[..size]);
      assert wasValid ==> Valid();
    }

    method ReadNonBlocking(destination: array<bv8>, length: uint16)
      modifies driver
      ensures driver.calls == old(driver.calls) + [Call.ReadNonBlocking(destination, length)]
      ensures driver.rx == old(driver.rx)
      ensures Selected(driver.calls) == Selected(old(driver.calls))
      ensures old(Valid()) ==> Valid()
    {
      SelectedAppend(driver.calls, Call.ReadNonBlocking(destination, length));
      driver.ReadNonBlocking(destination, length);
    }

    method HandleWriteInterrupt()
      modifies driver
      ensures driver.calls == old(driver.calls) + [Call.HandleWriteInterrupt]
      ensures driver.rx == old(driver.rx)
      ensures Selected(driver.calls) == Selected(old(driver.calls))
      ensures old(Valid()) ==> Valid()
    {
      SelectedAppend(driver.calls, Call.HandleWriteInterrupt);
      driver.HandleWriteInterrupt();
    }

    method HandleReadInterrupt()
      modifies driver
      ensures driver.calls == old(driver.calls) + [Call.HandleReadInterrupt]
      ensures driver.rx == old(driver.rx)
      ensures Selected(driver.calls) == Selected(old(driver.calls))
      ensures old(Valid()) ==> Valid()
    {
      SelectedAppend(driver.calls, Call.HandleReadInterrupt);
      driver.HandleReadInterrupt();
    }
  }
}
