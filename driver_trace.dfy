/**
 * What a concrete driver observes of the interface layer: the calls made
 * through the handle's dispatch table, in order, and the bytes a device
 * shifts out when it is read one byte at a time.
 */
module DriverTrace {
  import opened SpiTypes
  import opened Mutex

  /** The source buffer, length and completion callback of a non-blocking write. */
  datatype NonBlockingWriteContext = NonBlockingWriteContext(output: array<bv8>, length: nat, callback: nat)

  /** The `length` parameter of a non-blocking read is a `uint16_t`. */
  newtype uint16 = x: int | 0 <= x < 0x1_0000

  /**
   * One call into the driver. `ReadByte` records the byte the driver returned.
   * A select or deselect records the state the handle's mutex was in when the
   * driver was invoked, which is what the driver could observe through `self`.
   */
  datatype Call =
    | WriteByte(sent: bv8)
    | ReadByte(received: bv8)
    | SelectDevice(device: Peripheral, mutexAtCall: MutexState)
    | DeselectDevice(device: Peripheral, mutexAtCall: MutexState)
    | WriteNonBlocking(context: NonBlockingWriteContext)
    | ReadNonBlocking(destination: array<bv8>, length: uint16)
    | HandleWriteInterrupt
    | HandleReadInterrupt

  /** The calls a blocking write of `s` makes: one `WriteByte` per byte, in buffer order. */
  function WriteTrace(s: seq<bv8>): seq<Call>
  {
    if s == [] then [] else [WriteByte(s[0])] + WriteTrace(s[1..])
  }

  /** The calls a blocking read makes when the driver returns the bytes `s`, in order. */
  function ReadTrace(s: seq<bv8>): seq<Call>
  {
    if s == [] then [] else [ReadByte(s[0])] + ReadTrace(s[1..])
  }

  /** The bytes a trace put on the bus, i.e. the arguments of its `WriteByte` calls. */
  function BytesWritten(calls: seq<Call>): seq<bv8>
  {
    if calls == [] then []
    else (if calls[0].WriteByte? then [calls[0].sent] else []) + BytesWritten(calls[1..])
  }

  lemma {:induction false} WriteTraceAt(s: seq<bv8>)
    ensures |WriteTrace(s)| == |s|
    ensures forall i :: 0 <= i < |s| ==> WriteTrace(s)[i] == WriteByte(s[i])
  {
    if s != [] {
      WriteTraceAt(s[1..]);
    }
  }

  lemma {:induction false} ReadTraceAt(s: seq<bv8>)
    ensures |ReadTrace(s)| == |s|
    ensures forall i :: 0 <= i < |s| ==> ReadTrace(s)[i] == ReadByte(s[i])
  {
    if s != [] {
      ReadTraceAt(s[1..]);
    }
  }

  lemma {:induction false} WriteTraceAppend(a: seq<bv8>, b: seq<bv8>)
    ensures WriteTrace(a + b) == WriteTrace(a) + WriteTrace(b)
  {
    if a != [] {
      assert (a + b)[1..] == a[1..] + b;
      WriteTraceAppend(a[1..], b);
    } else {
      assert a + b == b;
    }
  }

  lemma {:induction false} ReadTraceAppend(a: seq<bv8>, b: seq<bv8>)
    ensures ReadTrace(a + b) == ReadTrace(a) + ReadTrace(b)
  {
    if a != [] {
      assert (a + b)[1..] == a[1..] + b;
      ReadTraceAppend(a[1..], b);
    } else {
      assert a + b == b;
    }
  }

  /** One more single-byte read extends a read trace by the call that returned that byte. */
  lemma ReadTraceStep(calls: seq<Call>, done: seq<bv8>, b: bv8)
    ensures calls + ReadTrace(done) + [ReadByte(b)] == calls + ReadTrace(done + [b])
  {
    assert ReadTrace([b]) == [ReadByte(b)];
    ReadTraceAppend(done, [b]);
  }

  /** Exactly the bytes of a blocking write reach the bus, in order. */
  lemma {:induction false} WriteTraceCarriesBytes(s: seq<bv8>)
    ensures BytesWritten(WriteTrace(s)) == s
  {
    if s != [] {
      WriteTraceCarriesBytes(s[1..]);
    }
  }

  /**
   * The devices whose chip-select a trace leaves driven active: a select adds
   * its device, a deselect removes it, every other call leaves the set alone.
   */
  function Selected(calls: seq<Call>): set<Peripheral>
  {
    if calls == [] then {}
    else
      SelectionAfter(Selected(calls[..|calls| - 1]), calls[|calls| - 1])
  }

  /** How one call changes the set of selected devices. */
  function SelectionAfter(before: set<Peripheral>, c: Call): set<Peripheral>
  {
    if c.SelectDevice? then before + {c.device}
    else if c.DeselectDevice? then before - {c.device}
    else before
  }

  lemma SelectedAppend(calls: seq<Call>, c: Call)
    ensures Selected(calls + [c]) == SelectionAfter(Selected(calls), c)
  {
    assert (calls + [c])[..|calls|] == calls;
  }

  /** A blocking write does not change which device is selected. */
  lemma {:induction false} SelectedIgnoresWrites(calls: seq<Call>, s: seq<bv8>)
    ensures Selected(calls + WriteTrace(s)) == Selected(calls)
    decreases |s|
  {
    if s == [] {
      assert calls + WriteTrace(s) == calls;
    } else {
      var next := calls + [WriteByte(s[0])];
      assert WriteTrace(s) == [WriteByte(s[0])] + WriteTrace(s[1..]);
      assert calls + WriteTrace(s) == next + WriteTrace(s[1..]);
      SelectedAppend(calls, WriteByte(s[0]));
      SelectedIgnoresWrites(next, s[1..]);
    }
  }

  /** A blocking read does not change which device is selected. */
  lemma {:induction false} SelectedIgnoresReads(calls: seq<Call>, s: seq<bv8>)
    ensures Selected(calls + ReadTrace(s)) == Selected(calls)
    decreases |s|
  {
    if s == [] {
      assert calls + ReadTrace(s) == calls;
    } else {
      var next := calls + [ReadByte(s[0])];
      assert ReadTrace(s) == [ReadByte(s[0])] + ReadTrace(s[1..]);
      assert calls + ReadTrace(s) == next + ReadTrace(s[1..]);
      SelectedAppend(calls, ReadByte(s[0]));
      SelectedIgnoresReads(next, s[1..]);
    }
  }

  /** The byte a device shifts out next: the head of its queue, or `idle` when the queue is empty. */
  function NextByte(rx: seq<bv8>, idle: bv8): bv8
  {
    if rx == [] then idle else rx[0]
  }

  /** The device's queue after one byte has been read. */
  function Shift(rx: seq<bv8>): seq<bv8>
  {
    if rx == [] then [] else rx[1..]
  }

  /** The `n` bytes a device with queue `rx` delivers to `n` single-byte reads. */
  function Delivered(rx: seq<bv8>, idle: bv8, n: nat): (r: seq<bv8>)
    ensures |r| == n
    ensures forall i :: 0 <= i < n ==> r[i] == if i < |rx| then rx[i] else idle
  {
    if n == 0 then [] else [NextByte(rx, idle)] + Delivered(Shift(rx), idle, n - 1)
  }

  /** The device's queue after `n` single-byte reads. */
  function Remaining(rx: seq<bv8>, n: nat): (r: seq<bv8>)
    ensures n <= |rx| ==> r == rx[n..]
    ensures |rx| <= n ==> r == []
  {
    if n == 0 then rx else Remaining(Shift(rx), n - 1)
  }

  /** Reading one more byte extends what was delivered by the next byte of the remaining queue. */
  lemma DeliveredStep(rx: seq<bv8>, idle: bv8, n: nat)
    ensures Delivered(rx, idle, n + 1) == Delivered(rx, idle, n) + [NextByte(Remaining(rx, n), idle)]
    ensures Remaining(rx, n + 1) == Shift(Remaining(rx, n))
  {
    var a, b := Delivered(rx, idle, n + 1), Delivered(rx, idle, n) + [NextByte(Remaining(rx, n), idle)];
    assert forall i :: 0 <= i < n + 1 ==> a[i] == b[i];
  }

  /**
   * A device whose queue holds `q` delivers exactly `q` to `|q|` reads and is
   * left empty: a loop-back queue is first in, first out.
   */
  lemma DeliveredQueue(q: seq<bv8>, idle: bv8)
    ensures Delivered(q, idle, |q|) == q
    ensures Remaining(q, |q|) == []
  {
    var r := Delivered(q, idle, |q|);
    assert forall i :: 0 <= i < |q| ==> r[i] == q[i];
  }
}
