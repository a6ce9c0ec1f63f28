# Peripheral interface dispatch layer, in Dafny

This project models the generic dispatch layer of a hardware-abstraction
library for a shared SPI bus (`src/PeripheralInterface.c`). Application code
holds a peripheral interface handle. Every call goes through this layer
before it reaches the concrete driver that the handle's dispatch table
points to. The layer does three things:

- **Blocking transfers.** `writeBlocking` and `readBlocking` loop over the
  buffer. They make one single-byte driver call per byte.
- **Bus arbitration.** `selectPeripheral` and `deselectPeripheral` lock or
  unlock the handle's mutex, keyed by the device. Only if that succeeds do
  they call the driver's select or deselect. A mutex failure is thrown as
  the busy exception.
- **Forwarders.** The non-blocking transfers and the two interrupt entry
  points pass their arguments to the driver unchanged, exactly once.

Modules:

- `Wrappers`: an `Option` type.
- `SpiTypes`: the slave configuration values and their byte codes, the slave
  descriptor, and `Peripheral`, a device whose identity keys the mutex.
- `Mutex`: the mutex states `Unlocked | Locked(owner)` and the contract the
  layer is assumed to run against. Locking works only on a free mutex.
  Unlocking works only for the owner. Any other call fails and leaves the
  state unchanged. This is an assumption about `lockMutex`/`unlockMutex`,
  not something the model proves.
- `DriverTrace`: what the driver sees. This is the sequence of calls it
  receives (`Call`), the traces of the two blocking loops, and the bytes a
  device returns to single-byte reads. It also has `Selected`, the set of
  devices whose chip-select is active after a trace.
- `Arbitration`: the outcome of one select or deselect as a function of the
  mutex state, with lemmas about sequences of such calls. The main one is the
  bus-sharing invariant: after every call, at most one device is selected,
  and it is the mutex holder.
- `PeripheralInterface`: the class `Handle` (mutex plus driver) with the
  eight entry points as methods, proved against the functions above. It also
  has the class `Driver`, a stand-in for the concrete driver: it records
  every call, serves reads from a queue of device bytes, and as a loop-back
  double queues every byte it writes. The driver's select and deselect get
  the handle, as in the C dispatch table; the other primitives do not (see
  "## Left out"). They record the mutex state at the
  moment of the call, so the trace shows whether the mutex was taken before
  the driver acted.
- `Scenarios`: client code that relies only on the contracts. It covers a
  loop-back round trip, reading a flash chip's three identification bytes
  after the `0x9F` command, and two devices contending for the bus.

Where the code and the library's design description disagree, the model
follows the code:

- `deselectPeripheral` unlocks the mutex first and then calls the driver's
  deselect. The design description gives the opposite order. The trace
  entry `DeselectDevice(d, Unlocked)` records the code's order.
- Releasing a bus the device does not hold is reported with the same busy
  exception as a contended select. The description calls for a distinct
  lock-mismatch error.

## Model

| member | source | states |
|---|---|---|
| `PeripheralInterface.Handle.WriteBlocking` | src/PeripheralInterface.c:4-10 | The driver receives exactly `size` single-byte writes carrying `buffer[0..size)` in order, and nothing else. The buffer is not in the frame, so it is never modified. The mutex and the selection are unchanged, so the handle invariant is kept. |
| `PeripheralInterface.Handle.ReadBlocking` | src/PeripheralInterface.c:47-53 | The driver receives exactly `size` single-byte reads. The byte returned by the i-th read is stored in `destination[i]`. Cells from `size` on are unchanged. The cells hold the bytes the device delivers. The selection is unchanged and the handle invariant is kept. |
| `PeripheralInterface.Handle.WriteNonBlocking` | src/PeripheralInterface.c:12-17 | Exactly one driver call is appended, carrying the same context. The mutex and the selection are unchanged and the handle invariant is kept. |
| `PeripheralInterface.Handle.ReadNonBlocking` | src/PeripheralInterface.c:55-59 | Exactly one driver call is appended, carrying the same destination and the same 16-bit length. The mutex and the selection are unchanged and the handle invariant is kept. |
| `PeripheralInterface.Handle.HandleWriteInterrupt` | src/PeripheralInterface.c:61-65 | Exactly one write-interrupt call reaches the driver. Nothing else in the model changes and the handle invariant is kept. |
| `PeripheralInterface.Handle.HandleReadInterrupt` | src/PeripheralInterface.c:67-71 | Exactly one read-interrupt call reaches the driver. Nothing else in the model changes and the handle invariant is kept. |
| `PeripheralInterface.Handle.SelectPeripheral` | src/PeripheralInterface.c:19-31 | The status, new mutex and driver calls are those of `SelectOutcome`. On success the driver's select runs once, for the same device, while that device already holds the mutex. Keeps the invariant that selected devices equal mutex holders. |
| `PeripheralInterface.Handle.DeselectPeripheral` | src/PeripheralInterface.c:33-45 | The status, new mutex and driver calls are those of `DeselectOutcome`. On success the driver's deselect runs once, for the same device, after the mutex is released. Keeps the same invariant. |
| `Arbitration.SelectOutcome` | src/PeripheralInterface.c:22-30 | Ok exactly when the mutex was free. Then the mutex belongs to the device and one select call, made under the lock, is emitted. Otherwise the status is Busy, the mutex is unchanged and no driver call is made. |
| `Arbitration.DeselectOutcome` | src/PeripheralInterface.c:36-44 | Ok exactly when the device held the mutex. Then the mutex is free and one deselect call, made after the unlock, is emitted. Otherwise the status is Busy, the mutex is unchanged and no driver call is made. |
| `Arbitration.ContendedSelectIsBusy` | src/PeripheralInterface.c:22-30 | A select while another select holds the bus is Busy, makes no driver call, and the first device keeps the bus. |
| `Arbitration.ReleasedBusIsReusable` | src/PeripheralInterface.c:19-45 | Select a, deselect a leaves the mutex free, and a following select by any device succeeds. |
| `Arbitration.UnmatchedDeselectIsBusy` | src/PeripheralInterface.c:36-44 | A deselect by a device that does not hold the bus is Busy, with no driver call and no state change. |
| `Arbitration.RunKeepsSelectionWithHolder` | src/PeripheralInterface.c:19-45 | Over any sequence of selects and deselects, the set of selected devices stays equal to the set of mutex holders. |
| `Arbitration.BusIsExclusive` | src/PeripheralInterface.c:19-45 | Starting from a free bus, after every prefix of any sequence of arbitration calls, at most one device is selected, and it is the mutex holder. |
| `Arbitration.RunOrdersMutexAndDriver` | src/PeripheralInterface.c:19-45 | In every run, each driver select happens while its device holds the mutex, and each driver deselect happens after the mutex is free. |
| `DriverTrace.WriteTraceAt` | src/PeripheralInterface.c:7-9 | A blocking write of n bytes makes exactly n driver calls. Call i is the single-byte write of byte i. n = 0 makes none. |
| `DriverTrace.ReadTraceAt` | src/PeripheralInterface.c:49-52 | A blocking read of n bytes makes exactly n driver calls. Call i is a single-byte read that returned byte i. |
| `DriverTrace.WriteTraceCarriesBytes` | src/PeripheralInterface.c:7-9 | The bytes a blocking write puts on the bus are exactly the buffer's bytes, in order. |
| `DriverTrace.SelectedIgnoresWrites` | src/PeripheralInterface.c:7-9 | A blocking write leaves the set of selected devices unchanged. |
| `DriverTrace.SelectedIgnoresReads` | src/PeripheralInterface.c:49-52 | A blocking read leaves the set of selected devices unchanged. |
| `DriverTrace.Delivered` | src/PeripheralInterface.c:51 | n successive single-byte reads deliver n bytes. Byte i is the device's i-th queued byte, or the idle value once the queue is exhausted. |
| `DriverTrace.DeliveredQueue` | src/PeripheralInterface.c:49-52 | A device whose queue holds q answers `\|q\|` reads with exactly q and is left empty. The queue is first in, first out. |
| `Scenarios.LoopbackRoundTrip` | src/PeripheralInterface.c:4-53 | Over an empty loop-back driver, a blocking write of n bytes followed by a blocking read of n bytes gives back the same n bytes in order. |
| `Scenarios.ReadFlashId` | src/PeripheralInterface.c:4-53 | Select a flash chip (divider 64, mode 0, idle high), write `0x9F`, read 3 bytes, deselect. Both arbitration calls succeed and the three identification bytes arrive unchanged. |
| `Scenarios.Contention` | src/PeripheralInterface.c:19-45 | While a holds the bus, b's select and b's deselect are both Busy. After a releases the bus, b's select succeeds and b owns the bus. |
| `SpiTypes.DecodeDataOrder` | PeripheralInterface/PeripheralSPIImpl.h:68-72 | Mirrors the enum's value set: a stored data-order byte names a setting exactly when it is 0 or 1, and the decoded setting has that code. |
| `SpiTypes.DecodeClockRateDivider` | PeripheralInterface/PeripheralSPIImpl.h:74-82 | Mirrors the enum's value set: a stored divider byte names a setting exactly when it is 4, 8, 16, 32, 64 or 128, and the decoded setting has that code. |
| `SpiTypes.DecodeSpiMode` | PeripheralInterface/PeripheralSPIImpl.h:84-90 | Mirrors the enum's value set: a stored mode byte names a setting exactly when it is below 4, and the decoded setting has that code. |
| `SpiTypes.DecodeIdleSignal` | PeripheralInterface/PeripheralSPIImpl.h:92-96 | Mirrors the enum's value set: a stored idle-level byte names a setting exactly when it is 0 or 1, and the decoded setting has that code. |
| `SpiTypes.CodesRoundTrip` | PeripheralInterface/PeripheralSPIImpl.h:68-96 | Decoding the code of any setting gives back that setting. |
| `SpiTypes.DecodeSlave` | PeripheralInterface/PeripheralSPIImpl.h:102-119 | A descriptor stored as the struct's `uint8_t` fields reads back exactly when every setting field holds one of its enum's codes, and storing the result gives back the same fields. The flash scenario builds its device this way. |
| `SpiTypes.SlaveRoundTrip` | PeripheralInterface/PeripheralSPIImpl.h:102-119 | Every descriptor survives being stored as raw fields and read back. |

## Left out

- The mutex's implementation (`lockMutex`/`unlockMutex`) is not part of this model. Module `Mutex` states the assumed contract as two functions.
- The setjmp/longjmp mechanics of the exception library are not modelled. A thrown busy exception is the result `Busy`; success is `Ok`.
- Driver primitives are assumed never to change the handle's mutex, directly or through a completion callback. In C every primitive gets the whole handle (`self`), so a real driver could. In the model only the driver's select and deselect see the handle, and they only read its mutex. The six other primitives get no handle. The contracts of the entry points therefore describe only the dispatch layer's own code: "the mutex and the selection are unchanged" and "the handle invariant is kept" hold under this assumption.
- The decoding functions in `SpiTypes` model no function of the source. The header only declares the enum value sets, and the shown code never decodes a stored byte. They mirror those value sets so that a descriptor can be built from its stored fields.
- The concrete SPI driver's register reads and writes, the bus configuration (`SPIConfig`) and the slave's chip-select port registers are memory-mapped I/O. The model leaves them out. `Driver` is a stand-in that only records calls and serves bytes.
- The interrupt handlers' draining of the transfer state (`InterruptData`) and the completion callbacks are left out. Their implementation is not shown; only the forwarding call is modelled.
- The sizing query and the constructor of the SPI driver (`getADTSize`, `createNew`) have no implementation in the shown source. `Handle`'s constructor only sets up a free mutex over a driver with nothing selected.
- The type `PeripheralInterface_NonBlockingWriteContext` is not shown. It is modelled as a record of source buffer, length and callback token. The layer passes it on without looking inside.
- A driver call that itself throws is not modelled. Its exception would propagate through the layer unchanged.
- Concurrency between mainline and interrupt context, and the hand-off of buffer ownership, are left out. The atomicity they rely on is a platform guarantee.
- `size_t` is modelled as an unbounded natural. The buffer's length bounds it, so the loops never wrap.
- In-flight transfers at deselect are left out. The source defines no policy for a non-blocking transfer still running when the device is deselected.
