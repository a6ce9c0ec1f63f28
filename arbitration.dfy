/**
 * Bus arbitration as done by `selectPeripheral` and `deselectPeripheral`:
 * the mutex is locked (unlocked) first, a failure of the mutex becomes the
 * busy exception, and only on success is the driver's select (deselect) run.
 * These functions give the outcome of one call; the handle's methods are
 * proved against them, and the lemmas below state what sequences of calls do.
 */
module Arbitration {
  import opened Wrappers
  import opened SpiTypes
  import opened Mutex
  import opened DriverTrace

  /** `Busy` stands for `PERIPHERALINTERFACE_BUSY_EXCEPTION` being thrown. */
  datatype Status = Ok | Busy

  /** The result of one arbitration call: its status, the new mutex, the driver calls it made. */
  datatype Outcome = Outcome(status: Status, mutex: MutexState, calls: seq<Call>)

  function SelectOutcome(m: MutexState, device: Peripheral): (o: Outcome)
    ensures o.status == Ok <==> m.Unlocked?
    ensures o.status == Ok ==> o.mutex == Locked(device) && o.calls == [SelectDevice(device, Locked(device))]
    ensures o.status == Busy ==> o.mutex == m && o.calls == []
  {
    match Lock(m, device)
    case Some(held) => Outcome(Ok, held, [SelectDevice(device, held)])
    case None => Outcome(Busy, m, [])
  }

  function DeselectOutcome(m: MutexState, device: Peripheral): (o: Outcome)
    ensures o.status == Ok <==> m == Locked(device)
    ensures o.status == Ok ==> o.mutex == Unlocked && o.calls == [DeselectDevice(device, Unlocked)]
    ensures o.status == Busy ==> o.mutex == m && o.calls == []
  {
    match Unlock(m, device)
    case Some(free) => Outcome(Ok, free, [DeselectDevice(device, free)])
    case None => Outcome(Busy, m, [])
  }

  /** A second device asking for a bus that is held is refused, and the holder keeps it. */
  lemma ContendedSelectIsBusy(a: Peripheral, b: Peripheral)
    ensures SelectOutcome(SelectOutcome(Unlocked, a).mutex, b) == Outcome(Busy, Locked(a), [])
  {
  }

  /** After a matched release the bus can be taken by any device. */
  lemma ReleasedBusIsReusable(a: Peripheral, b: Peripheral)
    ensures var held := SelectOutcome(Unlocked, a).mutex;
            var free := DeselectOutcome(held, a).mutex;
            free == Unlocked && SelectOutcome(free, b).status == Ok
  {
  }

  /**
   * Releasing a bus one does not hold is refused with the busy exception
   * (not a distinct mismatch error) and the driver is not called.
   */
  lemma UnmatchedDeselectIsBusy(m: MutexState, device: Peripheral)
    requires m != Locked(device)
    ensures DeselectOutcome(m, device) == Outcome(Busy, m, [])
  {
  }

  /** An arbitration call made by application code. */
  datatype Request = SelectRequest(device: Peripheral) | DeselectRequest(device: Peripheral)

  function Step(m: MutexState, r: Request): Outcome
  {
    match r
    case SelectRequest(d) => SelectOutcome(m, d)
    case DeselectRequest(d) => DeselectOutcome(m, d)
  }

  /** The final mutex and the driver calls of a sequence of arbitration calls from mutex state `m`. */
  function Run(m: MutexState, reqs: seq<Request>): (MutexState, seq<Call>)
    decreases |reqs|
  {
    if reqs == [] then (m, [])
    else
      var o := Step(m, reqs[0]);
      var rest := Run(o.mutex, reqs[1..]);
      (rest.0, o.calls + rest.1)
  }

  /** One arbitration call keeps "the selected devices are the mutex holders". */
  lemma StepKeepsSelectionWithHolder(prefix: seq<Call>, m: MutexState, r: Request)
    requires Selected(prefix) == Holders(m)
    ensures Selected(prefix + Step(m, r).calls) == Holders(Step(m, r).mutex)
  {
    var o := Step(m, r);
    if o.calls == [] {
      assert prefix + o.calls == prefix;
    } else {
      SelectedAppend(prefix, o.calls[0]);
    }
  }

  lemma {:induction false} RunKeepsSelectionWithHolder(prefix: seq<Call>, m: MutexState, reqs: seq<Request>)
    requires Selected(prefix) == Holders(m)
    ensures Selected(prefix + Run(m, reqs).1) == Holders(Run(m, reqs).0)
    decreases |reqs|
  {
    if reqs == [] {
      assert prefix + Run(m, reqs).1 == prefix;
    } else {
      var o := Step(m, reqs[0]);
      StepKeepsSelectionWithHolder(prefix, m, reqs[0]);
      RunKeepsSelectionWithHolder(prefix + o.calls, o.mutex, reqs[1..]);
      assert prefix + Run(m, reqs).1 == (prefix + o.calls) + Run(o.mutex, reqs[1..]).1;
    }
  }

  /**
   * The bus-sharing invariant: starting from a free bus, after every prefix of
   * any sequence of select and deselect calls the driver has at most one
   * device selected, and that device is the one holding the mutex.
   */
  lemma BusIsExclusive(reqs: seq<Request>)
    ensures forall j :: 0 <= j <= |reqs| ==>
      Selected(Run(Unlocked, reqs[..j]).1) == Holders(Run(Unlocked, reqs[..j]).0) &&
      |Selected(Run(Unlocked, reqs[..j]).1)| <= 1
  {
    forall j | 0 <= j <= |reqs|
      ensures Selected(Run(Unlocked, reqs[..j]).1) == Holders(Run(Unlocked, reqs[..j]).0)
    {
      RunKeepsSelectionWithHolder([], Unlocked, reqs[..j]);
      assert [] + Run(Unlocked, reqs[..j]).1 == Run(Unlocked, reqs[..j]).1;
    }
  }

  /** Every driver select of a run happens while its device holds the mutex. */
  predicate SelectsUnderLock(calls: seq<Call>)
  {
    forall i :: 0 <= i < |calls| && calls[i].SelectDevice? ==>
      calls[i].mutexAtCall == Locked(calls[i].device)
  }

  /** Every driver deselect of a run happens after the mutex was released. */
  predicate DeselectsAfterUnlock(calls: seq<Call>)
  {
    forall i :: 0 <= i < |calls| && calls[i].DeselectDevice? ==> calls[i].mutexAtCall == Unlocked
  }

  lemma {:induction false} RunOrdersMutexAndDriver(m: MutexState, reqs: seq<Request>)
    ensures SelectsUnderLock(Run(m, reqs).1)
    ensures DeselectsAfterUnlock(Run(m, reqs).1)
    decreases |reqs|
  {
    if reqs != [] {
      var o := Step(m, reqs[0]);
      RunOrdersMutexAndDriver(o.mutex, reqs[1..]);
      var rest := Run(o.mutex, reqs[1..]).1;
      assert Run(m, reqs).1 == o.calls + rest;
      forall i | 0 <= i < |o.calls + rest|
        ensures (o.calls + rest)[i] == if i < |o.calls| then o.calls[i] else rest[i - |o.calls|]
      {
      }
    }
  }
}
