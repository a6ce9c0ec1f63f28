/**
 * The bus mutex of a peripheral interface handle. Its implementation
 * (`lockMutex`/`unlockMutex`) is not part of this model: the two functions
 * below are the contract the interface layer is ASSUMED to run against, with
 * `None` standing for the exception the mutex raises.
 */
module Mutex {
  import opened Wrappers
  import opened SpiTypes

  datatype MutexState = Unlocked | Locked(owner: Peripheral)

  /** Locking succeeds only on a free mutex, which then belongs to `device`. */
  function Lock(m: MutexState, device: Peripheral): Option<MutexState>
  {
    if m.Unlocked? then Some(Locked(device)) else None
  }

  /** Unlocking succeeds only for the device that holds the mutex. */
  function Unlock(m: MutexState, device: Peripheral): Option<MutexState>
  {
    if m == Locked(device) then Some(Unlocked) else None
  }

  /** The devices that hold the mutex: none, or exactly its owner. */
  function Holders(m: MutexState): (s: set<Peripheral>)
    ensures |s| <= 1
    ensures s == {} <==> m.Unlocked?
    ensures m.Locked? ==> m.owner in s
  {
    match m
    case Unlocked => {}
    case Locked(d) => {d}
  }
}
