# Nexus singletons, lock guards and power-event dispatch, in Dafny

This project models three pieces of libsecurity_utilities and proves properties of them. The model is sequential.

- **Nexus access points** (`lib/globalizer.h`, module `Globalizer`). A nexus hands out the single object of a type within a scope. The scopes are everything that reaches one `ModuleNexus`, one thread of a `ThreadNexus`, or every `ProcessNexus` sharing a `Store`. All of them run one state machine, `Step`, over a `Slot`. A slot is zero, holds the in-progress tag (low bit set), or holds a published instance. Each class is proved against `Step`. The lemmas about `Run` (a sequence of calls) give the scope-wide guarantees:
  - an instance is constructed at most once per reset epoch;
  - every access in an epoch returns the same instance;
  - `exists()` stays true until the next reset;
  - constructions and deletions balance.
  
  `ModuleNexus` records its call history, so these lemmas apply to the object directly (`ModuleNexus.OneInstancePerEpoch`).
- **Threading primitives** (`lib/threading.h`, module `Threading`). This covers:
  - the `StLock` and `StSyncLock` guards, with ghost bookkeeping that proves each guard leaves no lock outstanding except the ones it handed over with `release()`;
  - the atomic counter operators;
  - `CountingMutex`'s count;
  - per-thread pointers;
  - the `Mutex::check` error rule;
  - `Thread::Identity` equality.
- **Power-event dispatch** (`lib/powerwatch.cpp`, module `PowerWatch`). The two switches of `IOPowerWatcher::ioCallback` are pure functions. The watcher object keeps an event log, and its invariant says the log is exactly what its deliveries call for.

Instances of the wrapped type are Dafny objects (`Globalizer.Instance`), so "a new, distinct instance" is `fresh`. Foreign results become parameters:
- the `pthread_setspecific` status;
- the port `IORegisterForSystemPower` returns;
- the message type and argument the kernel delivers;
- the calling thread's identity.

The comment at lib/globalizer.h:88 asks whether the object DEFINITELY exists already, which suggests a finished object. The code at lib/globalizer.h:91 answers true for any non-zero word, the in-progress tag included. The model follows the code (`Globalizer.ExistsIncludesInProgress`).

## Model

| member | source | states |
|---|---|---|
| `Threading.Check` | lib/threading.h:132 | a status raises an error exactly when it is non-zero, and the error carries that status |
| `Threading.Identity.Equals` | lib/threading.h:331-332 | two identities compare equal exactly when they are the same thread |
| `Threading.Identity.NotEquals` | lib/threading.h:334-335 | `!=` is true exactly for different threads and is the negation of `==` |
| `Threading.Mutex.constructor` | lib/threading.h:140 | a new mutex has no outstanding lock |
| `Threading.Mutex.Lock` | lib/threading.h:143 | one more lock is outstanding |
| `Threading.Mutex.Unlock` | lib/threading.h:145 | one fewer lock is outstanding |
| `Threading.CountingMutex.constructor` | lib/threading.h:184 | the count starts at 0, so the mutex is idle |
| `Threading.CountingMutex.Count` | lib/threading.h:192 | the count fits an unsigned int |
| `Threading.CountingMutex.IsIdle` | lib/threading.h:193 | idle exactly when `count()` is 0 |
| `Threading.CountingMutex.Enter` | lib/threading.h:187 | adds one to the count, modulo 2^32 |
| `Threading.CountingMutex.Exit` | lib/threading.h:189 | subtracts one from the count, modulo 2^32 |
| `Threading.CountingMutex.Destroy` | lib/threading.h:185 | destruction is only allowed with a count of 0 |
| `Threading.StLock.constructor` | lib/threading.h:217 | locks exactly once and becomes active |
| `Threading.StLock.Adopt` | lib/threading.h:218 | does not lock; active iff `option`, adopting a lock the caller holds |
| `Threading.StLock.IsActive` | lib/threading.h:221 | active exactly when the guard owns one lock beyond its hand-overs less an adopted lock, the one its destructor will release |
| `Threading.StLock.Lock` | lib/threading.h:222 | locks only when inactive, and ends active, so a second call does nothing |
| `Threading.StLock.Unlock` | lib/threading.h:223 | unlocks only when active, and ends inactive, so a second call does nothing |
| `Threading.StLock.Release` | lib/threading.h:224 | requires an active guard; deactivates it without unlocking and counts the hand-over |
| `Threading.StLock.Destroy` | lib/threading.h:219 | unlocks iff active; afterwards the guard's own lock balance is its hand-overs less an adopted lock |
| `Threading.EnterCalls` | lib/threading.h:249 | entering drops the released lock first, then takes the taken lock, each with its own operation |
| `Threading.LeaveCalls` | lib/threading.h:250 | leaving drops the taken lock first, then retakes the released lock, each with its own operation |
| `Threading.ConstructorCallsAsWritten` | lib/threading.h:240-242 | the constructor as written makes the same calls as `lock()` except that the first, on the released lock, uses a different operation |
| `Threading.ConstructorAsWrittenMismatch` | lib/threading.h:240-242 | the constructor as written applies a TakeLock operation to the released lock, unlike `lock()` |
| `Threading.StSyncLock.constructor` | lib/threading.h:240-244 | applies the entering calls (corrected, see Findings) and becomes active |
| `Threading.StSyncLock.Adopt` | lib/threading.h:245 | applies no call; active iff `option` |
| `Threading.StSyncLock.IsActive` | lib/threading.h:248 | active exactly when the guard holds the taken lock once beyond its hand-overs less an adopted lock |
| `Threading.StSyncLock.Lock` | lib/threading.h:249 | applies the entering calls only when inactive; ends active |
| `Threading.StSyncLock.Unlock` | lib/threading.h:250 | applies the leaving calls only when active; ends inactive |
| `Threading.StSyncLock.Release` | lib/threading.h:251 | requires an active guard; deactivates it without any call |
| `Threading.StSyncLock.Destroy` | lib/threading.h:246 | leaves iff active; afterwards the taken lock's balance is its hand-overs less an adopted lock, and the released lock's is its opposite |
| `Threading.CounterStep` | lib/threading.h:281-302 | every operator moves the counter by its shift (+1, -1 or `delta`); the result is the new value, except for postfix `++`/`--`, which return the old one |
| `Threading.CounterStepProperties` | lib/threading.h:281-286 | prefix `++`/`--` return the new value, postfix forms the old; each changes the counter by exactly one; `--` undoes `++` |
| `Threading.CounterRunDrift` | lib/threading.h:280-289 | after any sequence of operators the counter is its start plus their total offset |
| `Threading.AtomicCounter.Static` | lib/globalizer.h:70-72 | a static counter starts at zero |
| `Threading.AtomicCounter.constructor` | lib/threading.h:310 | an `AtomicCounter` starts at `init` |
| `Threading.AtomicCounter.Value` | lib/threading.h:278 | reads the counter; the operator contracts below are stated through it |
| `Threading.AtomicCounter.PreIncrement` | lib/threading.h:281 | adds one and returns the new value |
| `Threading.AtomicCounter.PreDecrement` | lib/threading.h:282 | subtracts one and returns the new value |
| `Threading.AtomicCounter.PostIncrement` | lib/threading.h:285 | adds one and returns the old value |
| `Threading.AtomicCounter.PostDecrement` | lib/threading.h:286 | subtracts one and returns the old value |
| `Threading.AtomicCounter.AddAssign` | lib/threading.h:289 | adds `delta` and returns the resulting value |
| `Threading.PerThreadPointer.constructor` | lib/threading.h:98 | every thread's cell starts out NULL |
| `Threading.PerThreadPointer.Get` | lib/threading.h:100 | reads the calling thread's cell; NULL exactly when that thread has stored nothing |
| `Threading.PerThreadPointer.IsSet` | lib/threading.h:99 | true exactly when the calling thread's cell is not NULL |
| `Threading.PerThreadPointer.Assign` | lib/threading.h:76-80 | the error is `Check(status)`; on success `get()` returns what was stored; on failure nothing changes; other threads' cells never change |
| `Globalizer.NexusError.What` | lib/globalizer.h:48-49 | `what()` returns exactly the message the error was built with: the error is rebuilt from it |
| `Globalizer.Step` | lib/globalizer.h:78-101 | an access always leaves an instance published, and constructs exactly when none was (returning the published one otherwise); a reset unpublishes and deletes exactly a published instance; `exists()` changes nothing; published instances change by constructions minus deletions |
| `Globalizer.ConstructionsBalanceDestructions` | lib/globalizer.h:78-101 | over any calls, constructions minus deletions equals the change in published instances |
| `Globalizer.NoResetDestroysNothing` | lib/globalizer.h:95-101 | only reset deletes |
| `Globalizer.AtMostOneConstructionPerEpoch` | lib/globalizer.h:80-85 | between resets at most one construction, and none if an instance was already published |
| `Globalizer.SameInstanceWithinEpoch` | lib/globalizer.h:80-85 | between resets every access returns the instance the slot ends up publishing, which is the already published one if there was one |
| `Globalizer.ExistsHoldsUntilReset` | lib/globalizer.h:89-92 | once the word is non-zero, `exists()` answers true until a reset |
| `Globalizer.ExistsIncludesInProgress` | lib/globalizer.h:80-92 | on the in-progress tag `exists()` is true, yet an access still goes through create |
| `Globalizer.ModuleNexus.OneInstancePerEpoch` | lib/globalizer.h:78-101 | for the object itself: instances constructed equal those deleted plus the published one |
| `Globalizer.ModuleNexus.constructor` | lib/globalizer.h:70-71 | the word starts at zero with nothing constructed or deleted |
| `Globalizer.ModuleNexus.Make` | lib/globalizer.h:104 | `make` yields a new object |
| `Globalizer.ModuleNexus.Create` | lib/globalizer.h:67 | create publishes a new instance in the word |
| `Globalizer.ModuleNexus.Access` | lib/globalizer.h:78-86 | a published instance is returned with no construction; a zero or tagged word leads to exactly one construction of a new instance, which is published and returned |
| `Globalizer.ModuleNexus.Exists` | lib/globalizer.h:89-92 | true exactly when the word is non-zero, in-progress tag included |
| `Globalizer.ModuleNexus.Reset` | lib/globalizer.h:95-101 | deletes a published instance and zeroes the word; a zero or tagged word is untouched |
| `Globalizer.LockedModuleNexus.constructor` | lib/globalizer.h:138-140 | the pointer starts NULL and the lock free |
| `Globalizer.LockedModuleNexus.Access` | lib/globalizer.h:123-134 | constructs only when the pointer is NULL under the lock, returns the one instance, and leaves the lock as it found it |
| `Globalizer.LockedModuleNexus.Reset` | lib/globalizer.h:136 | deletes whatever is held and always nulls the pointer |
| `Globalizer.ThreadNexus.constructor` | lib/globalizer.h:167 | every thread's slot starts empty |
| `Globalizer.ThreadNexus.Access` | lib/globalizer.h:168-175 | a thread's first access stores and returns a new instance, and later ones return it; other threads' slots are untouched; a failed store raises the error and leaves the slot empty |
| `Globalizer.Store.constructor` | lib/globalizer.h:191-194 | a store starts with no object and a free lock |
| `Globalizer.ProcessNexus.constructor` | lib/globalizer.h:201 | the nexus uses the store it was given |
| `Globalizer.ProcessNexus.Access` | lib/globalizer.h:208-220 | constructs only when the store's object is NULL under its lock, returns the store's one object, and leaves the lock as it found it |
| `Globalizer.AccessSharedStore` | lib/globalizer.h:208-220 | two nexus objects sharing a store return the same object, constructed at most once |
| `PowerWatch.Dispatch` | lib/powerwatch.cpp:84-126 | each callback is fired by exactly one message type; nothing is refused; exactly the sleep, power-off and can-sleep/can-power-off queries are allowed |
| `PowerWatch.Acknowledge` | lib/powerwatch.cpp:129-141 | allow sends one allowance and refuse one cancellation, each carrying the port and argument; ignore sends nothing |
| `PowerWatch.Respond` | lib/powerwatch.cpp:79-142 | one message causes at most one callback, which comes first; never a cancellation; the last event is an allowance with the message's argument iff the message expects one |
| `PowerWatch.ReplayCounts` | lib/powerwatch.cpp:84-141 | over any deliveries, callbacks never outnumber messages and allowances equal the messages that expect one |
| `PowerWatch.IOPowerWatcher.Registered` | lib/powerwatch.cpp:63-65 | a registered watcher keeps its kernel port and has done nothing yet |
| `PowerWatch.IOPowerWatcher.Register` | lib/powerwatch.cpp:63-67 | construction fails with EINVAL exactly when no kernel port is returned |
| `PowerWatch.IOPowerWatcher.IoCallback` | lib/powerwatch.cpp:79-142 | appends exactly what `Respond` prescribes and keeps the log equal to the replay of all deliveries |
| `PowerWatch.IOPowerWatcher.Destroy` | lib/powerwatch.cpp:69-73 | deregisters exactly when there is a kernel port |

## Left out

- Real concurrency: compare-and-swap, acquire/release ordering, racing first accesses and waiting for another thread's publication. Every call here runs to completion before the next one starts.
- `Globalizer.ModuleNexus.Create`: the body of `ModuleNexusCommon::create` is in lib/globalizer.cpp, which is not part of this model. It is taken to publish a new instance. From an in-progress word the model constructs, where the real code would wait for the claimant that set the tag.
- The `sync` counter of `ModuleNexusCommon` (lib/globalizer.h:72) is only used inside `create`, which is not part of this model.
- `CleanModuleNexus` destructors (lib/globalizer.h:110-115, 146-150): deletion at process teardown.
- The lock-free fast paths of the mutex `ModuleNexus` and of `ProcessNexus` (lib/globalizer.h:125-129, 211-215) are kept as plain sequential reads; their memory-ordering assumptions are not modelled.
- The `ProcessNexusBase` constructor's identifier-to-store lookup (lib/globalizer.h:189) is not part of this model. A `ProcessNexus` receives its store already resolved. The unused `ProcessNexus::mObject` field is not modelled.
- `new Type` failing, and deleting objects: instances are object identities. A deletion is counted, not performed.
- `Globalizer.ThreadNexus.Access`: when storing the new instance fails, the instance is leaked. The model only says the slot stays empty.
- Debug logging (`secdebug`, `LockingPrimitive` flags) and the type-name lookup used only for logging.
- The pthread bodies of `Mutex`, `Condition`, `Thread`, `ThreadRunner` and `NestingMutex`, plus `Mutex::tryLock`. `Mutex` is reduced to a count of outstanding locks.
- `ThreadStoreSlot` key creation and deletion, and `PerThreadPointer` destruction at thread exit (lib/threading.h:71-72, 106-107).
- `Thread::Identity::current()`: the calling thread's identity is a parameter.
- `CountingMutex::tryEnter`, `finishEnter` and `finishExit`: their bodies are in lib/threading.cpp, which is not part of this model. `Enter` and `Exit` follow the comments at lib/threading.h:187-189.
- `Threading.AtomicCounter`: values are unbounded integers. The width of `Integer` and `AtomicWord`, and overflow at that width, are not modelled.
- IOKit and Mach: registration, deregistration, `IOAllowPowerChange` and `IOCancelPowerChange` are recorded as events. `PortPowerWatcher` (lib/powerwatch.cpp:148-157) is not modelled. The user callbacks are recorded as invoked; what a subclass does in them is not modelled.
- The numeric values of the IOKit message types (from IOMessage.h, which is not part of this model). `PowerWatch.Message` names the eight handled types and lumps every other value into `Unrecognised`.

## Findings

| source | as written | input that shows it | evidently intended | confidence | as-written member | corrected member |
|---|---|---|---|---|---|---|
| lib/threading.h:240-241 | the two-argument `StSyncLock` constructor applies `_unlock`, the TakeLock's unlocking operation, to the released lock | an instantiation whose `_unlock` and `_runlock` differ: with both locks of type `CountingMutex`, `_unlock = &CountingMutex::unlock` and `_runlock = &CountingMutex::exit`, the constructor calls `unlock()` on the released lock where `lock()` (line 249) calls `exit()` on it (`Threading.ConstructorAsWrittenMismatch`) | apply `_runlock` to the released lock, as `lock()` does | low: only matters for such instantiations; not executed | `Threading.ConstructorCallsAsWritten` | `Threading.StSyncLock.constructor` |
