/** The threading primitives of lib/threading.h, reduced to the state they keep
    and the calls they make. The pthread calls underneath (pthread_mutex_*,
    pthread_getspecific, pthread_setspecific, pthread_self, pthread_equal) are
    foreign: their results arrive here as parameters or are left out. */
module Threading {
  import opened Wrappers

  /** The exception UnixError::throwMe raises: a Unix error number. */
  datatype UnixError = UnixError(code: int)

  /** Mutex::check (Condition::check has the same body): a pthread status is
      turned into a UnixError exactly when it is non-zero, and that error
      carries the status unchanged. */
  function Check(err: int): (r: Outcome<UnixError>)
    ensures r.Pass? <==> err == 0
    ensures r.Fail? ==> r.error.code == err
  {
    if err != 0 then Fail(UnixError(err)) else Pass
  }

  /** Thread::Identity wraps an opaque pthread_t; it is modelled as a number,
      and pthread_equal as equality of those numbers. */
  datatype Identity = Identity(ident: nat) {

    /** operator == : two identities compare equal exactly when they name
        the same thread. */
    function Equals(other: Identity): (r: bool)
      ensures r <==> this == other
    {
      ident == other.ident
    }

    /** operator != : the negation of operator ==. */
    function NotEquals(other: Identity): (r: bool)
      ensures r <==> this != other
      ensures r == !Equals(other)
    {
      !Equals(other)
    }
  }

  /** A lock seen only through the calls made on it: `held` is the number of
      lock() calls not yet matched by an unlock(). */
  class Mutex {
    var held: int

    constructor ()
      ensures held == 0
    {
      held := 0;
    }

    method Lock()
      modifies this
      ensures held == old(held) + 1
    {
      held := held + 1;
    }

    method Unlock()
      modifies this
      ensures held == old(held) - 1
    {
      held := held - 1;
    }
  }

  /** One more than the largest `unsigned int`. */
  const UINT_LIMIT: int := 0x1_0000_0000

  /** CountingMutex: a counter married to a Mutex. The counter is an
      `unsigned int`, so it wraps around at UINT_LIMIT. */
  class CountingMutex {
    var count: nat

    ghost predicate Valid()
      reads this
    {
      count < UINT_LIMIT
    }

    constructor ()
      ensures Valid() && count == 0 && IsIdle()
    {
      count := 0;
    }

    function Count(): (n: nat)
      reads this
      requires Valid()
      ensures n < UINT_LIMIT
    {
      count
    }

    /** isIdle(): nobody is inside, which is a count() of zero. */
    predicate IsIdle()
      reads this
      ensures IsIdle() <==> Valid() && Count() == 0
    {
      count == 0
    }

    /** enter(): lock, add one, unlock. */
    method Enter()
      requires Valid()
      modifies this
      ensures Valid() && count == (old(count) + 1) % UINT_LIMIT
    {
      count := (count + 1) % UINT_LIMIT;
    }

    /** exit(): lock, subtract one, unlock. */
    method Exit()
      requires Valid()
      modifies this
      ensures Valid() && count == (old(count) + UINT_LIMIT - 1) % UINT_LIMIT
    {
      count := (count + UINT_LIMIT - 1) % UINT_LIMIT;
    }

    /** The destructor asserts that nobody is inside any more. */
    method Destroy()
      requires Valid() && IsIdle()
      ensures Count() == 0
    {
    }
  }

  /** StLock: a stack-based guard that unlocks on destruction iff it is still
      active. `net` counts this guard's own lock() calls minus its unlock()
      calls; `releases` counts the locks it handed over with release();
      `adopted` records a guard built with option = true, which adopts a lock
      its creator already holds. */
  class StLock {
    const me: Mutex
    var active: bool
    ghost const adopted: bool
    ghost var net: int
    ghost var releases: nat

    /** Every lock this guard took is either still owned (active), handed
        over (released), or paid back an adopted lock. */
    ghost predicate Valid()
      reads this
    {
      net == (if active then 1 else 0) + releases - (if adopted then 1 else 0)
    }

    /** StLock(lck): locks once and becomes active. */
    constructor (lck: Mutex)
      modifies lck
      ensures Valid() && me == lck && active && !adopted && net == 1 && releases == 0
      ensures lck.held == old(lck.held) + 1
    {
      me := lck;
      adopted := false;
      active := true;
      net := 1;
      releases := 0;
      new;
      lck.Lock();
    }

    /** StLock(lck, option): does not lock; active iff option. */
    constructor Adopt(lck: Mutex, option: bool)
      ensures Valid() && me == lck && active == option && adopted == option
      ensures net == 0 && releases == 0
    {
      me := lck;
      adopted := option;
      active := option;
      net := 0;
      releases := 0;
    }

    /** isActive(): the guard still owns a lock its destructor will release,
        beyond what it handed over and what it adopted. */
    predicate IsActive()
      reads this
      ensures Valid() ==> (IsActive() <==> net == releases - (if adopted then 1 else 0) + 1)
    {
      active
    }

    /** lock(): locks only when inactive, so a second call does nothing. */
    method Lock()
      requires Valid()
      modifies this, me
      ensures Valid() && active && releases == old(releases)
      ensures me.held == old(me.held) + (if old(active) then 0 else 1)
      ensures net == old(net) + (if old(active) then 0 else 1)
    {
      if !active {
        me.Lock();
        active := true;
        net := net + 1;
      }
    }

    /** unlock(): unlocks only when active, so a second call does nothing. */
    method Unlock()
      requires Valid()
      modifies this, me
      ensures Valid() && !active && releases == old(releases)
      ensures me.held == old(me.held) - (if old(active) then 1 else 0)
      ensures net == old(net) - (if old(active) then 1 else 0)
    {
      if active {
        me.Unlock();
        active := false;
        net := net - 1;
      }
    }

    /** release(): gives up ownership without unlocking. */
    method Release()
      requires Valid() && active
      modifies this
      ensures Valid() && !active && net == old(net) && releases == old(releases) + 1
    {
      active := false;
      releases := releases + 1;
    }

    /** The destructor: unlocks iff still active. Afterwards the guard's own
        balance is exactly the locks it handed over, less an adopted one. */
    method Destroy()
      requires Valid()
      modifies this, me
      ensures !active && releases == old(releases)
      ensures me.held == old(me.held) - (if old(active) then 1 else 0)
      ensures net == releases - (if adopted then 1 else 0)
    {
      if active {
        me.Unlock();
        net := net - 1;
      }
      active := false;
    }
  }

  /** The two locks an StSyncLock juggles. */
  datatype Side = Taken | Released

  /** The four operations an StSyncLock is instantiated with: `_lock` and
      `_unlock` of the TakeLock, `_rlock` and `_runlock` of the ReleaseLock. */
  datatype LockFn = TakeLockFn | TakeUnlockFn | ReleaseLockFn | ReleaseUnlockFn

  /** One operation applied to one of the two locks. */
  datatype LockCall = LockCall(side: Side, fn: LockFn)

  /** The lock an operation belongs to. */
  function Owner(f: LockFn): Side
  {
    match f
    case TakeLockFn => Taken
    case TakeUnlockFn => Taken
    case ReleaseLockFn => Released
    case ReleaseUnlockFn => Released
  }

  /** +1 for a locking operation, -1 for an unlocking one. */
  function Weight(f: LockFn): int
  {
    match f
    case TakeLockFn => 1
    case ReleaseLockFn => 1
    case TakeUnlockFn => -1
    case ReleaseUnlockFn => -1
  }

  /** Every call applies an operation to the lock it belongs to. */
  predicate WellMatched(calls: seq<LockCall>)
  {
    forall i :: 0 <= i < |calls| ==> Owner(calls[i].fn) == calls[i].side
  }

  /** Locks minus unlocks applied to `side`. */
  function Net(calls: seq<LockCall>, side: Side): int
  {
    if calls == [] then 0
    else
      var last := calls[|calls| - 1];
      Net(calls[..|calls| - 1], side) + (if last.side == side then Weight(last.fn) else 0)
  }

  lemma {:induction false} NetAppend(calls: seq<LockCall>, extra: seq<LockCall>, side: Side)
    ensures Net(calls + extra, side) == Net(calls, side) + Net(extra, side)
    decreases |extra|
  {
    if extra != [] {
      var n := |extra| - 1;
      assert (calls + extra)[..|calls| + n] == calls + extra[..n];
      NetAppend(calls, extra[..n], side);
    } else {
      assert calls + extra == calls;
    }
  }

  /** What the constructor, and lock() on an inactive guard, apply: drop the
      released lock first, then take the taken lock. */
  function EnterCalls(): (r: seq<LockCall>)
    ensures WellMatched(r) && |r| == 2
    ensures r[0].side == Released && Weight(r[0].fn) == -1
    ensures r[1].side == Taken && Weight(r[1].fn) == 1
    ensures Net(r, Taken) == 1 && Net(r, Released) == -1
  {
    [LockCall(Released, ReleaseUnlockFn), LockCall(Taken, TakeLockFn)]
  }

  /** What the destructor, and unlock() on an active guard, apply: drop the
      taken lock first, then take the released lock back. */
  function LeaveCalls(): (r: seq<LockCall>)
    ensures WellMatched(r) && |r| == 2
    ensures r[0].side == Taken && Weight(r[0].fn) == -1
    ensures r[1].side == Released && Weight(r[1].fn) == 1
    ensures Net(r, Taken) == -1 && Net(r, Released) == 1
  {
    [LockCall(Taken, TakeUnlockFn), LockCall(Released, ReleaseLockFn)]
  }

  /** The two-argument StSyncLock constructor as the source writes it: it
      applies `_unlock`, the TakeLock's unlocking operation, to the released
      lock. */
  function ConstructorCallsAsWritten(): (r: seq<LockCall>)
    ensures |r| == |EnterCalls()| && r[1..] == EnterCalls()[1..]
    ensures r[0].side == EnterCalls()[0].side && r[0].fn != EnterCalls()[0].fn
  {
    [LockCall(Released, TakeUnlockFn), LockCall(Taken, TakeLockFn)]
  }

  /** The constructor as written does not apply the released lock's own
      operation, and so differs from what lock() does on an inactive guard. */
  lemma ConstructorAsWrittenMismatch()
    ensures !WellMatched(ConstructorCallsAsWritten())
    ensures ConstructorCallsAsWritten() != EnterCalls()
  {
    assert Owner(ConstructorCallsAsWritten()[0].fn) != ConstructorCallsAsWritten()[0].side;
  }

  /** StSyncLock: while active, the taken lock is held and the released lock
      is not; the destructor restores the released lock. `calls` is the
      sequence of operations this guard has applied, in order. */
  class StSyncLock {
    var active: bool
    var calls: seq<LockCall>
    ghost const adopted: bool
    ghost var releases: nat

    ghost predicate Valid()
      reads this
    {
      && WellMatched(calls)
      && Net(calls, Taken) == (if active then 1 else 0) + releases - (if adopted then 1 else 0)
      && Net(calls, Released) == -Net(calls, Taken)
    }

    /** StSyncLock(tlck, rlck): unlocks the released lock, then locks the
        taken lock, and becomes active. */
    constructor ()
      ensures Valid() && active && !adopted && releases == 0
      ensures calls == EnterCalls()
    {
      active := true;
      adopted := false;
      releases := 0;
      calls := EnterCalls();
    }

    /** StSyncLock(tlck, rlck, option): touches neither lock; active iff
        option. */
    constructor Adopt(option: bool)
      ensures Valid() && active == option && adopted == option && releases == 0
      ensures calls == []
    {
      active := option;
      adopted := option;
      releases := 0;
      calls := [];
    }

    /** isActive(): the guard holds the taken lock on its own account,
        beyond what it handed over and what it adopted. */
    predicate IsActive()
      reads this
      ensures Valid() ==> (IsActive() <==> Net(calls, Taken) == releases - (if adopted then 1 else 0) + 1)
    {
      active
    }

    method Lock()
      requires Valid()
      modifies this
      ensures Valid() && active && releases == old(releases)
      ensures calls == old(calls) + (if old(active) then [] else EnterCalls())
    {
      if !active {
        NetAppend(calls, EnterCalls(), Taken);
        NetAppend(calls, EnterCalls(), Released);
        calls := calls + EnterCalls();
        active := true;
      }
    }

    method Unlock()
      requires Valid()
      modifies this
      ensures Valid() && !active && releases == old(releases)
      ensures calls == old(calls) + (if old(active) then LeaveCalls() else [])
    {
      if active {
        NetAppend(calls, LeaveCalls(), Taken);
        NetAppend(calls, LeaveCalls(), Released);
        calls := calls + LeaveCalls();
        active := false;
      }
    }

    method Release()
      requires Valid() && active
      modifies this
      ensures Valid() && !active && calls == old(calls) && releases == old(releases) + 1
    {
      active := false;
      releases := releases + 1;
    }

    /** The destructor: undoes the swap iff still active. Afterwards the
        taken lock's balance is the number of hand-overs, less an adopted
        lock, and the released lock's is its opposite. */
    method Destroy()
      requires Valid()
      modifies this
      ensures !active && releases == old(releases)
      ensures calls == old(calls) + (if old(active) then LeaveCalls() else [])
      ensures WellMatched(calls)
      ensures Net(calls, Taken) == releases - (if adopted then 1 else 0)
      ensures Net(calls, Released) == -Net(calls, Taken)
    {
      Unlock();
    }
  }

  /** The counter operators: prefix and postfix ++ and --, and += delta. */
  datatype CounterOp = Increment(prefix: bool) | Decrement(prefix: bool) | Offset(delta: int)

  /** How far one operator moves the counter. */
  function Shift(op: CounterOp): int
  {
    match op
    case Increment(_) => 1
    case Decrement(_) => -1
    case Offset(delta) => delta
  }

  /** The counter after `op`, and the value the operator returns: the
      counter moves by the operator's shift, and the result is the new value
      except for the postfix forms, which return the old one. */
  function CounterStep(value: int, op: CounterOp): (r: (int, int))
    ensures r.0 == value + Shift(op)
    ensures r.1 == (if op.Offset? || op.prefix then r.0 else value)
  {
    match op
    case Increment(prefix) => (value + 1, if prefix then value + 1 else value)
    case Decrement(prefix) => (value - 1, if prefix then value - 1 else value)
    case Offset(delta) => (value + delta, value + delta)
  }

  /** Prefix forms return the new value, postfix forms the old one, each
      changes the counter by exactly one, and ++ and -- undo each other. */
  lemma CounterStepProperties(value: int, prefix: bool)
    ensures CounterStep(value, Increment(prefix)).0 == value + 1
    ensures CounterStep(value, Decrement(prefix)).0 == value - 1
    ensures CounterStep(value, Increment(prefix)).1
         == (if prefix then CounterStep(value, Increment(prefix)).0 else value)
    ensures CounterStep(value, Decrement(prefix)).1
         == (if prefix then CounterStep(value, Decrement(prefix)).0 else value)
    ensures CounterStep(CounterStep(value, Increment(prefix)).0, Decrement(prefix)).0 == value
  {
  }

  /** Applies the operators in order; returns the final counter. */
  function CounterRun(value: int, ops: seq<CounterOp>): int
    decreases |ops|
  {
    if ops == [] then value else CounterRun(CounterStep(value, ops[0]).0, ops[1..])
  }

  /** The total change an operator sequence makes. */
  function Drift(ops: seq<CounterOp>): int
    decreases |ops|
  {
    if ops == [] then 0 else Shift(ops[0]) + Drift(ops[1..])
  }

  /** No operator is lost: the counter ends at its start plus the drift. */
  lemma {:induction false} CounterRunDrift(value: int, ops: seq<CounterOp>)
    ensures CounterRun(value, ops) == value + Drift(ops)
    decreases |ops|
  {
    if ops != [] {
      CounterRunDrift(CounterStep(value, ops[0]).0, ops[1..]);
    }
  }

  /** StaticAtomicCounter / AtomicCounter. */
  class AtomicCounter {
    var value: int

    /** StaticAtomicCounter: zero by static initialisation. */
    constructor Static()
      ensures value == 0
    {
      value := 0;
    }

    /** AtomicCounter(init = 0). */
    constructor (init: int)
      ensures value == init
    {
      value := init;
    }

    /** operator Integer. */
    function Value(): int
      reads this
    {
      value
    }

    method PreIncrement() returns (r: int)
      modifies this
      ensures (Value(), r) == CounterStep(old(Value()), Increment(true))
    {
      value := value + 1;
      r := value;
    }

    method PreDecrement() returns (r: int)
      modifies this
      ensures (Value(), r) == CounterStep(old(Value()), Decrement(true))
    {
      value := value - 1;
      r := value;
    }

    method PostIncrement() returns (r: int)
      modifies this
      ensures (Value(), r) == CounterStep(old(Value()), Increment(false))
    {
      value := value + 1;
      r := value - 1;
    }

    method PostDecrement() returns (r: int)
      modifies this
      ensures (Value(), r) == CounterStep(old(Value()), Decrement(false))
    {
      value := value - 1;
      r := value + 1;
    }

    method AddAssign(delta: int) returns (r: int)
      modifies this
      ensures (Value(), r) == CounterStep(old(Value()), Offset(delta))
    {
      value := value + delta;
      r := value;
    }
  }

  /** ThreadStoreSlot / PerThreadPointer: one cell per thread. A thread
      without an entry in `cells` reads NULL. */
  class PerThreadPointer<T(==)> {
    var cells: map<Identity, T>

    constructor ()
      ensures cells == map[]
    {
      cells := map[];
    }

    /** get(): the calling thread's cell. */
    function Get(self: Identity): (r: Option<T>)
      reads this
      ensures r.Some? <==> self in cells
      ensures r.Some? ==> r.value == cells[self]
    {
      if self in cells then Some(cells[self]) else None
    }

    /** operator bool: the calling thread's cell is not NULL. */
    predicate IsSet(self: Identity)
      reads this
      ensures IsSet(self) <==> self in cells
    {
      Get(self).Some?
    }

    /** operator =: stores `value` in the calling thread's cell; a non-zero
        status from pthread_setspecific raises a UnixError and stores
        nothing. Other threads' cells never change. */
    method Assign(self: Identity, value: Option<T>, status: int) returns (r: Outcome<UnixError>)
      modifies this
      ensures r == Check(status)
      ensures r.Pass? ==> Get(self) == value
      ensures r.Fail? ==> cells == old(cells)
      ensures forall t :: t != self ==> Get(t) == old(Get(t))
    {
      r := Check(status);
      if r.Pass? {
        match value
        case Some(v) => cells := cells[self := v];
        case None => cells := cells - {self};
      }
    }
  }
}
