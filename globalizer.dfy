/** The nexus family of lib/globalizer.h: access points to the single object
    of a type within a scope (a module-wide access point, one thread, or a
    named store shared by a whole process).

    All scopes run the same state machine, `Step`, over a `Slot`: empty,
    claimed by a constructor still at work (the word with its low bit set),
    or holding a published instance. The classes below are each proved
    against `Step`; the lemmas about `Run` say what a whole sequence of
    calls does. Everything is sequential: one call runs to completion before
    the next starts. */
module Globalizer {
  import opened Wrappers
  import opened Threading

  /** GlobalNexus::Error: an exception carrying a static message. */
  datatype NexusError = NexusError(message: string) {

    /** what(): hands back exactly the message the error was built with, so
        the error can be rebuilt from it. */
    function What(): (r: string)
      ensures NexusError(r) == this
    {
      message
    }
  }

  /** An object of the wrapped type `Type`; only its identity matters. */
  class Instance {
    constructor ()
    {
    }
  }

  /** The word of a module-scope nexus: zero, the in-progress tag (low bit
      set) or a published instance pointer (low bit clear). */
  datatype Slot = Empty | InProgress | Ready(obj: Instance)

  function ReadyCount(s: Slot): nat
  {
    if s.Ready? then 1 else 0
  }

  /** A call on a nexus. `made` is the object `new Type` would yield if this
      call had to construct one. */
  datatype Call = AccessCall(made: Instance) | ResetCall | ExistsCall

  /** What a call observably did. */
  datatype Effect =
    | Returned(obj: Instance, constructed: bool)
    | Destroyed(victim: Instance)
    | NoEffect
    | Answered(answer: bool)

  /** One call on a slot: access returns a published instance as it is and
      otherwise constructs and publishes one; reset destroys only a published
      instance; exists tests the word for non-zero. */
  function Step(s: Slot, c: Call): (r: (Slot, Effect))
    ensures c.AccessCall? ==> r.0.Ready? && r.1 == Returned(r.0.obj, !s.Ready?)
    ensures c.AccessCall? && s.Ready? ==> r.0 == s
    ensures c.ResetCall? ==> !r.0.Ready? && (r.1.Destroyed? <==> s.Ready?)
    ensures c.ResetCall? && s.Ready? ==> r.0 == Empty && r.1 == Destroyed(s.obj)
    ensures c.ExistsCall? ==> r.0 == s && r.1 == Answered(!s.Empty?)
    ensures ReadyCount(r.0) == ReadyCount(s)
              + (if r.1.Returned? && r.1.constructed then 1 else 0)
              - (if r.1.Destroyed? then 1 else 0)
  {
    match c
    case AccessCall(made) =>
      if s.Ready? then (s, Returned(s.obj, false)) else (Ready(made), Returned(made, true))
    case ResetCall =>
      if s.Ready? then (Empty, Destroyed(s.obj)) else (s, NoEffect)
    case ExistsCall =>
      (s, Answered(!s.Empty?))
  }

  /** Runs calls one after another: the final slot and one effect per call. */
  function Run(s: Slot, calls: seq<Call>): (r: (Slot, seq<Effect>))
    ensures |r.1| == |calls|
    decreases |calls|
  {
    if calls == [] then (s, [])
    else
      var (s1, e) := Step(s, calls[0]);
      var (t, es) := Run(s1, calls[1..]);
      (t, [e] + es)
  }

  /** The number of instances constructed. */
  function Constructions(es: seq<Effect>): nat
    decreases |es|
  {
    if es == [] then 0
    else (if es[0].Returned? && es[0].constructed then 1 else 0) + Constructions(es[1..])
  }

  /** The number of instances destroyed. */
  function Destructions(es: seq<Effect>): nat
    decreases |es|
  {
    if es == [] then 0
    else (if es[0].Destroyed? then 1 else 0) + Destructions(es[1..])
  }

  /** No reset among the calls: they all fall within one reset epoch. */
  predicate NoReset(calls: seq<Call>)
  {
    forall i :: 0 <= i < |calls| ==> !calls[i].ResetCall?
  }

  lemma NoResetTail(calls: seq<Call>)
    requires calls != [] && NoReset(calls)
    ensures NoReset(calls[1..]) && !calls[0].ResetCall?
  {
    assert forall i :: 0 <= i < |calls| - 1 ==> calls[1..][i] == calls[i + 1];
  }

  /** Every construction publishes an instance and every destruction removes
      one: over any run, constructions and destructions differ exactly by
      the change in the number of published instances. */
  lemma {:induction false} ConstructionsBalanceDestructions(s: Slot, calls: seq<Call>)
    ensures Constructions(Run(s, calls).1) + ReadyCount(s)
         == Destructions(Run(s, calls).1) + ReadyCount(Run(s, calls).0)
    decreases |calls|
  {
    if calls != [] {
      var (s1, e) := Step(s, calls[0]);
      ConstructionsBalanceDestructions(s1, calls[1..]);
      var es := Run(s1, calls[1..]).1;
      assert Run(s, calls).1 == [e] + es;
      assert ([e] + es)[1..] == es;
    }
  }

  /** Without a reset nothing is destroyed. */
  lemma {:induction false} NoResetDestroysNothing(s: Slot, calls: seq<Call>)
    requires NoReset(calls)
    ensures Destructions(Run(s, calls).1) == 0
    decreases |calls|
  {
    if calls != [] {
      NoResetTail(calls);
      var (s1, e) := Step(s, calls[0]);
      NoResetDestroysNothing(s1, calls[1..]);
      var es := Run(s1, calls[1..]).1;
      assert Run(s, calls).1 == [e] + es;
      assert ([e] + es)[1..] == es;
    }
  }

  /** Construction happens at most once per reset epoch, and not at all when
      an instance was already published when the epoch's calls began. */
  lemma AtMostOneConstructionPerEpoch(s: Slot, calls: seq<Call>)
    requires NoReset(calls)
    ensures Constructions(Run(s, calls).1) <= 1 - ReadyCount(s)
  {
    ConstructionsBalanceDestructions(s, calls);
    NoResetDestroysNothing(s, calls);
  }

  /** Within one reset epoch every access returns the same instance: the one
      the slot finally publishes, which is the one already published when the
      epoch's calls began, if there was one. */
  lemma {:induction false} SameInstanceWithinEpoch(s: Slot, calls: seq<Call>)
    requires NoReset(calls)
    ensures s.Ready? ==> Run(s, calls).0 == s
    ensures forall i :: 0 <= i < |calls| && Run(s, calls).1[i].Returned? ==>
              Run(s, calls).0 == Ready(Run(s, calls).1[i].obj)
    decreases |calls|
  {
    if calls != [] {
      NoResetTail(calls);
      var (s1, e) := Step(s, calls[0]);
      SameInstanceWithinEpoch(s1, calls[1..]);
      var (t, es) := Run(s1, calls[1..]);
      assert Run(s, calls) == (t, [e] + es);
      assert e.Returned? ==> s1 == Ready(e.obj) && t == s1;
      forall i | 0 <= i < |calls| && ([e] + es)[i].Returned?
        ensures t == Ready(([e] + es)[i].obj)
      {
        if i > 0 {
          assert ([e] + es)[i] == es[i - 1];
        }
      }
    }
  }

  /** Once the word is non-zero, exists() answers true until the next reset. */
  lemma {:induction false} ExistsHoldsUntilReset(s: Slot, calls: seq<Call>)
    requires NoReset(calls) && !s.Empty?
    ensures !Run(s, calls).0.Empty?
    ensures forall i :: 0 <= i < |calls| && Run(s, calls).1[i].Answered? ==> Run(s, calls).1[i].answer
    decreases |calls|
  {
    if calls != [] {
      NoResetTail(calls);
      var (s1, e) := Step(s, calls[0]);
      ExistsHoldsUntilReset(s1, calls[1..]);
      var (t, es) := Run(s1, calls[1..]);
      assert Run(s, calls) == (t, [e] + es);
      forall i | 0 <= i < |calls| && ([e] + es)[i].Answered?
        ensures ([e] + es)[i].answer
      {
        if i > 0 {
          assert ([e] + es)[i] == es[i - 1];
        }
      }
    }
  }

  /** exists() is only a hint: it answers true while a construction is still
      in progress, and an access at that moment still goes through create. */
  lemma ExistsIncludesInProgress(made: Instance)
    ensures Step(InProgress, ExistsCall).1 == Answered(true)
    ensures Step(InProgress, AccessCall(made)) == (Ready(made), Returned(made, true))
  {
  }

  /** Running one more call extends the run by that call's step. */
  lemma {:induction false} RunAppend(s: Slot, calls: seq<Call>, c: Call)
    ensures Run(s, calls + [c]).0 == Step(Run(s, calls).0, c).0
    ensures Run(s, calls + [c]).1 == Run(s, calls).1 + [Step(Run(s, calls).0, c).1]
    decreases |calls|
  {
    if calls == [] {
      assert calls + [c] == [c];
    } else {
      assert (calls + [c])[0] == calls[0];
      assert (calls + [c])[1..] == calls[1..] + [c];
      var (s1, e) := Step(s, calls[0]);
      RunAppend(s1, calls[1..], c);
      var es := Run(s1, calls[1..]).1;
      assert [e] + (es + [Step(Run(s1, calls[1..]).0, c).1]) == ([e] + es) + [Step(Run(s1, calls[1..]).0, c).1];
    }
  }

  /** Counting effects distributes over appending one more. */
  lemma {:induction false} EffectCountsAppend(es: seq<Effect>, e: Effect)
    ensures Constructions(es + [e]) == Constructions(es) + Constructions([e])
    ensures Destructions(es + [e]) == Destructions(es) + Destructions([e])
    decreases |es|
  {
    if es == [] {
      assert es + [e] == [e];
    } else {
      assert (es + [e])[1..] == es[1..] + [e];
      EffectCountsAppend(es[1..], e);
    }
  }

  /** ModuleNexus<Type> with atomic operations: the word `pointer` is shared
      by everything that reaches this access point. `history` is every access
      and reset made through it, in order, starting from the zero word. */
  class ModuleNexus {
    var pointer: Slot
    ghost var history: seq<Call>

    /** The word is what the calls so far leave behind. */
    ghost predicate Valid()
      reads this
    {
      Run(Empty, history).0 == pointer
    }

    /** The instances constructed through this nexus so far. */
    ghost function Constructed(): nat
      reads this
    {
      Constructions(Run(Empty, history).1)
    }

    /** The instances deleted through this nexus so far. */
    ghost function Deleted(): nat
      reads this
    {
      Destructions(Run(Empty, history).1)
    }

    /** Every instance but the published one has been deleted: one
        construction per reset epoch. */
    lemma OneInstancePerEpoch()
      requires Valid()
      ensures Constructed() == Deleted() + ReadyCount(pointer)
    {
      ConstructionsBalanceDestructions(Empty, history);
    }

    /** Static zero-initialisation: the word starts at zero. */
    constructor ()
      ensures Valid() && pointer == Empty && history == []
      ensures Constructed() == 0 && Deleted() == 0
    {
      pointer := Empty;
      history := [];
    }

    /** make(): new Type. */
    static method Make() returns (obj: Instance)
      ensures fresh(obj)
    {
      obj := new Instance();
    }

    /** ModuleNexusCommon::create: its body is not part of this model; it
        yields a published instance, made by `make`. */
    method Create() returns (obj: Instance)
      modifies this
      ensures fresh(obj) && pointer == Ready(obj) && history == old(history)
    {
      obj := Make();
      pointer := Ready(obj);
    }

    /** operator (): a published instance is returned with no construction;
        a zero or in-progress word goes through create. */
    method Access() returns (obj: Instance)
      requires Valid()
      modifies this
      ensures Valid() && history == old(history) + [AccessCall(obj)]
      ensures Step(old(pointer), AccessCall(obj)) == (pointer, Returned(obj, !old(pointer).Ready?))
      ensures !old(pointer).Ready? ==> fresh(obj)
      ensures Constructed() == old(Constructed()) + (if old(pointer).Ready? then 0 else 1)
      ensures Deleted() == old(Deleted())
    {
      var p := pointer;
      if !p.Ready? {
        obj := Create();
      } else {
        obj := p.obj;
      }
      RunAppend(Empty, history, AccessCall(obj));
      EffectCountsAppend(Run(Empty, history).1, Step(p, AccessCall(obj)).1);
      history := history + [AccessCall(obj)];
    }

    /** exists(): the word is non-zero, in-progress tag included. */
    function Exists(): (b: bool)
      reads this
      ensures Step(pointer, ExistsCall) == (pointer, Answered(b))
    {
      !pointer.Empty?
    }

    /** reset(): deletes a published instance and zeroes the word; a zero
        or in-progress word is left alone. */
    method Reset()
      requires Valid()
      modifies this
      ensures Valid() && history == old(history) + [ResetCall]
      ensures pointer == Step(old(pointer), ResetCall).0
      ensures Constructed() == old(Constructed())
      ensures Deleted() == old(Deleted()) + ReadyCount(old(pointer))
    {
      RunAppend(Empty, history, ResetCall);
      EffectCountsAppend(Run(Empty, history).1, Step(pointer, ResetCall).1);
      if pointer.Ready? {
        pointer := Empty;
      }
      history := history + [ResetCall];
    }
  }

  /** ModuleNexus<Type> without atomic operations: a pointer that is NULL
      or the instance, and a construction lock. */
  class LockedModuleNexus {
    var singleton: Instance?
    const lock: Mutex
    ghost var constructions: nat
    ghost var destructions: nat

    ghost function View(): Slot
      reads this
    {
      if singleton == null then Empty else Ready(singleton)
    }

    ghost predicate Valid()
      reads this
    {
      constructions == destructions + ReadyCount(View())
    }

    constructor ()
      ensures Valid() && singleton == null && fresh(lock) && lock.held == 0
      ensures constructions == 0 && destructions == 0
    {
      singleton := null;
      lock := new Mutex();
      constructions := 0;
      destructions := 0;
    }

    /** operator (): a non-NULL pointer is returned at once; otherwise the
        check is repeated under the lock and only a NULL pointer leads to
        construction. The lock is released on the way out. */
    method Access() returns (obj: Instance)
      requires Valid()
      modifies this, lock
      ensures Valid() && destructions == old(destructions)
      ensures lock.held == old(lock.held)
      ensures Step(old(View()), AccessCall(obj)) == (View(), Returned(obj, old(singleton) == null))
      ensures old(singleton) == null ==> fresh(obj)
    {
      if singleton != null {
        return singleton;
      }
      var guard := new StLock(lock);
      if singleton == null {
        singleton := new Instance();
        constructions := constructions + 1;
      }
      obj := singleton;
      guard.Destroy();
    }

    /** reset(): deletes whatever the pointer holds (deleting NULL does
        nothing) and always nulls it. */
    method Reset()
      requires Valid()
      modifies this
      ensures Valid() && singleton == null && constructions == old(constructions)
      ensures View() == Step(old(View()), ResetCall).0
      ensures destructions == old(destructions) + ReadyCount(old(View()))
    {
      if singleton != null {
        destructions := destructions + 1;
      }
      singleton := null;
    }
  }

  /** ThreadNexus<Type>: one slot per thread, kept in a PerThreadPointer. */
  class ThreadNexus {
    const slot: PerThreadPointer<Instance>

    constructor ()
      ensures fresh(slot) && slot.cells == map[]
    {
      slot := new PerThreadPointer<Instance>();
    }

    /** The slot as thread `t` sees it. */
    ghost function View(t: Identity): Slot
      reads this, slot
    {
      match slot.Get(t)
      case Some(obj) => Ready(obj)
      case None => Empty
    }

    /** operator () from thread `self`. `status` is what pthread_setspecific
        reports when the new instance is stored; a failure there propagates
        as a UnixError and leaves the slot empty. */
    method Access(self: Identity, status: int) returns (r: Result<Instance, UnixError>)
      modifies slot
      ensures self in old(slot.cells) ==> r == Success(old(slot.cells[self])) && slot.cells == old(slot.cells)
      ensures self !in old(slot.cells) ==> (r.Success? <==> status == 0)
      ensures r.Success? ==>
                Step(old(View(self)), AccessCall(r.value)) == (View(self), Returned(r.value, self !in old(slot.cells)))
      ensures r.Success? && self !in old(slot.cells) ==> fresh(r.value)
      ensures r.Failure? ==> r.error == UnixError(status) && slot.cells == old(slot.cells)
      ensures forall t :: t != self ==> View(t) == old(View(t))
    {
      var p := slot.Get(self);
      if p.Some? {
        return Success(p.value);
      }
      var obj := new Instance();
      var outcome := slot.Assign(self, Some(obj), status);
      if outcome.Fail? {
        return Failure(outcome.error);
      }
      var q := slot.Get(self);
      r := Success(q.value);
    }
  }

  /** ProcessNexusBase::Store: the object shared by every ProcessNexus with
      the same identifier, and the lock guarding its construction. */
  class Store {
    var instance: Instance?
    const lock: Mutex
    ghost var constructions: nat

    /** A store is never reset: it constructed one object iff it holds one. */
    ghost predicate Valid()
      reads this
    {
      constructions == ReadyCount(View())
    }

    ghost function View(): Slot
      reads this
    {
      if instance == null then Empty else Ready(instance)
    }

    constructor ()
      ensures Valid() && instance == null && fresh(lock) && lock.held == 0 && constructions == 0
    {
      instance := null;
      lock := new Mutex();
      constructions := 0;
    }
  }

  /** ProcessNexus<Type>. Looking the identifier up is not part of this
      model: the store arrives already resolved. */
  class ProcessNexus {
    const store: Store

    constructor (resolved: Store)
      ensures store == resolved
    {
      store := resolved;
    }

    /** operator (): a non-NULL object is returned at once; otherwise the
        check is repeated under the store's lock and only a NULL object is
        constructed. The lock is released on the way out. */
    method Access() returns (obj: Instance)
      requires store.Valid()
      modifies store, store.lock
      ensures store.Valid() && store.lock.held == old(store.lock.held)
      ensures Step(old(store.View()), AccessCall(obj)) == (store.View(), Returned(obj, old(store.instance) == null))
      ensures old(store.instance) == null ==> fresh(obj)
    {
      if store.instance != null {
        return store.instance;
      }
      var guard := new StLock(store.lock);
      if store.instance == null {
        store.instance := new Instance();
        store.constructions := store.constructions + 1;
      }
      obj := store.instance;
      guard.Destroy();
    }
  }

  /** Two access points over one store, however many, see one object, and
      the store constructs it at most once. */
  method AccessSharedStore(a: ProcessNexus, b: ProcessNexus) returns (x: Instance, y: Instance)
    requires a.store == b.store && a.store.Valid()
    modifies a.store, a.store.lock
    ensures x == y && a.store.instance == x
    ensures old(a.store.instance) != null ==> x == old(a.store.instance)
    ensures a.store.constructions == 1
  {
    x := a.Access();
    y := b.Access();
  }
}
