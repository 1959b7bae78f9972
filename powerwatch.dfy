/** lib/powerwatch.cpp: IOPowerWatcher turns IOKit system power messages
    into calls of the watcher's user callbacks and, for the messages that
    expect one, an acknowledgement to the kernel. The IOKit calls themselves
    (registration, deregistration, IOAllowPowerChange, IOCancelPowerChange)
    are recorded as events instead of being made. */
module PowerWatch {
  import opened Wrappers
  import opened Threading

  /** EINVAL, as Darwin's errno.h numbers it. */
  const EINVAL: int := 22

  /** The message types ioCallback distinguishes; every other value of the
      message-type word is `Unrecognised`. */
  datatype Message =
    | SystemWillSleep
    | SystemHasPoweredOn
    | SystemWillPowerOff
    | SystemWillNotPowerOff
    | CanSystemSleep
    | SystemWillNotSleep
    | CanSystemPowerOff
    | SystemWillPowerOn
    | Unrecognised(messageType: nat)

  /** The PowerWatcher virtuals a subclass overrides: systemWillSleep,
      systemIsWaking, systemWillPowerDown and systemWillPowerOn. */
  datatype Callback = WillSleep | IsWaking | WillPowerDown | WillPowerOn

  /** The local `reaction` of ioCallback. */
  datatype Reaction = Allow | Refuse | Ignore

  /** What the watcher does to the outside world. */
  datatype Event =
    | Invoked(callback: Callback)
    | AllowPowerChange(port: nat, argument: int)
    | CancelPowerChange(port: nat, argument: int)
    | Deregistered

  /** The messages that the kernel waits on an acknowledgement for. */
  predicate ExpectsAcknowledgement(m: Message)
  {
    m in {SystemWillSleep, SystemWillPowerOff, CanSystemSleep, CanSystemPowerOff}
  }

  /** The first switch of ioCallback: the user callback a message triggers,
      if any, and the reaction it leads to. Every callback belongs to exactly
      one message, nothing is ever refused, and exactly the messages that
      expect an acknowledgement are allowed. */
  function Dispatch(m: Message): (d: (Option<Callback>, Reaction))
    ensures d.1 != Refuse
    ensures d.1 == Allow <==> ExpectsAcknowledgement(m)
    ensures d.0 == Some(WillSleep) <==> m == SystemWillSleep
    ensures d.0 == Some(IsWaking) <==> m == SystemHasPoweredOn
    ensures d.0 == Some(WillPowerDown) <==> m == SystemWillPowerOff
    ensures d.0 == Some(WillPowerOn) <==> m == SystemWillPowerOn
  {
    match m
    case SystemWillSleep => (Some(WillSleep), Allow)
    case SystemHasPoweredOn => (Some(IsWaking), Ignore)
    case SystemWillPowerOff => (Some(WillPowerDown), Allow)
    case SystemWillNotPowerOff => (None, Ignore)
    case CanSystemSleep => (None, Allow)
    case SystemWillNotSleep => (None, Ignore)
    case CanSystemPowerOff => (None, Allow)
    case SystemWillPowerOn => (Some(WillPowerOn), Ignore)
    case Unrecognised(_) => (None, Ignore)
  }

  /** The second switch of ioCallback: at most one reply to the kernel,
      carrying the kernel port and the message argument. */
  function Acknowledge(reaction: Reaction, port: nat, argument: int): (e: seq<Event>)
    ensures |e| <= 1
    ensures e == [] <==> reaction == Ignore
    ensures reaction == Allow ==> e == [AllowPowerChange(port, argument)]
    ensures reaction == Refuse ==> e == [CancelPowerChange(port, argument)]
  {
    match reaction
    case Allow => [AllowPowerChange(port, argument)]
    case Refuse => [CancelPowerChange(port, argument)]
    case Ignore => []
  }

  /** Everything one message causes, in order: the user callback first (if
      any), then the acknowledgement (if any). At most one callback runs,
      no change is ever cancelled, and the last event is an allowance
      exactly when the message expects an acknowledgement. */
  function Respond(m: Message, port: nat, argument: int): (e: seq<Event>)
    ensures |e| <= 2
    ensures Dispatch(m).0.Some? ==> |e| >= 1 && e[0] == Invoked(Dispatch(m).0.value)
    ensures forall i :: 0 <= i < |e| && e[i].Invoked? ==> i == 0 && Dispatch(m).0 == Some(e[i].callback)
    ensures forall i :: 0 <= i < |e| ==> !e[i].CancelPowerChange? && !e[i].Deregistered?
    ensures forall i :: 0 <= i < |e| && e[i].AllowPowerChange? ==>
              i == |e| - 1 && e[i] == AllowPowerChange(port, argument)
    ensures ExpectsAcknowledgement(m) <==> |e| > 0 && e[|e| - 1].AllowPowerChange?
  {
    var (callback, reaction) := Dispatch(m);
    (if callback.Some? then [Invoked(callback.value)] else []) + Acknowledge(reaction, port, argument)
  }

  /** One message as the kernel delivers it: its type and its argument. */
  datatype Delivery = Delivery(message: Message, argument: int)

  /** Everything a sequence of deliveries causes, in order. */
  function Replay(ds: seq<Delivery>, port: nat): seq<Event>
    decreases |ds|
  {
    if ds == [] then [] else Respond(ds[0].message, port, ds[0].argument) + Replay(ds[1..], port)
  }

  /** The user callbacks among some events. */
  function Callbacks(e: seq<Event>): nat
    decreases |e|
  {
    if e == [] then 0 else (if e[0].Invoked? then 1 else 0) + Callbacks(e[1..])
  }

  /** The allowances among some events. */
  function Allowances(e: seq<Event>): nat
    decreases |e|
  {
    if e == [] then 0 else (if e[0].AllowPowerChange? then 1 else 0) + Allowances(e[1..])
  }

  /** The deliveries whose message expects an acknowledgement. */
  function Expecting(ds: seq<Delivery>): nat
    decreases |ds|
  {
    if ds == [] then 0 else (if ExpectsAcknowledgement(ds[0].message) then 1 else 0) + Expecting(ds[1..])
  }

  lemma {:induction false} CountsAppend(a: seq<Event>, b: seq<Event>)
    ensures Callbacks(a + b) == Callbacks(a) + Callbacks(b)
    ensures Allowances(a + b) == Allowances(a) + Allowances(b)
    decreases |a|
  {
    if a == [] {
      assert a + b == b;
    } else {
      assert (a + b)[1..] == a[1..] + b;
      CountsAppend(a[1..], b);
    }
  }

  lemma {:induction false} ReplayAppend(ds: seq<Delivery>, d: Delivery, port: nat)
    ensures Replay(ds + [d], port) == Replay(ds, port) + Respond(d.message, port, d.argument)
    decreases |ds|
  {
    if ds == [] {
      assert ds + [d] == [d];
      assert [d][1..] == [];
    } else {
      assert (ds + [d])[1..] == ds[1..] + [d];
      ReplayAppend(ds[1..], d, port);
    }
  }

  /** Over any sequence of deliveries, callbacks never outnumber messages,
      and exactly the messages that expect an acknowledgement get one. */
  lemma {:induction false} ReplayCounts(ds: seq<Delivery>, port: nat)
    ensures Callbacks(Replay(ds, port)) <= |ds|
    ensures Allowances(Replay(ds, port)) == Expecting(ds)
    decreases |ds|
  {
    if ds != [] {
      var head := Respond(ds[0].message, port, ds[0].argument);
      ReplayCounts(ds[1..], port);
      CountsAppend(head, Replay(ds[1..], port));
      var cb := Dispatch(ds[0].message).0;
      var ack := Acknowledge(Dispatch(ds[0].message).1, port, ds[0].argument);
      CountsAppend(if cb.Some? then [Invoked(cb.value)] else [], ack);
      assert Callbacks(ack) == 0;
      assert Allowances(ack) == (if ExpectsAcknowledgement(ds[0].message) then 1 else 0);
    }
  }

  /** IOPowerWatcher. `kernelPort` is the port IORegisterForSystemPower
      returned (zero when it failed); `events` is everything the watcher has
      done so far, and `deliveries` the messages it has been handed. */
  class IOPowerWatcher {
    var kernelPort: nat
    var events: seq<Event>
    ghost var deliveries: seq<Delivery>

    /** The watcher has done exactly what its deliveries call for. */
    ghost predicate Valid()
      reads this
    {
      events == Replay(deliveries, kernelPort)
    }

    constructor Registered(port: nat)
      ensures Valid() && kernelPort == port && events == [] && deliveries == []
    {
      kernelPort := port;
      events := [];
      deliveries := [];
    }

    /** The IOPowerWatcher constructor. `port` is what
        IORegisterForSystemPower returns; zero means registration failed,
        which raises EINVAL. */
    static method Register(port: nat) returns (r: Result<IOPowerWatcher, UnixError>)
      ensures r.Failure? <==> port == 0
      ensures r.Failure? ==> r.error == UnixError(EINVAL)
      ensures r.Success? ==> fresh(r.value) && r.value.Valid()
      ensures r.Success? ==> r.value.kernelPort == port && r.value.events == [] && r.value.deliveries == []
    {
      if port == 0 {
        return Failure(UnixError(EINVAL));
      }
      var watcher := new IOPowerWatcher.Registered(port);
      r := Success(watcher);
    }

    /** ioCallback: the user callback chosen by the first switch runs, then
        the acknowledgement chosen by the second switch is sent. */
    method IoCallback(messageType: Message, argument: int)
      requires Valid()
      modifies this
      ensures Valid() && kernelPort == old(kernelPort)
      ensures deliveries == old(deliveries) + [Delivery(messageType, argument)]
      ensures events == old(events) + Respond(messageType, kernelPort, argument)
    {
      ReplayAppend(deliveries, Delivery(messageType, argument), kernelPort);
      var (callback, reaction) := Dispatch(messageType);
      if callback.Some? {
        events := events + [Invoked(callback.value)];
      }
      events := events + Acknowledge(reaction, kernelPort, argument);
      deliveries := deliveries + [Delivery(messageType, argument)];
    }

    /** The destructor deregisters only when there is a kernel port. */
    method Destroy()
      requires Valid()
      modifies this
      ensures kernelPort == old(kernelPort) && deliveries == old(deliveries)
      ensures events == old(events) + (if kernelPort != 0 then [Deregistered] else [])
    {
      if kernelPort != 0 {
        events := events + [Deregistered];
      }
    }
  }
}
