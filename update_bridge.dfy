/** The main process's `check-for-updates` handler (electron/main.js): one
    invocation turns the updater's event interface into a single result. It
    arms a timer, registers three one-shot listeners (available, not-available,
    error) and starts the check. The first of the four outcomes to arrive wins:
    it sets `settled`, removes the listeners, clears the timer and resolves;
    everything later is ignored. The 15-second timer is not wall-clock time
    here: its expiry is one more event in the input sequence. */
module UpdateBridge {
  import opened Js

  /** The updater's `info` object, passed through without being inspected. */
  datatype UpdateInfo = UpdateInfo(payload: string)

  /** A value that is thrown, or handed to an `error` listener. */
  datatype Thrown =
    | Nullish                                     // null or undefined
    | Value(stack: Option<string>, text: string)  // its `stack` property and its `toString()`

  /** What can reach the handler of one invocation. */
  datatype Event =
    | Available(info: UpdateInfo)     // 'update-available'
    | NotAvailable(info: UpdateInfo)  // 'update-not-available'
    | Failed(err: Thrown)             // 'error'
    | TimerFired                      // the 15-second timer expires

  /** The object the handler's promise resolves with. */
  datatype CheckResult =
    | StatusAvailable(info: UpdateInfo)
    | StatusNotAvailable(info: UpdateInfo)
    | StatusError(error: string)
    | StatusTimeout

  /** The three one-shot listeners registered on the updater. */
  datatype Listener = OnAvailable | OnNotAvailable | OnError

  const AllListeners: set<Listener> := {OnAvailable, OnNotAvailable, OnError}

  /** The error text reported to the renderer: "unknown" for a nullish value,
      otherwise the stack trace when there is a non-empty one, else the value's
      string form. */
  function ErrorMessage(err: Thrown): (m: string)
    ensures err.Nullish? ==> m == "unknown"
    ensures err.Value? && Truthy(err.stack) ==> m == err.stack.value
    ensures err.Value? && !Truthy(err.stack) ==> m == err.text
  {
    match err
    case Nullish => "unknown"
    case Value(stack, text) => if Truthy(stack) then stack.value else text
  }

  /** The result the handler of an event resolves with. */
  function ResultOf(e: Event): CheckResult {
    match e
    case Available(info) => StatusAvailable(info)
    case NotAvailable(info) => StatusNotAvailable(info)
    case Failed(err) => StatusError(ErrorMessage(err))
    case TimerFired => StatusTimeout
  }

  /** The state of one invocation: the `settled` flag, the listeners still
      registered, whether the timer is armed, and the resolved result. */
  datatype Machine = Machine(settled: bool, listeners: set<Listener>, timerActive: bool, result: Option<CheckResult>)

  /** Right after the timer is armed and the listeners are registered. */
  const Pending := Machine(false, AllListeners, true, None)

  /** Pending with everything registered, or settled with a result and nothing registered. */
  predicate Consistent(m: Machine) {
    && (m.settled <==> m.result.Some?)
    && (m.settled ==> m.listeners == {} && !m.timerActive)
    && (!m.settled ==> m.listeners == AllListeners && m.timerActive)
  }

  /** The body shared by the four handlers: return if settled, else settle,
      clean up and resolve with `r`. */
  function Settle(m: Machine, r: CheckResult): Machine {
    if m.settled then m else Machine(true, {}, false, Some(r))
  }

  /** The updater emitting an event (or the timer expiring): a one-shot
      listener that is still registered is removed and then run. */
  function Deliver(m: Machine, e: Event): Machine {
    match e
    case Available(info) =>
      if OnAvailable in m.listeners then Settle(m.(listeners := m.listeners - {OnAvailable}), StatusAvailable(info)) else m
    case NotAvailable(info) =>
      if OnNotAvailable in m.listeners then Settle(m.(listeners := m.listeners - {OnNotAvailable}), StatusNotAvailable(info)) else m
    case Failed(err) =>
      if OnError in m.listeners then Settle(m.(listeners := m.listeners - {OnError}), StatusError(ErrorMessage(err))) else m
    case TimerFired =>
      if m.timerActive then Settle(m.(timerActive := false), StatusTimeout) else m
  }

  /** A sequence of events delivered in order. */
  function DeliverAll(m: Machine, es: seq<Event>): Machine
    decreases |es|
  {
    if es == [] then m else DeliverAll(Deliver(m, es[0]), es[1..])
  }

  /** Starting the check: a synchronous throw goes down the error path. */
  function Start(startFailure: Option<Thrown>): Machine {
    if startFailure.Some? then Settle(Pending, StatusError(ErrorMessage(startFailure.value))) else Pending
  }

  /** Every event keeps the invocation consistent. */
  lemma DeliverConsistent(m: Machine, e: Event)
    requires Consistent(m)
    ensures Consistent(Deliver(m, e))
    ensures !m.settled ==> Deliver(m, e) == Machine(true, {}, false, Some(ResultOf(e)))
  {
  }

  /** Once settled, no event has any effect: the check settles at most once. */
  lemma {:induction false} SettledIsFinal(m: Machine, es: seq<Event>)
    requires Consistent(m) && m.settled
    ensures DeliverAll(m, es) == m
    decreases |es|
  {
    if es != [] {
      DeliverConsistent(m, es[0]);
      SettledIsFinal(m, es[1..]);
    }
  }

  /** Whichever event arrives first decides the result; nothing stays registered. */
  lemma {:induction false} FirstEventWins(es: seq<Event>)
    requires es != []
    ensures DeliverAll(Pending, es) == Machine(true, {}, false, Some(ResultOf(es[0])))
  {
    DeliverConsistent(Pending, es[0]);
    SettledIsFinal(Deliver(Pending, es[0]), es[1..]);
  }

  /** A synchronous throw settles before any event and every event is ignored. */
  lemma {:induction false} StartFailureWins(err: Thrown, es: seq<Event>)
    ensures DeliverAll(Start(Some(err)), es) == Machine(true, {}, false, Some(StatusError(ErrorMessage(err))))
  {
    SettledIsFinal(Start(Some(err)), es);
  }

  /** The timer guarantees settlement: no sequence containing its expiry leaves the check pending. */
  lemma {:induction false} TimerForcesSettlement(m: Machine, es: seq<Event>)
    requires Consistent(m)
    requires TimerFired in es
    ensures DeliverAll(m, es).settled
    ensures Consistent(DeliverAll(m, es))
    decreases |es|
  {
    DeliverConsistent(m, es[0]);
    if es[0] == TimerFired {
      SettledIsFinal(Deliver(m, es[0]), es[1..]);
    } else {
      assert TimerFired in es[1..];
      TimerForcesSettlement(Deliver(m, es[0]), es[1..]);
    }
  }

  /** Delivering one more event extends the fold. */
  lemma {:induction false} DeliverAllSnoc(m: Machine, es: seq<Event>, e: Event)
    ensures DeliverAll(m, es + [e]) == Deliver(DeliverAll(m, es), e)
    decreases |es|
  {
    if es == [] {
      assert [e][1..] == [];
    } else {
      assert (es + [e])[1..] == es[1..] + [e];
      DeliverAllSnoc(Deliver(m, es[0]), es[1..], e);
    }
  }

  /** One invocation of the handler, with the fields its closures share. */
  class UpdateCheck {
    var settled: bool
    var listeners: set<Listener>
    var timerActive: bool
    var result: Option<CheckResult>

    function State(): Machine
      reads this
    {
      Machine(settled, listeners, timerActive, result)
    }

    predicate Valid()
      reads this
    {
      Consistent(State())
    }

    /** Arms the timer, registers the three one-shot listeners and starts the
        check; if starting throws, the error handler runs with what was thrown. */
    constructor (startFailure: Option<Thrown>)
      ensures Valid() && State() == Start(startFailure)
    {
      settled := false;
      timerActive := true;
      listeners := AllListeners;
      result := None;
      new;
      if startFailure.Some? {
        HandleError(startFailure.value);
      }
    }

    /** `cleanup`: removes the three listeners and clears the timer. */
    method Cleanup()
      modifies this
      ensures listeners == {} && !timerActive
      ensures settled == old(settled) && result == old(result)
    {
      listeners := {};
      timerActive := false;
    }

    /** `onAvailable` */
    method HandleAvailable(info: UpdateInfo)
      modifies this
      ensures old(settled) ==> State() == old(State())
      ensures !old(settled) ==> State() == Machine(true, {}, false, Some(StatusAvailable(info)))
    {
      if settled { return; }
      settled := true;
      Cleanup();
      result := Some(StatusAvailable(info));
    }

    /** `onNotAvailable` */
    method HandleNotAvailable(info: UpdateInfo)
      modifies this
      ensures old(settled) ==> State() == old(State())
      ensures !old(settled) ==> State() == Machine(true, {}, false, Some(StatusNotAvailable(info)))
    {
      if settled { return; }
      settled := true;
      Cleanup();
      result := Some(StatusNotAvailable(info));
    }

    /** `onError` */
    method HandleError(err: Thrown)
      modifies this
      ensures old(settled) ==> State() == old(State())
      ensures !old(settled) ==> State() == Machine(true, {}, false, Some(StatusError(ErrorMessage(err))))
    {
      if settled { return; }
      settled := true;
      Cleanup();
      result := Some(StatusError(ErrorMessage(err)));
    }

    /** The timer callback. */
    method HandleTimeout()
      modifies this
      ensures old(settled) ==> State() == old(State())
      ensures !old(settled) ==> State() == Machine(true, {}, false, Some(StatusTimeout))
    {
      if settled { return; }
      settled := true;
      Cleanup();
      result := Some(StatusTimeout);
    }

    /** The updater emitting `e`, or the timer expiring: a one-shot listener
        still registered is removed and run; otherwise nothing happens. */
    method Dispatch(e: Event)
      requires Valid()
      modifies this
      ensures Valid() && State() == Deliver(old(State()), e)
    {
      match e
      case Available(info) =>
        if OnAvailable in listeners {
          listeners := listeners - {OnAvailable};
          HandleAvailable(info);
        }
      case NotAvailable(info) =>
        if OnNotAvailable in listeners {
          listeners := listeners - {OnNotAvailable};
          HandleNotAvailable(info);
        }
      case Failed(err) =>
        if OnError in listeners {
          listeners := listeners - {OnError};
          HandleError(err);
        }
      case TimerFired =>
        if timerActive {
          timerActive := false;
          HandleTimeout();
        }
      DeliverConsistent(old(State()), e);
    }

    /** Events arriving one after another. */
    method DispatchAll(events: seq<Event>)
      requires Valid()
      modifies this
      ensures Valid() && State() == DeliverAll(old(State()), events)
    {
      var i := 0;
      while i < |events|
        invariant 0 <= i <= |events|
        invariant Valid()
        invariant State() == DeliverAll(old(State()), events[..i])
      {
        DeliverAllSnoc(old(State()), events[..i], events[i]);
        assert events[..i + 1] == events[..i] + [events[i]];
        Dispatch(events[i]);
        i := i + 1;
      }
      assert events[..i] == events;
    }
  }

  /** One call of the handler, given what starting the check throws (if
      anything) and the events that follow: the value its promise resolves
      with, or None while it is still pending. */
  method CheckForUpdates(startFailure: Option<Thrown>, events: seq<Event>) returns (r: Option<CheckResult>)
    ensures startFailure.Some? ==> r == Some(StatusError(ErrorMessage(startFailure.value)))
    ensures startFailure.None? && events == [] ==> r == None
    ensures startFailure.None? && events != [] ==> match events[0]
      case Available(info) => r == Some(StatusAvailable(info))
      case NotAvailable(info) => r == Some(StatusNotAvailable(info))
      case Failed(err) => r == Some(StatusError(ErrorMessage(err)))
      case TimerFired => r == Some(StatusTimeout)
    ensures TimerFired in events ==> r.Some?
  {
    var check := new UpdateCheck(startFailure);
    check.DispatchAll(events);
    if startFailure.Some? {
      StartFailureWins(startFailure.value, events);
    } else if events != [] {
      FirstEventWins(events);
    }
    r := check.result;
  }
}
