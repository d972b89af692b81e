/** The idle watchdog (hooks/idleTimer.ts): after `idleTime` milliseconds
    without user activity it calls `onIdle`.

    Time is a virtual clock advanced explicitly. The host's timer table is a
    map from timer handle to due time, `timeoutRef.current` an optional
    handle, the document's listeners the set of event names this hook has
    attached, and `fired` counts the calls of `onIdle`. The step functions
    below are the specification; the `IdleWatchdog` class performs the same
    steps by assigning its fields, attaching and detaching listeners in loops
    as the hook's `forEach` calls do. */
module IdleTimer {
  import opened Types

  /** The hook's default inactivity window: two minutes. */
  const DefaultIdleTime: nat := 120000

  /** The largest delay a browser timer honours: `setTimeout` converts its
      delay to a signed 32-bit integer (the Web IDL `long` conversion). */
  const MaxTimerDelay: nat := 0x7FFF_FFFF

  /** 2^32: the delay is taken modulo this before it is read as signed. */
  const TimerModulus: nat := 0x1_0000_0000

  /** The document events that count as activity, in the order they are attached. */
  const ActivityEvents: seq<string> := ["mousedown", "mousemove", "keypress", "scroll", "touchstart", "click"]

  function EventSet(): set<string> {
    set i | 0 <= i < |ActivityEvents| :: ActivityEvents[i]
  }

  /** The delay the browser actually waits for `setTimeout(cb, ms)`: `ms`
      wrapped to a signed 32-bit integer, a negative result counting as 0. */
  function TimerDelay(ms: nat): (d: nat)
    ensures d <= MaxTimerDelay
    ensures ms <= MaxTimerDelay ==> d == ms
    ensures d == 0 || (ms - d) % TimerModulus == 0
    ensures d == 0 <==> ms % TimerModulus == 0 || ms % TimerModulus > MaxTimerDelay
  {
    var wrapped := ms % TimerModulus;
    if wrapped > MaxTimerDelay then 0 else wrapped
  }

  /** The wrap-around in figures: a delay of 2^31 ms fires at once, as does
      2^32 - 1 ms, and 2^32 + 5000 ms waits only five seconds. */
  lemma TimerDelayWraps()
    ensures TimerDelay(MaxTimerDelay + 1) == 0
    ensures TimerDelay(TimerModulus - 1) == 0
    ensures TimerDelay(TimerModulus + 5000) == 5000
  {
  }

  datatype Watch = Watch(
    idleTime: nat,
    now: int,
    timers: map<nat, int>,
    nextHandle: nat,
    timeoutRef: Option<nat>,
    listeners: set<string>,
    fired: nat)

  /** The hook's invariant: handles are positive, every pending timer is the
      one `timeoutRef` holds, and only activity events are listened to. */
  ghost predicate Valid(w: Watch) {
    && w.nextHandle >= 1
    && (forall h :: h in w.timers ==> w.timeoutRef == Some(h))
    && (w.timeoutRef.Some? ==> 1 <= w.timeoutRef.value < w.nextHandle)
    && w.listeners <= EventSet()
  }

  /** The due time of the pending timer, if there is one. */
  function Pending(w: Watch): Option<int> {
    if w.timeoutRef.Some? && w.timeoutRef.value in w.timers then Some(w.timers[w.timeoutRef.value]) else None
  }

  /** At most one timer is ever pending, and it is the one `Pending` reports. */
  lemma AtMostOnePending(w: Watch)
    requires Valid(w)
    ensures |w.timers| <= 1
    ensures Pending(w).None? <==> w.timers == map[]
  {
    if w.timeoutRef.Some? && w.timeoutRef.value in w.timers {
      assert w.timers.Keys == {w.timeoutRef.value};
    } else {
      assert w.timers.Keys == {};
    }
  }

  /** The state when the hook is first rendered at time `now`: no listener,
      no timer, nothing fired. */
  function Mount(now: int, idleTime: nat := DefaultIdleTime): (w: Watch)
    ensures Valid(w) && Pending(w).None? && w.listeners == {} && w.fired == 0
  {
    Watch(idleTime, now, map[], 1, None, {}, 0)
  }

  /** `resetTimer`: cancel the timer `timeoutRef` holds, if any, then schedule
      a new one `idleTime` from now and remember its handle. */
  function ResetTimerStep(w: Watch): (r: Watch)
    ensures Valid(w) ==> Valid(r) && |r.timers| == 1
    ensures Pending(r) == Some(w.now + TimerDelay(w.idleTime))
    ensures r.listeners == w.listeners && r.fired == w.fired && r.now == w.now && r.idleTime == w.idleTime
  {
    var cancelled :=
      if w.timeoutRef.Some? && w.timeoutRef.value != 0 then w.timers - {w.timeoutRef.value} else w.timers;
    var handle := w.nextHandle;
    w.(timers := cancelled[handle := w.now + TimerDelay(w.idleTime)],
       timeoutRef := Some(handle),
       nextHandle := handle + 1)
  }

  /** The activation effect: attach a listener for each activity event, then
      arm the first deadline, even if no activity ever follows. */
  function ActivateStep(w: Watch): (r: Watch)
    ensures Valid(w) ==> Valid(r)
    ensures r.listeners == w.listeners + EventSet()
    ensures Pending(r) == Some(w.now + TimerDelay(w.idleTime))
    ensures r.fired == w.fired && r.now == w.now
  {
    ResetTimerStep(w.(listeners := w.listeners + EventSet()))
  }

  /** A document event at the current time: an event the hook listens to
      moves the deadline to now + `idleTime`; any other event changes nothing. */
  function DispatchStep(w: Watch, event: string): (r: Watch)
    ensures Valid(w) ==> Valid(r)
    ensures event in w.listeners ==> Pending(r) == Some(w.now + TimerDelay(w.idleTime))
    ensures event !in w.listeners ==> r == w
    ensures r.listeners == w.listeners && r.fired == w.fired && r.now == w.now
  {
    if event in w.listeners then ResetTimerStep(w) else w
  }

  /** The clock advances to `t`: every pending timer due by then fires once
      (calling `onIdle`) and is gone. A time not after the clock changes nothing. */
  function AdvanceStep(w: Watch, t: int): (r: Watch)
    ensures r.listeners == w.listeners && r.timeoutRef == w.timeoutRef && r.idleTime == w.idleTime
    ensures r.now == if t > w.now then t else w.now
  {
    if t <= w.now then w
    else
      var due := set h | h in w.timers && w.timers[h] <= t;
      w.(now := t,
         timers := map h | h in w.timers && w.timers[h] > t :: w.timers[h],
         fired := w.fired + |due|)
  }

  /** Advancing the clock fires `onIdle` exactly once when the pending deadline
      falls in the elapsed interval, and otherwise not at all; firing does not
      re-arm. */
  lemma {:induction false} AdvanceFiresAtDeadline(w: Watch, t: int)
    requires Valid(w) && t > w.now
    ensures var r := AdvanceStep(w, t);
      && Valid(r)
      && (Pending(w).Some? && Pending(w).value <= t ==> r.fired == w.fired + 1 && Pending(r).None?)
      && (Pending(w).None? || Pending(w).value > t ==> r.fired == w.fired && Pending(r) == Pending(w))
  {
    var due := set h | h in w.timers && w.timers[h] <= t;
    if Pending(w).Some? && Pending(w).value <= t {
      assert due == {w.timeoutRef.value};
    } else {
      assert due == {};
    }
  }

  /** The cleanup: detach every activity listener and cancel the timer
      `timeoutRef` holds, if any. */
  function TeardownStep(w: Watch): (r: Watch)
    ensures Valid(w) ==> Valid(r) && r.listeners == {} && Pending(r).None? && r.timers == map[]
    ensures r.fired == w.fired && r.now == w.now
  {
    var cancelled :=
      if w.timeoutRef.Some? && w.timeoutRef.value != 0 then w.timers - {w.timeoutRef.value} else w.timers;
    w.(listeners := w.listeners - EventSet(), timers := cancelled)
  }

  /** What happens to the watchdog from outside: time passes, or a document event occurs. */
  datatype Input = Tick(t: int) | Event(name: string)

  function Run(w: Watch, inputs: seq<Input>): Watch
    decreases |inputs|
  {
    if inputs == [] then w
    else
      var next := match inputs[0]
        case Tick(t) => AdvanceStep(w, t)
        case Event(name) => DispatchStep(w, name);
      Run(next, inputs[1..])
  }

  /** User activity: at each time in `times` the clock reaches it and the
      event of the same position in `events` occurs. */
  function Activity(times: seq<int>, events: seq<string>): (inputs: seq<Input>)
    requires |events| == |times|
    ensures |inputs| == 2 * |times|
  {
    if times == [] then [] else [Tick(times[0]), Event(events[0])] + Activity(times[1..], events[1..])
  }

  /** Only time passing: the clock is advanced to each time in `times` in turn. */
  function Ticks(times: seq<int>): (inputs: seq<Input>)
    ensures |inputs| == |times|
  {
    if times == [] then [] else [Tick(times[0])] + Ticks(times[1..])
  }

  /** The state `Run` reaches on `Activity(times, events)`, one activity moment at a time. */
  function ActivityRun(w: Watch, times: seq<int>, events: seq<string>): (r: Watch)
    requires |events| == |times|
    ensures r == Run(w, Activity(times, events))
    decreases |times|
  {
    if times == [] then w
    else ActivityRun(DispatchStep(AdvanceStep(w, times[0]), events[0]), times[1..], events[1..])
  }

  /** The last element of a non-empty sequence of times. */
  function Last(times: seq<int>): int
    requires times != []
  {
    times[|times| - 1]
  }

  /** Each time in `times` is no earlier than the one before, and less than
      `gap` after it; events in the same millisecond are allowed. */
  predicate GapsBelow(times: seq<int>, gap: int)
    decreases |times|
  {
    |times| <= 1 || (times[0] <= times[1] < times[0] + gap && GapsBelow(times[1..], gap))
  }

  /** One moment of activity before the pending deadline, possibly at the
      current instant: nothing fires and the deadline moves to that moment
      plus `idleTime`. */
  lemma ActivityBeforeDeadline(w: Watch, t: int, event: string)
    requires Valid(w) && event in w.listeners
    requires Pending(w).Some? && w.now <= t < Pending(w).value
    ensures var d := DispatchStep(AdvanceStep(w, t), event);
      && Valid(d) && d.fired == w.fired && d.listeners == w.listeners && d.now == t
      && d.idleTime == w.idleTime && Pending(d) == Some(t + TimerDelay(w.idleTime))
  {
    if t > w.now {
      AdvanceFiresAtDeadline(w, t);
    }
  }

  /** Activity that never leaves a gap of `idleTime` never fires `onIdle`,
      whichever listened events it is made of: if the first event comes
      before the pending deadline and each later one less than `idleTime`
      after the one before, nothing fires and the deadline ends up `idleTime`
      after the last event. */
  lemma {:induction false} ShortGapsNeverFire(w: Watch, times: seq<int>, events: seq<string>)
    requires Valid(w) && |events| == |times|
    requires forall i :: 0 <= i < |events| ==> events[i] in w.listeners
    requires Pending(w).Some?
    requires times != [] ==> w.now <= times[0] < Pending(w).value
    requires GapsBelow(times, TimerDelay(w.idleTime))
    ensures Valid(ActivityRun(w, times, events))
    ensures ActivityRun(w, times, events).fired == w.fired
    ensures ActivityRun(w, times, events).listeners == w.listeners
    ensures times != [] ==> Pending(ActivityRun(w, times, events)).Some?
    ensures times != [] ==> Pending(ActivityRun(w, times, events)).value == Last(times) + TimerDelay(w.idleTime)
    decreases |times|
  {
    if times != [] {
      ActivityBeforeDeadline(w, times[0], events[0]);
      var d := DispatchStep(AdvanceStep(w, times[0]), events[0]);
      assert ActivityRun(w, times, events) == ActivityRun(d, times[1..], events[1..]);
      assert forall i :: 0 <= i < |events[1..]| ==> events[1..][i] == events[i + 1];
      assert GapsBelow(times[1..], TimerDelay(d.idleTime));
      ShortGapsNeverFire(d, times[1..], events[1..]);
      if |times| > 1 {
        assert Last(times[1..]) == Last(times);
      } else {
        assert times[1..] == [];
      }
    }
  }

  /** Once nothing is pending, the passing of time alone never fires `onIdle`. */
  lemma {:induction false} NoRearmWithoutActivity(w: Watch, times: seq<int>)
    requires Valid(w) && Pending(w).None?
    ensures var r := Run(w, Ticks(times));
      r.fired == w.fired && Pending(r).None? && Valid(r)
    decreases |times|
  {
    if times != [] {
      if times[0] > w.now {
        AdvanceFiresAtDeadline(w, times[0]);
      }
      var next := AdvanceStep(w, times[0]);
      assert Ticks(times)[1..] == Ticks(times[1..]);
      NoRearmWithoutActivity(next, times[1..]);
    }
  }

  /** After teardown nothing ever fires again, whatever time passes and
      whatever events occur: no listener is left to re-arm a deadline. */
  lemma {:induction false} SilentAfterTeardown(w: Watch, inputs: seq<Input>)
    requires Valid(w)
    ensures var r := Run(TeardownStep(w), inputs);
      r.fired == w.fired && Pending(r).None? && r.listeners == {}
    decreases |inputs|
  {
    if inputs != [] {
      var t := TeardownStep(w);
      var next := match inputs[0]
        case Tick(time) => AdvanceStep(t, time)
        case Event(name) => DispatchStep(t, name);
      if inputs[0].Tick? && inputs[0].t > t.now {
        AdvanceFiresAtDeadline(t, inputs[0].t);
      }
      assert TeardownStep(next) == next;
      SilentAfterTeardown(next, inputs[1..]);
    }
  }

  /** Activation followed by `idleTime` of silence fires `onIdle` exactly once,
      at the deadline and not a millisecond before. */
  lemma IdleAfterActivationFiresOnce(w: Watch)
    requires Valid(w) && Pending(w).None?
    ensures var a := ActivateStep(w); var d := TimerDelay(w.idleTime);
      && AdvanceStep(a, w.now + d - 1).fired == w.fired
      && AdvanceStep(a, w.now + (if d == 0 then 1 else d)).fired == w.fired + 1
  {
    var a := ActivateStep(w);
    var d := TimerDelay(w.idleTime);
    if d > 1 {
      AdvanceFiresAtDeadline(a, w.now + d - 1);
    }
    AdvanceFiresAtDeadline(a, w.now + (if d == 0 then 1 else d));
  }

  /** The worked scenario with a 100 ms window: silence for 150 ms fires once;
      one event at 50 ms means nothing has fired at 130 ms and one call has
      happened by 151 ms. */
  lemma Scenario()
    ensures Run(ActivateStep(Mount(0, 100)), [Tick(150)]).fired == 1
    ensures Run(ActivateStep(Mount(0, 100)), [Tick(50), Event("mousemove"), Tick(130)]).fired == 0
    ensures Run(ActivateStep(Mount(0, 100)), [Tick(50), Event("mousemove"), Tick(130), Tick(151)]).fired == 1
  {
    var a := ActivateStep(Mount(0, 100));
    AdvanceFiresAtDeadline(a, 150);
    assert "mousemove" == ActivityEvents[1];
    var b := DispatchStep(AdvanceStep(a, 50), "mousemove");
    AdvanceFiresAtDeadline(a, 50);
    AdvanceFiresAtDeadline(b, 130);
    AdvanceFiresAtDeadline(AdvanceStep(b, 130), 151);
  }

  /** The hook instance: the fields the step functions describe, updated in place. */
  class IdleWatchdog {
    var idleTime: nat
    var now: int
    var timers: map<nat, int>
    var nextHandle: nat
    var timeoutRef: Option<nat>
    var listeners: set<string>
    var fired: nat

    function State(): Watch
      reads this
    {
      Watch(idleTime, now, timers, nextHandle, timeoutRef, listeners, fired)
    }

    constructor(now: int, idleTime: nat := DefaultIdleTime)
      ensures State() == Mount(now, idleTime)
    {
      this.idleTime, this.now := idleTime, now;
      timers, nextHandle, timeoutRef := map[], 1, None;
      listeners, fired := {}, 0;
    }

    method ResetTimer()
      modifies this
      ensures State() == ResetTimerStep(old(State()))
    {
      if timeoutRef.Some? && timeoutRef.value != 0 {
        timers := timers - {timeoutRef.value};
      }
      timers := timers[nextHandle := now + TimerDelay(idleTime)];
      timeoutRef := Some(nextHandle);
      nextHandle := nextHandle + 1;
    }

    method Activate()
      modifies this
      ensures State() == ActivateStep(old(State()))
    {
      for i := 0 to |ActivityEvents|
        invariant listeners == old(listeners) + set j | 0 <= j < i :: ActivityEvents[j]
        invariant State() == old(State()).(listeners := listeners)
      {
        listeners := listeners + {ActivityEvents[i]};
      }
      ResetTimer();
    }

    method Dispatch(event: string)
      modifies this
      ensures State() == DispatchStep(old(State()), event)
    {
      if event in listeners {
        ResetTimer();
      }
    }

    method AdvanceTo(t: int)
      modifies this
      ensures State() == AdvanceStep(old(State()), t)
    {
      if t > now {
        var due := set h | h in timers && timers[h] <= t;
        timers := map h | h in timers && timers[h] > t :: timers[h];
        fired := fired + |due|;
        now := t;
      }
    }

    method Teardown()
      modifies this
      ensures State() == TeardownStep(old(State()))
    {
      for i := 0 to |ActivityEvents|
        invariant listeners == old(listeners) - set j | 0 <= j < i :: ActivityEvents[j]
        invariant State() == old(State()).(listeners := listeners)
      {
        listeners := listeners - {ActivityEvents[i]};
      }
      if timeoutRef.Some? && timeoutRef.value != 0 {
        timers := timers - {timeoutRef.value};
      }
    }
  }
}
