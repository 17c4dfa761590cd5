/** The change-notification throttle and the monitor lifecycle of the Windows
    addon. The handlers `WinEventProc` and `ThrottleTimerProc` share three
    globals: the tick of the last delivery, a pending-trailing-update flag and
    the id of the trailing timer. The pure functions below say what one
    handler invocation does to them and which calls it makes; the class
    `WindowMonitor` holds the globals and its methods perform the same steps
    in place. The tick counter, timer ids and thread ids are inputs. */
module Throttle {

  import opened Common

  const THROTTLE_MS: int := 64
  const TICK_RANGE: int := 0x1_0000_0000
  /** A `GetTickCount` reading: a DWORD that wraps after 2^32 milliseconds. */
  type Tick = t: int | 0 <= t < TICK_RANGE

  const OBJID_WINDOW: int := 0
  const CHILDID_SELF: int := 0

  /** `now - lastTime` on DWORDs: subtraction modulo 2^32. */
  function Elapsed(now: Tick, last: Tick): (e: Tick)
    ensures (last + e) % TICK_RANGE == now
    ensures last <= now ==> e == now - last
    ensures now < last ==> e == now + TICK_RANGE - last
  {
    (now - last) % TICK_RANGE
  }

  /** The three throttle globals. */
  datatype ThrottleState = ThrottleState(last: Tick, pending: bool, timerId: nat)

  /** The calls a handler makes, in order. `Deliver` is the non-blocking call
      that builds a snapshot and hands it to the JavaScript callback. */
  datatype OsCall =
    | SetTimer(delay: int)
    | KillTimer(id: nat)
    | Deliver
    | CreateThread(token: nat)
    | PostQuit(threadId: nat)
    | JoinThread(token: nat)
    | ReleaseCallback

  /** Hook filter: only notifications about the window itself, not a part of it. */
  predicate IsWindowLevel(idObject: int, idChild: int) {
    idObject == OBJID_WINDOW && idChild == CHILDID_SELF
  }

  /** `WinEventProc`. `live` is `g_monitoring && g_tsfn`; `newTimer` is the
      id `SetTimer` would return. One event delivers at most once; a delivery
      records the tick and leaves nothing pending; and with a non-zero timer
      id the flag and the slot keep agreeing. */
  function OnWinEvent(live: bool, t: ThrottleState, idObject: int, idChild: int, now: Tick, newTimer: nat)
    : (r: (ThrottleState, seq<OsCall>))
    ensures CountDeliveries(r.1) <= 1
    ensures Deliver in r.1 ==> r.0 == ThrottleState(now, false, 0)
    ensures TimerIffPending(t) && newTimer != 0 ==> TimerIffPending(r.0)
  {
    if !live || !IsWindowLevel(idObject, idChild) then (t, [])
    else
      var elapsed := Elapsed(now, t.last);
      if elapsed >= THROTTLE_MS then
        var kill := if t.timerId != 0 then [KillTimer(t.timerId)] else [];
        CountDeliveriesAppend(kill, [Deliver]);
        (ThrottleState(now, false, 0), kill + [Deliver])
      else if !t.pending then
        (ThrottleState(t.last, true, newTimer), [SetTimer(THROTTLE_MS - elapsed)])
      else
        (t, [])
  }

  /** `ThrottleTimerProc` for timer `idEvent` firing at tick `now`: the timer
      always kills itself, at most one delivery is made, and the flag and the
      slot agree afterwards whatever they held. */
  function OnTimer(live: bool, t: ThrottleState, idEvent: nat, now: Tick): (r: (ThrottleState, seq<OsCall>))
    ensures KillTimer(idEvent) in r.1
    ensures CountDeliveries(r.1) <= 1
    ensures TimerIffPending(r.0) && !r.0.pending
  {
    var calls := [KillTimer(idEvent)] + (if live then [Deliver] else []);
    CountDeliveriesAppend([KillTimer(idEvent)], if live then [Deliver] else []);
    (ThrottleState(now, false, 0), calls)
  }

  /** The flag and the timer slot agree: a trailing update is pending exactly
      when a timer id is held. */
  predicate TimerIffPending(t: ThrottleState) {
    t.pending <==> t.timerId != 0
  }

  function CountDeliveries(calls: seq<OsCall>): (n: nat)
    ensures n <= |calls|
    ensures n == 0 <==> Deliver !in calls
    decreases |calls|
  {
    if calls == [] then 0
    else (if calls[0] == Deliver then 1 else 0) + CountDeliveries(calls[1..])
  }

  lemma CountDeliveriesAppend(a: seq<OsCall>, b: seq<OsCall>)
    ensures CountDeliveries(a + b) == CountDeliveries(a) + CountDeliveries(b)
    decreases |a|
  {
    if a != [] {
      assert (a + b)[0] == a[0];
      assert (a + b)[1..] == a[1..] + b;
      CountDeliveriesAppend(a[1..], b);
    } else {
      assert a + b == b;
    }
  }

  /** Leading edge: an accepted event at least THROTTLE_MS after the last
      delivery cancels the held timer and delivers once. Trailing edge: one
      inside the interval arms a single timer, for the rest of the interval,
      only when none is pending. */
  lemma WinEventEdges(t: ThrottleState, idObject: int, idChild: int, now: Tick, newTimer: nat)
    requires IsWindowLevel(idObject, idChild)
    ensures var (t', calls) := OnWinEvent(true, t, idObject, idChild, now, newTimer);
      var elapsed := Elapsed(now, t.last);
      && (elapsed >= THROTTLE_MS ==>
            t' == ThrottleState(now, false, 0) && CountDeliveries(calls) == 1
            && (t.timerId != 0 <==> KillTimer(t.timerId) in calls))
      && (elapsed < THROTTLE_MS ==>
            Deliver !in calls && t'.last == t.last && t'.pending
            && (t.pending ==> t' == t && calls == [])
            && (!t.pending ==>
                  (t'.timerId == newTimer
                   && calls == [SetTimer(THROTTLE_MS - elapsed)]
                   && 1 <= THROTTLE_MS - elapsed <= THROTTLE_MS)))
  {
    var elapsed := Elapsed(now, t.last);
    if elapsed >= THROTTLE_MS {
      var calls := (if t.timerId != 0 then [KillTimer(t.timerId)] else []) + [Deliver];
      CountDeliveriesAppend(if t.timerId != 0 then [KillTimer(t.timerId)] else [], [Deliver]);
    }
  }

  /** Events the hook filter rejects, or that arrive while not monitoring,
      change nothing and call nothing. */
  lemma DroppedEvents(live: bool, t: ThrottleState, idObject: int, idChild: int, now: Tick, newTimer: nat)
    requires !live || idObject != OBJID_WINDOW || idChild != CHILDID_SELF
    ensures OnWinEvent(live, t, idObject, idChild, now, newTimer) == (t, [])
  {
  }

  /** At most one trailing timer: a timer is armed only while the slot is
      empty, so no armed timer is ever forgotten by overwriting its id. */
  lemma ArmsOnlyWhenSlotEmpty(live: bool, t: ThrottleState, idObject: int, idChild: int, now: Tick, newTimer: nat, d: int)
    requires TimerIffPending(t)
    requires SetTimer(d) in OnWinEvent(live, t, idObject, idChild, now, newTimer).1
    ensures t.timerId == 0 && !t.pending
    ensures 1 <= d <= THROTTLE_MS
    ensures Elapsed(now, t.last) + d == THROTTLE_MS
  {
    SetTimerOnlyInsideInterval(live, t, idObject, idChild, now, newTimer);
  }

  lemma SetTimerOnlyInsideInterval(live: bool, t: ThrottleState, idObject: int, idChild: int, now: Tick, newTimer: nat)
    ensures forall d :: SetTimer(d) in OnWinEvent(live, t, idObject, idChild, now, newTimer).1 ==>
      live && IsWindowLevel(idObject, idChild) && !t.pending
      && d == THROTTLE_MS - Elapsed(now, t.last) && Elapsed(now, t.last) < THROTTLE_MS
  {
    if live && IsWindowLevel(idObject, idChild) && Elapsed(now, t.last) >= THROTTLE_MS {
      assert OnWinEvent(live, t, idObject, idChild, now, newTimer).1 ==
        (if t.timerId != 0 then [KillTimer(t.timerId)] else []) + [Deliver];
    }
  }

  /** The final state is never lost: an accepted event either delivers now or
      leaves a trailing timer armed. */
  lemma NothingLost(t: ThrottleState, idObject: int, idChild: int, now: Tick, newTimer: nat)
    requires TimerIffPending(t) && newTimer != 0
    requires IsWindowLevel(idObject, idChild)
    ensures var (t', calls) := OnWinEvent(true, t, idObject, idChild, now, newTimer);
      Deliver in calls || (t'.pending && t'.timerId != 0)
  {
  }

  /** A failed `SetTimer` (id 0) is stored after the flag is set: the
      throttle is left pending with no timer to end the interval, and the
      flag and the slot disagree. */
  lemma FailedSetTimerStrandsPending(t: ThrottleState, idObject: int, idChild: int, now: Tick)
    requires IsWindowLevel(idObject, idChild)
    requires !t.pending && Elapsed(now, t.last) < THROTTLE_MS
    ensures var (t', calls) := OnWinEvent(true, t, idObject, idChild, now, 0);
      && t'.pending && t'.timerId == 0 && !TimerIffPending(t')
      && Deliver !in calls
  {
  }

  /** A timer firing clears the flag and the slot, records the tick and
      delivers unless monitoring has stopped. */
  lemma TimerFire(live: bool, t: ThrottleState, idEvent: nat, now: Tick)
    ensures var (t', calls) := OnTimer(live, t, idEvent, now);
      && t' == ThrottleState(now, false, 0) && TimerIffPending(t')
      && KillTimer(idEvent) in calls
      && CountDeliveries(calls) == (if live then 1 else 0)
  {
    var calls := [KillTimer(idEvent)] + (if live then [Deliver] else []);
    CountDeliveriesAppend([KillTimer(idEvent)], if live then [Deliver] else []);
  }

  /** An input the two handlers receive: a hook notification or a timer tick. */
  datatype Input =
    | WinEvent(idObject: int, idChild: int, now: Tick, newTimer: nat)
    | TimerFired(idEvent: nat, now: Tick)

  function StepOn(live: bool, t: ThrottleState, i: Input): (ThrottleState, seq<OsCall>) {
    match i
    case WinEvent(o, c, now, id) => OnWinEvent(live, t, o, c, now, id)
    case TimerFired(id, now) => OnTimer(live, t, id, now)
  }

  /** The handlers run one after another over a sequence of inputs. */
  function Run(live: bool, t: ThrottleState, inputs: seq<Input>): (ThrottleState, seq<OsCall>)
    decreases |inputs|
  {
    if inputs == [] then (t, [])
    else
      var first := StepOn(live, t, inputs[0]);
      var rest := Run(live, first.0, inputs[1..]);
      (rest.0, first.1 + rest.1)
  }

  predicate TimerIdsNonZero(inputs: seq<Input>) {
    forall k :: 0 <= k < |inputs| && inputs[k].WinEvent? ==> inputs[k].newTimer != 0
  }

  /** With `SetTimer` always returning a non-zero id, the flag and the slot
      agree after any sequence of handler invocations. */
  lemma {:induction false} RunKeepsTimerIffPending(live: bool, t: ThrottleState, inputs: seq<Input>)
    requires TimerIffPending(t) && TimerIdsNonZero(inputs)
    ensures TimerIffPending(Run(live, t, inputs).0)
    decreases |inputs|
  {
    if inputs != [] {
      var t1 := StepOn(live, t, inputs[0]).0;
      assert TimerIffPending(t1);
      assert TimerIdsNonZero(inputs[1..]) by {
        forall k | 0 <= k < |inputs[1..]| && inputs[1..][k].WinEvent?
          ensures inputs[1..][k].newTimer != 0
        {
          assert inputs[1..][k] == inputs[k + 1];
        }
      }
      RunKeepsTimerIffPending(live, t1, inputs[1..]);
    }
  }

  /** After stop nothing is delivered, whatever events and timer ticks still
      arrive. */
  lemma {:induction false} StoppedNeverDelivers(t: ThrottleState, inputs: seq<Input>)
    ensures CountDeliveries(Run(false, t, inputs).1) == 0
    decreases |inputs|
  {
    if inputs != [] {
      var t1 := StepOn(false, t, inputs[0]).0;
      var c1 := StepOn(false, t, inputs[0]).1;
      StoppedNeverDelivers(t1, inputs[1..]);
      CountDeliveriesAppend(c1, Run(false, t1, inputs[1..]).1);
      assert CountDeliveries(c1) == 0;
    }
  }

  /** Accepted events inside the interval of the last delivery. */
  predicate InsideInterval(inputs: seq<Input>, last: Tick) {
    forall k :: 0 <= k < |inputs| ==>
      inputs[k].WinEvent? && IsWindowLevel(inputs[k].idObject, inputs[k].idChild)
      && Elapsed(inputs[k].now, last) < THROTTLE_MS
  }

  /** While a trailing update is pending, further events of the burst are
      absorbed: no state change, no call. */
  lemma {:induction false} PendingAbsorbsBurst(t: ThrottleState, inputs: seq<Input>)
    requires t.pending && InsideInterval(inputs, t.last)
    ensures Run(true, t, inputs) == (t, [])
    decreases |inputs|
  {
    if inputs != [] {
      assert StepOn(true, t, inputs[0]) == (t, []);
      assert InsideInterval(inputs[1..], t.last) by {
        forall k | 0 <= k < |inputs[1..]| ensures inputs[1..][k] == inputs[k + 1] { }
      }
      PendingAbsorbsBurst(t, inputs[1..]);
      assert Run(true, t, inputs).1 == [] + [];
    }
  }

  /** A burst - a first event at least THROTTLE_MS after the last delivery,
      then one or more events inside the interval it opens - followed by the
      trailing timer's tick gives exactly two deliveries: one at the first
      event and one when the timer, armed for the rest of the interval,
      fires. */
  lemma BurstDeliversTwice(t: ThrottleState, first: Input, rest: seq<Input>, idEvent: nat, fireAt: Tick)
    requires first.WinEvent? && IsWindowLevel(first.idObject, first.idChild)
    requires Elapsed(first.now, t.last) >= THROTTLE_MS
    requires rest != [] && InsideInterval(rest, first.now)
    ensures OnWinEvent(true, ThrottleState(first.now, false, 0), rest[0].idObject, rest[0].idChild,
                       rest[0].now, rest[0].newTimer).1
            == [SetTimer(THROTTLE_MS - Elapsed(rest[0].now, first.now))]
    ensures Run(true, t, [first] + rest + [TimerFired(idEvent, fireAt)]).0 == ThrottleState(fireAt, false, 0)
    ensures CountDeliveries(Run(true, t, [first] + rest + [TimerFired(idEvent, fireAt)]).1) == 2
  {
    var t1 := ThrottleState(first.now, false, 0);
    var c1 := (if t.timerId != 0 then [KillTimer(t.timerId)] else []) + [Deliver];
    assert StepOn(true, t, first) == (t1, c1);
    CountDeliveriesAppend(if t.timerId != 0 then [KillTimer(t.timerId)] else [], [Deliver]);
    var fire := [TimerFired(idEvent, fireAt)];
    var tail := Run(true, t1, rest + fire);
    TrailingTimerDeliversOnce(t1, rest, fire);
    var whole := [first] + rest + fire;
    ConsSplit(first, rest, fire);
    RunCons(true, t, whole, (t1, c1));
    CountDeliveriesAppend(c1, tail.1);
  }

  lemma ConsSplit<T>(x: T, a: seq<T>, b: seq<T>)
    ensures ([x] + a + b)[0] == x && ([x] + a + b)[1..] == a + b
  {
    assert ([x] + a + b)[1..] == a + b by {
      forall k | 0 <= k < |a + b| ensures ([x] + a + b)[1..][k] == (a + b)[k] { }
    }
  }

  /** The part of a burst after its leading edge: the first event arms the
      timer, the others are absorbed, the tick delivers. */
  lemma TrailingTimerDeliversOnce(t1: ThrottleState, rest: seq<Input>, fire: seq<Input>)
    requires !t1.pending && rest != [] && InsideInterval(rest, t1.last)
    requires |fire| == 1 && fire[0].TimerFired?
    ensures Run(true, t1, rest + fire).0 == ThrottleState(fire[0].now, false, 0)
    ensures CountDeliveries(Run(true, t1, rest + fire).1) == 1
  {
    var t2 := ThrottleState(t1.last, true, rest[0].newTimer);
    var c2 := [SetTimer(THROTTLE_MS - Elapsed(rest[0].now, t1.last))];
    assert StepOn(true, t1, rest[0]) == (t2, c2);
    assert InsideInterval(rest[1..], t1.last) by {
      forall k | 0 <= k < |rest[1..]| ensures rest[1..][k] == rest[k + 1] { }
    }
    PendingAbsorbsBurst(t2, rest[1..]);
    RunAppend(true, t2, rest[1..], fire);
    var c3 := [KillTimer(fire[0].idEvent), Deliver];
    TickDelivers(t2, fire);
    assert [] + c3 == c3;
    assert Run(true, t2, rest[1..] + fire) == (ThrottleState(fire[0].now, false, 0), c3);
    AppendTail(rest, fire);
    RunCons(true, t1, rest + fire, (t2, c2));
    CountDeliveriesAppend(c2, c3);
  }

  /** A lone tick of the timer kills it and delivers once, whatever the state. */
  lemma TickDelivers(t: ThrottleState, fire: seq<Input>)
    requires |fire| == 1 && fire[0].TimerFired?
    ensures Run(true, t, fire) == (ThrottleState(fire[0].now, false, 0), [KillTimer(fire[0].idEvent), Deliver])
    ensures CountDeliveries([KillTimer(fire[0].idEvent), Deliver]) == 1
  {
    var c3 := [KillTimer(fire[0].idEvent), Deliver];
    var t3 := ThrottleState(fire[0].now, false, 0);
    assert fire[1..] == [];
    assert OnTimer(true, t, fire[0].idEvent, fire[0].now).0 == t3;
    assert [KillTimer(fire[0].idEvent)] + [Deliver] == c3;
    assert OnTimer(true, t, fire[0].idEvent, fire[0].now).1 == c3;
    assert StepOn(true, t, fire[0]) == (t3, c3);
    assert Run(true, t3, fire[1..]) == (t3, []);
    assert c3 + [] == c3;
    assert c3[1..] == [Deliver];
    assert [Deliver][1..] == [];
  }

  /** Running two input sequences one after the other. */
  /** One unfolding of `Run` on a non-empty input sequence. */
  lemma RunCons(live: bool, t: ThrottleState, s: seq<Input>, first: (ThrottleState, seq<OsCall>))
    requires s != [] && first == StepOn(live, t, s[0])
    ensures Run(live, t, s) == (Run(live, first.0, s[1..]).0, first.1 + Run(live, first.0, s[1..]).1)
  {
  }

  lemma {:induction false} RunAppend(live: bool, t: ThrottleState, a: seq<Input>, b: seq<Input>)
    ensures Run(live, t, a + b) ==
      (Run(live, Run(live, t, a).0, b).0, Run(live, t, a).1 + Run(live, Run(live, t, a).0, b).1)
    decreases |a|
  {
    if a == [] {
      assert a + b == b;
      assert [] + Run(live, t, b).1 == Run(live, t, b).1;
    } else {
      var s1 := StepOn(live, t, a[0]);
      AppendTail(a, b);
      RunAppend(live, s1.0, a[1..], b);
      RunCons(live, t, a + b, s1);
      RunCons(live, t, a, s1);
      var ra := Run(live, s1.0, a[1..]);
      var rb := Run(live, ra.0, b);
      AppendAssoc(s1.1, ra.1, rb.1);
    }
  }

  lemma AppendTail<T>(a: seq<T>, b: seq<T>)
    requires a != []
    ensures (a + b)[0] == a[0] && (a + b)[1..] == a[1..] + b
  {
  }

  lemma AppendAssoc<T>(x: seq<T>, y: seq<T>, z: seq<T>)
    ensures x + (y + z) == (x + y) + z
  {
  }

  /** The `SetWinEventHook` registrations the monitor thread makes. */
  datatype HookedEvent =
    | ObjectLocationChange | ObjectReorder | ObjectCreate | ObjectDestroy
    | SystemMoveSizeEnd | SystemForeground | SystemMinimizeStart | SystemMinimizeEnd

  const HOOKED_EVENTS: seq<HookedEvent> := [
    ObjectLocationChange, ObjectReorder, ObjectCreate, ObjectDestroy,
    SystemMoveSizeEnd, SystemForeground, SystemMinimizeStart, SystemMinimizeEnd
  ]

  /** The argument given to `startWindowsMonitoring`. */
  datatype CallbackArg = NoArgument | FunctionValue(callback: nat) | OtherValue

  /** What a call returns to JavaScript: `undefined`, or a thrown error. */
  datatype JsOutcome = Undefined | ThrewTypeError(message: string)

  /** The monitoring globals of the addon. */
  class WindowMonitor {
    var monitoring: bool
    var tsfn: Option<nat>            // callback bound to the thread-safe function
    var tsfnReleased: bool
    var monitorThread: Option<nat>   // opaque token of the std::thread
    var monitorThreadId: nat
    var hooks: seq<HookedEvent>
    var lastProcessedTime: Tick
    var pendingTrailingUpdate: bool
    var throttleTimerId: nat
    var threadsCreated: nat
    var calls: seq<OsCall>           // every call made so far, in order

    function Throttle(): ThrottleState
      reads this
    {
      ThrottleState(lastProcessedTime, pendingTrailingUpdate, throttleTimerId)
    }

    /** `g_monitoring && g_tsfn`, the guard of both handlers. */
    predicate Live()
      reads this
    {
      monitoring && tsfn.Some?
    }

    ghost predicate Valid()
      reads this
    {
      && (throttleTimerId != 0 ==> pendingTrailingUpdate)
      && (monitoring ==> tsfn.Some? && !tsfnReleased && monitorThread.Some? && monitorThreadId != 0 && hooks == HOOKED_EVENTS)
      && (!monitoring ==> monitorThread.None? && monitorThreadId == 0 && hooks == []
                          && throttleTimerId == 0 && !pendingTrailingUpdate)
    }

    /** The globals as the addon is loaded. */
    constructor ()
      ensures Valid() && !monitoring && tsfn.None? && calls == [] && threadsCreated == 0
      ensures Throttle() == ThrottleState(0, false, 0)
    {
      monitoring, tsfn, tsfnReleased := false, None, false;
      monitorThread, monitorThreadId, hooks := None, 0, [];
      lastProcessedTime, pendingTrailingUpdate, throttleTimerId := 0, false, 0;
      threadsCreated, calls := 0, [];
    }

    /** `invokeWindowsSummaryCallback`: a non-blocking call, skipped when the
        monitor has stopped. */
    method InvokeWindowsSummaryCallback() returns (delivered: bool)
      modifies this`calls
      ensures delivered == Live()
      ensures calls == old(calls) + (if delivered then [Deliver] else [])
    {
      if !monitoring || tsfn.None? {
        return false;
      }
      calls := calls + [Deliver];
      delivered := true;
    }

    method WinEventProc(idObject: int, idChild: int, now: Tick, newTimerId: nat)
      requires Valid()
      modifies this
      ensures Valid()
      ensures Throttle() == OnWinEvent(old(Live()), old(Throttle()), idObject, idChild, now, newTimerId).0
      ensures calls == old(calls) + OnWinEvent(old(Live()), old(Throttle()), idObject, idChild, now, newTimerId).1
      ensures monitoring == old(monitoring) && tsfn == old(tsfn) && tsfnReleased == old(tsfnReleased)
      ensures monitorThread == old(monitorThread) && monitorThreadId == old(monitorThreadId)
      ensures hooks == old(hooks) && threadsCreated == old(threadsCreated)
    {
      if !monitoring || tsfn.None? {
        return;
      }
      if idObject != OBJID_WINDOW || idChild != CHILDID_SELF {
        return;
      }
      var lastTime := lastProcessedTime;
      var elapsed := Elapsed(now, lastTime);
      if elapsed >= THROTTLE_MS {
        lastProcessedTime := now;
        pendingTrailingUpdate := false;
        if throttleTimerId != 0 {
          calls := calls + [KillTimer(throttleTimerId)];
          throttleTimerId := 0;
        }
        var _ := InvokeWindowsSummaryCallback();
      } else {
        var wasPending := pendingTrailingUpdate;
        pendingTrailingUpdate := true;
        if !wasPending {
          var delay := THROTTLE_MS - elapsed;
          calls := calls + [SetTimer(delay)];
          throttleTimerId := newTimerId;
        }
      }
    }

    method ThrottleTimerProc(idEvent: nat, now: Tick)
      requires Valid()
      modifies this
      ensures Valid()
      ensures Throttle() == OnTimer(old(Live()), old(Throttle()), idEvent, now).0
      ensures calls == old(calls) + OnTimer(old(Live()), old(Throttle()), idEvent, now).1
      ensures monitoring == old(monitoring) && tsfn == old(tsfn) && tsfnReleased == old(tsfnReleased)
      ensures monitorThread == old(monitorThread) && monitorThreadId == old(monitorThreadId)
      ensures hooks == old(hooks) && threadsCreated == old(threadsCreated)
    {
      calls := calls + [KillTimer(idEvent)];
      throttleTimerId := 0;
      lastProcessedTime := now;
      pendingTrailingUpdate := false;
      var _ := InvokeWindowsSummaryCallback();
    }

    /** `startWindowsMonitoring`, with the new thread's start-up (recording
        its id, installing the hooks) taken as part of the same step.
        `threadId` is the id that thread reports. */
    method StartWindowsMonitoring(arg: CallbackArg, threadId: nat) returns (r: JsOutcome)
      requires Valid() && threadId != 0
      modifies this
      ensures Valid()
      ensures old(monitoring) ==> r == Undefined && unchanged(this)
      ensures !old(monitoring) && !arg.FunctionValue? ==>
                r == ThrewTypeError("Function callback expected") && unchanged(this)
      ensures !old(monitoring) && arg.FunctionValue? ==>
                && r == Undefined && monitoring && Live()
                && tsfn == Some(arg.callback) && !tsfnReleased
                && monitorThread == Some(old(threadsCreated)) && threadsCreated == old(threadsCreated) + 1
                && monitorThreadId == threadId && hooks == HOOKED_EVENTS
                && Throttle() == old(Throttle())
                && calls == old(calls) + [CreateThread(old(threadsCreated))]
    {
      if monitoring {
        return Undefined;
      }
      if !arg.FunctionValue? {
        return ThrewTypeError("Function callback expected");
      }
      tsfn := Some(arg.callback);
      tsfnReleased := false;
      monitoring := true;
      monitorThread := Some(threadsCreated);
      calls := calls + [CreateThread(threadsCreated)];
      threadsCreated := threadsCreated + 1;
      // MonitorThreadProc: record the thread id, install the hooks
      monitorThreadId := threadId;
      hooks := HOOKED_EVENTS;
      r := Undefined;
    }

    /** `stopWindowsMonitoring`. Joining the thread includes its exit from the
        message loop, which removes the hooks. */
    method StopWindowsMonitoring() returns (r: JsOutcome)
      requires Valid()
      modifies this
      ensures Valid() && r == Undefined
      ensures !old(monitoring) ==> unchanged(this)
      ensures old(monitoring) ==>
                && !monitoring && !Live()
                && Throttle() == ThrottleState(0, false, 0)
                && monitorThread.None? && monitorThreadId == 0 && hooks == []
                && tsfn == old(tsfn) && tsfnReleased && threadsCreated == old(threadsCreated)
                && calls == old(calls)
                     + (if old(throttleTimerId) != 0 then [KillTimer(old(throttleTimerId))] else [])
                     + [PostQuit(old(monitorThreadId)), JoinThread(old(monitorThread).value), ReleaseCallback]
    {
      if !monitoring {
        return Undefined;
      }
      var log := calls;
      if throttleTimerId != 0 {
        log := log + [KillTimer(throttleTimerId)];
      }
      if monitorThreadId != 0 {
        log := log + [PostQuit(monitorThreadId)];
      }
      if monitorThread.Some? {
        log := log + [JoinThread(monitorThread.value)];
      }
      if tsfn.Some? {
        log := log + [ReleaseCallback];
      }
      calls := log;
      throttleTimerId, pendingTrailingUpdate, lastProcessedTime := 0, false, 0;
      if monitorThread.Some? {
        hooks, monitorThread := [], None;   // the thread unhooks before it ends
      }
      monitorThreadId := 0;
      if tsfn.Some? {
        tsfnReleased := true;
      }
      monitoring := false;
      r := Undefined;
    }
  }

  /** A second start with a callback creates no second thread: two starts
      leave the monitor exactly as the first successful one did. */
  method StartIsIdempotent(m: WindowMonitor, fn1: nat, arg2: CallbackArg, tid1: nat, tid2: nat)
    returns (r2: JsOutcome)
    requires m.Valid() && tid1 != 0 && tid2 != 0
    modifies m
    ensures m.Valid() && m.monitoring && r2 == Undefined
    ensures old(m.monitoring) ==> unchanged(m)
    ensures !old(m.monitoring) ==>
              && m.tsfn == Some(fn1) && m.monitorThreadId == tid1
              && m.threadsCreated == old(m.threadsCreated) + 1
              && m.calls == old(m.calls) + [CreateThread(old(m.threadsCreated))]
  {
    var r1 := m.StartWindowsMonitoring(FunctionValue(fn1), tid1);
    r2 := m.StartWindowsMonitoring(arg2, tid2);
  }

  /** A second stop is a no-op: two stops make the calls of one and reset the
      throttle state. */
  method StopIsIdempotent(m: WindowMonitor)
    requires m.Valid()
    modifies m
    ensures m.Valid() && !m.monitoring && !m.Live()
    ensures m.Throttle() == (if old(m.monitoring) then ThrottleState(0, false, 0) else old(m.Throttle()))
    ensures m.threadsCreated == old(m.threadsCreated) && m.tsfn == old(m.tsfn)
    ensures m.calls == old(m.calls) +
              (if !old(m.monitoring) then []
               else (if old(m.throttleTimerId) != 0 then [KillTimer(old(m.throttleTimerId))] else [])
                    + [PostQuit(old(m.monitorThreadId)), JoinThread(old(m.monitorThread).value), ReleaseCallback])
  {
    var s1 := m.StopWindowsMonitoring();
    var s2 := m.StopWindowsMonitoring();
  }
}
