/** The JavaScript layer over the addon: the `WindowManager` event emitter
    whose `newListener`/`removeListener` handlers start and stop the native
    sources on demand, recording them in the module-level `registeredEvents`;
    the operating-system version gate of `Monitor.getScaleFactor`; the handle
    `Window.setParent` passes on; the `getWindows` filter; and
    `getPrimaryMonitor`. What the addon answers is an input. */
module WindowManagerJs {

  import opened Common
  import opened JsText

  /** An event name, as the handlers tell them apart. */
  datatype EventName =
    | WindowActivated          // "window-activated"
    | WindowsSummaryUpdated    // "windows-summary-updated"
    | NewListener              // "newListener", emitted by the emitter itself
    | RemoveListenerEvent      // "removeListener", likewise
    | OtherEvent(name: string) // any other name

  const WINDOW_ACTIVATED: EventName := WindowActivated
  const SUMMARY_UPDATED: EventName := WindowsSummaryUpdated

  /** The two events with a native source behind them. */
  predicate IsSourceEvent(event: EventName) {
    event == WINDOW_ACTIVATED || event == SUMMARY_UPDATED
  }

  /** The calls the listener handlers make, in order. `SetInterval` carries
      the token of the timer it creates; `ClearInterval` the token held in
      `interval` at that moment. */
  datatype HostCall =
    | GetActiveWindow
    | SetInterval(token: nat)
    | ClearInterval(held: Option<nat>)
    | StartWindowsMonitoring
    | StopWindowsMonitoring

  datatype CallKind = Gets | Sets | Clears | Starts | Stops

  function KindOf(c: HostCall): CallKind {
    match c
    case GetActiveWindow => Gets
    case SetInterval(_) => Sets
    case ClearInterval(_) => Clears
    case StartWindowsMonitoring => Starts
    case StopWindowsMonitoring => Stops
  }

  /** How many calls of kind `k` the log holds. */
  function CountKind(calls: seq<HostCall>, k: CallKind): (n: nat)
    ensures n <= |calls|
    decreases |calls|
  {
    if calls == [] then 0
    else CountKind(calls[..|calls| - 1], k) + (if KindOf(calls[|calls| - 1]) == k then 1 else 0)
  }

  lemma {:induction false} CountKindAppend(a: seq<HostCall>, b: seq<HostCall>, k: CallKind)
    ensures CountKind(a + b, k) == CountKind(a, k) + CountKind(b, k)
    decreases |b|
  {
    if b == [] {
      assert a + b == a;
    } else {
      var b' := b[..|b| - 1];
      assert (a + b)[..|a + b| - 1] == a + b';
      CountKindAppend(a, b', k);
    }
  }

  /** The calls of the `newListener` handler for `event`: the active window
      is sampled for every "window-activated" registration; a native source
      is started only for an event not yet in `registeredEvents`. */
  function NewListenerCalls(event: EventName, wasRegistered: bool, canStart: bool, token: nat): seq<HostCall> {
    SampleCalls(event) + StartCalls(event, wasRegistered, canStart, token)
  }

  function SampleCalls(event: EventName): seq<HostCall> {
    if event == WINDOW_ACTIVATED then [GetActiveWindow] else []
  }

  function StartCalls(event: EventName, wasRegistered: bool, canStart: bool, token: nat): seq<HostCall> {
    if wasRegistered then []
    else if event == WINDOW_ACTIVATED then [SetInterval(token)]
    else if event == SUMMARY_UPDATED && canStart then [StartWindowsMonitoring]
    else []
  }

  /** The calls of the `removeListener` handler once no listener is left. */
  function LastListenerCalls(event: EventName, canStop: bool, held: Option<nat>): seq<HostCall> {
    if event == WINDOW_ACTIVATED then [ClearInterval(held)]
    else if event == SUMMARY_UPDATED && canStop then [StopWindowsMonitoring]
    else []
  }

  lemma CountOne(c: HostCall, k: CallKind)
    ensures CountKind([c], k) == if KindOf(c) == k then 1 else 0
  {
    assert [c][..0] == [];
  }

  /** The `newListener` handler makes one `setInterval` for a new
      activation event, one `startWindowsMonitoring` for a new summary event
      (when the addon has it), and no `clearInterval` or stop. */
  lemma NewListenerCounts(event: EventName, wasRegistered: bool, canStart: bool, token: nat, k: CallKind)
    requires k != Gets
    ensures CountKind(NewListenerCalls(event, wasRegistered, canStart, token), k) ==
      if !wasRegistered && ((k == Sets && event == WINDOW_ACTIVATED) || (k == Starts && event == SUMMARY_UPDATED && canStart))
      then 1 else 0
  {
    var a, b := SampleCalls(event), StartCalls(event, wasRegistered, canStart, token);
    CountKindAppend(a, b, k);
    if a != [] { CountOne(a[0], k); }
    if b != [] { CountOne(b[0], k); }
  }

  /** The last-listener handler makes one `clearInterval` for the activation
      event, one `stopWindowsMonitoring` for the summary event (when the addon
      has it), and nothing else. */
  lemma LastListenerCounts(event: EventName, canStop: bool, held: Option<nat>, k: CallKind)
    ensures CountKind(LastListenerCalls(event, canStop, held), k) ==
      if (k == Clears && event == WINDOW_ACTIVATED) || (k == Stops && event == SUMMARY_UPDATED && canStop) then 1 else 0
  {
    var a := LastListenerCalls(event, canStop, held);
    if a != [] { CountOne(a[0], k); }
  }

  /** The listeners of `event` counted in `m`. */
  function Count(m: map<EventName, nat>, event: EventName): nat {
    if event in m then m[event] else 0
  }

  lemma CountAfterUpdate(m: map<EventName, nat>, event: EventName, n: nat, other: EventName)
    ensures Count(m[event := n], other) == if other == event then n else Count(m, other)
  {
  }

  /** `registeredEvents` lists each source event at most once, and exactly
      those with a user listener (and only when the addon is loaded). */
  ghost predicate Registry(reg: seq<EventName>, listeners: map<EventName, nat>, addon: bool) {
    && NoDup(reg)
    && (forall k :: 0 <= k < |reg| ==> IsSourceEvent(reg[k]))
    && (WINDOW_ACTIVATED in reg <==> addon && Count(listeners, WINDOW_ACTIVATED) > 0)
    && (SUMMARY_UPDATED in reg <==> addon && Count(listeners, SUMMARY_UPDATED) > 0)
  }

  /** The call log balances: the native monitor runs exactly while a summary
      listener exists, and one polling interval is live exactly while an
      activation listener exists. */
  ghost predicate Ledger(calls: seq<HostCall>, listeners: map<EventName, nat>, addon: bool, canStart: bool, canStop: bool) {
    && (addon && canStart && canStop ==>
          CountKind(calls, Starts) == CountKind(calls, Stops) + (if Count(listeners, SUMMARY_UPDATED) > 0 then 1 else 0))
    && CountKind(calls, Sets) == CountKind(calls, Clears) + (if addon && Count(listeners, WINDOW_ACTIVATED) > 0 then 1 else 0)
  }

  /** The listener bookkeeping, over the registered events, the user
      listeners per event and the call log. */
  ghost predicate Bookkeeping(reg: seq<EventName>, listeners: map<EventName, nat>, calls: seq<HostCall>,
                              addon: bool, canStart: bool, canStop: bool)
  {
    Registry(reg, listeners, addon) && Ledger(calls, listeners, addon, canStart, canStop)
  }

  /** The registry after the `newListener` handler, when it is installed
      (`handler`), has seen `event`. */
  function RegisteredAfterOn(reg: seq<EventName>, handler: bool, event: EventName): seq<EventName> {
    if handler && event !in reg && IsSourceEvent(event) then reg + [event] else reg
  }

  function CallsAfterOn(calls: seq<HostCall>, handler: bool, event: EventName, wasRegistered: bool, canStart: bool, token: nat)
    : seq<HostCall>
  {
    if handler then calls + NewListenerCalls(event, wasRegistered, canStart, token) else calls
  }

  /** The predicate `(x) => x !== event`. */
  function IsNot(event: EventName): EventName -> bool {
    x => x != event
  }

  /** `reg.filter((x) => x !== event)`, written first-order. */
  function Without(reg: seq<EventName>, event: EventName): seq<EventName>
    decreases |reg|
  {
    if reg == [] then []
    else Without(reg[..|reg| - 1], event) + (if reg[|reg| - 1] != event then [reg[|reg| - 1]] else [])
  }

  lemma {:induction false} WithoutIsFilter(reg: seq<EventName>, event: EventName)
    ensures Without(reg, event) == Filter(reg, IsNot(event))
    decreases |reg|
  {
    if reg != [] {
      WithoutIsFilter(reg[..|reg| - 1], event);
    }
  }

  function RegisteredAfterRemove(reg: seq<EventName>, isLast: bool, event: EventName): seq<EventName> {
    if isLast then Without(reg, event) else reg
  }

  function CallsAfterRemove(calls: seq<HostCall>, isLast: bool, event: EventName, canStop: bool, held: Option<nat>)
    : seq<HostCall>
  {
    if isLast then calls + LastListenerCalls(event, canStop, held) else calls
  }

  lemma OnKeepsRegistry(reg: seq<EventName>, listeners: map<EventName, nat>, addon: bool, event: EventName)
    requires Registry(reg, listeners, addon)
    ensures Registry(RegisteredAfterOn(reg, addon, event), listeners[event := Count(listeners, event) + 1], addon)
  {
    CountAfterUpdate(listeners, event, Count(listeners, event) + 1, WINDOW_ACTIVATED);
    CountAfterUpdate(listeners, event, Count(listeners, event) + 1, SUMMARY_UPDATED);
    var reg' := RegisteredAfterOn(reg, addon, event);
    assert forall k :: 0 <= k < |reg'| ==> IsSourceEvent(reg'[k]) by {
      forall k | 0 <= k < |reg'| ensures IsSourceEvent(reg'[k]) {
        if k < |reg| { assert reg'[k] == reg[k]; }
      }
    }
  }

  /** The counts of the log after the `newListener` handler. */
  lemma OnCounts(reg: seq<EventName>, calls: seq<HostCall>, addon: bool, canStart: bool, event: EventName, token: nat,
                 k: CallKind)
    requires k != Gets
    ensures CountKind(CallsAfterOn(calls, addon, event, event in reg, canStart, token), k) == CountKind(calls, k)
      + (if addon && event !in reg
            && ((k == Sets && event == WINDOW_ACTIVATED) || (k == Starts && event == SUMMARY_UPDATED && canStart))
         then 1 else 0)
  {
    if addon {
      CountKindAppend(calls, NewListenerCalls(event, event in reg, canStart, token), k);
      NewListenerCounts(event, event in reg, canStart, token, k);
    }
  }

  /** Adding a listener keeps the bookkeeping, and starts the native monitor
      exactly for the first summary listener. */
  lemma OnKeepsBookkeeping(reg: seq<EventName>, listeners: map<EventName, nat>, calls: seq<HostCall>,
                           addon: bool, canStart: bool, canStop: bool, event: EventName, token: nat)
    requires Bookkeeping(reg, listeners, calls, addon, canStart, canStop)
    ensures var calls' := CallsAfterOn(calls, addon, event, event in reg, canStart, token);
      && Bookkeeping(RegisteredAfterOn(reg, addon, event), listeners[event := Count(listeners, event) + 1],
                     calls', addon, canStart, canStop)
      && CountKind(calls', Stops) == CountKind(calls, Stops)
      && CountKind(calls', Starts) == CountKind(calls, Starts)
           + (if event == SUMMARY_UPDATED && addon && canStart && Count(listeners, SUMMARY_UPDATED) == 0 then 1 else 0)
  {
    OnKeepsRegistry(reg, listeners, addon, event);
    OnCounts(reg, calls, addon, canStart, event, token, Starts);
    OnCounts(reg, calls, addon, canStart, event, token, Stops);
    OnCounts(reg, calls, addon, canStart, event, token, Sets);
    OnCounts(reg, calls, addon, canStart, event, token, Clears);
    CountAfterUpdate(listeners, event, Count(listeners, event) + 1, WINDOW_ACTIVATED);
    CountAfterUpdate(listeners, event, Count(listeners, event) + 1, SUMMARY_UPDATED);
  }

  lemma RemoveKeepsRegistry(reg: seq<EventName>, listeners: map<EventName, nat>, addon: bool, event: EventName,
                            isLast: bool)
    requires Registry(reg, listeners, addon)
    requires Count(listeners, event) > 0
    requires isLast <==> addon && Count(listeners, event) == 1 && event != NewListener && event != RemoveListenerEvent
    ensures Registry(RegisteredAfterRemove(reg, isLast, event), listeners[event := Count(listeners, event) - 1], addon)
  {
    CountAfterUpdate(listeners, event, Count(listeners, event) - 1, WINDOW_ACTIVATED);
    CountAfterUpdate(listeners, event, Count(listeners, event) - 1, SUMMARY_UPDATED);
    if isLast {
      WithoutIsFilter(reg, event);
      var keep := IsNot(event);
      FilterMembership(reg, keep, WINDOW_ACTIVATED);
      FilterMembership(reg, keep, SUMMARY_UPDATED);
      FilterKeepsNoDup(reg, keep);
      var reg' := Filter(reg, keep);
      assert forall k :: 0 <= k < |reg'| ==> IsSourceEvent(reg'[k]) by {
        forall k | 0 <= k < |reg'| ensures IsSourceEvent(reg'[k]) {
          assert reg'[k] in reg;
        }
      }
    }
  }

  /** The counts of the log after the `removeListener` handler. */
  lemma RemoveCounts(calls: seq<HostCall>, isLast: bool, event: EventName, canStop: bool, held: Option<nat>, k: CallKind)
    ensures CountKind(CallsAfterRemove(calls, isLast, event, canStop, held), k) == CountKind(calls, k)
      + (if isLast && ((k == Clears && event == WINDOW_ACTIVATED) || (k == Stops && event == SUMMARY_UPDATED && canStop))
         then 1 else 0)
  {
    if isLast {
      CountKindAppend(calls, LastListenerCalls(event, canStop, held), k);
      LastListenerCounts(event, canStop, held, k);
    }
  }

  /** Removing one of `count` listeners of `event` keeps the bookkeeping;
      the handler acts (`isLast`) only when no listener of `event` is left,
      and stops the native monitor exactly after the last summary listener. */
  lemma RemoveKeepsBookkeeping(reg: seq<EventName>, listeners: map<EventName, nat>, calls: seq<HostCall>,
                               addon: bool, canStart: bool, canStop: bool, event: EventName, held: Option<nat>,
                               isLast: bool)
    requires Bookkeeping(reg, listeners, calls, addon, canStart, canStop)
    requires Count(listeners, event) > 0
    requires isLast <==> addon && Count(listeners, event) == 1 && event != NewListener && event != RemoveListenerEvent
    ensures var calls' := CallsAfterRemove(calls, isLast, event, canStop, held);
      && Bookkeeping(RegisteredAfterRemove(reg, isLast, event), listeners[event := Count(listeners, event) - 1],
                     calls', addon, canStart, canStop)
      && CountKind(calls', Starts) == CountKind(calls, Starts)
      && CountKind(calls', Stops) == CountKind(calls, Stops)
           + (if event == SUMMARY_UPDATED && addon && canStop && Count(listeners, SUMMARY_UPDATED) == 1 then 1 else 0)
  {
    RemoveKeepsRegistry(reg, listeners, addon, event, isLast);
    CountAfterUpdate(listeners, event, Count(listeners, event) - 1, WINDOW_ACTIVATED);
    CountAfterUpdate(listeners, event, Count(listeners, event) - 1, SUMMARY_UPDATED);
    RemoveCounts(calls, isLast, event, canStop, held, Starts);
    RemoveCounts(calls, isLast, event, canStop, held, Stops);
    RemoveCounts(calls, isLast, event, canStop, held, Sets);
    RemoveCounts(calls, isLast, event, canStop, held, Clears);
  }

  /** `registeredEvents` lists each source event at most once. */
  ghost predicate RegistryShape(reg: seq<EventName>) {
    NoDup(reg) && forall k :: 0 <= k < |reg| ==> IsSourceEvent(reg[k])
  }

  /** Every source event with a user listener is registered; the
      `newListener` handler keeps this while it is installed. */
  ghost predicate Registers(reg: seq<EventName>, listeners: map<EventName, nat>) {
    && (Count(listeners, WINDOW_ACTIVATED) > 0 ==> WINDOW_ACTIVATED in reg)
    && (Count(listeners, SUMMARY_UPDATED) > 0 ==> SUMMARY_UPDATED in reg)
  }

  /** Every registered event has a user listener; the `removeListener`
      handler keeps this while it is installed. */
  ghost predicate Unregisters(reg: seq<EventName>, listeners: map<EventName, nat>) {
    && (WINDOW_ACTIVATED in reg ==> Count(listeners, WINDOW_ACTIVATED) > 0)
    && (SUMMARY_UPDATED in reg ==> Count(listeners, SUMMARY_UPDATED) > 0)
  }

  /** The registry facts each installed handler maintains. */
  ghost predicate HandlerFacts(reg: seq<EventName>, listeners: map<EventName, nat>, onNew: bool, onRemove: bool) {
    RegistryShape(reg) && (onNew ==> Registers(reg, listeners)) && (onRemove ==> Unregisters(reg, listeners))
  }

  /** The listeners of `event`: the user's, plus the manager's own
      `newListener` and `removeListener` handlers while they are installed. */
  function TotalListeners(listeners: map<EventName, nat>, onNew: bool, onRemove: bool, event: EventName): nat {
    Count(listeners, event)
      + (if onNew && event == NewListener then 1 else 0)
      + (if onRemove && event == RemoveListenerEvent then 1 else 0)
  }

  lemma OnKeepsHandlerFacts(reg: seq<EventName>, listeners: map<EventName, nat>, onNew: bool, onRemove: bool,
                            event: EventName)
    requires HandlerFacts(reg, listeners, onNew, onRemove)
    ensures HandlerFacts(RegisteredAfterOn(reg, onNew, event), listeners[event := Count(listeners, event) + 1],
                         onNew, onRemove)
  {
    CountAfterUpdate(listeners, event, Count(listeners, event) + 1, WINDOW_ACTIVATED);
    CountAfterUpdate(listeners, event, Count(listeners, event) + 1, SUMMARY_UPDATED);
    var reg' := RegisteredAfterOn(reg, onNew, event);
    forall k | 0 <= k < |reg'| ensures IsSourceEvent(reg'[k]) {
      if k < |reg| { assert reg'[k] == reg[k]; }
    }
  }

  lemma RemoveKeepsHandlerFacts(reg: seq<EventName>, listeners: map<EventName, nat>, onNew: bool, onRemove: bool,
                                event: EventName, isLast: bool)
    requires HandlerFacts(reg, listeners, onNew, onRemove)
    requires Count(listeners, event) > 0
    requires isLast <==> onRemove && TotalListeners(listeners[event := Count(listeners, event) - 1], onNew, onRemove, event) == 0
    ensures HandlerFacts(RegisteredAfterRemove(reg, isLast, event), listeners[event := Count(listeners, event) - 1],
                         onNew, onRemove)
  {
    CountAfterUpdate(listeners, event, Count(listeners, event) - 1, WINDOW_ACTIVATED);
    CountAfterUpdate(listeners, event, Count(listeners, event) - 1, SUMMARY_UPDATED);
    CountAfterUpdate(listeners, event, Count(listeners, event) - 1, event);
    if isLast {
      WithoutIsFilter(reg, event);
      var keep := IsNot(event);
      FilterMembership(reg, keep, WINDOW_ACTIVATED);
      FilterMembership(reg, keep, SUMMARY_UPDATED);
      FilterKeepsNoDup(reg, keep);
      var reg' := Filter(reg, keep);
      forall k | 0 <= k < |reg'| ensures IsSourceEvent(reg'[k]) {
        assert reg'[k] in reg;
      }
    }
  }

  /** The manager's invariant over its state: the handlers exist only with
      the addon; each installed handler keeps its half of the registry, so
      that with both installed the registry is exact (`Registry`), and then
      the call log balances too. */
  ghost predicate ManagerInvariant(reg: seq<EventName>, listeners: map<EventName, nat>, calls: seq<HostCall>,
                                   onNew: bool, onRemove: bool, addon: bool, canStart: bool, canStop: bool)
  {
    && (onNew ==> addon)
    && (onRemove ==> addon)
    && HandlerFacts(reg, listeners, onNew, onRemove)
    && (onNew && onRemove ==> Ledger(calls, listeners, true, canStart, canStop))
  }

  /** `on(event)` keeps the invariant; its calls add one start exactly for
      an unregistered summary event and one `setInterval` exactly for an
      unregistered activation event, both only while the `newListener`
      handler is installed. */
  lemma OnKeepsInvariant(reg: seq<EventName>, listeners: map<EventName, nat>, calls: seq<HostCall>,
                         onNew: bool, onRemove: bool, addon: bool, canStart: bool, canStop: bool,
                         event: EventName, token: nat)
    requires ManagerInvariant(reg, listeners, calls, onNew, onRemove, addon, canStart, canStop)
    ensures var calls' := CallsAfterOn(calls, onNew, event, event in reg, canStart, token);
      && ManagerInvariant(RegisteredAfterOn(reg, onNew, event), listeners[event := Count(listeners, event) + 1],
                          calls', onNew, onRemove, addon, canStart, canStop)
      && CountKind(calls', Starts) == CountKind(calls, Starts)
           + (if onNew && event == SUMMARY_UPDATED && canStart && event !in reg then 1 else 0)
      && (onNew && onRemove ==>
            CountKind(calls', Starts) == CountKind(calls, Starts)
              + (if event == SUMMARY_UPDATED && canStart && Count(listeners, SUMMARY_UPDATED) == 0 then 1 else 0))
      && CountKind(calls', Sets) == CountKind(calls, Sets)
           + (if onNew && event == WINDOW_ACTIVATED && event !in reg then 1 else 0)
      && CountKind(calls', Stops) == CountKind(calls, Stops)
      && CountKind(calls', Clears) == CountKind(calls, Clears)
  {
    OnKeepsManagerInvariant(reg, listeners, calls, onNew, onRemove, addon, canStart, canStop, event, token,
                            RegisteredAfterOn(reg, onNew, event), listeners[event := Count(listeners, event) + 1],
                            CallsAfterOn(calls, onNew, event, event in reg, canStart, token));
    OnCounts(reg, calls, onNew, canStart, event, token, Starts);
    OnCounts(reg, calls, onNew, canStart, event, token, Stops);
    OnCounts(reg, calls, onNew, canStart, event, token, Sets);
    OnCounts(reg, calls, onNew, canStart, event, token, Clears);
  }

  /** Removing one user listener of `event` keeps the invariant; the
      handler acts (`isLast`) only while installed and when no listener of
      `event` is left, adding one stop or one `clearInterval` exactly after
      the last summary or activation listener. */
  lemma RemoveKeepsInvariant(reg: seq<EventName>, listeners: map<EventName, nat>, calls: seq<HostCall>,
                             onNew: bool, onRemove: bool, addon: bool, canStart: bool, canStop: bool,
                             event: EventName, held: Option<nat>, isLast: bool)
    requires ManagerInvariant(reg, listeners, calls, onNew, onRemove, addon, canStart, canStop)
    requires Count(listeners, event) > 0
    requires isLast <==> onRemove && TotalListeners(listeners[event := Count(listeners, event) - 1], onNew, onRemove, event) == 0
    ensures var calls' := CallsAfterRemove(calls, isLast, event, canStop, held);
      && ManagerInvariant(RegisteredAfterRemove(reg, isLast, event), listeners[event := Count(listeners, event) - 1],
                          calls', onNew, onRemove, addon, canStart, canStop)
      && CountKind(calls', Stops) == CountKind(calls, Stops)
           + (if event == SUMMARY_UPDATED && onRemove && canStop && Count(listeners, SUMMARY_UPDATED) == 1 then 1 else 0)
      && CountKind(calls', Clears) == CountKind(calls, Clears)
           + (if event == WINDOW_ACTIVATED && onRemove && Count(listeners, WINDOW_ACTIVATED) == 1 then 1 else 0)
      && CountKind(calls', Starts) == CountKind(calls, Starts)
      && CountKind(calls', Sets) == CountKind(calls, Sets)
  {
    RemoveKeepsManagerInvariant(reg, listeners, calls, onNew, onRemove, addon, canStart, canStop, event, held, isLast,
                                RegisteredAfterRemove(reg, isLast, event), listeners[event := Count(listeners, event) - 1],
                                CallsAfterRemove(calls, isLast, event, canStop, held));
    CountAfterUpdate(listeners, event, Count(listeners, event) - 1, event);
    RemoveCounts(calls, isLast, event, canStop, held, Starts);
    RemoveCounts(calls, isLast, event, canStop, held, Stops);
    RemoveCounts(calls, isLast, event, canStop, held, Sets);
    RemoveCounts(calls, isLast, event, canStop, held, Clears);
  }

  /** The invariant half of `OnKeepsInvariant`, stated for given new
      values of the state. */
  lemma OnKeepsManagerInvariant(reg: seq<EventName>, listeners: map<EventName, nat>, calls: seq<HostCall>,
                                onNew: bool, onRemove: bool, addon: bool, canStart: bool, canStop: bool,
                                event: EventName, token: nat,
                                reg': seq<EventName>, listeners': map<EventName, nat>, calls': seq<HostCall>)
    requires ManagerInvariant(reg, listeners, calls, onNew, onRemove, addon, canStart, canStop)
    requires reg' == RegisteredAfterOn(reg, onNew, event)
    requires listeners' == listeners[event := Count(listeners, event) + 1]
    requires calls' == CallsAfterOn(calls, onNew, event, event in reg, canStart, token)
    ensures ManagerInvariant(reg', listeners', calls', onNew, onRemove, addon, canStart, canStop)
  {
    OnKeepsHandlerFacts(reg, listeners, onNew, onRemove, event);
    if onNew && onRemove {
      OnKeepsBookkeeping(reg, listeners, calls, true, canStart, canStop, event, token);
    }
  }

  /** The invariant half of `RemoveKeepsInvariant`, stated for given new
      values of the state. */
  lemma RemoveKeepsManagerInvariant(reg: seq<EventName>, listeners: map<EventName, nat>, calls: seq<HostCall>,
                                    onNew: bool, onRemove: bool, addon: bool, canStart: bool, canStop: bool,
                                    event: EventName, held: Option<nat>, isLast: bool,
                                    reg': seq<EventName>, listeners': map<EventName, nat>, calls': seq<HostCall>)
    requires ManagerInvariant(reg, listeners, calls, onNew, onRemove, addon, canStart, canStop)
    requires Count(listeners, event) > 0
    requires isLast <==> onRemove && TotalListeners(listeners[event := Count(listeners, event) - 1], onNew, onRemove, event) == 0
    requires reg' == RegisteredAfterRemove(reg, isLast, event)
    requires listeners' == listeners[event := Count(listeners, event) - 1]
    requires calls' == CallsAfterRemove(calls, isLast, event, canStop, held)
    ensures ManagerInvariant(reg', listeners', calls', onNew, onRemove, addon, canStart, canStop)
  {
    CountAfterUpdate(listeners, event, Count(listeners, event) - 1, event);
    RemoveKeepsHandlerFacts(reg, listeners, onNew, onRemove, event, isLast);
    if onNew && onRemove {
      RemoveKeepsBookkeeping(reg, listeners, calls, true, canStart, canStop, event, held, isLast);
    }
  }

  class WindowManager {
    var registeredEvents: seq<EventName>
    var listeners: map<EventName, nat>   // listeners added by users of the emitter, per event
    var lastId: Option<int>
    var interval: Option<nat>
    var intervalsCreated: nat
    var calls: seq<HostCall>
    var newListenerHandler: bool         // the manager's `newListener` handler is installed
    var removeListenerHandler: bool      // the manager's `removeListener` handler is installed
    const addonLoaded: bool              // `addon` is truthy
    const canStart: bool                 // `addon.startWindowsMonitoring` exists
    const canStop: bool                  // `addon.stopWindowsMonitoring` exists

    ghost predicate Valid()
      reads this
    {
      ManagerInvariant(registeredEvents, listeners, calls, newListenerHandler, removeListenerHandler,
                       addonLoaded, canStart, canStop)
    }

    /** The constructor installs both handlers exactly when the addon loaded. */
    constructor (addon: bool, start: bool, stop: bool)
      ensures Valid()
      ensures addonLoaded == addon && canStart == start && canStop == stop
      ensures newListenerHandler == addon && removeListenerHandler == addon
      ensures registeredEvents == [] && listeners == map[] && calls == [] && interval.None? && lastId.None?
      ensures intervalsCreated == 0
    {
      addonLoaded, canStart, canStop := addon, start, stop;
      newListenerHandler, removeListenerHandler := addon, addon;
      registeredEvents, listeners, calls := [], map[], [];
      lastId, interval, intervalsCreated := None, None, 0;
    }

    /** `on(event, listener)`: the emitter runs the `newListener` handler
        while it is installed, then adds the listener. `activeWindow` is
        what `addon.getActiveWindow()` returns. The calls it adds are
        counted by `OnKeepsInvariant`. */
    method On(event: EventName, activeWindow: int)
      requires Valid()
      modifies this
      ensures Valid()
      ensures listeners == old(listeners)[event := Count(old(listeners), event) + 1]
      ensures newListenerHandler == old(newListenerHandler) && removeListenerHandler == old(removeListenerHandler)
      ensures registeredEvents == RegisteredAfterOn(old(registeredEvents), newListenerHandler, event)
      ensures calls == CallsAfterOn(old(calls), newListenerHandler, event, event in old(registeredEvents), canStart,
                                    old(intervalsCreated))
      ensures lastId == if newListenerHandler && event == WINDOW_ACTIVATED then Some(activeWindow) else old(lastId)
      ensures var opens := newListenerHandler && event == WINDOW_ACTIVATED && event !in old(registeredEvents);
        && interval == (if opens then Some(old(intervalsCreated)) else old(interval))
        && intervalsCreated == old(intervalsCreated) + (if opens then 1 else 0)
    {
      var count := Count(listeners, event);
      var wasRegistered := event in registeredEvents;
      ghost var reg0, listeners0, calls0, token := registeredEvents, listeners, calls, intervalsCreated;
      var reg := RegisteredAfterOn(registeredEvents, newListenerHandler, event);
      var log := CallsAfterOn(calls, newListenerHandler, event, wasRegistered, canStart, intervalsCreated);
      // the handler samples the active window for every activation listener
      // and creates the polling interval for the first one
      if newListenerHandler && event == WINDOW_ACTIVATED {
        lastId := Some(activeWindow);
        if !wasRegistered {
          interval := Some(intervalsCreated);
          intervalsCreated := intervalsCreated + 1;
        }
      }
      listeners, calls, registeredEvents := listeners[event := count + 1], log, reg;
      OnKeepsManagerInvariant(reg0, listeners0, calls0, newListenerHandler, removeListenerHandler, addonLoaded,
                              canStart, canStop, event, token, registeredEvents, listeners, calls);
    }

    /** `removeListener(event, listener)` for one of the user's listeners of
        `event`; when there is none the emitter does nothing. After a
        removal it runs the `removeListener` handler while that is
        installed; the handler acts only when `listenerCount(event)`
        (`TotalListeners`) is 0.
        The calls it adds are counted by `RemoveKeepsInvariant`. */
    method RemoveListener(event: EventName) returns (removed: bool)
      requires Valid()
      modifies this
      ensures Valid()
      ensures removed <==> Count(old(listeners), event) > 0
      ensures !removed ==> unchanged(this)
      ensures removed ==> listeners == old(listeners)[event := Count(old(listeners), event) - 1]
      ensures removed ==>
        var isLast := removeListenerHandler && TotalListeners(listeners, newListenerHandler, removeListenerHandler, event) == 0;
        && registeredEvents == RegisteredAfterRemove(old(registeredEvents), isLast, event)
        && calls == CallsAfterRemove(old(calls), isLast, event, canStop, old(interval))
      ensures newListenerHandler == old(newListenerHandler) && removeListenerHandler == old(removeListenerHandler)
      ensures lastId == old(lastId) && interval == old(interval) && intervalsCreated == old(intervalsCreated)
    {
      var count := Count(listeners, event);
      if count == 0 {
        return false;
      }
      removed := true;
      var left := listeners[event := count - 1];
      var isLast := removeListenerHandler && TotalListeners(left, newListenerHandler, removeListenerHandler, event) == 0;
      ghost var reg0, listeners0, calls0 := registeredEvents, listeners, calls;
      listeners, calls, registeredEvents :=
        left, CallsAfterRemove(calls, isLast, event, canStop, interval), RegisteredAfterRemove(registeredEvents, isLast, event);
      RemoveKeepsManagerInvariant(reg0, listeners0, calls0, newListenerHandler, removeListenerHandler,
                                  addonLoaded, canStart, canStop, event, interval, isLast,
                                  registeredEvents, listeners, calls);
    }

    /** `removeAllListeners(event)`, taken as one step: the emitter removes
        the listeners of `event` last first, running the `removeListener`
        handler after each while that handler is installed. Every user
        listener of `event` goes; for "newListener" or "removeListener" the
        manager's own handler goes too (it was added first, so it goes
        last). Only a source event with user listeners and the
        `removeListener` handler installed leaves a trace (`acts`): the one
        the last removal leaves, counted by `RemoveAllKeepsLedger`. The
        handler's visit after its `newListener` sibling is removed finds a
        non-source event and changes nothing. */
    method RemoveAllListeners(event: EventName)
      requires Valid()
      modifies this
      ensures Valid()
      ensures listeners == old(listeners)[event := 0]
      ensures newListenerHandler == (old(newListenerHandler) && event != NewListener)
      ensures removeListenerHandler == (old(removeListenerHandler) && event != RemoveListenerEvent)
      ensures lastId == old(lastId) && interval == old(interval) && intervalsCreated == old(intervalsCreated)
      ensures var acts := old(removeListenerHandler) && Count(old(listeners), event) > 0 && IsSourceEvent(event);
        && registeredEvents == RegisteredAfterRemove(old(registeredEvents), acts, event)
        && calls == CallsAfterRemove(old(calls), acts, event, canStop, old(interval))
    {
      var acts := removeListenerHandler && Count(listeners, event) > 0 && IsSourceEvent(event);
      // only the manager's own events take a handler with them; only a
      // source event can change the registry and the log
      if event == NewListener {
        listeners, newListenerHandler := listeners[event := 0], false;
      } else if event == RemoveListenerEvent {
        listeners, removeListenerHandler := listeners[event := 0], false;
      } else {
        registeredEvents, calls, listeners :=
          RegisteredAfterRemove(registeredEvents, acts, event), CallsAfterRemove(calls, acts, event, canStop, interval),
          listeners[event := 0];
      }
      RemoveAllKeepsManagerInvariant(old(registeredEvents), old(listeners), old(calls), old(newListenerHandler),
                                     old(removeListenerHandler), addonLoaded, canStart, canStop, event,
                                     interval, registeredEvents, listeners, calls, newListenerHandler,
                                     removeListenerHandler);
    }
  }

  /** `removeAllListeners(event)` keeps the manager's invariant, with the
      handler of `event` removed when `event` names one; stated for given
      new values of the state. */
  lemma RemoveAllKeepsManagerInvariant(reg: seq<EventName>, listeners: map<EventName, nat>, calls: seq<HostCall>,
                                       onNew: bool, onRemove: bool, addon: bool, canStart: bool, canStop: bool,
                                       event: EventName, held: Option<nat>,
                                       reg': seq<EventName>, listeners': map<EventName, nat>, calls': seq<HostCall>,
                                       onNew': bool, onRemove': bool)
    requires ManagerInvariant(reg, listeners, calls, onNew, onRemove, addon, canStart, canStop)
    requires var acts := onRemove && Count(listeners, event) > 0 && IsSourceEvent(event);
      && reg' == RegisteredAfterRemove(reg, acts, event)
      && calls' == CallsAfterRemove(calls, acts, event, canStop, held)
      && listeners' == listeners[event := 0]
      && onNew' == (onNew && event != NewListener) && onRemove' == (onRemove && event != RemoveListenerEvent)
    ensures ManagerInvariant(reg', listeners', calls', onNew', onRemove', addon, canStart, canStop)
  {
    CountAfterUpdate(listeners, event, 0, WINDOW_ACTIVATED);
    CountAfterUpdate(listeners, event, 0, SUMMARY_UPDATED);
    if onRemove && Count(listeners, event) > 0 && IsSourceEvent(event) {
      // the last removal is that of a single remaining listener
      var one := listeners[event := 1];
      CountAfterUpdate(listeners, event, 1, WINDOW_ACTIVATED);
      CountAfterUpdate(listeners, event, 1, SUMMARY_UPDATED);
      CountAfterUpdate(listeners, event, 1, event);
      assert one[event := Count(one, event) - 1] == listeners[event := 0];
      RemoveKeepsManagerInvariant(reg, one, calls, onNew, onRemove, addon, canStart, canStop, event, held, true,
                                  RegisteredAfterRemove(reg, true, event), listeners[event := 0],
                                  CallsAfterRemove(calls, true, event, canStop, held));
    }
  }

  /** What `removeAllListeners(event)` leaves: the registry keeps every
      other event and drops `event` when the handler acts; the log gains one
      `stopWindowsMonitoring` (when the addon has it) after the summary
      listeners, one `clearInterval` after the activation listeners, and
      nothing else. */
  lemma RemoveAllKeepsLedger(reg: seq<EventName>, calls: seq<HostCall>, acts: bool, event: EventName, canStop: bool,
                             held: Option<nat>, k: CallKind)
    requires IsSourceEvent(event) || !acts
    ensures forall e :: e != event ==> (e in RegisteredAfterRemove(reg, acts, event) <==> e in reg)
    ensures acts ==> event !in RegisteredAfterRemove(reg, acts, event)
    ensures CountKind(CallsAfterRemove(calls, acts, event, canStop, held), k) == CountKind(calls, k)
      + (if acts && ((k == Clears && event == WINDOW_ACTIVATED) || (k == Stops && event == SUMMARY_UPDATED && canStop))
         then 1 else 0)
  {
    WithoutIsFilter(reg, event);
    forall e | e != event ensures e in RegisteredAfterRemove(reg, acts, event) <==> e in reg {
      FilterMembership(reg, IsNot(event), e);
    }
    FilterMembership(reg, IsNot(event), event);
    RemoveCounts(calls, acts, event, canStop, held, k);
  }

  lemma {:induction false} FilterKeepsNoDup<T>(s: seq<T>, p: T -> bool)
    requires NoDup(s)
    ensures NoDup(Filter(s, p))
    decreases |s|
  {
    if s != [] {
      var init := s[..|s| - 1];
      assert NoDup(init);
      FilterKeepsNoDup(init, p);
      FilterMembership(init, p, s[|s| - 1]);
    }
  }

  // ---- Monitor.getScaleFactor ----

  /** `release().split(".").map((d) => parseInt(d, 10))`. */
  function VersionNumbers(release: string): (numbers: seq<Option<int>>)
    ensures |numbers| == |Split(release, '.')|
  {
    var parts := Split(release, '.');
    seq(|parts|, k requires 0 <= k < |parts| => ParseInt(parts[k]))
  }

  /** Element `k` of the array, `None` for NaN and for an index past the end
      (`undefined`); either compares false with every number. */
  function At(numbers: seq<Option<int>>, k: nat): Option<int> {
    if k < |numbers| then numbers[k] else None
  }

  /** The gate as written: `numbers[0] > 8 || numbers[0] === 8 && numbers[1] >= 1`. */
  predicate GateAsWritten(numbers: seq<Option<int>>) {
    var major := At(numbers, 0);
    var minor := At(numbers, 1);
    (major.Some? && major.value > 8) || (major == Some(8) && minor.Some? && minor.value >= 1)
  }

  /** What `getScaleFactor` returns: `undefined` without the addon function,
      the addon's answer when the gate opens, and 1 otherwise. */
  datatype ScaleFactor = Undefined | FromAddon | One

  /** `getScaleFactor`: undefined exactly without the addon function, and the
      addon is asked only when the release's major number is at least 8. */
  function GetScaleFactor(hasScaleFunction: bool, release: string): (f: ScaleFactor)
    ensures f == Undefined <==> !hasScaleFunction
    ensures f == FromAddon ==> At(VersionNumbers(release), 0).Some? && At(VersionNumbers(release), 0).value >= 8
  {
    if !hasScaleFunction then Undefined
    else if GateAsWritten(VersionNumbers(release)) then FromAddon
    else One
  }

  /** The release string of a Windows kernel version. */
  function ReleaseString(major: nat, minor: nat, build: nat): string {
    DecimalString(major) + "." + DecimalString(minor) + "." + DecimalString(build)
  }

  /** On a `major.minor.build` release, the addon is asked exactly when the
      version is above 8, or 8 with a positive minor number. */
  lemma GetScaleFactorOnRelease(major: nat, minor: nat, build: nat)
    ensures GetScaleFactor(true, ReleaseString(major, minor, build)) ==
      if major > 8 || (major == 8 && minor >= 1) then FromAddon else One
    ensures GetScaleFactor(false, ReleaseString(major, minor, build)) == Undefined
  {
    ReleaseNumbers(major, minor, build);
  }

  lemma ReleaseNumbers(major: nat, minor: nat, build: nat)
    ensures At(VersionNumbers(ReleaseString(major, minor, build)), 0) == Some(major)
    ensures At(VersionNumbers(ReleaseString(major, minor, build)), 1) == Some(minor)
  {
    var a, b, c := DecimalString(major), DecimalString(minor), DecimalString(build);
    var release := ReleaseString(major, minor, build);
    assert release == a + ['.'] + (b + ['.'] + c);
    SplitAfterPiece(a, '.', b + ['.'] + c);
    SplitAfterPiece(b, '.', c);
    var parts := Split(release, '.');
    assert parts[0] == a && parts[1] == b;
    ParseIntOfDecimal(major);
    ParseIntOfDecimal(minor);
    assert VersionNumbers(release)[0] == ParseInt(a);
    assert VersionNumbers(release)[1] == ParseInt(b);
  }

  /** Windows 8.1 reports kernel version 6.3: the gate stays shut there and
      `getScaleFactor` answers 1 although the per-monitor query exists. */
  lemma Windows81GetsOne()
    ensures GetScaleFactor(true, ReleaseString(6, 3, 9600)) == One
    ensures GetScaleFactor(true, ReleaseString(10, 0, 19045)) == FromAddon
  {
    GetScaleFactorOnRelease(6, 3, 9600);
    GetScaleFactorOnRelease(10, 0, 19045);
  }

  /** The gate on the kernel version that `os.release()` reports: Windows 8.1
      is 6.3, Windows 10 and 11 are 10.0. */
  predicate GateCorrected(numbers: seq<Option<int>>) {
    var major := At(numbers, 0);
    var minor := At(numbers, 1);
    (major.Some? && major.value > 6) || (major == Some(6) && minor.Some? && minor.value >= 3)
  }

  function GetScaleFactorCorrected(hasScaleFunction: bool, release: string): ScaleFactor {
    if !hasScaleFunction then Undefined
    else if GateCorrected(VersionNumbers(release)) then FromAddon
    else One
  }

  /** The corrected gate asks the addon from Windows 8.1 (kernel 6.3) on and
      answers 1 for Windows 8 (6.2) and earlier. */
  lemma GetScaleFactorCorrectedOnRelease(major: nat, minor: nat, build: nat)
    ensures GetScaleFactorCorrected(true, ReleaseString(major, minor, build)) ==
      if major > 6 || (major == 6 && minor >= 3) then FromAddon else One
    ensures GetScaleFactorCorrected(true, ReleaseString(6, 3, 9600)) == FromAddon
    ensures GetScaleFactorCorrected(true, ReleaseString(6, 2, 9200)) == One
  {
    ReleaseNumbers(major, minor, build);
    ReleaseNumbers(6, 3, 9600);
    ReleaseNumbers(6, 2, 9200);
  }

  // ---- Window.setParent ----

  /** The JavaScript values `setParent` can be given. */
  datatype JsValue =
    | JsUndefined | JsNull | JsBool(b: bool) | JsNumber(n: int) | JsNaN | JsString(s: string)
    | JsWindow(id: int)          // an instance of the `Window` class
    | JsObject                   // any other object

  predicate Truthy(v: JsValue) {
    match v
    case JsUndefined => false
    case JsNull => false
    case JsBool(b) => b
    case JsNumber(n) => n != 0
    case JsNaN => false
    case JsString(s) => s != ""
    case JsWindow(_) => true
    case JsObject => true
  }

  /** The handle `setParent` hands to the addon. */
  function ParentHandle(window: JsValue): JsValue {
    if window.JsWindow? then JsNumber(window.id)
    else if !Truthy(window) then JsNumber(0)
    else window
  }

  /** A `Window` is replaced by its id, every falsy value by 0, and anything
      else is passed on unchanged; so the addon never sees a `Window` or a
      falsy value other than 0, and the choice is idempotent. */
  lemma ParentHandleChoice(window: JsValue)
    ensures window.JsWindow? ==> ParentHandle(window) == JsNumber(window.id)
    ensures !Truthy(window) ==> ParentHandle(window) == JsNumber(0)
    ensures Truthy(window) && !window.JsWindow? ==> ParentHandle(window) == window
    ensures !ParentHandle(window).JsWindow?
    ensures !Truthy(ParentHandle(window)) ==> ParentHandle(window) == JsNumber(0)
    ensures ParentHandle(ParentHandle(window)) == ParentHandle(window)
  {
  }

  /** `setParent`: the `(this.id, handle)` pair passed to
      `addon.setWindowParent`, or nothing when the addon lacks it. The call
      is about this window and never hands the addon a `Window`. */
  function SetParent(hasSetParent: bool, selfId: int, window: JsValue): (call: Option<(int, JsValue)>)
    ensures call.None? <==> !hasSetParent
    ensures call.Some? ==> call.value.0 == selfId && !call.value.1.JsWindow?
    ensures call.Some? && !Truthy(window) ==> call.value.1 == JsNumber(0)
  {
    if !hasSetParent then None else Some((selfId, ParentHandle(window)))
  }

  // ---- getWindows ----

  datatype Platform = Win32 | Darwin | OtherPlatform

  /** `Window.isWindow()` as a boolean, for a window whose process path is
      `path`. `nativeIsWindow` is `addon.isWindow(id)`, `initWindowOk` is
      `!!addon.initWindow(id)`; on other platforms the method returns
      `undefined`. */
  predicate IsWindow(platform: Platform, path: string, nativeIsWindow: bool, initWindowOk: bool) {
    match platform
    case Win32 => path != "" && nativeIsWindow
    case Darwin => path != "" && initWindowOk
    case OtherPlatform => false
  }

  /** The `filter` predicate of `getWindows` over window ids. */
  function KeepWindow(platform: Platform, pathOf: int -> string, nativeIsWindow: int -> bool, initWindowOk: int -> bool)
    : int -> bool
  {
    id => IsWindow(platform, pathOf(id), nativeIsWindow(id), initWindowOk(id))
  }

  /** `getWindows`: the ids `addon.getWindows()` lists, each wrapped in a
      `Window`, kept when its `isWindow()` is truthy. */
  function GetWindows(hasGetWindows: bool, platform: Platform, ids: seq<int>,
                      pathOf: int -> string, nativeIsWindow: int -> bool, initWindowOk: int -> bool): (r: seq<int>)
    ensures |r| <= |ids|
    ensures forall k :: 0 <= k < |r| ==> r[k] in ids && IsWindow(platform, pathOf(r[k]), nativeIsWindow(r[k]), initWindowOk(r[k]))
    ensures !hasGetWindows ==> r == []
  {
    if !hasGetWindows then []
    else
      var keep := KeepWindow(platform, pathOf, nativeIsWindow, initWindowOk);
      var r := Filter(ids, keep);
      assert forall k :: 0 <= k < |r| ==> keep(r[k]);
      r
  }

  /** The result keeps the addon's order and holds exactly the listed
      windows that pass `isWindow()`: on win32 a non-empty path and
      `addon.isWindow`, on darwin a non-empty path and a successful
      `initWindow`; elsewhere nothing passes. */
  lemma GetWindowsSpec(hasGetWindows: bool, platform: Platform, ids: seq<int>,
                       pathOf: int -> string, nativeIsWindow: int -> bool, initWindowOk: int -> bool, id: int)
    ensures IsSubseq(GetWindows(hasGetWindows, platform, ids, pathOf, nativeIsWindow, initWindowOk), ids)
    ensures id in GetWindows(hasGetWindows, platform, ids, pathOf, nativeIsWindow, initWindowOk) <==>
      hasGetWindows && id in ids && IsWindow(platform, pathOf(id), nativeIsWindow(id), initWindowOk(id))
    ensures platform == Win32 && id in GetWindows(hasGetWindows, platform, ids, pathOf, nativeIsWindow, initWindowOk)
      ==> pathOf(id) != "" && nativeIsWindow(id)
    ensures platform == OtherPlatform ==> GetWindows(hasGetWindows, platform, ids, pathOf, nativeIsWindow, initWindowOk) == []
  {
    var keep := KeepWindow(platform, pathOf, nativeIsWindow, initWindowOk);
    if hasGetWindows {
      FilterIsSubseq(ids, keep);
      FilterMembership(ids, keep, id);
      if platform == OtherPlatform {
        forall k | 0 <= k < |ids| ensures !keep(ids[k]) {
          assert keep(ids[k]) == IsWindow(platform, pathOf(ids[k]), nativeIsWindow(ids[k]), initWindowOk(ids[k]));
        }
        FilterNone(ids, keep);
      }
    } else {
      assert IsSubseq([], ids);
    }
  }

  lemma {:induction false} FilterNone<T>(s: seq<T>, p: T -> bool)
    requires forall k :: 0 <= k < |s| ==> !p(s[k])
    ensures Filter(s, p) == []
    decreases |s|
  {
    if s != [] {
      FilterNone(s[..|s| - 1], p);
    }
  }

  // ---- getPrimaryMonitor ----

  /** `array.find(p)`: the first element satisfying `p`. */
  function Find(s: seq<int>, p: int -> bool): (r: Option<int>)
    ensures r.Some? ==> r.value in s && p(r.value)
    ensures r.Some? ==> exists i :: 0 <= i < |s| && s[i] == r.value && forall j :: 0 <= j < i ==> !p(s[j])
    ensures r.None? <==> forall k :: 0 <= k < |s| ==> !p(s[k])
    decreases |s|
  {
    if s == [] then None
    else if p(s[0]) then Some(s[0])
    else
      var r := Find(s[1..], p);
      if r.Some? then
        ghost var i :| 0 <= i < |s[1..]| && s[1..][i] == r.value && forall j :: 0 <= j < i ==> !p(s[1..][j]);
        assert s[i + 1] == r.value;
        assert forall j :: 0 <= j < i + 1 ==> !p(s[j]) by {
          forall j | 0 <= j < i + 1 ensures !p(s[j]) {
            if j > 0 { assert s[j] == s[1..][j - 1]; }
          }
        }
        r
      else
        assert forall k :: 0 <= k < |s| ==> !p(s[k]) by {
          forall k | 0 <= k < |s| ensures !p(s[k]) {
            if k > 0 { assert s[k] == s[1..][k - 1]; }
          }
        }
        r
  }

  /** What `getPrimaryMonitor` returns: `undefined`, the `Monitor` of an id,
      or an `EmptyMonitor`. */
  datatype MonitorChoice = NoMonitor | MonitorOf(id: int) | EmptyMonitorChoice

  /** `getMonitors()` ids (empty without the addon function). */
  function Monitors(hasGetMonitors: bool, ids: seq<int>): seq<int> {
    if hasGetMonitors then ids else []
  }

  /** As written: the predicate is the method reference `x.isPrimary`, a
      function object, which is always truthy. */
  function GetPrimaryMonitorAsWritten(platform: Platform, hasGetMonitors: bool, ids: seq<int>): (m: MonitorChoice)
    ensures m.EmptyMonitorChoice? <==> platform != Win32
    ensures m.MonitorOf? ==> hasGetMonitors && m.id in ids
    ensures platform == Win32 ==> (m == NoMonitor <==> !hasGetMonitors || ids == [])
  {
    if platform != Win32 then EmptyMonitorChoice
    else match Find(Monitors(hasGetMonitors, ids), (id: int) => true)
      case None => NoMonitor
      case Some(id) => MonitorOf(id)
  }

  /** On win32 the as-written version returns the first monitor, whatever
      `isPrimary()` would say. */
  lemma AsWrittenReturnsFirstMonitor(hasGetMonitors: bool, ids: seq<int>)
    ensures GetPrimaryMonitorAsWritten(Win32, hasGetMonitors, ids) ==
      if hasGetMonitors && ids != [] then MonitorOf(ids[0]) else NoMonitor
  {
  }

  /** With a secondary monitor listed first, the as-written version picks it. */
  lemma PrimaryMonitorCounterexample()
    ensures var isPrimary := (id: int) => id == 2;
      GetPrimaryMonitorAsWritten(Win32, true, [1, 2]) == MonitorOf(1) && !isPrimary(1)
      && GetPrimaryMonitorCorrected(Win32, true, [1, 2], isPrimary) == MonitorOf(2)
  {
    AsWrittenReturnsFirstMonitor(true, [1, 2]);
    var isPrimary := (id: int) => id == 2;
    assert !isPrimary([1, 2][0]);
  }

  /** Calling the method: `find((x) => x.isPrimary())`, where `isPrimary(id)`
      is the `isPrimary` field of `getMonitorInfo(id)`. */
  function GetPrimaryMonitorCorrected(platform: Platform, hasGetMonitors: bool, ids: seq<int>, isPrimary: int -> bool)
    : (m: MonitorChoice)
    ensures m.EmptyMonitorChoice? <==> platform != Win32
    ensures m.MonitorOf? ==> hasGetMonitors && m.id in ids && isPrimary(m.id)
  {
    if platform != Win32 then EmptyMonitorChoice
    else match Find(Monitors(hasGetMonitors, ids), isPrimary)
      case None => NoMonitor
      case Some(id) => MonitorOf(id)
  }

  /** The corrected version returns the first listed monitor that reports
      itself primary, and `undefined` exactly when none does. */
  lemma GetPrimaryMonitorCorrectedSpec(hasGetMonitors: bool, ids: seq<int>, isPrimary: int -> bool)
    ensures var r := GetPrimaryMonitorCorrected(Win32, hasGetMonitors, ids, isPrimary);
      && (r.MonitorOf? ==> hasGetMonitors && r.id in ids && isPrimary(r.id))
      && (r.MonitorOf? ==> exists i :: 0 <= i < |ids| && ids[i] == r.id && forall j :: 0 <= j < i ==> !isPrimary(ids[j]))
      && (r == NoMonitor <==> !hasGetMonitors || forall k :: 0 <= k < |ids| ==> !isPrimary(ids[k]))
      && !r.EmptyMonitorChoice?
    ensures forall p: Platform :: p != Win32 ==> GetPrimaryMonitorCorrected(p, hasGetMonitors, ids, isPrimary) == EmptyMonitorChoice
  {
  }
}
