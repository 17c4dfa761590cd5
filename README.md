# Window manager addon: a Dafny model

This project models a Node.js window-manager package and proves properties of the model. The package has three layers:

- **A native Windows addon** (`lib/windows.cc`). It builds window summaries, looks up stacking positions and edits window styles. It also runs a throttled change monitor on a background thread.
- **An X11 counterpart** (`lib/linux.cpp`). Only its z-order lookup and `showWindow` are modelled.
- **The JavaScript layer** (`dist/index.js`). Its event emitter starts and stops the native sources on demand. It also has a monitor scale-factor gate, `setParent`, the `getWindows` filter and `getPrimaryMonitor`.

Two scripts use the package. `scripts/print-windows.mjs` lists the windows once. `scripts/watch-windows.mjs` reports the differences between successive summaries.

The operating system is always an input. So are the X server, the clock, timer and thread ids, and whatever the addon answers to JavaScript. Each module states its own inputs.

Stateful code is modelled with classes:

- `Throttle.WindowMonitor` holds the addon's monitoring globals.
- `WindowManagerJs.WindowManager` holds the listener bookkeeping.
- `WatchWindows.Watcher` holds the watcher script's module state.

Each of their methods is proved against pure functions, and further lemmas are proved about those functions. Loops in the source are modelled as loops:

- building the z-order map and the summary array;
- both `getWindowZOrder` walks, and `find_top_window`;
- the three loops of `compareStates`;
- the `forEach` that renders the listing.

The modules, one per file:

- `Common`: Option, Filter, first and last index.
- `JsText`: `${n}`, `parseInt`, `split`/`join`.
- `IgnoreList`
- `Snapshot`
- `WinHelpers`
- `Throttle`
- `LinuxWindows`
- `WindowManagerJs`
- `WindowListing`: the shared line format, `path.basename` and the sort.
- `WatchWindows`
- `PrintWindows`

Facts about the code that the model follows:

- **The ignore list.** The table pairs `xeester.exe` only with the prefix "XEESTER:" (lib/windows.cc:428-434), so a "ptTableCover" window of `xeester.exe` is kept in the summary. `IgnoreList.XeesterTableCoverKept` proves this.
- **The trailing-timer delay.** `WinEventProc` does not clamp the delay of the trailing timer (lib/windows.cc:840-842). The delay `64 - elapsed` lies between 1 and 64, which `Throttle.ArmsOnlyWhenSlotEmpty` proves.
- **Marking monitoring as running.** `startWindowsMonitoring` sets `g_monitoring` before it creates the thread (lib/windows.cc:986-989). The model takes the start and the thread's start-up as one step; see "Left out".
- **Enumeration failure.** The return value of `EnumWindows` is ignored (lib/windows.cc:458). The model's enumeration is simply the list of handles the callback saw.
- **Stopping the thread.** `stopWindowsMonitoring` joins the thread without a bound (lib/windows.cc:1014-1019).
- **The clock.** Elapsed time is the difference of two DWORD `GetTickCount` values (lib/windows.cc:823-825). The model computes it modulo 2^32 (`Throttle.Elapsed`).

## Model

| member | source | states |
|---|---|---|
| `IgnoreList.LastSeparator` | lib/windows.cc:439-440 | the position found is a `\` or `/` with no separator after it; `NotFound` means the path holds no separator |
| `IgnoreList.FileName` | lib/windows.cc:439-441 | the file name is a separator-free suffix of the path, preceded by a separator whenever it is shorter than the path |
| `IgnoreList.MatchesAny` | lib/windows.cc:443-451 | the early-return loop returns true exactly when some entry of the table has this executable name and prefixes this title |
| `IgnoreList.MatchesAnyIsExists` | lib/windows.cc:443-451 | the early-return loop over the table holds exactly when some entry has this executable name and prefixes this title |
| `IgnoreList.ShouldIgnoreWindow` | lib/windows.cc:436-453 | `shouldIgnoreWindow` is false for an empty path and otherwise true exactly when a table entry names the path's file and prefixes the title |
| `IgnoreList.ShouldIgnoreWindowSpec` | lib/windows.cc:436-453 | an empty path is never ignored; otherwise a window is ignored iff its file name equals some entry's executable name exactly and its title starts with that entry's prefix |
| `IgnoreList.FileNameAfter` | lib/windows.cc:439-441 | the file name is the text after the last separator of the path |
| `IgnoreList.HudCoverIgnored` | lib/windows.cc:428-434 | a "ptTableCover" title of PokerTrackerHud4.exe behind a forward-slash path is ignored |
| `IgnoreList.XeesterTableCoverKept` | lib/windows.cc:428-434 | a "ptTableCover" window of xeester.exe is not ignored (the table pairs it with "XEESTER:" only) |
| `Snapshot.ToInt32` | lib/windows.cc:559 | the `static_cast<int>` of the process id lies in the 32-bit signed range and agrees with the DWORD modulo 2^32 |
| `Snapshot.BuildZOrderMap` | lib/windows.cc:460-467 | the map's keys are exactly the handles of the stacking walk, each mapped to its (last) position in that walk |
| `Snapshot.PassesFilters` | lib/windows.cc:486-534 | a window that passes the loop's filters has a process path and a rectangle, and no ignore-table entry names its file and prefixes its title |
| `Snapshot.Summarize` | lib/windows.cc:536-583 | the summary carries the handle, a process id in the signed 32-bit range, a rank that is -1 exactly for a handle missing from the stacking walk and otherwise a position holding it, and is visible only when both dimensions are at least 1 |
| `Snapshot.BuildWindowsSummary` | lib/windows.cc:456-592 | the array is the reference `Summaries` of the enumeration: one summary per handle that passes every filter, in enumeration order |
| `Snapshot.SummarizeHandle` | lib/windows.cc:483-585 | one iteration of the loop continues (None) exactly when some filter fails, and otherwise yields the reference summary of the handle |
| `Snapshot.MakeSummary` | lib/windows.cc:533-583 | the summary of a handle that passed the filters: rectangle-derived bounds, rank from the map (-1 when absent), and visibility cleared by cloaking or a zero-size rectangle |
| `Snapshot.SummariesSound` | lib/windows.cc:483-585 | every emitted summary comes from an enumerated handle that passed every filter and carries that handle's data |
| `Snapshot.SummariesIds` | lib/windows.cc:483-585 | the ids of the result are exactly the enumeration filtered by the loop's filters, in order |
| `Snapshot.SnapshotOrder` | lib/windows.cc:483-585 | the ids form an order-preserving subsequence of the enumeration, and a handle appears iff it was enumerated and passes the filters |
| `Snapshot.SnapshotFilters` | lib/windows.cc:486-553 | each emitted summary passed each filter in turn; its width and height come from the rectangle; `isVisible` holds iff it is not cloaked and both dimensions are at least 1 |
| `Snapshot.SnapshotZOrders` | lib/windows.cc:576-578 | `zOrder` is -1 exactly for handles missing from the stacking walk, otherwise a position of the walk holding that handle; two different windows never share a known rank |
| `Snapshot.ZRankOfDuplicateFreeWalk` | lib/windows.cc:463-467 | in a walk that meets each handle once, the rank is the handle's unique position |
| `WinHelpers.WindowAbove` | lib/windows.cc:412 | `GW_HWNDPREV` gives the window directly above, or NULL at the top and for a handle not in the stack |
| `WinHelpers.GetWindowZOrder` | lib/windows.cc:404-420 | the walk counts the windows above: the result is the handle's position from the top (0 for the topmost), and 0 for a handle not in the stack |
| `WinHelpers.FindTopWindow` | lib/windows.cc:71-94 | a non-NULL result is the first enumerated window owned by `pid`; NULL means no enumerated window is owned by `pid` |
| `WinHelpers.ToggleLayered` | lib/windows.cc:283-293 | `toggleWindowTransparency` sets (or clears) `WS_EX_LAYERED` and keeps every other bit |
| `WinHelpers.ToggleRoundTrip` | lib/windows.cc:290 | turning the layered bit on then off gives back the style iff that bit was clear, and off then on iff it was set |
| `WinHelpers.HideStyle` | lib/windows.cc:646 | `hideInstantly` clears every `WS_OVERLAPPEDWINDOW` bit (caption, system menu, thick frame among them) and keeps the rest |
| `WinHelpers.HideExStyle` | lib/windows.cc:647 | `hideInstantly` clears layered and transparent and keeps the other extended bits |
| `WinHelpers.PopupStyle` | lib/windows.cc:680-685 | `setWindowAsPopup` clears caption, thick frame, minimise, maximise and system menu, sets `WS_POPUP`, keeps the rest |
| `WinHelpers.CompositedExStyle` | lib/windows.cc:728 | the rounded-corner variant sets `WS_EX_COMPOSITED` and keeps the other extended bits |
| `WinHelpers.StyleEditsIdempotent` | lib/windows.cc:641-647 | each style edit applied to its own result changes nothing |
| `WinHelpers.ShowFlagTable` | lib/windows.cc:336-356 | the five type strings map to five distinct `SW_` commands, and any other string yields 0, the same command as "hide" |
| `WinHelpers.ShowFlag` | lib/windows.cc:336-356 | every type string yields one of the five `SW_` commands |
| `LinuxWindows.Fetched` | lib/linux.cpp:156-157 | one property request returns a prefix of the property, at most 1024 entries, all of it when it is that short |
| `LinuxWindows.ZIndexIn` | lib/linux.cpp:165-174 | the z-index is -1 exactly when the target is absent from the list |
| `LinuxWindows.GetWindowZOrder` | lib/linux.cpp:137-179 | -1 when the display, the atom or the property read fails, otherwise the count from the top of the first occurrence found by the linear search |
| `LinuxWindows.ZIndexCountsWindowsAbove` | lib/linux.cpp:165-174 | the z-index is the number of entries after the target's first occurrence in the bottom-to-top list: 0 for the top entry, `nItems-1` for the bottom one |
| `LinuxWindows.ZIndexIsTopDownPosition` | lib/linux.cpp:165-174 | for a list without repeats, the z-index is the target's position in the top-to-bottom order, as on Windows |
| `LinuxWindows.ShowWindowChoice` | lib/linux.cpp:104-121 | the window is unmapped exactly for "hide" and mapped for every other string, always the handle given |
| `LinuxWindows.ShowWindowCall` | lib/linux.cpp:104-121 | the X call is always on the handle given |
| `Throttle.Elapsed` | lib/windows.cc:823-825 | `now - lastTime` on DWORDs is the difference modulo 2^32, the plain difference when the clock has not wrapped |
| `Throttle.OnWinEvent` | lib/windows.cc:804-845 | one event delivers at most once; a delivery records the tick and leaves nothing pending and no timer held; with a non-zero `SetTimer` id the flag and the timer slot keep agreeing |
| `Throttle.OnTimer` | lib/windows.cc:848-855 | the timer always kills itself, at most one delivery is made, and afterwards nothing is pending and no timer is held |
| `Throttle.WinEventEdges` | lib/windows.cc:804-845 | at least 64 ms after the last delivery an event kills the held timer (iff one is held), clears the flag and delivers once; inside the interval it arms one timer for the rest of the interval only when none is pending, and otherwise does nothing |
| `Throttle.DroppedEvents` | lib/windows.cc:813-820 | events while not monitoring, and events about a sub-object of a window, change no state and make no call |
| `Throttle.ArmsOnlyWhenSlotEmpty` | lib/windows.cc:839-843 | a timer is armed only when none is pending and the slot is empty, with a delay between 1 and 64 that ends the interval |
| `Throttle.SetTimerOnlyInsideInterval` | lib/windows.cc:827-843 | any `SetTimer` a handler makes is for an accepted event inside the interval with no timer pending |
| `Throttle.NothingLost` | lib/windows.cc:827-844 | when `SetTimer` returns a non-zero id, an accepted event either delivers now or leaves a trailing timer armed |
| `Throttle.TimerFire` | lib/windows.cc:848-855 | the timer kills itself, clears the flag and slot, records the tick, and delivers once unless monitoring has stopped |
| `Throttle.RunKeepsTimerIffPending` | lib/windows.cc:804-855 | across any sequence of events and ticks in which every `SetTimer` returns a non-zero id, the pending flag holds exactly when a timer id is held |
| `Throttle.FailedSetTimerStrandsPending` | lib/windows.cc:839-843 | when `SetTimer` fails and returns 0, the event leaves the update pending with no timer held and delivers nothing |
| `Throttle.StoppedNeverDelivers` | lib/windows.cc:787-798 | once monitoring is off, no sequence of events and ticks delivers anything |
| `Throttle.PendingAbsorbsBurst` | lib/windows.cc:839-844 | while a trailing update is pending, the events of a burst change nothing and call nothing |
| `Throttle.BurstDeliversTwice` | lib/windows.cc:804-855 | a burst that opens an interval, followed by the trailing tick, gives exactly two deliveries: the leading one and the trailing one |
| `Throttle.TrailingTimerDeliversOnce` | lib/windows.cc:839-855 | after the leading edge, the rest of a burst and the tick deliver exactly once and leave the throttle idle |
| `Throttle.StartIsIdempotent` | lib/windows.cc:959-992 | two starts, the first with a callback, leave the monitor running with one thread created and one `CreateThread` call, bound to the first callback; when already running nothing changes |
| `Throttle.StopIsIdempotent` | lib/windows.cc:994-1030 | two stops make exactly the calls of one stop, reset the throttle and end monitoring |
| `Throttle.WindowMonitor.constructor` | lib/windows.cc:16-26 | the globals start with monitoring off, no callback, no thread, a zero throttle state and no calls |
| `Throttle.WindowMonitor.InvokeWindowsSummaryCallback` | lib/windows.cc:787-798 | one non-blocking delivery is made exactly while monitoring with a callback |
| `Throttle.WindowMonitor.WinEventProc` | lib/windows.cc:804-845 | the new throttle state and the calls made are those of `OnWinEvent`; nothing else changes |
| `Throttle.WindowMonitor.ThrottleTimerProc` | lib/windows.cc:848-855 | the new throttle state and the calls made are those of `OnTimer`; nothing else changes |
| `Throttle.WindowMonitor.StartWindowsMonitoring` | lib/windows.cc:959-992 | a no-op while monitoring; a TypeError without a function; otherwise binds the callback, creates one thread, installs the eight hooks, and keeps the throttle state |
| `Throttle.WindowMonitor.StopWindowsMonitoring` | lib/windows.cc:994-1030 | a no-op when not monitoring; otherwise kills the held timer, resets the throttle, posts quit, joins the thread, releases the callback and ends monitoring, making every call in that order |
| `WindowManagerJs.NewListenerCounts` | dist/index.js:226-250 | the `newListener` handler makes one `setInterval` for an unregistered activation event and one start for an unregistered summary event (when the addon has it), and no clear or stop |
| `WindowManagerJs.LastListenerCounts` | dist/index.js:254-260 | the last-listener path makes one `clearInterval` for the activation event and one stop for the summary event (when the addon has it), nothing else |
| `WindowManagerJs.OnKeepsRegistry` | dist/index.js:230-249 | after `on`, `registeredEvents` still lists each source event at most once, exactly those with a listener |
| `WindowManagerJs.OnCounts` | dist/index.js:226-250 | the calls of `newListener` add one interval or one start exactly for an event not yet registered |
| `WindowManagerJs.OnKeepsBookkeeping` | dist/index.js:226-250 | adding a listener keeps the registry and the start/stop and set/clear balances, starting the monitor exactly for the first summary listener |
| `WindowManagerJs.RemoveKeepsRegistry` | dist/index.js:251-262 | after removing a listener, `registeredEvents` still lists exactly the source events with a listener |
| `WindowManagerJs.RemoveCounts` | dist/index.js:251-262 | the `removeListener` handler adds one clear or one stop exactly on the last listener |
| `WindowManagerJs.RemoveKeepsBookkeeping` | dist/index.js:251-262 | removing a listener keeps the registry and the balances, and stops the monitor exactly after the last summary listener |
| `WindowManagerJs.OnKeepsInvariant` | dist/index.js:226-250 | `on` keeps the manager's invariant; its calls add one start exactly for an unregistered summary event and one `setInterval` exactly for an unregistered activation event, only while the `newListener` handler is installed, and never a stop or a clear |
| `WindowManagerJs.RemoveKeepsInvariant` | dist/index.js:251-262 | removing one listener keeps the invariant; the handler adds one stop or one `clearInterval` exactly after the last summary or activation listener while it is installed, and never a start or a `setInterval` |
| `WindowManagerJs.OnKeepsManagerInvariant` | dist/index.js:226-250 | the state `on` leaves satisfies the invariant: the registry holds each source event at most once, each installed handler keeps its half of it, and with both installed the call log balances |
| `WindowManagerJs.RemoveKeepsManagerInvariant` | dist/index.js:251-262 | the state a single removal leaves satisfies the same invariant |
| `WindowManagerJs.RemoveAllKeepsManagerInvariant` | dist/index.js:251-262 | the state `removeAllListeners(event)` leaves satisfies the invariant, also when it removes the manager's own `newListener` or `removeListener` handler |
| `WindowManagerJs.RemoveAllKeepsLedger` | dist/index.js:251-262 | `removeAllListeners(event)` keeps every other event's registration, drops `event` when the handler acts, and adds one `clearInterval` for the activation event or one stop for the summary event (when the addon has it), nothing else |
| `WindowManagerJs.WindowManager.constructor` | dist/index.js:218-225 | a new manager has no registered event, no listener, no call, no interval |
| `WindowManagerJs.WindowManager.On` | dist/index.js:226-250 | adds one listener; while the `newListener` handler is installed, samples the active window for an activation listener, creates the interval and registers the event only for the first one, and starts the monitor for the first summary listener; nothing else changes |
| `WindowManagerJs.WindowManager.RemoveListener` | dist/index.js:251-262 | removes a listener iff one exists; the installed handler acts only when `listenerCount(event)` is 0, then unregisters the event and clears the interval or stops the monitor; the handlers, `lastId` and the interval stay |
| `WindowManagerJs.WindowManager.RemoveAllListeners` | dist/index.js:251-262 | leaves no user listener of the event, removes the manager's own handler when the event is "newListener" or "removeListener", and, when the installed `removeListener` handler meets the last listener of a source event, unregisters it and clears the interval or stops the monitor once; `lastId` and the interval stay |
| `WindowManagerJs.VersionNumbers` | dist/index.js:25 | one parsed number per dot-separated piece of the release string |
| `WindowManagerJs.GetScaleFactor` | dist/index.js:22-30 | the result is undefined exactly without the addon function, and the addon is asked only when the release's first number is at least 8 |
| `WindowManagerJs.GetScaleFactorOnRelease` | dist/index.js:22-30 | on a `major.minor.build` release the addon is asked iff major > 8 or major is 8 with minor >= 1; without the addon function the result is undefined |
| `WindowManagerJs.ReleaseNumbers` | dist/index.js:25 | `split` and `parseInt` read the major and minor numbers back from a release string |
| `JsText.ParseInt` | dist/index.js:25 | `parseInt(d, 10)` is NaN exactly when no decimal digit follows the optional sign |
| `WindowManagerJs.Windows81GetsOne` | dist/index.js:26 | the release "6.3.9600" of Windows 8.1 gets 1 although the addon can answer, while "10.0.19045" asks the addon |
| `WindowManagerJs.GetScaleFactorCorrectedOnRelease` | dist/index.js:26 | the corrected gate asks the addon from kernel 6.3 on and answers 1 for 6.2 |
| `WindowManagerJs.ParentHandleChoice` | dist/index.js:196-206 | a `Window` becomes its id, a falsy value 0, anything else passes unchanged; the addon never gets a `Window`, and the choice is idempotent |
| `WindowManagerJs.SetParent` | dist/index.js:196-206 | the addon is called exactly when it has `setWindowParent`, with this window's id, never with a `Window`, and with 0 for a falsy argument |
| `WindowManagerJs.GetWindowsSpec` | dist/index.js:279-283 | `getWindows` keeps the addon's order and holds exactly the listed ids whose `isWindow()` is truthy (on win32 a non-empty path and `addon.isWindow`), and nothing on other platforms |
| `WindowManagerJs.GetWindows` | dist/index.js:279-283 | the result is no longer than the addon's list, holds only listed ids whose `isWindow()` holds, and is empty without `addon.getWindows` |
| `WindowManagerJs.Find` | dist/index.js:291 | `find` returns the first element satisfying the predicate, and undefined exactly when none does |
| `WindowManagerJs.GetPrimaryMonitorAsWritten` | dist/index.js:289-295 | an `EmptyMonitor` exactly off win32; a returned monitor is a listed one; on win32 undefined exactly when no monitor is listed |
| `WindowManagerJs.AsWrittenReturnsFirstMonitor` | dist/index.js:289-295 | as written, `getPrimaryMonitor` on win32 returns the first monitor (undefined when there is none), whatever `isPrimary()` says |
| `WindowManagerJs.PrimaryMonitorCounterexample` | dist/index.js:291 | with a secondary monitor listed first, the as-written function picks it and the corrected one picks the primary |
| `WindowManagerJs.GetPrimaryMonitorCorrected` | dist/index.js:289-295 | an `EmptyMonitor` exactly off win32, and a returned monitor is a listed one that reports itself primary |
| `WindowManagerJs.GetPrimaryMonitorCorrectedSpec` | dist/index.js:289-295 | the corrected function returns the first monitor that reports itself primary, undefined exactly when none does, and an `EmptyMonitor` off win32 |
| `WindowListing.Details` | scripts/print-windows.mjs:10-15 | the text after the rank opens with the bracketed labels |
| `WindowListing.FormatWindowLine` | scripts/print-windows.mjs:9-16 | the watcher's line opens with two spaces, and after them (or at the start, in the lister) comes `#` |
| `WindowListing.Ranked` | scripts/print-windows.mjs:37-39 | one line per item |
| `WindowListing.RenderRanked` | scripts/print-windows.mjs:37-39 | the loop renders item `k` with rank `k + 1`, in order |
| `WindowListing.LabelsSpec` | scripts/watch-windows.mjs:12-14 | the z label is "unknown" iff `z` is not a non-negative integer and otherwise reads back as `z`; the visibility and exe labels are empty iff their value is undefined or empty |
| `WindowListing.BoundsDefaults` | scripts/watch-windows.mjs:11 | a missing bounds object prints as an empty one, and a missing coordinate prints as 0 |
| `WindowListing.IndentIsTheOnlyDifference` | scripts/watch-windows.mjs:15 | the watcher's line is the lister's line with two leading spaces |
| `WindowListing.RankReadsBack` | scripts/print-windows.mjs:15 | a line starts with `#` and its rank, which `parseInt` reads back |
| `WindowListing.StripTrailing` | scripts/print-windows.mjs:27 | `basename` drops exactly the trailing separators of the path |
| `WindowListing.LastSegment` | scripts/print-windows.mjs:27 | the segment is the separator-free tail of the path, preceded by a separator when shorter |
| `WindowListing.Basename` | scripts/print-windows.mjs:27 | `path.basename` gives a separator-free name no longer than the path |
| `WindowListing.ExeNameShape` | scripts/print-windows.mjs:27 | the executable name holds no separator, is no longer than the path, and is empty for an empty path |
| `WindowListing.Win32SegmentIsFileName` | lib/windows.cc:439-441 | with both separators, the last segment is the file name the ignore list matches on |
| `WindowListing.FileNameAfterDrive` | lib/windows.cc:439-441 | a drive and a separator in front of a path do not change its file name |
| `WindowListing.ExeNameIsFileName` | scripts/watch-windows.mjs:123 | for a Windows image path not ending in a separator, the printed exe name is the file name the ignore list matched on |
| `WindowListing.ZKey` | scripts/print-windows.mjs:32-33 | known positions are their own key, unknown (negative) ones get `Number.MAX_SAFE_INTEGER` |
| `WindowListing.SortBy` | scripts/print-windows.mjs:31-35 | the sort returns exactly as many elements as it is given (`SortByFacts` proves them a permutation of the input in ascending key order) |
| `WindowListing.SortByFacts` | scripts/print-windows.mjs:31-35 | the sort returns a permutation of its input in ascending key order |
| `WindowListing.SortByStable` | scripts/print-windows.mjs:31-35 | the sort is stable: the elements of any one key keep their input order |
| `WindowListing.UnknownPositionsLast` | scripts/print-windows.mjs:31-35 | in a list sorted by the key, known positions ascend and every unknown position comes after every known one |
| `WatchWindows.ByIdSpec` | scripts/watch-windows.mjs:26-27 | the `Map` holds exactly the ids of the list, each bound to the last window carrying it |
| `WatchWindows.CompareStates` | scripts/watch-windows.mjs:22-63 | the change list is the reference `Diff`: created, then destroyed, then the modifications |
| `WatchWindows.CollectCreated` | scripts/watch-windows.mjs:30-34 | the first loop yields `CreatedOf` |
| `WatchWindows.CollectDestroyed` | scripts/watch-windows.mjs:37-41 | the second loop yields `DestroyedOf` |
| `WatchWindows.CollectModifications` | scripts/watch-windows.mjs:44-60 | the third loop yields `Modifications` |
| `WatchWindows.WindowModifications` | scripts/watch-windows.mjs:46-59 | the four checks of one window yield `ModificationsOf` |
| `WatchWindows.BuildMap` | scripts/watch-windows.mjs:26-27 | the map built entry by entry is `ById` |
| `WatchWindows.CreatedOfIsFilter` | scripts/watch-windows.mjs:30-34 | the created changes are the current windows with a new id, in current order |
| `WatchWindows.DestroyedOfIsFilter` | scripts/watch-windows.mjs:37-41 | the destroyed changes are the previous windows whose id is gone, in previous order |
| `WatchWindows.CreatedThenDestroyed` | scripts/watch-windows.mjs:29-41 | the list opens with the created changes followed by the destroyed ones |
| `WatchWindows.CreatedIff` | scripts/watch-windows.mjs:30-34 | a window is reported created iff it is current and its id was not there before |
| `WatchWindows.DestroyedIff` | scripts/watch-windows.mjs:37-41 | a window is reported destroyed iff it was there before and its id is gone |
| `WatchWindows.DiffGrouped` | scripts/watch-windows.mjs:22-63 | every created change precedes every destroyed one, and both precede every modification |
| `WatchWindows.ModificationsKinds` | scripts/watch-windows.mjs:44-60 | the third loop yields only reordered, moved, resized and visibility changes |
| `WatchWindows.ModificationSource` | scripts/watch-windows.mjs:44-60 | each modification is about a current window whose id the previous map knows, produced by comparing it with that previous window |
| `WatchWindows.ModificationsComplete` | scripts/watch-windows.mjs:44-60 | every change the four checks produce for a known current window appears |
| `WatchWindows.ModificationInDiff` | scripts/watch-windows.mjs:44-60 | a modification of a known current window is in the list iff the checks against its previous version produce it |
| `WatchWindows.ChecksIff` | scripts/watch-windows.mjs:47-58 | each check fires iff its fields differ: z-order; x or y; width or height; visibility |
| `WatchWindows.ModificationIff` | scripts/watch-windows.mjs:44-60 | for a window in both lists: reordered iff z differs, moved iff x or y differ, resized iff width or height differ, visibility iff it differs |
| `WatchWindows.ModificationsOfEmpty` | scripts/watch-windows.mjs:47-58 | the checks produce nothing iff z-order, bounds and visibility agree |
| `WatchWindows.CreatedOfEmpty` | scripts/watch-windows.mjs:30-34 | nothing is created iff every current id was there before |
| `WatchWindows.DestroyedOfEmpty` | scripts/watch-windows.mjs:37-41 | nothing is destroyed iff every previous id is still there |
| `WatchWindows.ModificationsEmpty` | scripts/watch-windows.mjs:44-60 | with every id known, no modification is reported iff every window agrees with its previous version |
| `WatchWindows.DiffEmptyIff` | scripts/watch-windows.mjs:22-63 | no change is reported iff the id sets agree and every window keeps its z-order, bounds and visibility |
| `WatchWindows.DiffOfSelf` | scripts/watch-windows.mjs:22-63 | a summary with distinct ids compared with itself reports nothing |
| `WatchWindows.Shown` | scripts/watch-windows.mjs:122 | the listing is the first ten windows of the sorted list, all of it when shorter |
| `WatchWindows.VisibleSortedMembers` | scripts/watch-windows.mjs:114-119 | the sorted list holds only visible windows and is a permutation of all of them |
| `WatchWindows.VisibleSortedOrder` | scripts/watch-windows.mjs:114-119 | the visible windows ascend by z key, keep snapshot order within a key, and have unknown positions last |
| `WatchWindows.ReportOfSpec` | scripts/watch-windows.mjs:113-129 | a report counts every visible window, renders at most ten from the front of the sorted order with their ranks, and says how many it leaves out exactly when there are more than ten |
| `WatchWindows.Watcher.constructor` | scripts/watch-windows.mjs:18-20 | the watcher starts with an empty previous state, no update and the start time |
| `WatchWindows.Watcher.HandleWindowsUpdate` | scripts/watch-windows.mjs:65-132 | the summary is always kept; with no change nothing is reported and the counter and time stay; otherwise the counter moves on, the time is `now`, and the report is `ReportOf` of the changes |
| `PrintWindows.Rows` | scripts/print-windows.mjs:23-29 | one record per summary |
| `PrintWindows.PrintWindows` | scripts/print-windows.mjs:23-39 | one line per window, the ranked lines of the sorted records, the `k`th line starting with `#` and rank `k + 1` |
| `PrintWindows.RankedLineReadsBack` | scripts/print-windows.mjs:37-39 | each rendered line carries its rank in readable form |
| `PrintWindows.SortedRowsAreRows` | scripts/print-windows.mjs:23-35 | the printed records are a permutation of the records of the snapshot, each window's record present |
| `PrintWindows.SortedRowsOrder` | scripts/print-windows.mjs:31-35 | the printed order ascends by z key and is stable |
| `PrintWindows.SortedRowsUnknownLast` | scripts/print-windows.mjs:31-35 | unknown positions are printed after every known one |

## Left out

- No I/O, console output or process exit is modelled. The change lines the watcher prints (`scripts/watch-windows.mjs:85-111`) are not modelled. The separator lines and the "Total time" line are not modelled either. The model produces the data those lines print.
- The clock is not modelled. `process.hrtime` and `GetTickCount` readings are parameters. The watcher's elapsed time is kept in nanoseconds (`later - old(lastUpdateTime)`). The division by 1e6 and `toFixed(2)` are floating point and are not modelled.
- Threads are not modelled. `Throttle.WindowMonitor.StartWindowsMonitoring` treats starting and the new thread's start-up as one atomic step. It therefore leaves out the race the code allows: `g_monitoring` is set before the thread runs, so a stop can run before the thread has recorded its id. The thread-safe function's queue is not modelled either.
- `Throttle.RunKeepsTimerIffPending` and `Throttle.NothingLost` assume `SetTimer` succeeds. When it fails it returns 0, which `WinEventProc` stores after the pending flag is already set (lib/windows.cc:839-842). The update then stays pending with no timer to deliver it, until an event arrives after the 64 ms interval. `Throttle.FailedSetTimerStrandsPending` states that one step.
- The message loop is not modelled. `MonitorThreadProc`'s loop is the point where the handlers run. The model's `Run` sequences handler invocations instead.
- UTF-8 conversion is not modelled. Each window's title and path arrive already converted. The resizing of the title buffer is left out.
- `Snapshot.BuildWindowsSummary`: the `LoadLibraryA`/`FreeLibrary` pair is not modelled. Only whether `DwmGetWindowAttribute` is available is modelled.
- Other addon functions are not modelled: `getWindowBounds`, `setWindowBounds`, the opacity calls, `createProcess` and the rest of `windows.cc`. The model covers only their style-bit edits and the show flags. The Linux addon is limited to `getWindowZOrder` and `showWindow`.
- `LinuxWindows.ShowWindowChoice` does not model a failed `XOpenDisplay` in `showWindow`: the code then passes a NULL display to Xlib.
- `WinHelpers.HideStyle`: the model leaves out how `hideInstantly` carries on after throwing its TypeError (the code does not return there). It also leaves out the `ShowWindow` result.
- The JavaScript polling interval is not modelled. The 50 ms `setInterval` callback that emits "window-activated" is outside the model. Only its creation and clearing are modelled, through `lastId` and the interval token.
- `WindowManagerJs.WindowManager` is a single instance. The real `registeredEvents` and `interval` are module-level, so several managers would share them. The model keeps them per instance.
- `once` and `prependListener` are not modelled. `removeAllListeners()` with no argument is not modelled. It removes the listeners of every event except "removeListener" (the `newListener` handler among them) one event at a time, and the manager's `removeListener` handler runs for each removal, clearing the interval or stopping the monitor after the last listener of a source event. Only then are the "removeListener" listeners removed. The model offers the one-argument `WindowManagerJs.WindowManager.RemoveAllListeners`, which is that per-event step.
- `WindowListing.SortBy` models `Array.prototype.sort` with the comparator `az - bz` as a stable insertion sort over exact integers. This follows the ECMAScript requirement that the sort be stable. A difference above 2^53 would round in JavaScript and is not modelled.
- `WindowListing.UnknownPositionsLast`, `WatchWindows.VisibleSortedOrder` and `PrintWindows.SortedRowsUnknownLast` assume every known z-order is below `Number.MAX_SAFE_INTEGER`. Without that, a known position could tie with an unknown one.
- `WindowListing.Basename` is parameterised on the win32 or POSIX flavour of `path`. UNC device prefixes of win32 `basename` are not modelled.
- `JsText.ParseInt` covers sign and digits. Leading whitespace, a `0x` prefix and precision loss are not modelled, since the strings it is given here have none of them.
- `WatchWindows.CompareStates` collects its three loops in three helper methods and then concatenates the results. Pushing everything onto one array would give the same list in the same order.
- The console text in `WatchWindows.Watcher.HandleWindowsUpdate`'s report is not modelled. The report records the number, the elapsed time, the changes, the visible count, the rendered listing lines and the "more" count.

## Findings

| source | as written | input that shows it | evidently intended | confidence | as-written member | corrected member |
|---|---|---|---|---|---|---|
| dist/index.js:291 | `find((x) => x.isPrimary)` tests the method itself, a function object that is always truthy | monitors `[1, 2]` where only monitor 2 is primary: monitor 1 is returned | `find((x) => x.isPrimary())`, the first monitor that reports itself primary | not executed; high | `WindowManagerJs.PrimaryMonitorCounterexample` | `WindowManagerJs.GetPrimaryMonitorCorrectedSpec` |
| dist/index.js:26 | the gate compares the `os.release()` major number with 8, but that string is the kernel version, and Windows 8.1 reports 6.3 | release `"6.3.9600"` (Windows 8.1): the gate stays shut and 1 is returned | the per-monitor query from Windows 8.1 on, that is kernel 6.3 | not executed; medium | `WindowManagerJs.Windows81GetsOne` | `WindowManagerJs.GetScaleFactorCorrectedOnRelease` |
