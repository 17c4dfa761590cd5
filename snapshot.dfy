/** The window-summary builder of the Windows addon. Everything the builder
    asks the operating system is an input here: the `EnumWindows` handle
    sequence, the `GetTopWindow`/`GW_HWNDNEXT` stacking walk, and per handle
    the answers of the visibility, title, process, path, rectangle and
    cloaking queries. Titles and paths arrive already converted to UTF-8. */
module Snapshot {
  import opened Common
  import IgnoreList

  /** An `HWND` as the integer the addon reports; 0 is NULL. */
  type Handle = int

  const DWORD_RANGE: int := 0x1_0000_0000
  type DWord = x: int | 0 <= x < DWORD_RANGE

  /** `static_cast<int>` of a DWORD: the same 32 bits read as two's complement. */
  function ToInt32(d: DWord): (r: int)
    ensures -0x8000_0000 <= r < 0x8000_0000
    ensures (r - d) % DWORD_RANGE == 0
  {
    if d < 0x8000_0000 then d else d - DWORD_RANGE
  }

  /** A `RECT` as `GetWindowRect` fills it. */
  datatype Rect = Rect(left: int, top: int, right: int, bottom: int)

  datatype Bounds = Bounds(x: int, y: int, width: int, height: int)

  /** One element of the array the builder returns. */
  datatype WindowSummary = WindowSummary(
    id: Handle,
    title: string,
    path: string,
    processId: int,
    bounds: Bounds,
    zOrder: int,
    isVisible: bool)

  /** What the operating system answers about one handle. */
  datatype WindowInfo = WindowInfo(
    isWindowVisible: bool,    // IsWindowVisible
    textLength: int,          // GetWindowTextLengthW
    text: seq<char>,          // the characters GetWindowTextW copied (its return value is their count)
    utf8Title: string,        // those characters converted to UTF-8
    pid: DWord,               // GetWindowThreadProcessId
    processOpens: bool,       // OpenProcess returned a handle
    utf8Path: string,         // QueryFullProcessImageNameW converted to UTF-8
    rect: Option<Rect>,       // GetWindowRect, None when it fails
    cloaked: Option<DWord>)   // DWMWA_CLOAKED, None when the call fails

  /** The answers for a handle that no longer exists: every query fails. */
  const GONE: WindowInfo := WindowInfo(false, 0, [], [], 0, false, [], None, None)

  datatype OsState = OsState(
    enumerated: seq<Handle>,           // EnumWindows, in callback order
    stacking: seq<Handle>,             // GetTopWindow then GW_HWNDNEXT, front to back
    windows: map<Handle, WindowInfo>,
    dwmAvailable: bool)                // dwmapi.dll exports DwmGetWindowAttribute

  function Info(os: OsState, h: Handle): WindowInfo {
    if h in os.windows then os.windows[h] else GONE
  }

  /** Every filter of the loop, in the order the loop applies them. A window
      that passes has a process path, and no entry of the ignore table names
      its file and prefixes its title. */
  predicate PassesFilters(w: WindowInfo)
    ensures PassesFilters(w) ==> w.utf8Path != [] && w.rect.Some?
    ensures PassesFilters(w) ==> !exists e :: e in IgnoreList.IGNORE_LIST &&
                                   IgnoreList.FileName(w.utf8Path) == e.executableName &&
                                   IgnoreList.StartsWith(w.utf8Title, e.titlePrefix)
  {
    && w.isWindowVisible
    && w.textLength != 0
    && |w.text| != 0
    && w.utf8Title != []
    && w.pid != 0
    && w.processOpens
    && w.utf8Path != []
    && !IgnoreList.ShouldIgnoreWindow(w.utf8Path, w.utf8Title)
    && w.rect.Some?
  }

  predicate Emitted(os: OsState, h: Handle) {
    PassesFilters(Info(os, h))
  }

  function EmittedIn(os: OsState): Handle -> bool {
    h => Emitted(os, h)
  }

  /** Visible as a user sees it: not cloaked by the compositor (checked only
      when the compositor query exists) and at least one pixel each way. */
  predicate PerceivedVisible(dwmAvailable: bool, cloaked: Option<DWord>, r: Rect) {
    && !(dwmAvailable && cloaked.Some? && cloaked.value != 0)
    && r.right - r.left >= 1
    && r.bottom - r.top >= 1
  }

  /** Stacking rank: position in the front-to-back walk, -1 when absent. A
      handle met twice keeps the later position, as the map assignment does. */
  function ZRank(stacking: seq<Handle>, h: Handle): int {
    LastIndex(stacking, h)
  }

  /** The summary the loop emits for a handle that passed every filter: it
      carries the handle, a process id in the signed 32-bit range, a rank
      that is -1 exactly when the handle is missing from the stacking walk,
      and is visible only with both dimensions at least 1. */
  function Summarize(os: OsState, h: Handle): (s: WindowSummary)
    requires Info(os, h).rect.Some?
    ensures s.id == h
    ensures -0x8000_0000 <= s.processId < 0x8000_0000
    ensures -1 <= s.zOrder < |os.stacking|
    ensures s.zOrder == -1 <==> h !in os.stacking
    ensures s.zOrder >= 0 ==> os.stacking[s.zOrder] == h
    ensures s.isVisible ==> s.bounds.width >= 1 && s.bounds.height >= 1
  {
    var w := Info(os, h);
    var r := w.rect.value;
    WindowSummary(h, w.utf8Title, w.utf8Path, ToInt32(w.pid),
                  Bounds(r.left, r.top, r.right - r.left, r.bottom - r.top),
                  ZRank(os.stacking, h),
                  PerceivedVisible(os.dwmAvailable, w.cloaked, r))
  }

  /** Reference definition of the result: one summary per surviving handle of
      `hs`, in the order of `hs`. */
  function Summaries(os: OsState, hs: seq<Handle>): seq<WindowSummary>
    decreases |hs|
  {
    if hs == [] then []
    else Summaries(os, hs[..|hs| - 1]) +
         (if Emitted(os, hs[|hs| - 1]) then [Summarize(os, hs[|hs| - 1])] else [])
  }

  function Ids(s: seq<WindowSummary>): (r: seq<Handle>)
    ensures |r| == |s| && forall k :: 0 <= k < |s| ==> r[k] == s[k].id
  {
    seq(|s|, k requires 0 <= k < |s| => s[k].id)
  }

  lemma SummariesSnoc(os: OsState, hs: seq<Handle>, h: Handle)
    ensures Summaries(os, hs + [h]) ==
            Summaries(os, hs) + (if Emitted(os, h) then [Summarize(os, h)] else [])
  {
    assert (hs + [h])[..|hs|] == hs;
  }

  /** Builds the handle-to-rank map with one walk of the stacking order. */
  method BuildZOrderMap(stacking: seq<Handle>) returns (zOrderMap: map<Handle, int>)
    ensures forall h :: h in zOrderMap <==> h in stacking
    ensures forall h :: h in zOrderMap ==> zOrderMap[h] == ZRank(stacking, h)
  {
    zOrderMap := map[];
    var currentZ := 0;
    while currentZ < |stacking|
      invariant 0 <= currentZ <= |stacking|
      invariant forall h :: h in zOrderMap <==> h in stacking[..currentZ]
      invariant forall h :: h in zOrderMap ==> zOrderMap[h] == LastIndex(stacking[..currentZ], h)
    {
      var walker := stacking[currentZ];
      assert stacking[..currentZ + 1][..currentZ] == stacking[..currentZ];
      zOrderMap := zOrderMap[walker := currentZ];
      currentZ := currentZ + 1;
    }
    assert stacking[..currentZ] == stacking;
  }

  /** `buildWindowsSummary`: skips every handle that fails a filter and
      appends one summary per survivor, in enumeration order. */
  method BuildWindowsSummary(os: OsState) returns (arr: seq<WindowSummary>)
    ensures arr == Summaries(os, os.enumerated)
  {
    var zOrderMap := BuildZOrderMap(os.stacking);
    arr := [];
    var i := 0;
    while i < |os.enumerated|
      invariant 0 <= i <= |os.enumerated|
      invariant arr == Summaries(os, os.enumerated[..i])
    {
      var handle := os.enumerated[i];
      assert os.enumerated[..i + 1] == os.enumerated[..i] + [handle];
      SummariesSnoc(os, os.enumerated[..i], handle);
      var summary := SummarizeHandle(os, zOrderMap, handle);
      if summary.Some? {
        arr := arr + [summary.value];
      }
      i := i + 1;
    }
    assert os.enumerated[..i] == os.enumerated;
  }

  /** The body of the enumeration loop for one handle: `None` where the
      loop `continue`s, otherwise the summary it appends. */
  method SummarizeHandle(os: OsState, zOrderMap: map<Handle, int>, handle: Handle) returns (summary: Option<WindowSummary>)
    requires forall h :: h in zOrderMap <==> h in os.stacking
    requires forall h :: h in zOrderMap ==> zOrderMap[h] == ZRank(os.stacking, h)
    ensures summary.None? <==> !Emitted(os, handle)
    ensures summary.Some? ==> summary.value == Summarize(os, handle)
  {
    var w := Info(os, handle);
    if !w.isWindowVisible { return None; }
    var titleLen := w.textLength;
    if titleLen == 0 { return None; }
    var actualLen := |w.text|;
    if actualLen == 0 { return None; }
    var title := w.utf8Title;
    if title == [] { return None; }
    var pid := w.pid;
    if pid == 0 { return None; }
    if !w.processOpens { return None; }
    var path := w.utf8Path;
    if path == [] { return None; }
    if IgnoreList.ShouldIgnoreWindow(path, title) { return None; }
    if w.rect.None? { return None; }
    var built := MakeSummary(os, zOrderMap, handle);
    summary := Some(built);
  }

  /** The part of the loop body after the filters: the visibility and the
      rank of a handle that passed them all. */
  method MakeSummary(os: OsState, zOrderMap: map<Handle, int>, handle: Handle) returns (summary: WindowSummary)
    requires Info(os, handle).rect.Some?
    requires forall h :: h in zOrderMap <==> h in os.stacking
    requires forall h :: h in zOrderMap ==> zOrderMap[h] == ZRank(os.stacking, h)
    ensures summary == Summarize(os, handle)
  {
    var w := Info(os, handle);
    var rect := w.rect.value;
    var isVisible := true;
    if os.dwmAvailable {
      if w.cloaked.Some? && w.cloaked.value != 0 {
        isVisible := false;
      }
    }
    var physWidth := rect.right - rect.left;
    var physHeight := rect.bottom - rect.top;
    if physWidth < 1 || physHeight < 1 {
      isVisible := false;
    }

    var zOrder := if handle in zOrderMap then zOrderMap[handle] else -1;
    summary := WindowSummary(handle, w.utf8Title, w.utf8Path, ToInt32(w.pid),
                             Bounds(rect.left, rect.top, rect.right - rect.left, rect.bottom - rect.top),
                             zOrder, isVisible);
  }

  /** Every emitted summary passed every filter and carries that handle's data. */
  lemma {:induction false} SummariesSound(os: OsState, hs: seq<Handle>)
    ensures forall k :: 0 <= k < |Summaries(os, hs)| ==>
      var s := Summaries(os, hs)[k];
      s.id in hs && Emitted(os, s.id) && s == Summarize(os, s.id)
    decreases |hs|
  {
    if hs != [] {
      SummariesSound(os, hs[..|hs| - 1]);
    }
  }

  /** The ids are exactly the surviving handles, in enumeration order. */
  lemma {:induction false} SummariesIds(os: OsState, hs: seq<Handle>)
    ensures Ids(Summaries(os, hs)) == Filter(hs, EmittedIn(os))
    decreases |hs|
  {
    if hs != [] {
      var init := hs[..|hs| - 1];
      SummariesIds(os, init);
      var last := hs[|hs| - 1];
      var tail := if Emitted(os, last) then [Summarize(os, last)] else [];
      IdsAppend(Summaries(os, init), tail);
      assert Ids(tail) == if EmittedIn(os)(last) then [last] else [];
    }
  }

  lemma IdsAppend(a: seq<WindowSummary>, b: seq<WindowSummary>)
    ensures Ids(a + b) == Ids(a) + Ids(b)
  {
    assert forall k :: 0 <= k < |a| + |b| ==> (a + b)[k].id == (Ids(a) + Ids(b))[k];
  }

  /** The output ids are the surviving handles as an order-preserving
      subsequence of the enumeration, and every surviving handle appears. */
  lemma SnapshotOrder(os: OsState)
    ensures var ids := Ids(Summaries(os, os.enumerated));
      && IsSubseq(ids, os.enumerated)
      && (forall h :: h in ids <==> h in os.enumerated && Emitted(os, h))
  {
    SummariesIds(os, os.enumerated);
    FilterIsSubseq(os.enumerated, EmittedIn(os));
    forall h ensures h in Filter(os.enumerated, EmittedIn(os)) <==> h in os.enumerated && Emitted(os, h) {
      FilterMembership(os.enumerated, EmittedIn(os), h);
    }
  }

  /** Every emitted summary passed each filter of the loop, and its bounds and
      `isVisible` are computed from its rectangle and cloaking state. */
  lemma SnapshotFilters(os: OsState, k: nat)
    requires k < |Summaries(os, os.enumerated)|
    ensures var s := Summaries(os, os.enumerated)[k];
      var w := Info(os, s.id);
      && w.isWindowVisible && w.textLength != 0 && |w.text| != 0
      && s.title != [] && w.pid != 0 && s.processId != 0
      && w.processOpens && s.path != []
      && !IgnoreList.ShouldIgnoreWindow(s.path, s.title)
      && w.rect.Some?
      && s.bounds.width == w.rect.value.right - w.rect.value.left
      && s.bounds.height == w.rect.value.bottom - w.rect.value.top
      && (s.isVisible <==>
            !(os.dwmAvailable && w.cloaked.Some? && w.cloaked.value != 0)
            && s.bounds.width >= 1 && s.bounds.height >= 1)
  {
    SummariesSound(os, os.enumerated);
  }

  /** `zOrder` is the handle's position in the stacking walk (-1 when absent),
      and two different windows never share a known rank. */
  lemma SnapshotZOrders(os: OsState)
    ensures var arr := Summaries(os, os.enumerated);
      && (forall k :: 0 <= k < |arr| ==>
            -1 <= arr[k].zOrder < |os.stacking|
            && (arr[k].zOrder == -1 <==> arr[k].id !in os.stacking)
            && (arr[k].zOrder >= 0 ==> os.stacking[arr[k].zOrder] == arr[k].id))
      && (forall k1, k2 ::
            (0 <= k1 < |arr| && 0 <= k2 < |arr| && arr[k1].id != arr[k2].id && arr[k1].zOrder != -1)
            ==> arr[k1].zOrder != arr[k2].zOrder)
  {
    SummariesSound(os, os.enumerated);
  }

  /** In a walk that meets each handle once, the rank is the unique position. */
  lemma ZRankOfDuplicateFreeWalk(stacking: seq<Handle>, i: nat)
    requires NoDup(stacking) && i < |stacking|
    ensures ZRank(stacking, stacking[i]) == i
  {
  }
}
