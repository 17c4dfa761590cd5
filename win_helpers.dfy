/** Small helpers of the Windows addon: the two stacking-position searches
    (`getWindowZOrder`, `find_top_window`), the window-style bit edits and the
    `showWindow` flag table. The window manager's state is an input: the
    stacking order from top to bottom, and which process owns each window. */
module WinHelpers {

  import opened Common

  /** A window handle; 0 is NULL. */
  type Handle = int
  const NULL: Handle := 0

  /** The top-level windows from topmost to bottommost, as the window manager
      keeps them: distinct, non-null handles. */
  predicate WellFormedStack(stack: seq<Handle>) {
    NoDup(stack) && NULL !in stack
  }

  /** `GetWindow(h, GW_HWNDPREV)`: the window just above `h`, or NULL for the
      topmost window and for a handle that is not a top-level window. */
  function WindowAbove(stack: seq<Handle>, h: Handle): (r: Handle)
    requires WellFormedStack(stack)
    ensures r != NULL ==> r in stack && h in stack && FirstIndex(stack, r) + 1 == FirstIndex(stack, h)
  {
    var i := FirstIndex(stack, h);
    if i <= 0 then NULL else stack[i - 1]
  }

  lemma IndexOfDistinct(stack: seq<Handle>, i: nat)
    requires NoDup(stack) && i < |stack|
    ensures FirstIndex(stack, stack[i]) == i
  {
  }

  /** `getWindowZOrder`: counts the windows above `handle` by walking up with
      GW_HWNDPREV until NULL. The topmost window gives 0. */
  method GetWindowZOrder(stack: seq<Handle>, handle: Handle) returns (zIndex: int)
    requires WellFormedStack(stack)
    ensures handle in stack ==> 0 <= zIndex < |stack| && stack[zIndex] == handle
    ensures handle !in stack ==> zIndex == 0
  {
    zIndex := 0;
    var walker := handle;
    while walker != NULL
      invariant handle in stack && walker != NULL ==>
        walker in stack && zIndex + FirstIndex(stack, walker) == FirstIndex(stack, handle)
      invariant handle in stack && walker == NULL ==> zIndex == FirstIndex(stack, handle)
      invariant handle !in stack ==> zIndex == 0 && (walker == NULL || walker == handle)
      invariant zIndex >= 0
      decreases if walker == NULL then 0 else FirstIndex(stack, walker) + 2
    {
      var above := WindowAbove(stack, walker);
      if above != NULL {
        IndexOfDistinct(stack, FirstIndex(stack, above));
      }
      walker := above;
      if walker != NULL {
        zIndex := zIndex + 1;
      }
    }
  }

  /** `find_top_window(pid)`: the first window of the `EnumWindows` order whose
      owning process is `pid`, or NULL. `owner` holds the process id that
      `GetWindowThreadProcessId` reports; a window missing from it is one for
      which that call fails. The callback stops the enumeration at a match
      after `SetLastError(-1)`, and a match is reported only when the
      enumeration was stopped with that error value and a handle was stored. */
  method FindTopWindow(windows: seq<Handle>, owner: map<Handle, int>, pid: int) returns (r: Handle)
    requires NULL !in windows
    ensures r != NULL ==>
      exists i :: 0 <= i < |windows| && windows[i] == r && r in owner && owner[r] == pid
        && forall j :: 0 <= j < i ==> !(windows[j] in owner && owner[windows[j]] == pid)
    ensures r == NULL ==> forall j :: 0 <= j < |windows| ==> !(windows[j] in owner && owner[windows[j]] == pid)
  {
    var found: Handle := NULL;
    var lastError := 0;
    var stopped := false;
    var i := 0;
    while i < |windows| && !stopped
      invariant 0 <= i <= |windows|
      invariant !stopped ==> found == NULL && lastError == 0
      invariant forall j :: 0 <= j < i - (if stopped then 1 else 0) ==>
        !(windows[j] in owner && owner[windows[j]] == pid)
      invariant stopped ==> 0 < i && found == windows[i - 1] && found in owner && owner[found] == pid
                            && lastError == -1
    {
      var hwnd := windows[i];
      if hwnd in owner && owner[hwnd] == pid {
        lastError := -1;
        found := hwnd;
        stopped := true;
      }
      i := i + 1;
    }
    var bResult := !stopped;
    if !bResult && lastError == -1 && found != NULL {
      r := found;
      assert windows[i - 1] == r;
    } else {
      r := NULL;
    }
  }

  // Style bits (values of the Windows SDK).
  const WS_POPUP: bv32 := 0x8000_0000
  const WS_MINIMIZE: bv32 := 0x2000_0000
  const WS_MAXIMIZE: bv32 := 0x0100_0000
  const WS_CAPTION: bv32 := 0x00C0_0000
  const WS_SYSMENU: bv32 := 0x0008_0000
  const WS_THICKFRAME: bv32 := 0x0004_0000
  const WS_OVERLAPPEDWINDOW: bv32 := 0x00CF_0000
  const WS_EX_COMPOSITED: bv32 := 0x0200_0000
  const WS_EX_LAYERED_PTR: bv64 := 0x0008_0000
  const WS_EX_LAYERED: bv32 := 0x0008_0000
  const WS_EX_TRANSPARENT: bv32 := 0x0000_0020

  /** The bits `setWindowAsPopup` clears. */
  const POPUP_CLEARED: bv32 := WS_CAPTION | WS_THICKFRAME | WS_MINIMIZE | WS_MAXIMIZE | WS_SYSMENU

  /** `toggleWindowTransparency` on the extended style, a LONG_PTR: sets the
      layered bit when `toggle` holds and clears it otherwise; no other bit
      changes. */
  function ToggleLayered(style: bv64, toggle: bool): (r: bv64)
    ensures toggle ==> r & WS_EX_LAYERED_PTR == WS_EX_LAYERED_PTR
    ensures !toggle ==> r & WS_EX_LAYERED_PTR == 0
    ensures r & !WS_EX_LAYERED_PTR == style & !WS_EX_LAYERED_PTR
  {
    if toggle then style | WS_EX_LAYERED_PTR else style & !WS_EX_LAYERED_PTR
  }

  /** Turning the layered bit on and then off again leaves the style as it
      was exactly when that bit was clear to begin with. */
  lemma ToggleRoundTrip(style: bv64)
    ensures ToggleLayered(ToggleLayered(style, true), false) == style <==> style & WS_EX_LAYERED_PTR == 0
    ensures ToggleLayered(ToggleLayered(style, false), true) == style <==> style & WS_EX_LAYERED_PTR != 0
  {
  }

  /** `hideInstantly`'s style edit: the overlapped-window bits cleared, every
      other bit kept. */
  function HideStyle(style: bv32): (r: bv32)
    ensures r & WS_OVERLAPPEDWINDOW == 0
    ensures r & !WS_OVERLAPPEDWINDOW == style & !WS_OVERLAPPEDWINDOW
    ensures r & WS_CAPTION == 0 && r & WS_SYSMENU == 0 && r & WS_THICKFRAME == 0
  {
    style & !WS_OVERLAPPEDWINDOW
  }

  /** `hideInstantly`'s extended-style edit: layered and transparent cleared. */
  function HideExStyle(exStyle: bv32): (r: bv32)
    ensures r & WS_EX_LAYERED == 0 && r & WS_EX_TRANSPARENT == 0
    ensures r & !(WS_EX_LAYERED | WS_EX_TRANSPARENT) == exStyle & !(WS_EX_LAYERED | WS_EX_TRANSPARENT)
  {
    exStyle & !(WS_EX_LAYERED | WS_EX_TRANSPARENT)
  }

  /** `setWindowAsPopup` (and the first half of its rounded-corner variant):
      caption, frame, minimise, maximise and system-menu bits cleared, the
      popup bit set, every other bit kept. */
  function PopupStyle(style: bv32): (r: bv32)
    ensures r & POPUP_CLEARED == 0
    ensures r & WS_POPUP == WS_POPUP
    ensures r & !(POPUP_CLEARED | WS_POPUP) == style & !(POPUP_CLEARED | WS_POPUP)
  {
    (style & !POPUP_CLEARED) | WS_POPUP
  }

  /** `setWindowAsPopupWithRoundedCorners`'s extended-style edit. */
  function CompositedExStyle(exStyle: bv32): (r: bv32)
    ensures r & WS_EX_COMPOSITED == WS_EX_COMPOSITED
    ensures r & !WS_EX_COMPOSITED == exStyle & !WS_EX_COMPOSITED
  {
    exStyle | WS_EX_COMPOSITED
  }

  /** Each of the style edits is idempotent: applying it to its own result
      changes nothing. */
  lemma StyleEditsIdempotent(style: bv32, exStyle: bv32, ptrStyle: bv64, toggle: bool)
    ensures HideStyle(HideStyle(style)) == HideStyle(style)
    ensures HideExStyle(HideExStyle(exStyle)) == HideExStyle(exStyle)
    ensures PopupStyle(PopupStyle(style)) == PopupStyle(style)
    ensures CompositedExStyle(CompositedExStyle(exStyle)) == CompositedExStyle(exStyle)
    ensures ToggleLayered(ToggleLayered(ptrStyle, toggle), toggle) == ToggleLayered(ptrStyle, toggle)
  {
  }

  // `ShowWindow` commands.
  const SW_HIDE: int := 0
  const SW_MAXIMIZE: int := 3
  const SW_SHOW: int := 5
  const SW_MINIMIZE: int := 6
  const SW_RESTORE: int := 9

  const SHOW_TYPES: seq<string> := ["show", "hide", "minimize", "restore", "maximize"]

  /** The `showWindow` type string to `ShowWindow` command; the flag starts at
      0, so a string outside the table gives 0. Every string yields one of
      the five commands. */
  function ShowFlag(kind: string): (flag: int)
    ensures flag in {SW_SHOW, SW_HIDE, SW_MINIMIZE, SW_RESTORE, SW_MAXIMIZE}
  {
    if kind == "show" then SW_SHOW
    else if kind == "hide" then SW_HIDE
    else if kind == "minimize" then SW_MINIMIZE
    else if kind == "restore" then SW_RESTORE
    else if kind == "maximize" then SW_MAXIMIZE
    else 0
  }

  /** The table is one-to-one on its five names, and every other string gives
      the same command as "hide": 0 is SW_HIDE, so an unrecognised type hides
      the window. */
  lemma ShowFlagTable(kind: string, other: string)
    ensures kind in SHOW_TYPES && other in SHOW_TYPES ==> (ShowFlag(kind) == ShowFlag(other) <==> kind == other)
    ensures ShowFlag(kind) == SW_HIDE <==> kind == "hide" || kind !in SHOW_TYPES
    ensures kind in SHOW_TYPES ==> ShowFlag(kind) in {SW_SHOW, SW_HIDE, SW_MINIMIZE, SW_RESTORE, SW_MAXIMIZE}
  {
  }
}
