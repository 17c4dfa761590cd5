/** The X11 side of the addon: `getWindowZOrder` over the window manager's
    `_NET_CLIENT_LIST_STACKING` property, and `showWindow`'s choice between
    unmapping and mapping. The X server is an input: whether the display
    opens, whether the atom exists, and what the property read returns. */
module LinuxWindows {

  import opened Common

  /** An X window id (an unsigned long). */
  type XWindow = nat

  /** The `long_length` of the property request: at most this many entries
      come back. */
  const MAX_ITEMS: nat := 1024

  /** The outcome of `XGetWindowProperty`: an error status, success without
      data, or the stacking list, bottom to top. */
  datatype PropertyReply = ReadFailed | NoData | Stacking(windows: seq<XWindow>)

  /** The part of the property one request returns. */
  function Fetched(windows: seq<XWindow>): (list: seq<XWindow>)
    ensures |list| <= MAX_ITEMS && |list| <= |windows| && list == windows[..|list|]
    ensures |windows| <= MAX_ITEMS ==> list == windows
  {
    if |windows| <= MAX_ITEMS then windows else windows[..MAX_ITEMS]
  }

  /** Windows above the first occurrence of `target` in a bottom-to-top list,
      or -1 when it does not occur. */
  function ZIndexIn(list: seq<XWindow>, target: XWindow): (z: int)
    ensures -1 <= z < |list|
    ensures z == -1 <==> target !in list
  {
    var i := FirstIndex(list, target);
    if i < 0 then -1 else |list| - 1 - i
  }

  /** `getWindowZOrder`: -1 when the display cannot be opened, the atom is
      missing, or the read fails or brings no data; otherwise the first
      occurrence of the target, found by a linear search, counted from the
      top. */
  method GetWindowZOrder(displayOpens: bool, atomExists: bool, reply: PropertyReply, target: XWindow)
    returns (zIndex: int)
    ensures !displayOpens || !atomExists || !reply.Stacking? ==> zIndex == -1
    ensures displayOpens && atomExists && reply.Stacking? ==> zIndex == ZIndexIn(Fetched(reply.windows), target)
  {
    if !displayOpens {
      return -1;
    }
    if !atomExists {
      return -1;
    }
    if !reply.Stacking? {
      return -1;
    }
    var list := Fetched(reply.windows);
    var nItems := |list|;
    var index := -1;
    var i := 0;
    while i < nItems
      invariant 0 <= i <= nItems && index == -1
      invariant target !in list[..i]
    {
      if list[i] == target {
        index := i;
        break;
      }
      i := i + 1;
    }
    if index == -1 {
      assert list[..nItems] == list;
    } else {
      FirstIndexIsFirst(list, target, index);
    }
    zIndex := -1;
    if index >= 0 {
      zIndex := nItems - 1 - index;
    }
  }

  lemma FirstIndexIsFirst(list: seq<XWindow>, target: XWindow, i: nat)
    requires i < |list| && list[i] == target && target !in list[..i]
    ensures FirstIndex(list, target) == i
  {
  }

  /** The z-index is the number of windows stacked above the target: the
      topmost entry gives 0, the bottom one gives `nItems-1`; `z` counts back
      from the end of the list to the target's first occurrence. */
  lemma ZIndexCountsWindowsAbove(list: seq<XWindow>, target: XWindow)
    requires target in list
    ensures var z := ZIndexIn(list, target);
      0 <= z < |list| && list[|list| - 1 - z] == target
      && target !in list[..|list| - 1 - z]
    ensures list[|list| - 1] == target && target !in list[..|list| - 1] ==> ZIndexIn(list, target) == 0
    ensures list[0] == target ==> ZIndexIn(list, target) == |list| - 1
  {
    var i := FirstIndex(list, target);
    assert target !in list[..i] by {
      forall j | 0 <= j < i ensures list[..i][j] != target { }
    }
  }

  function Reverse(s: seq<XWindow>): (r: seq<XWindow>)
    ensures |r| == |s|
    ensures forall k :: 0 <= k < |s| ==> r[k] == s[|s| - 1 - k]
    decreases |s|
  {
    if s == [] then [] else [s[|s| - 1]] + Reverse(s[..|s| - 1])
  }

  /** For a list without repeats, the X11 z-index is the target's position in
      the same stacking read top to bottom: 0 for the topmost window, as on
      Windows. */
  lemma ZIndexIsTopDownPosition(list: seq<XWindow>, target: XWindow)
    requires NoDup(list) && target in list
    ensures 0 <= ZIndexIn(list, target) && Reverse(list)[ZIndexIn(list, target)] == target
    ensures FirstIndex(Reverse(list), target) == ZIndexIn(list, target)
  {
    var i := FirstIndex(list, target);
    var z := |list| - 1 - i;
    var r := Reverse(list);
    assert r[z] == list[i];
    forall j | 0 <= j < z
      ensures r[j] != target
    {
      assert r[j] == list[|list| - 1 - j];
      assert i < |list| - 1 - j;
    }
    assert target !in r[..z] by {
      forall j | 0 <= j < z ensures r[..z][j] != target {
        assert r[..z][j] == r[j];
      }
    }
    FirstIndexIsFirst(r, target, z);
  }

  /** The X call `showWindow` makes. */
  datatype XCall = XUnmapWindow(window: XWindow) | XMapWindow(window: XWindow)

  /** `showWindow`: always a call on the handle given. */
  function ShowWindowCall(handle: XWindow, kind: string): (c: XCall)
    ensures c.window == handle
  {
    if kind == "hide" then XUnmapWindow(handle) else XMapWindow(handle)
  }

  /** `showWindow` unmaps exactly for "hide" and maps for every other string,
      always on the handle given. */
  lemma ShowWindowChoice(handle: XWindow, kind: string)
    ensures ShowWindowCall(handle, kind).XUnmapWindow? <==> kind == "hide"
    ensures ShowWindowCall(handle, kind).window == handle
  {
  }
}
