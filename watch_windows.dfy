/** The watcher script: `compareStates`, which lists what changed between
    two window summaries, and `handleWindowsUpdate`, which keeps the previous
    summary and the update counter and renders the visible windows. The
    clock reads are parameters; the console text of the individual changes
    is not modelled. */
module WatchWindows {

  import opened Common
  import opened Snapshot
  import opened WindowListing

  /** One element of the change list, with the fields the script fills in. */
  datatype Change =
    | Created(window: WindowSummary)
    | Destroyed(window: WindowSummary)
    | Reordered(window: WindowSummary, oldZ: int, newZ: int)
    | Moved(window: WindowSummary, oldBounds: Bounds, newBounds: Bounds)
    | Resized(window: WindowSummary, oldBounds: Bounds, newBounds: Bounds)
    | Visibility(window: WindowSummary, visible: bool)

  predicate IsModification(c: Change) {
    c.Reordered? || c.Moved? || c.Resized? || c.Visibility?
  }

  /** `new Map(s.map((w) => [w.id, w]))`: a later window with the same id
      replaces an earlier one. */
  function ById(s: seq<WindowSummary>): map<Handle, WindowSummary>
    decreases |s|
  {
    if s == [] then map[] else ById(s[..|s| - 1])[s[|s| - 1].id := s[|s| - 1]]
  }

  /** The map holds exactly the ids of the list, each bound to the last
      window that carries it. */
  lemma {:induction false} ByIdSpec(s: seq<WindowSummary>, id: Handle)
    ensures id in ById(s) <==> id in Ids(s)
    ensures id in ById(s) ==> ById(s)[id] == s[LastIndex(Ids(s), id)]
    decreases |s|
  {
    if s != [] {
      var init := s[..|s| - 1];
      ByIdSpec(init, id);
      assert Ids(s) == Ids(init) + [s[|s| - 1].id];
      assert Ids(s)[..|s| - 1] == Ids(init);
    }
  }

  // ---- the three parts of the change list ----

  /** First loop: a `created` change per current window whose id the
      previous map lacks, in current order. */
  function CreatedOf(current: seq<WindowSummary>, prevMap: map<Handle, WindowSummary>): seq<Change>
    decreases |current|
  {
    if current == [] then []
    else
      var w := current[|current| - 1];
      CreatedOf(current[..|current| - 1], prevMap) + (if w.id !in prevMap then [Created(w)] else [])
  }

  /** Second loop: a `destroyed` change per previous window whose id the
      current map lacks, in previous order. */
  function DestroyedOf(previous: seq<WindowSummary>, currMap: map<Handle, WindowSummary>): seq<Change>
    decreases |previous|
  {
    if previous == [] then []
    else
      var w := previous[|previous| - 1];
      DestroyedOf(previous[..|previous| - 1], currMap) + (if w.id !in currMap then [Destroyed(w)] else [])
  }

  /** The four checks of the third loop for one window and its previous
      version, in the order the script makes them. */
  function ModificationsOf(prev: WindowSummary, win: WindowSummary): seq<Change> {
    ZChange(prev, win) + MoveChange(prev, win) + SizeChange(prev, win) + VisibilityChange(prev, win)
  }

  function ZChange(prev: WindowSummary, win: WindowSummary): seq<Change> {
    if prev.zOrder != win.zOrder then [Reordered(win, prev.zOrder, win.zOrder)] else []
  }

  function MoveChange(prev: WindowSummary, win: WindowSummary): seq<Change> {
    if prev.bounds.x != win.bounds.x || prev.bounds.y != win.bounds.y then [Moved(win, prev.bounds, win.bounds)] else []
  }

  function SizeChange(prev: WindowSummary, win: WindowSummary): seq<Change> {
    if prev.bounds.width != win.bounds.width || prev.bounds.height != win.bounds.height
    then [Resized(win, prev.bounds, win.bounds)] else []
  }

  function VisibilityChange(prev: WindowSummary, win: WindowSummary): seq<Change> {
    if prev.isVisible != win.isVisible then [Visibility(win, win.isVisible)] else []
  }

  /** Third loop: the modifications of every current window the previous
      map knows, window by window in current order. */
  function Modifications(current: seq<WindowSummary>, prevMap: map<Handle, WindowSummary>): seq<Change>
    decreases |current|
  {
    if current == [] then []
    else
      var w := current[|current| - 1];
      Modifications(current[..|current| - 1], prevMap) + ModificationsAgainst(prevMap, w)
  }

  /** The modifications of `w` when the previous map knows its id. */
  function ModificationsAgainst(prevMap: map<Handle, WindowSummary>, w: WindowSummary): seq<Change> {
    if w.id in prevMap then ModificationsOf(prevMap[w.id], w) else []
  }

  /** What `compareStates(current, previous)` returns. */
  function Diff(current: seq<WindowSummary>, previous: seq<WindowSummary>): seq<Change> {
    CreatedOf(current, ById(previous)) + DestroyedOf(previous, ById(current)) + Modifications(current, ById(previous))
  }

  /** `compareStates`: builds both maps, then pushes onto `changes` in three
      loops, one per part of the list, each pushing onto the same array. */
  method CompareStates(current: seq<WindowSummary>, previous: seq<WindowSummary>) returns (changes: seq<Change>)
    ensures changes == Diff(current, previous)
  {
    var prevMap := BuildMap(previous);
    var currMap := BuildMap(current);
    var created := CollectCreated(current, prevMap);
    var destroyed := CollectDestroyed(previous, currMap);
    var modified := CollectModifications(current, prevMap);
    changes := created + destroyed + modified;
  }

  /** The first loop of `compareStates`. */
  method CollectCreated(current: seq<WindowSummary>, prevMap: map<Handle, WindowSummary>)
    returns (out: seq<Change>)
    ensures out == CreatedOf(current, prevMap)
  {
    out := [];
    var i := 0;
    while i < |current|
      invariant 0 <= i <= |current|
      invariant out == CreatedOf(current[..i], prevMap)
    {
      var win := current[i];
      assert current[..i + 1][..i] == current[..i];
      if win.id !in prevMap {
        out := out + [Created(win)];
      }
      i := i + 1;
    }
    assert current[..i] == current;
  }

  /** The second loop of `compareStates`. */
  method CollectDestroyed(previous: seq<WindowSummary>, currMap: map<Handle, WindowSummary>)
    returns (out: seq<Change>)
    ensures out == DestroyedOf(previous, currMap)
  {
    out := [];
    var i := 0;
    while i < |previous|
      invariant 0 <= i <= |previous|
      invariant out == DestroyedOf(previous[..i], currMap)
    {
      var win := previous[i];
      assert previous[..i + 1][..i] == previous[..i];
      if win.id !in currMap {
        out := out + [Destroyed(win)];
      }
      i := i + 1;
    }
    assert previous[..i] == previous;
  }

  /** The third loop of `compareStates`. */
  method CollectModifications(current: seq<WindowSummary>, prevMap: map<Handle, WindowSummary>)
    returns (out: seq<Change>)
    ensures out == Modifications(current, prevMap)
  {
    out := [];
    var i := 0;
    while i < |current|
      invariant 0 <= i <= |current|
      invariant out == Modifications(current[..i], prevMap)
    {
      var win := current[i];
      ModificationsSnoc(current, prevMap, i);
      var mods := [];
      if win.id in prevMap {
        mods := WindowModifications(prevMap[win.id], win);
      }
      assert mods == ModificationsAgainst(prevMap, win);
      out := out + mods;
      i := i + 1;
    }
    assert current[..i] == current;
  }

  lemma ModificationsSnoc(current: seq<WindowSummary>, prevMap: map<Handle, WindowSummary>, i: nat)
    requires i < |current|
    ensures Modifications(current[..i + 1], prevMap)
         == Modifications(current[..i], prevMap) + ModificationsAgainst(prevMap, current[i])
  {
    assert current[..i + 1][..i] == current[..i];
  }

  /** The body of the third loop for a window whose id the previous map
      knows: the four comparisons, each pushing its change. */
  method WindowModifications(prev: WindowSummary, win: WindowSummary) returns (mods: seq<Change>)
    ensures mods == ModificationsOf(prev, win)
  {
    mods := [];
    if prev.zOrder != win.zOrder {
      mods := mods + [Reordered(win, prev.zOrder, win.zOrder)];
    }
    assert mods == ZChange(prev, win);
    if prev.bounds.x != win.bounds.x || prev.bounds.y != win.bounds.y {
      mods := mods + [Moved(win, prev.bounds, win.bounds)];
    }
    assert mods == ZChange(prev, win) + MoveChange(prev, win);
    if prev.bounds.width != win.bounds.width || prev.bounds.height != win.bounds.height {
      mods := mods + [Resized(win, prev.bounds, win.bounds)];
    }
    assert mods == ZChange(prev, win) + MoveChange(prev, win) + SizeChange(prev, win);
    if prev.isVisible != win.isVisible {
      mods := mods + [Visibility(win, win.isVisible)];
    }
  }

  /** The `Map` constructor over `[w.id, w]` pairs, entry by entry. */
  method BuildMap(s: seq<WindowSummary>) returns (m: map<Handle, WindowSummary>)
    ensures m == ById(s)
  {
    m := map[];
    var i := 0;
    while i < |s|
      invariant 0 <= i <= |s|
      invariant m == ById(s[..i])
    {
      assert s[..i + 1][..i] == s[..i];
      m := m[s[i].id := s[i]];
      i := i + 1;
    }
    assert s[..i] == s;
  }

  // ---- what the change list says ----

  /** The results of applying `Created`/`Destroyed` to each window. */
  function AsCreated(ws: seq<WindowSummary>): (r: seq<Change>)
    ensures |r| == |ws| && forall k :: 0 <= k < |ws| ==> r[k] == Created(ws[k])
  {
    seq(|ws|, k requires 0 <= k < |ws| => Created(ws[k]))
  }

  function AsDestroyed(ws: seq<WindowSummary>): (r: seq<Change>)
    ensures |r| == |ws| && forall k :: 0 <= k < |ws| ==> r[k] == Destroyed(ws[k])
  {
    seq(|ws|, k requires 0 <= k < |ws| => Destroyed(ws[k]))
  }

  /** The predicate "the id is not a key of `m`". */
  function IdAbsent(m: map<Handle, WindowSummary>): WindowSummary -> bool {
    (w: WindowSummary) => w.id !in m
  }

  lemma {:induction false} CreatedOfIsFilter(current: seq<WindowSummary>, m: map<Handle, WindowSummary>)
    ensures CreatedOf(current, m) == AsCreated(Filter(current, IdAbsent(m)))
    decreases |current|
  {
    if current != [] {
      CreatedOfIsFilter(current[..|current| - 1], m);
    }
  }

  lemma {:induction false} DestroyedOfIsFilter(previous: seq<WindowSummary>, m: map<Handle, WindowSummary>)
    ensures DestroyedOf(previous, m) == AsDestroyed(Filter(previous, IdAbsent(m)))
    decreases |previous|
  {
    if previous != [] {
      DestroyedOfIsFilter(previous[..|previous| - 1], m);
    }
  }

  /** `Created(w)` is in a list of `Created` changes exactly when `w` is
      among their windows. */
  lemma AsCreatedMembership(ws: seq<WindowSummary>, w: WindowSummary)
    ensures Created(w) in AsCreated(ws) <==> w in ws
  {
    var c := AsCreated(ws);
    if Created(w) in c {
      var k :| 0 <= k < |c| && c[k] == Created(w);
      assert ws[k] == w;
    }
    if w in ws {
      var k :| 0 <= k < |ws| && ws[k] == w;
      assert c[k] == Created(w);
    }
  }

  lemma AsDestroyedMembership(ws: seq<WindowSummary>, w: WindowSummary)
    ensures Destroyed(w) in AsDestroyed(ws) <==> w in ws
  {
    var d := AsDestroyed(ws);
    if Destroyed(w) in d {
      var k :| 0 <= k < |d| && d[k] == Destroyed(w);
      assert ws[k] == w;
    }
    if w in ws {
      var k :| 0 <= k < |ws| && ws[k] == w;
      assert d[k] == Destroyed(w);
    }
  }

  /** The change list opens with one `created` change per current window
      whose id was not there before, in current order, followed by one
      `destroyed` change per previous window whose id is gone, in previous
      order. */
  lemma CreatedThenDestroyed(current: seq<WindowSummary>, previous: seq<WindowSummary>)
    ensures var c := CreatedOf(current, ById(previous));
      var d := DestroyedOf(previous, ById(current));
      && Diff(current, previous)[..|c| + |d|] == AsCreated(Filter(current, IdAbsent(ById(previous))))
                                                 + AsDestroyed(Filter(previous, IdAbsent(ById(current))))
  {
    var c, d := CreatedOf(current, ById(previous)), DestroyedOf(previous, ById(current));
    var m := Modifications(current, ById(previous));
    CreatedOfIsFilter(current, ById(previous));
    DestroyedOfIsFilter(previous, ById(current));
    assert (c + d + m)[..|c| + |d|] == c + d;
  }

  /** A window is reported created exactly when it is current and its id is
      new. */
  lemma CreatedIff(current: seq<WindowSummary>, previous: seq<WindowSummary>, w: WindowSummary)
    ensures Created(w) in Diff(current, previous) <==> w in current && w.id !in Ids(previous)
  {
    var prevMap := ById(previous);
    var c, d, m := CreatedOf(current, prevMap), DestroyedOf(previous, ById(current)), Modifications(current, prevMap);
    CreatedOfIsFilter(current, prevMap);
    DestroyedOfIsFilter(previous, ById(current));
    ModificationsKinds(current, prevMap);
    FilterMembership(current, IdAbsent(prevMap), w);
    AsCreatedMembership(Filter(current, IdAbsent(prevMap)), w);
    ByIdSpec(previous, w.id);
    assert Created(w) !in d && Created(w) !in m;
  }

  /** A window is reported destroyed exactly when it was there before and
      its id is gone. */
  lemma DestroyedIff(current: seq<WindowSummary>, previous: seq<WindowSummary>, w: WindowSummary)
    ensures Destroyed(w) in Diff(current, previous) <==> w in previous && w.id !in Ids(current)
  {
    var prevMap, currMap := ById(previous), ById(current);
    var c, d, m := CreatedOf(current, prevMap), DestroyedOf(previous, currMap), Modifications(current, prevMap);
    CreatedOfIsFilter(current, prevMap);
    DestroyedOfIsFilter(previous, currMap);
    ModificationsKinds(current, prevMap);
    FilterMembership(previous, IdAbsent(currMap), w);
    AsDestroyedMembership(Filter(previous, IdAbsent(currMap)), w);
    ByIdSpec(current, w.id);
    assert Destroyed(w) !in c && Destroyed(w) !in m;
  }

  /** The rank of a change's group in the list. */
  function Group(c: Change): nat {
    if c.Created? then 0 else if c.Destroyed? then 1 else 2
  }

  /** Changes are grouped: every `created` comes before every `destroyed`,
      and both before every modification. */
  lemma DiffGrouped(current: seq<WindowSummary>, previous: seq<WindowSummary>)
    ensures var r := Diff(current, previous);
      forall i, j :: 0 <= i < j < |r| ==> Group(r[i]) <= Group(r[j])
  {
    var a := |CreatedOf(current, ById(previous))|;
    var b := a + |DestroyedOf(previous, ById(current))|;
    GroupsByPosition(current, previous);
    var r := Diff(current, previous);
    assert forall i, j :: 0 <= i < j < |r| ==> Group(r[i]) <= Group(r[j]) by {
      GroupMonotone(Diff(current, previous), a, b);
    }
  }

  /** The group of each position: created first, then destroyed, then the
      modifications. */
  lemma GroupsByPosition(current: seq<WindowSummary>, previous: seq<WindowSummary>)
    ensures var a := |CreatedOf(current, ById(previous))|;
      var b := a + |DestroyedOf(previous, ById(current))|;
      var r := Diff(current, previous);
      forall k :: 0 <= k < |r| ==> Group(r[k]) == if k < a then 0 else if k < b then 1 else 2
  {
    var c, d := CreatedOf(current, ById(previous)), DestroyedOf(previous, ById(current));
    var m := Modifications(current, ById(previous));
    var r := c + d + m;
    CreatedOfKind(current, ById(previous));
    DestroyedOfKind(previous, ById(current));
    ModificationsKinds(current, ById(previous));
    forall k | 0 <= k < |r| ensures Group(r[k]) == if k < |c| then 0 else if k < |c| + |d| then 1 else 2 {
      if k < |c| {
        assert r[k] == c[k];
      } else if k < |c| + |d| {
        assert r[k] == d[k - |c|];
      } else {
        assert r[k] == m[k - |c| - |d|];
      }
    }
  }

  lemma {:induction false} CreatedOfKind(current: seq<WindowSummary>, m: map<Handle, WindowSummary>)
    ensures forall k :: 0 <= k < |CreatedOf(current, m)| ==> CreatedOf(current, m)[k].Created?
    decreases |current|
  {
    if current != [] {
      CreatedOfKind(current[..|current| - 1], m);
    }
  }

  lemma {:induction false} DestroyedOfKind(previous: seq<WindowSummary>, m: map<Handle, WindowSummary>)
    ensures forall k :: 0 <= k < |DestroyedOf(previous, m)| ==> DestroyedOf(previous, m)[k].Destroyed?
    decreases |previous|
  {
    if previous != [] {
      DestroyedOfKind(previous[..|previous| - 1], m);
    }
  }

  lemma GroupMonotone(r: seq<Change>, a: int, b: int)
    requires a <= b
    requires forall k :: 0 <= k < |r| ==> Group(r[k]) == if k < a then 0 else if k < b then 1 else 2
    ensures forall i, j :: 0 <= i < j < |r| ==> Group(r[i]) <= Group(r[j])
  {
  }

  /** The four checks produce modifications of the window they look at. */
  lemma ModificationsOfKinds(prev: WindowSummary, win: WindowSummary)
    ensures forall c :: c in ModificationsOf(prev, win) ==> IsModification(c) && c.window == win
  {
  }

  lemma ModificationsKinds(current: seq<WindowSummary>, m: map<Handle, WindowSummary>)
    ensures forall k :: 0 <= k < |Modifications(current, m)| ==> IsModification(Modifications(current, m)[k])
  {
    forall k | 0 <= k < |Modifications(current, m)| ensures IsModification(Modifications(current, m)[k]) {
      ModificationSource(current, m, Modifications(current, m)[k]);
    }
  }

  /** Where a modification comes from: a current window the previous map
      knows, compared with its previous version. */
  lemma {:induction false} ModificationSource(current: seq<WindowSummary>, m: map<Handle, WindowSummary>, c: Change)
    requires c in Modifications(current, m)
    ensures c.window in current && c.window.id in m && c in ModificationsOf(m[c.window.id], c.window)
    ensures IsModification(c)
    decreases |current|
  {
    var init, w := current[..|current| - 1], current[|current| - 1];
    var tail := if w.id in m then ModificationsOf(m[w.id], w) else [];
    assert Modifications(current, m) == Modifications(init, m) + tail;
    if c in Modifications(init, m) {
      ModificationSource(init, m, c);
    } else {
      assert c in tail && w.id in m;
      ModificationsOfKinds(m[w.id], w);
    }
  }

  /** Every modification a known current window has shows up. */
  lemma {:induction false} ModificationsComplete(current: seq<WindowSummary>, m: map<Handle, WindowSummary>, i: nat)
    requires i < |current| && current[i].id in m
    ensures forall c :: c in ModificationsOf(m[current[i].id], current[i]) ==> c in Modifications(current, m)
    decreases |current|
  {
    var init, w := current[..|current| - 1], current[|current| - 1];
    var tail := if w.id in m then ModificationsOf(m[w.id], w) else [];
    assert Modifications(current, m) == Modifications(init, m) + tail;
    if i < |current| - 1 {
      assert init[i] == current[i];
      ModificationsComplete(init, m, i);
    }
  }

  /** A modification of a current window whose id the previous map knows
      is in the list exactly when the four checks against that previous
      window produce it. */
  lemma ModificationInDiff(current: seq<WindowSummary>, previous: seq<WindowSummary>, i: nat, x: Change)
    requires i < |current| && current[i].id in ById(previous)
    requires IsModification(x) && x.window == current[i]
    ensures x in Diff(current, previous) <==> x in ModificationsOf(ById(previous)[current[i].id], current[i])
  {
    var prevMap := ById(previous);
    var c, d, m := CreatedOf(current, prevMap), DestroyedOf(previous, ById(current)), Modifications(current, prevMap);
    CreatedOfIsFilter(current, prevMap);
    DestroyedOfIsFilter(previous, ById(current));
    assert x !in c && x !in d;
    ModificationsComplete(current, prevMap, i);
    if x in m {
      ModificationSource(current, prevMap, x);
    }
  }

  /** What each of the four checks contributes. */
  lemma ChecksIff(p: WindowSummary, w: WindowSummary)
    ensures Reordered(w, p.zOrder, w.zOrder) in ModificationsOf(p, w) <==> p.zOrder != w.zOrder
    ensures Moved(w, p.bounds, w.bounds) in ModificationsOf(p, w) <==> p.bounds.x != w.bounds.x || p.bounds.y != w.bounds.y
    ensures Resized(w, p.bounds, w.bounds) in ModificationsOf(p, w)
            <==> p.bounds.width != w.bounds.width || p.bounds.height != w.bounds.height
    ensures Visibility(w, w.isVisible) in ModificationsOf(p, w) <==> p.isVisible != w.isVisible
  {
    var z, mv, sz, v := ZChange(p, w), MoveChange(p, w), SizeChange(p, w), VisibilityChange(p, w);
    forall c ensures c in ModificationsOf(p, w) <==> c in z || c in mv || c in sz || c in v {
      assert ModificationsOf(p, w) == ((z + mv) + sz) + v;
    }
  }

  /** For a window present in both lists, compared with the last previous
      window of its id: a `reordered` change is reported iff the z-order
      differs, `moved` iff x or y differ, `resized` iff width or height
      differ, and `visibility` iff the visibility differs. */
  lemma ModificationIff(current: seq<WindowSummary>, previous: seq<WindowSummary>, i: nat)
    requires i < |current| && current[i].id in Ids(previous)
    ensures var w, p := current[i], previous[LastIndex(Ids(previous), current[i].id)];
      && (Reordered(w, p.zOrder, w.zOrder) in Diff(current, previous) <==> p.zOrder != w.zOrder)
      && (Moved(w, p.bounds, w.bounds) in Diff(current, previous) <==> p.bounds.x != w.bounds.x || p.bounds.y != w.bounds.y)
      && ((Resized(w, p.bounds, w.bounds) in Diff(current, previous))
            <==> p.bounds.width != w.bounds.width || p.bounds.height != w.bounds.height)
      && (Visibility(w, w.isVisible) in Diff(current, previous) <==> p.isVisible != w.isVisible)
  {
    var w := current[i];
    ByIdSpec(previous, w.id);
    var p := ById(previous)[w.id];
    ChecksIff(p, w);
    ModificationInDiff(current, previous, i, Reordered(w, p.zOrder, w.zOrder));
    ModificationInDiff(current, previous, i, Moved(w, p.bounds, w.bounds));
    ModificationInDiff(current, previous, i, Resized(w, p.bounds, w.bounds));
    ModificationInDiff(current, previous, i, Visibility(w, w.isVisible));
  }

  /** The fields `compareStates` compares agree. */
  predicate SameTracked(p: WindowSummary, w: WindowSummary) {
    p.zOrder == w.zOrder && p.bounds == w.bounds && p.isVisible == w.isVisible
  }

  lemma ModificationsOfEmpty(p: WindowSummary, w: WindowSummary)
    ensures ModificationsOf(p, w) == [] <==> SameTracked(p, w)
  {
    if !SameTracked(p, w) {
      assert ModificationsOf(p, w) != [] by {
        assert p.bounds != w.bounds ==>
          p.bounds.x != w.bounds.x || p.bounds.y != w.bounds.y
          || p.bounds.width != w.bounds.width || p.bounds.height != w.bounds.height;
      }
    }
  }

  lemma {:induction false} CreatedOfEmpty(current: seq<WindowSummary>, m: map<Handle, WindowSummary>)
    ensures CreatedOf(current, m) == [] <==> forall k :: 0 <= k < |current| ==> current[k].id in m
    decreases |current|
  {
    if current != [] {
      var init := current[..|current| - 1];
      CreatedOfEmpty(init, m);
      assert forall k :: 0 <= k < |init| ==> init[k] == current[k];
    }
  }

  lemma {:induction false} DestroyedOfEmpty(previous: seq<WindowSummary>, m: map<Handle, WindowSummary>)
    ensures DestroyedOf(previous, m) == [] <==> forall k :: 0 <= k < |previous| ==> previous[k].id in m
    decreases |previous|
  {
    if previous != [] {
      var init := previous[..|previous| - 1];
      DestroyedOfEmpty(init, m);
      assert forall k :: 0 <= k < |init| ==> init[k] == previous[k];
    }
  }

  lemma {:induction false} ModificationsEmpty(current: seq<WindowSummary>, m: map<Handle, WindowSummary>)
    requires forall k :: 0 <= k < |current| ==> current[k].id in m
    ensures Modifications(current, m) == [] <==>
      forall k :: 0 <= k < |current| ==> SameTracked(m[current[k].id], current[k])
    decreases |current|
  {
    if current != [] {
      var init, w := current[..|current| - 1], current[|current| - 1];
      assert forall k :: 0 <= k < |init| ==> init[k] == current[k];
      ModificationsEmpty(init, m);
      ModificationsOfEmpty(m[w.id], w);
    }
  }

  /** Nothing is reported exactly when no window appeared or disappeared and
      every current window agrees with the last previous window of its id on
      z-order, bounds and visibility (titles, paths and process ids are not
      compared). */
  lemma DiffEmptyIff(current: seq<WindowSummary>, previous: seq<WindowSummary>)
    ensures Diff(current, previous) == [] <==>
      && (forall k :: 0 <= k < |current| ==> current[k].id in Ids(previous))
      && (forall k :: 0 <= k < |previous| ==> previous[k].id in Ids(current))
      && (forall k :: 0 <= k < |current| ==>
            current[k].id in Ids(previous) && SameTracked(previous[LastIndex(Ids(previous), current[k].id)], current[k]))
  {
    var prevMap, currMap := ById(previous), ById(current);
    CreatedOfEmpty(current, prevMap);
    DestroyedOfEmpty(previous, currMap);
    forall k | 0 <= k < |current| ensures current[k].id in prevMap <==> current[k].id in Ids(previous)
      ensures current[k].id in prevMap ==> prevMap[current[k].id] == previous[LastIndex(Ids(previous), current[k].id)]
    {
      ByIdSpec(previous, current[k].id);
    }
    forall k | 0 <= k < |previous| ensures previous[k].id in currMap <==> previous[k].id in Ids(current) {
      ByIdSpec(current, previous[k].id);
    }
    if forall k :: 0 <= k < |current| ==> current[k].id in prevMap {
      ModificationsEmpty(current, prevMap);
    }
  }

  /** For a summary whose ids are distinct, comparing it with itself reports
      nothing. */
  lemma DiffOfSelf(s: seq<WindowSummary>)
    requires NoDup(Ids(s))
    ensures Diff(s, s) == []
  {
    forall k | 0 <= k < |s| ensures s[k].id in Ids(s) && s[LastIndex(Ids(s), s[k].id)] == s[k] {
      assert Ids(s)[k] == s[k].id;
      var j := LastIndex(Ids(s), s[k].id);
      assert Ids(s)[j] == s[k].id;
    }
    DiffEmptyIff(s, s);
  }

  // ---- handleWindowsUpdate ----

  /** The rendering of the visible windows: at most this many lines. */
  const LISTED: nat := 10

  /** `(w) => w.isVisible`. */
  function IsVisibleWindow(): WindowSummary -> bool {
    (w: WindowSummary) => w.isVisible
  }

  /** `(w) => w.zOrder`. */
  function ZOrderOf(): WindowSummary -> int {
    (w: WindowSummary) => w.zOrder
  }

  /** The visible windows sorted by z-order, unknown positions last. */
  function VisibleSorted(summaries: seq<WindowSummary>): seq<WindowSummary> {
    SortBy(Filter(summaries, IsVisibleWindow()), ZKeyOf(ZOrderOf()))
  }

  /** `sorted.slice(0, 10)`. */
  function Shown(sorted: seq<WindowSummary>): (r: seq<WindowSummary>)
    ensures |r| <= LISTED && |r| <= |sorted| && r == sorted[..|r|]
    ensures |sorted| >= LISTED ==> |r| == LISTED
    ensures |sorted| < LISTED ==> r == sorted
  {
    if |sorted| <= LISTED then sorted else sorted[..LISTED]
  }

  /** One line of the visible-window listing. */
  function ListingLine(w: WindowSummary, rank: int, win32: bool): string {
    FormatWindowLine(true, rank, Some(w.zOrder), Some(w.title), Some(Given(w.bounds)), ExeName(w.path, win32), Some(w.isVisible))
  }

  /** The listing is made of visible windows only, and of all of them: the
      sorted list is a rearrangement of the visible ones. */
  lemma VisibleSortedMembers(summaries: seq<WindowSummary>)
    ensures var sorted := VisibleSorted(summaries);
      && (forall k :: 0 <= k < |sorted| ==> sorted[k].isVisible)
      && multiset(sorted) == multiset(Filter(summaries, IsVisibleWindow()))
  {
    var visible := Filter(summaries, IsVisibleWindow());
    var sorted := VisibleSorted(summaries);
    SortByFacts(visible, ZKeyOf(ZOrderOf()));
    forall k | 0 <= k < |sorted| ensures sorted[k].isVisible {
      assert sorted[k] in multiset(visible);
    }
  }

  /** The sorted list ascends by z-order key, keeps the snapshot order among
      windows of equal key, and puts unknown positions after known ones
      (when the known ones stay below MAX_SAFE_INTEGER). */
  lemma VisibleSortedOrder(summaries: seq<WindowSummary>, key: int)
    ensures var sorted := VisibleSorted(summaries);
      && SortedBy(sorted, ZKeyOf(ZOrderOf()))
      && Filter(sorted, HasKey(ZKeyOf(ZOrderOf()), key))
         == Filter(Filter(summaries, IsVisibleWindow()), HasKey(ZKeyOf(ZOrderOf()), key))
    ensures var sorted := VisibleSorted(summaries);
      (forall k :: 0 <= k < |sorted| ==> sorted[k].zOrder < MAX_SAFE_INTEGER) ==>
        forall i, j :: 0 <= i < |sorted| && 0 <= j < |sorted| && sorted[i].zOrder < 0 && sorted[j].zOrder >= 0 ==> j < i
  {
    var visible := Filter(summaries, IsVisibleWindow());
    var sorted := VisibleSorted(summaries);
    SortByFacts(visible, ZKeyOf(ZOrderOf()));
    SortByStable(visible, ZKeyOf(ZOrderOf()), key);
    if forall k :: 0 <= k < |sorted| ==> sorted[k].zOrder < MAX_SAFE_INTEGER {
      UnknownPositionsLast(sorted, ZOrderOf());
    }
  }

  /** What one reported update prints: its number, the time since the
      previous reported update (nanoseconds of `process.hrtime`), the
      changes, how many windows are visible, the listing lines, and how many
      visible windows the listing leaves out when there are more than ten. */
  datatype Report = Report(number: nat, elapsed: int, changes: seq<Change>, visibleCount: nat,
                           lines: seq<string>, more: Option<nat>)

  /** The line of a listed window at a rank. */
  function ListingFormat(win32: bool): (WindowSummary, int) -> string {
    (w: WindowSummary, rank: int) => ListingLine(w, rank, win32)
  }

  /** The report of the `number`th update. */
  function ReportOf(number: nat, elapsed: int, changes: seq<Change>, summaries: seq<WindowSummary>, win32: bool): Report {
    var sorted := VisibleSorted(summaries);
    var more := if |sorted| > LISTED then Some(|sorted| - LISTED) else None;
    Report(number, elapsed, changes, |sorted|, Ranked(Shown(sorted), ListingFormat(win32)), more)
  }

  /** A report counts every visible window, lists at most ten of them, the
      first ones of the sorted order with their ranks, and says how many it
      leaves out. */
  lemma ReportOfSpec(number: nat, elapsed: int, changes: seq<Change>, summaries: seq<WindowSummary>, win32: bool)
    ensures var r, sorted := ReportOf(number, elapsed, changes, summaries, win32), VisibleSorted(summaries);
      && r.visibleCount == |Filter(summaries, IsVisibleWindow())|
      && |r.lines| <= LISTED
      && |r.lines| + (if r.more.Some? then r.more.value else 0) == r.visibleCount
      && (r.more.Some? <==> r.visibleCount > LISTED)
      && r.lines == Ranked(sorted[..|r.lines|], ListingFormat(win32))
  {
    var sorted := VisibleSorted(summaries);
    SortByFacts(Filter(summaries, IsVisibleWindow()), ZKeyOf(ZOrderOf()));
    assert Shown(sorted) == sorted[..|Shown(sorted)|];
  }

  /** The module-level state of the watcher script. */
  class Watcher {
    var previousState: seq<WindowSummary>
    var updateCount: nat
    var lastUpdateTime: int
    const win32: bool        // `path` is the win32 flavour

    constructor (start: int, onWindows: bool)
      ensures previousState == [] && updateCount == 0 && lastUpdateTime == start && win32 == onWindows
    {
      previousState, updateCount, lastUpdateTime := [], 0, start;
      win32 := onWindows;
    }

    /** `handleWindowsUpdate(summaries)`; `now` and `later` are the two
        clock reads, at its start and inside `getElapsedMs`. The summary is
        always kept for the next comparison; the counter and the time of
        the last update move only when something changed. */
    method HandleWindowsUpdate(summaries: seq<WindowSummary>, now: int, later: int) returns (report: Option<Report>)
      modifies this
      ensures previousState == summaries
      ensures var changes := Diff(summaries, old(previousState));
        && (changes == [] ==> report.None? && updateCount == old(updateCount) && lastUpdateTime == old(lastUpdateTime))
        && (changes != [] ==>
              && updateCount == old(updateCount) + 1 && lastUpdateTime == now
              && report == Some(ReportOf(updateCount, later - old(lastUpdateTime), changes, summaries, win32)))
    {
      var elapsed := later - lastUpdateTime;
      var changes := CompareStates(summaries, previousState);
      if changes == [] {
        previousState := summaries;
        return None;
      }
      updateCount := updateCount + 1;
      lastUpdateTime := now;
      var sorted := VisibleSorted(summaries);
      var lines := RenderRanked(Shown(sorted), ListingFormat(win32));
      var more := if |sorted| > LISTED then Some(|sorted| - LISTED) else None;
      report := Some(Report(updateCount, elapsed, changes, |sorted|, lines, more));
      previousState := summaries;
    }
  }
}
