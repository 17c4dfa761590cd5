/** What the two Node scripts share: the one-line rendering of a window
    (`formatWindowLine`, identical in both but for a two-space indent in the
    watcher), the executable name taken from a path with `path.basename`, and
    the ascending z-order sort with unknown (negative) positions last, done by
    the stable `Array.prototype.sort`. */
module WindowListing {

  import opened Common
  import opened JsText
  import IgnoreList
  import Snapshot

  // ---- formatWindowLine ----

  /** A `bounds` object whose fields may be missing (`undefined`). */
  datatype PartialBounds = PartialBounds(x: Option<int>, y: Option<int>, width: Option<int>, height: Option<int>)

  /** The destructuring default `= 0`. */
  function OrZero(v: Option<int>): int {
    if v.Some? then v.value else 0
  }

  /** `Number.isInteger(z) && z >= 0 ? `Z=${z}` : "Z=unknown"`; `None` is
      any value that is not an integer (undefined, NaN, a fraction). */
  function ZLabel(z: Option<int>): string {
    if z.Some? && z.value >= 0 then "Z=" + DecimalString(z.value) else "Z=unknown"
  }

  /** ` vis=${isVisible}`, or nothing when `isVisible` is undefined. */
  function VisLabel(isVisible: Option<bool>): string {
    match isVisible
    case None => ""
    case Some(b) => " vis=" + (if b then "true" else "false")
  }

  /** ` exe=${exeName}`, or nothing for the empty (falsy) name. */
  function ExeLabel(exeName: string): string {
    if exeName == "" then "" else " exe=" + exeName
  }

  /** The four coordinates, each defaulting to 0; `bounds || {}` makes a
      missing `bounds` object behave as one with no fields. */
  function BoundsText(bounds: Option<PartialBounds>): string {
    var b := if bounds.Some? then bounds.value else PartialBounds(None, None, None, None);
    " x=" + DecimalString(OrZero(b.x)) + " y=" + DecimalString(OrZero(b.y))
    + " w=" + DecimalString(OrZero(b.width)) + " h=" + DecimalString(OrZero(b.height))
  }

  /** Everything after the rank: the bracketed labels, the quoted title (a
      title that is null or undefined prints as the empty string), the
      coordinates and the executable label. */
  function Details(z: Option<int>, title: Option<string>, bounds: Option<PartialBounds>,
                   exeName: string, isVisible: Option<bool>): (r: string)
    ensures |r| >= 2 && r[0] == ' ' && r[1] == '['
  {
    " [" + (ZLabel(z) + VisLabel(isVisible) + "] \""
            + (if title.Some? then title.value else "") + "\"" + BoundsText(bounds) + ExeLabel(exeName))
  }

  /** `formatWindowLine(rank, z, title, bounds, exeName, isVisible)`;
      `indent` is the two leading spaces of the watcher's copy; after them
      the line opens with `#`. */
  function FormatWindowLine(indent: bool, rank: int, z: Option<int>, title: Option<string>,
                            bounds: Option<PartialBounds>, exeName: string, isVisible: Option<bool>): (line: string)
    ensures var start := if indent then 2 else 0;
      |line| > start && line[start] == '#' && (indent ==> line[0] == ' ' && line[1] == ' ')
  {
    (if indent then "  " else "") + ("#" + (DecimalString(rank) + Details(z, title, bounds, exeName, isVisible)))
  }

  /** The lines a `forEach` over `items` pushes, the `idx`th one rendered
      with rank `idx + 1`. */
  function Ranked<T>(items: seq<T>, line: (T, int) -> string): (r: seq<string>)
    ensures |r| == |items|
  {
    seq(|items|, k requires 0 <= k < |items| => line(items[k], k + 1))
  }

  /** The `forEach` loop itself. */
  method RenderRanked<T>(items: seq<T>, line: (T, int) -> string) returns (lines: seq<string>)
    ensures lines == Ranked(items, line)
  {
    lines := [];
    var i := 0;
    while i < |items|
      invariant 0 <= i <= |items|
      invariant lines == Ranked(items, line)[..i]
    {
      lines := lines + [line(items[i], i + 1)];
      i := i + 1;
    }
    assert Ranked(items, line)[..i] == Ranked(items, line);
  }

  /** A complete bounds record, as the addon reports it. */
  function Given(b: Snapshot.Bounds): PartialBounds {
    PartialBounds(Some(b.x), Some(b.y), Some(b.width), Some(b.height))
  }

  /** The z label says "unknown" exactly when `z` is not a non-negative
      integer, and otherwise carries `z` in decimal so that it reads back;
      the visibility and executable labels are absent exactly when their
      value is undefined or empty. */
  lemma LabelsSpec(z: Option<int>, isVisible: Option<bool>, exeName: string)
    ensures ZLabel(z) == "Z=unknown" <==> !(z.Some? && z.value >= 0)
    ensures z.Some? && z.value >= 0 ==> ZLabel(z)[..2] == "Z=" && ParseInt(ZLabel(z)[2..]) == Some(z.value)
    ensures VisLabel(isVisible) == "" <==> isVisible.None?
    ensures ExeLabel(exeName) == "" <==> exeName == ""
    ensures exeName != "" ==> ExeLabel(exeName)[5..] == exeName
  {
    if z.Some? && z.value >= 0 {
      var zText := ZLabel(z);
      assert zText[2..] == Digits(z.value);
      assert IsDigit(zText[2]);
      ParseIntOfDecimal(z.value);
    }
  }

  /** Missing coordinates print as 0: a missing bounds object prints as an
      empty one, and any bounds object prints as the one in which each
      missing field is filled in with 0. */
  lemma BoundsDefaults(b: PartialBounds)
    ensures BoundsText(None) == BoundsText(Some(PartialBounds(None, None, None, None)))
    ensures BoundsText(Some(b)) ==
      BoundsText(Some(PartialBounds(Some(OrZero(b.x)), Some(OrZero(b.y)), Some(OrZero(b.width)), Some(OrZero(b.height)))))
  {
  }

  /** The two scripts' lines differ only by the watcher's indent. */
  lemma IndentIsTheOnlyDifference(rank: int, z: Option<int>, title: Option<string>,
                                  bounds: Option<PartialBounds>, exeName: string, isVisible: Option<bool>)
    ensures FormatWindowLine(true, rank, z, title, bounds, exeName, isVisible)
         == "  " + FormatWindowLine(false, rank, z, title, bounds, exeName, isVisible)
  {
    var body := "#" + (DecimalString(rank) + Details(z, title, bounds, exeName, isVisible));
    assert FormatWindowLine(false, rank, z, title, bounds, exeName, isVisible) == "" + body;
    assert "" + body == body;
  }

  /** An unindented line starts with `#` and its rank, which `parseInt` reads
      back from the text after the `#`. */
  lemma RankReadsBack(rank: nat, z: Option<int>, title: Option<string>,
                      bounds: Option<PartialBounds>, exeName: string, isVisible: Option<bool>)
    ensures var line := FormatWindowLine(false, rank, z, title, bounds, exeName, isVisible);
      line[0] == '#' && ParseInt(line[1..]) == Some(rank)
  {
    var body := "#" + (Digits(rank) + Details(z, title, bounds, exeName, isVisible));
    assert FormatWindowLine(false, rank, z, title, bounds, exeName, isVisible) == "" + body;
    assert "" + body == body;
    assert body[1..] == Digits(rank) + Details(z, title, bounds, exeName, isVisible);
    ParseIntOfDecimalThen(rank, Details(z, title, bounds, exeName, isVisible));
  }

  // ---- path.basename ----

  /** A path separator: `/` everywhere, and `\` too for the win32 flavour of
      `path` (the one Node uses on Windows). */
  predicate IsPathSeparator(c: char, win32: bool) {
    c == '/' || (win32 && c == '\\')
  }

  /** A drive prefix such as `C:`, which win32 `basename` skips. */
  predicate HasDrive(path: string) {
    |path| >= 2 && (('A' <= path[0] <= 'Z') || ('a' <= path[0] <= 'z')) && path[1] == ':'
  }

  /** The path without its trailing separators. */
  function StripTrailing(path: string, win32: bool): (r: string)
    ensures |r| <= |path| && r == path[..|r|]
    ensures r != [] ==> !IsPathSeparator(r[|r| - 1], win32)
    ensures forall j :: |r| <= j < |path| ==> IsPathSeparator(path[j], win32)
    decreases |path|
  {
    if path != [] && IsPathSeparator(path[|path| - 1], win32) then StripTrailing(path[..|path| - 1], win32)
    else path
  }

  /** The separator-free tail of `path`. */
  function LastSegment(path: string, win32: bool): (r: string)
    ensures |r| <= |path| && r == path[|path| - |r|..]
    ensures forall j :: 0 <= j < |r| ==> !IsPathSeparator(r[j], win32)
    ensures |r| < |path| ==> IsPathSeparator(path[|path| - |r| - 1], win32)
    decreases |path|
  {
    if path == [] || IsPathSeparator(path[|path| - 1], win32) then []
    else LastSegment(path[..|path| - 1], win32) + [path[|path| - 1]]
  }

  /** `path.basename(path)`: trailing separators are ignored, then the part
      after the last separator is returned (after a win32 drive prefix). */
  function Basename(path: string, win32: bool): (name: string)
    ensures |name| <= |path|
    ensures forall j :: 0 <= j < |name| ==> !IsPathSeparator(name[j], win32)
  {
    var body := if win32 && HasDrive(path) then path[2..] else path;
    LastSegment(StripTrailing(body, win32), win32)
  }

  /** `s.path ? path.basename(s.path) : ""`. */
  function ExeName(path: string, win32: bool): string {
    if path == "" then "" else Basename(path, win32)
  }

  /** Two separator-free tails of one string that each reach the start or a
      separator are the same. */
  lemma TailsAgree(p: string, f: string, g: string)
    requires |f| <= |p| && f == p[|p| - |f|..] && |g| <= |p| && g == p[|p| - |g|..]
    requires forall j :: 0 <= j < |f| ==> !IgnoreList.IsSeparator(f[j])
    requires forall j :: 0 <= j < |g| ==> !IgnoreList.IsSeparator(g[j])
    requires |f| < |p| ==> IgnoreList.IsSeparator(p[|p| - |f| - 1])
    requires |g| < |p| ==> IgnoreList.IsSeparator(p[|p| - |g| - 1])
    ensures f == g
  {
  }

  /** The executable name holds no separator and is no longer than the
      path; it is empty for an empty path. */
  lemma ExeNameShape(path: string, win32: bool)
    ensures var e := ExeName(path, win32);
      && (forall j :: 0 <= j < |e| ==> !IsPathSeparator(e[j], win32))
      && |e| <= |path|
      && (path == "" ==> e == "")
  {
  }

  /** A separator-free suffix of a string that starts with a separator is
      shorter than the string. */
  lemma TailAfterLeadingSeparator(q: string, f: string)
    requires |f| <= |q| && f == q[|q| - |f|..] && q != [] && IgnoreList.IsSeparator(q[0])
    requires forall j :: 0 <= j < |f| ==> !IgnoreList.IsSeparator(f[j])
    ensures |f| < |q|
  {
  }

  /** With both separators, the last segment is the file name the ignore
      list matches on. */
  lemma Win32SegmentIsFileName(p: string)
    ensures LastSegment(p, true) == IgnoreList.FileName(p)
  {
    Win32TailsAgree(p, LastSegment(p, true), IgnoreList.FileName(p));
  }

  /** A separator-free tail under the win32 separators and one under the
      ignore list's separators, each preceded by a separator or filling the
      path, are the same. */
  lemma Win32TailsAgree(p: string, e: string, f: string)
    requires |e| <= |p| && e == p[|p| - |e|..]
    requires forall j :: 0 <= j < |e| ==> !IsPathSeparator(e[j], true)
    requires |e| < |p| ==> IsPathSeparator(p[|p| - |e| - 1], true)
    requires |f| <= |p| && f == p[|p| - |f|..]
    requires forall j :: 0 <= j < |f| ==> !IgnoreList.IsSeparator(f[j])
    requires |f| < |p| ==> IgnoreList.IsSeparator(p[|p| - |f| - 1])
    ensures e == f
  {
    forall j | 0 <= j < |e| ensures !IgnoreList.IsSeparator(e[j]) {
      assert !IsPathSeparator(e[j], true);
    }
    if |e| < |p| {
      assert IsPathSeparator(p[|p| - |e| - 1], true);
    }
    TailsAgree(p, e, f);
  }

  /** A drive and a separator in front of a path do not change its file name. */
  lemma FileNameAfterDrive(path: string)
    requires |path| > 2 && IgnoreList.IsSeparator(path[2])
    ensures IgnoreList.FileName(path[2..]) == IgnoreList.FileName(path)
  {
    SameTailAfterDrive(path, IgnoreList.FileName(path[2..]), IgnoreList.FileName(path));
  }

  /** Two separator-free tails, each preceded by a separator or filling its
      string, of a path and of that path past its drive are the same. */
  lemma SameTailAfterDrive(path: string, f: string, g: string)
    requires |path| > 2 && IgnoreList.IsSeparator(path[2])
    requires |f| <= |path| - 2 && f == path[2..][|path| - 2 - |f|..]
    requires forall j :: 0 <= j < |f| ==> !IgnoreList.IsSeparator(f[j])
    requires |f| < |path| - 2 ==> IgnoreList.IsSeparator(path[2..][|path| - 2 - |f| - 1])
    requires |g| <= |path| && g == path[|path| - |g|..]
    requires forall j :: 0 <= j < |g| ==> !IgnoreList.IsSeparator(g[j])
    requires |g| < |path| ==> IgnoreList.IsSeparator(path[|path| - |g| - 1])
    ensures f == g
  {
    var q := path[2..];
    TailAfterLeadingSeparator(q, f);
    assert q[|q| - |f|..] == path[|path| - |f|..];
    assert q[|q| - |f| - 1] == path[|path| - |f| - 1];
    TailsAgree(path, f, g);
  }

  /** For a Windows image path (a drive, a separator, then the rest, or a
      path without a drive) that does not end with a separator, the
      executable name is the file name the ignore list matches on. */
  lemma ExeNameIsFileName(path: string)
    requires path != [] && !IgnoreList.IsSeparator(path[|path| - 1])
    requires HasDrive(path) ==> |path| > 2 && IgnoreList.IsSeparator(path[2])
    ensures ExeName(path, true) == IgnoreList.FileName(path)
  {
    var body := if HasDrive(path) then path[2..] else path;
    assert body[|body| - 1] == path[|path| - 1];
    assert StripTrailing(body, true) == body;
    Win32SegmentIsFileName(body);
    if HasDrive(path) {
      FileNameAfterDrive(path);
    }
  }

  // ---- the z-order sort ----

  /** `Number.MAX_SAFE_INTEGER`, 2^53 - 1. */
  const MAX_SAFE_INTEGER: int := 0x1F_FFFF_FFFF_FFFF

  /** `z >= 0 ? z : Number.MAX_SAFE_INTEGER`. */
  function ZKey(z: int): (k: int)
    ensures k >= 0
    ensures z >= 0 ==> k == z
    ensures z < 0 ==> k == MAX_SAFE_INTEGER
  {
    if z >= 0 then z else MAX_SAFE_INTEGER
  }

  /** The sort key of an element whose z-order is `z(element)`. */
  function ZKeyOf<T>(z: T -> int): T -> int {
    t => ZKey(z(t))
  }

  predicate SortedBy<T>(s: seq<T>, key: T -> int) {
    forall i, j :: 0 <= i < j < |s| ==> key(s[i]) <= key(s[j])
  }

  /** Places `x` after every element whose key is not larger: a later
      element never overtakes an earlier one of equal key. */
  function Insert<T>(s: seq<T>, x: T, key: T -> int): seq<T>
    decreases |s|
  {
    if s == [] || key(s[|s| - 1]) <= key(x) then s + [x]
    else Insert(s[..|s| - 1], x, key) + [s[|s| - 1]]
  }

  /** `Array.prototype.sort` with the comparator `key(a) - key(b)`: a stable
      sort by ascending key. */
  function SortBy<T>(s: seq<T>, key: T -> int): (r: seq<T>)
    ensures |r| == |s|
    decreases |s|
  {
    if s == [] then []
    else
      var init := SortBy(s[..|s| - 1], key);
      InsertPermutes(init, s[|s| - 1], key);
      Insert(init, s[|s| - 1], key)
  }

  lemma {:induction false} InsertPermutes<T>(s: seq<T>, x: T, key: T -> int)
    ensures multiset(Insert(s, x, key)) == multiset(s) + multiset{x}
    ensures |Insert(s, x, key)| == |s| + 1
    decreases |s|
  {
    if s != [] && key(s[|s| - 1]) > key(x) {
      var init, last := s[..|s| - 1], s[|s| - 1];
      assert s == init + [last];
      InsertPermutes(init, x, key);
    }
  }

  /** Inserting below a bound keeps every key below it. */
  lemma {:induction false} InsertBounded<T>(s: seq<T>, x: T, key: T -> int, bound: int)
    requires forall k :: 0 <= k < |s| ==> key(s[k]) <= bound
    requires key(x) <= bound
    ensures forall k :: 0 <= k < |Insert(s, x, key)| ==> key(Insert(s, x, key)[k]) <= bound
    decreases |s|
  {
    if s != [] && key(s[|s| - 1]) > key(x) {
      InsertBounded(s[..|s| - 1], x, key, bound);
    }
  }

  lemma {:induction false} InsertSorted<T>(s: seq<T>, x: T, key: T -> int)
    requires SortedBy(s, key)
    ensures SortedBy(Insert(s, x, key), key)
    decreases |s|
  {
    if s != [] && key(s[|s| - 1]) > key(x) {
      var init, last := s[..|s| - 1], s[|s| - 1];
      assert SortedBy(init, key);
      InsertSorted(init, x, key);
      InsertBounded(init, x, key, key(last));
      var r := Insert(init, x, key);
      var t := r + [last];
      assert Insert(s, x, key) == t;
      forall i, j | 0 <= i < j < |t| ensures key(t[i]) <= key(t[j]) {
        assert t[i] == r[i];
        if j < |r| {
          assert t[j] == r[j];
        }
      }
    } else if s != [] {
      var t := s + [x];
      forall i, j | 0 <= i < j < |t| ensures key(t[i]) <= key(t[j]) {
        assert t[i] == s[i];
        if j < |s| {
          assert t[j] == s[j];
        } else {
          assert key(s[i]) <= key(s[|s| - 1]);
        }
      }
    }
  }

  /** The sort rearranges its input (the result is a permutation of it) and
      puts it in ascending key order. */
  lemma {:induction false} SortByFacts<T>(s: seq<T>, key: T -> int)
    ensures multiset(SortBy(s, key)) == multiset(s)
    ensures |SortBy(s, key)| == |s|
    ensures SortedBy(SortBy(s, key), key)
    decreases |s|
  {
    if s != [] {
      var init := s[..|s| - 1];
      SortByFacts(init, key);
      InsertPermutes(SortBy(init, key), s[|s| - 1], key);
      InsertSorted(SortBy(init, key), s[|s| - 1], key);
      assert s == init + [s[|s| - 1]];
    }
  }

  /** The predicate "has key `v`". */
  function HasKey<T>(key: T -> int, v: int): T -> bool {
    t => key(t) == v
  }

  lemma {:induction false} InsertStable<T>(s: seq<T>, x: T, key: T -> int, v: int)
    ensures Filter(Insert(s, x, key), HasKey(key, v)) == Filter(s, HasKey(key, v)) + Filter([x], HasKey(key, v))
    decreases |s|
  {
    var p := HasKey(key, v);
    if s == [] || key(s[|s| - 1]) <= key(x) {
      FilterAppend(s, [x], p);
    } else {
      var init, last := s[..|s| - 1], s[|s| - 1];
      InsertStable(init, x, key, v);
      var r := Insert(init, x, key);
      FilterAppend(r, [last], p);
      assert s == init + [last];
      FilterAppend(init, [last], p);
      assert !(p(x) && p(last));
      SingletonsCommute(Filter(init, p), x, last, p);
    }
  }

  /** Two one-element filters commute when at most one of them keeps its
      element. */
  lemma SingletonsCommute<T>(f: seq<T>, x: T, y: T, p: T -> bool)
    requires !(p(x) && p(y))
    ensures (f + Filter([x], p)) + Filter([y], p) == (f + Filter([y], p)) + Filter([x], p)
  {
    assert [x][..0] == [] && [y][..0] == [];
  }

  /** Stability: the elements of one key keep their input order. */
  lemma {:induction false} SortByStable<T>(s: seq<T>, key: T -> int, v: int)
    ensures Filter(SortBy(s, key), HasKey(key, v)) == Filter(s, HasKey(key, v))
    decreases |s|
  {
    if s != [] {
      var init, last, p := s[..|s| - 1], s[|s| - 1], HasKey(key, v);
      var sortedInit := SortBy(init, key);
      assert SortBy(s, key) == Insert(sortedInit, last, key);
      SortByStable(init, key, v);
      InsertStable(sortedInit, last, key, v);
      FilterSnoc(s, p);
    }
  }

  /** In a list sorted by the z key, known positions ascend, and every entry
      of unknown (negative) position comes after every entry of known
      position, as long as known positions stay below MAX_SAFE_INTEGER. */
  lemma UnknownPositionsLast<T>(r: seq<T>, z: T -> int)
    requires SortedBy(r, ZKeyOf(z))
    requires forall k :: 0 <= k < |r| ==> z(r[k]) < MAX_SAFE_INTEGER
    ensures forall i, j :: 0 <= i < |r| && 0 <= j < |r| && z(r[i]) < 0 && z(r[j]) >= 0 ==> j < i
    ensures forall i, j :: 0 <= i < j < |r| && z(r[i]) >= 0 && z(r[j]) >= 0 ==> z(r[i]) <= z(r[j])
  {
    forall i, j | 0 <= i < |r| && 0 <= j < |r| && z(r[i]) < 0 && z(r[j]) >= 0 ensures j < i {
      assert ZKeyOf(z)(r[i]) == MAX_SAFE_INTEGER > ZKeyOf(z)(r[j]);
    }
    forall i, j | 0 <= i < j < |r| && z(r[i]) >= 0 && z(r[j]) >= 0 ensures z(r[i]) <= z(r[j]) {
      assert ZKeyOf(z)(r[i]) <= ZKeyOf(z)(r[j]);
    }
  }
}
