/** The static ignore list of the window-summary builder: pairs of an
    executable file name and a title prefix. A window is ignored when the
    file-name part of its process path equals an entry's executable name
    exactly and its title starts with that entry's prefix. */
module IgnoreList {

  datatype WindowFilter = WindowFilter(executableName: string, titlePrefix: string)

  const IGNORE_LIST: seq<WindowFilter> := [
    WindowFilter("xeester.exe", "XEESTER:"),
    WindowFilter("PokerTracker4.exe", "MVS "),
    WindowFilter("PokerTrackerHud4.exe", "ptTableCover"),
    WindowFilter("HM3Hud.exe", "MVS "),
    WindowFilter("HM3HudProcess.exe", "ptTableCover")
  ]

  /** The two characters `find_last_of("\\/")` looks for. */
  predicate IsSeparator(c: char) {
    c == '\\' || c == '/'
  }

  /** Position of the last separator in `path` (`npos` is None). */
  function LastSeparator(path: string): (r: Position)
    ensures r.At? ==> r.index < |path| && IsSeparator(path[r.index])
    ensures r.At? ==> forall j :: r.index < j < |path| ==> !IsSeparator(path[j])
    ensures r.NotFound? ==> forall j :: 0 <= j < |path| ==> !IsSeparator(path[j])
    decreases |path|
  {
    if path == [] then NotFound
    else if IsSeparator(path[|path| - 1]) then At(|path| - 1)
    else LastSeparator(path[..|path| - 1])
  }

  /** A position found by a search, or `npos`. */
  datatype Position = NotFound | At(index: nat)

  /** The text after the last separator, or the whole path when there is none. */
  function FileName(path: string): (f: string)
    ensures |f| <= |path| && f == path[|path| - |f|..]
    ensures forall j :: 0 <= j < |f| ==> !IsSeparator(f[j])
    ensures |f| < |path| ==> IsSeparator(path[|path| - |f| - 1])
  {
    match LastSeparator(path)
    case NotFound => path
    case At(i) => path[i + 1..]
  }

  /** `title.compare(0, prefix.length(), prefix) == 0` with the length guard. */
  predicate StartsWith(title: string, prefix: string) {
    |title| >= |prefix| && title[..|prefix|] == prefix
  }

  /** The early-return loop over the table, from entry `filters[0]` on: it
      returns true exactly when some entry names this file and prefixes this
      title. */
  function MatchesAny(filters: seq<WindowFilter>, fileName: string, title: string): (r: bool)
    ensures r <==> exists e :: e in filters && fileName == e.executableName && StartsWith(title, e.titlePrefix)
    decreases |filters|
  {
    if filters == [] then false
    else if fileName == filters[0].executableName && StartsWith(title, filters[0].titlePrefix) then true
    else MatchesAny(filters[1..], fileName, title)
  }

  /** `shouldIgnoreWindow`: never for an empty path, otherwise exactly when
      an entry of the table names the file and prefixes the title. */
  function ShouldIgnoreWindow(path: string, title: string): (r: bool)
    ensures r <==> path != [] && exists e :: e in IGNORE_LIST && FileName(path) == e.executableName && StartsWith(title, e.titlePrefix)
  {
    if path == [] then false
    else MatchesAny(IGNORE_LIST, FileName(path), title)
  }

  /** Some entry of `filters` names this file and prefixes this title. */
  ghost predicate SomeEntryMatches(filters: seq<WindowFilter>, fileName: string, title: string) {
    exists i :: 0 <= i < |filters| && fileName == filters[i].executableName && StartsWith(title, filters[i].titlePrefix)
  }

  lemma {:induction false} MatchesAnyIsExists(filters: seq<WindowFilter>, fileName: string, title: string)
    ensures MatchesAny(filters, fileName, title) <==> SomeEntryMatches(filters, fileName, title)
    decreases |filters|
  {
    if filters != [] {
      MatchesAnyIsExists(filters[1..], fileName, title);
      if SomeEntryMatches(filters, fileName, title) && !(fileName == filters[0].executableName && StartsWith(title, filters[0].titlePrefix)) {
        var i :| 0 <= i < |filters| && fileName == filters[i].executableName && StartsWith(title, filters[i].titlePrefix);
        assert filters[1..][i - 1] == filters[i];
      }
      if SomeEntryMatches(filters[1..], fileName, title) {
        var i :| 0 <= i < |filters[1..]| && fileName == filters[1..][i].executableName && StartsWith(title, filters[1..][i].titlePrefix);
        assert filters[i + 1] == filters[1..][i];
      }
    }
  }

  /** The whole contract of the matcher: never for an empty path; otherwise
      exactly when the file name equals some entry's executable name and the
      title starts with that entry's prefix. */
  lemma ShouldIgnoreWindowSpec(path: string, title: string)
    ensures path == [] ==> !ShouldIgnoreWindow(path, title)
    ensures ShouldIgnoreWindow(path, title) <==>
      path != [] && SomeEntryMatches(IGNORE_LIST, FileName(path), title)
  {
    MatchesAnyIsExists(IGNORE_LIST, FileName(path), title);
  }

  /** The file name is whatever follows a separator that has no separator after it. */
  lemma FileNameAfter(path: string, i: nat)
    requires i < |path| && IsSeparator(path[i])
    requires forall j :: i < j < |path| ==> !IsSeparator(path[j])
    ensures FileName(path) == path[i + 1..]
  {
  }

  /** Forward and back slashes both end the directory part. */
  lemma HudCoverIgnored()
    ensures ShouldIgnoreWindow("D:/PT4/PokerTrackerHud4.exe", "ptTableCover 3")
  {
    HudFileName();
    assert StartsWith("ptTableCover 3", IGNORE_LIST[2].titlePrefix);
  }

  lemma HudFileName()
    ensures FileName("D:/PT4/PokerTrackerHud4.exe") == "PokerTrackerHud4.exe"
  {
    var dir, name := "D:/PT4/", "PokerTrackerHud4.exe";
    assert dir + name == "D:/PT4/PokerTrackerHud4.exe";
    FileNameAfter(dir + name, 6);
  }

  /** The table pairs xeester.exe with "XEESTER:" only, so a "ptTableCover"
      window of that process is kept. */
  lemma XeesterTableCoverKept()
    ensures !ShouldIgnoreWindow("C:\\xeester\\xeester.exe", "ptTableCover")
  {
    XeesterFileName();
    XeesterCoverMatchesNoEntry();
  }

  lemma XeesterFileName()
    ensures FileName("C:\\xeester\\xeester.exe") == "xeester.exe"
  {
    FileNameAfter("C:\\xeester\\xeester.exe", 10);
  }

  lemma XeesterCoverMatchesNoEntry()
    ensures !MatchesAny(IGNORE_LIST, "xeester.exe", "ptTableCover")
  {
    var name, title := "xeester.exe", "ptTableCover";
    forall i | 0 <= i < |IGNORE_LIST|
      ensures !(name == IGNORE_LIST[i].executableName && StartsWith(title, IGNORE_LIST[i].titlePrefix))
    {
      if i == 0 {
        assert title[0] != IGNORE_LIST[0].titlePrefix[0];
      } else {
        assert |name| != |IGNORE_LIST[i].executableName|;
      }
    }
    MatchesAnyIsExists(IGNORE_LIST, name, title);
  }
}
