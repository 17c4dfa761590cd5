/** The listing script: one snapshot, mapped to plain records, sorted by
    z-order with unknown positions last, and printed one ranked line per
    window. The timing line at the end is not modelled. */
module PrintWindows {

  import opened Common
  import opened JsText
  import Snapshot
  import opened WindowListing

  /** The record the script builds from a window summary. */
  datatype Row = Row(z: int, title: string, bounds: Snapshot.Bounds, exeName: string, isVisible: bool)

  /** The callback of `summaries.map`: the executable name is the basename
      of a non-empty path and empty otherwise. */
  function RowOf(s: Snapshot.WindowSummary, win32: bool): Row {
    Row(s.zOrder, s.title, s.bounds, ExeName(s.path, win32), s.isVisible)
  }

  /** `summaries.map(...)`. */
  function Rows(summaries: seq<Snapshot.WindowSummary>, win32: bool): (r: seq<Row>)
    ensures |r| == |summaries|
  {
    seq(|summaries|, k requires 0 <= k < |summaries| => RowOf(summaries[k], win32))
  }

  /** `(a) => a.z`. */
  function RowZ(): Row -> int {
    (r: Row) => r.z
  }

  /** The records after `info.sort(...)`. */
  function SortedRows(summaries: seq<Snapshot.WindowSummary>, win32: bool): seq<Row> {
    SortBy(Rows(summaries, win32), ZKeyOf(RowZ()))
  }

  /** The callback of `info.forEach`: the line of a record at a rank. */
  function RowFormat(): (Row, int) -> string {
    (r: Row, rank: int) => FormatWindowLine(false, rank, Some(r.z), Some(r.title), Some(Given(r.bounds)), r.exeName, Some(r.isVisible))
  }

  /** `main` after the snapshot: one line per window, in sorted order, the
      `k`th line carrying rank `k + 1` where `parseInt` reads it back. */
  method PrintWindows(summaries: seq<Snapshot.WindowSummary>, win32: bool) returns (lines: seq<string>)
    ensures |lines| == |summaries|
    ensures lines == Ranked(SortedRows(summaries, win32), RowFormat())
    ensures forall k :: 0 <= k < |lines| ==> lines[k][0] == '#' && ParseInt(lines[k][1..]) == Some(k + 1)
  {
    var info := Rows(summaries, win32);
    info := SortBy(info, ZKeyOf(RowZ()));
    SortByFacts(Rows(summaries, win32), ZKeyOf(RowZ()));
    lines := RenderRanked(info, RowFormat());
    forall k | 0 <= k < |lines| ensures lines[k][0] == '#' && ParseInt(lines[k][1..]) == Some(k + 1) {
      RankedLineReadsBack(info, k);
    }
  }

  lemma RankedLineReadsBack(rows: seq<Row>, k: nat)
    requires k < |rows|
    ensures Ranked(rows, RowFormat())[k][0] == '#' && ParseInt(Ranked(rows, RowFormat())[k][1..]) == Some(k + 1)
  {
    var r := rows[k];
    assert Ranked(rows, RowFormat())[k]
        == FormatWindowLine(false, k + 1, Some(r.z), Some(r.title), Some(Given(r.bounds)), r.exeName, Some(r.isVisible));
    RankReadsBack(k + 1, Some(r.z), Some(r.title), Some(Given(r.bounds)), r.exeName, Some(r.isVisible));
  }

  /** The printed records are the snapshot's, rearranged: as many, each one
      the record of some window, every window's record present as often as
      the window occurs. */
  lemma SortedRowsAreRows(summaries: seq<Snapshot.WindowSummary>, win32: bool)
    ensures multiset(SortedRows(summaries, win32)) == multiset(Rows(summaries, win32))
    ensures |SortedRows(summaries, win32)| == |summaries|
    ensures forall k :: 0 <= k < |summaries| ==> RowOf(summaries[k], win32) in SortedRows(summaries, win32)
  {
    var rows := Rows(summaries, win32);
    SortByFacts(rows, ZKeyOf(RowZ()));
    forall k | 0 <= k < |summaries| ensures RowOf(summaries[k], win32) in SortedRows(summaries, win32) {
      assert rows[k] in multiset(rows);
    }
  }

  /** The printed order ascends by z-order key and keeps the snapshot order
      among records of equal key. */
  lemma SortedRowsOrder(summaries: seq<Snapshot.WindowSummary>, win32: bool, key: int)
    ensures SortedBy(SortedRows(summaries, win32), ZKeyOf(RowZ()))
    ensures Filter(SortedRows(summaries, win32), HasKey(ZKeyOf(RowZ()), key))
         == Filter(Rows(summaries, win32), HasKey(ZKeyOf(RowZ()), key))
  {
    SortByFacts(Rows(summaries, win32), ZKeyOf(RowZ()));
    SortByStable(Rows(summaries, win32), ZKeyOf(RowZ()), key);
  }

  /** When known positions stay below MAX_SAFE_INTEGER, every window of
      unknown (negative) position is printed after every window of known
      position. */
  lemma SortedRowsUnknownLast(summaries: seq<Snapshot.WindowSummary>, win32: bool)
    requires forall k :: 0 <= k < |summaries| ==> summaries[k].zOrder < MAX_SAFE_INTEGER
    ensures var sorted := SortedRows(summaries, win32);
      forall i, j :: 0 <= i < |sorted| && 0 <= j < |sorted| && sorted[i].z < 0 && sorted[j].z >= 0 ==> j < i
  {
    var rows := Rows(summaries, win32);
    var sorted := SortedRows(summaries, win32);
    SortByFacts(rows, ZKeyOf(RowZ()));
    forall k | 0 <= k < |sorted| ensures sorted[k].z < MAX_SAFE_INTEGER {
      assert sorted[k] in multiset(rows);
      var j :| 0 <= j < |rows| && rows[j] == sorted[k];
    }
    UnknownPositionsLast(sorted, RowZ());
  }
}
