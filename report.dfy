/**
 * The report compiler at the end of flight2.py (lines 301-311): four lines,
 * one per column of the report list (1-based row number, waypoint,
 * first-sweep marker, note), each the comma-separated list of its column,
 * joined by newlines with no newline at the end.
 */
module Report {
  import opened Wrappers
  import opened Text
  import opened Ledger

  /** The waypoint as the report writes it. */
  function RenderCoord(c: Coord): string
  {
    "x = " + c.x + " y = " + c.y
  }

  /** Every row has a marker and a note, the fields the report reads. */
  predicate Complete(rows: seq<Row>)
  {
    forall i :: 0 <= i < |rows| ==> |rows[i].labels| >= 2
  }

  function IndexColumn(n: nat): (col: seq<string>)
    ensures |col| == n
  {
    seq(n, i requires 0 <= i < n => Decimal(i + 1))
  }

  function CoordColumn(rows: seq<Row>): (col: seq<string>)
    ensures |col| == |rows|
  {
    seq(|rows|, i requires 0 <= i < |rows| => RenderCoord(rows[i].coord))
  }

  function MarkerColumn(rows: seq<Row>): (col: seq<string>)
    requires Complete(rows)
    ensures |col| == |rows|
  {
    seq(|rows|, i requires 0 <= i < |rows| => rows[i].labels[0])
  }

  function NoteColumn(rows: seq<Row>): (col: seq<string>)
    requires Complete(rows)
    ensures |col| == |rows|
  {
    seq(|rows|, i requires 0 <= i < |rows| => rows[i].labels[1])
  }

  /**
   * The report text, or None where the source raises IndexError because a
   * row lacks its marker or its note.
   */
  function ReportText(rows: seq<Row>): (r: Option<string>)
    ensures r.Some? <==> Complete(rows)
    ensures rows == [] ==> r == Some("\n\n\n")
  {
    if Complete(rows) then
      assert rows == [] ==> "" + "\n" + "" + "\n" + "" + "\n" + "" == "\n\n\n";
      Some(Join(IndexColumn(|rows|), ',') + "\n" + Join(CoordColumn(rows), ',') + "\n"
           + Join(MarkerColumn(rows), ',') + "\n" + Join(NoteColumn(rows), ','))
    else None
  }

  /** The report loop and the trimming of its four strings (flight2.py:301-311). */
  method Compile(rows: seq<Row>) returns (out: Option<string>)
    ensures out == ReportText(rows)
  {
    var str1, str2, str3, str4 := "", "", "", "";
    for i := 0 to |rows|
      invariant Complete(rows[..i])
      invariant str1 == Trailing(IndexColumn(i), ',')
      invariant str2 == Trailing(CoordColumn(rows[..i]), ',')
      invariant str3 == Trailing(MarkerColumn(rows[..i]), ',')
      invariant str4 == Trailing(NoteColumn(rows[..i]), ',')
    {
      if |rows[i].labels| < 2 {
        // reading the marker or the note of this row raises IndexError
        return None;
      }
      ColumnsStep(rows, i);
      str1 := str1 + Decimal(i + 1) + ",";
      str2 := str2 + "x = " + rows[i].coord.x + " y = " + rows[i].coord.y + ",";
      str3 := str3 + rows[i].labels[0] + ",";
      str4 := str4 + rows[i].labels[1] + ",";
    }
    assert rows[..|rows|] == rows;
    DropLastTrailing(IndexColumn(|rows|), ',');
    DropLastTrailing(CoordColumn(rows), ',');
    DropLastTrailing(MarkerColumn(rows), ',');
    DropLastTrailing(NoteColumn(rows), ',');
    str1, str2, str3, str4 := DropLast(str1), DropLast(str2), DropLast(str3), DropLast(str4);
    out := Some(str1 + "\n" + str2 + "\n" + str3 + "\n" + str4);
  }

  /** Accumulating one more field onto the trailing-separator form of a column. */
  lemma TrailingStep(items: seq<string>, x: string, sep: char)
    ensures Trailing(items + [x], sep) == Trailing(items, sep) + x + [sep]
  {
  }

  /** One more row adds one field to the end of each column. */
  lemma ColumnsStep(rows: seq<Row>, i: nat)
    requires i < |rows| && Complete(rows[..i]) && |rows[i].labels| >= 2
    ensures Complete(rows[..i + 1])
    ensures Trailing(IndexColumn(i + 1), ',') == Trailing(IndexColumn(i), ',') + Decimal(i + 1) + ","
    ensures Trailing(CoordColumn(rows[..i + 1]), ',')
         == Trailing(CoordColumn(rows[..i]), ',') + "x = " + rows[i].coord.x + " y = " + rows[i].coord.y + ","
    ensures Trailing(MarkerColumn(rows[..i + 1]), ',') == Trailing(MarkerColumn(rows[..i]), ',') + rows[i].labels[0] + ","
    ensures Trailing(NoteColumn(rows[..i + 1]), ',') == Trailing(NoteColumn(rows[..i]), ',') + rows[i].labels[1] + ","
  {
    IndexColumnStep(i);
    TrailingStep(IndexColumn(i), Decimal(i + 1), ',');
    CoordColumnStep(rows, i);
    TrailingStep(CoordColumn(rows[..i]), RenderCoord(rows[i].coord), ',');
    LabelColumnsStep(rows, i);
    TrailingStep(MarkerColumn(rows[..i]), rows[i].labels[0], ',');
    TrailingStep(NoteColumn(rows[..i]), rows[i].labels[1], ',');
  }

  lemma IndexColumnStep(i: nat)
    ensures IndexColumn(i + 1) == IndexColumn(i) + [Decimal(i + 1)]
  {
  }

  lemma CoordColumnStep(rows: seq<Row>, i: nat)
    requires i < |rows|
    ensures CoordColumn(rows[..i + 1]) == CoordColumn(rows[..i]) + [RenderCoord(rows[i].coord)]
  {
    assert rows[..i + 1] == rows[..i] + [rows[i]];
  }

  lemma LabelColumnsStep(rows: seq<Row>, i: nat)
    requires i < |rows| && Complete(rows[..i]) && |rows[i].labels| >= 2
    ensures Complete(rows[..i + 1])
    ensures MarkerColumn(rows[..i + 1]) == MarkerColumn(rows[..i]) + [rows[i].labels[0]]
    ensures NoteColumn(rows[..i + 1]) == NoteColumn(rows[..i]) + [rows[i].labels[1]]
  {
    assert rows[..i + 1] == rows[..i] + [rows[i]];
  }

  /** A field a report line can carry without being split apart. */
  predicate Clean(s: string)
  {
    ',' !in s && '\n' !in s
  }

  /** The waypoints and the marker and note of every row are clean. */
  predicate CleanRows(rows: seq<Row>)
  {
    forall i :: 0 <= i < |rows| ==>
      Clean(rows[i].coord.x) && Clean(rows[i].coord.y) &&
      forall j :: 0 <= j < |rows[i].labels| ==> Clean(rows[i].labels[j])
  }

  /** A column of clean fields joins into a clean-of-newline line that splits back into it. */
  lemma ColumnRoundTrip(col: seq<string>)
    requires |col| >= 1
    requires forall i :: 0 <= i < |col| ==> Clean(col[i])
    ensures Split(Join(col, ','), ',') == col
    ensures '\n' !in Join(col, ',')
  {
    SplitJoin(col, ',');
    JoinAvoids(col, ',', '\n');
  }

  /** Numbers, rendered waypoints, markers and notes of clean rows are clean fields. */
  lemma ColumnsClean(rows: seq<Row>)
    requires Complete(rows) && CleanRows(rows)
    ensures forall i :: 0 <= i < |rows| ==> Clean(IndexColumn(|rows|)[i])
    ensures forall i :: 0 <= i < |rows| ==> Clean(CoordColumn(rows)[i])
    ensures forall i :: 0 <= i < |rows| ==> Clean(MarkerColumn(rows)[i]) && Clean(NoteColumn(rows)[i])
  {
  }

  /** Four lines without newlines, joined by newlines, split back into those four. */
  lemma FourLines(l1: string, l2: string, l3: string, l4: string)
    requires '\n' !in l1 && '\n' !in l2 && '\n' !in l3 && '\n' !in l4
    ensures Split(l1 + "\n" + l2 + "\n" + l3 + "\n" + l4, '\n') == [l1, l2, l3, l4]
  {
    var sep := '\n';
    assert "\n" == [sep];
    SplitNoSep(l1, sep);
    SplitAppend(l1, l2, sep);
    SplitAppend(l1 + [sep] + l2, l3, sep);
    SplitAppend(l1 + [sep] + l2 + [sep] + l3, l4, sep);
  }

  /**
   * The report of a non-empty complete ledger with clean fields reads back
   * as exactly four lines, with no trailing newline, and each line splits at
   * its commas into its column.
   */
  lemma ReportParses(rows: seq<Row>)
    requires |rows| >= 1 && Complete(rows) && CleanRows(rows)
    ensures ReportText(rows).Some?
    ensures Split(ReportText(rows).value, '\n')
      == [Join(IndexColumn(|rows|), ','), Join(CoordColumn(rows), ','),
          Join(MarkerColumn(rows), ','), Join(NoteColumn(rows), ',')]
    ensures Split(Join(IndexColumn(|rows|), ','), ',') == IndexColumn(|rows|)
    ensures Split(Join(CoordColumn(rows), ','), ',') == CoordColumn(rows)
    ensures Split(Join(MarkerColumn(rows), ','), ',') == MarkerColumn(rows)
    ensures Split(Join(NoteColumn(rows), ','), ',') == NoteColumn(rows)
  {
    ColumnsClean(rows);
    ColumnRoundTrip(IndexColumn(|rows|));
    ColumnRoundTrip(CoordColumn(rows));
    ColumnRoundTrip(MarkerColumn(rows));
    ColumnRoundTrip(NoteColumn(rows));
    FourLines(Join(IndexColumn(|rows|), ','), Join(CoordColumn(rows), ','),
              Join(MarkerColumn(rows), ','), Join(NoteColumn(rows), ','));
  }

  /** The first line numbers the rows 1, 2, ..., n in decimal. */
  lemma IndexColumnCounts(n: nat, i: nat)
    requires i < n
    ensures ParseDecimal(IndexColumn(n)[i]) == i + 1
  {
    DecimalRoundTrip(i + 1);
  }

  /** The report of a two-site ledger, written out. */
  lemma TwoSiteExample()
    ensures ReportText([Row(Coord("0", "2.72"), ["+", "x"]), Row(Coord("0.72", "3.94"), ["-", "Healthy"])])
         == Some("1,2" + "\n" + "x = 0 y = 2.72,x = 0.72 y = 3.94" + "\n" + "+,-" + "\n" + "x,Healthy")
  {
    var rows := [Row(Coord("0", "2.72"), ["+", "x"]), Row(Coord("0.72", "3.94"), ["-", "Healthy"])];
    assert IndexColumn(2) == ["1", "2"];
    assert RenderCoord(rows[0].coord) == "x = 0 y = 2.72";
    assert RenderCoord(rows[1].coord) == "x = 0.72 y = 3.94";
    assert CoordColumn(rows) == ["x = 0 y = 2.72", "x = 0.72 y = 3.94"];
    assert MarkerColumn(rows) == ["+", "-"];
    assert NoteColumn(rows) == ["x", "Healthy"];
    JoinTwo("1", "2", ',');
    JoinTwo("x = 0 y = 2.72", "x = 0.72 y = 3.94", ',');
    JoinTwo("+", "-", ',');
    JoinTwo("x", "Healthy", ',');
    assert Complete(rows);
    assert Join(IndexColumn(2), ',') == "1,2";
    assert Join(CoordColumn(rows), ',') == "x = 0 y = 2.72,x = 0.72 y = 3.94";
    assert Join(MarkerColumn(rows), ',') == "+,-";
    assert Join(NoteColumn(rows), ',') == "x,Healthy";
  }

  lemma JoinTwo(a: string, b: string, sep: char)
    ensures Join([a, b], sep) == a + [sep] + b
  {
  }
}
