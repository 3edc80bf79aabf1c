/**
 * The per-site ledger of the mission in flight2.py: the first sweep visits
 * every waypoint in list order, writes one report row per site and queues the
 * red and yellow sites for a second visit (flight2.py:216-252); the second
 * sweep visits only the queued sites and appends a note to the row of each
 * (flight2.py:271-290). The classifier answers at each site are inputs.
 */
module Ledger {
  import opened Wrappers
  import opened ColourClassifier

  /** A waypoint, held as the two strings Python's str() renders for its coordinates. */
  datatype Coord = Coord(x: string, y: string)

  /** One entry of the report list: the waypoint followed by its report fields. */
  datatype Row = Row(coord: Coord, labels: seq<string>)

  /** Red and yellow sites are revisited in the second sweep (flight2.py:240-246). */
  predicate IsFlagged(c: Colour)
  {
    c == Red || c == Yellow
  }

  /** The fields the first sweep writes after the waypoint (flight2.py:240-249). */
  function Marker(c: Colour): seq<string>
  {
    match c
    case Red => ["+"]
    case Yellow => ["?"]
    case Green => ["-", "Healthy"]
  }

  /** The rows the first sweep writes for sites cs whose colours are ks. */
  function Phase1Rows(cs: seq<Coord>, ks: seq<Colour>): (rows: seq<Row>)
    requires |cs| == |ks|
    ensures |rows| == |cs|
    ensures forall k :: 0 <= k < |rows| ==> rows[k].coord == cs[k]
    decreases |cs|
  {
    if cs == [] then []
    else Phase1Rows(cs[..|cs| - 1], ks[..|ks| - 1]) + [Row(cs[|cs| - 1], Marker(ks[|ks| - 1]))]
  }

  /** The sites the first sweep queues for revisiting. */
  function Flagged(cs: seq<Coord>, ks: seq<Colour>): (ps: seq<Coord>)
    requires |cs| == |ks|
    ensures forall p :: p in ps ==> p in cs
    decreases |cs|
  {
    if cs == [] then []
    else Flagged(cs[..|cs| - 1], ks[..|ks| - 1]) + (if IsFlagged(ks[|ks| - 1]) then [cs[|cs| - 1]] else [])
  }

  /** Number of red or yellow answers in ks. */
  function FlagCount(ks: seq<Colour>): nat
  {
    if ks == [] then 0
    else FlagCount(ks[..|ks| - 1]) + (if IsFlagged(ks[|ks| - 1]) then 1 else 0)
  }

  /** Number of red or yellow answers before site k: its place in the revisit queue. */
  function Rank(ks: seq<Colour>, k: nat): nat
    requires k <= |ks|
  {
    FlagCount(ks[..k])
  }

  /** Row k of the first sweep holds waypoint k and the marker of colour k. */
  lemma {:induction false} Phase1RowsAt(cs: seq<Coord>, ks: seq<Colour>, k: nat)
    requires |cs| == |ks| && k < |cs|
    ensures Phase1Rows(cs, ks)[k] == Row(cs[k], Marker(ks[k]))
  {
    var n := |cs|;
    if k < n - 1 {
      Phase1RowsAt(cs[..n - 1], ks[..n - 1], k);
    }
  }

  /** The revisit queue holds one entry per red or yellow answer. */
  lemma {:induction false} FlaggedLength(cs: seq<Coord>, ks: seq<Colour>)
    requires |cs| == |ks|
    ensures |Flagged(cs, ks)| == FlagCount(ks)
    decreases |cs|
  {
    if cs != [] {
      FlaggedLength(cs[..|cs| - 1], ks[..|ks| - 1]);
    }
  }

  /** Every red or yellow site is queued, at its rank. */
  lemma {:induction false} FlaggedAt(cs: seq<Coord>, ks: seq<Colour>, k: nat)
    requires |cs| == |ks| && k < |cs| && IsFlagged(ks[k])
    ensures Rank(ks, k) < |Flagged(cs, ks)| && Flagged(cs, ks)[Rank(ks, k)] == cs[k]
    decreases |cs|
  {
    var n := |cs|;
    var cs0, ks0 := cs[..n - 1], ks[..n - 1];
    if k == n - 1 {
      FlaggedLength(cs0, ks0);
    } else {
      FlaggedAt(cs0, ks0, k);
      assert ks0[..k] == ks[..k];
    }
  }

  /** Every queued entry is a red or yellow site, and its rank is its place in the queue. */
  lemma {:induction false} FlaggedOnly(cs: seq<Coord>, ks: seq<Colour>, j: nat)
    requires |cs| == |ks| && j < |Flagged(cs, ks)|
    ensures exists k :: 0 <= k < |cs| && IsFlagged(ks[k]) && Rank(ks, k) == j && Flagged(cs, ks)[j] == cs[k]
    decreases |cs|
  {
    var n := |cs|;
    var cs0, ks0 := cs[..n - 1], ks[..n - 1];
    if j < |Flagged(cs0, ks0)| {
      FlaggedOnly(cs0, ks0, j);
      var k :| 0 <= k < |cs0| && IsFlagged(ks0[k]) && Rank(ks0, k) == j && Flagged(cs0, ks0)[j] == cs0[k];
      assert ks0[..k] == ks[..k];
      assert Rank(ks, k) == j;
    } else {
      FlaggedLength(cs0, ks0);
      assert ks[..n - 1] == ks0;
      assert Rank(ks, n - 1) == j;
    }
  }

  /** Counting answers over a longer prefix never gives fewer flags. */
  lemma {:induction false} FlagCountMonotone(ks: seq<Colour>, i: nat, j: nat)
    requires i <= j <= |ks|
    ensures FlagCount(ks[..i]) <= FlagCount(ks[..j])
    decreases j - i
  {
    if i < j {
      FlagCountMonotone(ks, i, j - 1);
      assert ks[..j][..j - 1] == ks[..j - 1];
    }
  }

  /** Queue order follows waypoint order: a flagged site ranks below every later site. */
  lemma RankIncreases(ks: seq<Colour>, k1: nat, k2: nat)
    requires k1 < k2 <= |ks| && IsFlagged(ks[k1])
    ensures Rank(ks, k1) < Rank(ks, k2)
  {
    assert ks[..k1 + 1][..k1] == ks[..k1];
    FlagCountMonotone(ks, k1 + 1, k2);
  }

  /** Python's list.index: the first position of p in cs. */
  function IndexOf(cs: seq<Coord>, p: Coord): (k: nat)
    requires p in cs
    ensures k < |cs| && cs[k] == p
    ensures forall j :: 0 <= j < k ==> cs[j] != p
  {
    if cs[0] == p then 0 else 1 + IndexOf(cs[1..], p)
  }

  /** Extending the list does not move the first position of an element already in it. */
  lemma IndexOfExtend(cs: seq<Coord>, c: Coord, p: Coord)
    requires p in cs
    ensures IndexOf(cs + [c], p) == IndexOf(cs, p)
  {
    var b := IndexOf(cs, p);
    assert (cs + [c])[b] == p;
  }

  /** The note the second sweep writes for a decoded payload (flight2.py:280-290). */
  function Note(text: string): (note: string)
    ensures note == "COVID - 2019" <==> text == "COVID - 19"
    ensures note == "Healthy" <==> text == "healthy"
    ensures note == "non COVID - 2019" <==> text != "COVID - 19" && text != "healthy"
  {
    if text == "COVID - 19" then "COVID - 2019"
    else if text == "healthy" then "Healthy"
    else "non COVID - 2019"
  }

  /**
   * The rows after the second sweep has revisited ps, with payloads ts, and
   * appended each note to the row of the waypoint's first position.
   */
  function Revisit(rows: seq<Row>, cs: seq<Coord>, ps: seq<Coord>, ts: seq<string>): (r: seq<Row>)
    requires |rows| == |cs| && |ps| == |ts|
    requires forall p :: p in ps ==> p in cs
    ensures |r| == |rows|
    ensures forall k :: 0 <= k < |r| ==> r[k].coord == rows[k].coord
    decreases |ps|
  {
    if ps == [] then rows
    else
      var prev := Revisit(rows, cs, ps[..|ps| - 1], ts[..|ts| - 1]);
      var k := IndexOf(cs, ps[|ps| - 1]);
      prev[k := Row(prev[k].coord, prev[k].labels + [Note(ts[|ts| - 1])])]
  }

  /** The notes that revisiting ps appends to row k, in visiting order. */
  function Hits(cs: seq<Coord>, ps: seq<Coord>, ts: seq<string>, k: nat): seq<string>
    requires |ps| == |ts|
    requires forall p :: p in ps ==> p in cs
    decreases |ps|
  {
    if ps == [] then []
    else
      Hits(cs, ps[..|ps| - 1], ts[..|ts| - 1], k)
      + (if IndexOf(cs, ps[|ps| - 1]) == k then [Note(ts[|ts| - 1])] else [])
  }

  /**
   * The second sweep only appends: row k ends with the notes of the revisits
   * whose waypoint is first found at position k, and a row no revisit
   * resolves to keeps its fields.
   */
  lemma {:induction false} RevisitAt(rows: seq<Row>, cs: seq<Coord>, ps: seq<Coord>, ts: seq<string>, k: nat)
    requires |rows| == |cs| && |ps| == |ts| && k < |rows|
    requires forall p :: p in ps ==> p in cs
    ensures Revisit(rows, cs, ps, ts)[k] == Row(rows[k].coord, rows[k].labels + Hits(cs, ps, ts, k))
    decreases |ps|
  {
    if ps != [] {
      RevisitAt(rows, cs, ps[..|ps| - 1], ts[..|ts| - 1], k);
    }
  }

  /** Extending the waypoint list leaves the hits of earlier waypoints alone. */
  lemma {:induction false} HitsExtend(cs: seq<Coord>, c: Coord, ps: seq<Coord>, ts: seq<string>, k: nat)
    requires |ps| == |ts|
    requires forall p :: p in ps ==> p in cs
    ensures Hits(cs + [c], ps, ts, k) == Hits(cs, ps, ts, k)
    decreases |ps|
  {
    if ps != [] {
      HitsExtend(cs, c, ps[..|ps| - 1], ts[..|ts| - 1], k);
      IndexOfExtend(cs, c, ps[|ps| - 1]);
    }
  }

  /** No revisit resolves to a row past the end of the waypoint list. */
  lemma {:induction false} HitsBeyond(cs: seq<Coord>, ps: seq<Coord>, ts: seq<string>, k: nat)
    requires |ps| == |ts| && k >= |cs|
    requires forall p :: p in ps ==> p in cs
    ensures Hits(cs, ps, ts, k) == []
    decreases |ps|
  {
    if ps != [] {
      HitsBeyond(cs, ps[..|ps| - 1], ts[..|ts| - 1], k);
    }
  }

  /** No waypoint occurs twice in the list. */
  predicate Distinct(cs: seq<Coord>)
  {
    forall i, j :: 0 <= i < j < |cs| ==> cs[i] != cs[j]
  }

  /** A prefix of a list without repetitions has none either. */
  lemma DistinctPrefix(cs: seq<Coord>, n: nat)
    requires Distinct(cs) && n <= |cs|
    ensures Distinct(cs[..n])
  {
  }

  /** The payloads of the sites before the last, given those of all sites. */
  function EarlierPayloads(ks: seq<Colour>, ts: seq<string>): seq<string>
    requires |ks| > 0
  {
    if IsFlagged(ks[|ks| - 1]) && |ts| > 0 then ts[..|ts| - 1] else ts
  }

  /**
   * Revisiting the queue of a list of distinct waypoints hits row k with the
   * hits of the list without its last site, plus the last site's own note
   * when k is its row.
   */
  lemma {:induction false} HitsLastSite(cs: seq<Coord>, ks: seq<Colour>, ts: seq<string>, k: nat)
    requires |cs| == |ks| > 0 && Distinct(cs) && |ts| == |Flagged(cs, ks)|
    ensures var n := |cs|;
      |EarlierPayloads(ks, ts)| == |Flagged(cs[..n - 1], ks[..n - 1])| &&
      Hits(cs, Flagged(cs, ks), ts, k)
        == Hits(cs[..n - 1], Flagged(cs[..n - 1], ks[..n - 1]), EarlierPayloads(ks, ts), k)
           + (if IsFlagged(ks[n - 1]) && k == n - 1 then [Note(ts[|ts| - 1])] else [])
  {
    var n := |cs|;
    var cs0, ks0, c := cs[..n - 1], ks[..n - 1], cs[n - 1];
    var ps0, ts0 := Flagged(cs0, ks0), EarlierPayloads(ks, ts);
    assert cs == cs0 + [c];
    assert c !in cs0 by {
      forall i | 0 <= i < |cs0| ensures cs0[i] != c {
        assert cs[i] != cs[n - 1];
      }
    }
    assert IndexOf(cs, c) == n - 1;
    assert ks[..n - 1] == ks0;
    HitsExtend(cs0, c, ps0, ts0, k);
    assert Hits(cs, ps0, ts0, k) == Hits(cs0, ps0, ts0, k);
    if IsFlagged(ks[n - 1]) {
      var ps := Flagged(cs, ks);
      assert ps == ps0 + [c];
      assert ps[..|ps| - 1] == ps0 && ps[|ps| - 1] == c;
      assert ts[..|ts| - 1] == ts0;
      assert Hits(cs, ps, ts, k)
          == Hits(cs, ps0, ts0, k) + (if n - 1 == k then [Note(ts[|ts| - 1])] else []);
    } else {
      assert Flagged(cs, ks) == ps0;
    }
  }

  /**
   * With distinct waypoints, revisiting the queue of the first sweep hits
   * each red or yellow site once, with the payload at its rank, and no other
   * site.
   */
  lemma {:induction false} HitsAfterPhase1(cs: seq<Coord>, ks: seq<Colour>, ts: seq<string>, k: nat)
    requires |cs| == |ks| && Distinct(cs) && |ts| == |Flagged(cs, ks)| && k < |cs|
    ensures IsFlagged(ks[k]) ==>
      Rank(ks, k) < |ts| && Hits(cs, Flagged(cs, ks), ts, k) == [Note(ts[Rank(ks, k)])]
    ensures !IsFlagged(ks[k]) ==> Hits(cs, Flagged(cs, ks), ts, k) == []
    decreases |cs|
  {
    var n := |cs|;
    var cs0, ks0 := cs[..n - 1], ks[..n - 1];
    var ps0, ts0 := Flagged(cs0, ks0), EarlierPayloads(ks, ts);
    HitsLastSite(cs, ks, ts, k);
    if k < n - 1 {
      DistinctPrefix(cs, n - 1);
      HitsAfterPhase1(cs0, ks0, ts0, k);
      assert ks0[..k] == ks[..k];
      if IsFlagged(ks[k]) {
        assert ts0[Rank(ks0, k)] == ts[Rank(ks, k)];
      }
    } else {
      HitsBeyond(cs0, ps0, ts0, k);
      FlaggedLength(cs0, ks0);
      assert ks[..n - 1] == ks0;
    }
  }

  /** The rows after both sweeps, given every classifier answer. */
  function FinalLedger(cs: seq<Coord>, ks: seq<Colour>, ts: seq<string>): (rows: seq<Row>)
    requires |cs| == |ks| && |ts| == |Flagged(cs, ks)|
    ensures |rows| == |cs|
    ensures forall k :: 0 <= k < |rows| ==> rows[k].coord == cs[k]
  {
    Revisit(Phase1Rows(cs, ks), cs, Flagged(cs, ks), ts)
  }

  /**
   * After both sweeps over distinct waypoints, row k holds waypoint k, its
   * first-sweep marker and, for a red or yellow site, exactly one note: the
   * one for the payload read when the site was revisited. Every row then has
   * the three fields the report reads.
   */
  lemma MissionLedger(cs: seq<Coord>, ks: seq<Colour>, ts: seq<string>, k: nat)
    requires |cs| == |ks| && Distinct(cs) && |ts| == |Flagged(cs, ks)| && k < |cs|
    ensures |FinalLedger(cs, ks, ts)| == |cs|
    ensures FinalLedger(cs, ks, ts)[k].coord == cs[k]
    ensures IsFlagged(ks[k]) ==>
      Rank(ks, k) < |ts| && FinalLedger(cs, ks, ts)[k].labels == Marker(ks[k]) + [Note(ts[Rank(ks, k)])]
    ensures !IsFlagged(ks[k]) ==> FinalLedger(cs, ks, ts)[k].labels == Marker(ks[k])
    ensures |FinalLedger(cs, ks, ts)[k].labels| == 2
  {
    Phase1RowsAt(cs, ks, k);
    RevisitAt(Phase1Rows(cs, ks), cs, Flagged(cs, ks), ts, k);
    HitsAfterPhase1(cs, ks, ts, k);
  }

  /** Every revisit decoded a payload: the symbol classifier answered at each. */
  predicate AllDecoded(rs: seq<Option<string>>)
  {
    forall j :: 0 <= j < |rs| ==> rs[j].Some?
  }

  /** The payloads of revisits that all decoded one. */
  function Decoded(rs: seq<Option<string>>): (ts: seq<string>)
    requires AllDecoded(rs)
    ensures |ts| == |rs| && forall j :: 0 <= j < |rs| ==> rs[j] == Some(ts[j])
  {
    seq(|rs|, j requires 0 <= j < |rs| => rs[j].value)
  }

  /**
   * The number of revisits done before the first one that decoded nothing,
   * where the symbol classifier's max() of an empty list raises and the
   * mission stops (flight2.py:278, 80).
   */
  function Answered(rs: seq<Option<string>>): (n: nat)
    ensures n <= |rs| && AllDecoded(rs[..n])
    ensures n < |rs| ==> rs[n].None?
  {
    if rs == [] || rs[0].None? then 0
    else
      var n := 1 + Answered(rs[1..]);
      assert rs[..n] == [rs[0]] + rs[1..][..n - 1];
      n
  }

  /** A prefix of decoded answers ended by a failed one, or by the end, is what Answered counts. */
  lemma AnsweredAt(rs: seq<Option<string>>, i: nat)
    requires i <= |rs| && AllDecoded(rs[..i]) && (i < |rs| ==> rs[i].None?)
    ensures Answered(rs) == i
  {
  }

  /** One more decoded revisit appends its note to the row its waypoint resolves to. */
  lemma RevisitStep(rows: seq<Row>, cs: seq<Coord>, ps: seq<Coord>, rs: seq<Option<string>>, i: nat)
    requires |rows| == |cs| && i < |ps| == |rs| && AllDecoded(rs[..i + 1])
    requires forall p :: p in ps ==> p in cs
    ensures AllDecoded(rs[..i])
    ensures var prev := Revisit(rows, cs, ps[..i], Decoded(rs[..i]));
            var k := IndexOf(cs, ps[i]);
            Revisit(rows, cs, ps[..i + 1], Decoded(rs[..i + 1]))
              == prev[k := Row(prev[k].coord, prev[k].labels + [Note(rs[i].value)])]
  {
    assert rs[..i + 1][..i] == rs[..i];
    assert ps[..i + 1][..i] == ps[..i];
    assert Decoded(rs[..i + 1])[..i] == Decoded(rs[..i]);
  }

  /**
   * The mission's two report lists (flight2.py:216-217). The waypoint list is
   * fixed when the mission starts.
   */
  class Mission {
    const coordinates: seq<Coord>
    /** The revisit queue, passedCoordinates in the source. */
    var passed: seq<Coord>
    /** The report rows, otchetData in the source. */
    var report: seq<Row>

    constructor(coordinates: seq<Coord>)
      ensures this.coordinates == coordinates
      ensures passed == [] && report == []
    {
      this.coordinates := coordinates;
      passed := [];
      report := [];
    }

    /**
     * The first sweep (flight2.py:224-252), where colours[i] is the colour
     * classifier's answer at waypoint i.
     */
    method SweepColours(colours: seq<Colour>)
      requires |colours| == |coordinates|
      modifies this
      ensures report == old(report) + Phase1Rows(coordinates, colours)
      ensures passed == old(passed) + Flagged(coordinates, colours)
    {
      for i := 0 to |coordinates|
        invariant report == old(report) + Phase1Rows(coordinates[..i], colours[..i])
        invariant passed == old(passed) + Flagged(coordinates[..i], colours[..i])
      {
        var c := coordinates[i];
        var colour := colours[i];
        if colour == Red {
          passed := passed + [c];
          report := report + [Row(c, ["+"])];
        } else if colour == Yellow {
          passed := passed + [c];
          report := report + [Row(c, ["?"])];
        } else {
          report := report + [Row(c, ["-", "Healthy"])];
        }
        assert coordinates[..i + 1][..i] == coordinates[..i];
        assert colours[..i + 1][..i] == colours[..i];
      }
      assert coordinates[..|coordinates|] == coordinates;
      assert colours[..|colours|] == colours;
    }

    /**
     * The second sweep (flight2.py:271-293), where readings[i] is the symbol
     * classifier's answer at the i-th queued site, None where it decoded
     * nothing and raised. Each note goes to the row of the waypoint's first
     * position in the list, as `coordinates.index` finds it. The sweep stops
     * at the first failed reading and reports whether it completed.
     */
    method SweepSymbols(readings: seq<Option<string>>) returns (completed: bool)
      requires |readings| == |passed| && |report| == |coordinates|
      requires forall p :: p in passed ==> p in coordinates
      modifies this
      ensures passed == old(passed)
      ensures completed <==> AllDecoded(readings)
      ensures Answered(readings) <= |passed|
      ensures report == Revisit(old(report), coordinates, passed[..Answered(readings)],
                                Decoded(readings[..Answered(readings)]))
    {
      for i := 0 to |passed|
        invariant passed == old(passed)
        invariant AllDecoded(readings[..i])
        invariant report == Revisit(old(report), coordinates, passed[..i], Decoded(readings[..i]))
      {
        if readings[i].None? {
          // the symbol classifier raised: the mission stops at this site
          AnsweredAt(readings, i);
          return false;
        }
        var text := readings[i].value;
        var k := IndexOf(coordinates, passed[i]);
        var note;
        if text == "COVID - 19" {
          note := "COVID - 2019";
        } else if text == "healthy" {
          note := "Healthy";
        } else {
          note := "non COVID - 2019";
        }
        assert note == Note(text);
        assert readings[..i + 1] == readings[..i] + [readings[i]];
        RevisitStep(old(report), coordinates, passed, readings, i);
        report := report[k := Row(report[k].coord, report[k].labels + [note])];
      }
      assert readings[..|readings|] == readings;
      AnsweredAt(readings, |readings|);
      completed := true;
    }
  }
}
