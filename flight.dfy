/**
 * The mission script of flight2.py end to end: the first sweep over the fixed
 * waypoint list, the revisit of the flagged sites, and the report compiled
 * from the rows. The flights between sites, the camera and the decoders are
 * replaced by the classifiers' answers, given as inputs.
 */
module Flight {
  import opened Wrappers
  import opened ColourClassifier
  import opened Ledger
  import opened Report

  /** The nine waypoints of flight2.py:204-212, each as Python's str() renders it. */
  function Waypoints(): (cs: seq<Coord>)
    ensures |cs| == 9
  {
    [Coord("0", "2.72"), Coord("0.72", "3.94"), Coord("0.72", "1.5"),
     Coord("2.88", "1.5"), Coord("2.16", "0.28"), Coord("1.44", "2.72"),
     Coord("1.44", "1.5"), Coord("2.16", "2.72"), Coord("3.6", "0.28")]
  }

  /** No waypoint of the mission is listed twice. */
  lemma WaypointsDistinct()
    ensures Distinct(Waypoints())
  {
  }

  /**
   * Both sweeps and the report (flight2.py:216-311), where colours[i] is the
   * colour classifier's answer at waypoint i and readings[j] the symbol
   * classifier's answer at the j-th flagged site: None where it decoded no
   * payload and its max() of an empty list raised, which stops the mission
   * before the report is written.
   */
  method RunMission(coordinates: seq<Coord>, colours: seq<Colour>, readings: seq<Option<string>>)
    returns (out: Option<string>)
    requires |colours| == |coordinates| && |readings| == |Flagged(coordinates, colours)|
    ensures AllDecoded(readings) ==> out == ReportText(FinalLedger(coordinates, colours, Decoded(readings)))
    ensures !AllDecoded(readings) ==> out == None
    ensures Distinct(coordinates) ==> (out.Some? <==> AllDecoded(readings))
  {
    var mission := new Mission(coordinates);
    mission.SweepColours(colours);
    assert mission.report == Phase1Rows(coordinates, colours);
    assert mission.passed == Flagged(coordinates, colours);
    var completed := mission.SweepSymbols(readings);
    if !completed {
      return None;
    }
    assert readings[..|readings|] == readings;
    AnsweredAt(readings, |readings|);
    assert mission.passed[..|readings|] == mission.passed;
    assert mission.report == FinalLedger(coordinates, colours, Decoded(readings));
    out := Compile(mission.report);
    if Distinct(coordinates) {
      LedgerComplete(coordinates, colours, Decoded(readings));
    }
  }

  /** Over distinct waypoints every final row carries a marker and a note. */
  lemma LedgerComplete(cs: seq<Coord>, ks: seq<Colour>, ts: seq<string>)
    requires |cs| == |ks| && Distinct(cs) && |ts| == |Flagged(cs, ks)|
    ensures Complete(FinalLedger(cs, ks, ts))
  {
    forall k | 0 <= k < |FinalLedger(cs, ks, ts)| ensures |FinalLedger(cs, ks, ts)[k].labels| >= 2 {
      MissionLedger(cs, ks, ts, k);
    }
  }

  /**
   * Column k of the report over distinct waypoints: the marker line holds "+"
   * for red, "?" for yellow and "-" for green, and the note line holds the
   * note of the payload read at a flagged site, or "Healthy" for a green one.
   */
  lemma ReportColumns(cs: seq<Coord>, ks: seq<Colour>, ts: seq<string>, k: nat)
    requires |cs| == |ks| && Distinct(cs) && |ts| == |Flagged(cs, ks)| && k < |cs|
    ensures Complete(FinalLedger(cs, ks, ts))
    ensures CoordColumn(FinalLedger(cs, ks, ts))[k] == RenderCoord(cs[k])
    ensures MarkerColumn(FinalLedger(cs, ks, ts))[k] == (match ks[k] case Red => "+" case Yellow => "?" case Green => "-")
    ensures IsFlagged(ks[k]) ==> Rank(ks, k) < |ts| && NoteColumn(FinalLedger(cs, ks, ts))[k] == Note(ts[Rank(ks, k)])
    ensures !IsFlagged(ks[k]) ==> NoteColumn(FinalLedger(cs, ks, ts))[k] == "Healthy"
  {
    LedgerComplete(cs, ks, ts);
    MissionLedger(cs, ks, ts, k);
  }

  /**
   * Once every revisit has decoded a payload, the mission over its own
   * waypoints writes a report, whatever the colours and payloads.
   */
  lemma WaypointMissionReports(colours: seq<Colour>, texts: seq<string>)
    requires |colours| == 9 && |texts| == |Flagged(Waypoints(), colours)|
    ensures ReportText(FinalLedger(Waypoints(), colours, texts)).Some?
  {
    WaypointsDistinct();
    LedgerComplete(Waypoints(), colours, texts);
  }
}
