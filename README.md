# flight2.py mission core, in Dafny

`flight2.py` flies a drone over nine waypoints. At each one it classifies the
colour of the marker below: red, yellow or green. It queues the red and yellow
sites, lands, takes off again and revisits the queued sites to read a QR
payload at each. Last, it writes a four-line comma-separated report. This
project models the parts of that script that compute something:

- `wrappers.dfy`: `Wrappers`, the `Option` type used for results that the
  source turns into a Python exception.
- `vote.dfy`: `Vote`, the majority vote `MostFrequent`, which both
  classifiers use. It also holds the call as written, which always raises
  TypeError (see Findings), and the QR classifier's vote over the payloads
  decoded in its three rounds.
- `colour.dfy`: `ColourClassifier`. It counts the set pixels of the red,
  green and yellow masks inside the central third of the frame, using nested
  loops over `array2<int>` masks. Then it makes the green/yellow/red decision.
  `ColorRecognizer` runs a single round, because the `return` at
  flight2.py:162 sits inside its three-round loop.
- `ledger.dfy`: `Ledger`. `Mission` is a class whose `passed` and `report`
  fields are the source's `passedCoordinates` and `otchetData` lists. Its two
  sweep methods take the classifiers' answers as input sequences. Pure
  functions (`Phase1Rows`, `Flagged`, `Revisit`, `FinalLedger`) specify what
  each sweep builds. Lemmas say what each row holds afterwards.
- `text.dfy`: `Text`, the string operations the report relies on. These are
  joining with a separator, the trailing-separator accumulation, `s[:-1]`,
  Python's `str.split` and `str(n)` with its inverse.
- `report.dfy`: `Report`. `ReportText` defines the report exactly. The method
  `Compile` is the accumulating loop of flight2.py:303-311, proved equal to it.
  Lemmas show that the report reads back into its four lines and its columns.
- `flight.dfy`: `Flight`, the mission end to end (`RunMission`: both sweeps,
  then the report) and the fixed waypoint list.

A waypoint is the pair of strings that Python's `str()` gives for its two
coordinates, and waypoints are compared as those strings. This equality stands
for the source's numeric tuple equality only on lists where rendering is
one-to-one, such as the nine literals of flight2.py:204-212 (see "## Left
out").

The colour decision keeps the source's edge cases:

- When all three central counts are zero, the answer is red (flight2.py:127-128).
- Green wins a tie with yellow or red, and yellow wins a tie with red
  (flight2.py:123-126).
- Only one colour round runs (flight2.py:162).

The second sweep can stop early. When a revisit decodes no payload, the
symbol classifier's `max()` of an empty list raises (flight2.py:278, 80), and
no report is written. The sweep's readings are therefore `Option<string>`.

## Model

| member | source | states |
|---|---|---|
| Vote.MostFrequent | flight2.py:47-49 | the vote returns an element of the non-empty list whose count is at least that of every element; ties go to the earliest element with the largest count |
| Vote.StrictWinner | flight2.py:47-49 | an element counted strictly more often than every other one is the vote's result |
| Vote.AsWrittenNeverVotes | flight2.py:49 | `max(set(arr), arr.count)` as written raises TypeError for every list, while the intended vote returns an element of maximal count for any non-empty list |
| Vote.QRRecognizer | flight2.py:61-80 | the payloads of the three rounds are pooled and voted on; no payload at all gives no answer (max of an empty list raises); otherwise the answer was decoded in some round and has the largest pooled count |
| Vote.MajorityExample | flight2.py:47-49 | two votes for "red" against one for "green" give "red" |
| Vote.TieExample | flight2.py:47-49 | three different votes go to the first one cast |
| Vote.PooledVoteExample | flight2.py:62-80 | payloads are counted across rounds: one seen in two rounds beats one seen in a single round |
| ColourClassifier.CountCentre | flight2.py:112-121 | the three counters equal the number of non-zero cells of each mask in rows [n0/3, n0/3*2) and columns [n1/3, n1/3*2) |
| ColourClassifier.RectCountBound | flight2.py:113-121 | a count over a window is at most the window's area |
| ColourClassifier.CentreCountBound | flight2.py:113-121 | a mask's central count is at most (n0/3)*(n1/3) |
| ColourClassifier.CentreCountIgnoresBorder | flight2.py:113-114 | masks that agree on the central third have equal central counts, whatever lies outside it |
| ColourClassifier.Decide | flight2.py:123-128 | green exactly when its count is maximal and non-zero; yellow exactly when its count is non-zero, beats green and is at least red's; red exactly when all counts are zero or red beats both |
| ColourClassifier.DecideIsPlurality | flight2.py:123-128 | the chosen colour's count is maximal, and it is zero only when all three counts are zero |
| ColourClassifier.ColorRecognizer | flight2.py:88-162 | one round runs, so the answer is the decision on the three central counts of the given masks |
| ColourClassifier.SingleRoundVote | flight2.py:130-132 | the vote over the one round's colour returns that colour |
| Ledger.Phase1Rows | flight2.py:240-249 | the first sweep writes one row per waypoint, in list order, each holding its own waypoint |
| Ledger.Phase1RowsAt | flight2.py:224-250 | after the first sweep, row k holds waypoint k and its marker: red "+", yellow "?", green "-", "Healthy" |
| Ledger.Flagged | flight2.py:240-246 | the revisit queue holds only waypoints of the list |
| Ledger.FlaggedLength | flight2.py:240-246 | the queue holds as many sites as there were red or yellow answers |
| Ledger.FlaggedAt | flight2.py:240-246 | every red or yellow waypoint is queued, at the position given by the number of flagged sites before it |
| Ledger.FlaggedOnly | flight2.py:240-246 | every queued site is a red or yellow waypoint, at the position its rank gives |
| Ledger.RankIncreases | flight2.py:240-246 | the queue keeps the waypoint list's order |
| Ledger.IndexOf | flight2.py:281 | `coordinates.index(p)`: the first position holding p |
| Ledger.Note | flight2.py:280-290 | the note is "COVID - 2019" exactly for the payload "COVID - 19", "Healthy" exactly for "healthy", and "non COVID - 2019" for every other payload |
| Ledger.Answered | flight2.py:271-278 | the revisits done before the first one that decoded nothing: all of them decoded a payload, and the next one, if any, did not |
| Ledger.Revisit | flight2.py:271-290 | the second sweep keeps the number of rows and every row's waypoint |
| Ledger.RevisitAt | flight2.py:280-290 | after the second sweep, row k is its old fields followed by the notes of the revisits that resolve to k; other rows are unchanged |
| Ledger.HitsAfterPhase1 | flight2.py:271-290 | over distinct waypoints, a red or yellow site gets exactly the note of its own payload and a green site gets none |
| Ledger.FinalLedger | flight2.py:224-290 | both sweeps together keep one row per waypoint, in list order, each holding its own waypoint |
| Ledger.MissionLedger | flight2.py:224-290 | after both sweeps, row k holds waypoint k, its marker and, for a red or yellow site, the note for the payload read there; every row has three fields |
| Ledger.Mission.constructor | flight2.py:216-217 | both lists start empty |
| Ledger.Mission.SweepColours | flight2.py:224-252 | the first sweep appends the rows of Phase1Rows and queues the sites of Flagged |
| Ledger.Mission.SweepSymbols | flight2.py:271-293 | the second sweep leaves the queue alone; it completes exactly when every revisit decoded a payload; the rows become Revisit of them over the revisits done before the first one that decoded nothing |
| Text.DropLastTrailing | flight2.py:303-311 | dropping the last character of the fields accumulated with trailing commas gives the fields joined by commas |
| Text.SplitJoin | flight2.py:311 | fields free of the separator, once joined, split back into the same fields |
| Text.DecimalRoundTrip | flight2.py:304 | `str(n)` reads back as n |
| Report.ReportText | flight2.py:301-311 | a report exists exactly when every row has the fields the loop reads; with no rows it is three newlines |
| Report.Compile | flight2.py:301-311 | the report loop and its trimming build exactly ReportText of the rows, and answer None where a row lacks a field the loop reads |
| Report.ReportParses | flight2.py:301-311 | the report of a non-empty complete ledger with clean fields splits at newlines into exactly its four lines, with nothing after the last, and each line splits at commas into its column |
| Report.IndexColumnCounts | flight2.py:304 | the first line numbers the rows 1 to n |
| Report.TwoSiteExample | flight2.py:301-311 | the report of a red site and a green site, written out |
| Flight.WaypointsDistinct | flight2.py:204-212 | no waypoint of the mission's list appears twice, so `coordinates.index` finds each queued site's own row |
| Flight.RunMission | flight2.py:216-311 | when every revisit decoded a payload, running both sweeps and the report gives ReportText of FinalLedger; otherwise no report; over distinct waypoints a report is produced exactly when every revisit decoded a payload |
| Flight.LedgerComplete | flight2.py:303-307 | over distinct waypoints, every final row has the fields the report loop reads |
| Flight.ReportColumns | flight2.py:303-307 | column k of the report holds waypoint k as "x = .. y = ..", the marker of its colour and the note of its payload, or "Healthy" for a green site |
| Flight.WaypointMissionReports | flight2.py:204-311 | over the mission's nine waypoints, once every revisit has decoded a payload, a report is produced whatever the colours and payloads |

## Left out

- ROS service proxies, publishers and subscribers, `Takeoff`, `Land`, `ArucoFlight` and every `rospy.sleep`: these are calls into the flight stack.
- `NavigationWait`: it polls external telemetry and compares a floating-point norm with a tolerance.
- OpenCV work: the frame resize, the HSV conversion, the `inRange` thresholds and the debug images. The three masks are inputs of `ColorRecognizer` and `CountCentre`.
- pyzbar decoding and the camera frames of the QR classifier: each round's decoded payloads are inputs of `QRRecognizer`.
- The LED `set_effect` calls, the status output and the write of `report.csv`: actuators and file I/O. `Compile` returns the text that would be written.
- The second sweep's QR readings are the sweep's inputs. `Flight.RunMission` does not call `QRRecognizer` or `ColorRecognizer`; it takes their answers as inputs, with None where the symbol classifier decoded nothing.
- Vote.MostFrequent: Python resolves a tie in the iteration order of a set, which the language leaves unspecified. The model gives ties to the element that occurs first.
- Ledger.Mission.SweepSymbols: in the source each row's field list is a separate Python list appended in place. The model holds rows as values and replaces the row, so aliasing between rows is not modelled. The source's lists never share rows.
- Ledger.IndexOf: the source's `coordinates.index` compares numeric tuples, and the model compares their `str()` renderings. The two differ where distinct renderings denote equal numbers, as with `0` and `0.0`, or `0.0` and `-0.0`. On a list holding two such waypoints, the model resolves a queued site to a later row than the source does. The nine waypoints of flight2.py:204-212 render one-to-one, so the mission itself is unaffected.

## Findings

| source | as written | input that shows it | evidently intended | confidence | as-written member | corrected member |
|---|---|---|---|---|---|---|
| flight2.py:49 | `max(set(arr), arr.count)` passes `arr.count` as a second positional argument, so `max` compares a set with a bound method and raises TypeError | any list, for example `["red"]` from the first colour round (flight2.py:132) | `max(set(arr), key=arr.count)`: an element with the largest count | high; not executed | Vote.AsWrittenNeverVotes | Vote.MostFrequent |
