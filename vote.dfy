/**
 * Majority vote shared by the colour and the symbol classifiers of flight2.py
 * (MostFrequent), and the symbol classifier's pooling of detections over its
 * three sampling rounds (QRRecognizer).
 */
module Vote {
  import opened Wrappers

  /** How often x occurs in s: Python's list.count. */
  function Occurrences<T(==)>(s: seq<T>, x: T): nat
  {
    multiset(s)[x]
  }

  /**
   * Left-to-right scan from position i, where best is the first position of
   * arr[..i] whose element occurs most often in the whole of arr.
   */
  function ScanBest<T(==)>(arr: seq<T>, i: nat, best: nat): (k: nat)
    requires best < i <= |arr|
    requires forall j :: 0 <= j < i ==> Occurrences(arr, arr[j]) <= Occurrences(arr, arr[best])
    requires forall j :: 0 <= j < best ==> Occurrences(arr, arr[j]) < Occurrences(arr, arr[best])
    ensures k < |arr|
    ensures forall j :: 0 <= j < |arr| ==> Occurrences(arr, arr[j]) <= Occurrences(arr, arr[k])
    ensures forall j :: 0 <= j < k ==> Occurrences(arr, arr[j]) < Occurrences(arr, arr[k])
    decreases |arr| - i
  {
    if i == |arr| then best
    else if Occurrences(arr, arr[i]) > Occurrences(arr, arr[best]) then ScanBest(arr, i + 1, i)
    else ScanBest(arr, i + 1, best)
  }

  /**
   * The most frequently occurring element of a non-empty sequence: an element
   * of arr whose count is at least that of every element of arr. Python leaves
   * ties to the iteration order of a set; this model resolves them in favour
   * of the element that occurs first in arr.
   */
  function MostFrequent<T(==)>(arr: seq<T>): (r: T)
    requires |arr| > 0
    ensures r in arr
    ensures forall x :: x in arr ==> Occurrences(arr, x) <= Occurrences(arr, r)
    ensures exists k :: 0 <= k < |arr| && arr[k] == r &&
                        forall j :: 0 <= j < k ==> Occurrences(arr, arr[j]) < Occurrences(arr, r)
  {
    arr[ScanBest(arr, 1, 0)]
  }

  /** An element that occurs strictly more often than every other one wins the vote. */
  lemma StrictWinner<T>(arr: seq<T>, w: T)
    requires w in arr
    requires forall x :: x in arr && x != w ==> Occurrences(arr, x) < Occurrences(arr, w)
    ensures MostFrequent(arr) == w
  {
  }

  /** Two votes against one win: the colour classifier's list of answers, as strings. */
  lemma MajorityExample()
    ensures MostFrequent(["red", "red", "green"]) == "red"
  {
    var s := ["red", "red", "green"];
    assert multiset(s) == multiset{"red", "red", "green"};
    StrictWinner(s, "red");
  }

  /** Three distinct votes go to the first one cast. */
  lemma TieExample()
    ensures MostFrequent(["red", "green", "yellow"]) == "red"
  {
  }

  /*
   * The vote as flight2.py:49 writes it: `max(set(arr), arr.count)` passes the
   * bound method `arr.count` as a second positional argument instead of as
   * `key=`, so Python's two-argument max compares a set with a method. Python
   * orders sets only against sets (Python 2.7 raises "can only compare to a
   * set", Python 3 finds no ordering), so the call raises TypeError.
   */

  /** The two values the as-written call hands to max. */
  datatype PyValue<T> = PySet(elems: set<T>) | PyBoundMethod

  datatype PyOutcome<T> = Returned(value: T) | TypeError

  /** Python's `max(a, b)`: evaluates `b > a`; only two sets can be ordered. */
  function PyMax2<T>(a: PyValue<T>, b: PyValue<T>): PyOutcome<PyValue<T>>
  {
    if a.PySet? && b.PySet? then
      (if b.elems > a.elems then Returned(b) else Returned(a))
    else TypeError
  }

  /** flight2.py:49 as written. */
  function MostFrequentAsWritten<T>(arr: seq<T>): PyOutcome<PyValue<T>>
  {
    PyMax2(PySet(set x | x in arr), PyBoundMethod)
  }

  /** As written, no argument produces a vote: every call raises TypeError. */
  lemma AsWrittenNeverVotes<T>(arr: seq<T>)
    ensures MostFrequentAsWritten(arr) == TypeError
    ensures |arr| > 0 ==> forall x :: x in arr ==> Occurrences(arr, x) <= Occurrences(arr, MostFrequent(arr))
  {
  }

  /** The payloads of all rounds, in the order they were decoded (flight2.py:62-75). */
  function Flatten<T>(rounds: seq<seq<T>>): (flat: seq<T>)
    ensures |rounds| > 0 ==> |flat| >= |rounds[|rounds| - 1]|
  {
    if rounds == [] then [] else Flatten(rounds[..|rounds| - 1]) + rounds[|rounds| - 1]
  }

  /** Flattening a longer prefix of the rounds appends the next round. */
  lemma FlattenStep<T>(rounds: seq<seq<T>>, i: nat)
    requires i < |rounds|
    ensures Flatten(rounds[..i + 1]) == Flatten(rounds[..i]) + rounds[i]
  {
    assert rounds[..i + 1][..i] == rounds[..i];
  }

  /** Three rounds flatten to their concatenation. */
  lemma FlattenThree<T>(rounds: seq<seq<T>>)
    requires |rounds| == 3
    ensures Flatten(rounds) == rounds[0] + rounds[1] + rounds[2]
  {
    FlattenStep(rounds, 0);
    FlattenStep(rounds, 1);
    FlattenStep(rounds, 2);
    assert rounds[..0] == [];
    assert rounds[..3] == rounds;
  }

  /** Every payload of the three rounds, counted together. */
  function Tally<T>(rounds: seq<seq<T>>): multiset<T>
    requires |rounds| == 3
  {
    multiset(rounds[0]) + multiset(rounds[1]) + multiset(rounds[2])
  }

  /**
   * The symbol classifier's vote (flight2.py:61-80) over the payloads decoded
   * in each of its three rounds. The decoded payloads are strings, never None,
   * so the None filter keeps them all. With no payload at all, max() of an
   * empty set raises ValueError: the model answers None.
   */
  method QRRecognizer<T(==)>(rounds: seq<seq<T>>) returns (r: Option<T>)
    requires |rounds| == 3
    ensures r.None? <==> rounds[0] == [] && rounds[1] == [] && rounds[2] == []
    ensures r.Some? ==> r.value in rounds[0] || r.value in rounds[1] || r.value in rounds[2]
    ensures r.Some? ==> forall x :: Tally(rounds)[x] <= Tally(rounds)[r.value]
  {
    var arr: seq<T> := [];
    for round := 0 to 3
      invariant arr == Flatten(rounds[..round])
    {
      var barcodes := rounds[round];
      for b := 0 to |barcodes|
        invariant arr == Flatten(rounds[..round]) + barcodes[..b]
      {
        arr := arr + [barcodes[b]];
      }
      assert barcodes[..|barcodes|] == barcodes;
      FlattenStep(rounds, round);
    }
    assert rounds[..3] == rounds;
    FlattenThree(rounds);
    if arr == [] {
      r := None;
    } else {
      var winner := MostFrequent(arr);
      TallyIsCount(rounds, arr, winner);
      r := Some(winner);
    }
  }

  /** A winner of the vote over the pooled payloads has a maximal pooled count. */
  lemma TallyIsCount<T>(rounds: seq<seq<T>>, arr: seq<T>, winner: T)
    requires |rounds| == 3 && arr == rounds[0] + rounds[1] + rounds[2]
    requires forall x :: x in arr ==> Occurrences(arr, x) <= Occurrences(arr, winner)
    ensures forall x :: Tally(rounds)[x] <= Tally(rounds)[winner]
  {
    assert multiset(arr) == Tally(rounds);
    forall x ensures Tally(rounds)[x] <= Tally(rounds)[winner] {
      if x !in arr {
        assert multiset(arr)[x] == 0;
      }
    }
  }

  /**
   * Detections are pooled over the rounds before the vote: a payload seen once
   * in each of two rounds beats one seen in a single round.
   */
  lemma PooledVoteExample()
    ensures MostFrequent(Flatten([["A"], [], ["A", "B"]])) == "A"
  {
    var flat := Flatten([["A"], [], ["A", "B"]]);
    FlattenThree([["A"], [], ["A", "B"]]);
    assert flat == ["A", "A", "B"];
    assert Occurrences(flat, "A") == 2;
    assert Occurrences(flat, "B") == 1;
    StrictWinner(flat, "A");
  }
}
