/**
 * The colour classifier of flight2.py (ColorRecognizer): it counts the set
 * pixels of three binary masks inside the central third of the frame and
 * names the colour with the largest count. The masks come from OpenCV's
 * colour-range thresholding, which is not part of this model; here they are
 * inputs.
 */
module ColourClassifier {
  import opened Vote

  datatype Colour = Red | Yellow | Green

  /** Number of non-zero cells of row i of m in columns [c0, c1). */
  function RowCount(m: array2<int>, i: nat, c0: nat, c1: nat): nat
    requires i < m.Length0 && c0 <= c1 <= m.Length1
    reads m
    decreases c1 - c0
  {
    if c1 == c0 then 0
    else RowCount(m, i, c0, c1 - 1) + (if m[i, c1 - 1] != 0 then 1 else 0)
  }

  /** Number of non-zero cells of m in rows [r0, r1) and columns [c0, c1). */
  function RectCount(m: array2<int>, r0: nat, r1: nat, c0: nat, c1: nat): nat
    requires r0 <= r1 <= m.Length0 && c0 <= c1 <= m.Length1
    reads m
    decreases r1 - r0
  {
    if r1 == r0 then 0
    else RectCount(m, r0, r1 - 1, c0, c1) + RowCount(m, r1 - 1, c0, c1)
  }

  /** First index of the central third of a dimension of length n: `n // 3`. */
  function CentreStart(n: nat): nat { n / 3 }

  /** End (exclusive) of the central third: `n // 3 * 2`. */
  function CentreEnd(n: nat): (e: nat)
    ensures CentreStart(n) <= e <= n
  {
    n / 3 * 2
  }

  /** Set cells of m whose row and column both lie in the central third. */
  function CentreCount(m: array2<int>): nat
    reads m
  {
    RectCount(m, CentreStart(m.Length0), CentreEnd(m.Length0),
                 CentreStart(m.Length1), CentreEnd(m.Length1))
  }

  /** Every row contributes at most one count per column of the window. */
  lemma {:induction false} RowCountBound(m: array2<int>, i: nat, c0: nat, c1: nat)
    requires i < m.Length0 && c0 <= c1 <= m.Length1
    ensures RowCount(m, i, c0, c1) <= c1 - c0
    decreases c1 - c0
  {
    if c1 > c0 {
      RowCountBound(m, i, c0, c1 - 1);
    }
  }

  /** A count never exceeds the area of its window. */
  lemma {:induction false} RectCountBound(m: array2<int>, r0: nat, r1: nat, c0: nat, c1: nat)
    requires r0 <= r1 <= m.Length0 && c0 <= c1 <= m.Length1
    ensures RectCount(m, r0, r1, c0, c1) <= (r1 - r0) * (c1 - c0)
    decreases r1 - r0
  {
    if r1 > r0 {
      RectCountBound(m, r0, r1 - 1, c0, c1);
      RowCountBound(m, r1 - 1, c0, c1);
      assert (r1 - r0) * (c1 - c0) == (r1 - 1 - r0) * (c1 - c0) + (c1 - c0);
    }
  }

  /** The central count of a mask is at most the area of the central third. */
  lemma CentreCountBound(m: array2<int>)
    ensures CentreCount(m) <= (m.Length0 / 3) * (m.Length1 / 3)
  {
    RectCountBound(m, CentreStart(m.Length0), CentreEnd(m.Length0),
                      CentreStart(m.Length1), CentreEnd(m.Length1));
  }

  /** Two masks whose cells are set alike inside a window count alike on it. */
  predicate SameInRect(a: array2<int>, b: array2<int>, r0: nat, r1: nat, c0: nat, c1: nat)
    requires r1 <= a.Length0 && r1 <= b.Length0 && c1 <= a.Length1 && c1 <= b.Length1
    reads a, b
  {
    forall i, j :: r0 <= i < r1 && c0 <= j < c1 ==> (a[i, j] != 0 <==> b[i, j] != 0)
  }

  lemma {:induction false} RowCountLocal(a: array2<int>, b: array2<int>, i: nat, c0: nat, c1: nat)
    requires i < a.Length0 && i < b.Length0 && c0 <= c1 <= a.Length1 && c1 <= b.Length1
    requires forall j :: c0 <= j < c1 ==> (a[i, j] != 0 <==> b[i, j] != 0)
    ensures RowCount(a, i, c0, c1) == RowCount(b, i, c0, c1)
    decreases c1 - c0
  {
    if c1 > c0 {
      RowCountLocal(a, b, i, c0, c1 - 1);
    }
  }

  lemma {:induction false} RectCountLocal(a: array2<int>, b: array2<int>, r0: nat, r1: nat, c0: nat, c1: nat)
    requires r0 <= r1 <= a.Length0 && r1 <= b.Length0 && c0 <= c1 <= a.Length1 && c1 <= b.Length1
    requires SameInRect(a, b, r0, r1, c0, c1)
    ensures RectCount(a, r0, r1, c0, c1) == RectCount(b, r0, r1, c0, c1)
    decreases r1 - r0
  {
    if r1 > r0 {
      RectCountLocal(a, b, r0, r1 - 1, c0, c1);
      RowCountLocal(a, b, r1 - 1, c0, c1);
    }
  }

  /**
   * Only the central third counts: two masks of the same shape that agree on
   * which central cells are set have the same central count, whatever lies
   * outside the centre.
   */
  lemma CentreCountIgnoresBorder(a: array2<int>, b: array2<int>)
    requires a.Length0 == b.Length0 && a.Length1 == b.Length1
    requires SameInRect(a, b, CentreStart(a.Length0), CentreEnd(a.Length0),
                              CentreStart(a.Length1), CentreEnd(a.Length1))
    ensures CentreCount(a) == CentreCount(b)
  {
    RectCountLocal(a, b, CentreStart(a.Length0), CentreEnd(a.Length0),
                         CentreStart(a.Length1), CentreEnd(a.Length1));
  }

  /**
   * The counting loops of flight2.py:112-121. The window is taken from the
   * green mask's dimensions, as in the source; the three masks come from one
   * image and share its shape.
   */
  method CountCentre(red: array2<int>, green: array2<int>, yellow: array2<int>)
    returns (gre: nat, yel: nat, rd: nat)
    requires red.Length0 == green.Length0 == yellow.Length0
    requires red.Length1 == green.Length1 == yellow.Length1
    ensures gre == CentreCount(green)
    ensures yel == CentreCount(yellow)
    ensures rd == CentreCount(red)
  {
    gre, yel, rd := 0, 0, 0;
    var r0, r1 := green.Length0 / 3, green.Length0 / 3 * 2;
    var c0, c1 := green.Length1 / 3, green.Length1 / 3 * 2;
    for i := r0 to r1
      invariant gre == RectCount(green, r0, i, c0, c1)
      invariant yel == RectCount(yellow, r0, i, c0, c1)
      invariant rd == RectCount(red, r0, i, c0, c1)
    {
      for i1 := c0 to c1
        invariant gre == RectCount(green, r0, i, c0, c1) + RowCount(green, i, c0, i1)
        invariant yel == RectCount(yellow, r0, i, c0, c1) + RowCount(yellow, i, c0, i1)
        invariant rd == RectCount(red, r0, i, c0, c1) + RowCount(red, i, c0, i1)
      {
        if green[i, i1] != 0 {
          gre := gre + 1;
        }
        if red[i, i1] != 0 {
          rd := rd + 1;
        }
        if yellow[i, i1] != 0 {
          yel := yel + 1;
        }
      }
    }
  }

  /** Python's max(a, b, c). */
  function Max3(a: nat, b: nat, c: nat): nat
  {
    if a >= b && a >= c then a else if b >= c then b else c
  }

  /**
   * The decision of flight2.py:123-128: green when its count is the largest
   * and non-zero, else yellow when its count is the largest and non-zero,
   * else red, which includes the case where all three counts are zero.
   */
  function Decide(gre: nat, yel: nat, red: nat): (c: Colour)
    ensures c == Green <==> gre != 0 && gre >= yel && gre >= red
    ensures c == Yellow <==> yel != 0 && yel > gre && yel >= red
    ensures c == Red <==> (gre == 0 && yel == 0 && red == 0) || (red > gre && red > yel)
  {
    var top := Max3(gre, yel, red);
    if top == gre && gre != 0 then Green
    else if top == yel && yel != 0 then Yellow
    else Red
  }

  /** The count that the decision compares for colour c. */
  function CountOf(c: Colour, gre: nat, yel: nat, red: nat): nat
  {
    match c
    case Green => gre
    case Yellow => yel
    case Red => red
  }

  /**
   * The decision names a colour with the largest count, and that count is
   * non-zero unless all three are zero.
   */
  lemma DecideIsPlurality(gre: nat, yel: nat, red: nat)
    ensures var c := Decide(gre, yel, red);
      CountOf(c, gre, yel, red) >= gre && CountOf(c, gre, yel, red) >= yel
      && CountOf(c, gre, yel, red) >= red
      && (CountOf(c, gre, yel, red) == 0 <==> gre == 0 && yel == 0 && red == 0)
  {
  }

  /**
   * ColorRecognizer (flight2.py:88-162) on the masks of one frame. Its loop
   * announces three rounds, but the `return` at flight2.py:162 sits inside
   * the loop body, so exactly one round runs and the vote is over a single
   * colour.
   */
  method ColorRecognizer(red: array2<int>, green: array2<int>, yellow: array2<int>)
    returns (colour: Colour)
    requires red.Length0 == green.Length0 == yellow.Length0
    requires red.Length1 == green.Length1 == yellow.Length1
    ensures colour == Decide(CentreCount(green), CentreCount(yellow), CentreCount(red))
  {
    var result: seq<Colour> := [];
    var gre, yel, rd := CountCentre(red, green, yellow);
    colour := Decide(gre, yel, rd);
    result := result + [colour];
    colour := MostFrequent(result);
  }

  /** A single-round vote returns that round's colour. */
  lemma SingleRoundVote(c: Colour)
    ensures MostFrequent([c]) == c
  {
  }
}
