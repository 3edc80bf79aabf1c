/**
 * The string operations the report compiler of flight2.py relies on:
 * joining fields with a separator, Python's str.split, dropping the last
 * character (`s[:-1]`) and rendering a natural number in decimal (`str(n)`).
 */
module Text {

  /** items with sep between each two neighbours. */
  function Join(items: seq<string>, sep: char): string
    decreases |items|
  {
    if |items| == 0 then ""
    else if |items| == 1 then items[0]
    else Join(items[..|items| - 1], sep) + [sep] + items[|items| - 1]
  }

  /** Each item followed by sep: the strings the report loop accumulates. */
  function Trailing(items: seq<string>, sep: char): (s: string)
    ensures items != [] ==> |s| > 0 && s[|s| - 1] == sep
  {
    if items == [] then "" else Trailing(items[..|items| - 1], sep) + items[|items| - 1] + [sep]
  }

  /** Python's `s[:-1]`, which leaves the empty string empty. */
  function DropLast(s: string): string
  {
    if s == "" then s else s[..|s| - 1]
  }

  /** Dropping the trailing separator of the accumulated fields leaves them joined. */
  lemma {:induction false} DropLastTrailing(items: seq<string>, sep: char)
    ensures DropLast(Trailing(items, sep)) == Join(items, sep)
    decreases |items|
  {
    if items != [] {
      var n := |items|;
      var front := Trailing(items[..n - 1], sep);
      assert Trailing(items, sep) == front + items[n - 1] + [sep];
      if n > 1 {
        DropLastTrailing(items[..n - 1], sep);
        assert front == front[..|front| - 1] + [sep];
      }
    }
  }

  /** Python's `s.split(sep)` for a one-character separator. */
  function Split(s: string, sep: char): (parts: seq<string>)
    ensures |parts| >= 1
  {
    if s == "" then [""]
    else
      var rest := Split(s[1..], sep);
      if s[0] == sep then [""] + rest
      else [[s[0]] + rest[0]] + rest[1..]
  }

  /** A string without the separator splits into itself. */
  lemma {:induction false} SplitNoSep(s: string, sep: char)
    requires sep !in s
    ensures Split(s, sep) == [s]
  {
    if s != "" {
      assert s[0] != sep && [s[0]] + s[1..] == s;
      SplitNoSep(s[1..], sep);
    }
  }

  /** A final field after a separator becomes the last part. */
  lemma {:induction false} SplitAppend(a: string, b: string, sep: char)
    requires sep !in b
    ensures Split(a + [sep] + b, sep) == Split(a, sep) + [b]
  {
    if a == "" {
      assert a + [sep] + b == [sep] + b;
      assert ([sep] + b)[1..] == b;
      SplitNoSep(b, sep);
    } else {
      SplitAppend(a[1..], b, sep);
      assert (a + [sep] + b)[1..] == a[1..] + [sep] + b;
    }
  }

  /** Splitting joined fields that avoid the separator gives the fields back. */
  lemma {:induction false} SplitJoin(items: seq<string>, sep: char)
    requires |items| >= 1
    requires forall i :: 0 <= i < |items| ==> sep !in items[i]
    ensures Split(Join(items, sep), sep) == items
    decreases |items|
  {
    var n := |items|;
    if n == 1 {
      SplitNoSep(items[0], sep);
    } else {
      SplitJoin(items[..n - 1], sep);
      SplitAppend(Join(items[..n - 1], sep), items[n - 1], sep);
    }
  }

  /** Joining fields that avoid a character, with another separator, avoids it too. */
  lemma {:induction false} JoinAvoids(items: seq<string>, sep: char, c: char)
    requires c != sep
    requires forall i :: 0 <= i < |items| ==> c !in items[i]
    ensures c !in Join(items, sep)
    decreases |items|
  {
    if |items| > 1 {
      JoinAvoids(items[..|items| - 1], sep, c);
    }
  }

  predicate IsDigit(ch: char)
  {
    '0' <= ch <= '9'
  }

  /** Python's `str(n)` for a natural number. */
  function Decimal(n: nat): (s: string)
    ensures |s| >= 1
    ensures forall i :: 0 <= i < |s| ==> IsDigit(s[i])
  {
    if n < 10 then [('0' as int + n) as char]
    else Decimal(n / 10) + [('0' as int + n % 10) as char]
  }

  /** The value of a string of decimal digits. */
  function ParseDecimal(s: string): nat
    requires forall i :: 0 <= i < |s| ==> IsDigit(s[i])
  {
    if s == "" then 0
    else
      assert IsDigit(s[|s| - 1]);
      10 * ParseDecimal(s[..|s| - 1]) + (s[|s| - 1] as int - '0' as int)
  }

  /** Reading back a rendered number gives the number. */
  lemma {:induction false} DecimalRoundTrip(n: nat)
    ensures ParseDecimal(Decimal(n)) == n
  {
    if n >= 10 {
      var s := Decimal(n);
      assert s[..|s| - 1] == Decimal(n / 10);
      DecimalRoundTrip(n / 10);
    }
  }
}
