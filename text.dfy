/**
 * String helpers behind the filename parser and the report writer:
 * .NET's `String.Split(char)`, prefix/suffix tests, decimal rendering of a
 * count and the line layout a `StreamWriter.WriteLine` sequence produces.
 */
module Text {

  /** The line terminator `WriteLine` appends (the platform newline, taken as "\n"). */
  const NEW_LINE: string := "\n"

  /**
   * `s.Split(sep)`: the pieces between occurrences of `sep`, empty pieces
   * kept, so there is always at least one piece.
   */
  function Split(s: string, sep: char): (r: seq<string>)
    ensures |r| >= 1
    ensures |r| >= 2 <==> sep in s
    ensures forall i :: 0 <= i < |r| ==> sep !in r[i]
    ensures forall i, c :: 0 <= i < |r| && c in r[i] ==> c in s
    decreases |s|
  {
    if |s| == 0 then [""]
    else
      var rest := Split(s[1..], sep);
      assert s == [s[0]] + s[1..];
      if s[0] == sep then [""] + rest
      else [[s[0]] + rest[0]] + rest[1..]
  }

  /** The longest prefix of `s` holding no character of `stops`. */
  function Before(s: string, stops: set<char>): (r: string)
    ensures |r| <= |s| && r == s[..|r|]
    ensures forall c :: c in r ==> c !in stops
    ensures |r| < |s| ==> s[|r|] in stops
  {
    if s == [] || s[0] in stops then "" else [s[0]] + Before(s[1..], stops)
  }

  /** Index of the first occurrence of `c` in `s`. */
  function IndexOf(s: string, c: char): (k: nat)
    requires c in s
    ensures k < |s| && s[k] == c
    ensures c !in s[..k]
  {
    if s[0] == c then 0
    else
      assert c in s[1..] by { assert s == [s[0]] + s[1..]; }
      var k := 1 + IndexOf(s[1..], c);
      assert s[..k] == [s[0]] + s[1..][..k - 1];
      k
  }

  predicate StartsWith(s: string, prefix: string) {
    |prefix| <= |s| && s[..|prefix|] == prefix
  }

  predicate EndsWith(s: string, suffix: string) {
    |suffix| <= |s| && s[|s| - |suffix|..] == suffix
  }

  /** The first piece of a split is the text before the first separator. */
  lemma {:induction false} SplitHead(s: string, sep: char)
    ensures Split(s, sep)[0] == Before(s, {sep})
    decreases |s|
  {
    if |s| > 0 && s[0] != sep {
      SplitHead(s[1..], sep);
    }
  }

  /** The pieces after the first are the split of the text after the first separator. */
  lemma {:induction false} SplitTail(s: string, sep: char)
    requires sep in s
    ensures Split(s, sep)[1..] == Split(s[IndexOf(s, sep) + 1..], sep)
    decreases |s|
  {
    if s[0] != sep {
      assert sep in s[1..] by { assert s == [s[0]] + s[1..]; }
      SplitTail(s[1..], sep);
      assert s[IndexOf(s, sep) + 1..] == s[1..][IndexOf(s[1..], sep) + 1..];
    }
  }

  /** Splitting text that starts with a separator-free piece and a separator peels that piece off. */
  lemma {:induction false} SplitAfter(a: string, sep: char, b: string)
    requires sep !in a
    ensures Split(a + [sep] + b, sep) == [a] + Split(b, sep)
    decreases |a|
  {
    var s := a + [sep] + b;
    if a == [] {
      assert s[1..] == b;
    } else {
      assert s[1..] == a[1..] + [sep] + b;
      SplitAfter(a[1..], sep, b);
      assert [a[0]] + a[1..] == a;
    }
  }

  /** Cutting at `stops`, then at `more`, is cutting at both. */
  lemma {:induction false} BeforeBefore(s: string, stops: set<char>, more: set<char>)
    ensures Before(Before(s, stops), more) == Before(s, stops + more)
  {
    if s != [] && s[0] !in stops && s[0] !in more {
      BeforeBefore(s[1..], stops, more);
      assert Before(s, stops)[1..] == Before(s[1..], stops);
    }
  }

  /** A piece free of `stops` followed by a stop character is exactly what `Before` returns. */
  lemma {:induction false} BeforeAppend(a: string, x: char, b: string, stops: set<char>)
    requires forall c :: c in a ==> c !in stops
    requires x in stops
    ensures Before(a + [x] + b, stops) == a
  {
    if a != [] {
      assert (a + [x] + b)[1..] == a[1..] + [x] + b;
      BeforeAppend(a[1..], x, b, stops);
      assert [a[0]] + a[1..] == a;
    }
  }

  /** The first separator after a separator-free prefix sits right after that prefix. */
  lemma {:induction false} IndexOfAppend(a: string, c: char, b: string)
    requires c !in a
    ensures c in a + [c] + b && IndexOf(a + [c] + b, c) == |a|
  {
    var s := a + [c] + b;
    assert s[|a|] == c;
    if a != [] {
      assert s[1..] == a[1..] + [c] + b;
      IndexOfAppend(a[1..], c, b);
    }
  }

  /** Decimal digit for 0..9. */
  function Digit(d: nat): (c: char)
    requires d < 10
    ensures '0' <= c <= '9'
  {
    ('0' as int + d) as char
  }

  /** Value of a decimal digit (0 for any other character). */
  function DigitValue(c: char): (d: nat)
    ensures d < 10
  {
    if '0' <= c <= '9' then c as int - '0' as int else 0
  }

  /** `n.ToString()` for a non-negative count: decimal digits, no sign, no leading zeros. */
  function DecimalString(n: nat): (s: string)
    ensures |s| >= 1
    ensures forall i :: 0 <= i < |s| ==> '0' <= s[i] <= '9'
    ensures |s| > 1 ==> s[0] != '0'
  {
    if n < 10 then [Digit(n)] else DecimalString(n / 10) + [Digit(n % 10)]
  }

  /** Reads a string of decimal digits back as a number. */
  function DecimalValue(s: string): nat {
    if s == [] then 0 else DecimalValue(s[..|s| - 1]) * 10 + DigitValue(s[|s| - 1])
  }

  /** The rendered count reads back as the same number. */
  lemma {:induction false} DecimalRoundTrip(n: nat)
    ensures DecimalValue(DecimalString(n)) == n
  {
    if n >= 10 {
      var s := DecimalString(n);
      assert s[..|s| - 1] == DecimalString(n / 10);
      DecimalRoundTrip(n / 10);
    }
  }

  /** The text a `WriteLine` per element produces: every line followed by the terminator. */
  function Lines(ls: seq<string>): (r: string)
    ensures |r| >= |ls|
    ensures ls != [] ==> r[|r| - 1] == '\n'
  {
    if ls == [] then "" else Lines(ls[..|ls| - 1]) + ls[|ls| - 1] + NEW_LINE
  }

  lemma LinesSnoc(ls: seq<string>, x: string)
    ensures Lines(ls + [x]) == Lines(ls) + x + NEW_LINE
  {
    assert (ls + [x])[..|ls|] == ls;
  }

  lemma LinesPair(a: string, b: string)
    ensures Lines([a, b]) == a + NEW_LINE + b + NEW_LINE
  {
    LinesSnoc([], a);
    assert [] + [a] == [a];
    LinesSnoc([a], b);
    assert [a] + [b] == [a, b];
    assert Lines([]) + a == a;
  }

  lemma {:induction false} LinesCons(x: string, ls: seq<string>)
    ensures Lines([x] + ls) == x + NEW_LINE + Lines(ls)
    decreases |ls|
  {
    if ls != [] {
      var n := |ls|;
      assert ([x] + ls)[..n] == [x] + ls[..n - 1];
      LinesCons(x, ls[..n - 1]);
    }
  }

  /**
   * Splitting the written text at the terminator gives the lines back
   * (and the empty remainder after the last terminator), provided no line
   * holds a terminator itself.
   */
  lemma {:induction false} SplitLines(ls: seq<string>)
    requires forall i :: 0 <= i < |ls| ==> '\n' !in ls[i]
    ensures Split(Lines(ls), '\n') == ls + [""]
    decreases |ls|
  {
    if ls != [] {
      LinesCons(ls[0], ls[1..]);
      assert [ls[0]] + ls[1..] == ls;
      SplitAfter(ls[0], '\n', Lines(ls[1..]));
      SplitLines(ls[1..]);
    }
  }
}
