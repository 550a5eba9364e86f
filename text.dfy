/** The few JavaScript string operations the chess helpers rely on:
    converting a non-negative number to its decimal text (template literals
    and `String(n)`), and `split(' ')` / `slice(0, n)` / `join(' ')` on
    space-separated text. */
module Text {

  predicate IsDigit(c: char) {
    '0' <= c <= '9'
  }

  predicate AllDigits(s: string) {
    forall i :: 0 <= i < |s| ==> IsDigit(s[i])
  }

  function DigitChar(d: nat): (c: char)
    requires d < 10
    ensures IsDigit(c) && c as int - '0' as int == d
  {
    ('0' as int + d) as char
  }

  /** The decimal text JavaScript produces for a non-negative integer. */
  function Decimal(n: nat): (s: string)
    ensures |s| >= 1 && AllDigits(s)
    ensures n < 10 <==> |s| == 1
    ensures n > 0 ==> s[0] != '0'
    decreases n
  {
    if n < 10 then [DigitChar(n)] else Decimal(n / 10) + [DigitChar(n % 10)]
  }

  /** The value of a string of decimal digits; the reading direction of Decimal. */
  function DecimalValue(s: string): nat
    requires AllDigits(s)
    decreases |s|
  {
    if |s| == 0 then 0
    else 10 * DecimalValue(s[..|s| - 1]) + (s[|s| - 1] as int - '0' as int)
  }

  lemma {:induction false} DecimalRoundTrip(n: nat)
    ensures DecimalValue(Decimal(n)) == n
    decreases n
  {
    if n >= 10 {
      DecimalRoundTrip(n / 10);
      var s := Decimal(n);
      assert s[..|s| - 1] == Decimal(n / 10);
    }
  }

  /** The longest prefix of `s` made only of digits. */
  function DigitPrefix(s: string): (p: string)
    ensures |p| <= |s| && p == s[..|p|] && AllDigits(p)
    ensures |p| < |s| ==> !IsDigit(s[|p|])
    decreases |s|
  {
    if |s| == 0 || !IsDigit(s[0]) then "" else [s[0]] + DigitPrefix(s[1..])
  }

  lemma {:induction false} DigitPrefixOfConcat(d: string, rest: string)
    requires AllDigits(d)
    requires rest == [] || !IsDigit(rest[0])
    ensures DigitPrefix(d + rest) == d
    decreases |d|
  {
    if |d| > 0 {
      assert (d + rest)[1..] == d[1..] + rest;
      DigitPrefixOfConcat(d[1..], rest);
    } else {
      assert d + rest == rest;
    }
  }

  predicate NoSpace(s: string) {
    forall i :: 0 <= i < |s| ==> s[i] != ' '
  }

  predicate AllNoSpace(parts: seq<string>) {
    forall i :: 0 <= i < |parts| ==> NoSpace(parts[i])
  }

  /** JavaScript's `s.split(' ')`: the pieces between single spaces, so
      there is always at least one piece (`"".split(' ')` is `[""]`) and
      no piece holds a space. */
  function Split(s: string): (parts: seq<string>)
    ensures |parts| >= 1 && AllNoSpace(parts)
    decreases |s|
  {
    if |s| == 0 then [""]
    else if s[0] == ' ' then [""] + Split(s[1..])
    else
      var rest := Split(s[1..]);
      [[s[0]] + rest[0]] + rest[1..]
  }

  /** JavaScript's `parts.join(' ')`. */
  function Join(parts: seq<string>): string
    decreases |parts|
  {
    if |parts| == 0 then ""
    else if |parts| == 1 then parts[0]
    else parts[0] + " " + Join(parts[1..])
  }

  /** JavaScript's `parts.slice(0, n)`. */
  function Take(parts: seq<string>, n: nat): (r: seq<string>)
    ensures |r| == if |parts| <= n then |parts| else n
    ensures r == parts[..|r|]
  {
    if |parts| <= n then parts else parts[..n]
  }

  /** Joining the pieces of a split gives back the text. */
  lemma {:induction false} JoinSplit(s: string)
    ensures Join(Split(s)) == s
    decreases |s|
  {
    if |s| > 0 {
      JoinSplit(s[1..]);
      var rest := Split(s[1..]);
      if s[0] == ' ' {
        assert Split(s)[1..] == rest;
      } else if |rest| > 1 {
        assert Split(s)[1..] == rest[1..];
        assert Join(rest) == rest[0] + " " + Join(rest[1..]);
      }
    }
  }

  lemma {:induction false} SplitAfterWord(w: string, s: string)
    requires NoSpace(w)
    ensures Split(w + s) == [w + Split(s)[0]] + Split(s)[1..]
    decreases |w|
  {
    if |w| > 0 {
      assert (w + s)[1..] == w[1..] + s;
      SplitAfterWord(w[1..], s);
      assert [w[0]] + (w[1..] + Split(s)[0]) == w + Split(s)[0];
    } else {
      var parts := Split(s);
      assert w + s == s && w + parts[0] == parts[0];
      assert parts == [parts[0]] + parts[1..];
    }
  }

  /** Splitting space-free pieces joined with spaces gives back the pieces. */
  lemma {:induction false} SplitJoin(parts: seq<string>)
    requires |parts| >= 1 && AllNoSpace(parts)
    ensures Split(Join(parts)) == parts
    decreases |parts|
  {
    if |parts| == 1 {
      SplitAfterWord(parts[0], "");
      assert parts[0] + "" == parts[0];
    } else {
      var j := Join(parts[1..]);
      SplitJoin(parts[1..]);
      assert (" " + j)[1..] == j;
      assert Split(" " + j) == [""] + parts[1..];
      assert parts[0] + " " + j == parts[0] + (" " + j);
      SplitAfterWord(parts[0], " " + j);
      assert parts[0] + "" == parts[0];
    }
  }

  lemma {:induction false} JoinAppend(a: seq<string>, b: seq<string>)
    requires |a| >= 1 && |b| >= 1
    ensures Join(a + b) == Join(a) + " " + Join(b)
    decreases |a|
  {
    if |a| == 1 {
      assert (a + b)[1..] == b;
    } else {
      assert (a + b)[1..] == a[1..] + b;
      JoinAppend(a[1..], b);
    }
  }
}
