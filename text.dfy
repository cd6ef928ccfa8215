/**
 * Decimal rendering and parsing of integers and splitting of strings, as the
 * source uses them: `long.ToString()`, `long.Parse`, `int.Parse` and
 * `string.Split(string)`.
 */
module Text {
  import opened Optional

  predicate IsDigit(c: char) {
    '0' <= c <= '9'
  }

  predicate AllDigits(s: string) {
    forall i :: 0 <= i < |s| ==> IsDigit(s[i])
  }

  function DigitChar(d: nat): (c: char)
    requires d < 10
    ensures IsDigit(c)
  {
    (('0' as int) + d) as char
  }

  function DigitValue(c: char): (d: nat)
    requires IsDigit(c)
    ensures d < 10
  {
    (c as int) - ('0' as int)
  }

  /** Shortest decimal rendering of a natural number: no sign, no leading zero. */
  function NatToString(n: nat): (s: string)
    ensures |s| > 0 && AllDigits(s)
    decreases n
  {
    if n < 10 then [DigitChar(n)] else NatToString(n / 10) + [DigitChar(n % 10)]
  }

  /** `long.ToString()`: a leading '-' for negative numbers, then the digits. */
  function IntToString(i: int): (s: string)
    ensures |s| > 0
    ensures s[0] == '-' <==> i < 0
    ensures forall k :: 0 <= k < |s| ==> s[k] == '-' || IsDigit(s[k])
  {
    if i < 0 then "-" + NatToString(-i) else NatToString(i)
  }

  /** The number a non-empty run of digits denotes, read most significant digit first. */
  function DigitsValue(s: string): nat
    requires AllDigits(s)
  {
    if s == [] then 0 else DigitsValue(s[..|s| - 1]) * 10 + DigitValue(s[|s| - 1])
  }

  function ParseNat(s: string): Option<nat> {
    if |s| > 0 && AllDigits(s) then Some(DigitsValue(s)) else None
  }

  /**
   * `long.Parse` / `int.Parse` on an optional '-' followed by digits; None
   * stands for the FormatException (or ArgumentNullException) the source throws.
   */
  function ParseInt(s: string): (r: Option<int>)
    ensures r.Some? ==> |s| > 0
  {
    if |s| > 0 && s[0] == '-' then
      match ParseNat(s[1..])
      case Some(n) => var v: int := n; Some(-v)
      case None => None
    else
      match ParseNat(s)
      case Some(n) => Some(n)
      case None => None
  }

  /** `int.Parse`: as ParseInt, and an OverflowException outside the 32-bit range. */
  function ParseInt32(s: string): (r: Option<int>)
    ensures r.Some? ==> ParseInt(s) == r && -0x8000_0000 <= r.value < 0x8000_0000
    ensures ParseInt(s).Some? && -0x8000_0000 <= ParseInt(s).value < 0x8000_0000 ==> r == ParseInt(s)
  {
    match ParseInt(s)
    case Some(v) => if -0x8000_0000 <= v < 0x8000_0000 then Some(v) else None
    case None => None
  }

  /** A decimal rendering holds no separator: only digits and the sign. */
  lemma IntToStringPlain(i: int, c: char)
    requires c != '-' && !IsDigit(c)
    ensures c !in IntToString(i)
  {
  }

  lemma {:induction false} DigitsOfNatToString(n: nat)
    ensures DigitsValue(NatToString(n)) == n
    decreases n
  {
    var s := NatToString(n);
    if n >= 10 {
      DigitsOfNatToString(n / 10);
      assert s[..|s| - 1] == NatToString(n / 10);
    }
  }

  /** Rendering then parsing gives the number back. */
  lemma ParseNatToString(n: nat)
    ensures ParseNat(NatToString(n)) == Some(n)
  {
    DigitsOfNatToString(n);
  }

  /** Rendering a `long` then parsing it with `long.Parse` gives the number back. */
  lemma ParseIntToString(i: int)
    ensures ParseInt(IntToString(i)) == Some(i)
  {
    if i < 0 {
      var s := IntToString(i);
      assert s[1..] == NatToString(-i);
      ParseNatToString(-i);
    } else {
      ParseNatToString(i);
      assert IsDigit(NatToString(i)[0]);
    }
  }

  /** Rendering is injective, so two numbers with the same rendering are equal. */
  lemma IntToStringInjective(i: int, j: int)
    requires IntToString(i) == IntToString(j)
    ensures i == j
  {
    ParseIntToString(i);
    ParseIntToString(j);
  }

  predicate StartsWith(s: string, prefix: string) {
    |prefix| <= |s| && s[..|prefix|] == prefix
  }

  /**
   * `s.Split(d)` without options: the segments between delimiters, empty
   * segments included, so a string of k delimiters has k + 1 segments.
   */
  function Split(s: string, d: char): (r: seq<string>)
    ensures |r| > 0
  {
    if s == [] then [""]
    else
      var rest := Split(s[1..], d);
      if s[0] == d then [""] + rest else [[s[0]] + rest[0]] + rest[1..]
  }

  /** A string without the delimiter is a single segment. */
  lemma {:induction false} SplitNoDelimiter(s: string, d: char)
    requires d !in s
    ensures Split(s, d) == [s]
  {
    if s != [] {
      assert d !in s[1..] by {
        forall i | 0 <= i < |s[1..]| ensures s[1..][i] != d {
          assert s[1..][i] == s[i + 1];
        }
      }
      SplitNoDelimiter(s[1..], d);
      assert [s[0]] + s[1..] == s;
    }
  }

  /** One step of `Split`: the first character either closes a segment or extends it. */
  lemma SplitCons(c: char, t: string, d: char)
    ensures Split([c] + t, d) ==
      if c == d then [""] + Split(t, d) else [[c] + Split(t, d)[0]] + Split(t, d)[1..]
  {
    assert ([c] + t)[1..] == t;
  }

  /** Prepending an empty segment associates with concatenation. */
  lemma PrependAppend(x: seq<string>, y: seq<string>)
    ensures [""] + (x + y) == ([""] + x) + y
  {
  }

  /** Extending the first segment of a concatenation extends the first segment of its left part. */
  lemma ExtendFirstAppend(c: char, x: seq<string>, y: seq<string>)
    requires |x| > 0
    ensures [[c] + (x + y)[0]] + (x + y)[1..] == ([[c] + x[0]] + x[1..]) + y
  {
    assert (x + y)[0] == x[0];
    assert (x + y)[1..] == x[1..] + y;
  }

  /** The step of SplitAtDelimiter when the prepended character is the delimiter. */
  lemma SplitConsAppendDelimiter(u: string, b: string, d: char, x: seq<string>, y: seq<string>)
    requires x == Split(u, d) && y == Split(b, d)
    requires Split(u + [d] + b, d) == x + y
    ensures Split([d] + (u + [d] + b), d) == Split([d] + u, d) + y
  {
    SplitCons(d, u + [d] + b, d);
    SplitCons(d, u, d);
    PrependAppend(x, y);
  }

  /** The step of SplitAtDelimiter when the prepended character extends the first segment. */
  lemma SplitConsAppendOther(c: char, u: string, b: string, d: char, x: seq<string>, y: seq<string>)
    requires c != d && x == Split(u, d) && y == Split(b, d)
    requires Split(u + [d] + b, d) == x + y
    ensures Split([c] + (u + [d] + b), d) == Split([c] + u, d) + y
  {
    SplitCons(c, u + [d] + b, d);
    SplitCons(c, u, d);
    ExtendFirstAppend(c, x, y);
  }

  /** Splitting distributes over a delimiter placed between two strings. */
  lemma {:induction false} SplitAtDelimiter(a: string, b: string, d: char)
    ensures Split(a + [d] + b, d) == Split(a, d) + Split(b, d)
  {
    if a == [] {
      assert a + [d] + b == [d] + b;
      SplitCons(d, b, d);
    } else {
      var u := a[1..];
      SplitAtDelimiter(u, b, d);
      assert a + [d] + b == [a[0]] + (u + [d] + b);
      assert a == [a[0]] + u;
      if a[0] == d {
        SplitConsAppendDelimiter(u, b, d, Split(u, d), Split(b, d));
      } else {
        SplitConsAppendOther(a[0], u, b, d, Split(u, d), Split(b, d));
      }
    }
  }
}
