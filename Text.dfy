/**
 * Decimal rendering and parsing of the numbers that appear in the spectra log,
 * the command messages and the database file name, and Python's `str.split`
 * with an explicit separator.
 *
 * Numbers are rendered the way `%d` and `%.1f` render them; a value printed
 * with one decimal is held as an integer count of tenths.
 */
module Text {
  import opened Wrappers

  predicate IsDigit(c: char) { '0' <= c <= '9' }

  predicate AllDigits(s: string) { forall i | 0 <= i < |s| :: IsDigit(s[i]) }

  /** A character that can occur in a rendered number. */
  predicate NumeralChar(c: char) { IsDigit(c) || c == '-' || c == '.' }

  predicate IsNumeral(s: string) { forall i | 0 <= i < |s| :: NumeralChar(s[i]) }

  function DigitValue(c: char): (d: nat)
    requires IsDigit(c)
    ensures d < 10
  {
    c as int - '0' as int
  }

  function DigitChar(d: nat): (c: char)
    requires d < 10
    ensures IsDigit(c) && DigitValue(c) == d
  {
    ('0' as int + d) as char
  }

  function Abs(x: int): nat { if x < 0 then -x else x }

  // ---------------------------------------------------------------------------
  // Natural numbers and integers (`%d`)
  // ---------------------------------------------------------------------------

  /** The shortest decimal rendering of `n`, most significant digit first. */
  function NatToString(n: nat): (s: string)
    ensures |s| > 0 && AllDigits(s)
    decreases n
  {
    if n < 10 then [DigitChar(n)] else NatToString(n / 10) + [DigitChar(n % 10)]
  }

  /** The value of a run of decimal digits. */
  function ParseDigits(s: string): nat
    requires AllDigits(s)
    decreases |s|
  {
    if s == [] then 0 else ParseDigits(s[..|s| - 1]) * 10 + DigitValue(s[|s| - 1])
  }

  lemma {:induction false} NatRoundTrip(n: nat)
    ensures ParseDigits(NatToString(n)) == n
    decreases n
  {
    var s := NatToString(n);
    if n >= 10 {
      assert s[..|s| - 1] == NatToString(n / 10);
      NatRoundTrip(n / 10);
    }
  }

  /** `%d` of an integer: a minus sign for negatives, then the digits. */
  function IntToString(i: int): (s: string)
    ensures |s| > 0 && IsNumeral(s)
  {
    if i < 0 then "-" + NatToString(-i) else NatToString(i)
  }

  /** An optional minus sign followed by at least one digit. */
  function ParseInt(s: string): Option<int>
  {
    if |s| > 0 && s[0] == '-' then
      if |s| > 1 && AllDigits(s[1..]) then Some(-(ParseDigits(s[1..]) as int)) else None
    else if |s| > 0 && AllDigits(s) then Some(ParseDigits(s))
    else None
  }

  lemma {:induction false} IntRoundTrip(i: int)
    ensures ParseInt(IntToString(i)) == Some(i)
  {
    var s := IntToString(i);
    if i < 0 {
      assert s[1..] == NatToString(-i);
      NatRoundTrip(-i);
    } else {
      NatRoundTrip(i);
    }
  }

  /** Distinct integers never render alike. */
  lemma IntToStringInjective(a: int, b: int)
    requires IntToString(a) == IntToString(b)
    ensures a == b
  {
    IntRoundTrip(a);
    IntRoundTrip(b);
  }

  // ---------------------------------------------------------------------------
  // One-decimal values (`%.1f`), held as tenths
  // ---------------------------------------------------------------------------

  /** `%.1f` of the value `v / 10`: sign, whole part, point, one decimal. */
  function TenthsToString(v: int): (s: string)
    ensures |s| >= 3 && IsNumeral(s)
  {
    (if v < 0 then "-" else "") + NatToString(Abs(v) / 10) + "." + [DigitChar(Abs(v) % 10)]
  }

  /** Digits, optionally followed by a point and one digit, as tenths. */
  function ParseUnsignedTenths(s: string): Option<nat>
  {
    if |s| >= 3 && s[|s| - 2] == '.' && IsDigit(s[|s| - 1]) && AllDigits(s[..|s| - 2]) then
      Some(ParseDigits(s[..|s| - 2]) * 10 + DigitValue(s[|s| - 1]))
    else if |s| > 0 && AllDigits(s) then
      Some(ParseDigits(s) * 10)
    else
      None
  }

  /** A one-decimal number with an optional minus sign, as tenths. */
  function ParseTenths(s: string): Option<int>
  {
    if |s| > 0 && s[0] == '-' then
      match ParseUnsignedTenths(s[1..])
      case Some(v) => Some(-(v as int))
      case None => None
    else
      match ParseUnsignedTenths(s)
      case Some(v) => Some(v)
      case None => None
  }

  lemma {:induction false} UnsignedTenthsRoundTrip(a: nat)
    ensures ParseUnsignedTenths(NatToString(a / 10) + "." + [DigitChar(a % 10)]) == Some(a)
  {
    var whole := NatToString(a / 10);
    var s := whole + "." + [DigitChar(a % 10)];
    assert s[..|s| - 2] == whole;
    NatRoundTrip(a / 10);
  }

  lemma TenthsRoundTrip(v: int)
    ensures ParseTenths(TenthsToString(v)) == Some(v)
  {
    var u := NatToString(Abs(v) / 10) + "." + [DigitChar(Abs(v) % 10)];
    UnsignedTenthsRoundTrip(Abs(v));
    if v < 0 {
      assert TenthsToString(v) == "-" + u;
      assert ("-" + u)[1..] == u;
    } else {
      assert TenthsToString(v) == u;
      assert IsDigit(u[0]);
    }
  }

  // ---------------------------------------------------------------------------
  // str.split(sep)
  // ---------------------------------------------------------------------------

  /** The fields of `s` between occurrences of `sep`; never empty, like Python's split. */
  function Split(s: string, sep: char): (fields: seq<string>)
    ensures |fields| > 0
    decreases |s|
  {
    if s == [] then [""]
    else
      var rest := Split(s[1..], sep);
      if s[0] == sep then [""] + rest else [[s[0]] + rest[0]] + rest[1..]
  }

  /** A text without the separator is a single field. */
  lemma {:induction false} SplitWithoutSep(a: string, sep: char)
    requires sep !in a
    ensures Split(a, sep) == [a]
    decreases |a|
  {
    if a != [] {
      SplitWithoutSep(a[1..], sep);
      assert [a[0]] + a[1..] == a;
    }
  }

  /** The text up to the first separator is the first field, the rest is split on. */
  lemma {:induction false} SplitAtFirst(a: string, sep: char, b: string)
    requires sep !in a
    ensures Split(a + [sep] + b, sep) == [a] + Split(b, sep)
    decreases |a|
  {
    if a != [] {
      assert (a + [sep] + b)[1..] == a[1..] + [sep] + b;
      SplitAtFirst(a[1..], sep, b);
      assert [a[0]] + a[1..] == a;
    } else {
      assert (a + [sep] + b)[1..] == b;
    }
  }

  /** The first field is a separator-free prefix, and when there are more fields a separator follows it. */
  lemma {:induction false} SplitHead(s: string, sep: char)
    ensures var f := Split(s, sep)[0];
      |f| <= |s| && s[..|f|] == f && sep !in f && (|Split(s, sep)| > 1 ==> |f| < |s| && s[|f|] == sep)
    decreases |s|
  {
    if s != [] {
      SplitHead(s[1..], sep);
    }
  }

  /** There is more than one field exactly when the separator occurs. */
  lemma {:induction false} SplitFieldCount(s: string, sep: char)
    ensures |Split(s, sep)| > 1 <==> sep in s
    decreases |s|
  {
    if s != [] {
      SplitFieldCount(s[1..], sep);
      assert s == [s[0]] + s[1..];
    }
  }
}
