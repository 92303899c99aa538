/**
 * Rendering of dates, `_format_date` in time_sheets/generator.py:
 * `f"{year}-{month:02d}-{day:02d}"`.  The year is written as Python's `str`
 * writes an integer (no padding, a leading `-` when negative); month and day
 * are zero-padded to two digits.
 */
module Text {

  /** The decimal digit character for 0..9. */
  function DigitChar(d: int): (c: char)
    requires 0 <= d < 10
    ensures '0' <= c <= '9' && c as int - '0' as int == d
  {
    ('0' as int + d) as char
  }

  predicate IsDigit(c: char) {
    '0' <= c <= '9'
  }

  /** Every character of `s` is a decimal digit. */
  predicate AllDigits(s: string) {
    forall i | 0 <= i < |s| :: IsDigit(s[i])
  }

  /** The decimal digits of a natural number, most significant first, without leading zeros. */
  function NatToDecimal(n: nat): string {
    if n < 10 then [DigitChar(n)] else NatToDecimal(n / 10) + [DigitChar(n % 10)]
  }

  /** The rendering is a non-empty run of digits with no leading zero. */
  lemma {:induction false} NatToDecimalDigits(n: nat)
    ensures var s := NatToDecimal(n);
      |s| >= 1 && AllDigits(s) && (s[0] == '0' ==> n == 0)
  {
    if n >= 10 {
      NatToDecimalDigits(n / 10);
    }
  }

  /** Python's `str(n)` for an integer. */
  function IntToDecimal(n: int): string {
    if n < 0 then "-" + NatToDecimal(-n) else NatToDecimal(n)
  }

  /** The value of a string of decimal digits. */
  function DecimalValue(s: string): nat
    requires AllDigits(s)
  {
    if s == [] then 0
    else
      assert IsDigit(s[|s| - 1]);
      DecimalValue(s[..|s| - 1]) * 10 + (s[|s| - 1] as int - '0' as int)
  }

  /** Reading an integer back from its rendering gives the integer. */
  function ParseInt(s: string): int
    requires |s| >= 1
    requires AllDigits(if s[0] == '-' then s[1..] else s)
  {
    if s[0] == '-' then 0 - DecimalValue(s[1..]) else DecimalValue(s)
  }

  /** NatToDecimal and DecimalValue are inverse. */
  lemma {:induction false} NatToDecimalRoundTrip(n: nat)
    ensures var s := NatToDecimal(n);
      AllDigits(s) && DecimalValue(s) == n
  {
    var s := NatToDecimal(n);
    NatToDecimalDigits(n);
    if n < 10 {
      assert s[..|s| - 1] == [];
    } else {
      NatToDecimalDigits(n / 10);
      NatToDecimalRoundTrip(n / 10);
      assert s[..|s| - 1] == NatToDecimal(n / 10);
    }
  }

  /** `str(n)` can be read back: no two years are written alike. */
  lemma IntToDecimalRoundTrip(n: int)
    ensures var s := IntToDecimal(n);
      |s| >= 1 && AllDigits(if s[0] == '-' then s[1..] else s) && ParseInt(s) == n
  {
    var s := IntToDecimal(n);
    if n < 0 {
      NatToDecimalDigits(-n);
      NatToDecimalRoundTrip(-n);
      assert s[1..] == NatToDecimal(-n);
    } else {
      NatToDecimalDigits(n);
      NatToDecimalRoundTrip(n);
    }
  }

  /** Python's `format(n, "02d")`: at least two characters, padded with a leading zero. */
  function Pad2(n: int): string {
    if 0 <= n < 10 then "0" + IntToDecimal(n) else IntToDecimal(n)
  }

  /** Below 100, `format(n, "02d")` is exactly the tens digit and the units digit. */
  lemma Pad2Digits(n: int)
    requires 0 <= n < 100
    ensures Pad2(n) == [DigitChar(n / 10), DigitChar(n % 10)]
  {
    if n >= 10 {
      assert NatToDecimal(n / 10) == [DigitChar(n / 10)];
    }
  }

  /** `_format_date`: `year-MM-DD`. */
  function FormatDate(year: int, month: int, day: int): string {
    IntToDecimal(year) + "-" + Pad2(month) + "-" + Pad2(day)
  }

  /**
   * For a month and a day below 100, the date string is the year, a dash and
   * two digits for each of month and day, and each part reads back as the
   * number it came from.
   */
  lemma FormatDateLayout(year: int, month: int, day: int)
    requires 0 <= month < 100 && 0 <= day < 100
    ensures var s := FormatDate(year, month, day);
      |s| == |IntToDecimal(year)| + 6 &&
      s[..|s| - 6] == IntToDecimal(year) &&
      s[|s| - 6] == '-' && s[|s| - 3] == '-' &&
      AllDigits(s[|s| - 5..|s| - 3]) && DecimalValue(s[|s| - 5..|s| - 3]) == month &&
      AllDigits(s[|s| - 2..]) && DecimalValue(s[|s| - 2..]) == day
  {
    var y, m, d := IntToDecimal(year), Pad2(month), Pad2(day);
    Pad2Digits(month);
    Pad2Digits(day);
    TwoDigitValue(month);
    TwoDigitValue(day);
    var s := FormatDate(year, month, day);
    assert s == y + "-" + m + "-" + d;
    assert |s| == |y| + 6;
    assert s[..|s| - 6] == y;
    assert s[|s| - 5..|s| - 3] == m;
    assert s[|s| - 2..] == d;
  }

  /** Two padded digits read back as their value. */
  lemma TwoDigitValue(n: int)
    requires 0 <= n < 100
    ensures var s := Pad2(n);
      AllDigits(s) && DecimalValue(s) == n
  {
    Pad2Digits(n);
    var s := Pad2(n);
    assert s[..|s| - 1] == [DigitChar(n / 10)];
    assert DecimalValue(s[..|s| - 1]) == n / 10 by {
      var t := s[..|s| - 1];
      assert t[..|t| - 1] == [];
    }
  }

  /** Python's `<` on strings: lexicographic order by character. */
  predicate LexLess(a: string, b: string) {
    (a == [] && b != []) ||
    (a != [] && b != [] && (a[0] < b[0] || (a[0] == b[0] && LexLess(a[1..], b[1..]))))
  }

  /** A common prefix does not change the order. */
  lemma {:induction false} LexLessPrefix(p: string, a: string, b: string)
    requires LexLess(a, b)
    ensures LexLess(p + a, p + b)
    decreases |p|
  {
    if p != [] {
      LexLessPrefix(p[1..], a, b);
      var x, y := p + a, p + b;
      assert x[1..] == p[1..] + a;
      assert y[1..] == p[1..] + b;
      assert x != [] && y != [] && x[0] == y[0];
      assert LexLess(x[1..], y[1..]);
    } else {
      assert p + a == a && p + b == b;
    }
  }

  /** Within a month, a later day gives a later date string. */
  lemma FormatDateAscending(year: int, month: int, day1: int, day2: int)
    requires 0 <= month < 100
    requires 0 <= day1 < day2 < 100
    ensures LexLess(FormatDate(year, month, day1), FormatDate(year, month, day2))
  {
    var p := IntToDecimal(year) + "-" + Pad2(month) + "-";
    assert FormatDate(year, month, day1) == p + Pad2(day1);
    assert FormatDate(year, month, day2) == p + Pad2(day2);
    var a, b := Pad2(day1), Pad2(day2);
    Pad2Digits(day1);
    Pad2Digits(day2);
    assert LexLess(a, b) by {
      if day1 / 10 == day2 / 10 {
        assert a[1..] == [DigitChar(day1 % 10)] && b[1..] == [DigitChar(day2 % 10)];
        assert LexLess(a[1..], b[1..]);
      }
    }
    LexLessPrefix(p, a, b);
  }

  /** The dates of the test suite. */
  lemma FormatDateExamples()
    ensures FormatDate(2024, 11, 1) == "2024-11-01" && FormatDate(2024, 11, 4) == "2024-11-04"
    ensures FormatDate(2024, 1, 15) == "2024-01-15"
  {
    Year2024();
  }

  /** The year of the test suite, written out. */
  lemma Year2024()
    ensures IntToDecimal(2024) == "2024"
  {
  }

  /** The year is written as `str` writes it, not padded to four digits. */
  lemma UnpaddedYear()
    ensures FormatDate(999, 1, 5) == "999-01-05"
  {
    assert IntToDecimal(999) == "999";
  }
}
