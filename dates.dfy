/** Calendar dates as the catalogue stores them: a (year, month, day) triple
    that names a day of the proleptic Gregorian calendar, ordered
    lexicographically. Dates enter as ISO 8601 extended calendar dates
    `YYYY-MM-DD` (ISO 8601:2004, section 4.1.2.2) and leave in the display
    form `YYYY.MM.DD`. */
module Dates {
  import opened Common

  datatype Ymd = Ymd(year: int, month: int, day: int)

  predicate IsLeapYear(y: int) {
    y % 4 == 0 && (y % 100 != 0 || y % 400 == 0)
  }

  function DaysInMonth(y: int, m: int): int
    requires 1 <= m <= 12
  {
    if m == 2 then (if IsLeapYear(y) then 29 else 28)
    else if m == 4 || m == 6 || m == 9 || m == 11 then 30
    else 31
  }

  /** The days Python's `date` can hold: years 1 to 9999. */
  predicate IsCalendarDay(d: Ymd) {
    1 <= d.year <= 9999 && 1 <= d.month <= 12 && 1 <= d.day <= DaysInMonth(d.year, d.month)
  }

  type Date = d: Ymd | IsCalendarDay(d) witness Ymd(1900, 1, 1)

  /** `a <= b` on dates: the order SQL compares `Date` columns in. */
  predicate NotAfter(a: Date, b: Date) {
    a.year < b.year || (a.year == b.year && (a.month < b.month || (a.month == b.month && a.day <= b.day)))
  }

  lemma NotAfterIsTotalOrder(a: Date, b: Date, c: Date)
    ensures NotAfter(a, a)
    ensures NotAfter(a, b) || NotAfter(b, a)
    ensures NotAfter(a, b) && NotAfter(b, a) ==> a == b
    ensures NotAfter(a, b) && NotAfter(b, c) ==> NotAfter(a, c)
  {
  }

  // ----- digit strings -----

  predicate IsDigit(c: char) { '0' <= c <= '9' }

  predicate AllDigits(s: string) {
    forall i :: 0 <= i < |s| ==> IsDigit(s[i])
  }

  function Pow10(n: nat): (p: nat)
    ensures p >= 1
  {
    if n == 0 then 1 else 10 * Pow10(n - 1)
  }

  /** The value of a string of decimal digits. */
  function Number(s: string): (n: nat)
    requires AllDigits(s)
    ensures n < Pow10(|s|)
  {
    if s == [] then 0
    else Number(s[..|s| - 1]) * 10 + (s[|s| - 1] as int - '0' as int)
  }

  /** `n` written with exactly `width` digits, zero-padded on the left
      (`%04d`, `%02d`). */
  function Padded(n: nat, width: nat): (s: string)
    requires n < Pow10(width)
    ensures |s| == width && AllDigits(s)
  {
    if width == 0 then []
    else Padded(n / 10, width - 1) + [(n % 10 + '0' as int) as char]
  }

  lemma {:induction false} NumberOfPadded(n: nat, width: nat)
    requires n < Pow10(width)
    ensures Number(Padded(n, width)) == n
  {
    if width > 0 {
      var s := Padded(n, width);
      assert s[..|s| - 1] == Padded(n / 10, width - 1);
      NumberOfPadded(n / 10, width - 1);
    }
  }

  lemma {:induction false} PaddedOfNumber(s: string)
    requires AllDigits(s)
    ensures Padded(Number(s), |s|) == s
  {
    if s != [] {
      var init := s[..|s| - 1];
      var n := Number(s);
      assert n / 10 == Number(init);
      PaddedOfNumber(init);
      assert s == init + [s[|s| - 1]];
    }
  }

  // ----- the two text forms -----

  /** `date.isoformat()`: `YYYY-MM-DD`. */
  function FormatIso(d: Date): (s: string)
    ensures |s| == 10 && s[4] == '-' && s[7] == '-'
  {
    Padded(d.year, 4) + "-" + Padded(d.month, 2) + "-" + Padded(d.day, 2)
  }

  /** `strftime(date, "%Y.%m.%d")`, the form results are shown in. */
  function FormatDotted(d: Date): (s: string)
    ensures |s| == 10 && s[4] == '.' && s[7] == '.'
  {
    Padded(d.year, 4) + "." + Padded(d.month, 2) + "." + Padded(d.day, 2)
  }

  /** A strict `strptime(s, '%Y-%m-%d')`: exactly four year digits, two month
      digits and two day digits naming a real day; `None` is the ValueError. */
  function ParseIso(s: string): (r: Option<Date>)
    ensures r.Some? ==> |s| == 10 && s[4] == '-' && s[7] == '-'
  {
    if |s| == 10 && s[4] == '-' && s[7] == '-'
       && AllDigits(s[..4]) && AllDigits(s[5..7]) && AllDigits(s[8..])
    then
      var d := Ymd(Number(s[..4]), Number(s[5..7]), Number(s[8..]));
      if IsCalendarDay(d) then Some(d) else None
    else None
  }

  /** Every date survives printing and parsing back. */
  lemma ParseFormatIso(d: Date)
    ensures ParseIso(FormatIso(d)) == Some(d)
  {
    var s := FormatIso(d);
    assert s[..4] == Padded(d.year, 4);
    assert s[5..7] == Padded(d.month, 2);
    assert s[8..] == Padded(d.day, 2);
    NumberOfPadded(d.year, 4);
    NumberOfPadded(d.month, 2);
    NumberOfPadded(d.day, 2);
  }

  /** A string the parser accepts is exactly the printed form of its date, so
      two accepted strings that differ denote different dates. */
  lemma FormatParseIso(s: string)
    requires ParseIso(s).Some?
    ensures FormatIso(ParseIso(s).value) == s
  {
    PaddedOfNumber(s[..4]);
    PaddedOfNumber(s[5..7]);
    PaddedOfNumber(s[8..]);
    assert s == s[..4] + "-" + s[5..7] + "-" + s[8..];
  }

  /** The display form differs from the ISO form only in its two separators. */
  lemma DottedMatchesIso(d: Date)
    ensures forall i :: 0 <= i < 10 && i != 4 && i != 7 ==> FormatDotted(d)[i] == FormatIso(d)[i]
  {
  }
}
