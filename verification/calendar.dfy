/**
 * Calendar instants and month windows (date-fns `startOfMonth` /
 * `endOfMonth`, the `new Date(y, m, 1)` / `new Date(y, m + 1, 0, 23, 59,
 * 59, 999)` bounds) and the `YYYY-MM` month key.  Instants are broken-down
 * local date-times; their chronological order is the lexicographic order of
 * the fields.
 */
module Calendar {
  import opened Wrappers
  import Text

  /** A local date-time with millisecond precision; `month` is 1..12. */
  datatype DateTime = DateTime(year: int, month: int, day: int, hour: int, minute: int, second: int, ms: int)

  /** The Gregorian leap-year rule. */
  predicate IsLeapYear(y: int) {
    (y % 4 == 0 && y % 100 != 0) || y % 400 == 0
  }

  /** The number of days of month `m` of year `y`. */
  function DaysInMonth(y: int, m: int): (d: int)
    requires 1 <= m <= 12
    ensures 28 <= d <= 31
    ensures m == 2 ==> (d == 29 <==> IsLeapYear(y))
    ensures d == 31 <==> m in {1, 3, 5, 7, 8, 10, 12}
    ensures d == 30 <==> m in {4, 6, 9, 11}
  {
    if m == 2 then (if IsLeapYear(y) then 29 else 28)
    else if m == 4 || m == 6 || m == 9 || m == 11 then 30
    else 31
  }

  /** February has 29 days in 2024 and 2000 but 28 in 1900 and 2023. */
  lemma LeapExamples()
    ensures DaysInMonth(2024, 2) == 29 && DaysInMonth(2000, 2) == 29
    ensures DaysInMonth(1900, 2) == 28 && DaysInMonth(2023, 2) == 28
  {
  }

  /** A date-time that exists on the calendar. */
  predicate Valid(d: DateTime) {
    && 1 <= d.month <= 12
    && 1 <= d.day <= DaysInMonth(d.year, d.month)
    && 0 <= d.hour < 24 && 0 <= d.minute < 60 && 0 <= d.second < 60 && 0 <= d.ms < 1000
  }

  /** `a` is not later than `b`. */
  predicate NotAfter(a: DateTime, b: DateTime) {
    if a.year != b.year then a.year < b.year
    else if a.month != b.month then a.month < b.month
    else if a.day != b.day then a.day < b.day
    else if a.hour != b.hour then a.hour < b.hour
    else if a.minute != b.minute then a.minute < b.minute
    else if a.second != b.second then a.second < b.second
    else a.ms <= b.ms
  }

  /** Day 1, 00:00:00.000 of the month. */
  function MonthStart(y: int, m: int): (d: DateTime)
    requires 1 <= m <= 12
    ensures Valid(d) && d.year == y && d.month == m
    ensures forall e :: Valid(e) && e.year == y && e.month == m ==> NotAfter(d, e)
  {
    DateTime(y, m, 1, 0, 0, 0, 0)
  }

  /** The last day of the month, 23:59:59.999: the final instant that still belongs to it. */
  function MonthEnd(y: int, m: int): (d: DateTime)
    requires 1 <= m <= 12
    ensures Valid(d) && d.year == y && d.month == m
    ensures forall e :: Valid(e) && e.year == y && e.month == m ==> NotAfter(e, d)
  {
    DateTime(y, m, DaysInMonth(y, m), 23, 59, 59, 999)
  }

  /** `d` lies in the inclusive window [MonthStart, MonthEnd] (SQL `between`). */
  predicate InMonthWindow(d: DateTime, y: int, m: int)
    requires 1 <= m <= 12
  {
    NotAfter(MonthStart(y, m), d) && NotAfter(d, MonthEnd(y, m))
  }

  /** The inclusive window holds exactly the instants of that calendar month, the last millisecond included. */
  lemma MonthWindowExact(d: DateTime, y: int, m: int)
    requires Valid(d) && 1 <= m <= 12
    ensures InMonthWindow(d, y, m) <==> d.year == y && d.month == m
  {
  }

  /** "yyyy-MM" as date-fns `format` writes it: the year padded to four digits, the month to two. */
  function FormatYearMonth(y: nat, m: int): (s: string)
    requires 1 <= m <= 12
    ensures |s| >= 7 && s[|s| - 3] == '-'
  {
    Text.PadZero(y, 4) + "-" + Text.PadZero(m, 2)
  }

  /**
   * The month `parseISO(monthYear + "-01")` denotes: four digits, a dash,
   * and a two-digit month 01..12; any other string is an invalid date.
   */
  function ParseMonthYear(s: string): (r: Option<(nat, int)>)
    ensures r.Some? ==> 1 <= r.value.1 <= 12 && r.value.0 <= 9999
  {
    if |s| == 7 && s[4] == '-'
       && (forall i :: 0 <= i < 7 && i != 4 ==> Text.IsDigit(s[i]))
    then
      var y := Text.DigitsValue(s[..4]);
      var m := Text.DigitsValue(s[5..]);
      Text.DigitsValueBound(s[..4]);
      if 1 <= m <= 12 then Some((y, m)) else None
    else None
  }

  /** Parsing a formatted month gives the month back, for every four-digit year. */
  lemma FormatThenParse(y: nat, m: int)
    requires 1 <= m <= 12 && y <= 9999
    ensures ParseMonthYear(FormatYearMonth(y, m)) == Some((y, m))
  {
    var a, b := Text.PadZero(y, 4), Text.PadZero(m, 2);
    Text.NatToStringLength(y, 4);
    Text.NatToStringLength(m, 2);
    var s := a + "-" + b;
    assert s[..4] == a;
    assert s[5..] == b;
  }

  /** A string that parses is exactly the formatted form of the month it denotes. */
  lemma ParseThenFormat(s: string)
    requires ParseMonthYear(s).Some?
    ensures FormatYearMonth(ParseMonthYear(s).value.0, ParseMonthYear(s).value.1) == s
  {
    var (y, m) := ParseMonthYear(s).value;
    var a, b := Text.PadZero(y, 4), Text.PadZero(m, 2);
    Text.NatToStringLength(y, 4);
    Text.NatToStringLength(m, 2);
    DigitsInjective(a, s[..4]);
    DigitsInjective(b, s[5..]);
    assert s == s[..4] + "-" + s[5..];
  }

  /** Two digit strings of the same length with the same value are equal. */
  lemma {:induction false} DigitsInjective(a: string, b: string)
    requires |a| == |b|
    requires forall i :: 0 <= i < |a| ==> Text.IsDigit(a[i])
    requires forall i :: 0 <= i < |b| ==> Text.IsDigit(b[i])
    requires Text.DigitsValue(a) == Text.DigitsValue(b)
    ensures a == b
    decreases |a|
  {
    if |a| > 0 {
      var n := |a| - 1;
      assert Text.DigitsValue(a) % 10 == a[n] as int - '0' as int;
      assert Text.DigitsValue(b) % 10 == b[n] as int - '0' as int;
      DigitsInjective(a[..n], b[..n]);
      assert a == a[..n] + [a[n]] && b == b[..n] + [b[n]];
    }
  }
}
