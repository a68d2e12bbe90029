/** Calendar dates and `subtract_months` from `check_video_info.py`. */
module Calendar {
  import opened Wrappers

  /** A proleptic Gregorian date, as Python's `date`. */
  datatype Date = Date(year: int, month: int, day: int)

  predicate IsLeapYear(y: int) {
    y % 4 == 0 && (y % 100 != 0 || y % 400 == 0)
  }

  /** `calendar.monthrange(y, m)[1]`. */
  function DaysInMonth(y: int, m: int): (r: int)
    requires 1 <= m <= 12
    ensures 28 <= r <= 31
    ensures r == 29 <==> m == 2 && IsLeapYear(y)
  {
    if m == 2 then (if IsLeapYear(y) then 29 else 28)
    else if m == 4 || m == 6 || m == 9 || m == 11 then 30
    else 31
  }

  /** The dates Python's `date` accepts: years 1 to 9999. */
  predicate ValidDate(d: Date) {
    1 <= d.year <= 9999 && 1 <= d.month <= 12 && 1 <= d.day <= DaysInMonth(d.year, d.month)
  }

  /** `a < b` on dates. */
  predicate Before(a: Date, b: Date) {
    a.year < b.year || (a.year == b.year && (a.month < b.month || (a.month == b.month && a.day < b.day)))
  }

  /** Months counted from January of year 0. */
  function MonthIndex(y: int, m: int): int {
    y * 12 + m - 1
  }

  function Min(a: int, b: int): int {
    if a <= b then a else b
  }

  /** What `subtract_months(d, months)` returns, or `None` where it raises: `monthrange`
      rejects a month above 12 (only for a negative `months`), and `date(...)` a year before 1. */
  function MonthsBefore(d: Date, months: int): Option<Date>
    requires ValidDate(d)
  {
    var m0 := d.month - months;
    var y := if m0 >= 1 then d.year else d.year + (m0 - 1) / 12;
    var m := if m0 >= 1 then m0 else (m0 - 1) % 12 + 1;
    if m > 12 || y < 1 then None else Some(Date(y, m, Min(d.day, DaysInMonth(y, m))))
  }

  /** `subtract_months`: step the month back into range a year at a time, then clamp the day
      to the length of the month reached. */
  method SubtractMonths(d: Date, months: int) returns (r: Option<Date>)
    requires ValidDate(d)
    ensures r == MonthsBefore(d, months)
  {
    var year := d.year;
    var month := d.month - months;
    while month <= 0
      invariant MonthIndex(year, month) == MonthIndex(d.year, d.month) - months
      invariant month <= 12 || (month == d.month - months && year == d.year)
      invariant d.month - months >= 1 ==> year == d.year && month == d.month - months
      decreases -month
    {
      month := month + 12;
      year := year - 1;
    }
    if month > 12 || year < 1 {
      return None;
    }
    return Some(Date(year, month, Min(d.day, DaysInMonth(year, month))));
  }

  /** The result is a valid date exactly `months` months earlier, its day clamped to the
      length of its month; it fails only when the month would pass 12 or the year drop
      below 1. */
  lemma MonthsBeforeSpec(d: Date, months: int)
    requires ValidDate(d)
    ensures MonthsBefore(d, months).None? <==>
      d.month - months > 12 || MonthIndex(d.year, d.month) - months < MonthIndex(1, 1)
    ensures MonthsBefore(d, months).Some? ==>
      var r := MonthsBefore(d, months).value;
      && ValidDate(r)
      && MonthIndex(r.year, r.month) == MonthIndex(d.year, d.month) - months
      && r.day == Min(d.day, DaysInMonth(r.year, r.month))
  {
  }

  /** Going back a non-negative number of months never moves forward. */
  lemma MonthsBeforeNotLater(d: Date, months: nat)
    requires ValidDate(d) && MonthsBefore(d, months).Some?
    ensures !Before(d, MonthsBefore(d, months).value)
  {
    MonthsBeforeSpec(d, months);
  }

  /** 31 March minus one month is the last day of February, 29 in a leap year. */
  lemma EndOfMarchExamples()
    ensures MonthsBefore(Date(2024, 3, 31), 1) == Some(Date(2024, 2, 29))
    ensures MonthsBefore(Date(2023, 3, 31), 1) == Some(Date(2023, 2, 28))
    ensures MonthsBefore(Date(2024, 1, 31), 2) == Some(Date(2023, 11, 30))
  {
  }
}
