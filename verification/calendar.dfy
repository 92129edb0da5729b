/** Calendar dates as .NET's `DateTime` sees them, at the granularity of a day:
    years 1 to 9999 of the proleptic Gregorian calendar. */
module Calendar {
  import opened Base

  datatype Date = Date(year: int, month: int, day: int)

  predicate IsLeapYear(y: int) {
    y % 4 == 0 && (y % 100 != 0 || y % 400 == 0)
  }

  function DaysInMonth(y: int, m: int): int
    requires 1 <= m <= 12
  {
    if m == 2 then (if IsLeapYear(y) then 29 else 28)
    else if m == 4 || m == 6 || m == 9 || m == 11 then 30
    else 31
  }

  /** The range `DateTime` can represent: 0001-01-01 to 9999-12-31. */
  predicate IsValid(d: Date) {
    1 <= d.year <= 9999 && 1 <= d.month <= 12 && 1 <= d.day <= DaysInMonth(d.year, d.month)
  }

  type DateTime = d: Date | IsValid(d) witness Date(1, 1, 1)

  /** Chronological order: `a` is strictly earlier than `b`. */
  predicate Before(a: Date, b: Date) {
    a.year < b.year
    || (a.year == b.year && (a.month < b.month || (a.month == b.month && a.day < b.day)))
  }

  /** `DateTime.AddYears(n)`: the same month and day `n` years later, with 29 February
      moved to 28 February when the target year is not a leap year. It throws
      (here: `None`) when the target year leaves 1..9999. */
  function AddYears(d: DateTime, n: int): (r: Option<DateTime>)
    ensures r.Some? <==> 1 <= d.year + n <= 9999
    ensures r.Some? ==> r.value.year == d.year + n && r.value.month == d.month
    ensures r.Some? ==> r.value.day == d.day || (d.month == 2 && d.day == 29 && r.value.day == 28)
    ensures r.Some? && !(d.month == 2 && d.day == 29 && !IsLeapYear(d.year + n)) ==> r.value.day == d.day
  {
    var y := d.year + n;
    if y < 1 || y > 9999 then None
    else if d.month == 2 && d.day == 29 && !IsLeapYear(y) then Some(Date(y, 2, 28))
    else Some(Date(y, d.month, d.day))
  }
}
