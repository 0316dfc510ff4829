/** Calendar dates as the local (year, month, day) triple a JavaScript Date
    reports through getFullYear, getMonth and getDate. */
module Calendar {

  /** `month0` is 0-based (January is 0), as getMonth returns it. */
  datatype Date = Date(year: int, month0: int, day: int)

  predicate IsLeapYear(y: int) {
    (y % 4 == 0 && y % 100 != 0) || y % 400 == 0
  }

  function DaysInMonth(y: int, m0: int): (n: int)
    requires 0 <= m0 < 12
    ensures 28 <= n <= 31
    ensures m0 == 1 ==> (n == 29 <==> IsLeapYear(y))
  {
    if m0 == 1 then (if IsLeapYear(y) then 29 else 28)
    else if m0 == 3 || m0 == 5 || m0 == 8 || m0 == 10 then 30
    else 31
  }

  predicate ValidDate(d: Date) {
    0 <= d.month0 < 12 && 1 <= d.day <= DaysInMonth(d.year, d.month0)
  }

  /** Months elapsed since month 0 of year 0. */
  function MonthIndex(d: Date): int {
    d.year * 12 + d.month0
  }

  /** Chronological order of dates. */
  predicate Before(a: Date, b: Date) {
    MonthIndex(a) < MonthIndex(b) || (MonthIndex(a) == MonthIndex(b) && a.day < b.day)
  }

  /** `new Date(y, m, day)`: a month outside 0..11 carries into the year, and a
      day past the end of the resulting month carries into the next month.
      Only days 1..31 are modelled, the range getDate can return. */
  function MakeDate(y: int, m: int, day: int): (d: Date)
    requires 1 <= day <= 31
    ensures ValidDate(d)
    ensures var len := DaysInMonth(y + m / 12, m % 12);
      && (day <= len ==> MonthIndex(d) == y * 12 + m && d.day == day)
      && (day > len ==> MonthIndex(d) == y * 12 + m + 1 && d.day == day - len)
  {
    var yy := y + m / 12;
    var mm := m % 12;
    var len := DaysInMonth(yy, mm);
    if day <= len then Date(yy, mm, day)
    else if mm == 11 then Date(yy + 1, 0, day - len)
    else Date(yy, mm + 1, day - len)
  }
}
