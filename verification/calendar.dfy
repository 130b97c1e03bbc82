/** The part of JavaScript's `Date` that `parseDate` relies on: building a
    local date from a year, a month index and a day, where out-of-range
    months and days roll over into neighbouring months and years, and reading
    the year, month index and day back. Time of day, time zones and the
    limits of the time value are not modelled. */
module Calendar {

  /** The proleptic Gregorian leap-year rule. */
  predicate IsLeapYear(y: int) {
    y % 4 == 0 && (y % 100 != 0 || y % 400 == 0)
  }

  /** Days in the month with index `m` (0 = January), as `Date` counts them. */
  function DaysInMonth(y: int, m: int): (r: int)
    requires 0 <= m < 12
    ensures 28 <= r <= 31
    ensures r == 29 <==> m == 1 && IsLeapYear(y)
  {
    if m == 1 then (if IsLeapYear(y) then 29 else 28)
    else if m == 3 || m == 5 || m == 8 || m == 10 then 30
    else 31
  }

  /** `getFullYear()`, `getMonth()` and `getDate()` of a `Date`. */
  datatype YMD = YMD(year: int, month: int, day: int)

  /** A calendar date as people write it: month 1..12, day within the month. */
  predicate IsValidDate(year: int, month: int, day: int) {
    1 <= month <= 12 && 1 <= day <= DaysInMonth(year, month - 1)
  }

  /** Months since the start of year 0, so that moving a month changes it by one. */
  function MonthNumber(y: int, m: int): int {
    12 * y + m
  }

  /** Day overflow: a day below 1 borrows from the previous months, a day
      past the month's end carries into the next ones. */
  function RollDays(y: int, m: int, d: int): (r: YMD)
    requires 0 <= m < 12
    ensures 0 <= r.month < 12 && 1 <= r.day <= DaysInMonth(r.year, r.month)
    ensures 1 <= d <= DaysInMonth(y, m) ==> r == YMD(y, m, d)
    ensures d < 1 ==> MonthNumber(r.year, r.month) < MonthNumber(y, m)
    ensures d > DaysInMonth(y, m) ==> MonthNumber(r.year, r.month) > MonthNumber(y, m)
    decreases (if d < 1 then 1 else 0), (if d < 1 then 1 - d else d)
  {
    if d < 1 then
      var py := if m == 0 then y - 1 else y;
      var pm := if m == 0 then 11 else m - 1;
      RollDays(py, pm, d + DaysInMonth(py, pm))
    else if d > DaysInMonth(y, m) then
      var ny := if m == 11 then y + 1 else y;
      var nm := if m == 11 then 0 else m + 1;
      RollDays(ny, nm, d - DaysInMonth(y, m))
    else YMD(y, m, d)
  }

  /** `new Date(year, monthIndex, day)` read back through its getters. A year
      in 0..99 means 1900 + year; the month index is reduced modulo 12 into
      the year, then the day rolls over. */
  function NewDate(year: int, monthIndex: int, day: int): (r: YMD)
    ensures 0 <= r.month < 12 && 1 <= r.day <= DaysInMonth(r.year, r.month)
  {
    var y := if 0 <= year <= 99 then 1900 + year else year;
    RollDays(y + monthIndex / 12, monthIndex % 12, day)
  }

  /** A `Date` built from a valid date reads back unchanged, and one built
      from anything else does not: checking the getters recognises exactly
      the valid calendar dates (outside the years 0..99). */
  lemma NewDateKeepsExactlyValid(year: int, month: int, day: int)
    requires !(0 <= year <= 99)
    ensures NewDate(year, month - 1, day) == YMD(year, month - 1, day) <==> IsValidDate(year, month, day)
  {
  }
}
