/**
 * Calendar dates as (year, month, day) triples and instants as a date plus milliseconds
 * into that day. Months run 1..12, i.e. JavaScript's `getMonth() + 1`.
 */
module Dates {

  datatype Date = Date(year: int, month: int, day: int)

  /** A date and the milliseconds elapsed since its midnight. */
  datatype Instant = Instant(date: Date, msOfDay: int)

  const MsPerDay: int := 86400000

  predicate IsLeapYear(y: int) {
    (y % 4 == 0 && y % 100 != 0) || y % 400 == 0
  }

  function DaysInMonth(y: int, m: int): (n: int)
    requires 1 <= m <= 12
    ensures 28 <= n <= 31
  {
    if m == 2 then (if IsLeapYear(y) then 29 else 28)
    else if m == 4 || m == 6 || m == 9 || m == 11 then 30
    else 31
  }

  predicate ValidDate(d: Date) {
    1 <= d.month <= 12 && 1 <= d.day <= DaysInMonth(d.year, d.month)
  }

  predicate ValidInstant(t: Instant) {
    ValidDate(t.date) && 0 <= t.msOfDay < MsPerDay
  }

  /** (month, day) of `a` comes strictly before (month, day) of `b` within a year. */
  predicate MonthDayBefore(a: Date, b: Date) {
    a.month < b.month || (a.month == b.month && a.day < b.day)
  }

  /** Chronological order on dates. */
  predicate Before(a: Date, b: Date) {
    a.year < b.year || (a.year == b.year && MonthDayBefore(a, b))
  }

  predicate AtOrBefore(a: Date, b: Date) {
    !Before(b, a)
  }

  /** Chronological order on instants. */
  predicate InstantAtOrBefore(a: Instant, b: Instant) {
    Before(a.date, b.date) || (a.date == b.date && a.msOfDay <= b.msOfDay)
  }

  /** The calendar day after `d`. */
  function NextDay(d: Date): (r: Date)
    requires 1 <= d.month <= 12
    ensures 1 <= r.month <= 12
    ensures ValidDate(d) ==> ValidDate(r) && Before(d, r)
  {
    if d.day < DaysInMonth(d.year, d.month) then Date(d.year, d.month, d.day + 1)
    else if d.month < 12 then Date(d.year, d.month + 1, 1)
    else Date(d.year + 1, 1, 1)
  }

  /**
   * The date `n` days after `d`. This is how a JavaScript `Date` reads a day of the month
   * beyond the month's end: day `k` of a month is `k - 1` days after its first.
   */
  function AddDays(d: Date, n: nat): (r: Date)
    requires 1 <= d.month <= 12
    ensures 1 <= r.month <= 12
    ensures ValidDate(d) ==> ValidDate(r) && (n > 0 ==> Before(d, r))
  {
    if n == 0 then d else NextDay(AddDays(d, n - 1))
  }

  /** Within a month, counting days from the first lands on the day of that number. */
  lemma {:induction false} AddDaysWithinMonth(y: int, m: int, k: nat)
    requires 1 <= m <= 12 && k < DaysInMonth(y, m)
    ensures AddDays(Date(y, m, 1), k) == Date(y, m, k + 1)
  {
    if k > 0 {
      AddDaysWithinMonth(y, m, k - 1);
    }
  }

  /** Midnight at the start of a date, which is how a stored birth date compares. */
  function StartOfDay(d: Date): Instant {
    Instant(d, 0)
  }
}
