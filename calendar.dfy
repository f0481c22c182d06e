/** The proleptic Gregorian calendar of Python's `datetime.date`: the range
    of years it accepts and the length of each month. */
module Calendar {

  /** A calendar day; a `datetime.datetime` at midnight, as `strptime`
      returns it for a format with no time directives. */
  datatype Date = Date(year: int, month: int, day: int)

  const MinYear: int := 1
  const MaxYear: int := 9999

  predicate IsLeapYear(y: int) {
    y % 4 == 0 && (y % 100 != 0 || y % 400 == 0)
  }

  function DaysInMonth(y: int, m: int): (n: int)
    requires 1 <= m <= 12
    ensures 28 <= n <= 31
    ensures m == 2 ==> (n == 29 <==> IsLeapYear(y))
  {
    if m == 2 then (if IsLeapYear(y) then 29 else 28)
    else if m in {4, 6, 9, 11} then 30
    else 31
  }

  /** The checks `datetime.date(year, month, day)` makes before it accepts
      its arguments; any failure raises `ValueError`. */
  predicate IsValidDate(y: int, m: int, d: int): (ok: bool)
    ensures ok ==> MinYear <= y <= MaxYear && 1 <= m <= 12 && 1 <= d <= 31
    ensures MinYear <= y <= MaxYear && 1 <= m <= 12 && 1 <= d <= 28 ==> ok
    ensures m == 2 && d == 29 ==> (ok <==> MinYear <= y <= MaxYear && IsLeapYear(y))
    ensures d == 31 ==> (ok <==> MinYear <= y <= MaxYear && m in {1, 3, 5, 7, 8, 10, 12})
  {
    MinYear <= y <= MaxYear && 1 <= m <= 12 && 1 <= d <= DaysInMonth(y, m)
  }

  predicate Valid(date: Date) {
    IsValidDate(date.year, date.month, date.day)
  }
}
