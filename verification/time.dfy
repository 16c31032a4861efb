/** Instants as integer milliseconds since 1970-01-01T00:00:00.000 on a single timeline:
    the local calendar of the JavaScript `Date` methods is taken to coincide with UTC. */
module Time {

  const MsPerDay: int := 86_400_000

  /** The calendar day an instant falls on, counted from 1970-01-01 (day 0). */
  function Day(t: int): int {
    t / MsPerDay
  }

  /** Milliseconds since midnight. */
  function TimeOfDay(t: int): (r: int)
    ensures 0 <= r < MsPerDay
    ensures t == Day(t) * MsPerDay + r
  {
    t % MsPerDay
  }

  /** Midnight at the start of `t`'s day (`setHours(0, 0, 0, 0)`, date-fns `startOfDay`). */
  function StartOfDay(t: int): (r: int)
    ensures Day(r) == Day(t) && TimeOfDay(r) == 0
    ensures r <= t < r + MsPerDay
  {
    Day(t) * MsPerDay
  }

  /** The last millisecond of `t`'s day (`setHours(23, 59, 59, 999)`, date-fns `endOfDay`). */
  function EndOfDay(t: int): (r: int)
    ensures Day(r) == Day(t) && TimeOfDay(r) == MsPerDay - 1
    ensures t <= r && Day(r + 1) == Day(t) + 1
  {
    StartOfDay(t) + MsPerDay - 1
  }

  /** An instant lies between the start of one day and the end of another exactly when
      its own day lies between the two days. */
  lemma DayWindow(t: int, a: int, b: int)
    ensures StartOfDay(a) <= t <= EndOfDay(b) <==> Day(a) <= Day(t) <= Day(b)
  {
  }

  /** Normalising to a day boundary a second time changes nothing. */
  lemma DayBoundsIdempotent(t: int)
    ensures StartOfDay(StartOfDay(t)) == StartOfDay(t)
    ensures EndOfDay(EndOfDay(t)) == EndOfDay(t)
  {
  }

  /** `getDay()`: 0 is Sunday, 1 Monday, ..., 6 Saturday. Day 0 was a Thursday. */
  function Weekday(t: int): (r: int)
    ensures 0 <= r < 7
  {
    (Day(t) + 4) % 7
  }

  /** A pair of instants bounding a period. */
  datatype Range = Range(start: int, end: int)

  /** A calendar date of the proleptic Gregorian calendar (`getFullYear`, `getMonth() + 1`, `getDate()`). */
  datatype Civil = Civil(year: int, month: int, day: int)

  predicate IsLeapYear(y: int) {
    y % 4 == 0 && (y % 100 != 0 || y % 400 == 0)
  }

  function DaysInYear(y: int): int {
    if IsLeapYear(y) then 366 else 365
  }

  function DaysInMonth(y: int, m: int): (n: int)
    requires 1 <= m <= 12
    ensures 28 <= n <= 31
  {
    if m == 2 then (if IsLeapYear(y) then 29 else 28)
    else if m == 4 || m == 6 || m == 9 || m == 11 then 30
    else 31
  }

  /** The days of year `y` from the first of month `m` to the year's end. */
  function DaysFromMonth(y: int, m: int): int
    requires 1 <= m <= 13
    decreases 13 - m
  {
    if m == 13 then 0 else DaysInMonth(y, m) + DaysFromMonth(y, m + 1)
  }

  /** The months of a year add up to the year. */
  lemma MonthsMakeYear(y: int)
    ensures DaysFromMonth(y, 1) == DaysInYear(y)
  {
    assert DaysFromMonth(y, 10) == 92;
    assert DaysFromMonth(y, 7) == 92 + 92;
    assert DaysFromMonth(y, 4) == 91 + 184;
  }

  /** The date `d` days (0-based) after the first of month `m` of year `y`. */
  function MonthAndDay(y: int, m: int, d: nat): (c: Civil)
    requires 1 <= m <= 12
    requires d < DaysFromMonth(y, m)
    ensures c.year == y && m <= c.month <= 12 && 1 <= c.day <= DaysInMonth(y, c.month)
    decreases 12 - m
  {
    if d < DaysInMonth(y, m) then Civil(y, m, d + 1)
    else MonthAndDay(y, m + 1, d - DaysInMonth(y, m))
  }

  /** The year and day of that year (0-based) `d` days after January 1 of year `y`. */
  function YearAndDay(y: int, d: nat): (r: (int, nat))
    ensures r.1 < DaysInYear(r.0)
    decreases d
  {
    if d < DaysInYear(y) then (y, d) else YearAndDay(y + 1, d - DaysInYear(y))
  }

  /** Days from 1970-01-01 to 2000-01-01, the start of a 400-year Gregorian cycle. */
  const Day2000: int := 10957
  const DaysPer400Years: int := 146097

  /** The calendar date of a day number. */
  function CivilFromDays(z: int): (c: Civil)
    ensures 1 <= c.month <= 12 && 1 <= c.day <= DaysInMonth(c.year, c.month)
  {
    var cycle := (z - Day2000) / DaysPer400Years;
    var r := YearAndDay(2000 + 400 * cycle, (z - Day2000) % DaysPer400Years);
    MonthsMakeYear(r.0);
    MonthAndDay(r.0, 1, r.1)
  }

  lemma CivilFromDaysExample()
    ensures CivilFromDays(Day2000) == Civil(2000, 1, 1)
    ensures CivilFromDays(Day2000 + 59) == Civil(2000, 2, 29)
  {
  }
}
