/**
 * Timestamps as whole minutes.  A moment is the number of minutes since
 * 0001-01-01 00:00 in the proleptic Gregorian calendar, the day count that
 * Python's `datetime` uses for its ordinals.  Every moment the downloader
 * builds is a whole minute and `timedelta` arithmetic on them is exact, so
 * adding `timedelta(days = n)` is adding `n * MINUTES_PER_DAY`.
 */
module Clock {

  const MINUTES_PER_HOUR: int := 60
  const MINUTES_PER_DAY: int := 1440

  predicate IsLeap(y: int) {
    y % 4 == 0 && (y % 100 != 0 || y % 400 == 0)
  }

  function DaysInMonth(y: int, m: int): (n: int)
    requires 1 <= m <= 12
    ensures 28 <= n <= 31
  {
    if m == 2 then (if IsLeap(y) then 29 else 28)
    else if m == 4 || m == 6 || m == 9 || m == 11 then 30
    else 31
  }

  /** The fields `datetime(y, m, d, h, mi)` accepts without raising. */
  predicate ValidDateTime(y: int, m: int, d: int, h: int, mi: int) {
    1 <= y <= 9999 && 1 <= m <= 12 && 1 <= d <= DaysInMonth(y, m) &&
    0 <= h < 24 && 0 <= mi < 60
  }

  /** Days in the years before year `y`. */
  function DaysBeforeYear(y: int): int
    requires y >= 1
  {
    var y1 := y - 1;
    y1 * 365 + y1 / 4 - y1 / 100 + y1 / 400
  }

  /** Days in the months of year `y` before month `m`. */
  function DaysBeforeMonth(y: int, m: int): int
    requires 1 <= m <= 12
  {
    var before := [0, 31, 59, 90, 120, 151, 181, 212, 243, 273, 304, 334];
    before[m - 1] + (if m > 2 && IsLeap(y) then 1 else 0)
  }

  /** The moment `datetime(y, m, d, h, mi)`, in minutes. */
  function DateTime(y: int, m: int, d: int, h: int, mi: int): int
    requires ValidDateTime(y, m, d, h, mi)
  {
    (DaysBeforeYear(y) + DaysBeforeMonth(y, m) + d - 1) * MINUTES_PER_DAY + h * MINUTES_PER_HOUR + mi
  }

  /** `datetime(y, m, d)`: midnight. */
  function Date(y: int, m: int, d: int): int
    requires ValidDateTime(y, m, d, 0, 0)
  {
    DateTime(y, m, d, 0, 0)
  }
}
