/**
 * The part of Python's `datetime` the parser uses: the constructor's range
 * checks, and adding one hour. Dates are proleptic Gregorian and naive (no
 * time zone), years 1 to 9999.
 */
module Calendar {
  import opened Wrappers

  const MIN_YEAR: int := 1
  const MAX_YEAR: int := 9999

  datatype DateTime = DateTime(year: int, month: int, day: int, hour: int, minute: int)

  /** The exceptions the parser can let escape. */
  datatype PyError = ValueError | OverflowError

  predicate IsLeap(y: int) {
    y % 4 == 0 && (y % 100 != 0 || y % 400 == 0)
  }

  function DaysInYear(y: int): int {
    if IsLeap(y) then 366 else 365
  }

  function DaysInMonth(y: int, m: int): int
    requires 1 <= m <= 12
  {
    if m == 2 then (if IsLeap(y) then 29 else 28)
    else if m == 4 || m == 6 || m == 9 || m == 11 then 30
    else 31
  }

  /** Days in the months of year `y` before month `m`. */
  function DaysBeforeMonth(y: int, m: int): int
    requires 1 <= m <= 12
  {
    [0, 31, 59, 90, 120, 151, 181, 212, 243, 273, 304, 334][m - 1] + (if m > 2 && IsLeap(y) then 1 else 0)
  }

  /** Days in the years before year `y`, counted from year 1. */
  function DaysBeforeYear(y: int): int {
    var p := y - 1;
    p * 365 + p / 4 - p / 100 + p / 400
  }

  /** What `datetime.datetime(year, month, day, hour, minute)` accepts without a ValueError. */
  predicate IsValid(dt: DateTime) {
    && MIN_YEAR <= dt.year <= MAX_YEAR
    && 1 <= dt.month <= 12
    && 1 <= dt.day <= DaysInMonth(dt.year, dt.month)
    && 0 <= dt.hour <= 23
    && 0 <= dt.minute <= 59
  }

  /** Day number, 0001-01-01 being day 1 (`date.toordinal()`). */
  function Ordinal(dt: DateTime): int
    requires IsValid(dt)
  {
    DaysBeforeYear(dt.year) + DaysBeforeMonth(dt.year, dt.month) + dt.day
  }

  /** Minutes elapsed since 0001-01-01 00:00: the reference for durations. */
  function MinutesOf(dt: DateTime): int
    requires IsValid(dt)
  {
    (Ordinal(dt) - 1) * 1440 + dt.hour * 60 + dt.minute
  }

  lemma DaysBeforeYearStep(y: int)
    ensures DaysBeforeYear(y + 1) == DaysBeforeYear(y) + DaysInYear(y)
  {
    QuotientStep4(y);
    QuotientStep100(y);
    QuotientStep400(y);
  }

  // Going from y - 1 to y, the quotient by d grows by one exactly when d divides y.

  lemma QuotientStep4(y: int)
    ensures y / 4 - (y - 1) / 4 == (if y % 4 == 0 then 1 else 0)
  {
  }

  lemma QuotientStep100(y: int)
    ensures y / 100 - (y - 1) / 100 == (if y % 100 == 0 then 1 else 0)
  {
  }

  lemma QuotientStep400(y: int)
    ensures y / 400 - (y - 1) / 400 == (if y % 400 == 0 then 1 else 0)
  {
  }

  lemma {:induction false} DaysBeforeYearMonotone(a: int, b: int)
    requires a <= b
    ensures DaysBeforeYear(a) <= DaysBeforeYear(b)
    decreases b - a
  {
    if a < b {
      DaysBeforeYearStep(a);
      DaysBeforeYearMonotone(a + 1, b);
    }
  }

  lemma MonthsFitYear(y: int, m: int)
    requires 1 <= m <= 12
    ensures DaysBeforeMonth(y, m) + DaysInMonth(y, m) == (if m < 12 then DaysBeforeMonth(y, m + 1) else DaysInYear(y))
  {
  }

  lemma MonthsIncrease(y: int, m1: int, m2: int)
    requires 1 <= m1 < m2 <= 12
    ensures DaysBeforeMonth(y, m1) + DaysInMonth(y, m1) <= DaysBeforeMonth(y, m2)
  {
  }

  /** A valid date lies inside its year: its day number is in DaysBeforeYear(year)+1 .. DaysBeforeYear(year+1). */
  lemma OrdinalInYear(dt: DateTime)
    requires IsValid(dt)
    ensures DaysBeforeYear(dt.year) < Ordinal(dt) <= DaysBeforeYear(dt.year + 1)
  {
    MonthsFitYear(dt.year, dt.month);
    if dt.month < 12 {
      MonthsIncrease(dt.year, dt.month, 12);
      MonthsFitYear(dt.year, 12);
    }
    DaysBeforeYearStep(dt.year);
  }

  /** Day numbers follow calendar order. */
  lemma OrdinalOrdered(a: DateTime, b: DateTime)
    requires IsValid(a) && IsValid(b)
    requires a.year < b.year
          || (a.year == b.year && a.month < b.month)
          || (a.year == b.year && a.month == b.month && a.day < b.day)
    ensures Ordinal(a) < Ordinal(b)
  {
    if a.year < b.year {
      OrdinalInYear(a);
      OrdinalInYear(b);
      DaysBeforeYearMonotone(a.year + 1, b.year);
    } else if a.month < b.month {
      MonthsIncrease(a.year, a.month, b.month);
    }
  }

  /** Distinct valid date-times are distinct instants. */
  lemma MinutesInjective(a: DateTime, b: DateTime)
    requires IsValid(a) && IsValid(b)
    ensures MinutesOf(a) == MinutesOf(b) ==> a == b
  {
    if MinutesOf(a) == MinutesOf(b) && (a.year, a.month, a.day) != (b.year, b.month, b.day) {
      assert Ordinal(a) == Ordinal(b);
      if a.year < b.year || (a.year == b.year && a.month < b.month)
        || (a.year == b.year && a.month == b.month && a.day < b.day) {
        OrdinalOrdered(a, b);
      } else {
        OrdinalOrdered(b, a);
      }
    }
  }

  /** No valid date-time is later than 9999-12-31 23:59. */
  lemma MinutesBounded(dt: DateTime)
    requires IsValid(dt)
    ensures MinutesOf(dt) < (DaysBeforeYear(MAX_YEAR + 1)) * 1440
  {
    OrdinalInYear(dt);
    DaysBeforeYearMonotone(dt.year + 1, MAX_YEAR + 1);
  }

  /**
   * `dt + timedelta(hours=1)`: the hour carries into the day, the day into
   * the month, the month into the year; past year 9999 Python raises
   * OverflowError, here None.
   */
  function AddOneHour(dt: DateTime): (r: Option<DateTime>)
    requires IsValid(dt)
    ensures r.Some? ==> IsValid(r.value) && MinutesOf(r.value) == MinutesOf(dt) + 60
    ensures r.None? <==> dt.year == MAX_YEAR && dt.month == 12 && dt.day == 31 && dt.hour == 23
  {
    if dt.hour < 23 then Some(dt.(hour := dt.hour + 1))
    else if dt.day < DaysInMonth(dt.year, dt.month) then Some(dt.(day := dt.day + 1, hour := 0))
    else if dt.month < 12 then
      MonthRollover(dt);
      Some(dt.(month := dt.month + 1, day := 1, hour := 0))
    else if dt.year < MAX_YEAR then
      YearRollover(dt);
      Some(DateTime(dt.year + 1, 1, 1, 0, dt.minute))
    else None
  }

  /** From 23:xx on the last day of a month other than December to 00:xx on the 1st of the next. */
  lemma MonthRollover(dt: DateTime)
    requires IsValid(dt) && dt.hour == 23 && dt.day == DaysInMonth(dt.year, dt.month) && dt.month < 12
    ensures var e := dt.(month := dt.month + 1, day := 1, hour := 0);
      IsValid(e) && MinutesOf(e) == MinutesOf(dt) + 60
  {
    MonthsFitYear(dt.year, dt.month);
  }

  /** From 23:xx on 31 December to 00:xx on 1 January. */
  lemma YearRollover(dt: DateTime)
    requires IsValid(dt) && dt.hour == 23 && dt.month == 12 && dt.day == 31 && dt.year < MAX_YEAR
    ensures var e := DateTime(dt.year + 1, 1, 1, 0, dt.minute);
      IsValid(e) && MinutesOf(e) == MinutesOf(dt) + 60
  {
    MonthsFitYear(dt.year, 12);
    DaysBeforeYearStep(dt.year);
  }

  /** The one-hour step is the ONLY valid date-time 60 minutes later, and there is none when it overflows. */
  lemma AddOneHourExact(dt: DateTime, e: DateTime)
    requires IsValid(dt) && IsValid(e)
    ensures MinutesOf(e) == MinutesOf(dt) + 60 <==> AddOneHour(dt) == Some(e)
  {
    if AddOneHour(dt).Some? {
      if MinutesOf(e) == MinutesOf(dt) + 60 {
        MinutesInjective(e, AddOneHour(dt).value);
      }
    } else {
      MinutesBounded(e);
      OrdinalInYear(dt);
      assert Ordinal(dt) == DaysBeforeYear(MAX_YEAR + 1);
    }
  }
}
