/**
 * Calendar days of the proleptic Gregorian calendar, as pandas and Python's
 * `datetime.date` count them. A day is an integer ordinal: day 0 is 0001-01-01
 * (Python's `date.toordinal()` minus one).
 */
module Calendar {

  /** A calendar day; the time of day has been discarded. */
  type Date = int

  /** A parsed timestamp: its calendar day and the seconds elapsed since midnight. */
  datatype Timestamp = Timestamp(date: Date, secondOfDay: nat)

  const DaysPer400Years := 146097
  const DaysPer100Years := 36524
  const DaysPer4Years := 1461
  const DaysPerYear := 365

  predicate IsLeapYear(y: int) {
    y % 4 == 0 && (y % 100 != 0 || y % 400 == 0)
  }

  function DaysInYear(y: int): int {
    if IsLeapYear(y) then 366 else 365
  }

  /** Number of days from 0001-01-01 to January 1 of year `y`. */
  function DaysBeforeYear(y: int): int {
    var k := y - 1;
    365 * k + k / 4 - k / 100 + k / 400
  }

  /** A year and a 1-based day within it. */
  datatype YearDay = YearDay(year: int, dayOfYear: int)

  /**
   * Splits an ordinal into its year and day of year by peeling off whole
   * 400-, 100-, 4- and 1-year blocks; the last day of a block whose final
   * year is a leap year is day 366.
   */
  function ToYearDay(d: Date): YearDay {
    var n400 := d / DaysPer400Years;
    var r400 := d % DaysPer400Years;
    var n100 := r400 / DaysPer100Years;
    var r100 := r400 % DaysPer100Years;
    var n4 := r100 / DaysPer4Years;
    var r4 := r100 % DaysPer4Years;
    var n1 := r4 / DaysPerYear;
    var r1 := r4 % DaysPerYear;
    var year := 400 * n400 + 100 * n100 + 4 * n4 + n1 + 1;
    if n1 == 4 || n100 == 4 then YearDay(year - 1, 366) else YearDay(year, r1 + 1)
  }

  /** pandas' `Timestamp.dayofyear`. */
  function DayOfYear(d: Date): (r: int)
    ensures 1 <= r <= 366
  {
    ToYearDay(d).dayOfYear
  }

  function YearOf(d: Date): int {
    ToYearDay(d).year
  }

  lemma DivModUnique(x: int, m: int, q: int, r: int)
    requires 0 < m && 0 <= r < m && x == q * m + r
    ensures x / m == q && x % m == r
  {
    var q', r' := x / m, x % m;
    if q' < q {
      assert (q - q') * m >= m by { MulAtLeast(q - q', m); }
    } else if q' > q {
      assert (q' - q) * m >= m by { MulAtLeast(q' - q, m); }
    }
  }

  lemma MulAtLeast(a: int, m: int)
    requires 1 <= a && 0 < m
    ensures a * m >= m
  {
  }

  /** For k = 400a + 100b + 4c + e written in mixed radix, the leap-day count is exact. */
  lemma DaysBeforeYearBlocks(a: int, b: int, c: int, e: int)
    requires 0 <= b < 4 && 0 <= c < 25 && 0 <= e < 4
    ensures DaysBeforeYear(400 * a + 100 * b + 4 * c + e + 1)
         == DaysPer400Years * a + DaysPer100Years * b + DaysPer4Years * c + DaysPerYear * e
  {
    var k := 400 * a + 100 * b + 4 * c + e;
    DivModUnique(k, 4, 100 * a + 25 * b + c, e);
    DivModUnique(k, 100, 4 * a + b, 4 * c + e);
    DivModUnique(k, 400, a, 100 * b + 4 * c + e);
  }

  /**
   * The year and day of year of `d` are a genuine calendar position: the day
   * lies within its year, and counting the full years before it plus the days
   * within it gives back `d`.
   */
  lemma {:induction false} ToYearDayCorrect(d: Date)
    ensures var yd := ToYearDay(d);
      1 <= yd.dayOfYear <= DaysInYear(yd.year) &&
      DaysBeforeYear(yd.year) + yd.dayOfYear - 1 == d
  {
    var n400 := d / DaysPer400Years;
    var r400 := d % DaysPer400Years;
    var n100 := r400 / DaysPer100Years;
    var r100 := r400 % DaysPer100Years;
    var n4 := r100 / DaysPer4Years;
    var r4 := r100 % DaysPer4Years;
    var n1 := r4 / DaysPerYear;
    var r1 := r4 % DaysPerYear;
    assert n100 <= 4 && (n100 == 4 ==> r100 == 0);
    assert n4 <= 24;
    assert n1 <= 4 && (n1 == 4 ==> r1 == 0);
    if n100 == 4 {
      var y := 400 * n400 + 400;
      DaysBeforeYearBlocks(n400, 3, 24, 3);
      DivModUnique(y, 4, 100 * n400 + 100, 0);
      DivModUnique(y, 400, n400 + 1, 0);
      assert IsLeapYear(y);
    } else if n1 == 4 {
      assert n4 < 24;
      var y := 400 * n400 + 100 * n100 + 4 * n4 + 4;
      DaysBeforeYearBlocks(n400, n100, n4, 3);
      DivModUnique(y, 4, 100 * n400 + 25 * n100 + n4 + 1, 0);
      DivModUnique(y, 100, 4 * n400 + n100, 4 * n4 + 4);
      assert IsLeapYear(y);
    } else {
      DaysBeforeYearBlocks(n400, n100, n4, n1);
    }
  }

  /** The ordinal of day `dayOfYear` (1-based) of year `year`. */
  function FromYearDay(yd: YearDay): Date {
    DaysBeforeYear(yd.year) + yd.dayOfYear - 1
  }

  /** Consecutive years start exactly one year length apart. */
  lemma DaysBeforeNextYear(y: int)
    ensures DaysBeforeYear(y + 1) == DaysBeforeYear(y) + DaysInYear(y)
  {
    var k := y - 1;
    var a, r := k / 400, k % 400;
    var b, r' := r / 100, r % 100;
    var c, e := r' / 4, r' % 4;
    assert k == 400 * a + 100 * b + 4 * c + e;
    DaysBeforeYearBlocks(a, b, c, e);
    if e < 3 {
      DaysBeforeYearBlocks(a, b, c, e + 1);
      DivModUnique(y, 4, 100 * a + 25 * b + c, e + 1);
    } else if c < 24 {
      DaysBeforeYearBlocks(a, b, c + 1, 0);
      DivModUnique(y, 4, 100 * a + 25 * b + c + 1, 0);
      DivModUnique(y, 100, 4 * a + b, 4 * c + 4);
    } else if b < 3 {
      DaysBeforeYearBlocks(a, b + 1, 0, 0);
      DivModUnique(y, 4, 100 * a + 25 * b + 25, 0);
      DivModUnique(y, 100, 4 * a + b + 1, 0);
      DivModUnique(y, 400, a, 100 * b + 100);
    } else {
      DaysBeforeYearBlocks(a + 1, 0, 0, 0);
      DivModUnique(y, 4, 100 * a + 100, 0);
      DivModUnique(y, 100, 4 * a + 4, 0);
      DivModUnique(y, 400, a + 1, 0);
    }
  }

  /** A later year starts no earlier than the day after every day of an earlier year. */
  lemma {:induction false} DaysBeforeYearMonotone(y1: int, y2: int)
    requires y1 < y2
    ensures DaysBeforeYear(y1) + DaysInYear(y1) <= DaysBeforeYear(y2)
    decreases y2 - y1
  {
    DaysBeforeNextYear(y1);
    if y1 + 1 < y2 {
      DaysBeforeYearMonotone(y1 + 1, y2);
    }
  }

  /**
   * The other half of the round trip: every valid (year, day of year) pair is
   * the decomposition of its own ordinal.
   */
  lemma FromYearDayCorrect(yd: YearDay)
    requires 1 <= yd.dayOfYear <= DaysInYear(yd.year)
    ensures ToYearDay(FromYearDay(yd)) == yd
  {
    var d := FromYearDay(yd);
    var yd' := ToYearDay(d);
    ToYearDayCorrect(d);
    if yd'.year < yd.year {
      DaysBeforeYearMonotone(yd'.year, yd.year);
    } else if yd.year < yd'.year {
      DaysBeforeYearMonotone(yd.year, yd'.year);
    }
  }

  /** The day of year of the day after `d`: one more, or 1 when `d` ends its year. */
  lemma DayOfYearNext(d: Date)
    ensures DayOfYear(d + 1) ==
      if DayOfYear(d) == DaysInYear(YearOf(d)) then 1 else DayOfYear(d) + 1
  {
    var yd := ToYearDay(d);
    ToYearDayCorrect(d);
    var next := if yd.dayOfYear == DaysInYear(yd.year) then YearDay(yd.year + 1, 1) else YearDay(yd.year, yd.dayOfYear + 1);
    if yd.dayOfYear == DaysInYear(yd.year) {
      DaysBeforeNextYear(yd.year);
    }
    assert FromYearDay(next) == d + 1;
    FromYearDayCorrect(next);
  }
}
