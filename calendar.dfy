/**
 * Calendar arithmetic of ECMAScript's `Date`, on day numbers (days since
 * 1 January 1970). `new Date(y, m, d)` builds its day with MakeDay, which
 * rolls an out-of-range month into the year and an out-of-range day into
 * the following (or preceding) months instead of rejecting it.
 */
module Calendar {

  /** Milliseconds in a day: a local midnight's time value is its day number times this. */
  const MsPerDay: int := 86400000

  /** ECMAScript DayFromYear: the day number of 1 January of year `y`. */
  function DayFromYear(y: int): int {
    365 * (y - 1970) + (y - 1969) / 4 - (y - 1901) / 100 + (y - 1601) / 400
  }

  predicate IsLeapYear(y: int) {
    y % 4 == 0 && (y % 100 != 0 || y % 400 == 0)
  }

  function DaysInYear(y: int): int {
    if IsLeapYear(y) then 366 else 365
  }

  /** Days in month `m` (1 = January) of year `y`. */
  function DaysInMonth(y: int, m: int): (n: int)
    requires 1 <= m <= 12
    ensures 28 <= n <= 31
  {
    if m == 2 then (if IsLeapYear(y) then 29 else 28)
    else if m == 4 || m == 6 || m == 9 || m == 11 then 30
    else 31
  }

  /** Days of year `y` before the first of the month with zero-based index `mn`. */
  function DaysBeforeMonth(y: int, mn: int): int
    requires 0 <= mn <= 12
  {
    [0, 31, 59, 90, 120, 151, 181, 212, 243, 273, 304, 334, 365][mn]
    + (if mn >= 2 && IsLeapYear(y) then 1 else 0)
  }

  lemma DaysBeforeNextMonth(y: int, mn: int)
    requires 0 <= mn < 12
    ensures DaysBeforeMonth(y, mn + 1) == DaysBeforeMonth(y, mn) + DaysInMonth(y, mn + 1)
  {
  }

  /**
   * ECMAScript MakeDay(year, month, date) with a zero-based month: the
   * month index is first folded into the year, then the date counts from
   * the first of that month, past its end if it is large.
   */
  function MakeDay(year: int, month: int, date: int): (day: int)
    ensures 0 <= month < 12 ==> day == DayFromYear(year) + DaysBeforeMonth(year, month) + date - 1
    ensures month == 12 ==> day == DayFromYear(year + 1) + date - 1
    ensures month == -1 ==> day == DayFromYear(year - 1) + DaysBeforeMonth(year - 1, 11) + date - 1
  {
    var ym := year + month / 12;
    var mn := month % 12;
    DayFromYear(ym) + DaysBeforeMonth(ym, mn) + date - 1
  }

  /** A real calendar date, month 1..12 and day within the month. */
  predicate ValidDate(y: int, m: int, d: int) {
    1 <= m <= 12 && 1 <= d <= DaysInMonth(y, m)
  }

  /** The day number of the calendar date d/m/y (month 1 = January). */
  function DayOf(y: int, m: int, d: int): int {
    MakeDay(y, m - 1, d)
  }

  /** The time value of a day's local midnight (time zones are not modelled). */
  function TimeOf(day: int): int {
    day * MsPerDay
  }

  lemma TimeOrder(a: int, b: int)
    ensures TimeOf(a) < TimeOf(b) <==> a < b
  {
  }

  lemma FourStep(y: int)
    ensures (y - 1968) / 4 - (y - 1969) / 4 == if y % 4 == 0 then 1 else 0
  {
    var q, r := y / 4, y % 4;
    assert y - 1968 == 4 * (q - 492) + r;
    assert (y - 1968) / 4 == q - 492;
    if r == 0 {
      assert y - 1969 == 4 * (q - 493) + 3;
    } else {
      assert y - 1969 == 4 * (q - 492) + (r - 1);
    }
  }

  lemma HundredStep(y: int)
    ensures (y - 1900) / 100 - (y - 1901) / 100 == if y % 100 == 0 then 1 else 0
  {
    var q, r := y / 100, y % 100;
    assert y - 1900 == 100 * (q - 19) + r;
    assert (y - 1900) / 100 == q - 19;
    if r == 0 {
      assert y - 1901 == 100 * (q - 20) + 99;
    } else {
      assert y - 1901 == 100 * (q - 19) + (r - 1);
    }
  }

  lemma FourHundredStep(y: int)
    ensures (y - 1600) / 400 - (y - 1601) / 400 == if y % 400 == 0 then 1 else 0
  {
    var q, r := y / 400, y % 400;
    assert y - 1600 == 400 * (q - 4) + r;
    assert (y - 1600) / 400 == q - 4;
    if r == 0 {
      assert y - 1601 == 400 * (q - 5) + 399;
    } else {
      assert y - 1601 == 400 * (q - 4) + (r - 1);
    }
  }

  /** The leap-year rule as the three corrections DayFromYear adds up. */
  lemma LeapCorrections(y: int)
    ensures DaysInYear(y) == 365 + (if y % 4 == 0 then 1 else 0)
      - (if y % 100 == 0 then 1 else 0) + (if y % 400 == 0 then 1 else 0)
  {
    if y % 100 == 0 {
      var q := y / 100;
      assert y == 4 * (25 * q);
    }
    if y % 400 == 0 {
      var q := y / 400;
      assert y == 100 * (4 * q);
    }
  }

  /** Consecutive new years are a year's length apart. */
  lemma DayFromYearStep(y: int)
    ensures DayFromYear(y + 1) == DayFromYear(y) + DaysInYear(y)
  {
    FourStep(y);
    HundredStep(y);
    FourHundredStep(y);
    LeapCorrections(y);
    var a1, a0 := (y - 1968) / 4, (y - 1969) / 4;
    var b1, b0 := (y - 1900) / 100, (y - 1901) / 100;
    var c1, c0 := (y - 1600) / 400, (y - 1601) / 400;
    assert DayFromYear(y) == 365 * (y - 1970) + a0 - b0 + c0;
    assert DayFromYear(y + 1) == 365 * (y - 1969) + a1 - b1 + c1;
    assert DayFromYear(y + 1) - DayFromYear(y) == 365 + (a1 - a0) - (b1 - b0) + (c1 - c0);
  }

  lemma {:induction false} DayFromYearIncreasing(y1: int, y2: int)
    requires y1 < y2
    ensures DayFromYear(y1) + DaysInYear(y1) <= DayFromYear(y2)
    decreases y2 - y1
  {
    DayFromYearStep(y1);
    if y1 + 1 < y2 {
      DayFromYearIncreasing(y1 + 1, y2);
    }
  }

  lemma {:induction false} DaysBeforeMonthIncreasing(y: int, a: int, b: int)
    requires 0 <= a < b <= 12
    ensures DaysBeforeMonth(y, a) + DaysInMonth(y, a + 1) <= DaysBeforeMonth(y, b)
    decreases b - a
  {
    DaysBeforeNextMonth(y, a);
    if a + 1 < b {
      DaysBeforeMonthIncreasing(y, a + 1, b);
    }
  }

  lemma DaysBeforeYearEnd(y: int)
    ensures DaysBeforeMonth(y, 12) == DaysInYear(y)
  {
  }

  /** A valid date lies inside its month, which lies inside its year. */
  lemma DayOfBounds(y: int, m: int, d: int)
    requires ValidDate(y, m, d)
    ensures DayOf(y, m, d) == DayFromYear(y) + DaysBeforeMonth(y, m - 1) + d - 1
    ensures DayFromYear(y) <= DayOf(y, m, d) < DayFromYear(y) + DaysInYear(y)
  {
    assert (m - 1) / 12 == 0 && (m - 1) % 12 == m - 1;
    if m < 12 {
      DaysBeforeMonthIncreasing(y, m - 1, 12);
    }
    DaysBeforeYearEnd(y);
  }

  predicate DateBefore(y1: int, m1: int, d1: int, y2: int, m2: int, d2: int) {
    y1 < y2 || (y1 == y2 && (m1 < m2 || (m1 == m2 && d1 < d2)))
  }

  /** On real dates the day number follows calendar order. */
  lemma DayOfIncreasing(y1: int, m1: int, d1: int, y2: int, m2: int, d2: int)
    requires ValidDate(y1, m1, d1) && ValidDate(y2, m2, d2)
    requires DateBefore(y1, m1, d1, y2, m2, d2)
    ensures DayOf(y1, m1, d1) < DayOf(y2, m2, d2)
  {
    DayOfBounds(y1, m1, d1);
    DayOfBounds(y2, m2, d2);
    if y1 < y2 {
      DayFromYearIncreasing(y1, y2);
    } else if m1 < m2 {
      DaysBeforeMonthIncreasing(y1, m1 - 1, m2 - 1);
    }
  }

  /** Distinct real dates have distinct day numbers, so a day number names one date. */
  lemma DayOfInjective(y1: int, m1: int, d1: int, y2: int, m2: int, d2: int)
    requires ValidDate(y1, m1, d1) && ValidDate(y2, m2, d2)
    requires DayOf(y1, m1, d1) == DayOf(y2, m2, d2)
    ensures y1 == y2 && m1 == m2 && d1 == d2
  {
    if DateBefore(y1, m1, d1, y2, m2, d2) {
      DayOfIncreasing(y1, m1, d1, y2, m2, d2);
    } else if DateBefore(y2, m2, d2, y1, m1, d1) {
      DayOfIncreasing(y2, m2, d2, y1, m1, d1);
    }
  }

  /** A day past the end of a month is the matching day of the next month. */
  lemma RolloverIntoNextMonth(y: int, m: int, k: int)
    requires 1 <= m <= 12
    ensures MakeDay(y, m - 1, DaysInMonth(y, m) + k) == MakeDay(y, m, k)
  {
    if m < 12 {
      assert (m - 1) / 12 == 0 && (m - 1) % 12 == m - 1;
      assert m / 12 == 0 && m % 12 == m;
      DaysBeforeNextMonth(y, m - 1);
    } else {
      assert (m - 1) / 12 == 0 && (m - 1) % 12 == 11;
      assert m / 12 == 1 && m % 12 == 0;
      DaysBeforeYearEnd(y);
      DayFromYearStep(y);
    }
  }

  /** 31 February 2024 is read as 2 March 2024. */
  lemma RolloverExample()
    ensures MakeDay(2024, 1, 31) == DayOf(2024, 3, 2)
  {
  }
}
