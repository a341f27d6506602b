/** web/src/lib/helpers.ts: `daysInMonth`, the calendar helper of the graph page. */
module Helpers {

  /** What `new Date()` contributes: `getFullYear()` and the 0-based `getMonth()`. */
  datatype Now = Now(fullYear: int, month: int)

  predicate ValidNow(now: Now) { 0 <= now.month < 12 }

  /** Gregorian leap years, extended to all integers (the JavaScript Date calendar is proleptic). */
  predicate IsLeapYear(y: int)
  {
    y % 4 == 0 && (y % 100 != 0 || y % 400 == 0)
  }

  /** Length of calendar month `m` (1 = January ... 12 = December) of year `y`. */
  function MonthLength(y: int, m: int): (days: int)
    requires 1 <= m <= 12
    ensures 28 <= days <= 31
  {
    if m == 2 then (if IsLeapYear(y) then 29 else 28)
    else if m == 4 || m == 6 || m == 9 || m == 11 then 30
    else 31
  }

  /** The Date constructor reads a year argument from 0 to 99 as 1900 to 1999. */
  function DateYear(y: int): (r: int)
    ensures 0 <= y <= 99 ==> r == 1900 + y
    ensures !(0 <= y <= 99) ==> r == y
  {
    if 0 <= y <= 99 then 1900 + y else y
  }

  /** `daysInMonth(month, year)`: a falsy (zero) year or month is replaced by the current one;
      then `new Date(year, month + 1, 0).getDate()`, the last day of the month with 0-based
      index `month` after the Date constructor has normalised it: month index 12 is January of
      the following year, -1 is December of the previous one. Dafny's `/` and `%` by 12 round
      toward minus infinity, which is the normalisation the Date constructor performs. */
  function DaysInMonth(month: int, year: int, now: Now): (days: int)
    ensures 28 <= days <= 31
  {
    var y := if year == 0 then now.fullYear else year;
    var m := if month == 0 then now.month else month;
    MonthLength(DateYear(y) + m / 12, m % 12 + 1)
  }

  /** A year the Date constructor takes literally: not 0 (replaced by the current year)
      and not 1 to 99 (read as 1901 to 1999). */
  predicate LiteralYear(y: int) { y < 0 || y >= 100 }

  /** For an explicit month index 1 to 11 and a literal year, the result is the length of
      calendar month `m + 1` of that year. */
  lemma DaysInMonthOfCalendarMonth(m: int, y: int, now: Now)
    requires 1 <= m <= 11 && LiteralYear(y)
    ensures DaysInMonth(m, y, now) == MonthLength(y, m + 1)
  {
  }

  /** February has 29 days exactly in leap years. */
  lemma FebruaryLength(y: int, now: Now)
    requires LiteralYear(y)
    ensures DaysInMonth(1, y, now) == 29 <==> IsLeapYear(y)
    ensures DaysInMonth(1, y, now) == 28 <==> !IsLeapYear(y)
  {
  }

  /** April, June, September and November have 30 days; March, May, July, August, October
      and December have 31. */
  lemma ThirtyAndThirtyOne(m: int, y: int, now: Now)
    requires 1 <= m <= 11 && LiteralYear(y)
    ensures DaysInMonth(m, y, now) == 30 <==> m in {3, 5, 8, 10}
    ensures DaysInMonth(m, y, now) == 31 <==> m in {2, 4, 6, 7, 9, 11}
  {
  }

  /** Month index 0 is falsy: it is replaced by the current month, so January is computed
      only when the current month is January. */
  lemma MonthZeroMeansNow(y: int, now: Now)
    requires ValidNow(now) && LiteralYear(y)
    ensures DaysInMonth(0, y, now) == MonthLength(y, now.month + 1)
  {
  }

  /** Year 0 is falsy: it is replaced by the current year. */
  lemma YearZeroMeansNow(m: int, now: Now)
    requires m != 0 && now.fullYear != 0
    ensures DaysInMonth(m, 0, now) == DaysInMonth(m, now.fullYear, now)
  {
  }

  /** Overflowing month indices move into neighbouring years: index `m + 12 * k` of year
      `y` is index `m` of year `y + k` (so index 12 is January of the next year). */
  lemma {:induction false} MonthOverflow(m: int, k: int, y: int, now: Now)
    requires m != 0 && m + 12 * k != 0
    requires LiteralYear(y) && LiteralYear(y + k)
    ensures DaysInMonth(m + 12 * k, y, now) == DaysInMonth(m, y + k, now)
  {
    assert (m + 12 * k) / 12 == m / 12 + k;
    assert (m + 12 * k) % 12 == m % 12;
  }

  /** Month index 12 of a literal year is January of the next year: 31 days. */
  lemma MonthTwelve(y: int, now: Now)
    requires LiteralYear(y) && LiteralYear(y + 1)
    ensures DaysInMonth(12, y, now) == 31
  {
  }

  /** The twelve month lengths add up to the length of the year: 366 in leap years,
      365 otherwise. */
  lemma YearLength(y: int)
    ensures MonthLength(y, 1) + MonthLength(y, 2) + MonthLength(y, 3) + MonthLength(y, 4)
          + MonthLength(y, 5) + MonthLength(y, 6) + MonthLength(y, 7) + MonthLength(y, 8)
          + MonthLength(y, 9) + MonthLength(y, 10) + MonthLength(y, 11) + MonthLength(y, 12)
          == if IsLeapYear(y) then 366 else 365
  {
  }

  // An independent day count: the number of days from 1970-01-01 to a proleptic Gregorian
  // date, by the era-based formula (eras of 400 years, years starting in March).

  function DaysFromCivil(y: int, m: int, d: int): int
    requires 1 <= m <= 12
  {
    var y := if m <= 2 then y - 1 else y;
    var era := y / 400;
    var yoe := y % 400;
    var mp := (m + 9) % 12;
    var doy := (153 * mp + 2) / 5 + d - 1;
    var doe := yoe * 365 + yoe / 4 - yoe / 100 + doy;
    era * 146097 + doe - 719468
  }

  /** The days before the first of March of year `y + 1`, counted from that era's origin. */
  function MarchYearStart(y: int): int
  {
    (y / 400) * 146097 + (y % 400) * 365 + (y % 400) / 4 - (y % 400) / 100
  }

  /** Splitting a year into its era and its year of era keeps its residues modulo 4 and 100. */
  lemma DivMod400(a: int, q: int, r: int)
    requires a == 400 * q + r && 0 <= r < 400
    ensures a / 400 == q && a % 400 == r
    ensures a % 4 == r % 4 && a % 100 == r % 100
  {
    ModOfShift(a, 4, 100 * q, r);
    ModOfShift(a, 100, 4 * q, r);
  }

  /** Adding a multiple of `d` does not change the residue modulo `d`. */
  lemma ModOfShift(a: int, d: int, k: int, r: int)
    requires d == 4 || d == 100
    requires a == d * k + r && 0 <= r
    ensures a % d == r % d
  {
    var t := k + r / d;
    assert a == d * t + r % d;
  }

  /** Within one 400-year era, a year adds one day when it holds a leap February. */
  lemma {:induction false} YearStepInEra(r: int)
    requires 1 <= r < 400
    ensures r * 365 + r / 4 - r / 100 - ((r - 1) * 365 + (r - 1) / 4 - (r - 1) / 100)
            == if r % 4 == 0 && r % 100 != 0 then 366 else 365
  {
    assert r / 4 - (r - 1) / 4 == if r % 4 == 0 then 1 else 0;
    assert r / 100 - (r - 1) / 100 == if r % 100 == 0 then 1 else 0;
  }

  /** A March-to-February year has 366 days when the February it contains is a leap one. */
  lemma {:induction false} MarchYearLength(y: int)
    ensures MarchYearStart(y) - MarchYearStart(y - 1) == if IsLeapYear(y) then 366 else 365
  {
    var e, r := y / 400, y % 400;
    DivMod400(y, e, r);
    if r == 0 {
      DivMod400(y - 1, e - 1, 399);
    } else {
      DivMod400(y - 1, e, r - 1);
      YearStepInEra(r);
    }
  }

  /** The table of month lengths agrees with the day count: month `m` of year `y` lasts from
      its first day to the first day of the following month. */
  lemma MonthLengthIsDayCount(y: int, m: int)
    requires 1 <= m <= 12
    ensures MonthLength(y, m) == (if m == 12 then DaysFromCivil(y + 1, 1, 1) else DaysFromCivil(y, m + 1, 1))
                                 - DaysFromCivil(y, m, 1)
  {
    CivilSplit(y, m, 1);
    if m == 12 {
      CivilSplit(y + 1, 1, 1);
    } else {
      CivilSplit(y, m + 1, 1);
    }
    if m == 2 {
      // February closes the March-to-February year that began in y - 1
      MarchYearLength(y);
      assert MarchDay(3) == 0 && MarchDay(2) == 337;
    } else {
      MonthSpan(m);
      assert MonthLength(y, m) == MonthLength(0, m);
    }
  }

  /** Every month but February starts and ends within one March-to-February year, and the
      offsets of its first day and of the next month's first day differ by its length. */
  lemma MonthSpan(m: int)
    requires 1 <= m <= 12 && m != 2
    ensures MarchDay(if m == 12 then 1 else m + 1) - MarchDay(m) == MonthLength(0, m)
  {
  }

  /** The first day of month `m` within its March-to-February year. */
  function MarchDay(m: int): int
    requires 1 <= m <= 12
  {
    (153 * ((m + 9) % 12) + 2) / 5
  }

  /** A day count is the start of its March-to-February year plus the day within it. */
  lemma CivilSplit(y: int, m: int, d: int)
    requires 1 <= m <= 12
    ensures DaysFromCivil(y, m, d) == MarchYearStart(if m <= 2 then y - 1 else y) + MarchDay(m) + d - 1 - 719468
  {
  }

  /** `daysInMonth` counts the days from the first of the requested month, normalised as the
      Date constructor does, to the first of the month after it. */
  lemma DaysInMonthIsDayCount(month: int, year: int, now: Now)
    requires month != 0 && LiteralYear(year)
    ensures var y, m := year + month / 12, month % 12 + 1;
            DaysInMonth(month, year, now)
            == (if m == 12 then DaysFromCivil(y + 1, 1, 1) else DaysFromCivil(y, m + 1, 1))
               - DaysFromCivil(y, m, 1)
  {
    var y, m := year + month / 12, month % 12 + 1;
    assert DateYear(year) == year;
    assert DaysInMonth(month, year, now) == MonthLength(y, m);
    MonthLengthIsDayCount(y, m);
  }
}
