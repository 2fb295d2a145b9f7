/**
 * The proleptic Gregorian calendar as the calendar library uses it: the
 * leap-year rule, month lengths, the 1-based day-of-year ordinal, and the
 * behaviour of JavaScript's `Date` that the library relies on (`setDate`
 * rolling an out-of-range day into neighbouring years, the two-digit-year
 * rule of the `Date(year, month)` constructor, and the clock arithmetic of
 * `dayOfYear`).
 */
module Gregorian {

  /** The Gregorian leap-year rule exported by the calendar library.
      JavaScript's truncating `%` and Dafny's Euclidean `%` agree on whether a
      remainder is zero, so the rule reads the same for negative years. */
  function IsLeapYear(year: int): (leap: bool)
    ensures leap ==> year % 4 == 0
    ensures year % 4 == 0 && year % 100 != 0 ==> leap
    ensures year % 100 == 0 ==> (leap <==> year % 400 == 0)
  {
    (year % 4 == 0 && year % 100 != 0) || year % 400 == 0
  }

  function YearLength(year: int): (n: int)
    ensures n == 365 || n == 366
    ensures n == 366 <==> IsLeapYear(year)
  {
    if IsLeapYear(year) then 366 else 365
  }

  /** Days before the first of `month` in a common year; month 13 gives the
      length of the whole year. */
  function CommonDaysBefore(month: int): int
    requires 1 <= month <= 13
  {
    match month
    case 1 => 0
    case 2 => 31
    case 3 => 59
    case 4 => 90
    case 5 => 120
    case 6 => 151
    case 7 => 181
    case 8 => 212
    case 9 => 243
    case 10 => 273
    case 11 => 304
    case 12 => 334
    case _ => 365
  }

  /** Days of `year` before the first of `month`; month 13 stands for the
      end of December. */
  function DaysBeforeMonth(year: int, month: int): (n: int)
    requires 1 <= month <= 13
    ensures month == 1 ==> n == 0
    ensures month == 13 ==> n == YearLength(year)
  {
    CommonDaysBefore(month) + (if month > 2 && IsLeapYear(year) then 1 else 0)
  }

  /** The familiar month lengths, an independent definition that agrees with
      the cumulative table. */
  function DaysInMonth(year: int, month: int): (n: int)
    requires 1 <= month <= 12
    ensures 28 <= n <= 31
    ensures n == DaysBeforeMonth(year, month + 1) - DaysBeforeMonth(year, month)
  {
    if month == 2 then (if IsLeapYear(year) then 29 else 28)
    else if month == 4 || month == 6 || month == 9 || month == 11 then 30
    else 31
  }

  lemma DaysBeforeMonthIncreasing(year: int, a: int, b: int)
    requires 1 <= a < b <= 13
    ensures DaysBeforeMonth(year, a) < DaysBeforeMonth(year, b)
  {
  }

  datatype GregorianDate = GregorianDate(year: int, month: int, day: int) {
    /** A date that exists in the calendar (what a JavaScript `Date` always denotes). */
    predicate Valid() {
      1 <= month <= 12 && 1 <= day <= DaysInMonth(year, month)
    }
  }

  /** The 1-based position of a date within its year (January 1 is 1). */
  function DayOfYear(g: GregorianDate): (doy: int)
    requires g.Valid()
    ensures DaysBeforeMonth(g.year, g.month) < doy <= DaysBeforeMonth(g.year, g.month + 1)
    ensures 1 <= doy <= YearLength(g.year)
  {
    DaysBeforeMonth(g.year, g.month) + g.day
  }

  /** The month whose days contain ordinal `doy`. */
  function MonthOfOrdinal(year: int, doy: int): (m: int)
    requires 1 <= doy <= YearLength(year)
    ensures 1 <= m <= 12
    ensures DaysBeforeMonth(year, m) < doy <= DaysBeforeMonth(year, m + 1)
  {
    if doy <= DaysBeforeMonth(year, 2) then 1
    else if doy <= DaysBeforeMonth(year, 3) then 2
    else if doy <= DaysBeforeMonth(year, 4) then 3
    else if doy <= DaysBeforeMonth(year, 5) then 4
    else if doy <= DaysBeforeMonth(year, 6) then 5
    else if doy <= DaysBeforeMonth(year, 7) then 6
    else if doy <= DaysBeforeMonth(year, 8) then 7
    else if doy <= DaysBeforeMonth(year, 9) then 8
    else if doy <= DaysBeforeMonth(year, 10) then 9
    else if doy <= DaysBeforeMonth(year, 11) then 10
    else if doy <= DaysBeforeMonth(year, 12) then 11
    else 12
  }

  /** The date at ordinal `doy` of `year`: the inverse of DayOfYear. */
  function DateOfDayOfYear(year: int, doy: int): (g: GregorianDate)
    requires 1 <= doy <= YearLength(year)
    ensures g.Valid() && g.year == year
    ensures DaysBeforeMonth(year, g.month) + g.day == doy
  {
    var m := MonthOfOrdinal(year, doy);
    GregorianDate(year, m, doy - DaysBeforeMonth(year, m))
  }

  /** At most one month's days contain a given ordinal. */
  lemma MonthContainingUnique(year: int, doy: int, a: int, b: int)
    requires 1 <= a <= 12 && 1 <= b <= 12
    requires DaysBeforeMonth(year, a) < doy <= DaysBeforeMonth(year, a + 1)
    requires DaysBeforeMonth(year, b) < doy <= DaysBeforeMonth(year, b + 1)
    ensures a == b
  {
    if a + 1 < b {
      DaysBeforeMonthIncreasing(year, a + 1, b);
    }
    if b + 1 < a {
      DaysBeforeMonthIncreasing(year, b + 1, a);
    }
  }

  /** A valid date is recovered from its ordinal: DayOfYear is injective. */
  lemma DateOfDayOfYearInverse(g: GregorianDate)
    requires g.Valid()
    ensures DateOfDayOfYear(g.year, DayOfYear(g)) == g
  {
    var doy := DayOfYear(g);
    MonthContainingUnique(g.year, doy, MonthOfOrdinal(g.year, doy), g.month);
  }

  /** Two dates of the same year with the same ordinal are the same date. */
  lemma DayOfYearInjective(g1: GregorianDate, g2: GregorianDate)
    requires g1.Valid() && g2.Valid()
    requires g1.year == g2.year && DayOfYear(g1) == DayOfYear(g2)
    ensures g1 == g2
  {
    DateOfDayOfYearInverse(g1);
    DateOfDayOfYearInverse(g2);
  }

  /** Signed count of days from January 1 of `lo` to January 1 of `hi`. */
  function DaysBetweenYears(lo: int, hi: int): int
    decreases if lo <= hi then hi - lo else lo - hi + 1
  {
    if lo == hi then 0
    else if lo < hi then YearLength(lo) + DaysBetweenYears(lo + 1, hi)
    else -DaysBetweenYears(hi, lo)
  }

  lemma {:induction false} DaysBetweenYearsSnoc(lo: int, hi: int)
    requires lo <= hi
    ensures DaysBetweenYears(lo, hi + 1) == DaysBetweenYears(lo, hi) + YearLength(hi)
    decreases hi - lo
  {
    if lo < hi {
      DaysBetweenYearsSnoc(lo + 1, hi);
    }
  }

  /** A year together with an ordinal that may lie outside it. */
  datatype Ordinal = Ordinal(year: int, doy: int)

  /** What `Date.setDate` does with an out-of-range day: it rolls into the
      neighbouring years until the ordinal names a day of the year it lands
      in, keeping the absolute day fixed. */
  function Normalize(year: int, doy: int): (r: Ordinal)
    ensures 1 <= r.doy <= YearLength(r.year)
    ensures 1 <= doy <= YearLength(year) ==> r == Ordinal(year, doy)
    ensures doy > YearLength(year) ==> r.year > year
    ensures doy < 1 ==> r.year < year
    ensures doy == DaysBetweenYears(year, r.year) + r.doy
    decreases (if doy < 1 then 1 else 0), (if doy < 1 then -doy else doy)
  {
    if doy < 1 then
      var r := Normalize(year - 1, doy + YearLength(year - 1));
      DaysBetweenYearsSnoc(r.year, year - 1);
      r
    else if doy > YearLength(year) then
      Normalize(year + 1, doy - YearLength(year))
    else
      Ordinal(year, doy)
  }

  /** `doyToGregorian`: January 1 of `year`, then `setDate(doy)`. */
  function DoyToGregorian(year: int, doy: int): (g: GregorianDate)
    ensures g.Valid()
    ensures 1 <= doy <= YearLength(year) ==> g.year == year && DayOfYear(g) == doy
    ensures doy == DaysBetweenYears(year, g.year) + DayOfYear(g)
  {
    var r := Normalize(year, doy);
    DateOfDayOfYear(r.year, r.doy)
  }

  /** A date inside its year is what `doyToGregorian` returns for its ordinal. */
  lemma DoyToGregorianOfDate(g: GregorianDate)
    requires g.Valid()
    ensures DoyToGregorian(g.year, DayOfYear(g)) == g
  {
    DayOfYearInjective(DoyToGregorian(g.year, DayOfYear(g)), g);
  }

  /** One past the last ordinal of a year rolls into January 1 of the next. */
  lemma DoyToGregorianPastYearEnd(year: int)
    ensures DoyToGregorian(year, YearLength(year) + 1) == GregorianDate(year + 1, 1, 1)
  {
    assert Normalize(year, YearLength(year) + 1) == Ordinal(year + 1, 1);
    DateOfDayOfYearInverse(GregorianDate(year + 1, 1, 1));
  }

  /** The year the `Date(year, month, ...)` constructor actually uses:
      years 0 to 99 are read as 1900 to 1999. */
  function ConstructorYear(year: int): (y: int)
    ensures 0 <= year <= 99 ==> y == year + 1900
    ensures !(0 <= year <= 99) ==> y == year
  {
    if 0 <= year <= 99 then 1900 + year else year
  }

  /** Days from January 1 of the year the `Date(year, ...)` constructor uses
      to January 1 of `year`: zero outside years 0 to 99, and more than 1900
      years' worth of days back inside them. */
  function ConstructorShiftDays(year: int): (n: int)
    ensures !(0 <= year <= 99) ==> n == 0
    ensures 0 <= year <= 99 ==> n <= -365 * 1900
  {
    if 0 <= year <= 99 then
      DaysBetweenYearsAtLeast(year, year + 1900);
      DaysBetweenYears(ConstructorYear(year), year)
    else
      DaysBetweenYears(ConstructorYear(year), year)
  }

  /** Every year between has at least 365 days. */
  lemma {:induction false} DaysBetweenYearsAtLeast(lo: int, hi: int)
    requires lo <= hi
    ensures DaysBetweenYears(lo, hi) >= 365 * (hi - lo)
    decreases hi - lo
  {
    if lo < hi {
      DaysBetweenYearsAtLeast(lo + 1, hi);
    }
  }

  const MsPerDay: int := 1000 * 60 * 60 * 24

  /** `dayOfYear` as written: the floor of the milliseconds from the
      reference instant `Date(year, 0, 0)`, local midnight of the eve of
      January 1 of the constructor's year, to the instant, divided by a
      day's length. `msIntoDay` is the instant's local time of day and
      `offsetShiftMs` how far the local UTC offset moved forward between the
      two instants (one hour after a spring-forward change, minus one hour
      when the offset has fallen since January). */
  function ClockDayOfYear(g: GregorianDate, msIntoDay: int, offsetShiftMs: int): (doy: int)
    requires g.Valid()
    ensures 0 <= msIntoDay - offsetShiftMs < MsPerDay ==>
      doy == ConstructorShiftDays(g.year) + DayOfYear(g)
    ensures -MsPerDay <= msIntoDay - offsetShiftMs < 0 ==>
      doy == ConstructorShiftDays(g.year) + DayOfYear(g) - 1
    ensures MsPerDay <= msIntoDay - offsetShiftMs < 2 * MsPerDay ==>
      doy == ConstructorShiftDays(g.year) + DayOfYear(g) + 1
  {
    var days := ConstructorShiftDays(g.year) + DayOfYear(g);
    (days * MsPerDay + msIntoDay - offsetShiftMs) / MsPerDay
  }
}
