/**
 * The International Fixed Calendar engine: thirteen months of 28 days, Year
 * Day after the last of them, and in leap years Leap Day after the 28th of
 * June. Gregorian dates enter and leave through their day-of-year ordinal.
 */
module Calendar {
  import opened Options
  import opened Gregorian

  const IfcMonthNames: seq<string> := [
    "January", "February", "March", "April", "May", "June", "Sol",
    "July", "August", "September", "October", "November", "December"
  ]

  const IfcMonths: int := 13
  const DaysPerMonth: int := 28
  const DaysPerWeek: int := 7

  /** The ordinal Leap Day occupies in a leap year, right after the 28th of June. */
  const LeapDayOrdinal: int := 169

  /** A converted date: a day of a month, or one of the two days outside the
      months and the week. */
  datatype IfcDate =
    | Regular(year: int, month: int, day: int, weekday: int)
    | YearDay(year: int)
    | LeapDay(year: int)
  {
    /** The label the library shows in place of a month name: the month's
        own name for a regular day, and for the two special days a label that
        names no month. */
    function MonthName(): (name: string)
      requires Regular? ==> 1 <= month <= IfcMonths
      ensures Regular? ==> name == IfcMonthNames[month - 1]
      ensures !Regular? ==> name !in IfcMonthNames
      ensures YearDay? ==> name == "Year Day"
      ensures LeapDay? ==> name == "Leap Day"
    {
      match this
      case YearDay(_) => "Year Day"
      case LeapDay(_) => "Leap Day"
      case Regular(_, m, _, _) => IfcMonthNames[m - 1]
    }
  }

  /** `Math.ceil(a / b)` on integers. */
  function CeilDiv(a: int, b: int): (q: int)
    requires b > 0
    ensures (q - 1) * b < a <= q * b
  {
    if a % b == 0 then a / b else a / b + 1
  }

  /** JavaScript's `%`: the remainder carries the sign of the dividend. */
  function JsRem(a: int, b: int): (r: int)
    requires b > 0
    ensures a >= 0 ==> r == a % b
    ensures a < 0 ==> -b < r <= 0
  {
    if a >= 0 then a % b else -((-a) % b)
  }

  /** The day-of-year `fromIFC` computes for a month and a day, skipping the
      slot of Leap Day in a leap year. Any numbers are accepted, as in the
      library; only months 1 to 13 and days 1 to 28 name a regular day. */
  function IfcOrdinal(year: int, month: int, day: int): (doy: int)
    ensures 1 <= month <= IfcMonths && 1 <= day <= DaysPerMonth ==>
      1 <= doy < YearLength(year) && !(IsLeapYear(year) && doy == LeapDayOrdinal)
  {
    var plain := (month - 1) * DaysPerMonth + day;
    if IsLeapYear(year) && plain >= LeapDayOrdinal then plain + 1 else plain
  }

  /** `toIFC` once the day-of-year is known. Defined on every integer, as the
      library's arithmetic is; an ordinal inside the year yields a day of a
      month that `fromIFC` maps back to the same ordinal. */
  function IfcOfOrdinal(year: int, doy: int): (r: IfcDate)
    ensures r.year == year
    ensures r.YearDay? <==> doy == YearLength(year)
    ensures r.LeapDay? <==> IsLeapYear(year) && doy == LeapDayOrdinal
    ensures 1 <= doy <= YearLength(year) && r.Regular? ==>
      && 1 <= r.month <= IfcMonths
      && 1 <= r.day <= DaysPerMonth
      && 0 <= r.weekday < DaysPerWeek
      && r.weekday == (r.day - 1) % DaysPerWeek
      && IfcOrdinal(year, r.month, r.day) == doy
    ensures doy < 1 ==> r.Regular? && r.month < 1
  {
    var leap := IsLeapYear(year);
    if doy == YearLength(year) then YearDay(year)
    else if leap && doy == LeapDayOrdinal then LeapDay(year)
    else
      var adjusted := if leap && doy > LeapDayOrdinal then doy - 1 else doy;
      var monthIndex := CeilDiv(adjusted, DaysPerMonth) - 1;
      var dayInMonth := JsRem(adjusted - 1, DaysPerMonth) + 1;
      var weekday := JsRem(dayInMonth - 1, DaysPerWeek);
      Regular(year, monthIndex + 1, dayInMonth, weekday)
  }

  /** Regular days are numbered consecutively: `fromIFC` is strictly
      increasing in the position (month - 1) * 28 + day. */
  lemma IfcOrdinalIncreasing(year: int, m1: int, d1: int, m2: int, d2: int)
    requires 1 <= m1 <= IfcMonths && 1 <= d1 <= DaysPerMonth
    requires 1 <= m2 <= IfcMonths && 1 <= d2 <= DaysPerMonth
    requires (m1 - 1) * DaysPerMonth + d1 < (m2 - 1) * DaysPerMonth + d2
    ensures IfcOrdinal(year, m1, d1) < IfcOrdinal(year, m2, d2)
  {
  }

  /** Distinct regular days have distinct ordinals. */
  lemma IfcOrdinalInjective(year: int, m1: int, d1: int, m2: int, d2: int)
    requires 1 <= m1 <= IfcMonths && 1 <= d1 <= DaysPerMonth
    requires 1 <= m2 <= IfcMonths && 1 <= d2 <= DaysPerMonth
    requires IfcOrdinal(year, m1, d1) == IfcOrdinal(year, m2, d2)
    ensures m1 == m2 && d1 == d2
  {
    if (m1 - 1) * DaysPerMonth + d1 < (m2 - 1) * DaysPerMonth + d2 {
      IfcOrdinalIncreasing(year, m1, d1, m2, d2);
    } else if (m2 - 1) * DaysPerMonth + d2 < (m1 - 1) * DaysPerMonth + d1 {
      IfcOrdinalIncreasing(year, m2, d2, m1, d1);
    }
  }

  /** `toIFC`: the Gregorian date's day-of-year, classified. */
  function ToIfc(g: GregorianDate): (r: IfcDate)
    requires g.Valid()
    ensures r.year == g.year
    ensures r.YearDay? <==> g.month == 12 && g.day == 31
    ensures r.LeapDay? <==> IsLeapYear(g.year) && g.month == 6 && g.day == 17
    ensures r.Regular? ==>
      && 1 <= r.month <= IfcMonths
      && 1 <= r.day <= DaysPerMonth
      && 0 <= r.weekday < DaysPerWeek
      && r.weekday == (r.day - 1) % DaysPerWeek
      && IfcOrdinal(g.year, r.month, r.day) == DayOfYear(g)
  {
    var yearEnd := GregorianDate(g.year, 12, 31);
    var leapDay := GregorianDate(g.year, 6, 17);
    DateOfDayOfYearInverse(g);
    DateOfDayOfYearInverse(yearEnd);
    DateOfDayOfYearInverse(leapDay);
    IfcOfOrdinal(g.year, DayOfYear(g))
  }

  /** `fromIFC`: the date at the ordinal of the given month and day. Out of
      range numbers roll into neighbouring years as `setDate` does. */
  function FromIfc(year: int, month: int, day: int): (g: GregorianDate)
    ensures g.Valid()
    ensures 1 <= month <= IfcMonths && 1 <= day <= DaysPerMonth ==>
      g.year == year && DayOfYear(g) == IfcOrdinal(year, month, day)
  {
    DoyToGregorian(year, IfcOrdinal(year, month, day))
  }

  /** `fromIFCYearDay`: the last day of the year. */
  function FromIfcYearDay(year: int): (g: GregorianDate)
    ensures g == GregorianDate(year, 12, 31)
  {
    DateOfDayOfYearInverse(GregorianDate(year, 12, 31));
    DoyToGregorian(year, YearLength(year))
  }

  /** `fromIFCLeapDay`: ordinal 169 in a leap year, nothing otherwise. */
  function FromIfcLeapDay(year: int): (r: Option<GregorianDate>)
    ensures r.None? <==> !IsLeapYear(year)
    ensures r.Some? ==> r.value == GregorianDate(year, 6, 17)
  {
    if !IsLeapYear(year) then None
    else
      DateOfDayOfYearInverse(GregorianDate(year, 6, 17));
      Some(DoyToGregorian(year, LeapDayOrdinal))
  }

  /** Round trip from the IFC side: every regular day of every year comes
      back from `toIFC` as itself, with its weekday and month name. */
  lemma FromIfcRoundTrip(year: int, month: int, day: int)
    requires 1 <= month <= IfcMonths && 1 <= day <= DaysPerMonth
    ensures ToIfc(FromIfc(year, month, day)) == Regular(year, month, day, (day - 1) % DaysPerWeek)
    ensures ToIfc(FromIfc(year, month, day)).MonthName() == IfcMonthNames[month - 1]
  {
    var doy := IfcOrdinal(year, month, day);
    var g := FromIfc(year, month, day);
    assert ToIfc(g) == IfcOfOrdinal(year, doy);
    var r := IfcOfOrdinal(year, doy);
    IfcOrdinalInjective(year, r.month, r.day, month, day);
  }

  /** The special days come back from `toIFC` as themselves. */
  lemma SpecialDaysRoundTrip(year: int)
    ensures ToIfc(FromIfcYearDay(year)) == YearDay(year)
    ensures FromIfcLeapDay(year).Some? ==> ToIfc(FromIfcLeapDay(year).value) == LeapDay(year)
  {
  }

  /** Round trip from the Gregorian side: whatever `toIFC` makes of a date,
      the matching constructor gives the date back. */
  lemma ToIfcRoundTrip(g: GregorianDate)
    requires g.Valid()
    ensures ToIfc(g).Regular? ==> FromIfc(g.year, ToIfc(g).month, ToIfc(g).day) == g
    ensures ToIfc(g).YearDay? ==> FromIfcYearDay(g.year) == g
    ensures ToIfc(g).LeapDay? ==> FromIfcLeapDay(g.year) == Some(g)
  {
    var r := ToIfc(g);
    if r.Regular? {
      DateOfDayOfYearInverse(g);
      DateOfDayOfYearInverse(FromIfc(g.year, r.month, r.day));
    }
  }

  /** Within a year the conversion is one-to-one. */
  lemma ToIfcInjective(g1: GregorianDate, g2: GregorianDate)
    requires g1.Valid() && g2.Valid()
    requires ToIfc(g1) == ToIfc(g2)
    ensures g1 == g2
  {
    ToIfcRoundTrip(g1);
    ToIfcRoundTrip(g2);
  }

  /** One cell of the month grid. */
  datatype DayCell = DayCell(day: int, weekday: int)

  datatype MonthGrid = MonthGrid(name: string, monthNumber: int, days: seq<DayCell>)

  datatype YearGrid = YearGrid(months: seq<MonthGrid>, hasLeapDay: bool)

  /** `generateFullYear`: thirteen named months of 28 days each, the day
      numbered d + 1 falling on weekday d % 7. */
  function GenerateFullYear(year: int): (y: YearGrid)
    ensures |y.months| == IfcMonths
    ensures y.hasLeapDay == IsLeapYear(year)
    ensures forall i :: 0 <= i < IfcMonths ==>
      && y.months[i].monthNumber == i + 1
      && y.months[i].name == IfcMonthNames[i]
      && |y.months[i].days| == DaysPerMonth
      && forall d :: 0 <= d < DaysPerMonth ==> y.months[i].days[d] == DayCell(d + 1, d % DaysPerWeek)
  {
    var months := seq(IfcMonths, i requires 0 <= i < IfcMonths =>
      MonthGrid(IfcMonthNames[i], i + 1, seq(DaysPerMonth, d => DayCell(d + 1, d % DaysPerWeek))));
    YearGrid(months, IsLeapYear(year))
  }

  /** Every cell of the generated grid is what `toIFC` says of the date
      `fromIFC` gives for it: same month, name, day and weekday. */
  lemma GenerateFullYearAgreesWithToIfc(year: int, i: int, d: int)
    requires 0 <= i < IfcMonths && 0 <= d < DaysPerMonth
    ensures
      var month := GenerateFullYear(year).months[i];
      var cell := month.days[d];
      && ToIfc(FromIfc(year, month.monthNumber, cell.day)) == Regular(year, month.monthNumber, cell.day, cell.weekday)
      && ToIfc(FromIfc(year, month.monthNumber, cell.day)).MonthName() == month.name
  {
    var month := GenerateFullYear(year).months[i];
    assert month.monthNumber == i + 1 && month.name == IfcMonthNames[i];
    assert month.days[d] == DayCell(d + 1, d % DaysPerWeek);
    FromIfcRoundTrip(year, i + 1, d + 1);
  }

  /** The grid announces a Leap Day exactly when the year has one. */
  lemma GenerateFullYearLeapDay(year: int)
    ensures GenerateFullYear(year).hasLeapDay <==> FromIfcLeapDay(year).Some?
    ensures GenerateFullYear(year).hasLeapDay <==> YearLength(year) == 366
  {
  }

  /** `fromIFC` as written: the `Date(year, 0)` constructor reads years 0 to
      99 as 1900 to 1999, while the leap test uses the year as given. */
  function FromIfcAsWritten(year: int, month: int, day: int): (g: GregorianDate)
    ensures g.Valid()
    ensures !(0 <= year <= 99) ==> g == FromIfc(year, month, day)
    ensures 0 <= year <= 99 ==> g == DoyToGregorian(year + 1900, IfcOrdinal(year, month, day))
  {
    DoyToGregorian(ConstructorYear(year), IfcOrdinal(year, month, day))
  }

  /** In the years 0 to 99 every regular IFC day converts to a date 1900
      years later, so the first of January of year 50 comes out in 1950. */
  lemma FromIfcAsWrittenTwoDigitYear(year: int, month: int, day: int)
    requires 0 <= year <= 99
    requires 1 <= month <= IfcMonths && 1 <= day <= DaysPerMonth
    ensures FromIfcAsWritten(year, month, day).year == year + 1900
    ensures FromIfc(year, month, day).year == year
  {
  }

  lemma FirstOrdinalIsJanuaryFirst(year: int)
    ensures DoyToGregorian(year, 1) == GregorianDate(year, 1, 1)
  {
    DoyToGregorianOfDate(GregorianDate(year, 1, 1));
  }

  /** `fromIFCYearDay` as written: the year's length by the leap test on the
      year as given, counted from January 1 of the constructor's year. */
  function FromIfcYearDayAsWritten(year: int): (g: GregorianDate)
    ensures g.Valid()
    ensures !(0 <= year <= 99) ==> g == FromIfcYearDay(year)
  {
    DoyToGregorian(ConstructorYear(year), YearLength(year))
  }

  /** `fromIFCLeapDay` as written: ordinal 169 counted from January 1 of the
      constructor's year, when the year as given is a leap year. */
  function FromIfcLeapDayAsWritten(year: int): (r: Option<GregorianDate>)
    ensures r.None? <==> !IsLeapYear(year)
    ensures !(0 <= year <= 99) ==> r == FromIfcLeapDay(year)
  {
    if !IsLeapYear(year) then None
    else Some(DoyToGregorian(ConstructorYear(year), LeapDayOrdinal))
  }

  /** Years 1 to 99 are leap years exactly when the 1900 years later are. */
  lemma TwoDigitLeapYearsAgree(year: int)
    requires 1 <= year <= 99
    ensures IsLeapYear(year) <==> IsLeapYear(year + 1900)
  {
  }

  /** In years 1 to 99 Year Day as written is 31 December 1900 years late;
      in year 0, a leap year counted from January 1 of the common year 1900,
      it is 1 January 1901. */
  lemma FromIfcYearDayAsWrittenTwoDigitYear(year: int)
    requires 0 <= year <= 99
    ensures 1 <= year ==> FromIfcYearDayAsWritten(year) == GregorianDate(year + 1900, 12, 31)
    ensures year == 0 ==> FromIfcYearDayAsWritten(year) == GregorianDate(1901, 1, 1)
    ensures FromIfcYearDay(year) == GregorianDate(year, 12, 31)
  {
    if 1 <= year {
      YearDayAsWrittenLate(year);
    } else {
      YearDayAsWrittenYearZero();
    }
  }

  lemma YearDayAsWrittenLate(year: int)
    requires 1 <= year <= 99
    ensures FromIfcYearDayAsWritten(year) == GregorianDate(year + 1900, 12, 31)
  {
    TwoDigitLeapYearsAgree(year);
    assert FromIfcYearDay(year + 1900) == GregorianDate(year + 1900, 12, 31);
  }

  lemma YearDayAsWrittenYearZero()
    ensures FromIfcYearDayAsWritten(0) == GregorianDate(1901, 1, 1)
  {
    assert YearLength(0) == YearLength(1900) + 1;
    DoyToGregorianPastYearEnd(1900);
  }

  /** In leap years 1 to 99 Leap Day as written is 17 June 1900 years late;
      in year 0 it is ordinal 169 of the common year 1900, 18 June 1900. */
  lemma FromIfcLeapDayAsWrittenTwoDigitYear(year: int)
    requires 0 <= year <= 99 && IsLeapYear(year)
    ensures 1 <= year ==> FromIfcLeapDayAsWritten(year) == Some(GregorianDate(year + 1900, 6, 17))
    ensures year == 0 ==> FromIfcLeapDayAsWritten(year) == Some(GregorianDate(1900, 6, 18))
    ensures FromIfcLeapDay(year) == Some(GregorianDate(year, 6, 17))
  {
    if 1 <= year {
      TwoDigitLeapYearsAgree(year);
      assert FromIfcLeapDay(year + 1900) == Some(GregorianDate(year + 1900, 6, 17));
    } else {
      var g := GregorianDate(1900, 6, 18);
      assert DayOfYear(g) == LeapDayOrdinal;
      DoyToGregorianOfDate(g);
    }
  }

  /** `toIFC` as written, for an instant `msIntoDay` after local midnight of
      `g`, with the local UTC offset moved forward by `offsetShiftMs` since
      the eve of January 1. Outside years 0 to 99 it agrees with `toIFC`
      while the clock difference stays within the day; inside them the
      reference instant is 1900 years late and the month comes out below 1. */
  function ToIfcAsWritten(g: GregorianDate, msIntoDay: int, offsetShiftMs: int): (r: IfcDate)
    requires g.Valid()
    ensures !(0 <= g.year <= 99) && 0 <= msIntoDay - offsetShiftMs < MsPerDay ==> r == ToIfc(g)
    ensures 0 <= g.year <= 99 && -MsPerDay <= msIntoDay - offsetShiftMs < 2 * MsPerDay ==>
      r.Regular? && r.month < 1
  {
    IfcOfOrdinal(g.year, ClockDayOfYear(g, msIntoDay, offsetShiftMs))
  }

  /** In a leap year, an instant on 18 June before the hour the clocks
      moved forward is taken for Leap Day, though 18 June is the first of Sol. */
  lemma ToIfcAsWrittenSpringForward(year: int, msIntoDay: int, offsetShiftMs: int)
    requires IsLeapYear(year) && !(0 <= year <= 99)
    requires -MsPerDay <= msIntoDay - offsetShiftMs < 0
    ensures ToIfcAsWritten(GregorianDate(year, 6, 18), msIntoDay, offsetShiftMs) == LeapDay(year)
    ensures ToIfc(GregorianDate(year, 6, 18)) == Regular(year, 7, 1, 0)
  {
    var g := GregorianDate(year, 6, 18);
    assert DayOfYear(g) == 170;
    DoyToGregorianOfDate(g);
    FromIfcRoundTrip(year, 7, 1);
  }

  /** In a leap year whose UTC offset has fallen since January, an instant in
      the last hour of 17 June is taken for the first of Sol, though 17 June
      is Leap Day. */
  lemma ToIfcAsWrittenFallBack(year: int, msIntoDay: int, offsetShiftMs: int)
    requires IsLeapYear(year) && !(0 <= year <= 99)
    requires MsPerDay <= msIntoDay - offsetShiftMs < 2 * MsPerDay
    ensures ToIfcAsWritten(GregorianDate(year, 6, 17), msIntoDay, offsetShiftMs) == Regular(year, 7, 1, 0)
    ensures ToIfc(GregorianDate(year, 6, 17)) == LeapDay(year)
  {
    var g := GregorianDate(year, 6, 17);
    assert DayOfYear(g) == LeapDayOrdinal;
    var h := GregorianDate(year, 6, 18);
    assert DayOfYear(h) == 170;
    DoyToGregorianOfDate(h);
    FromIfcRoundTrip(year, 7, 1);
    assert IfcOfOrdinal(year, 170) == ToIfc(h);
  }

  /** A date of years 0 to 99 read within the day comes out of `toIFC` as
      written with a month below 1, which names no month, while the
      conversion by its ordinal gives a day of the year. */
  lemma ToIfcAsWrittenTwoDigitYear(g: GregorianDate, msIntoDay: int, offsetShiftMs: int)
    requires g.Valid() && 0 <= g.year <= 99
    requires 0 <= msIntoDay - offsetShiftMs < MsPerDay
    ensures ToIfcAsWritten(g, msIntoDay, offsetShiftMs).Regular?
    ensures ToIfcAsWritten(g, msIntoDay, offsetShiftMs).month < 1
    ensures ToIfc(g).Regular? ==> 1 <= ToIfc(g).month <= IfcMonths
  {
  }

  /** The leap rule on four familiar years: 2000 and 2024 are leap years,
      1900 and 2023 are not. */
  lemma LeapYearExamples()
    ensures IsLeapYear(2000) && !IsLeapYear(1900) && IsLeapYear(2024) && !IsLeapYear(2023)
  {
  }

  /** Landmarks of every year: January 1 opens January on the first weekday,
      December 30 is the 28th of December, December 31 is Year Day, and in a
      leap year June 17 is Leap Day. */
  lemma CalendarLandmarks(year: int)
    ensures ToIfc(GregorianDate(year, 1, 1)) == Regular(year, 1, 1, 0)
    ensures ToIfc(GregorianDate(year, 1, 1)).MonthName() == "January"
    ensures FromIfc(year, 13, 28) == GregorianDate(year, 12, 30)
    ensures ToIfc(GregorianDate(year, 12, 31)) == YearDay(year)
    ensures IsLeapYear(year) ==> ToIfc(GregorianDate(year, 6, 17)) == LeapDay(year)
    ensures IfcMonthNames[6] == "Sol"
  {
    FirstOrdinalIsJanuaryFirst(year);
    FromIfcRoundTrip(year, 1, 1);
    DoyToGregorianOfDate(GregorianDate(year, 12, 30));
  }
}
