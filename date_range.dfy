/**
 * Expansion of a start date and a duration into the inclusive list of days
 * whose pageviews are fetched: a week is the start date and the six days
 * after it; a month is the rest of the start date's calendar month.
 */
module DateRange {
  import opened Calendar

  datatype Duration = Week | Month

  /** The last day of the period that begins on `start`. */
  function EndDate(start: Date, duration: Duration): (end: Date)
    requires IsCalendarDate(start)
    ensures IsCalendarDate(end) && !Before(end, start)
  {
    match duration
    case Week =>
      RangeOfAddDays(start, 6);
      AddDays(start, 6)
    case Month => LastOfMonth(start)
  }

  /** Every day from `start` to the end of the period, in calendar order. */
  function Expand(start: Date, duration: Duration): (days: seq<Date>)
    requires IsCalendarDate(start)
    ensures |days| >= 1 && days[0] == start && days[|days| - 1] == EndDate(start, duration)
    ensures forall i | 0 <= i < |days| :: IsCalendarDate(days[i])
    ensures forall i | 0 <= i < |days| - 1 :: days[i + 1] == NextDay(days[i])
  {
    Range(start, EndDate(start, duration))
  }

  /** A week is exactly seven consecutive days beginning on the start date. */
  lemma WeekIsSevenDays(start: Date)
    requires IsCalendarDate(start)
    ensures |Expand(start, Week)| == 7
    ensures forall i | 0 <= i < 7 :: Expand(start, Week)[i] == AddDays(start, i)
  {
    RangeOfAddDays(start, 6);
  }

  /**
   * A month runs from the start date to the last day of the same month,
   * `DaysInMonth - day + 1` days, all in the start date's month and year.
   */
  lemma MonthIsRestOfMonth(start: Date)
    requires IsCalendarDate(start)
    ensures |Expand(start, Month)| == DaysInMonth(start.year, start.month) - start.day + 1
    ensures Expand(start, Month)[|Expand(start, Month)| - 1].day == DaysInMonth(start.year, start.month)
    ensures forall i | 0 <= i < |Expand(start, Month)| ::
      Expand(start, Month)[i].year == start.year && Expand(start, Month)[i].month == start.month
      && Expand(start, Month)[i].day == start.day + i
  {
    RangeToMonthEnd(start);
  }

  /**
   * The expanded days are strictly ascending and are exactly the calendar
   * dates from the start date to the end date.
   */
  lemma ExpandIsInterval(start: Date, duration: Duration)
    requires IsCalendarDate(start)
    ensures forall i, j | 0 <= i < j < |Expand(start, duration)| ::
      Before(Expand(start, duration)[i], Expand(start, duration)[j])
    ensures forall e | IsCalendarDate(e) ::
      e in Expand(start, duration) <==> !Before(e, start) && !Before(EndDate(start, duration), e)
  {
    var end := EndDate(start, duration);
    RangeAscending(start, end);
    forall e | IsCalendarDate(e)
      ensures e in Expand(start, duration) <==> !Before(e, start) && !Before(end, e)
    {
      RangeMembership(start, end, e);
    }
  }

  /**
   * The year the JavaScript `Date(year, monthIndex, day)` constructor builds
   * from its first argument: 0 to 99 are read as 1900 to 1999.
   */
  function ConstructorYear(y: int): (r: int)
    ensures 0 <= y <= 99 ==> r == 1900 + y
    ensures !(0 <= y <= 99) ==> r == y
  {
    if 0 <= y <= 99 then 1900 + y else y
  }

  /**
   * The month end as the handler computes it, through the `Date`
   * constructor: the last day of the start month of `ConstructorYear(year)`.
   */
  function MonthEndAsWritten(start: Date): (end: Date)
    requires IsCalendarDate(start)
    ensures IsCalendarDate(end) && end.month == start.month
    ensures NextDay(end).month != end.month
  {
    LastOfMonth(Date(ConstructorYear(start.year), start.month, 1))
  }

  /** From year 100 on, the month end as written is the intended one. */
  lemma MonthEndAsWrittenFromYear100(start: Date)
    requires IsCalendarDate(start) && start.year >= 100
    ensures MonthEndAsWritten(start) == EndDate(start, Month)
  {
  }

  /**
   * For a start date in a year from 1 to 99 the month end as written lies
   * 1900 years later, so the range it closes runs past the start month: it
   * takes in the first day of the next month, which the intended range does
   * not. (From 0050-01-15 it reaches 1950-01-31.)
   */
  lemma EarlyYearMonthEndLeavesMonth(start: Date)
    requires IsCalendarDate(start) && 1 <= start.year <= 99
    ensures MonthEndAsWritten(start).year == start.year + 1900
    ensures !Before(MonthEndAsWritten(start), start)
    ensures NextDay(LastOfMonth(start)) in Range(start, MonthEndAsWritten(start))
    ensures NextDay(LastOfMonth(start)) !in Expand(start, Month)
  {
    var end := MonthEndAsWritten(start);
    var next := NextDay(LastOfMonth(start));
    assert next.year <= start.year + 1;
    RangeMembership(start, end, next);
    RangeMembership(start, LastOfMonth(start), next);
  }

  lemma EarlyYearExample()
    ensures MonthEndAsWritten(Date(50, 1, 15)) == Date(1950, 1, 31)
  {
  }
}
