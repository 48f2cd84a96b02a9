/**
 * Calendar dates of the proleptic Gregorian calendar as (year, month, day),
 * the successor of a date, and the inclusive, ascending run of dates between
 * two dates (what eachDayOfInterval enumerates).
 */
module Calendar {

  datatype Date = Date(year: int, month: int, day: int)

  /** Gregorian leap-year rule. */
  predicate IsLeapYear(y: int) {
    (y % 4 == 0 && y % 100 != 0) || y % 400 == 0
  }

  /** Number of days of month `m` (1-based) in year `y`. */
  function DaysInMonth(y: int, m: int): (n: int)
    requires 1 <= m <= 12
    ensures 28 <= n <= 31
    ensures m == 2 ==> (n == 29 <==> IsLeapYear(y))
    ensures m != 2 ==> n >= 30
  {
    if m == 2 then (if IsLeapYear(y) then 29 else 28)
    else if m == 4 || m == 6 || m == 9 || m == 11 then 30
    else 31
  }

  /** A real calendar date: month 1..12 and a day that exists in that month. */
  predicate IsCalendarDate(d: Date) {
    1 <= d.month <= 12 && 1 <= d.day <= DaysInMonth(d.year, d.month)
  }

  /** Strict chronological order: lexicographic on (year, month, day). */
  predicate Before(a: Date, b: Date) {
    a.year < b.year
    || (a.year == b.year && a.month < b.month)
    || (a.year == b.year && a.month == b.month && a.day < b.day)
  }

  /** The day after `d`: the least calendar date later than `d`. */
  function NextDay(d: Date): (r: Date)
    requires IsCalendarDate(d)
    ensures IsCalendarDate(r) && Before(d, r)
  {
    if d.day < DaysInMonth(d.year, d.month) then Date(d.year, d.month, d.day + 1)
    else if d.month < 12 then Date(d.year, d.month + 1, 1)
    else Date(d.year + 1, 1, 1)
  }

  /** No calendar date lies strictly between a date and the day after it. */
  lemma NextDayIsLeast(d: Date, e: Date)
    requires IsCalendarDate(d) && IsCalendarDate(e) && Before(d, e)
    ensures !Before(e, NextDay(d))
  {
  }

  /** `d` moved forward by `n` calendar days. */
  function AddDays(d: Date, n: nat): (r: Date)
    requires IsCalendarDate(d)
    ensures IsCalendarDate(r)
    ensures n == 0 <==> r == d
    ensures n > 0 ==> Before(d, r)
    decreases n
  {
    if n == 0 then d
    else
      var r := AddDays(NextDay(d), n - 1);
      if n == 1 then r
      else BeforeTransitive(d, NextDay(d), r); r
  }

  /** The last day of the month `d` lies in. */
  function LastOfMonth(d: Date): (r: Date)
    requires IsCalendarDate(d)
    ensures IsCalendarDate(r) && !Before(r, d)
    ensures r.year == d.year && r.month == d.month
    ensures NextDay(r).month != d.month
  {
    Date(d.year, d.month, DaysInMonth(d.year, d.month))
  }

  /**
   * The calendar dates from `start` to `end`, both included, in order.
   * Each date is followed by its successor, so the sequence has no gaps.
   */
  function Range(start: Date, end: Date): (r: seq<Date>)
    requires IsCalendarDate(start) && IsCalendarDate(end) && !Before(end, start)
    ensures |r| >= 1 && r[0] == start && r[|r| - 1] == end
    ensures forall i | 0 <= i < |r| :: IsCalendarDate(r[i])
    ensures forall i | 0 <= i < |r| - 1 :: r[i + 1] == NextDay(r[i])
    decreases end.year - start.year, 12 - start.month, 31 - start.day
  {
    if start == end then [start]
    else
      NextDayIsLeast(start, end);
      [start] + Range(NextDay(start), end)
  }

  lemma BeforeTransitive(a: Date, b: Date, c: Date)
    requires Before(a, b) && Before(b, c)
    ensures Before(a, c)
  {
  }

  /** The range is strictly ascending, hence free of repeated dates. */
  lemma {:induction false} RangeAscending(start: Date, end: Date)
    requires IsCalendarDate(start) && IsCalendarDate(end) && !Before(end, start)
    ensures forall i, j | 0 <= i < j < |Range(start, end)| :: Before(Range(start, end)[i], Range(start, end)[j])
    decreases end.year - start.year, 12 - start.month, 31 - start.day
  {
    if start != end {
      var rest := Range(NextDay(start), end);
      RangeAscending(NextDay(start), end);
      RangeBounds(NextDay(start), end);
      forall j | 0 < j < |Range(start, end)|
        ensures Before(start, Range(start, end)[j])
      {
        assert Range(start, end)[j] == rest[j - 1];
        assert !Before(rest[j - 1], NextDay(start));
      }
    }
  }

  /** Every date of the range lies between its two ends. */
  lemma {:induction false} RangeBounds(start: Date, end: Date)
    requires IsCalendarDate(start) && IsCalendarDate(end) && !Before(end, start)
    ensures forall i | 0 <= i < |Range(start, end)| ::
      !Before(Range(start, end)[i], start) && !Before(end, Range(start, end)[i])
    decreases end.year - start.year, 12 - start.month, 31 - start.day
  {
    if start != end {
      RangeBounds(NextDay(start), end);
      var r := Range(start, end);
      forall i | 0 < i < |r|
        ensures !Before(r[i], start)
      {
        assert r[i] == Range(NextDay(start), end)[i - 1];
      }
    }
  }

  /** A calendar date is in the range exactly when it lies between the two ends. */
  lemma {:induction false} RangeMembership(start: Date, end: Date, e: Date)
    requires IsCalendarDate(start) && IsCalendarDate(end) && !Before(end, start)
    requires IsCalendarDate(e)
    ensures e in Range(start, end) <==> !Before(e, start) && !Before(end, e)
    decreases end.year - start.year, 12 - start.month, 31 - start.day
  {
    RangeBounds(start, end);
    if start != end {
      RangeMembership(NextDay(start), end, e);
      if e != start && !Before(e, start) && !Before(end, e) {
        NextDayIsLeast(start, e);
      }
    }
  }

  /** Expanding up to `AddDays(start, n)` yields exactly `n + 1` consecutive days. */
  lemma {:induction false} RangeOfAddDays(start: Date, n: nat)
    requires IsCalendarDate(start)
    ensures !Before(AddDays(start, n), start)
    ensures |Range(start, AddDays(start, n))| == n + 1
    ensures forall i | 0 <= i <= n :: Range(start, AddDays(start, n))[i] == AddDays(start, i)
    decreases n
  {
    if n > 0 {
      var next := NextDay(start);
      RangeOfAddDays(next, n - 1);
      assert AddDays(start, n) == AddDays(next, n - 1);
      var r := Range(start, AddDays(start, n));
      assert r == [start] + Range(next, AddDays(next, n - 1));
      forall i | 0 < i <= n
        ensures r[i] == AddDays(start, i)
      {
        assert AddDays(start, i) == AddDays(next, i - 1);
      }
    }
  }

  /**
   * Expanding from `start` to the last day of its month gives the rest of that
   * month: day `start.day + i` at position `i`, never leaving the month.
   */
  lemma {:induction false} RangeToMonthEnd(start: Date)
    requires IsCalendarDate(start)
    ensures |Range(start, LastOfMonth(start))| == DaysInMonth(start.year, start.month) - start.day + 1
    ensures forall i | 0 <= i < |Range(start, LastOfMonth(start))| ::
      Range(start, LastOfMonth(start))[i] == Date(start.year, start.month, start.day + i)
    decreases DaysInMonth(start.year, start.month) - start.day
  {
    if start.day < DaysInMonth(start.year, start.month) {
      var next := NextDay(start);
      assert LastOfMonth(next) == LastOfMonth(start);
      RangeToMonthEnd(next);
      var r := Range(start, LastOfMonth(start));
      assert r == [start] + Range(next, LastOfMonth(next));
    }
  }
}
