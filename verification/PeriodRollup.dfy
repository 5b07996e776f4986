/**
  The weekly and monthly adherence rollups
  (adherence-compliance-service/src/adherence/adherence-weekly-monthly-rollup-job.service.ts):
  what the two queries sum, and which weeks and months the job's window cuts.

  Dates are numbered from 1 January 1970, a Thursday; months from January 1970.  A local
  date begins at `zone.startOf(date)`, at most 14 hours before and 12 hours after UTC does.
 */
module PeriodRollup {
  import opened Basics
  import opened DailyRollup
  import opened Grouping
  import opened Upserts

  // ----- The calendar -----

  predicate IsLeap(year: int) {
    year % 4 == 0 && (year % 100 != 0 || year % 400 == 0)
  }

  function MonthLength(n: int): (days: int)
    ensures 28 <= days <= 31
  {
    var month := n % 12;
    if month == 1 then if IsLeap(1970 + n / 12) then 29 else 28
    else if month == 3 || month == 5 || month == 8 || month == 10 then 30
    else 31
  }

  /** The first date of month `n`. */
  function MonthStart(n: int): int
    decreases if n < 0 then -n else n
  {
    if n == 0 then 0
    else if n > 0 then MonthStart(n - 1) + MonthLength(n - 1)
    else MonthStart(n + 1) - MonthLength(n)
  }

  lemma MonthsAreConsecutive(n: int)
    ensures MonthStart(n + 1) == MonthStart(n) + MonthLength(n)
  {
  }

  lemma {:induction false} MonthStartsIncrease(n: int, k: nat)
    ensures MonthStart(n + k) >= MonthStart(n) + 28 * k
    decreases k
  {
    if k > 0 {
      MonthStartsIncrease(n, k - 1);
      MonthsAreConsecutive(n + k - 1);
    }
  }

  function MonthAtOrAfter(date: int, n: int): (m: int)
    requires MonthStart(n) <= date
    ensures MonthStart(m) <= date < MonthStart(m + 1)
    decreases date - MonthStart(n)
  {
    MonthsAreConsecutive(n);
    if date < MonthStart(n + 1) then n else MonthAtOrAfter(date, n + 1)
  }

  function MonthBefore(date: int, n: int): (m: int)
    requires date < MonthStart(n)
    ensures MonthStart(m) <= date < MonthStart(m + 1)
    decreases MonthStart(n) - date
  {
    MonthsAreConsecutive(n - 1);
    if MonthStart(n - 1) <= date then n - 1 else MonthBefore(date, n - 1)
  }

  function MonthOf(date: int): (m: int)
    ensures MonthStart(m) <= date < MonthStart(m + 1)
  {
    if date >= 0 then MonthAtOrAfter(date, 0) else MonthBefore(date, 0)
  }

  lemma MonthIsUnique(date: int, m: int)
    requires MonthStart(m) <= date < MonthStart(m + 1)
    ensures MonthOf(date) == m
  {
    var n := MonthOf(date);
    if n < m {
      MonthStartsIncrease(n + 1, m - n - 1);
    } else if m < n {
      MonthStartsIncrease(m + 1, n - m - 1);
    }
  }

  /** `date_trunc('month', date)` */
  function FirstOfMonth(date: int): int {
    MonthStart(MonthOf(date))
  }

  /** `date_trunc('week', date)`: the Monday on or before the date. */
  function Monday(date: int): int {
    date - (date + 3) % 7
  }

  function LeapDays(year: int): int {
    year / 4 - year / 100 + year / 400
  }

  function DaysSinceMarch(month: int): int {
    (153 * month + 2) / 5
  }

  /** The first date of a month in the Gregorian calendar, in closed form with years that begin in March. */
  function Gregorian(year: int, month: int): int {
    if month < 2 then 365 * (year - 1) + LeapDays(year - 1) + DaysSinceMarch(month + 10) - 719468
    else 365 * year + LeapDays(year) + DaysSinceMarch(month - 2) - 719468
  }

  lemma QuotientsStep(year: int)
    ensures year / 4 == (year - 1) / 4 + if year % 4 == 0 then 1 else 0
    ensures year / 100 == (year - 1) / 100 + if year % 100 == 0 then 1 else 0
    ensures year / 400 == (year - 1) / 400 + if year % 400 == 0 then 1 else 0
  {
  }

  lemma CenturiesDivide(year: int)
    ensures year % 400 == 0 ==> year % 100 == 0
    ensures year % 100 == 0 ==> year % 4 == 0
  {
  }

  lemma YearHasLeapDay(year: int)
    ensures LeapDays(year) == LeapDays(year - 1) + if IsLeap(year) then 1 else 0
  {
    QuotientsStep(year);
    CenturiesDivide(year);
  }

  lemma MonthHasDays(month: int)
    requires 0 <= month < 11
    ensures DaysSinceMarch(month + 1) ==
            DaysSinceMarch(month) + if month == 1 || month == 3 || month == 6 || month == 8 then 30 else 31
  {
  }

  function MonthInCalendar(n: int): int {
    Gregorian(1970 + n / 12, n % 12)
  }

  lemma MonthIsGregorian(n: int)
    ensures MonthInCalendar(n + 1) == MonthInCalendar(n) + MonthLength(n)
  {
    var year, month := 1970 + n / 12, n % 12;
    assert if month == 11 then 1970 + (n + 1) / 12 == year + 1 && (n + 1) % 12 == 0
           else 1970 + (n + 1) / 12 == year && (n + 1) % 12 == month + 1;
    if month == 1 {
      YearHasLeapDay(year);
    } else {
      MonthHasDays(if month < 2 then month + 10 else month - 2);
    }
  }

  lemma NextMonthIsGregorian(n: int)
    ensures MonthStart(n) == MonthInCalendar(n) <==> MonthStart(n + 1) == MonthInCalendar(n + 1)
  {
    MonthIsGregorian(n);
    MonthsAreConsecutive(n);
  }

  /** The months are those of the Gregorian calendar. */
  lemma {:induction false} CalendarIsGregorian(n: int)
    ensures MonthStart(n) == MonthInCalendar(n)
    decreases if n < 0 then -n else n
  {
    if n > 0 {
      CalendarIsGregorian(n - 1);
      NextMonthIsGregorian(n - 1);
    } else if n < 0 {
      CalendarIsGregorian(n + 1);
      NextMonthIsGregorian(n);
    }
  }

  /** Weeks begin on Mondays, of which 5 January 1970 is one. */
  lemma WeeksBeginOnMondays(date: int)
    ensures Monday(date) % 7 == 4 && Monday(date) <= date < Monday(date) + 7
  {
  }

  // ----- The queries -----

  /** The summed columns. */
  datatype Column = AdherentSeconds | TotalSeconds | Majors

  /**
    One `'day'` row of one employee as the query sees it: the instant it starts, the first
    date of the period `date_trunc` puts it in, and the columns to sum.
   */
  datatype DayScore = DayScore(start: int, period: int, adherent: int, total: int, majors: int) {
    function In(c: Column): int {
      match c
      case AdherentSeconds => adherent
      case TotalSeconds => total
      case Majors => majors
    }
  }

  /** The first date of the week or month that a local date is in. */
  function PeriodOf(kind: PeriodType, date: int): int {
    match kind
    case Day => date
    case Week => Monday(date)
    case Month => FirstOfMonth(date)
  }

  /** Each row is bucketed by the local date on which it starts. */
  ghost predicate BucketedBy(zone: Zone, kind: PeriodType, rows: seq<DayScore>) {
    forall i :: 0 <= i < |rows| ==> rows[i].period == PeriodOf(kind, zone.dayOf(rows[i].start))
  }

  /** `period_start >= lo AND period_start < hi` */
  function InWindow(rows: seq<DayScore>, lo: int, hi: int): seq<DayScore> {
    if rows == [] then []
    else (if lo <= rows[0].start < hi then [rows[0]] else []) + InWindow(rows[1..], lo, hi)
  }

  /** The day rows read are those that start in the window, each as often as there is one. */
  lemma {:induction false} WindowIsExact(rows: seq<DayScore>, lo: int, hi: int)
    ensures forall row :: multiset(InWindow(rows, lo, hi))[row] ==
                          if lo <= row.start && row.start < hi then multiset(rows)[row] else 0
  {
    if rows != [] {
      WindowIsExact(rows[1..], lo, hi);
      assert rows == [rows[0]] + rows[1..];
    }
  }

  function Share(row: DayScore, p: int, c: Column): int {
    if row.period == p then row.In(c) else 0
  }

  /** The sum of a column over the `GROUP BY` group of the period that begins on date `p`. */
  function PeriodSum(rows: seq<DayScore>, p: int, c: Column): int {
    if rows == [] then 0 else Share(rows[0], p, c) + PeriodSum(rows[1..], p, c)
  }

  function PeriodRow(periodEnd: int, rows: seq<DayScore>, p: int): Row {
    var adherent, total := PeriodSum(rows, p, AdherentSeconds), PeriodSum(rows, p, TotalSeconds);
    Row(periodEnd, adherent, total, Percentage(adherent, total), PeriodSum(rows, p, Majors))
  }

  predicate HasDay(rows: seq<DayScore>, p: int) {
    exists i :: 0 <= i < |rows| && rows[i].period == p
  }

  /** The row that the query yields for a period, if the period has a group at all. */
  function Emitted(periodEnd: int, rows: seq<DayScore>, p: int): Option<Row> {
    if HasDay(rows, p) then Some(PeriodRow(periodEnd, rows, p)) else None
  }

  /** A row of the score table as the period queries read it. */
  function ScoreOf(start: int, period: int, row: Row): DayScore {
    DayScore(start, period, row.adherentSeconds, row.totalSeconds, row.majors)
  }

  function GrandSum(rows: seq<DayScore>, c: Column): int {
    if rows == [] then 0 else rows[0].In(c) + GrandSum(rows[1..], c)
  }

  function SumOverPeriods(rows: seq<DayScore>, periods: seq<int>, c: Column): int {
    if periods == [] then 0 else PeriodSum(rows, periods[0], c) + SumOverPeriods(rows, periods[1..], c)
  }

  lemma {:induction false} OneRowOnePeriod(rows: seq<DayScore>, periods: seq<int>, c: Column)
    requires rows != [] && Distinct(periods)
    ensures SumOverPeriods(rows, periods, c) ==
            (if rows[0].period in periods then rows[0].In(c) else 0) + SumOverPeriods(rows[1..], periods, c)
  {
    if periods != [] {
      var period, rest := rows[0].period, periods[1..];
      OneRowOnePeriod(rows, rest, c);
      assert periods[0] !in rest;
      assert period in periods <==> period == periods[0] || period in rest;
    }
  }

  /** Conservation: the rows of the periods add up, column by column, to the day rows they were made from. */
  lemma {:induction false} PeriodsConserve(rows: seq<DayScore>, periods: seq<int>, c: Column)
    requires Distinct(periods)
    requires forall i :: 0 <= i < |rows| ==> rows[i].period in periods
    ensures SumOverPeriods(rows, periods, c) == GrandSum(rows, c)
  {
    if rows == [] {
      NothingToSum(periods, c);
    } else {
      OneRowOnePeriod(rows, periods, c);
      PeriodsConserve(rows[1..], periods, c);
    }
  }

  lemma {:induction false} NothingToSum(periods: seq<int>, c: Column)
    ensures SumOverPeriods([], periods, c) == 0
  {
    if periods != [] {
      NothingToSum(periods[1..], c);
    }
  }

  /** Every figure of a day row is what `DailyRollup.DayRowIsInRange` guarantees. */
  ghost predicate ValidScores(rows: seq<DayScore>) {
    forall i :: 0 <= i < |rows| ==> 0 <= rows[i].adherent <= rows[i].total
  }

  ghost predicate HasScheduledTime(rows: seq<DayScore>, p: int) {
    exists i :: 0 <= i < |rows| && rows[i].period == p && rows[i].total > 0
  }

  lemma {:induction false} PeriodSumsInRange(rows: seq<DayScore>, p: int)
    requires ValidScores(rows)
    ensures 0 <= PeriodSum(rows, p, AdherentSeconds) <= PeriodSum(rows, p, TotalSeconds)
    ensures PeriodSum(rows, p, TotalSeconds) > 0 <==> HasScheduledTime(rows, p)
  {
    if rows != [] {
      var rest := rows[1..];
      PeriodSumsInRange(rest, p);
      if i :| 0 <= i < |rest| && rest[i].period == p && rest[i].total > 0 {
        assert rows[i + 1] == rest[i];
      }
      if i :| 0 <= i < |rows| && rows[i].period == p && rows[i].total > 0 {
        if i > 0 {
          assert rest[i - 1] == rows[i];
        }
      }
    }
  }

  /**
    The percentage column is declared NOT NULL and between 0 and 100.  A row is yielded for
    exactly the periods that have a day row, and it can be stored exactly when one of those
    day rows has at least one whole scheduled second.
   */
  lemma PeriodRowIsStorable(rows: seq<DayScore>, p: int, periodEnd: int)
    requires ValidScores(rows)
    ensures var row := Emitted(periodEnd, rows, p);
            && (row.Some? <==> HasDay(rows, p))
            && (row.Some? ==> (row.value.pct.None? <==> !HasScheduledTime(rows, p)))
            && (row.Some? && row.value.pct.Some? ==> 0 <= row.value.pct.value <= 10000)
  {
    PeriodSumsInRange(rows, p);
    if PeriodSum(rows, p, TotalSeconds) > 0 {
      RatioInRange(PeriodSum(rows, p, AdherentSeconds), PeriodSum(rows, p, TotalSeconds));
    }
  }

  /**
    One that cannot: an employee whose only event comes half a second before midnight.  The
    day's row has zero seconds and 100%; the week's and the month's row have no percentage.
   */
  lemma LastHalfSecondIsNotStorable(log: seq<Event>, kind: PeriodType, rows: seq<DayScore>)
    requires log == [Event(DAY - SECOND / 2, true)]
    requires rows == [ScoreOf(0, PeriodOf(kind, 0), DayRow(Utc(), log, 0, 300 * SECOND))]
    ensures DayRow(Utc(), log, 0, 300 * SECOND) == Row(DAY, 0, 0, Some(10000), 0)
    ensures BucketedBy(Utc(), kind, rows)
    ensures forall periodEnd :: Emitted(periodEnd, rows, PeriodOf(kind, 0)) == Some(Row(periodEnd, 0, 0, None, 0))
  {
    assert log[1..] == [] && Aggregate(Utc(), log[1..], 0, 300 * SECOND) == Totals(0, 0, 0);
    assert Segment(Utc(), log) == SECOND / 2;
    assert Aggregate(Utc(), log, 0, 300 * SECOND) == Totals(SECOND / 2, SECOND / 2, 0);
    var p := PeriodOf(kind, 0);
    OneRowSums(rows[0], p);
    assert rows[0].period == p;
  }

  lemma {:induction false} SumsAdd(rows: seq<DayScore>, row: DayScore, p: int, c: Column)
    ensures PeriodSum(rows + [row], p, c) == PeriodSum(rows, p, c) + Share(row, p, c)
  {
    if rows == [] {
      assert rows + [row] == [row];
    } else {
      assert (rows + [row])[1..] == rows[1..] + [row];
      SumsAdd(rows[1..], row, p, c);
    }
  }

  /**
    What a period's row holds, day by day: it starts from zero, each day row of the period
    adds its own seconds and deviations, and the percentage is that of the sums.
   */
  lemma PeriodRowAdds(periodEnd: int, rows: seq<DayScore>, row: DayScore, p: int)
    ensures var before, after := PeriodRow(periodEnd, rows, p), PeriodRow(periodEnd, rows + [row], p);
            && before.periodEnd == periodEnd && before.pct == Percentage(before.adherentSeconds, before.totalSeconds)
            && (rows == [] ==> before.adherentSeconds == before.totalSeconds == before.majors == 0)
            && if row.period == p then
                 && after.adherentSeconds == before.adherentSeconds + row.adherent
                 && after.totalSeconds == before.totalSeconds + row.total
                 && after.majors == before.majors + row.majors
               else after == before
  {
    forall c: Column
      ensures PeriodSum(rows + [row], p, c) == PeriodSum(rows, p, c) + Share(row, p, c)
    {
      SumsAdd(rows, row, p, c);
    }
  }

  lemma OneRowSums(row: DayScore, p: int)
    requires row.period == p
    ensures forall c: Column :: PeriodSum([row], p, c) == row.In(c)
  {
    assert [row][1..] == [];
  }

  /**
    The two day rows that a fallback to UTC leaves (`DailyRollup.FallbackCountsTwice`) are
    in one week, which counts the twelve hours from noon as twenty-three.
   */
  lemma FallbackDoublesWeek(rows: seq<DayScore>)
    requires rows == [ScoreOf(0, -3, Row(DAY, 43200, 43200, Some(10000), 0)),
                      ScoreOf(-Hours(1), -3, Row(DAY - Hours(1), 39600, 39600, Some(10000), 0))]
    ensures BucketedBy(HourAhead(), Week, rows)
    ensures PeriodRow(Hours(96), rows, -3) == Row(Hours(96), 82800, 82800, Some(10000), 0)
  {
    var last := rows[1..];
    assert last == [rows[1]];
    OneRowSums(rows[1], -3);
    forall c: Column
      ensures PeriodSum(rows, -3, c) == rows[0].In(c) + rows[1].In(c)
    {
    }
    assert Percentage(82800, 82800) == Some(10000);
  }

  // ----- The window cuts rows off -----

  function Before(rows: seq<DayScore>, lo: int): seq<DayScore> {
    if rows == [] then []
    else (if rows[0].start < lo then [rows[0]] else []) + Before(rows[1..], lo)
  }

  /** Adding a row at the front of the ones selected. */
  lemma SelectionSum(row: DayScore, taken: bool, rest: seq<DayScore>, p: int, c: Column)
    ensures PeriodSum((if taken then [row] else []) + rest, p, c) ==
            (if taken then Share(row, p, c) else 0) + PeriodSum(rest, p, c)
  {
    if taken {
      assert ([row] + rest)[1..] == rest;
    } else {
      assert [] + rest == rest;
    }
  }

  /** What the query sums for a period is the whole period less the day rows before the window. */
  lemma {:induction false} WindowSplits(rows: seq<DayScore>, p: int, c: Column, lo: int, hi: int)
    requires forall i :: 0 <= i < |rows| ==> rows[i].start < hi
    ensures PeriodSum(rows, p, c) == PeriodSum(Before(rows, lo), p, c) + PeriodSum(InWindow(rows, lo, hi), p, c)
  {
    if rows != [] {
      var row, rest := rows[0], rows[1..];
      WindowSplits(rest, p, c, lo, hi);
      SelectionSum(row, row.start < lo, Before(rest, lo), p, c);
      SelectionSum(row, lo <= row.start < hi, InWindow(rest, lo, hi), p, c);
    }
  }

  lemma {:induction false} NothingBefore(rows: seq<DayScore>, p: int, c: Column, lo: int)
    requires forall i :: 0 <= i < |rows| && rows[i].period == p ==> lo <= rows[i].start
    ensures PeriodSum(Before(rows, lo), p, c) == 0
  {
    if rows != [] {
      NothingBefore(rows[1..], p, c, lo);
      SelectionSum(rows[0], rows[0].start < lo, Before(rows[1..], lo), p, c);
    }
  }

  ghost predicate NonNegative(rows: seq<DayScore>, c: Column) {
    forall i :: 0 <= i < |rows| ==> 0 <= rows[i].In(c)
  }

  /** Of a period that ends before `hi`, a window that opens later sums no more. */
  lemma {:induction false} LaterWindowSumsLess(
    rows: seq<DayScore>, p: int, c: Column, lo: int, hi: int, lo': int, hi': int)
    requires NonNegative(rows, c) && lo <= lo'
    requires forall i :: 0 <= i < |rows| && rows[i].period == p ==> rows[i].start < hi
    ensures PeriodSum(InWindow(rows, lo', hi'), p, c) <= PeriodSum(InWindow(rows, lo, hi), p, c)
  {
    if rows != [] {
      var row, rest := rows[0], rows[1..];
      LaterWindowSumsLess(rest, p, c, lo, hi, lo', hi');
      SelectionSum(row, lo <= row.start < hi, InWindow(rest, lo, hi), p, c);
      SelectionSum(row, lo' <= row.start < hi', InWindow(rest, lo', hi'), p, c);
    }
  }

  lemma {:induction false} SumOfBefore(rows: seq<DayScore>, p: int, c: Column, lo: int, i: nat)
    requires NonNegative(rows, c) && i < |rows| && rows[i].period == p && rows[i].start < lo
    ensures PeriodSum(Before(rows, lo), p, c) >= rows[i].In(c)
  {
    var row, rest := rows[0], rows[1..];
    SelectionSum(row, row.start < lo, Before(rest, lo), p, c);
    if i > 0 {
      SumOfBefore(rest, p, c, lo, i - 1);
    } else {
      SumsAreNonNegative(rest, p, c, lo);
    }
  }

  lemma {:induction false} SumsAreNonNegative(rows: seq<DayScore>, p: int, c: Column, lo: int)
    requires NonNegative(rows, c)
    ensures PeriodSum(Before(rows, lo), p, c) >= 0
  {
    if rows != [] {
      SumsAreNonNegative(rows[1..], p, c, lo);
      SelectionSum(rows[0], rows[0].start < lo, Before(rows[1..], lo), p, c);
    }
  }

  // ----- The job's window -----

  /** `getUTCDay()`, with Sunday as 7. */
  function IsoDayOfWeek(date: int): int {
    var day := (date + 4) % 7;
    if day == 0 then 7 else day
  }

  function DateOf(instant: int): int {
    instant / 86_400_000_000
  }

  lemma DateHoldsInstant(instant: int)
    ensures Hours(24 * DateOf(instant)) <= instant < Hours(24 * (DateOf(instant) + 1))
  {
  }

  /** The month that the trailing range reaches back into. */
  function OldestMonth(now: int, trailingDays: int): int {
    MonthOf(DateOf(now - Hours(24 * trailingDays)))
  }

  function WindowStart(now: int, trailingDays: int): int {
    var monthStart := MonthStart(OldestMonth(now, trailingDays));
    Hours(24 * (monthStart - IsoDayOfWeek(monthStart)))
  }

  function WindowEnd(now: int): int {
    now + Hours(24)
  }

  /** Offsets run from UTC-12 to UTC+14; a zone may have different ones on different dates. */
  ghost predicate RealOffsets(zone: Zone) {
    forall date :: Hours(24 * date) - Hours(14) <= zone.startOf(date) <= Hours(24 * date) + Hours(12)
  }

  /** On this date the zone is at UTC or west of it. */
  predicate AtOrWestOfUtc(zone: Zone, date: int) {
    zone.startOf(date) >= Hours(24 * date)
  }

  /**
    Exactly which dates the window takes in: all from the Monday on or before the oldest
    month's start, and the Sunday before it where the local clock is not ahead of UTC.
   */
  lemma DatesInWindow(zone: Zone, now: int, trailingDays: int, date: int)
    requires RealOffsets(zone)
    ensures var monday := Monday(MonthStart(OldestMonth(now, trailingDays)));
            WindowStart(now, trailingDays) <= zone.startOf(date)
            <==> date >= monday || (date == monday - 1 && AtOrWestOfUtc(zone, date))
  {
    var monthStart := MonthStart(OldestMonth(now, trailingDays));
    MondaysIncrease(monthStart, monthStart);
    assert Hours(24 * date) - Hours(14) <= zone.startOf(date) <= Hours(24 * date) + Hours(12);
  }

  /** From the oldest month's start on, no month is cut at its start; nor is any week from that Monday on. */
  lemma LaterPeriodsBeginInWindow(zone: Zone, now: int, trailingDays: int, months: nat, weeks: nat)
    requires RealOffsets(zone)
    ensures var oldest := OldestMonth(now, trailingDays);
            && WindowStart(now, trailingDays) <= zone.startOf(MonthStart(oldest + months))
            && WindowStart(now, trailingDays) <= zone.startOf(Monday(MonthStart(oldest)) + 7 * weeks)
  {
    var oldest := OldestMonth(now, trailingDays);
    MonthStartsIncrease(oldest, months);
    DatesInWindow(zone, now, trailingDays, MonthStart(oldest + months));
    DatesInWindow(zone, now, trailingDays, Monday(MonthStart(oldest)) + 7 * weeks);
  }

  /**
    The window is meant never to aggregate a period from only some of its days.  The month
    before the oldest one is the exception: its first day is always outside, and its last
    day inside unless the oldest month starts on a Monday in a zone ahead of UTC.
   */
  lemma PreviousMonthIsCut(zone: Zone, now: int, trailingDays: int)
    requires RealOffsets(zone)
    ensures var oldest := OldestMonth(now, trailingDays);
            var start := MonthStart(oldest);
            && WindowStart(now, trailingDays) > zone.startOf(MonthStart(oldest - 1))
            && FirstOfMonth(start - 1) == MonthStart(oldest - 1)
            && (WindowStart(now, trailingDays) <= zone.startOf(start - 1)
                <==> Monday(start) != start || AtOrWestOfUtc(zone, start - 1))
  {
    var oldest := OldestMonth(now, trailingDays);
    var start := MonthStart(oldest);
    MonthsAreConsecutive(oldest - 1);
    MonthIsUnique(start - 1, oldest - 1);
    DatesInWindow(zone, now, trailingDays, MonthStart(oldest - 1));
    DatesInWindow(zone, now, trailingDays, start - 1);
  }

  /** Likewise the week before the first whole one: cut exactly where the Sunday is not ahead of UTC. */
  lemma PreviousWeekIsCut(zone: Zone, now: int, trailingDays: int)
    requires RealOffsets(zone)
    ensures var monday := Monday(MonthStart(OldestMonth(now, trailingDays)));
            && WindowStart(now, trailingDays) > zone.startOf(monday - 7)
            && Monday(monday - 1) == monday - 7
            && (WindowStart(now, trailingDays) <= zone.startOf(monday - 1) <==> AtOrWestOfUtc(zone, monday - 1))
  {
    var monday := Monday(MonthStart(OldestMonth(now, trailingDays)));
    DatesInWindow(zone, now, trailingDays, monday - 7);
    DatesInWindow(zone, now, trailingDays, monday - 1);
    SundayBefore(MonthStart(OldestMonth(now, trailingDays)));
  }

  lemma SundayBefore(date: int)
    ensures Monday(Monday(date) - 1) == Monday(date) - 7
  {
  }

  /** Windows only move forward, so a date that has dropped out never comes back. */
  lemma WindowsAdvance(now: int, later: int, trailingDays: int)
    requires now <= later
    ensures WindowStart(now, trailingDays) <= WindowStart(later, trailingDays)
  {
    var m, n := OldestMonth(now, trailingDays), OldestMonth(later, trailingDays);
    DatesAdvance(now - Hours(24 * trailingDays), later - Hours(24 * trailingDays));
    MonthsAdvance(DateOf(now - Hours(24 * trailingDays)), DateOf(later - Hours(24 * trailingDays)));
    MonthStartsIncrease(m, n - m);
    MondaysIncrease(MonthStart(m), MonthStart(n));
  }

  lemma DatesAdvance(t: int, u: int)
    requires t <= u
    ensures DateOf(t) <= DateOf(u)
  {
  }

  lemma MonthsAdvance(d: int, e: int)
    requires d <= e
    ensures MonthOf(d) <= MonthOf(e)
  {
    var m, n := MonthOf(d), MonthOf(e);
    if n < m {
      MonthStartsIncrease(n + 1, m - n - 1);
    }
  }

  lemma MondaysIncrease(d: int, e: int)
    requires d <= e
    ensures Monday(d) <= Monday(e)
    ensures d - IsoDayOfWeek(d) == Monday(d) - 1 && e - IsoDayOfWeek(e) == Monday(e) - 1
  {
  }

  /**
    So a period that one run has read in part does not heal: every later run sums at most
    what that run did, and less than the whole in any column in which a row cut off then
    is positive.
   */
  lemma CutPeriodsDoNotHeal(rows: seq<DayScore>, p: int, c: Column, now: int, later: int, trailingDays: int)
    requires NonNegative(rows, c) && now <= later
    requires forall i :: 0 <= i < |rows| ==> rows[i].start < WindowEnd(now)
    ensures var sum := PeriodSum(InWindow(rows, WindowStart(now, trailingDays), WindowEnd(now)), p, c);
            var laterSum := PeriodSum(InWindow(rows, WindowStart(later, trailingDays), WindowEnd(later)), p, c);
            && laterSum <= sum <= PeriodSum(rows, p, c)
            && forall i :: 0 <= i < |rows| && rows[i].period == p && rows[i].start < WindowStart(now, trailingDays) ==>
                 laterSum <= PeriodSum(rows, p, c) - rows[i].In(c)
  {
    var lo, hi := WindowStart(now, trailingDays), WindowEnd(now);
    WindowsAdvance(now, later, trailingDays);
    LaterWindowSumsLess(rows, p, c, lo, hi, WindowStart(later, trailingDays), WindowEnd(later));
    WindowSplits(rows, p, c, lo, hi);
    SumsAreNonNegative(rows, p, c, lo);
    forall i | 0 <= i < |rows| && rows[i].period == p && rows[i].start < lo
      ensures PeriodSum(Before(rows, lo), p, c) >= rows[i].In(c)
    {
      SumOfBefore(rows, p, c, lo, i);
    }
  }

  // ----- What that does to the rows -----

  /**
    Every month from the oldest one on, and every week from its Monday on, is summed from
    all of its day rows, in every time zone and for every `now`.
   */
  lemma LaterPeriodsAreWhole(
    zone: Zone, kind: PeriodType, rows: seq<DayScore>, now: int, trailingDays: int, p: int, c: Column)
    requires zone.Valid() && RealOffsets(zone) && !kind.Day? && BucketedBy(zone, kind, rows)
    requires forall i :: 0 <= i < |rows| ==> rows[i].start < WindowEnd(now)
    requires p >= PeriodOf(kind, MonthStart(OldestMonth(now, trailingDays)))
    ensures PeriodSum(InWindow(rows, WindowStart(now, trailingDays), WindowEnd(now)), p, c) == PeriodSum(rows, p, c)
  {
    MonthsAreConsecutive(OldestMonth(now, trailingDays));
    MonthIsUnique(MonthStart(OldestMonth(now, trailingDays)), OldestMonth(now, trailingDays));
    forall i | 0 <= i < |rows| && rows[i].period == p
      ensures WindowStart(now, trailingDays) <= rows[i].start
    {
      var date := zone.dayOf(rows[i].start);
      assert p <= date;
      DatesInWindow(zone, now, trailingDays, date);
      assert zone.startOf(date) <= rows[i].start;
    }
    NothingBefore(rows, p, c, WindowStart(now, trailingDays));
    WindowSplits(rows, p, c, WindowStart(now, trailingDays), WindowEnd(now));
  }

  // ----- The rows of one employee in the table -----

  /** The employee's day rows, each under the instant it starts, bucketed into periods. */
  function Bucketed(zone: Zone, kind: PeriodType, days: seq<(int, Row)>): seq<DayScore> {
    seq(|days|, i requires 0 <= i < |days| =>
      ScoreOf(days[i].0, PeriodOf(kind, zone.dayOf(days[i].0)), days[i].1))
  }

  /** The date after the last of the period that begins on date `p`. */
  function NextPeriod(kind: PeriodType, p: int): int {
    match kind
    case Day => p + 1
    case Week => p + 7
    case Month => MonthStart(MonthOf(p) + 1)
  }

  function PeriodsOf(rows: seq<DayScore>): seq<int> {
    seq(|rows|, i requires 0 <= i < |rows| => rows[i].period)
  }

  /** What the employee's day rows come to in the query's window. */
  function Read(zone: Zone, kind: PeriodType, days: seq<(int, Row)>, lo: int, hi: int): seq<DayScore> {
    InWindow(Bucketed(zone, kind, days), lo, hi)
  }

  /** The week or month rows that a query writes for one of its employees. */
  function EmployeeRows(
    tenant: string, employee: string, zone: Zone, kind: PeriodType, days: seq<(int, Row)>, lo: int, hi: int): Table
  {
    var rows := Read(zone, kind, days, lo, hi);
    Batch(PeriodsOf(rows),
          (p: int) => Key(tenant, employee, kind, zone.startOf(p)),
          (p: int) => PeriodRow(zone.startOf(NextPeriod(kind, p)), rows, p))
  }

  lemma EmployeeRowsAreExact(
    tenant: string, employee: string, zone: Zone, kind: PeriodType, days: seq<(int, Row)>, lo: int, hi: int, p: int)
    requires zone.Valid()
    ensures var read := Read(zone, kind, days, lo, hi);
            var written := EmployeeRows(tenant, employee, zone, kind, days, lo, hi);
            var key := Key(tenant, employee, kind, zone.startOf(p));
            && (key in written <==> HasDay(read, p))
            && (key in written ==> written[key] == PeriodRow(zone.startOf(NextPeriod(kind, p)), read, p))
  {
    var rows := Read(zone, kind, days, lo, hi);
    var keyOf := (p: int) => Key(tenant, employee, kind, zone.startOf(p));
    forall a, b | keyOf(a) == keyOf(b)
      ensures a == b
    {
      assert a < b ==> zone.startOf(a) < zone.startOf(b);
      assert b < a ==> zone.startOf(b) < zone.startOf(a);
    }
    BatchIsExact(PeriodsOf(rows), keyOf, (p: int) => PeriodRow(zone.startOf(NextPeriod(kind, p)), rows, p), p);
    PeriodIsListed(rows, p);
  }

  lemma PeriodIsListed(rows: seq<DayScore>, p: int)
    ensures p in PeriodsOf(rows) <==> HasDay(rows, p)
  {
    if HasDay(rows, p) {
      var i :| 0 <= i < |rows| && rows[i].period == p;
      assert PeriodsOf(rows)[i] == p;
    }
  }

  /** A query writes an employee's rows under their own week and month keys only. */
  lemma EmployeeRowsAvoid(
    tenant: string, employee: string, zone: Zone, kind: PeriodType, days: seq<(int, Row)>, lo: int, hi: int, key: Key)
    requires key.tenant != tenant || key.employee != employee || key.periodType != kind
    ensures key !in EmployeeRows(tenant, employee, zone, kind, days, lo, hi)
  {
    var rows := Read(zone, kind, days, lo, hi);
    BatchAvoids(PeriodsOf(rows),
                (p: int) => Key(tenant, employee, kind, zone.startOf(p)),
                (p: int) => PeriodRow(zone.startOf(NextPeriod(kind, p)), rows, p), key);
  }

  /** A period of two day rows, the first of which has dropped out of the window. */
  lemma FirstRowDropsOut(rows: seq<DayScore>, p: int, lo: int, hi: int)
    requires |rows| == 2 && rows[0].period == p && rows[1].period == p
    requires rows[0].start < lo <= rows[1].start < hi
    ensures InWindow(rows, lo, hi) == [rows[1]]
  {
    var last := rows[1..];
    assert last == [rows[1]] && last[1..] == [];
    assert InWindow(last, lo, hi) == last;
  }

  lemma TwoRowSums(rows: seq<DayScore>, p: int)
    requires |rows| == 2 && rows[0].period == p && rows[1].period == p
    ensures forall c: Column :: PeriodSum(rows, p, c) == rows[0].In(c) + rows[1].In(c)
  {
    assert rows[1..] == [rows[1]];
    OneRowSums(rows[1], p);
  }

  lemma BothRowsAreRead(rows: seq<DayScore>, lo: int, hi: int)
    requires |rows| == 2 && lo <= rows[0].start < hi && lo <= rows[1].start < hi
    ensures InWindow(rows, lo, hi) == rows
  {
    var last := rows[1..];
    assert last == [rows[1]] && last[1..] == [];
    assert InWindow(last[1..], lo, hi) == [];
    assert InWindow(last, lo, hi) == last;
  }

  /** An adherent day that begins on date `first`, and an hour off shift on date `last`. */
  function DayAndHour(first: int, last: int): seq<(int, Row)> {
    [(Hours(24 * first), Row(Hours(24 * (first + 1)), 86400, 86400, Some(10000), 0)),
     (Hours(24 * last), Row(Hours(24 * (last + 1)), 0, 3600, Some(0), 1))]
  }

  lemma DayAndHourScores(kind: PeriodType, first: int, last: int, p: int)
    requires PeriodOf(kind, first) == p && PeriodOf(kind, last) == p
    ensures Bucketed(Utc(), kind, DayAndHour(first, last)) ==
            [DayScore(Hours(24 * first), p, 86400, 86400, 0), DayScore(Hours(24 * last), p, 0, 3600, 1)]
  {
  }

  /** The row that a query writes for a period it has read some of. */
  lemma WrittenRow(
    zone: Zone, kind: PeriodType, days: seq<(int, Row)>, lo: int, hi: int, p: int, end: int, key: Key, row: Row)
    requires zone.Valid() && HasDay(Read(zone, kind, days, lo, hi), p)
    requires end == zone.startOf(NextPeriod(kind, p)) && key == Key("t", "e", kind, zone.startOf(p))
    requires row == PeriodRow(end, Read(zone, kind, days, lo, hi), p)
    ensures var rows := EmployeeRows("t", "e", zone, kind, days, lo, hi);
            key in rows && rows[key] == row
  {
    EmployeeRowsAreExact("t", "e", zone, kind, days, lo, hi, p);
  }

  lemma DayAndHourSums(first: int, last: int, p: int, end: int)
    ensures var rows := [DayScore(first, p, 86400, 86400, 0), DayScore(last, p, 0, 3600, 1)];
            HasDay(rows, p) && PeriodRow(end, rows, p) == Row(end, 86400, 90000, Some(9600), 1)
  {
    var rows := [DayScore(first, p, 86400, 86400, 0), DayScore(last, p, 0, 3600, 1)];
    TwoRowSums(rows, p);
    assert rows[0].period == p;
    assert PeriodSum(rows, p, Majors) == 1;
  }

  lemma HourSums(last: int, p: int, end: int)
    ensures var rows := [DayScore(last, p, 0, 3600, 1)];
            HasDay(rows, p) && PeriodRow(end, rows, p) == Row(end, 0, 3600, Some(0), 1)
  {
    var rows := [DayScore(last, p, 0, 3600, 1)];
    OneRowSums(rows[0], p);
    assert rows[0].period == p;
    assert PeriodSum(rows, p, Majors) == 1;
  }

  /** Read whole, the period of the two is at 96%; without the first it is at 0%. */
  lemma PairRow(
    zone: Zone, kind: PeriodType, days: seq<(int, Row)>, first: int, last: int, lo: int, hi: int, p: int, end: int,
    key: Key)
    requires zone.Valid() && first < last && lo <= last < hi
    requires Bucketed(zone, kind, days) == [DayScore(first, p, 86400, 86400, 0), DayScore(last, p, 0, 3600, 1)]
    requires end == zone.startOf(NextPeriod(kind, p)) && key == Key("t", "e", kind, zone.startOf(p))
    ensures var rows := EmployeeRows("t", "e", zone, kind, days, lo, hi);
            && key in rows
            && rows[key] == if lo <= first then Row(end, 86400, 90000, Some(9600), 1) else Row(end, 0, 3600, Some(0), 1)
  {
    if lo <= first {
      BothRowsAreRead(Bucketed(zone, kind, days), lo, hi);
      DayAndHourSums(first, last, p, end);
      WrittenRow(zone, kind, days, lo, hi, p, end, key, Row(end, 86400, 90000, Some(9600), 1));
    } else {
      FirstRowDropsOut(Bucketed(zone, kind, days), p, lo, hi);
      HourSums(last, p, end);
      WrittenRow(zone, kind, days, lo, hi, p, end, key, Row(end, 0, 3600, Some(0), 1));
    }
  }

  lemma DayAndHourRow(kind: PeriodType, first: int, last: int, p: int, lo: int, hi: int)
    requires first < last && PeriodOf(kind, first) == p && PeriodOf(kind, last) == p
    requires lo <= Hours(24 * last) < hi
    ensures var key, end := Key("t", "e", kind, Hours(24 * p)), Hours(24 * NextPeriod(kind, p));
            var rows := EmployeeRows("t", "e", Utc(), kind, DayAndHour(first, last), lo, hi);
            && key in rows
            && rows[key] ==
               if lo <= Hours(24 * first) then Row(end, 86400, 90000, Some(9600), 1) else Row(end, 0, 3600, Some(0), 1)
  {
    UtcIsValid();
    DayAndHourScores(kind, first, last, p);
    PairRow(Utc(), kind, DayAndHour(first, last), Hours(24 * first), Hours(24 * last), lo, hi, p,
            Hours(24 * NextPeriod(kind, p)), Key("t", "e", kind, Hours(24 * p)));
  }

  /** The table after one employee's rows of one kind from the run at `now`. */
  function AfterOneRun(kind: PeriodType, days: seq<(int, Row)>, now: int): Table {
    map[] + EmployeeRows("t", "e", Utc(), kind, days, WindowStart(now, 35), WindowEnd(now))
  }

  /** And from a later run. */
  function AfterTwoRuns(kind: PeriodType, days: seq<(int, Row)>, now: int, later: int): Table {
    AfterOneRun(kind, days, now)
    + EmployeeRows("t", "e", Utc(), kind, days, WindowStart(later, 35), WindowEnd(later))
  }

  /**
    A concrete loss: an employee with a full adherent day on 1 January 1970 and an hour off
    shift on the 31st.  The run of 1 February writes January at 96%; that of 12 March, which
    reaches back into February, overwrites it with one hour at 0%.  By `CutPeriodsDoNotHeal`
    no later run can repair it, although the job's comment counts on that.
   */
  lemma JanuaryIsOverwritten(february: int, march: int)
    requires february == Hours(24 * 31) && march == Hours(24 * 70)
    ensures var days, key := DayAndHour(0, 30), Key("t", "e", Month, 0);
            var once := AfterOneRun(Month, days, february);
            var twice := AfterTwoRuns(Month, days, february, march);
            && key in once && once[key] == Row(Hours(24 * 31), 86400, 90000, Some(9600), 1)
            && key in twice && twice[key] == Row(Hours(24 * 31), 0, 3600, Some(0), 1)
  {
    FebruaryRun(february);
    MarchRun(march);
    MonthIsUnique(0, 0);
    MonthIsUnique(30, 0);
    DayAndHourRow(Month, 0, 30, 0, WindowStart(february, 35), WindowEnd(february));
    DayAndHourRow(Month, 0, 30, 0, WindowStart(march, 35), WindowEnd(march));
  }

  /** The same runs and a week: of 19 to 25 January the second sees the Sunday only. */
  lemma SundayOverwritesWeek(february: int, march: int)
    requires february == Hours(24 * 31) && march == Hours(24 * 70)
    ensures var days, key := DayAndHour(18, 24), Key("t", "e", Week, Hours(24 * 18));
            var once := AfterOneRun(Week, days, february);
            var twice := AfterTwoRuns(Week, days, february, march);
            && key in once && once[key] == Row(Hours(24 * 25), 86400, 90000, Some(9600), 1)
            && key in twice && twice[key] == Row(Hours(24 * 25), 0, 3600, Some(0), 1)
  {
    FebruaryRun(february);
    MarchRun(march);
    DayAndHourRow(Week, 18, 24, 18, WindowStart(february, 35), WindowEnd(february));
    DayAndHourRow(Week, 18, 24, 18, WindowStart(march, 35), WindowEnd(march));
  }

  lemma FebruaryRun(now: int)
    requires now == Hours(24 * 31)
    ensures WindowStart(now, 35) <= 0 && WindowEnd(now) == Hours(24 * 32)
  {
    assert MonthStart(-1) == -31 && MonthStart(0) == 0;
    MonthIsUnique(-4, -1);
  }

  lemma MarchRun(now: int)
    requires now == Hours(24 * 70)
    ensures MonthStart(1) == 31
    ensures WindowStart(now, 35) == Hours(24 * 24) && WindowEnd(now) == Hours(24 * 71)
  {
    assert MonthStart(1) == 31 && MonthStart(2) == 59;
    MonthIsUnique(35, 1);
  }
}
