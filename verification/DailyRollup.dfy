/**
  The daily adherence rollup
  (adherence-compliance-service/src/adherence/adherence-daily-rollup-job.service.ts):
  the meaning of `DAILY_ROLLUP_SQL` and of re-running it over sliding scan windows.

  Instants and durations are integers in microseconds, the resolution of `timestamptz`.
  A time zone is what the query uses of it: a numbering of local days by strictly
  increasing boundary instants.
 */
module DailyRollup {
  import opened Basics
  import opened Upserts

  const SECOND := 1_000_000
  const DAY := 86_400_000_000

  function Hours(n: int): int {
    n * 3_600_000_000
  }

  datatype Event = Event(at: int, onShift: bool)

  datatype Zone = Zone(dayOf: int -> int, startOf: int -> int) {
    ghost predicate Valid() {
      && (forall t :: startOf(dayOf(t)) <= t < startOf(dayOf(t) + 1))
      && (forall d, e :: d < e ==> startOf(d) < startOf(e))
    }

    function EndOf(d: int): int {
      startOf(d + 1)
    }
  }

  lemma DayBounds(zone: Zone, t: int, d: int)
    requires zone.Valid()
    ensures zone.dayOf(t) == d <==> zone.startOf(d) <= t < zone.EndOf(d)
    ensures zone.dayOf(t) > d <==> t >= zone.EndOf(d)
  {
    var e := zone.dayOf(t);
    assert zone.startOf(e) <= t < zone.startOf(e + 1);
    if e < d {
      assert e + 1 < d ==> zone.startOf(e + 1) < zone.startOf(d);
    } else if d < e {
      assert d + 1 < e ==> zone.startOf(d + 1) < zone.startOf(e);
    }
    assert zone.startOf(d) < zone.startOf(d + 1);
  }

  ghost predicate Sorted(events: seq<Event>) {
    forall i, j :: 0 <= i < j < |events| ==> events[i].at <= events[j].at
  }

  // ----- The query -----

  /** `timestamp >= lo AND timestamp < hi` */
  function Scan(log: seq<Event>, lo: int, hi: int): seq<Event> {
    if log == [] then []
    else (if lo <= log[0].at < hi then [log[0]] else []) + Scan(log[1..], lo, hi)
  }

  /** `segment_seconds` of the first event: up to the next one (`LEAD`), at most to its day's end. */
  function Segment(zone: Zone, events: seq<Event>): int
    requires events != []
  {
    var dayEnd := zone.EndOf(zone.dayOf(events[0].at));
    var next := if |events| > 1 then events[1].at else dayEnd;
    Max(Min(next, dayEnd) - events[0].at, 0)
  }

  /** The sums and the count of one `GROUP BY` group, before rounding. */
  datatype Totals = Totals(adherent: int, total: int, majors: nat)

  function Aggregate(zone: Zone, events: seq<Event>, d: int, threshold: int): Totals {
    if events == [] then Totals(0, 0, 0)
    else
      var rest := Aggregate(zone, events[1..], d, threshold);
      if zone.dayOf(events[0].at) != d then rest
      else
        var segment := Segment(zone, events);
        if events[0].onShift then Totals(rest.adherent + segment, rest.total + segment, rest.majors)
        else Totals(rest.adherent, rest.total + segment, rest.majors + if segment >= threshold then 1 else 0)
  }

  /** `numerator / denominator` rounded to the nearest integer, halves up. */
  function Rounded(numerator: int, denominator: int): int
    requires denominator > 0
  {
    (2 * numerator + denominator) / (2 * denominator)
  }

  /** One row of `adherence_score`; the percentage is in hundredths, `None` for NULL. */
  datatype Row = Row(periodEnd: int, adherentSeconds: int, totalSeconds: int, pct: Option<int>, majors: int)

  function Percentage(adherent: int, total: int): Option<int> {
    if total <= 0 then None else Some(Rounded(10000 * adherent, total))
  }

  function DayRow(zone: Zone, events: seq<Event>, d: int, threshold: int): Row {
    var t := Aggregate(zone, events, d, threshold);
    Row(zone.EndOf(d), t.adherent / SECOND, t.total / SECOND, Percentage(t.adherent, t.total), t.majors)
  }

  // ----- What one day's group contains -----

  function OnDay(zone: Zone, events: seq<Event>, d: int): seq<Event> {
    if events == [] then []
    else (if zone.dayOf(events[0].at) == d then [events[0]] else []) + OnDay(zone, events[1..], d)
  }

  lemma {:induction false} OnDayIsExact(zone: Zone, events: seq<Event>, d: int)
    ensures forall e :: e in OnDay(zone, events, d) <==> e in events && zone.dayOf(e.at) == d
  {
    if events != [] {
      OnDayIsExact(zone, events[1..], d);
      assert events == [events[0]] + events[1..];
    }
  }

  /** In a sorted log the day's events are together, so the first of the rest decides the segment. */
  lemma NextOnDay(zone: Zone, events: seq<Event>, d: int)
    requires zone.Valid() && Sorted(events) && events != [] && zone.dayOf(events[0].at) == d
    ensures var rest := OnDay(zone, events[1..], d);
            && (rest == [] ==> Segment(zone, events) == zone.EndOf(d) - events[0].at)
            && (rest != [] ==> events[1] == rest[0] && Segment(zone, events) == rest[0].at - events[0].at)
  {
    DayBounds(zone, events[0].at, d);
    OnDayIsExact(zone, events[1..], d);
    if |events| > 1 {
      DayBounds(zone, events[1].at, d);
      if zone.dayOf(events[1].at) != d {
        forall e | e in events[1..]
          ensures zone.dayOf(e.at) != d
        {
          DayBounds(zone, e.at, d);
        }
        assert OnDay(zone, events[1..], d) == [];
      }
    }
  }

  lemma SameHeadSegment(zone: Zone, events: seq<Event>, d: int)
    requires zone.Valid() && Sorted(events) && events != [] && zone.dayOf(events[0].at) == d
    ensures Segment(zone, OnDay(zone, events, d)) == Segment(zone, events)
  {
    var rest := OnDay(zone, events[1..], d);
    NextOnDay(zone, events, d);
    DayBounds(zone, events[0].at, d);
    var day := OnDay(zone, events, d);
    assert day == [events[0]] + rest;
    if rest != [] {
      OnDayIsExact(zone, events[1..], d);
      assert rest[0] in rest;
      DayBounds(zone, rest[0].at, d);
      assert day[1].at == rest[0].at;
    }
  }

  /** The aggregate of a sorted log for a day is that of the day's events alone. */
  lemma {:induction false} OnlyTheDayCounts(zone: Zone, events: seq<Event>, d: int, threshold: int)
    requires zone.Valid() && Sorted(events)
    ensures Aggregate(zone, events, d, threshold) == Aggregate(zone, OnDay(zone, events, d), d, threshold)
  {
    if events != [] {
      OnlyTheDayCounts(zone, events[1..], d, threshold);
      var rest, day := OnDay(zone, events[1..], d), OnDay(zone, events, d);
      if zone.dayOf(events[0].at) == d {
        assert day[1..] == rest;
        SameHeadSegment(zone, events, d);
      } else {
        assert day == rest;
      }
    }
  }

  /**
    The segments of a local day telescope: they add up to the time from the day's first
    scanned event to the end of the day, however many events there are.
   */
  lemma {:induction false} DayTelescopes(zone: Zone, events: seq<Event>, d: int, threshold: int)
    requires zone.Valid() && Sorted(events)
    ensures var t := Aggregate(zone, events, d, threshold);
            var day := OnDay(zone, events, d);
            && t.total == (if day == [] then 0 else zone.EndOf(d) - day[0].at)
            && 0 <= t.adherent <= t.total
            && t.majors * threshold <= t.total - t.adherent
  {
    if events != [] {
      DayTelescopes(zone, events[1..], d, threshold);
      if zone.dayOf(events[0].at) == d {
        NextOnDay(zone, events, d);
        DayBounds(zone, events[0].at, d);
        OneMore(Aggregate(zone, events[1..], d, threshold).majors, threshold);
      }
    }
  }

  /** What the employee is doing at `t`, going by the latest of the events that is not after `t`. */
  function OnShiftAt(events: seq<Event>, t: int): bool
    requires events != []
  {
    if |events| > 1 && events[1].at <= t then OnShiftAt(events[1..], t) else events[0].onShift
  }

  /** The number of microseconds in `[lo, hi)` at which the employee is on shift. */
  function TimeOnShift(events: seq<Event>, lo: int, hi: int): nat
    requires events != []
    decreases hi - lo
  {
    if lo >= hi then 0 else (if OnShiftAt(events, lo) then 1 else 0) + TimeOnShift(events, lo + 1, hi)
  }

  /** Up to the second event, the first one decides. */
  lemma {:induction false} TimeInFirstSegment(events: seq<Event>, lo: int, mid: int, hi: int)
    requires events != [] && lo <= mid <= hi && (|events| > 1 ==> mid <= events[1].at)
    ensures TimeOnShift(events, lo, hi) == (if events[0].onShift then mid - lo else 0) + TimeOnShift(events, mid, hi)
    decreases mid - lo
  {
    if lo < mid {
      TimeInFirstSegment(events, lo + 1, mid, hi);
    }
  }

  /** From the second event on, the first one no longer matters. */
  lemma {:induction false} TimeAfterFirstSegment(events: seq<Event>, lo: int, hi: int)
    requires |events| > 1 && events[1].at <= lo
    ensures TimeOnShift(events, lo, hi) == TimeOnShift(events[1..], lo, hi)
    decreases hi - lo
  {
    if lo < hi {
      TimeAfterFirstSegment(events, lo + 1, hi);
    }
  }

  lemma {:induction false} DayIsTimeOnShift(zone: Zone, day: seq<Event>, d: int, threshold: int)
    requires zone.Valid() && Sorted(day) && day != []
    requires forall i :: 0 <= i < |day| ==> zone.dayOf(day[i].at) == d
    ensures Aggregate(zone, day, d, threshold).adherent == TimeOnShift(day, day[0].at, zone.EndOf(d))
  {
    var end := zone.EndOf(d);
    DayBounds(zone, day[0].at, d);
    assert zone.dayOf(day[0].at) == d;
    if |day| == 1 {
      TimeInFirstSegment(day, day[0].at, end, end);
    } else {
      var rest := day[1..];
      assert zone.dayOf(day[1].at) == d;
      DayBounds(zone, day[1].at, d);
      DayIsTimeOnShift(zone, rest, d, threshold);
      TimeInFirstSegment(day, day[0].at, day[1].at, end);
      TimeAfterFirstSegment(day, day[1].at, end);
    }
  }

  /**
    What the segments measure: `adherent` is exactly the time, between the day's first
    scanned event and the day's end, at which the employee was on shift.
   */
  lemma AdherentIsTimeOnShift(zone: Zone, events: seq<Event>, d: int, threshold: int)
    requires zone.Valid() && Sorted(events) && OnDay(zone, events, d) != []
    ensures var day := OnDay(zone, events, d);
            Aggregate(zone, events, d, threshold).adherent == TimeOnShift(day, day[0].at, zone.EndOf(d))
  {
    var day := OnDay(zone, events, d);
    OnlyTheDayCounts(zone, events, d, threshold);
    OnDayIsExact(zone, events, d);
    OnDayKeepsOrder(zone, events, d);
    forall i | 0 <= i < |day|
      ensures zone.dayOf(day[i].at) == d
    {
      assert day[i] in day;
    }
    DayIsTimeOnShift(zone, day, d, threshold);
  }

  lemma {:induction false} OnDayKeepsOrder(zone: Zone, events: seq<Event>, d: int)
    requires Sorted(events)
    ensures Sorted(OnDay(zone, events, d))
  {
    if events != [] {
      var rest := OnDay(zone, events[1..], d);
      OnDayKeepsOrder(zone, events[1..], d);
      OnDayIsExact(zone, events[1..], d);
      forall i | 0 <= i < |rest|
        ensures events[0].at <= rest[i].at
      {
        assert rest[i] in rest;
      }
    }
  }

  /** From the `i`-th of a day's events to the next one, or to the end of the day. */
  function TimeAfter(day: seq<Event>, end: int, i: int): int
    requires 0 <= i < |day|
  {
    (if i + 1 < |day| then day[i + 1].at else end) - day[i].at
  }

  /** The `i`-th of a day's events begins a stretch off shift as long as the threshold. */
  predicate IsLongBreak(day: seq<Event>, end: int, threshold: int, i: int) {
    0 <= i < |day| && !day[i].onShift && TimeAfter(day, end, i) >= threshold
  }

  ghost function LongBreaks(day: seq<Event>, end: int, threshold: int): set<int> {
    set i | 0 <= i < |day| && IsLongBreak(day, end, threshold, i)
  }

  lemma LongBreaksAreNumbered(day: seq<Event>, end: int, threshold: int)
    ensures Number(|day|, (i: int) => IsLongBreak(day, end, threshold, i)) == |LongBreaks(day, end, threshold)|
  {
    var has := (i: int) => IsLongBreak(day, end, threshold, i);
    NumberIsCardinality(|day|, has);
    assert (set i | 0 <= i < |day| && has(i)) == LongBreaks(day, end, threshold);
  }

  lemma {:induction false} DayMajors(zone: Zone, day: seq<Event>, d: int, threshold: int)
    requires zone.Valid() && Sorted(day) && forall i :: 0 <= i < |day| ==> zone.dayOf(day[i].at) == d
    ensures Aggregate(zone, day, d, threshold).majors ==
            Number(|day|, (i: int) => IsLongBreak(day, zone.EndOf(d), threshold, i))
  {
    if day != [] {
      var rest, end := day[1..], zone.EndOf(d);
      DayMajors(zone, rest, d, threshold);
      var breaks := (i: int) => IsLongBreak(day, end, threshold, i);
      var later := (i: int) => IsLongBreak(rest, end, threshold, i);
      NumberFromOne(|rest|, breaks, later);
      FirstSegment(zone, day, d);
    }
  }

  lemma FirstSegment(zone: Zone, day: seq<Event>, d: int)
    requires zone.Valid() && Sorted(day) && day != [] && forall i :: 0 <= i < |day| ==> zone.dayOf(day[i].at) == d
    ensures Segment(zone, day) == TimeAfter(day, zone.EndOf(d), 0)
  {
    assert zone.dayOf(day[0].at) == d;
    DayBounds(zone, day[0].at, d);
    if |day| > 1 {
      assert zone.dayOf(day[1].at) == d;
      DayBounds(zone, day[1].at, d);
    }
  }

  /** The major deviations of a day are all its stretches off shift that reach the threshold, each counted once. */
  lemma MajorsAreCounted(zone: Zone, events: seq<Event>, d: int, threshold: int)
    requires zone.Valid() && Sorted(events)
    ensures var day, end := OnDay(zone, events, d), zone.EndOf(d);
            Aggregate(zone, events, d, threshold).majors == |LongBreaks(day, end, threshold)|
  {
    var day, end := OnDay(zone, events, d), zone.EndOf(d);
    OnlyTheDayCounts(zone, events, d, threshold);
    OnDayIsExact(zone, events, d);
    OnDayKeepsOrder(zone, events, d);
    forall i | 0 <= i < |day|
      ensures zone.dayOf(day[i].at) == d
    {
      assert day[i] in day;
    }
    DayMajors(zone, day, d, threshold);
    LongBreaksAreNumbered(day, end, threshold);
  }

  lemma OneMore(majors: nat, threshold: int)
    ensures (majors + 1) * threshold == majors * threshold + threshold
  {
  }

  /** So a day's row is never without a percentage, and every figure in it is in range. */
  lemma DayRowIsInRange(zone: Zone, events: seq<Event>, d: int, threshold: int)
    requires zone.Valid() && Sorted(events) && OnDay(zone, events, d) != []
    ensures var row := DayRow(zone, events, d, threshold);
            && 0 <= row.adherentSeconds <= row.totalSeconds
            && row.pct.Some? && 0 <= row.pct.value <= 10000
            && row.majors * threshold <= zone.EndOf(d) - OnDay(zone, events, d)[0].at
  {
    DayTelescopes(zone, events, d, threshold);
    OnDayIsExact(zone, events, d);
    var first := OnDay(zone, events, d)[0];
    DayBounds(zone, first.at, d);
    var t := Aggregate(zone, events, d, threshold);
    RatioInRange(t.adherent, t.total);
  }

  lemma RatioInRange(adherent: int, total: int)
    requires 0 <= adherent <= total && 0 < total
    ensures 0 <= Rounded(10000 * adherent, total) <= 10000
  {
    var n := 2 * (10000 * adherent) + total;
    assert n < 10001 * (2 * total);
    DivBelow(n, 2 * total, 10001);
  }

  lemma DivBelow(n: int, d: int, q: int)
    requires 0 <= n < q * d && 0 < d
    ensures 0 <= n / d < q
  {
  }

  /** The nearest integer to a quotient, and of two equally near the greater. */
  lemma RoundedIsNearest(numerator: int, denominator: int)
    requires denominator > 0
    ensures var r := Rounded(numerator, denominator);
            -denominator <= 2 * (r * denominator - numerator) - 1 && 2 * (r * denominator - numerator) <= denominator
  {
    var n, d := 2 * numerator + denominator, 2 * denominator;
    var r := Rounded(numerator, denominator);
    assert n == d * (n / d) + n % d && 0 <= n % d < d;
    assert d * r == 2 * (r * denominator);
  }

  /**
    The whole row, said of the day's events alone: whole seconds on shift and in all, the
    percentage to the nearest hundredth, and the number of major deviations.
   */
  lemma DayRowIsExact(zone: Zone, events: seq<Event>, d: int, threshold: int)
    requires zone.Valid() && Sorted(events) && OnDay(zone, events, d) != []
    ensures var row, day, end := DayRow(zone, events, d, threshold), OnDay(zone, events, d), zone.startOf(d + 1);
            var onShift, whole := TimeOnShift(day, day[0].at, end), end - day[0].at;
            && row.periodEnd == end && whole > 0
            && 1_000_000 * row.adherentSeconds <= onShift < 1_000_000 * (row.adherentSeconds + 1)
            && 1_000_000 * row.totalSeconds <= whole < 1_000_000 * (row.totalSeconds + 1)
            && row.pct.Some?
            && -whole < 2 * (row.pct.value * whole - 10000 * onShift) <= whole
            && row.majors == |LongBreaks(day, end, threshold)|
  {
    DayTelescopes(zone, events, d, threshold);
    AdherentIsTimeOnShift(zone, events, d, threshold);
    MajorsAreCounted(zone, events, d, threshold);
    OnDayIsExact(zone, events, d);
    DayBounds(zone, OnDay(zone, events, d)[0].at, d);
    var t := Aggregate(zone, events, d, threshold);
    PercentageIsNearest(t.adherent, t.total);
  }

  lemma PercentageIsNearest(adherent: int, total: int)
    requires total > 0
    ensures Percentage(adherent, total).Some?
    ensures -total < 2 * (Percentage(adherent, total).value * total - 10000 * adherent) <= total
  {
    RoundedIsNearest(10000 * adherent, total);
  }

  // ----- Scan windows -----

  /** The window misses no event of the day. */
  ghost predicate Covers(zone: Zone, log: seq<Event>, d: int, lo: int, hi: int) {
    forall e :: e in log && zone.dayOf(e.at) == d ==> lo <= e.at < hi
  }

  lemma WholeDayIsCovered(zone: Zone, log: seq<Event>, d: int, lo: int, hi: int)
    requires zone.Valid() && lo <= zone.startOf(d) && zone.EndOf(d) <= hi
    ensures Covers(zone, log, d, lo, hi)
  {
  }

  lemma {:induction false} ScanIsExact(log: seq<Event>, lo: int, hi: int)
    ensures forall e :: e in Scan(log, lo, hi) <==> e in log && lo <= e.at < hi
  {
    if log != [] {
      ScanIsExact(log[1..], lo, hi);
      assert log == [log[0]] + log[1..];
    }
  }

  lemma {:induction false} ScanIsSorted(log: seq<Event>, lo: int, hi: int)
    requires Sorted(log)
    ensures Sorted(Scan(log, lo, hi))
  {
    if log != [] {
      var rest := Scan(log[1..], lo, hi);
      ScanIsSorted(log[1..], lo, hi);
      ScanIsExact(log[1..], lo, hi);
      forall i | 0 <= i < |rest|
        ensures log[0].at <= rest[i].at
      {
        assert rest[i] in rest;
      }
    }
  }

  lemma {:induction false} ScanKeepsDay(zone: Zone, log: seq<Event>, d: int, lo: int, hi: int)
    requires Covers(zone, log, d, lo, hi)
    ensures OnDay(zone, Scan(log, lo, hi), d) == OnDay(zone, log, d)
  {
    if log != [] {
      ScanKeepsDay(zone, log[1..], d, lo, hi);
      var head, rest := log[0], Scan(log[1..], lo, hi);
      if lo <= head.at < hi {
        assert Scan(log, lo, hi)[1..] == rest;
      } else {
        assert Scan(log, lo, hi) == rest;
      }
    }
  }

  /**
    Window independence: every scan window that misses none of the day's events writes the
    same row, the one the whole log gives.
   */
  lemma WindowIndependence(zone: Zone, log: seq<Event>, d: int, lo: int, hi: int, threshold: int)
    requires zone.Valid() && Sorted(log) && Covers(zone, log, d, lo, hi)
    ensures DayRow(zone, Scan(log, lo, hi), d, threshold) == DayRow(zone, log, d, threshold)
  {
    ScanIsSorted(log, lo, hi);
    ScanKeepsDay(zone, log, d, lo, hi);
    OnlyTheDayCounts(zone, log, d, threshold);
    OnlyTheDayCounts(zone, Scan(log, lo, hi), d, threshold);
  }

  /**
    A window that cuts the day shortens it: the time it accounts for is the true time less
    the stretch from the day's first event to the first one scanned.
   */
  lemma CutDayIsShortened(zone: Zone, log: seq<Event>, d: int, lo: int, hi: int, threshold: int)
    requires zone.Valid() && Sorted(log) && OnDay(zone, Scan(log, lo, hi), d) != []
    ensures OnDay(zone, log, d) != []
    ensures var scanned, whole := Aggregate(zone, Scan(log, lo, hi), d, threshold), Aggregate(zone, log, d, threshold);
            && scanned.total == whole.total - (OnDay(zone, Scan(log, lo, hi), d)[0].at - OnDay(zone, log, d)[0].at)
            && scanned.total <= whole.total
            && (scanned.total == whole.total <==> lo <= OnDay(zone, log, d)[0].at)
  {
    var scan := Scan(log, lo, hi);
    ScanIsExact(log, lo, hi);
    ScanIsSorted(log, lo, hi);
    OnDayIsExact(zone, scan, d);
    OnDayIsExact(zone, log, d);
    var first := OnDay(zone, scan, d)[0];
    assert first in OnDay(zone, log, d);
    OnDayKeepsOrder(zone, log, d);
    OnDayKeepsOrder(zone, scan, d);
    DayTelescopes(zone, log, d, threshold);
    DayTelescopes(zone, scan, d, threshold);
    if lo <= OnDay(zone, log, d)[0].at {
      assert OnDay(zone, log, d)[0] in OnDay(zone, scan, d);
    }
  }

  /**
    A run whose window closes after the day's last event computes the identical result if
    and only if the window opens no later than the day's first event.
   */
  lemma RerunIsIdentical(zone: Zone, log: seq<Event>, d: int, lo: int, hi: int, threshold: int)
    requires zone.Valid() && Sorted(log) && OnDay(zone, log, d) != []
    requires forall e :: e in OnDay(zone, log, d) ==> e.at < hi
    ensures Aggregate(zone, Scan(log, lo, hi), d, threshold) == Aggregate(zone, log, d, threshold)
            <==> lo <= OnDay(zone, log, d)[0].at
  {
    var scan := Scan(log, lo, hi);
    OnDayIsExact(zone, log, d);
    if lo <= OnDay(zone, log, d)[0].at {
      OnDayKeepsOrder(zone, log, d);
      ScanKeepsDay(zone, log, d, lo, hi);
      ScanIsSorted(log, lo, hi);
      OnlyTheDayCounts(zone, log, d, threshold);
      OnlyTheDayCounts(zone, scan, d, threshold);
    } else if OnDay(zone, scan, d) != [] {
      CutDayIsShortened(zone, log, d, lo, hi, threshold);
    } else {
      ScanIsSorted(log, lo, hi);
      DayTelescopes(zone, log, d, threshold);
      DayTelescopes(zone, scan, d, threshold);
      DayBounds(zone, OnDay(zone, log, d)[0].at, d);
    }
  }

  /** Once the cut takes off a whole second, the stored row has fewer scheduled seconds. */
  lemma CutShowsInRow(zone: Zone, log: seq<Event>, d: int, lo: int, hi: int, threshold: int)
    requires zone.Valid() && Sorted(log) && OnDay(zone, Scan(log, lo, hi), d) != []
    ensures OnDay(zone, log, d) != []
    ensures OnDay(zone, Scan(log, lo, hi), d)[0].at - OnDay(zone, log, d)[0].at >= SECOND ==>
              DayRow(zone, Scan(log, lo, hi), d, threshold).totalSeconds < DayRow(zone, log, d, threshold).totalSeconds
  {
    CutDayIsShortened(zone, log, d, lo, hi, threshold);
  }

  /**
    Why the window's end matters too: with the second event of the day still ahead of it,
    the total is the same but all of the day counts as adherent.
   */
  lemma EarlyEndOverstates(log: seq<Event>)
    requires log == [Event(0, true), Event(Hours(12), false)]
    ensures DayRow(Utc(), log, 0, 300 * SECOND) == Row(DAY, 43200, 86400, Some(5000), 1)
    ensures DayRow(Utc(), Scan(log, 0, Hours(6)), 0, 300 * SECOND) == Row(DAY, 86400, 86400, Some(10000), 0)
  {
    var second := log[1..];
    assert second == [Event(Hours(12), false)] && second[1..] == [];
    assert Scan(second, 0, Hours(6)) == [];
    var scan := Scan(log, 0, Hours(6));
    assert scan == [log[0]] && scan[1..] == [];
    assert Segment(Utc(), second) == Hours(12) && Segment(Utc(), log) == Hours(12) && Segment(Utc(), scan) == DAY;
    assert Aggregate(Utc(), [], 0, 300 * SECOND) == Totals(0, 0, 0);
    assert Aggregate(Utc(), second, 0, 300 * SECOND) == Totals(0, Hours(12), 1);
    assert Aggregate(Utc(), log, 0, 300 * SECOND) == Totals(Hours(12), DAY, 1);
    assert Aggregate(Utc(), scan, 0, 300 * SECOND) == Totals(DAY, DAY, 0);
  }

  // ----- The score table and runs of the job -----

  datatype PeriodType = Day | Week | Month
  datatype Key = Key(tenant: string, employee: string, periodType: PeriodType, periodStart: int)
  type Table = map<Key, Row>

  function DayKey(tenant: string, employee: string, zone: Zone, d: int): Key {
    Key(tenant, employee, Day, zone.startOf(d))
  }

  /** One employee's share of one execution of the query: a pass over one scan window. */
  datatype Pass = Pass(tenant: string, employee: string, zone: Zone, lo: int, hi: int)

  type Logs = map<(string, string), seq<Event>>

  function LogOf(logs: Logs, tenant: string, employee: string): seq<Event> {
    if (tenant, employee) in logs then logs[(tenant, employee)] else []
  }

  ghost predicate ValidLogs(logs: Logs) {
    forall k :: k in logs ==> Sorted(logs[k])
  }

  function Scanned(logs: Logs, p: Pass): seq<Event> {
    Scan(LogOf(logs, p.tenant, p.employee), p.lo, p.hi)
  }

  /** `GROUP BY local_day`: the day of every event. */
  function DaysOf(zone: Zone, events: seq<Event>): seq<int> {
    seq(|events|, i requires 0 <= i < |events| => zone.dayOf(events[i].at))
  }

  /** The rows a pass writes. */
  function PassRows(logs: Logs, p: Pass, threshold: int): Table {
    var events := Scanned(logs, p);
    Batch(DaysOf(p.zone, events),
          (d: int) => DayKey(p.tenant, p.employee, p.zone, d),
          (d: int) => DayRow(p.zone, events, d, threshold))
  }

  function AllRows(logs: Logs, passes: seq<Pass>, threshold: int): seq<Table> {
    seq(|passes|, i requires 0 <= i < |passes| => PassRows(logs, passes[i], threshold))
  }

  /** What a pass writes under the key of a day: the day's row if it scanned any of it, else nothing. */
  lemma PassOnDay(logs: Logs, p: Pass, threshold: int, d: int)
    requires p.zone.Valid()
    ensures var key, rows := DayKey(p.tenant, p.employee, p.zone, d), PassRows(logs, p, threshold);
            && (key in rows <==> OnDay(p.zone, Scanned(logs, p), d) != [])
            && (key in rows ==> rows[key] == DayRow(p.zone, Scanned(logs, p), d, threshold))
  {
    var events := Scanned(logs, p);
    var keyOf := (d: int) => DayKey(p.tenant, p.employee, p.zone, d);
    forall a, b | keyOf(a) == keyOf(b)
      ensures a == b
    {
      assert a < b ==> p.zone.startOf(a) < p.zone.startOf(b);
      assert b < a ==> p.zone.startOf(b) < p.zone.startOf(a);
    }
    BatchIsExact(DaysOf(p.zone, events), keyOf, (d: int) => DayRow(p.zone, events, d, threshold), d);
    DayIsListed(p.zone, events, d);
  }

  lemma PassAvoidsDay(logs: Logs, p: Pass, threshold: int, d: int)
    requires p.zone.Valid() && OnDay(p.zone, Scanned(logs, p), d) == []
    ensures DayKey(p.tenant, p.employee, p.zone, d) !in PassRows(logs, p, threshold)
  {
    PassOnDay(logs, p, threshold, d);
  }

  lemma DayIsListed(zone: Zone, events: seq<Event>, d: int)
    ensures d in DaysOf(zone, events) <==> OnDay(zone, events, d) != []
  {
    OnDayIsExact(zone, events, d);
    if d in DaysOf(zone, events) {
      var i :| 0 <= i < |events| && DaysOf(zone, events)[i] == d;
      assert events[i] in events;
    }
    if OnDay(zone, events, d) != [] {
      var e := OnDay(zone, events, d)[0];
      assert e in events;
      var i :| 0 <= i < |events| && events[i] == e;
      assert DaysOf(zone, events)[i] == d;
    }
  }

  lemma PassOnOthers(logs: Logs, p: Pass, threshold: int, key: Key)
    requires key.tenant != p.tenant || key.employee != p.employee || !key.periodType.Day?
    ensures key !in PassRows(logs, p, threshold)
  {
    var events := Scanned(logs, p);
    BatchAvoids(DaysOf(p.zone, events),
                (d: int) => DayKey(p.tenant, p.employee, p.zone, d),
                (d: int) => DayRow(p.zone, events, d, threshold), key);
  }

  // ----- Re-running the job -----

  /** The same stretch of time, as a local day of two zones. */
  predicate SameDay(a: Zone, x: int, b: Zone, d: int) {
    a.startOf(x) == b.startOf(d) && a.EndOf(x) == b.EndOf(d)
  }

  lemma {:induction false} SameDaySameTotals(a: Zone, x: int, b: Zone, d: int, events: seq<Event>, threshold: int)
    requires a.Valid() && b.Valid() && SameDay(a, x, b, d)
    ensures OnDay(a, events, x) == OnDay(b, events, d)
    ensures Aggregate(a, events, x, threshold) == Aggregate(b, events, d, threshold)
  {
    if events != [] {
      SameDaySameTotals(a, x, b, d, events[1..], threshold);
      DayBounds(a, events[0].at, x);
      DayBounds(b, events[0].at, d);
    }
  }

  /**
    The pass is harmless to the day: it is about someone else, or in a time zone none of
    whose days begins with this one, or the two days are one and the same and it scans all
    or nothing of them.
   */
  ghost predicate AllOrNothing(logs: Logs, p: Pass, tenant: string, employee: string, zone: Zone, d: int) {
    p.tenant == tenant && p.employee == employee ==>
      forall x :: p.zone.startOf(x) == zone.startOf(d) ==>
        && SameDay(p.zone, x, zone, d)
        && (Covers(zone, LogOf(logs, tenant, employee), d, p.lo, p.hi) || OnDay(zone, Scanned(logs, p), d) == [])
  }

  lemma CoveringPassWrites(logs: Logs, p: Pass, threshold: int, d: int)
    requires ValidLogs(logs) && p.zone.Valid()
    requires OnDay(p.zone, LogOf(logs, p.tenant, p.employee), d) != []
    requires Covers(p.zone, LogOf(logs, p.tenant, p.employee), d, p.lo, p.hi)
    ensures var key, rows := DayKey(p.tenant, p.employee, p.zone, d), PassRows(logs, p, threshold);
            key in rows && rows[key] == DayRow(p.zone, LogOf(logs, p.tenant, p.employee), d, threshold)
  {
    var log := LogOf(logs, p.tenant, p.employee);
    PassOnDay(logs, p, threshold, d);
    ScanKeepsDay(p.zone, log, d, p.lo, p.hi);
    WindowIndependence(p.zone, log, d, p.lo, p.hi, threshold);
  }

  lemma HarmlessPassAgrees(logs: Logs, p: Pass, threshold: int, tenant: string, employee: string, zone: Zone, d: int)
    requires ValidLogs(logs) && zone.Valid() && p.zone.Valid() && AllOrNothing(logs, p, tenant, employee, zone, d)
    requires OnDay(zone, LogOf(logs, tenant, employee), d) != []
    ensures var key, rows := DayKey(tenant, employee, zone, d), PassRows(logs, p, threshold);
            key in rows ==> rows[key] == DayRow(zone, LogOf(logs, tenant, employee), d, threshold)
  {
    var key := DayKey(tenant, employee, zone, d);
    if p.tenant != tenant || p.employee != employee {
      PassOnOthers(logs, p, threshold, key);
    } else if x :| p.zone.startOf(x) == zone.startOf(d) {
      SameDaySameTotals(p.zone, x, zone, d, Scanned(logs, p), threshold);
      PassOnDay(logs, p, threshold, x);
      if OnDay(zone, Scanned(logs, p), d) != [] {
        WindowIndependence(zone, LogOf(logs, tenant, employee), d, p.lo, p.hi, threshold);
      }
    } else {
      BatchAvoids(DaysOf(p.zone, Scanned(logs, p)),
                  (x: int) => DayKey(p.tenant, p.employee, p.zone, x),
                  (x: int) => DayRow(p.zone, Scanned(logs, p), x, threshold), key);
    }
  }

  /** The table holds, under the day's key, the row that the whole log gives. */
  ghost predicate Settled(
    table: Table, logs: Logs, threshold: int, tenant: string, employee: string, zone: Zone, d: int)
  {
    var key := DayKey(tenant, employee, zone, d);
    key in table && table[key] == DayRow(zone, LogOf(logs, tenant, employee), d, threshold)
  }

  /**
    Convergence: whatever the table held and whatever passes ran before, once a pass has
    covered the day and as long as no later one is harmful to it, the table holds under the
    day's key the one row that the whole log gives.  A later pass that takes the employee
    to be in another time zone, the fallback to UTC included, is harmful only if a local
    day there begins with this one, and it ends at another instant or is cut.
   */
  lemma RerunsConverge(
    table: Table, logs: Logs, passes: seq<Pass>, threshold: int,
    tenant: string, employee: string, zone: Zone, d: int, covering: nat)
    requires ValidLogs(logs) && covering < |passes|
    requires forall i :: 0 <= i < |passes| ==> passes[i].zone.Valid()
    requires OnDay(zone, LogOf(logs, tenant, employee), d) != []
    requires passes[covering] == Pass(tenant, employee, zone, passes[covering].lo, passes[covering].hi)
    requires Covers(zone, LogOf(logs, tenant, employee), d, passes[covering].lo, passes[covering].hi)
    requires forall i :: covering < i < |passes| ==> AllOrNothing(logs, passes[i], tenant, employee, zone, d)
    ensures Settled(Merge(table, AllRows(logs, passes, threshold), |passes|),
                    logs, threshold, tenant, employee, zone, d)
  {
    var key, row := DayKey(tenant, employee, zone, d), DayRow(zone, LogOf(logs, tenant, employee), d, threshold);
    var batches := AllRows(logs, passes, threshold);
    CoveringPassWrites(logs, passes[covering], threshold, d);
    forall i | covering < i < |passes| && key in batches[i]
      ensures batches[i][key] == row
    {
      HarmlessPassAgrees(logs, passes[i], threshold, tenant, employee, zone, d);
    }
    LastWriteStays(table, batches, |passes|, key, row, covering);
  }

  // ----- The job's own windows -----

  function ScanStart(now: int, trailingDays: int): int {
    now - Hours(24 * (trailingDays + 1))
  }

  function ScanEnd(now: int): int {
    now + Hours(24)
  }

  /** The time that `n` local days from day `d` on take. */
  function Elapsed(zone: Zone, d: int, n: nat): int {
    zone.startOf(d + n) - zone.startOf(d)
  }

  /** Changes of the zone's offset never make any stretch of local days a whole day too long. */
  ghost predicate DriftsBelowADay(zone: Zone) {
    forall d, n: nat :: Elapsed(zone, d, n) <= Hours(24 * n + 24)
  }

  /**
    Each tick covers the current local day and the `trailingDays - 1` before it, in every
    time zone and across daylight-saving changes, as long as no event is dated more than a
    day into the future.
   */
  lemma TrailingDaysAreCovered(zone: Zone, log: seq<Event>, now: int, trailingDays: nat, k: nat)
    requires zone.Valid() && DriftsBelowADay(zone) && k < trailingDays
    requires forall e :: e in log ==> e.at < ScanEnd(now)
    ensures Covers(zone, log, zone.dayOf(now) - k, ScanStart(now, trailingDays), ScanEnd(now))
  {
    var d := zone.dayOf(now) - k;
    assert Elapsed(zone, d, k + 1) <= Hours(24 * (k + 1) + 24);
    forall e | e in log && zone.dayOf(e.at) == d
      ensures ScanStart(now, trailingDays) <= e.at < ScanEnd(now)
    {
      DayBounds(zone, e.at, d);
    }
  }

  /** The passes of one tick: the employee of `p` has no other. */
  ghost predicate OnlyPassOf(passes: seq<Pass>, p: Pass) {
    forall i :: 0 <= i < |passes| ==> passes[i].tenant != p.tenant || passes[i].employee != p.employee || passes[i] == p
  }

  lemma CoveringTickSettles(table: Table, logs: Logs, passes: seq<Pass>, mine: nat, p: Pass, d: int, threshold: int)
    requires ValidLogs(logs) && mine < |passes| && passes[mine] == p && OnlyPassOf(passes, p)
    requires forall i :: 0 <= i < |passes| ==> passes[i].zone.Valid()
    requires Covers(p.zone, LogOf(logs, p.tenant, p.employee), d, p.lo, p.hi)
    requires OnDay(p.zone, LogOf(logs, p.tenant, p.employee), d) != []
    ensures Settled(Merge(table, AllRows(logs, passes, threshold), |passes|),
                    logs, threshold, p.tenant, p.employee, p.zone, d)
  {
    RerunsConverge(table, logs, passes, threshold, p.tenant, p.employee, p.zone, d, mine);
  }

  /**
    After every tick, whatever the table held before it, the rows of the current local day
    and of the `trailingDays - 1` days before it are those of the whole log, for every
    employee that the tick assigned to one time zone.
   */
  lemma TickSettlesTrailingDays(
    table: Table, logs: Logs, passes: seq<Pass>, mine: nat, p: Pass, now: int, trailingDays: nat, d: int,
    threshold: int)
    requires ValidLogs(logs) && mine < |passes| && passes[mine] == p && OnlyPassOf(passes, p)
    requires forall i :: 0 <= i < |passes| ==> passes[i].zone.Valid()
    requires p.lo == ScanStart(now, trailingDays) && p.hi == ScanEnd(now)
    requires DriftsBelowADay(p.zone) && p.zone.dayOf(now) - trailingDays < d <= p.zone.dayOf(now)
    requires forall e :: e in LogOf(logs, p.tenant, p.employee) ==> e.at < ScanEnd(now)
    requires OnDay(p.zone, LogOf(logs, p.tenant, p.employee), d) != []
    ensures Settled(Merge(table, AllRows(logs, passes, threshold), |passes|),
                    logs, threshold, p.tenant, p.employee, p.zone, d)
  {
    assert Covers(p.zone, LogOf(logs, p.tenant, p.employee), d, p.lo, p.hi) by {
      TrailingDaysAreCovered(p.zone, LogOf(logs, p.tenant, p.employee), now, trailingDays, p.zone.dayOf(now) - d);
    }
    CoveringTickSettles(table, logs, passes, mine, p, d, threshold);
  }

  // ----- What a running schedule leaves of a day -----

  /** A tick's pass for one employee. */
  function TickPass(tenant: string, employee: string, zone: Zone, now: int, trailingDays: int): Pass {
    Pass(tenant, employee, zone, ScanStart(now, trailingDays), ScanEnd(now))
  }

  /** Ticks in order, at most `gap` apart. */
  ghost predicate Scheduled(nows: seq<int>, gap: int) {
    nows != [] && forall i :: 0 <= i < |nows| - 1 ==> nows[i] < nows[i + 1] <= nows[i] + gap
  }

  /**
    The passes of one tick, as one employee sees them: a pass over the tick's window in their
    time zone if they have an event there, and no other that scans anything of theirs.
   */
  ghost predicate TickFor(
    logs: Logs, passes: seq<Pass>, now: int, tenant: string, employee: string, zone: Zone, trailingDays: int)
  {
    var p := TickPass(tenant, employee, zone, now, trailingDays);
    && (Scanned(logs, p) != [] ==> p in passes)
    && forall i :: 0 <= i < |passes| && passes[i].tenant == tenant && passes[i].employee == employee ==>
         passes[i] == p || Scanned(logs, passes[i]) == []
  }

  /** The table after the passes of one tick. */
  function AfterTick(table: Table, logs: Logs, passes: seq<Pass>, threshold: int): Table {
    Merge(table, AllRows(logs, passes, threshold), |passes|)
  }

  /** The table after the first `n` ticks. */
  function AfterTicks(table: Table, logs: Logs, ticks: seq<seq<Pass>>, threshold: int, n: nat): Table
    requires n <= |ticks|
  {
    if n == 0 then table else AfterTick(AfterTicks(table, logs, ticks, threshold, n - 1), logs, ticks[n - 1], threshold)
  }

  /** The last tick whose window opens no later than instant `t`. */
  lemma LastOpening(nows: seq<int>, gap: int, trailingDays: int, t: int) returns (k: nat)
    requires Scheduled(nows, gap)
    requires ScanStart(nows[0], trailingDays) <= t < ScanStart(nows[|nows| - 1], trailingDays)
    ensures k < |nows| && t - gap < ScanStart(nows[k], trailingDays) <= t
    ensures forall i :: k < i < |nows| ==> t < ScanStart(nows[i], trailingDays)
  {
    k := |nows| - 1;
    while ScanStart(nows[k], trailingDays) > t
      invariant k < |nows|
      invariant k < |nows| - 1 ==> t - gap < ScanStart(nows[k], trailingDays)
      invariant forall i :: k < i < |nows| ==> t < ScanStart(nows[i], trailingDays)
    {
      assert k > 0;
      assert nows[k - 1] < nows[k - 1 + 1] <= nows[k - 1] + gap;
      k := k - 1;
    }
  }

  lemma LastOnDay(zone: Zone, log: seq<Event>, d: int, e: Event)
    requires Sorted(log) && e in OnDay(zone, log, d)
    ensures var day := OnDay(zone, log, d); day[0].at <= e.at <= day[|day| - 1].at
  {
    OnDayKeepsOrder(zone, log, d);
  }

  lemma NothingScanned(zone: Zone, log: seq<Event>, d: int, lo: int, hi: int)
    requires Sorted(log) && OnDay(zone, log, d) != [] && OnDay(zone, log, d)[|OnDay(zone, log, d)| - 1].at < lo
    ensures OnDay(zone, Scan(log, lo, hi), d) == []
  {
    var scan := OnDay(zone, Scan(log, lo, hi), d);
    OnDayIsExact(zone, log, d);
    OnDayIsExact(zone, Scan(log, lo, hi), d);
    ScanIsExact(log, lo, hi);
    if scan != [] {
      assert scan[0] in scan;
      LastOnDay(zone, log, d, scan[0]);
    }
  }

  /** What a window that opens within the day, and closes after it, leaves of the day. */
  lemma CutLeavesTheRest(zone: Zone, log: seq<Event>, d: int, lo: int, hi: int, threshold: int)
    requires zone.Valid() && Sorted(log) && OnDay(zone, log, d) != []
    requires var day := OnDay(zone, log, d); lo <= day[|day| - 1].at < hi
    ensures var day, left := OnDay(zone, log, d), OnDay(zone, Scan(log, lo, hi), d);
            && left != []
            && (forall e :: e in left <==> e in day && lo <= e.at)
            && (Aggregate(zone, Scan(log, lo, hi), d, threshold) == Aggregate(zone, log, d, threshold)
                <==> lo <= day[0].at)
            && (day[0].at < lo ==>
                  Aggregate(zone, Scan(log, lo, hi), d, threshold).total < Aggregate(zone, log, d, threshold).total)
            && (day[0].at + SECOND <= lo ==>
                  DayRow(zone, Scan(log, lo, hi), d, threshold).totalSeconds
                  < DayRow(zone, log, d, threshold).totalSeconds)
  {
    var day, left := OnDay(zone, log, d), OnDay(zone, Scan(log, lo, hi), d);
    OnDayIsExact(zone, log, d);
    OnDayIsExact(zone, Scan(log, lo, hi), d);
    ScanIsExact(log, lo, hi);
    forall e | e in day && lo <= e.at
      ensures e in left
    {
      LastOnDay(zone, log, d, e);
    }
    assert day[|day| - 1] in day;
    assert left[0] in left;
    forall e | e in day
      ensures e.at < hi
    {
      LastOnDay(zone, log, d, e);
    }
    RerunIsIdentical(zone, log, d, lo, hi, threshold);
    CutDayIsShortened(zone, log, d, lo, hi, threshold);
    CutShowsInRow(zone, log, d, lo, hi, threshold);
  }

  lemma NothingScannedWritesNothing(logs: Logs, p: Pass, threshold: int)
    requires Scanned(logs, p) == []
    ensures PassRows(logs, p, threshold) == map[]
  {
  }

  /** A tick that scans some of the day writes the row of what it scans. */
  lemma TickWritesDay(
    table: Table, logs: Logs, passes: seq<Pass>, now: int, tenant: string, employee: string, zone: Zone,
    trailingDays: int, d: int, threshold: int, row: Row)
    requires zone.Valid() && TickFor(logs, passes, now, tenant, employee, zone, trailingDays)
    requires OnDay(zone, Scanned(logs, TickPass(tenant, employee, zone, now, trailingDays)), d) != []
    requires row == DayRow(zone, Scanned(logs, TickPass(tenant, employee, zone, now, trailingDays)), d, threshold)
    ensures var key, after := DayKey(tenant, employee, zone, d), AfterTick(table, logs, passes, threshold);
            key in after && after[key] == row
  {
    var p, key := TickPass(tenant, employee, zone, now, trailingDays), DayKey(tenant, employee, zone, d);
    var batches := AllRows(logs, passes, threshold);
    PassOnDay(logs, p, threshold, d);
    var mine :| 0 <= mine < |passes| && passes[mine] == p;
    forall i | mine < i < |passes| && key in batches[i]
      ensures batches[i][key] == row
    {
      OtherPassAvoids(logs, passes[i], p, key, threshold);
    }
    LastWriteStays(table, batches, |passes|, key, row, mine);
  }

  lemma OtherPassAvoids(logs: Logs, q: Pass, p: Pass, key: Key, threshold: int)
    requires key.tenant == p.tenant && key.employee == p.employee
    requires q.tenant == p.tenant && q.employee == p.employee ==> q == p || Scanned(logs, q) == []
    ensures q == p || key !in PassRows(logs, q, threshold)
  {
    if q.tenant != p.tenant || q.employee != p.employee {
      PassOnOthers(logs, q, threshold, key);
    } else if q != p {
      NothingScannedWritesNothing(logs, q, threshold);
    }
  }

  /** A tick that scans none of the day leaves its row alone. */
  lemma TickLeavesDay(
    table: Table, logs: Logs, passes: seq<Pass>, now: int, tenant: string, employee: string, zone: Zone,
    trailingDays: int, d: int, threshold: int)
    requires zone.Valid() && TickFor(logs, passes, now, tenant, employee, zone, trailingDays)
    requires OnDay(zone, Scanned(logs, TickPass(tenant, employee, zone, now, trailingDays)), d) == []
    ensures var key, after := DayKey(tenant, employee, zone, d), AfterTick(table, logs, passes, threshold);
            (key in after <==> key in table) && (key in table ==> after[key] == table[key])
  {
    var p, key := TickPass(tenant, employee, zone, now, trailingDays), DayKey(tenant, employee, zone, d);
    PassAvoidsDay(logs, p, threshold, d);
    var batches := AllRows(logs, passes, threshold);
    forall i | 0 <= i < |passes|
      ensures key !in batches[i]
    {
      OtherPassAvoids(logs, passes[i], p, key, threshold);
    }
    MergeAvoids(table, batches, |passes|, key);
  }

  /** What tick `k` wrote for a day is still there after any number of ticks that scan none of it. */
  lemma {:induction false} DayRests(
    table: Table, logs: Logs, ticks: seq<seq<Pass>>, nows: seq<int>, tenant: string, employee: string, zone: Zone,
    trailingDays: int, d: int, threshold: int, k: nat, n: nat)
    requires zone.Valid() && k <= n <= |ticks| == |nows|
    requires forall i :: k <= i < n ==> TickFor(logs, ticks[i], nows[i], tenant, employee, zone, trailingDays)
    requires forall i :: k <= i < n ==>
               OnDay(zone, Scanned(logs, TickPass(tenant, employee, zone, nows[i], trailingDays)), d) == []
    ensures var key := DayKey(tenant, employee, zone, d);
            var before := AfterTicks(table, logs, ticks, threshold, k);
            var after := AfterTicks(table, logs, ticks, threshold, n);
            (key in after <==> key in before) && (key in before ==> after[key] == before[key])
  {
    if k < n {
      DayRests(table, logs, ticks, nows, tenant, employee, zone, trailingDays, d, threshold, k, n - 1);
      TickLeavesDay(AfterTicks(table, logs, ticks, threshold, n - 1), logs, ticks[n - 1], nows[n - 1],
                    tenant, employee, zone, trailingDays, d, threshold);
    }
  }

  /** The last instant at which a day has an event. */
  function LastOf(zone: Zone, log: seq<Event>, d: int): int
    requires OnDay(zone, log, d) != []
  {
    var day := OnDay(zone, log, d);
    day[|day| - 1].at
  }

  lemma LaterTicksScanNothing(
    logs: Logs, nows: seq<int>, tenant: string, employee: string, zone: Zone, trailingDays: int, d: int, k: nat)
    requires ValidLogs(logs) && OnDay(zone, LogOf(logs, tenant, employee), d) != []
    requires forall i :: k < i < |nows| ==>
               LastOf(zone, LogOf(logs, tenant, employee), d) < ScanStart(nows[i], trailingDays)
    ensures forall i :: k < i < |nows| ==>
              OnDay(zone, Scanned(logs, TickPass(tenant, employee, zone, nows[i], trailingDays)), d) == []
  {
    forall i | k < i < |nows|
      ensures OnDay(zone, Scanned(logs, TickPass(tenant, employee, zone, nows[i], trailingDays)), d) == []
    {
      NothingScanned(zone, LogOf(logs, tenant, employee), d, ScanStart(nows[i], trailingDays), ScanEnd(nows[i]));
    }
  }

  /** The row that tick `k` writes for a day that no later tick scans is the one that remains. */
  lemma LastScanRemains(
    table: Table, logs: Logs, ticks: seq<seq<Pass>>, nows: seq<int>, tenant: string, employee: string, zone: Zone,
    trailingDays: int, d: int, threshold: int, k: nat, row: Row)
    requires ValidLogs(logs) && zone.Valid() && k < |ticks| == |nows|
    requires forall i :: 0 <= i < |ticks| ==>
               TickFor(logs, ticks[i], nows[i], tenant, employee, zone, trailingDays)
    requires OnDay(zone, LogOf(logs, tenant, employee), d) != []
    requires forall i :: k < i < |nows| ==>
               LastOf(zone, LogOf(logs, tenant, employee), d) < ScanStart(nows[i], trailingDays)
    requires OnDay(zone, Scanned(logs, TickPass(tenant, employee, zone, nows[k], trailingDays)), d) != []
    requires row == DayRow(zone, Scanned(logs, TickPass(tenant, employee, zone, nows[k], trailingDays)), d, threshold)
    ensures var key, after := DayKey(tenant, employee, zone, d), AfterTicks(table, logs, ticks, threshold, |ticks|);
            key in after && after[key] == row
  {
    TickWritesDay(AfterTicks(table, logs, ticks, threshold, k), logs, ticks[k], nows[k],
                  tenant, employee, zone, trailingDays, d, threshold, row);
    LaterTicksScanNothing(logs, nows, tenant, employee, zone, trailingDays, d, k);
    DayRests(table, logs, ticks, nows, tenant, employee, zone, trailingDays, d, threshold, k + 1, |ticks|);
  }

  /**
    The lasting row of every day, for every log and every schedule: the windows of an
    employee's ticks, at most `gap` apart, cut the day in turn, and the row that is left is
    that of the events from the last window start not after the day's last event.  It is
    made from the whole day's sums if and only if that window opens no later than the day's
    first event; so a day with two events `gap` or more apart does not keep its total, and
    one whose events are a second more apart does not keep its scheduled seconds.
   */
  lemma ScheduleCutsEveryDay(
    table: Table, logs: Logs, ticks: seq<seq<Pass>>, nows: seq<int>, gap: int,
    tenant: string, employee: string, zone: Zone, trailingDays: nat, d: int, threshold: int)
    returns (k: nat)
    requires ValidLogs(logs) && zone.Valid() && |ticks| == |nows|
    requires forall i :: 0 <= i < |ticks| ==>
               TickFor(logs, ticks[i], nows[i], tenant, employee, zone, trailingDays)
    requires Scheduled(nows, gap) && gap <= Hours(24 * (trailingDays + 2))
    requires OnDay(zone, LogOf(logs, tenant, employee), d) != []
    requires var last := LastOf(zone, LogOf(logs, tenant, employee), d);
             ScanStart(nows[0], trailingDays) <= last < ScanStart(nows[|nows| - 1], trailingDays)
    ensures k < |nows|
    ensures var log, lo, hi := LogOf(logs, tenant, employee), ScanStart(nows[k], trailingDays), ScanEnd(nows[k]);
            var scan, key := Scan(log, lo, hi), DayKey(tenant, employee, zone, d);
            var day, last := OnDay(zone, log, d), LastOf(zone, log, d);
            var after := AfterTicks(table, logs, ticks, threshold, |ticks|);
            && last - gap < lo <= last
            && (forall e :: e in OnDay(zone, scan, d) <==> e in day && lo <= e.at)
            && key in after && after[key] == DayRow(zone, scan, d, threshold)
            && (Aggregate(zone, scan, d, threshold) == Aggregate(zone, log, d, threshold) <==> lo <= day[0].at)
            && (day[0].at + gap <= last ==>
                  Aggregate(zone, scan, d, threshold).total < Aggregate(zone, log, d, threshold).total)
            && (day[0].at + gap + SECOND <= last ==>
                  after[key].totalSeconds < DayRow(zone, log, d, threshold).totalSeconds)
  {
    var log := LogOf(logs, tenant, employee);
    k := LastOpening(nows, gap, trailingDays, LastOf(zone, log, d));
    var lo, hi := ScanStart(nows[k], trailingDays), ScanEnd(nows[k]);
    CutLeavesTheRest(zone, log, d, lo, hi, threshold);
    LastScanRemains(table, logs, ticks, nows, tenant, employee, zone, trailingDays, d, threshold, k,
                    DayRow(zone, Scan(log, lo, hi), d, threshold));
  }

  // ----- An employee whose time zone falls back to UTC and comes back -----

  /**
    Two passes for one employee in two zones that scan the same event leave a row under
    each of its two local days.  The two are one and the same row, the later pass's, if and
    only if the local days begin at the same instant; otherwise the event is accounted for
    in both, and the earlier pass's row stands unless the later zone has a day that begins
    with it.
   */
  lemma TwoZonesTwoRows(table: Table, logs: Logs, p: Pass, q: Pass, e: Event, threshold: int)
    requires p.tenant == q.tenant && p.employee == q.employee && p.zone.Valid() && q.zone.Valid()
    requires e in Scanned(logs, p) && e in Scanned(logs, q)
    ensures var d, f := p.zone.dayOf(e.at), q.zone.dayOf(e.at);
            var k, l := DayKey(p.tenant, p.employee, p.zone, d), DayKey(p.tenant, p.employee, q.zone, f);
            var after := Merge(table, AllRows(logs, [p, q], threshold), 2);
            && k in after && l in after && after[l] == DayRow(q.zone, Scanned(logs, q), f, threshold)
            && (k == l <==> p.zone.startOf(d) == q.zone.startOf(f))
            && ((forall x :: q.zone.startOf(x) != p.zone.startOf(d)) ==>
                 after[k] == DayRow(p.zone, Scanned(logs, p), d, threshold))
  {
    var d, f := p.zone.dayOf(e.at), q.zone.dayOf(e.at);
    var k, l := DayKey(p.tenant, p.employee, p.zone, d), DayKey(p.tenant, p.employee, q.zone, f);
    ScannedIsWritten(logs, p, e, threshold);
    ScannedIsWritten(logs, q, e, threshold);
    MergeOfTwo(table, logs, p, q, threshold);
    if forall x :: q.zone.startOf(x) != p.zone.startOf(d) {
      BatchAvoids(DaysOf(q.zone, Scanned(logs, q)),
                  (x: int) => DayKey(q.tenant, q.employee, q.zone, x),
                  (x: int) => DayRow(q.zone, Scanned(logs, q), x, threshold), k);
    }
  }

  lemma ScannedIsWritten(logs: Logs, p: Pass, e: Event, threshold: int)
    requires p.zone.Valid() && e in Scanned(logs, p)
    ensures var d, rows := p.zone.dayOf(e.at), PassRows(logs, p, threshold);
            var key := DayKey(p.tenant, p.employee, p.zone, d);
            key in rows && rows[key] == DayRow(p.zone, Scanned(logs, p), d, threshold)
  {
    OnDayIsExact(p.zone, Scanned(logs, p), p.zone.dayOf(e.at));
    PassOnDay(logs, p, threshold, p.zone.dayOf(e.at));
  }

  lemma MergeOfTwo(table: Table, logs: Logs, p: Pass, q: Pass, threshold: int)
    ensures Merge(table, AllRows(logs, [p, q], threshold), 2)
            == (table + PassRows(logs, p, threshold)) + PassRows(logs, q, threshold)
  {
    var batches := AllRows(logs, [p, q], threshold);
    assert Merge(table, batches, 0) == table && Merge(table, batches, 1) == table + batches[0];
  }

  /** UTC+1 all year. */
  function HourAhead(): Zone {
    Zone((t: int) => (t + 3_600_000_000) / 86_400_000_000, (d: int) => d * 86_400_000_000 - 3_600_000_000)
  }

  lemma HourAheadIsValid()
    ensures HourAhead().Valid()
  {
  }

  /**
    A fallback, concretely: an employee at UTC+1 comes on shift at noon UTC.  A tick that
    falls back to UTC and a regular one leave two rows, of twelve hours and of eleven.
   */
  lemma FallbackCountsTwice(logs: Logs, p: Pass, q: Pass)
    requires logs == map[("t", "e") := [Event(Hours(12), true)]]
    requires p == Pass("t", "e", Utc(), 0, DAY) && q == p.(zone := HourAhead())
    ensures var after := Merge(map[], AllRows(logs, [p, q], 300 * SECOND), 2);
            var k, l := DayKey("t", "e", Utc(), 0), DayKey("t", "e", HourAhead(), 0);
            && k != l
            && k in after && after[k] == Row(DAY, 43200, 43200, Some(10000), 0)
            && l in after && after[l] == Row(DAY - Hours(1), 39600, 39600, Some(10000), 0)
  {
    var noon := [Event(Hours(12), true)];
    UtcIsValid();
    HourAheadIsValid();
    NoonIsScanned(logs, p, noon);
    NoonIsScanned(logs, q, noon);
    NoonAggregates(noon);
    NoonInBothZones();
    TwoRowsStand(map[], logs, p, q, noon[0], 300 * SECOND,
                 Row(DAY, 43200, 43200, Some(10000), 0), Row(DAY - Hours(1), 39600, 39600, Some(10000), 0));
  }

  lemma NoonInBothZones()
    ensures Utc().dayOf(Hours(12)) == 0 && HourAhead().dayOf(Hours(12)) == 0
    ensures forall x :: HourAhead().startOf(x) != Utc().startOf(0)
  {
  }

  lemma TwoRowsStand(table: Table, logs: Logs, p: Pass, q: Pass, e: Event, threshold: int, row: Row, other: Row)
    requires p.tenant == q.tenant && p.employee == q.employee && p.zone.Valid() && q.zone.Valid()
    requires e in Scanned(logs, p) && e in Scanned(logs, q)
    requires forall x :: q.zone.startOf(x) != p.zone.startOf(p.zone.dayOf(e.at))
    requires DayRow(p.zone, Scanned(logs, p), p.zone.dayOf(e.at), threshold) == row
    requires DayRow(q.zone, Scanned(logs, q), q.zone.dayOf(e.at), threshold) == other
    ensures var after := Merge(table, AllRows(logs, [p, q], threshold), 2);
            var k := DayKey(p.tenant, p.employee, p.zone, p.zone.dayOf(e.at));
            var l := DayKey(q.tenant, q.employee, q.zone, q.zone.dayOf(e.at));
            k != l && k in after && after[k] == row && l in after && after[l] == other
  {
    TwoZonesTwoRows(table, logs, p, q, e, threshold);
  }

  lemma NoonIsScanned(logs: Logs, p: Pass, noon: seq<Event>)
    requires noon == [Event(Hours(12), true)] && logs == map[("t", "e") := noon]
    requires p.tenant == "t" && p.employee == "e" && p.lo == 0 && p.hi == DAY
    ensures Scanned(logs, p) == noon
  {
    assert noon[1..] == [];
    assert Scan(noon[1..], 0, DAY) == [];
  }

  lemma NoonAggregates(noon: seq<Event>)
    requires noon == [Event(Hours(12), true)]
    ensures DayRow(Utc(), noon, 0, 300 * SECOND) == Row(DAY, 43200, 43200, Some(10000), 0)
    ensures DayRow(HourAhead(), noon, 0, 300 * SECOND) == Row(DAY - Hours(1), 39600, 39600, Some(10000), 0)
  {
    assert Segment(Utc(), noon) == Hours(12) && Segment(HourAhead(), noon) == Hours(11);
    assert Aggregate(Utc(), noon[1..], 0, 300 * SECOND) == Totals(0, 0, 0);
    assert Aggregate(HourAhead(), noon[1..], 0, 300 * SECOND) == Totals(0, 0, 0);
  }

  // ----- Where the promise of identical re-runs fails -----

  function Utc(): Zone {
    Zone((t: int) => t / 86_400_000_000, (d: int) => d * 86_400_000_000)
  }

  lemma UtcIsValid()
    ensures Utc().Valid()
  {
  }

  /** On shift for a whole day but its last minute. */
  const EARLY := Event(0, true)
  const LATE := Event(86_340_000_000, false)

  lemma WholeDayAggregate()
    ensures Aggregate(Utc(), [LATE], 0, 300 * SECOND) == Totals(0, 60 * SECOND, 0)
    ensures Aggregate(Utc(), [EARLY, LATE], 0, 300 * SECOND) == Totals(DAY - 60 * SECOND, DAY, 0)
  {
    assert [EARLY, LATE][1..] == [LATE];
    assert Aggregate(Utc(), [LATE][1..], 0, 300 * SECOND) == Totals(0, 0, 0);
    assert Segment(Utc(), [LATE]) == 60 * SECOND;
    assert Segment(Utc(), [EARLY, LATE]) == DAY - 60 * SECOND;
  }

  lemma ScanOfTwo(lo: int, hi: int)
    requires lo <= LATE.at < hi
    ensures Scan([EARLY, LATE], lo, hi) == if lo <= 0 then [EARLY, LATE] else [LATE]
  {
    assert [EARLY, LATE][1..] == [LATE];
    assert Scan([LATE][1..], lo, hi) == [];
    assert Scan([LATE], lo, hi) == [LATE];
  }

  function TickAt(now: int): Pass {
    Pass("t", "e", Utc(), ScanStart(now, 2), ScanEnd(now))
  }

  function TwoEventLogs(): Logs {
    map[("t", "e") := [EARLY, LATE]]
  }

  lemma TickWrites(now: int)
    requires LATE.at < ScanEnd(now) && ScanStart(now, 2) <= LATE.at
    ensures var rows := PassRows(TwoEventLogs(), TickAt(now), 300 * SECOND);
            var key := DayKey("t", "e", Utc(), 0);
            var events := if ScanStart(now, 2) <= 0 then [EARLY, LATE] else [LATE];
            key in rows && rows[key] == DayRow(Utc(), events, 0, 300 * SECOND)
  {
    UtcIsValid();
    var p := TickAt(now);
    ScanOfTwo(p.lo, p.hi);
    var events := Scanned(TwoEventLogs(), p);
    assert events == Scan([EARLY, LATE], p.lo, p.hi);
    LateIsOnDay(events);
    PassOnDay(TwoEventLogs(), p, 300 * SECOND, 0);
  }

  lemma LateIsOnDay(events: seq<Event>)
    requires LATE in events
    ensures OnDay(Utc(), events, 0) != []
  {
  }

  lemma TwoEventRows()
    ensures DayRow(Utc(), [EARLY, LATE], 0, 300 * SECOND) == Row(DAY, 86340, 86400, Some(9993), 0)
    ensures DayRow(Utc(), [LATE], 0, 300 * SECOND) == Row(DAY, 0, 60, Some(0), 0)
  {
    WholeDayAggregate();
  }

  /**
    The job's comment promises that a re-run for a day already computed converges on the
    identical result.  Two consecutive ticks, fifteen minutes apart, refute it: the employee
    has 99.93% after the first and 0% after the second, whose window opens a quarter of an
    hour into the day.  `RerunIsIdentical` says exactly when a re-run keeps the promise, and
    `ScheduleCutsEveryDay` what the schedule leaves of any day.
   */
  lemma LaterTickOverwritesDay()
    ensures var once: Table := map[] + PassRows(TwoEventLogs(), TickAt(3 * DAY), 300 * SECOND);
            var twice := once + PassRows(TwoEventLogs(), TickAt(3 * DAY + 900 * SECOND), 300 * SECOND);
            var key := DayKey("t", "e", Utc(), 0);
            && key in once && once[key] == Row(DAY, 86340, 86400, Some(9993), 0)
            && key in twice && twice[key] == Row(DAY, 0, 60, Some(0), 0)
  {
    TickWrites(3 * DAY);
    TickWrites(3 * DAY + 900 * SECOND);
    TwoEventRows();
  }
}
