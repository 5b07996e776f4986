/**
  One tick of the weekly and monthly job
  (adherence-compliance-service/src/adherence/adherence-weekly-monthly-rollup-job.service.ts)
  as the statements it sends: a week and a month query for each time zone group, each of
  which the database carries out as a whole or, if one of its rows has no percentage,
  refuses as a whole, which ends the tick.

  The day rows of an employee are a function of the tenant and the employee.
 */
module PeriodRollupJob {
  import opened Basics
  import opened Upserts
  import opened DailyRollup
  import opened PeriodRollup

  type Days = (string, string) -> seq<(int, Row)>

  /** One `INSERT ... SELECT`: the employees of one tenant and one time zone, weeks or months. */
  datatype Query = Query(tenant: string, employees: seq<string>, zone: Zone, kind: PeriodType)

  datatype Window = Window(lo: int, hi: int)

  /** The query's rows for one of its employees. */
  function RowsFor(q: Query, days: Days, w: Window, e: string): Table {
    EmployeeRows(q.tenant, e, q.zone, q.kind, days(q.tenant, e), w.lo, w.hi)
  }

  function QueryRows(q: Query, days: Days, w: Window): Table {
    Union(q.employees, (e: string) => RowsFor(q, days, w, e))
  }

  /** The NOT NULL of the percentage column. */
  predicate Storable(rows: Table) {
    forall k :: k in rows ==> rows[k].pct.Some?
  }

  function AllQueryRows(queries: seq<Query>, days: Days, w: Window): seq<Table> {
    seq(|queries|, i requires 0 <= i < |queries| => QueryRows(queries[i], days, w))
  }

  /** How many queries a tick gets through: the first one refused ends it. */
  function Completed(queries: seq<Query>, days: Days, w: Window): (n: nat)
    ensures n <= |queries|
  {
    Accepted(AllQueryRows(queries, days, w), (rows: Table) => Storable(rows))
  }

  /** The table after a tick. */
  function AfterQueries(table: Table, queries: seq<Query>, days: Days, w: Window): Table {
    Merge(table, AllQueryRows(queries, days, w), Completed(queries, days, w))
  }

  /**
    The loop over the groups: it writes the rows of exactly the queries before the first that
    is refused, and fails exactly if there is one.
   */
  method RunQueries(table: Table, queries: seq<Query>, days: Days, w: Window) returns (after: Table, failed: bool)
    ensures after == AfterQueries(table, queries, days, w)
    ensures failed <==> exists i :: 0 <= i < |queries| && !Storable(QueryRows(queries[i], days, w))
  {
    ghost var batches := AllQueryRows(queries, days, w);
    ghost var accepts := (rows: Table) => Storable(rows);
    after := table;
    for i := 0 to |queries|
      invariant after == Merge(table, batches, i)
      invariant forall j :: 0 <= j < i ==> accepts(batches[j])
    {
      var rows := QueryRows(queries[i], days, w);
      assert rows == batches[i];
      if !Storable(rows) {
        AcceptedAtMost(batches, accepts, i);
        return after, true;
      }
      after := after + rows;
    }
    AllAreStorable(queries, days, w);
    failed := false;
  }

  lemma AllAreStorable(queries: seq<Query>, days: Days, w: Window)
    requires forall j :: 0 <= j < |queries| ==> Storable(AllQueryRows(queries, days, w)[j])
    ensures Completed(queries, days, w) == |queries|
    ensures forall j :: 0 <= j < |queries| ==> Storable(QueryRows(queries[j], days, w))
  {
    forall j | 0 <= j < |queries|
      ensures Storable(QueryRows(queries[j], days, w))
    {
      assert AllQueryRows(queries, days, w)[j] == QueryRows(queries[j], days, w);
    }
  }

  // ----- Which queries are refused -----

  /** What one employee's day rows come to in a query's window. */
  function ReadBy(q: Query, days: Days, w: Window, e: string): seq<DayScore> {
    Read(q.zone, q.kind, days(q.tenant, e), w.lo, w.hi)
  }

  /** The employee has a period with day rows in the window, none of which has a whole scheduled second. */
  ghost predicate HasEmptyPeriod(rows: seq<DayScore>) {
    exists p :: HasDay(rows, p) && !HasScheduledTime(rows, p)
  }

  predicate ValidRows(rows: seq<(int, Row)>) {
    forall i :: 0 <= i < |rows| ==> 0 <= rows[i].1.adherentSeconds <= rows[i].1.totalSeconds
  }

  /** What `DailyRollup.DayRowIsInRange` guarantees of every day row. */
  ghost predicate ValidDays(days: Days) {
    forall t, e :: ValidRows(days(t, e))
  }

  lemma {:induction false} InWindowIsExact(rows: seq<DayScore>, lo: int, hi: int)
    ensures forall r :: r in InWindow(rows, lo, hi) <==> r in rows && lo <= r.start < hi
  {
    if rows != [] {
      InWindowIsExact(rows[1..], lo, hi);
      assert rows == [rows[0]] + rows[1..];
    }
  }

  lemma BucketedIsValid(zone: Zone, kind: PeriodType, rows: seq<(int, Row)>)
    requires ValidRows(rows)
    ensures ValidScores(Bucketed(zone, kind, rows))
  {
    var scores := Bucketed(zone, kind, rows);
    forall i | 0 <= i < |scores|
      ensures 0 <= scores[i].adherent <= scores[i].total
    {
      assert scores[i] == ScoreOf(rows[i].0, PeriodOf(kind, zone.dayOf(rows[i].0)), rows[i].1);
    }
  }

  lemma ReadIsValid(q: Query, days: Days, w: Window, e: string)
    requires ValidDays(days)
    ensures ValidScores(ReadBy(q, days, w, e))
  {
    var all, read := Bucketed(q.zone, q.kind, days(q.tenant, e)), ReadBy(q, days, w, e);
    InWindowIsExact(all, w.lo, w.hi);
    assert ValidRows(days(q.tenant, e));
    BucketedIsValid(q.zone, q.kind, days(q.tenant, e));
    forall i | 0 <= i < |read|
      ensures 0 <= read[i].adherent <= read[i].total
    {
      assert read[i] in read;
      var j :| 0 <= j < |all| && all[j] == read[i];
    }
  }

  /** The rows of one employee can be stored exactly if they have no empty period. */
  lemma EmployeeIsStorable(q: Query, days: Days, w: Window, e: string)
    requires ValidDays(days) && q.zone.Valid()
    ensures var rows := RowsFor(q, days, w, e);
            Storable(rows) <==> !HasEmptyPeriod(ReadBy(q, days, w, e))
  {
    var read := ReadBy(q, days, w, e);
    var rows := RowsFor(q, days, w, e);
    ReadIsValid(q, days, w, e);
    if p :| HasDay(read, p) && !HasScheduledTime(read, p) {
      var key := Key(q.tenant, e, q.kind, q.zone.startOf(p));
      EmployeeRowsAreExact(q.tenant, e, q.zone, q.kind, days(q.tenant, e), w.lo, w.hi, p);
      PeriodRowIsStorable(read, p, q.zone.startOf(NextPeriod(q.kind, p)));
      assert key in rows && rows[key].pct.None?;
    } else {
      forall key | key in rows
        ensures rows[key].pct.Some?
      {
        var p := PeriodOfKey(q, days, w, e, key);
        EmployeeRowsAreExact(q.tenant, e, q.zone, q.kind, days(q.tenant, e), w.lo, w.hi, p);
        PeriodRowIsStorable(read, p, q.zone.startOf(NextPeriod(q.kind, p)));
        assert HasDay(read, p);
      }
    }
  }

  lemma PeriodOfKey(q: Query, days: Days, w: Window, e: string, key: Key) returns (p: int)
    requires key in RowsFor(q, days, w, e)
    ensures key == Key(q.tenant, e, q.kind, q.zone.startOf(p))
  {
    var rows := ReadBy(q, days, w, e);
    var keyOf := (p: int) => Key(q.tenant, e, q.kind, q.zone.startOf(p));
    if forall i :: 0 <= i < |PeriodsOf(rows)| ==> keyOf(PeriodsOf(rows)[i]) != key {
      BatchAvoids(PeriodsOf(rows), keyOf, (p: int) => PeriodRow(q.zone.startOf(NextPeriod(q.kind, p)), rows, p), key);
      assert false;
    }
    var i :| 0 <= i < |PeriodsOf(rows)| && keyOf(PeriodsOf(rows)[i]) == key;
    p := PeriodsOf(rows)[i];
  }

  lemma KeyOfEmployee(q: Query, days: Days, w: Window, e: string, key: Key)
    requires key in RowsFor(q, days, w, e)
    ensures key.tenant == q.tenant && key.employee == e && key.periodType == q.kind
  {
    var p := PeriodOfKey(q, days, w, e, key);
  }

  /** A query's rows are those of its employees, each under their own keys. */
  lemma QueryRowsAreExact(q: Query, days: Days, w: Window, key: Key)
    ensures var mine, rows := RowsFor(q, days, w, key.employee), QueryRows(q, days, w);
            && (key in rows <==> key.employee in q.employees && key in mine)
            && (key in rows ==> rows[key] == mine[key])
  {
    forall e, k: Key | k in RowsFor(q, days, w, e)
      ensures k.employee == e
    {
      KeyOfEmployee(q, days, w, e, k);
    }
    UnionIsExact(q.employees, (e: string) => RowsFor(q, days, w, e), (k: Key) => k.employee, key);
  }

  /** A query is refused as a whole exactly if one of its employees has an empty period. */
  lemma QueryIsStorable(q: Query, days: Days, w: Window)
    requires ValidDays(days) && q.zone.Valid()
    ensures Storable(QueryRows(q, days, w)) <==>
            forall e :: e in q.employees ==> !HasEmptyPeriod(ReadBy(q, days, w, e))
  {
    if Storable(QueryRows(q, days, w)) {
      forall e | e in q.employees
        ensures !HasEmptyPeriod(ReadBy(q, days, w, e))
      {
        EmployeeIsStorable(q, days, w, e);
        RowsForAreStorable(q, days, w, e);
      }
    } else {
      var key :| key in QueryRows(q, days, w) && QueryRows(q, days, w)[key].pct.None?;
      QueryRowsAreExact(q, days, w, key);
      EmployeeIsStorable(q, days, w, key.employee);
    }
  }

  lemma RowsForAreStorable(q: Query, days: Days, w: Window, e: string)
    requires Storable(QueryRows(q, days, w)) && e in q.employees
    ensures Storable(RowsFor(q, days, w, e))
  {
    forall key | key in RowsFor(q, days, w, e)
      ensures RowsFor(q, days, w, e)[key].pct.Some?
    {
      KeyOfEmployee(q, days, w, e, key);
      QueryRowsAreExact(q, days, w, key);
    }
  }

  // ----- Run after run -----

  datatype Run = Run(queries: seq<Query>, w: Window)

  /** The table before the first run and after each. */
  ghost predicate AreRuns(tables: seq<Table>, runs: seq<Run>, days: Days) {
    && |tables| == |runs| + 1
    && forall i {:trigger runs[i]} :: 0 <= i < |runs| ==>
         tables[i + 1] == AfterQueries(tables[i], runs[i].queries, days, runs[i].w)
  }

  predicate IsAbout(q: Query, key: Key) {
    q.tenant == key.tenant && key.employee in q.employees && q.kind == key.periodType
  }

  /** The query has an employee with an empty period. */
  ghost predicate ReadsEmptyPeriod(q: Query, days: Days, w: Window) {
    q.zone.Valid() && exists e :: e in q.employees && HasEmptyPeriod(ReadBy(q, days, w, e))
  }

  /** Some query of the run reads an empty period, and none before it is about the key. */
  ghost predicate IsBlocked(run: Run, days: Days, key: Key) {
    exists i :: 0 <= i < |run.queries| && ReadsEmptyPeriod(run.queries[i], days, run.w)
      && forall j :: 0 <= j < i ==> !IsAbout(run.queries[j], key)
  }

  ghost predicate AreBlocked(runs: seq<Run>, days: Days, key: Key) {
    forall run :: run in runs ==> IsBlocked(run, days, key)
  }

  /** A run gets no further than a query that reads an empty period. */
  lemma StopsBy(run: Run, days: Days, i: nat)
    requires ValidDays(days) && i < |run.queries| && ReadsEmptyPeriod(run.queries[i], days, run.w)
    ensures Completed(run.queries, days, run.w) <= i
  {
    QueryIsStorable(run.queries[i], days, run.w);
    assert AllQueryRows(run.queries, days, run.w)[i] == QueryRows(run.queries[i], days, run.w);
  }

  lemma PrefixAvoids(table: Table, run: Run, days: Days, key: Key, i: nat)
    requires Completed(run.queries, days, run.w) <= i <= |run.queries|
    requires forall j :: 0 <= j < i ==> !IsAbout(run.queries[j], key)
    ensures AgreeAt(AfterQueries(table, run.queries, days, run.w), table, key)
  {
    var n, batches := Completed(run.queries, days, run.w), AllQueryRows(run.queries, days, run.w);
    forall j | 0 <= j < n
      ensures key !in batches[j]
    {
      UnrelatedQueryAvoids(run.queries[j], days, run.w, key);
    }
    MergeAvoids(table, batches, n, key);
  }

  lemma BlockedRunLeavesRow(table: Table, run: Run, days: Days, key: Key)
    requires ValidDays(days) && IsBlocked(run, days, key)
    ensures AgreeAt(AfterQueries(table, run.queries, days, run.w), table, key)
  {
    var i :| 0 <= i < |run.queries| && ReadsEmptyPeriod(run.queries[i], days, run.w)
      && forall j :: 0 <= j < i ==> !IsAbout(run.queries[j], key);
    StopsBy(run, days, i);
    PrefixAvoids(table, run, days, key, i);
  }

  lemma UnrelatedQueryAvoids(q: Query, days: Days, w: Window, key: Key)
    requires !IsAbout(q, key)
    ensures key !in QueryRows(q, days, w)
  {
    QueryRowsAreExact(q, days, w, key);
    if key in RowsFor(q, days, w, key.employee) {
      KeyOfEmployee(q, days, w, key.employee, key);
    }
  }

  /**
    One employee with an empty period keeps the week and month rows of everyone in their own
    query, and in every query after it, from being written or brought up to date, for as
    many runs as the empty period is read.
   */
  lemma EmptyPeriodBlocksTheRest(
    tables: seq<Table>, runs: seq<Run>, days: Days, key: Key)
    requires ValidDays(days) && AreRuns(tables, runs, days) && AreBlocked(runs, days, key)
    ensures AgreeAt(tables[|runs|], tables[0], key)
  {
    forall i | 0 < i <= |runs|
      ensures AgreeAt(tables[i], tables[i - 1], key)
    {
      RunLeavesRow(tables, runs, days, key, i - 1);
    }
    AgreeAlong(tables, key, |runs|);
  }

  lemma RunLeavesRow(tables: seq<Table>, runs: seq<Run>, days: Days, key: Key, i: nat)
    requires ValidDays(days) && AreRuns(tables, runs, days) && i < |runs| && AreBlocked(runs, days, key)
    ensures AgreeAt(tables[i + 1], tables[i], key)
  {
    assert runs[i] in runs;
    BlockedRunLeavesRow(tables[i], runs[i], days, key);
  }

  // ----- Concretely -----

  /** Employee "x" of tenant "a" has an event half a second before midnight; all others have a whole day. */
  function ExampleDays(): Days {
    (t: string, e: string) =>
      if t == "a" then [(0, Row(DAY, 0, 0, Some(10000), 0))] else [(0, Row(DAY, 86400, 86400, Some(10000), 0))]
  }

  function ExampleQueries(): seq<Query> {
    [Query("a", ["x"], Utc(), Week), Query("a", ["x"], Utc(), Month),
     Query("b", ["y"], Utc(), Week), Query("b", ["y"], Utc(), Month)]
  }

  /** One such event of one tenant, and a tick writes nothing at all, although all other rows could be stored. */
  lemma OneEventStopsTheJob(table: Table, log: seq<Event>, w: Window)
    requires log == [Event(DAY - SECOND / 2, true)] && w.lo <= 0 < w.hi
    ensures ExampleDays()("a", "x") == [(0, DayRow(Utc(), log, 0, 300 * SECOND))]
    ensures AfterQueries(table, ExampleQueries(), ExampleDays(), w) == table
    ensures Storable(QueryRows(ExampleQueries()[2], ExampleDays(), w))
    ensures Key("b", "y", Week, Hours(-72)) in QueryRows(ExampleQueries()[2], ExampleDays(), w)
  {
    ExampleDayRow(log);
    ExampleIsRefused(w);
    ExampleIsStorable(w);
  }

  lemma ExampleDayRow(log: seq<Event>)
    requires log == [Event(DAY - SECOND / 2, true)]
    ensures DayRow(Utc(), log, 0, 300 * SECOND) == Row(DAY, 0, 0, Some(10000), 0)
  {
    LastHalfSecondIsNotStorable(log, Week, [ScoreOf(0, PeriodOf(Week, 0), DayRow(Utc(), log, 0, 300 * SECOND))]);
  }

  /** An employee whose one day row, in the window, is of no whole second. */
  lemma EmptyDayIsRefused(q: Query, days: Days, w: Window, e: string, row: DayScore)
    requires ValidDays(days) && q.zone.Valid() && e in q.employees
    requires Bucketed(q.zone, q.kind, days(q.tenant, e)) == [row] && row.total == 0 && w.lo <= row.start < w.hi
    ensures !Storable(QueryRows(q, days, w))
  {
    OneRowIsRead(row, w);
    var rows := [row];
    assert rows[0].period == row.period;
    assert HasDay(rows, row.period) && !HasScheduledTime(rows, row.period);
    assert ReadBy(q, days, w, e) == rows;
    QueryIsStorable(q, days, w);
  }

  lemma ExampleIsRefused(w: Window)
    requires w.lo <= 0 < w.hi
    ensures !Storable(QueryRows(ExampleQueries()[0], ExampleDays(), w))
  {
    UtcIsValid();
    ExampleDaysAreValid();
    ExampleScores();
    EmptyDayIsRefused(ExampleQueries()[0], ExampleDays(), w, "x", DayScore(0, -3, 0, 0, 0));
  }

  lemma ExampleScores()
    ensures Bucketed(Utc(), Week, ExampleDays()("a", "x")) == [DayScore(0, -3, 0, 0, 0)]
    ensures Bucketed(Utc(), Week, ExampleDays()("b", "y")) == [DayScore(0, -3, 86400, 86400, 0)]
  {
  }

  lemma OneRowIsRead(row: DayScore, w: Window)
    requires w.lo <= row.start < w.hi
    ensures InWindow([row], w.lo, w.hi) == [row]
  {
    assert [row][1..] == [];
  }

  lemma ExampleDaysAreValid()
    ensures ValidDays(ExampleDays())
  {
  }

  lemma ExampleIsStorable(w: Window)
    requires w.lo <= 0 < w.hi
    ensures Storable(QueryRows(ExampleQueries()[2], ExampleDays(), w))
    ensures Key("b", "y", Week, Hours(-72)) in QueryRows(ExampleQueries()[2], ExampleDays(), w)
  {
    var q, days := ExampleQueries()[2], ExampleDays();
    var rows := [DayScore(0, -3, 86400, 86400, 0)];
    UtcIsValid();
    ExampleScores();
    OneRowIsRead(rows[0], w);
    assert rows[0].period == -3;
    assert forall p :: HasDay(rows, p) ==> HasScheduledTime(rows, p);
    ExampleDaysAreValid();
    QueryIsStorable(q, days, w);
    EmployeeRowsAreExact("b", "y", q.zone, q.kind, days("b", "y"), w.lo, w.hi, -3);
    QueryRowsAreExact(q, days, w, Key("b", "y", Week, Hours(-72)));
  }
}
