/**
  The metric query engine
  (analytics-reporting-service/src/analytics/metric-query-engine.service.ts): how a filter
  becomes a parameterised WHERE clause, what that clause selects, and how the rows read
  become results with trends.

  A condition is kept as its parts instead of as SQL text; its meaning is that of the text,
  where comparing with NULL is never true.
 */
module MetricQuery {
  import opened Basics

  const DEFAULT_LIMIT := 12
  const MAX_LIMIT := 100

  datatype Dimension = PeriodType | OrgUnitId | CostCenter | SiteOrgUnitId

  /** A filter value as it arrives: absent, an explicit null, or text. */
  datatype FilterValue = Undefined | NullValue | Text(value: string)

  datatype Filter = Filter(
    periodStart: Option<int>, periodEnd: Option<int>, orgUnitId: FilterValue, costCenter: FilterValue,
    siteOrgUnitId: FilterValue, periodType: FilterValue, limit: Option<int>)
  {
    /** `filter[DIMENSION_COLUMNS[d].filterKey]` */
    function For(d: Dimension): FilterValue {
      match d
      case PeriodType => periodType
      case OrgUnitId => orgUnitId
      case CostCenter => costCenter
      case SiteOrgUnitId => siteOrgUnitId
    }
  }

  datatype SourceRow = SourceRow(
    periodStart: int, periodEnd: int, value: Option<real>, orgUnitId: Option<string>,
    costCenter: Option<string>, siteOrgUnitId: Option<string>, periodType: Option<string>)
  {
    function Column(d: Dimension): Option<string> {
      match d
      case PeriodType => periodType
      case OrgUnitId => orgUnitId
      case CostCenter => costCenter
      case SiteOrgUnitId => siteOrgUnitId
    }
  }

  // ----- Conditions and their meaning -----

  datatype Param = Instant(at: int) | TextParam(value: string) | NullParam

  /** `period_start >= $n`, `period_start < $n` or `<dimension> = $n`. */
  datatype Condition =
    | StartsAtOrAfter(placeholder: nat)
    | StartsBefore(placeholder: nat)
    | Equals(dimension: Dimension, placeholder: nat)

  predicate Holds(c: Condition, params: seq<Param>, row: SourceRow) {
    && 1 <= c.placeholder <= |params|
    && var p := params[c.placeholder - 1];
       match c
       case StartsAtOrAfter(_) => p.Instant? && row.periodStart >= p.at
       case StartsBefore(_) => p.Instant? && row.periodStart < p.at
       case Equals(d, _) => p.TextParam? && row.Column(d) == Some(p.value)
  }

  predicate AllHold(conditions: seq<Condition>, params: seq<Param>, row: SourceRow) {
    forall i :: 0 <= i < |conditions| ==> Holds(conditions[i], params, row)
  }

  /** Every placeholder points at its own parameter. */
  ghost predicate WellNumbered(conditions: seq<Condition>, params: seq<Param>) {
    |conditions| == |params| && forall i :: 0 <= i < |conditions| ==> conditions[i].placeholder == i + 1
  }

  lemma OneMoreCondition(conditions: seq<Condition>, params: seq<Param>, c: Condition, p: Param, row: SourceRow)
    requires WellNumbered(conditions, params) && c.placeholder == |params| + 1
    ensures AllHold(conditions + [c], params + [p], row)
            <==> AllHold(conditions, params, row) && Holds(c, params + [p], row)
  {
    var cs, ps := conditions + [c], params + [p];
    forall i | 0 <= i < |conditions|
      ensures Holds(cs[i], ps, row) <==> Holds(conditions[i], params, row)
    {
      assert ps[i] == params[i];
    }
    assert cs[|conditions|] == c;
    if AllHold(cs, ps, row) {
      forall i | 0 <= i < |conditions|
        ensures Holds(conditions[i], params, row)
      {
        assert Holds(cs[i], ps, row);
      }
      assert Holds(cs[|conditions|], ps, row);
    }
  }

  // ----- What a filter asks for -----

  ghost predicate PeriodMatches(filter: Filter, row: SourceRow) {
    && (filter.periodStart.Some? ==> row.periodStart >= filter.periodStart.value)
    && (filter.periodEnd.Some? ==> row.periodStart < filter.periodEnd.value)
  }

  /** A dimension that is not filtered on is free; an explicit null matches nothing. */
  ghost predicate DimensionMatches(filter: Filter, d: Dimension, row: SourceRow) {
    match filter.For(d)
    case Undefined => true
    case NullValue => false
    case Text(value) => row.Column(d) == Some(value)
  }

  ghost predicate Matches(filter: Filter, allowed: seq<Dimension>, row: SourceRow) {
    PeriodMatches(filter, row) && forall i :: 0 <= i < |allowed| ==> DimensionMatches(filter, allowed[i], row)
  }

  /** A filter value accepts a cell: it is absent, or the very text in the cell. */
  ghost predicate Accepts(v: FilterValue, cell: Option<string>) {
    v == Undefined || (cell.Some? && v == Text(cell.value))
  }

  /** What a filter asks of a row, field by field. */
  ghost predicate Meets(filter: Filter, allowed: seq<Dimension>, row: SourceRow) {
    && (filter.periodStart.Some? ==> row.periodStart >= filter.periodStart.value)
    && (filter.periodEnd.Some? ==> row.periodStart < filter.periodEnd.value)
    && (OrgUnitId in allowed ==> Accepts(filter.orgUnitId, row.orgUnitId))
    && (CostCenter in allowed ==> Accepts(filter.costCenter, row.costCenter))
    && (SiteOrgUnitId in allowed ==> Accepts(filter.siteOrgUnitId, row.siteOrgUnitId))
    && (PeriodType in allowed ==> Accepts(filter.periodType, row.periodType))
  }

  lemma MatchingIsMeeting(filter: Filter, allowed: seq<Dimension>, row: SourceRow)
    ensures Matches(filter, allowed, row) <==> Meets(filter, allowed, row)
  {
    DimensionIsAccepted(filter, allowed, OrgUnitId, row);
    DimensionIsAccepted(filter, allowed, CostCenter, row);
    DimensionIsAccepted(filter, allowed, SiteOrgUnitId, row);
    DimensionIsAccepted(filter, allowed, PeriodType, row);
  }

  lemma DimensionIsAccepted(filter: Filter, allowed: seq<Dimension>, d: Dimension, row: SourceRow)
    ensures DimensionMatches(filter, d, row) <==> Accepts(filter.For(d), row.Column(d))
  {
  }

  // ----- Building the clause -----

  class WhereClause {
    var conditions: seq<Condition>
    var params: seq<Param>

    constructor ()
      ensures conditions == [] && params == []
    {
      conditions, params := [], [];
    }

    /** Pushes the parameter first, so that `params.length` is its number. */
    method Append(c: Condition, p: Param)
      requires WellNumbered(conditions, params) && c.placeholder == |params| + 1
      modifies this
      ensures WellNumbered(conditions, params)
      ensures conditions == old(conditions) + [c] && params == old(params) + [p]
      ensures forall row :: AllHold(conditions, params, row) <==>
                            AllHold(old(conditions), old(params), row) && Holds(c, params, row)
    {
      forall row: SourceRow
        ensures AllHold(conditions + [c], params + [p], row)
                <==> AllHold(conditions, params, row) && Holds(c, params + [p], row)
      {
        OneMoreCondition(conditions, params, c, p, row);
      }
      params := params + [p];
      conditions := conditions + [c];
    }

    method AppendPeriodConditions(filter: Filter)
      requires WellNumbered(conditions, params)
      modifies this
      ensures WellNumbered(conditions, params)
      ensures forall row :: AllHold(conditions, params, row) <==>
                            AllHold(old(conditions), old(params), row) && PeriodMatches(filter, row)
    {
      if filter.periodStart.Some? {
        Append(StartsAtOrAfter(|params| + 1), Instant(filter.periodStart.value));
      }
      if filter.periodEnd.Some? {
        Append(StartsBefore(|params| + 1), Instant(filter.periodEnd.value));
      }
    }

    method AppendDimensionConditions(allowed: seq<Dimension>, filter: Filter)
      requires WellNumbered(conditions, params)
      modifies this
      ensures WellNumbered(conditions, params)
      ensures forall row :: AllHold(conditions, params, row) <==>
                            AllHold(old(conditions), old(params), row)
                            && forall i :: 0 <= i < |allowed| ==> DimensionMatches(filter, allowed[i], row)
    {
      for n := 0 to |allowed|
        invariant WellNumbered(conditions, params)
        invariant forall row :: AllHold(conditions, params, row) <==>
                                AllHold(old(conditions), old(params), row)
                                && forall i :: 0 <= i < n ==> DimensionMatches(filter, allowed[i], row)
      {
        var d := allowed[n];
        match filter.For(d) {
          case Undefined =>
          case NullValue => Append(Equals(d, |params| + 1), NullParam);
          case Text(value) => Append(Equals(d, |params| + 1), TextParam(value));
        }
      }
    }
  }

  /** `SELECT ... WHERE ...`: the rows of the table that meet the clause. */
  function Select(table: seq<SourceRow>, conditions: seq<Condition>, params: seq<Param>): seq<SourceRow> {
    if table == [] then []
    else (if AllHold(conditions, params, table[0]) then [table[0]] else []) + Select(table[1..], conditions, params)
  }

  ghost function Matching(table: seq<SourceRow>, filter: Filter, allowed: seq<Dimension>): seq<SourceRow> {
    if table == [] then []
    else (if Matches(filter, allowed, table[0]) then [table[0]] else []) + Matching(table[1..], filter, allowed)
  }

  lemma {:induction false} SelectIsMatching(
    table: seq<SourceRow>, conditions: seq<Condition>, params: seq<Param>, filter: Filter, allowed: seq<Dimension>)
    requires forall row :: AllHold(conditions, params, row) <==> Matches(filter, allowed, row)
    ensures Select(table, conditions, params) == Matching(table, filter, allowed)
  {
    if table != [] {
      SelectIsMatching(table[1..], conditions, params, filter, allowed);
    }
  }

  // ----- ORDER BY period_start DESC -----

  ghost predicate NewestFirst(rows: seq<SourceRow>) {
    forall i, j :: 0 <= i < j < |rows| ==> rows[i].periodStart >= rows[j].periodStart
  }

  method InsertByStart(rows: seq<SourceRow>, row: SourceRow) returns (after: seq<SourceRow>)
    requires NewestFirst(rows)
    ensures NewestFirst(after) && multiset(after) == multiset(rows) + multiset{row}
  {
    var k := 0;
    while k < |rows| && rows[k].periodStart >= row.periodStart
      invariant k <= |rows|
      invariant forall j :: 0 <= j < k ==> rows[j].periodStart >= row.periodStart
    {
      k := k + 1;
    }
    assert rows == rows[..k] + rows[k..];
    after := rows[..k] + [row] + rows[k..];
  }

  /** The database's sort: rows that start together come in any order, and callers know no more than that. */
  method OrderByStart(rows: seq<SourceRow>) returns (ordered: seq<SourceRow>)
    ensures multiset(ordered) == multiset(rows)
    ensures NewestFirst(ordered)
  {
    ordered := [];
    for i := 0 to |rows|
      invariant multiset(ordered) == multiset(rows[..i])
      invariant NewestFirst(ordered)
    {
      assert rows[..i + 1] == rows[..i] + [rows[i]];
      ordered := InsertByStart(ordered, rows[i]);
    }
    assert rows[..|rows|] == rows;
  }

  // ----- Results and trends -----

  datatype Trend = Up | Down | Flat

  datatype MetricResult = MetricResult(
    value: Option<real>, comparison: Option<real>, trend: Option<Trend>, periodStart: int, periodEnd: int)

  function DeriveTrend(value: Option<real>, comparison: Option<real>): Option<Trend> {
    if value.None? || comparison.None? then None
    else if value.value > comparison.value then Some(Up)
    else if value.value < comparison.value then Some(Down)
    else Some(Flat)
  }

  /** The result for one row, compared with the row after it. */
  function ResultAt(rows: seq<SourceRow>, i: nat): MetricResult
    requires i < |rows|
  {
    var comparison := if i + 1 < |rows| then rows[i + 1].value else None;
    MetricResult(rows[i].value, comparison, DeriveTrend(rows[i].value, comparison), rows[i].periodStart,
        rows[i].periodEnd)
  }

  function RequestedLimit(filter: Filter): int {
    Min(if filter.limit.Some? then filter.limit.value else DEFAULT_LIMIT, MAX_LIMIT)
  }

  function ShapeResults(rows: seq<SourceRow>, requestedLimit: int): seq<MetricResult>
    requires requestedLimit >= -1
    requires requestedLimit == -1 ==> rows == []
  {
    var count := Min(requestedLimit, |rows|);
    seq(if count < 0 then 0 else count, i requires 0 <= i < count => ResultAt(rows, i))
  }

  datatype QueryResult = Rows(results: seq<MetricResult>) | NegativeLimit

  /** `LIMIT n`, which the database refuses if `n` is negative. */
  function Take(rows: seq<SourceRow>, n: nat): seq<SourceRow> {
    if n < |rows| then rows[..n] else rows
  }

  /** From the selected rows to the results: fetch one row more than is asked for, then shape. */
  function Results(selected: seq<SourceRow>, requestedLimit: int): QueryResult {
    if requestedLimit + 1 < 0 then NegativeLimit
    else Rows(ShapeResults(Take(selected, requestedLimit + 1), requestedLimit))
  }

  /** Each row that meets the filter is selected as often as the table holds it, and no other row is. */
  lemma {:induction false} MatchingIsExact(table: seq<SourceRow>, filter: Filter, allowed: seq<Dimension>)
    ensures forall row :: row in Matching(table, filter, allowed) <==> row in table && Matches(filter, allowed, row)
    ensures forall row :: multiset(Matching(table, filter, allowed))[row] ==
                          if Matches(filter, allowed, row) then multiset(table)[row] else 0
  {
    if table != [] {
      MatchingIsExact(table[1..], filter, allowed);
      assert table == [table[0]] + table[1..];
    }
  }

  /**
    The whole read path: whatever the filter, exactly the rows that meet its period and its
    allowed dimensions are read, newest first, and every placeholder has its own parameter.
   */
  method Query(table: seq<SourceRow>, allowed: seq<Dimension>, filter: Filter)
    returns (result: QueryResult, ordered: seq<SourceRow>, where: WhereClause)
    ensures fresh(where) && WellNumbered(where.conditions, where.params)
    ensures forall row :: AllHold(where.conditions, where.params, row) <==> Meets(filter, allowed, row)
    ensures multiset(ordered) == multiset(Matching(table, filter, allowed)) && NewestFirst(ordered)
    ensures forall row :: multiset(ordered)[row] == if Meets(filter, allowed, row) then multiset(table)[row] else 0
    ensures result == Results(ordered, RequestedLimit(filter))
    ensures result.Rows? ==>
              |result.results| == Max(0, Min(|ordered|, match filter.limit case None => 12 case Some(n) => Min(n, 100)))
    ensures result.NegativeLimit? <==> filter.limit.Some? && filter.limit.value < -1
  {
    where := new WhereClause();
    where.AppendPeriodConditions(filter);
    where.AppendDimensionConditions(allowed, filter);
    SelectIsMatching(table, where.conditions, where.params, filter, allowed);
    MatchingIsExact(table, filter, allowed);
    forall row
      ensures Matches(filter, allowed, row) <==> Meets(filter, allowed, row)
    {
      MatchingIsMeeting(filter, allowed, row);
    }
    ordered := OrderByStart(Select(table, where.conditions, where.params));
    result := Results(ordered, RequestedLimit(filter));
  }

  /**
    The row fetched in excess makes the limit invisible: result `i` is what the full
    selection gives for row `i`, comparison and trend included, and no row is dropped.
   */
  lemma LimitIsInvisible(selected: seq<SourceRow>, limit: int)
    requires limit >= 0
    ensures var r := Results(selected, limit);
            && r.Rows?
            && |r.results| == Min(limit, |selected|)
            && forall i :: 0 <= i < |r.results| ==> r.results[i] == ResultAt(selected, i)
  {
  }

  /** So asking for fewer periods gives a prefix of asking for more. */
  lemma SmallerLimitIsAPrefix(selected: seq<SourceRow>, small: int, large: int)
    requires 0 <= small <= large
    ensures Results(selected, small).results <= Results(selected, large).results
    ensures |Results(selected, small).results| == Min(small, |selected|)
  {
  }

  // ----- What a row is compared with -----

  /** One series of a metric: rows that agree in every dimension its view may be filtered on. */
  ghost predicate SameSeries(allowed: seq<Dimension>, a: SourceRow, b: SourceRow) {
    forall k :: 0 <= k < |allowed| ==> a.Column(allowed[k]) == b.Column(allowed[k])
  }

  /** The views' UNIQUE constraints: a series has one row for each period start. */
  ghost predicate Keyed(rows: seq<SourceRow>, allowed: seq<Dimension>) {
    forall i, j :: 0 <= i < j < |rows| ==>
      !(SameSeries(allowed, rows[i], rows[j]) && rows[i].periodStart == rows[j].periodStart)
  }

  /** What the database may return for the query before it applies the limit. */
  ghost predicate IsRead(
    table: seq<SourceRow>, filter: Filter, allowed: seq<Dimension>, ordered: seq<SourceRow>)
  {
    multiset(ordered) == multiset(Matching(table, filter, allowed)) && NewestFirst(ordered)
  }

  /** The row meets the filter and is of an earlier period of the same series. */
  ghost predicate IsEarlierOfSeries(
    table: seq<SourceRow>, filter: Filter, allowed: seq<Dimension>, row: SourceRow, current: SourceRow)
  {
    && row in table && Matches(filter, allowed, row)
    && SameSeries(allowed, row, current) && row.periodStart < current.periodStart
  }

  /** The row is of the period before, in the same series. */
  ghost predicate IsPrevOfSeries(
    table: seq<SourceRow>, filter: Filter, allowed: seq<Dimension>, row: SourceRow, current: SourceRow)
  {
    && IsEarlierOfSeries(table, filter, allowed, row, current)
    && forall other :: IsEarlierOfSeries(table, filter, allowed, other, current) ==>
         other.periodStart <= row.periodStart
  }

  /** What a trend says: which of the two values is the greater, if there are two. */
  ghost predicate TrendTells(r: MetricResult) {
    && (r.trend == Some(Up) <==> r.value.Some? && r.comparison.Some? && r.value.value > r.comparison.value)
    && (r.trend == Some(Down) <==> r.value.Some? && r.comparison.Some? && r.value.value < r.comparison.value)
    && (r.trend == Some(Flat) <==> r.value.Some? && r.value == r.comparison)
  }

  /**
    A result is compared with the previous period of its own series exactly when the next
    row starts at another instant and is of that series.  The last row read has no
    comparison, whatever earlier periods the table holds outside the filter.
   */
  lemma ComparisonIsPreviousPeriod(
    table: seq<SourceRow>, filter: Filter, allowed: seq<Dimension>, ordered: seq<SourceRow>, limit: int, i: nat)
    requires IsRead(table, filter, allowed, ordered)
    requires limit >= 0 && i < |Results(ordered, limit).results|
    ensures i < |ordered|
    ensures var result, row := Results(ordered, limit).results[i], ordered[i];
            && result.value == row.value && TrendTells(result)
            && result.periodStart == row.periodStart && result.periodEnd == row.periodEnd
            && row in table && Matches(filter, allowed, row)
            && if i + 1 < |ordered| then
                 && result.comparison == ordered[i + 1].value
                 && (IsPrevOfSeries(table, filter, allowed, ordered[i + 1], row)
                     <==> ordered[i + 1].periodStart != row.periodStart && SameSeries(allowed, ordered[i + 1], row))
               else
                 && result.comparison == None && result.trend == None
                 && forall other :: !IsEarlierOfSeries(table, filter, allowed, other, row)
  {
    LimitIsInvisible(ordered, limit);
    ReadRowsMatch(table, filter, allowed, ordered);
    NothingBetween(ordered, i);
    assert ordered[i] in ordered;
    if i + 1 < |ordered| {
      assert ordered[i + 1] in ordered;
    }
  }

  /** Result `i` is compared with the previous period of its own series, or with nothing if there is none. */
  ghost predicate ComparedWithin(
    table: seq<SourceRow>, filter: Filter, allowed: seq<Dimension>, ordered: seq<SourceRow>, i: nat)
    requires i < |ordered|
  {
    if i + 1 < |ordered| then IsPrevOfSeries(table, filter, allowed, ordered[i + 1], ordered[i])
    else forall other :: !IsEarlierOfSeries(table, filter, allowed, other, ordered[i])
  }

  /** Every result of the query is. */
  ghost predicate ComparesWithin(
    table: seq<SourceRow>, filter: Filter, allowed: seq<Dimension>, ordered: seq<SourceRow>)
  {
    forall i :: 0 <= i < |ordered| && i < RequestedLimit(filter) ==> ComparedWithin(table, filter, allowed, ordered, i)
  }

  /**
    What a caller can see of a filter: some results are asked for, the period is not empty,
    no dimension is an explicit null, and yet some dimension is left open.
   */
  ghost predicate LeavesOpen(filter: Filter, allowed: seq<Dimension>) {
    && RequestedLimit(filter) >= 1
    && (filter.periodStart.Some? && filter.periodEnd.Some? ==> filter.periodStart.value < filter.periodEnd.value)
    && (forall k :: 0 <= k < |allowed| ==> filter.For(allowed[k]) != NullValue)
    && exists k :: 0 <= k < |allowed| && filter.For(allowed[k]) == Undefined
  }

  /**
    The comparisons of a query are right for every table with the views' keys and every
    order the database may choose if and only if its filter leaves no dimension open.
   */
  lemma OpenFiltersMixSeries(filter: Filter, allowed: seq<Dimension>)
    ensures !LeavesOpen(filter, allowed)
            <==> forall table, ordered :: Keyed(table, allowed) && IsRead(table, filter, allowed, ordered) ==>
                   ComparesWithin(table, filter, allowed, ordered)
  {
    if LeavesOpen(filter, allowed) {
      var table := MixedTable(filter, allowed);
      assert !ComparedWithin(table, filter, allowed, table, 0);
      assert !ComparesWithin(table, filter, allowed, table);
    } else {
      forall table, ordered | Keyed(table, allowed) && IsRead(table, filter, allowed, ordered)
        ensures ComparesWithin(table, filter, allowed, ordered)
      {
        ClosedFiltersCompareWithin(table, filter, allowed, ordered);
      }
    }
  }

  lemma ClosedFiltersCompareWithin(
    table: seq<SourceRow>, filter: Filter, allowed: seq<Dimension>, ordered: seq<SourceRow>)
    requires !LeavesOpen(filter, allowed) && Keyed(table, allowed) && IsRead(table, filter, allowed, ordered)
    ensures ComparesWithin(table, filter, allowed, ordered)
  {
    ReadRowsMatch(table, filter, allowed, ordered);
    MatchingIsKeyed(table, filter, allowed);
    OrderKeepsKeys(Matching(table, filter, allowed), ordered, allowed);
    forall i | 0 <= i < |ordered| && i < RequestedLimit(filter)
      ensures ComparedWithin(table, filter, allowed, ordered, i)
    {
      assert ordered[i] in ordered;
      LimitIsInvisible(ordered, RequestedLimit(filter));
      ComparisonIsPreviousPeriod(table, filter, allowed, ordered, RequestedLimit(filter), i);
      if i + 1 < |ordered| {
        assert ordered[i + 1] in ordered;
        PinnedRowsAgree(filter, allowed, ordered[i + 1], ordered[i]);
        assert !(SameSeries(allowed, ordered[i], ordered[i + 1])
                 && ordered[i].periodStart == ordered[i + 1].periodStart);
      }
    }
  }

  /** All rows that meet a filter that leaves nothing open are of one series. */
  lemma PinnedRowsAgree(filter: Filter, allowed: seq<Dimension>, a: SourceRow, b: SourceRow)
    requires !LeavesOpen(filter, allowed) && RequestedLimit(filter) >= 1
    requires Matches(filter, allowed, a) && Matches(filter, allowed, b)
    ensures SameSeries(allowed, a, b)
  {
    forall k | 0 <= k < |allowed|
      ensures a.Column(allowed[k]) == b.Column(allowed[k])
    {
      assert DimensionMatches(filter, allowed[k], a) && DimensionMatches(filter, allowed[k], b);
      assert forall l :: 0 <= l < |allowed| ==> DimensionMatches(filter, allowed[l], a);
    }
  }

  lemma {:induction false} MatchingIsKeyed(table: seq<SourceRow>, filter: Filter, allowed: seq<Dimension>)
    requires Keyed(table, allowed)
    ensures Keyed(Matching(table, filter, allowed), allowed)
  {
    if table != [] {
      var rest := Matching(table[1..], filter, allowed);
      MatchingIsKeyed(table[1..], filter, allowed);
      MatchingIsExact(table[1..], filter, allowed);
      forall j | 0 <= j < |rest|
        ensures !(SameSeries(allowed, table[0], rest[j]) && table[0].periodStart == rest[j].periodStart)
      {
        assert rest[j] in table[1..];
      }
    }
  }

  lemma OrderKeepsKeys(rows: seq<SourceRow>, ordered: seq<SourceRow>, allowed: seq<Dimension>)
    requires multiset(ordered) == multiset(rows) && Keyed(rows, allowed)
    ensures Keyed(ordered, allowed)
  {
    forall i, j | 0 <= i < j < |ordered|
      ensures !(SameSeries(allowed, ordered[i], ordered[j]) && ordered[i].periodStart == ordered[j].periodStart)
    {
      var k, l := TwoOfThem(rows, ordered, i, j);
      if l < k {
        assert !(SameSeries(allowed, rows[l], rows[k]) && rows[l].periodStart == rows[k].periodStart);
      }
    }
  }

  /** Two elements of a permutation are two elements of the original. */
  lemma TwoOfThem<X>(xs: seq<X>, ys: seq<X>, i: nat, j: nat) returns (k: nat, l: nat)
    requires multiset(ys) == multiset(xs) && i < j < |ys|
    ensures k < |xs| && l < |xs| && k != l && xs[k] == ys[i] && xs[l] == ys[j]
  {
    k := OneOfThem(xs, ys, i);
    WithoutOne(xs, k);
    WithoutOne(ys, i);
    var m := OneOfThem(Without(xs, k), Without(ys, i), j - 1);
    l := if m < k then m else m + 1;
  }

  lemma OneOfThem<X>(xs: seq<X>, ys: seq<X>, i: nat) returns (k: nat)
    requires multiset(ys) == multiset(xs) && i < |ys|
    ensures k < |xs| && xs[k] == ys[i]
  {
    assert ys[i] in multiset(xs);
    k :| 0 <= k < |xs| && xs[k] == ys[i];
  }

  lemma WithoutOne<X>(xs: seq<X>, i: nat)
    requires i < |xs|
    ensures multiset(Without(xs, i)) == multiset(xs) - multiset{xs[i]}
  {
    assert xs == xs[..i] + [xs[i]] + xs[i + 1..];
  }

  /** An instant inside the filter's period. */
  function InsidePeriod(filter: Filter): int {
    if filter.periodStart.Some? then filter.periodStart.value
    else if filter.periodEnd.Some? then filter.periodEnd.value - 1
    else 0
  }

  function ColumnFor(filter: Filter, d: Dimension, open: string): Option<string> {
    Some(if filter.For(d).Text? then filter.For(d).value else open)
  }

  /** A row that meets the filter, with `open` wherever the filter says nothing. */
  function RowFor(filter: Filter, open: string): SourceRow {
    SourceRow(
      InsidePeriod(filter), InsidePeriod(filter), None, ColumnFor(filter, OrgUnitId, open),
      ColumnFor(filter, CostCenter, open), ColumnFor(filter, SiteOrgUnitId, open), ColumnFor(filter, PeriodType, open))
  }

  /** Two rows of one period and of two series, both of which meet the filter. */
  lemma MixedTable(filter: Filter, allowed: seq<Dimension>) returns (table: seq<SourceRow>)
    requires LeavesOpen(filter, allowed)
    ensures |table| == 2 && Keyed(table, allowed) && IsRead(table, filter, allowed, table)
    ensures table[0].periodStart == table[1].periodStart
  {
    var a, b := RowFor(filter, "a"), RowFor(filter, "b");
    table := [a, b];
    var k :| 0 <= k < |allowed| && filter.For(allowed[k]) == Undefined;
    assert a.Column(allowed[k]) == Some("a") && b.Column(allowed[k]) == Some("b");
    assert !SameSeries(allowed, a, b);
    RowForMatches(filter, allowed, "a");
    RowForMatches(filter, allowed, "b");
    assert table[1..] == [b] && [b][1..] == [];
    assert Matching([b], filter, allowed) == [b];
  }

  lemma RowForMatches(filter: Filter, allowed: seq<Dimension>, open: string)
    requires LeavesOpen(filter, allowed)
    ensures Matches(filter, allowed, RowFor(filter, open))
  {
    forall k | 0 <= k < |allowed|
      ensures DimensionMatches(filter, allowed[k], RowFor(filter, open))
    {
      assert RowFor(filter, open).Column(allowed[k]) == ColumnFor(filter, allowed[k], open);
    }
  }

  lemma NothingBetween(ordered: seq<SourceRow>, i: nat)
    requires NewestFirst(ordered) && i < |ordered|
    ensures forall row :: row in ordered && row.periodStart < ordered[i].periodStart ==>
              i + 1 < |ordered| && row.periodStart <= ordered[i + 1].periodStart
  {
    forall row | row in ordered && row.periodStart < ordered[i].periodStart
      ensures i + 1 < |ordered| && row.periodStart <= ordered[i + 1].periodStart
    {
      var j :| 0 <= j < |ordered| && ordered[j] == row;
      assert i < j;
    }
  }

  lemma ReadRowsMatch(table: seq<SourceRow>, filter: Filter, allowed: seq<Dimension>, ordered: seq<SourceRow>)
    requires multiset(ordered) == multiset(Matching(table, filter, allowed))
    ensures forall row :: row in ordered <==> row in table && Matches(filter, allowed, row)
  {
    MatchingIsExact(table, filter, allowed);
    OrderKeepsRows(ordered, Matching(table, filter, allowed));
  }

  lemma OrderKeepsRows(ordered: seq<SourceRow>, rows: seq<SourceRow>)
    requires multiset(ordered) == multiset(rows)
    ensures forall row :: row in ordered <==> row in rows
  {
    forall row: SourceRow
      ensures row in ordered <==> row in rows
    {
      assert row in multiset(ordered) <==> row in multiset(rows);
    }
  }

  /**
    With a dimension left open, rows of one period are compared with each other: of two org
    units in their first month, the one read first is shown as up or down on the other.
   */
  lemma OpenDimensionComparesSiblings(a: SourceRow, b: SourceRow, filter: Filter, ordered: seq<SourceRow>)
    requires a == SourceRow(0, 31, Some(90.0), Some("north"), None, None, None)
    requires b == SourceRow(0, 31, Some(80.0), Some("south"), None, None, None)
    requires filter == Filter(None, None, Undefined, Undefined, Undefined, Undefined, None)
    requires multiset(ordered) == multiset(Matching([a, b], filter, [OrgUnitId]))
    ensures ordered == [a, b] || ordered == [b, a]
    ensures Results(ordered, DEFAULT_LIMIT).results[0].trend == if ordered == [a, b] then Some(Up) else Some(Down)
    ensures forall row :: !IsEarlierOfSeries([a, b], filter, [OrgUnitId], row, a)
    ensures forall row :: !IsEarlierOfSeries([a, b], filter, [OrgUnitId], row, b)
  {
    assert [a, b][1..] == [b] && [b][1..] == [];
    assert Matching([b], filter, [OrgUnitId]) == [b];
    assert Matching([a, b], filter, [OrgUnitId]) == [a, b];
    TwoOrders(ordered, a, b);
  }

  function UnitRow(periodStart: int, value: real, unit: string): SourceRow {
    SourceRow(periodStart, periodStart + 31, Some(value), Some(unit), None, None, None)
  }

  ghost predicate TwoUnitsTwoMonths(rows: seq<SourceRow>) {
    rows == [UnitRow(31, 90.0, "north"), UnitRow(31, 80.0, "south"),
             UnitRow(0, 70.0, "north"), UnitRow(0, 85.0, "south")]
  }

  /**
    Nor does it take rows that start together: over two months the second unit's February
    is compared with the first unit's January, and shown up although it fell from 85 to 80.
   */
  lemma OpenDimensionCrossesSeries(filter: Filter, rows: seq<SourceRow>)
    requires filter == Filter(None, None, Undefined, Undefined, Undefined, Undefined, None)
    requires TwoUnitsTwoMonths(rows)
    ensures Keyed(rows, [OrgUnitId]) && IsRead(rows, filter, [OrgUnitId], rows)
    ensures Results(rows, DEFAULT_LIMIT).results[1] == MetricResult(Some(80.0), Some(70.0), Some(Up), 31, 62)
    ensures IsPrevOfSeries(rows, filter, [OrgUnitId], rows[3], rows[1])
  {
    EmptyFilterMatches(filter, [OrgUnitId]);
    EverythingMatches(rows, filter, [OrgUnitId]);
    SouthsFebruary(rows);
    UnitsAreKeyed(rows);
    SouthBefore(filter, rows);
  }

  lemma SouthsFebruary(rows: seq<SourceRow>)
    requires TwoUnitsTwoMonths(rows)
    ensures NewestFirst(rows)
    ensures Results(rows, DEFAULT_LIMIT).results[1] == MetricResult(Some(80.0), Some(70.0), Some(Up), 31, 62)
  {
    LimitIsInvisible(rows, DEFAULT_LIMIT);
    assert Results(rows, DEFAULT_LIMIT).results[1] == ResultAt(rows, 1);
  }

  lemma UnitsAreKeyed(rows: seq<SourceRow>)
    requires TwoUnitsTwoMonths(rows)
    ensures Keyed(rows, [OrgUnitId])
  {
    SeriesOfUnits();
    forall i, j | 0 <= i < j < |rows|
      ensures !(SameSeries([OrgUnitId], rows[i], rows[j]) && rows[i].periodStart == rows[j].periodStart)
    {
      assert rows[i].orgUnitId == rows[j].orgUnitId ==> rows[i].periodStart != rows[j].periodStart;
    }
  }

  lemma SouthBefore(filter: Filter, rows: seq<SourceRow>)
    requires TwoUnitsTwoMonths(rows) && forall row :: Matches(filter, [OrgUnitId], row)
    ensures IsPrevOfSeries(rows, filter, [OrgUnitId], rows[3], rows[1])
  {
    SeriesOfUnits();
    forall other | IsEarlierOfSeries(rows, filter, [OrgUnitId], other, rows[1])
      ensures other.periodStart <= rows[3].periodStart
    {
      var k :| 0 <= k < |rows| && rows[k] == other;
    }
  }

  lemma SeriesOfUnits()
    ensures forall a, b :: SameSeries([OrgUnitId], a, b) <==> a.orgUnitId == b.orgUnitId
  {
    forall a: SourceRow, b: SourceRow
      ensures SameSeries([OrgUnitId], a, b) <==> a.orgUnitId == b.orgUnitId
    {
      if SameSeries([OrgUnitId], a, b) {
        assert a.Column([OrgUnitId][0]) == b.Column([OrgUnitId][0]);
      }
    }
  }

  lemma EmptyFilterMatches(filter: Filter, allowed: seq<Dimension>)
    requires filter == Filter(None, None, Undefined, Undefined, Undefined, Undefined, None)
    ensures forall row :: Matches(filter, allowed, row)
  {
  }

  lemma {:induction false} EverythingMatches(rows: seq<SourceRow>, filter: Filter, allowed: seq<Dimension>)
    requires forall row :: row in rows ==> Matches(filter, allowed, row)
    ensures Matching(rows, filter, allowed) == rows
  {
    if rows != [] {
      EverythingMatches(rows[1..], filter, allowed);
    }
  }

  lemma TwoOrders<X>(xs: seq<X>, a: X, b: X)
    requires a != b && multiset(xs) == multiset([a, b])
    ensures xs == [a, b] || xs == [b, a]
  {
    assert |xs| == |multiset(xs)| == 2;
    assert xs == [xs[0], xs[1]];
    assert multiset(xs)[a] == 1 && multiset(xs)[b] == 1;
  }
}
