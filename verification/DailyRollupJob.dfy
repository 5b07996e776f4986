/**
  One tick of the daily rollup job
  (adherence-compliance-service/src/adherence/adherence-daily-rollup-job.service.ts), from
  the query for active employees to the last upsert: who gets a pass, in which time zone,
  and what the score table holds afterwards.

  What the employee service and the calendar answer, and what a zone name stands for in the
  time zone database, are parameters.
 */
module DailyRollupJob {
  import opened Basics
  import opened Upserts
  import opened DailyRollup
  import opened Grouping
  import opened TimezoneResolver

  /** The employee has an event in the window. */
  predicate IsActive(logs: Logs, tenant: string, employee: string, lo: int, hi: int) {
    Scan(LogOf(logs, tenant, employee), lo, hi) != []
  }

  /** `SELECT DISTINCT tenant_id, employee_id`, in any order. */
  method ActiveEmployees(logs: Logs, lo: int, hi: int) returns (active: seq<(string, string)>)
    ensures Distinct(active)
    ensures forall t, e :: (t, e) in active <==> IsActive(logs, t, e, lo, hi)
  {
    active := [];
    var todo := logs.Keys;
    while todo != {}
      invariant todo <= logs.Keys
      invariant Distinct(active)
      invariant forall t, e :: (t, e) in active <==> (t, e) in logs.Keys - todo && IsActive(logs, t, e, lo, hi)
      decreases |todo|
    {
      var k :| k in todo;
      assert k !in active by {
        assert k == (k.0, k.1);
      }
      todo := todo - {k};
      if IsActive(logs, k.0, k.1, lo, hi) {
        active := active + [k];
      }
    }
  }

  /** The entries of a map of employees to time zones, zone first, in any order. */
  method Listing(zones: Zones) returns (pairs: seq<(string, string)>)
    ensures Distinct(pairs)
    ensures forall z, e :: (z, e) in pairs <==> e in zones && zones[e] == z
  {
    pairs := [];
    var todo := zones.Keys;
    while todo != {}
      invariant todo <= zones.Keys
      invariant Distinct(pairs)
      invariant forall z, e :: (z, e) in pairs <==> e in zones.Keys - todo && zones[e] == z
      decreases |todo|
    {
      var e :| e in todo;
      todo := todo - {e};
      pairs := pairs + [(zones[e], e)];
    }
  }

  /** One execution of the query: a pass for each employee of one tenant and one time zone. */
  function QueryPasses(tenant: string, employees: seq<string>, zone: Zone, lo: int, hi: int): seq<Pass> {
    seq(|employees|, i requires 0 <= i < |employees| => Pass(tenant, employees[i], zone, lo, hi))
  }

  /** The employee has a pass. */
  ghost predicate HasPass(passes: seq<Pass>, tenant: string, employee: string) {
    exists i :: 0 <= i < |passes| && passes[i].tenant == tenant && passes[i].employee == employee
  }

  /** No employee has two passes. */
  ghost predicate OnePassEach(passes: seq<Pass>) {
    forall i, j :: 0 <= i < j < |passes| ==>
      passes[i].tenant != passes[j].tenant || passes[i].employee != passes[j].employee
  }

  /** The passes of one tenant for the zones its employees resolved to: one for each employee, in their zone. */
  ghost predicate PassesOfTenant(
    passes: seq<Pass>, tenant: string, zones: Zones, zoneOf: string -> Zone, lo: int, hi: int)
  {
    && OnePassEach(passes)
    && (forall i :: 0 <= i < |passes| ==>
          && passes[i].employee in zones
          && passes[i] == Pass(tenant, passes[i].employee, zoneOf(zones[passes[i].employee]), lo, hi))
    && (forall e :: e in zones ==> HasPass(passes, tenant, e))
  }

  lemma HasPassAppend(a: seq<Pass>, b: seq<Pass>, tenant: string, employee: string)
    ensures HasPass(a + b, tenant, employee) <==> HasPass(a, tenant, employee) || HasPass(b, tenant, employee)
  {
    if HasPass(a, tenant, employee) {
      var i :| 0 <= i < |a| && a[i].tenant == tenant && a[i].employee == employee;
      assert (a + b)[i] == a[i];
    } else if HasPass(b, tenant, employee) {
      var i :| 0 <= i < |b| && b[i].tenant == tenant && b[i].employee == employee;
      assert (a + b)[|a| + i] == b[i];
    }
  }

  /** The passes planned so far, when the zones in `left` are still to come. */
  ghost predicate PlannedBut(
    passes: seq<Pass>, tenant: string, zones: Zones, zoneOf: string -> Zone, lo: int, hi: int, left: set<string>)
  {
    && OnePassEach(passes)
    && (forall i :: 0 <= i < |passes| ==>
          && passes[i].employee in zones && zones[passes[i].employee] !in left
          && passes[i] == Pass(tenant, passes[i].employee, zoneOf(zones[passes[i].employee]), lo, hi))
    && (forall e :: e in zones && zones[e] !in left ==> HasPass(passes, tenant, e))
  }

  lemma PlanOneZone(
    passes: seq<Pass>, tenant: string, zones: Zones, zoneOf: string -> Zone, lo: int, hi: int, left: set<string>,
    z: string, group: seq<string>)
    requires PlannedBut(passes, tenant, zones, zoneOf, lo, hi, left) && z in left
    requires Distinct(group) && forall e :: e in group <==> e in zones && zones[e] == z
    ensures var query := QueryPasses(tenant, group, zoneOf(z), lo, hi);
            PlannedBut(passes + query, tenant, zones, zoneOf, lo, hi, left - {z})
  {
    var query := QueryPasses(tenant, group, zoneOf(z), lo, hi);
    forall e | e in zones && zones[e] !in left - {z}
      ensures HasPass(passes + query, tenant, e)
    {
      HasPassAppend(passes, query, tenant, e);
      if zones[e] == z {
        var i :| 0 <= i < |group| && group[i] == e;
        assert query[i].tenant == tenant && query[i].employee == e;
      }
    }
    forall i | 0 <= i < |query|
      ensures query[i].employee in zones && zones[query[i].employee] == z
    {
      assert group[i] in group;
    }
  }

  method PlanTenant(tenant: string, zones: Zones, zoneOf: string -> Zone, lo: int, hi: int)
    returns (passes: seq<Pass>)
    ensures PassesOfTenant(passes, tenant, zones, zoneOf, lo, hi)
  {
    var pairs := Listing(zones);
    var groups := GroupByKey(pairs);
    passes := [];
    var todo := groups.Keys;
    forall e | e in zones
      ensures zones[e] in todo
    {
      GroupIsExact(pairs, zones[e]);
      assert (zones[e], e) in pairs;
    }
    while todo != {}
      invariant todo <= groups.Keys
      invariant PlannedBut(passes, tenant, zones, zoneOf, lo, hi, todo)
      decreases |todo|
    {
      var z :| z in todo;
      GroupIsExact(pairs, z);
      GroupIsDistinct(pairs, z);
      PlanOneZone(passes, tenant, zones, zoneOf, lo, hi, todo, z, groups[z]);
      passes := passes + QueryPasses(tenant, groups[z], zoneOf(z), lo, hi);
      todo := todo - {z};
    }
  }

  method RunPasses(table: Table, logs: Logs, passes: seq<Pass>, threshold: int) returns (after: Table)
    ensures after == AfterTick(table, logs, passes, threshold)
  {
    ghost var batches := AllRows(logs, passes, threshold);
    after := table;
    for i := 0 to |passes|
      invariant after == Merge(table, batches, i)
    {
      after := after + PassRows(logs, passes[i], threshold);
    }
  }

  /** What the employee service, the calendar and the time zone database say around one tick. */
  datatype World = World(
    entriesOf: string -> Option<seq<Entry>>, calendarOf: string -> string -> Lookup, zoneOf: string -> Zone)

  /**
    What one tick did: it found `cache` in the resolver, resolved the tenants in `order` to
    the zones in `resolved`, and made `passes`.
   */
  datatype Tick = Tick(
    world: World, now: int, trailingDays: int, cache: Cache,
    order: seq<string>, resolved: map<string, Zones>, passes: seq<Pass>)
  {
    function Lo(): int { ScanStart(now, trailingDays) }

    function Hi(): int { ScanEnd(now) }

    /** The time zone that the tick resolved an employee to. */
    function ZoneOfEmployee(tenant: string, employee: string): Zone
      requires tenant in resolved && employee in resolved[tenant]
    {
      world.zoneOf(resolved[tenant][employee])
    }
  }

  /** The resolver's cache once the first `n` of the tenants have been resolved in turn. */
  function CacheBefore(cache: Cache, world: World, order: seq<string>, n: nat): Cache
    requires n <= |order|
  {
    if n == 0 then cache
    else
      var t := order[n - 1];
      TenantCache(CacheBefore(cache, world, order, n - 1), t, world.entriesOf(t), world.calendarOf(t))
  }

  lemma {:induction false} CacheOfPrefix(cache: Cache, world: World, order: seq<string>, more: seq<string>, n: nat)
    requires n <= |order|
    ensures CacheBefore(cache, world, order + more, n) == CacheBefore(cache, world, order, n)
  {
    if n > 0 {
      CacheOfPrefix(cache, world, order, more, n - 1);
    }
  }

  /** The employee's zone name is what the resolver, finding `cache`, makes of those answers. */
  ghost predicate ResolvedBy(world: World, cache: Cache, tenant: string, employee: string, zones: Zones) {
    && employee in zones && zones[employee] != ""
    && zones[employee] == ZoneOf(cache, tenant, world.entriesOf(tenant), world.calendarOf(tenant), employee)
  }

  /** The active employees of the `n`-th tenant are resolved against the cache that the tenants before left. */
  ghost predicate TenantIsResolved(logs: Logs, tick: Tick, n: nat)
    requires n < |tick.order|
  {
    var t, cache := tick.order[n], CacheBefore(tick.cache, tick.world, tick.order, n);
    && t in tick.resolved
    && forall e :: IsActive(logs, t, e, tick.Lo(), tick.Hi()) ==>
         ResolvedBy(tick.world, cache, t, e, tick.resolved[t])
  }

  /** A pass of the tick: in the employee's resolved zone, over the tick's window. */
  ghost predicate IsPassOf(tick: Tick, p: Pass) {
    && p.tenant in tick.resolved && p.employee in tick.resolved[p.tenant]
    && p == Pass(p.tenant, p.employee, tick.ZoneOfEmployee(p.tenant, p.employee), tick.Lo(), tick.Hi())
  }

  /** A tick under way, when the tenants in `left` are still to come. */
  ghost predicate IsTickBut(logs: Logs, tick: Tick, left: set<string>) {
    && OnePassEach(tick.passes)
    && (forall i :: 0 <= i < |tick.passes| ==> IsPassOf(tick, tick.passes[i]))
    && (forall t, e :: IsActive(logs, t, e, tick.Lo(), tick.Hi()) && t !in left ==>
          t in tick.order && HasPass(tick.passes, t, e))
    && (forall n :: 0 <= n < |tick.order| ==> TenantIsResolved(logs, tick, n))
    && (forall t :: t in tick.resolved ==> t in tick.order && t !in left)
  }

  /**
    A tick: no pass but in the employee's resolved zone and over the tick's window, no two
    for one employee, and one for every active employee; and the zone of every active
    employee is UTC, or what the calendar answered, or was live in the resolver's cache.
   */
  ghost predicate IsTick(logs: Logs, tick: Tick) {
    IsTickBut(logs, tick, {})
  }

  /** The tick, one tenant further on. */
  function Further(tick: Tick, tenant: string, zones: Zones, more: seq<Pass>): Tick {
    tick.(order := tick.order + [tenant], resolved := tick.resolved[tenant := zones], passes := tick.passes + more)
  }

  lemma AddTenant(logs: Logs, tick: Tick, left: set<string>, tenant: string, zones: Zones, more: seq<Pass>)
    requires IsTickBut(logs, tick, left) && tenant in left
    requires PassesOfTenant(more, tenant, zones, tick.world.zoneOf, tick.Lo(), tick.Hi())
    requires forall e :: IsActive(logs, tenant, e, tick.Lo(), tick.Hi()) ==>
               ResolvedBy(tick.world, CacheBefore(tick.cache, tick.world, tick.order, |tick.order|), tenant, e, zones)
    ensures IsTickBut(logs, Further(tick, tenant, zones, more), left - {tenant})
  {
    var after := Further(tick, tenant, zones, more);
    forall t, e | IsActive(logs, t, e, after.Lo(), after.Hi()) && t !in left - {tenant}
      ensures t in after.order && HasPass(after.passes, t, e)
    {
      HasPassAppend(tick.passes, more, t, e);
      if t == tenant {
        assert after.order[|tick.order|] == t;
      }
    }
    forall n | 0 <= n < |after.order|
      ensures TenantIsResolved(logs, after, n)
    {
      CacheOfPrefix(tick.cache, tick.world, tick.order, [tenant], n);
      if n < |tick.order| {
        assert TenantIsResolved(logs, tick, n);
      }
    }
    AddedPassesAreApart(tick, more, tenant, left);
    forall i | 0 <= i < |after.passes|
      ensures IsPassOf(after, after.passes[i])
    {
      if i < |tick.passes| {
        assert IsPassOf(tick, tick.passes[i]);
      }
    }
  }

  lemma AddedPassesAreApart(tick: Tick, more: seq<Pass>, tenant: string, left: set<string>)
    requires OnePassEach(tick.passes) && OnePassEach(more) && tenant in left
    requires forall i :: 0 <= i < |tick.passes| ==> IsPassOf(tick, tick.passes[i])
    requires forall t :: t in tick.resolved ==> t !in left
    requires forall i :: 0 <= i < |more| ==> more[i].tenant == tenant
    ensures OnePassEach(tick.passes + more)
  {
    var all := tick.passes + more;
    forall i, j | 0 <= i < j < |all|
      ensures all[i].tenant != all[j].tenant || all[i].employee != all[j].employee
    {
      if i < |tick.passes| <= j {
        assert IsPassOf(tick, tick.passes[i]);
      }
    }
  }

  lemma AllRowsAppend(logs: Logs, a: seq<Pass>, b: seq<Pass>, threshold: int)
    ensures AllRows(logs, a + b, threshold) == AllRows(logs, a, threshold) + AllRows(logs, b, threshold)
  {
  }

  lemma RunsAppend(table: Table, logs: Logs, a: seq<Pass>, b: seq<Pass>, threshold: int)
    ensures AfterTick(table, logs, a + b, threshold) ==
            AfterTick(AfterTick(table, logs, a, threshold), logs, b, threshold)
  {
    AllRowsAppend(logs, a, b, threshold);
    MergeOfBoth(table, AllRows(logs, a, threshold), AllRows(logs, b, threshold), AllRows(logs, a + b, threshold));
  }

  /** `rollupTrailingWindow`: the table after the passes of one tick, and what the tick did. */
  method RollupTrailingWindow(
    table: Table, logs: Logs, resolver: Resolver, world: World, now: int, trailingDays: int, threshold: int)
    returns (after: Table, tick: Tick)
    requires resolver.Valid()
    modifies resolver
    ensures resolver.Valid()
    ensures tick.world == world && tick.now == now && tick.trailingDays == trailingDays
    ensures tick.cache == old(resolver.cache)
    ensures resolver.cache == CacheBefore(tick.cache, world, tick.order, |tick.order|)
    ensures IsTick(logs, tick)
    ensures after == AfterTick(table, logs, tick.passes, threshold)
  {
    after, tick := table, Tick(world, now, trailingDays, resolver.cache, [], map[], []);
    var active := ActiveEmployees(logs, tick.Lo(), tick.Hi());
    var byTenant := GroupByKey(active);
    var todo := byTenant.Keys;
    forall t, e | IsActive(logs, t, e, tick.Lo(), tick.Hi())
      ensures t in todo
    {
      GroupIsExact(active, t);
      assert (t, e) in active;
    }
    while todo != {}
      invariant todo <= byTenant.Keys
      invariant resolver.Valid()
      invariant tick.world == world && tick.now == now && tick.trailingDays == trailingDays
      invariant tick.cache == old(resolver.cache)
      invariant resolver.cache == CacheBefore(tick.cache, world, tick.order, |tick.order|)
      invariant IsTickBut(logs, tick, todo)
      invariant after == AfterTick(table, logs, tick.passes, threshold)
      decreases |todo|
    {
      var tenant :| tenant in todo;
      GroupIsExact(active, tenant);
      after, tick := RollupTenant(after, logs, resolver, tick, tenant, byTenant[tenant], threshold, todo, table);
      todo := todo - {tenant};
    }
  }

  /** One turn of the loop over tenants: resolve, group by time zone, run a query for each group. */
  method RollupTenant(
    before: Table, logs: Logs, resolver: Resolver, tick: Tick, tenant: string, employees: seq<string>, threshold: int,
    ghost left: set<string>, ghost table: Table)
    returns (after: Table, further: Tick)
    requires resolver.Valid() && tenant in left && employees != []
    requires forall e :: e in employees <==> IsActive(logs, tenant, e, tick.Lo(), tick.Hi())
    requires resolver.cache == CacheBefore(tick.cache, tick.world, tick.order, |tick.order|)
    requires IsTickBut(logs, tick, left)
    requires before == AfterTick(table, logs, tick.passes, threshold)
    modifies resolver
    ensures resolver.Valid()
    ensures resolver.cache == CacheBefore(further.cache, further.world, further.order, |further.order|)
    ensures IsTickBut(logs, further, left - {tenant})
    ensures further == tick.(order := further.order, resolved := further.resolved, passes := further.passes)
    ensures after == AfterTick(table, logs, further.passes, threshold)
  {
    var zones := ResolveTenant(resolver, tenant, employees, tick.world);
    var more := PlanTenant(tenant, zones, tick.world.zoneOf, tick.Lo(), tick.Hi());
    AddTenant(logs, tick, left, tenant, zones, more);
    CacheOfPrefix(tick.cache, tick.world, tick.order, [tenant], |tick.order|);
    RunsAppend(table, logs, tick.passes, more, threshold);
    after := RunPasses(before, logs, more, threshold);
    further := Further(tick, tenant, zones, more);
  }

  method ResolveTenant(resolver: Resolver, tenant: string, employees: seq<string>, world: World)
    returns (zones: Zones)
    requires resolver.Valid() && employees != []
    modifies resolver
    ensures resolver.Valid()
    ensures resolver.cache ==
            TenantCache(old(resolver.cache), tenant, world.entriesOf(tenant), world.calendarOf(tenant))
    ensures forall e :: e in employees ==> ResolvedBy(world, old(resolver.cache), tenant, e, zones)
  {
    zones := resolver.ResolveTimezones(tenant, employees, world.entriesOf(tenant), world.calendarOf(tenant));
  }

  /** An active employee has exactly one pass, in the zone the tick resolved them to. */
  lemma PassOfActive(logs: Logs, tick: Tick, tenant: string, employee: string) returns (mine: nat)
    requires IsTick(logs, tick) && IsActive(logs, tenant, employee, tick.Lo(), tick.Hi())
    ensures tenant in tick.resolved && employee in tick.resolved[tenant] && mine < |tick.passes|
    ensures var p := Pass(tenant, employee, tick.ZoneOfEmployee(tenant, employee), tick.Lo(), tick.Hi());
            tick.passes[mine] == p && OnlyPassOf(tick.passes, p)
  {
    assert HasPass(tick.passes, tenant, employee);
    mine :| 0 <= mine < |tick.passes| && tick.passes[mine].tenant == tenant && tick.passes[mine].employee == employee;
    assert IsPassOf(tick, tick.passes[mine]);
  }

  /** Anyone with an event on one of the trailing days is among the active employees. */
  lemma EventOnDayIsActive(
    logs: Logs, zone: Zone, now: int, trailingDays: nat, tenant: string, employee: string, d: int)
    requires zone.Valid() && DriftsBelowADay(zone) && zone.dayOf(now) - trailingDays < d <= zone.dayOf(now)
    requires forall e :: e in LogOf(logs, tenant, employee) ==> e.at < ScanEnd(now)
    requires OnDay(zone, LogOf(logs, tenant, employee), d) != []
    ensures IsActive(logs, tenant, employee, ScanStart(now, trailingDays), ScanEnd(now))
  {
    var log := LogOf(logs, tenant, employee);
    TrailingDaysAreCovered(zone, log, now, trailingDays, zone.dayOf(now) - d);
    OnDayIsExact(zone, log, d);
    ScanIsExact(log, ScanStart(now, trailingDays), ScanEnd(now));
    var e := OnDay(zone, log, d)[0];
    assert e in OnDay(zone, log, d);
  }

  /**
    After every tick, whatever the table held before it and for every employee: the rows of
    the current local day and of the `trailingDays - 1` days before it, in the time zone the
    tick resolved the employee to, are those of the whole log.  (`PassOfActive` says that
    everyone with an event in the window is resolved to a zone.)
   */
  lemma TickSettlesEveryone(
    table: Table, logs: Logs, tick: Tick, threshold: int, tenant: string, employee: string, zone: Zone, d: int)
    requires ValidLogs(logs) && IsTick(logs, tick) && tick.trailingDays >= 0
    requires forall z :: tick.world.zoneOf(z).Valid() && DriftsBelowADay(tick.world.zoneOf(z))
    requires tenant in tick.resolved && employee in tick.resolved[tenant]
    requires zone == tick.ZoneOfEmployee(tenant, employee)
    requires zone.dayOf(tick.now) - tick.trailingDays < d <= zone.dayOf(tick.now)
    requires forall e :: e in LogOf(logs, tenant, employee) ==> e.at < tick.Hi()
    requires OnDay(zone, LogOf(logs, tenant, employee), d) != []
    ensures Settled(AfterTick(table, logs, tick.passes, threshold), logs, threshold, tenant, employee, zone, d)
  {
    EventOnDayIsActive(logs, zone, tick.now, tick.trailingDays, tenant, employee, d);
    var mine := PassOfActive(logs, tick, tenant, employee);
    PassesAreInValidZones(tick);
    var p := Pass(tenant, employee, zone, tick.Lo(), tick.Hi());
    TickSettlesTrailingDays(table, logs, tick.passes, mine, p, tick.now, tick.trailingDays, d, threshold);
  }

  lemma PassesAreInValidZones(tick: Tick)
    requires forall i :: 0 <= i < |tick.passes| ==> IsPassOf(tick, tick.passes[i])
    requires forall z :: tick.world.zoneOf(z).Valid()
    ensures forall i :: 0 <= i < |tick.passes| ==> tick.passes[i].zone.Valid()
  {
    forall i | 0 <= i < |tick.passes|
      ensures tick.passes[i].zone.Valid()
    {
      assert IsPassOf(tick, tick.passes[i]);
    }
  }

  // ----- A schedule of ticks -----

  /** Whenever the tick finds an event of the employee, it resolves them to this time zone. */
  ghost predicate ResolvesTo(logs: Logs, tick: Tick, tenant: string, employee: string, zone: Zone) {
    IsActive(logs, tenant, employee, tick.Lo(), tick.Hi()) ==>
      && tenant in tick.resolved && employee in tick.resolved[tenant]
      && tick.ZoneOfEmployee(tenant, employee) == zone
  }

  lemma TickIsForEmployee(logs: Logs, tick: Tick, tenant: string, employee: string, zone: Zone)
    requires IsTick(logs, tick) && ResolvesTo(logs, tick, tenant, employee, zone)
    ensures TickFor(logs, tick.passes, tick.now, tenant, employee, zone, tick.trailingDays)
  {
    var p := TickPass(tenant, employee, zone, tick.now, tick.trailingDays);
    if Scanned(logs, p) != [] {
      var mine := PassOfActive(logs, tick, tenant, employee);
      assert tick.passes[mine] == p;
    }
    forall i | 0 <= i < |tick.passes| && tick.passes[i].tenant == tenant && tick.passes[i].employee == employee
      ensures tick.passes[i] == p || Scanned(logs, tick.passes[i]) == []
    {
      assert IsPassOf(tick, tick.passes[i]);
    }
  }

  function PassesOf(ticks: seq<Tick>): seq<seq<Pass>> {
    seq(|ticks|, i requires 0 <= i < |ticks| => ticks[i].passes)
  }

  function TimesOf(ticks: seq<Tick>): seq<int> {
    seq(|ticks|, i requires 0 <= i < |ticks| => ticks[i].now)
  }

  lemma TicksAreForEmployee(
    logs: Logs, ticks: seq<Tick>, trailingDays: int, tenant: string, employee: string, zone: Zone)
    requires forall i :: 0 <= i < |ticks| ==>
               && IsTick(logs, ticks[i]) && ticks[i].trailingDays == trailingDays
               && ResolvesTo(logs, ticks[i], tenant, employee, zone)
    ensures forall i :: 0 <= i < |ticks| ==>
              TickFor(logs, PassesOf(ticks)[i], TimesOf(ticks)[i], tenant, employee, zone, trailingDays)
  {
    forall i | 0 <= i < |ticks|
      ensures TickFor(logs, PassesOf(ticks)[i], TimesOf(ticks)[i], tenant, employee, zone, trailingDays)
    {
      TickIsForEmployee(logs, ticks[i], tenant, employee, zone);
    }
  }

  /**
    `DailyRollup.ScheduleCutsEveryDay` of the job's own ticks, at which an employee without an
    event in the window has no pass: after every schedule, no day with two events `gap` or
    more apart is left with a row made from its whole sums.
   */
  lemma JobCutsEveryDay(
    table: Table, logs: Logs, ticks: seq<Tick>, gap: int, trailingDays: nat,
    tenant: string, employee: string, zone: Zone, d: int, threshold: int)
    returns (lo: int, hi: int)
    requires ValidLogs(logs) && zone.Valid()
    requires forall i :: 0 <= i < |ticks| ==>
               && IsTick(logs, ticks[i]) && ticks[i].trailingDays == trailingDays
               && ResolvesTo(logs, ticks[i], tenant, employee, zone)
    requires Scheduled(TimesOf(ticks), gap) && gap <= Hours(24 * (trailingDays + 2))
    requires OnDay(zone, LogOf(logs, tenant, employee), d) != []
    requires var last := LastOf(zone, LogOf(logs, tenant, employee), d);
             ticks[0].Lo() <= last < ticks[|ticks| - 1].Lo()
    ensures var log, key := LogOf(logs, tenant, employee), DayKey(tenant, employee, zone, d);
            var day, last := OnDay(zone, log, d), LastOf(zone, log, d);
            var after := AfterTicks(table, logs, PassesOf(ticks), threshold, |ticks|);
            && last - gap < lo <= last
            && key in after && after[key] == DayRow(zone, Scan(log, lo, hi), d, threshold)
            && (Aggregate(zone, Scan(log, lo, hi), d, threshold) == Aggregate(zone, log, d, threshold)
                <==> lo <= day[0].at)
            && (day[0].at + gap + SECOND <= last ==>
                  after[key].totalSeconds < DayRow(zone, log, d, threshold).totalSeconds)
  {
    TicksAreForEmployee(logs, ticks, trailingDays, tenant, employee, zone);
    var nows := TimesOf(ticks);
    var k := ScheduleCutsEveryDay(
      table, logs, PassesOf(ticks), nows, gap, tenant, employee, zone, trailingDays, d, threshold);
    lo, hi := ScanStart(nows[k], trailingDays), ScanEnd(nows[k]);
  }
}
