/**
  Resolving employees to time zones for the rollups
  (adherence-compliance-service/src/adherence/timezone-resolver.service.ts).

  The calendar service and the clock are parameters: a `Lookup` is what they say around one
  resolution of one org unit, whether or not the calendar ends up being asked.
 */
module TimezoneResolver {
  import opened Basics

  const UTC := "UTC"
  const TTL_MS := 3_600_000

  datatype CacheEntry = CacheEntry(timezone: string, expiresAt: int)
  type Cache = map<string, CacheEntry>

  /** The clock before, the calendar's answer (`None` if the call fails), and the clock after. */
  datatype Lookup = Lookup(readAt: int, answer: Option<string>, storedAt: int)

  function CacheKey(tenant: string, orgUnit: string): string {
    tenant + ":" + orgUnit
  }

  /** `rules.timezone || 'UTC'` */
  function OrUtc(timezone: string): (z: string)
    ensures z != ""
  {
    if timezone == "" then UTC else timezone
  }

  predicate Hit(cache: Cache, key: string, l: Lookup) {
    key in cache && cache[key].expiresAt > l.readAt
  }

  function Timezone(cache: Cache, key: string, l: Lookup): string {
    if Hit(cache, key, l) then cache[key].timezone
    else if l.answer.Some? then OrUtc(l.answer.value)
    else UTC
  }

  function CacheAfter(cache: Cache, key: string, l: Lookup): Cache {
    if Hit(cache, key, l) || l.answer.None? then cache
    else cache[key := CacheEntry(OrUtc(l.answer.value), l.storedAt + TTL_MS)]
  }

  datatype Entry = Entry(employee: string, orgUnit: string)

  // ----- Whole histories of resolutions -----

  /**
    A resolution, by both jobs' ticks, in the order in which they complete.  It reads the
    cache when it begins, and others may complete while it waits for the calendar: `began`
    is how many had completed by then.
   */
  datatype Resolution = Resolution(key: string, lookup: Lookup, began: nat)

  ghost predicate IsHistory(history: seq<Resolution>) {
    forall n :: 0 <= n < |history| ==> history[n].began <= n
  }

  /** The cache after the first `n` resolutions. */
  ghost function CacheAt(history: seq<Resolution>, n: nat): Cache
    requires IsHistory(history) && n <= |history|
  {
    if n == 0 then map[]
    else
      var r := history[n - 1];
      if Hit(CacheAt(history, r.began), r.key, r.lookup) || r.lookup.answer.None? then CacheAt(history, n - 1)
      else
        CacheAt(history, n - 1)[r.key := CacheEntry(OrUtc(r.lookup.answer.value), r.lookup.storedAt + TTL_MS)]
  }

  ghost function ResultAt(history: seq<Resolution>, n: nat): string
    requires IsHistory(history) && n < |history|
  {
    Timezone(CacheAt(history, history[n].began), history[n].key, history[n].lookup)
  }

  /** Resolution `n` asked the calendar about `key` and was told `timezone`. */
  ghost predicate Told(history: seq<Resolution>, n: nat, key: string, timezone: string)
    requires IsHistory(history) && n < |history|
  {
    && history[n].key == key
    && !Hit(CacheAt(history, history[n].began), key, history[n].lookup)
    && history[n].lookup.answer.Some?
    && timezone == (if history[n].lookup.answer == Some("") then "UTC" else history[n].lookup.answer.value)
  }

  /** Every cache entry is an answer of the calendar, never a fallback, and expires an hour after it came. */
  lemma {:induction false} EntriesWereTold(history: seq<Resolution>, n: nat, key: string) returns (origin: nat)
    requires IsHistory(history) && n <= |history| && key in CacheAt(history, n)
    ensures origin < n && Told(history, origin, key, CacheAt(history, n)[key].timezone)
    ensures CacheAt(history, n)[key].expiresAt == history[origin].lookup.storedAt + 60 * 60 * 1000
  {
    var r := history[n - 1];
    if r.key != key || Hit(CacheAt(history, r.began), r.key, r.lookup) || r.lookup.answer.None? {
      origin := EntriesWereTold(history, n - 1, key);
    } else {
      origin := n - 1;
    }
  }

  /**
    In every history, interleavings included, a resolved time zone is the UTC fallback, or
    what the calendar has just said, or what it had said, by the time the resolution began,
    less than an hour before by the clock.
   */
  lemma ResolvedIsFresh(history: seq<Resolution>, n: nat)
    requires IsHistory(history) && n < |history|
    ensures || (history[n].lookup.answer.None? && ResultAt(history, n) == UTC)
            || Told(history, n, history[n].key, ResultAt(history, n))
            || exists origin: nat :: origin < history[n].began
                 && Told(history, origin, history[n].key, ResultAt(history, n))
                 && history[n].lookup.readAt < history[origin].lookup.storedAt + 60 * 60 * 1000
  {
    var began := history[n].began;
    if Hit(CacheAt(history, began), history[n].key, history[n].lookup) {
      var origin := EntriesWereTold(history, began, history[n].key);
    }
  }

  /** With a calendar that always answers and never changes its mind, the cache is invisible. */
  lemma CacheIsTransparent(history: seq<Resolution>, n: nat, source: map<string, string>)
    requires IsHistory(history) && n < |history|
    requires forall i :: 0 <= i < |history| ==>
               history[i].key in source && history[i].lookup.answer == Some(source[history[i].key])
    ensures ResultAt(history, n) == if source[history[n].key] == "" then "UTC" else source[history[n].key]
  {
    var began := history[n].began;
    if Hit(CacheAt(history, began), history[n].key, history[n].lookup) {
      var origin := EntriesWereTold(history, began, history[n].key);
    }
  }

  /** Resolutions that do not overlap are what `ResolveOrgUnit` does one after the other. */
  lemma SerialHistory(history: seq<Resolution>, n: nat)
    requires IsHistory(history) && n < |history| && history[n].began == n
    ensures ResultAt(history, n) == Timezone(CacheAt(history, n), history[n].key, history[n].lookup)
    ensures CacheAt(history, n + 1) == CacheAfter(CacheAt(history, n), history[n].key, history[n].lookup)
  {
  }

  // ----- One call for many employees -----

  type Zones = map<string, string>

  /** Resolving the distinct org units in turn, against one cache. */
  function UnitCache(cache: Cache, tenant: string, units: seq<string>, calendar: string -> Lookup): Cache
  {
    if units == [] then cache
    else
      var n := |units| - 1;
      CacheAfter(UnitCache(cache, tenant, units[..n], calendar), CacheKey(tenant, units[n]), calendar(units[n]))
  }

  function UnitZones(cache: Cache, tenant: string, units: seq<string>, calendar: string -> Lookup): Zones
  {
    if units == [] then map[]
    else
      var n := |units| - 1;
      UnitZones(cache, tenant, units[..n], calendar)[units[n] :=
        Timezone(UnitCache(cache, tenant, units[..n], calendar), CacheKey(tenant, units[n]), calendar(units[n]))]
  }

  /** `[...new Set(entries.map((e) => e.orgUnitId))]` */
  function Units(entries: seq<Entry>): seq<string> {
    if entries == [] then []
    else
      var rest, u := Units(entries[..|entries| - 1]), entries[|entries| - 1].orgUnit;
      if u in rest then rest else rest + [u]
  }

  lemma {:induction false} UnitsAreExact(entries: seq<Entry>)
    ensures forall u :: u in Units(entries) <==> exists i :: 0 <= i < |entries| && entries[i].orgUnit == u
    ensures forall i, j :: 0 <= i < j < |Units(entries)| ==> Units(entries)[i] != Units(entries)[j]
  {
    if entries != [] {
      var n := |entries| - 1;
      UnitsAreExact(entries[..n]);
      assert entries == entries[..n] + [entries[n]];
    }
  }

  function FallBack(employees: seq<string>): Zones {
    map e | e in employees :: UTC
  }

  /** The result map after the first `n` entries have been written into it. */
  function Assigned(entries: seq<Entry>, zones: Zones, n: nat, base: Zones): Zones
    requires n <= |entries|
  {
    if n == 0 then base
    else
      var before, e := Assigned(entries, zones, n - 1, base), entries[n - 1];
      if e.orgUnit in zones && zones[e.orgUnit] != "" then before[e.employee := zones[e.orgUnit]] else before
  }

  /** The org unit that decides for an employee: that of the last entry about them. */
  function UnitOf(entries: seq<Entry>, n: nat, employee: string): Option<string>
    requires n <= |entries|
  {
    if n == 0 then None
    else if entries[n - 1].employee == employee then Some(entries[n - 1].orgUnit)
    else UnitOf(entries, n - 1, employee)
  }

  lemma {:induction false} AssignedIsLast(entries: seq<Entry>, zones: Zones, n: nat, base: Zones, employee: string)
    requires n <= |entries|
    requires forall i :: 0 <= i < n ==> entries[i].orgUnit in zones && zones[entries[i].orgUnit] != ""
    ensures var unit, after := UnitOf(entries, n, employee), Assigned(entries, zones, n, base);
            match unit
            case Some(u) => u in zones && employee in after && after[employee] == zones[u]
            case None =>
              && (employee in after <==> employee in base)
              && (employee in base ==> after[employee] == base[employee])
  {
    if n > 0 {
      AssignedIsLast(entries, zones, n - 1, base, employee);
    }
  }

  lemma {:induction false} UnitZonesComplete(
    cache: Cache, tenant: string, units: seq<string>, calendar: string -> Lookup)
    requires forall k :: k in cache ==> cache[k].timezone != ""
    ensures forall k :: k in UnitCache(cache, tenant, units, calendar) ==>
              UnitCache(cache, tenant, units, calendar)[k].timezone != ""
    ensures UnitZones(cache, tenant, units, calendar).Keys == set u | u in units
    ensures forall u :: u in units ==> UnitZones(cache, tenant, units, calendar)[u] != ""
  {
    if units != [] {
      var n := |units| - 1;
      UnitZonesComplete(cache, tenant, units[..n], calendar);
      assert units == units[..n] + [units[n]];
    }
  }

  lemma {:induction false} UnitCacheElsewhere(
    cache: Cache, tenant: string, units: seq<string>, calendar: string -> Lookup, key: string)
    requires forall i :: 0 <= i < |units| ==> CacheKey(tenant, units[i]) != key
    ensures key in UnitCache(cache, tenant, units, calendar) <==> key in cache
    ensures key in cache ==> UnitCache(cache, tenant, units, calendar)[key] == cache[key]
  {
    if units != [] {
      UnitCacheElsewhere(cache, tenant, units[..|units| - 1], calendar, key);
    }
  }

  /** Distinct org units do not disturb each other: each is resolved as if it were the only one. */
  lemma {:induction false} UnitZoneIs(
    cache: Cache, tenant: string, units: seq<string>, calendar: string -> Lookup, u: string)
    requires u in units && forall i, j :: 0 <= i < j < |units| ==> units[i] != units[j]
    ensures u in UnitZones(cache, tenant, units, calendar)
    ensures UnitZones(cache, tenant, units, calendar)[u] == Timezone(cache, CacheKey(tenant, u), calendar(u))
  {
    var n := |units| - 1;
    if units[n] == u {
      forall i | 0 <= i < n
        ensures CacheKey(tenant, units[i]) != CacheKey(tenant, u)
      {
        KeysOfUnits(tenant, units[i], u);
      }
      UnitCacheElsewhere(cache, tenant, units[..n], calendar, CacheKey(tenant, u));
    } else {
      UnitZoneIs(cache, tenant, units[..n], calendar, u);
    }
  }

  lemma KeysOfUnits(tenant: string, u: string, v: string)
    requires u != v
    ensures CacheKey(tenant, u) != CacheKey(tenant, v)
  {
    var prefix := tenant + ":";
    assert CacheKey(tenant, u)[|prefix|..] == u && CacheKey(tenant, v)[|prefix|..] == v;
  }

  /**
    The zone an employee resolves to against a cache: that of the org unit of the last entry
    about them, live in the cache or told by the calendar; UTC for lack of any of these.
   */
  function ZoneOf(
    cache: Cache, tenant: string, entries: Option<seq<Entry>>, calendar: string -> Lookup, employee: string): string
  {
    match entries
    case None => UTC
    case Some(es) =>
      match UnitOf(es, |es|, employee)
      case None => UTC
      case Some(u) => Timezone(cache, CacheKey(tenant, u), calendar(u))
  }

  /** The cache after resolving the employees of a tenant. */
  function TenantCache(cache: Cache, tenant: string, entries: Option<seq<Entry>>, calendar: string -> Lookup): Cache {
    if entries.None? then cache else UnitCache(cache, tenant, Units(entries.value), calendar)
  }

  lemma {:induction false} UnitIsListed(entries: seq<Entry>, n: nat, employee: string)
    requires n <= |entries| && UnitOf(entries, n, employee).Some?
    ensures UnitOf(entries, n, employee).value in Units(entries)
  {
    UnitsAreExact(entries);
    if entries[n - 1].employee != employee {
      UnitIsListed(entries, n - 1, employee);
    }
  }

  class Resolver {
    var cache: Cache

    ghost predicate Valid()
      reads this
    {
      forall k :: k in cache ==> cache[k].timezone != ""
    }

    constructor ()
      ensures Valid() && cache == map[]
    {
      cache := map[];
    }

    method ResolveOrgUnit(tenant: string, orgUnit: string, l: Lookup) returns (timezone: string)
      requires Valid()
      modifies this
      ensures Valid() && timezone != ""
      ensures timezone == Timezone(old(cache), CacheKey(tenant, orgUnit), l)
      ensures cache == CacheAfter(old(cache), CacheKey(tenant, orgUnit), l)
    {
      var cacheKey := tenant + ":" + orgUnit;
      if cacheKey in cache && cache[cacheKey].expiresAt > l.readAt {
        return cache[cacheKey].timezone;
      }
      match l.answer {
        case Some(answer) =>
          timezone := if answer != "" then answer else UTC;
          cache := cache[cacheKey := CacheEntry(timezone, l.storedAt + TTL_MS)];
        case None =>
          timezone := UTC;
      }
    }

    method ResolveUnits(tenant: string, units: seq<string>, calendar: string -> Lookup) returns (zones: Zones)
      requires Valid()
      modifies this
      ensures Valid()
      ensures cache == UnitCache(old(cache), tenant, units, calendar)
      ensures zones == UnitZones(old(cache), tenant, units, calendar)
    {
      zones := map[];
      for i := 0 to |units|
        invariant Valid()
        invariant cache == UnitCache(old(cache), tenant, units[..i], calendar)
        invariant zones == UnitZones(old(cache), tenant, units[..i], calendar)
      {
        assert units[..i + 1][..i] == units[..i];
        var zone := ResolveOrgUnit(tenant, units[i], calendar(units[i]));
        zones := zones[units[i] := zone];
      }
      assert units[..|units|] == units;
    }

    /**
      `entries` is what the employee service returns, `None` if the call fails.  Whatever
      happens, every requested employee gets exactly one, non-empty time zone: UTC if the
      employee service failed or does not know them, else that of their org unit.
     */
    method ResolveTimezones(
      tenant: string, employees: seq<string>, entries: Option<seq<Entry>>, calendar: string -> Lookup)
      returns (result: Zones)
      requires Valid()
      modifies this
      ensures Valid()
      ensures employees == [] || entries.None? ==> result == FallBack(employees)
      ensures cache == if employees == [] then old(cache) else TenantCache(old(cache), tenant, entries, calendar)
      ensures forall e :: e in employees ==> e in result && result[e] != ""
      ensures forall e :: e in employees ==> result[e] == ZoneOf(old(cache), tenant, entries, calendar, e)
    {
      result := FallBack(employees);
      if employees == [] || entries.None? {
        return;
      }
      var es := entries.value;
      var units := DistinctUnits(es);
      var zones := ResolveUnits(tenant, units, calendar);
      result := AssignEntries(es, zones, result);
      UnitsAreExact(es);
      UnitZonesComplete(old(cache), tenant, units, calendar);
      forall e | e in employees
        ensures e in result && result[e] != "" && result[e] == ZoneOf(old(cache), tenant, entries, calendar, e)
      {
        AssignedIsLast(es, zones, |es|, FallBack(employees), e);
        if UnitOf(es, |es|, e).Some? {
          UnitIsListed(es, |es|, e);
          UnitZoneIs(old(cache), tenant, units, calendar, UnitOf(es, |es|, e).value);
        }
      }
    }
  }

  method AssignEntries(entries: seq<Entry>, zones: Zones, base: Zones) returns (result: Zones)
    ensures result == Assigned(entries, zones, |entries|, base)
  {
    result := base;
    for i := 0 to |entries|
      invariant result == Assigned(entries, zones, i, base)
    {
      var entry := entries[i];
      if entry.orgUnit in zones && zones[entry.orgUnit] != "" {
        result := result[entry.employee := zones[entry.orgUnit]];
      }
    }
  }

  method DistinctUnits(entries: seq<Entry>) returns (units: seq<string>)
    ensures units == Units(entries)
  {
    units := [];
    for i := 0 to |entries|
      invariant units == Units(entries[..i])
    {
      assert entries[..i + 1][..i] == entries[..i];
      if entries[i].orgUnit !in units {
        units := units + [entries[i].orgUnit];
      }
    }
    assert entries[..|entries|] == entries;
  }
}
