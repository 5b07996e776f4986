/**
  The token-bucket limiter in front of the billable AI operations
  (ai-layer-service/src/auth/ai-interaction-rate-limiter.service.ts).

  Token counts are exact reals; the clock is an integer number of milliseconds that may
  step backwards.  `Date.now()` is read once when a bucket is created and once when it is
  refilled, so a call carries both readings.
 */
module RateLimiter {
  import opened Basics

  datatype Override = Override(limit: Option<real>, windowSeconds: Option<real>)

  datatype Config = Config(defaultLimit: real, defaultWindowSeconds: real, overrides: map<string, Override>) {
    function LimitFor(tenant: string): real {
      if tenant in overrides && overrides[tenant].limit.Some? then overrides[tenant].limit.value else defaultLimit
    }

    function WindowFor(tenant: string): real {
      if tenant in overrides && overrides[tenant].windowSeconds.Some? then overrides[tenant].windowSeconds.value
      else defaultWindowSeconds
    }

    /** Every limit and every window is positive. */
    ghost predicate Valid() {
      forall tenant :: LimitFor(tenant) > 0.0 && WindowFor(tenant) > 0.0
    }

    function RatePerMs(tenant: string): real
      requires WindowFor(tenant) > 0.0
    {
      LimitFor(tenant) / (WindowFor(tenant) * 1000.0)
    }
  }

  datatype Bucket = Bucket(tokens: real, capacity: real, refillRatePerMs: real, lastRefillAtMs: int)
  datatype Decision = Allowed | Denied(retryAfterSeconds: int)
  datatype Call = Call(tenant: string, actor: string, createdAtMs: int, refilledAtMs: int)

  function Key(tenant: string, actor: string): string {
    tenant + ":" + actor
  }

  function KeyOf(call: Call): string {
    Key(call.tenant, call.actor)
  }

  function Smaller(x: real, y: real): real { if x <= y then x else y }

  function Ceil(x: real): (n: int)
    ensures (n - 1) as real < x <= n as real
  {
    -(-x).Floor
  }

  // ----- One call, on values -----

  function NewBucket(config: Config, tenant: string, nowMs: int): Bucket
    requires config.Valid()
  {
    Bucket(config.LimitFor(tenant), config.LimitFor(tenant), config.RatePerMs(tenant), nowMs)
  }

  /** The tokens that `ms` milliseconds put into a bucket. */
  function Earned(ms: int, ratePerMs: real): real {
    ms as real * ratePerMs
  }

  function Refill(b: Bucket, nowMs: int): Bucket {
    var elapsedMs := nowMs - b.lastRefillAtMs;
    if elapsedMs <= 0 then b
    else b.(tokens := Smaller(b.capacity, b.tokens + Earned(elapsedMs, b.refillRatePerMs)), lastRefillAtMs := nowMs)
  }

  function Decide(b: Bucket): Decision
    requires b.refillRatePerMs > 0.0
  {
    if b.tokens >= 1.0 then Allowed else Denied(Ceil((1.0 - b.tokens) / b.refillRatePerMs / 1000.0))
  }

  function Spend(b: Bucket): Bucket {
    if b.tokens >= 1.0 then b.(tokens := b.tokens - 1.0) else b
  }

  type Buckets = map<string, Bucket>

  ghost predicate ValidBucket(b: Bucket) {
    b.refillRatePerMs > 0.0 && 0.0 <= b.tokens <= b.capacity
  }

  ghost predicate ValidBuckets(buckets: Buckets) {
    forall k :: k in buckets ==> ValidBucket(buckets[k])
  }

  /** The bucket a call finds, refilled and ready to decide. */
  function Refilled(config: Config, buckets: Buckets, call: Call): Bucket
    requires config.Valid()
  {
    var found :=
      if KeyOf(call) in buckets then buckets[KeyOf(call)]
      else NewBucket(config, call.tenant, call.createdAtMs);
    Refill(found, call.refilledAtMs)
  }

  lemma RefilledIsValid(config: Config, buckets: Buckets, call: Call)
    requires config.Valid() && ValidBuckets(buckets)
    ensures ValidBucket(Refilled(config, buckets, call))
  {
  }

  function After(config: Config, buckets: Buckets, call: Call): Buckets
    requires config.Valid()
  {
    buckets[KeyOf(call) := Spend(Refilled(config, buckets, call))]
  }

  function DecisionFor(config: Config, buckets: Buckets, call: Call): Decision
    requires config.Valid() && ValidBuckets(buckets)
  {
    RefilledIsValid(config, buckets, call);
    Decide(Refilled(config, buckets, call))
  }

  // ----- The service -----

  class Limiter {
    const config: Config
    var buckets: Buckets

    constructor (config: Config)
      requires config.Valid()
      ensures this.config == config && buckets == map[] && ValidBuckets(buckets)
    {
      this.config := config;
      buckets := map[];
    }

    method TryAcquire(call: Call) returns (decision: Decision)
      requires config.Valid() && ValidBuckets(buckets)
      modifies this
      ensures ValidBuckets(buckets)
      ensures buckets == After(config, old(buckets), call)
      ensures decision == DecisionFor(config, old(buckets), call)
    {
      var key := call.tenant + ":" + call.actor;
      if key !in buckets {
        buckets := buckets[key := NewBucket(config, call.tenant, call.createdAtMs)];
      }
      RefilledIsValid(config, old(buckets), call);
      buckets := buckets[key := Refill(buckets[key], call.refilledAtMs)];
      var bucket := buckets[key];
      if bucket.tokens >= 1.0 {
        buckets := buckets[key := bucket.(tokens := bucket.tokens - 1.0)];
        decision := Allowed;
      } else {
        decision := Denied(Ceil((1.0 - bucket.tokens) / bucket.refillRatePerMs / 1000.0));
      }
    }
  }

  // ----- Runs -----

  function Run(config: Config, calls: seq<Call>): (buckets: Buckets)
    requires config.Valid()
    ensures ValidBuckets(buckets)
  {
    if calls == [] then map[]
    else
      var before := Run(config, calls[..|calls| - 1]);
      RefilledIsValid(config, before, calls[|calls| - 1]);
      After(config, before, calls[|calls| - 1])
  }

  /** How many of the calls on `key` among `calls[from..]` were allowed. */
  function AllowedSince(config: Config, calls: seq<Call>, key: string, from: nat): nat
    requires config.Valid()
  {
    if |calls| <= from then 0
    else
      var n := |calls| - 1;
      AllowedSince(config, calls[..n], key, from)
      + if KeyOf(calls[n]) == key && DecisionFor(config, Run(config, calls[..n]), calls[n]).Allowed? then 1 else 0
  }

  /** The first call on `key`: the one that created its bucket. */
  function Opening(calls: seq<Call>, key: string): Option<Call> {
    if calls == [] then None
    else
      var earlier := Opening(calls[..|calls| - 1], key);
      var call := calls[|calls| - 1];
      if earlier.None? && KeyOf(call) == key then Some(call) else earlier
  }

  /** The latest clock reading the calls on `key` have seen; `start` if there were none. */
  function LatestClock(calls: seq<Call>, key: string, start: int): int {
    if calls == [] then start
    else
      var latest := LatestClock(calls[..|calls| - 1], key, start);
      var call := calls[|calls| - 1];
      if KeyOf(call) == key && call.refilledAtMs > latest then call.refilledAtMs else latest
  }

  /** What the bucket of `key` is, said without replaying the run. */
  ghost predicate BucketTracks(config: Config, calls: seq<Call>, key: string, b: Bucket)
    requires config.Valid()
  {
    var opening := Opening(calls, key);
    && opening.Some?
    && b.capacity == config.LimitFor(opening.value.tenant)
    && b.refillRatePerMs == config.RatePerMs(opening.value.tenant)
    && b.lastRefillAtMs == LatestClock(calls, key, opening.value.createdAtMs)
  }

  lemma {:induction false} BucketsTrack(config: Config, calls: seq<Call>, key: string)
    requires config.Valid()
    ensures key in Run(config, calls) <==> Opening(calls, key).Some?
    ensures key in Run(config, calls) ==> BucketTracks(config, calls, key, Run(config, calls)[key])
  {
    if calls != [] {
      var n := |calls| - 1;
      var before, call := calls[..n], calls[n];
      BucketsTrack(config, before, key);
      if KeyOf(call) == key && Opening(before, key).None? {
        NoCallsYet(before, key, call.createdAtMs);
      }
    }
  }

  lemma {:induction false} NoCallsYet(calls: seq<Call>, key: string, start: int)
    requires Opening(calls, key).None?
    ensures LatestClock(calls, key, start) == start
  {
    if calls != [] {
      NoCallsYet(calls[..|calls| - 1], key, start);
    }
  }

  /** `e` is what is left of bucket `b` after `allowed` calls: no token came from nowhere. */
  ghost predicate Accounts(b: Bucket, e: Bucket, allowed: nat) {
    && ValidBucket(b) && ValidBucket(e)
    && e.refillRatePerMs == b.refillRatePerMs && e.capacity == b.capacity
    && e.tokens + allowed as real <= b.tokens + Earned(e.lastRefillAtMs - b.lastRefillAtMs, b.refillRatePerMs)
  }

  lemma CallAccounts(b: Bucket, m: Bucket, allowed: nat, nowMs: int)
    requires Accounts(b, m, allowed)
    ensures var r := Refill(m, nowMs); Accounts(b, Spend(r), allowed + if r.tokens >= 1.0 then 1 else 0)
  {
    var r := Refill(m, nowMs);
    var rate := b.refillRatePerMs;
    assert r.tokens <= m.tokens + Earned(r.lastRefillAtMs - m.lastRefillAtMs, rate);
    assert r.tokens >= m.tokens by {
      if nowMs > m.lastRefillAtMs {
        assert Earned(nowMs - m.lastRefillAtMs, rate) >= 0.0;
      }
    }
    Distribute(r.lastRefillAtMs, m.lastRefillAtMs, b.lastRefillAtMs, rate);
  }

  lemma Distribute(e: int, m: int, b: int, rate: real)
    ensures Earned(e - m, rate) + Earned(m - b, rate) == Earned(e - b, rate)
  {
  }

  /** The bucket the next call on `key` finds after `calls`, if `opening` is or will be its first. */
  function Found(config: Config, calls: seq<Call>, key: string, opening: Call): (b: Bucket)
    requires config.Valid()
    ensures ValidBucket(b)
  {
    assert config.LimitFor(opening.tenant) > 0.0 && config.WindowFor(opening.tenant) > 0.0;
    if key in Run(config, calls) then Run(config, calls)[key]
    else NewBucket(config, opening.tenant, opening.createdAtMs)
  }

  /** What one more call does to the bucket of `key`. */
  lemma FoundAfterCall(config: Config, calls: seq<Call>, key: string, opening: Call)
    requires config.Valid() && calls != []
    requires Opening(calls, key) == Some(opening) || Opening(calls, key).None?
    ensures var n := |calls| - 1;
            var m := Found(config, calls[..n], key, opening);
            var r := Refill(Found(config, calls[..n], key, opening), calls[n].refilledAtMs);
            if KeyOf(calls[n]) == key then
              && Found(config, calls, key, opening) == Spend(r)
              && (DecisionFor(config, Run(config, calls[..n]), calls[n]).Allowed? <==> r.tokens >= 1.0)
            else Found(config, calls, key, opening) == m
  {
    BucketsTrack(config, calls[..|calls| - 1], key);
  }

  lemma {:induction false} TokensAreConserved(config: Config, calls: seq<Call>, key: string, from: nat, opening: Call)
    requires config.Valid() && from <= |calls|
    requires Opening(calls, key) == Some(opening) || Opening(calls, key).None?
    ensures Accounts(Found(config, calls[..from], key, opening), Found(config, calls, key, opening),
                     AllowedSince(config, calls, key, from))
  {
    if from == |calls| {
      assert calls[..from] == calls;
    } else {
      var n := |calls| - 1;
      assert calls[..n][..from] == calls[..from];
      TokensAreConserved(config, calls[..n], key, from, opening);
      FoundAfterCall(config, calls, key, opening);
      CallAccounts(Found(config, calls[..from], key, opening), Found(config, calls[..n], key, opening),
                   AllowedSince(config, calls[..n], key, from), calls[n].refilledAtMs);
    }
  }

  lemma FoundTracks(config: Config, calls: seq<Call>, key: string, opening: Call)
    requires config.Valid()
    requires Opening(calls, key) == Some(opening) || Opening(calls, key).None?
    ensures var b := Found(config, calls, key, opening);
            && b.capacity == config.LimitFor(opening.tenant)
            && b.refillRatePerMs == config.RatePerMs(opening.tenant)
            && b.lastRefillAtMs == LatestClock(calls, key, opening.createdAtMs)
  {
    BucketsTrack(config, calls, key);
    if Opening(calls, key).None? {
      NoCallsYet(calls, key, opening.createdAtMs);
    }
  }

  /** The bucket of `key` at the two ends of a stretch of a run. */
  lemma StretchAccounts(
    config: Config, calls: seq<Call>, key: string, from: nat, opening: Call)
    returns (b: Bucket, e: Bucket)
    requires config.Valid() && from <= |calls| && Opening(calls, key) == Some(opening)
    ensures Accounts(b, e, AllowedSince(config, calls, key, from))
    ensures b.capacity == config.LimitFor(opening.tenant) && b.refillRatePerMs == config.RatePerMs(opening.tenant)
    ensures b.lastRefillAtMs == LatestClock(calls[..from], key, opening.createdAtMs)
    ensures e.lastRefillAtMs == LatestClock(calls, key, opening.createdAtMs)
  {
    OpeningIsFirst(calls, key, from);
    TokensAreConserved(config, calls, key, from, opening);
    b, e := Found(config, calls[..from], key, opening), Found(config, calls, key, opening);
    FoundTracks(config, calls, key, opening);
    FoundTracks(config, calls[..from], key, opening);
  }

  /** What the configuration says of a tenant: `limit` calls in `window` seconds. */
  ghost predicate Allots(config: Config, tenant: string, limit: real, window: real) {
    var overrides := config.overrides;
    && limit == (if tenant in overrides && overrides[tenant].limit.Some? then overrides[tenant].limit.value
                 else config.defaultLimit)
    && window == (if tenant in overrides && overrides[tenant].windowSeconds.Some?
                  then overrides[tenant].windowSeconds.value
                  else config.defaultWindowSeconds)
  }

  /** `limit` calls in every `window` seconds: what belongs to `ms` milliseconds. */
  ghost function Share(limit: real, window: real, ms: int): real
    requires window > 0.0
  {
    limit * ms as real / (1000.0 * window)
  }

  lemma EarnedPerWindow(ms: int, limit: real, window: real)
    requires window > 0.0
    ensures Earned(ms, limit / (window * 1000.0)) == Share(limit, window, ms)
  {
    var unit := window * 1000.0;
    assert limit / unit * unit == limit;
    Scaled(ms as real, limit / unit, unit, limit);
  }

  lemma Scaled(t: real, q: real, unit: real, limit: real)
    requires unit > 0.0 && q * unit == limit
    ensures t * q == limit * t / unit
  {
    assert limit * t == (t * q) * unit;
    assert limit * t / unit * unit == limit * t;
    SameProduct(t * q, limit * t / unit, unit);
  }

  lemma SameProduct(x: real, y: real, unit: real)
    requires unit > 0.0 && x * unit == y * unit
    ensures x == y
  {
    assert x > y ==> (x - y) * unit > 0.0;
    assert x < y ==> (y - x) * unit > 0.0;
  }

  /**
    The limit itself: over any stretch of any run, the calls allowed on a key are at most
    the limit configured for the tenant that opened its bucket plus the share of it that
    belongs to the advance of the latest clock seen on that key: a whole limit for every
    window.  Backward clock steps and calls on other keys make no difference.
   */
  lemma AllowedIsBounded(
    config: Config, calls: seq<Call>, key: string, from: nat, opening: Call, limit: real, window: real)
    requires config.Valid() && from <= |calls| && Opening(calls, key) == Some(opening)
    requires Allots(config, opening.tenant, limit, window)
    ensures window > 0.0
    ensures var start := LatestClock(calls[..from], key, opening.createdAtMs);
            var earnedMs := LatestClock(calls, key, opening.createdAtMs) - start;
            AllowedSince(config, calls, key, from) as real <= limit + Share(limit, window, earnedMs)
  {
    var b, e := StretchAccounts(config, calls, key, from, opening);
    assert config.LimitFor(opening.tenant) == limit && config.WindowFor(opening.tenant) == window;
    StretchIsBounded(b, e, AllowedSince(config, calls, key, from), limit, window);
  }

  lemma StretchIsBounded(b: Bucket, e: Bucket, allowed: nat, limit: real, window: real)
    requires window > 0.0 && Accounts(b, e, allowed)
    requires b.capacity == limit && b.refillRatePerMs == limit / (window * 1000.0)
    ensures allowed as real <= limit + Share(limit, window, e.lastRefillAtMs - b.lastRefillAtMs)
  {
    EarnedPerWindow(e.lastRefillAtMs - b.lastRefillAtMs, limit, window);
  }

  /**
    In any run, a bucket without tokens is refilled in proportion to the time since its last
    refill, and is full again after the configured window and no sooner.
   */
  lemma EmptyBucketFillsInWindow(
    config: Config, calls: seq<Call>, key: string, opening: Call, limit: real, window: real, ms: nat)
    requires config.Valid() && Opening(calls, key) == Some(opening)
    requires Allots(config, opening.tenant, limit, window)
    requires key in Run(config, calls) && Run(config, calls)[key].tokens == 0.0
    ensures window > 0.0
    ensures var b := Run(config, calls)[key];
            var refilled := Refill(b, b.lastRefillAtMs + ms);
            && (refilled.tokens == limit <==> ms as real >= 1000.0 * window)
            && (ms as real <= 1000.0 * window ==> refilled.tokens == Share(limit, window, ms))
  {
    BucketsTrack(config, calls, key);
    assert config.LimitFor(opening.tenant) == limit > 0.0 && config.WindowFor(opening.tenant) == window > 0.0;
    EmptyFills(Run(config, calls)[key], limit, window, ms);
  }

  lemma EmptyFills(b: Bucket, limit: real, window: real, ms: nat)
    requires window > 0.0 && limit > 0.0
    requires b.tokens == 0.0 && b.capacity == limit && b.refillRatePerMs == limit / (window * 1000.0)
    ensures var refilled := Refill(b, b.lastRefillAtMs + ms);
            && (refilled.tokens == limit <==> ms as real >= 1000.0 * window)
            && (ms as real <= 1000.0 * window ==> refilled.tokens == Share(limit, window, ms))
  {
    EarnedPerWindow(ms, limit, window);
    ShareOfLimit(ms as real, limit, 1000.0 * window);
  }

  lemma ShareOfLimit(t: real, limit: real, unit: real)
    requires unit > 0.0 && limit > 0.0 && t >= 0.0
    ensures t >= unit <==> limit * t / unit >= limit
    ensures t == unit ==> limit * t / unit == limit
    ensures t == 0.0 ==> limit * t / unit == 0.0
  {
    var share := limit * t / unit;
    assert share * unit == limit * t;
    CompareProducts(share, limit, t, unit);
  }

  /** If `x * unit == limit * t` then `x` is to `limit` as `t` is to `unit`. */
  lemma CompareProducts(x: real, limit: real, t: real, unit: real)
    requires unit > 0.0 && limit > 0.0 && x * unit == limit * t
    ensures (t >= unit <==> x >= limit) && (t == unit ==> x == limit)
    ensures t == 0.0 ==> x == 0.0
  {
    var d, e := x - limit, t - unit;
    assert d * unit == limit * e by {
      assert d * unit == x * unit - limit * unit;
      assert limit * e == limit * t - limit * unit;
    }
    SameSign(d, unit, limit, e);
    if t == 0.0 {
      SameProduct(x, 0.0, unit);
    }
  }

  lemma SameSign(d: real, unit: real, limit: real, e: real)
    requires unit > 0.0 && limit > 0.0 && d * unit == limit * e
    ensures (e >= 0.0 <==> d >= 0.0) && (e == 0.0 ==> d == 0.0)
  {
    assert d > 0.0 ==> d * unit > 0.0;
    assert d < 0.0 ==> d * unit < 0.0;
    assert e > 0.0 ==> limit * e > 0.0;
    assert e < 0.0 ==> limit * e < 0.0;
  }

  // ----- A new key -----

  /** Calls on one key at one instant. */
  ghost predicate IsBurst(burst: seq<Call>, key: string, at: int) {
    burst != [] && forall i :: 0 <= i < |burst| ==>
      KeyOf(burst[i]) == key && burst[i].createdAtMs == at && burst[i].refilledAtMs == at
  }

  lemma {:induction false} OpeningOfBurst(before: seq<Call>, burst: seq<Call>, key: string, at: int, i: nat)
    requires Opening(before, key).None? && IsBurst(burst, key, at) && i <= |burst|
    ensures Opening(before + burst[..i], key) == if i == 0 then None else Some(burst[0])
  {
    if i == 0 {
      assert before + burst[..i] == before;
    } else {
      OpeningOfBurst(before, burst, key, at, i - 1);
      OneMoreCall(before, burst, i - 1);
    }
  }

  lemma OneMoreCall(before: seq<Call>, burst: seq<Call>, i: nat)
    requires i < |burst|
    ensures var calls := before + burst[..i + 1];
            calls[..|calls| - 1] == before + burst[..i] && calls[|calls| - 1] == burst[i]
  {
  }

  /** What a burst of `i` calls leaves in a new bucket. */
  ghost predicate BurstLeaves(b: Bucket, limit: real, at: int, i: nat) {
    && b.lastRefillAtMs == at && b.capacity == limit
    && b.tokens == if i as real <= limit then limit - i as real else limit - limit.Floor as real
  }

  lemma SpendInBurst(b: Bucket, limit: real, at: int, i: nat)
    requires limit > 0.0 && BurstLeaves(b, limit, at, i)
    ensures var r := Refill(b, at);
            BurstLeaves(Spend(r), limit, at, i + 1) && (r.tokens >= 1.0 <==> (i + 1) as real <= limit)
  {
    assert limit.Floor as real <= limit < limit.Floor as real + 1.0;
    assert (i + 1) as real == i as real + 1.0;
    if i as real <= limit && (i + 1) as real > limit {
      assert limit.Floor == i;
    }
  }

  lemma {:induction false} BurstIsServed(
    config: Config, before: seq<Call>, burst: seq<Call>, key: string, at: int, limit: real, window: real, i: nat)
    requires config.Valid() && Opening(before, key).None? && IsBurst(burst, key, at) && i <= |burst|
    requires Allots(config, burst[0].tenant, limit, window)
    ensures BurstLeaves(Found(config, before + burst[..i], key, burst[0]), limit, at, i)
  {
    assert config.LimitFor(burst[0].tenant) == limit > 0.0;
    OpeningOfBurst(before, burst, key, at, i);
    if i == 0 {
      assert before + burst[..i] == before;
      BucketsTrack(config, before, key);
    } else {
      BurstIsServed(config, before, burst, key, at, limit, window, i - 1);
      OneMoreCall(before, burst, i - 1);
      FoundAfterCall(config, before + burst[..i], key, burst[0]);
      SpendInBurst(Found(config, before + burst[..i - 1], key, burst[0]), limit, at, i - 1);
    }
  }

  /**
    A key's first calls, whatever went on on other keys before: of those at one instant
    exactly the configured limit, rounded down, are allowed, and they come first.
   */
  lemma BurstUpToLimit(
    config: Config, before: seq<Call>, burst: seq<Call>, key: string, at: int, limit: real, window: real, i: nat)
    requires config.Valid() && Opening(before, key).None? && IsBurst(burst, key, at) && i < |burst|
    requires Allots(config, burst[0].tenant, limit, window)
    ensures DecisionFor(config, Run(config, before + burst[..i]), burst[i]).Allowed? <==> (i + 1) as real <= limit
  {
    assert config.LimitFor(burst[0].tenant) == limit > 0.0;
    BurstIsServed(config, before, burst, key, at, limit, window, i);
    OpeningOfBurst(before, burst, key, at, i + 1);
    OneMoreCall(before, burst, i);
    FoundAfterCall(config, before + burst[..i + 1], key, burst[0]);
    SpendInBurst(Found(config, before + burst[..i], key, burst[0]), limit, at, i);
  }

  lemma {:induction false} OpeningIsFirst(calls: seq<Call>, key: string, from: nat)
    requires from <= |calls|
    ensures Opening(calls[..from], key).Some? ==> Opening(calls, key) == Opening(calls[..from], key)
  {
    if from == |calls| {
      assert calls[..from] == calls;
    } else {
      assert calls[..|calls| - 1][..from] == calls[..from];
      OpeningIsFirst(calls[..|calls| - 1], key, from);
    }
  }

  // ----- Isolation -----

  function OnKey(calls: seq<Call>, key: string): seq<Call> {
    if calls == [] then []
    else
      var rest := OnKey(calls[..|calls| - 1], key);
      if KeyOf(calls[|calls| - 1]) == key then rest + [calls[|calls| - 1]] else rest
  }

  /** The decisions a run hands to the callers on `key`, in order. */
  function DecisionsOn(config: Config, calls: seq<Call>, key: string): seq<Decision>
    requires config.Valid()
  {
    if calls == [] then []
    else
      var before, call := calls[..|calls| - 1], calls[|calls| - 1];
      var rest := DecisionsOn(config, before, key);
      if KeyOf(call) == key then rest + [DecisionFor(config, Run(config, before), call)] else rest
  }

  /** What the readings of a run are: the calls on the key, no others, and a decision for each. */
  lemma {:induction false} OnKeyIsExact(config: Config, calls: seq<Call>, key: string)
    requires config.Valid()
    ensures forall call :: call in OnKey(calls, key) <==> call in calls && KeyOf(call) == key
    ensures |DecisionsOn(config, calls, key)| == |OnKey(calls, key)|
  {
    if calls != [] {
      var n := |calls| - 1;
      OnKeyIsExact(config, calls[..n], key);
      assert calls == calls[..n] + [calls[n]];
    }
  }

  ghost predicate IsAllowedAt(config: Config, calls: seq<Call>, key: string, from: int, i: int)
    requires config.Valid()
  {
    && from <= i && 0 <= i < |calls| && KeyOf(calls[i]) == key
    && DecisionFor(config, Run(config, calls[..i]), calls[i]).Allowed?
  }

  lemma {:induction false} AllowedIsNumber(config: Config, calls: seq<Call>, key: string, from: nat, n: nat)
    requires config.Valid() && n <= |calls|
    ensures AllowedSince(config, calls[..n], key, from) ==
            Number(n, (i: int) requires config.Valid() => IsAllowedAt(config, calls, key, from, i))
  {
    if n > 0 {
      AllowedIsNumber(config, calls, key, from, n - 1);
      assert calls[..n][..n - 1] == calls[..n - 1];
    }
  }

  /** The calls that `AllowedIsBounded` counts are all those on the key, from one index on, that were allowed. */
  lemma AllowedIsCounted(config: Config, calls: seq<Call>, key: string, from: nat)
    requires config.Valid()
    ensures AllowedSince(config, calls, key, from) ==
            |set i | 0 <= i < |calls| && IsAllowedAt(config, calls, key, from, i)|
  {
    var n := |calls|;
    assert calls[..n] == calls;
    AllowedIsNumber(config, calls, key, from, n);
    var allowed := (i: int) requires config.Valid() => IsAllowedAt(config, calls, key, from, i);
    NumberIsCardinality(n, allowed);
    assert (set i | 0 <= i < n && allowed(i)) == set i | 0 <= i < n && IsAllowedAt(config, calls, key, from, i);
  }

  /** Calls on other keys never change an outcome: deleting them all gives the same decisions. */
  lemma {:induction false} KeysAreIsolated(config: Config, calls: seq<Call>, key: string)
    requires config.Valid()
    ensures key in Run(config, calls) <==> key in Run(config, OnKey(calls, key))
    ensures key in Run(config, calls) ==> Run(config, calls)[key] == Run(config, OnKey(calls, key))[key]
    ensures DecisionsOn(config, calls, key) == DecisionsOn(config, OnKey(calls, key), key)
  {
    if calls != [] {
      var before, call := calls[..|calls| - 1], calls[|calls| - 1];
      KeysAreIsolated(config, before, key);
      if KeyOf(call) == key {
        var kept := OnKey(before, key);
        assert OnKey(calls, key)[..|kept|] == kept;
      }
    }
  }

  predicate SharesKey(tenant: string, actor: string, tenant': string, actor': string) {
    Key(tenant, actor) == Key(tenant', actor')
  }

  lemma SharedKeyNestsTenants(tenant: string, actor: string, tenant': string, actor': string)
    requires SharesKey(tenant, actor, tenant', actor') && |tenant| <= |tenant'|
    ensures (tenant == tenant' && actor == actor') || tenant + ":" <= tenant'
  {
    var k := Key(tenant, actor);
    assert k[..|tenant|] == tenant && k[..|tenant'|] == tenant';
    assert k[|tenant| + 1..] == actor && k[|tenant'| + 1..] == actor';
    assert k[..|tenant| + 1] == tenant + ":";
  }

  /**
    Two tenants can have callers with one bucket between them if and only if one tenant id
    is the other followed by a colon and more; ids without colons never collide.
   */
  lemma TenantsCollide(tenant: string, tenant': string)
    requires tenant != tenant'
    ensures (exists actor, actor' :: SharesKey(tenant, actor, tenant', actor'))
            <==> tenant + ":" <= tenant' || tenant' + ":" <= tenant
  {
    if actor, actor' :| SharesKey(tenant, actor, tenant', actor') {
      if |tenant| <= |tenant'| {
        SharedKeyNestsTenants(tenant, actor, tenant', actor');
      } else {
        SharedKeyNestsTenants(tenant', actor', tenant, actor);
      }
    }
    if tenant + ":" <= tenant' {
      assert SharesKey(tenant, tenant'[|tenant| + 1..] + ":", tenant', "");
    }
    if tenant' + ":" <= tenant {
      assert SharesKey(tenant, "", tenant', tenant[|tenant'| + 1..] + ":");
    }
  }

  predicate IsHexDigit(c: char) {
    '0' <= c <= '9' || 'a' <= c <= 'f' || 'A' <= c <= 'F'
  }

  /** `UUID_PATTERN`, which the HTTP path's tenant context insists on. */
  predicate IsUuid(text: string) {
    && |text| == 36
    && forall i :: 0 <= i < 36 ==>
         if i == 8 || i == 13 || i == 18 || i == 23 then text[i] == '-' else IsHexDigit(text[i])
  }

  /** So tenants whose requests come in over HTTP never collide. */
  lemma UuidTenantsAreApart(tenant: string, tenant': string)
    requires IsUuid(tenant) && IsUuid(tenant') && tenant != tenant'
    ensures !exists actor, actor' :: SharesKey(tenant, actor, tenant', actor')
  {
    TenantsCollide(tenant, tenant');
  }

  const EXAMPLE_UUID := "00000000-0000-4000-8000-00000000000a"

  /**
    The gRPC path passes on any tenant id.  There a caller who has made no call is denied,
    because a tenant with a UUID and the actor "client:x" has spent the only token of the
    bucket that tenant "<that UUID>:client" and actor "x" find.
   */
  lemma CollidingTenantIsDenied(config: Config, theirs: Call, mine: Call)
    requires config == Config(1.0, 60.0, map[]) && config.Valid()
    requires theirs == Call(EXAMPLE_UUID, "client:x", 0, 0) && mine == Call(EXAMPLE_UUID + ":client", "x", 0, 0)
    ensures IsUuid(theirs.tenant) && !IsUuid(mine.tenant)
    ensures DecisionFor(config, Run(config, []), mine).Allowed?
    ensures DecisionFor(config, Run(config, [theirs]), mine).Denied?
  {
    assert [theirs][..0] == [];
    assert KeyOf(mine) == EXAMPLE_UUID + (":client" + (":" + "x"));
    assert ":client" + (":" + "x") == ":" + "client:x";
    assert KeyOf(theirs) == KeyOf(mine);
  }

  // ----- retryAfterSeconds -----

  lemma NextRetryIsExact(config: Config, buckets: Buckets, first: Call, retry: Call)
    requires config.Valid() && ValidBuckets(buckets)
    requires KeyOf(retry) == KeyOf(first)
    requires DecisionFor(config, buckets, first).Denied?
    ensures ValidBuckets(After(config, buckets, first))
    ensures var s := DecisionFor(config, buckets, first).retryAfterSeconds;
            var waitedMs := retry.refilledAtMs - Refilled(config, buckets, first).lastRefillAtMs;
            var again := DecisionFor(config, After(config, buckets, first), retry);
            && s >= 1
            && (waitedMs >= 1000 * s ==> (again.Allowed? <==> Refilled(config, buckets, first).capacity >= 1.0))
            && (waitedMs <= 1000 * (s - 1) ==> again.Denied?)
  {
    RefilledIsValid(config, buckets, first);
    var b := Refilled(config, buckets, first);
    var s := DecisionFor(config, buckets, first).retryAfterSeconds;
    var waitedMs := retry.refilledAtMs - b.lastRefillAtMs;
    assert Refilled(config, After(config, buckets, first), retry) == Refill(b, retry.refilledAtMs);
    WaitingEarns(b.tokens, b.refillRatePerMs, s, waitedMs);
  }

  /** Calls on other keys leave a bucket alone. */
  lemma {:induction false} BucketRests(config: Config, calls: seq<Call>, key: string, i: nat, n: nat)
    requires config.Valid() && i <= n <= |calls|
    requires forall j :: i <= j < n ==> KeyOf(calls[j]) != key
    ensures key in Run(config, calls[..n]) <==> key in Run(config, calls[..i])
    ensures key in Run(config, calls[..i]) ==> Run(config, calls[..n])[key] == Run(config, calls[..i])[key]
  {
    if i < n {
      BucketRests(config, calls, key, i, n - 1);
      assert calls[..n][..n - 1] == calls[..n - 1];
    }
  }

  /** The latest reading that has refilled a key's bucket once the call is made. */
  function LatestReading(buckets: Buckets, call: Call): int {
    Max(call.refilledAtMs, if KeyOf(call) in buckets then buckets[KeyOf(call)].lastRefillAtMs else call.createdAtMs)
  }

  /**
    In any run, a caller is denied by call `i` and told to wait `s` seconds, and call `n` is
    the key's next, however many calls on other keys come in between.  Waiting `s` seconds
    from the latest reading the bucket has seen is enough exactly when the bucket can hold
    a whole token, and waiting at most `s - 1` seconds never is.
   */
  lemma RetryAfterIsExact(config: Config, calls: seq<Call>, i: nat, n: nat)
    requires config.Valid() && i < n < |calls| && KeyOf(calls[n]) == KeyOf(calls[i])
    requires forall j :: i < j < n ==> KeyOf(calls[j]) != KeyOf(calls[i])
    requires DecisionFor(config, Run(config, calls[..i]), calls[i]).Denied?
    ensures var buckets := Run(config, calls[..i]);
            var s := DecisionFor(config, buckets, calls[i]).retryAfterSeconds;
            var waitedMs := calls[n].refilledAtMs - LatestReading(buckets, calls[i]);
            var again := DecisionFor(config, Run(config, calls[..n]), calls[n]);
            && s >= 1
            && (waitedMs >= 1000 * s ==> (again.Allowed? <==> Refilled(config, buckets, calls[i]).capacity >= 1.0))
            && (waitedMs <= 1000 * (s - 1) ==> again.Denied?)
  {
    var buckets := Run(config, calls[..i]);
    assert calls[..i + 1][..i] == calls[..i];
    BucketRests(config, calls, KeyOf(calls[i]), i + 1, n);
    NextRetryIsExact(config, buckets, calls[i], calls[n]);
    assert Refilled(config, buckets, calls[i]).lastRefillAtMs == LatestReading(buckets, calls[i]);
  }

  lemma WaitingEarns(tokens: real, rate: real, s: int, waitedMs: int)
    requires rate > 0.0 && tokens < 1.0 && s == Ceil((1.0 - tokens) / rate / 1000.0)
    ensures s >= 1
    ensures waitedMs >= 1000 * s ==> tokens + Earned(waitedMs, rate) >= 1.0
    ensures waitedMs <= 1000 * (s - 1) ==> tokens + Earned(waitedMs, rate) < 1.0
  {
    var needed := (1.0 - tokens) / rate;
    assert needed * rate == 1.0 - tokens;
    assert needed > 0.0;
    if waitedMs >= 1000 * s {
      assert waitedMs as real >= 1000.0 * s as real >= needed;
      assert waitedMs as real * rate >= needed * rate;
    }
    if waitedMs <= 1000 * (s - 1) {
      assert waitedMs as real <= 1000.0 * (s - 1) as real < needed;
      assert waitedMs as real * rate < needed * rate;
    }
  }
}
