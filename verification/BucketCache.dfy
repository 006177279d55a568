/**
  The in-process limiter: a map from host to token bucket whose idle entries are evicted.

  Tokens are counted in units of which one request costs `cost`, and the clock in ticks, so
  that the refill per tick is the whole number `rate`.
 */
module BucketCache {
  import opened Arithmetic
  import opened Wrappers

  datatype Params = Params(rate: nat, cost: nat, burst: nat, ttl: nat)

  ghost predicate Valid(p: Params) { p.cost > 0 }

  function Capacity(p: Params): nat { p.burst * p.cost }

  // ----- The token bucket of golang.org/x/time/rate -----

  datatype Bucket = Bucket(tokens: int, last: int)

  function Full(p: Params, now: int): Bucket { Bucket(Capacity(p), now) }

  function Level(p: Params, b: Bucket, now: int): int {
    var elapsed := if now < b.last then 0 else now - b.last;
    var refilled := b.tokens + p.rate * elapsed;
    if refilled < Capacity(p) then refilled else Capacity(p)
  }

  /** `Allow`: a refused request leaves the bucket as it was. */
  function Take(p: Params, b: Bucket, now: int): (Bucket, bool) {
    var level := Level(p, b, now);
    if level >= p.cost then (Bucket(level - p.cost, now), true) else (b, false)
  }

  // ----- The map -----

  /** `ts` is the last time the entry was fetched. */
  datatype Entry = Entry(bucket: Bucket, ts: int)

  type Cache = map<string, Entry>

  function BucketFor(p: Params, m: Cache, host: string, now: int): Bucket {
    if host in m then m[host].bucket else Full(p, now)
  }

  function Serve(p: Params, m: Cache, host: string, now: int): (Cache, bool) {
    var (b, ok) := Take(p, BucketFor(p, m, host, now), now);
    (m[host := Entry(b, now)], ok)
  }

  predicate Idle(p: Params, e: Entry, now: int) { e.ts < now - p.ttl }

  function Evict(p: Params, m: Cache, now: int): Cache {
    map host | host in m && !Idle(p, m[host], now) :: m[host]
  }

  class Limiter {
    const p: Params
    var m: Cache

    constructor (p: Params)
      ensures this.p == p && m == map[]
    {
      this.p := p;
      m := map[];
    }

    /** Fetches or creates the host's bucket and stamps it. */
    method Get(host: string, now: int) returns (bucket: Bucket)
      modifies this
      ensures bucket == BucketFor(p, old(m), host, now)
      ensures m == old(m)[host := Entry(bucket, now)]
    {
      if host in m {
        bucket := m[host].bucket;
      } else {
        bucket := Full(p, now);
      }
      m := m[host := Entry(bucket, now)];
    }

    method Allow(host: string, now: int) returns (ok: bool)
      modifies this
      ensures (m, ok) == Serve(p, old(m), host, now)
    {
      var bucket := Get(host, now);
      var level := Level(p, bucket, now);
      ok := level >= p.cost;
      if ok {
        m := m[host := Entry(Bucket(level - p.cost, now), now)];
      }
      assert m == Serve(p, old(m), host, now).0;
    }

    method Cleanup(now: int)
      modifies this
      ensures m == Evict(p, old(m), now)
      ensures forall host :: host in m <==> host in old(m) && old(m)[host].ts >= now - p.ttl
      ensures forall host | host in m :: m[host] == old(m)[host]
    {
      var todo := m.Keys;
      while todo != {}
        invariant todo <= m.Keys <= old(m).Keys
        invariant forall host | host in m :: m[host] == old(m)[host]
        invariant forall host | host in m && host !in todo :: !Idle(p, m[host], now)
        invariant forall host | host in old(m) && host !in m :: Idle(p, old(m)[host], now)
        decreases todo
      {
        var host :| host in todo;
        todo := todo - {host};
        if m[host].ts < now - p.ttl {
          m := m - {host};
        }
      }
    }
  }

  // ----- Runs -----

  datatype Event = Request(host: string, at: int) | Cleanup(at: int)

  function Next(p: Params, m: Cache, e: Event): Cache {
    match e
    case Request(host, at) => Serve(p, m, host, at).0
    case Cleanup(at) => Evict(p, m, at)
  }

  function CacheAfter(p: Params, run: seq<Event>): Cache {
    if run == [] then map[]
    else
      var n := |run| - 1;
      Next(p, CacheAfter(p, run[..n]), run[n])
  }

  /** The decision on request `i`. */
  predicate Allowed(p: Params, run: seq<Event>, i: nat)
    requires i < |run| && run[i].Request?
  {
    Serve(p, CacheAfter(p, run[..i]), run[i].host, run[i].at).1
  }

  ghost predicate InTimeOrder(run: seq<Event>) {
    forall i, j | 0 <= i < j < |run| :: run[i].at <= run[j].at
  }

  /** The specification: a bucket of one's own, fed one's own request times, never evicted. */
  function OwnBucket(p: Params, times: seq<int>): Option<Bucket> {
    if times == [] then None
    else
      var n := |times| - 1;
      var before := OwnBucket(p, times[..n]);
      Some(Take(p, if before.Some? then before.value else Full(p, times[n]), times[n]).0)
  }

  predicate OwnAllowed(p: Params, times: seq<int>)
    requires times != []
  {
    var n := |times| - 1;
    var before := OwnBucket(p, times[..n]);
    Take(p, if before.Some? then before.value else Full(p, times[n]), times[n]).1
  }

  function TimesOf(run: seq<Event>, host: string): seq<int> {
    if run == [] then []
    else
      var n := |run| - 1;
      TimesOf(run[..n], host) + if run[n].Request? && run[n].host == host then [run[n].at] else []
  }

  /** Every request of every run in time order is decided as its host's own bucket decides. */
  ghost predicate Transparent(p: Params) {
    forall run: seq<Event>, i: nat | InTimeOrder(run) && i < |run| && run[i].Request? ::
      Allowed(p, run, i) == OwnAllowed(p, TimesOf(run[..i], run[i].host) + [run[i].at])
  }

  /** An idle time longer than `ttl` refills a bucket from empty. */
  predicate RefillsWhileIdle(p: Params) {
    p.rate * (p.ttl + 1) >= Capacity(p)
  }

  // ----- If idle buckets refill, eviction is invisible -----

  /** Two buckets that no request from `now` on can tell apart. */
  ghost predicate Same(p: Params, a: Bucket, b: Bucket, now: int) {
    forall t | t >= now :: Level(p, a, t) == Level(p, b, t)
  }

  lemma TakesAlike(p: Params, a: Bucket, b: Bucket, now: int)
    requires Valid(p) && Same(p, a, b, now)
    ensures Take(p, a, now).1 == Take(p, b, now).1
    ensures Same(p, Take(p, a, now).0, Take(p, b, now).0, now)
  {
    assert Level(p, a, now) == Level(p, b, now);
  }

  ghost predicate Sane(p: Params, b: Bucket, now: int) {
    0 <= b.tokens <= Capacity(p) && b.last <= now
  }

  lemma TakeIsSane(p: Params, b: Bucket, now: int)
    requires Valid(p) && Sane(p, b, now)
    ensures Sane(p, Take(p, b, now).0, now)
  {
    MulMonotone(p.rate, 0, now - b.last);
  }

  lemma IdleIsFull(p: Params, b: Bucket, seen: int, now: int)
    requires RefillsWhileIdle(p) && Sane(p, b, seen) && seen < now - p.ttl
    ensures forall t | t >= now :: Level(p, b, t) == Capacity(p)
  {
    forall t | t >= now ensures Level(p, b, t) == Capacity(p) {
      MulMonotone(p.rate, p.ttl + 1, t - b.last);
    }
  }

  lemma FullStaysFull(p: Params, now: int)
    ensures Sane(p, Full(p, now), now)
    ensures forall t | t >= now :: Level(p, Full(p, now), t) == Capacity(p)
  {
    forall t | t >= now ensures Level(p, Full(p, now), t) == Capacity(p) {
      MulMonotone(p.rate, 0, t - now);
    }
  }

  /** The cache at `now` answers for a host as that host's own bucket does. */
  ghost predicate Matches(p: Params, m: Cache, host: string, own: Option<Bucket>, now: int) {
    && (own.None? ==> host !in m)
    && (own.Some? && host !in m ==> forall t | t >= now :: Level(p, own.value, t) == Capacity(p))
    && (own.Some? ==> Sane(p, own.value, now))
    && (own.Some? && host in m ==> Same(p, m[host].bucket, own.value, now) && Sane(p, own.value, m[host].ts))
  }

  lemma ServeMatches(p: Params, m: Cache, host: string, own: Option<Bucket>, now: int)
    requires Valid(p) && Matches(p, m, host, own, now)
    ensures var mine := if own.Some? then own.value else Full(p, now);
            && Serve(p, m, host, now).1 == Take(p, mine, now).1
            && Matches(p, Serve(p, m, host, now).0, host, Some(Take(p, mine, now).0), now)
  {
    FullStaysFull(p, now);
    var mine := if own.Some? then own.value else Full(p, now);
    assert Same(p, BucketFor(p, m, host, now), mine, now);
    TakesAlike(p, BucketFor(p, m, host, now), mine, now);
    TakeIsSane(p, mine, now);
  }

  lemma EvictMatches(p: Params, m: Cache, host: string, own: Option<Bucket>, now: int)
    requires RefillsWhileIdle(p) && Matches(p, m, host, own, now)
    ensures Matches(p, Evict(p, m, now), host, own, now)
  {
    if host in m && own.Some? && Idle(p, m[host], now) {
      IdleIsFull(p, own.value, m[host].ts, now);
    }
  }

  lemma WaitMatches(p: Params, m: Cache, host: string, own: Option<Bucket>, now: int, later: int)
    requires Matches(p, m, host, own, now) && now <= later
    ensures Matches(p, m, host, own, later)
  {
  }

  lemma {:induction false} CacheMatches(p: Params, run: seq<Event>, host: string, now: int)
    requires Valid(p) && RefillsWhileIdle(p) && InTimeOrder(run)
    requires run != [] ==> run[|run| - 1].at <= now
    ensures Matches(p, CacheAfter(p, run), host, OwnBucket(p, TimesOf(run, host)), now)
  {
    if run != [] {
      var n := |run| - 1;
      var e, m, times := run[n], CacheAfter(p, run[..n]), TimesOf(run[..n], host);
      CacheMatches(p, run[..n], host, e.at);
      var own := OwnBucket(p, times);
      if e.Cleanup? {
        assert TimesOf(run, host) == times;
        EvictMatches(p, m, host, own, e.at);
      } else if e.host == host {
        assert (times + [e.at])[..|times|] == times;
        ServeMatches(p, m, host, own, e.at);
      } else {
        assert TimesOf(run, host) == times;
      }
      WaitMatches(p, CacheAfter(p, run), host, OwnBucket(p, TimesOf(run, host)), e.at, now);
    }
  }

  lemma DecisionIsOwn(p: Params, run: seq<Event>, host: string, now: int)
    requires Valid(p) && RefillsWhileIdle(p) && InTimeOrder(run)
    requires run != [] ==> run[|run| - 1].at <= now
    ensures Serve(p, CacheAfter(p, run), host, now).1 == OwnAllowed(p, TimesOf(run, host) + [now])
  {
    var times := TimesOf(run, host);
    CacheMatches(p, run, host, now);
    ServeMatches(p, CacheAfter(p, run), host, OwnBucket(p, times), now);
    assert (times + [now])[..|times|] == times;
  }

  /**
    If idle buckets refill, each decision is that of the host's own bucket: eviction is
    invisible, and hosts do not affect one another.
   */
  lemma RefillMakesEvictionInvisible(p: Params)
    requires Valid(p) && RefillsWhileIdle(p)
    ensures Transparent(p)
  {
    forall run: seq<Event>, i: nat | InTimeOrder(run) && i < |run| && run[i].Request?
      ensures Allowed(p, run, i) == OwnAllowed(p, TimesOf(run[..i], run[i].host) + [run[i].at])
    {
      DecisionIsOwn(p, run[..i], run[i].host, run[i].at);
    }
  }

  // ----- One more event -----

  lemma OneMore(p: Params, run: seq<Event>, e: Event, host: string)
    ensures CacheAfter(p, run + [e]) == Next(p, CacheAfter(p, run), e)
    ensures TimesOf(run + [e], host) == TimesOf(run, host) + if e.Request? && e.host == host then [e.at] else []
  {
    assert (run + [e])[..|run|] == run;
  }

  lemma OneMoreTime(p: Params, times: seq<int>, at: int)
    ensures var before := OwnBucket(p, times);
            var mine := if before.Some? then before.value else Full(p, at);
            && OwnBucket(p, times + [at]) == Some(Take(p, mine, at).0)
            && OwnAllowed(p, times + [at]) == Take(p, mine, at).1
  {
    assert (times + [at])[..|times|] == times;
  }

  lemma LaterStaysInOrder(run: seq<Event>, e: Event)
    requires InTimeOrder(run) && forall i | 0 <= i < |run| :: run[i].at <= e.at
    ensures InTimeOrder(run + [e]) && forall i | 0 <= i < |run + [e]| :: (run + [e])[i].at <= e.at
  {
  }

  // ----- The limit itself -----

  /** The requests of `host` that the limiter allows at times from `lo` to `hi`. */
  function ServedIn(p: Params, run: seq<Event>, host: string, lo: int, hi: int): nat {
    if run == [] then 0
    else
      var n := |run| - 1;
      var e := run[n];
      ServedIn(p, run[..n], host, lo, hi)
      + if e.Request? && e.host == host && lo <= e.at <= hi && Allowed(p, run, n) then 1 else 0
  }

  /** In any interval any host is allowed at most the capacity and the refill of the interval. */
  ghost predicate RateHolds(p: Params) {
    forall run: seq<Event>, host, lo, hi | InTimeOrder(run) && lo <= hi ::
      ServedIn(p, run, host, lo, hi) * p.cost <= Capacity(p) + p.rate * (hi - lo)
  }

  lemma LevelGrows(p: Params, b: Bucket, now: int, later: int)
    requires Sane(p, b, now) && now <= later
    ensures Level(p, b, later) <= Level(p, b, now) + p.rate * (later - now)
  {
    MulMonotone(p.rate, 0, later - now);
    assert p.rate * (later - b.last) == p.rate * (now - b.last) + p.rate * (later - now);
  }

  lemma TakeSpends(p: Params, b: Bucket, now: int, later: int)
    requires Valid(p) && Sane(p, b, now) && now <= later
    ensures var (b', ok) := Take(p, b, now);
            Level(p, b', later) + (if ok then p.cost else 0) <= Level(p, b, now) + p.rate * (later - now)
  {
    TakeIsSane(p, b, now);
    LevelGrows(p, Take(p, b, now).0, now, later);
    LevelGrows(p, b, now, later);
  }

  function OwnLevel(p: Params, own: Option<Bucket>, now: int): int {
    if own.Some? then Level(p, own.value, now) else Capacity(p)
  }

  /** The requests at `times` from `lo` to `hi` that a bucket of one's own allows. */
  function OwnServed(p: Params, times: seq<int>, lo: int, hi: int): nat {
    if times == [] then 0
    else
      var n := |times| - 1;
      OwnServed(p, times[..n], lo, hi) + if lo <= times[n] <= hi && OwnAllowed(p, times) then 1 else 0
  }

  ghost predicate Ordered(times: seq<int>) {
    forall i, j | 0 <= i < j < |times| :: times[i] <= times[j]
  }

  lemma {:induction false} OwnIsSane(p: Params, times: seq<int>)
    requires Valid(p) && Ordered(times)
    ensures times != [] ==> OwnBucket(p, times).Some? && Sane(p, OwnBucket(p, times).value, times[|times| - 1])
    ensures times == [] ==> OwnBucket(p, times).None?
  {
    if times != [] {
      var n := |times| - 1;
      OwnIsSane(p, times[..n]);
      var before := OwnBucket(p, times[..n]);
      FullStaysFull(p, times[n]);
      TakeIsSane(p, if before.Some? then before.value else Full(p, times[n]), times[n]);
    }
  }

  /** A request at `at` is paid for by what the bucket `mine` held then. */
  lemma OwnPays(p: Params, times: seq<int>, at: int, now: int)
    requires Valid(p) && Ordered(times) && (times != [] ==> times[|times| - 1] <= at) && at <= now
    ensures (if OwnAllowed(p, times + [at]) then p.cost else 0) + OwnLevel(p, OwnBucket(p, times + [at]), now)
            <= OwnLevel(p, OwnBucket(p, times), at) + p.rate * (now - at)
  {
    var own := OwnBucket(p, times);
    OwnIsSane(p, times);
    OneMoreTime(p, times, at);
    FullStaysFull(p, at);
    TakeSpends(p, if own.Some? then own.value else Full(p, at), at, now);
  }

  lemma {:induction false} NothingServedBefore(p: Params, times: seq<int>, lo: int, hi: int)
    requires Ordered(times) && (times != [] ==> times[|times| - 1] < lo)
    ensures OwnServed(p, times, lo, hi) == 0
  {
    if times != [] {
      NothingServedBefore(p, times[..|times| - 1], lo, hi);
    }
  }

  lemma OwnLevelIsCapped(p: Params, own: Option<Bucket>, lo: int, now: int)
    requires lo <= now
    ensures OwnLevel(p, own, now) <= Capacity(p) + p.rate * (now - lo)
  {
    MulMonotone(p.rate, 0, now - lo);
  }

  /** What has been allowed, in tokens, and what is left. */
  function Turnover(p: Params, times: seq<int>, lo: int, hi: int, now: int): int {
    OwnServed(p, times, lo, hi) * p.cost + OwnLevel(p, OwnBucket(p, times), now)
  }

  lemma OneMoreOwnServed(p: Params, times: seq<int>, at: int, lo: int, hi: int)
    requires lo <= at <= hi
    ensures OwnServed(p, times + [at], lo, hi) * p.cost
            == OwnServed(p, times, lo, hi) * p.cost + if OwnAllowed(p, times + [at]) then p.cost else 0
  {
    assert (times + [at])[..|times|] == times;
    Distribute(OwnServed(p, times, lo, hi), p.cost);
  }

  lemma Distribute(served: nat, cost: nat)
    ensures (served + 1) * cost == served * cost + cost
  {
  }

  lemma TurnoverGrows(p: Params, times: seq<int>, at: int, lo: int, hi: int, now: int)
    requires Valid(p) && Ordered(times) && (times != [] ==> times[|times| - 1] <= at) && lo <= at <= hi && at <= now
    ensures Turnover(p, times + [at], lo, hi, now) <= Turnover(p, times, lo, hi, at) + p.rate * (now - at)
  {
    OneMoreOwnServed(p, times, at, lo, hi);
    OwnPays(p, times, at, now);
  }

  /** A total that grows no faster than the refill stays within the capacity and the refill. */
  lemma SlowGrowth(p: Params, before: int, after: int, lo: int, at: int, now: int)
    requires before <= Capacity(p) + p.rate * (at - lo) && after <= before + p.rate * (now - at)
    ensures after <= Capacity(p) + p.rate * (now - lo)
  {
    assert p.rate * (now - lo) == p.rate * (at - lo) + p.rate * (now - at);
  }

  lemma TurnoverIsCapped(p: Params, times: seq<int>, lo: int, hi: int, now: int)
    requires Ordered(times) && (times != [] ==> times[|times| - 1] < lo) && lo <= now
    ensures Turnover(p, times, lo, hi, now) <= Capacity(p) + p.rate * (now - lo)
  {
    NothingServedBefore(p, times, lo, hi);
    OwnLevelIsCapped(p, OwnBucket(p, times), lo, now);
  }

  ghost predicate IsPaidFor(p: Params, times: seq<int>, lo: int, hi: int, now: int) {
    Turnover(p, times, lo, hi, now) <= Capacity(p) + p.rate * (now - lo)
  }

  lemma StaysPaidFor(p: Params, times: seq<int>, at: int, lo: int, hi: int, now: int)
    requires Valid(p) && Ordered(times) && (times != [] ==> times[|times| - 1] <= at) && lo <= at <= hi && at <= now
    requires IsPaidFor(p, times, lo, hi, at)
    ensures IsPaidFor(p, times + [at], lo, hi, now)
  {
    TurnoverGrows(p, times, at, lo, hi, now);
    SlowGrowth(p, Turnover(p, times, lo, hi, at), Turnover(p, times + [at], lo, hi, now), lo, at, now);
  }

  /** What has been allowed since `lo`, and what is left, never exceed the capacity and the refill since. */
  lemma {:induction false} OwnIsPaidFor(p: Params, times: seq<int>, lo: int, hi: int, now: int)
    requires Valid(p) && Ordered(times) && lo <= now <= hi && (times != [] ==> times[|times| - 1] <= now)
    ensures IsPaidFor(p, times, lo, hi, now)
  {
    if times == [] || times[|times| - 1] < lo {
      TurnoverIsCapped(p, times, lo, hi, now);
    } else {
      var front, at := times[..|times| - 1], times[|times| - 1];
      OwnIsPaidFor(p, front, lo, hi, at);
      StaysPaidFor(p, front, at, lo, hi, now);
      assert front + [at] == times;
    }
  }

  lemma {:induction false} LaterTimesDoNotCount(p: Params, times: seq<int>, k: nat, lo: int, hi: int)
    requires k <= |times| && forall i | k <= i < |times| :: times[i] > hi
    ensures OwnServed(p, times, lo, hi) == OwnServed(p, times[..k], lo, hi)
    decreases |times|
  {
    if k < |times| {
      var n := |times| - 1;
      assert times[..n][..k] == times[..k];
      LaterTimesDoNotCount(p, times[..n], k, lo, hi);
    } else {
      assert times[..k] == times;
    }
  }

  lemma UpTo(times: seq<int>, hi: int) returns (k: nat)
    requires Ordered(times)
    ensures k <= |times| && (k > 0 ==> times[k - 1] <= hi) && (forall i | k <= i < |times| :: times[i] > hi)
  {
    k := |times|;
    while k > 0 && times[k - 1] > hi
      invariant k <= |times|
      invariant forall i | k <= i < |times| :: times[i] > hi
    {
      k := k - 1;
    }
  }

  lemma LevelIsNotNegative(p: Params, b: Bucket, now: int)
    requires Sane(p, b, now)
    ensures Level(p, b, now) >= 0
  {
    MulMonotone(p.rate, 0, now - b.last);
  }

  /** A bucket of one's own keeps to the rate. */
  lemma OwnRateIsBounded(p: Params, times: seq<int>, lo: int, hi: int)
    requires Valid(p) && Ordered(times) && lo <= hi
    ensures OwnServed(p, times, lo, hi) * p.cost <= Capacity(p) + p.rate * (hi - lo)
  {
    var k := UpTo(times, hi);
    var seen := times[..k];
    LaterTimesDoNotCount(p, times, k, lo, hi);
    OwnIsPaidFor(p, seen, lo, hi, hi);
    OwnIsSane(p, seen);
    if seen != [] {
      LevelIsNotNegative(p, OwnBucket(p, seen).value, hi);
    }
  }

  lemma OneMoreServed(p: Params, run: seq<Event>, e: Event, host: string, lo: int, hi: int)
    ensures ServedIn(p, run + [e], host, lo, hi)
            == ServedIn(p, run, host, lo, hi)
               + if e.Request? && e.host == host && lo <= e.at <= hi && Serve(p, CacheAfter(p, run), host, e.at).1
                 then 1 else 0
  {
    assert (run + [e])[..|run|] == run;
  }

  lemma LastDecisionIsOwn(p: Params, run: seq<Event>, host: string, at: int)
    requires Transparent(p) && InTimeOrder(run + [Request(host, at)])
    ensures Serve(p, CacheAfter(p, run), host, at).1 == OwnAllowed(p, TimesOf(run, host) + [at])
  {
    var all, i := run + [Request(host, at)], |run|;
    assert all[..i] == run && all[i] == Request(host, at);
    assert Allowed(p, all, i) == OwnAllowed(p, TimesOf(all[..i], all[i].host) + [all[i].at]);
  }

  lemma OneMoreOwn(p: Params, times: seq<int>, at: int, lo: int, hi: int)
    ensures OwnServed(p, times + [at], lo, hi)
            == OwnServed(p, times, lo, hi) + if lo <= at <= hi && OwnAllowed(p, times + [at]) then 1 else 0
  {
    assert (times + [at])[..|times|] == times;
  }

  lemma OneMoreAsOwn(p: Params, run: seq<Event>, e: Event, host: string, lo: int, hi: int)
    requires Transparent(p) && InTimeOrder(run + [e])
    requires ServedIn(p, run, host, lo, hi) == OwnServed(p, TimesOf(run, host), lo, hi)
    ensures ServedIn(p, run + [e], host, lo, hi) == OwnServed(p, TimesOf(run + [e], host), lo, hi)
  {
    OneMoreServed(p, run, e, host, lo, hi);
    OneMore(p, run, e, host);
    if e.Request? && e.host == host {
      LastDecisionIsOwn(p, run, host, e.at);
      OneMoreOwn(p, TimesOf(run, host), e.at, lo, hi);
    } else {
      assert TimesOf(run, host) + [] == TimesOf(run, host);
    }
  }

  /** If eviction is invisible, the limiter allows a host the requests that the host's own bucket allows. */
  lemma {:induction false} ServedAsOwn(p: Params, run: seq<Event>, host: string, lo: int, hi: int)
    requires Transparent(p) && InTimeOrder(run)
    ensures ServedIn(p, run, host, lo, hi) == OwnServed(p, TimesOf(run, host), lo, hi)
  {
    if run != [] {
      var front, e := run[..|run| - 1], run[|run| - 1];
      assert run == front + [e];
      ServedAsOwn(p, front, host, lo, hi);
      OneMoreAsOwn(p, front, e, host, lo, hi);
    }
  }

  lemma {:induction false} TimesAreOrdered(run: seq<Event>, host: string)
    requires InTimeOrder(run)
    ensures Ordered(TimesOf(run, host))
    ensures run != [] ==> forall i | 0 <= i < |TimesOf(run, host)| :: TimesOf(run, host)[i] <= run[|run| - 1].at
  {
    if run != [] {
      TimesAreOrdered(run[..|run| - 1], host);
    }
  }

  lemma TransparentIsBounded(p: Params, run: seq<Event>, host: string, lo: int, hi: int)
    requires Valid(p) && Transparent(p) && InTimeOrder(run) && lo <= hi
    ensures ServedIn(p, run, host, lo, hi) * p.cost <= Capacity(p) + p.rate * (hi - lo)
  {
    ServedAsOwn(p, run, host, lo, hi);
    TimesAreOrdered(run, host);
    OwnRateIsBounded(p, TimesOf(run, host), lo, hi);
  }

  /** If idle buckets refill, then whatever the other hosts and the evictions do, the rate holds for every host. */
  lemma RateIsBounded(p: Params, run: seq<Event>, host: string, lo: int, hi: int)
    requires Valid(p) && RefillsWhileIdle(p) && InTimeOrder(run) && lo <= hi
    ensures ServedIn(p, run, host, lo, hi) * p.cost <= p.burst * p.cost + p.rate * (hi - lo)
  {
    RefillMakesEvictionInvisible(p);
    TransparentIsBounded(p, run, host, lo, hi);
  }

  // ----- Which requests are allowed -----

  /** The level after waiting, exactly. */
  lemma LevelWaits(p: Params, b: Bucket, now: int, later: int)
    requires Sane(p, b, now) && now <= later
    ensures Level(p, b, later) == Least(Level(p, b, now) + p.rate * (later - now), Capacity(p))
  {
    MulMonotone(p.rate, 0, later - now);
    assert p.rate * (later - b.last) == p.rate * (now - b.last) + p.rate * (later - now);
  }

  /** A clock that goes back adds nothing and takes nothing. */
  lemma ClockGoesBack(p: Params, b: Bucket, now: int)
    requires now <= b.last && b.tokens <= Capacity(p)
    ensures Level(p, b, now) == b.tokens
  {
  }

  /** What a request spends, it spends exactly; a refused one spends nothing. */
  lemma OwnSpends(p: Params, times: seq<int>, at: int, now: int)
    requires Valid(p) && Ordered(times) && (times != [] ==> times[|times| - 1] <= at) && at <= now
    ensures var left := OwnLevel(p, OwnBucket(p, times), at) - (if OwnAllowed(p, times + [at]) then p.cost else 0);
            OwnLevel(p, OwnBucket(p, times + [at]), now) == Least(left + p.rate * (now - at), Capacity(p))
  {
    var own := OwnBucket(p, times);
    var mine := if own.Some? then own.value else Full(p, at);
    OwnIsSane(p, times);
    OneMoreTime(p, times, at);
    FullStaysFull(p, at);
    TakeIsExact(p, mine, at);
    TakeIsSane(p, mine, at);
    LevelWaits(p, Take(p, mine, at).0, at, now);
  }

  lemma TakeIsExact(p: Params, b: Bucket, now: int)
    requires Valid(p) && Sane(p, b, now)
    ensures var (b', ok) := Take(p, b, now); Level(p, b', now) == Level(p, b, now) - if ok then p.cost else 0
  {
    MulMonotone(p.rate, 0, now - b.last);
  }

  /** Since `lo`, what was allowed and what is left make up at least the whole capacity and refill. */
  ghost predicate SpentInFull(p: Params, times: seq<int>, lo: int, hi: int, now: int) {
    Turnover(p, times, lo, hi, now) >= p.burst * p.cost + p.rate * (now - lo)
  }

  lemma FullAgain(p: Params, times: seq<int>, hi: int, now: int)
    requires OwnLevel(p, OwnBucket(p, times), now) == Capacity(p)
    ensures SpentInFull(p, times, now, hi, now)
  {
    MulMonotone(p.cost, 0, OwnServed(p, times, now, hi));
  }

  lemma StaysSpentInFull(p: Params, times: seq<int>, at: int, lo: int, hi: int, now: int)
    requires Valid(p) && Ordered(times) && (times != [] ==> times[|times| - 1] <= at)
    requires lo <= at <= hi && at <= now && SpentInFull(p, times, lo, hi, at)
    ensures OwnLevel(p, OwnBucket(p, times + [at]), now) == Capacity(p) || SpentInFull(p, times + [at], lo, hi, now)
  {
    OneMoreOwnServed(p, times, at, lo, hi);
    OwnSpends(p, times, at, now);
    CarriesOver(p, OwnServed(p, times, lo, hi) * p.cost, OwnServed(p, times + [at], lo, hi) * p.cost,
                OwnLevel(p, OwnBucket(p, times), at), OwnLevel(p, OwnBucket(p, times + [at]), now), lo, at, now);
  }

  /** Tokens that were spent and left at `at`, and spent and left at `now`. */
  lemma CarriesOver(p: Params, spent: int, spent': int, left: int, left': int, lo: int, at: int, now: int)
    requires spent + left >= Capacity(p) + p.rate * (at - lo)
    requires left' == Least(left - (spent' - spent) + p.rate * (now - at), Capacity(p))
    ensures left' == Capacity(p) || spent' + left' >= Capacity(p) + p.rate * (now - lo)
  {
    assert p.rate * (now - lo) == p.rate * (at - lo) + p.rate * (now - at);
  }

  /** There is such a moment: the last one at which the bucket was full. */
  lemma {:induction false} LastFull(p: Params, times: seq<int>, hi: int, now: int) returns (lo: int)
    requires Valid(p) && Ordered(times) && now <= hi && (times != [] ==> times[|times| - 1] <= now)
    ensures lo <= now && SpentInFull(p, times, lo, hi, now)
  {
    if times == [] {
      lo := now;
      FullAgain(p, times, hi, now);
    } else {
      var front, at := times[..|times| - 1], times[|times| - 1];
      assert times == front + [at];
      lo := LastFull(p, front, hi, at);
      lo := NextFull(p, front, at, lo, hi, now);
    }
  }

  lemma NextFull(p: Params, times: seq<int>, at: int, lo: int, hi: int, now: int) returns (next: int)
    requires Valid(p) && Ordered(times) && (times != [] ==> times[|times| - 1] <= at)
    requires lo <= at <= hi && at <= now && SpentInFull(p, times, lo, hi, at)
    ensures next <= now && SpentInFull(p, times + [at], next, hi, now)
  {
    next := lo;
    StaysSpentInFull(p, times, at, lo, hi, now);
    if !SpentInFull(p, times + [at], lo, hi, now) {
      next := now;
      FullAgain(p, times + [at], hi, now);
    }
  }

  /** One more request than `served` fits into the interval from `lo` to `at`. */
  predicate Fits(p: Params, served: nat, lo: int, at: int) {
    (served + 1) * p.cost <= p.burst * p.cost + p.rate * (at - lo)
  }

  /** One more request fits into every interval that ends now. */
  ghost predicate FitsEverywhere(p: Params, run: seq<Event>, host: string, at: int) {
    forall lo | lo <= at :: Fits(p, ServedIn(p, run, host, lo, at), lo, at)
  }

  lemma OwnAllowsIffLevel(p: Params, times: seq<int>, at: int)
    requires Ordered(times) && (times != [] ==> times[|times| - 1] <= at)
    ensures OwnAllowed(p, times + [at]) <==> OwnLevel(p, OwnBucket(p, times), at) >= p.cost
  {
    OneMoreTime(p, times, at);
    MulMonotone(p.rate, 0, at - at);
  }

  lemma FittingHasLevel(p: Params, times: seq<int>, at: int, lo: int)
    requires Valid(p) && Ordered(times) && lo <= at && SpentInFull(p, times, lo, at, at)
    requires Fits(p, OwnServed(p, times, lo, at), lo, at)
    ensures OwnLevel(p, OwnBucket(p, times), at) >= p.cost
  {
    Distribute(OwnServed(p, times, lo, at), p.cost);
  }

  lemma LevelFits(p: Params, times: seq<int>, at: int, lo: int)
    requires Valid(p) && Ordered(times) && lo <= at && (times != [] ==> times[|times| - 1] <= at)
    requires OwnLevel(p, OwnBucket(p, times), at) >= p.cost
    ensures Fits(p, OwnServed(p, times, lo, at), lo, at)
  {
    OwnIsPaidFor(p, times, lo, at, at);
    Distribute(OwnServed(p, times, lo, at), p.cost);
  }

  ghost predicate OwnFitsEverywhere(p: Params, times: seq<int>, at: int) {
    forall lo | lo <= at :: Fits(p, OwnServed(p, times, lo, at), lo, at)
  }

  lemma EnoughFitsEverywhere(p: Params, times: seq<int>, at: int)
    requires Valid(p) && Ordered(times) && (times != [] ==> times[|times| - 1] <= at)
    requires OwnLevel(p, OwnBucket(p, times), at) >= p.cost
    ensures OwnFitsEverywhere(p, times, at)
  {
    forall lo | lo <= at ensures Fits(p, OwnServed(p, times, lo, at), lo, at) {
      LevelFits(p, times, at, lo);
    }
  }

  lemma WhatFitsIsEnough(p: Params, times: seq<int>, at: int)
    requires Valid(p) && Ordered(times) && (times != [] ==> times[|times| - 1] <= at)
    requires OwnFitsEverywhere(p, times, at)
    ensures OwnLevel(p, OwnBucket(p, times), at) >= p.cost
  {
    var lo := LastFull(p, times, at, at);
    FittingHasLevel(p, times, at, lo);
  }

  lemma OwnAllowedIffFits(p: Params, times: seq<int>, at: int)
    requires Valid(p) && Ordered(times) && (times != [] ==> times[|times| - 1] <= at)
    ensures OwnAllowed(p, times + [at]) <==> OwnFitsEverywhere(p, times, at)
  {
    OwnAllowsIffLevel(p, times, at);
    if OwnLevel(p, OwnBucket(p, times), at) >= p.cost {
      EnoughFitsEverywhere(p, times, at);
    } else if OwnFitsEverywhere(p, times, at) {
      WhatFitsIsEnough(p, times, at);
    }
  }

  lemma FitsAsOwn(p: Params, run: seq<Event>, host: string, at: int)
    requires Transparent(p) && InTimeOrder(run)
    ensures FitsEverywhere(p, run, host, at) <==> OwnFitsEverywhere(p, TimesOf(run, host), at)
  {
    forall lo ensures ServedIn(p, run, host, lo, at) == OwnServed(p, TimesOf(run, host), lo, at) {
      ServedAsOwn(p, run, host, lo, at);
    }
  }

  lemma PrefixInOrder(run: seq<Event>, e: Event)
    requires InTimeOrder(run + [e])
    ensures InTimeOrder(run) && forall i | 0 <= i < |run| :: run[i].at <= e.at
  {
    var all := run + [e];
    assert forall i | 0 <= i < |run| :: all[i] == run[i] && all[i].at <= all[|run|].at;
  }

  /** A request is allowed exactly if, with it, no interval ending now exceeds the capacity and the refill. */
  lemma AllowedIffFits(p: Params, run: seq<Event>, host: string, at: int)
    requires Valid(p) && Transparent(p) && InTimeOrder(run + [Request(host, at)])
    ensures Serve(p, CacheAfter(p, run), host, at).1 <==> FitsEverywhere(p, run, host, at)
  {
    LastDecisionIsOwn(p, run, host, at);
    PrefixInOrder(run, Request(host, at));
    TimesAreOrdered(run, host);
    OwnAllowedIffFits(p, TimesOf(run, host), at);
    FitsAsOwn(p, run, host, at);
  }

  /** In every run each request is allowed exactly if it fits everywhere beside the earlier allowed ones. */
  ghost predicate AllowsWhatFits(p: Params) {
    forall run: seq<Event>, i: nat | InTimeOrder(run) && i < |run| && run[i].Request? ::
      Allowed(p, run, i) <==> FitsEverywhere(p, run[..i], run[i].host, run[i].at)
  }

  // ----- If they do not refill, some run shows it -----

  /** With enough for `k` requests in the bucket, taking one leaves enough for `k - 1`. */
  lemma TakeOneOf(p: Params, b: Bucket, at: int, k: nat)
    requires Valid(p) && k > 0 && k <= p.burst && b == Bucket(k * p.cost, at)
    ensures Take(p, b, at) == (Bucket((k - 1) * p.cost, at), true)
  {
    MulMonotone(p.cost, k, p.burst);
    MulMonotone(p.cost, 1, k);
  }

  /** Less than full and the entry to show for it. */
  predicate Holds(p: Params, m: Cache, host: string, at: int, left: nat) {
    if host in m then m[host] == Entry(Bucket(left * p.cost, at), at) else left == p.burst
  }

  /** A host with `left` requests' worth in its bucket is served once more. */
  lemma ServesOne(p: Params, m: Cache, host: string, at: int, left: nat)
    requires Valid(p) && 0 < left <= p.burst && Holds(p, m, host, at, left)
    ensures Serve(p, m, host, at) == (m[host := Entry(Bucket((left - 1) * p.cost, at), at)], true)
  {
    TakeOneOf(p, Bucket(left * p.cost, at), at, left);
  }

  /** `all` is `run` with `n` more requests of `host` at `at`, all served from a new bucket. */
  ghost predicate DrainedBy(p: Params, run: seq<Event>, all: seq<Event>, host: string, at: int, n: nat, lo: int,
                            hi: int)
  {
    && n <= p.burst
    && InTimeOrder(all) && (forall i | 0 <= i < |all| :: all[i].at <= at)
    && ServedIn(p, all, host, lo, hi) == ServedIn(p, run, host, lo, hi) + n
    && Holds(p, CacheAfter(p, all), host, at, p.burst - n)
    && CacheAfter(p, all).Keys <= CacheAfter(p, run).Keys + {host}
  }

  lemma OneMoreDrained(p: Params, run: seq<Event>, front: seq<Event>, host: string, at: int, n: nat, lo: int, hi: int)
    requires Valid(p) && n < p.burst && lo <= at <= hi && DrainedBy(p, run, front, host, at, n, lo, hi)
    ensures DrainedBy(p, run, front + [Request(host, at)], host, at, n + 1, lo, hi)
  {
    OneMore(p, front, Request(host, at), host);
    OneMoreServed(p, front, Request(host, at), host, lo, hi);
    LaterStaysInOrder(front, Request(host, at));
    ServesOne(p, CacheAfter(p, front), host, at, p.burst - n);
  }

  lemma {:induction false} Drain(p: Params, run: seq<Event>, host: string, at: int, n: nat, lo: int, hi: int)
    returns (all: seq<Event>)
    requires Valid(p) && host !in CacheAfter(p, run) && n <= p.burst && lo <= at <= hi
    requires InTimeOrder(run) && forall i | 0 <= i < |run| :: run[i].at <= at
    ensures DrainedBy(p, run, all, host, at, n, lo, hi)
  {
    if n == 0 {
      all := run;
    } else {
      var front := Drain(p, run, host, at, n - 1, lo, hi);
      OneMoreDrained(p, run, front, host, at, n - 1, lo, hi);
      all := front + [Request(host, at)];
    }
  }

  /** An entry that is `ttl + 1` ticks old is evicted. */
  lemma EvictsOld(p: Params, m: Cache, host: string, left: nat)
    requires m.Keys <= {host} && Holds(p, m, host, 0, left)
    ensures Evict(p, m, p.ttl + 1) == map[]
  {
    assert forall h | h in m :: h == host && Idle(p, m[h], p.ttl + 1);
  }

  /** After `front`, within `ttl + 1` ticks, `host` is served for the `2 * burst`-th time. */
  ghost predicate UsedTwice(p: Params, front: seq<Event>, host: string) {
    && InTimeOrder(front) && (forall i | 0 <= i < |front| :: front[i].at <= p.ttl + 1)
    && ServedIn(p, front, host, 0, p.ttl + 1) + 1 == 2 * p.burst
    && Serve(p, CacheAfter(p, front), host, p.ttl + 1).1
  }

  /** Drain a bucket, wait for its eviction, and drain the next one but for its last request. */
  lemma DrainedTwice(p: Params, host: string) returns (front: seq<Event>)
    requires Valid(p) && p.burst > 0
    ensures UsedTwice(p, front, host)
  {
    var later := p.ttl + 1;
    var first := Drain(p, [], host, 0, p.burst, 0, later);
    var waited := first + [Cleanup(later)];
    OneMore(p, first, Cleanup(later), host);
    OneMoreServed(p, first, Cleanup(later), host, 0, later);
    LaterStaysInOrder(first, Cleanup(later));
    EvictsOld(p, CacheAfter(p, first), host, 0);
    front := Drain(p, waited, host, later, p.burst - 1, 0, later);
    ServesOne(p, CacheAfter(p, front), host, later, 1);
  }

  lemma SomeBurst(p: Params)
    requires !RefillsWhileIdle(p)
    ensures p.burst > 0
  {
  }

  lemma TwiceIsTooMuch(p: Params)
    requires !RefillsWhileIdle(p)
    ensures (2 * p.burst) * p.cost > Capacity(p) + p.rate * (p.ttl + 1)
  {
    assert (2 * p.burst) * p.cost == Capacity(p) + Capacity(p);
  }

  lemma DrainedExceeds(p: Params, front: seq<Event>, host: string)
    requires !RefillsWhileIdle(p) && UsedTwice(p, front, host)
    ensures !RateHolds(p)
  {
    var e, later := Request(host, p.ttl + 1), p.ttl + 1;
    OneMoreServed(p, front, e, host, 0, later);
    LaterStaysInOrder(front, e);
    TwiceIsTooMuch(p);
    Exceeds(p, front + [e], host, later, 2 * p.burst);
  }

  lemma Exceeds(p: Params, run: seq<Event>, host: string, hi: int, served: nat)
    requires 0 <= hi && InTimeOrder(run) && ServedIn(p, run, host, 0, hi) == served
    requires served * p.cost > Capacity(p) + p.rate * hi
    ensures !RateHolds(p)
  {
    assert hi - 0 == hi;
  }

  lemma Misfits(p: Params, run: seq<Event>, host: string, at: int, total: nat)
    requires 0 <= at && ServedIn(p, run, host, 0, at) + 1 == total
    requires total * p.cost > p.burst * p.cost + p.rate * at
    ensures !FitsEverywhere(p, run, host, at)
  {
    assert at - 0 == at;
  }

  lemma MisfitShows(p: Params, front: seq<Event>, host: string, at: int)
    requires InTimeOrder(front) && forall i | 0 <= i < |front| :: front[i].at <= at
    requires Serve(p, CacheAfter(p, front), host, at).1 && !FitsEverywhere(p, front, host, at)
    ensures !AllowsWhatFits(p)
  {
    var run, i := front + [Request(host, at)], |front|;
    assert run[..i] == front && run[i] == Request(host, at);
    assert InTimeOrder(run);
    assert Allowed(p, run, i) && !FitsEverywhere(p, run[..i], run[i].host, run[i].at);
  }

  lemma LastMisfits(p: Params, front: seq<Event>, host: string)
    requires !RefillsWhileIdle(p) && UsedTwice(p, front, host)
    ensures !AllowsWhatFits(p)
  {
    TwiceIsTooMuch(p);
    Misfits(p, front, host, p.ttl + 1, 2 * p.burst);
    MisfitShows(p, front, host, p.ttl + 1);
  }

  // ----- When buckets refill -----

  lemma TransparentHoldsRate(p: Params)
    requires Valid(p) && Transparent(p)
    ensures RateHolds(p)
  {
    forall run: seq<Event>, host, lo, hi | InTimeOrder(run) && lo <= hi
      ensures ServedIn(p, run, host, lo, hi) * p.cost <= Capacity(p) + p.rate * (hi - lo)
    {
      TransparentIsBounded(p, run, host, lo, hi);
    }
  }

  /** The limiter keeps to its rate in every run, for every host and interval, exactly when idle buckets refill. */
  lemma RateIsBoundedIff(p: Params)
    requires Valid(p)
    ensures RateHolds(p) <==> RefillsWhileIdle(p)
  {
    if RefillsWhileIdle(p) {
      RefillMakesEvictionInvisible(p);
      TransparentHoldsRate(p);
    } else {
      SomeBurst(p);
      var front := DrainedTwice(p, "h");
      DrainedExceeds(p, front, "h");
    }
  }

  /** Eviction is invisible exactly when an idle bucket refills within the time to live. */
  lemma EvictionInvisibleIff(p: Params)
    requires Valid(p)
    ensures Transparent(p) <==> RefillsWhileIdle(p)
  {
    if RefillsWhileIdle(p) {
      RefillMakesEvictionInvisible(p);
    } else if Transparent(p) {
      TransparentHoldsRate(p);
      RateIsBoundedIff(p);
    }
  }

  lemma DecisionFits(p: Params, run: seq<Event>, i: nat)
    requires Valid(p) && Transparent(p) && InTimeOrder(run) && i < |run| && run[i].Request?
    ensures Allowed(p, run, i) <==> FitsEverywhere(p, run[..i], run[i].host, run[i].at)
  {
    assert run[..i] + [Request(run[i].host, run[i].at)] == run[..i + 1];
    AllowedIffFits(p, run[..i], run[i].host, run[i].at);
  }

  lemma TransparentAllowsWhatFits(p: Params)
    requires Valid(p) && Transparent(p)
    ensures AllowsWhatFits(p)
  {
    forall run: seq<Event>, i: nat | InTimeOrder(run) && i < |run| && run[i].Request?
      ensures Allowed(p, run, i) <==> FitsEverywhere(p, run[..i], run[i].host, run[i].at)
    {
      DecisionFits(p, run, i);
    }
  }

  /**
    The decisions of the limiter, by the earlier decisions alone: it allows what fits into the
    rate in every interval, and nothing else, exactly when idle buckets refill.
   */
  lemma AllowsWhatFitsIff(p: Params)
    requires Valid(p)
    ensures AllowsWhatFits(p) <==> RefillsWhileIdle(p)
  {
    if RefillsWhileIdle(p) {
      RefillMakesEvictionInvisible(p);
      TransparentAllowsWhatFits(p);
    } else {
      SomeBurst(p);
      var front := DrainedTwice(p, "h");
      LastMisfits(p, front, "h");
    }
  }
}
