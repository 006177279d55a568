/**
  The fixed-key counters in Redis behind the request limiter and the login limiter.  Every
  counted request increments its key's counter and then sets the expiry anew, in one
  transaction.  Clock readings and windows are in milliseconds.
 */
module RedisCounters {
  import opened Wrappers

  /** `expiresAt` is None for a key without expiry. */
  datatype Counter = Counter(count: int, expiresAt: Option<int>)

  type Keys = map<string, Counter>

  predicate Alive(m: Keys, key: string, now: int) {
    key in m && (m[key].expiresAt.Some? ==> now <= m[key].expiresAt.value)
  }

  function Value(m: Keys, key: string, now: int): int {
    if Alive(m, key, now) then m[key].count else 0
  }

  /** INCR keeps the expiry of a live key and creates a dead one afresh. */
  function Incr(m: Keys, key: string, now: int): Keys {
    if Alive(m, key, now) then m[key := m[key].(count := m[key].count + 1)] else m[key := Counter(1, None)]
  }

  /** EXPIRE with a time to live that is not positive deletes the key. */
  function Expire(m: Keys, key: string, ttl: int, now: int): Keys {
    if !Alive(m, key, now) then m
    else if ttl <= 0 then m - {key}
    else m[key := m[key].(expiresAt := Some(now + ttl))]
  }

  /** TTL in whole seconds, rounded; -2 for no key and -1 for no expiry. */
  function Ttl(m: Keys, key: string, now: int): int {
    if !Alive(m, key, now) then -2
    else if m[key].expiresAt.None? then -1
    else (m[key].expiresAt.value - now + 500) / 1000
  }

  /** The pipeline of one counted request. */
  function Hit(m: Keys, key: string, window: int, now: int): Keys {
    Expire(Incr(m, key, now), key, window, now)
  }

  class Redis {
    var keys: Keys

    constructor ()
      ensures keys == map[]
    {
      keys := map[];
    }

    method Increment(key: string, now: int) returns (n: int)
      modifies this
      ensures keys == Incr(old(keys), key, now) && n == keys[key].count
    {
      var found := if Alive(keys, key, now) then keys[key] else Counter(0, None);
      n := found.count + 1;
      keys := keys[key := Counter(n, found.expiresAt)];
    }

    method SetExpiry(key: string, ttl: int, now: int)
      modifies this
      ensures keys == Expire(old(keys), key, ttl, now)
    {
      if Alive(keys, key, now) {
        if ttl <= 0 {
          keys := keys - {key};
        } else {
          keys := keys[key := Counter(keys[key].count, Some(now + ttl))];
        }
      }
    }
  }

  /** How a pipeline fares: it may fail before or after the server ran it, and its counter then reads as 0. */
  datatype Link = Up | Down | ReplyLost

  class RedisLimiter {
    const rdb: Redis
    const limit: int
    const window: int

    constructor (rdb: Redis, limit: int, window: int)
      ensures this.rdb == rdb && this.limit == limit && this.window == window
    {
      this.rdb, this.limit, this.window := rdb, limit, window;
    }

    /** `Middleware`; `exempt` says that the client address is in the allowed network. */
    method Serve(client: string, exempt: bool, now: int, link: Link) returns (served: bool)
      modifies rdb
      ensures exempt ==> served
      ensures rdb.keys == if exempt || link.Down? then old(rdb.keys)
                          else Hit(old(rdb.keys), "rl:" + client, window, now)
      ensures !exempt && link.Up? ==> (served <==> Value(old(rdb.keys), "rl:" + client, now) + 1 <= limit)
      ensures !exempt && !link.Up? ==> (served <==> 0 <= limit)
    {
      if exempt { return true; }
      var n := 0;
      if !link.Down? {
        n := rdb.Increment("rl:" + client, now);
        rdb.SetExpiry("rl:" + client, window, now);
      }
      return (if link.Up? then n else 0) <= limit;
    }
  }

  class Brute {
    const rdb: Redis
    const limit: int
    const window: int

    constructor (rdb: Redis, limit: int, window: int)
      ensures this.rdb == rdb && this.limit == limit && this.window == window
    {
      this.rdb, this.limit, this.window := rdb, limit, window;
    }

    /**
      `Allow`; `later` is the clock at the TTL command, which may fail too.  A refused caller
      is told the whole window again, less the time between the two commands.
     */
    method Allow(client: string, now: int, later: int, link: Link, ttlOk: bool)
      returns (ok: bool, remaining: int, ttl: int)
      requires now <= later
      modifies rdb
      ensures rdb.keys == if link.Down? then old(rdb.keys) else Hit(old(rdb.keys), "brute:" + client, window, now)
      ensures var n := if link.Up? then Value(old(rdb.keys), "brute:" + client, now) + 1 else 0;
              (ok <==> n <= limit) && remaining == if ok then limit - n else 0
      ensures ok || !ttlOk ==> ttl == 0
      ensures !ok && ttlOk && !link.Down? ==>
                ttl == if window > 0 && later <= now + window then (now + window - later + 500) / 1000 else -2
      ensures !ok && ttlOk && link.Down? ==> ttl == Ttl(rdb.keys, "brute:" + client, later)
    {
      var key, n := "brute:" + client, 0;
      if !link.Down? {
        n := rdb.Increment(key, now);
        rdb.SetExpiry(key, window, now);
      }
      if !link.Up? { n := 0; }
      if n <= limit { return true, limit - n, 0; }
      ttl := if ttlOk then Ttl(rdb.keys, key, later) else 0;
      return false, 0, ttl;
    }
  }

  // ----- Runs -----

  /** An arrival under `key`; the allowed network may exempt it, and its pipeline may fail. */
  datatype Arrival = Arrival(key: string, at: int, exempt: bool, link: Link)

  /** The arrival reaches the counter. */
  predicate Counts(a: Arrival) { !a.exempt && !a.link.Down? }

  /** The arrival is judged by what it read from the counter. */
  predicate Judged(a: Arrival) { !a.exempt && a.link.Up? }

  function After(arrivals: seq<Arrival>, window: int): Keys {
    if arrivals == [] then map[]
    else
      var n := |arrivals| - 1;
      var a := arrivals[n];
      if Counts(a) then Hit(After(arrivals[..n], window), a.key, window, a.at) else After(arrivals[..n], window)
  }

  /** The counter value that arrival `i` gets back from INCR. */
  function CountAt(arrivals: seq<Arrival>, window: int, i: nat): int
    requires i < |arrivals|
  {
    Value(After(arrivals[..i], window), arrivals[i].key, arrivals[i].at) + 1
  }

  predicate Served(arrivals: seq<Arrival>, window: int, limit: int, i: nat)
    requires i < |arrivals|
  {
    arrivals[i].exempt || (if arrivals[i].link.Up? then CountAt(arrivals, window, i) else 0) <= limit
  }

  ghost predicate InTimeOrder(arrivals: seq<Arrival>) {
    forall i, j | 0 <= i < j < |arrivals| :: arrivals[i].at <= arrivals[j].at
  }

  /** The times of the counted arrivals of one key. */
  function TimesOf(arrivals: seq<Arrival>, key: string): seq<int> {
    if arrivals == [] then []
    else
      var n := |arrivals| - 1;
      var a := arrivals[n];
      TimesOf(arrivals[..n], key) + if Counts(a) && a.key == key then [a.at] else []
  }

  // ----- The history scan -----

  /** Two consecutive requests of a key so far apart that the counter expires between them. */
  predicate Apart(earlier: int, later: int, window: int) {
    window <= 0 || later - earlier > window
  }

  /** Request `s` starts the burst that request `n - 1` belongs to. */
  ghost predicate StartsBurst(ts: seq<int>, s: nat, window: int) {
    && s < |ts|
    && (s == 0 || Apart(ts[s - 1], ts[s], window))
    && (forall j | s < j < |ts| :: !Apart(ts[j - 1], ts[j], window))
  }

  lemma BurstStartIsUnique(ts: seq<int>, s: nat, r: nat, window: int)
    requires StartsBurst(ts, s, window) && StartsBurst(ts, r, window)
    ensures s == r
  {
  }

  function BurstStart(ts: seq<int>, window: int): (s: nat)
    requires ts != []
    ensures StartsBurst(ts, s, window)
  {
    var n := |ts| - 1;
    if n == 0 || Apart(ts[n - 1], ts[n], window) then n
    else
      BurstStart(ts[..n], window)
  }

  /** What the counter of a key with history `ts` stands at, and when it expires. */
  ghost predicate Tracks(m: Keys, key: string, ts: seq<int>, window: int) {
    if ts == [] || window <= 0 then key !in m
    else key in m && m[key] == Counter(|ts| - BurstStart(ts, window), Some(ts[|ts| - 1] + window))
  }

  /** One more request of the key. */
  lemma HitTracks(m: Keys, key: string, ts: seq<int>, at: int, window: int)
    requires Tracks(m, key, ts, window)
    requires ts != [] ==> ts[|ts| - 1] <= at
    ensures Tracks(Hit(m, key, window, at), key, ts + [at], window)
    ensures Value(m, key, at) + 1 == |ts| + 1 - BurstStart(ts + [at], window)
    ensures Value(m, key, at) >= 0
  {
    assert (ts + [at])[..|ts|] == ts;
  }

  lemma HitOfOtherKey(m: Keys, other: string, at: int, key: string, window: int)
    requires key != other
    ensures var m' := Hit(m, other, window, at); (key in m' <==> key in m) && (key in m ==> m'[key] == m[key])
  {
  }

  /** The last time of a key is the time of one of the arrivals. */
  lemma {:induction false} LastTime(arrivals: seq<Arrival>, key: string) returns (i: nat)
    requires TimesOf(arrivals, key) != []
    ensures i < |arrivals| && arrivals[i].at == TimesOf(arrivals, key)[|TimesOf(arrivals, key)| - 1]
  {
    var n := |arrivals| - 1;
    if Counts(arrivals[n]) && arrivals[n].key == key {
      i := n;
    } else {
      assert TimesOf(arrivals, key) == TimesOf(arrivals[..n], key);
      i := LastTime(arrivals[..n], key);
    }
  }

  lemma LastTimeBefore(arrivals: seq<Arrival>, key: string)
    requires InTimeOrder(arrivals) && arrivals != []
    ensures var n := |arrivals| - 1; var ts := TimesOf(arrivals[..n], key);
            ts != [] ==> ts[|ts| - 1] <= arrivals[n].at
  {
    var n := |arrivals| - 1;
    if TimesOf(arrivals[..n], key) != [] {
      var i := LastTime(arrivals[..n], key);
    }
  }

  lemma {:induction false} CounterTracksHistory(arrivals: seq<Arrival>, window: int, key: string)
    requires InTimeOrder(arrivals)
    ensures Tracks(After(arrivals, window), key, TimesOf(arrivals, key), window)
  {
    if arrivals != [] {
      var n := |arrivals| - 1;
      var a, m, ts := arrivals[n], After(arrivals[..n], window), TimesOf(arrivals[..n], key);
      CounterTracksHistory(arrivals[..n], window, key);
      if Counts(a) && a.key == key {
        LastTimeBefore(arrivals, key);
        HitTracks(m, key, ts, a.at, window);
      } else {
        assert TimesOf(arrivals, key) == ts;
        if Counts(a) {
          HitOfOtherKey(m, a.key, a.at, key, window);
        }
        var m' := After(arrivals, window);
        assert (key in m' <==> key in m) && (key in m ==> m'[key] == m[key]);
      }
    }
  }

  /**
    The value a request gets equals the length of its burst: the number of its key's requests,
    itself included, since the last gap longer than the window.  It is served exactly if that
    is within the limit; or, if the reply was lost, as if it were the first.
   */
  lemma CountIsBurstLength(arrivals: seq<Arrival>, window: int, i: nat, s: nat)
    requires InTimeOrder(arrivals) && i < |arrivals| && Counts(arrivals[i])
    requires StartsBurst(TimesOf(arrivals[..i + 1], arrivals[i].key), s, window)
    ensures CountAt(arrivals, window, i) == |TimesOf(arrivals[..i + 1], arrivals[i].key)| - s
    ensures forall limit | arrivals[i].link.Up? ::
              Served(arrivals, window, limit, i) <==> |TimesOf(arrivals[..i + 1], arrivals[i].key)| - s <= limit
    ensures forall limit | !arrivals[i].link.Up? :: Served(arrivals, window, limit, i) <==> 0 <= limit
  {
    var key, front, all := arrivals[i].key, arrivals[..i], arrivals[..i + 1];
    CounterTracksHistory(front, window, key);
    LastTimeBefore(all, key);
    assert all[..i] == front;
    var ts := TimesOf(front, key);
    HitTracks(After(front, window), key, ts, arrivals[i].at, window);
    assert TimesOf(all, key) == ts + [arrivals[i].at];
    BurstStartIsUnique(TimesOf(all, key), s, BurstStart(TimesOf(all, key), window), window);
  }

  // ----- What it means for clients -----

  /** The requests of `key` served at times from `lo` to `hi`, judged by the counter. */
  function ServedBetween(arrivals: seq<Arrival>, window: int, limit: int, key: string, lo: int, hi: int): nat {
    if arrivals == [] then 0
    else
      var n := |arrivals| - 1;
      var a := arrivals[n];
      ServedBetween(arrivals[..n], window, limit, key, lo, hi)
      + if Judged(a) && a.key == key && lo <= a.at <= hi && Served(arrivals, window, limit, n) then 1 else 0
  }

  predicate CountedSince(arrivals: seq<Arrival>, key: string, lo: int) {
    var ts := TimesOf(arrivals, key);
    ts != [] && ts[|ts| - 1] >= lo
  }

  lemma CountedArrival(arrivals: seq<Arrival>, window: int, key: string)
    requires window > 0 && arrivals != []
    requires var a := arrivals[|arrivals| - 1]; Counts(a) && a.key == key
    ensures var n := |arrivals| - 1;
            key in After(arrivals, window) && After(arrivals, window)[key].count == CountAt(arrivals, window, n)
  {
  }

  /** A counter that some arrival since `lo` touched is still alive within the window. */
  lemma CounterAlive(arrivals: seq<Arrival>, window: int, key: string, lo: int, now: int)
    requires InTimeOrder(arrivals) && window > 0 && CountedSince(arrivals, key, lo) && now <= lo + window
    ensures var m := After(arrivals, window); key in m && Value(m, key, now) == m[key].count
  {
    CounterTracksHistory(arrivals, window, key);
  }

  lemma {:induction false} ServedBelowCounter(arrivals: seq<Arrival>, window: int, limit: int, key: string, lo: int)
    requires InTimeOrder(arrivals) && window > 0
    requires forall i | 0 <= i < |arrivals| :: arrivals[i].at <= lo + window
    ensures var served := ServedBetween(arrivals, window, limit, key, lo, lo + window);
            && served <= (if limit < 0 then 0 else limit)
            && (served > 0 ==> CountedSince(arrivals, key, lo))
            && (served > 0 ==> key in After(arrivals, window) && served <= After(arrivals, window)[key].count)
  {
    if arrivals != [] {
      var n := |arrivals| - 1;
      var a, front := arrivals[n], arrivals[..n];
      var served := ServedBetween(front, window, limit, key, lo, lo + window);
      ServedBelowCounter(front, window, limit, key, lo);
      if Counts(a) && a.key == key {
        CountedArrival(arrivals, window, key);
        LastTimeBefore(arrivals, key);
        CounterTracksHistory(front, window, key);
        HitTracks(After(front, window), key, TimesOf(front, key), a.at, window);
        if served > 0 {
          CounterAlive(front, window, key, lo, a.at);
        }
        assert TimesOf(arrivals, key) == TimesOf(front, key) + [a.at];
      } else {
        assert TimesOf(arrivals, key) == TimesOf(front, key);
        assert served > 0 ==> After(arrivals, window)[key] == After(front, window)[key];
      }
    }
  }

  lemma {:induction false} LaterArrivalsDoNotCount(arrivals: seq<Arrival>, k: nat, window: int, limit: int, key: string,
                                                   lo: int, hi: int)
    requires k <= |arrivals| && forall j | k <= j < |arrivals| :: arrivals[j].at > hi
    ensures ServedBetween(arrivals, window, limit, key, lo, hi)
            == ServedBetween(arrivals[..k], window, limit, key, lo, hi)
    decreases |arrivals|
  {
    if k < |arrivals| {
      var n := |arrivals| - 1;
      assert arrivals[..n][..k] == arrivals[..k];
      LaterArrivalsDoNotCount(arrivals[..n], k, window, limit, key, lo, hi);
    } else {
      assert arrivals[..k] == arrivals;
    }
  }

  /**
    No interval as long as the window admits more than `limit` requests of a key, apart from
    exempt ones and ones whose pipeline failed.
   */
  lemma WindowAdmitsAtMostLimit(arrivals: seq<Arrival>, window: int, limit: int, key: string, lo: int)
    requires InTimeOrder(arrivals) && window > 0
    ensures ServedBetween(arrivals, window, limit, key, lo, lo + window) <= (if limit < 0 then 0 else limit)
  {
    var k := |arrivals|;
    while k > 0 && arrivals[k - 1].at > lo + window
      invariant 0 <= k <= |arrivals|
      invariant forall j | k <= j < |arrivals| :: arrivals[j].at > lo + window
    {
      k := k - 1;
    }
    LaterArrivalsDoNotCount(arrivals, k, window, limit, key, lo, lo + window);
    forall i | 0 <= i < k ensures arrivals[..k][i].at <= lo + window {
      assert i < k - 1 ==> arrivals[i].at <= arrivals[k - 1].at;
    }
    ServedBelowCounter(arrivals[..k], window, limit, key, lo);
  }

  lemma {:induction false} TimesGrow(arrivals: seq<Arrival>, i: nat, key: string)
    requires i <= |arrivals|
    ensures var p, q := TimesOf(arrivals[..i], key), TimesOf(arrivals, key);
            |p| <= |q| && q[..|p|] == p
    decreases |arrivals|
  {
    if i == |arrivals| {
      assert arrivals[..i] == arrivals;
    } else {
      var n := |arrivals| - 1;
      assert arrivals[..n][..i] == arrivals[..i];
      TimesGrow(arrivals[..n], i, key);
    }
  }

  /**
    A refused client that keeps trying stays refused: after a refusal, every later request of
    the key is refused until two consecutive ones are further apart than the window.
   */
  lemma RefusalLastsThroughTheBurst(arrivals: seq<Arrival>, window: int, limit: int, i: nat, j: nat, s: nat)
    requires InTimeOrder(arrivals) && i < j < |arrivals|
    requires Judged(arrivals[i]) && Judged(arrivals[j]) && arrivals[i].key == arrivals[j].key
    requires StartsBurst(TimesOf(arrivals[..j + 1], arrivals[j].key), s, window)
    requires s < |TimesOf(arrivals[..i + 1], arrivals[j].key)|
    requires !Served(arrivals, window, limit, i)
    ensures !Served(arrivals, window, limit, j)
  {
    var key := arrivals[j].key;
    var p, q := TimesOf(arrivals[..i + 1], key), TimesOf(arrivals[..j + 1], key);
    assert arrivals[..j + 1][..i + 1] == arrivals[..i + 1];
    TimesGrow(arrivals[..j + 1], i + 1, key);
    assert forall x | 0 <= x < |p| :: p[x] == q[x];
    assert StartsBurst(p, s, window);
    CountIsBurstLength(arrivals, window, i, s);
    CountIsBurstLength(arrivals, window, j, s);
  }
}
