/** The per-address token bucket of `internal/network/udp_listener.go`. */
module TokenBucket {
  import opened Basics

  const MAX_IDLE: int := 60 * SECOND

  datatype Bucket = Bucket(tokens: real, last: int)

  datatype Config = Config(rate: real, capacity: real)

  datatype Request = Request(ip: string, at: int)

  type Table = map<string, Bucket>

  /** Tokens earned in `ns` nanoseconds. */
  function Earned(c: Config, ns: int): real {
    ns as real / SECOND as real * c.rate
  }

  function Refill(c: Config, b: Bucket, now: int): Bucket {
    if now > b.last then
      var sum := b.tokens + Earned(c, now - b.last);
      Bucket(if sum > c.capacity then c.capacity else sum, now)
    else b
  }

  /** The bucket that answers a request, before it pays for the packet. */
  function Current(c: Config, t: Table, ip: string, now: int): Bucket {
    if ip in t then Refill(c, t[ip], now) else Bucket(c.capacity, now)
  }

  predicate Admits(c: Config, t: Table, ip: string, now: int) {
    Current(c, t, ip, now).tokens >= 1.0
  }

  function Serve(c: Config, t: Table, ip: string, now: int): Table {
    var b := Current(c, t, ip, now);
    t[ip := if b.tokens >= 1.0 then b.(tokens := b.tokens - 1.0) else b]
  }

  function Tidy(t: Table, now: int): Table {
    map ip | ip in t && now - t[ip].last <= MAX_IDLE :: t[ip]
  }

  /** The table and the time of the last cleaning, None when it was never set. */
  datatype Limiter = Limiter(table: Table, lastClean: Option<int>) {
    function Cleaned(now: int): Limiter {
      if lastClean.None? || now < lastClean.value then Limiter(table, Some(now))
      else if now - lastClean.value >= MAX_IDLE then Limiter(Tidy(table, now), Some(now))
      else this
    }

    function After(c: Config, r: Request): Limiter {
      var l := Cleaned(r.at);
      l.(table := Serve(c, l.table, r.ip, r.at))
    }
  }

  class IPRateLimiter {
    var buckets: Table
    const config: Config
    var lastClean: Option<int>

    constructor (rate: real, capacity: real, now: int)
      ensures Value() == Limiter(map[], Some(now)) && config == Config(rate, capacity)
    {
      buckets, config, lastClean := map[], Config(rate, capacity), Some(now);
    }

    function Value(): Limiter
      reads this
    {
      Limiter(buckets, lastClean)
    }

    method Allow(ip: string, now: int) returns (ok: bool)
      modifies this
      ensures ok == Admits(config, old(Value().Cleaned(now)).table, ip, now)
      ensures Value() == old(Value()).After(config, Request(ip, now))
      ensures var due := old(lastClean).Some? && now - old(lastClean).value >= 60_000_000_000;
        && buckets.Keys == {ip} + set a | a in old(buckets) && (due ==> now - old(buckets)[a].last <= 60_000_000_000)
        && forall a :: a in buckets && a != ip ==> buckets[a] == old(buckets)[a]
    {
      if lastClean.None? || now < lastClean.value {
        lastClean := Some(now);
      } else if now - lastClean.value >= MAX_IDLE {
        Cleanup(now);
      }
      var b: Bucket;
      if ip !in buckets {
        b := Bucket(config.capacity, now);
      } else {
        b := buckets[ip];
        if now > b.last {
          var tokens := b.tokens + Earned(config, now - b.last);
          if tokens > config.capacity {
            tokens := config.capacity;
          }
          b := Bucket(tokens, now);
        }
      }
      ok := b.tokens >= 1.0;
      if ok {
        b := b.(tokens := b.tokens - 1.0);
      }
      buckets := buckets[ip := b];
    }

    method Cleanup(now: int)
      modifies this
      ensures Value() == Limiter(Tidy(old(buckets), now), Some(now))
      ensures forall a :: a in buckets <==> a in old(buckets) && now - old(buckets)[a].last <= 60_000_000_000
    {
      lastClean := Some(now);
      var left := buckets.Keys;
      while left != {}
        invariant left <= old(buckets).Keys && lastClean == Some(now)
        invariant buckets == map ip | ip in old(buckets) && (ip in left || now - old(buckets)[ip].last <= MAX_IDLE) ::
                old(buckets)[ip]
        decreases left
      {
        var ip :| ip in left;
        if now - buckets[ip].last > MAX_IDLE {
          buckets := buckets - {ip};
        }
        left := left - {ip};
      }
    }
  }

  // ---- Runs ----

  function Decide(c: Config, l: Limiter, run: seq<Request>): (r: seq<bool>)
    ensures |r| == |run|
    decreases |run|
  {
    if run == [] then []
    else [Admits(c, l.Cleaned(run[0].at).table, run[0].ip, run[0].at)] + Decide(c, l.After(c, run[0]), run[1..])
  }

  /** The decisions of a limiter that never cleans. */
  function DecidePlain(c: Config, t: Table, run: seq<Request>): (r: seq<bool>)
    ensures |r| == |run|
    decreases |run|
  {
    if run == [] then []
    else [Admits(c, t, run[0].ip, run[0].at)] + DecidePlain(c, Serve(c, t, run[0].ip, run[0].at), run[1..])
  }

  predicate Ordered(run: seq<Request>, from: int) {
    run == [] || (run[0].at >= from && Ordered(run[1..], run[0].at))
  }

  /** The packets of `ip` admitted at times in [a, b]. */
  function Admitted(run: seq<Request>, ok: seq<bool>, ip: string, a: int, b: int): nat
    requires |run| == |ok|
  {
    if run == [] then 0
    else (if ok[0] && run[0].ip == ip && a <= run[0].at <= b then 1 else 0) + Admitted(run[1..], ok[1..], ip, a, b)
  }

  // ---- Cleaning changes no decision ----

  /** An idle bucket that cleaning may drop has had time to fill up. */
  predicate Recovers(c: Config) {
    Earned(c, MAX_IDLE + 1) >= c.capacity
  }

  predicate Healthy(c: Config, t: Table, now: int) {
    forall ip :: ip in t ==> 0.0 <= t[ip].tokens <= c.capacity && t[ip].last <= now
  }

  /** `t` is `full` without some buckets that are full again at `now`. */
  predicate Shadows(c: Config, t: Table, full: Table, now: int) {
    && (forall ip :: ip in t ==> ip in full && t[ip] == full[ip])
    && (forall ip :: ip in full && ip !in t ==>
          full[ip].last < now && full[ip].tokens + Earned(c, now - full[ip].last) >= c.capacity)
  }

  lemma EarnedMonotone(c: Config, m: int, n: int)
    requires c.rate >= 0.0 && m <= n
    ensures Earned(c, m) <= Earned(c, n)
    ensures Earned(c, n) - Earned(c, m) == Earned(c, n - m)
  {
    var p, q := m as real / SECOND as real, n as real / SECOND as real;
    assert (n - m) as real / SECOND as real == q - p;
    assert q * c.rate - p * c.rate == (q - p) * c.rate;
    assert (q - p) * c.rate >= 0.0;
  }

  lemma ShadowCurrent(c: Config, t: Table, full: Table, now: int, ip: string, at: int)
    requires c.rate >= 0.0 && Shadows(c, t, full, now) && now <= at
    ensures Current(c, t, ip, at) == Current(c, full, ip, at)
  {
    hide Earned;
    if ip in full && ip !in t {
      EarnedMonotone(c, now - full[ip].last, at - full[ip].last);
    }
  }

  lemma ShadowLater(c: Config, t: Table, full: Table, now: int, at: int)
    requires c.rate >= 0.0 && Shadows(c, t, full, now) && now <= at
    ensures Shadows(c, t, full, at)
  {
    hide Earned;
    forall ip | ip in full && ip !in t
      ensures full[ip].tokens + Earned(c, at - full[ip].last) >= c.capacity
    {
      EarnedMonotone(c, now - full[ip].last, at - full[ip].last);
    }
  }

  lemma ShadowTidy(c: Config, t: Table, full: Table, now: int)
    requires c.rate >= 0.0 && Recovers(c) && Healthy(c, full, now) && Shadows(c, t, full, now)
    ensures Shadows(c, Tidy(t, now), full, now)
  {
    hide Earned;
    forall ip | ip in t && ip !in Tidy(t, now)
      ensures full[ip].tokens + Earned(c, now - full[ip].last) >= c.capacity
    {
      EarnedMonotone(c, MAX_IDLE + 1, now - full[ip].last);
    }
  }

  lemma ServeHealthy(c: Config, t: Table, now: int, ip: string, at: int)
    requires c.rate >= 0.0 && c.capacity >= 0.0 && Healthy(c, t, now) && now <= at
    ensures Healthy(c, Serve(c, t, ip, at), at)
    ensures 0.0 <= Current(c, t, ip, at).tokens <= c.capacity
  {
    hide Earned;
    if ip in t {
      EarnedMonotone(c, 0, at - t[ip].last);
      assert Earned(c, 0) == 0.0 by { ZeroEarned(c); }
    }
  }

  lemma ZeroEarned(c: Config)
    ensures Earned(c, 0) == 0.0
  {
  }

  lemma {:induction false} CleaningChangesNothing(c: Config, l: Limiter, full: Table, run: seq<Request>, now: int)
    requires c.rate >= 0.0 && c.capacity >= 0.0 && Recovers(c)
    requires Healthy(c, full, now) && Shadows(c, l.table, full, now) && Ordered(run, now)
    ensures Decide(c, l, run) == DecidePlain(c, full, run)
    decreases |run|
  {
    hide Earned, Recovers, Serve, Current;
    if run != [] {
      var r := run[0];
      var t := l.Cleaned(r.at).table;
      ShadowLater(c, l.table, full, now, r.at);
      assert Healthy(c, full, r.at);
      ShadowTidy(c, l.table, full, r.at);
      ShadowCurrent(c, t, full, r.at, r.ip, r.at);
      ShadowServe(c, t, full, r.at, r.ip);
      ServeHealthy(c, full, now, r.ip, r.at);
      CleaningChangesNothing(c, l.After(c, r), Serve(c, full, r.ip, r.at), run[1..], r.at);
    }
  }

  lemma ShadowServe(c: Config, t: Table, full: Table, now: int, ip: string)
    requires Shadows(c, t, full, now) && Current(c, t, ip, now) == Current(c, full, ip, now)
    ensures Shadows(c, Serve(c, t, ip, now), Serve(c, full, ip, now), now)
  {
    hide Earned, Current;
  }

  // ---- The bound ----

  /** What can still be admitted in [a, b], seen from `now`. */
  function Allowance(c: Config, t: Table, ip: string, now: int, a: int, b: int): real {
    if b < now then 0.0
    else if now < a then c.capacity + Earned(c, b - a)
    else Current(c, t, ip, now).tokens + Earned(c, b - now)
  }

  lemma CurrentGrows(c: Config, t: Table, ip: string, now: int, at: int)
    requires c.rate >= 0.0 && c.capacity >= 0.0 && Healthy(c, t, now) && now <= at
    ensures Current(c, t, ip, at).tokens <= Current(c, t, ip, now).tokens + Earned(c, at - now)
  {
    hide Earned;
    ZeroEarned(c);
    EarnedMonotone(c, 0, at - now);
    if ip in t {
      EarnedMonotone(c, now - t[ip].last, at - t[ip].last);
    }
  }

  lemma ServeLevels(c: Config, t: Table, ip: string, at: int, other: string)
    ensures Current(c, Serve(c, t, ip, at), other, at).tokens
         == Current(c, t, other, at).tokens - (if other == ip && Admits(c, t, ip, at) then 1.0 else 0.0)
  {
    hide Earned;
  }

  lemma AllowanceStep(c: Config, t: Table, ip: string, now: int, a: int, b: int, r: Request)
    requires c.rate >= 0.0 && c.capacity >= 0.0 && Healthy(c, t, now) && now <= r.at && a <= b
    ensures Allowance(c, Serve(c, t, r.ip, r.at), ip, r.at, a, b)
              + (if Admits(c, t, r.ip, r.at) && r.ip == ip && a <= r.at <= b then 1.0 else 0.0)
         <= Allowance(c, t, ip, now, a, b)
  {
    hide Earned, Current, Serve;
    ZeroEarned(c);
    ServeLevels(c, t, r.ip, r.at, ip);
    ServeHealthy(c, t, now, ip, r.at);
    ServeHealthy(c, t, now, ip, now);
    EarnedMonotone(c, 0, b - a);
    if r.at <= b {
      CurrentGrows(c, t, ip, now, r.at);
      EarnedMonotone(c, b - r.at, b - now);
      if a <= r.at {
        EarnedMonotone(c, b - r.at, b - a);
      }
    } else if now <= b {
      EarnedMonotone(c, 0, b - now);
    }
  }

  lemma {:induction false} PlainBound(c: Config, t: Table, run: seq<Request>, now: int, ip: string, a: int, b: int)
    requires c.rate >= 0.0 && c.capacity >= 0.0 && Healthy(c, t, now) && Ordered(run, now) && a <= b
    ensures Admitted(run, DecidePlain(c, t, run), ip, a, b) as real <= Allowance(c, t, ip, now, a, b)
    decreases |run|
  {
    hide Earned, Current, Serve, Admits, Allowance;
    if run == [] {
      AllowanceNonNegative(c, t, ip, now, a, b);
    } else {
      var r := run[0];
      ServeHealthy(c, t, now, r.ip, r.at);
      AllowanceStep(c, t, ip, now, a, b, r);
      PlainBound(c, Serve(c, t, r.ip, r.at), run[1..], r.at, ip, a, b);
    }
  }

  lemma AllowanceNonNegative(c: Config, t: Table, ip: string, now: int, a: int, b: int)
    requires c.rate >= 0.0 && c.capacity >= 0.0 && Healthy(c, t, now) && a <= b
    ensures Allowance(c, t, ip, now, a, b) >= 0.0
  {
    hide Earned;
    ZeroEarned(c);
    ServeHealthy(c, t, now, ip, now);
    EarnedMonotone(c, 0, b - a);
    if now <= b {
      EarnedMonotone(c, 0, b - now);
    }
  }

  /** A fresh limiter on an ordered run admits at most capacity + rate * (b - a) packets of one address in [a, b]. */
  lemma AdmitsAtMost(c: Config, lastClean: Option<int>, run: seq<Request>, start: int, ip: string, a: int, b: int)
    requires c.rate >= 0.0 && c.capacity >= 0.0 && Recovers(c) && Ordered(run, start) && a <= b
    ensures Decide(c, Limiter(map[], lastClean), run) == DecidePlain(c, map[], run)
    ensures Admitted(run, Decide(c, Limiter(map[], lastClean), run), ip, a, b) as real
            <= c.capacity + (b - a) as real * c.rate / 1_000_000_000.0
  {
    EarnedIs(c, b - a);
    hide Earned, Decide, DecidePlain, Admitted, Recovers;
    var early := if start < a then start else a - 1;
    OrderedFrom(run, start, early);
    CleaningChangesNothing(c, Limiter(map[], lastClean), map[], run, early);
    PlainBound(c, map[], run, early, ip, a, b);
  }

  lemma OrderedFrom(run: seq<Request>, start: int, early: int)
    requires Ordered(run, start) && early <= start
    ensures Ordered(run, early)
  {
  }

  // ---- Refusals are forced ----

  /** The packets of `ip` admitted among the first `k`, from time `a` on. */
  ghost function Since(run: seq<Request>, ok: seq<bool>, k: nat, ip: string, a: int): set<nat>
    requires k <= |run| == |ok|
  {
    set i: nat | i < k && ok[i] && run[i].ip == ip && run[i].at >= a
  }

  /** What a bucket would hold at `at` had it been full at `a`; any real bucket holds the least of these. */
  ghost function FullSince(c: Config, run: seq<Request>, ok: seq<bool>, k: nat, ip: string, a: int, at: int): real
    requires k <= |run| == |ok|
  {
    c.capacity + Earned(c, at - a) - |Since(run, ok, k, ip, a)| as real
  }

  ghost predicate Least(c: Config, run: seq<Request>, ok: seq<bool>, k: nat, ip: string, tokens: real, at: int)
    requires k <= |run| == |ok|
  {
    && (forall a :: a <= at ==> tokens <= FullSince(c, run, ok, k, ip, a, at))
    && (exists a :: a <= at && tokens == FullSince(c, run, ok, k, ip, a, at))
  }

  ghost predicate Explained(c: Config, t: Table, run: seq<Request>, ok: seq<bool>, k: nat, ip: string)
    requires k <= |run| == |ok|
  {
    if ip !in t then forall i :: 0 <= i < k ==> run[i].ip != ip
    else
      && (forall i :: 0 <= i < k && run[i].ip == ip ==> run[i].at <= t[ip].last)
      && Least(c, run, ok, k, ip, t[ip].tokens, t[ip].last)
  }

  lemma NoneSince(c: Config, run: seq<Request>, ok: seq<bool>, k: nat, ip: string, a: int, at: int)
    requires k <= |run| == |ok| && forall i :: 0 <= i < k && run[i].ip == ip ==> run[i].at < a
    ensures FullSince(c, run, ok, k, ip, a, at) == c.capacity + Earned(c, at - a)
  {
    assert Since(run, ok, k, ip, a) == {};
  }

  lemma FullLater(c: Config, run: seq<Request>, ok: seq<bool>, k: nat, ip: string, a: int, last: int, at: int)
    requires k <= |run| == |ok| && c.rate >= 0.0 && a <= last <= at
    ensures FullSince(c, run, ok, k, ip, a, at) == FullSince(c, run, ok, k, ip, a, last) + Earned(c, at - last)
  {
    hide Earned;
    EarnedMonotone(c, last - a, at - a);
  }

  lemma CurrentIsLeast(c: Config, t: Table, run: seq<Request>, ok: seq<bool>, k: nat, ip: string, now: int, at: int)
    requires k <= |run| == |ok| && c.rate >= 0.0 && c.capacity >= 0.0 && Healthy(c, t, now) && now <= at
    requires Explained(c, t, run, ok, k, ip)
    ensures Least(c, run, ok, k, ip, Current(c, t, ip, at).tokens, at)
  {
    hide Earned, FullSince;
    var tokens := Current(c, t, ip, at).tokens;
    var last := if ip in t then t[ip].last else now - 1;
    ServeHealthy(c, t, now, ip, at);
    forall a | a <= at
      ensures tokens <= FullSince(c, run, ok, k, ip, a, at)
    {
      if ip in t && a <= last {
        FullLater(c, run, ok, k, ip, a, last, at);
        RefillAtMost(c, t[ip], at);
      } else {
        NoneSince(c, run, ok, k, ip, a, at);
        ZeroEarned(c);
        EarnedMonotone(c, 0, at - a);
      }
    }
    if tokens == c.capacity && (ip in t ==> last < at) {
      NoneSince(c, run, ok, k, ip, at, at);
      ZeroEarned(c);
      assert tokens == FullSince(c, run, ok, k, ip, at, at);
    } else {
      var a :| a <= last && t[ip].tokens == FullSince(c, run, ok, k, ip, a, last);
      FullLater(c, run, ok, k, ip, a, last, at);
      ZeroEarned(c);
      assert tokens == FullSince(c, run, ok, k, ip, a, at);
    }
  }

  lemma RefillAtMost(c: Config, b: Bucket, at: int)
    requires b.last <= at
    ensures Refill(c, b, at).tokens <= b.tokens + Earned(c, at - b.last)
  {
    ZeroEarned(c);
    hide Earned;
  }

  /** Serving request `k` keeps every bucket explained. */
  lemma ServeExplained(c: Config, t: Table, run: seq<Request>, ok: seq<bool>, k: nat, ip: string, now: int)
    requires k < |run| == |ok| && c.rate >= 0.0 && c.capacity >= 0.0 && Healthy(c, t, now) && now <= run[k].at
    requires ok[k] == Admits(c, t, run[k].ip, run[k].at) && Explained(c, t, run, ok, k, ip)
    ensures Explained(c, Serve(c, t, run[k].ip, run[k].at), run, ok, k + 1, ip)
  {
    hide Earned, Current, FullSince;
    var r := run[k];
    var next := Serve(c, t, r.ip, r.at);
    if r.ip == ip {
      CurrentIsLeast(c, t, run, ok, k, ip, now, r.at);
      CurrentLast(c, t, ip, now, r.at);
      assert next[ip] == Bucket(Current(c, t, ip, r.at).tokens - if ok[k] then 1.0 else 0.0, r.at);
      LeastPays(c, run, ok, k, ip, Current(c, t, ip, r.at).tokens, r.at);
    } else if ip in t {
      LeastPays(c, run, ok, k, ip, t[ip].tokens, t[ip].last);
    }
  }

  lemma CurrentLast(c: Config, t: Table, ip: string, now: int, at: int)
    requires Healthy(c, t, now) && now <= at
    ensures Current(c, t, ip, at).last == at
    ensures ip in t ==> t[ip].last <= at
  {
    hide Earned;
  }

  lemma OneMore(c: Config, run: seq<Request>, ok: seq<bool>, k: nat, ip: string, a: int, at: int)
    requires k < |run| == |ok|
    ensures FullSince(c, run, ok, k + 1, ip, a, at) == FullSince(c, run, ok, k, ip, a, at)
              - if ok[k] && run[k].ip == ip && run[k].at >= a then 1.0 else 0.0
  {
    var one := if ok[k] && run[k].ip == ip && run[k].at >= a then {k} else {};
    assert Since(run, ok, k + 1, ip, a) == Since(run, ok, k, ip, a) + one;
    hide Earned;
  }

  lemma LeastPays(c: Config, run: seq<Request>, ok: seq<bool>, k: nat, ip: string, tokens: real, at: int)
    requires k < |run| == |ok| && Least(c, run, ok, k, ip, tokens, at) && (run[k].ip == ip ==> run[k].at == at)
    ensures Least(c, run, ok, k + 1, ip, if ok[k] && run[k].ip == ip then tokens - 1.0 else tokens, at)
  {
    hide FullSince;
    var n, left := k + 1, if ok[k] && run[k].ip == ip then tokens - 1.0 else tokens;
    forall a | a <= at
      ensures left <= FullSince(c, run, ok, n, ip, a, at)
    {
      OneMore(c, run, ok, k, ip, a, at);
    }
    var a :| a <= at && tokens == FullSince(c, run, ok, k, ip, a, at);
    OneMore(c, run, ok, k, ip, a, at);
    assert left == FullSince(c, run, ok, n, ip, a, at);
  }

  /** With the packets admitted since any earlier time, and this one, the address stays within its rate. */
  ghost predicate Room(c: Config, run: seq<Request>, ok: seq<bool>, k: nat)
    requires k < |run| == |ok|
  {
    var r := run[k];
    forall a :: a <= r.at ==>
      |Since(run, ok, k, r.ip, a)| as real + 1.0 <= c.capacity + (r.at - a) as real * c.rate / 1_000_000_000.0
  }

  lemma RoomIff(c: Config, run: seq<Request>, ok: seq<bool>, k: nat, tokens: real)
    requires k < |run| == |ok| && Least(c, run, ok, k, run[k].ip, tokens, run[k].at)
    ensures tokens >= 1.0 <==> Room(c, run, ok, k)
  {
    hide Earned, Since;
    var r := run[k];
    forall a | a <= r.at
      ensures FullSince(c, run, ok, k, r.ip, a, r.at)
           == c.capacity + (r.at - a) as real * c.rate / 1_000_000_000.0 - |Since(run, ok, k, r.ip, a)| as real
    {
      EarnedIs(c, r.at - a);
    }
    var a :| a <= r.at && tokens == FullSince(c, run, ok, k, r.ip, a, r.at);
    assert Room(c, run, ok, k) ==>
      |Since(run, ok, k, r.ip, a)| as real + 1.0 <= c.capacity + (r.at - a) as real * c.rate / 1_000_000_000.0;
    hide FullSince;
  }

  lemma EarnedIs(c: Config, ns: int)
    ensures Earned(c, ns) == ns as real * c.rate / 1_000_000_000.0
  {
  }

  lemma {:induction false} ForcedFrom(c: Config, t: Table, run: seq<Request>, ok: seq<bool>, k: nat, now: int)
    requires k <= |run| == |ok| && c.rate >= 0.0 && c.capacity >= 0.0 && Healthy(c, t, now) && Ordered(run[k..], now)
    requires ok[k..] == DecidePlain(c, t, run[k..]) && forall ip :: Explained(c, t, run, ok, k, ip)
    ensures forall j :: k <= j < |run| ==> (ok[j] <==> Room(c, run, ok, j))
    decreases |run| - k
  {
    hide Earned, Current, Serve, Explained, Least, Room, Healthy;
    if k < |run| {
      var r := run[k];
      assert run[k..][0] == r && run[k..][1..] == run[k + 1..] && ok[k] == ok[k..][0] && ok[k..][1..] == ok[k + 1..];
      CurrentIsLeast(c, t, run, ok, k, r.ip, now, r.at);
      RoomIff(c, run, ok, k, Current(c, t, r.ip, r.at).tokens);
      var next, n := Serve(c, t, r.ip, r.at), k + 1;
      forall ip
        ensures Explained(c, next, run, ok, n, ip)
      {
        ServeExplained(c, t, run, ok, k, ip, now);
      }
      ServeHealthy(c, t, now, r.ip, r.at);
      ForcedFrom(c, next, run, ok, n, r.at);
    }
  }

  /** A packet is refused only when admitting it would break the bound: the limiter admits all that it may. */
  lemma AdmittedIffRoom(c: Config, lastClean: Option<int>, run: seq<Request>, start: int, k: nat)
    requires c.rate >= 0.0 && c.capacity >= 0.0 && Recovers(c) && Ordered(run, start) && k < |run|
    ensures var ok := Decide(c, Limiter(map[], lastClean), run); ok[k] <==> Room(c, run, ok, k)
  {
    hide Earned, Decide, DecidePlain, Recovers, Room;
    AdmitsAtMost(c, lastClean, run, start, "", 0, 0);
    assert run[0..] == run;
    ForcedFrom(c, map[], run, DecidePlain(c, map[], run), 0, start);
  }

  // ---- For a whole capacity, recovery is exactly the condition ----

  ghost predicate Bounded(c: Config) {
    forall lastClean, run, start, ip, a, b | Ordered(run, start) && a <= b ::
      Admitted(run, Decide(c, Limiter(map[], lastClean), run), ip, a, b) as real <= c.capacity + Earned(c, b - a)
  }

  ghost predicate CleaningInvisible(c: Config) {
    forall lastClean, run, start | Ordered(run, start) ::
      Decide(c, Limiter(map[], lastClean), run) == DecidePlain(c, map[], run)
  }

  function Burst(n: nat, ip: string, at: int): seq<Request> {
    if n == 0 then [] else [Request(ip, at)] + Burst(n - 1, ip, at)
  }

  function One(ip: string, tokens: real, at: int): Limiter {
    Limiter(map[ip := Bucket(tokens, at)], Some(at))
  }

  lemma {:induction false} BurstDrains(c: Config, n: nat, ip: string, at: int, tail: seq<Request>, a: int, b: int)
    requires a <= at <= b
    ensures var run := Burst(n, ip, at) + tail;
      Admitted(run, Decide(c, One(ip, n as real, at), run), ip, a, b)
        == n + Admitted(tail, Decide(c, One(ip, 0.0, at), tail), ip, a, b)
    ensures Ordered(tail, at) ==> Ordered(Burst(n, ip, at) + tail, at)
  {
    hide Earned;
    var run := Burst(n, ip, at) + tail;
    if n == 0 {
      assert run == tail;
    } else {
      assert run[0] == Request(ip, at) && run[1..] == Burst(n - 1, ip, at) + tail;
      assert One(ip, n as real, at).After(c, run[0]).table == map[ip := Bucket((n - 1) as real, at)];
      BurstDrains(c, n - 1, ip, at, tail, a, b);
    }
  }

  /** A burst against an empty table is admitted up to the whole capacity. */
  lemma FreshBurst(c: Config, n: nat, l: Limiter, ip: string, at: int, tail: seq<Request>, a: int, b: int)
    requires n >= 1 && c.capacity == n as real && a <= at <= b
    requires l.Cleaned(at) == Limiter(map[], Some(at)) && Ordered(tail, at)
    ensures var run := Burst(n, ip, at) + tail;
      && Ordered(run, at)
      && Admitted(run, Decide(c, l, run), ip, a, b) == n + Admitted(tail, Decide(c, One(ip, 0.0, at), tail), ip, a, b)
  {
    hide Earned;
    var run := Burst(n, ip, at) + tail;
    assert run[0] == Request(ip, at) && run[1..] == Burst(n - 1, ip, at) + tail;
    assert l.After(c, run[0]) == One(ip, (n - 1) as real, at);
    BurstDrains(c, n - 1, ip, at, tail, a, b);
  }

  /** Two whole bursts, just far enough apart for the bucket to be dropped between them. */
  lemma TwoBursts(c: Config, n: nat, ip: string) returns (run: seq<Request>)
    requires n >= 1 && c.capacity == n as real
    ensures Ordered(run, 0)
    ensures Admitted(run, Decide(c, Limiter(map[], Some(0)), run), ip, 0, MAX_IDLE + 1) == 2 * n
  {
    hide Earned, Decide, Admitted;
    var later := MAX_IDLE + 1;
    var second := Burst(n, ip, later);
    assert second == second + [];
    var idle := One(ip, 0.0, 0);
    assert idle.Cleaned(later).table == map[];
    FreshBurst(c, n, idle, ip, later, [], 0, later);
    NothingAdmitted(c, One(ip, 0.0, later), ip, 0, later);
    FreshBurst(c, n, Limiter(map[], Some(0)), ip, 0, second, 0, later);
    run := Burst(n, ip, 0) + second;
  }

  lemma NothingAdmitted(c: Config, l: Limiter, ip: string, a: int, b: int)
    ensures Admitted([], Decide(c, l, []), ip, a, b) == 0
  {
  }

  /** A bucket dropped after more than a minute must have had time to fill. */
  lemma RecoversIff(c: Config)
    ensures Recovers(c) <==> 60.000000001 * c.rate >= c.capacity
  {
  }

  lemma BoundIffRecovers(c: Config, n: nat)
    requires c.rate >= 0.0 && n >= 1 && c.capacity == n as real
    ensures Bounded(c) <==> Recovers(c)
    ensures CleaningInvisible(c) <==> Recovers(c)
  {
    hide Earned, Decide, DecidePlain, Admitted;
    if Recovers(c) {
      forall lastClean, run, start, ip: string, a, b | Ordered(run, start) && a <= b
        ensures Admitted(run, Decide(c, Limiter(map[], lastClean), run), ip, a, b) as real <= c.capacity
                + Earned(c, b - a)
      {
        AdmitsAtMost(c, lastClean, run, start, ip, a, b);
        EarnedIs(c, b - a);
      }
      forall lastClean, run, start | Ordered(run, start)
        ensures Decide(c, Limiter(map[], lastClean), run) == DecidePlain(c, map[], run)
      {
        AdmitsAtMost(c, lastClean, run, start, "", 0, 0);
      }
    } else {
      var run := TwoBursts(c, n, "");
      OrderedFrom(run, 0, -1);
      PlainBound(c, map[], run, -1, "", 0, MAX_IDLE + 1);
    }
  }
}
