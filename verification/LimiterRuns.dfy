/** What the rate limiter guarantees over whole runs of checks and cleanups. */
module LimiterRuns {
  import opened Arith
  import opened Addresses
  import opened RateLimiting

  datatype Event = CheckAt(ip: IpAddr, now: nat) | CleanupAt(maxAge: nat, now: nat)

  function Apply(l: Limiter, e: Event): Limiter {
    match e
    case CheckAt(ip, now) => Check(l, ip, now).0
    case CleanupAt(maxAge, now) => Cleanup(l, maxAge, now)
  }

  function Run(l: Limiter, es: seq<Event>): Limiter
    decreases |es|
  {
    if es == [] then l else Run(Apply(l, es[0]), es[1..])
  }

  /** The answers to the checks of a run, in order. */
  function Verdicts(l: Limiter, es: seq<Event>): seq<Verdict>
    decreases |es|
  {
    if es == [] then []
    else (if es[0].CheckAt? then [Check(l, es[0].ip, es[0].now).1] else []) + Verdicts(Apply(l, es[0]), es[1..])
  }

  predicate Allows(l: Limiter, e: Event) {
    e.CheckAt? && Check(l, e.ip, e.now).1.Allowed?
  }

  /** Allowed checks of one address, and of all addresses. */
  function AllowedFor(l: Limiter, es: seq<Event>, ip: IpAddr): nat
    decreases |es|
  {
    if es == [] then 0
    else (if Allows(l, es[0]) && es[0].ip == ip then 1 else 0) + AllowedFor(Apply(l, es[0]), es[1..], ip)
  }

  function AllowedTotal(l: Limiter, es: seq<Event>): nat
    decreases |es|
  {
    if es == [] then 0 else (if Allows(l, es[0]) then 1 else 0) + AllowedTotal(Apply(l, es[0]), es[1..])
  }

  /** Events in time order, within [from, to]. */
  predicate Timed(es: seq<Event>, from: nat, to: nat)
    decreases |es|
  {
    es == [] || (from <= es[0].now <= to && Timed(es[1..], es[0].now, to))
  }

  // ---------------------------------------------------------------------------------------------
  // What every run keeps

  /** `born` is the time the limiter was created, `t` the time of the latest event. */
  ghost predicate Inv(l: Limiter, born: nat, t: nat) {
    var r := Rate(l.maxRequests, l.window);
    && l.maxRequests < 0x1_0000_0000 && r > 0
    && born <= l.global.lastRefill <= t
    && WellFormed(l.global) && l.global.maxTokens == GlobalMax(l.maxRequests) && l.global.refillRate == r
    && forall ip :: ip in l.buckets ==> BucketInv(l, l.buckets[ip], born, t)
  }

  ghost predicate BucketInv(l: Limiter, b: Bucket, born: nat, t: nat) {
    && WellFormed(b) && b.maxTokens == l.maxRequests && b.refillRate == Rate(l.maxRequests, l.window)
    && born <= b.lastRefill <= t
  }

  lemma RateIsWholeMillis(maxRequests: nat, window: nat)
    ensures Rate(maxRequests, window) % 1_000_000 == 0
  {
  }

  lemma NewInv(maxRequests: nat, window: nat, now: nat)
    requires maxRequests < 0x1_0000_0000 && Rate(maxRequests, window) > 0
    ensures Inv(New(maxRequests, window, now), now, now)
  {
  }

  lemma LastRefillMoves(b: Bucket, now: nat)
    ensures Consume(b, now).0.lastRefill == b.lastRefill || Consume(b, now).0.lastRefill == now
  {
  }

  lemma ConsumeKeepsInv(l: Limiter, b: Bucket, born: nat, t: nat, now: nat)
    requires BucketInv(l, b, born, t) && t <= now
    ensures BucketInv(l, Consume(b, now).0, born, now)
  {
  }

  lemma ApplyKeepsInv(l: Limiter, e: Event, born: nat, t: nat)
    requires Inv(l, born, t) && t <= e.now
    ensures Inv(Apply(l, e), born, e.now)
  {
    match e
    case CheckAt(ip, now) =>
      ConsumeKeeps(l.global, now);
      LastRefillMoves(l.global, now);
      RateIsWholeMillis(l.maxRequests, l.window);
      assert BucketInv(l, BucketOf(l, ip, now), born, now);
      ConsumeKeepsInv(l, BucketOf(l, ip, now), born, now, now);
      var l' := Apply(l, e);
      forall i | i in l'.buckets
        ensures BucketInv(l', l'.buckets[i], born, now)
      {
      }
    case CleanupAt(_, _) =>
  }

  lemma {:induction false} RunKeepsInv(l: Limiter, es: seq<Event>, born: nat, t: nat, z: nat)
    requires Inv(l, born, t) && t <= z && Timed(es, t, z)
    ensures Inv(Run(l, es), born, z)
    ensures Run(l, es).maxRequests == l.maxRequests && Run(l, es).window == l.window
    decreases |es|
  {
    if es != [] {
      ApplyKeepsInv(l, es[0], born, t);
      RunKeepsInv(Apply(l, es[0]), es[1..], born, es[0].now, z);
    }
  }

  // ---------------------------------------------------------------------------------------------
  // Window bounds

  /** The budget of an address; one without a bucket can get a full one at any time. */
  function AddressBudget(l: Limiter, ip: IpAddr, t: nat): nat
    requires Rate(l.maxRequests, l.window) > 0
    requires ip in l.buckets ==> l.buckets[ip].refillRate > 0 && l.buckets[ip].lastRefill <= t
  {
    if ip in l.buckets then Budget(l.buckets[ip], t) else Rate(l.maxRequests, l.window) * l.maxRequests
  }

  /** A cleanup that removes only buckets which are full by then, before the refill count can wrap. */
  predicate Harmless(e: Event, maxRequests: nat, rate: nat, born: nat) {
    e.CleanupAt? ==> e.maxAge >= maxRequests * rate && e.now - born < rate * 0x1_0000_0000
  }

  lemma FreshBudget(maxTokens: nat, r: nat, now: nat)
    requires r > 0
    ensures Budget(Fresh(maxTokens, r, now), now) == r * maxTokens
  {
    assert 0 % (r * 0x1_0000_0000) == 0;
  }

  lemma SmallModulus(x: nat, m: nat)
    requires x < m
    ensures x % m == x
  {
  }

  lemma CheckPays(l: Limiter, e: Event, ip: IpAddr, born: nat, t: nat)
    requires Inv(l, born, t) && t <= e.now && e.CheckAt?
    ensures Inv(Apply(l, e), born, e.now)
    ensures AddressBudget(Apply(l, e), ip, e.now)
      + (if Allows(l, e) && e.ip == ip then Rate(l.maxRequests, l.window) else 0)
      <= AddressBudget(l, ip, t) + (e.now - t)
  {
    ApplyKeepsInv(l, e, born, t);
    var r := Rate(l.maxRequests, l.window);
    if ip in l.buckets {
      BudgetGrows(l.buckets[ip], t, e.now);
    }
    if e.ip == ip && Consume(l.global, e.now).1 {
      if ip !in l.buckets {
        RateIsWholeMillis(l.maxRequests, l.window);
        FreshBudget(l.maxRequests, r, e.now);
      }
      ConsumePays(BucketOf(l, ip, e.now), e.now);
    }
  }

  /** A bucket idle for a full refill is worth a full one. */
  lemma IdleBudget(b: Bucket, now: nat)
    requires b.refillRate > 0 && b.lastRefill <= now
    requires b.maxTokens * b.refillRate <= now - b.lastRefill < b.refillRate * 0x1_0000_0000
    ensures Budget(b, now) >= b.refillRate * b.maxTokens
  {
    SmallModulus(now - b.lastRefill, b.refillRate * 0x1_0000_0000);
    MulMono(0, b.tokens, b.refillRate);
  }

  lemma CleanupPays(l: Limiter, e: Event, ip: IpAddr, born: nat, t: nat)
    requires Inv(l, born, t) && t <= e.now && e.CleanupAt?
    requires Harmless(e, l.maxRequests, Rate(l.maxRequests, l.window), born)
    ensures Inv(Apply(l, e), born, e.now)
    ensures AddressBudget(Apply(l, e), ip, e.now) <= AddressBudget(l, ip, t) + (e.now - t)
  {
    ApplyKeepsInv(l, e, born, t);
    if ip in l.buckets {
      var b := l.buckets[ip];
      BudgetGrows(b, t, e.now);
      if ip !in Apply(l, e).buckets {
        IdleBudget(b, e.now);
      }
    }
  }

  lemma {:induction false} AllowedForPays(l: Limiter, es: seq<Event>, ip: IpAddr, born: nat, t: nat, z: nat)
    requires Inv(l, born, t) && t <= z && Timed(es, t, z)
    requires forall e :: e in es ==> Harmless(e, l.maxRequests, Rate(l.maxRequests, l.window), born)
    ensures Rate(l.maxRequests, l.window) * AllowedFor(l, es, ip) <= AddressBudget(l, ip, t) + (z - t)
    decreases |es|
  {
    var r := Rate(l.maxRequests, l.window);
    if es == [] {
      assert r * 0 == 0;
    } else {
      var e, rest := es[0], AllowedFor(Apply(l, es[0]), es[1..], ip);
      assert e in es && forall x :: x in es[1..] ==> x in es;
      if e.CheckAt? {
        CheckPays(l, e, ip, born, t);
      } else {
        CleanupPays(l, e, ip, born, t);
      }
      AllowedForPays(Apply(l, e), es[1..], ip, born, e.now, z);
      Distribute(r, if Allows(l, e) && e.ip == ip then 1 else 0, rest);
    }
  }

  lemma GlobalPays(l: Limiter, e: Event, born: nat, t: nat)
    requires Inv(l, born, t) && t <= e.now
    ensures Inv(Apply(l, e), born, e.now)
    ensures Budget(Apply(l, e).global, e.now) + (if Allows(l, e) then Rate(l.maxRequests, l.window) else 0)
      <= Budget(l.global, t) + (e.now - t)
  {
    ApplyKeepsInv(l, e, born, t);
    BudgetGrows(l.global, t, e.now);
    if e.CheckAt? {
      ConsumePays(l.global, e.now);
    }
  }

  lemma {:induction false} AllowedTotalPays(l: Limiter, es: seq<Event>, born: nat, t: nat, z: nat)
    requires Inv(l, born, t) && t <= z && Timed(es, t, z)
    ensures Rate(l.maxRequests, l.window) * AllowedTotal(l, es) <= Budget(l.global, t) + (z - t)
    decreases |es|
  {
    var r := Rate(l.maxRequests, l.window);
    if es == [] {
      assert r * 0 == 0;
    } else {
      var e, rest := es[0], AllowedTotal(Apply(l, es[0]), es[1..]);
      GlobalPays(l, e, born, t);
      AllowedTotalPays(Apply(l, e), es[1..], born, e.now, z);
      Distribute(r, if Allows(l, e) then 1 else 0, rest);
    }
  }

  /** In every run from a new limiter, any time window of length `w` without cleanups, or with cleanups
      that keep what a full refill takes, sees at most `maxRequests + ceil(w / rate)` allowed checks
      of one address.  Cleanups before the window are unrestricted. */
  lemma PerAddressWindow(maxRequests: nat, window: nat, born: nat, before: seq<Event>, inside: seq<Event>,
                         ip: IpAddr, a: nat, w: nat)
    requires maxRequests < 0x1_0000_0000 && Rate(maxRequests, window) > 0
    requires born <= a && Timed(before, born, a) && Timed(inside, a, a + w)
    requires forall e :: e in inside ==> Harmless(e, maxRequests, Rate(maxRequests, window), born)
    ensures AllowedFor(Run(New(maxRequests, window, born), before), inside, ip)
      <= maxRequests + CeilDiv(w, Rate(maxRequests, window))
  {
    var r := Rate(maxRequests, window);
    NewInv(maxRequests, window, born);
    RunKeepsInv(New(maxRequests, window, born), before, born, born, a);
    var l := Run(New(maxRequests, window, born), before);
    AllowedForPays(l, inside, ip, born, a, a + w);
    PaidCount(AllowedFor(l, inside, ip), maxRequests, r, w);
  }

  /** All addresses together get at most ten times that allowance, whatever the cleanups. */
  lemma TotalWindow(maxRequests: nat, window: nat, born: nat, before: seq<Event>, inside: seq<Event>, a: nat, w: nat)
    requires maxRequests < 0x1_0000_0000 && Rate(maxRequests, window) > 0
    requires born <= a && Timed(before, born, a) && Timed(inside, a, a + w)
    ensures AllowedTotal(Run(New(maxRequests, window, born), before), inside)
      <= 10 * maxRequests + CeilDiv(w, Rate(maxRequests, window))
  {
    var r := Rate(maxRequests, window);
    NewInv(maxRequests, window, born);
    RunKeepsInv(New(maxRequests, window, born), before, born, born, a);
    var l := Run(New(maxRequests, window, born), before);
    AllowedTotalPays(l, inside, born, a, a + w);
    PaidCount(AllowedTotal(l, inside), GlobalMax(maxRequests), r, w);
  }

  /** A window shorter than one millisecond per request gives a rate of zero: such a limiter never
      refills, and allows no more than its first `10 * maxRequests` checks for ever. */
  lemma ZeroRateNeverRefills(maxRequests: nat, window: nat, born: nat, es: seq<Event>)
    requires Rate(maxRequests, window) == 0
    ensures AllowedTotal(New(maxRequests, window, born), es) <= 10 * maxRequests
  {
    TokensOnly(New(maxRequests, window, born), es);
  }

  lemma {:induction false} TokensOnly(l: Limiter, es: seq<Event>)
    requires l.global.refillRate == 0
    ensures AllowedTotal(l, es) <= l.global.tokens
    decreases |es|
  {
    if es != [] {
      TokensOnly(Apply(l, es[0]), es[1..]);
    }
  }

  // ---------------------------------------------------------------------------------------------
  // When cleanup cannot be noticed

  /** The condition on the configuration: nothing is ever allowed, or an idle bucket that is old enough
      to be removed has had the time to fill up. */
  predicate CleanupSafe(maxRequests: nat, window: nat, maxAge: nat) {
    var rate := Rate(maxRequests, window);
    maxRequests == 0 || (rate > 0 && maxAge >= maxRequests * rate)
  }

  function Checks(es: seq<Event>): seq<Event> {
    if es == [] then [] else (if es[0].CheckAt? then [es[0]] else []) + Checks(es[1..])
  }

  /** `l` is `k` after cleanups that removed only full buckets. */
  ghost predicate Cleaned(l: Limiter, k: Limiter, t: nat) {
    && l.maxRequests == k.maxRequests && l.window == k.window && l.global == k.global
    && (forall ip :: ip in l.buckets ==> ip in k.buckets && l.buckets[ip] == k.buckets[ip])
    && (forall ip :: ip in k.buckets && ip !in l.buckets ==>
          && t >= k.buckets[ip].lastRefill
          && t - k.buckets[ip].lastRefill >= l.maxRequests * Rate(l.maxRequests, l.window))
  }

  /** The refill count stays below 2^32 until `now`. */
  predicate BeforeWrap(maxRequests: nat, rate: nat, born: nat, now: nat)
    requires rate > 0
  {
    born <= now && (now - born) / rate + maxRequests < 0x1_0000_0000
  }

  /** A bucket idle for a full refill behaves like a new one. */
  lemma IdleIsFresh(b: Bucket, born: nat, now: nat)
    requires WellFormed(b) && b.maxTokens > 0 && born <= b.lastRefill <= now
    requires now - b.lastRefill >= b.maxTokens * b.refillRate && BeforeWrap(b.maxTokens, b.refillRate, born, now)
    ensures Consume(b, now) == Consume(Fresh(b.maxTokens, b.refillRate, now), now)
  {
    var k := Periods(b, now);
    DivBelow(now - b.lastRefill, b.refillRate, b.maxTokens);
    DivMono(now - b.lastRefill, now - born, b.refillRate);
    RefillsOf(b, now);
    SmallMod(k);
    assert Refill(b, now) == RefillBy(b, k, now);
    FillUp(b, k, now);
    FreshStays(b.maxTokens, b.refillRate, now);
  }

  lemma FillUp(b: Bucket, k: nat, now: nat)
    requires 0 < b.maxTokens <= k && b.tokens + k < 0x1_0000_0000
    ensures RefillBy(b, k, now) == Fresh(b.maxTokens, b.refillRate, now)
  {
  }

  lemma FreshStays(maxTokens: nat, rate: nat, now: nat)
    ensures Refill(Fresh(maxTokens, rate, now), now) == Fresh(maxTokens, rate, now)
  {
  }

  lemma CheckSame(l: Limiter, k: Limiter, ip: IpAddr, now: nat, born: nat, t: nat)
    requires Inv(k, born, t) && Cleaned(l, k, t) && t <= now && l.maxRequests > 0
    requires BeforeWrap(l.maxRequests, Rate(l.maxRequests, l.window), born, now)
    ensures Check(l, ip, now).1 == Check(k, ip, now).1 && Cleaned(Check(l, ip, now).0, Check(k, ip, now).0, now)
  {
    if ip in k.buckets && ip !in l.buckets {
      IdleIsFresh(k.buckets[ip], born, now);
    }
    assert Consume(BucketOf(l, ip, now), now) == Consume(BucketOf(k, ip, now), now);
  }

  lemma CleanupSame(l: Limiter, k: Limiter, maxAge: nat, now: nat, born: nat, t: nat)
    requires Inv(k, born, t) && Cleaned(l, k, t) && t <= now && maxAge >= l.maxRequests * Rate(l.maxRequests, l.window)
    ensures Cleaned(Cleanup(l, maxAge, now), k, now)
  {
  }

  lemma {:induction false} SameVerdicts(l: Limiter, k: Limiter, es: seq<Event>, born: nat, t: nat, z: nat)
    requires Inv(k, born, t) && Cleaned(l, k, t) && t <= z && Timed(es, t, z) && l.maxRequests > 0
    requires forall e :: e in es && e.CleanupAt? ==> e.maxAge >= l.maxRequests * Rate(l.maxRequests, l.window)
    requires BeforeWrap(l.maxRequests, Rate(l.maxRequests, l.window), born, z)
    ensures Verdicts(l, es) == Verdicts(k, Checks(es))
    decreases |es|
  {
    if es != [] {
      var e := es[0];
      assert e in es && forall x :: x in es[1..] ==> x in es;
      if e.CheckAt? {
        DivMono(e.now - born, z - born, Rate(l.maxRequests, l.window));
        CheckSame(l, k, e.ip, e.now, born, t);
        ApplyKeepsInv(k, e, born, t);
        SameVerdicts(Apply(l, e), Apply(k, e), es[1..], born, e.now, z);
        assert Checks(es)[1..] == Checks(es[1..]);
      } else {
        CleanupSame(l, k, e.maxAge, e.now, born, t);
        SameVerdicts(Apply(l, e), k, es[1..], born, e.now, z);
        assert Checks(es) == Checks(es[1..]);
      }
    }
  }

  /** A limiter configured for no requests refuses everything. */
  lemma {:induction false} ZeroRefuses(l: Limiter, es: seq<Event>)
    requires l.maxRequests == 0 && l.global.tokens == 0 == l.global.maxTokens
    ensures Verdicts(l, es) == seq(|Checks(es)|, _ => Limited(0, l.window))
    decreases |es|
  {
    if es != [] {
      assert Refill(l.global, es[0].now).tokens == 0;
      ZeroRefuses(Apply(l, es[0]), es[1..]);
    }
  }

  lemma {:induction false} ChecksOfChecks(es: seq<Event>)
    ensures Checks(Checks(es)) == Checks(es)
  {
    if es != [] {
      ChecksOfChecks(es[1..]);
      if es[0].CheckAt? {
        assert Checks(es) == [es[0]] + Checks(es[1..]);
        assert Checks(es)[1..] == Checks(es[1..]);
      } else {
        assert Checks(es) == Checks(es[1..]);
      }
    }
  }

  /** With a safe configuration cleanup is invisible: in every run that ends before the refill count
      can wrap, every check gets the answer, `remaining` included, that it gets without cleanups. */
  lemma CleanupInvisible(maxRequests: nat, window: nat, born: nat, es: seq<Event>, z: nat)
    requires maxRequests < 0x1_0000_0000 && Timed(es, born, z) && born <= z
    requires forall e :: e in es && e.CleanupAt? ==> CleanupSafe(maxRequests, window, e.maxAge)
    requires Rate(maxRequests, window) > 0 ==> BeforeWrap(maxRequests, Rate(maxRequests, window), born, z)
    ensures Verdicts(New(maxRequests, window, born), es) == Verdicts(New(maxRequests, window, born), Checks(es))
  {
    var l := New(maxRequests, window, born);
    if maxRequests == 0 {
      ZeroRefuses(l, es);
      ZeroRefuses(l, Checks(es));
      ChecksOfChecks(es);
    } else if Rate(maxRequests, window) > 0 {
      NewInv(maxRequests, window, born);
      SameVerdicts(l, l, es, born, born, z);
    } else {
      NoCleanups(es);
    }
  }

  lemma {:induction false} NoCleanups(es: seq<Event>)
    requires forall e :: e in es ==> e.CheckAt?
    ensures Checks(es) == es
  {
    if es != [] {
      assert es[0] in es && forall x :: x in es[1..] ==> x in es;
      NoCleanups(es[1..]);
    }
  }

  /** The limiter the server ships, 100 requests per minute with buckets dropped after five minutes. */
  lemma ShippedConfiguration()
    ensures Rate(100, 60_000_000_000) == 600_000_000 && CleanupSafe(100, 60_000_000_000, 300_000_000_000)
  {
  }

  // ---------------------------------------------------------------------------------------------
  // With any other configuration it can be noticed

  /** `n` checks of one address at one time. */
  function Burst(ip: IpAddr, now: nat, n: nat): (es: seq<Event>)
    ensures |es| == n && forall i :: 0 <= i < n ==> es[i] == CheckAt(ip, now)
  {
    seq(n, _ => CheckAt(ip, now))
  }

  /** The state after a burst of `n` checks at one time, from shared bucket `g`. */
  function Drained(maxRequests: nat, window: nat, g: Bucket, now: nat, ip: IpAddr, n: nat): Limiter
    requires n <= maxRequests && n <= g.tokens
  {
    Limiter(maxRequests, window,
            if n == 0 then map[] else map[ip := Bucket(maxRequests - n, maxRequests, now, Rate(maxRequests, window))],
            g.(tokens := g.tokens - n))
  }

  lemma NoTimeNoRefill(b: Bucket)
    ensures Refill(b, b.lastRefill) == b
  {
  }

  lemma DrainOne(maxRequests: nat, window: nat, g: Bucket, now: nat, ip: IpAddr, n: nat)
    requires n < maxRequests && n < g.tokens && Refills(g, now) == 0
    ensures var (l, v) := Check(Drained(maxRequests, window, g, now, ip, n), ip, now);
      l == Drained(maxRequests, window, g, now, ip, n + 1) && v.Allowed?
  {
    var l := Drained(maxRequests, window, g, now, ip, n);
    assert Refill(l.global, now) == l.global;
    NoTimeNoRefill(BucketOf(l, ip, now));
    assert BucketOf(l, ip, now) == Bucket(maxRequests - n, maxRequests, now, Rate(maxRequests, window));
  }

  lemma {:induction false} BurstDrains(maxRequests: nat, window: nat, g: Bucket, now: nat, ip: IpAddr, n: nat, d: nat)
    requires n + d <= maxRequests && n + d <= g.tokens && Refills(g, now) == 0
    ensures var l := Drained(maxRequests, window, g, now, ip, n);
      && Run(l, Burst(ip, now, d)) == Drained(maxRequests, window, g, now, ip, n + d)
      && AllowedFor(l, Burst(ip, now, d), ip) == d
    decreases d
  {
    if d > 0 {
      DrainOne(maxRequests, window, g, now, ip, n);
      assert Burst(ip, now, d)[1..] == Burst(ip, now, d - 1);
      BurstDrains(maxRequests, window, g, now, ip, n + 1, d - 1);
    }
  }

  /** A burst from a new limiter. */
  lemma FirstBurst(maxRequests: nat, window: nat, born: nat, ip: IpAddr, d: nat)
    requires d <= maxRequests < 0x1_0000_0000
    ensures var g := Fresh(GlobalMax(maxRequests), Rate(maxRequests, window), born);
      && Run(New(maxRequests, window, born), Burst(ip, born, d)) == Drained(maxRequests, window, g, born, ip, d)
      && AllowedFor(New(maxRequests, window, born), Burst(ip, born, d), ip) == d
  {
    var g := Fresh(GlobalMax(maxRequests), Rate(maxRequests, window), born);
    NoTimeNoRefills(g);
    BurstDrains(maxRequests, window, g, born, ip, 0, d);
    assert New(maxRequests, window, born) == Drained(maxRequests, window, g, born, ip, 0);
  }

  lemma NoTimeNoRefills(b: Bucket)
    ensures Refills(b, b.lastRefill) == 0
  {
    if Millis(b.refillRate) > 0 {
      assert Millis(0) == 0 && 0 / Millis(b.refillRate) == 0;
    }
  }

  lemma {:induction false} VerdictsAppend(l: Limiter, es: seq<Event>, more: seq<Event>)
    ensures Verdicts(l, es + more) == Verdicts(l, es) + Verdicts(Run(l, es), more)
    ensures Run(l, es + more) == Run(Run(l, es), more)
    decreases |es|
  {
    if es == [] {
      assert es + more == more;
    } else {
      assert (es + more)[1..] == es[1..] + more;
      VerdictsAppend(Apply(l, es[0]), es[1..], more);
    }
  }

  lemma {:induction false} ChecksAppend(es: seq<Event>, more: seq<Event>)
    ensures Checks(es + more) == Checks(es) + Checks(more)
  {
    if es == [] {
      assert es + more == more;
    } else {
      assert (es + more)[1..] == es[1..] + more;
      ChecksAppend(es[1..], more);
      var head := if es[0].CheckAt? then [es[0]] else [];
      assert head + (Checks(es[1..]) + Checks(more)) == (head + Checks(es[1..])) + Checks(more);
    }
  }

  /** Refill periods that fit into the age at which buckets are removed. */
  function IdlePeriods(rate: nat, maxAge: nat): nat {
    if rate == 0 then 0 else maxAge / rate
  }

  /** Send one request more than can be regained, wait `maxAge`, clean up, and ask again. */
  function Telltale(maxRequests: nat, window: nat, born: nat, ip: IpAddr, maxAge: nat): seq<Event> {
    Burst(ip, born, IdlePeriods(Rate(maxRequests, window), maxAge) + 1)
    + [CleanupAt(maxAge, born + maxAge), CheckAt(ip, born + maxAge)]
  }

  /** The bucket after the burst and the wait, one token short of full. */
  lemma WaitRegains(b: Bucket, maxAge: nat, k: nat)
    requires b.refillRate % 1_000_000 == 0 && k == IdlePeriods(b.refillRate, maxAge)
    requires b.maxTokens < 0x1_0000_0000 && b.tokens + k + 1 == b.maxTokens
    ensures Refill(b, b.lastRefill + maxAge).tokens == b.maxTokens - 1
  {
    if b.refillRate > 0 {
      RefillsOf(b, b.lastRefill + maxAge);
      SmallMod(k);
      assert Refill(b, b.lastRefill + maxAge) == RefillBy(b, k, b.lastRefill + maxAge);
    }
  }

  lemma IdleBelowMax(maxRequests: nat, window: nat, maxAge: nat)
    requires maxRequests > 0 && !CleanupSafe(maxRequests, window, maxAge)
    ensures IdlePeriods(Rate(maxRequests, window), maxAge) < maxRequests
  {
    var r := Rate(maxRequests, window);
    if r > 0 {
      DivBelow(maxAge, r, maxRequests);
    }
  }

  /** An address that still has its bucket is not served like a new one while the bucket is not full. */
  lemma OldAnswer(l: Limiter, ip: IpAddr, now: nat)
    requires l.maxRequests > 0 && Consume(l.global, now).1
    requires ip in l.buckets && Refill(l.buckets[ip], now).tokens < l.maxRequests
    ensures Check(l, ip, now).1 != Allowed(l.maxRequests - 1)
  {
  }

  lemma TelltaleAnswers(maxRequests: nat, window: nat, born: nat, ip: IpAddr, maxAge: nat, d: nat)
    requires 0 < maxRequests < 0x1_0000_0000 && d == IdlePeriods(Rate(maxRequests, window), maxAge) + 1 <= maxRequests
    ensures var l, now := Run(New(maxRequests, window, born), Burst(ip, born, d)), born + maxAge;
      && Check(Cleanup(l, maxAge, now), ip, now).1 == Allowed(maxRequests - 1)
      && Check(l, ip, now).1 != Check(Cleanup(l, maxAge, now), ip, now).1
  {
    FirstBurst(maxRequests, window, born, ip, d);
    var g := Fresh(GlobalMax(maxRequests), Rate(maxRequests, window), born);
    DrainedAnswers(Drained(maxRequests, window, g, born, ip, d), born, ip, maxAge, d - 1);
  }

  lemma DrainedAnswers(l: Limiter, born: nat, ip: IpAddr, maxAge: nat, k: nat)
    requires 0 < l.maxRequests < 0x1_0000_0000 && k == IdlePeriods(Rate(l.maxRequests, l.window), maxAge)
    requires k < l.maxRequests && 1 < l.global.maxTokens < 0x1_0000_0000
    requires l.global.tokens + k + 1 == l.global.maxTokens
    requires l.global.refillRate == Rate(l.maxRequests, l.window) && l.global.lastRefill == born
    requires ip in l.buckets
    requires l.buckets[ip] == Bucket(l.maxRequests - k - 1, l.maxRequests, born, Rate(l.maxRequests, l.window))
    ensures Check(Cleanup(l, maxAge, born + maxAge), ip, born + maxAge).1 == Allowed(l.maxRequests - 1)
    ensures Check(l, ip, born + maxAge).1 != Allowed(l.maxRequests - 1)
  {
    RateIsWholeMillis(l.maxRequests, l.window);
    WaitRegains(l.global, maxAge, k);
    WaitRegains(l.buckets[ip], maxAge, k);
    FreshAnswer(l, ip, maxAge, born + maxAge);
    OldAnswer(l, ip, born + maxAge);
  }

  /** After a cleanup that removes its bucket an address is served like a new one. */
  lemma FreshAnswer(l: Limiter, ip: IpAddr, maxAge: nat, now: nat)
    requires l.maxRequests > 0 && Consume(l.global, now).1
    requires ip in l.buckets ==> Elapsed(l.buckets[ip], now) >= maxAge
    ensures Check(Cleanup(l, maxAge, now), ip, now).1 == Allowed(l.maxRequests - 1)
  {
    var k := Cleanup(l, maxAge, now);
    assert ip !in k.buckets && k.global == l.global;
    FreshStays(l.maxRequests, Rate(l.maxRequests, l.window), now);
  }

  /** With any unsafe configuration there is a run in which cleanup changes an answer, and for limits up
      to 2^31 one in which no refill count comes near to wrapping: the condition of `CleanupInvisible`
      is exact. */
  lemma CleanupVisible(maxRequests: nat, window: nat, born: nat, ip: IpAddr, maxAge: nat)
    requires maxRequests < 0x1_0000_0000 && !CleanupSafe(maxRequests, window, maxAge)
    ensures var es := Telltale(maxRequests, window, born, ip, maxAge); var rate := Rate(maxRequests, window);
      && Verdicts(New(maxRequests, window, born), es) != Verdicts(New(maxRequests, window, born), Checks(es))
      && Timed(es, born, born + maxAge)
      && (maxRequests <= 0x8000_0000 && rate > 0 ==> BeforeWrap(maxRequests, rate, born, born + maxAge))
  {
    var d := IdlePeriods(Rate(maxRequests, window), maxAge) + 1;
    IdleBelowMax(maxRequests, window, maxAge);
    TelltaleAnswers(maxRequests, window, born, ip, maxAge, d);
    LastAnswerDiffers(New(maxRequests, window, born), Burst(ip, born, d),
                      Run(New(maxRequests, window, born), Burst(ip, born, d)), ip, maxAge, born + maxAge);
    BurstTimed(ip, born, d, [CleanupAt(maxAge, born + maxAge), CheckAt(ip, born + maxAge)], born + maxAge);
  }

  lemma {:induction false} BurstTimed(ip: IpAddr, now: nat, n: nat, more: seq<Event>, z: nat)
    requires now <= z && Timed(more, now, z)
    ensures Timed(Burst(ip, now, n) + more, now, z)
    decreases n
  {
    var es := Burst(ip, now, n) + more;
    if n == 0 {
      assert es == more;
    } else {
      assert es[1..] == Burst(ip, now, n - 1) + more;
      BurstTimed(ip, now, n - 1, more, z);
    }
  }

  lemma OneCheck(ip: IpAddr, maxAge: nat, now: nat)
    ensures Checks([CheckAt(ip, now)]) == [CheckAt(ip, now)]
    ensures Checks([CleanupAt(maxAge, now), CheckAt(ip, now)]) == [CheckAt(ip, now)]
  {
    var ask, wash := [CheckAt(ip, now)], [CleanupAt(maxAge, now), CheckAt(ip, now)];
    assert ask[1..] == [] && Checks([]) == [];
    assert wash[1..] == ask && Checks(wash) == [] + Checks(ask);
  }

  lemma OneAnswer(l: Limiter, ip: IpAddr, now: nat)
    ensures Verdicts(l, [CheckAt(ip, now)]) == [Check(l, ip, now).1]
  {
    assert [CheckAt(ip, now)][1..] == [];
    assert Verdicts(Apply(l, CheckAt(ip, now)), []) == [];
  }

  lemma AnswerAfterCleanup(l: Limiter, ip: IpAddr, maxAge: nat, now: nat)
    ensures Verdicts(l, [CleanupAt(maxAge, now), CheckAt(ip, now)]) == [Check(Cleanup(l, maxAge, now), ip, now).1]
  {
    var wash := [CleanupAt(maxAge, now), CheckAt(ip, now)];
    assert wash[1..] == [CheckAt(ip, now)];
    OneAnswer(Cleanup(l, maxAge, now), ip, now);
    assert Verdicts(l, wash) == [] + Verdicts(Cleanup(l, maxAge, now), wash[1..]);
  }

  lemma LastDiffers<T>(s: seq<T>, x: T, y: T)
    requires x != y
    ensures s + [x] != s + [y]
  {
    assert (s + [x])[|s|] == x && (s + [y])[|s|] == y;
  }

  /** If a cleanup changes the answer to the check after it, the two runs differ. */
  lemma LastAnswerDiffers(l: Limiter, burst: seq<Event>, k: Limiter, ip: IpAddr, maxAge: nat, now: nat)
    requires k == Run(l, burst) && forall e :: e in burst ==> e.CheckAt?
    requires Check(Cleanup(k, maxAge, now), ip, now).1 != Check(k, ip, now).1
    ensures var es := burst + [CleanupAt(maxAge, now), CheckAt(ip, now)]; Verdicts(l, es) != Verdicts(l, Checks(es))
  {
    var wash, ask := [CleanupAt(maxAge, now), CheckAt(ip, now)], [CheckAt(ip, now)];
    VerdictsAppend(l, burst, wash);
    VerdictsAppend(l, burst, ask);
    ChecksAppend(burst, wash);
    NoCleanups(burst);
    OneCheck(ip, maxAge, now);
    OneAnswer(k, ip, now);
    AnswerAfterCleanup(k, ip, maxAge, now);
    LastDiffers(Verdicts(l, burst), Check(Cleanup(k, maxAge, now), ip, now).1, Check(k, ip, now).1);
  }

  // ---------------------------------------------------------------------------------------------
  // Once the refill count wraps, any cleanup can be noticed

  /** A burst that leaves the shared bucket a token. */
  function Most(maxRequests: nat): nat {
    if maxRequests > 1 then maxRequests - 1 else 1
  }

  /** The time of k * 2^32 refill periods. */
  function WrapAge(rate: nat, k: nat): nat {
    k * (0x1_0000_0000 * rate)
  }

  /** A bucket idle for exactly k * 2^32 periods regains nothing, while a cleanup restores it: with any
      configuration that refills, and any age, some run notices it. */
  lemma WrapVisible(maxRequests: nat, window: nat, born: nat, ip: IpAddr, maxAge: nat, k: nat)
    requires 0 < maxRequests < 0x1_0000_0000 && Rate(maxRequests, window) > 0
    requires maxAge <= WrapAge(Rate(maxRequests, window), k)
    ensures var now := born + WrapAge(Rate(maxRequests, window), k);
      var es := BurstAndAsk(ip, born, Most(maxRequests), maxAge, now);
      && Timed(es, born, now)
      && Verdicts(New(maxRequests, window, born), es) != Verdicts(New(maxRequests, window, born), Checks(es))
  {
    WrapChangesAnswer(maxRequests, window, born, ip, maxAge, k);
    SeenAfterBurst(New(maxRequests, window, born), born, ip, Most(maxRequests), maxAge,
                   born + WrapAge(Rate(maxRequests, window), k));
  }

  lemma WrapChangesAnswer(maxRequests: nat, window: nat, born: nat, ip: IpAddr, maxAge: nat, k: nat)
    requires 0 < maxRequests < 0x1_0000_0000 && Rate(maxRequests, window) > 0
    requires maxAge <= WrapAge(Rate(maxRequests, window), k)
    ensures var l, now := Run(New(maxRequests, window, born), Burst(ip, born, Most(maxRequests))),
                          born + WrapAge(Rate(maxRequests, window), k);
      Check(Cleanup(l, maxAge, now), ip, now).1 != Check(l, ip, now).1
  {
    MostSpent(maxRequests, window, born, ip);
    WrappedAnswers(Run(New(maxRequests, window, born), Burst(ip, born, Most(maxRequests))), born, ip, maxAge,
                   WrapAge(Rate(maxRequests, window), k), k);
  }

  function BurstAndAsk(ip: IpAddr, born: nat, d: nat, maxAge: nat, now: nat): seq<Event> {
    Burst(ip, born, d) + [CleanupAt(maxAge, now), CheckAt(ip, now)]
  }

  lemma SeenAfterBurst(l: Limiter, born: nat, ip: IpAddr, d: nat, maxAge: nat, now: nat)
    requires born <= now
    requires var k := Run(l, Burst(ip, born, d)); Check(Cleanup(k, maxAge, now), ip, now).1 != Check(k, ip, now).1
    ensures var es := BurstAndAsk(ip, born, d, maxAge, now);
      Timed(es, born, now) && Verdicts(l, es) != Verdicts(l, Checks(es))
  {
    LastAnswerDiffers(l, Burst(ip, born, d), Run(l, Burst(ip, born, d)), ip, maxAge, now);
    BurstTimed(ip, born, d, [CleanupAt(maxAge, now), CheckAt(ip, now)], now);
  }

  /** A drained address whose shared bucket has a token left. */
  ghost predicate Drying(l: Limiter, born: nat, ip: IpAddr) {
    && l.maxRequests > 0 && WellFormed(l.global) && l.global.tokens > 0 && l.global.lastRefill == born
    && ip in l.buckets && WellFormed(l.buckets[ip]) && l.buckets[ip].tokens < l.maxRequests
    && l.buckets[ip].lastRefill == born
    && l.buckets[ip].refillRate == l.global.refillRate == Rate(l.maxRequests, l.window)
  }

  lemma MostSpent(maxRequests: nat, window: nat, born: nat, ip: IpAddr)
    requires 0 < maxRequests < 0x1_0000_0000 && Rate(maxRequests, window) > 0
    ensures var l := Run(New(maxRequests, window, born), Burst(ip, born, Most(maxRequests)));
      Drying(l, born, ip) && l.maxRequests == maxRequests && l.window == window
  {
    FirstBurst(maxRequests, window, born, ip, Most(maxRequests));
    RateIsWholeMillis(maxRequests, window);
  }

  lemma WrappedAnswers(l: Limiter, born: nat, ip: IpAddr, maxAge: nat, age: nat, k: nat)
    requires Drying(l, born, ip) && age == WrapAge(l.global.refillRate, k) && maxAge <= age
    ensures var now := born + age;
      && Check(Cleanup(l, maxAge, now), ip, now).1 == Allowed(l.maxRequests - 1)
      && Check(l, ip, now).1 != Allowed(l.maxRequests - 1)
  {
    var now := born + age;
    WrappedRefill(l.global, k);
    WrappedRefill(l.buckets[ip], k);
    FreshAnswer(l, ip, maxAge, now);
    OldAnswer(l, ip, now);
  }

  lemma WrappedRefill(b: Bucket, k: nat)
    requires WellFormed(b)
    ensures Refill(b, b.lastRefill + WrapAge(b.refillRate, k)) == b
  {
    RefillsOf(b, b.lastRefill + WrapAge(b.refillRate, k));
    WrapPeriods(b.refillRate, k);
  }

  lemma WrapPeriods(r: nat, k: nat)
    requires r > 0
    ensures WrapAge(r, k) / r % 0x1_0000_0000 == 0
  {
    Associate(k, 0x1_0000_0000, r);
    DivUnique(WrapAge(r, k), r, k * 0x1_0000_0000, 0);
    assert (k * 0x1_0000_0000) % 0x1_0000_0000 == 0;
  }

  // ---------------------------------------------------------------------------------------------
  // What an unsafe cleanup does to the window bound

  lemma {:induction false} AllowedAppend(l: Limiter, es: seq<Event>, more: seq<Event>, ip: IpAddr)
    ensures AllowedFor(l, es + more, ip) == AllowedFor(l, es, ip) + AllowedFor(Run(l, es), more, ip)
    decreases |es|
  {
    if es == [] {
      assert es + more == more;
    } else {
      assert (es + more)[1..] == es[1..] + more;
      AllowedAppend(Apply(l, es[0]), es[1..], more, ip);
    }
  }

  lemma RefillTwice(b: Bucket, now: nat)
    ensures Refills(Refill(b, now), now) == 0
  {
    if Refills(b, now) > 0 {
      NoTimeNoRefills(Refill(b, now));
    }
  }

  /** A full burst after a cleanup that forgot the address. */
  lemma BurstAgain(l: Limiter, ip: IpAddr, now: nat)
    requires l.buckets == map[] && l.maxRequests > 0 && Refill(l.global, now).tokens >= l.maxRequests
    ensures AllowedFor(l, Burst(ip, now, l.maxRequests), ip) == l.maxRequests
    ensures Run(l, Burst(ip, now, l.maxRequests))
         == Drained(l.maxRequests, l.window, Refill(l.global, now), now, ip, l.maxRequests)
    ensures Refills(Refill(l.global, now), now) == 0
  {
    var g, burst := Refill(l.global, now), Burst(ip, now, l.maxRequests);
    var k := l.(global := g);
    RefillTwice(l.global, now);
    BurstDrains(l.maxRequests, l.window, g, now, ip, 0, l.maxRequests);
    assert k == Drained(l.maxRequests, l.window, g, now, ip, 0);
    assert Refill(g, now) == g;
    assert Check(l, ip, now) == Check(k, ip, now);
    assert Run(l, burst) == Run(k, burst);
  }

  /** Bursts of one address, `maxAge` apart, with a cleanup before each but the first. */
  function Bursts(maxRequests: nat, born: nat, ip: IpAddr, maxAge: nat, k: nat): seq<Event> {
    if k == 0 then Burst(ip, born, maxRequests)
    else Bursts(maxRequests, born, ip, maxAge, k - 1) + CleanBurst(maxRequests, ip, maxAge, After(born, maxAge, k))
  }

  /** `x` and `k` times `d`. */
  function After(x: nat, d: nat, k: nat): nat {
    if k == 0 then x else After(x, d, k - 1) + d
  }

  lemma {:induction false} AfterIs(x: nat, d: nat, k: nat)
    ensures After(x, d, k) == x + k * d
  {
    if k > 0 {
      AfterIs(x, d, k - 1);
      Distribute(d, k - 1, 1);
    }
  }

  function CleanBurst(maxRequests: nat, ip: IpAddr, maxAge: nat, now: nat): seq<Event> {
    [CleanupAt(maxAge, now)] + Burst(ip, now, maxRequests)
  }

  /** The state after a burst at time `t`; the shared bucket has at least `low` tokens left. */
  ghost predicate Spent(l: Limiter, maxRequests: nat, window: nat, ip: IpAddr, t: nat, low: int) {
    && l.maxRequests == maxRequests && l.window == window
    && (forall i :: i in l.buckets ==> i == ip && l.buckets[i].lastRefill == t)
    && WellFormed(l.global) && l.global.maxTokens == GlobalMax(maxRequests)
    && l.global.refillRate == Rate(maxRequests, window)
    && l.global.lastRefill <= t < l.global.lastRefill + Rate(maxRequests, window)
    && low <= l.global.tokens <= GlobalMax(maxRequests) - maxRequests
  }

  lemma FirstSpent(maxRequests: nat, window: nat, born: nat, ip: IpAddr)
    requires 0 < maxRequests < 0x1_0000_0000 && Rate(maxRequests, window) > 0
    ensures Spent(Run(New(maxRequests, window, born), Burst(ip, born, maxRequests)), maxRequests, window, ip, born,
                  GlobalMax(maxRequests) - maxRequests)
    ensures AllowedFor(New(maxRequests, window, born), Burst(ip, born, maxRequests), ip) == maxRequests
  {
    FirstBurst(maxRequests, window, born, ip, maxRequests);
    RateIsWholeMillis(maxRequests, window);
  }

  /** What the shared bucket regains between two bursts. */
  lemma SharedRegains(g: Bucket, t: nat, maxAge: nat, q: nat, m: nat)
    requires WellFormed(g) && g.lastRefill <= t < g.lastRefill + g.refillRate && q == IdlePeriods(g.refillRate, maxAge)
    requires q < m && g.tokens + m <= g.maxTokens
    ensures var g' := Refill(g, t + maxAge);
      && WellFormed(g') && g'.maxTokens == g.maxTokens && g'.refillRate == g.refillRate
      && g'.lastRefill <= t + maxAge < g'.lastRefill + g'.refillRate
      && g.tokens + q <= g'.tokens
  {
    var e, r, now := t + maxAge - g.lastRefill, g.refillRate, t + maxAge;
    var n := IdlePeriods(r, e);
    RegainedPeriods(t - g.lastRefill, maxAge, r, q, n);
    RefillsOf(g, now);
    SmallMod(n);
    assert Refill(g, now) == RefillBy(g, n, now);
    RefillAdds(g, n, now);
    if n == 0 {
      DivBelow(e, r, 1);
    }
  }

  lemma RegainedPeriods(rest: nat, maxAge: nat, r: nat, q: nat, n: nat)
    requires 0 <= rest < r && q == IdlePeriods(r, maxAge) && n == IdlePeriods(r, rest + maxAge)
    ensures q <= n <= q + 1
  {
    DivMono(maxAge, rest + maxAge, r);
    DivMod(maxAge, r);
    assert (q + 2) * r == q * r + 2 * r;
    DivBelow(rest + maxAge, r, q + 2);
  }

  lemma RefillAdds(b: Bucket, k: nat, now: nat)
    requires b.tokens + k <= b.maxTokens < 0x1_0000_0000
    ensures RefillBy(b, k, now) == if k > 0 then b.(tokens := b.tokens + k, lastRefill := now) else b
  {
    SmallMod(b.tokens + k);
  }

  lemma CleanBurstAllowed(l: Limiter, maxRequests: nat, window: nat, ip: IpAddr, t: nat, maxAge: nat, q: nat, low: int)
    requires Spent(l, maxRequests, window, ip, t, low) && 0 < maxRequests
    requires q == IdlePeriods(Rate(maxRequests, window), maxAge) && q < maxRequests && low + q >= maxRequests
    ensures AllowedFor(l, CleanBurst(maxRequests, ip, maxAge, t + maxAge), ip) == maxRequests
    ensures Spent(Run(l, CleanBurst(maxRequests, ip, maxAge, t + maxAge)), maxRequests, window, ip, t + maxAge,
                  low + q - maxRequests)
  {
    var now, es := t + maxAge, CleanBurst(maxRequests, ip, maxAge, t + maxAge);
    ForgetsAll(l, maxAge, t, now);
    SharedRegains(l.global, t, maxAge, q, maxRequests);
    BurstAgain(Cleanup(l, maxAge, now), ip, now);
    assert es[1..] == Burst(ip, now, maxRequests);
    DrainedIsSpent(maxRequests, window, Refill(l.global, now), now, ip, low + q);
  }

  lemma ForgetsAll(l: Limiter, maxAge: nat, t: nat, now: nat)
    requires now == t + maxAge && forall i :: i in l.buckets ==> l.buckets[i].lastRefill == t
    ensures Cleanup(l, maxAge, now) == l.(buckets := map[])
  {
    assert forall i :: i !in Cleanup(l, maxAge, now).buckets;
    assert Cleanup(l, maxAge, now).buckets == map[];
  }

  lemma DrainedIsSpent(maxRequests: nat, window: nat, g: Bucket, now: nat, ip: IpAddr, low: int)
    requires 0 < maxRequests <= g.tokens && low <= g.tokens && WellFormed(g)
    requires g.maxTokens == GlobalMax(maxRequests) && g.refillRate == Rate(maxRequests, window)
    requires g.lastRefill <= now < g.lastRefill + g.refillRate
    ensures Spent(Drained(maxRequests, window, g, now, ip, maxRequests), maxRequests, window, ip, now,
                  low - maxRequests)
  {
  }

  lemma {:induction false} BurstsAllowed(maxRequests: nat, window: nat, born: nat, ip: IpAddr, maxAge: nat, q: nat,
                                         k: nat)
    requires 0 < maxRequests < 0x1_0000_0000 && Rate(maxRequests, window) > 0
    requires q == IdlePeriods(Rate(maxRequests, window), maxAge) && q < maxRequests
    requires After(maxRequests, maxRequests - q, k) <= GlobalMax(maxRequests)
    ensures var l, es := New(maxRequests, window, born), Bursts(maxRequests, born, ip, maxAge, k);
      && AllowedFor(l, es, ip) == After(maxRequests, maxRequests, k)
      && Spent(Run(l, es), maxRequests, window, ip, After(born, maxAge, k),
               GlobalMax(maxRequests) - After(maxRequests, maxRequests - q, k))
    decreases k
  {
    if k == 0 {
      FirstSpent(maxRequests, window, born, ip);
    } else {
      var l, es := New(maxRequests, window, born), Bursts(maxRequests, born, ip, maxAge, k - 1);
      BurstsAllowed(maxRequests, window, born, ip, maxAge, q, k - 1);
      OneMoreBurst(l, es, maxRequests, window, ip, After(born, maxAge, k - 1), maxAge, q,
                   GlobalMax(maxRequests) - After(maxRequests, maxRequests - q, k - 1),
                   After(maxRequests, maxRequests, k - 1));
    }
  }

  lemma OneMoreBurst(l: Limiter, es: seq<Event>, maxRequests: nat, window: nat, ip: IpAddr, t: nat, maxAge: nat,
                     q: nat, low: int, n: nat)
    requires Spent(Run(l, es), maxRequests, window, ip, t, low) && AllowedFor(l, es, ip) == n && 0 < maxRequests
    requires q == IdlePeriods(Rate(maxRequests, window), maxAge) && q < maxRequests && low + q >= maxRequests
    ensures var es' := es + CleanBurst(maxRequests, ip, maxAge, t + maxAge);
      && AllowedFor(l, es', ip) == n + maxRequests
      && Spent(Run(l, es'), maxRequests, window, ip, t + maxAge, low + q - maxRequests)
  {
    var more := CleanBurst(maxRequests, ip, maxAge, t + maxAge);
    CleanBurstAllowed(Run(l, es), maxRequests, window, ip, t, maxAge, q, low);
    AllowedAppend(l, es, more, ip);
    VerdictsAppend(l, es, more);
  }

  lemma {:induction false} BurstsTimed(maxRequests: nat, born: nat, ip: IpAddr, maxAge: nat, k: nat)
    ensures born <= After(born, maxAge, k)
    ensures Timed(Bursts(maxRequests, born, ip, maxAge, k), born, After(born, maxAge, k))
    decreases k
  {
    if k == 0 {
      BurstTimed(ip, born, maxRequests, [], born);
      assert Burst(ip, born, maxRequests) + [] == Burst(ip, born, maxRequests);
    } else {
      var t, now := After(born, maxAge, k - 1), After(born, maxAge, k);
      BurstsTimed(maxRequests, born, ip, maxAge, k - 1);
      BurstTimed(ip, now, maxRequests, [], now);
      assert Burst(ip, now, maxRequests) + [] == Burst(ip, now, maxRequests);
      assert CleanBurst(maxRequests, ip, maxAge, now)[1..] == Burst(ip, now, maxRequests);
      TimedAppend(Bursts(maxRequests, born, ip, maxAge, k - 1), CleanBurst(maxRequests, ip, maxAge, now), born, t, now);
    }
  }

  lemma {:induction false} TimedAppend(es: seq<Event>, more: seq<Event>, from: nat, mid: nat, to: nat)
    requires from <= mid <= to && Timed(es, from, mid) && Timed(more, mid, to)
    ensures Timed(es + more, from, to)
    decreases |es|
  {
    if es == [] {
      assert es + more == more;
    } else {
      assert (es + more)[1..] == es[1..] + more;
      TimedAppend(es[1..], more, es[0].now, mid, to);
    }
  }

  /** Cleanups come early enough for `k` further bursts to outrun the refills: each gains on them by what
      its age falls short of a full refill, and together they gain a period. */
  predicate Outruns(maxRequests: nat, rate: nat, maxAge: nat, k: nat) {
    && maxAge < maxRequests * rate
    && k * (maxRequests * rate - maxAge) >= rate
  }

  /** Early cleanups break the bound of `PerAddressWindow`: as long as the shared bucket lasts, `k` cleanups
      allow one address `k + 1` full bursts, in a window in which the bound leaves room for fewer. */
  lemma EarlyCleanupExceedsWindow(maxRequests: nat, window: nat, born: nat, ip: IpAddr, maxAge: nat, k: nat)
    requires 0 < maxRequests < 0x1_0000_0000 && Rate(maxRequests, window) > 0
    requires Outruns(maxRequests, Rate(maxRequests, window), maxAge, k)
    requires maxRequests + k * (maxRequests - IdlePeriods(Rate(maxRequests, window), maxAge)) <= GlobalMax(maxRequests)
    ensures var es := Bursts(maxRequests, born, ip, maxAge, k);
      && Timed(es, born, born + k * maxAge)
      && AllowedFor(New(maxRequests, window, born), es, ip) == (k + 1) * maxRequests
      && (k + 1) * maxRequests > maxRequests + CeilDiv(k * maxAge, Rate(maxRequests, window))
  {
    var q := IdlePeriods(Rate(maxRequests, window), maxAge);
    IdleBelowMax(maxRequests, window, maxAge);
    AfterIs(maxRequests, maxRequests - q, k);
    AfterIs(maxRequests, maxRequests, k);
    AfterIs(born, maxAge, k);
    BurstsAllowed(maxRequests, window, born, ip, maxAge, q, k);
    BurstsTimed(maxRequests, born, ip, maxAge, k);
    CeilBelow(k, maxRequests, Rate(maxRequests, window), maxAge);
    Distribute(maxRequests, k, 1);
  }

  lemma CeilBelow(k: nat, m: nat, r: nat, maxAge: nat)
    requires r > 0 && Outruns(m, r, maxAge, k)
    ensures CeilDiv(k * maxAge, r) < k * m
  {
    Distribute(k, m * r - maxAge, maxAge);
    Associate(k, m, r);
    DivBelow(k * maxAge + r - 1, r, k * m);
  }

  /** Every age is too early that falls short of a full refill by a ninth of a period for each request:
      one burst more, or nine for each request, is enough. */
  lemma EarlyAges(maxRequests: nat, window: nat, maxAge: nat) returns (k: nat)
    requires 0 < maxRequests && 10 * maxRequests < 0x1_0000_0000 && Rate(maxRequests, window) > 0
    requires Outruns(maxRequests, Rate(maxRequests, window), maxAge, 9 * maxRequests)
    ensures Outruns(maxRequests, Rate(maxRequests, window), maxAge, k)
    ensures maxRequests + k * (maxRequests - IdlePeriods(Rate(maxRequests, window), maxAge)) <= GlobalMax(maxRequests)
  {
    var r := Rate(maxRequests, window);
    IdleBelowMax(maxRequests, window, maxAge);
    if maxAge <= (maxRequests - 1) * r {
      k := 1;
      assert maxRequests * r == (maxRequests - 1) * r + r;
    } else {
      k := 9 * maxRequests;
      LastPeriod(maxRequests, r, maxAge);
    }
  }

  lemma LastPeriod(m: nat, r: nat, maxAge: nat)
    requires m > 0 && r > 0 && (m - 1) * r <= maxAge < m * r
    ensures IdlePeriods(r, maxAge) == m - 1
  {
    DivBelow(maxAge, r, m);
    DivBelow(maxAge, r, m - 1);
  }
}
