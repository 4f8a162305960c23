/** The token-bucket rate limiter: one bucket for all clients and one per address, refilled lazily
    when a request arrives.  Times and durations are in nanoseconds; a refill counts whole
    milliseconds, in u32 arithmetic that wraps as in the release build. */
module RateLimiting {
  import opened Arith
  import opened Addresses

  function Millis(d: nat): nat {
    d / 1_000_000
  }

  function Min(a: nat, b: nat): nat {
    if a <= b then a else b
  }

  function CeilDiv(a: nat, b: nat): nat
    requires b > 0
  {
    (a + b - 1) / b
  }

  // ---------------------------------------------------------------------------------------------
  // One bucket

  datatype Bucket = Bucket(tokens: nat, maxTokens: nat, lastRefill: nat, refillRate: nat)

  function Fresh(maxTokens: nat, refillRate: nat, now: nat): Bucket {
    Bucket(maxTokens, maxTokens, now, refillRate)
  }

  function Elapsed(b: Bucket, now: nat): nat {
    if now >= b.lastRefill then now - b.lastRefill else 0
  }

  function Refills(b: Bucket, now: nat): nat {
    if Millis(b.refillRate) > 0 then (Millis(Elapsed(b, now)) / Millis(b.refillRate)) % 0x1_0000_0000 else 0
  }

  function RefillBy(b: Bucket, refills: nat, now: nat): Bucket {
    if refills > 0 then b.(tokens := Min((b.tokens + refills) % 0x1_0000_0000, b.maxTokens), lastRefill := now) else b
  }

  function Refill(b: Bucket, now: nat): Bucket {
    RefillBy(b, Refills(b, now), now)
  }

  function Take(b: Bucket): (Bucket, bool) {
    if b.tokens > 0 then (b.(tokens := b.tokens - 1), true) else (b, false)
  }

  function Consume(b: Bucket, now: nat): (Bucket, bool) {
    Take(Refill(b, now))
  }

  class TokenBucket {
    var tokens: nat
    const maxTokens: nat
    var lastRefill: nat
    const refillRate: nat

    function Value(): Bucket
      reads this
    {
      Bucket(tokens, maxTokens, lastRefill, refillRate)
    }

    constructor (maxTokens: nat, refillRate: nat, now: nat)
      ensures Value() == Fresh(maxTokens, refillRate, now)
    {
      this.tokens := maxTokens;
      this.maxTokens := maxTokens;
      this.lastRefill := now;
      this.refillRate := refillRate;
    }

    method RefillAt(now: nat)
      modifies this
      ensures Value() == Refill(old(Value()), now)
    {
      var elapsed := if now >= lastRefill then now - lastRefill else 0;
      if Millis(refillRate) > 0 {
        var refills := (Millis(elapsed) / Millis(refillRate)) % 0x1_0000_0000;
        if refills > 0 {
          tokens := Min((tokens + refills) % 0x1_0000_0000, maxTokens);
          lastRefill := now;
        }
      }
    }

    method TryConsume(now: nat) returns (ok: bool)
      modifies this
      ensures (Value(), ok) == Consume(old(Value()), now)
    {
      RefillAt(now);
      if tokens > 0 {
        tokens := tokens - 1;
        ok := true;
      } else {
        ok := false;
      }
    }

    method Remaining() returns (n: nat)
      ensures n == Value().tokens
    {
      n := tokens;
    }
  }

  // ---------------------------------------------------------------------------------------------
  // The limiter

  datatype Verdict = Allowed(remaining: nat) | Limited(remaining: nat, retryAfter: nat)

  datatype Limiter = Limiter(maxRequests: nat, window: nat, buckets: map<IpAddr, Bucket>, global: Bucket)

  function Rate(maxRequests: nat, window: nat): nat {
    if maxRequests > 0 then (Millis(window) % 0x1_0000_0000_0000_0000) / maxRequests * 1_000_000 else 1000 * 1_000_000
  }

  function GlobalMax(maxRequests: nat): nat {
    Min(maxRequests * 10, 0x1_0000_0000 - 1)
  }

  function New(maxRequests: nat, window: nat, now: nat): Limiter {
    Limiter(maxRequests, window, map[], Fresh(GlobalMax(maxRequests), Rate(maxRequests, window), now))
  }

  function BucketOf(l: Limiter, ip: IpAddr, now: nat): Bucket {
    if ip in l.buckets then l.buckets[ip] else Fresh(l.maxRequests, Rate(l.maxRequests, l.window), now)
  }

  /** The two halves of a check, each under a lock of its own: the shared bucket, then the bucket of the
      address, which is created full at `created` when it is missing. */
  function CheckShared(l: Limiter, now: nat): (Limiter, bool) {
    var (global, pass) := Consume(l.global, now);
    (l.(global := global), pass)
  }

  function CheckOwn(l: Limiter, ip: IpAddr, created: nat, now: nat): (Limiter, Verdict) {
    var (b, ok) := Consume(BucketOf(l, ip, created), now);
    (l.(buckets := l.buckets[ip := b]), if ok then Allowed(b.tokens) else Limited(0, b.refillRate))
  }

  /** A check with its three readings of the clock. */
  function CheckThrough(l: Limiter, ip: IpAddr, asked: nat, created: nat, now: nat): (Limiter, Verdict) {
    var (l', pass) := CheckShared(l, asked);
    if pass then CheckOwn(l', ip, created, now) else (l', Limited(0, l.window))
  }

  /** A check that takes no time. */
  function Check(l: Limiter, ip: IpAddr, now: nat): (Limiter, Verdict) {
    CheckThrough(l, ip, now, now, now)
  }

  function Cleanup(l: Limiter, maxAge: nat, now: nat): Limiter {
    l.(buckets := map ip | ip in l.buckets && Elapsed(l.buckets[ip], now) < maxAge :: l.buckets[ip])
  }

  class RateLimiter {
    const maxRequests: nat
    const window: nat
    var buckets: map<IpAddr, TokenBucket>
    const global: TokenBucket

    ghost predicate Valid()
      reads this
    {
      && (forall ip :: ip in buckets ==> buckets[ip] != global)
      && (forall i, k :: i in buckets && k in buckets && i != k ==> buckets[i] != buckets[k])
    }

    ghost function State(): Limiter
      reads this, global, buckets.Values
    {
      Limiter(maxRequests, window, map ip | ip in buckets :: buckets[ip].Value(), global.Value())
    }

    constructor (maxRequests: nat, window: nat, now: nat)
      ensures Valid() && fresh(global) && buckets == map[]
      ensures State() == New(maxRequests, window, now)
    {
      this.maxRequests := maxRequests;
      this.window := window;
      this.buckets := map[];
      this.global := new TokenBucket(GlobalMax(maxRequests), Rate(maxRequests, window), now);
    }

    /** The address's bucket, created full when it has none. */
    method Entry(ip: IpAddr, now: nat) returns (bucket: TokenBucket)
      requires Valid()
      modifies this
      ensures Valid() && ip in buckets && buckets[ip] == bucket && fresh(buckets.Values - old(buckets.Values))
      ensures bucket.Value() == BucketOf(old(State()), ip, now)
      ensures State() == old(State()).(buckets := old(State()).buckets[ip := bucket.Value()])
    {
      if ip !in buckets {
        var created := new TokenBucket(maxRequests, Rate(maxRequests, window), now);
        buckets := buckets[ip := created];
      }
      bucket := buckets[ip];
      assert State().buckets == old(State()).buckets[ip := bucket.Value()];
    }

    method PassGlobal(now: nat) returns (pass: bool)
      requires Valid()
      modifies global
      ensures (State(), pass) == CheckShared(old(State()), now)
    {
      pass := global.TryConsume(now);
      assert State().buckets == old(State()).buckets;
    }

    method CheckAt(ip: IpAddr, asked: nat, created: nat, now: nat) returns (verdict: Verdict)
      requires Valid()
      modifies this, global, buckets.Values
      ensures Valid() && fresh(buckets.Values - old(buckets.Values))
      ensures (State(), verdict) == CheckThrough(old(State()), ip, asked, created, now)
    {
      var pass := PassGlobal(asked);
      if !pass {
        return Limited(0, window);
      }
      verdict := CheckBucket(ip, created, now);
    }

    method CheckBucket(ip: IpAddr, created: nat, now: nat) returns (verdict: Verdict)
      requires Valid()
      modifies this, buckets.Values
      ensures Valid() && fresh(buckets.Values - old(buckets.Values))
      ensures (State(), verdict) == CheckOwn(old(State()), ip, created, now)
    {
      var bucket := Entry(ip, created);
      ghost var mid := State();
      var ok := bucket.TryConsume(now);
      assert State().buckets == mid.buckets[ip := bucket.Value()];
      assert State().buckets == old(State()).buckets[ip := bucket.Value()];
      if ok {
        var remaining := bucket.Remaining();
        verdict := Allowed(remaining);
      } else {
        verdict := Limited(0, bucket.refillRate);
      }
    }

    method CleanupAt(maxAge: nat, now: nat)
      requires Valid()
      modifies this
      ensures Valid() && buckets.Values <= old(buckets.Values)
      ensures State() == Cleanup(old(State()), maxAge, now)
    {
      buckets := map ip | ip in buckets && Elapsed(buckets[ip].Value(), now) < maxAge :: buckets[ip];
    }
  }

  // ---------------------------------------------------------------------------------------------
  // The budget of a bucket: what it has, and what the time since its last refill is worth

  predicate WellFormed(b: Bucket) {
    b.tokens <= b.maxTokens < 0x1_0000_0000 && b.refillRate > 0 && b.refillRate % 1_000_000 == 0
  }

  function Budget(b: Bucket, t: nat): nat
    requires b.refillRate > 0 && b.lastRefill <= t
  {
    Min(b.refillRate * b.tokens + (t - b.lastRefill) % (b.refillRate * 0x1_0000_0000),
        b.refillRate * b.maxTokens + b.refillRate - 1)
  }

  /** Counting in whole milliseconds loses nothing, because refill rates are whole milliseconds. */
  lemma RefillsOf(b: Bucket, now: nat)
    requires WellFormed(b) && b.lastRefill <= now
    ensures Refills(b, now) == ((now - b.lastRefill) / b.refillRate) % 0x1_0000_0000
  {
    var e, r, k := now - b.lastRefill, b.refillRate, b.refillRate / 1_000_000;
    assert r == k * 1_000_000 && k > 0;
    DivDiv(e, 1_000_000, k);
    assert 1_000_000 * k == r;
  }

  /** The budget grows no faster than time. */
  lemma BudgetGrows(b: Bucket, t: nat, t': nat)
    requires b.refillRate > 0 && b.lastRefill <= t <= t'
    ensures Budget(b, t') <= Budget(b, t) + (t' - t)
  {
    ModAdd(t - b.lastRefill, t' - t, b.refillRate * 0x1_0000_0000);
  }

  lemma ConsumeKeeps(b: Bucket, now: nat)
    requires WellFormed(b) && b.lastRefill <= now
    ensures var b' := Consume(b, now).0;
      WellFormed(b') && b'.lastRefill <= now && b'.maxTokens == b.maxTokens && b'.refillRate == b.refillRate
  {
  }

  /** A successful consumption pays one refill period out of the budget; a refusal costs nothing. */
  lemma ConsumePays(b: Bucket, now: nat)
    requires WellFormed(b) && b.lastRefill <= now
    ensures var (b', ok) := Consume(b, now);
      && WellFormed(b') && b'.lastRefill <= now && b'.maxTokens == b.maxTokens && b'.refillRate == b.refillRate
      && Budget(b', now) + (if ok then b.refillRate else 0) <= Budget(b, now)
  {
    var r, e := b.refillRate, (now - b.lastRefill) % (b.refillRate * 0x1_0000_0000);
    RefillsOf(b, now);
    QuotientMod(now - b.lastRefill, r, 0x1_0000_0000);
    assert Refill(b, now) == RefillBy(b, e / r, now);
    PayAfterRefill(b, now, e / r);
  }

  lemma PayAfterRefill(b: Bucket, now: nat, k: nat)
    requires WellFormed(b) && b.lastRefill <= now
    requires k == (now - b.lastRefill) % (b.refillRate * 0x1_0000_0000) / b.refillRate
    ensures var (b', ok) := Take(RefillBy(b, k, now));
      && WellFormed(b') && b'.lastRefill <= now && b'.maxTokens == b.maxTokens && b'.refillRate == b.refillRate
      && Budget(b', now) + (if ok then b.refillRate else 0) <= Budget(b, now)
  {
    var r, e := b.refillRate, (now - b.lastRefill) % (b.refillRate * 0x1_0000_0000);
    var b1 := RefillBy(b, k, now);
    if k > 0 {
      ScaledBudget(r, b.tokens, e, b.maxTokens, b1.tokens);
      assert r * b1.tokens <= Budget(b, now);
      TakePays(b1, now);
    } else {
      DivBelow(e, r, 1);
      MulMono(b.tokens, b.maxTokens, r);
      TakePays(b, now);
    }
  }

  lemma TakePays(b: Bucket, now: nat)
    requires WellFormed(b) && b.lastRefill <= now
    requires (now - b.lastRefill) % (b.refillRate * 0x1_0000_0000) < b.refillRate
    ensures var (b', ok) := Take(b); Budget(b', now) + (if ok then b.refillRate else 0) <= Budget(b, now)
    ensures Budget(b, now) == b.refillRate * b.tokens + (now - b.lastRefill) % (b.refillRate * 0x1_0000_0000)
  {
    MulMono(b.tokens, b.maxTokens, b.refillRate);
    Distribute(b.refillRate, b.tokens - 1, 1);
  }

  lemma ScaledBudget(r: nat, tokens: nat, e: nat, maxTokens: nat, t: nat)
    requires r > 0 && t <= tokens + e / r && t <= maxTokens
    ensures r * t <= Min(r * tokens + e, r * maxTokens + r - 1)
  {
    DivMod(e, r);
    MulMono(t, maxTokens, r);
    MulMono(t, tokens + e / r, r);
    Distribute(r, tokens, e / r);
  }

  function BucketRun(b: Bucket, ts: seq<nat>): Bucket
    decreases |ts|
  {
    if ts == [] then b else BucketRun(Consume(b, ts[0]).0, ts[1..])
  }

  function Successes(b: Bucket, ts: seq<nat>): nat
    decreases |ts|
  {
    if ts == [] then 0 else (if Consume(b, ts[0]).1 then 1 else 0) + Successes(Consume(b, ts[0]).0, ts[1..])
  }

  /** Nondecreasing times within [from, to]. */
  predicate Within(ts: seq<nat>, from: nat, to: nat) {
    ts == [] || (from <= ts[0] <= to && Within(ts[1..], ts[0], to))
  }

  lemma {:induction false} SuccessesPay(b: Bucket, ts: seq<nat>, a: nat, z: nat)
    requires WellFormed(b) && b.lastRefill <= a <= z && Within(ts, a, z)
    ensures b.refillRate * Successes(b, ts) <= Budget(b, a) + (z - a)
    decreases |ts|
  {
    if ts == [] {
      assert b.refillRate * 0 == 0;
    } else {
      var (b', ok) := Consume(b, ts[0]);
      BudgetGrows(b, a, ts[0]);
      ConsumePays(b, ts[0]);
      SuccessesPay(b', ts[1..], ts[0], z);
      assert b.refillRate * ((if ok then 1 else 0) + Successes(b', ts[1..]))
          == (if ok then b.refillRate else 0) + b.refillRate * Successes(b', ts[1..]);
    }
  }

  lemma {:induction false} RunWellFormed(b: Bucket, ts: seq<nat>, a: nat, z: nat)
    requires WellFormed(b) && b.lastRefill <= a <= z && Within(ts, a, z)
    ensures var b' := BucketRun(b, ts);
      WellFormed(b') && b'.lastRefill <= z && b'.maxTokens == b.maxTokens && b'.refillRate == b.refillRate
    decreases |ts|
  {
    if ts != [] {
      ConsumePays(b, ts[0]);
      RunWellFormed(Consume(b, ts[0]).0, ts[1..], ts[0], z);
    }
  }

  lemma PaidCount(n: nat, m: nat, r: nat, w: nat)
    requires r > 0 && r * n <= r * m + r - 1 + w
    ensures n <= m + CeilDiv(w, r)
  {
    var x := w + r - 1;
    if n > m {
      Distribute(r, n - m, m);
      DivBelow(x, r, n - m);
      assert r * (n - m) == (n - m) * r;
    }
  }

  /** In every run of one bucket, any time window of length `w` sees at most
      `maxTokens + ceil(w / refillRate)` successful attempts. */
  lemma BucketWindow(b: Bucket, before: seq<nat>, inside: seq<nat>, a: nat, w: nat)
    requires WellFormed(b) && b.lastRefill <= a
    requires Within(before, b.lastRefill, a) && Within(inside, a, a + w)
    ensures Successes(BucketRun(b, before), inside) <= b.maxTokens + CeilDiv(w, b.refillRate)
  {
    RunWellFormed(b, before, b.lastRefill, a);
    var b' := BucketRun(b, before);
    SuccessesPay(b', inside, a, a + w);
    PaidCount(Successes(b', inside), b.maxTokens, b.refillRate, w);
  }

  // ---------------------------------------------------------------------------------------------
  // Dropping the remainder

  function Regained(b: Bucket, ts: seq<nat>): int
    decreases |ts|
  {
    if ts == [] then 0
    else Refill(b, ts[0]).tokens - b.tokens + Regained(Consume(b, ts[0]).0, ts[1..])
  }

  /** Whole refill periods since the last refill. */
  function Periods(b: Bucket, now: nat): nat
    requires b.refillRate > 0
  {
    Elapsed(b, now) / b.refillRate
  }

  /** No refill of the run reaches the capacity limit. */
  predicate Unsaturated(b: Bucket, ts: seq<nat>)
    requires b.refillRate > 0
    decreases |ts|
  {
    ts == [] ||
    (b.tokens + Periods(b, ts[0]) <= b.maxTokens && Unsaturated(Consume(b, ts[0]).0, ts[1..]))
  }

  lemma {:induction false} TokensConserved(b: Bucket, ts: seq<nat>)
    ensures BucketRun(b, ts).tokens + Successes(b, ts) == b.tokens + Regained(b, ts)
    decreases |ts|
  {
    if ts != [] {
      TokensConserved(Consume(b, ts[0]).0, ts[1..]);
    }
  }

  /** In time `d`, `n` tokens were regained: at most one per `r`, and more than one per `2r`. */
  predicate LessThanHalfLost(r: nat, n: int, d: int) {
    r * n <= d <= (2 * r - 1) * n
  }

  /** While the last refill time advances by `d`, between `d / (2r - 1)` and `d / r` tokens are
      regained: the remainders dropped at refills cost less than half. */
  lemma {:induction false} RemaindersCostLessThanHalf(b: Bucket, ts: seq<nat>, a: nat, z: nat)
    requires WellFormed(b) && b.lastRefill <= a <= z && Within(ts, a, z) && Unsaturated(b, ts)
    ensures LessThanHalfLost(b.refillRate, Regained(b, ts), BucketRun(b, ts).lastRefill - b.lastRefill)
    decreases |ts|
  {
    if ts == [] {
      assert b.refillRate * 0 == 0 == (2 * b.refillRate - 1) * 0;
    } else {
      var b1, g, d := FirstAttempt(b, ts, a, z);
      RemaindersCostLessThanHalf(b1, ts[1..], ts[0], z);
      AddBounds(b.refillRate, g, Regained(b1, ts[1..]), d, BucketRun(b1, ts[1..]).lastRefill - b1.lastRefill);
    }
  }

  lemma FirstAttempt(b: Bucket, ts: seq<nat>, a: nat, z: nat) returns (b1: Bucket, g: nat, d: nat)
    requires WellFormed(b) && b.lastRefill <= a <= z && Within(ts, a, z) && Unsaturated(b, ts) && ts != []
    ensures WellFormed(b1) && b1.lastRefill == b.lastRefill + d <= ts[0] && b1.refillRate == b.refillRate
    ensures Unsaturated(b1, ts[1..]) && LessThanHalfLost(b.refillRate, g, d)
    ensures BucketRun(b, ts) == BucketRun(b1, ts[1..]) && Regained(b, ts) == g + Regained(b1, ts[1..])
  {
    b1 := Consume(b, ts[0]).0;
    ConsumeKeeps(b, ts[0]);
    g := Periods(b, ts[0]);
    d := OneRefill(b, ts[0]);
  }

  lemma AddBounds(r: nat, g: int, n: int, d: int, e: int)
    requires LessThanHalfLost(r, g, d) && LessThanHalfLost(r, n, e)
    ensures LessThanHalfLost(r, g + n, d + e)
  {
  }

  lemma OneRefill(b: Bucket, now: nat) returns (d: nat)
    requires WellFormed(b) && b.lastRefill <= now && b.tokens + Periods(b, now) <= b.maxTokens
    ensures Refill(b, now) == b.(tokens := b.tokens + Periods(b, now), lastRefill := b.lastRefill + d)
    ensures LessThanHalfLost(b.refillRate, Periods(b, now), d) && b.lastRefill + d <= now
  {
    UnsaturatedRefill(b, now);
    if Periods(b, now) > 0 {
      d := now - b.lastRefill;
      QuotientBounds(d, b.refillRate, Periods(b, now));
    } else {
      d := 0;
      assert b.refillRate * 0 == 0;
    }
  }

  lemma UnsaturatedRefill(b: Bucket, now: nat)
    requires WellFormed(b) && b.lastRefill <= now && b.tokens + Periods(b, now) <= b.maxTokens
    ensures Refill(b, now)
         == if Periods(b, now) > 0 then b.(tokens := b.tokens + Periods(b, now), lastRefill := now) else b
  {
    RefillsOf(b, now);
    SmallMod(Periods(b, now));
    UnsaturatedRefillBy(b, now, Periods(b, now));
  }

  lemma SmallMod(k: nat)
    requires k < 0x1_0000_0000
    ensures k % 0x1_0000_0000 == k
  {
  }

  lemma UnsaturatedRefillBy(b: Bucket, now: nat, k: nat)
    requires WellFormed(b) && b.tokens + k <= b.maxTokens
    ensures RefillBy(b, k, now) == if k > 0 then b.(tokens := b.tokens + k, lastRefill := now) else b
  {
  }
}
