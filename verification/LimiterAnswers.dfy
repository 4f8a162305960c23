/** What the answers of the rate limiter mean to the client that gets them. */
module LimiterAnswers {
  import opened Arith
  import opened Addresses
  import opened RateLimiting
  import opened LimiterRuns

  // ---------------------------------------------------------------------------------------------
  // Configuration, in plain arithmetic

  /** One token per whole millisecond share of the window; one per second if nothing is allowed. */
  lemma RateIs(maxRequests: nat, window: nat)
    requires window / 1_000_000 < 0x1_0000_0000_0000_0000
    ensures Rate(maxRequests, window)
         == if maxRequests > 0 then window / 1_000_000 / maxRequests * 1_000_000 else 1_000_000_000
  {
  }

  /** A new limiter: the shared bucket holds ten times the requests, or what fits 32 bits, and an address
      without a bucket is given a full one. */
  lemma NewIs(maxRequests: nat, window: nat, now: nat)
    ensures var l := New(maxRequests, window, now);
      && l.maxRequests == maxRequests && l.window == window && l.buckets == map[]
      && l.global.tokens == l.global.maxTokens
      && l.global.maxTokens == (if maxRequests * 10 <= 0xffff_ffff then maxRequests * 10 else 0xffff_ffff)
      && l.global.lastRefill == now && l.global.refillRate == Rate(maxRequests, window)
    ensures forall l: Limiter, ip :: ip !in l.buckets ==>
      BucketOf(l, ip, now) == Bucket(l.maxRequests, l.maxRequests, now, Rate(l.maxRequests, l.window))
    ensures forall l: Limiter, ip :: ip in l.buckets ==> BucketOf(l, ip, now) == l.buckets[ip]
  {
  }

  // ---------------------------------------------------------------------------------------------
  // One refill

  /** A refill adds the whole periods since the last one, in 32 bits and up to the capacity, and forgets the
      rest of the time; without a whole period nothing changes. */
  lemma RefillIs(b: Bucket, now: nat)
    requires WellFormed(b) && b.lastRefill <= now
    ensures var n, b' := (now - b.lastRefill) / b.refillRate % 0x1_0000_0000, Refill(b, now);
      && b'.maxTokens == b.maxTokens && b'.refillRate == b.refillRate
      && (n == 0 ==> b' == b)
      && (n > 0 ==>
            && b'.lastRefill == now
            && b'.tokens == if (b.tokens + n) % 0x1_0000_0000 <= b.maxTokens then (b.tokens + n) % 0x1_0000_0000
                            else b.maxTokens)
  {
    RefillsOf(b, now);
    assert Refill(b, now) == RefillBy(b, Refills(b, now), now);
  }

  /** `k` attempts, a wait apart, and the time of the last. */
  function Spaced(from: nat, wait: nat, k: nat): seq<nat>
    decreases k
  {
    if k == 0 then [] else [from + wait] + Spaced(from + wait, wait, k - 1)
  }

  function Ends(from: nat, wait: nat, k: nat): nat
    decreases k
  {
    if k == 0 then from else Ends(from + wait, wait, k - 1)
  }

  lemma {:induction false} EndsIs(from: nat, wait: nat, k: nat)
    ensures Ends(from, wait, k) == from + k * wait
    decreases k
  {
    if k > 0 {
      EndsIs(from + wait, wait, k - 1);
      Distribute(wait, k - 1, 1);
    }
  }

  lemma OneLost(b: Bucket, wait: nat)
    requires WellFormed(b) && b.tokens < b.maxTokens && wait == 2 * b.refillRate - 1
    ensures Refill(b, b.lastRefill + wait) == b.(tokens := b.tokens + 1, lastRefill := b.lastRefill + wait)
  {
    var now := b.lastRefill + wait;
    DivUnique(wait, b.refillRate, 1, b.refillRate - 1);
    RefillsOf(b, now);
    assert Refill(b, now) == RefillBy(b, 1, now);
    SmallMod(b.tokens + 1);
  }

  lemma {:induction false} LostInTurn(b: Bucket, wait: nat, k: nat)
    requires WellFormed(b) && b.tokens < b.maxTokens && wait == 2 * b.refillRate - 1
    ensures var ts := Spaced(b.lastRefill, wait, k);
      && Regained(b, ts) == k && Successes(b, ts) == k
      && BucketRun(b, ts) == b.(lastRefill := Ends(b.lastRefill, wait, k))
    decreases k
  {
    if k > 0 {
      OneLost(b, wait);
      var b1 := b.(lastRefill := b.lastRefill + wait);
      assert Consume(b, b.lastRefill + wait) == (b1, true);
      LostInTurn(b1, wait, k - 1);
      assert Spaced(b.lastRefill, wait, k)[1..] == Spaced(b1.lastRefill, wait, k - 1);
    }
  }

  /** The bound on lost remainders is sharp: attempts just before a second period is over regain one token
      each, in nearly two periods. */
  lemma RemaindersAreLost(b: Bucket, k: nat)
    requires WellFormed(b) && b.tokens < b.maxTokens
    ensures var ts := Spaced(b.lastRefill, 2 * b.refillRate - 1, k);
      && Regained(b, ts) == k && Successes(b, ts) == k
      && BucketRun(b, ts).lastRefill - b.lastRefill == k * (2 * b.refillRate - 1)
  {
    LostInTurn(b, 2 * b.refillRate - 1, k);
    EndsIs(b.lastRefill, 2 * b.refillRate - 1, k);
  }

  // ---------------------------------------------------------------------------------------------
  // Buckets of a run refill at the rate of the limiter

  predicate SameRates(l: Limiter, maxRequests: nat, window: nat) {
    && l.maxRequests == maxRequests && l.window == window
    && forall ip :: ip in l.buckets ==> l.buckets[ip].refillRate == Rate(maxRequests, window)
  }

  lemma {:induction false} RunKeepsRates(l: Limiter, es: seq<Event>, maxRequests: nat, window: nat)
    requires SameRates(l, maxRequests, window)
    ensures SameRates(Run(l, es), maxRequests, window)
    decreases |es|
  {
    if es != [] {
      RunKeepsRates(Apply(l, es[0]), es[1..], maxRequests, window);
    }
  }

  /** The shared bucket lets the check through. */
  predicate PassesShared(l: Limiter, now: nat) {
    Consume(l.global, now).1
  }

  // ---------------------------------------------------------------------------------------------
  // Refusals

  /** In any run, a refusal by the shared bucket names the window, one by the bucket of the address the
      time in which that bucket regains a token; neither leaves anything. */
  lemma RefusalsSay(maxRequests: nat, window: nat, born: nat, es: seq<Event>, ip: IpAddr,
                    asked: nat, created: nat, now: nat)
    requires window / 1_000_000 < 0x1_0000_0000_0000_0000
    ensures var l := Run(New(maxRequests, window, born), es); var v := CheckThrough(l, ip, asked, created, now).1;
      && (!PassesShared(l, asked) ==> v == Limited(0, window))
      && (PassesShared(l, asked) && v.Limited? ==>
            && v.remaining == 0
            && v.retryAfter == if maxRequests > 0 then window / 1_000_000 / maxRequests * 1_000_000 else 1_000_000_000)
  {
    RunKeepsRates(New(maxRequests, window, born), es, maxRequests, window);
    RateIs(maxRequests, window);
  }

  /** An address refused by its own bucket. */
  predicate RefusedByOwn(l: Limiter, ip: IpAddr, now: nat) {
    PassesShared(l, now) && Check(l, ip, now).1.Limited?
  }

  lemma RegainsOne(b: Bucket, later: nat)
    requires WellFormed(b) && b.maxTokens > 0 && b.lastRefill + b.refillRate <= later
    requires IdlePeriods(b.refillRate, later - b.lastRefill) + b.tokens < 0x1_0000_0000
    ensures Consume(b, later).1
  {
    var k := IdlePeriods(b.refillRate, later - b.lastRefill);
    RefillsOf(b, later);
    SmallMod(k);
    DivBelow(later - b.lastRefill, b.refillRate, 1);
    assert Refill(b, later) == RefillBy(b, k, later);
    SmallMod(b.tokens + k);
  }

  lemma Sooner(born: nat, last: nat, later: nat, r: nat, m: nat)
    requires r > 0 && born <= last <= later && BeforeWrap(m, r, born, later)
    ensures IdlePeriods(r, later - last) + m < 0x1_0000_0000
  {
    DivMono(later - last, later - born, r);
  }

  /** Waiting as long as the refusal says, or longer, is enough for the bucket of the address: it then has a
      token, as long as the refill count cannot have wrapped. */
  lemma WaitingIsEnough(maxRequests: nat, window: nat, born: nat, es: seq<Event>, ip: IpAddr, now: nat, later: nat)
    requires 0 < maxRequests < 0x1_0000_0000 && Rate(maxRequests, window) > 0 && born <= now && Timed(es, born, now)
    requires RefusedByOwn(Run(New(maxRequests, window, born), es), ip, now)
    requires var l := Run(New(maxRequests, window, born), es); now + Check(l, ip, now).1.retryAfter <= later
    requires BeforeWrap(maxRequests, Rate(maxRequests, window), born, later)
    ensures var l := Check(Run(New(maxRequests, window, born), es), ip, now).0;
      ip in l.buckets && Consume(l.buckets[ip], later).1
  {
    var l, r := Run(New(maxRequests, window, born), es), Rate(maxRequests, window);
    NewInv(maxRequests, window, born);
    RunKeepsInv(New(maxRequests, window, born), es, born, born, now);
    ApplyKeepsInv(l, CheckAt(ip, now), born, now);
    RunKeepsRates(New(maxRequests, window, born), es, maxRequests, window);
    var b := Check(l, ip, now).0.buckets[ip];
    assert BucketInv(Check(l, ip, now).0, b, born, now);
    assert Check(l, ip, now).1.retryAfter == r;
    Sooner(born, b.lastRefill, later, r, maxRequests);
    RegainsOne(b, later);
  }

  lemma EmptyStays(b: Bucket, wait: nat)
    requires WellFormed(b) && b.tokens == 0 && wait < b.refillRate
    ensures !Consume(b, b.lastRefill + wait).1
  {
    var k := IdlePeriods(b.refillRate, wait);
    RefillsOf(b, b.lastRefill + wait);
    DivBelow(wait, b.refillRate, 1);
    assert k == 0 && Refill(b, b.lastRefill + wait) == RefillBy(b, 0, b.lastRefill + wait);
  }

  /** A refusal at the time of the last refill changes nothing in the bucket of the address. */
  lemma EmptyRefusal(l: Limiter, ip: IpAddr, now: nat)
    requires l.global.tokens > 0 && l.global.lastRefill == now
    requires ip in l.buckets && l.buckets[ip].tokens == 0 && l.buckets[ip].lastRefill == now
    ensures RefusedByOwn(l, ip, now)
    ensures Check(l, ip, now).1.retryAfter == l.buckets[ip].refillRate
    ensures ip in Check(l, ip, now).0.buckets && Check(l, ip, now).0.buckets[ip] == l.buckets[ip]
  {
    NoTimeNoRefill(l.global);
    NoTimeNoRefill(l.buckets[ip]);
  }

  /** No shorter wait is always enough: after a burst, the address is refused, and still has no token any
      time earlier than its answer says. */
  lemma WaitingLessIsNot(maxRequests: nat, window: nat, born: nat, ip: IpAddr, wait: nat)
    requires 0 < maxRequests < 0xffff_ffff && wait < Rate(maxRequests, window)
    ensures var l := Run(New(maxRequests, window, born), Burst(ip, born, maxRequests));
      && RefusedByOwn(l, ip, born) && Check(l, ip, born).1.retryAfter == Rate(maxRequests, window)
      && var l' := Check(l, ip, born).0; ip in l'.buckets && !Consume(l'.buckets[ip], born + wait).1
  {
    FirstBurst(maxRequests, window, born, ip, maxRequests);
    RateIsWholeMillis(maxRequests, window);
    var l := Run(New(maxRequests, window, born), Burst(ip, born, maxRequests));
    EmptyRefusal(l, ip, born);
    EmptyStays(l.buckets[ip], wait);
  }

  /** The first requests of an address are all allowed, and each answer says how many are left. */
  lemma {:induction false} RemainingCountsDown(maxRequests: nat, window: nat, born: nat, ip: IpAddr, n: nat)
    requires n < maxRequests < 0x1_0000_0000
    ensures var l := Run(New(maxRequests, window, born), Burst(ip, born, n));
      Check(l, ip, born).1 == Allowed(maxRequests - 1 - n)
  {
    FirstBurst(maxRequests, window, born, ip, n);
    var l := Run(New(maxRequests, window, born), Burst(ip, born, n));
    NoTimeNoRefill(l.global);
    NoTimeNoRefill(BucketOf(l, ip, born));
    assert BucketOf(l, ip, born) == Bucket(maxRequests - n, maxRequests, born, Rate(maxRequests, window));
  }
}
