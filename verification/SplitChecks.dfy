/** The window bounds when checks overlap: a check holds the lock of the shared bucket first and that of
    the address buckets later, and other checks and cleanups may come between.  Each reading of the clock
    is a step of its own. */
module SplitChecks {
  import opened Arith
  import opened Addresses
  import opened RateLimiting
  import opened LimiterRuns

  /** `waiting` holds the addresses of checks that have passed the shared bucket. */
  datatype Split = Split(l: Limiter, waiting: seq<IpAddr>)

  datatype Half =
    | Ask(ip: IpAddr, now: nat)
    | Create(i: nat, now: nat)   // a full bucket, if the address has none
    | Settle(i: nat, now: nat)
    | Clean(maxAge: nat, now: nat)

  function WithBucket(l: Limiter, ip: IpAddr, now: nat): Limiter {
    l.(buckets := l.buckets[ip := BucketOf(l, ip, now)])
  }

  /** The second half of a check is a creation and a settlement, with whatever happens to the shared
      bucket in between. */
  lemma CreateThenSettle(l: Limiter, ip: IpAddr, created: nat, now: nat, global: Bucket)
    ensures CheckOwn(WithBucket(l, ip, created).(global := global), ip, now, now)
      == (CheckOwn(l, ip, created, now).0.(global := global), CheckOwn(l, ip, created, now).1)
  {
    var b := CheckOwn(l, ip, created, now).0.buckets[ip];
    assert l.buckets[ip := BucketOf(l, ip, created)][ip := b] == l.buckets[ip := b];
  }

  function Advance(s: Split, e: Half): Split {
    match e
    case Ask(ip, now) =>
      var (l, pass) := CheckShared(s.l, now);
      Split(l, if pass then s.waiting + [ip] else s.waiting)
    case Create(i, now) => if i < |s.waiting| then s.(l := WithBucket(s.l, s.waiting[i], now)) else s
    case Settle(i, now) =>
      if i < |s.waiting|
      then Split(CheckOwn(s.l, s.waiting[i], now, now).0, s.waiting[..i] + s.waiting[i+1..])
      else s
    case Clean(maxAge, now) => s.(l := Cleanup(s.l, maxAge, now))
  }

  function Proceed(s: Split, es: seq<Half>): Split
    decreases |es|
  {
    if es == [] then s else Proceed(Advance(s, es[0]), es[1..])
  }

  /** The half that lets a check through. */
  predicate Grants(s: Split, e: Half) {
    e.Settle? && e.i < |s.waiting| && CheckOwn(s.l, s.waiting[e.i], e.now, e.now).1.Allowed?
  }

  function GrantedTo(s: Split, es: seq<Half>, ip: IpAddr): nat
    decreases |es|
  {
    if es == [] then 0
    else (if Grants(s, es[0]) && s.waiting[es[0].i] == ip then 1 else 0) + GrantedTo(Advance(s, es[0]), es[1..], ip)
  }

  function GrantedTotal(s: Split, es: seq<Half>): nat
    decreases |es|
  {
    if es == [] then 0 else (if Grants(s, es[0]) then 1 else 0) + GrantedTotal(Advance(s, es[0]), es[1..])
  }

  /** Clock readings in order, within [from, to]. */
  predicate InOrder(es: seq<Half>, from: nat, to: nat)
    decreases |es|
  {
    es == [] || (from <= es[0].now <= to && InOrder(es[1..], es[0].now, to))
  }

  predicate Gentle(e: Half, maxRequests: nat, rate: nat, born: nat) {
    e.Clean? ==> Harmless(CleanupAt(e.maxAge, e.now), maxRequests, rate, born)
  }

  // ---------------------------------------------------------------------------------------------
  // One half

  lemma AskKeepsInv(l: Limiter, now: nat, born: nat, t: nat)
    requires Inv(l, born, t) && t <= now
    ensures Inv(CheckShared(l, now).0, born, now)
  {
    ConsumeKeeps(l.global, now);
    LastRefillMoves(l.global, now);
  }

  lemma CreateKeepsInv(l: Limiter, ip: IpAddr, now: nat, born: nat, t: nat)
    requires Inv(l, born, t) && t <= now
    ensures Inv(WithBucket(l, ip, now), born, now)
    ensures BucketInv(l, BucketOf(l, ip, now), born, now)
  {
    RateIsWholeMillis(l.maxRequests, l.window);
    var l' := WithBucket(l, ip, now);
    forall i | i in l'.buckets
      ensures BucketInv(l', l'.buckets[i], born, now)
    {
    }
  }

  lemma SettleKeepsInv(l: Limiter, ip: IpAddr, now: nat, born: nat, t: nat)
    requires Inv(l, born, t) && t <= now
    ensures Inv(CheckOwn(l, ip, now, now).0, born, now)
  {
    CreateKeepsInv(l, ip, now, born, t);
    ConsumeKeepsInv(l, BucketOf(l, ip, now), born, now, now);
    var l' := CheckOwn(l, ip, now, now).0;
    forall i | i in l'.buckets
      ensures BucketInv(l', l'.buckets[i], born, now)
    {
    }
  }

  lemma HalfKeepsInv(s: Split, e: Half, born: nat, t: nat)
    requires Inv(s.l, born, t) && t <= e.now
    ensures Inv(Advance(s, e).l, born, e.now)
    ensures Advance(s, e).l.maxRequests == s.l.maxRequests && Advance(s, e).l.window == s.l.window
  {
    match e
    case Ask(ip, now) => AskKeepsInv(s.l, now, born, t);
    case Create(i, now) =>
      if i < |s.waiting| {
        CreateKeepsInv(s.l, s.waiting[i], now, born, t);
      }
    case Settle(i, now) =>
      if i < |s.waiting| {
        SettleKeepsInv(s.l, s.waiting[i], now, born, t);
      }
    case Clean(maxAge, now) => ApplyKeepsInv(s.l, CleanupAt(maxAge, now), born, t);
  }

  lemma {:induction false} RunKeepsInv(s: Split, es: seq<Half>, born: nat, t: nat, z: nat)
    requires Inv(s.l, born, t) && t <= z && InOrder(es, t, z)
    ensures var l := Proceed(s, es).l; Inv(l, born, z) && l.maxRequests == s.l.maxRequests && l.window == s.l.window
    decreases |es|
  {
    if es != [] {
      HalfKeepsInv(s, es[0], born, t);
      RunKeepsInv(Advance(s, es[0]), es[1..], born, es[0].now, z);
    }
  }

  /** A new bucket is worth what its absence was. */
  lemma CreatePays(l: Limiter, ip: IpAddr, now: nat, born: nat, t: nat)
    requires Inv(l, born, t) && t <= now
    ensures Inv(WithBucket(l, ip, now), born, now)
    ensures AddressBudget(WithBucket(l, ip, now), ip, now) <= AddressBudget(l, ip, t) + (now - t)
  {
    CreateKeepsInv(l, ip, now, born, t);
    if ip in l.buckets {
      BudgetGrows(l.buckets[ip], t, now);
    } else {
      FreshBudget(l.maxRequests, Rate(l.maxRequests, l.window), now);
    }
  }

  /** What a settled check costs its own address. */
  lemma SettlePays(l: Limiter, ip: IpAddr, now: nat, born: nat, t: nat)
    requires Inv(l, born, t) && t <= now && Inv(CheckOwn(l, ip, now, now).0, born, now)
    ensures var (l', v) := CheckOwn(l, ip, now, now);
      AddressBudget(l', ip, now) + (if v.Allowed? then Rate(l.maxRequests, l.window) else 0)
        <= AddressBudget(l, ip, t) + (now - t)
  {
    CreatePays(l, ip, now, born, t);
    CreateKeepsInv(l, ip, now, born, t);
    ConsumePays(BucketOf(l, ip, now), now);
  }

  lemma OthersWait(l: Limiter, l': Limiter, ip: IpAddr, born: nat, t: nat, now: nat)
    requires Inv(l, born, t) && Inv(l', born, now) && t <= now
    requires l'.maxRequests == l.maxRequests && l'.window == l.window
    requires (ip in l'.buckets <==> ip in l.buckets) && (ip in l.buckets ==> l'.buckets[ip] == l.buckets[ip])
    ensures AddressBudget(l', ip, now) <= AddressBudget(l, ip, t) + (now - t)
  {
    if ip in l.buckets {
      BudgetGrows(l.buckets[ip], t, now);
    }
  }

  lemma HalfPays(s: Split, e: Half, ip: IpAddr, born: nat, t: nat)
    requires Inv(s.l, born, t) && t <= e.now && Inv(Advance(s, e).l, born, e.now)
    requires Gentle(e, s.l.maxRequests, Rate(s.l.maxRequests, s.l.window), born)
    ensures AddressBudget(Advance(s, e).l, ip, e.now)
      + (if Grants(s, e) && s.waiting[e.i] == ip then Rate(s.l.maxRequests, s.l.window) else 0)
      <= AddressBudget(s.l, ip, t) + (e.now - t)
  {
    var l' := Advance(s, e).l;
    if e.Clean? {
      CleanupPays(s.l, CleanupAt(e.maxAge, e.now), ip, born, t);
    } else if e.Settle? && e.i < |s.waiting| && s.waiting[e.i] == ip {
      SettlePays(s.l, ip, e.now, born, t);
    } else if e.Create? && e.i < |s.waiting| && s.waiting[e.i] == ip {
      CreatePays(s.l, ip, e.now, born, t);
    } else {
      OthersWait(s.l, l', ip, born, t, e.now);
    }
  }

  lemma {:induction false} GrantedToPays(s: Split, es: seq<Half>, ip: IpAddr, born: nat, t: nat, z: nat)
    requires Inv(s.l, born, t) && t <= z && InOrder(es, t, z)
    requires forall e :: e in es ==> Gentle(e, s.l.maxRequests, Rate(s.l.maxRequests, s.l.window), born)
    ensures Rate(s.l.maxRequests, s.l.window) * GrantedTo(s, es, ip) <= AddressBudget(s.l, ip, t) + (z - t)
    decreases |es|
  {
    var r := Rate(s.l.maxRequests, s.l.window);
    if es == [] {
      assert r * 0 == 0;
    } else {
      var e, rest := es[0], GrantedTo(Advance(s, es[0]), es[1..], ip);
      assert e in es && forall x :: x in es[1..] ==> x in es;
      HalfKeepsInv(s, e, born, t);
      HalfPays(s, e, ip, born, t);
      GrantedToPays(Advance(s, e), es[1..], ip, born, e.now, z);
      Distribute(r, if Grants(s, e) && s.waiting[e.i] == ip then 1 else 0, rest);
    }
  }

  // ---------------------------------------------------------------------------------------------
  // All addresses: the shared bucket pays for checks still waiting too

  function SharedBudget(s: Split, t: nat): nat
    requires Rate(s.l.maxRequests, s.l.window) > 0 && s.l.global.refillRate > 0 && s.l.global.lastRefill <= t
  {
    Budget(s.l.global, t) + Rate(s.l.maxRequests, s.l.window) * |s.waiting|
  }

  lemma HalfPaysShared(s: Split, e: Half, born: nat, t: nat)
    requires Inv(s.l, born, t) && t <= e.now && Inv(Advance(s, e).l, born, e.now)
    ensures SharedBudget(Advance(s, e), e.now) + (if Grants(s, e) then Rate(s.l.maxRequests, s.l.window) else 0)
      <= SharedBudget(s, t) + (e.now - t)
  {
    var r, n := Rate(s.l.maxRequests, s.l.window), |s.waiting|;
    BudgetGrows(s.l.global, t, e.now);
    match e
    case Ask(ip, now) =>
      ConsumePays(s.l.global, now);
      Distribute(r, n, 1);
    case Create(_, _) =>
    case Settle(i, now) =>
      if i < n {
        Distribute(r, n - 1, 1);
      }
    case Clean(_, _) =>
  }

  lemma {:induction false} GrantedTotalPays(s: Split, es: seq<Half>, born: nat, t: nat, z: nat)
    requires Inv(s.l, born, t) && t <= z && InOrder(es, t, z)
    ensures Rate(s.l.maxRequests, s.l.window) * GrantedTotal(s, es) <= SharedBudget(s, t) + (z - t)
    decreases |es|
  {
    var r := Rate(s.l.maxRequests, s.l.window);
    if es == [] {
      assert r * 0 == 0;
      MulMono(0, |s.waiting|, r);
    } else {
      var e, rest := es[0], GrantedTotal(Advance(s, es[0]), es[1..]);
      HalfKeepsInv(s, e, born, t);
      HalfPaysShared(s, e, born, t);
      GrantedTotalPays(Advance(s, e), es[1..], born, e.now, z);
      Distribute(r, if Grants(s, e) then 1 else 0, rest);
    }
  }

  // ---------------------------------------------------------------------------------------------
  // The bounds

  function Start(maxRequests: nat, window: nat, born: nat): Split {
    Split(New(maxRequests, window, born), [])
  }

  /** Overlapping checks change nothing for one address: any window of length `w` lets at most
      `maxRequests + ceil(w / rate)` of its checks through, under the same condition on cleanups. */
  lemma OverlappingPerAddress(maxRequests: nat, window: nat, born: nat, before: seq<Half>, inside: seq<Half>,
                              ip: IpAddr, a: nat, w: nat)
    requires maxRequests < 0x1_0000_0000 && Rate(maxRequests, window) > 0
    requires born <= a && InOrder(before, born, a) && InOrder(inside, a, a + w)
    requires forall e :: e in inside ==> Gentle(e, maxRequests, Rate(maxRequests, window), born)
    ensures GrantedTo(Proceed(Start(maxRequests, window, born), before), inside, ip)
      <= maxRequests + CeilDiv(w, Rate(maxRequests, window))
  {
    NewInv(maxRequests, window, born);
    RunKeepsInv(Start(maxRequests, window, born), before, born, born, a);
    var s := Proceed(Start(maxRequests, window, born), before);
    GrantedToPays(s, inside, ip, born, a, a + w);
    PaidCount(GrantedTo(s, inside, ip), maxRequests, Rate(maxRequests, window), w);
  }

  /** For all addresses together the bound grows by the checks that were waiting when the window began. */
  lemma OverlappingTotal(maxRequests: nat, window: nat, born: nat, before: seq<Half>, inside: seq<Half>, a: nat, w: nat)
    requires maxRequests < 0x1_0000_0000 && Rate(maxRequests, window) > 0
    requires born <= a && InOrder(before, born, a) && InOrder(inside, a, a + w)
    ensures var s := Proceed(Start(maxRequests, window, born), before);
      GrantedTotal(s, inside) <= |s.waiting| + 10 * maxRequests + CeilDiv(w, Rate(maxRequests, window))
  {
    var r := Rate(maxRequests, window);
    NewInv(maxRequests, window, born);
    RunKeepsInv(Start(maxRequests, window, born), before, born, born, a);
    var s := Proceed(Start(maxRequests, window, born), before);
    GrantedTotalPays(s, inside, born, a, a + w);
    Distribute(r, GlobalMax(maxRequests), |s.waiting|);
    PaidCount(GrantedTotal(s, inside), GlobalMax(maxRequests) + |s.waiting|, r, w);
  }
}
