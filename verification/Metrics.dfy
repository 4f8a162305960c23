/** Request timing: relaxed atomics for sum, count and maximum, and a latency histogram behind a lock.

    Each atomic access is one event.  The maximum is given by its modification order, the list of all
    values it has had: a relaxed load, or a failing exchange, may return any of them, and a successful
    exchange reads the newest.  Durations are in nanoseconds. */
module Metrics {
  import opened Arith

  // ---------------------------------------------------------------------------------------------
  // The histogram

  /** Upper bounds of the first ten buckets in milliseconds; the eleventh has none. */
  const BOUNDS: seq<nat> := [1, 5, 10, 25, 50, 100, 250, 500, 1000, 5000]

  /** Each bucket starts at the bound below it and ends before its own. */
  predicate InBucket(ms: nat, b: nat) {
    b <= 10 && (b > 0 ==> BOUNDS[b - 1] <= ms) && (b < 10 ==> ms < BOUNDS[b])
  }

  function FirstAbove(ms: nat, i: nat): (b: nat)
    requires i <= 10 && (i > 0 ==> BOUNDS[i - 1] <= ms)
    ensures InBucket(ms, b)
    decreases 10 - i
  {
    if i == 10 || ms < BOUNDS[i] then i else FirstAbove(ms, i + 1)
  }

  function BucketOf(ms: nat): nat {
    FirstAbove(ms, 0)
  }

  /** The buckets partition the durations. */
  lemma BucketIff(ms: nat, b: nat)
    ensures InBucket(ms, b) <==> b == BucketOf(ms)
  {
  }

  /** The buckets are those of the report: below 1, 5, 10, 25, 50, 100, 250 and 500 ms, 1 s and 5 s, and the rest. */
  lemma BucketTable(ms: nat)
    ensures BucketOf(ms) ==
      if ms < 1 then 0 else if ms < 5 then 1 else if ms < 10 then 2 else if ms < 25 then 3 else if ms < 50 then 4
      else if ms < 100 then 5 else if ms < 250 then 6 else if ms < 500 then 7 else if ms < 1_000 then 8
      else if ms < 5_000 then 9 else 10
  {
    BucketIff(ms, BucketOf(ms));
  }

  class LatencyHistogram {
    const buckets: array<nat>   // u64 each

    ghost predicate Valid()
      reads this
    {
      buckets.Length == 11
    }

    constructor ()
      ensures Valid() && fresh(buckets) && buckets[..] == seq(11, i => 0)
    {
      buckets := new nat[11](i => 0);
    }

    method Record(ms: nat)
      requires Valid()
      modifies buckets
      ensures var b := BucketOf(ms);
        buckets[..] == old(buckets[..])[b := (old(buckets[b]) + 1) % 0x1_0000_0000_0000_0000]
    {
      var b := 0;
      while b < 10 && ms >= BOUNDS[b]
        invariant 0 <= b <= 10 && (b > 0 ==> BOUNDS[b - 1] <= ms)
      {
        b := b + 1;
      }
      BucketIff(ms, b);
      buckets[b] := (buckets[b] + 1) % 0x1_0000_0000_0000_0000;
    }

    method Reset()
      requires Valid()
      modifies buckets
      ensures buckets[..] == seq(11, i => 0)
    {
      for i := 0 to 11
        invariant forall k :: 0 <= k < i ==> buckets[k] == 0
      {
        buckets[i] := 0;
      }
    }
  }

  // ---------------------------------------------------------------------------------------------
  // Concurrent calls of record_request_duration

  datatype Phase =
    | AddingSum
    | AddingCount
    | Loading
    | Trying(expected: nat)   // in the loop, with the value last read
    | Recording               // out of the loop
    | Done

  datatype Call = Call(duration: nat, phase: Phase)

  datatype Sys = Sys(sum: nat, count: nat, maxima: seq<nat>, buckets: seq<nat>, calls: seq<Call>)

  datatype Event =
    | Begin(duration: nat)
    | AddSum(c: nat)
    | AddCount(c: nat)
    | Load(c: nat, k: nat)                        // returns the k-th value the maximum has had
    | Exchange(c: nat, k: nat, spurious: bool)
    | Record(c: nat)

  const INIT := Sys(0, 0, [0], seq(11, i => 0), [])

  /** `as_micros() as u64` and `as_millis() as u64` */
  function Micros(c: Call): nat {
    c.duration / 1_000 % 0x1_0000_0000_0000_0000
  }

  function Millis(c: Call): nat {
    c.duration / 1_000_000 % 0x1_0000_0000_0000_0000
  }

  predicate Enabled(s: Sys, e: Event) {
    match e
    case Begin(_) => true
    case AddSum(c) => c < |s.calls| && s.calls[c].phase.AddingSum?
    case AddCount(c) => c < |s.calls| && s.calls[c].phase.AddingCount?
    case Load(c, k) => c < |s.calls| && s.calls[c].phase.Loading? && k < |s.maxima|
    case Exchange(c, k, _) => c < |s.calls| && s.calls[c].phase.Trying? && k < |s.maxima|
    case Record(c) => c < |s.calls| && s.calls[c].phase.Recording?
  }

  /** The exchange reads the newest value, finds what it expects, and does not fail spuriously. */
  predicate Succeeds(s: Sys, e: Event)
    requires Enabled(s, e) && e.Exchange?
  {
    e.k == |s.maxima| - 1 && s.maxima[e.k] == s.calls[e.c].phase.expected && !e.spurious
  }

  /** The test at the head of the loop. */
  function LoopTest(call: Call, current: nat): Phase {
    if Micros(call) > current then Trying(current) else Recording
  }

  function Next(s: Sys, e: Event): Phase
    requires Enabled(s, e) && !e.Begin?
  {
    match e
    case AddSum(_) => AddingCount
    case AddCount(_) => Loading
    case Load(c, k) => LoopTest(s.calls[c], s.maxima[k])
    case Exchange(c, k, _) => if Succeeds(s, e) then Recording else LoopTest(s.calls[c], s.maxima[k])
    case Record(_) => Done
  }

  function Step(s: Sys, e: Event): Sys {
    if !Enabled(s, e) then s
    else if e.Begin? then s.(calls := s.calls + [Call(e.duration, AddingSum)])
    else
      var call := s.calls[e.c];
      var calls := s.calls[e.c := call.(phase := Next(s, e))];
      if e.AddSum? then s.(sum := (s.sum + Micros(call)) % 0x1_0000_0000_0000_0000, calls := calls)
      else if e.AddCount? then s.(count := (s.count + 1) % 0x1_0000_0000_0000_0000, calls := calls)
      else if e.Exchange? && Succeeds(s, e) then s.(maxima := s.maxima + [Micros(call)], calls := calls)
      else if e.Record? then s.(buckets := Bump(s.buckets, BucketOf(Millis(call))), calls := calls)
      else s.(calls := calls)
  }

  function Bump(buckets: seq<nat>, b: nat): (r: seq<nat>)
    ensures |r| == |buckets|
  {
    if b < |buckets| then buckets[b := (buckets[b] + 1) % 0x1_0000_0000_0000_0000] else buckets
  }

  function Run(s: Sys, es: seq<Event>): Sys
    decreases |es|
  {
    if es == [] then s else Run(Step(s, es[0]), es[1..])
  }

  predicate OutOfLoop(call: Call) {
    call.phase.Recording? || call.phase.Done?
  }

  // The maximum

  function Latest(s: Sys): nat {
    if s.maxima == [] then 0 else s.maxima[|s.maxima|-1]
  }

  predicate CallInv(maxima: seq<nat>, call: Call) {
    && maxima != []
    && (OutOfLoop(call) ==> Micros(call) <= maxima[|maxima|-1])
    && (call.phase.Trying? ==> Micros(call) > call.phase.expected && call.phase.expected in maxima)
  }

  predicate Increasing(xs: seq<nat>) {
    forall i, k :: 0 <= i < k < |xs| ==> xs[i] < xs[k]
  }

  /** Some call out of the loop took that long. */
  predicate Recorded(calls: seq<Call>, m: nat) {
    exists c :: 0 <= c < |calls| && OutOfLoop(calls[c]) && Micros(calls[c]) == m
  }

  ghost predicate MaxInv(s: Sys) {
    && s.maxima != [] && s.maxima[0] == 0 && Increasing(s.maxima)
    && (forall k :: 0 < k < |s.maxima| ==> Recorded(s.calls, s.maxima[k]))
    && (forall c :: 0 <= c < |s.calls| ==> CallInv(s.maxima, s.calls[c]))
  }

  lemma HistoryGrows(s: Sys, e: Event)
    requires MaxInv(s)
    ensures var s' := Step(s, e);
      && s.maxima <= s'.maxima && Increasing(s'.maxima)
      && (s'.maxima != s.maxima ==>
            && Enabled(s, e) && e.Exchange?
            && s'.maxima == s.maxima + [Micros(s.calls[e.c])] && OutOfLoop(s'.calls[e.c]))
  {
  }

  lemma LongerHistory(maxima: seq<nat>, maxima': seq<nat>, call: Call)
    requires CallInv(maxima, call) && maxima <= maxima' && Increasing(maxima')
    ensures CallInv(maxima', call)
  {
  }

  lemma ActiveCall(s: Sys, e: Event)
    requires MaxInv(s) && Enabled(s, e) && !e.Begin?
    ensures var s' := Step(s, e);
      && s'.calls == s.calls[e.c := s.calls[e.c].(phase := Next(s, e))]
      && CallInv(s'.maxima, s'.calls[e.c]) && (OutOfLoop(s.calls[e.c]) ==> OutOfLoop(s'.calls[e.c]))
  {
    assert CallInv(s.maxima, s.calls[e.c]);
  }

  lemma CallStays(s: Sys, e: Event, c: nat)
    requires MaxInv(s) && c < |s.calls|
    ensures var s' := Step(s, e);
      && c < |s'.calls| && s'.calls[c].duration == s.calls[c].duration
      && CallInv(s'.maxima, s'.calls[c])
      && (OutOfLoop(s.calls[c]) ==> OutOfLoop(s'.calls[c]))
  {
    assert CallInv(s.maxima, s.calls[c]);
    HistoryGrows(s, e);
    LongerHistory(s.maxima, Step(s, e).maxima, s.calls[c]);
    if Enabled(s, e) && !e.Begin? {
      ActiveCall(s, e);
    }
  }

  lemma StepKeepsMaxInv(s: Sys, e: Event)
    requires MaxInv(s)
    ensures MaxInv(Step(s, e))
  {
    var s' := Step(s, e);
    HistoryGrows(s, e);
    forall c | 0 <= c < |s'.calls|
      ensures CallInv(s'.maxima, s'.calls[c])
    {
      if c < |s.calls| {
        CallStays(s, e, c);
      }
    }
    forall k | 0 < k < |s'.maxima|
      ensures Recorded(s'.calls, s'.maxima[k])
    {
      if k < |s.maxima| {
        RecordedStays(s, e, s.maxima[k]);
      } else {
        NewestIsRecorded(s, e);
      }
    }
  }

  lemma RecordedStays(s: Sys, e: Event, m: nat)
    requires MaxInv(s) && Recorded(s.calls, m)
    ensures Recorded(Step(s, e).calls, m)
  {
    var c :| 0 <= c < |s.calls| && OutOfLoop(s.calls[c]) && Micros(s.calls[c]) == m;
    CallStays(s, e, c);
    assert OutOfLoop(Step(s, e).calls[c]) && Micros(Step(s, e).calls[c]) == m;
  }

  lemma NewestIsRecorded(s: Sys, e: Event)
    requires MaxInv(s) && Step(s, e).maxima != s.maxima
    ensures Recorded(Step(s, e).calls, Latest(Step(s, e)))
  {
    HistoryGrows(s, e);
    assert Micros(Step(s, e).calls[e.c]) == Micros(s.calls[e.c]);
  }

  lemma {:induction false} RunKeepsMaxInv(s: Sys, es: seq<Event>)
    requires MaxInv(s)
    ensures MaxInv(Run(s, es)) && s.maxima <= Run(s, es).maxima
    decreases |es|
  {
    if es != [] {
      StepKeepsMaxInv(s, es[0]);
      HistoryGrows(s, es[0]);
      RunKeepsMaxInv(Step(s, es[0]), es[1..]);
    }
  }

  /** From any reachable state on, the maximum never decreases and keeps its history. */
  lemma MaxNeverDecreases(before: seq<Event>, after: seq<Event>)
    ensures var s := Run(INIT, before); var s' := Run(s, after);
      s.maxima <= s'.maxima && Latest(s) <= Latest(s')
  {
    RunKeepsMaxInv(INIT, before);
    RunKeepsMaxInv(Run(INIT, before), after);
  }

  /** In every interleaving, spurious failures and stale reads included, the maximum is 0 or the
      duration of a call that has left the loop, and bounds every call that has left it: once all
      have, it is the maximum of all durations. */
  lemma MaxIsMaximum(es: seq<Event>)
    ensures var s := Run(INIT, es);
      && (Latest(s) == 0 || Recorded(s.calls, Latest(s)))
      && (forall c :: 0 <= c < |s.calls| && OutOfLoop(s.calls[c]) ==> Micros(s.calls[c]) <= Latest(s))
  {
    RunKeepsMaxInv(INIT, es);
    var s := Run(INIT, es);
    assert forall c :: 0 <= c < |s.calls| ==> CallInv(s.maxima, s.calls[c]);
  }

  /** An exchange that reads the newest value and does not fail spuriously ends the loop or raises the
      value its call expects; nothing can raise it above the call's own duration. */
  lemma FairExchange(es: seq<Event>, e: Event)
    requires var s := Run(INIT, es);
      Enabled(s, e) && e.Exchange? && e.k == |s.maxima| - 1 && !e.spurious
    ensures var s := Run(INIT, es); var phase := Step(s, e).calls[e.c].phase;
      phase.Recording? || (phase.Trying? && s.calls[e.c].phase.expected < phase.expected < Micros(s.calls[e.c]))
  {
    RunKeepsMaxInv(INIT, es);
    var s := Run(INIT, es);
    assert CallInv(s.maxima, s.calls[e.c]);
  }

  // The sum, the count and the buckets

  datatype Measure = Time | Number | InOne(b: nat) | InFirst(n: nat)

  /** What a call has added so far. */
  function Amount(q: Measure, call: Call): nat {
    match q
    case Time => if call.phase.AddingSum? then 0 else Micros(call)
    case Number => if call.phase.AddingSum? || call.phase.AddingCount? then 0 else 1
    case InOne(b) => if call.phase.Done? && BucketOf(Millis(call)) == b then 1 else 0
    case InFirst(n) => if call.phase.Done? && BucketOf(Millis(call)) < n then 1 else 0
  }

  function Total(q: Measure, calls: seq<Call>): nat {
    if calls == [] then 0 else Total(q, calls[..|calls|-1]) + Amount(q, calls[|calls|-1])
  }

  lemma {:induction false} TotalUpdate(q: Measure, calls: seq<Call>, c: nat, call: Call)
    requires c < |calls|
    ensures Total(q, calls[c := call]) + Amount(q, calls[c]) == Total(q, calls) + Amount(q, call)
  {
    var last := |calls| - 1;
    if c == last {
      assert calls[c := call][..last] == calls[..last];
    } else {
      assert calls[c := call][..last] == calls[..last][c := call];
      TotalUpdate(q, calls[..last], c, call);
    }
  }

  lemma TotalAppend(q: Measure, calls: seq<Call>, call: Call)
    ensures Total(q, calls + [call]) == Total(q, calls) + Amount(q, call)
  {
    assert (calls + [call])[..|calls|] == calls;
  }

  ghost predicate CountInv(s: Sys) {
    && s.sum == Total(Time, s.calls) % 0x1_0000_0000_0000_0000
    && s.count == Total(Number, s.calls) % 0x1_0000_0000_0000_0000
    && |s.buckets| == 11
    && forall b :: 0 <= b < 11 ==> s.buckets[b] == Total(InOne(b), s.calls) % 0x1_0000_0000_0000_0000
  }

  lemma StepAdds(s: Sys, e: Event, q: Measure)
    ensures var s' := Step(s, e);
      Total(q, s'.calls) == Total(q, s.calls) +
        if !Enabled(s, e) || e.Begin? then 0
        else if (q.Time? && e.AddSum?) || (q.Number? && e.AddCount?) || ((q.InOne? || q.InFirst?) && e.Record?)
        then Amount(q, s'.calls[e.c]) else 0
  {
    if Enabled(s, e) {
      if e.Begin? {
        TotalAppend(q, s.calls, Call(e.duration, AddingSum));
      } else {
        TotalUpdate(q, s.calls, e.c, s.calls[e.c].(phase := Next(s, e)));
      }
    }
  }

  lemma Wraps(a: nat, b: nat)
    ensures (a % 0x1_0000_0000_0000_0000 + b) % 0x1_0000_0000_0000_0000 == (a + b) % 0x1_0000_0000_0000_0000
  {
  }

  lemma StepCounts(s: Sys, e: Event)
    requires CountInv(s)
    ensures var s' := Step(s, e);
      && s'.sum == Total(Time, s'.calls) % 0x1_0000_0000_0000_0000
      && s'.count == Total(Number, s'.calls) % 0x1_0000_0000_0000_0000
  {
    StepAdds(s, e, Time);
    StepAdds(s, e, Number);
    if Enabled(s, e) && !e.Begin? {
      Wraps(Total(Time, s.calls), Micros(s.calls[e.c]));
      Wraps(Total(Number, s.calls), 1);
    }
  }

  lemma StepFillsBucket(s: Sys, e: Event, b: nat)
    requires CountInv(s) && b < 11
    ensures |Step(s, e).buckets| == 11
    ensures Step(s, e).buckets[b] == Total(InOne(b), Step(s, e).calls) % 0x1_0000_0000_0000_0000
  {
    StepAdds(s, e, InOne(b));
    Wraps(Total(InOne(b), s.calls), 1);
  }

  lemma StepKeepsCountInv(s: Sys, e: Event)
    requires CountInv(s)
    ensures CountInv(Step(s, e))
  {
    StepCounts(s, e);
    forall b | 0 <= b < 11
      ensures |Step(s, e).buckets| == 11
      ensures Step(s, e).buckets[b] == Total(InOne(b), Step(s, e).calls) % 0x1_0000_0000_0000_0000
    {
      StepFillsBucket(s, e, b);
    }
  }

  lemma {:induction false} RunKeepsCountInv(s: Sys, es: seq<Event>)
    requires CountInv(s)
    ensures CountInv(Run(s, es))
    decreases |es|
  {
    if es != [] {
      StepKeepsCountInv(s, es[0]);
      RunKeepsCountInv(Step(s, es[0]), es[1..]);
    }
  }

  /** No update of sum, count or histogram is lost: each is the total over the calls that have passed
      its update, modulo the width of the counter. */
  lemma NothingLost(es: seq<Event>)
    ensures var s := Run(INIT, es);
      && s.sum == Total(Time, s.calls) % 0x1_0000_0000_0000_0000
      && s.count == Total(Number, s.calls) % 0x1_0000_0000_0000_0000
      && |s.buckets| == 11
      && forall b :: 0 <= b < 11 ==> s.buckets[b] == Total(InOne(b), s.calls) % 0x1_0000_0000_0000_0000
  {
    RunKeepsCountInv(INIT, es);
  }

  // What a quiet system reports

  predicate Quiet(s: Sys) {
    forall c :: 0 <= c < |s.calls| ==> s.calls[c].phase.Done?
  }

  function SumOf(xs: seq<nat>): nat {
    if xs == [] then 0 else SumOf(xs[..|xs|-1]) + xs[|xs|-1]
  }

  lemma {:induction false} FirstBuckets(calls: seq<Call>, n: nat)
    ensures Total(InFirst(n + 1), calls) == Total(InFirst(n), calls) + Total(InOne(n), calls)
    ensures Total(InFirst(0), calls) == 0
  {
    if calls != [] {
      FirstBuckets(calls[..|calls|-1], n);
    }
  }

  lemma {:induction false} QuietTotals(calls: seq<Call>)
    requires forall c :: 0 <= c < |calls| ==> calls[c].phase.Done?
    ensures Total(Number, calls) == |calls| && Total(InFirst(11), calls) == |calls|
  {
    if calls != [] {
      QuietTotals(calls[..|calls|-1]);
    }
  }

  lemma {:induction false} BucketAtMost(calls: seq<Call>, b: nat)
    ensures Total(InOne(b), calls) <= |calls|
  {
    if calls != [] {
      BucketAtMost(calls[..|calls|-1], b);
    }
  }

  lemma {:induction false} BucketsSum(s: Sys, n: nat)
    requires CountInv(s) && |s.calls| < 0x1_0000_0000_0000_0000 && n <= 11
    ensures SumOf(s.buckets[..n]) == Total(InFirst(n), s.calls)
  {
    FirstBuckets(s.calls, if n == 0 then 0 else n - 1);
    if n > 0 {
      BucketsSum(s, n - 1);
      BucketAtMost(s.calls, n - 1);
      assert s.buckets[..n][..n-1] == s.buckets[..n-1];
    }
  }

  function Average(sum: nat, count: nat): nat {
    if count > 0 then sum / count else 0
  }

  lemma AverageBelow(sum: nat, count: nat, bound: nat)
    requires sum <= count * bound
    ensures Average(sum, count) <= bound
  {
    if count > 0 {
      assert (bound + 1) * count == bound * count + count;
      DivBelow(sum, count, bound + 1);
    }
  }

  /** Whole microseconds and milliseconds, as long as they fit 64 bits. */
  lemma UnitsAre(c: Call)
    ensures c.duration < 1_000 * 0x1_0000_0000_0000_0000 ==> Micros(c) * 1_000 <= c.duration < (Micros(c) + 1) * 1_000
    ensures c.duration < 1_000_000 * 0x1_0000_0000_0000_0000 ==>
      Millis(c) * 1_000_000 <= c.duration < (Millis(c) + 1) * 1_000_000
  {
  }

  /** The times of calls in microseconds, and the calls of one bucket. */
  function Times(calls: seq<Call>): (r: seq<nat>)
    ensures |r| == |calls| && forall c :: 0 <= c < |calls| ==> r[c] == calls[c].duration / 1_000
  {
    seq(|calls|, c requires 0 <= c < |calls| => calls[c].duration / 1_000)
  }

  lemma {:induction false} TimeTotal(calls: seq<Call>)
    requires forall c :: 0 <= c < |calls| ==> calls[c].phase.Done?
    ensures Total(Time, calls) % 0x1_0000_0000_0000_0000 == SumOf(Times(calls)) % 0x1_0000_0000_0000_0000
  {
    if calls != [] {
      var last := |calls| - 1;
      TimeTotal(calls[..last]);
      assert Times(calls)[..last] == Times(calls[..last]);
      SameResidue(Total(Time, calls[..last]), SumOf(Times(calls[..last])), calls[last].duration / 1_000);
    }
  }

  lemma SameResidue(a: nat, b: nat, x: nat)
    requires a % 0x1_0000_0000_0000_0000 == b % 0x1_0000_0000_0000_0000
    ensures (a + x % 0x1_0000_0000_0000_0000) % 0x1_0000_0000_0000_0000 == (b + x) % 0x1_0000_0000_0000_0000
  {
  }

  /** The calls of one bucket. */
  function Within(calls: seq<Call>, b: nat): set<nat> {
    set c: nat | c < |calls| && BucketOf(Millis(calls[c])) == b
  }

  lemma WithinSnoc(calls: seq<Call>, b: nat)
    requires calls != []
    ensures var last := |calls| - 1;
      Within(calls, b) == Within(calls[..last], b) + (if BucketOf(Millis(calls[last])) == b then {last} else {})
  {
    var last := |calls| - 1;
    assert forall c :: 0 <= c < last ==> calls[..last][c] == calls[c];
  }

  lemma {:induction false} BucketTotal(calls: seq<Call>, b: nat)
    requires forall c :: 0 <= c < |calls| ==> calls[c].phase.Done?
    ensures Total(InOne(b), calls) == |Within(calls, b)|
  {
    if calls == [] {
      assert Within(calls, b) == {};
    } else {
      var last := |calls| - 1;
      BucketTotal(calls[..last], b);
      WithinSnoc(calls, b);
      assert last !in Within(calls[..last], b);
    }
  }

  /** When no call is under way, the sum is that of all times. */
  lemma QuietSum(es: seq<Event>)
    requires Quiet(Run(INIT, es))
    ensures var s := Run(INIT, es); s.sum == SumOf(Times(s.calls)) % 0x1_0000_0000_0000_0000
  {
    NothingLost(es);
    TimeTotal(Run(INIT, es).calls);
  }

  /** And each bucket holds the calls within its bounds. */
  lemma QuietBucket(es: seq<Event>, b: nat)
    requires var s := Run(INIT, es); Quiet(s) && |s.calls| < 0x1_0000_0000_0000_0000 && b < 11
    ensures var s := Run(INIT, es);
      |s.buckets| == 11 && s.buckets[b] == |Within(s.calls, b)|
  {
    var s := Run(INIT, es);
    NothingLost(es);
    BucketTotal(s.calls, b);
    BucketAtMost(s.calls, b);
    assert s.buckets[b] == Total(InOne(b), s.calls) % 0x1_0000_0000_0000_0000;
  }

  /** When no call is under way, the histogram holds every call once and the count is their number. */
  lemma QuietCounts(es: seq<Event>)
    requires var s := Run(INIT, es); Quiet(s) && |s.calls| < 0x1_0000_0000_0000_0000
    ensures var s := Run(INIT, es); s.count == |s.calls| == SumOf(s.buckets)
  {
    var s := Run(INIT, es);
    RunKeepsCountInv(INIT, es);
    QuietTotals(s.calls);
    BucketsSum(s, 11);
    assert s.buckets[..11] == s.buckets;
  }

  /** Every call that has added its time in `t` was counted in `s` and is out of the loop in `t`. */
  predicate CountedAndDone(s: Sys, t: Sys) {
    forall c :: 0 <= c < |t.calls| && !t.calls[c].phase.AddingSum? ==>
      c < |s.calls| && Amount(Number, s.calls[c]) == 1 && OutOfLoop(t.calls[c])
  }

  lemma {:induction false} CallsGrow(s: Sys, es: seq<Event>)
    ensures |s.calls| <= |Run(s, es).calls|
    decreases |es|
  {
    if es != [] {
      CallsGrow(Step(s, es[0]), es[1..]);
    }
  }

  /** Times of later calls against counts of earlier ones, call by call. */
  predicate Outweighs(ss: seq<Call>, ts: seq<Call>, bound: nat) {
    && |ss| <= |ts|
    && (forall c :: 0 <= c < |ss| ==>
          Amount(Time, ts[c]) == 0 || (Amount(Number, ss[c]) == 1 && Amount(Time, ts[c]) <= bound))
    && (forall c :: |ss| <= c < |ts| ==> Amount(Time, ts[c]) == 0)
  }

  lemma OneMore(time: nat, count: nat, x: nat, k: nat, bound: nat)
    requires time <= count * bound && k <= 1 && (x == 0 || (k == 1 && x <= bound))
    ensures time + x <= (count + k) * bound
  {
    if k == 1 {
      assert (count + 1) * bound == count * bound + bound;
    } else {
      assert count + k == count;
    }
  }

  lemma {:induction false} TotalsBelow(ss: seq<Call>, ts: seq<Call>, bound: nat)
    requires Outweighs(ss, ts, bound)
    ensures Total(Time, ts) <= Total(Number, ss) * bound
    decreases |ts|
  {
    if ts != [] {
      var last := |ts| - 1;
      if |ss| <= last {
        TotalsBelow(ss, ts[..last], bound);
      } else {
        TotalsBelow(ss[..last], ts[..last], bound);
        OneMore(Total(Time, ts[..last]), Total(Number, ss[..last]), Amount(Time, ts[last]), Amount(Number, ss[last]),
                bound);
      }
    }
  }

  lemma {:induction false} CountBelow(calls: seq<Call>)
    ensures Total(Number, calls) <= |calls|
  {
    if calls != [] {
      CountBelow(calls[..|calls|-1]);
    }
  }

  lemma OutOfLoopBelow(before: seq<Event>, between: seq<Event>)
    ensures var t := Run(Run(INIT, before), between);
      forall c :: 0 <= c < |t.calls| && OutOfLoop(t.calls[c]) ==> Micros(t.calls[c]) <= Latest(t)
  {
    RunKeepsMaxInv(INIT, before);
    RunKeepsMaxInv(Run(INIT, before), between);
    var t := Run(Run(INIT, before), between);
    assert forall c :: 0 <= c < |t.calls| ==> CallInv(t.maxima, t.calls[c]);
  }

  lemma ReportBelow(s: Sys, t: Sys, bound: nat)
    requires CountInv(s) && CountInv(t) && CountedAndDone(s, t)
    requires |s.calls| <= |t.calls| && |s.calls| < 0x1_0000_0000_0000_0000
    requires forall c :: 0 <= c < |t.calls| && OutOfLoop(t.calls[c]) ==> Micros(t.calls[c]) <= bound
    ensures Average(t.sum, s.count) <= bound
  {
    assert Outweighs(s.calls, t.calls, bound);
    TotalsBelow(s.calls, t.calls, bound);
    CountBelow(s.calls);
    assert s.count == Total(Number, s.calls) && t.sum <= Total(Time, t.calls);
    AverageBelow(t.sum, s.count, bound);
  }

  /** A report reads the count, and later the sum and the maximum.  Its average is at most its maximum if
      every call whose time is in the sum was counted before and has left the loop since. */
  lemma BusyAverage(before: seq<Event>, between: seq<Event>)
    requires var s := Run(INIT, before); CountedAndDone(s, Run(s, between)) && |s.calls| < 0x1_0000_0000_0000_0000
    ensures var s := Run(INIT, before); var t := Run(s, between); Average(t.sum, s.count) <= Latest(t)
  {
    var s := Run(INIT, before);
    var t := Run(s, between);
    RunKeepsCountInv(INIT, before);
    RunKeepsCountInv(s, between);
    OutOfLoopBelow(before, between);
    CallsGrow(s, between);
    ReportBelow(s, t, Latest(t));
  }

  /** When no call is under way the reported average is at most the reported maximum; a wrapped sum is
      only smaller. */
  lemma QuietAverage(es: seq<Event>)
    requires var s := Run(INIT, es); Quiet(s) && |s.calls| < 0x1_0000_0000_0000_0000
    ensures var s := Run(INIT, es); Average(s.sum, s.count) <= Latest(s)
  {
    assert Run(Run(INIT, es), []) == Run(INIT, es);
    BusyAverage(es, []);
  }

  lemma {:induction false} Extend(s: Sys, es: seq<Event>, e: Event) returns (es': seq<Event>)
    ensures es' == es + [e] && Run(s, es') == Step(Run(s, es), e)
    decreases |es|
  {
    es' := es + [e];
    if es == [] {
      assert es'[1..] == [];
    } else {
      var rest := Extend(Step(s, es[0]), es[1..], e);
      assert es'[1..] == rest;
    }
  }

  /** Whether a report that has read the count can still go wrong: some run may lift its average above
      its maximum exactly if the largest sum there is would.  Both sides of the test can be read when the
      count is. */
  lemma ReportCanMisleadIff(before: seq<Event>)
    ensures var s := Run(INIT, before);
      (exists between :: Average(Run(s, between).sum, s.count) > Latest(Run(s, between)))
      <==> s.count > 0 && 0xffff_ffff_ffff_ffff / s.count > Latest(s)
  {
    var s := Run(INIT, before);
    RunKeepsMaxInv(INIT, before);
    RunKeepsCountInv(INIT, before);
    if s.count > 0 && 0xffff_ffff_ffff_ffff / s.count > Latest(s) {
      var between := LiftSum(s);
      assert Average(Run(s, between).sum, s.count) > Latest(Run(s, between));
    }
    forall between
      ensures Average(Run(s, between).sum, s.count) > Latest(Run(s, between)) ==>
                s.count > 0 && 0xffff_ffff_ffff_ffff / s.count > Latest(s)
    {
      LargestAverage(s, between);
    }
  }

  lemma LargestAverage(s: Sys, between: seq<Event>)
    requires MaxInv(s) && CountInv(s)
    ensures var t := Run(s, between);
      Average(t.sum, s.count) > Latest(t) ==> s.count > 0 && 0xffff_ffff_ffff_ffff / s.count > Latest(s)
  {
    RunKeepsMaxInv(s, between);
    RunKeepsCountInv(s, between);
    LatestGrows(s, Run(s, between));
    if s.count > 0 {
      DivMono(Run(s, between).sum, 0xffff_ffff_ffff_ffff, s.count);
    }
  }

  lemma LatestGrows(s: Sys, t: Sys)
    requires MaxInv(s) && MaxInv(t) && s.maxima <= t.maxima
    ensures Latest(s) <= Latest(t)
  {
  }

  /** One new call that fills the sum to the brim. */
  lemma LiftSum(s: Sys) returns (es: seq<Event>)
    requires s.sum <= 0xffff_ffff_ffff_ffff
    ensures var t := Run(s, es); t.sum == 0xffff_ffff_ffff_ffff && t.maxima == s.maxima
  {
    var gap := 0xffff_ffff_ffff_ffff - s.sum;
    var call := Call(1_000 * gap, AddingSum);
    assert Micros(call) == gap;
    es := Extend(s, [], Begin(1_000 * gap));
    assert Run(s, es) == s.(calls := s.calls + [call]);
    es := Extend(s, es, AddSum(|s.calls|));
  }

  /** A call that has left the loop after recording its time. */
  lemma OneRecorded(duration: nat) returns (es: seq<Event>)
    requires 1_000 <= duration < 1_000 * 0x8000_0000_0000_0000
    ensures Run(INIT, es) == Sys(duration / 1_000, 1, [0, duration / 1_000], INIT.buckets, [Call(duration, Recording)])
  {
    var m := duration / 1_000;
    assert Micros(Call(duration, AddingSum)) == m;
    es := Extend(INIT, [], Begin(duration));
    es := Extend(INIT, es, AddSum(0));
    assert Run(INIT, es) == Sys(m, 0, [0], INIT.buckets, [Call(duration, AddingCount)]);
    es := Extend(INIT, es, AddCount(0));
    es := Extend(INIT, es, Load(0, 0));
    assert Run(INIT, es) == Sys(m, 1, [0], INIT.buckets, [Call(duration, Trying(0))]);
    es := Extend(INIT, es, Exchange(0, 0, false));
  }

  /** Time added after the count was read makes the average exceed every duration recorded, although
      every call has left the loop. */
  lemma BusyReportCanMislead(duration: nat) returns (before: seq<Event>, between: seq<Event>)
    requires 1_000 <= duration < 1_000 * 0x8000_0000_0000_0000
    ensures var s := Run(INIT, before); var s' := Run(s, between);
      && Average(s'.sum, s.count) > Latest(s')
      && forall c :: 0 <= c < |s'.calls| ==> OutOfLoop(s'.calls[c]) && Micros(s'.calls[c]) < Average(s'.sum, s.count)
  {
    var m := duration / 1_000;
    before := OneRecorded(duration);
    before := Extend(INIT, before, Begin(duration));
    var s := Run(INIT, before);
    assert s == Sys(m, 1, [0, m], INIT.buckets, [Call(duration, Recording), Call(duration, AddingSum)]);
    between := Extend(s, [], AddSum(1));
    assert Run(s, between)
        == Sys(m + m, 1, [0, m], INIT.buckets, [Call(duration, Recording), Call(duration, AddingCount)]);
    between := Extend(s, between, AddCount(1));
    assert Run(s, between) == Sys(m + m, 2, [0, m], INIT.buckets, [Call(duration, Recording), Call(duration, Loading)]);
    between := Extend(s, between, Load(1, 1));
    assert Run(s, between)
        == Sys(m + m, 2, [0, m], INIT.buckets, [Call(duration, Recording), Call(duration, Recording)]);
  }

  /** So does a call still in the loop, although everything in the sum was counted. */
  lemma LoopingCallCanMislead(duration: nat) returns (before: seq<Event>)
    requires 1_000 <= duration < 1_000 * 0x8000_0000_0000_0000
    ensures var s := Run(INIT, before);
      && Average(s.sum, s.count) > Latest(s)
      && forall c :: 0 <= c < |s.calls| ==> Amount(Number, s.calls[c]) == 1
  {
    before := Extend(INIT, [], Begin(duration));
    before := Extend(INIT, before, AddSum(0));
    before := Extend(INIT, before, AddCount(0));
    assert Run(INIT, before) == Sys(duration / 1_000, 1, [0], INIT.buckets, [Call(duration, Loading)]);
  }
}
