/** The attack protocol of the intruder as a transition system.

    `start_attack` claims an atomic flag, clears the result list, generates the requests and
    spawns a driver task.  The driver takes requests in order, reads the flag, acquires a
    semaphore permit, sleeps, and spawns one worker per request; a worker sends its request,
    may push one result, and gives its permit back when its task ends.  After its loop the driver
    joins every worker and stores `false` in the flag.  `stop_attack` stores `false` at any time.

    One event is one access to shared state by one task.  An event that is not enabled in a state
    leaves it unchanged, so every sequence of events is a run and a theorem over all sequences
    covers every interleaving of every task. */
module Attack {

  datatype Phase =
    | Claimed                // flag swapped to true, old results still in place
    | Prepared               // results cleared, requests being generated
    | Failed                 // generation returned an error: the flag is left set
    | LoopHead               // driver about to take the next request
    | Acquiring(id: nat)     // flag read as true, waiting for a permit
    | Pausing(id: nat)       // permit in hand, sleeping before the spawn
    | Joining(joined: nat)   // loop left, awaiting the workers in spawn order
    | Finished               // flag stored false

  datatype Worker = Sending | Reported | Ended

  /** `attack` names the job that pushed the result; the program keeps no such tag. */
  datatype Result = Result(attack: nat, id: nat, payload: string, status: nat, length: nat)

  datatype Job = Job(
    requests: seq<(string, string)>,  // (request, payload)
    concurrency: nat,                 // as configured
    phase: Phase,
    permits: nat,                     // left in the semaphore
    taken: nat,                       // requests taken from the enumerator
    dispatched: seq<nat>,             // request ids in spawn order
    workers: seq<Worker>)

  datatype Sys = Sys(running: bool, results: seq<Result>, jobs: seq<Job>)

  datatype Event =
    | Start(requests: seq<(string, string)>, concurrency: nat)
    | ClearOld(a: nat)
    | Launch(a: nat)
    | Fail(a: nat)
    | Check(a: nat)
    | Acquire(a: nat)
    | Spawn(a: nat)
    | Report(a: nat, w: nat, status: nat, length: nat)
    | End(a: nat, w: nat)
    | Join(a: nat)
    | Close(a: nat)
    | Stop
    | ClearResults

  const INIT := Sys(false, [], [])

  function Limit(j: Job): (n: nat)
    ensures n >= 1 && n >= j.concurrency && (n == 1 || n == j.concurrency)
  {
    if j.concurrency == 0 then 1 else j.concurrency
  }

  predicate Internal(e: Event) {
    !e.Start? && !e.Stop? && !e.ClearResults?
  }

  predicate Enabled(s: Sys, e: Event) {
    match e
    case Start(_, _) => !s.running
    case Stop => true
    case ClearResults => true
    case _ => e.a < |s.jobs| && EnabledIn(s.jobs[e.a], e)
  }

  predicate EnabledIn(j: Job, e: Event)
    requires Internal(e)
  {
    match e
    case ClearOld(_) => j.phase.Claimed?
    case Launch(_) => j.phase.Prepared?
    case Fail(_) => j.phase.Prepared?
    case Check(_) => j.phase.LoopHead?
    case Acquire(_) => j.phase.Acquiring? && j.permits > 0
    case Spawn(_) => j.phase.Pausing?
    case Report(_, w, _, _) =>
      w < |j.workers| && w < |j.dispatched| && j.workers[w].Sending? && j.dispatched[w] < |j.requests|
    case End(_, w) => w < |j.workers| && !j.workers[w].Ended?
    case Join(_) => j.phase.Joining? && j.phase.joined < |j.workers| && j.workers[j.phase.joined].Ended?
    case Close(_) => j.phase.Joining? && j.phase.joined == |j.workers|
  }

  /** The effect of an enabled event on its own job; `running` is what a read of the flag returns. */
  function Advance(j: Job, e: Event, running: bool): Job
    requires Internal(e) && EnabledIn(j, e)
  {
    match e
    case ClearOld(_) => j.(phase := Prepared)
    case Launch(_) => j.(phase := LoopHead, permits := Limit(j))
    case Fail(_) => j.(phase := Failed)
    case Check(_) =>
      if j.taken < |j.requests| && running then j.(phase := Acquiring(j.taken), taken := j.taken + 1)
      else j.(phase := Joining(0))
    case Acquire(_) => j.(phase := Pausing(j.phase.id), permits := j.permits - 1)
    case Spawn(_) => j.(phase := LoopHead, dispatched := j.dispatched + [j.phase.id], workers := j.workers + [Sending])
    case Report(_, w, _, _) => j.(workers := j.workers[w := Reported])
    case End(_, w) => j.(workers := j.workers[w := Ended], permits := j.permits + 1)
    case Join(_) => j.(phase := Joining(j.phase.joined + 1))
    case Close(_) => j.(phase := Finished)
  }

  function Step(s: Sys, e: Event): Sys {
    if !Enabled(s, e) then s
    else if e.Start? then
      s.(running := true, jobs := s.jobs + [Job(e.requests, e.concurrency, Claimed, 0, 0, [], [])])
    else if e.Stop? then s.(running := false)
    else if e.ClearResults? then s.(results := [])
    else
      var j := s.jobs[e.a];
      var jobs := s.jobs[e.a := Advance(j, e, s.running)];
      if e.ClearOld? then s.(results := [], jobs := jobs)
      else if e.Close? then s.(running := false, jobs := jobs)
      else if e.Report? then
        var id := j.dispatched[e.w];
        s.(results := s.results + [Result(e.a, id, j.requests[id].1, e.status, e.length)], jobs := jobs)
      else s.(jobs := jobs)
  }

  function Run(s: Sys, es: seq<Event>): Sys
    decreases |es|
  {
    if es == [] then s else Run(Step(s, es[0]), es[1..])
  }

  // ---------------------------------------------------------------------------------------------
  // What every run keeps, stops and overlapping attacks included

  /** Workers whose task has not ended: each holds one permit. */
  function InFlight(ws: seq<Worker>): nat {
    if ws == [] then 0 else InFlight(ws[..|ws|-1]) + if ws[|ws|-1].Ended? then 0 else 1
  }

  lemma {:induction false} InFlightUpdate(ws: seq<Worker>, w: nat, x: Worker)
    requires w < |ws|
    ensures InFlight(ws[w := x]) + (if ws[w].Ended? then 0 else 1) == InFlight(ws) + (if x.Ended? then 0 else 1)
  {
    var last := |ws| - 1;
    if w == last {
      assert ws[w := x][..last] == ws[..last];
    } else {
      assert ws[w := x][..last] == ws[..last][w := x];
      InFlightUpdate(ws[..last], w, x);
    }
  }

  lemma {:induction false} InFlightZero(ws: seq<Worker>)
    ensures InFlight(ws) == 0 <==> forall i :: 0 <= i < |ws| ==> ws[i].Ended?
  {
    if ws != [] {
      var last := |ws| - 1;
      InFlightZero(ws[..last]);
      assert forall i :: 0 <= i < last ==> ws[..last][i] == ws[i];
    }
  }

  predicate Launched(j: Job) {
    !j.phase.Claimed? && !j.phase.Prepared? && !j.phase.Failed?
  }

  ghost predicate JobInv(j: Job) {
    && |j.workers| == |j.dispatched| <= j.taken <= |j.requests|
    && (forall k :: 0 <= k < |j.dispatched| ==> j.dispatched[k] == k)
    && (Launched(j) ==> j.permits + InFlight(j.workers) + (if j.phase.Pausing? then 1 else 0) == Limit(j))
    && (if j.phase.Acquiring? || j.phase.Pausing? then j.phase.id == |j.dispatched| && j.taken == |j.dispatched| + 1
        else j.taken == |j.dispatched|)
    && (!Launched(j) ==> j.dispatched == [])
    && (j.phase.Joining? ==>
          j.phase.joined <= |j.workers| && forall i :: 0 <= i < j.phase.joined ==> j.workers[i].Ended?)
    && (j.phase.Finished? ==> forall i :: 0 <= i < |j.workers| ==> j.workers[i].Ended?)
  }

  ghost predicate ResultInv(s: Sys, r: Result) {
    && r.attack < |s.jobs|
    && r.id < |s.jobs[r.attack].workers|
    && r.id < |s.jobs[r.attack].requests|
    && !s.jobs[r.attack].workers[r.id].Sending?
    && r.payload == s.jobs[r.attack].requests[r.id].1
  }

  ghost predicate Inv(s: Sys) {
    && (forall a :: 0 <= a < |s.jobs| ==> JobInv(s.jobs[a]))
    && (forall k :: 0 <= k < |s.results| ==> ResultInv(s, s.results[k]))
    && (forall i, k :: 0 <= i < k < |s.results| ==>
          s.results[i].attack != s.results[k].attack || s.results[i].id != s.results[k].id)
  }

  lemma AdvanceKeepsJobInv(j: Job, e: Event, running: bool)
    requires JobInv(j) && Internal(e) && EnabledIn(j, e)
    ensures JobInv(Advance(j, e, running))
  {
    if e.Spawn? {
      SpawnKeepsJobInv(j, e, running);
    } else if e.Report? || e.End? {
      WorkerKeepsJobInv(j, e, running);
    }
  }

  lemma SpawnKeepsJobInv(j: Job, e: Event, running: bool)
    requires JobInv(j) && e.Spawn? && EnabledIn(j, e)
    ensures JobInv(Advance(j, e, running))
  {
  }

  lemma WorkerKeepsJobInv(j: Job, e: Event, running: bool)
    requires JobInv(j) && (e.Report? || e.End?) && EnabledIn(j, e)
    ensures JobInv(Advance(j, e, running))
  {
    InFlightUpdate(j.workers, e.w, if e.Report? then Reported else Ended);
  }

  lemma StepKeepsJobs(s: Sys, e: Event, a: nat)
    requires Inv(s) && a < |Step(s, e).jobs|
    ensures JobInv(Step(s, e).jobs[a])
  {
    if a < |s.jobs| {
      assert JobInv(s.jobs[a]);
      if Enabled(s, e) && Internal(e) && a == e.a {
        AdvanceKeepsJobInv(s.jobs[a], e, s.running);
      }
    }
  }

  lemma OldResultStays(s: Sys, e: Event, r: Result)
    requires Inv(s) && ResultInv(s, r)
    ensures ResultInv(Step(s, e), r)
  {
    if Enabled(s, e) && Internal(e) && r.attack == e.a {
      assert JobInv(s.jobs[e.a]);
    }
  }

  lemma StepKeepsInv(s: Sys, e: Event)
    requires Inv(s)
    ensures Inv(Step(s, e))
  {
    forall a | 0 <= a < |Step(s, e).jobs|
      ensures JobInv(Step(s, e).jobs[a])
    {
      StepKeepsJobs(s, e, a);
    }
    forall k | 0 <= k < |s.results|
      ensures ResultInv(Step(s, e), s.results[k])
    {
      OldResultStays(s, e, s.results[k]);
    }
    if Enabled(s, e) && e.Report? {
      assert JobInv(s.jobs[e.a]) && s.jobs[e.a].dispatched[e.w] == e.w;
      assert forall k :: 0 <= k < |s.results| ==> ResultInv(s, s.results[k]);
    }
  }

  lemma {:induction false} RunKeepsInv(s: Sys, es: seq<Event>)
    requires Inv(s)
    ensures Inv(Run(s, es))
    decreases |es|
  {
    if es != [] {
      StepKeepsInv(s, es[0]);
      RunKeepsInv(Step(s, es[0]), es[1..]);
    }
  }

  /** In every run, stops and overlapping attacks included: the number of requests in flight stays
      within the configured concurrency (at least one), requests are dispatched in order, each at
      most once, and each dispatched request yields at most one result, which carries its payload. */
  lemma ConcurrencyAndOrder(es: seq<Event>, a: nat)
    requires a < |Run(INIT, es).jobs|
    ensures var s := Run(INIT, es); var j := s.jobs[a];
      && InFlight(j.workers) <= (if j.concurrency == 0 then 1 else j.concurrency)
      && j.dispatched == seq(|j.dispatched|, i => i)
      && |j.dispatched| <= |j.requests|
      && (forall r :: r in s.results && r.attack == a ==> r.id in j.dispatched && r.payload == j.requests[r.id].1)
      && (forall i, k :: 0 <= i < k < |s.results| && s.results[i].attack == a == s.results[k].attack
            ==> s.results[i].id != s.results[k].id)
  {
    RunKeepsInv(INIT, es);
    var s := Run(INIT, es);
    assert JobInv(s.jobs[a]);
    forall r | r in s.results && r.attack == a
      ensures r.id in s.jobs[a].dispatched && r.payload == s.jobs[a].requests[r.id].1
    {
      assert ResultInv(s, r);
      assert s.jobs[a].dispatched[r.id] == r.id;
    }
  }

  /** Workers in flight are those whose task has not ended. */
  lemma {:induction false} InFlightIs(ws: seq<Worker>)
    ensures InFlight(ws) == |set w | 0 <= w < |ws| && !ws[w].Ended?|
  {
    var all := set w | 0 <= w < |ws| && !ws[w].Ended?;
    if ws == [] {
      assert all == {};
    } else {
      var last := |ws| - 1;
      InFlightIs(ws[..last]);
      var before := set w | 0 <= w < last && !ws[..last][w].Ended?;
      assert all == if ws[last].Ended? then before else before + {last};
    }
  }

  /** Each result in the list was reported by a worker that received that status and that many bytes. */
  lemma {:induction false} ResultsAreReported(s: Sys, es: seq<Event>, r: Result)
    requires Inv(s) && r in Run(s, es).results
    ensures r in s.results || Report(r.attack, r.id, r.status, r.length) in es
    decreases |es|
  {
    if es != [] {
      StepKeepsInv(s, es[0]);
      ResultsAreReported(Step(s, es[0]), es[1..], r);
      if r in Step(s, es[0]).results && r !in s.results {
        assert JobInv(s.jobs[es[0].a]);
        assert es[0] == Report(r.attack, r.id, r.status, r.length);
      }
    }
  }

  /** And nothing is lost: a result stays until the list is cleared, which empties it. */
  lemma ReportsAreKept(s: Sys, e: Event)
    requires Inv(s)
    ensures Enabled(s, e) && e.Report? ==>
      Step(s, e).results == s.results + [Result(e.a, e.w, s.jobs[e.a].requests[e.w].1, e.status, e.length)]
    ensures Enabled(s, e) && (e.ClearOld? || e.ClearResults?) ==> Step(s, e).results == []
    ensures !e.Report? && !e.ClearOld? && !e.ClearResults? ==> Step(s, e).results == s.results
  {
    if Enabled(s, e) && e.Report? {
      assert JobInv(s.jobs[e.a]) && s.jobs[e.a].dispatched[e.w] == e.w;
    }
  }

  /** Requests a driver will still dispatch although the flag is clear: it has already read the flag. */
  function Committed(j: Job): nat {
    if j.phase.Acquiring? || j.phase.Pausing? then 1 else 0
  }

  lemma {:induction false} ClearFlagEndsDispatch(s: Sys, es: seq<Event>)
    requires !s.running && forall e :: e in es ==> !e.Start?
    ensures var s' := Run(s, es);
      && !s'.running
      && |s'.jobs| == |s.jobs|
      && forall a :: 0 <= a < |s.jobs| ==>
           |s'.jobs[a].dispatched| + Committed(s'.jobs[a]) <= |s.jobs[a].dispatched| + Committed(s.jobs[a])
    decreases |es|
  {
    if es != [] {
      assert es[0] in es && forall e :: e in es[1..] ==> e in es;
      ClearFlagEndsDispatch(Step(s, es[0]), es[1..]);
    }
  }

  /** After `stop_attack`, until another attack is started, each driver dispatches at most one more
      request, and only if it had already read the flag. */
  lemma AtMostOneAfterStop(s: Sys, es: seq<Event>, a: nat)
    requires a < |s.jobs| && forall e :: e in es ==> !e.Start?
    ensures var s' := Run(Step(s, Stop), es);
      |s'.jobs| == |s.jobs| && |s'.jobs[a].dispatched| <= |s.jobs[a].dispatched| + Committed(s.jobs[a])
  {
    ClearFlagEndsDispatch(Step(s, Stop), es);
  }

  // ---------------------------------------------------------------------------------------------
  // Progress

  function Work(ws: seq<Worker>): nat {
    if ws == [] then 0
    else Work(ws[..|ws|-1]) + match ws[|ws|-1] { case Sending => 2 case Reported => 1 case Ended => 0 }
  }

  lemma {:induction false} WorkUpdate(ws: seq<Worker>, w: nat, x: Worker)
    requires w < |ws| && !ws[w].Ended? && (x.Ended? || (x.Reported? && ws[w].Sending?))
    ensures Work(ws[w := x]) < Work(ws)
  {
    var last := |ws| - 1;
    if w == last {
      assert ws[w := x][..last] == ws[..last];
    } else {
      assert ws[w := x][..last] == ws[..last][w := x];
      WorkUpdate(ws[..last], w, x);
    }
  }

  /** Steps a job can still take. */
  function Remaining(j: Job): nat
    requires j.taken <= |j.requests|
    requires j.phase.Joining? ==> j.phase.joined <= |j.workers|
  {
    20 * (|j.requests| - j.taken) + Work(j.workers)
    + (if j.phase.Joining? then |j.workers| - j.phase.joined else if j.phase.Finished? then 0 else |j.workers|)
    + match j.phase {
        case Claimed => 4 case Prepared => 3 case LoopHead => 2 case Acquiring(_) => 10
        case Pausing(_) => 9 case Joining(_) => 1 case Finished => 0 case Failed => 0
      }
  }

  lemma AdvanceUsesUpSteps(j: Job, e: Event, running: bool)
    requires JobInv(j) && Internal(e) && EnabledIn(j, e)
    ensures JobInv(Advance(j, e, running)) && Remaining(Advance(j, e, running)) < Remaining(j)
  {
    AdvanceKeepsJobInv(j, e, running);
    match e
    case Spawn(_) => assert (j.workers + [Sending])[..|j.workers|] == j.workers;
    case Report(_, w, _, _) => WorkUpdate(j.workers, w, Reported);
    case End(_, w) => WorkUpdate(j.workers, w, Ended);
    case _ =>
  }

  /** Every step of a task uses up some of its job's remaining steps and touches no other job, so
      no task runs forever. */
  lemma InternalStepsRunOut(es: seq<Event>, e: Event)
    requires Internal(e) && Enabled(Run(INIT, es), e)
    ensures var s := Run(INIT, es); var s' := Step(s, e);
      && |s'.jobs| == |s.jobs|
      && JobInv(s.jobs[e.a]) && JobInv(s'.jobs[e.a]) && Remaining(s'.jobs[e.a]) < Remaining(s.jobs[e.a])
      && forall b :: 0 <= b < |s.jobs| && b != e.a ==> s'.jobs[b] == s.jobs[b]
  {
    RunKeepsInv(INIT, es);
    OneStepUsed(Run(INIT, es), e);
  }

  lemma OneStepUsed(s: Sys, e: Event)
    requires Inv(s) && Internal(e) && Enabled(s, e)
    ensures var s' := Step(s, e);
      && |s'.jobs| == |s.jobs|
      && JobInv(s.jobs[e.a]) && JobInv(s'.jobs[e.a]) && Remaining(s'.jobs[e.a]) < Remaining(s.jobs[e.a])
      && forall b :: 0 <= b < |s.jobs| && b != e.a ==> s'.jobs[b] == s.jobs[b]
  {
    var j := s.jobs[e.a];
    assert JobInv(j);
    AdvanceUsesUpSteps(j, e, s.running);
    assert Step(s, e).jobs == s.jobs[e.a := Advance(j, e, s.running)];
  }

  lemma OwnStep(j: Job, a: nat) returns (e: Event)
    requires JobInv(j) && !j.phase.Finished? && !j.phase.Failed?
    ensures Internal(e) && e.a == a && EnabledIn(j, e) && !e.Fail? && !e.Report?
  {
    match j.phase
    case Claimed => e := ClearOld(a);
    case Prepared => e := Launch(a);
    case LoopHead => e := Check(a);
    case Pausing(_) => e := Spawn(a);
    case Acquiring(_) =>
      if j.permits > 0 {
        e := Acquire(a);
      } else {
        InFlightZero(j.workers);
        var w :| 0 <= w < |j.workers| && !j.workers[w].Ended?;
        e := End(a, w);
      }
    case Joining(k) =>
      e := if k == |j.workers| then Close(a) else if j.workers[k].Ended? then Join(a) else End(a, k);
  }

  /** No attack gets stuck: while a job is neither finished nor failed, one of its own steps is
      enabled.  A driver waiting for a permit always has a worker in flight that will return one,
      because the semaphore starts with at least one permit. */
  lemma NeverStuck(es: seq<Event>, a: nat)
    requires a < |Run(INIT, es).jobs|
    requires !Run(INIT, es).jobs[a].phase.Finished? && !Run(INIT, es).jobs[a].phase.Failed?
    ensures exists e :: Internal(e) && e.a == a && Enabled(Run(INIT, es), e)
  {
    RunKeepsInv(INIT, es);
    var e := OwnStep(Run(INIT, es).jobs[a], a);
    assert Enabled(Run(INIT, es), e);
  }

  // ---------------------------------------------------------------------------------------------
  // The bound is reached

  /** An attack with `n` requests in flight and no more dispatched. */
  function Busy(requests: seq<(string, string)>, concurrency: nat, permits: nat, n: nat): Job {
    Job(requests, concurrency, LoopHead, permits, n, seq(n, i => i), seq(n, _ => Sending))
  }

  lemma {:induction false} AllSending(n: nat)
    ensures InFlight(seq(n, _ => Sending)) == n
  {
    if n > 0 {
      assert seq(n, _ => Sending)[..n-1] == seq(n - 1, _ => Sending);
      AllSending(n - 1);
    }
  }

  lemma SendOne(s: Sys, a: nat, requests: seq<(string, string)>, concurrency: nat, permits: nat, n: nat)
      returns (es: seq<Event>)
    requires s.running && a < |s.jobs| && s.jobs[a] == Busy(requests, concurrency, permits + 1, n) && n < |requests|
    ensures var s' := Run(s, es); s' == s.(jobs := s.jobs[a := Busy(requests, concurrency, permits, n + 1)])
  {
    es := [Check(a), Acquire(a), Spawn(a)];
    var j := s.jobs[a];
    var s1 := Moved(s, a, Check(a), j.(phase := Acquiring(n), taken := n + 1));
    var s2 := Moved(s1, a, Acquire(a), j.(phase := Pausing(n), taken := n + 1, permits := permits));
    assert j.dispatched + [n] == seq(n + 1, i => i) && j.workers + [Sending] == seq(n + 1, _ => Sending);
    var s3 := Moved(s2, a, Spawn(a), Busy(requests, concurrency, permits, n + 1));
    assert es[1..] == [Acquire(a), Spawn(a)] && es[1..][1..] == [Spawn(a)];
    RunOne(s2, Spawn(a));
    assert Run(s1, es[1..]) == Run(s2, [Spawn(a)]);
    assert s3.jobs == s.jobs[a := Busy(requests, concurrency, permits, n + 1)];
  }

  lemma {:induction false} SendMany(s: Sys, a: nat, requests: seq<(string, string)>, concurrency: nat,
                                     permits: nat, n: nat)
      returns (es: seq<Event>)
    requires s.running && a < |s.jobs| && s.jobs[a] == Busy(requests, concurrency, permits, n)
    requires n + permits <= |requests|
    ensures Run(s, es).jobs == s.jobs[a := Busy(requests, concurrency, 0, n + permits)]
    decreases permits
  {
    if permits == 0 {
      es := [];
      assert s.jobs == s.jobs[a := s.jobs[a]];
    } else {
      var first := SendOne(s, a, requests, concurrency, permits - 1, n);
      var rest := SendMany(Run(s, first), a, requests, concurrency, permits - 1, n + 1);
      RunAppend(s, first, rest);
      es := first + rest;
    }
  }

  /** Wherever a start is accepted, an attack with enough requests can have as many in flight as its
      concurrency says, and one if it says none. */
  lemma BoundIsReached(s: Sys, requests: seq<(string, string)>, concurrency: nat) returns (es: seq<Event>)
    requires !s.running && |requests| >= 1 && |requests| >= concurrency
    ensures var s', a := Run(s, es), |s.jobs|;
      && |s'.jobs| == a + 1 && s'.jobs[a].requests == requests && s'.jobs[a].concurrency == concurrency
      && InFlight(s'.jobs[a].workers) == if concurrency == 0 then 1 else concurrency
  {
    var a := |s.jobs|;
    var start := Start(requests, concurrency);
    var s1 := Step(s, start);
    var j := s1.jobs[a];
    var s2 := Moved(s1, a, ClearOld(a), j.(phase := Prepared));
    var s3 := Moved(s2, a, Launch(a), Busy(requests, concurrency, Limit(j), 0));
    var rest := SendMany(s3, a, requests, concurrency, Limit(j), 0);
    AllSending(Limit(j));
    es := [start, ClearOld(a), Launch(a)] + rest;
    assert es[1..] == [ClearOld(a), Launch(a)] + rest;
    assert ([ClearOld(a), Launch(a)] + rest)[1..] == [Launch(a)] + rest;
    assert ([Launch(a)] + rest)[1..] == rest;
    assert Run(s1, es[1..]) == Run(s2, [Launch(a)] + rest);
  }

  // ---------------------------------------------------------------------------------------------
  // Exclusion between attacks

  /** An attack whose tasks have all ended. */
  predicate Over(j: Job) {
    j.phase.Finished? || j.phase.Failed?
  }

  predicate OnlyLatestLive(s: Sys) {
    forall a :: 0 <= a < |s.jobs| - 1 ==> Over(s.jobs[a])
  }

  /** A stop that can be seen to come too late or too early: no attack is running. */
  predicate HarmlessStops(s: Sys, es: seq<Event>)
    decreases |es|
  {
    es != [] ==> (es[0].Stop? ==> !s.running) && HarmlessStops(Step(s, es[0]), es[1..])
  }

  /** Every accepted start finds all earlier attacks over. */
  predicate Orderly(s: Sys, es: seq<Event>)
    decreases |es|
  {
    es != [] ==>
      && (es[0].Start? && Enabled(s, es[0]) ==> forall a :: 0 <= a < |s.jobs| ==> Over(s.jobs[a]))
      && Orderly(Step(s, es[0]), es[1..])
  }

  /** The attack whose results the list may hold: the latest, or the one before it while the
      latest has not cleared the list yet. */
  function Owner(s: Sys): int {
    |s.jobs| - if s.jobs != [] && s.jobs[|s.jobs|-1].phase.Claimed? then 2 else 1
  }

  ghost predicate Exclusive(s: Sys) {
    && OnlyLatestLive(s)
    && forall k :: 0 <= k < |s.results| ==> s.results[k].attack == Owner(s)
  }

  lemma StepKeepsExclusive(s: Sys, e: Event)
    requires Inv(s) && Exclusive(s)
    requires e.Start? && Enabled(s, e) ==> forall a :: 0 <= a < |s.jobs| ==> Over(s.jobs[a])
    ensures Exclusive(Step(s, e))
  {
    if Enabled(s, e) && Internal(e) {
      TasksKeepExclusive(s, e);
    }
  }

  lemma TasksKeepExclusive(s: Sys, e: Event)
    requires Inv(s) && Exclusive(s) && Internal(e) && Enabled(s, e)
    ensures Exclusive(Step(s, e))
  {
    LatestMoves(s, e);
    var j := s.jobs[e.a];
    assert JobInv(j);
    assert Step(s, e).jobs == s.jobs[e.a := Advance(j, e, s.running)];
    assert e.Report? ==> !j.phase.Claimed?;
  }

  lemma LatestMoves(s: Sys, e: Event)
    requires Inv(s) && OnlyLatestLive(s) && Internal(e) && Enabled(s, e)
    ensures e.a == |s.jobs| - 1 && !Over(s.jobs[e.a])
  {
    assert JobInv(s.jobs[e.a]);
  }

  /** In an orderly run, stops included, only the latest attack is live and the result list holds
      results of one attack only. */
  lemma {:induction false} OrderlyRunsAreExclusive(s: Sys, es: seq<Event>)
    requires Inv(s) && Exclusive(s) && Orderly(s, es)
    ensures Exclusive(Run(s, es))
    decreases |es|
  {
    if es != [] {
      StepKeepsInv(s, es[0]);
      StepKeepsExclusive(s, es[0]);
      OrderlyRunsAreExclusive(Step(s, es[0]), es[1..]);
    }
  }

  /** While the flag is clear no attack is live. */
  ghost predicate Guarded(s: Sys) {
    Exclusive(s) && (s.jobs != [] && !Over(s.jobs[|s.jobs|-1]) ==> s.running)
  }

  lemma StepKeepsGuarded(s: Sys, e: Event)
    requires Inv(s) && Guarded(s) && (e.Stop? ==> !s.running)
    ensures Guarded(Step(s, e))
    ensures e.Start? && Enabled(s, e) ==> forall a :: 0 <= a < |s.jobs| ==> Over(s.jobs[a])
  {
    StepKeepsExclusive(s, e);
    if Enabled(s, e) && Internal(e) {
      LatestMoves(s, e);
    }
  }

  lemma {:induction false} GuardedRuns(s: Sys, es: seq<Event>)
    requires Inv(s) && Guarded(s) && HarmlessStops(s, es)
    ensures Orderly(s, es) && Guarded(Run(s, es))
    decreases |es|
  {
    if es != [] {
      StepKeepsInv(s, es[0]);
      StepKeepsGuarded(s, es[0]);
      GuardedRuns(Step(s, es[0]), es[1..]);
    }
  }

  /** What holds besides as long as stops are harmless: the flag is set exactly while the latest
      attack is unfinished, and a driver that has left its loop dispatched every request. */
  ghost predicate FlagTracksAttack(s: Sys) {
    && (forall a :: 0 <= a < |s.jobs| - 1 ==> s.jobs[a].phase.Finished?)
    && (s.running <==> s.jobs != [] && !s.jobs[|s.jobs|-1].phase.Finished?)
    && (forall a :: 0 <= a < |s.jobs| && (s.jobs[a].phase.Joining? || s.jobs[a].phase.Finished?)
          ==> |s.jobs[a].dispatched| == |s.jobs[a].requests|)
  }

  lemma StepKeepsFlag(s: Sys, e: Event)
    requires Inv(s) && FlagTracksAttack(s) && (e.Stop? ==> !s.running)
    ensures FlagTracksAttack(Step(s, e))
  {
    if Enabled(s, e) && Internal(e) {
      LatestMoves(s, e);
      assert JobInv(s.jobs[e.a]);
    }
  }

  lemma {:induction false} HarmlessRuns(s: Sys, es: seq<Event>)
    requires Inv(s) && FlagTracksAttack(s) && HarmlessStops(s, es)
    ensures FlagTracksAttack(Run(s, es))
    decreases |es|
  {
    if es != [] {
      StepKeepsInv(s, es[0]);
      StepKeepsFlag(s, es[0]);
      HarmlessRuns(Step(s, es[0]), es[1..]);
    }
  }

  /** A state reached with harmless stops only. */
  lemma Reached(es: seq<Event>) returns (s: Sys)
    requires HarmlessStops(INIT, es)
    ensures s == Run(INIT, es) && Inv(s) && FlagTracksAttack(s) && Guarded(s)
  {
    s := Run(INIT, es);
    RunKeepsInv(INIT, es);
    HarmlessRuns(INIT, es);
    GuardedRuns(INIT, es);
  }

  /** As long as every stop finds the flag clear: when a start is accepted no driver and no worker of an
      earlier attack remains, and every earlier request was dispatched. */
  lemma AcceptedStartFindsNobody(es: seq<Event>, e: Event)
    requires HarmlessStops(INIT, es) && e.Start? && Enabled(Run(INIT, es), e)
    ensures forall j :: j in Run(INIT, es).jobs ==>
      j.phase.Finished? && InFlight(j.workers) == 0 && j.dispatched == seq(|j.requests|, i => i)
  {
    var s := Reached(es);
    forall j | j in s.jobs
      ensures j.phase.Finished? && InFlight(j.workers) == 0 && j.dispatched == seq(|j.requests|, i => i)
    {
      var a :| 0 <= a < |s.jobs| && s.jobs[a] == j;
      assert JobInv(j);
      InFlightZero(j.workers);
    }
  }

  /** And whenever a driver clears the flag it has dispatched every request and none is in flight. */
  lemma CloseMeansDrained(es: seq<Event>, a: nat)
    requires HarmlessStops(INIT, es) && Enabled(Run(INIT, es), Close(a))
    ensures var j := Run(INIT, es).jobs[a]; InFlight(j.workers) == 0 && j.dispatched == seq(|j.requests|, i => i)
  {
    var s := Reached(es);
    var j := s.jobs[a];
    assert JobInv(j);
    InFlightZero(j.workers);
  }

  /** The list holds results of two attacks. */
  predicate Mixed(s: Sys) {
    exists i, k :: 0 <= i < |s.results| && 0 <= k < |s.results| && s.results[i].attack != s.results[k].attack
  }

  lemma ResultsNeverMixed(es: seq<Event>)
    requires HarmlessStops(INIT, es)
    ensures !Mixed(Run(INIT, es))
  {
    var s := Reached(es);
  }

  // ---------------------------------------------------------------------------------------------
  // Which stops spoil it

  /** No attack is running, or the one that claimed the flag never launched. */
  predicate Idle(s: Sys) {
    s.running ==> s.jobs != [] && s.jobs[|s.jobs|-1].phase.Failed?
  }

  predicate NoStop(es: seq<Event>) {
    forall e :: e in es ==> !e.Stop?
  }

  lemma {:induction false} NoStopIsHarmless(s: Sys, es: seq<Event>)
    requires NoStop(es)
    ensures HarmlessStops(s, es)
    decreases |es|
  {
    if es != [] {
      assert es[0] in es && forall e :: e in es[1..] ==> e in es;
      NoStopIsHarmless(Step(s, es[0]), es[1..]);
    }
  }

  lemma {:induction false} RunAppend(s: Sys, es: seq<Event>, more: seq<Event>)
    ensures Run(s, es + more) == Run(Run(s, es), more)
    decreases |es|
  {
    if es == [] {
      assert es + more == more;
    } else {
      assert (es + more)[1..] == es[1..] + more;
      RunAppend(Step(s, es[0]), es[1..], more);
    }
  }

  lemma RunOne(s: Sys, e: Event)
    ensures Run(s, [e]) == Step(s, e)
  {
    assert [e][1..] == [];
  }

  /** A stop of an idle system leaves every later run exclusive. */
  lemma IdleStopsAreSafe(s: Sys, more: seq<Event>)
    requires Inv(s) && FlagTracksAttack(s) && Guarded(s) && Idle(s) && HarmlessStops(Step(s, Stop), more)
    ensures Guarded(Run(Step(s, Stop), more))
  {
    StepKeepsInv(s, Stop);
    GuardedRuns(Step(s, Stop), more);
  }

  /** After a stop a second attack can be live beside the stopped one exactly if there was one to stop,
      that is if `is_running` held and generation had not failed. */
  lemma StopSpoilsExclusionIff(es: seq<Event>)
    requires HarmlessStops(INIT, es)
    ensures var s := Run(INIT, es);
      (forall more :: HarmlessStops(Step(s, Stop), more) ==> OnlyLatestLive(Run(Step(s, Stop), more))) <==> Idle(s)
  {
    var s := Reached(es);
    if Idle(s) {
      forall more | HarmlessStops(Step(s, Stop), more)
        ensures OnlyLatestLive(Run(Step(s, Stop), more))
      {
        IdleStopsAreSafe(s, more);
      }
    } else {
      var e := Start([], 1);
      NoStopIsHarmless(Step(s, Stop), [e]);
      RunOne(Step(s, Stop), e);
      var t := Step(Step(s, Stop), e);
      assert t.jobs[|s.jobs| - 1] == s.jobs[|s.jobs| - 1];
      assert !OnlyLatestLive(t);
    }
  }

  // Runs that lead to mixed results

  /** An attack of one request, just claimed and with its request sent. */
  function Claim(requests: seq<(string, string)>): Job {
    Job(requests, 1, Claimed, 0, 0, [], [])
  }

  function Sent(requests: seq<(string, string)>): Job {
    Job(requests, 1, LoopHead, 0, 1, [0], [Sending])
  }

  /** One job taken through some steps while the flag stays set. */
  lemma Dispatch(s: Sys, b: nat, requests: seq<(string, string)>) returns (es: seq<Event>)
    requires s.running && b < |s.jobs| && s.jobs[b] == Claim(requests) && |requests| == 1
    ensures NoStop(es) && Run(s, es) == Sys(true, [], s.jobs[b := Sent(requests)])
  {
    es := [ClearOld(b), Launch(b), Check(b), Acquire(b), Spawn(b)];
    var j1 := Job(requests, 1, Prepared, 0, 0, [], []);
    var j2 := Job(requests, 1, LoopHead, 1, 0, [], []);
    var j3 := Job(requests, 1, Acquiring(0), 1, 1, [], []);
    var j4 := Job(requests, 1, Pausing(0), 0, 1, [], []);
    var s1 := Moved(s, b, es[0], j1);
    var s2 := Moved(s1, b, es[1], j2);
    var s3 := Moved(s2, b, es[2], j3);
    var s4 := Moved(s3, b, es[3], j4);
    assert j4.dispatched + [0] == [0] && j4.workers + [Sending] == [Sending];
    var s5 := Moved(s4, b, es[4], Sent(requests));
    assert es[1..] == [Launch(b), Check(b), Acquire(b), Spawn(b)] && es[2..] == [Check(b), Acquire(b), Spawn(b)];
    assert es[3..] == [Acquire(b), Spawn(b)] && es[4..] == [Spawn(b)];
    RunOne(s4, es[4]);
    assert Run(s3, es[3..]) == Run(s4, es[4..]);
    assert Run(s2, es[2..]) == Run(s3, es[3..]);
    assert Run(s1, es[1..]) == Run(s2, es[2..]);
    assert s5.jobs == s.jobs[b := Sent(requests)];
  }

  lemma Moved(s: Sys, b: nat, e: Event, j: Job) returns (s': Sys)
    requires s.running && b < |s.jobs| && Internal(e) && e.a == b && EnabledIn(s.jobs[b], e) && !e.Report? && !e.Close?
    requires j == Advance(s.jobs[b], e, true)
    ensures s' == Step(s, e) == Sys(true, if e.ClearOld? then [] else s.results, s.jobs[b := j])
  {
    s' := Step(s, e);
  }

  /** Steps that take a live job to its end; the last of them clears the flag, whoever holds it. */
  lemma Drain(s: Sys, a: nat) returns (es: seq<Event>)
    requires Inv(s) && a < |s.jobs| && !Over(s.jobs[a])
    ensures NoStop(es)
    ensures var s' := Run(s, es);
      && Inv(s') && !s'.running && |s'.jobs| == |s.jobs| && s'.jobs[a].phase.Finished?
      && forall b :: 0 <= b < |s.jobs| && b != a ==> s'.jobs[b] == s.jobs[b]
    decreases Remaining(s.jobs[a])
  {
    assert JobInv(s.jobs[a]);
    var e := OwnStep(s.jobs[a], a);
    OneStepUsed(s, e);
    StepKeepsInv(s, e);
    var s1 := Step(s, e);
    if e.Close? {
      es := [e];
      RunOne(s, e);
    } else {
      var rest := Drain(s1, a);
      es := [e] + rest;
      assert es[1..] == rest;
    }
  }

  predicate Sends(j: Job, w: nat) {
    w < |j.workers| && j.workers[w].Sending?
  }

  /** A worker is sending, or the driver has requests left to dispatch. */
  predicate CanReport(j: Job) {
    || (exists w :: 0 <= w < |j.workers| && Sends(j, w))
    || (!j.phase.Joining? && !Over(j) && |j.dispatched| < |j.requests|)
  }

  lemma TowardsSending(j: Job, a: nat) returns (e: Event)
    requires JobInv(j) && CanReport(j) && forall w :: !Sends(j, w)
    ensures Internal(e) && e.a == a && EnabledIn(j, e) && !e.Close?
    ensures CanReport(Advance(j, e, true))
  {
    e := OwnStep(j, a);
    if e.Spawn? {
      assert Sends(Advance(j, e, true), |j.workers|);
    }
  }

  lemma DriveToSend(s: Sys, a: nat) returns (es: seq<Event>, w: nat)
    requires Inv(s) && s.running && a < |s.jobs| && CanReport(s.jobs[a])
    ensures NoStop(es)
    ensures var s' := Run(s, es);
      && Inv(s') && s'.running && |s'.jobs| == |s.jobs| && Sends(s'.jobs[a], w)
      && forall b :: 0 <= b < |s.jobs| && b != a ==> s'.jobs[b] == s.jobs[b]
    decreases Remaining(s.jobs[a])
  {
    assert JobInv(s.jobs[a]);
    if v :| Sends(s.jobs[a], v) {
      es, w := [], v;
    } else {
      var e := TowardsSending(s.jobs[a], a);
      OneStepUsed(s, e);
      StepKeepsInv(s, e);
      var rest;
      rest, w := DriveToSend(Step(s, e), a);
      es := [e] + rest;
      assert es[1..] == rest;
    }
  }

  lemma TwoReports(s: Sys, a: nat, v: nat, b: nat, w: nat) returns (es: seq<Event>)
    requires Inv(s) && a < |s.jobs| && b < |s.jobs| && a != b && Sends(s.jobs[a], v) && Sends(s.jobs[b], w)
    requires s.results == []
    ensures NoStop(es) && |Run(s, es).jobs| == |s.jobs|
    ensures var s' := Run(s, es); |s'.results| == 2 && s'.results[0].attack == a && s'.results[1].attack == b
  {
    assert JobInv(s.jobs[a]) && JobInv(s.jobs[b]);
    es := [Report(a, v, 200, 1), Report(b, w, 200, 1)];
    var s1 := Step(s, es[0]);
    assert s1.jobs[b] == s.jobs[b] && s1.results[0].attack == a;
    assert es[1..] == [es[1]];
    RunOne(s1, es[1]);
  }

  /** After a stop the next attack can start, and the requests the stopped one still has in hand or in
      flight report beside it. */
  lemma MixWithNext(s: Sys, a: nat) returns (es: seq<Event>)
    requires Inv(s) && !s.running && a < |s.jobs| && CanReport(s.jobs[a])
    ensures NoStop(es)
    ensures var s' := Run(s, es);
      |s'.jobs| == |s.jobs| + 1 && |s'.results| == 2 && s'.results[0].attack != s'.results[1].attack
  {
    var p, b := [("GET /", "p")], |s.jobs|;
    var s1 := Step(s, Start(p, 1));
    StepKeepsInv(s, Start(p, 1));
    assert s1.jobs[a] == s.jobs[a] && s1.jobs[b] == Claim(p);
    var es1, v := DriveToSend(s1, a);
    var s2 := Run(s1, es1);
    var es2 := Dispatch(s2, b, p);
    var s3 := Run(s2, es2);
    RunKeepsInv(s2, es2);
    assert Sends(s3.jobs[b], 0) && s3.jobs[a] == s2.jobs[a];
    var es3 := TwoReports(s3, a, v, b, 0);
    RunAppend(s1, es1, es2);
    RunAppend(s1, es1 + es2, es3);
    es := [Start(p, 1)] + (es1 + es2 + es3);
    assert es[1..] == es1 + es2 + es3;
  }

  /** If a stopped driver clears the flag while the next attack runs, a third one starts beside that. */
  lemma MixLater(s: Sys, a: nat) returns (es: seq<Event>)
    requires Inv(s) && !s.running && a < |s.jobs| && !Over(s.jobs[a])
    ensures NoStop(es)
    ensures var s' := Run(s, es); |s'.results| == 2 && s'.results[0].attack != s'.results[1].attack
  {
    var p, q, b := [("GET /", "p")], [("GET /", "q")], |s.jobs|;
    var s1 := Step(s, Start(p, 1));
    StepKeepsInv(s, Start(p, 1));
    assert s1.jobs[a] == s.jobs[a] && s1.jobs[b] == Claim(p);
    var es1 := Drain(s1, a);
    var s2 := Run(s1, es1);
    var s3 := Step(s2, Start(q, 1));
    StepKeepsInv(s2, Start(q, 1));
    var es3 := MixClaimed(s3, b, p, b + 1, q);
    es := [Start(p, 1)] + (es1 + ([Start(q, 1)] + es3));
    assert ([Start(q, 1)] + es3)[1..] == es3;
    assert es[1..] == es1 + ([Start(q, 1)] + es3);
    RunAppend(s1, es1, [Start(q, 1)] + es3);
  }

  lemma MixClaimed(s: Sys, b: nat, p: seq<(string, string)>, c: nat, q: seq<(string, string)>) returns (es: seq<Event>)
    requires Inv(s) && s.running && b < |s.jobs| && c < |s.jobs| && b != c && |p| == 1 && |q| == 1
    requires s.jobs[b] == Claim(p) && s.jobs[c] == Claim(q)
    ensures NoStop(es)
    ensures var s' := Run(s, es); |s'.results| == 2 && s'.results[0].attack != s'.results[1].attack
  {
    var es1 := Dispatch(s, b, p);
    var s1 := Run(s, es1);
    var es2 := Dispatch(s1, c, q);
    var s2 := Run(s1, es2);
    RunKeepsInv(s, es1);
    RunKeepsInv(s1, es2);
    assert Sends(s2.jobs[b], 0) && Sends(s2.jobs[c], 0);
    var es3 := TwoReports(s2, b, 0, c, 0);
    RunAppend(s, es1, es2);
    RunAppend(s, es1 + es2, es3);
    es := es1 + es2 + es3;
  }

  /** After a stop, some run with harmless stops only mixes results exactly if there was an attack to stop. */
  lemma StopCanMixIff(es: seq<Event>)
    requires HarmlessStops(INIT, es)
    ensures var s := Run(INIT, es);
      (exists more :: HarmlessStops(Step(s, Stop), more) && Mixed(Run(Step(s, Stop), more))) <==> !Idle(s)
  {
    var s := Reached(es);
    if Idle(s) {
      forall more | HarmlessStops(Step(s, Stop), more)
        ensures !Mixed(Run(Step(s, Stop), more))
      {
        IdleStopsAreSafe(s, more);
      }
    } else {
      StepKeepsInv(s, Stop);
      var more := MixLater(Step(s, Stop), |s.jobs| - 1);
      NoStopIsHarmless(Step(s, Stop), more);
      assert Mixed(Run(Step(s, Stop), more));
    }
  }

  /** A stopped attack without any requests has nothing to send, and spoils later ones all the same. */
  lemma NothingToSendIsNotEnough()
    ensures var s := Run(INIT, [Start([], 1)]);
      && s.running && !CanReport(s.jobs[0])
      && exists more :: HarmlessStops(Step(s, Stop), more) && Mixed(Run(Step(s, Stop), more))
  {
    RunOne(INIT, Start([], 1));
    assert Run(INIT, [Start([], 1)]).jobs == [Job([], 1, Claimed, 0, 0, [], [])];
    NoStopIsHarmless(INIT, [Start([], 1)]);
    StopCanMixIff([Start([], 1)]);
  }

  // What the next attack can see of the stopped one

  lemma StaysMute(j: Job, e: Event, running: bool)
    requires JobInv(j) && !CanReport(j) && Internal(e) && EnabledIn(j, e)
    ensures !e.Report? && !CanReport(Advance(j, e, running))
  {
    var j' := Advance(j, e, running);
    assert e.Report? ==> Sends(j, e.w);
    if w :| Sends(j', w) {
      assert Sends(j, w);
    }
  }

  /** Of the first `n` attacks none can report, and the results are of one attack: of the next one once
      it has cleared the list. */
  ghost predicate Muted(s: Sys, n: nat) {
    && Inv(s) && n <= |s.jobs| <= n + 1
    && (forall a :: 0 <= a < n ==> !CanReport(s.jobs[a]))
    && !Mixed(s)
    && (|s.jobs| > n && !s.jobs[n].phase.Claimed? ==> forall k :: 0 <= k < |s.results| ==> s.results[k].attack == n)
  }

  lemma StepKeepsMuted(s: Sys, n: nat, e: Event)
    requires Muted(s, n) && |Step(s, e).jobs| <= n + 1
    ensures Muted(Step(s, e), n)
  {
    StepKeepsInv(s, e);
    if Enabled(s, e) && Internal(e) {
      TasksKeepMuted(s, n, e);
    }
  }

  lemma TasksKeepMuted(s: Sys, n: nat, e: Event)
    requires Muted(s, n) && Internal(e) && Enabled(s, e) && Inv(Step(s, e))
    ensures Muted(Step(s, e), n)
  {
    var j := s.jobs[e.a];
    assert JobInv(j);
    if e.a < n {
      StaysMute(j, e, s.running);
      MutedTask(s, n, e);
    } else {
      NextTask(s, n, e);
    }
  }

  lemma MutedTask(s: Sys, n: nat, e: Event)
    requires Muted(s, n) && Internal(e) && Enabled(s, e) && Inv(Step(s, e)) && e.a < n
    requires !e.Report? && !CanReport(Advance(s.jobs[e.a], e, s.running))
    ensures Muted(Step(s, e), n)
  {
    var s' := Step(s, e);
    assert s'.jobs == s.jobs[e.a := Advance(s.jobs[e.a], e, s.running)];
    assert s'.results == s.results || s'.results == [];
  }

  lemma NextTask(s: Sys, n: nat, e: Event)
    requires Muted(s, n) && Internal(e) && Enabled(s, e) && Inv(Step(s, e)) && e.a == n && JobInv(s.jobs[n])
    ensures Muted(Step(s, e), n)
  {
    var s' := Step(s, e);
    assert s'.jobs == s.jobs[n := Advance(s.jobs[n], e, s.running)];
    assert e.Report? ==> !s.jobs[n].phase.Claimed?;
    assert !s'.jobs[n].phase.Claimed?;
    assert forall k :: 0 <= k < |s'.results| ==> s'.results[k].attack == n;
  }

  lemma {:induction false} JobsGrow(s: Sys, es: seq<Event>)
    ensures |s.jobs| <= |Run(s, es).jobs|
    decreases |es|
  {
    if es != [] {
      JobsGrow(Step(s, es[0]), es[1..]);
    }
  }

  lemma {:induction false} RunKeepsMuted(s: Sys, n: nat, es: seq<Event>)
    requires Muted(s, n) && |Run(s, es).jobs| <= n + 1
    ensures Muted(Run(s, es), n)
    decreases |es|
  {
    if es != [] {
      JobsGrow(Step(s, es[0]), es[1..]);
      StepKeepsMuted(s, n, es[0]);
      RunKeepsMuted(Step(s, es[0]), n, es[1..]);
    }
  }

  lemma StopMutes(s: Sys)
    requires Inv(s) && FlagTracksAttack(s) && Guarded(s) && (s.jobs == [] || !CanReport(s.jobs[|s.jobs|-1]))
    ensures Muted(Step(s, Stop), |s.jobs|)
  {
    StepKeepsInv(s, Stop);
    forall a | 0 <= a < |s.jobs|
      ensures !CanReport(s.jobs[a])
    {
      assert JobInv(s.jobs[a]);
    }
  }

  /** Within one further start, and whatever further stops, some run after a stop mixes results exactly if
      the latest attack has a sending worker, or a driver with requests left to dispatch. */
  lemma NextAttackMixesIff(es: seq<Event>)
    requires HarmlessStops(INIT, es)
    ensures var s := Run(INIT, es);
      (exists more :: |Run(Step(s, Stop), more).jobs| <= |s.jobs| + 1 && Mixed(Run(Step(s, Stop), more)))
        <==> s.jobs != [] && CanReport(s.jobs[|s.jobs|-1])
  {
    var s := Reached(es);
    if s.jobs != [] && CanReport(s.jobs[|s.jobs|-1]) {
      StepKeepsInv(s, Stop);
      var more := MixWithNext(Step(s, Stop), |s.jobs| - 1);
      assert Mixed(Run(Step(s, Stop), more));
    } else {
      StopMutes(s);
      forall more | |Run(Step(s, Stop), more).jobs| <= |s.jobs| + 1
        ensures !Mixed(Run(Step(s, Stop), more))
      {
        RunKeepsMuted(Step(s, Stop), |s.jobs|, more);
      }
    }
  }

  /** A concrete run: the worker of a stopped attack and that of the next report into the same list. */
  lemma StopCanMixResults() returns (es: seq<Event>)
    ensures !Orderly(INIT, es)
    ensures var s := Run(INIT, es); |s.results| == 2 && s.results[0].attack != s.results[1].attack
  {
    var p := [("GET /", "p")];
    var first := [Start(p, 1), Stop];
    assert first[1..] == [Stop];
    var s1 := Step(INIT, Start(p, 1));
    RunOne(s1, Stop);
    var s2 := Run(INIT, first);
    RunKeepsInv(INIT, first);
    var more := MixWithNext(s2, 0);
    es := first + more;
    RunAppend(INIT, first, more);
    if Orderly(INIT, es) {
      OrderlyRunsAreExclusive(INIT, es);
    }
  }

  /** Should generation ever return an error, the flag stays set: until a stop no start is accepted. */
  lemma FailureWedgesTheFlag(es: seq<Event>, more: seq<Event>, a: nat)
    requires HarmlessStops(INIT, es) && Enabled(Run(INIT, es), Fail(a))
    requires HarmlessStops(Step(Run(INIT, es), Fail(a)), more)
    ensures var s := Step(Run(INIT, es), Fail(a));
      Run(s, more).running && |Run(s, more).jobs| == |s.jobs|
  {
    var s := Reached(es);
    StepKeepsInv(s, Fail(a));
    StepKeepsGuarded(s, Fail(a));
    LatestMoves(s, Fail(a));
    FailedStays(Step(s, Fail(a)), more);
  }

  lemma {:induction false} FailedStays(s: Sys, more: seq<Event>)
    requires Inv(s) && HarmlessStops(s, more) && s.running && OnlyLatestLive(s)
    requires s.jobs != [] && s.jobs[|s.jobs|-1].phase.Failed?
    ensures Run(s, more).running && |Run(s, more).jobs| == |s.jobs|
    decreases |more|
  {
    if more != [] {
      var e := more[0];
      StepKeepsInv(s, e);
      if Enabled(s, e) && Internal(e) {
        LatestMoves(s, e);
        assert false;
      }
      FailedStays(Step(s, e), more[1..]);
    }
  }
}
