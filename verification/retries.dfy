/** How often a job is sent, how long it waits between attempts, and why the queue drains. */
module Retries {
  import opened Scheduler
  import opened Accounting
  import opened Fifo

  /** Retries a job may still use up; a negative option allows none. */
  function Allowed(j: Job): nat {
    if j.maxRetries >= 0 then j.maxRetries else 0
  }

  /** The backoff of `n` failures: 1 + 2 + 4 + ... times the base delay. */
  function BackoffSum(j: Job, n: nat): int {
    j.retryDelayMs * (Pow2(n) - 1)
  }

  /** A job that is not being sent: one send and one backoff for every failure so far. */
  ghost predicate Between(j: Job) {
    j.retryCount <= Allowed(j) && j.sends == j.retryCount && j.waited == BackoffSum(j, j.retryCount)
  }

  ghost predicate WorkerOk(w: Worker) {
    match w
    case Finishing => true
    case Sending(j) =>
      j.retryCount <= Allowed(j) && j.sends == j.retryCount + 1 && j.waited == BackoffSum(j, j.retryCount)
    case Backoff(j, _) => j.retryCount >= 1 && Between(j)
    case _ => Between(w.job)
  }

  /** A failed job was sent `maxRetries + 1` times, failed every time and waited the whole geometric
      series; a job that succeeded failed every time but the last. */
  ghost predicate SettlementOk(x: Settlement) {
    match x
    case Resolved(j) =>
      j.retryCount == j.sends - 1 && 1 <= j.sends <= Allowed(j) + 1 && j.waited == BackoffSum(j, j.sends - 1)
    case Rejected(j) =>
      j.retryCount == j.sends == Allowed(j) + 1 && j.waited == BackoffSum(j, Allowed(j))
  }

  ghost predicate RetriesOk(s: State) {
    && (forall j :: j in s.high || j in s.normal || j in s.low ==> Between(j))
    && (forall w :: w in s.workers ==> WorkerOk(w))
    && (forall x :: x in s.settled ==> SettlementOk(x))
  }

  lemma {:induction false} DispatchRetries(s: State)
    requires RetriesOk(s)
    ensures RetriesOk(DispatchLoop(s))
    decreases |s.high| + |s.normal| + |s.low|
  {
    hide Prune, QuotaWait, Between;
    if CanDispatch(s) {
      StartNextRetries(s);
      DispatchRetries(StartNext(s));
    }
  }

  lemma StartNextRetries(s: State)
    requires RetriesOk(s) && !Empty(s)
    ensures RetriesOk(StartNext(s))
  {
    hide Prune, QuotaWait, Between;
    var t := StartNext(s);
    var job := Queue(s, Front(s))[0];
    assert Between(job);
    assert WorkerOk(t.workers[|s.workers|]);
    forall w | w in t.workers ensures WorkerOk(w) {
      if w !in s.workers { assert w == t.workers[|s.workers|]; }
    }
    forall j | j in t.high || j in t.normal || j in t.low ensures Between(j) {}
  }

  /** A failed send: either the next backoff of the series is scheduled, or the job is rejected. */
  lemma FailureRetries(s: State, i: nat)
    requires RetriesOk(s) && i < |s.workers| && s.workers[i].Sending?
    ensures RetriesOk(Failure(s, i))
  {
    var t := Failure(s, i);
    var was := s.workers[i].job;
    assert WorkerOk(s.workers[i]);
    var n := was.retryCount;
    assert was.waited + was.retryDelayMs * Pow2(n) == was.retryDelayMs * (Pow2(n + 1) - 1);
    assert WorkerOk(t.workers[i]);
    if was.retryCount + 1 > was.maxRetries {
      assert SettlementOk(t.settled[|s.settled|]);
    }
    hide SettlementOk, WorkerOk, Between;
    forall w | w in t.workers ensures WorkerOk(w) {
      if w != t.workers[i] { assert w in s.workers; }
    }
    forall x | x in t.settled ensures SettlementOk(x) {
      if x !in s.settled { assert x == t.settled[|s.settled|]; }
    }
  }

  lemma WorkerStepRetries(s: State, a: Action)
    requires RetriesOk(s) && IsWorkerStep(a) && Enabled(s, a)
    ensures RetriesOk(Effect(s, a))
  {
    if a.SendFail? {
      FailureRetries(s, a.i);
    } else {
      hide Pow2, BackoffSum;
      var t := Effect(s, a);
      assert WorkerOk(s.workers[a.i]);
      assert WorkerOk(t.workers[a.i]);
      if a.SendOk? { assert SettlementOk(t.settled[|s.settled|]); }
      hide SettlementOk, WorkerOk, Between;
      forall w | w in t.workers ensures WorkerOk(w) {
        if w != t.workers[a.i] { assert w in s.workers; }
      }
      forall x | x in t.settled ensures SettlementOk(x) {
        if x !in s.settled { assert x == t.settled[|s.settled|]; }
      }
    }
  }

  lemma RequeueRetries(s: State, i: nat)
    requires RetriesOk(s) && i < |s.workers| && s.workers[i].Backoff?
    ensures RetriesOk(Requeue(s, i))
  {
    var t := Requeue(s, i);
    assert WorkerOk(s.workers[i]);
    hide BackoffSum;
    forall w | w in t.workers ensures WorkerOk(w) {
      if w != Finishing { assert w in s.workers; }
    }
  }

  lemma AddJobRetries(s: State, p: Priority, maxRetries: int, retryDelayMs: int)
    requires RetriesOk(s)
    ensures RetriesOk(AddJob(s, p, maxRetries, retryDelayMs))
  {
    var t := AddJob(s, p, maxRetries, retryDelayMs);
    assert Between(t.arrived[|s.arrived|]);
    hide Between;
  }

  lemma StepRetries(s: State, a: Action)
    requires RetriesOk(s)
    ensures RetriesOk(Apply(s, a))
  {
    hide DispatchLoop, AddJob, Requeue, Failure, Between, WorkerOk, SettlementOk;
    if Enabled(s, a) {
      match a {
        case Enqueue(p, maxRetries, retryDelayMs) =>
          AddJobRetries(s, p, maxRetries, retryDelayMs);
          DispatchRetries(AddJob(s, p, maxRetries, retryDelayMs));
        case Start => DispatchRetries(s.(isProcessing := true));
        case Pause =>
        case Clear =>
        case Tick(_) =>
        case BackoffElapsed(i) => RequeueRetries(s, i);
        case Finish(i) => DispatchRetries(RemoveWorker(s, i));
        case _ => WorkerStepRetries(s, a);
      }
    }
  }

  lemma {:induction false} RunRetries(s: State, actions: seq<Action>)
    requires RetriesOk(s)
    ensures RetriesOk(Exec(s, actions))
    decreases |actions|
  {
    hide RetriesOk, Apply;
    if actions != [] {
      StepRetries(s, actions[0]);
      RunRetries(Apply(s, actions[0]), actions[1..]);
    }
  }

  /** In every run, at every concurrency: a job that is rejected was sent exactly `maxRetries + 1`
      times, failed every time, and its backoffs add up to retryDelayMs * (2^maxRetries - 1); a job
      that is resolved was sent at most that often and failed every time but the last. */
  lemma RetryArithmetic(maxConcurrency: int, autoStart: bool, maxMessages: int, windowMs: int, now: int,
                        actions: seq<Action>, x: Settlement)
    requires x in Exec(Initial(maxConcurrency, autoStart, maxMessages, windowMs, now), actions).settled
    ensures x.Rejected? ==> x.job.retryCount == x.job.sends == Allowed(x.job) + 1
    ensures x.Rejected? ==> x.job.waited == x.job.retryDelayMs * (Pow2(Allowed(x.job)) - 1)
    ensures x.Resolved? ==> x.job.retryCount + 1 == x.job.sends <= Allowed(x.job) + 1
    ensures x.Resolved? ==> x.job.waited == x.job.retryDelayMs * (Pow2(x.job.sends - 1) - 1)
  {
    RunRetries(Initial(maxConcurrency, autoStart, maxMessages, windowMs, now), actions);
  }

  // ---------------------------------------------------------------- termination

  /** Attempts an unsettled job has left. */
  function Left(j: Job): int { Allowed(j) + 1 - j.retryCount }

  function JobsMeasure(q: seq<Job>): int {
    if q == [] then 0 else 8 * Left(q[0]) + JobsMeasure(q[1..])
  }

  /** What is left to do for one worker: the attempts after the present one and its own phases. */
  function WorkerMeasure(w: Worker): int {
    match w
    case Quota(j, _) => 8 * (Left(j) - 1) + 7
    case Drawing(j) => 8 * (Left(j) - 1) + 6
    case Jitter(j, _) => 8 * (Left(j) - 1) + 5
    case Granted(j) => 8 * (Left(j) - 1) + 4
    case Sending(j) => 8 * (Left(j) - 1) + 3
    case Backoff(j, _) => 8 * Left(j) + 2
    case Finishing => 1
  }

  function WorkersMeasure(workers: seq<Worker>): int {
    if workers == [] then 0 else WorkerMeasure(workers[0]) + WorkersMeasure(workers[1..])
  }

  function Measure(s: State): int {
    JobsMeasure(s.high) + JobsMeasure(s.normal) + JobsMeasure(s.low) + WorkersMeasure(s.workers)
  }

  lemma {:induction false} WorkersConcat(a: seq<Worker>, b: seq<Worker>)
    ensures WorkersMeasure(a + b) == WorkersMeasure(a) + WorkersMeasure(b)
  {
    if a == [] {
      assert a + b == b;
    } else {
      assert (a + b)[1..] == a[1..] + b;
      WorkersConcat(a[1..], b);
    }
  }

  lemma WorkerOne(w: Worker)
    ensures WorkersMeasure([w]) == WorkerMeasure(w)
  {
    assert WorkersMeasure([w]) == WorkerMeasure(w) + WorkersMeasure([]);
  }

  lemma WorkersSplit(workers: seq<Worker>, i: nat)
    requires i < |workers|
    ensures WorkersMeasure(workers) == WorkersMeasure(workers[..i] + workers[i + 1..]) + WorkerMeasure(workers[i])
  {
    hide WorkersMeasure, WorkerMeasure;
    var a, w, b := workers[..i], workers[i], workers[i + 1..];
    assert workers == a + [w] + b;
    WorkersConcat(a + [w], b);
    WorkersConcat(a, [w]);
    WorkersConcat(a, b);
    WorkerOne(w);
  }

  lemma WorkerReplaced(workers: seq<Worker>, i: nat, w: Worker)
    requires i < |workers|
    ensures WorkersMeasure(workers[i := w]) == WorkersMeasure(workers) - WorkerMeasure(workers[i]) + WorkerMeasure(w)
  {
    WorkersSplit(workers, i);
    WorkersSplit(workers[i := w], i);
    assert workers[i := w][..i] == workers[..i] && workers[i := w][i + 1..] == workers[i + 1..];
  }

  lemma StartNextMeasure(s: State)
    requires !Empty(s)
    ensures Measure(StartNext(s)) < Measure(s)
  {
    hide Prune, QuotaWait, Left;
    var w := StartNext(s).workers[|s.workers|];
    WorkersConcat(s.workers, [w]);
    WorkerOne(w);
  }

  lemma {:induction false} DispatchMeasure(s: State)
    ensures Measure(DispatchLoop(s)) <= Measure(s)
    decreases |s.high| + |s.normal| + |s.low|
  {
    hide Measure;
    if CanDispatch(s) {
      StartNextMeasure(s);
      DispatchMeasure(StartNext(s));
    }
  }

  lemma {:induction false} JobsNonNegative(q: seq<Job>)
    requires forall j :: j in q ==> Between(j)
    ensures JobsMeasure(q) >= 8 * |q|
  {
    if q != [] {
      assert Between(q[0]);
      JobsNonNegative(q[1..]);
    }
  }

  lemma {:induction false} WorkersNonNegative(workers: seq<Worker>)
    requires forall w :: w in workers ==> WorkerOk(w)
    ensures WorkersMeasure(workers) >= |workers|
  {
    hide BackoffSum;
    if workers != [] {
      assert WorkerOk(workers[0]);
      WorkersNonNegative(workers[1..]);
    }
  }

  lemma MeasureNonNegative(s: State)
    requires RetriesOk(s)
    ensures Measure(s) >= 8 * (|s.high| + |s.normal| + |s.low|) + |s.workers|
  {
    JobsNonNegative(s.high);
    JobsNonNegative(s.normal);
    JobsNonNegative(s.low);
    WorkersNonNegative(s.workers);
  }

  ghost predicate IsProgress(a: Action) {
    IsWorkerStep(a) || a.BackoffElapsed? || a.Finish?
  }

  lemma WorkerStepMeasure(s: State, a: Action)
    requires RetriesOk(s) && IsWorkerStep(a) && Enabled(s, a)
    ensures Measure(Effect(s, a)) < Measure(s)
  {
    var t := Effect(s, a);
    assert WorkerOk(s.workers[a.i]);
    hide Pow2, BackoffSum, JobsMeasure, WorkersMeasure;
    assert WorkerMeasure(t.workers[a.i]) < WorkerMeasure(s.workers[a.i]);
    WorkerReplaced(s.workers, a.i, t.workers[a.i]);
  }

  lemma RequeueMeasure(s: State, i: nat)
    requires i < |s.workers| && s.workers[i].Backoff?
    ensures Measure(Requeue(s, i)) < Measure(s)
  {
    hide JobsMeasure, WorkersMeasure, Left;
    var job := s.workers[i].job;
    WorkerReplaced(s.workers, i, Finishing);
    PrependMeasure(job, Queue(s, job.priority));
  }

  /** Every step of a worker makes the measure smaller. */
  lemma ProgressMeasure(s: State, a: Action)
    requires RetriesOk(s) && IsProgress(a) && Enabled(s, a)
    ensures Measure(Effect(s, a)) < Measure(s)
  {
    if a.Finish? {
      WorkersSplit(s.workers, a.i);
      DispatchMeasure(RemoveWorker(s, a.i));
    } else if a.BackoffElapsed? {
      RequeueMeasure(s, a.i);
    } else {
      WorkerStepMeasure(s, a);
    }
  }

  lemma PrependMeasure(j: Job, q: seq<Job>)
    ensures JobsMeasure([j] + q) == 8 * Left(j) + JobsMeasure(q)
  {
    assert ([j] + q)[1..] == q;
  }

  /** No step but an enqueue makes it larger. */
  lemma OtherMeasure(s: State, a: Action)
    requires RetriesOk(s) && (a.Start? || a.Pause? || a.Clear? || a.Tick?)
    ensures Measure(Effect(s, a)) <= Measure(s)
  {
    hide DispatchLoop;
    if a.Start? { DispatchMeasure(s.(isProcessing := true)); }
    if a.Clear? {
      JobsNonNegative(s.high);
      JobsNonNegative(s.normal);
      JobsNonNegative(s.low);
    }
  }

  /** The worker steps that take effect in a run. */
  function ProgressSteps(s: State, actions: seq<Action>): nat
    decreases |actions|
  {
    if actions == [] then 0
    else
      (match actions[0] {
         case Enqueue(_, _, _) => 0 case Start => 0 case Pause => 0 case Clear => 0 case Tick(_) => 0
         case _ => if Enabled(s, actions[0]) then 1 else 0
       }) + ProgressSteps(Apply(s, actions[0]), actions[1..])
  }

  /** Termination: from any state, as long as nothing is enqueued, the workers take at most
      `Measure` steps, whatever the environment does. */
  lemma {:induction false} WorkIsBounded(s: State, actions: seq<Action>)
    requires RetriesOk(s) && forall a :: a in actions ==> !a.Enqueue?
    ensures ProgressSteps(s, actions) + Measure(Exec(s, actions)) <= Measure(s)
    decreases |actions|
  {
    hide Measure, RetriesOk, Effect;
    if actions != [] {
      var a := actions[0];
      StepRetries(s, a);
      WorkIsBounded(Apply(s, a), actions[1..]);
      if Enabled(s, a) {
        if IsProgress(a) { ProgressMeasure(s, a); } else { OtherMeasure(s, a); }
      }
    }
  }

  /** A running worker can always take a step once enough time has passed. */
  lemma WorkersCanMove(s: State) returns (ms: nat, a: Action)
    requires s.workers != []
    ensures IsProgress(a) && Enabled(Effect(s, Tick(ms)), a)
  {
    ms := 0;
    match s.workers[0] {
      case Quota(_, until) =>
        ms, a := if until > s.now then until - s.now else 0, QuotaElapsed(0);
      case Drawing(_) => a := Draw(0, 0);
      case Jitter(_, until) =>
        ms, a := if until > s.now then until - s.now else 0, JitterElapsed(0);
      case Granted(_) => a := Send(0);
      case Sending(_) => a := SendOk(0);
      case Backoff(_, until) =>
        ms, a := if until > s.now then until - s.now else 0, BackoffElapsed(0);
      case Finishing => a := Finish(0);
    }
  }

  /** When no worker is left in a running queue that may use one, every job has been settled or
      cleared. Together with the bound and the possible step: the queue always drains. */
  lemma DrainedWhenQuiet(s: State)
    requires Inv(s) && s.isProcessing && s.maxConcurrency >= 1 && s.workers == []
    ensures Empty(s)
    ensures forall k: nat :: k < |s.arrived| ==> Bag(SettledJobs(s.settled))[k] + Bag(s.cleared)[k] == 1
  {
    assert Empty(s) by {
      if CanDispatch(s) { var i := WakeupComes(s); }
    }
    forall k: nat | k < |s.arrived| ensures Bag(SettledJobs(s.settled))[k] + Bag(s.cleared)[k] == 1 {
      ExactlyOnePlace(s, k);
      assert Queued(s)[k] == 0 && Bag(Held([]))[k] == 0;
    }
  }

  ghost predicate Live(s: State) {
    Inv(s) && RetriesOk(s) && s.isProcessing && s.maxConcurrency >= 1
  }

  lemma TickLive(s: State, ms: nat)
    requires Live(s)
    ensures var t := Apply(s, Tick(ms)); Live(t) && Measure(t) == Measure(s) && t.arrived == s.arrived
  {
    StepKeeps(s, Tick(ms));
    StepRetries(s, Tick(ms));
  }

  lemma ProgressLive(s: State, a: Action)
    requires Live(s) && IsProgress(a) && Enabled(s, a)
    ensures var t := Apply(s, a); Live(t) && 0 <= Measure(t) < Measure(s) && t.arrived == s.arrived
  {
    hide Inv, RetriesOk, Measure, Effect, Enabled;
    StepKeeps(s, a);
    StepRetries(s, a);
    ProgressMeasure(s, a);
    MeasureNonNegative(Apply(s, a));
    StepConcurrency(s, a);
    StillProcessing(s, a);
  }

  lemma TwoStepsThen(s: State, a: Action, b: Action, rest: seq<Action>)
    ensures Exec(s, [a, b] + rest) == Exec(Apply(Apply(s, a), b), rest)
  {
    hide Apply;
    assert ([a, b] + rest)[1..] == [b] + rest && ([b] + rest)[1..] == rest;
  }

  /** A running queue that may use a worker always has a way to settle or clear all its jobs
      without further calls: only time, timers and sends. */
  lemma {:induction false} CanDrain(s: State) returns (actions: seq<Action>)
    requires Live(s)
    ensures forall a :: a in actions ==> a.Tick? || IsProgress(a)
    ensures var t := Exec(s, actions); t.workers == [] && Empty(t) && t.arrived == s.arrived
    decreases Measure(s)
  {
    if s.workers == [] {
      DrainedWhenQuiet(s);
      actions := [];
    } else {
      var ms, a := WorkersCanMove(s);
      var u := Apply(s, Tick(ms));
      TickLive(s, ms);
      ProgressLive(u, a);
      hide Live, Apply, Measure;
      var rest := CanDrain(Apply(u, a));
      actions := [Tick(ms), a] + rest;
      TwoStepsThen(s, Tick(ms), a, rest);
    }
  }

  lemma {:induction false} DispatchSame(s: State)
    ensures DispatchLoop(s).isProcessing == s.isProcessing && DispatchLoop(s).arrived == s.arrived
    decreases |s.high| + |s.normal| + |s.low|
  {
    if CanDispatch(s) { DispatchSame(StartNext(s)); }
  }

  lemma StillProcessing(s: State, a: Action)
    requires IsProgress(a)
    ensures Apply(s, a).isProcessing == s.isProcessing && Apply(s, a).arrived == s.arrived
  {
    hide DispatchLoop, Pow2;
    if a.Finish? && a.i < |s.workers| { DispatchSame(RemoveWorker(s, a.i)); }
  }
}
