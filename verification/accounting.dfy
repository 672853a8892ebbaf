/** Conservation, exactly-once settlement, counters, wake-ups and dispatch order of the message
    queue, over every run and for every concurrency. */
module Accounting {
  import opened Scheduler

  // ---------------------------------------------------------------- where jobs are

  function Ids(q: seq<Job>): seq<nat> {
    seq(|q|, i requires 0 <= i < |q| => q[i].serial)
  }

  function Bag(q: seq<Job>): multiset<nat> {
    multiset(Ids(q))
  }

  lemma BagConcat(a: seq<Job>, b: seq<Job>)
    ensures Bag(a + b) == Bag(a) + Bag(b)
  {
    assert Ids(a + b) == Ids(a) + Ids(b);
  }

  lemma BagOne(j: Job)
    ensures Bag([j]) == multiset{j.serial}
  {
    assert Ids([j]) == [j.serial];
  }

  lemma BagHead(q: seq<Job>)
    requires q != []
    ensures Bag(q) == multiset{q[0].serial} + Bag(q[1..])
  {
    assert q == [q[0]] + q[1..];
    BagConcat([q[0]], q[1..]);
    BagOne(q[0]);
  }

  function HeldBy(w: Worker): seq<Job> {
    if w.Finishing? then [] else [w.job]
  }

  /** The jobs in flight, in worker order. */
  function Held(workers: seq<Worker>): seq<Job> {
    if workers == [] then [] else HeldBy(workers[0]) + Held(workers[1..])
  }

  lemma {:induction false} HeldConcat(a: seq<Worker>, b: seq<Worker>)
    ensures Held(a + b) == Held(a) + Held(b)
  {
    if a == [] {
      assert a + b == b;
    } else {
      assert (a + b)[1..] == a[1..] + b;
      HeldConcat(a[1..], b);
    }
  }

  /** The jobs in flight, cut at worker `i`. */
  lemma HeldSplit(workers: seq<Worker>, i: nat)
    requires i < |workers|
    ensures Held(workers) == Held(workers[..i]) + HeldBy(workers[i]) + Held(workers[i + 1..])
  {
    hide Held, HeldBy;
    var a, w, b := workers[..i], workers[i], workers[i + 1..];
    CutAt(workers, i);
    HeldThree(a, w, b);
  }

  lemma CutAt(workers: seq<Worker>, i: nat)
    requires i < |workers|
    ensures workers == workers[..i] + [workers[i]] + workers[i + 1..]
  {}

  lemma HeldThree(a: seq<Worker>, w: Worker, b: seq<Worker>)
    ensures Held(a + [w] + b) == Held(a) + HeldBy(w) + Held(b)
  {
    hide Held, HeldBy;
    HeldConcat(a + [w], b);
    HeldConcat(a, [w]);
    HeldOne(w);
  }

  lemma HeldOne(w: Worker)
    ensures Held([w]) == HeldBy(w)
  {
    assert Held([w]) == HeldBy(w) + Held([]);
  }

  lemma HeldReplaced(workers: seq<Worker>, i: nat, w: Worker)
    requires i < |workers|
    ensures Held(workers[i := w]) == Held(workers[..i]) + HeldBy(w) + Held(workers[i + 1..])
  {
    HeldSplit(workers[i := w], i);
    assert workers[i := w][..i] == workers[..i] && workers[i := w][i + 1..] == workers[i + 1..];
  }

  function SettledJobs(settled: seq<Settlement>): seq<Job> {
    seq(|settled|, i requires 0 <= i < |settled| => settled[i].job)
  }

  lemma SettledAppend(settled: seq<Settlement>, x: Settlement)
    ensures SettledJobs(settled + [x]) == SettledJobs(settled) + [x.job]
  {}

  function Queued(s: State): multiset<nat> {
    Bag(s.high) + Bag(s.normal) + Bag(s.low)
  }

  lemma QueueReplaced(s: State, p: Priority, q: seq<Job>)
    ensures var t := SetQueue(s, p, q);
            && t == s.(high := t.high, normal := t.normal, low := t.low)
            && Queued(t) + Bag(Queue(s, p)) == Queued(s) + Bag(q)
  {
    hide Bag;
  }

  lemma Cancel(a: multiset<nat>, b: multiset<nat>, x: multiset<nat>, y: multiset<nat>)
    requires a + x == b + (x + y)
    ensures a == b + y
  {
    forall k ensures a[k] == (b + y)[k] {
      assert (a + x)[k] == (b + (x + y))[k];
    }
  }

  /** Every place a job can be in. */
  function Places(s: State): multiset<nat> {
    Queued(s) + Bag(Held(s.workers)) + Bag(SettledJobs(s.settled)) + Bag(s.cleared)
  }

  /** Every job ever enqueued is in exactly one place, once. */
  ghost predicate Conserved(s: State) {
    && (forall k :: 0 <= k < |s.arrived| ==> s.arrived[k].serial == k)
    && Places(s) == Bag(s.arrived)
  }

  // ---------------------------------------------------------------- counters

  function Outcomes(settled: seq<Settlement>, good: bool): nat {
    if settled == [] then 0
    else Outcomes(settled[..|settled| - 1], good) + (if settled[|settled| - 1].Resolved? == good then 1 else 0)
  }

  lemma OutcomesAppend(settled: seq<Settlement>, x: Settlement)
    ensures forall g :: Outcomes(settled + [x], g) == Outcomes(settled, g) + (if x.Resolved? == g then 1 else 0)
  {
    assert (settled + [x])[..|settled|] == settled;
  }

  ghost predicate Counted(s: State) {
    && s.runningWorkers == s.processingCount == |s.workers|
    && |s.workers| <= Max(0, s.maxConcurrency)
    && s.completedCount == Outcomes(s.settled, true)
    && s.failedCount == Outcomes(s.settled, false)
  }

  // ---------------------------------------------------------------- wake-ups

  ghost predicate SomeFinishing(s: State) {
    exists i :: 0 <= i < |s.workers| && s.workers[i].Finishing?
  }

  /** Work that could be dispatched is only ever left waiting for a worker that is finishing. */
  ghost predicate NoLostWakeup(s: State) {
    s.isProcessing && CanDispatch(s) ==> SomeFinishing(s)
  }

  ghost predicate Inv(s: State) {
    Conserved(s) && Counted(s) && NoLostWakeup(s)
  }

  // ---------------------------------------------------------------- preservation

  lemma StartNextShape(s: State) returns (w: Worker)
    requires !Empty(s)
    ensures !w.Finishing?
    ensures var t := StartNext(s);
            && t == s.(high := t.high, normal := t.normal, low := t.low, limiter := t.limiter,
                       workers := s.workers + [w], runningWorkers := s.runningWorkers + 1,
                       processingCount := s.processingCount + 1)
            && Queued(t) + multiset{w.job.serial} == Queued(s)
  {
    hide Prune, QuotaWait, Bag;
    var p := Front(s);
    var q := Queue(s, p);
    assert q != [];
    hide Queued, SetQueue, Queue;
    w := StartNext(s).workers[|s.workers|];
    QueueReplaced(s, p, q[1..]);
    BagHead(q);
  }

  lemma StartNextKeeps(s: State)
    requires Conserved(s) && Counted(s) && CanDispatch(s)
    ensures Conserved(StartNext(s)) && Counted(StartNext(s))
  {
    var w := StartNextShape(s);
    OneMoreHeld(s.workers, w);
    BagOne(w.job);
    hide StartNext, Held, Bag, Queued;
  }

  lemma OneMoreHeld(workers: seq<Worker>, w: Worker)
    ensures Bag(Held(workers + [w])) == Bag(Held(workers)) + Bag(HeldBy(w))
  {
    HeldConcat(workers, [w]);
    HeldOne(w);
    hide Held, HeldBy;
    BagConcat(Held(workers), HeldBy(w));
  }

  lemma {:induction false} DispatchLoopKeeps(s: State)
    requires Conserved(s) && Counted(s)
    ensures Conserved(DispatchLoop(s)) && Counted(DispatchLoop(s)) && !CanDispatch(DispatchLoop(s))
    decreases |s.high| + |s.normal| + |s.low|
  {
    hide Conserved, Counted;
    if CanDispatch(s) {
      StartNextKeeps(s);
      DispatchLoopKeeps(StartNext(s));
    }
  }

  lemma DispatchKeeps(s: State)
    requires Conserved(s) && Counted(s)
    ensures Inv(Dispatch(s))
  {
    hide Conserved, Counted;
    if s.isProcessing { DispatchLoopKeeps(s); }
  }

  lemma AddJobKeeps(s: State, p: Priority, maxRetries: int, retryDelayMs: int)
    requires Inv(s)
    ensures var t := AddJob(s, p, maxRetries, retryDelayMs); Conserved(t) && Counted(t)
  {
    hide Bag, SetQueue;
    var t := AddJob(s, p, maxRetries, retryDelayMs);
    var job := t.arrived[|s.arrived|];
    QueueReplaced(s, p, Queue(s, p) + [job]);
    BagConcat(Queue(s, p), [job]);
    BagConcat(s.arrived, [job]);
    Cancel(Queued(t), Queued(s), Bag(Queue(s, p)), Bag([job]));
  }

  lemma ClearKeeps(s: State)
    requires Inv(s)
    ensures Inv(Effect(s, Clear))
  {
    ClearedBag(s.cleared, s.high, s.normal, s.low);
    NoneInBag();
    hide Bag, Held;
  }

  lemma ClearedBag(cleared: seq<Job>, high: seq<Job>, normal: seq<Job>, low: seq<Job>)
    ensures Bag(cleared + high + normal + low) == Bag(cleared) + Bag(high) + Bag(normal) + Bag(low)
  {
    BagConcat(cleared + high + normal, low);
    BagConcat(cleared + high, normal);
    BagConcat(cleared, high);
  }

  lemma NoneInBag()
    ensures Bag([]) == multiset{}
  {}

  lemma SameBag(workers: seq<Worker>, i: nat, w: Worker)
    requires i < |workers| && !workers[i].Finishing? && !w.Finishing? && w.job.serial == workers[i].job.serial
    ensures Bag(Held(workers[i := w])) == Bag(Held(workers))
  {
    HeldSplit(workers, i);
    HeldReplaced(workers, i, w);
    hide Held;
    assert Ids(Held(workers[i := w])) == Ids(Held(workers));
  }

  /** A step of worker `i` that only moves on to another phase with the same job. */
  lemma PhaseKeeps(s: State, i: nat, w: Worker, limiter: Limiter, attempts: nat)
    requires Inv(s) && i < |s.workers| && !s.workers[i].Finishing? && !w.Finishing?
    requires w.job.serial == s.workers[i].job.serial
    ensures Inv(SetWorker(s, i, w).(limiter := limiter, attempts := attempts))
  {
    SameBag(s.workers, i, w);
    hide Bag, Held;
    if SomeFinishing(s) { FinishingStays(s, i, w); }
  }

  lemma QuietKeeps(s: State, a: Action)
    requires Inv(s) && (a.Pause? || a.Tick?)
    ensures Inv(Effect(s, a))
  {
    hide Bag;
  }

  lemma FinishingStays(s: State, i: nat, w: Worker)
    requires i < |s.workers| && !s.workers[i].Finishing? && SomeFinishing(s)
    ensures SomeFinishing(SetWorker(s, i, w))
  {
    var j :| 0 <= j < |s.workers| && s.workers[j].Finishing?;
    assert SetWorker(s, i, w).workers[j].Finishing?;
  }

  /** Worker `i` gives up its job and starts finishing. */
  lemma ReleaseKeeps(s: State, i: nat)
    requires Inv(s) && i < |s.workers| && !s.workers[i].Finishing?
    ensures var t := SetWorker(s, i, Finishing);
            && Counted(t) && SomeFinishing(t)
            && Places(t) + multiset{s.workers[i].job.serial} == Places(s)
  {
    var t := SetWorker(s, i, Finishing);
    var a, b := Held(s.workers[..i]), Held(s.workers[i + 1..]);
    HeldSplit(s.workers, i);
    HeldReplaced(s.workers, i, Finishing);
    assert a + [] + b == a + b;
    BagConcat(a + [s.workers[i].job], b);
    BagConcat(a, [s.workers[i].job]);
    BagConcat(a, b);
    BagOne(s.workers[i].job);
    assert t.workers[i].Finishing?;
  }

  lemma SettleKeeps(s: State, i: nat, x: Settlement)
    requires Inv(s) && i < |s.workers| && !s.workers[i].Finishing?
    requires x.job.serial == s.workers[i].job.serial
    ensures Inv(SetWorker(s, i, Finishing).(
              settled := s.settled + [x],
              completedCount := s.completedCount + (if x.Resolved? then 1 else 0),
              failedCount := s.failedCount + (if x.Resolved? then 0 else 1)))
  {
    hide Bag;
    ReleaseKeeps(s, i);
    SettledAppend(s.settled, x);
    OutcomesAppend(s.settled, x);
    BagConcat(SettledJobs(s.settled), [x.job]);
    BagOne(x.job);
    assert SetWorker(s, i, Finishing).workers[i].Finishing?;
  }

  lemma RequeueKeeps(s: State, i: nat)
    requires Inv(s) && i < |s.workers| && s.workers[i].Backoff?
    ensures Inv(Requeue(s, i))
  {
    hide Bag, SetQueue;
    var job := s.workers[i].job;
    ReleaseKeeps(s, i);
    QueueReplaced(SetWorker(s, i, Finishing), job.priority, [job] + Queue(s, job.priority));
    BagConcat([job], Queue(s, job.priority));
    BagOne(job);
    assert Queue(SetWorker(s, i, Finishing), job.priority) == Queue(s, job.priority);
    Cancel(Queued(Requeue(s, i)), Queued(s), Bag(Queue(s, job.priority)), Bag([job]));
    assert SetWorker(s, i, Finishing).workers[i].Finishing?;
  }

  lemma RemoveWorkerKeeps(s: State, i: nat)
    requires Inv(s) && i < |s.workers| && s.workers[i].Finishing?
    ensures Conserved(RemoveWorker(s, i)) && Counted(RemoveWorker(s, i))
  {
    hide Bag;
    HeldSplit(s.workers, i);
    HeldConcat(s.workers[..i], s.workers[i + 1..]);
    assert Held(s.workers[..i]) + [] == Held(s.workers[..i]);
  }

  lemma StartKeeps(s: State)
    requires Inv(s)
    ensures Inv(Effect(s, Start))
  {
    hide DispatchLoop, Bag;
    DispatchKeeps(s.(isProcessing := true));
  }

  lemma FailureKeeps(s: State, i: nat)
    requires Inv(s) && i < |s.workers| && s.workers[i].Sending?
    ensures Inv(Failure(s, i))
  {
    hide Inv, Pow2;
    var job := s.workers[i].job.(retryCount := s.workers[i].job.retryCount + 1);
    if job.retryCount <= job.maxRetries {
      var delay := job.retryDelayMs * Pow2(job.retryCount - 1);
      PhaseKeeps(s, i, Backoff(job.(waited := job.waited + delay), s.now + delay), s.limiter, s.attempts);
    } else {
      SettleKeeps(s, i, Rejected(job));
    }
  }

  /** Every step keeps the invariant. */
  lemma StepKeeps(s: State, a: Action)
    requires Inv(s)
    ensures Inv(Apply(s, a))
  {
    hide Inv, Conserved, Counted, Dispatch, Failure, Requeue, AddJob, RemoveWorker;
    if Enabled(s, a) {
      match a {
        case Enqueue(p, maxRetries, retryDelayMs) =>
          AddJobKeeps(s, p, maxRetries, retryDelayMs);
          DispatchKeeps(AddJob(s, p, maxRetries, retryDelayMs));
        case Start => StartKeeps(s);
        case Pause => QuietKeeps(s, a);
        case Clear => ClearKeeps(s);
        case Tick(_) => QuietKeeps(s, a);
        case QuotaElapsed(i) => PhaseKeeps(s, i, Drawing(s.workers[i].job), s.limiter, s.attempts);
        case Draw(i, jitter) =>
          var job := s.workers[i].job;
          PhaseKeeps(s, i, Jitter(job, s.now + jitter), s.limiter, s.attempts);
          PhaseKeeps(s, i, Granted(job), Grant(s.limiter, s.now), s.attempts);
        case JitterElapsed(i) => PhaseKeeps(s, i, Granted(s.workers[i].job), Grant(s.limiter, s.now), s.attempts);
        case Send(i) =>
          var job := s.workers[i].job;
          PhaseKeeps(s, i, Sending(job.(sends := job.sends + 1)), s.limiter, s.attempts + 1);
        case SendOk(i) => SettleKeeps(s, i, Resolved(s.workers[i].job));
        case SendFail(i) => FailureKeeps(s, i);
        case BackoffElapsed(i) => RequeueKeeps(s, i);
        case Finish(i) =>
          RemoveWorkerKeeps(s, i);
          DispatchKeeps(RemoveWorker(s, i));
      }
    }
  }

  lemma {:induction false} RunKeeps(s: State, actions: seq<Action>)
    requires Inv(s)
    ensures Inv(Exec(s, actions))
    decreases |actions|
  {
    hide Inv, Apply;
    if actions != [] {
      StepKeeps(s, actions[0]);
      RunKeeps(Apply(s, actions[0]), actions[1..]);
    }
  }

  // ---------------------------------------------------------------- results over every run

  lemma InitialKeeps(maxConcurrency: int, autoStart: bool, maxMessages: int, windowMs: int, now: int)
    ensures Inv(Initial(maxConcurrency, autoStart, maxMessages, windowMs, now))
  {
    assert Bag([]) == multiset{};
  }

  /** In every reachable state the counters agree with the workers, at most `maxConcurrency`
      workers run, every job is in exactly one place, and no wake-up is lost. */
  lemma EveryRun(maxConcurrency: int, autoStart: bool, maxMessages: int, windowMs: int, now: int, actions: seq<Action>)
    ensures Inv(Exec(Initial(maxConcurrency, autoStart, maxMessages, windowMs, now), actions))
  {
    InitialKeeps(maxConcurrency, autoStart, maxMessages, windowMs, now);
    RunKeeps(Initial(maxConcurrency, autoStart, maxMessages, windowMs, now), actions);
  }

  lemma {:induction false} BagArrived(arrived: seq<Job>, n: nat)
    requires n <= |arrived| && forall k :: 0 <= k < |arrived| ==> arrived[k].serial == k
    ensures forall k: nat :: Bag(arrived[..n])[k] == if k < n then 1 else 0
  {
    if n > 0 {
      BagArrived(arrived, n - 1);
      assert arrived[..n] == arrived[..n - 1] + [arrived[n - 1]];
      BagConcat(arrived[..n - 1], [arrived[n - 1]]);
      BagOne(arrived[n - 1]);
    } else {
      assert Bag([]) == multiset{};
    }
  }

  /** Conservation, job by job: the number of times job `k` occurs in the queues, in flight, among
      the settled and among the cleared jobs is one in total, and no other job exists. */
  lemma ExactlyOnePlace(s: State, k: nat)
    requires Inv(s)
    ensures Queued(s)[k] + Bag(Held(s.workers))[k] + Bag(SettledJobs(s.settled))[k] + Bag(s.cleared)[k]
            == if k < |s.arrived| then 1 else 0
  {
    BagArrived(s.arrived, |s.arrived|);
    assert s.arrived[..|s.arrived|] == s.arrived;
    assert Places(s)[k] == Bag(s.arrived)[k];
  }

  lemma BagTwice(q: seq<Job>, i: nat, j: nat)
    requires i < j < |q| && q[i].serial == q[j].serial
    ensures Bag(q)[q[i].serial] >= 2
  {
    var a, b, c := q[..i], q[i..j], q[j..];
    assert q == a + b + c;
    BagConcat(a + b, c);
    BagConcat(a, b);
    BagHead(b);
    BagHead(c);
  }

  /** A promise settles at most once. */
  lemma SettledOnce(s: State, i: nat, j: nat)
    requires Inv(s) && i < j < |s.settled|
    ensures s.settled[i].job.serial != s.settled[j].job.serial
  {
    var q := SettledJobs(s.settled);
    if s.settled[i].job.serial == s.settled[j].job.serial {
      BagTwice(q, i, j);
      ExactlyOnePlace(s, q[i].serial);
    }
  }

  function Finishers(workers: seq<Worker>): nat {
    if workers == [] then 0 else (if workers[0].Finishing? then 1 else 0) + Finishers(workers[1..])
  }

  lemma {:induction false} HeldAndFinishing(workers: seq<Worker>)
    ensures |Held(workers)| + Finishers(workers) == |workers|
  {
    if workers != [] { HeldAndFinishing(workers[1..]); }
  }

  lemma {:induction false} OutcomesTotal(settled: seq<Settlement>)
    ensures Outcomes(settled, true) + Outcomes(settled, false) == |settled|
  {
    if settled != [] { OutcomesTotal(settled[..|settled| - 1]); }
  }

  lemma BagSize(q: seq<Job>)
    ensures |Bag(q)| == |q|
  {}

  datatype QueueStats = QueueStats(pendingCount: int, highPriorityCount: int, normalPriorityCount: int,
                                   lowPriorityCount: int, processingCount: int, completedCount: int, failedCount: int)

  function GetStats(s: State): QueueStats {
    QueueStats(|s.high| + |s.normal| + |s.low|, |s.high|, |s.normal|, |s.low|,
               s.processingCount, s.completedCount, s.failedCount)
  }

  /** The statistics count every job once; a worker that is finishing is counted on top. So they
      add up to the jobs enqueued exactly when no worker is finishing. */
  lemma StatsAddUp(s: State)
    requires Inv(s)
    ensures var t := GetStats(s);
            t.pendingCount + t.processingCount + t.completedCount + t.failedCount + |s.cleared|
            == |s.arrived| + Finishers(s.workers)
  {
    BagSize(s.high); BagSize(s.normal); BagSize(s.low); BagSize(s.cleared); BagSize(s.arrived);
    BagSize(Held(s.workers)); BagSize(SettledJobs(s.settled));
    hide Bag;
    assert |Places(s)| == |s.arrived|;
    HeldAndFinishing(s.workers);
    OutcomesTotal(s.settled);
  }

  /** No lost wake-up: when processing is on, jobs wait and a worker slot is free, some worker is
      in its finishing window, and its last step dispatches until no slot or no job is left. */
  lemma WakeupComes(s: State) returns (i: nat)
    requires Inv(s) && s.isProcessing && CanDispatch(s)
    ensures Enabled(s, Finish(i))
    ensures var t := Effect(s, Finish(i));
            !CanDispatch(t) && |t.high| + |t.normal| + |t.low| < |s.high| + |s.normal| + |s.low|
  {
    hide Bag, Held;
    i :| 0 <= i < |s.workers| && s.workers[i].Finishing?;
    var u := RemoveWorker(s, i);
    RemoveWorkerKeeps(s, i);
    DispatchShrinks(StartNext(u));
    DispatchEnds(u);
  }

  lemma {:induction false} DispatchEnds(s: State)
    ensures !CanDispatch(DispatchLoop(s))
    decreases |s.high| + |s.normal| + |s.low|
  {
    if CanDispatch(s) { DispatchEnds(StartNext(s)); }
  }

  lemma {:induction false} DispatchShrinks(s: State)
    ensures var t := DispatchLoop(s);
            |t.high| <= |s.high| && |t.normal| <= |s.normal| && |t.low| <= |s.low|
    decreases |s.high| + |s.normal| + |s.low|
  {
    if CanDispatch(s) { DispatchShrinks(StartNext(s)); }
  }

  ghost predicate HigherEmpty(s: State, p: Priority) {
    && (p.Normal? ==> s.high == [])
    && (p.Low? ==> s.high == [] && s.normal == [])
  }

  /** Queues hold jobs of their own priority. */
  ghost predicate Sorted(s: State) {
    forall p: Priority, i :: 0 <= i < |Queue(s, p)| ==> Queue(s, p)[i].priority == p
  }

  function Rank(p: Priority): nat {
    match p
    case High => 2
    case Normal => 1
    case Low => 0
  }

  /** The workers from place `n` on hold jobs whose priorities do not rise, none above `top`. */
  ghost predicate Descending(workers: seq<Worker>, n: nat, top: nat) {
    && (forall i :: n <= i < |workers| ==> !workers[i].Finishing? && Rank(workers[i].job.priority) <= top)
    && (forall i, j :: n <= i < j < |workers| ==> Rank(workers[j].job.priority) <= Rank(workers[i].job.priority))
  }

  /** Dispatching only starts new workers, one after the other in order of priority, and when it is
      done every queue of a higher priority than theirs is empty. So each was started while no
      queue of a higher priority held a job. */
  lemma {:induction false} DispatchByPriority(s: State)
    requires Sorted(s)
    ensures var t := DispatchLoop(s);
            && s.workers <= t.workers
            && Descending(t.workers, |s.workers|, Rank(Front(s)))
            && forall i :: |s.workers| <= i < |t.workers| ==> HigherEmpty(t, t.workers[i].job.priority)
    decreases |s.high| + |s.normal| + |s.low|
  {
    if CanDispatch(s) {
      var u := StartNext(s);
      StartNextSorted(s);
      FrontFalls(s);
      DispatchByPriority(u);
      DispatchShrinks(u);
    }
  }

  /** The worker started has the front priority, and the front never rises. */
  lemma FrontFalls(s: State)
    requires Sorted(s) && !Empty(s)
    ensures var u, p := StartNext(s), Front(s);
            && |u.workers| == |s.workers| + 1 && s.workers <= u.workers
            && !u.workers[|s.workers|].Finishing? && u.workers[|s.workers|].job.priority == p
            && HigherEmpty(s, p) && HigherEmpty(u, p) && (!Empty(u) ==> Rank(Front(u)) <= Rank(p))
  {
    hide Prune, QuotaWait;
    assert StartNext(s).workers[|s.workers|].job == Queue(s, Front(s))[0];
  }

  lemma StartNextSorted(s: State)
    requires Sorted(s) && !Empty(s)
    ensures Sorted(StartNext(s))
  {
    var p := Front(s);
    forall r: Priority, i | 0 <= i < |Queue(StartNext(s), r)| ensures Queue(StartNext(s), r)[i].priority == r {
      if r == p { assert Queue(s, p)[i + 1].priority == p; } else { assert Queue(s, r)[i].priority == r; }
    }
  }
}
