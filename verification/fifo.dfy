/** The order in which the message queue settles its jobs. */
module Fifo {
  import opened Scheduler
  import opened Accounting

  // ---------------------------------------------------------------- jobs keep their identity

  /** `j` is the job enqueued under its serial number, with its counters moved on. */
  ghost predicate IsJob(s: State, j: Job) {
    && j.serial < |s.arrived|
    && j == s.arrived[j.serial].(retryCount := j.retryCount, sends := j.sends, waited := j.waited)
  }

  ghost predicate Tagged(s: State) {
    && Sorted(s)
    && (forall p: Priority, i :: 0 <= i < |Queue(s, p)| ==> IsJob(s, Queue(s, p)[i]))
    && (forall i :: 0 <= i < |s.workers| && !s.workers[i].Finishing? ==> IsJob(s, s.workers[i].job))
    && (forall i :: 0 <= i < |s.settled| ==> IsJob(s, s.settled[i].job))
    && (forall i :: 0 <= i < |s.cleared| ==> IsJob(s, s.cleared[i]))
  }

  lemma StartNextTagged(s: State)
    requires Tagged(s) && !Empty(s)
    ensures Tagged(StartNext(s))
  {
    var t := StartNext(s);
    var p := Front(s);
    StartNextSorted(s);
    assert IsJob(s, Queue(s, p)[0]);
    forall r: Priority, i | 0 <= i < |Queue(t, r)| ensures IsJob(t, Queue(t, r)[i]) {
      if r == p { assert IsJob(s, Queue(s, p)[i + 1]); } else { assert IsJob(s, Queue(s, r)[i]); }
    }
  }

  lemma {:induction false} DispatchTagged(s: State)
    requires Tagged(s)
    ensures Tagged(DispatchLoop(s))
    decreases |s.high| + |s.normal| + |s.low|
  {
    hide Tagged;
    if CanDispatch(s) {
      StartNextTagged(s);
      DispatchTagged(StartNext(s));
    }
  }

  lemma AddJobTagged(s: State, p: Priority, maxRetries: int, retryDelayMs: int)
    requires Tagged(s)
    ensures Tagged(AddJob(s, p, maxRetries, retryDelayMs))
  {
    var t := AddJob(s, p, maxRetries, retryDelayMs);
    forall r: Priority, i | 0 <= i < |Queue(t, r)|
      ensures Queue(t, r)[i].priority == r && IsJob(t, Queue(t, r)[i])
    {
      if i < |Queue(s, r)| { assert Queue(s, r)[i].priority == r && IsJob(s, Queue(s, r)[i]); }
    }
  }

  lemma RequeueTagged(s: State, i: nat)
    requires Tagged(s) && i < |s.workers| && s.workers[i].Backoff?
    ensures Tagged(Requeue(s, i))
  {
    var job := s.workers[i].job;
    var t := Requeue(s, i);
    forall p: Priority, k | 0 <= k < |Queue(t, p)|
      ensures Queue(t, p)[k].priority == p && IsJob(t, Queue(t, p)[k])
    {
      if p == job.priority {
        if k > 0 { assert Queue(s, p)[k - 1].priority == p && IsJob(s, Queue(s, p)[k - 1]); }
      } else {
        assert Queue(s, p)[k].priority == p && IsJob(s, Queue(s, p)[k]);
      }
    }
  }

  lemma ClearTagged(s: State)
    requires Tagged(s)
    ensures Tagged(Effect(s, Clear))
  {
    var t := Effect(s, Clear);
    forall i | 0 <= i < |t.cleared| ensures IsJob(t, t.cleared[i]) {
      var a, b := |s.cleared|, |s.cleared| + |s.high|;
      if i < a {
      } else if i < b {
        assert t.cleared[i] == Queue(s, High)[i - a];
      } else if i < b + |s.normal| {
        assert t.cleared[i] == Queue(s, Normal)[i - b];
      } else {
        assert t.cleared[i] == Queue(s, Low)[i - b - |s.normal|];
      }
    }
  }

  lemma StepTagged(s: State, a: Action)
    requires Tagged(s)
    ensures Tagged(Apply(s, a))
  {
    hide Tagged, DispatchLoop, AddJob, RemoveWorker, Requeue, Failure;
    if Enabled(s, a) {
      match a {
        case Enqueue(p, maxRetries, retryDelayMs) =>
          AddJobTagged(s, p, maxRetries, retryDelayMs);
          DispatchTagged(AddJob(s, p, maxRetries, retryDelayMs));
        case Start =>
          QuietTagged(s, s.(isProcessing := true));
          DispatchTagged(s.(isProcessing := true));
        case Pause => QuietTagged(s, s.(isProcessing := false));
        case Clear => ClearTagged(s);
        case Tick(ms) => QuietTagged(s, Effect(s, a));
        case BackoffElapsed(i) => RequeueTagged(s, i);
        case Finish(i) =>
          RemovedTagged(s, i);
          DispatchTagged(RemoveWorker(s, i));
        case _ => WorkerStepTagged(s, a);
      }
    }
  }

  lemma QuietTagged(s: State, t: State)
    requires Tagged(s) && t == s.(isProcessing := t.isProcessing, now := t.now)
    ensures Tagged(t)
  {
    forall p: Priority ensures Queue(t, p) == Queue(s, p) {}
  }

  lemma RemovedTagged(s: State, i: nat)
    requires Tagged(s) && i < |s.workers|
    ensures Tagged(RemoveWorker(s, i))
  {
    var t := RemoveWorker(s, i);
    forall p: Priority ensures Queue(t, p) == Queue(s, p) {}
  }

  ghost predicate IsWorkerStep(a: Action) {
    a.QuotaElapsed? || a.Draw? || a.JitterElapsed? || a.Send? || a.SendOk? || a.SendFail?
  }

  /** These steps move one worker on and touch no queue. */
  lemma WorkerStepShape(s: State, a: Action)
    requires IsWorkerStep(a) && Enabled(s, a)
    ensures a.i < |s.workers| && !s.workers[a.i].Finishing?
    ensures var t := Effect(s, a);
            && t == s.(workers := s.workers[a.i := t.workers[a.i]], limiter := t.limiter, attempts := t.attempts,
                       completedCount := t.completedCount, failedCount := t.failedCount, settled := t.settled)
    ensures var t, job := Effect(s, a), s.workers[a.i].job;
            if t.workers[a.i].Finishing? then
              exists x :: t.settled == s.settled + [x] && SameJob(x.job, job)
            else
              t.settled == s.settled && SameJob(t.workers[a.i].job, job)
  {
    hide Pow2;
    var t, job := Effect(s, a), s.workers[a.i].job;
    if t.workers[a.i].Finishing? {
      assert t.settled == s.settled + [t.settled[|s.settled|]] && SameJob(t.settled[|s.settled|].job, job);
    }
  }

  ghost predicate SameJob(a: Job, b: Job) {
    a == b.(retryCount := a.retryCount, sends := a.sends, waited := a.waited)
  }

  lemma WorkerStepTagged(s: State, a: Action)
    requires Tagged(s) && IsWorkerStep(a) && Enabled(s, a)
    ensures Tagged(Effect(s, a))
  {
    hide Enabled;
    WorkerStepShape(s, a);
    hide Effect;
    var t := Effect(s, a);
    forall p: Priority ensures Queue(t, p) == Queue(s, p) {}
  }

  // ---------------------------------------------------------------- first in, first out

  /** The serial numbers of the jobs of priority `p` that are not in `out`, in order. */
  function Pick(jobs: seq<Job>, p: Priority, out: set<nat>): seq<nat> {
    if jobs == [] then []
    else (if jobs[0].priority == p && jobs[0].serial !in out then [jobs[0].serial] else []) + Pick(jobs[1..], p, out)
  }

  lemma {:induction false} PickConcat(a: seq<Job>, b: seq<Job>, p: Priority, out: set<nat>)
    ensures Pick(a + b, p, out) == Pick(a, p, out) + Pick(b, p, out)
  {
    if a == [] {
      assert a + b == b;
    } else {
      assert (a + b)[1..] == a[1..] + b;
      PickConcat(a[1..], b, p, out);
    }
  }

  lemma PickOne(j: Job, p: Priority, out: set<nat>)
    ensures Pick([j], p, out) == if j.priority == p && j.serial !in out then [j.serial] else []
  {
    assert Pick([j], p, out) == (if j.priority == p && j.serial !in out then [j.serial] else []) + Pick([], p, out);
  }

  function Remove(ids: seq<nat>, out: set<nat>): seq<nat> {
    if ids == [] then [] else (if ids[0] in out then [] else [ids[0]]) + Remove(ids[1..], out)
  }

  lemma {:induction false} RemoveConcat(a: seq<nat>, b: seq<nat>, out: set<nat>)
    ensures Remove(a + b, out) == Remove(a, out) + Remove(b, out)
  {
    if a == [] {
      assert a + b == b;
    } else {
      assert (a + b)[1..] == a[1..] + b;
      RemoveConcat(a[1..], b, out);
    }
  }

  lemma {:induction false} RemoveNone(a: seq<nat>, out: set<nat>)
    requires forall x :: x in a ==> x !in out
    ensures Remove(a, out) == a
  {
    if a != [] { RemoveNone(a[1..], out); }
  }

  lemma {:induction false} RemoveAll(a: seq<nat>, out: set<nat>)
    requires forall x :: x in a ==> x in out
    ensures Remove(a, out) == []
  {
    if a != [] { RemoveAll(a[1..], out); }
  }

  lemma {:induction false} PickRemove(jobs: seq<Job>, p: Priority, out: set<nat>, more: set<nat>)
    ensures Pick(jobs, p, out + more) == Remove(Pick(jobs, p, out), more)
  {
    if jobs != [] {
      PickRemove(jobs[1..], p, out, more);
      var head := if jobs[0].priority == p && jobs[0].serial !in out then [jobs[0].serial] else [];
      RemoveConcat(head, Pick(jobs[1..], p, out), more);
    }
  }

  lemma {:induction false} PickIds(jobs: seq<Job>, p: Priority, out: set<nat>, x: nat)
    requires x in Pick(jobs, p, out)
    ensures x in Ids(jobs)
  {
    if x == jobs[0].serial {
      assert Ids(jobs)[0] == x;
    } else {
      PickIds(jobs[1..], p, out, x);
      var k :| 0 <= k < |jobs[1..]| && Ids(jobs[1..])[k] == x;
      assert Ids(jobs)[k + 1] == x;
    }
  }

  function ClearedIds(s: State): set<nat> {
    set x | x in Ids(s.cleared)
  }

  /** Settled, then in flight, then queued: the order the jobs of a priority stand in. */
  function Order(s: State, p: Priority): seq<nat> {
    Pick(SettledJobs(s.settled), p, {}) + Pick(Held(s.workers), p, {}) + Ids(Queue(s, p))
  }

  /** The jobs of a priority in enqueue order, without the cleared ones. */
  function Expected(s: State, p: Priority): seq<nat> {
    Pick(s.arrived, p, ClearedIds(s))
  }

  ghost predicate InOrder(s: State) {
    forall p: Priority :: Order(s, p) == Expected(s, p)
  }

  ghost predicate Serial(s: State) {
    s.maxConcurrency <= 1 && Inv(s) && Tagged(s)
  }

  lemma IdsHead(q: seq<Job>)
    requires q != []
    ensures Ids(q) == [q[0].serial] + Ids(q[1..])
  {}

  lemma StartNextParts(s: State, p: Priority)
    requires Tagged(s) && !Empty(s) && s.workers == []
    ensures var t, f := StartNext(s), Front(s);
            && Queue(s, f) != [] && Queue(s, f)[0].priority == f
            && t.settled == s.settled
            && Held(t.workers) == [Queue(s, f)[0]]
            && Queue(t, p) == if p == f then Queue(s, p)[1..] else Queue(s, p)
  {
    hide Prune, QuotaWait;
    var t := StartNext(s);
    assert t.workers == [t.workers[0]];
    HeldOne(t.workers[0]);
  }

  lemma StartNextOrder(s: State, p: Priority)
    requires Tagged(s) && !Empty(s) && s.workers == []
    ensures Order(StartNext(s), p) == Order(s, p)
  {
    StartNextParts(s, p);
    assert Pick(Held(s.workers), p, {}) == [] by { NothingHeld(p); }
    hide StartNext, Queue, Front, Ids, Tagged, Pick, Held, SettledJobs;
    var job := Queue(s, Front(s))[0];
    PickOne(job, p, {});
    if p == Front(s) {
      IdsHead(Queue(s, p));
      Shift(Pick(SettledJobs(s.settled), p, {}), job.serial, Ids(Queue(s, p)[1..]));
    }
  }

  /** A job at the border of two parts may be counted in either. */
  lemma Shift(a: seq<nat>, x: nat, b: seq<nat>)
    ensures a + [x] + b == a + [] + ([x] + b)
  {}

  lemma NothingHeld(p: Priority)
    ensures Pick(Held([]), p, {}) == []
  {}

  lemma DispatchInOrder(s: State)
    requires Tagged(s) && InOrder(s) && Counted(s) && s.maxConcurrency <= 1
    ensures InOrder(Dispatch(s))
  {
    hide Order, Tagged, Prune, QuotaWait;
    if s.isProcessing && CanDispatch(s) {
      forall p: Priority ensures Order(StartNext(s), p) == Order(s, p) {
        StartNextOrder(s, p);
      }
      assert DispatchLoop(s) == DispatchLoop(StartNext(s)) == StartNext(s);
    }
  }

  lemma AddJobParts(s: State, p: Priority, maxRetries: int, retryDelayMs: int, r: Priority) returns (job: Job)
    ensures job.serial == |s.arrived| && job.priority == p
    ensures var t := AddJob(s, p, maxRetries, retryDelayMs);
            && t.arrived == s.arrived + [job] && t.settled == s.settled && t.workers == s.workers
            && ClearedIds(t) == ClearedIds(s)
            && Ids(Queue(t, r)) == Ids(Queue(s, r)) + (if r == p then [job.serial] else [])
  {
    var t := AddJob(s, p, maxRetries, retryDelayMs);
    job := t.arrived[|s.arrived|];
    assert Queue(t, r) == Queue(s, r) + if r == p then [job] else [];
    hide AddJob, Queue;
  }

  lemma AddJobInOrder(s: State, p: Priority, maxRetries: int, retryDelayMs: int)
    requires Tagged(s) && InOrder(s)
    ensures InOrder(AddJob(s, p, maxRetries, retryDelayMs))
  {
    FreshSerial(s);
    hide Tagged, AddJob, Queue, Ids, Held, SettledJobs, Pick, ClearedIds;
    var t := AddJob(s, p, maxRetries, retryDelayMs);
    forall r: Priority ensures Order(t, r) == Expected(t, r) {
      var job := AddJobParts(s, p, maxRetries, retryDelayMs, r);
      assert Order(s, r) == Expected(s, r);
      PickConcat(s.arrived, [job], r, ClearedIds(s));
      PickOne(job, r, ClearedIds(s));
    }
  }

  lemma FreshSerial(s: State)
    requires Tagged(s)
    ensures |s.arrived| !in ClearedIds(s)
  {}

  /** Clearing takes exactly the queued jobs out of the expected order. */
  lemma ClearInOrder(s: State)
    requires Inv(s) && Tagged(s) && InOrder(s)
    ensures InOrder(Effect(s, Clear))
  {
    hide Inv, Held, SettledJobs, Pick;
    var t := Effect(s, Clear);
    var gone := set x | x in Ids(s.high) + Ids(s.normal) + Ids(s.low);
    assert Ids(t.cleared) == Ids(s.cleared) + (Ids(s.high) + Ids(s.normal) + Ids(s.low));
    assert ClearedIds(t) == ClearedIds(s) + gone;
    forall p: Priority ensures Order(t, p) == Expected(t, p) {
      var done, flying, queued := Pick(SettledJobs(s.settled), p, {}), Pick(Held(s.workers), p, {}), Ids(Queue(s, p));
      PickRemove(s.arrived, p, ClearedIds(s), gone);
      RemoveConcat(done + flying, queued, gone);
      forall x | x in done + flying ensures x !in gone {
        NotQueued(s, p, x);
      }
      RemoveNone(done + flying, gone);
      RemoveAll(queued, gone);
      assert Order(s, p) == Expected(s, p);
    }
  }

  lemma InBag(q: seq<Job>, x: nat)
    ensures x in Ids(q) <==> Bag(q)[x] > 0
  {}

  /** A job that is settled or in flight stands in no queue. */
  lemma NotQueued(s: State, p: Priority, x: nat)
    requires Inv(s)
    requires x in Pick(SettledJobs(s.settled), p, {}) + Pick(Held(s.workers), p, {})
    ensures x !in Ids(s.high) + Ids(s.normal) + Ids(s.low)
  {
    if x in Pick(SettledJobs(s.settled), p, {}) { PickIds(SettledJobs(s.settled), p, {}, x); }
    if x in Pick(Held(s.workers), p, {}) { PickIds(Held(s.workers), p, {}, x); }
    ExactlyOnePlace(s, x);
    InBag(s.high, x); InBag(s.normal, x); InBag(s.low, x);
    InBag(SettledJobs(s.settled), x); InBag(Held(s.workers), x);
  }

  /** One worker, in front of nothing and behind nothing. */
  lemma OneWorker(s: State, i: nat)
    requires Inv(s) && s.maxConcurrency <= 1 && i < |s.workers|
    ensures i == 0 && s.workers == [s.workers[0]] && Held(s.workers) == HeldBy(s.workers[0])
  {
    HeldOne(s.workers[0]);
  }

  /** What a step of the one worker does to the parts of the order. */
  lemma WorkerStepParts(s: State, a: Action) returns (done: seq<Job>, flying: seq<Job>)
    requires Serial(s) && IsWorkerStep(a) && Enabled(s, a)
    ensures var t := Effect(s, a);
            && SettledJobs(t.settled) == SettledJobs(s.settled) + done && Held(t.workers) == flying
            && t.arrived == s.arrived && t.cleared == s.cleared
            && t.high == s.high && t.normal == s.normal && t.low == s.low
    ensures |Held(s.workers)| == 1
    ensures (done == [] && |flying| == 1 && SameJob(flying[0], Held(s.workers)[0]))
            || (flying == [] && |done| == 1 && SameJob(done[0], Held(s.workers)[0]))
  {
    OneWorker(s, a.i);
    WorkerStepShape(s, a);
    hide Effect, Enabled, Serial;
    var t := Effect(s, a);
    HeldOne(t.workers[0]);
    assert t.workers == [t.workers[0]];
    hide Held;
    if t.workers[0].Finishing? {
      var x :| t.settled == s.settled + [x] && SameJob(x.job, s.workers[0].job);
      SettledAppend(s.settled, x);
      done, flying := [x.job], [];
    } else {
      done, flying := [], [t.workers[0].job];
    }
  }

  lemma WorkerStepInOrder(s: State, a: Action)
    requires Serial(s) && InOrder(s) && IsWorkerStep(a) && Enabled(s, a)
    ensures InOrder(Effect(s, a))
  {
    var done, flying := WorkerStepParts(s, a);
    hide Serial, Effect, Enabled, Ids, Pick, Held, SettledJobs;
    var t := Effect(s, a);
    forall p: Priority ensures Order(t, p) == Expected(t, p) {
      assert Order(s, p) == Expected(s, p);
      OneMoves(SettledJobs(s.settled), done, Held(s.workers), flying, p);
    }
  }

  /** A job in flight keeps its place in the order, whether it settles or stays in flight. */
  lemma OneMoves(settled: seq<Job>, done: seq<Job>, was: seq<Job>, flying: seq<Job>, p: Priority)
    requires |was| == 1
    requires (done == [] && |flying| == 1 && SameJob(flying[0], was[0]))
             || (flying == [] && |done| == 1 && SameJob(done[0], was[0]))
    ensures Pick(settled + done, p, {}) + Pick(flying, p, {}) == Pick(settled, p, {}) + Pick(was, p, {})
  {
    PickConcat(settled, done, p, {});
    PickOne(was[0], p, {});
    assert Pick([], p, {}) == [];
    hide Pick;
    assert was == [was[0]];
    if done == [] {
      PickOne(flying[0], p, {});
      assert flying == [flying[0]];
    } else {
      PickOne(done[0], p, {});
      assert done == [done[0]];
    }
  }

  lemma RequeueParts(s: State, i: nat, p: Priority) returns (job: Job)
    requires Serial(s) && i < |s.workers| && s.workers[i].Backoff?
    ensures Held(s.workers) == [job]
    ensures var t := Requeue(s, i);
            && t.settled == s.settled && t.arrived == s.arrived && t.cleared == s.cleared && Held(t.workers) == []
            && Ids(Queue(t, p)) == (if p == job.priority then [job.serial] else []) + Ids(Queue(s, p))
  {
    OneWorker(s, i);
    hide Serial, Ids;
    var t := Requeue(s, i);
    job := s.workers[0].job;
    assert t.workers == [Finishing];
    HeldOne(Finishing);
    hide Held;
    if p == job.priority {
      assert Queue(t, p) == [job] + Queue(s, p);
      IdsCons(job, Queue(s, p));
    } else {
      assert Queue(t, p) == Queue(s, p);
    }
  }

  lemma IdsCons(j: Job, q: seq<Job>)
    ensures Ids([j] + q) == [j.serial] + Ids(q)
  {}

  lemma RequeueInOrder(s: State, i: nat)
    requires Serial(s) && InOrder(s) && i < |s.workers| && s.workers[i].Backoff?
    ensures InOrder(Requeue(s, i))
  {
    hide Held, Serial, SettledJobs, Pick, Ids, Requeue, Queue;
    var t := Requeue(s, i);
    forall p: Priority ensures Order(t, p) == Expected(t, p) {
      var job := RequeueParts(s, i, p);
      assert Order(s, p) == Expected(s, p);
      PickOne(job, p, {});
      NoneHeld(p);
      Shift(Pick(SettledJobs(s.settled), p, {}), job.serial, Ids(Queue(s, p)));
    }
  }

  lemma NoneHeld(p: Priority)
    ensures Pick([], p, {}) == []
  {}

  lemma RemovedInOrder(s: State, i: nat)
    requires Serial(s) && InOrder(s) && i < |s.workers| && s.workers[i].Finishing?
    ensures InOrder(RemoveWorker(s, i))
  {
    OneWorker(s, i);
    var t := RemoveWorker(s, i);
    assert t.workers == [];
    hide Held, Inv, Tagged, SettledJobs;
    forall p: Priority ensures Order(t, p) == Order(s, p) {
      NothingHeld(p);
      assert Queue(t, p) == Queue(s, p);
    }
  }

  lemma QuietInOrder(s: State, t: State)
    requires InOrder(s) && t == s.(isProcessing := t.isProcessing, now := t.now)
    ensures InOrder(t)
  {
    forall p: Priority ensures Order(t, p) == Expected(t, p) {
      assert Queue(t, p) == Queue(s, p);
      assert Order(s, p) == Expected(s, p);
    }
  }

  lemma StepInOrder(s: State, a: Action)
    requires Serial(s) && InOrder(s)
    ensures InOrder(Apply(s, a))
  {
    hide InOrder, Dispatch, AddJob, RemoveWorker, Requeue, Failure, Tagged, Conserved, Counted;
    if Enabled(s, a) {
      match a {
        case Enqueue(p, maxRetries, retryDelayMs) =>
          AddJobKeeps(s, p, maxRetries, retryDelayMs);
          AddJobTagged(s, p, maxRetries, retryDelayMs);
          AddJobInOrder(s, p, maxRetries, retryDelayMs);
          SameConcurrency(s, a);
          DispatchInOrder(AddJob(s, p, maxRetries, retryDelayMs));
        case Start =>
          StartReady(s);
          QuietTagged(s, s.(isProcessing := true));
          QuietInOrder(s, s.(isProcessing := true));
          DispatchInOrder(s.(isProcessing := true));
        case Pause => QuietInOrder(s, s.(isProcessing := false));
        case Clear => ClearInOrder(s);
        case Tick(ms) => QuietInOrder(s, Effect(s, a));
        case BackoffElapsed(i) => RequeueInOrder(s, i);
        case Finish(i) =>
          RemoveWorkerKeeps(s, i);
          RemovedTagged(s, i);
          RemovedInOrder(s, i);
          SameConcurrency(s, a);
          DispatchInOrder(RemoveWorker(s, i));
        case _ => WorkerStepInOrder(s, a);
      }
    }
  }

  lemma StartReady(s: State)
    requires Counted(s)
    ensures Counted(s.(isProcessing := true))
  {}

  lemma SameConcurrency(s: State, a: Action)
    ensures a.Enqueue? ==> AddJob(s, a.priority, a.maxRetries, a.retryDelayMs).maxConcurrency == s.maxConcurrency
    ensures a.Finish? && a.i < |s.workers| ==> RemoveWorker(s, a.i).maxConcurrency == s.maxConcurrency
  {}

  lemma {:induction false} DispatchConcurrency(s: State)
    ensures DispatchLoop(s).maxConcurrency == s.maxConcurrency
    decreases |s.high| + |s.normal| + |s.low|
  {
    if CanDispatch(s) { DispatchConcurrency(StartNext(s)); }
  }

  lemma StepConcurrency(s: State, a: Action)
    ensures Apply(s, a).maxConcurrency == s.maxConcurrency
  {
    hide DispatchLoop, Pow2;
    match a {
      case Enqueue(p, maxRetries, retryDelayMs) => DispatchConcurrency(AddJob(s, p, maxRetries, retryDelayMs));
      case Start => DispatchConcurrency(s.(isProcessing := true));
      case Finish(i) => if i < |s.workers| { DispatchConcurrency(RemoveWorker(s, i)); }
      case _ =>
    }
  }

  lemma {:induction false} RunInOrder(s: State, actions: seq<Action>)
    requires Serial(s) && InOrder(s)
    ensures Serial(Exec(s, actions)) && InOrder(Exec(s, actions))
    decreases |actions|
  {
    hide Inv, Tagged, InOrder, Apply;
    if actions != [] {
      var a := actions[0];
      StepKeeps(s, a);
      StepTagged(s, a);
      StepConcurrency(s, a);
      StepInOrder(s, a);
      RunInOrder(Apply(s, a), actions[1..]);
    }
  }

  /** First in, first out: in every run of a queue with at most one worker, whatever fails, is
      retried, paused or cleared, the settled jobs of each priority are an initial piece of the
      jobs enqueued with that priority and not cleared, in their enqueue order; a job in flight
      comes next and the queued ones follow. */
  lemma FirstInFirstOut(maxConcurrency: int, autoStart: bool, maxMessages: int, windowMs: int, now: int,
                        actions: seq<Action>, p: Priority)
    requires maxConcurrency <= 1
    ensures var s := Exec(Initial(maxConcurrency, autoStart, maxMessages, windowMs, now), actions);
            Pick(SettledJobs(s.settled), p, {}) + Pick(Held(s.workers), p, {}) + Ids(Queue(s, p))
            == Pick(s.arrived, p, ClearedIds(s))
  {
    var s := Initial(maxConcurrency, autoStart, maxMessages, windowMs, now);
    InitialKeeps(maxConcurrency, autoStart, maxMessages, windowMs, now);
    forall r: Priority ensures Order(s, r) == Expected(s, r) && Queue(s, r) == [] {}
    RunInOrder(s, actions);
    assert InOrder(Exec(s, actions));
    assert Order(Exec(s, actions), p) == Expected(Exec(s, actions), p);
  }

  const JOB := Enqueue(Normal, 0, 0)

  lemma DispatchOne(s: State)
    requires s.isProcessing && CanDispatch(s) && |s.high| + |s.normal| + |s.low| == 1
    ensures Dispatch(s) == StartNext(s)
  {
    assert DispatchLoop(s) == DispatchLoop(StartNext(s));
  }

  /** A job that meets an empty queue, a free slot and an unused limiter is dispatched. */
  lemma JobStarts(s: State)
    requires s.isProcessing && Empty(s) && s.runningWorkers < s.maxConcurrency && s.limiter.timestamps == []
    ensures var t, job := Apply(s, JOB), Job(|s.arrived|, Normal, 0, 0, 0, 0, 0);
            t == s.(runningWorkers := s.runningWorkers + 1, processingCount := s.processingCount + 1,
                    workers := s.workers + [Drawing(job)], arrived := s.arrived + [job])
  {
    DispatchOne(AddJob(s, Normal, 0, 0));
    hide DispatchLoop;
  }

  /** Both of two jobs wait for their jitter. */
  lemma BothWait(s: State, jitter: int) returns (actions: seq<Action>)
    requires s.maxConcurrency >= 2 && jitter > 0
    requires s == Initial(s.maxConcurrency, true, s.limiter.maxMessages, s.limiter.windowMs, s.now)
    ensures Prompt(s, actions)
    ensures var t, first, second := Exec(s, actions), Job(0, Normal, 0, 0, 0, 0, 0), Job(1, Normal, 0, 0, 0, 0, 0);
            && t.workers == [Jitter(first, t.now), Jitter(second, t.now)] && t.arrived == [first, second]
            && t.settled == [] && t.cleared == []
  {
    hide Dispatch, Failure, Requeue, Exec, Prompt;
    actions := [];
    NoActions(s);
    JobStarts(s);
    OneMore(s, actions, JOB);
    actions := actions + [JOB];
    assert Exec(s, actions).workers == [Drawing(Job(0, Normal, 0, 0, 0, 0, 0))];
    OneMore(s, actions, Draw(0, jitter));
    actions := actions + [Draw(0, jitter)];
    var t := Exec(s, actions);
    assert t.workers == [Jitter(Job(0, Normal, 0, 0, 0, 0, 0), s.now + jitter)];
    JobStarts(t);
    OneMore(s, actions, JOB);
    actions := actions + [JOB];
    assert Exec(s, actions).workers == t.workers + [Drawing(Job(1, Normal, 0, 0, 0, 0, 0))];
    OneMore(s, actions, Draw(1, jitter));
    actions := actions + [Draw(1, jitter)];
    OneMore(s, actions, Tick(jitter));
    actions := actions + [Tick(jitter)];
  }

  lemma NoActions(s: State)
    ensures Exec(s, []) == s && Prompt(s, [])
  {}

  lemma BothElapse(s: State, first: Job, second: Job)
    requires s.workers == [Jitter(first, s.now), Jitter(second, s.now)]
    ensures var one := Apply(s, JitterElapsed(0));
            var t := Apply(one, JitterElapsed(1));
            && (forall a :: AtOnce(s, a) && AtOnce(one, a) && AtOnce(t, a))
            && t.workers == [Granted(first), Granted(second)]
            && t.settled == s.settled && t.arrived == s.arrived && t.cleared == s.cleared
  {
    hide Dispatch, Failure, Requeue;
    assert Apply(s, JitterElapsed(0)).workers == [Granted(first), Jitter(second, s.now)];
  }

  lemma SecondSent(s: State, first: Job, second: Job)
    requires s.workers == [Granted(first), Granted(second)]
    ensures var one := Apply(s, Send(0));
            var two := Apply(one, Send(1));
            var t := Apply(two, SendOk(1));
            && (forall a :: AtOnce(one, a) && AtOnce(two, a))
            && t.settled == s.settled + [Resolved(second.(sends := second.sends + 1))]
            && t.arrived == s.arrived && t.cleared == s.cleared
  {
    hide Dispatch, Failure, Requeue;
    var sending := Sending(first.(sends := first.sends + 1));
    assert Apply(s, Send(0)).workers == [sending, Granted(second)];
    assert Apply(Apply(s, Send(0)), Send(1)).workers == [sending, Sending(second.(sends := second.sends + 1))];
  }

  /** The second of two jobs settles first. */
  lemma SecondSettles(s: State, first: Job, second: Job) returns (actions: seq<Action>)
    requires s.workers == [Jitter(first, s.now), Jitter(second, s.now)] && s.settled == []
    ensures Prompt(s, actions)
    ensures var t := Exec(s, actions);
            && t.settled == [Resolved(second.(sends := second.sends + 1))]
            && t.arrived == s.arrived && t.cleared == s.cleared
  {
    hide Apply, Exec, Prompt, AtOnce;
    actions := [];
    NoActions(s);
    BothElapse(s, first, second);
    OneMore(s, actions, JitterElapsed(0));
    actions := actions + [JitterElapsed(0)];
    OneMore(s, actions, JitterElapsed(1));
    actions := actions + [JitterElapsed(1)];
    SecondSent(Exec(s, actions), first, second);
    OneMore(s, actions, Send(0));
    actions := actions + [Send(0)];
    OneMore(s, actions, Send(1));
    actions := actions + [Send(1)];
    OneMore(s, actions, SendOk(1));
    actions := actions + [SendOk(1)];
  }

  /** With two workers the second job can overtake the first, in a run without idle moments, whatever
      positive jitter both draw. */
  lemma Overtaking(maxConcurrency: int, maxMessages: int, windowMs: int, now: int, jitter: int)
      returns (actions: seq<Action>)
    requires maxConcurrency >= 2 && jitter > 0
    ensures var s := Initial(maxConcurrency, true, maxMessages, windowMs, now);
            Prompt(s, actions) && !InOrder(Exec(s, actions))
  {
    var s := Initial(maxConcurrency, true, maxMessages, windowMs, now);
    hide Exec, Prompt, Apply, Pick, Ids, Held, SettledJobs;
    var waiting := BothWait(s, jitter);
    var t := Exec(s, waiting);
    var settling := SecondSettles(t, t.arrived[0], t.arrived[1]);
    ExecAppend(s, waiting, settling);
    PromptAppend(s, waiting, settling);
    actions := waiting + settling;
    OvertakenOrder(Exec(s, actions), Exec(s, actions).settled[0].job);
  }

  lemma OvertakenOrder(s: State, winner: Job)
    requires |s.arrived| == 2 && s.arrived[0].serial == 0 && s.arrived[1].serial == 1
    requires s.arrived[0].priority == s.arrived[1].priority == winner.priority == Normal
    requires s.settled == [Resolved(winner)] && winner.serial == 1 && s.cleared == []
    ensures !InOrder(s)
  {
    assert SettledJobs(s.settled) == [winner];
    PickOne(winner, Normal, {});
    assert Order(s, Normal)[0] == 1;
    assert s.arrived == [s.arrived[0]] + [s.arrived[1]];
    PickConcat([s.arrived[0]], [s.arrived[1]], Normal, ClearedIds(s));
    PickOne(s.arrived[0], Normal, ClearedIds(s));
    assert Expected(s, Normal)[0] == 0;
  }

  /** First in, first out is exactly the guarantee of a queue with at most one worker, whether or not
      time may pass between a quota check and the draw behind it. */
  lemma FifoExactly(maxConcurrency: int, maxMessages: int, windowMs: int, now: int)
    ensures (forall actions :: InOrder(Exec(Initial(maxConcurrency, true, maxMessages, windowMs, now), actions)))
            <==> maxConcurrency <= 1
    ensures (forall actions :: Prompt(Initial(maxConcurrency, true, maxMessages, windowMs, now), actions) ==>
               InOrder(Exec(Initial(maxConcurrency, true, maxMessages, windowMs, now), actions)))
            <==> maxConcurrency <= 1
  {
    if maxConcurrency <= 1 {
      forall actions ensures InOrder(Exec(Initial(maxConcurrency, true, maxMessages, windowMs, now), actions)) {
        forall p: Priority
          ensures var s := Exec(Initial(maxConcurrency, true, maxMessages, windowMs, now), actions);
                  Order(s, p) == Expected(s, p)
        {
          FirstInFirstOut(maxConcurrency, true, maxMessages, windowMs, now, actions, p);
        }
      }
    } else {
      var actions := Overtaking(maxConcurrency, maxMessages, windowMs, now, 1);
      hide Exec, Prompt, InOrder;
    }
  }

  // ---------------------------------------------------------------- priorities

  lemma {:induction false} RunTagged(s: State, actions: seq<Action>)
    requires Tagged(s)
    ensures Tagged(Exec(s, actions))
    decreases |actions|
  {
    hide Tagged, Apply;
    if actions != [] {
      StepTagged(s, actions[0]);
      RunTagged(Apply(s, actions[0]), actions[1..]);
    }
  }

  /** The workers from place `n` on were started in order of priority, and no queue of a higher
      priority than theirs holds a job: at every single dispatch the queues above were empty. */
  ghost predicate StartedInOrder(t: State, n: nat) {
    && n <= |t.workers| && Descending(t.workers, n, Rank(High))
    && forall i :: n <= i < |t.workers| ==> HigherEmpty(t, t.workers[i].job.priority)
  }

  lemma DispatchStarts(s: State)
    requires Tagged(s)
    ensures StartedInOrder(Dispatch(s), |s.workers|)
  {
    TaggedSorted(s);
    DispatchByPriority(s);
    hide Tagged, DispatchLoop, HigherEmpty;
    assert Rank(Front(s)) <= Rank(High);
  }

  /** In every run of every queue, whatever the concurrency, every step starts workers in order of
      priority only, while no queue of a higher priority holds a job. */
  lemma HigherPriorityFirst(maxConcurrency: int, autoStart: bool, maxMessages: int, windowMs: int, now: int,
                            actions: seq<Action>, a: Action)
    ensures var s := Exec(Initial(maxConcurrency, autoStart, maxMessages, windowMs, now), actions);
            StartedInOrder(Apply(s, a), if a.Finish? && Enabled(s, a) then |s.workers| - 1 else |s.workers|)
  {
    var s0 := Initial(maxConcurrency, autoStart, maxMessages, windowMs, now);
    forall p: Priority ensures Queue(s0, p) == [] {}
    RunTagged(s0, actions);
    var s := Exec(s0, actions);
    hide Exec;
    StepStarts(s, a);
  }

  lemma StepStarts(s: State, a: Action)
    requires Tagged(s)
    ensures StartedInOrder(Apply(s, a), if a.Finish? && Enabled(s, a) then |s.workers| - 1 else |s.workers|)
  {
    hide Tagged, Dispatch, Failure, Requeue;
    if Enabled(s, a) {
      match a {
        case Enqueue(p, maxRetries, retryDelayMs) =>
          AddJobTagged(s, p, maxRetries, retryDelayMs);
          DispatchStarts(AddJob(s, p, maxRetries, retryDelayMs));
        case Start =>
          QuietTagged(s, s.(isProcessing := true));
          DispatchStarts(s.(isProcessing := true));
        case Finish(i) =>
          RemovedTagged(s, i);
          DispatchStarts(RemoveWorker(s, i));
        case _ => NoneStarted(s, a);
      }
    }
  }

  lemma NoneStarted(s: State, a: Action)
    requires Enabled(s, a) && !a.Enqueue? && !a.Start? && !a.Finish?
    ensures |Effect(s, a).workers| == |s.workers|
  {
    hide Pow2;
  }

  lemma TaggedSorted(s: State)
    requires Tagged(s)
    ensures Sorted(s)
  {}
}
