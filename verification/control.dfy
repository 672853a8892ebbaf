/** What the calls of the queue do to a run: what starts and stops dispatching, which sends settle a
    job, and how long a job is suspended. */
module Control {
  import opened Scheduler
  import opened Accounting
  import opened Fifo

  // ---------------------------------------------------------------- single calls

  /** Only `start` and `pause` change whether the queue is processing. */
  lemma FlagFollows(s: State, a: Action)
    ensures Apply(s, a).isProcessing == (a.Start? || (!a.Pause? && s.isProcessing))
  {
    match a {
      case Enqueue(p, maxRetries, retryDelayMs) => DispatchFlag(AddJob(s, p, maxRetries, retryDelayMs));
      case Start => DispatchFlag(s.(isProcessing := true));
      case Finish(i) => if Enabled(s, a) { DispatchFlag(RemoveWorker(s, i)); }
      case _ =>
    }
  }

  lemma {:induction false} DispatchFlag(s: State)
    ensures DispatchLoop(s).isProcessing == s.isProcessing && DispatchLoop(s).arrived == s.arrived
    ensures DispatchLoop(s).cleared == s.cleared && DispatchLoop(s).settled == s.settled
    ensures DispatchLoop(s).now == s.now && DispatchLoop(s).attempts == s.attempts
    decreases |s.high| + |s.normal| + |s.low|
  {
    if CanDispatch(s) { DispatchFlag(StartNext(s)); }
  }

  /** Only `enqueue` adds a job, and it adds one with the options given, not yet sent. */
  lemma JobsArrive(s: State, a: Action)
    ensures var t := Apply(s, a);
            if a.Enqueue?
            then t.arrived == s.arrived + [Job(|s.arrived|, a.priority, a.maxRetries, a.retryDelayMs, 0, 0, 0)]
            else t.arrived == s.arrived
  {
    match a {
      case Enqueue(p, maxRetries, retryDelayMs) => DispatchFlag(AddJob(s, p, maxRetries, retryDelayMs));
      case Start => DispatchFlag(s.(isProcessing := true));
      case Finish(i) => if Enabled(s, a) { DispatchFlag(RemoveWorker(s, i)); }
      case _ =>
    }
  }

  /** Only `clear` removes jobs without settling them: all that are queued, and no others. */
  lemma QueuesClear(s: State, a: Action)
    ensures var t := Apply(s, a);
            if a.Clear? then Empty(t) && t.workers == s.workers && Bag(t.cleared) == Bag(s.cleared) + Queued(s)
            else t.cleared == s.cleared
  {
    match a {
      case Enqueue(p, maxRetries, retryDelayMs) => DispatchFlag(AddJob(s, p, maxRetries, retryDelayMs));
      case Start => DispatchFlag(s.(isProcessing := true));
      case Finish(i) => if Enabled(s, a) { DispatchFlag(RemoveWorker(s, i)); }
      case Clear =>
        BagConcat(s.cleared + s.high + s.normal, s.low);
        BagConcat(s.cleared + s.high, s.normal);
        BagConcat(s.cleared, s.high);
      case _ =>
    }
  }

  // ---------------------------------------------------------------- while the queue is paused

  /** Workers that have not sent their job. */
  function Unsent(workers: seq<Worker>): nat {
    if workers == [] then 0 else IsUnsent(workers[0]) + Unsent(workers[1..])
  }

  function IsUnsent(w: Worker): nat { if w.Quota? || w.Drawing? || w.Jitter? || w.Granted? then 1 else 0 }

  lemma {:induction false} UnsentConcat(a: seq<Worker>, b: seq<Worker>)
    ensures Unsent(a + b) == Unsent(a) + Unsent(b)
  {
    if a == [] {
      assert a + b == b;
    } else {
      assert (a + b)[1..] == a[1..] + b;
      UnsentConcat(a[1..], b);
    }
  }

  lemma UnsentSplit(workers: seq<Worker>, i: nat)
    requires i < |workers|
    ensures Unsent(workers) == Unsent(workers[..i]) + IsUnsent(workers[i]) + Unsent(workers[i + 1..])
  {
    var a, rest := workers[..i], workers[i..];
    assert workers == a + rest && rest[1..] == workers[i + 1..];
    assert Unsent(rest) == IsUnsent(workers[i]) + Unsent(rest[1..]);
    hide Unsent;
    UnsentConcat(a, rest);
  }

  /** What a paused queue may do in a step or a run. */
  ghost predicate OnlyEnds(s: State, t: State) {
    && !t.isProcessing
    && Bag(Held(t.workers)) <= Bag(Held(s.workers))
    && t.attempts + Unsent(t.workers) <= s.attempts + Unsent(s.workers)
  }

  lemma ReplacedEnds(s: State, i: nat, w: Worker, t: State)
    requires i < |s.workers| && !s.workers[i].Finishing? && !s.isProcessing
    requires w.Finishing? || w.job.serial == s.workers[i].job.serial
    requires t.workers == s.workers[i := w] && !t.isProcessing
    requires t.attempts + IsUnsent(w) <= s.attempts + IsUnsent(s.workers[i])
    ensures OnlyEnds(s, t)
  {
    var a, b := s.workers[..i], s.workers[i + 1..];
    HeldSplit(s.workers, i);
    HeldReplaced(s.workers, i, w);
    UnsentSplit(s.workers, i);
    UnsentSplit(t.workers, i);
    assert t.workers[..i] == a && t.workers[i + 1..] == b;
    BagThree(Held(a), HeldBy(s.workers[i]), Held(b));
    BagThree(Held(a), HeldBy(w), Held(b));
    BagOne(s.workers[i].job);
    if !w.Finishing? { BagOne(w.job); }
    hide Held, Bag, Unsent;
    assert w.Finishing? ==> HeldBy(w) == [];
    assert Bag([]) == multiset{} by { EmptyBag(); }
  }

  lemma EmptyBag()
    ensures Bag([]) == multiset{}
  {}

  lemma BagThree(a: seq<Job>, b: seq<Job>, c: seq<Job>)
    ensures Bag(a + b + c) == Bag(a) + Bag(b) + Bag(c)
  {
    BagConcat(a + b, c);
    BagConcat(a, b);
  }

  lemma RemovedEnds(s: State, i: nat)
    requires i < |s.workers| && s.workers[i].Finishing? && !s.isProcessing
    ensures OnlyEnds(s, RemoveWorker(s, i))
  {
    HeldSplit(s.workers, i);
    HeldConcat(s.workers[..i], s.workers[i + 1..]);
    UnsentSplit(s.workers, i);
    UnsentConcat(s.workers[..i], s.workers[i + 1..]);
    hide Held, Unsent, Bag;
    assert Held(s.workers[..i]) + [] + Held(s.workers[i + 1..]) == Held(s.workers[..i]) + Held(s.workers[i + 1..]);
  }

  /** While the queue is not processing, no step but `start` takes a job from a queue into flight, and
      a queued job leaves its queue only through `clear`. */
  lemma PausedStep(s: State, a: Action)
    requires !s.isProcessing && !a.Start?
    ensures OnlyEnds(s, Apply(s, a)) && (!a.Clear? ==> Queued(s) <= Queued(Apply(s, a)))
  {
    hide Bag, Held, Unsent, DispatchLoop;
    if Enabled(s, a) && IsWorkerStep(a) {
      WorkerStepShape(s, a);
      ReplacedEnds(s, a.i, Effect(s, a).workers[a.i], Effect(s, a));
    } else if Enabled(s, a) {
      match a {
        case Enqueue(p, maxRetries, retryDelayMs) =>
          var job := Job(|s.arrived|, p, maxRetries, retryDelayMs, 0, 0, 0);
          QueueReplaced(s, p, Queue(s, p) + [job]);
          BagConcat(Queue(s, p), [job]);
        case BackoffElapsed(i) => RequeueEnds(s, i);
        case Finish(i) => RemovedEnds(s, i);
        case _ =>
      }
    }
  }

  lemma RequeueEnds(s: State, i: nat)
    requires i < |s.workers| && s.workers[i].Backoff? && !s.isProcessing
    ensures OnlyEnds(s, Requeue(s, i)) && Queued(s) <= Queued(Requeue(s, i))
  {
    hide Bag, Held, Unsent;
    var job := s.workers[i].job;
    ReplacedEnds(s, i, Finishing, Requeue(s, i));
    QueueReplaced(SetWorker(s, i, Finishing), job.priority, [job] + Queue(s, job.priority));
    BagConcat([job], Queue(s, job.priority));
  }

  /** So until the next `start`, a queue that is not processing takes no job into flight and sends
      each job in flight at most once more. */
  lemma {:induction false} PausedRun(s: State, actions: seq<Action>)
    requires !s.isProcessing && Start !in actions
    ensures OnlyEnds(s, Exec(s, actions))
    ensures Clear !in actions ==> Queued(s) <= Queued(Exec(s, actions))
    ensures Exec(s, actions).attempts <= s.attempts + Unsent(s.workers)
    decreases |actions|
  {
    hide Apply, Queued, Bag, Held, Unsent;
    if actions != [] {
      PausedStep(s, actions[0]);
      PausedRun(Apply(s, actions[0]), actions[1..]);
    }
  }

  // ---------------------------------------------------------------- what settles a job

  datatype Report = Report(serial: nat, resolved: bool)

  function Reports(settled: seq<Settlement>): seq<Report> {
    seq(|settled|, i requires 0 <= i < |settled| => Report(settled[i].job.serial, settled[i].Resolved?))
  }

  /** What a step tells the callers: a send that succeeds resolves its job, and one that fails rejects
      it if no retry is left. */
  function Told(s: State, a: Action): seq<Report> {
    if !Enabled(s, a) then []
    else match a
         case SendOk(i) => [Report(s.workers[i].job.serial, true)]
         case SendFail(i) =>
           var job := s.workers[i].job;
           if job.retryCount < job.maxRetries then [] else [Report(job.serial, false)]
         case _ => []
  }

  function AllTold(s: State, actions: seq<Action>): seq<Report>
    decreases |actions|
  {
    if actions == [] then [] else Told(s, actions[0]) + AllTold(Apply(s, actions[0]), actions[1..])
  }

  lemma StepTells(s: State, a: Action)
    ensures Reports(Apply(s, a).settled) == Reports(s.settled) + Told(s, a)
  {
    hide Pow2;
    match a {
      case Enqueue(p, maxRetries, retryDelayMs) => DispatchFlag(AddJob(s, p, maxRetries, retryDelayMs));
      case Start => DispatchFlag(s.(isProcessing := true));
      case Finish(i) => if Enabled(s, a) { DispatchFlag(RemoveWorker(s, i)); }
      case _ =>
    }
  }

  /** In every run the settlements are exactly what its sends tell, in the order of the sends: a job is
      resolved when its send succeeds, and rejected when one fails and no retry is left. */
  lemma {:induction false} RunTells(s: State, actions: seq<Action>)
    ensures Reports(Exec(s, actions).settled) == Reports(s.settled) + AllTold(s, actions)
    decreases |actions|
  {
    hide Apply, Told, Reports;
    if actions != [] {
      StepTells(s, actions[0]);
      RunTells(Apply(s, actions[0]), actions[1..]);
    }
  }

  // ---------------------------------------------------------------- suspensions last

  /** Job `k` is in flight and suspended until the given time. */
  ghost predicate Suspended(s: State, k: nat, until: int) {
    exists i :: 0 <= i < |s.workers| && SuspendedAt(s.workers[i], k, until)
  }

  ghost predicate SuspendedAt(w: Worker, k: nat, until: int) {
    (w.Quota? || w.Jitter? || w.Backoff?) && w.job.serial == k && w.until == until
  }

  lemma {:induction false} DispatchAppends(s: State)
    ensures s.workers <= DispatchLoop(s).workers
    decreases |s.high| + |s.normal| + |s.low|
  {
    if CanDispatch(s) { DispatchAppends(StartNext(s)); }
  }

  lemma StepSuspends(s: State, a: Action, k: nat, until: int)
    requires Suspended(s, k, until)
    ensures s.now <= Apply(s, a).now
    ensures s.now < until ==> Suspended(Apply(s, a), k, until)
  {
    hide SuspendedAt, DispatchLoop, Pow2;
    var t := Apply(s, a);
    var i :| 0 <= i < |s.workers| && SuspendedAt(s.workers[i], k, until);
    match a {
      case Enqueue(p, maxRetries, retryDelayMs) =>
        DispatchFlag(AddJob(s, p, maxRetries, retryDelayMs));
        DispatchAppends(AddJob(s, p, maxRetries, retryDelayMs));
        assert t.workers[i] == s.workers[i];
      case Start =>
        DispatchFlag(s.(isProcessing := true));
        DispatchAppends(s.(isProcessing := true));
        assert t.workers[i] == s.workers[i];
      case Finish(j) => if Enabled(s, a) { FinishSuspends(s, i, j, k, until); }
      case Pause => assert t.workers[i] == s.workers[i];
      case Clear => assert t.workers[i] == s.workers[i];
      case Tick(_) => assert t.workers[i] == s.workers[i];
      case _ =>
        if s.now < until { StaysAt(s, a, i, k, until); }
    }
  }

  lemma FinishSuspends(s: State, i: nat, j: nat, k: nat, until: int)
    requires i < |s.workers| && SuspendedAt(s.workers[i], k, until)
    requires j < |s.workers| && s.workers[j].Finishing?
    ensures var t := Effect(s, Finish(j)); t.now == s.now && Suspended(t, k, until)
  {
    var u, t := RemoveWorker(s, j), Effect(s, Finish(j));
    DispatchFlag(u);
    DispatchAppends(u);
    hide DispatchLoop;
    var at := if i < j then i else i - 1;
    assert u.workers[at] == s.workers[i] && t.workers[at] == u.workers[at];
  }

  /** Before its time is over no step moves a suspended worker on. */
  lemma StaysAt(s: State, a: Action, i: nat, k: nat, until: int)
    requires i < |s.workers| && SuspendedAt(s.workers[i], k, until) && s.now < until
    requires IsWorkerStep(a) || a.BackoffElapsed?
    ensures var t := Apply(s, a); i < |t.workers| && t.workers[i] == s.workers[i]
  {
    hide Pow2;
  }

  lemma {:induction false} RunSuspends(s: State, actions: seq<Action>, k: nat, until: int)
    requires Suspended(s, k, until)
    ensures Exec(s, actions).now < until ==> Suspended(Exec(s, actions), k, until)
    decreases |actions|
  {
    hide Apply, Suspended;
    if actions != [] {
      var t := Apply(s, actions[0]);
      StepSuspends(s, actions[0], k, until);
      RunGrows(t, actions[1..]);
      if s.now < until { RunSuspends(t, actions[1..], k, until); }
    }
  }

  lemma {:induction false} RunGrows(s: State, actions: seq<Action>)
    ensures s.now <= Exec(s, actions).now
    decreases |actions|
  {
    hide Apply;
    if actions != [] {
      StepGrows(s, actions[0]);
      RunGrows(Apply(s, actions[0]), actions[1..]);
    }
  }

  lemma StepGrows(s: State, a: Action)
    ensures s.now <= Apply(s, a).now
  {
    match a {
      case Enqueue(p, maxRetries, retryDelayMs) => DispatchFlag(AddJob(s, p, maxRetries, retryDelayMs));
      case Start => DispatchFlag(s.(isProcessing := true));
      case Finish(i) => if Enabled(s, a) { DispatchFlag(RemoveWorker(s, i)); }
      case _ =>
    }
  }

  /** How long a suspension lasts: a jitter as long as drawn, a backoff the base delay doubled with every
      failure before, and a quota wait as long as the check said. */
  lemma WaitsExactly(s: State, i: nat, jitter: int, ms: nat)
    ensures Enabled(s, Draw(i, jitter)) && jitter > 0 ==>
              (Enabled(Apply(Apply(s, Draw(i, jitter)), Tick(ms)), JitterElapsed(i)) <==> ms >= jitter)
    ensures Enabled(s, SendFail(i)) && s.workers[i].job.retryCount < s.workers[i].job.maxRetries ==>
              (Enabled(Apply(Apply(s, SendFail(i)), Tick(ms)), BackoffElapsed(i))
               <==> ms >= s.workers[i].job.retryDelayMs * Pow2(s.workers[i].job.retryCount))
    ensures !Empty(s) ==>
              var wait := QuotaWait(Pruned(s.limiter, s.now), s.now);
              var t := Apply(StartNext(s), Tick(ms));
              if wait > 0 then Enabled(t, QuotaElapsed(|s.workers|)) <==> ms >= wait
              else t.workers[|s.workers|].Drawing?
  {
    hide Pow2, Prune, QuotaWait;
  }

  lemma HeldTwice(s: State, i: nat, j: nat)
    requires Inv(s) && i < |s.workers| && j < |s.workers| && i != j
    requires !s.workers[i].Finishing? && !s.workers[j].Finishing?
    ensures s.workers[i].job.serial != s.workers[j].job.serial
  {
    var a, b := if i < j then i else j, if i < j then j else i;
    if s.workers[a].job.serial == s.workers[b].job.serial {
      var k := s.workers[a].job.serial;
      HeldSplit(s.workers, b);
      HeldSplit(s.workers[..b], a);
      assert s.workers[..b][..a] == s.workers[..a] && s.workers[..b][a] == s.workers[a];
      BagOne(s.workers[a].job);
      BagOne(s.workers[b].job);
      BagThree(Held(s.workers[..b]), HeldBy(s.workers[b]), Held(s.workers[b + 1..]));
      BagThree(Held(s.workers[..a]), HeldBy(s.workers[a]), Held(s.workers[..b][a + 1..]));
      hide Held, Bag;
      assert Bag(Held(s.workers))[k] >= 2;
      ExactlyOnePlace(s, k);
    }
  }

  /** A job that is suspended is sent no earlier than the time says. */
  lemma SuspendedWaits(s: State, actions: seq<Action>, k: nat, until: int, j: nat)
    requires Inv(s) && Suspended(s, k, until)
    requires var t := Exec(s, actions); Enabled(t, Send(j)) && t.workers[j].job.serial == k
    ensures Exec(s, actions).now >= until
  {
    var t := Exec(s, actions);
    RunKeeps(s, actions);
    RunSuspends(s, actions, k, until);
    hide Exec, Inv;
    if t.now < until {
      var i :| 0 <= i < |t.workers| && SuspendedAt(t.workers[i], k, until);
      HeldTwice(t, i, j);
    }
  }

  /** After a failed send that leaves a retry, the next send of the job comes at least
      retryDelayMs * 2^n later, n being the number of failures before. */
  lemma BackoffWaits(s: State, i: nat, actions: seq<Action>, j: nat)
    requires Inv(s) && Enabled(s, SendFail(i)) && s.workers[i].job.retryCount < s.workers[i].job.maxRetries
    requires var t := Exec(Apply(s, SendFail(i)), actions);
             Enabled(t, Send(j)) && t.workers[j].job.serial == s.workers[i].job.serial
    ensures var job := s.workers[i].job;
            Exec(Apply(s, SendFail(i)), actions).now >= s.now + job.retryDelayMs * Pow2(job.retryCount)
  {
    var u, job := Apply(s, SendFail(i)), s.workers[i].job;
    var until := s.now + job.retryDelayMs * Pow2(job.retryCount);
    assert SuspendedAt(u.workers[i], job.serial, until);
    StepKeeps(s, SendFail(i));
    hide Apply, Inv, Exec;
    SuspendedWaits(u, actions, job.serial, until, j);
  }

  /** After a positive jitter is drawn, the send comes at least that much later. */
  lemma JitterWaits(s: State, i: nat, jitter: int, actions: seq<Action>, j: nat)
    requires Inv(s) && Enabled(s, Draw(i, jitter)) && jitter > 0
    requires var t := Exec(Apply(s, Draw(i, jitter)), actions);
             Enabled(t, Send(j)) && t.workers[j].job.serial == s.workers[i].job.serial
    ensures Exec(Apply(s, Draw(i, jitter)), actions).now >= s.now + jitter
  {
    var u, job := Apply(s, Draw(i, jitter)), s.workers[i].job;
    assert SuspendedAt(u.workers[i], job.serial, s.now + jitter);
    StepKeeps(s, Draw(i, jitter));
    hide Apply, Inv, Exec;
    SuspendedWaits(u, actions, job.serial, s.now + jitter, j);
  }
}
