/** The message queue and its rate limiter as a step machine
    (packages/wazeko/src/queue/message-queue.ts, rate-limiter.ts). Every `await` of the source is
    a phase of a worker; the environment decides when sends succeed or fail, what jitter is drawn
    and how time passes. `queue.dfy` holds the objects, proved equal to these steps. */
module Scheduler {

  datatype Priority = High | Normal | Low

  /** A job. The last two fields are history: send attempts made and milliseconds of backoff
      scheduled so far. `serial` stands for the job's identity. */
  datatype Job = Job(serial: nat, priority: Priority, maxRetries: int, retryDelayMs: int, retryCount: nat,
                     sends: nat, waited: int)

  /** One running `processJob` call: where it is suspended. In `Finishing` the call is over but
      its `.finally` callback has not run. */
  datatype Worker =
    | Quota(job: Job, until: int)
    | Drawing(job: Job)
    | Jitter(job: Job, until: int)
    | Granted(job: Job)
    | Sending(job: Job)
    | Backoff(job: Job, until: int)
    | Finishing

  datatype Settlement = Resolved(job: Job) | Rejected(job: Job)

  /** The limiter; `history` keeps every grant, `timestamps` is the pruned list of the source. */
  datatype Limiter = Limiter(maxMessages: int, windowMs: int, timestamps: seq<int>, history: seq<int>)

  datatype State = State(
    high: seq<Job>, normal: seq<Job>, low: seq<Job>,
    runningWorkers: int, maxConcurrency: int, isProcessing: bool,
    completedCount: int, failedCount: int, processingCount: int,
    limiter: Limiter, now: int, workers: seq<Worker>,
    // history
    arrived: seq<Job>, settled: seq<Settlement>, cleared: seq<Job>, attempts: nat)

  function Initial(maxConcurrency: int, autoStart: bool, maxMessages: int, windowMs: int, now: int): State {
    State([], [], [], 0, maxConcurrency, autoStart, 0, 0, 0, Limiter(maxMessages, windowMs, [], []), now, [],
          [], [], [], 0)
  }

  datatype Action =
    | Enqueue(priority: Priority, maxRetries: int, retryDelayMs: int)
    | Start
    | Pause
    | Clear
    | Tick(ms: nat)
    | QuotaElapsed(i: nat)
    | Draw(i: nat, jitter: int)
    | JitterElapsed(i: nat)
    | Send(i: nat)
    | SendOk(i: nat)
    | SendFail(i: nat)
    | BackoffElapsed(i: nat)
    | Finish(i: nat)

  // ---------------------------------------------------------------- limiter

  function Prune(timestamps: seq<int>, now: int, windowMs: int): seq<int> {
    if timestamps == [] then []
    else (if now - timestamps[0] < windowMs then [timestamps[0]] else []) + Prune(timestamps[1..], now, windowMs)
  }

  lemma PruneFirst(ts: seq<int>, now: int, windowMs: int)
    requires ts != []
    ensures var rest := Prune(ts[1..], now, windowMs);
            Prune(ts, now, windowMs) == if now - ts[0] < windowMs then [ts[0]] + rest else rest
  {
    assert [] + Prune(ts[1..], now, windowMs) == Prune(ts[1..], now, windowMs);
  }

  lemma PruneNone(now: int, windowMs: int)
    ensures Prune([], now, windowMs) == []
  {}

  function Max(a: int, b: int): int { if a >= b then a else b }

  /** `getQuotaWaitTime` after pruning. With no timestamp to look at, the source computes NaN,
      which never counts as a wait. */
  function QuotaWait(l: Limiter, now: int): int {
    if |l.timestamps| >= l.maxMessages && l.timestamps != []
    then Max(0, l.windowMs - (now - l.timestamps[0]))
    else 0
  }

  function Pruned(l: Limiter, now: int): Limiter {
    l.(timestamps := Prune(l.timestamps, now, l.windowMs))
  }

  function Grant(l: Limiter, now: int): Limiter {
    l.(timestamps := l.timestamps + [now], history := l.history + [now])
  }

  // ---------------------------------------------------------------- queues

  function Queue(s: State, p: Priority): seq<Job> {
    match p
    case High => s.high
    case Normal => s.normal
    case Low => s.low
  }

  function SetQueue(s: State, p: Priority, q: seq<Job>): State {
    match p
    case High => s.(high := q)
    case Normal => s.(normal := q)
    case Low => s.(low := q)
  }

  predicate Empty(s: State) {
    s.high == [] && s.normal == [] && s.low == []
  }

  /** The priority `getNextJob` serves. */
  function Front(s: State): Priority {
    if s.high != [] then High else if s.normal != [] then Normal else Low
  }

  predicate CanDispatch(s: State) {
    s.runningWorkers < s.maxConcurrency && !Empty(s)
  }

  /** One round of the dispatch loop: take the front job and run `processJob` up to its first wait. */
  function StartNext(s: State): State
    requires !Empty(s)
  {
    var p := Front(s);
    var job := Queue(s, p)[0];
    var limiter := Pruned(s.limiter, s.now);
    var wait := QuotaWait(limiter, s.now);
    var worker := if wait > 0 then Quota(job, s.now + wait) else Drawing(job);
    SetQueue(s, p, Queue(s, p)[1..]).(
      runningWorkers := s.runningWorkers + 1,
      processingCount := s.processingCount + 1,
      limiter := limiter,
      workers := s.workers + [worker])
  }

  function DispatchLoop(s: State): State
    decreases |s.high| + |s.normal| + |s.low|
  {
    if CanDispatch(s) then DispatchLoop(StartNext(s)) else s
  }

  /** `triggerProcessing`. */
  function Dispatch(s: State): State {
    if s.isProcessing then DispatchLoop(s) else s
  }

  // ---------------------------------------------------------------- steps

  /** `enqueue` before it triggers processing. */
  function AddJob(s: State, p: Priority, maxRetries: int, retryDelayMs: int): State {
    var job := Job(|s.arrived|, p, maxRetries, retryDelayMs, 0, 0, 0);
    SetQueue(s, p, Queue(s, p) + [job]).(arrived := s.arrived + [job])
  }

  /** The `.finally` callback before it triggers processing. */
  function RemoveWorker(s: State, i: nat): State
    requires i < |s.workers|
  {
    s.(runningWorkers := s.runningWorkers - 1, processingCount := s.processingCount - 1,
       workers := s.workers[..i] + s.workers[i + 1..])
  }

  function Pow2(n: nat): nat { if n == 0 then 1 else 2 * Pow2(n - 1) }

  function SetWorker(s: State, i: nat, w: Worker): State
    requires i < |s.workers|
  {
    s.(workers := s.workers[i := w])
  }

  /** The end of `acquire`: the grant is recorded and the job may be sent. */
  function GrantTo(s: State, i: nat): State
    requires i < |s.workers| && !s.workers[i].Finishing?
  {
    SetWorker(s, i, Granted(s.workers[i].job)).(limiter := Grant(s.limiter, s.now))
  }

  /** The `catch` block of `processJob`. */
  function Failure(s: State, i: nat): State
    requires i < |s.workers| && !s.workers[i].Finishing?
  {
    var job := s.workers[i].job.(retryCount := s.workers[i].job.retryCount + 1);
    if job.retryCount <= job.maxRetries then
      var delay := job.retryDelayMs * Pow2(job.retryCount - 1);
      SetWorker(s, i, Backoff(job.(waited := job.waited + delay), s.now + delay))
    else
      SetWorker(s, i, Finishing).(failedCount := s.failedCount + 1, settled := s.settled + [Rejected(job)])
  }

  /** The end of the backoff: the job goes back to the front of its queue. */
  function Requeue(s: State, i: nat): State
    requires i < |s.workers| && !s.workers[i].Finishing?
  {
    var job := s.workers[i].job;
    SetQueue(SetWorker(s, i, Finishing), job.priority, [job] + Queue(s, job.priority))
  }

  predicate Enabled(s: State, a: Action) {
    match a
    case QuotaElapsed(i) => i < |s.workers| && s.workers[i].Quota? && s.now >= s.workers[i].until
    case Draw(i, _) => i < |s.workers| && s.workers[i].Drawing?
    case JitterElapsed(i) => i < |s.workers| && s.workers[i].Jitter? && s.now >= s.workers[i].until
    case Send(i) => i < |s.workers| && s.workers[i].Granted?
    case SendOk(i) => i < |s.workers| && s.workers[i].Sending?
    case SendFail(i) => i < |s.workers| && s.workers[i].Sending?
    case BackoffElapsed(i) => i < |s.workers| && s.workers[i].Backoff? && s.now >= s.workers[i].until
    case Finish(i) => i < |s.workers| && s.workers[i].Finishing?
    case _ => true
  }

  /** The effect of an enabled action. */
  function Effect(s: State, a: Action): State
    requires Enabled(s, a)
  {
    match a
    case Enqueue(p, maxRetries, retryDelayMs) => Dispatch(AddJob(s, p, maxRetries, retryDelayMs))
    case Start => Dispatch(s.(isProcessing := true))
    case Pause => s.(isProcessing := false)
    case Clear => s.(high := [], normal := [], low := [], cleared := s.cleared + s.high + s.normal + s.low)
    case Tick(ms) => s.(now := s.now + ms)
    case QuotaElapsed(i) => SetWorker(s, i, Drawing(s.workers[i].job))
    case Draw(i, jitter) =>
      if jitter > 0 then SetWorker(s, i, Jitter(s.workers[i].job, s.now + jitter)) else GrantTo(s, i)
    case JitterElapsed(i) => GrantTo(s, i)
    case Send(i) =>
      var job := s.workers[i].job;
      SetWorker(s, i, Sending(job.(sends := job.sends + 1))).(attempts := s.attempts + 1)
    case SendOk(i) =>
      SetWorker(s, i, Finishing).(completedCount := s.completedCount + 1,
                                  settled := s.settled + [Resolved(s.workers[i].job)])
    case SendFail(i) => Failure(s, i)
    case BackoffElapsed(i) => Requeue(s, i)
    case Finish(i) => Dispatch(RemoveWorker(s, i))
  }

  /** A disabled action changes nothing, so every list of actions is a run. */
  function Apply(s: State, a: Action): State {
    if Enabled(s, a) then Effect(s, a) else s
  }

  function Exec(s: State, actions: seq<Action>): State
    decreases |actions|
  {
    if actions == [] then s else Exec(Apply(s, actions[0]), actions[1..])
  }

  lemma {:induction false} ExecAppend(s: State, a: seq<Action>, b: seq<Action>)
    ensures Exec(s, a + b) == Exec(Exec(s, a), b)
    decreases |a|
  {
    if a == [] {
      assert a + b == b;
    } else {
      assert (a + b)[1..] == a[1..] + b;
      ExecAppend(Apply(s, a[0]), a[1..], b);
    }
  }

  // ---------------------------------------------------------------- runs without idle moments

  /** A worker whose quota check has let it pass draws its jitter before anything else happens, as in
      the source, which does both without waiting in between. */
  ghost predicate AtOnce(s: State, a: Action) {
    forall i :: 0 <= i < |s.workers| && s.workers[i].Drawing? ==> a.Draw? && a.i == i
  }

  ghost predicate Prompt(s: State, actions: seq<Action>)
    decreases |actions|
  {
    actions != [] ==> AtOnce(s, actions[0]) && Prompt(Apply(s, actions[0]), actions[1..])
  }

  lemma {:induction false} PromptAppend(s: State, a: seq<Action>, b: seq<Action>)
    ensures Prompt(s, a + b) <==> Prompt(s, a) && Prompt(Exec(s, a), b)
    decreases |a|
  {
    hide AtOnce, Apply;
    if a == [] {
      assert a + b == b;
    } else {
      assert (a + b)[1..] == a[1..] + b;
      PromptAppend(Apply(s, a[0]), a[1..], b);
    }
  }

  /** A run made longer by one action. */
  lemma OneMore(s: State, actions: seq<Action>, a: Action)
    ensures Exec(s, actions + [a]) == Apply(Exec(s, actions), a)
    ensures Prompt(s, actions) && AtOnce(Exec(s, actions), a) ==> Prompt(s, actions + [a])
  {
    hide Apply, AtOnce;
    ExecAppend(s, actions, [a]);
    PromptAppend(s, actions, [a]);
    assert [a][1..] == [];
  }
}
