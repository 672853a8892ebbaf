/** How far the sliding-window limit holds with several workers, for runs that draw one fixed jitter. */
module Overruns {
  import opened Scheduler
  import opened Accounting
  import opened Fifo
  import opened Window

  /** Every jitter a run draws is `jitter`. */
  ghost predicate DrawsOnly(actions: seq<Action>, jitter: int) {
    forall a :: a in actions && a.Draw? ==> a.jitter == jitter
  }

  // ---------------------------------------------------------------- long jitters keep the window

  /** The workers whose jitter is over at time `due` at the latest. */
  function Due(workers: seq<Worker>, due: int): nat {
    if workers == [] then 0
    else (if workers[0].Jitter? && workers[0].until <= due then 1 else 0) + Due(workers[1..], due)
  }

  lemma {:induction false} DueConcat(a: seq<Worker>, b: seq<Worker>, due: int)
    ensures Due(a + b, due) == Due(a, due) + Due(b, due)
  {
    if a == [] {
      assert a + b == b;
    } else {
      assert (a + b)[1..] == a[1..] + b;
      DueConcat(a[1..], b, due);
    }
  }

  function DueOne(w: Worker, due: int): nat { if w.Jitter? && w.until <= due then 1 else 0 }

  lemma DueSplit(workers: seq<Worker>, i: nat, due: int)
    requires i < |workers|
    ensures Due(workers, due) == Due(workers[..i] + workers[i + 1..], due) + DueOne(workers[i], due)
  {
    var a, w, b := workers[..i], workers[i], workers[i + 1..];
    assert workers == a + ([w] + b);
    DueConcat(a, [w] + b, due);
    DueConcat(a, b, due);
    assert ([w] + b)[1..] == b;
  }

  lemma DueSet(workers: seq<Worker>, i: nat, w: Worker, due: int)
    requires i < |workers|
    ensures Due(workers[i := w], due) + DueOne(workers[i], due) == Due(workers, due) + DueOne(w, due)
  {
    hide Due, DueOne;
    DueSplit(workers, i, due);
    DueSplit(workers[i := w], i, due);
    assert workers[i := w][..i] == workers[..i] && workers[i := w][i + 1..] == workers[i + 1..];
  }

  lemma {:induction false} DueBound(workers: seq<Worker>, due: int)
    ensures Due(workers, due) <= |workers|
  {
    if workers != [] { DueBound(workers[1..], due); }
  }

  /** The grants in the window of one jitter behind `x`, and the workers that will be granted in it. */
  function Through(s: State, x: int, jitter: int): nat {
    CountIn(s.limiter.history, x + 1, x + 1 + jitter) + Due(s.workers, x + jitter)
  }

  /** Whoever is granted within one jitter behind an instant was waiting for its jitter at that
      instant, so there are no more of them than workers. */
  ghost predicate Spread(s: State, jitter: int) {
    && (forall i :: 0 <= i < |s.limiter.history| ==> s.limiter.history[i] <= s.now)
    && forall x :: x < s.now ==> Through(s, x, jitter) <= Max(0, s.maxConcurrency)
  }

  /** Steps that neither grant nor draw. */
  lemma SameSpread(s: State, t: State, jitter: int)
    requires Spread(s, jitter) && t.now == s.now && t.maxConcurrency == s.maxConcurrency
    requires t.limiter.history == s.limiter.history && forall due :: Due(t.workers, due) <= Due(s.workers, due)
    ensures Spread(t, jitter)
  {
    hide Due, CountIn;
    forall x | x < t.now ensures Through(t, x, jitter) <= Max(0, t.maxConcurrency) {
      assert Through(s, x, jitter) <= Max(0, s.maxConcurrency);
    }
  }

  lemma {:induction false} DispatchSpread(s: State, jitter: int)
    requires Spread(s, jitter)
    ensures Spread(DispatchLoop(s), jitter)
    decreases |s.high| + |s.normal| + |s.low|
  {
    hide Spread;
    if CanDispatch(s) {
      var t := StartNext(s);
      var w := t.workers[|s.workers|];
      forall due ensures Due(t.workers, due) == Due(s.workers, due) {
        DueConcat(s.workers, [w], due);
        assert Due([w], due) == DueOne(w, due) + Due([], due);
      }
      hide Due, Prune;
      SameSpread(s, t, jitter);
      DispatchSpread(t, jitter);
    }
  }

  lemma TickSpread(s: State, ms: nat, jitter: int)
    requires Spread(s, jitter) && Counted(s)
    ensures Spread(Effect(s, Tick(ms)), jitter)
  {
    var t := Effect(s, Tick(ms));
    var h := s.limiter.history;
    hide Due, CountIn;
    forall x | x < t.now ensures Through(t, x, jitter) <= Max(0, t.maxConcurrency) {
      if x < s.now {
        assert Through(s, x, jitter) <= Max(0, s.maxConcurrency);
      } else {
        CountBounds(h, x + 1, x + 1 + jitter);
        DueBound(s.workers, x + jitter);
      }
    }
  }

  /** Granting moves a worker from those that wait to those granted. */
  lemma ElapsedSpread(s: State, i: nat, jitter: int)
    requires Spread(s, jitter) && Enabled(s, JitterElapsed(i))
    ensures Spread(Effect(s, JitterElapsed(i)), jitter)
  {
    var t := Effect(s, JitterElapsed(i));
    var h := s.limiter.history;
    hide Due;
    forall x | x < t.now ensures Through(t, x, jitter) <= Max(0, t.maxConcurrency) {
      assert Through(s, x, jitter) <= Max(0, s.maxConcurrency);
      DueSet(s.workers, i, Granted(s.workers[i].job), x + jitter);
      assert (h + [s.now])[..|h|] == h;
    }
  }

  /** A worker that moves on, but not into or out of its jitter with a due time before `now`. */
  lemma SetSpread(s: State, i: nat, w: Worker, attempts: nat, done: int, failed: int,
                  settled: seq<Settlement>, jitter: int)
    requires Spread(s, jitter) && i < |s.workers| && (w.Jitter? ==> w.until == s.now + jitter)
    ensures Spread(SetWorker(s, i, w).(attempts := attempts, completedCount := done, failedCount := failed,
                                       settled := settled), jitter)
  {
    var t := SetWorker(s, i, w).(attempts := attempts, completedCount := done, failedCount := failed,
                                 settled := settled);
    hide Due, CountIn;
    forall x | x < t.now ensures Through(t, x, jitter) <= Max(0, t.maxConcurrency) {
      assert Through(s, x, jitter) <= Max(0, s.maxConcurrency);
      DueSet(s.workers, i, w, x + jitter);
    }
  }

  lemma StepSpread(s: State, a: Action, jitter: int)
    requires Spread(s, jitter) && Counted(s) && jitter > 0 && (a.Draw? ==> a.jitter == jitter)
    ensures Spread(Apply(s, a), jitter)
  {
    if Enabled(s, a) {
      hide Spread, DispatchLoop, Due, Pow2;
      match a {
        case Enqueue(p, maxRetries, retryDelayMs) =>
          SameSpread(s, AddJob(s, p, maxRetries, retryDelayMs), jitter);
          DispatchSpread(AddJob(s, p, maxRetries, retryDelayMs), jitter);
        case Start =>
          SameSpread(s, s.(isProcessing := true), jitter);
          DispatchSpread(s.(isProcessing := true), jitter);
        case Pause => SameSpread(s, Effect(s, a), jitter);
        case Clear => SameSpread(s, Effect(s, a), jitter);
        case Tick(ms) => TickSpread(s, ms, jitter);
        case JitterElapsed(i) => ElapsedSpread(s, i, jitter);
        case Finish(i) =>
          forall due ensures Due(RemoveWorker(s, i).workers, due) <= Due(s.workers, due) {
            DueSplit(s.workers, i, due);
          }
          SameSpread(s, RemoveWorker(s, i), jitter);
          DispatchSpread(RemoveWorker(s, i), jitter);
        case BackoffElapsed(i) => RequeueSpread(s, i, jitter);
        case _ => WorkerSpread(s, a, jitter);
      }
    }
  }

  lemma RequeueSpread(s: State, i: nat, jitter: int)
    requires Spread(s, jitter) && i < |s.workers| && s.workers[i].Backoff?
    ensures Spread(Requeue(s, i), jitter)
  {
    hide Spread;
    forall due ensures Due(s.workers[i := Finishing], due) <= Due(s.workers, due) {
      hide Due;
      DueSet(s.workers, i, Finishing, due);
    }
    hide Due;
    SameSpread(s, Requeue(s, i), jitter);
  }

  lemma WorkerSpread(s: State, a: Action, jitter: int)
    requires Spread(s, jitter) && jitter > 0 && Enabled(s, a)
    requires a.QuotaElapsed? || (a.Draw? && a.jitter == jitter) || a.Send? || a.SendOk? || a.SendFail?
    ensures Spread(Effect(s, a), jitter)
  {
    hide Spread, Pow2;
    var t := Effect(s, a);
    SetSpread(s, a.i, t.workers[a.i], t.attempts, t.completedCount, t.failedCount, t.settled, jitter);
    assert t == SetWorker(s, a.i, t.workers[a.i]).(attempts := t.attempts, completedCount := t.completedCount,
                                                   failedCount := t.failedCount, settled := t.settled);
  }

  lemma {:induction false} RunSpread(s: State, actions: seq<Action>, jitter: int)
    requires Inv(s) && Spread(s, jitter) && jitter > 0 && DrawsOnly(actions, jitter)
    ensures Inv(Exec(s, actions)) && Spread(Exec(s, actions), jitter)
    ensures Exec(s, actions).maxConcurrency == s.maxConcurrency
    decreases |actions|
  {
    hide Conserved, Spread, Apply;
    if actions != [] {
      var a := actions[0];
      assert a in actions && forall b :: b in actions[1..] ==> b in actions;
      StepKeeps(s, a);
      StepSpread(s, a, jitter);
      StepConcurrency(s, a);
      RunSpread(Apply(s, a), actions[1..], jitter);
    }
  }

  lemma {:induction false} CountSplit(h: seq<int>, from: int, middle: int, to: int)
    requires from <= middle <= to
    ensures CountIn(h, from, to) == CountIn(h, from, middle) + CountIn(h, middle, to)
  {
    if h != [] { CountSplit(h[..|h| - 1], from, middle, to); }
  }

  /** A window of q jitters holds at most q grants for each worker. */
  lemma {:induction false} JittersCount(s: State, from: int, jitter: nat, q: nat)
    requires Spread(s, jitter) && s.maxConcurrency >= 0
    ensures CountIn(s.limiter.history, from, from + q * jitter) <= q * s.maxConcurrency
    decreases q
  {
    var h, c := s.limiter.history, s.maxConcurrency;
    if q == 0 {
      EmptyCount(h, from);
    } else {
      assert q * jitter == jitter + (q - 1) * jitter && q * c == c + (q - 1) * c;
      CountSplit(h, from, from + jitter, from + q * jitter);
      JittersCount(s, from + jitter, jitter, q - 1);
      hide CountIn;
      OneJitterCount(s, from, jitter);
    }
  }

  lemma {:induction false} EmptyCount(h: seq<int>, from: int)
    ensures CountIn(h, from, from) == 0
  {
    if h != [] { EmptyCount(h[..|h| - 1], from); }
  }

  lemma OneJitterCount(s: State, from: int, jitter: nat)
    requires Spread(s, jitter) && s.maxConcurrency >= 0
    ensures CountIn(s.limiter.history, from, from + jitter) <= s.maxConcurrency
  {
    hide Due;
    if from - 1 < s.now {
      assert Through(s, from - 1, jitter) <= s.maxConcurrency;
    } else {
      CountBounds(s.limiter.history, from, from + jitter);
    }
  }

  /** With a jitter so long that fewer sends than the limit fit into a window, the window is kept
      whatever the concurrency. */
  lemma LongJitter(maxConcurrency: int, maxMessages: int, windowMs: int, now: int, jitter: nat, actions: seq<Action>)
    requires maxConcurrency >= 1 && maxMessages >= 1 && maxMessages / maxConcurrency * jitter >= windowMs
    requires DrawsOnly(actions, jitter)
    ensures WindowKept(Exec(Initial(maxConcurrency, true, maxMessages, windowMs, now), actions).limiter.history,
                       maxMessages, windowMs)
  {
    var s := Initial(maxConcurrency, true, maxMessages, windowMs, now);
    var t := Exec(s, actions);
    var q := maxMessages / maxConcurrency;
    if windowMs > 0 {
      SomeJitter(q, jitter, windowMs);
      InitialKeeps(maxConcurrency, true, maxMessages, windowMs, now);
      RunSpread(s, actions, jitter);
      QuotientBound(maxMessages, maxConcurrency);
      hide Exec, Spread, InWindow;
      forall from ensures InWindow(t.limiter.history, from, windowMs) <= maxMessages {
        JittersCover(t, from, windowMs, jitter, q);
      }
    } else {
      hide Exec, CountIn;
      forall from ensures InWindow(t.limiter.history, from, windowMs) <= maxMessages {
        NothingBelow(t.limiter.history, from, from + windowMs);
      }
    }
  }

  lemma SomeJitter(q: nat, jitter: nat, windowMs: int)
    requires q * jitter >= windowMs > 0
    ensures jitter > 0
  {
    assert jitter == 0 ==> q * jitter == 0;
  }

  lemma QuotientBound(m: nat, c: int)
    requires c >= 1
    ensures m / c >= 0 && m / c * c <= m
  {}

  lemma JittersCover(s: State, from: int, windowMs: int, jitter: nat, q: nat)
    requires Spread(s, jitter) && s.maxConcurrency >= 0 && 0 <= windowMs <= q * jitter
    ensures InWindow(s.limiter.history, from, windowMs) <= q * s.maxConcurrency
  {
    hide Spread, CountIn;
    CountSplit(s.limiter.history, from, from + windowMs, from + q * jitter);
    JittersCount(s, from, jitter, q);
  }

  lemma {:induction false} NothingBelow(h: seq<int>, from: int, to: int)
    requires to <= from
    ensures CountIn(h, from, to) == 0
  {
    if h != [] { NothingBelow(h[..|h| - 1], from, to); }
  }

  // ---------------------------------------------------------------- runs that overrun the window

  /** A run of the source that draws one fixed jitter. */
  ghost predicate Legal(s: State, actions: seq<Action>, jitter: int) {
    Prompt(s, actions) && DrawsOnly(actions, jitter)
  }

  lemma LegalNone(s: State, jitter: int)
    ensures Legal(s, [], jitter) && Exec(s, []) == s
  {}

  lemma LegalMore(s: State, actions: seq<Action>, a: Action, jitter: int)
    requires Legal(s, actions, jitter) && AtOnce(Exec(s, actions), a) && (a.Draw? ==> a.jitter == jitter)
    ensures Legal(s, actions + [a], jitter) && Exec(s, actions + [a]) == Apply(Exec(s, actions), a)
  {
    hide Exec, Prompt, AtOnce;
    OneMore(s, actions, a);
  }

  lemma LegalAppend(s: State, a: seq<Action>, b: seq<Action>, jitter: int)
    requires Legal(s, a, jitter) && Legal(Exec(s, a), b, jitter)
    ensures Legal(s, a + b, jitter) && Exec(s, a + b) == Exec(Exec(s, a), b)
  {
    hide Exec, Prompt;
    ExecAppend(s, a, b);
    PromptAppend(s, a, b);
  }

  /** No worker has a draw to make. */
  ghost predicate NoneDrawing(workers: seq<Worker>) {
    forall i :: 0 <= i < |workers| ==> !workers[i].Drawing?
  }

  /** A running queue in which no job waits. Behind the grants `past` there are `k` unexpired ones, all
      since `start`. */
  ghost predicate Filled(s: State, workers: seq<Worker>, past: seq<int>, start: int, k: nat) {
    && s.isProcessing && Empty(s) && s.workers == workers && s.runningWorkers == |workers| && NoneDrawing(workers)
    && var p := Prune(s.limiter.timestamps, s.now, s.limiter.windowMs);
       |p| == k && s.limiter.history == past + p && forall i :: 0 <= i < k ==> start <= p[i] <= s.now
  }

  ghost predicate SameLimits(s: State, t: State) {
    && t.limiter.maxMessages == s.limiter.maxMessages && t.limiter.windowMs == s.limiter.windowMs
    && t.maxConcurrency == s.maxConcurrency
  }

  /** A filled window that holds more grants than allowed. */
  lemma Overfilled(s: State, workers: seq<Worker>, past: seq<int>, start: int, k: nat)
    requires Filled(s, workers, past, start, k) && s.now < start + s.limiter.windowMs && k > s.limiter.maxMessages
    ensures !WindowKept(s.limiter.history, s.limiter.maxMessages, s.limiter.windowMs)
  {
    var p := Prune(s.limiter.timestamps, s.now, s.limiter.windowMs);
    hide Prune;
    CountConcat(past, p, start, start + s.limiter.windowMs);
    CountAll(p, start, start + s.limiter.windowMs);
    assert InWindow(s.limiter.history, start, s.limiter.windowMs) > s.limiter.maxMessages;
  }

  lemma {:induction false} PruneTwice(ts: seq<int>, now: int, later: int, windowMs: int)
    requires now <= later
    ensures Prune(Prune(ts, now, windowMs), later, windowMs) == Prune(ts, later, windowMs)
  {
    if ts != [] {
      PruneTwice(ts[1..], now, later, windowMs);
      var p, rest := Prune(ts, now, windowMs), Prune(ts[1..], now, windowMs);
      if now - ts[0] < windowMs {
        assert p == [ts[0]] + rest && p[1..] == rest;
      } else {
        assert p == [] + rest == rest;
      }
    }
  }

  lemma {:induction false} PruneFresh(ts: seq<int>, now: int, windowMs: int)
    requires forall i :: 0 <= i < |ts| ==> now - ts[i] < windowMs
    ensures Prune(ts, now, windowMs) == ts
  {
    if ts != [] { PruneFresh(ts[1..], now, windowMs); }
  }

  lemma {:induction false} PruneAppend(ts: seq<int>, x: int, now: int, windowMs: int)
    requires now - x < windowMs
    ensures Prune(ts + [x], now, windowMs) == Prune(ts, now, windowMs) + [x]
  {
    if ts == [] {
      assert [] + [x] == [x] && [x][1..] == [];
    } else {
      assert (ts + [x])[1..] == ts[1..] + [x];
      PruneAppend(ts[1..], x, now, windowMs);
      PruneFirst(ts, now, windowMs);
      PruneFirst(ts + [x], now, windowMs);
      hide Prune;
    }
  }

  /** A job enqueued while a slot is free is dispatched and makes its quota check. */
  lemma JobChecks(s: State, workers: seq<Worker>, past: seq<int>, start: int, k: nat) returns (job: Job)
    requires Filled(s, workers, past, start, k) && |workers| < s.maxConcurrency
    ensures var t, l := Apply(s, JOB), Pruned(s.limiter, s.now);
            var wait := QuotaWait(l, s.now);
            && t.isProcessing && Empty(t) && t.limiter == l && t.now == s.now && SameLimits(s, t)
            && t.runningWorkers == |workers| + 1
            && t.workers == workers + [if wait > 0 then Quota(job, s.now + wait) else Drawing(job)]
            && |l.timestamps| == k
  {
    var u := AddJob(s, Normal, 0, 0);
    job := u.normal[0];
    DispatchOne(u);
    hide DispatchLoop, Prune, QuotaWait;
  }

  /** The check passes while there is room. */
  lemma JobPasses(s: State, workers: seq<Worker>, past: seq<int>, start: int, k: nat) returns (job: Job)
    requires Filled(s, workers, past, start, k) && |workers| < s.maxConcurrency && k < s.limiter.maxMessages
    ensures var t := Apply(s, JOB);
            && t.isProcessing && Empty(t) && t.limiter == Pruned(s.limiter, s.now) && t.now == s.now && SameLimits(s, t)
            && t.runningWorkers == |workers| + 1 && t.workers == workers + [Drawing(job)]
  {
    job := JobChecks(s, workers, past, start, k);
    hide Apply, Prune;
  }

  /** A job comes and waits for its jitter. */
  lemma Joins(s: State, workers: seq<Worker>, past: seq<int>, start: int, k: nat, jitter: int)
      returns (actions: seq<Action>, job: Job)
    requires Filled(s, workers, past, start, k) && jitter > 0
    requires |workers| < s.maxConcurrency && k < s.limiter.maxMessages
    ensures Legal(s, actions, jitter)
    ensures var t := Exec(s, actions);
            Filled(t, workers + [Jitter(job, s.now + jitter)], past, start, k) && SameLimits(s, t) && t.now == s.now
  {
    job := JobPasses(s, workers, past, start, k);
    hide Exec, Legal, Prune, Dispatch, Failure, Requeue;
    LegalNone(s, jitter);
    LegalMore(s, [], JOB, jitter);
    assert [] + [JOB] == [JOB];
    var t := Apply(s, JOB);
    LegalMore(s, [JOB], Draw(|workers|, jitter), jitter);
    actions := [JOB] + [Draw(|workers|, jitter)];
    PruneTwice(s.limiter.timestamps, s.now, s.now, s.limiter.windowMs);
    var w := Jitter(job, s.now + jitter);
    assert (workers + [Drawing(job)])[|workers| := w] == workers + [w];
  }

  ghost predicate Waiting(workers: seq<Worker>, until: int) {
    forall i :: 0 <= i < |workers| ==> workers[i].Jitter? && workers[i].until == until
  }

  lemma {:induction false} AllJoin(s: State, n: nat, past: seq<int>, start: int, k: nat, jitter: int)
      returns (actions: seq<Action>, workers: seq<Worker>)
    requires Filled(s, [], past, start, k) && n <= s.maxConcurrency && k < s.limiter.maxMessages && jitter > 0
    ensures Legal(s, actions, jitter) && |workers| == n && Waiting(workers, s.now + jitter)
    ensures var t := Exec(s, actions); Filled(t, workers, past, start, k) && SameLimits(s, t) && t.now == s.now
  {
    hide Exec, Legal, Filled;
    if n == 0 {
      LegalNone(s, jitter);
      actions, workers := [], [];
    } else {
      var before, ws := AllJoin(s, n - 1, past, start, k, jitter);
      var a, job := Joins(Exec(s, before), ws, past, start, k, jitter);
      LegalAppend(s, before, a, jitter);
      actions, workers := before + a, ws + [Jitter(job, s.now + jitter)];
    }
  }

  /** Time passes, but not so much that a grant of the window expires. */
  lemma TimePasses(s: State, ms: nat, workers: seq<Worker>, past: seq<int>, start: int, k: nat)
    requires Filled(s, workers, past, start, k) && s.now + ms < start + s.limiter.windowMs
    ensures var t := Apply(s, Tick(ms)); Filled(t, workers, past, start, k) && SameLimits(s, t) && t.now == s.now + ms
  {
    hide Prune, Dispatch, Failure, Requeue;
    PruneTwice(s.limiter.timestamps, s.now, s.now + ms, s.limiter.windowMs);
    PruneFresh(Prune(s.limiter.timestamps, s.now, s.limiter.windowMs), s.now + ms, s.limiter.windowMs);
  }

  /** The first worker, once granted, sends successfully and is done. */
  lemma FirstDone(s: State, job: Job, rest: seq<Worker>) returns (actions: seq<Action>)
    requires s.workers == [Granted(job)] + rest && NoneDrawing(rest) && Empty(s)
    ensures actions == [Send(0), SendOk(0), Finish(0)] && Prompt(s, actions)
    ensures var t := Exec(s, actions);
            && t.workers == rest && t.runningWorkers == s.runningWorkers - 1 && t.limiter == s.limiter && t.now == s.now
            && t.isProcessing == s.isProcessing && Empty(t) && SameLimits(s, t)
  {
    hide Apply, Exec, Prompt;
    NoActions(s);
    Sends(s, job, rest);
    var sent := Apply(Apply(s, Send(0)), SendOk(0));
    Finishes(sent, rest);
    OneMore(s, [], Send(0));
    OneMore(s, [] + [Send(0)], SendOk(0));
    OneMore(s, [] + [Send(0)] + [SendOk(0)], Finish(0));
    actions := [] + [Send(0)] + [SendOk(0)] + [Finish(0)];
  }

  lemma Sends(s: State, job: Job, rest: seq<Worker>)
    requires s.workers == [Granted(job)] + rest && NoneDrawing(rest)
    ensures var sending := Apply(s, Send(0));
            var t := Apply(sending, SendOk(0));
            && (forall a :: AtOnce(s, a) && AtOnce(sending, a) && AtOnce(t, a))
            && t.workers == [Finishing] + rest && t.high == s.high && t.normal == s.normal && t.low == s.low
            && t.runningWorkers == s.runningWorkers && t.limiter == s.limiter && t.now == s.now
            && t.isProcessing == s.isProcessing && t.maxConcurrency == s.maxConcurrency
  {
    hide Dispatch, Failure, Requeue;
    var sending := Apply(s, Send(0));
    assert sending.workers == [Sending(job.(sends := job.sends + 1))] + rest;
  }

  lemma Finishes(s: State, rest: seq<Worker>)
    requires s.workers == [Finishing] + rest && Empty(s)
    ensures var t := Apply(s, Finish(0));
            && t == RemoveWorker(s, 0) && t.workers == rest
  {
    hide Dispatch;
    NothingWaits(RemoveWorker(s, 0));
  }

  lemma NothingWaits(s: State)
    requires Empty(s)
    ensures Dispatch(s) == s
  {}

  /** A grant recorded now is the next of the window. */
  lemma GrantFills(s: State, t: State, workers: seq<Worker>, rest: seq<Worker>, past: seq<int>, start: int, k: nat)
    requires Filled(s, workers, past, start, k) && start <= s.now && s.limiter.windowMs > 0
    requires t.limiter == Grant(s.limiter, s.now) && t.now == s.now && t.isProcessing && Empty(t)
    requires t.workers == rest && t.runningWorkers == |rest| && NoneDrawing(rest)
    ensures Filled(t, rest, past, start, k + 1)
  {
    PruneAppend(s.limiter.timestamps, s.now, s.now, s.limiter.windowMs);
    hide Prune;
  }

  /** The first worker's jitter is over: it is granted, sends and is done. */
  lemma Leaves(s: State, job: Job, until: int, rest: seq<Worker>, past: seq<int>, start: int, k: nat, jitter: int)
      returns (actions: seq<Action>)
    requires Filled(s, [Jitter(job, until)] + rest, past, start, k) && until <= s.now && NoneDrawing(rest)
    requires start <= s.now < start + s.limiter.windowMs
    ensures Legal(s, actions, jitter)
    ensures var t := Exec(s, actions); Filled(t, rest, past, start, k + 1) && SameLimits(s, t) && t.now == s.now
  {
    hide Exec, Prompt, Prune, Dispatch, Failure, Requeue;
    NoActions(s);
    OneMore(s, [], JitterElapsed(0));
    var granted := Apply(s, JitterElapsed(0));
    assert granted.workers == [Granted(job)] + rest;
    var a := FirstDone(granted, job, rest);
    var first := [] + [JitterElapsed(0)];
    ExecAppend(s, first, a);
    PromptAppend(s, first, a);
    actions := first + a;
    hide Filled;
    GrantFills(s, Exec(s, actions), [Jitter(job, until)] + rest, rest, past, start, k);
  }

  lemma {:induction false} AllLeave(s: State, workers: seq<Worker>, until: int, past: seq<int>, start: int, k: nat,
                                   jitter: int)
      returns (actions: seq<Action>)
    requires Filled(s, workers, past, start, k) && Waiting(workers, until) && until <= s.now
    requires start <= s.now < start + s.limiter.windowMs
    ensures Legal(s, actions, jitter)
    ensures var t := Exec(s, actions); Filled(t, [], past, start, k + |workers|) && SameLimits(s, t) && t.now == s.now
    decreases |workers|
  {
    hide Exec, Legal, Filled;
    if workers == [] {
      LegalNone(s, jitter);
      actions := [];
    } else {
      var w, rest := workers[0], workers[1..];
      assert workers == [Jitter(w.job, until)] + rest;
      var a := Leaves(s, w.job, until, rest, past, start, k, jitter);
      var after := AllLeave(Exec(s, a), rest, until, past, start, k + 1, jitter);
      LegalAppend(s, a, after, jitter);
      actions := a + after;
    }
  }

  /** n jobs come at once, wait for their jitter together and are sent together. */
  lemma Round(s: State, n: nat, past: seq<int>, start: int, k: nat, jitter: int) returns (actions: seq<Action>)
    requires Filled(s, [], past, start, k) && n <= s.maxConcurrency && k < s.limiter.maxMessages && jitter > 0
    requires start <= s.now + jitter < start + s.limiter.windowMs
    ensures Legal(s, actions, jitter)
    ensures var t := Exec(s, actions); Filled(t, [], past, start, k + n) && SameLimits(s, t) && t.now == s.now + jitter
  {
    hide Exec, Legal, Filled, Apply;
    var join, workers := AllJoin(s, n, past, start, k, jitter);
    var joined := Exec(s, join);
    TimePasses(joined, jitter, workers, past, start, k);
    WaitingDraw(workers, s.now + jitter, joined, past, start, k);
    LegalMore(s, join, Tick(jitter), jitter);
    var waited := Exec(s, join + [Tick(jitter)]);
    var leave := AllLeave(waited, workers, s.now + jitter, past, start, k, jitter);
    LegalAppend(s, join + [Tick(jitter)], leave, jitter);
    actions := join + [Tick(jitter)] + leave;
  }

  lemma WaitingDraw(workers: seq<Worker>, until: int, s: State, past: seq<int>, start: int, k: nat)
    requires Waiting(workers, until) && Filled(s, workers, past, start, k)
    ensures forall a :: AtOnce(s, a)
  {}

  lemma {:induction false} Rounds(s: State, q: nat, past: seq<int>, start: int, k: nat, jitter: int)
      returns (actions: seq<Action>)
    requires Filled(s, [], past, start, k) && s.maxConcurrency >= 1 && jitter > 0 && start <= s.now
    requires q > 0 ==> k + (q - 1) * s.maxConcurrency < s.limiter.maxMessages
    requires s.now + q * jitter < start + s.limiter.windowMs
    ensures Legal(s, actions, jitter)
    ensures var t := Exec(s, actions);
            Filled(t, [], past, start, k + q * s.maxConcurrency) && SameLimits(s, t) && t.now == s.now + q * jitter
    decreases q
  {
    hide Exec, Legal, Filled;
    if q == 0 {
      LegalNone(s, jitter);
      actions := [];
    } else {
      var c := s.maxConcurrency;
      OneRoundLess(q, c, jitter);
      var first := Round(s, c, past, start, k, jitter);
      var rest := Rounds(Exec(s, first), q - 1, past, start, k + c, jitter);
      LegalAppend(s, first, rest, jitter);
      actions := first + rest;
    }
  }

  lemma OneRoundLess(q: nat, c: int, jitter: int)
    requires q > 0 && c >= 1 && jitter > 0
    ensures q * c == c + (q - 1) * c && q * jitter == jitter + (q - 1) * jitter
    ensures (q - 1) * c >= 0 && (q - 1) * jitter >= 0
    ensures q > 1 ==> (q - 1) * c == c + (q - 2) * c
  {}

  /** With a positive jitter: as many full rounds as the limit holds, behind a first one that makes up
      the rest and one more. */
  lemma OverrunByRounds(s: State, jitter: int) returns (actions: seq<Action>)
    requires Filled(s, [], [], s.now + jitter, 0) && s.maxConcurrency >= 2 && s.limiter.maxMessages >= 1 && jitter > 0
    requires s.limiter.maxMessages / s.maxConcurrency * jitter < s.limiter.windowMs
    ensures Legal(s, actions, jitter)
    ensures !WindowKept(Exec(s, actions).limiter.history, s.limiter.maxMessages, s.limiter.windowMs)
  {
    var m, c, start := s.limiter.maxMessages, s.maxConcurrency, s.now + jitter;
    var q, r := m / c, m % c;
    Quotients(m, c, jitter);
    hide Exec, Legal, Filled, WindowKept;
    var first := Round(s, r + 1, [], start, 0, jitter);
    var rest := Rounds(Exec(s, first), q, [], start, r + 1, jitter);
    LegalAppend(s, first, rest, jitter);
    actions := first + rest;
    Overfilled(Exec(s, actions), [], [], start, r + 1 + q * c);
  }

  lemma Quotients(m: nat, c: int, jitter: int)
    requires c >= 2 && jitter > 0
    ensures m / c >= 0 && 0 <= m % c < c && m / c * c + m % c == m && m / c * jitter >= 0
    ensures m / c > 0 ==> (m / c - 1) * c == m / c * c - c
  {}

  // ---------------------------------------------------------------- no jitter at all

  /** A job comes, is granted at once, sent and done, beside workers that wait. */
  lemma ServedAtOnce(s: State, others: seq<Worker>, past: seq<int>, start: int, k: nat) returns (actions: seq<Action>)
    requires Filled(s, others, past, start, k) && |others| < s.maxConcurrency && k < s.limiter.maxMessages
    requires start <= s.now < start + s.limiter.windowMs
    ensures Legal(s, actions, 0)
    ensures var t := Exec(s, actions); Filled(t, others, past, start, k + 1) && SameLimits(s, t) && t.now == s.now
  {
    var job := JobPasses(s, others, past, start, k);
    hide Exec, Legal, Prune, Dispatch, Failure, Requeue;
    var i := |others|;
    LegalNone(s, 0);
    LegalMore(s, [], JOB, 0);
    actions := [] + [JOB];
    LegalMore(s, actions, Draw(i, 0), 0);
    var started, granted := Apply(s, JOB), Apply(Apply(s, JOB), Draw(i, 0));
    assert granted.workers == others + [Granted(job)];
    actions := actions + [Draw(i, 0)];
    LegalMore(s, actions, Send(i), 0);
    var sending := Apply(granted, Send(i));
    assert sending.workers == others + [Sending(job.(sends := job.sends + 1))];
    actions := actions + [Send(i)];
    LegalMore(s, actions, SendOk(i), 0);
    var sent := Apply(sending, SendOk(i));
    assert sent.workers == others + [Finishing];
    actions := actions + [SendOk(i)];
    LegalMore(s, actions, Finish(i), 0);
    actions := actions + [Finish(i)];
    NothingWaits(RemoveWorker(sent, i));
    assert RemoveWorker(sent, i).workers == others;
    AtOnceFills(s, RemoveWorker(sent, i), others, past, start, k);
  }

  lemma AtOnceFills(s: State, t: State, others: seq<Worker>, past: seq<int>, start: int, k: nat)
    requires Filled(s, others, past, start, k) && start <= s.now && s.limiter.windowMs > 0
    requires t.limiter == Grant(Pruned(s.limiter, s.now), s.now) && t.now == s.now && t.isProcessing && Empty(t)
    requires t.workers == others && t.runningWorkers == |others|
    ensures Filled(t, others, past, start, k + 1)
  {
    var p := Prune(s.limiter.timestamps, s.now, s.limiter.windowMs);
    PruneTwice(s.limiter.timestamps, s.now, s.now, s.limiter.windowMs);
    PruneAppend(p, s.now, s.now, s.limiter.windowMs);
    hide Prune;
  }

  lemma {:induction false} ManyAtOnce(s: State, n: nat, others: seq<Worker>, past: seq<int>, start: int, k: nat)
      returns (actions: seq<Action>)
    requires Filled(s, others, past, start, k) && |others| < s.maxConcurrency && k + n <= s.limiter.maxMessages
    requires start <= s.now < start + s.limiter.windowMs
    ensures Legal(s, actions, 0)
    ensures var t := Exec(s, actions); Filled(t, others, past, start, k + n) && SameLimits(s, t) && t.now == s.now
  {
    hide Exec, Legal, Filled;
    if n == 0 {
      LegalNone(s, 0);
      actions := [];
    } else {
      var before := ManyAtOnce(s, n - 1, others, past, start, k);
      var a := ServedAtOnce(Exec(s, before), others, past, start, k + n - 1);
      LegalAppend(s, before, a, 0);
      actions := before + a;
    }
  }

  /** A job that meets a window filled this very moment waits for the whole of it. */
  lemma MustWait(s: State, others: seq<Worker>, past: seq<int>, k: nat) returns (actions: seq<Action>, job: Job)
    requires Filled(s, others, past, s.now, k) && |others| < s.maxConcurrency
    requires k == s.limiter.maxMessages >= 1 && s.limiter.windowMs > 0
    ensures Legal(s, actions, 0)
    ensures var t := Exec(s, actions);
            && Filled(t, others + [Quota(job, s.now + s.limiter.windowMs)], past, s.now, k)
            && SameLimits(s, t) && t.now == s.now
  {
    job := JobChecks(s, others, past, s.now, k);
    hide Exec, Legal, Prune, Apply;
    LegalNone(s, 0);
    LegalMore(s, [], JOB, 0);
    actions := [] + [JOB];
    PruneTwice(s.limiter.timestamps, s.now, s.now, s.limiter.windowMs);
    var t := Apply(s, JOB);
    assert t.limiter.timestamps[0] == s.now;
  }

  /** A window later every grant has expired. */
  lemma WindowPasses(s: State, workers: seq<Worker>, past: seq<int>, k: nat)
    requires Filled(s, workers, past, s.now, k) && s.limiter.windowMs > 0
    ensures var t := Apply(s, Tick(s.limiter.windowMs));
            Filled(t, workers, s.limiter.history, t.now, 0) && SameLimits(s, t) && t.now == s.now + s.limiter.windowMs
  {
    var p := Prune(s.limiter.timestamps, s.now, s.limiter.windowMs);
    PruneTwice(s.limiter.timestamps, s.now, s.now + s.limiter.windowMs, s.limiter.windowMs);
    PruneStale(p, s.now + s.limiter.windowMs, s.limiter.windowMs);
    hide Prune, Dispatch, Failure, Requeue;
    assert s.limiter.history + [] == s.limiter.history;
  }

  lemma {:induction false} PruneStale(ts: seq<int>, now: int, windowMs: int)
    requires forall i :: 0 <= i < |ts| ==> now - ts[i] >= windowMs
    ensures Prune(ts, now, windowMs) == []
  {
    if ts != [] { PruneStale(ts[1..], now, windowMs); }
  }

  /** The first worker's quota wait is over: it is granted without another check, sends and is done. */
  lemma QuotaOver(s: State, job: Job, until: int, rest: seq<Worker>, past: seq<int>, start: int, k: nat)
      returns (actions: seq<Action>)
    requires Filled(s, [Quota(job, until)] + rest, past, start, k) && until <= s.now && NoneDrawing(rest)
    requires start <= s.now < start + s.limiter.windowMs
    ensures Legal(s, actions, 0)
    ensures var t := Exec(s, actions); Filled(t, rest, past, start, k + 1) && SameLimits(s, t) && t.now == s.now
  {
    hide Exec, Prompt, Prune, Dispatch, Failure, Requeue;
    NoActions(s);
    OneMore(s, [], QuotaElapsed(0));
    var drawing := Apply(s, QuotaElapsed(0));
    assert drawing.workers == [Drawing(job)] + rest;
    OneMore(s, [] + [QuotaElapsed(0)], Draw(0, 0));
    var granted := Apply(drawing, Draw(0, 0));
    assert granted.workers == [Granted(job)] + rest;
    var a := FirstDone(granted, job, rest);
    var first := [] + [QuotaElapsed(0)] + [Draw(0, 0)];
    ExecAppend(s, first, a);
    PromptAppend(s, first, a);
    actions := first + a;
    hide Filled;
    GrantFills(s, Exec(s, actions), [Quota(job, until)] + rest, rest, past, start, k);
  }

  /** Without jitter: two jobs wait for a full window to pass. The first is granted, others fill the
      window behind it, and the second, which checks no more, overruns it. */
  lemma OverrunByWaiting(s: State) returns (actions: seq<Action>)
    requires Filled(s, [], [], s.now, 0) && s.maxConcurrency >= 2
    requires s.limiter.maxMessages >= 1 && s.limiter.windowMs > 0
    ensures Legal(s, actions, 0)
    ensures !WindowKept(Exec(s, actions).limiter.history, s.limiter.maxMessages, s.limiter.windowMs)
  {
    hide Exec, Legal, Filled, WindowKept, Apply;
    var m, w := s.limiter.maxMessages, s.limiter.windowMs;
    actions := ManyAtOnce(s, m, [], [], s.now, 0);
    var t := Exec(s, actions);
    var a, first := MustWait(t, [], [], m);
    LegalAppend(s, actions, a, 0);
    actions := actions + a;
    t := Exec(s, actions);
    var b, second := MustWait(t, [] + [Quota(first, s.now + w)], [], m);
    LegalAppend(s, actions, b, 0);
    actions := actions + b;
    t := Exec(s, actions);
    var waiters := [] + [Quota(first, s.now + w)] + [Quota(second, s.now + w)];
    WindowPasses(t, waiters, [], m);
    QuotasDraw(t, first, second, s.now + w, s.now, m);
    LegalMore(s, actions, Tick(w), 0);
    actions := actions + [Tick(w)];
    var past := t.limiter.history;
    t := Exec(s, actions);
    var rest := OverrunBehind(t, first, second, s.now + w, past);
    LegalAppend(s, actions, rest, 0);
    actions := actions + rest;
  }

  lemma QuotasDraw(s: State, first: Job, second: Job, until: int, start: int, k: nat)
    requires Filled(s, [] + [Quota(first, until)] + [Quota(second, until)], [], start, k)
    ensures forall a :: AtOnce(s, a)
  {}

  lemma OverrunBehind(s: State, first: Job, second: Job, until: int, past: seq<int>) returns (actions: seq<Action>)
    requires Filled(s, [] + [Quota(first, until)] + [Quota(second, until)], past, s.now, 0) && until == s.now
    requires s.maxConcurrency >= 2 && s.limiter.maxMessages >= 1 && s.limiter.windowMs > 0
    ensures Legal(s, actions, 0)
    ensures !WindowKept(Exec(s, actions).limiter.history, s.limiter.maxMessages, s.limiter.windowMs)
  {
    hide Exec, Legal, Filled, WindowKept;
    var m := s.limiter.maxMessages;
    assert [] + [Quota(first, until)] + [Quota(second, until)] == [Quota(first, until)] + [Quota(second, until)];
    actions := QuotaOver(s, first, until, [Quota(second, until)], past, s.now, 0);
    var t := Exec(s, actions);
    var fill := ManyAtOnce(t, m - 1, [Quota(second, until)], past, s.now, 1);
    LegalAppend(s, actions, fill, 0);
    actions := actions + fill;
    t := Exec(s, actions);
    assert [Quota(second, until)] == [Quota(second, until)] + [];
    var last := QuotaOver(t, second, until, [], past, s.now, m);
    LegalAppend(s, actions, last, 0);
    actions := actions + last;
    Overfilled(Exec(s, actions), [], past, s.now, m + 1);
  }

  // ---------------------------------------------------------------- the exact condition

  lemma Overrun(maxConcurrency: int, maxMessages: int, windowMs: int, now: int, jitter: nat)
      returns (actions: seq<Action>)
    requires maxConcurrency >= 2 && maxMessages >= 1 && maxMessages / maxConcurrency * jitter < windowMs
    ensures var s := Initial(maxConcurrency, true, maxMessages, windowMs, now);
            Legal(s, actions, jitter) && !WindowKept(Exec(s, actions).limiter.history, maxMessages, windowMs)
  {
    var s := Initial(maxConcurrency, true, maxMessages, windowMs, now);
    Quotients(maxMessages, maxConcurrency, 1);
    hide Exec, Legal, WindowKept;
    if jitter > 0 { actions := OverrunByRounds(s, jitter); } else { actions := OverrunByWaiting(s); }
  }

  /** The window is kept by every run exactly when at most one worker may run; several can pass the
      quota check before any of them is recorded. Of the runs that draw one fixed jitter and never
      pause between a check and the draw behind it, it is kept by all exactly when, besides, the
      jitter is so long that the limit, shared out to the workers, takes a window. */
  lemma WindowExactly(maxConcurrency: int, maxMessages: int, windowMs: int, now: int, jitter: nat)
    requires maxMessages >= 1 && windowMs > 0
    ensures maxConcurrency <= 1 <==>
            forall actions ::
              WindowKept(Exec(Initial(maxConcurrency, true, maxMessages, windowMs, now), actions).limiter.history,
                         maxMessages, windowMs)
    ensures maxConcurrency <= 1 || maxMessages / maxConcurrency * jitter >= windowMs <==>
            forall actions :: Legal(Initial(maxConcurrency, true, maxMessages, windowMs, now), actions, jitter) ==>
              WindowKept(Exec(Initial(maxConcurrency, true, maxMessages, windowMs, now), actions).limiter.history,
                         maxMessages, windowMs)
  {
    var s := Initial(maxConcurrency, true, maxMessages, windowMs, now);
    hide Exec, Prompt, WindowKept;
    if maxConcurrency <= 1 {
      forall actions ensures WindowKept(Exec(s, actions).limiter.history, maxMessages, windowMs) {
        SlidingWindow(maxConcurrency, true, maxMessages, windowMs, now, actions);
      }
    } else {
      assert maxMessages / maxConcurrency * 0 == 0;
      var overrun := Overrun(maxConcurrency, maxMessages, windowMs, now, 0);
      if maxMessages / maxConcurrency * jitter >= windowMs {
        forall actions | Legal(s, actions, jitter)
          ensures WindowKept(Exec(s, actions).limiter.history, maxMessages, windowMs)
        {
          LongJitter(maxConcurrency, maxMessages, windowMs, now, jitter, actions);
        }
      } else {
        var other := Overrun(maxConcurrency, maxMessages, windowMs, now, jitter);
      }
    }
  }
}
