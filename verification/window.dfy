/** The sliding-window guarantee of the rate limiter inside the message queue. */
module Window {
  import opened Scheduler
  import opened Accounting
  import opened Fifo

  ghost predicate Ascending(h: seq<int>) {
    forall i, j :: 0 <= i <= j < |h| ==> h[i] <= h[j]
  }

  /** Grants that are `max` or more places apart are at least a window apart. */
  ghost predicate Spaced(h: seq<int>, max: int, windowMs: int) {
    forall i, j :: 0 <= i < |h| && 0 <= j < |h| && i + max <= j ==> h[j] - h[i] >= windowMs
  }

  function CountIn(h: seq<int>, from: int, to: int): nat {
    if h == [] then 0
    else CountIn(h[..|h| - 1], from, to) + (if from <= h[|h| - 1] < to then 1 else 0)
  }

  lemma {:induction false} CountBounds(h: seq<int>, from: int, to: int)
    ensures CountIn(h, from, to) <= |h|
    ensures (forall i :: 0 <= i < |h| ==> h[i] < from) ==> CountIn(h, from, to) == 0
  {
    if h != [] { CountBounds(h[..|h| - 1], from, to); }
  }

  lemma {:induction false} CountConcat(a: seq<int>, b: seq<int>, from: int, to: int)
    ensures CountIn(a + b, from, to) == CountIn(a, from, to) + CountIn(b, from, to)
    decreases |b|
  {
    if b == [] {
      assert a + b == a;
    } else {
      assert (a + b)[..|a + b| - 1] == a + b[..|b| - 1];
      CountConcat(a, b[..|b| - 1], from, to);
    }
  }

  /** The grants in the half-open interval of one window length. */
  function InWindow(h: seq<int>, from: int, windowMs: int): nat {
    CountIn(h, from, from + windowMs)
  }

  /** What the limiter promises of its grants: no window-long half-open interval holds more than
      `max` of them. */
  ghost predicate WindowKept(h: seq<int>, max: int, windowMs: int) {
    forall from :: InWindow(h, from, windowMs) <= max
  }

  /** If the last grant lies in the interval, all but the last `max` grants lie before it. */
  lemma OnlyRecent(h: seq<int>, max: int, windowMs: int, from: int)
    requires 1 <= max < |h| && Ascending(h) && Spaced(h, max, windowMs)
    requires from <= h[|h| - 1] < from + windowMs
    ensures forall i :: 0 <= i < |h| - max ==> h[i] < from
  {
    assert h[|h| - 1] - h[|h| - 1 - max] >= windowMs;
  }

  lemma RecentCount(h: seq<int>, max: int, windowMs: int, from: int)
    requires 1 <= max < |h| && Ascending(h) && Spaced(h, max, windowMs)
    requires from <= h[|h| - 1] < from + windowMs
    ensures InWindow(h, from, windowMs) <= max
  {
    OnlyRecent(h, max, windowMs, from);
    hide Ascending, Spaced;
    var past, recent := h[..|h| - max], h[|h| - max..];
    assert h == past + recent;
    CountConcat(past, recent, from, from + windowMs);
    CountBounds(past, from, from + windowMs);
    CountBounds(recent, from, from + windowMs);
  }

  lemma {:induction false} SpacedMeansWindow(h: seq<int>, max: int, windowMs: int, from: int)
    requires max >= 1 && Ascending(h) && Spaced(h, max, windowMs)
    ensures InWindow(h, from, windowMs) <= max
    decreases |h|
  {
    hide Ascending, Spaced;
    if |h| <= max {
      CountBounds(h, from, from + windowMs);
    } else if from <= h[|h| - 1] < from + windowMs {
      RecentCount(h, max, windowMs, from);
    } else {
      SpacedPrefix(h, max, windowMs);
      SpacedMeansWindow(h[..|h| - 1], max, windowMs, from);
    }
  }

  lemma SpacedPrefix(h: seq<int>, max: int, windowMs: int)
    requires h != [] && Ascending(h) && Spaced(h, max, windowMs)
    ensures Ascending(h[..|h| - 1]) && Spaced(h[..|h| - 1], max, windowMs)
  {}

  // ---------------------------------------------------------------- the invariant

  lemma UnexpiredFirst(ts: seq<int>, now: int, windowMs: int)
    requires Ascending(ts) && ts != [] && now - ts[0] < windowMs
    ensures forall i :: 0 <= i < |ts| ==> now - ts[i] < windowMs
  {
    forall i | 0 <= i < |ts| ensures now - ts[i] < windowMs { assert ts[0] <= ts[i]; }
  }

  lemma {:induction false} PruneNothing(ts: seq<int>, now: int, windowMs: int)
    requires forall i :: 0 <= i < |ts| ==> now - ts[i] < windowMs
    ensures Prune(ts, now, windowMs) == ts
  {
    if ts != [] {
      PruneFirst(ts, now, windowMs);
      PruneNothing(ts[1..], now, windowMs);
      hide Prune;
      assert ts == [ts[0]] + ts[1..];
    }
  }

  /** Pruning an ascending list cuts off a prefix of expired entries. */
  lemma {:induction false} PruneIsSuffix(ts: seq<int>, now: int, windowMs: int) returns (k: nat)
    requires Ascending(ts)
    ensures k <= |ts| && Prune(ts, now, windowMs) == ts[k..]
    ensures forall i :: 0 <= i < k ==> now - ts[i] >= windowMs
    ensures forall i :: k <= i < |ts| ==> now - ts[i] < windowMs
  {
    k := 0;
    if ts == [] {
    } else if now - ts[0] < windowMs {
      UnexpiredFirst(ts, now, windowMs);
      PruneNothing(ts, now, windowMs);
    } else {
      PruneFirst(ts, now, windowMs);
      var tail := ts[1..];
      assert Ascending(tail);
      hide Prune, Ascending;
      var rest := PruneIsSuffix(tail, now, windowMs);
      k := rest + 1;
      assert tail[rest..] == ts[k..];
      forall i | 0 <= i < k ensures now - ts[i] >= windowMs { if i > 0 { assert ts[i] == tail[i - 1]; } }
      forall i | k <= i < |ts| ensures now - ts[i] < windowMs { assert ts[i] == tail[i - 1]; }
    }
  }

  /** The pruned list is the history without a first piece of expired grants. */
  ghost predicate LacksExpired(l: Limiter, now: int) {
    && |l.timestamps| <= |l.history|
    && l.timestamps == l.history[|l.history| - |l.timestamps|..]
    && forall i :: 0 <= i < |l.history| - |l.timestamps| ==> now - l.history[i] >= l.windowMs
  }

  ghost predicate LimiterOk(l: Limiter, now: int) {
    && Ascending(l.history)
    && (forall i :: 0 <= i < |l.history| ==> l.history[i] <= now)
    && Spaced(l.history, l.maxMessages, l.windowMs)
    && LacksExpired(l, now)
  }

  /** From time `at` on, one more grant keeps the spacing. */
  ghost predicate RoomFrom(l: Limiter, at: int) {
    forall i :: 0 <= i < |l.history| && i + l.maxMessages <= |l.history| ==> l.history[i] + l.windowMs <= at
  }

  /** A worker past its quota check may be granted once its wait is over. */
  ghost predicate Cleared(l: Limiter, now: int, w: Worker) {
    match w
    case Quota(_, until) => RoomFrom(l, until)
    case Drawing(_) => RoomFrom(l, now)
    case Jitter(_, until) => RoomFrom(l, now)
    case _ => true
  }

  ghost predicate Limited(s: State) {
    && s.limiter.maxMessages >= 1
    && LimiterOk(s.limiter, s.now)
    && forall i :: 0 <= i < |s.workers| ==> Cleared(s.limiter, s.now, s.workers[i])
  }

  lemma SuffixAscending(h: seq<int>, k: nat)
    requires Ascending(h) && k <= |h|
    ensures Ascending(h[k..])
  {}

  /** Where the pruned list starts in the history. */
  lemma PrunedStart(l: Limiter, now: int) returns (k: nat)
    requires Ascending(l.history) && LacksExpired(l, now)
    ensures k <= |l.history| && Pruned(l, now).timestamps == l.history[k..]
    ensures forall i :: 0 <= i < k ==> now - l.history[i] >= l.windowMs
    ensures forall i :: k <= i < |l.history| ==> now - l.history[i] < l.windowMs
  {
    var h := l.history;
    var a := |h| - |l.timestamps|;
    SuffixAscending(h, a);
    var j := PruneIsSuffix(l.timestamps, now, l.windowMs);
    hide Prune, Ascending;
    k := a + j;
    forall i | 0 <= i < k ensures now - h[i] >= l.windowMs {
      if i >= a { assert h[i] == l.timestamps[i - a]; }
    }
    forall i | k <= i < |h| ensures now - h[i] < l.windowMs {
      assert h[i] == l.timestamps[i - a];
    }
  }

  lemma PruneKeeps(l: Limiter, now: int)
    requires l.maxMessages >= 1 && LimiterOk(l, now)
    ensures LimiterOk(Pruned(l, now), now)
    ensures RoomFrom(l, now + QuotaWait(Pruned(l, now), now))
  {
    var k := PrunedStart(l, now);
    var h, n, max := l.history, |l.history|, l.maxMessages;
    hide Prune;
    var p := Pruned(l, now);
    assert LacksExpired(p, now);
    // The unexpired grants fit in one window, so there are at most `maxMessages` of them.
    assert n - k <= max by {
      forall i | 0 <= i < n - max ensures now - h[i] >= l.windowMs { assert h[i + max] - h[i] >= l.windowMs; }
      assert k < n ==> now - h[k] < l.windowMs;
    }
    if n - k == max { OldestRoom(l, p, now, k); }
  }

  /** With a full list, the wait lasts until its oldest grant expires. */
  lemma OldestRoom(l: Limiter, p: Limiter, now: int, k: nat)
    requires l.maxMessages >= 1 && Ascending(l.history) && |l.history| == k + l.maxMessages
    requires p == l.(timestamps := l.history[k..]) && now - l.history[k] < l.windowMs
    ensures RoomFrom(l, now + QuotaWait(p, now))
  {
    assert p.timestamps[0] == l.history[k];
  }

  lemma AppendSpaced(h: seq<int>, max: int, windowMs: int, now: int)
    requires Spaced(h, max, windowMs)
    requires max >= 1 && forall i :: 0 <= i < |h| && i + max <= |h| ==> h[i] + windowMs <= now
    ensures Spaced(h + [now], max, windowMs)
  {
    var g := h + [now];
    forall i, j | 0 <= i < |g| && 0 <= j < |g| && i + max <= j ensures g[j] - g[i] >= windowMs {
      assert g[i] == h[i];
    }
  }

  lemma GrantKeeps(l: Limiter, now: int)
    requires l.maxMessages >= 1 && LimiterOk(l, now) && RoomFrom(l, now)
    ensures LimiterOk(Grant(l, now), now)
  {
    AppendSpaced(l.history, l.maxMessages, l.windowMs, now);
    AppendAscending(l.history, now);
    hide Spaced, Ascending;
    var g := Grant(l, now);
    assert g.timestamps == g.history[|g.history| - |g.timestamps|..];
  }

  lemma AppendAscending(h: seq<int>, now: int)
    requires Ascending(h) && forall i :: 0 <= i < |h| ==> h[i] <= now
    ensures Ascending(h + [now])
  {}

  lemma LaterKeeps(l: Limiter, now: int, later: int)
    requires LimiterOk(l, now) && now <= later
    ensures LimiterOk(l, later)
  {}

  /** The wait is exact: a grant at a later time keeps the window if and only if the wait that
      `getQuotaWaitTime` returned is over by then. */
  lemma WaitExactly(l: Limiter, now: int, at: int)
    requires l.maxMessages >= 1 && LimiterOk(l, now) && now <= at
    ensures WindowKept(l.history + [at], l.maxMessages, l.windowMs) <==> at >= now + QuotaWait(Pruned(l, now), now)
  {
    var h, max := l.history, l.maxMessages;
    if at >= now + QuotaWait(Pruned(l, now), now) {
      PruneKeeps(l, now);
      AppendSpaced(h, max, l.windowMs, at);
      AppendAscending(h, at);
      forall from ensures InWindow(h + [at], from, l.windowMs) <= max {
        SpacedMeansWindow(h + [at], max, l.windowMs, from);
      }
    } else {
      TooEarly(l, now, at);
    }
  }

  lemma TooEarly(l: Limiter, now: int, at: int)
    requires l.maxMessages >= 1 && LimiterOk(l, now) && now <= at < now + QuotaWait(Pruned(l, now), now)
    ensures exists from :: InWindow(l.history + [at], from, l.windowMs) > l.maxMessages
  {
    var k := PrunedStart(l, now);
    hide Prune, Spaced, LacksExpired;
    assert |l.history| - k >= l.maxMessages && at < l.history[k] + l.windowMs;
    hide QuotaWait;
    TailCount(l.history, k, at, l.windowMs);
  }

  /** From place `k` on, everything up to `at` lies in the window that starts with the k-th grant. */
  lemma TailCount(h: seq<int>, k: nat, at: int, windowMs: int)
    requires Ascending(h) && k < |h| && h[|h| - 1] <= at < h[k] + windowMs
    ensures InWindow(h + [at], h[k], windowMs) > |h| - k
  {
    var late := h[k..] + [at];
    assert h + [at] == h[..k] + late;
    CountConcat(h[..k], late, h[k], h[k] + windowMs);
    CountAll(late, h[k], h[k] + windowMs);
  }

  lemma {:induction false} CountAll(h: seq<int>, from: int, to: int)
    requires forall i :: 0 <= i < |h| ==> from <= h[i] < to
    ensures CountIn(h, from, to) == |h|
  {
    if h != [] { CountAll(h[..|h| - 1], from, to); }
  }

  // ---------------------------------------------------------------- preservation with one worker

  lemma DispatchLimited(s: State)
    requires Limited(s) && Counted(s) && s.maxConcurrency <= 1
    ensures Limited(Dispatch(s))
  {
    hide LimiterOk, RoomFrom, Prune;
    if s.isProcessing && CanDispatch(s) {
      var t := StartNext(s);
      PruneKeeps(s.limiter, s.now);
      assert t.workers == [t.workers[0]];
      assert RoomFrom(t.limiter, s.now + QuotaWait(t.limiter, s.now)) by { SameRoom(s.limiter, s.now); }
      assert DispatchLoop(s) == DispatchLoop(t) == t;
    }
  }

  lemma SameRoom(l: Limiter, now: int)
    ensures forall at :: RoomFrom(Pruned(l, now), at) == RoomFrom(l, at)
  {}

  lemma TickLimited(s: State, ms: nat)
    requires Limited(s)
    ensures Limited(Effect(s, Tick(ms)))
  {
    LaterKeeps(s.limiter, s.now, s.now + ms);
    hide LimiterOk;
    forall i | 0 <= i < |s.workers| ensures Cleared(s.limiter, s.now + ms, s.workers[i]) {
      assert Cleared(s.limiter, s.now, s.workers[i]);
    }
  }

  lemma GrantLimited(s: State, i: nat)
    requires Limited(s) && |s.workers| == 1 && i == 0 && (s.workers[0].Drawing? || s.workers[0].Jitter?)
    ensures Limited(GrantTo(s, i))
  {
    assert Cleared(s.limiter, s.now, s.workers[0]);
    GrantKeeps(s.limiter, s.now);
    hide LimiterOk, RoomFrom;
  }

  lemma WorkerStepLimited(s: State, a: Action)
    requires Limited(s) && Serial(s) && IsWorkerStep(a) && Enabled(s, a)
    ensures Limited(Effect(s, a))
  {
    OneWorker(s, a.i);
    assert Cleared(s.limiter, s.now, s.workers[0]);
    hide Inv, Tagged, LimiterOk, Pow2;
    if a.JitterElapsed? || (a.Draw? && a.jitter <= 0) {
      GrantLimited(s, a.i);
    } else if a.QuotaElapsed? {
      RoomLater(s.limiter, s.workers[0].until, s.now);
    }
    hide RoomFrom;
  }

  lemma RoomLater(l: Limiter, at: int, later: int)
    requires RoomFrom(l, at) && at <= later
    ensures RoomFrom(l, later)
  {}

  lemma StepLimited(s: State, a: Action)
    requires Limited(s) && Serial(s)
    ensures Limited(Apply(s, a))
  {
    hide Dispatch, Tagged, Conserved, Counted, LimiterOk, RoomFrom;
    if Enabled(s, a) {
      match a {
        case Enqueue(p, maxRetries, retryDelayMs) =>
          AddJobKeeps(s, p, maxRetries, retryDelayMs);
          DispatchLimited(AddJob(s, p, maxRetries, retryDelayMs));
        case Start =>
          StartReady(s);
          DispatchLimited(s.(isProcessing := true));
        case Pause =>
        case Clear =>
        case Tick(ms) => TickLimited(s, ms);
        case BackoffElapsed(i) =>
        case Finish(i) =>
          RemoveWorkerKeeps(s, i);
          DispatchLimited(RemoveWorker(s, i));
        case _ => WorkerStepLimited(s, a);
      }
    }
  }

  lemma {:induction false} RunLimited(s: State, actions: seq<Action>)
    requires Limited(s) && Serial(s)
    ensures Limited(Exec(s, actions))
    decreases |actions|
  {
    hide Limited, Inv, Tagged, Apply;
    if actions != [] {
      var a := actions[0];
      StepLimited(s, a);
      StepKeeps(s, a);
      StepTagged(s, a);
      StepConcurrency(s, a);
      RunLimited(Apply(s, a), actions[1..]);
    }
  }

  lemma LimitedWindow(maxConcurrency: int, autoStart: bool, maxMessages: int, windowMs: int, now: int,
                      actions: seq<Action>)
    requires maxConcurrency <= 1 && maxMessages >= 1
    ensures WindowKept(Exec(Initial(maxConcurrency, autoStart, maxMessages, windowMs, now), actions).limiter.history,
                       maxMessages, windowMs)
  {
    var s0 := Initial(maxConcurrency, autoStart, maxMessages, windowMs, now);
    InitialKeeps(maxConcurrency, autoStart, maxMessages, windowMs, now);
    forall p: Priority ensures Queue(s0, p) == [] {}
    RunLimited(s0, actions);
    RunSettings(s0, actions);
    hide Exec;
    var s := Exec(s0, actions);
    forall from ensures InWindow(s.limiter.history, from, windowMs) <= maxMessages {
      SpacedMeansWindow(s.limiter.history, maxMessages, windowMs, from);
    }
  }

  /** A limit below one acts like one: the check finds no oldest timestamp only while there is none. */
  function AsOne(s: State): State { s.(limiter := s.limiter.(maxMessages := 1)) }

  lemma {:induction false} DispatchAsOne(s: State)
    requires s.limiter.maxMessages <= 0
    ensures DispatchLoop(AsOne(s)) == AsOne(DispatchLoop(s)) && DispatchLoop(s).limiter.maxMessages <= 0
    decreases |s.high| + |s.normal| + |s.low|
  {
    hide Prune;
    if CanDispatch(s) {
      StartNextAsOne(s);
      hide StartNext;
      DispatchAsOne(StartNext(s));
    }
  }

  lemma StartNextAsOne(s: State)
    requires s.limiter.maxMessages <= 0 && !Empty(s)
    ensures StartNext(AsOne(s)) == AsOne(StartNext(s)) && StartNext(s).limiter.maxMessages <= 0
  {
    hide Prune;
  }

  lemma StepAsOne(s: State, a: Action)
    requires s.limiter.maxMessages <= 0
    ensures Apply(AsOne(s), a) == AsOne(Apply(s, a)) && Apply(s, a).limiter.maxMessages <= 0
  {
    hide DispatchLoop, Failure, Requeue;
    if Enabled(s, a) {
      match a {
        case Enqueue(p, maxRetries, retryDelayMs) => DispatchAsOne(AddJob(s, p, maxRetries, retryDelayMs));
        case Start => DispatchAsOne(s.(isProcessing := true));
        case Finish(i) => DispatchAsOne(RemoveWorker(s, i));
        case SendFail(i) => FailureAsOne(s, i);
        case BackoffElapsed(i) => FailureAsOne(s, i);
        case _ =>
      }
    }
  }

  lemma FailureAsOne(s: State, i: nat)
    requires s.limiter.maxMessages <= 0 && i < |s.workers| && !s.workers[i].Finishing?
    ensures Failure(AsOne(s), i) == AsOne(Failure(s, i)) && Failure(s, i).limiter.maxMessages <= 0
    ensures Requeue(AsOne(s), i) == AsOne(Requeue(s, i)) && Requeue(s, i).limiter.maxMessages <= 0
  {
    hide Pow2;
  }

  lemma {:induction false} RunAsOne(s: State, actions: seq<Action>)
    requires s.limiter.maxMessages <= 0
    ensures Exec(AsOne(s), actions) == AsOne(Exec(s, actions))
    decreases |actions|
  {
    hide Apply, AsOne;
    if actions != [] {
      StepAsOne(s, actions[0]);
      RunAsOne(Apply(s, actions[0]), actions[1..]);
    }
  }

  /** The sliding-window guarantee: in every run of a queue with at most one worker, no interval
      of `windowMs` milliseconds contains more than `maxMessages` grants, or more than one if the limit
      is below one. */
  lemma SlidingWindow(maxConcurrency: int, autoStart: bool, maxMessages: int, windowMs: int, now: int,
                      actions: seq<Action>)
    requires maxConcurrency <= 1
    ensures WindowKept(Exec(Initial(maxConcurrency, autoStart, maxMessages, windowMs, now), actions).limiter.history,
                       Max(1, maxMessages), windowMs)
  {
    LimitedWindow(maxConcurrency, autoStart, Max(1, maxMessages), windowMs, now, actions);
    if maxMessages <= 0 {
      hide Exec, WindowKept;
      RunAsOne(Initial(maxConcurrency, autoStart, maxMessages, windowMs, now), actions);
    }
  }

  lemma {:induction false} DispatchSettings(s: State)
    ensures var t := DispatchLoop(s);
            && t.limiter.maxMessages == s.limiter.maxMessages && t.limiter.windowMs == s.limiter.windowMs
            && t.limiter.history == s.limiter.history && t.attempts == s.attempts
    decreases |s.high| + |s.normal| + |s.low|
  {
    hide Prune;
    if CanDispatch(s) { DispatchSettings(StartNext(s)); }
  }

  lemma StepSettings(s: State, a: Action)
    ensures var t := Apply(s, a);
            t.limiter.maxMessages == s.limiter.maxMessages && t.limiter.windowMs == s.limiter.windowMs
  {
    hide DispatchLoop, Pow2;
    match a {
      case Enqueue(p, maxRetries, retryDelayMs) => DispatchSettings(AddJob(s, p, maxRetries, retryDelayMs));
      case Start => DispatchSettings(s.(isProcessing := true));
      case Finish(i) => if i < |s.workers| { DispatchSettings(RemoveWorker(s, i)); }
      case _ =>
    }
  }

  lemma {:induction false} RunSettings(s: State, actions: seq<Action>)
    ensures var t := Exec(s, actions);
            t.limiter.maxMessages == s.limiter.maxMessages && t.limiter.windowMs == s.limiter.windowMs
    decreases |actions|
  {
    hide Apply;
    if actions != [] {
      StepSettings(s, actions[0]);
      RunSettings(Apply(s, actions[0]), actions[1..]);
    }
  }

  // ---------------------------------------------------------------- every send has its grant

  function GrantedWorkers(workers: seq<Worker>): nat {
    if workers == [] then 0 else (if workers[0].Granted? then 1 else 0) + GrantedWorkers(workers[1..])
  }

  lemma {:induction false} GrantedConcat(a: seq<Worker>, b: seq<Worker>)
    ensures GrantedWorkers(a + b) == GrantedWorkers(a) + GrantedWorkers(b)
  {
    if a == [] {
      assert a + b == b;
    } else {
      assert (a + b)[1..] == a[1..] + b;
      GrantedConcat(a[1..], b);
    }
  }

  lemma GrantedSplit(workers: seq<Worker>, i: nat)
    requires i < |workers|
    ensures GrantedWorkers(workers) ==
            GrantedWorkers(workers[..i] + workers[i + 1..]) + (if workers[i].Granted? then 1 else 0)
  {
    var a, rest := workers[..i], workers[i..];
    assert workers == a + rest && rest[1..] == workers[i + 1..];
    assert GrantedWorkers(rest) == (if workers[i].Granted? then 1 else 0) + GrantedWorkers(rest[1..]);
    hide GrantedWorkers;
    GrantedConcat(a, rest);
    GrantedConcat(a, rest[1..]);
  }

  ghost predicate GrantPerSend(s: State) {
    |s.limiter.history| == s.attempts + GrantedWorkers(s.workers)
  }

  lemma {:induction false} DispatchGrants(s: State)
    requires GrantPerSend(s)
    ensures GrantPerSend(DispatchLoop(s))
    decreases |s.high| + |s.normal| + |s.low|
  {
    hide Prune;
    if CanDispatch(s) {
      var t := StartNext(s);
      var w := t.workers[|s.workers|];
      GrantedConcat(s.workers, [w]);
      assert GrantedWorkers([w]) == 0 + GrantedWorkers([]);
      DispatchGrants(t);
    }
  }

  lemma ReplacedGrants(s: State, i: nat, w: Worker)
    requires i < |s.workers|
    ensures GrantedWorkers(s.workers[i := w]) + (if s.workers[i].Granted? then 1 else 0)
            == GrantedWorkers(s.workers) + (if w.Granted? then 1 else 0)
  {
    GrantedSplit(s.workers, i);
    GrantedSplit(s.workers[i := w], i);
    assert s.workers[i := w][..i] == s.workers[..i] && s.workers[i := w][i + 1..] == s.workers[i + 1..];
  }

  /** A step of one worker: a grant is recorded or used exactly when it becomes or stops being the
      worker's own. */
  lemma WorkerStepGrants(s: State, a: Action)
    requires GrantPerSend(s) && Enabled(s, a)
    requires a.QuotaElapsed? || a.Draw? || a.JitterElapsed? || a.Send? || a.SendOk? || a.SendFail? || a.BackoffElapsed?
    ensures GrantPerSend(Effect(s, a))
  {
    var t := Effect(s, a);
    assert t.workers == s.workers[a.i := t.workers[a.i]];
    assert |t.limiter.history| == |s.limiter.history| + if t.workers[a.i].Granted? then 1 else 0;
    assert t.attempts == s.attempts + if s.workers[a.i].Granted? then 1 else 0;
    hide Effect, Enabled, GrantedWorkers;
    ReplacedGrants(s, a.i, t.workers[a.i]);
  }

  lemma StepGrants(s: State, a: Action)
    requires GrantPerSend(s)
    ensures GrantPerSend(Apply(s, a))
  {
    if Enabled(s, a) {
      hide DispatchLoop, GrantedWorkers, Requeue, Failure, GrantTo, SetWorker, StartNext;
      match a {
        case Enqueue(p, maxRetries, retryDelayMs) => DispatchGrants(AddJob(s, p, maxRetries, retryDelayMs));
        case Start => DispatchGrants(s.(isProcessing := true));
        case Pause =>
        case Clear =>
        case Tick(_) =>
        case Finish(i) =>
          GrantedSplit(s.workers, i);
          DispatchGrants(RemoveWorker(s, i));
        case _ => WorkerStepGrants(s, a);
      }
    }
  }

  /** In every run, at every concurrency, the grants are exactly the send attempts made plus the
      workers that hold a grant they have not used. */
  lemma {:induction false} RunGrants(s: State, actions: seq<Action>)
    requires GrantPerSend(s)
    ensures GrantPerSend(Exec(s, actions))
    decreases |actions|
  {
    hide GrantPerSend, Apply;
    if actions != [] {
      StepGrants(s, actions[0]);
      RunGrants(Apply(s, actions[0]), actions[1..]);
    }
  }
}
