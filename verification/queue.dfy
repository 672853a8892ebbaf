/** The limiter and queue objects (packages/wazeko/src/queue/rate-limiter.ts, message-queue.ts),
    proved equal to the steps of scheduler.dfy. A method called `After...` is what runs when the
    promise a worker awaits is settled. */
module MessageQueues {
  import opened Options
  import opened Scheduler
  import Accounting

  class AntiBanRateLimiter {
    const maxMessagesPerWindow: int
    const windowMs: int
    var timestamps: seq<int>
    ghost var history: seq<int>

    ghost function View(): Limiter
      reads this
    {
      Limiter(maxMessagesPerWindow, windowMs, timestamps, history)
    }

    constructor (maxMessagesPerWindow: int, windowMs: int)
      ensures View() == Limiter(maxMessagesPerWindow, windowMs, [], [])
    {
      this.maxMessagesPerWindow := maxMessagesPerWindow;
      this.windowMs := windowMs;
      timestamps := [];
      history := [];
    }

    /** Drops the expired timestamps and tells how long to wait for room. */
    method GetQuotaWaitTime(now: int) returns (wait: int)
      modifies this
      ensures View() == Pruned(old(View()), now)
      ensures wait == QuotaWait(View(), now)
    {
      PruneTimestamps(now);
      hide Prune;
      if |timestamps| >= maxMessagesPerWindow && timestamps != [] {
        var oldest := timestamps[0];
        wait := Max(0, windowMs - (now - oldest));
      } else {
        wait := 0;
      }
    }

    /** The `filter` over the timestamps. */
    method PruneTimestamps(now: int)
      modifies this`timestamps
      ensures timestamps == Prune(old(timestamps), now, windowMs)
    {
      hide Prune;
      var kept: seq<int> := [];
      assert timestamps[0..] == timestamps;
      for i := 0 to |timestamps|
        invariant timestamps == old(timestamps)
        invariant kept + Prune(timestamps[i..], now, windowMs) == Prune(timestamps, now, windowMs)
      {
        assert timestamps[i..][0] == timestamps[i] && timestamps[i..][1..] == timestamps[i + 1..];
        PruneFirst(timestamps[i..], now, windowMs);
        if now - timestamps[i] < windowMs {
          kept := kept + [timestamps[i]];
        }
      }
      PruneNone(now, windowMs);
      assert timestamps[|timestamps|..] == [];
      timestamps := kept;
    }

    /** The end of `acquire`. */
    method Record(now: int)
      modifies this
      ensures View() == Grant(old(View()), now)
    {
      timestamps := timestamps + [now];
      history := history + [now];
    }
  }

  class MessageQueue {
    var highQueue: seq<Job>
    var normalQueue: seq<Job>
    var lowQueue: seq<Job>
    var runningWorkers: int
    const maxConcurrency: int
    var isProcessing: bool
    const rateLimiter: AntiBanRateLimiter
    var completedCount: int
    var failedCount: int
    var processingCount: int
    // The environment: the clock, the suspended `processJob` calls, the next job's identity.
    var now: int
    var workers: seq<Worker>
    var nextSerial: nat
    ghost var arrived: seq<Job>
    ghost var settled: seq<Settlement>
    ghost var cleared: seq<Job>
    ghost var attempts: nat

    ghost function View(): State
      reads this, rateLimiter
    {
      State(highQueue, normalQueue, lowQueue, runningWorkers, maxConcurrency, isProcessing,
            completedCount, failedCount, processingCount, rateLimiter.View(), now, workers,
            arrived, settled, cleared, attempts)
    }

    ghost predicate Valid()
      reads this
    {
      nextSerial == |arrived|
    }

    constructor (rateLimiter: AntiBanRateLimiter, concurrency: int, autoStart: bool, now: int)
      requires rateLimiter.timestamps == [] && rateLimiter.history == []
      ensures Valid() && this.rateLimiter == rateLimiter
      ensures View() == Initial(concurrency, autoStart, rateLimiter.maxMessagesPerWindow, rateLimiter.windowMs, now)
    {
      highQueue, normalQueue, lowQueue := [], [], [];
      runningWorkers, maxConcurrency, isProcessing := 0, concurrency, autoStart;
      this.rateLimiter := rateLimiter;
      completedCount, failedCount, processingCount := 0, 0, 0;
      this.now, workers, nextSerial := now, [], 0;
      arrived, settled, cleared, attempts := [], [], [], 0;
    }

    method Push(job: Job)
      modifies this
      ensures View() == SetQueue(old(View()), job.priority, Queue(old(View()), job.priority) + [job])
      ensures nextSerial == old(nextSerial)
    {
      if job.priority == High {
        highQueue := highQueue + [job];
      } else if job.priority == Low {
        lowQueue := lowQueue + [job];
      } else {
        normalQueue := normalQueue + [job];
      }
    }

    method Unshift(job: Job)
      modifies this
      ensures View() == SetQueue(old(View()), job.priority, [job] + Queue(old(View()), job.priority))
      ensures nextSerial == old(nextSerial)
    {
      if job.priority == High {
        highQueue := [job] + highQueue;
      } else if job.priority == Low {
        lowQueue := [job] + lowQueue;
      } else {
        normalQueue := [job] + normalQueue;
      }
    }

    method EnqueueJob(priority: Priority, maxRetries: int, retryDelayMs: int)
      requires Valid()
      modifies this, rateLimiter
      ensures Valid()
      ensures View() == Effect(old(View()), Enqueue(priority, maxRetries, retryDelayMs))
    {
      hide DispatchLoop;
      var job := Job(nextSerial, priority, maxRetries, retryDelayMs, 0, 0, 0);
      Push(job);
      nextSerial := nextSerial + 1;
      arrived := arrived + [job];
      TriggerProcessing();
    }

    /** The front job of the first queue that is not empty. */
    method GetNextJob() returns (job: Option<Job>)
      modifies this
      ensures nextSerial == old(nextSerial)
      ensures old(Empty(View())) ==> job.None? && View() == old(View())
      ensures !old(Empty(View())) ==>
                var s := old(View());
                var p := Front(s);
                && job == Some(Queue(s, p)[0])
                && View() == SetQueue(s, p, Queue(s, p)[1..])
    {
      if |highQueue| > 0 {
        job, highQueue := Some(highQueue[0]), highQueue[1..];
      } else if |normalQueue| > 0 {
        job, normalQueue := Some(normalQueue[0]), normalQueue[1..];
      } else if |lowQueue| > 0 {
        job, lowQueue := Some(lowQueue[0]), lowQueue[1..];
      } else {
        job := None;
      }
    }

    /** The dispatch loop: starts jobs while a worker slot is free and a job waits. */
    method TriggerProcessing()
      modifies this, rateLimiter
      ensures View() == Dispatch(old(View()))
      ensures nextSerial == old(nextSerial) && arrived == old(arrived)
    {
      hide Prune, QuotaWait;
      if !isProcessing { return; }
      ghost var s0 := View();
      var more := true;
      while more && runningWorkers < maxConcurrency
        invariant DispatchLoop(View()) == DispatchLoop(s0)
        invariant !more ==> Empty(View())
        invariant nextSerial == old(nextSerial) && arrived == old(arrived)
        decreases more, |highQueue| + |normalQueue| + |lowQueue|
      {
        more := DispatchOne();
      }
    }

    /** The body of the loop; false is its `break`. */
    method DispatchOne() returns (more: bool)
      modifies this, rateLimiter
      ensures more <==> !old(Empty(View()))
      ensures View() == if more then StartNext(old(View())) else old(View())
      ensures nextSerial == old(nextSerial)
    {
      hide Prune, QuotaWait;
      var job := GetNextJob();
      more := job.Some?;
      if more {
        runningWorkers := runningWorkers + 1;
        processingCount := processingCount + 1;
        ProcessJob(job.value);
      }
    }

    /** `processJob` up to its first wait: the quota check at the start of `acquire`. */
    method ProcessJob(job: Job)
      modifies this`workers, rateLimiter
      ensures var l := Pruned(old(rateLimiter.View()), now);
              var wait := QuotaWait(l, now);
              && rateLimiter.View() == l
              && workers == old(workers) + [if wait > 0 then Quota(job, now + wait) else Drawing(job)]
    {
      var wait := rateLimiter.GetQuotaWaitTime(now);
      workers := workers + [if wait > 0 then Quota(job, now + wait) else Drawing(job)];
    }

    method StartProcessing()
      requires Valid()
      modifies this, rateLimiter
      ensures Valid() && View() == Effect(old(View()), Start)
    {
      hide DispatchLoop;
      isProcessing := true;
      TriggerProcessing();
    }

    method PauseProcessing()
      requires Valid()
      modifies this
      ensures Valid() && View() == Effect(old(View()), Pause)
    {
      isProcessing := false;
    }

    method ClearQueues()
      requires Valid()
      modifies this
      ensures Valid() && View() == Effect(old(View()), Clear)
    {
      cleared := cleared + highQueue + normalQueue + lowQueue;
      highQueue, normalQueue, lowQueue := [], [], [];
    }

    method PassTime(ms: nat)
      requires Valid()
      modifies this
      ensures Valid() && View() == Effect(old(View()), Tick(ms))
    {
      now := now + ms;
    }

    method AfterQuota(i: nat)
      requires Valid() && Enabled(View(), QuotaElapsed(i))
      modifies this
      ensures Valid() && View() == Effect(old(View()), QuotaElapsed(i))
    {
      workers := workers[i := Drawing(workers[i].job)];
    }

    method DrawJitter(i: nat, jitter: int)
      requires Valid() && Enabled(View(), Draw(i, jitter))
      modifies this, rateLimiter
      ensures Valid() && View() == Effect(old(View()), Draw(i, jitter))
    {
      if jitter > 0 {
        workers := workers[i := Jitter(workers[i].job, now + jitter)];
      } else {
        AcquireEnd(i);
      }
    }

    method AfterJitter(i: nat)
      requires Valid() && Enabled(View(), JitterElapsed(i))
      modifies this, rateLimiter
      ensures Valid() && View() == Effect(old(View()), JitterElapsed(i))
    {
      AcquireEnd(i);
    }

    method AcquireEnd(i: nat)
      requires i < |workers| && !workers[i].Finishing?
      modifies this`workers, rateLimiter
      ensures View() == GrantTo(old(View()), i)
    {
      rateLimiter.Record(now);
      workers := workers[i := Granted(workers[i].job)];
    }

    method AfterAcquire(i: nat)
      requires Valid() && Enabled(View(), Send(i))
      modifies this
      ensures Valid() && View() == Effect(old(View()), Send(i))
    {
      var job := workers[i].job;
      workers := workers[i := Sending(job.(sends := job.sends + 1))];
      attempts := attempts + 1;
    }

    method AfterSendOk(i: nat)
      requires Valid() && Enabled(View(), SendOk(i))
      modifies this
      ensures Valid() && View() == Effect(old(View()), SendOk(i))
    {
      completedCount := completedCount + 1;
      settled := settled + [Resolved(workers[i].job)];
      workers := workers[i := Finishing];
    }

    method AfterSendFail(i: nat)
      requires Valid() && Enabled(View(), SendFail(i))
      modifies this
      ensures Valid() && View() == Effect(old(View()), SendFail(i))
    {
      var job := workers[i].job.(retryCount := workers[i].job.retryCount + 1);
      if job.retryCount <= job.maxRetries {
        var delay := job.retryDelayMs * Pow2(job.retryCount - 1);
        workers := workers[i := Backoff(job.(waited := job.waited + delay), now + delay)];
      } else {
        failedCount := failedCount + 1;
        settled := settled + [Rejected(job)];
        workers := workers[i := Finishing];
      }
    }

    method AfterBackoff(i: nat)
      requires Valid() && Enabled(View(), BackoffElapsed(i))
      modifies this
      ensures Valid() && View() == Effect(old(View()), BackoffElapsed(i))
    {
      var job := workers[i].job;
      workers := workers[i := Finishing];
      Unshift(job);
    }

    /** The `.finally` callback. */
    method AfterProcessJob(i: nat)
      requires Valid() && Enabled(View(), Finish(i))
      modifies this, rateLimiter
      ensures Valid() && View() == Effect(old(View()), Finish(i))
    {
      hide DispatchLoop;
      workers := workers[..i] + workers[i + 1..];
      runningWorkers := runningWorkers - 1;
      processingCount := processingCount - 1;
      TriggerProcessing();
    }

    method GetStats() returns (stats: Accounting.QueueStats)
      ensures stats == Accounting.GetStats(View())
      ensures stats.highPriorityCount == |highQueue| && stats.normalPriorityCount == |normalQueue|
      ensures stats.lowPriorityCount == |lowQueue|
      ensures stats.pendingCount == |highQueue| + |normalQueue| + |lowQueue|
      ensures stats.processingCount == processingCount
      ensures stats.completedCount == completedCount && stats.failedCount == failedCount
    {
      stats := Accounting.QueueStats(|highQueue| + |normalQueue| + |lowQueue|, |highQueue|, |normalQueue|, |lowQueue|,
                                     processingCount, completedCount, failedCount);
    }
  }
}
