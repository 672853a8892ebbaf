/** Reconnection delays (packages/wazeko-transport/src/reconnect.ts), over real numbers. */
module Reconnect {

  import opened Options

  datatype Config = Config(initialIntervalMs: real, maxIntervalMs: real, multiplier: real, maxRetries: Option<int>)

  /** Neither the multiplier nor the cap is negative; the initial interval may exceed the cap. */
  predicate Growing(c: Config) { c.multiplier >= 0.0 && c.maxIntervalMs >= 0.0 }

  datatype State = State(attempt: nat, intervalMs: real)

  datatype Action = NextDelay | Reset

  function Min(a: real, b: real): real { if a <= b then a else b }

  /** Multiplication, named so that proofs can hide it. */
  function Times(a: real, b: real): real { a * b }

  function Power(m: real, n: nat): real { if n == 0 then 1.0 else Times(m, Power(m, n - 1)) }

  predicate MayRetry(c: Config, s: State) { c.maxRetries.Some? ==> s.attempt < c.maxRetries.value }

  function Start(c: Config): State { State(0, c.initialIntervalMs) }

  function Delay(c: Config, s: State): Option<real> { if MayRetry(c, s) then Some(s.intervalMs) else None }

  function Apply(c: Config, s: State, a: Action): State {
    match a
    case Reset => Start(c)
    case NextDelay =>
      if MayRetry(c, s) then State(s.attempt + 1, Min(Times(s.intervalMs, c.multiplier), c.maxIntervalMs)) else s
  }

  function Run(c: Config, actions: seq<Action>): State {
    if actions == [] then Start(c) else Apply(c, Run(c, actions[..|actions| - 1]), actions[|actions| - 1])
  }

  /** The number of calls of `nextDelayMs` since the last reset. */
  function Since(actions: seq<Action>): nat {
    if actions == [] || actions[|actions| - 1].Reset? then 0 else Since(actions[..|actions| - 1]) + 1
  }

  /** The n-th delay after a reset, in closed form: capped geometric growth, or, when the multiplier
      is below 1, decay from the initial interval or from the cap. */
  function DelayAt(c: Config, n: nat): real {
    if n == 0 then c.initialIntervalMs
    else Min(Times(c.initialIntervalMs, Power(c.multiplier, n)),
             Times(c.maxIntervalMs, Power(Min(c.multiplier, 1.0), n - 1)))
  }

  /** How many of n calls are granted. */
  function Granted(c: Config, n: nat): nat {
    if c.maxRetries.None? || n <= c.maxRetries.value then n
    else if c.maxRetries.value < 0 then 0 else c.maxRetries.value
  }

  // ---------------------------------------------------------------- powers

  lemma {:induction false} PowerBounds(m: real, n: nat)
    requires m >= 0.0
    ensures Power(m, n) >= 0.0
    ensures m <= 1.0 ==> Power(m, n) <= 1.0
    ensures m >= 1.0 ==> Power(m, n) >= 1.0
  {
    if n > 0 {
      PowerBounds(m, n - 1);
      var p := Power(m, n - 1);
      Scale(m, 0.0, p);
      Units(m);
      if m <= 1.0 { Scale(m, p, 1.0); }
      if m >= 1.0 { Scale(m, 1.0, p); }
      assert Times(m, 0.0) == 0.0;
      hide Times;
    }
  }

  lemma Scale(m: real, a: real, b: real)
    requires m >= 0.0 && a <= b
    ensures Times(m, a) <= Times(m, b) && Times(a, m) <= Times(b, m)
  {}

  lemma Units(x: real)
    ensures Times(x, 1.0) == x == Times(1.0, x)
  {}

  lemma {:induction false} OneIsOne(n: nat)
    ensures Power(1.0, n) == 1.0
  {
    if n > 0 { OneIsOne(n - 1); }
  }

  lemma PowerNext(x: real, m: real, n: nat)
    ensures Times(x, Power(m, n + 1)) == Times(Times(x, Power(m, n)), m)
  {
    var p := Power(m, n);
    assert x * (m * p) == x * p * m;
  }

  lemma MinScales(m: real, a: real, b: real)
    requires m >= 0.0
    ensures Times(Min(a, b), m) == Min(Times(a, m), Times(b, m))
  {
    if a <= b { Scale(m, a, b); } else { Scale(m, b, a); }
    hide Times;
  }

  lemma NextCapped(c: Config, n: nat)
    requires Growing(c)
    ensures Min(Times(DelayAt(c, n), c.multiplier), c.maxIntervalMs) == DelayAt(c, n + 1)
  {
    hide Times, Power;
    var m, top, q := c.multiplier, c.maxIntervalMs, Min(c.multiplier, 1.0);
    PowerNext(c.initialIntervalMs, m, n);
    if n == 0 {
      PowerZero(m);
      PowerZero(q);
      Units(c.initialIntervalMs);
      Units(top);
    } else {
      MinScales(m, Times(c.initialIntervalMs, Power(m, n)), Times(top, Power(q, n - 1)));
      if m >= 1.0 {
        OneIsOne(n - 1);
        OneIsOne(n);
        Units(top);
        Scale(top, 1.0, m);
      } else {
        PowerNext(top, m, n - 1);
        PowerBounds(m, n);
        Scale(top, Power(m, n), 1.0);
        Units(top);
      }
    }
  }

  lemma PowerZero(m: real)
    ensures Power(m, 0) == 1.0
  {}

  // ---------------------------------------------------------------- every run

  /** After every run of calls and resets the manager has granted one delay for each call since
      the last reset, up to the limit, and holds the closed form of the next one. */
  lemma {:induction false} RunClosedForm(c: Config, actions: seq<Action>)
    requires Growing(c)
    ensures var n := Granted(c, Since(actions)); Run(c, actions) == State(n, DelayAt(c, n))
  {
    if actions != [] {
      var before := actions[..|actions| - 1];
      RunClosedForm(c, before);
      var n := Granted(c, Since(before));
      var next := Min(Times(DelayAt(c, n), c.multiplier), c.maxIntervalMs);
      assert Apply(c, State(n, DelayAt(c, n)), NextDelay).attempt > n ==>
          Apply(c, State(n, DelayAt(c, n)), NextDelay).intervalMs == next;
      assert next == DelayAt(c, n + 1) by { NextCapped(c, n); }
      assert DelayAt(c, 0) == c.initialIntervalMs;
      hide DelayAt, Min, Times;
    }
  }

  /** The n-th call since a reset is answered with the closed form, and from call `maxRetries` on
      with null. */
  lemma NthDelay(c: Config, actions: seq<Action>)
    requires Growing(c)
    ensures var n := Since(actions);
            Delay(c, Run(c, actions)) ==
            if c.maxRetries.None? || n < c.maxRetries.value then Some(DelayAt(c, n)) else None
  {
    RunClosedForm(c, actions);
    hide Run, DelayAt;
  }

  /** With a multiplier of at least 1, the delays are the capped powers from the first one on exactly
      when the initial interval does not exceed the cap, and that is also exactly when they never
      decrease. */
  lemma CappedPowersExactly(c: Config)
    requires Growing(c) && c.multiplier >= 1.0 && c.initialIntervalMs >= 0.0
    ensures c.initialIntervalMs <= c.maxIntervalMs <==>
            forall n: nat :: DelayAt(c, n) == Min(Times(c.initialIntervalMs, Power(c.multiplier, n)), c.maxIntervalMs)
    ensures c.initialIntervalMs <= c.maxIntervalMs <==> forall n: nat :: DelayAt(c, n) <= DelayAt(c, n + 1)
  {
    hide Power, Times;
    forall n: nat
      ensures n > 0 || c.initialIntervalMs <= c.maxIntervalMs ==>
                DelayAt(c, n) == Min(Times(c.initialIntervalMs, Power(c.multiplier, n)), c.maxIntervalMs)
      ensures Times(c.initialIntervalMs, Power(c.multiplier, n)) <=
              Times(c.initialIntervalMs, Power(c.multiplier, n + 1))
    {
      CappedPower(c, n);
    }
    PowerZero(c.multiplier);
    Units(c.initialIntervalMs);
    assert DelayAt(c, 0) == c.initialIntervalMs;
    assert DelayAt(c, 0 + 1) <= c.maxIntervalMs;
    hide DelayAt;
  }

  lemma CappedPower(c: Config, n: nat)
    requires Growing(c) && c.multiplier >= 1.0 && c.initialIntervalMs >= 0.0
    ensures n > 0 || c.initialIntervalMs <= c.maxIntervalMs ==>
              DelayAt(c, n) == Min(Times(c.initialIntervalMs, Power(c.multiplier, n)), c.maxIntervalMs)
    ensures Times(c.initialIntervalMs, Power(c.multiplier, n)) <= Times(c.initialIntervalMs, Power(c.multiplier, n + 1))
  {
    hide Power, Times;
    var x := Times(c.initialIntervalMs, Power(c.multiplier, n));
    if n > 0 { OneIsOne(n - 1); } else { PowerZero(c.multiplier); }
    Units(c.maxIntervalMs);
    Units(c.initialIntervalMs);
    PowerNext(c.initialIntervalMs, c.multiplier, n);
    PowerBounds(c.multiplier, n);
    Scale(c.initialIntervalMs, 1.0, Power(c.multiplier, n));
    Scale(x, 1.0, c.multiplier);
    Units(x);
  }

  // ---------------------------------------------------------------- the manager

  class ReconnectManager {
    const config: Config
    var currentAttempt: nat
    var currentIntervalMs: real

    ghost function View(): State
      reads this
    {
      State(currentAttempt, currentIntervalMs)
    }

    constructor (config: Config)
      ensures this.config == config && View() == Start(config)
    {
      this.config := config;
      currentAttempt := 0;
      currentIntervalMs := config.initialIntervalMs;
    }

    method ResetBackoff()
      modifies this
      ensures View() == Apply(config, old(View()), Reset)
    {
      currentAttempt := 0;
      currentIntervalMs := config.initialIntervalMs;
    }

    method ShouldRetry() returns (b: bool)
      ensures b == MayRetry(config, View())
    {
      if config.maxRetries.Some? { return currentAttempt < config.maxRetries.value; }
      return true;
    }

    method NextDelayMs() returns (delay: Option<real>)
      modifies this
      ensures View() == Apply(config, old(View()), NextDelay) && delay == Delay(config, old(View()))
    {
      var retry := ShouldRetry();
      if !retry { return None; }
      currentAttempt := currentAttempt + 1;
      delay := Some(currentIntervalMs);
      var grown := currentIntervalMs * config.multiplier;
      currentIntervalMs := if grown <= config.maxIntervalMs then grown else config.maxIntervalMs;
    }
  }
}
