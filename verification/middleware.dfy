/** The onion runner of the middleware pipeline (packages/wazeko/src/plugins/middleware.ts),
    over middlewares of arbitrary behaviour that await their calls of `next`. */
module Middleware {

  datatype Error = Thrown(code: int) | CalledTwice

  datatype Outcome = Fine | Failed(error: Error)

  /** What a middleware does: it ends, throws, throws again what it caught last, or awaits
      `next()` and goes on depending on whether that call failed. */
  datatype Script =
    | Return
    | Throw(code: int)
    | Rethrow
    | Next(onFine: Script, onFailed: Script)

  datatype Event = Enter(i: nat) | Exit(i: nat)

  /** The shared `index` of one `execute` call, and the events so far. */
  datatype Progress = Progress(outcome: Outcome, index: int, trace: seq<Event>)

  const NOTHING_CAUGHT: Error := Thrown(0)

  /** `runner(i)`; position `|mws|` is the target, which just ends with `target`. */
  function Runner(mws: seq<Script>, target: Outcome, i: nat, index: int, trace: seq<Event>): Progress
    requires i <= |mws|
    decreases |mws| - i, 1, Return
  {
    if i <= index then Progress(Failed(CalledTwice), index, trace)
    else if i == |mws| then Progress(target, i, trace + [Enter(i)] + [Exit(i)])
    else
      var p := Behave(mws, target, i, mws[i], NOTHING_CAUGHT, i, trace + [Enter(i)]);
      p.(trace := p.trace + [Exit(i)])
  }

  /** Middleware `i` carries on with `script`. */
  function Behave(mws: seq<Script>, target: Outcome, i: nat, script: Script, caught: Error,
                  index: int, trace: seq<Event>): Progress
    requires i < |mws|
    decreases |mws| - i, 0, script
  {
    match script
    case Return => Progress(Fine, index, trace)
    case Throw(code) => Progress(Failed(Thrown(code)), index, trace)
    case Rethrow => Progress(Failed(caught), index, trace)
    case Next(onFine, onFailed) =>
      var p := Runner(mws, target, i + 1, index, trace);
      if p.outcome.Fine? then Behave(mws, target, i, onFine, caught, p.index, p.trace)
      else Behave(mws, target, i, onFailed, p.outcome.error, p.index, p.trace)
  }

  /** `execute`. */
  function Execute(mws: seq<Script>, target: Outcome): Progress {
    Runner(mws, target, 0, -1, [])
  }

  // ---------------------------------------------------------------- the onion

  /** Entering `i`, `i + 1`, ..., `k` and leaving them in reverse. */
  function Onion(i: nat, k: nat): seq<Event>
    requires i <= k + 1
    decreases k + 1 - i
  {
    if i == k + 1 then [] else [Enter(i)] + Onion(i + 1, k) + [Exit(i)]
  }

  /** The first position from `i` on that does not call `next`: a middleware or the target. */
  function Depth(mws: seq<Script>, i: nat): (k: nat)
    requires i <= |mws|
    ensures i <= k <= |mws|
    ensures forall j :: i <= j < k ==> mws[j].Next?
    ensures k < |mws| ==> !mws[k].Next?
    decreases |mws| - i
  {
    if i == |mws| || !mws[i].Next? then i else Depth(mws, i + 1)
  }

  /** How a script ends once `next` has been used up: every further call of it fails. */
  function Rest(script: Script, caught: Error): Outcome {
    match script
    case Return => Fine
    case Throw(code) => Failed(Thrown(code))
    case Rethrow => Failed(caught)
    case Next(_, onFailed) => Rest(onFailed, CalledTwice)
  }

  /** How position `i` ends: its first `next` gives what position `i + 1` ends with. */
  function Ending(mws: seq<Script>, target: Outcome, i: nat): Outcome
    requires i <= |mws|
    decreases |mws| - i
  {
    if i == |mws| then target
    else if mws[i].Next? then
      match Ending(mws, target, i + 1)
      case Fine => Rest(mws[i].onFine, NOTHING_CAUGHT)
      case Failed(e) => Rest(mws[i].onFailed, e)
    else Rest(mws[i], NOTHING_CAUGHT)
  }

  /** After its first call of `next`, a middleware starts nothing any more. */
  lemma {:induction false} UsedUp(mws: seq<Script>, target: Outcome, i: nat, script: Script, caught: Error,
                                  index: int, trace: seq<Event>)
    requires i < |mws| && index > i
    ensures Behave(mws, target, i, script, caught, index, trace) == Progress(Rest(script, caught), index, trace)
    decreases script
  {
    if script.Next? {
      UsedUp(mws, target, i, script.onFailed, CalledTwice, index, trace);
    }
  }

  lemma {:induction false} RunnerIsOnion(mws: seq<Script>, target: Outcome, i: nat, trace: seq<Event>)
    requires i <= |mws|
    ensures Runner(mws, target, i, i - 1, trace) ==
            Progress(Ending(mws, target, i), Depth(mws, i), trace + Onion(i, Depth(mws, i)))
    decreases |mws| - i
  {
    var k := Depth(mws, i);
    var entered := trace + [Enter(i)];
    if i < |mws| && mws[i].Next? {
      RunnerIsOnion(mws, target, i + 1, entered);
      var inner := entered + Onion(i + 1, k);
      match Ending(mws, target, i + 1) {
        case Fine => UsedUp(mws, target, i, mws[i].onFine, NOTHING_CAUGHT, k, inner);
        case Failed(e) => UsedUp(mws, target, i, mws[i].onFailed, e, k, inner);
      }
      Wrapped(trace, i, k);
    } else {
      Wrapped(trace, i, i);
      assert Onion(i + 1, i) == [] && entered + [] == entered;
    }
  }

  lemma Wrapped(trace: seq<Event>, i: nat, k: nat)
    requires i <= k
    ensures trace + [Enter(i)] + Onion(i + 1, k) + [Exit(i)] == trace + Onion(i, k)
  {}

  /** Onion discipline: whatever the middlewares do, the trace of an execution is exactly the
      nested entries and exits of the positions 0 to k, where k is the first middleware that does
      not call `next`, or the target if all of them do. The outcome is the one of position 0. */
  lemma ExecuteIsOnion(mws: seq<Script>, target: Outcome)
    ensures Execute(mws, target).trace == Onion(0, Depth(mws, 0))
    ensures Execute(mws, target).outcome == Ending(mws, target, 0)
  {
    RunnerIsOnion(mws, target, 0, []);
  }

  lemma {:induction false} OnionPositions(i: nat, k: nat, j: nat)
    requires i <= j <= k
    ensures |Onion(i, k)| == 2 * (k + 1 - i)
    ensures Onion(i, k)[j - i] == Enter(j) && Onion(i, k)[2 * k + 1 - i - j] == Exit(j)
    decreases j - i
  {
    OnionLength(i, k);
    OnionLength(i + 1, k);
    if i < j { OnionPositions(i + 1, k, j); }
  }

  lemma {:induction false} OnionLength(i: nat, k: nat)
    requires i <= k + 1
    ensures |Onion(i, k)| == 2 * (k + 1 - i)
    decreases k + 1 - i
  {
    if i <= k { OnionLength(i + 1, k); }
  }

  /** Every middleware and the target run at most once: the j-th event of the first half is the
      entry of position j, the second half mirrors it, and nothing else happens. So position
      j + 1 runs only between the entry and the exit of position j. */
  lemma AtMostOnce(mws: seq<Script>, target: Outcome, e: nat)
    requires e < |Execute(mws, target).trace|
    ensures var trace, k := Execute(mws, target).trace, Depth(mws, 0);
            && |trace| == 2 * (k + 1)
            && trace[e] == if e <= k then Enter(e) else Exit(2 * k + 1 - e)
  {
    ExecuteIsOnion(mws, target);
    var k := Depth(mws, 0);
    OnionLength(0, k);
    OnionPositions(0, k, if e <= k then e else 2 * k + 1 - e);
  }

  /** The target runs exactly when every middleware calls `next`. */
  lemma TargetRuns(mws: seq<Script>, target: Outcome)
    ensures Enter(|mws|) in Execute(mws, target).trace <==> forall i :: 0 <= i < |mws| ==> mws[i].Next?
  {
    ExecuteIsOnion(mws, target);
    var trace, k := Execute(mws, target).trace, Depth(mws, 0);
    OnionLength(0, k);
    if k == |mws| { OnionPositions(0, k, k); }
    if Enter(|mws|) in trace {
      var e :| 0 <= e < |trace| && trace[e] == Enter(|mws|);
      AtMostOnce(mws, target, e);
    }
  }

  // ---------------------------------------------------------------- middlewares that do not wait

  /** The shared index and the positions entered when middlewares need not wait for `next`. In a call
      of `next` the index check, its update and the entry of the next position are one step; in
      between, positions already entered may call in any order. */
  datatype Mixed = Mixed(index: int, entered: seq<nat>, refused: nat)

  function CallNext(length: nat, m: Mixed, i: nat): Mixed {
    if i !in m.entered || i >= length then m
    else if i + 1 <= m.index then m.(refused := m.refused + 1)
    else m.(index := i + 1, entered := m.entered + [i + 1])
  }

  function Interleave(length: nat, calls: seq<nat>): Mixed {
    if calls == [] then Mixed(0, [0], 0)
    else CallNext(length, Interleave(length, calls[..|calls| - 1]), calls[|calls| - 1])
  }

  /** Whatever the middlewares do with their `next`, waiting for it or not, calling it once, often or
      late, in any interleaving: the positions entered are 0, 1, 2, ... up to the index, each once. */
  lemma {:induction false} EnteredInOrder(length: nat, calls: seq<nat>)
    ensures var m := Interleave(length, calls);
            0 <= m.index <= length && m.entered == seq(m.index + 1, k requires 0 <= k => k)
  {
    if calls != [] { EnteredInOrder(length, calls[..|calls| - 1]); }
  }

  // ---------------------------------------------------------------- the pipeline

  /** The variables one `execute` call closes over. */
  class Frame {
    var index: int
    var trace: seq<Event>

    constructor ()
      ensures index == -1 && trace == []
    {
      index, trace := -1, [];
    }
  }

  class MiddlewarePipeline {
    var middlewares: seq<Script>

    constructor ()
      ensures middlewares == []
    {
      middlewares := [];
    }

    method Use(script: Script)
      modifies this
      ensures middlewares == old(middlewares) + [script]
    {
      middlewares := middlewares + [script];
    }

    method ExecuteTarget(target: Outcome) returns (outcome: Outcome, trace: seq<Event>)
      ensures outcome == Ending(middlewares, target, 0)
      ensures trace == Onion(0, Depth(middlewares, 0))
    {
      var frame := new Frame();
      outcome := Run(frame, 0, target);
      trace := frame.trace;
      ExecuteIsOnion(middlewares, target);
    }

    method Run(frame: Frame, i: nat, target: Outcome) returns (outcome: Outcome)
      requires i <= |middlewares|
      modifies frame
      ensures Progress(outcome, frame.index, frame.trace) ==
              Runner(middlewares, target, i, old(frame.index), old(frame.trace))
      decreases |middlewares| - i, 1, Return
    {
      if i <= frame.index { return Failed(CalledTwice); }
      frame.index := i;
      frame.trace := frame.trace + [Enter(i)];
      if i == |middlewares| {
        outcome := target;
      } else {
        outcome := Call(frame, i, middlewares[i], NOTHING_CAUGHT, target);
      }
      frame.trace := frame.trace + [Exit(i)];
    }

    method Call(frame: Frame, i: nat, script: Script, caught: Error, target: Outcome) returns (outcome: Outcome)
      requires i < |middlewares|
      modifies frame
      ensures Progress(outcome, frame.index, frame.trace) ==
              Behave(middlewares, target, i, script, caught, old(frame.index), old(frame.trace))
      decreases |middlewares| - i, 0, script
    {
      match script {
        case Return => return Fine;
        case Throw(code) => return Failed(Thrown(code));
        case Rethrow => return Failed(caught);
        case Next(onFine, onFailed) =>
          var inner := Run(frame, i + 1, target);
          if inner.Fine? {
            outcome := Call(frame, i, onFine, caught, target);
          } else {
            outcome := Call(frame, i, onFailed, inner.error, target);
          }
      }
    }
  }
}
