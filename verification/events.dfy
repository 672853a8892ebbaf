/** The asynchronous event queue (packages/wazeko/src/events.ts): pushes meet calls of `next`. */
module EventQueues {

  import opened Options

  /** How the promise of one `next` call is resolved. */
  datatype Answer<+E> = Item(event: E) | Disconnected | Null

  /** `next` calls are numbered in order; `answers` holds the resolved ones. `accepted` and
      `closedAfter`, the number of calls made before the first close, are history. */
  datatype State<+E> = State(queue: seq<E>, waiters: seq<nat>, closed: bool, calls: nat,
                             answers: map<nat, Answer<E>>, accepted: seq<E>, closedAfter: nat)

  datatype Action<+E> = Push(event: E) | Next | Close

  function Initial<E>(): State<E> { State([], [], false, 0, map[], [], 0) }

  function AnswerAll<E>(answers: map<nat, Answer<E>>, waiters: seq<nat>): map<nat, Answer<E>>
    decreases |waiters|
  {
    if waiters == [] then answers else AnswerAll(answers[waiters[0] := Disconnected], waiters[1..])
  }

  function Apply<E>(s: State<E>, a: Action<E>): State<E> {
    match a
    case Push(event) =>
      if s.closed then s
      else if |s.waiters| > 0 then
        s.(waiters := s.waiters[1..], answers := s.answers[s.waiters[0] := Item(event)],
           accepted := s.accepted + [event])
      else s.(queue := s.queue + [event], accepted := s.accepted + [event])
    case Next =>
      if |s.queue| > 0 then
        s.(queue := s.queue[1..], answers := s.answers[s.calls := Item(s.queue[0])], calls := s.calls + 1)
      else if s.closed then s.(answers := s.answers[s.calls := Null], calls := s.calls + 1)
      else s.(waiters := s.waiters + [s.calls], calls := s.calls + 1)
    case Close =>
      s.(closed := true, waiters := [], answers := AnswerAll(s.answers, s.waiters),
         closedAfter := if s.closed then s.closedAfter else s.calls)
  }

  function Run<E>(actions: seq<Action<E>>): State<E> {
    if actions == [] then Initial() else Apply(Run(actions[..|actions| - 1]), actions[|actions| - 1])
  }

  /** The answer of the k-th call, as far as the accepted pushes and the close decide it. */
  function Due<E>(s: State<E>, k: nat): Option<Answer<E>> {
    if k < |s.accepted| then Some(Item(s.accepted[k]))
    else if !s.closed then None
    else if k < s.closedAfter then Some(Disconnected)
    else Some(Null)
  }

  function Min(a: nat, b: nat): nat { if a <= b then a else b }

  ghost predicate Linear<E>(s: State<E>) {
    && s.queue == s.accepted[Min(s.calls, |s.accepted|)..]
    && s.waiters == (if s.closed || s.calls <= |s.accepted| then []
                     else seq(s.calls - |s.accepted|, i requires i >= 0 => |s.accepted| + i))
    && (forall k :: k in s.answers ==> k < s.calls)
    && (forall k: nat :: k < s.calls ==>
          match Due(s, k)
          case None => k !in s.answers
          case Some(answer) => k in s.answers && s.answers[k] == answer)
    && (s.closed ==> s.closedAfter <= s.calls)
  }

  lemma {:induction false} AnswerAllMeans<E>(answers: map<nat, Answer<E>>, waiters: seq<nat>)
    ensures var r := AnswerAll(answers, waiters);
            && (forall k: nat :: k in r <==> k in answers || k in waiters)
            && (forall k: nat :: k in r ==> r[k] == if k in waiters then Disconnected else answers[k])
    decreases |waiters|
  {
    if waiters != [] {
      var r, first := AnswerAll(answers, waiters), answers[waiters[0] := Disconnected];
      assert r == AnswerAll(first, waiters[1..]);
      AnswerAllMeans(first, waiters[1..]);
      hide AnswerAll;
      assert forall k :: k in waiters <==> k == waiters[0] || k in waiters[1..];
      forall k: nat | k in r ensures r[k] == if k in waiters then Disconnected else answers[k] {
        assert r[k] == if k in waiters[1..] then Disconnected else first[k];
      }
    }
  }

  lemma PushLinear<E>(s: State<E>, event: E)
    requires Linear(s)
    ensures Linear(Apply(s, Push(event)))
  {
    var t := Apply(s, Push(event));
    if !s.closed && |s.waiters| > 0 {
      assert s.waiters[0] == |s.accepted|;
    }
  }

  lemma NextLinear<E>(s: State<E>)
    requires Linear(s)
    ensures Linear(Apply(s, Next))
  {
  }

  lemma CloseLinear<E>(s: State<E>)
    requires Linear(s)
    ensures Linear(Apply(s, Close))
  {
    AnswerAllMeans(s.answers, s.waiters);
    forall k: nat | k < s.calls ensures k in s.waiters <==> Due(s, k).None? {
      if Due(s, k).None? { assert s.waiters[k - |s.accepted|] == k; }
    }
  }

  lemma {:induction false} RunLinear<E>(actions: seq<Action<E>>)
    ensures Linear(Run(actions))
  {
    if actions != [] {
      var n := |actions| - 1;
      RunLinear(actions[..n]);
      hide Linear, Apply;
      match actions[n] {
        case Push(event) => PushLinear(Run(actions[..n]), event);
        case Next => NextLinear(Run(actions[..n]));
        case Close => CloseLinear(Run(actions[..n]));
      }
    }
  }

  /** Linearity: in every run, the k-th call of `next` is answered with the k-th accepted push as
      soon as there is one; otherwise it waits until the queue is closed, and is then told so, or,
      when it came after the close, gets null. */
  lemma KthAnswer<E>(actions: seq<Action<E>>, k: nat)
    requires k < Run(actions).calls
    ensures var s := Run(actions);
            match Due(s, k)
            case None => k !in s.answers && k in s.waiters
            case Some(answer) => k in s.answers && s.answers[k] == answer
  {
    RunLinear(actions);
    hide Run;
    var s := Run(actions);
    if Due(s, k).None? { assert s.waiters[k - |s.accepted|] == k; }
  }

  /** Events and consumers never wait at the same time, nothing accepted is lost, and a closed
      queue accepts nothing. */
  lemma BufferHoldsRest<E>(actions: seq<Action<E>>, event: E)
    ensures var s := Run(actions);
            && (s.queue == [] || s.waiters == [])
            && s.accepted == s.accepted[..Min(s.calls, |s.accepted|)] + s.queue
            && (s.closed ==> Apply(s, Push(event)) == s && s.waiters == [])
  {
    RunLinear(actions);
  }

  // ---------------------------------------------------------------- the async iterator

  /** Where the loop of the iterator stands: about to test `closed`, waiting for the answer to a call
      of `next`, or at its end. */
  datatype Phase = Testing | Awaiting(call: nat) | Ended

  /** A queue and one consumer that iterates over it; `yielded` is what the consumer was given. */
  datatype Iteration<+E> = Iteration(queue: State<E>, phase: Phase, yielded: seq<Answer<E>>)

  /** Pushes and the close come at any time; `Resume` lets the loop run to its next wait. */
  datatype Event<+E> = Pushed(event: E) | Closed | Resume

  function Iterate<E>(it: Iteration<E>, e: Event<E>): Iteration<E> {
    match e
    case Pushed(event) => it.(queue := Apply(it.queue, Push(event)))
    case Closed => it.(queue := Apply(it.queue, Close))
    case Resume =>
      match it.phase
      case Testing =>
        if it.queue.closed then it.(phase := Ended)
        else it.(queue := Apply(it.queue, Next), phase := Awaiting(it.queue.calls))
      case Awaiting(call) =>
        if call !in it.queue.answers then it
        else if it.queue.answers[call].Null? then it.(phase := Ended)
        else it.(phase := Testing, yielded := it.yielded + [it.queue.answers[call]])
      case Ended => it
  }

  function Iterated<E>(events: seq<Event<E>>): Iteration<E> {
    if events == [] then Iteration(Initial(), Testing, [])
    else Iterate(Iterated(events[..|events| - 1]), events[|events| - 1])
  }

  /** The answer to every call the consumer has made but the one it waits for. */
  ghost predicate Given<E>(it: Iteration<E>) {
    && Linear(it.queue)
    && |it.yielded| + (if it.phase.Awaiting? then 1 else 0) == it.queue.calls
    && (it.phase.Awaiting? ==> it.phase.call == |it.yielded|)
    && (it.phase.Ended? ==> it.queue.closed)
    && (it.queue.closed ==> it.queue.closedAfter == it.queue.calls)
    && it.queue.calls <= |it.queue.accepted| + 1
    && (!it.queue.closed || it.phase.Awaiting? ==> |it.yielded| <= |it.queue.accepted|)
    && (forall k :: 0 <= k < |it.yielded| ==>
          it.yielded[k] == if k < |it.queue.accepted| then Item(it.queue.accepted[k]) else Disconnected)
  }

  lemma IterateGiven<E>(it: Iteration<E>, e: Event<E>)
    requires Given(it)
    ensures Given(Iterate(it, e))
  {
    match e {
      case Pushed(event) => PushLinear(it.queue, event);
      case Closed => CloseLinear(it.queue);
      case Resume => NextLinear(it.queue);
    }
  }

  lemma {:induction false} IteratedGiven<E>(events: seq<Event<E>>)
    ensures Given(Iterated(events))
  {
    if events != [] {
      IteratedGiven(events[..|events| - 1]);
      hide Given, Iterate;
      IterateGiven(Iterated(events[..|events| - 1]), events[|events| - 1]);
    }
  }

  /** What an iterating consumer receives: in every run, the accepted events from the first on, one for
      each call of `next` it made before the close, and after them, if it was waiting when the queue
      was closed, the disconnect. Once it has ended, the events still buffered are lost to it: all
      accepted ones from its last call on. */
  lemma IteratorReceives<E>(events: seq<Event<E>>)
    ensures var it := Iterated(events);
            && |it.yielded| <= |it.queue.accepted| + 1
            && (forall k :: 0 <= k < |it.yielded| ==>
                  it.yielded[k] == if k < |it.queue.accepted| then Item(it.queue.accepted[k]) else Disconnected)
            && (it.phase.Ended? ==>
                  && it.queue.closed && |it.yielded| == it.queue.closedAfter
                  && it.queue.queue == it.queue.accepted[Min(|it.yielded|, |it.queue.accepted|)..])
  {
    IteratedGiven(events);
    hide Iterated;
  }

  class AsyncEventQueue<E> {
    var queue: seq<E>
    var waiters: seq<nat>
    var closed: bool
    var calls: nat
    var answers: map<nat, Answer<E>>
    ghost var accepted: seq<E>
    ghost var closedAfter: nat

    ghost function View(): State<E>
      reads this
    {
      State(queue, waiters, closed, calls, answers, accepted, closedAfter)
    }

    constructor ()
      ensures View() == Initial()
    {
      queue, waiters, closed, calls, answers := [], [], false, 0, map[];
      accepted, closedAfter := [], 0;
    }

    method PushEvent(event: E)
      modifies this
      ensures View() == Apply(old(View()), Push(event))
    {
      if closed { return; }
      accepted := accepted + [event];
      if |waiters| > 0 {
        var waiter := waiters[0];
        waiters := waiters[1..];
        answers := answers[waiter := Item(event)];
      } else {
        queue := queue + [event];
      }
    }

    /** Returns the number of the call; its answer is there already or comes later. */
    method NextEvent() returns (call: nat)
      modifies this
      ensures View() == Apply(old(View()), Next) && call == old(calls)
    {
      call := calls;
      calls := calls + 1;
      if |queue| > 0 {
        answers := answers[call := Item(queue[0])];
        queue := queue[1..];
      } else if closed {
        answers := answers[call := Null];
      } else {
        waiters := waiters + [call];
      }
    }

    method CloseQueue()
      modifies this
      ensures View() == Apply(old(View()), Close)
    {
      closedAfter := if closed then closedAfter else calls;
      closed := true;
      ghost var all := AnswerAll(answers, waiters);
      while |waiters| > 0
        invariant AnswerAll(answers, waiters) == all
        invariant View() ==
                  old(View()).(closed := true, closedAfter := if old(closed) then old(closedAfter) else old(calls),
                               waiters := waiters, answers := answers)
        decreases |waiters|
      {
        var waiter := waiters[0];
        waiters := waiters[1..];
        answers := answers[waiter := Disconnected];
      }
    }
  }
}
