/** The event queue: writers and closers that hold the mutex for the whole of their call, and one run
    loop that takes an event under the mutex and hands it to the sink outside of it.

    A step is what one goroutine does between taking the mutex and giving it up, or one hand-over. The
    condition variable keeps its waiters in order; a signal wakes the first, a broadcast wakes all,
    and a wake-up with no waiter is lost. */
module EventQueue {
  import opened Wrappers

  datatype Runner<E> = Ready | Asleep | Woken | Delivering(event: E) | Finished
  datatype Closer = NotCalled | Waiting | Awake | Returned
  datatype Who = TheRunner | TheCloser

  /** `accepted` and `handed` record what writers were promised and what the sink was given. */
  datatype Queue<E> = Queue(events: seq<E>, closed: bool, waiters: seq<Who>, runner: Runner<E>, closer: Closer,
                            accepted: seq<E>, handed: seq<E>, sinkClosed: bool)

  datatype Step<E> = Write(event: E) | Close | Next | Deliver | FinishClose

  function Start<E>(): Queue<E> {
    Queue([], false, [], Ready, NotCalled, [], [], false)
  }

  function Wake<E>(q: Queue<E>, who: Who): Queue<E> {
    match who
    case TheRunner => q.(runner := Woken)
    case TheCloser => q.(closer := Awake)
  }

  function Signal<E>(q: Queue<E>): Queue<E> {
    if q.waiters == [] then q else Wake(q, q.waiters[0]).(waiters := q.waiters[1..])
  }

  function WakeAll<E>(q: Queue<E>, ws: seq<Who>): Queue<E>
    decreases |ws|
  {
    if ws == [] then q else WakeAll(Wake(q, ws[0]), ws[1..])
  }

  function Broadcast<E>(q: Queue<E>): Queue<E> {
    WakeAll(q, q.waiters).(waiters := [])
  }

  /** A step; one that cannot be taken, or that is refused, changes nothing. */
  function Do<E>(q: Queue<E>, s: Step<E>): Queue<E> {
    match s
    case Write(e) =>
      if q.closed then q else Signal(q.(events := q.events + [e], accepted := q.accepted + [e]))
    case Close =>
      if q.closed then q
      else var q' := Signal(q.(closed := true)); q'.(closer := Waiting, waiters := q'.waiters + [TheCloser])
    case Next =>
      if !q.runner.Ready? && !q.runner.Woken? then q
      else if q.events != [] then q.(runner := Delivering(q.events[0]), events := q.events[1..])
      else if q.closed then Broadcast(q).(runner := Finished)
      else q.(runner := Asleep, waiters := q.waiters + [TheRunner])
    case Deliver =>
      if !q.runner.Delivering? then q else q.(handed := q.handed + [q.runner.event], runner := Ready)
    case FinishClose =>
      if !q.closer.Awake? then q else q.(closer := Returned, sinkClosed := true)
  }

  function Run<E>(q: Queue<E>, steps: seq<Step<E>>): Queue<E>
    decreases |steps|
  {
    if steps == [] then q else Run(Do(q, steps[0]), steps[1..])
  }

  // ---------------------------------------------------------------------------------------------
  // The invariant

  function InFlight<E>(q: Queue<E>): seq<E> {
    if q.runner.Delivering? then [q.runner.event] else []
  }

  ghost predicate Inv<E>(q: Queue<E>) {
    && q.accepted == q.handed + InFlight(q) + q.events
    && q.waiters == (if q.runner.Asleep? then [TheRunner] else []) + (if q.closer.Waiting? then [TheCloser] else [])
    && (q.runner.Asleep? ==> q.events == [] && !q.closed)
    && (q.closed <==> !q.closer.NotCalled?)
    && (q.runner.Finished? ==> q.closed && q.events == [] && !q.closer.Waiting?)
    && (q.closer.Awake? || q.closer.Returned? ==> q.runner.Finished?)
    && (q.sinkClosed <==> q.closer.Returned?)
  }

  lemma NextKeepsInv<E>(q: Queue<E>)
    requires Inv(q)
    ensures Inv(Do(q, Next))
  {
    if q.events == [] && q.closed {
      if q.closer.Waiting? {
        assert q.waiters == [TheCloser] && q.waiters[1..] == [];
        assert WakeAll(q, q.waiters) == WakeAll(Wake(q, TheCloser), []);
      } else {
        assert q.waiters == [];
      }
    } else if q.events != [] {
      assert q.handed + [] + q.events == q.handed + [q.events[0]] + q.events[1..];
    }
  }

  lemma WriteKeepsInv<E>(q: Queue<E>, e: E)
    requires Inv(q)
    ensures Inv(Do(q, Write(e)))
  {
    assert q.handed + InFlight(q) + q.events + [e] == q.handed + InFlight(q) + (q.events + [e]);
    assert q.runner.Asleep? && !q.closed ==> q.waiters == [TheRunner] && q.waiters[1..] == [];
  }

  lemma StepKeepsInv<E>(q: Queue<E>, s: Step<E>)
    requires Inv(q)
    ensures Inv(Do(q, s))
  {
    match s
    case Write(e) => WriteKeepsInv(q, e);
    case Next => NextKeepsInv(q);
    case Deliver =>
      if q.runner.Delivering? {
        assert q.handed + [q.runner.event] + [] + q.events == q.handed + [q.runner.event] + q.events;
      }
    case _ =>
  }

  lemma {:induction false} RunKeepsInv<E>(q: Queue<E>, steps: seq<Step<E>>)
    requires Inv(q)
    ensures Inv(Run(q, steps))
    decreases |steps|
  {
    if steps == [] {
    } else {
      StepKeepsInv(q, steps[0]);
      RunKeepsInv(Do(q, steps[0]), steps[1..]);
    }
  }

  // ---------------------------------------------------------------------------------------------
  // Main results

  /** Conservation, in every interleaving: what was accepted is what was handed over, the event in
      flight, and what is queued, in order. And no wake-up is lost: a sleeping run loop has nothing to
      do. */
  lemma {:induction false} EventsAreConserved<E>(steps: seq<Step<E>>)
    ensures var q := Run(Start<E>(), steps);
      && q.accepted == q.handed + InFlight(q) + q.events
      && (q.runner.Asleep? ==> q.events == [] && !q.closed)
  {
    RunKeepsInv(Start<E>(), steps);
  }

  /** The events of the writes that come before the first close. */
  function WritesBeforeClose<E>(steps: seq<Step<E>>): seq<E>
    decreases |steps|
  {
    if steps == [] || steps[0].Close? then []
    else (if steps[0].Write? then [steps[0].event] else []) + WritesBeforeClose(steps[1..])
  }

  /** Exactly the writes before the first close are accepted, in their order. */
  lemma {:induction false} AcceptedAreWrites<E>(q: Queue<E>, steps: seq<Step<E>>)
    ensures Run(q, steps).accepted == q.accepted + if q.closed then [] else WritesBeforeClose(steps)
    decreases |steps|
  {
    if steps == [] {
    } else {
      var next := Do(q, steps[0]);
      OneStepAccepts(q, steps[0]);
      AcceptedAreWrites(next, steps[1..]);
      AcceptedTogether(q.accepted, next.accepted, q.closed, next.closed, steps, Run(next, steps[1..]).accepted);
    }
  }

  lemma {:induction false} AcceptedTogether<E>(so: seq<E>, now: seq<E>, wasClosed: bool, closed: bool,
          steps: seq<Step<E>>, all: seq<E>)
    requires steps != [] && now == so + if steps[0].Write? && !wasClosed then [steps[0].event] else []
    requires closed == (wasClosed || steps[0].Close?)
    requires all == now + if closed then [] else WritesBeforeClose(steps[1..])
    ensures all == so + if wasClosed then [] else WritesBeforeClose(steps)
  {
    var one := if steps[0].Write? && !wasClosed then [steps[0].event] else [];
    var rest := if closed then [] else WritesBeforeClose(steps[1..]);
    Associate(so, one, rest);
    assert (if wasClosed then [] else WritesBeforeClose(steps)) == one + rest;
  }

  lemma {:induction false} OneStepAccepts<E>(q: Queue<E>, s: Step<E>)
    ensures Do(q, s).accepted == q.accepted + if s.Write? && !q.closed then [s.event] else []
    ensures Do(q, s).closed == (q.closed || s.Close?)
  {
    if s.Next? { WakingKeeps(q, q.waiters); }
  }

  lemma {:induction false} WakingKeeps<E>(q: Queue<E>, ws: seq<Who>)
    ensures WakeAll(q, ws).accepted == q.accepted && WakeAll(q, ws).closed == q.closed
    decreases |ws|
  {
    if ws == [] {
    } else {
      WakingKeeps(Wake(q, ws[0]), ws[1..]);
    }
  }

  /** The sink is closed only after every accepted event was handed over, and from then on nothing is
      accepted or handed over, whatever is tried. */
  lemma {:induction false} ClosedSinkHasEverything<E>(steps: seq<Step<E>>, later: seq<Step<E>>)
    ensures var q := Run(Start<E>(), steps);
      q.sinkClosed ==>
        && q.handed == q.accepted == WritesBeforeClose(steps)
        && var q' := Run(q, later); q'.handed == q.handed && q'.accepted == q.accepted && q'.sinkClosed
  {
    RunKeepsInv(Start<E>(), steps);
    AcceptedAreWrites(Start<E>(), steps);
    var q := Run(Start<E>(), steps);
    if q.sinkClosed { ClosedForGood(q, later); }
  }

  lemma {:induction false} ClosedForGood<E>(q: Queue<E>, later: seq<Step<E>>)
    requires Inv(q) && q.sinkClosed
    ensures Run(q, later) == q
    decreases |later|
  {
    if later == [] {
    } else {
      assert Do(q, later[0]) == q;
      ClosedForGood(q, later[1..]);
    }
  }

  /** The steps the run loop still has to take before it wakes a waiting closer. */
  function Remaining<E>(q: Queue<E>): nat {
    2 * |q.events| + if q.runner.Delivering? then 2 else 1
  }

  /** The run loop's next step, whatever it waits for. */
  function RunnerStep<E>(q: Queue<E>): Step<E> {
    if q.runner.Delivering? then Deliver else Next
  }

  /** While anything is queued, open or closed, the loop's next two steps hand the first event over. */
  lemma NextIsHandedOver<E>(q: Queue<E>)
    requires Inv(q) && q.events != [] && !q.runner.Delivering?
    ensures Do(Do(q, Next), Deliver).handed == q.handed + [q.events[0]]
  {
  }

  /** How many of the given steps are the run loop's own. */
  function Turns<E(==)>(q: Queue<E>, steps: seq<Step<E>>): nat
    decreases |steps|
  {
    if steps == [] then 0
    else (if steps[0] == RunnerStep(q) then 1 else 0) + Turns(Do(q, steps[0]), steps[1..])
  }

  /** How many of its own steps the loop needs to hand over the first `n` accepted events. */
  function Owed<E>(q: Queue<E>, n: nat): nat {
    if n <= |q.handed| then 0 else 2 * (n - |q.handed|) - if q.runner.Delivering? then 1 else 0
  }

  lemma StepPays<E>(q: Queue<E>, s: Step<E>, n: nat)
    requires Inv(q) && n <= |q.accepted|
    ensures var q' := Do(q, s);
      && q.accepted <= q'.accepted
      && Owed(q', n) <= Owed(q, n)
      && (s == RunnerStep(q) && Owed(q, n) > 0 ==> Owed(q', n) == Owed(q, n) - 1)
  {
    OneStepAccepts(q, s);
    if s.Next? { WakingHands(q, q.waiters); }
  }

  lemma {:induction false} WakingHands<E>(q: Queue<E>, ws: seq<Who>)
    ensures WakeAll(q, ws).handed == q.handed
    decreases |ws|
  {
    if ws == [] {
    } else {
      WakingHands(Wake(q, ws[0]), ws[1..]);
    }
  }

  /** Delivery: in every interleaving, with the queue open or closed, the events accepted so far have been handed
      over, in order, once the loop has taken the steps it owes them. */
  lemma {:induction false} AcceptedAreHandedOver<E>(q: Queue<E>, steps: seq<Step<E>>, n: nat)
    requires Inv(q) && n <= |q.accepted| && Owed(q, n) <= Turns(q, steps)
    ensures q.accepted[..n] <= Run(q, steps).handed
    decreases |steps|
  {
    if steps == [] {
      assert q.accepted == q.handed + (InFlight(q) + q.events);
    } else {
      var q' := Do(q, steps[0]);
      StepKeepsInv(q, steps[0]);
      StepPays(q, steps[0], n);
      AcceptedAreHandedOver(q', steps[1..], n);
      assert q'.accepted[..n] == q.accepted[..n];
    }
  }

  function Drain<E>(q: Queue<E>, n: nat): Queue<E>
    decreases n
  {
    if n == 0 then q else Drain(Do(q, RunnerStep(q)), n - 1)
  }

  /** So from any reachable queue the loop alone hands over everything accepted, in two steps an event. */
  lemma {:induction false} DrainHandsOver<E>(before: seq<Step<E>>)
    ensures var q := Run(Start<E>(), before);
      Drain(q, Owed(q, |q.accepted|)).handed == q.accepted
  {
    var q := Run(Start<E>(), before);
    RunKeepsInv(Start<E>(), before);
    DrainPays(q, Owed(q, |q.accepted|));
  }

  lemma {:induction false} DrainPays<E>(q: Queue<E>, k: nat)
    requires Inv(q) && k == Owed(q, |q.accepted|)
    ensures Drain(q, k).handed == q.accepted
    decreases k
  {
    if k == 0 {
      assert q.accepted == q.handed + (InFlight(q) + q.events);
    } else {
      var q' := Do(q, RunnerStep(q));
      StepKeepsInv(q, RunnerStep(q));
      StepPays(q, RunnerStep(q), |q.accepted|);
      OneStepAccepts(q, RunnerStep(q));
      assert q'.accepted == q.accepted;
      DrainPays(q', k - 1);
    }
  }

  /** While a closer waits, the run loop is never stuck: its next step brings the end one step nearer or
      is the end, and no step of anyone else pushes it away. */
  lemma WaitingCloseAdvances<E>(q: Queue<E>, s: Step<E>)
    requires Inv(q) && q.closer.Waiting?
    ensures var q' := Do(q, s);
      if s != RunnerStep(q) then q' == q
      else if Remaining(q) > 1 then q'.closer.Waiting? && Remaining(q') == Remaining(q) - 1
      else q'.closer.Awake? && q'.handed == q'.accepted == q.accepted
  {
    if s == RunnerStep(q) && Remaining(q) == 1 {
      assert q.waiters == [TheCloser] && q.waiters[1..] == [];
      assert WakeAll(q, q.waiters) == WakeAll(Wake(q, TheCloser), []);
      assert q.handed + [] + [] == q.handed;
    }
  }

  /** So a waiting close completes: the run loop's next `Remaining` steps wake it, with every accepted
      event handed over. */
  lemma {:induction false} CloseCompletes<E>(q: Queue<E>)
    requires Inv(q) && q.closer.Waiting?
    ensures var q' := Do(Drain(q, Remaining(q)), FinishClose);
      q'.sinkClosed && q'.handed == q.accepted
    decreases Remaining(q)
  {
    WaitingCloseAdvances(q, RunnerStep(q));
    var q1 := Do(q, RunnerStep(q));
    if Remaining(q) > 1 {
      StepKeepsInv(q, RunnerStep(q));
      CloseCompletes(q1);
      assert q1.accepted == q.accepted;
    } else {
      assert Drain(q1, 0) == q1;
    }
  }
}
