/** The driver regulator: a counting semaphore on a mutex and a condition variable.

    A step is what one caller does while it holds the mutex. Waiting callers are woken in order; a
    woken caller has to get the mutex again and may find its place taken. */
module Regulator {
  import opened Wrappers

  type Caller = nat

  datatype State = State(available: nat, sleeping: seq<Caller>, woken: set<Caller>, inside: set<Caller>)

  datatype Step = Enter(c: Caller) | Retry(c: Caller) | Exit(c: Caller)

  function Start(limit: nat): State {
    State(limit, [], {}, {})
  }

  predicate Idle(s: State, c: Caller) {
    c !in s.sleeping && c !in s.woken && c !in s.inside
  }

  /** The guarded loop of `enter`, from its test on. */
  function TryEnter(s: State, c: Caller): State {
    if s.available == 0 then s.(sleeping := s.sleeping + [c])
    else s.(available := s.available - 1, inside := s.inside + {c})
  }

  /** A step; one that cannot be taken changes nothing. */
  function Do(s: State, a: Step): State {
    match a
    case Enter(c) => if Idle(s, c) then TryEnter(s, c) else s
    case Retry(c) => if c in s.woken then TryEnter(s.(woken := s.woken - {c}), c) else s
    case Exit(c) =>
      if c !in s.inside then s
      else
        var signalled := if s.sleeping == [] then s
          else s.(sleeping := s.sleeping[1..], woken := s.woken + {s.sleeping[0]});
        signalled.(available := s.available + 1, inside := s.inside - {c})
  }

  function Run(s: State, steps: seq<Step>): State
    decreases |steps|
  {
    if steps == [] then s else Run(Do(s, steps[0]), steps[1..])
  }

  ghost predicate Inv(s: State, limit: nat) {
    && s.available + |s.inside| == limit
    && s.woken !! s.inside
    && Distinct(s.sleeping)
    && (forall c :: c in s.sleeping ==> c !in s.woken && c !in s.inside)
    // a free place is matched by a woken caller as long as anyone sleeps
    && (s.sleeping != [] ==> s.available <= |s.woken|)
  }

  lemma TryEnterKeepsInv(s: State, c: Caller, limit: nat)
    requires s.available + |s.inside| == limit && s.woken !! s.inside && Distinct(s.sleeping)
    requires forall d :: d in s.sleeping ==> d !in s.woken && d !in s.inside
    requires Idle(s, c) && (s.sleeping != [] ==> s.available <= |s.woken| + 1)
    ensures Inv(TryEnter(s, c), limit)
  {
  }

  lemma ExitKeepsInv(s: State, c: Caller, limit: nat)
    requires Inv(s, limit) && c in s.inside
    ensures Inv(Do(s, Exit(c)), limit)
  {
    assert |s.inside - {c}| == |s.inside| - 1;
    if s.sleeping != [] {
      var first, rest := s.sleeping[0], s.sleeping[1..];
      assert first in s.sleeping;
      assert |s.woken + {first}| == |s.woken| + 1;
      forall d | d in rest ensures d in s.sleeping && d != first {
        var i :| 0 <= i < |rest| && rest[i] == d;
        assert s.sleeping[i + 1] == d;
      }
    }
  }

  lemma StepKeepsInv(s: State, a: Step, limit: nat)
    requires Inv(s, limit)
    ensures Inv(Do(s, a), limit)
  {
    match a
    case Enter(c) => if Idle(s, c) { TryEnterKeepsInv(s, c, limit); }
    case Retry(c) => if c in s.woken { TryEnterKeepsInv(s.(woken := s.woken - {c}), c, limit); }
    case Exit(c) => if c in s.inside { ExitKeepsInv(s, c, limit); }
  }

  lemma {:induction false} RunKeepsInv(s: State, steps: seq<Step>, limit: nat)
    requires Inv(s, limit)
    ensures Inv(Run(s, steps), limit)
    decreases |steps|
  {
    if steps == [] {
    } else {
      StepKeepsInv(s, steps[0], limit);
      RunKeepsInv(Do(s, steps[0]), steps[1..], limit);
    }
  }

  /** In every interleaving the free places and the callers inside add up to the limit, so there are
      never more callers inside than the limit. */
  lemma {:induction false} PlacesAreConserved(limit: nat, steps: seq<Step>)
    ensures var s := Run(Start(limit), steps); s.available + |s.inside| == limit && |s.inside| <= limit
  {
    RunKeepsInv(Start(limit), steps, limit);
  }

  /** No wake-up is lost: a caller sleeps without a woken one pending only when every place is taken. */
  lemma {:induction false} NoLostWakeUp(limit: nat, steps: seq<Step>)
    ensures var s := Run(Start(limit), steps);
      s.sleeping != [] && s.woken == {} ==> s.available == 0 && |s.inside| == limit
  {
    RunKeepsInv(Start(limit), steps, limit);
  }

  /** Nobody waits for ever on an idle regulator: with a positive limit, while a caller sleeps there is
      a woken caller or a caller inside; the exit of one inside wakes the first sleeper and frees a place
      for it. */
  lemma {:induction false} SleepersAreServed(limit: nat, steps: seq<Step>, c: Caller)
    requires limit > 0
    ensures var s := Run(Start(limit), steps);
      s.sleeping != [] ==>
        && (s.woken != {} || s.inside != {})
        && (c in s.inside ==>
              var s' := Do(s, Exit(c));
              s.sleeping[0] in s'.woken && s'.available > 0 &&
              s.sleeping[0] in Do(s', Retry(s.sleeping[0])).inside)
  {
    RunKeepsInv(Start(limit), steps, limit);
  }

  /** In every interleaving, a caller that enters or tries again is let in if and only if fewer callers are inside
      than the limit, and sleeps otherwise; one that exits is gone. */
  lemma {:induction false} AdmittedExactly(limit: nat, steps: seq<Step>, c: Caller)
    ensures
      var s := Run(Start(limit), steps);
      var entered, retried, left := Do(s, Enter(c)), Do(s, Retry(c)), Do(s, Exit(c));
      && (Idle(s, c) ==>
            && (c in entered.inside <==> |s.inside| < limit)
            && (c in entered.sleeping <==> |s.inside| == limit))
      && (c in s.woken ==>
            && (c in retried.inside <==> |s.inside| < limit)
            && (c in retried.sleeping <==> |s.inside| == limit))
      && (c in s.inside ==> Idle(left, c))
  {
    RunKeepsInv(Start(limit), steps, limit);
    var s := Run(Start(limit), steps);
    if c in s.inside && s.sleeping != [] { assert s.sleeping[0] in s.sleeping; }
  }

  /** A step moves no caller but its own: the others stay inside, or idle, or waiting, asleep or woken. */
  lemma {:induction false} OthersStay(limit: nat, steps: seq<Step>, a: Step, d: Caller)
    requires a.c != d
    ensures
      var s := Run(Start(limit), steps);
      var s' := Do(s, a);
      && (d in s'.inside <==> d in s.inside)
      && (d in s'.sleeping || d in s'.woken <==> d in s.sleeping || d in s.woken)
      && (d in s'.sleeping ==> d in s.sleeping)
  {
    RunKeepsInv(Start(limit), steps, limit);
    var s := Run(Start(limit), steps);
    if a.Exit? && s.sleeping != [] {
      assert s.sleeping == [s.sleeping[0]] + s.sleeping[1..];
    }
  }
}
