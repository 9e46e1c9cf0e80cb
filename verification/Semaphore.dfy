/** The counting semaphore that bounds concurrent updates, as steps of any number of client threads.
    Each step is what happens under one hold of the mutex. */
module Semaphore {

  /** Outside; parked on the condition variable; woken but not yet holding the mutex again; holding a guard. */
  datatype Phase = Outside | Parked | Woken | Inside

  datatype Sem = Sem(counter: nat, max: nat, phases: seq<Phase>)

  ghost predicate Init(s: Sem, max: nat) {
    s.counter == 0 && s.max == max && forall t :: 0 <= t < |s.phases| ==> s.phases[t] == Outside
  }

  predicate Wants(s: Sem, t: nat) { t < |s.phases| && (s.phases[t] == Outside || s.phases[t] == Woken) }

  /** acquire, when a permit is free. */
  ghost predicate Enter(s: Sem, n: Sem, t: nat) {
    Wants(s, t) && s.counter < s.max && n == s.(counter := s.counter + 1, phases := s.phases[t := Inside])
  }

  /** acquire, when none is: wait, releasing the mutex. */
  ghost predicate Park(s: Sem, n: Sem, t: nat) {
    Wants(s, t) && s.counter >= s.max && n == s.(phases := s.phases[t := Parked])
  }

  /** A condition variable may wake a waiter for no reason. */
  ghost predicate Spurious(s: Sem, n: Sem, t: nat) {
    t < |s.phases| && s.phases[t] == Parked && n == s.(phases := s.phases[t := Woken])
  }

  function SaturatingDecrement(k: nat): nat { if k > 0 then k - 1 else 0 }

  /** release: give the permit back and notify one waiter, if there is one. */
  ghost predicate Leave(s: Sem, n: Sem, t: nat) {
    t < |s.phases| && s.phases[t] == Inside &&
    var left := s.phases[t := Outside];
    && n.counter == SaturatingDecrement(s.counter) && n.max == s.max
    && (n.phases == left || exists u :: Wakes(left, n.phases, u))
    && (n.phases == left ==> forall u :: 0 <= u < |left| ==> left[u] != Parked)
  }

  ghost predicate Wakes(left: seq<Phase>, phases: seq<Phase>, u: nat) {
    u < |left| && left[u] == Parked && phases == left[u := Woken]
  }

  ghost predicate Step(s: Sem, n: Sem) {
    exists t: nat :: Enter(s, n, t) || Park(s, n, t) || Spurious(s, n, t) || Leave(s, n, t)
  }

  /** A run: a sequence of states, each reached from the one before by a step. */
  ghost predicate Run(states: seq<Sem>, max: nat) {
    && states != [] && Init(states[0], max)
    && forall k :: 0 <= k < |states| - 1 ==> Step(states[k], states[k + 1])
  }

  ghost function Count(phases: seq<Phase>, p: Phase): nat {
    if phases == [] then 0 else (if phases[0] == p then 1 else 0) + Count(phases[1..], p)
  }

  lemma {:induction false} CountUpdate(phases: seq<Phase>, t: nat, q: Phase, p: Phase)
    requires t < |phases|
    ensures Count(phases[t := q], p) == Count(phases, p) - (if phases[t] == p then 1 else 0) + (if q == p then 1 else 0)
  {
    if t > 0 {
      assert phases[t := q][1..] == phases[1..][t - 1 := q];
      CountUpdate(phases[1..], t - 1, q, p);
    } else {
      assert phases[0 := q][1..] == phases[1..];
    }
  }

  lemma {:induction false} CountPositive(phases: seq<Phase>, p: Phase)
    ensures Count(phases, p) > 0 <==> exists t :: 0 <= t < |phases| && phases[t] == p
  {
    if phases != [] {
      CountPositive(phases[1..], p);
      if t :| 0 <= t < |phases| && phases[t] == p {
        if t > 0 { assert phases[1..][t - 1] == p; }
      }
      if Count(phases[1..], p) > 0 {
        var t :| 0 <= t < |phases[1..]| && phases[1..][t] == p;
        assert phases[t + 1] == p;
      }
    }
  }

  /** The counter counts the live guards and never exceeds max; and while anyone is parked, the
      permits handed out and the wakeups on their way together make up max. */
  ghost predicate Inv(s: Sem) {
    && s.counter == Count(s.phases, Inside)
    && s.counter <= s.max
    && (Count(s.phases, Parked) > 0 ==> s.counter + Count(s.phases, Woken) >= s.max)
  }

  lemma {:induction false} InitInv(s: Sem, max: nat)
    requires Init(s, max)
    ensures Inv(s)
  {
    CountPositive(s.phases, Inside);
    CountPositive(s.phases, Parked);
  }

  lemma MoveCounts(phases: seq<Phase>, t: nat, q: Phase)
    requires t < |phases|
    ensures forall p :: Count(phases[t := q], p)
                     == Count(phases, p) - (if phases[t] == p then 1 else 0) + (if q == p then 1 else 0)
  {
    forall p ensures Count(phases[t := q], p)
                  == Count(phases, p) - (if phases[t] == p then 1 else 0) + (if q == p then 1 else 0)
    {
      CountUpdate(phases, t, q, p);
    }
  }

  lemma StepInv(s: Sem, n: Sem)
    requires Inv(s) && Step(s, n)
    ensures Inv(n) && n.max == s.max && |n.phases| == |s.phases|
  {
    var t: nat :| Enter(s, n, t) || Park(s, n, t) || Spurious(s, n, t) || Leave(s, n, t);
    if Leave(s, n, t) {
      LeaveInv(s, n, t);
    } else {
      MoveCounts(s.phases, t, n.phases[t]);
    }
  }

  lemma LeaveInv(s: Sem, n: Sem, t: nat)
    requires Inv(s) && Leave(s, n, t)
    ensures Inv(n)
  {
    var left := s.phases[t := Outside];
    MoveCounts(s.phases, t, Outside);
    CountPositive(left, Parked);
    if n.phases != left {
      var u :| Wakes(left, n.phases, u);
      MoveCounts(left, u, Woken);
    }
  }

  /** In every reachable state: the counter equals the live guards, at most max of them, and no wakeup is lost. */
  lemma {:induction false} Reachable(states: seq<Sem>, max: nat)
    requires Run(states, max)
    ensures Inv(states[|states| - 1]) && states[|states| - 1].max == max
  {
    var k := |states| - 1;
    if k == 0 {
      InitInv(states[0], max);
    } else {
      var before := states[..k];
      forall i | 0 <= i < |before| - 1 ensures Step(before[i], before[i + 1]) {
        assert Step(states[i], states[i + 1]);
      }
      Reachable(before, max);
      assert Step(states[k - 1], states[k]);
      StepInv(states[k - 1], states[k]);
    }
  }

  /** A parked thread is never abandoned: somebody holds a guard and will notify on release, or a
      woken thread can take a free permit at once. */
  lemma NobodyStranded(s: Sem)
    requires Inv(s) && s.max > 0 && exists t :: 0 <= t < |s.phases| && s.phases[t] == Parked
    ensures exists u :: 0 <= u < |s.phases| &&
              (s.phases[u] == Inside || (s.phases[u] == Woken && s.counter < s.max))
  {
    CountPositive(s.phases, Parked);
    CountPositive(s.phases, Inside);
    CountPositive(s.phases, Woken);
    if s.counter == 0 {
      var u :| 0 <= u < |s.phases| && s.phases[u] == Woken;
    } else {
      var u :| 0 <= u < |s.phases| && s.phases[u] == Inside;
    }
  }
}
