/** What a single call of the singleton's class comes to: with nobody else under way, and when it raises. */
module SingletonCalls {
  import opened Common
  import opened Singleton

  /** Every thread but t stands outside a call. */
  ghost predicate Alone(s: Sys, t: nat) {
    forall u :: 0 <= u < |s.pcs| && u != t ==> s.pcs[u] == Start || Over(s.pcs[u])
  }

  lemma Extend(states: seq<Sys>, k: Strategy, t: nat, pcs: seq<Pc>, pc: Pc, fails: bool) returns (more: seq<Sys>)
    requires Run(states, k) && t < |pcs| && states[|states| - 1].pcs == pcs[t := pc]
    ensures more != [] && states <= more && Run(more, k)
    ensures var (shared, next) := Move(states[|states| - 1].shared, k, t, pc, fails);
            more[|more| - 1] == Sys(shared, pcs[t := next])
  {
    hide Init, Move;
    var s := states[|states| - 1];
    var (shared, next) := Move(s.shared, k, t, pc, fails);
    assert pcs[t := pc][t := next] == pcs[t := next];
    var n := Sys(shared, pcs[t := next]);
    more := states + [n];
    assert StepOf(s, n, k, t, fails);
    forall i | 0 <= i < |more| - 1 ensures Step(more[i], more[i + 1], k) {
      assert i < |states| - 1 ==> Step(states[i], states[i + 1], k);
    }
  }

  /** With nobody under way all locks are free and nothing is being initialised. */
  lemma NothingHeld(s: Sys, k: Strategy, t: nat)
    requires Inv(s, k) && Alone(s, t) && t < |s.pcs| && s.pcs[t] == Start
    ensures s.shared.instOwner == None && s.shared.instDepth == 0 && s.shared.classOwner == None
    ensures !s.shared.initializing
  {
    assert forall u :: 0 <= u < |s.pcs| ==> s.pcs[u] == Start || Over(s.pcs[u]);
  }

  /** A call that runs alone returns the published object; where there is none it constructs one, publishes it and
      returns it, and if the constructor raises, the call raises and leaves everything as it was. */
  lemma LoneCall(states: seq<Sys>, k: Strategy, t: nat, fails: bool) returns (more: seq<Sys>)
    requires Run(states, k) && t < |states[|states| - 1].pcs|
    requires states[|states| - 1].pcs[t] == Start && Alone(states[|states| - 1], t)
    ensures more != [] && states <= more && Run(more, k)
    ensures var s, n := states[|states| - 1], more[|more| - 1];
            if s.shared.instances.Some? then n == Sys(s.shared, s.pcs[t := Returned(s.shared.instances.value)])
            else if fails then n == Sys(s.shared, s.pcs[t := Raised])
            else
              var o := s.shared.created + 1;
              n == Sys(s.shared.(instances := Some(o), initialized := true, created := o), s.pcs[t := Returned(o)])
  {
    Reachable(states, k);
    var s := states[|states| - 1];
    NothingHeld(s, k, t);
    assert s.pcs[t := Start] == s.pcs;
    hide Run, Alone, Inv;
    more := Extend(states, k, t, s.pcs, Start, false);
    if s.shared.instances.None? {
      more := LoneCreation(more, k, t, s, fails);
    } else {
      more := Extend(more, k, t, s.pcs, Fast, false);
      if s.shared.initialized {
        more := Extend(more, k, t, s.pcs, FastRead, false);
      } else {
        more := FindPublished(more, k, t, s);
      }
    }
  }

  lemma LoneCreation(states: seq<Sys>, k: Strategy, t: nat, s: Sys, fails: bool) returns (more: seq<Sys>)
    requires Run(states, k) && t < |s.pcs| && Unlocked(s.shared) && s.shared.instances.None?
    requires states[|states| - 1] == Sys(s.shared, s.pcs[t := Slow])
    ensures more != [] && states <= more && Run(more, k)
    ensures var o := s.shared.created + 1;
            more[|more| - 1] == if fails then Sys(s.shared, s.pcs[t := Raised])
                                else Sys(s.shared.(instances := Some(o), initialized := true, created := o),
                                         s.pcs[t := Returned(o)])
  {
    hide Run;
    var entered := Entered(s.shared, k, t);
    more := EnterCreation(states, k, t, s);
    more := Construct(more, k, t, s.pcs, entered, fails);
    if fails {
      more := Extend(more, k, t, s.pcs, Unwind, false);
    } else {
      more := PublishAndReturn(more, k, t, s, entered);
    }
  }

  /** The tables as seen inside the strategy's lock. */
  function Entered(s: Shared, k: Strategy, t: nat): Shared {
    match k
    case LOCK => TakeInst(s, t)
    case DOUBLE_CHECKED => TakeInst(s, t)
    case CLASS_LOCK => s.(classOwner := Some(t))
    case NO_LOCK => s
  }

  ghost predicate Unlocked(s: Shared) {
    s.instOwner == None && s.instDepth == 0 && s.classOwner == None && !s.initializing
  }

  lemma FindPublished(states: seq<Sys>, k: Strategy, t: nat, s: Sys) returns (more: seq<Sys>)
    requires Run(states, k) && t < |s.pcs| && Unlocked(s.shared) && s.shared.instances.Some?
    requires states[|states| - 1] == Sys(s.shared, s.pcs[t := Slow])
    ensures more != [] && states <= more && Run(more, k)
    ensures more[|more| - 1] == Sys(s.shared, s.pcs[t := Returned(s.shared.instances.value)])
  {
    hide Run;
    more := Extend(states, k, t, s.pcs, Slow, false);
    if k == LOCK || k == CLASS_LOCK {
      more := Extend(more, k, t, s.pcs, Check, false);
      more := ReturnPublished(more, k, t, s.pcs, s.shared, s.shared.instances.value);
    } else {
      more := Extend(more, k, t, s.pcs, FinalRead, false);
    }
  }

  lemma EnterCreation(states: seq<Sys>, k: Strategy, t: nat, s: Sys) returns (more: seq<Sys>)
    requires Run(states, k) && t < |s.pcs| && Unlocked(s.shared) && s.shared.instances.None?
    requires states[|states| - 1] == Sys(s.shared, s.pcs[t := Slow])
    ensures more != [] && states <= more && Run(more, k)
    ensures more[|more| - 1] == Sys(Entered(s.shared, k, t), s.pcs[t := Create])
  {
    hide Run;
    more := Extend(states, k, t, s.pcs, Slow, false);
    if k == DOUBLE_CHECKED {
      more := Extend(more, k, t, s.pcs, WantLock, false);
    }
    if k != NO_LOCK {
      more := Extend(more, k, t, s.pcs, Check, false);
      more := Extend(more, k, t, s.pcs, Abstract, false);
    }
  }

  lemma Construct(states: seq<Sys>, k: Strategy, t: nat, pcs: seq<Pc>, shared: Shared, fails: bool)
    returns (more: seq<Sys>)
    requires Run(states, k) && t < |pcs| && states[|states| - 1] == Sys(shared, pcs[t := Create])
    requires InstFree(shared, t) && !shared.initializing
    requires shared.instDepth == 0 <==> shared.instOwner == None
    ensures more != [] && states <= more && Run(more, k)
    ensures var o := shared.created + 1;
            more[|more| - 1] == if fails then Sys(shared, pcs[t := Unwind])
                                else Sys(shared.(initialized := true, created := o), pcs[t := Publish(o)])
  {
    hide Run;
    more := Extend(states, k, t, pcs, Create, false);
    more := Extend(more, k, t, pcs, Test, false);
    more := Extend(more, k, t, pcs, SetInitializing, false);
    more := Extend(more, k, t, pcs, Build, fails);
    var made := if fails then None else Some(shared.created + 1);
    if !fails {
      more := Extend(more, k, t, pcs, Built(shared.created + 1), false);
    }
    more := LeaveConstruction(more, k, t, pcs, shared, made);
  }

  lemma LeaveConstruction(states: seq<Sys>, k: Strategy, t: nat, pcs: seq<Pc>, shared: Shared, made: Option<nat>)
    returns (more: seq<Sys>)
    requires Run(states, k) && t < |pcs| && InstFree(shared, t) && !shared.initializing
    requires shared.instDepth == 0 <==> shared.instOwner == None
    requires states[|states| - 1]
          == Sys(TakeInst(if made.None? then shared else shared.(initialized := true, created := made.value), t).(initializing := true),
                 pcs[t := Finally(made)])
    ensures more != [] && states <= more && Run(more, k)
    ensures more[|more| - 1]
         == if made.None? then Sys(shared, pcs[t := Unwind])
            else Sys(shared.(initialized := true, created := made.value), pcs[t := Publish(made.value)])
  {
    hide Run;
    more := Extend(states, k, t, pcs, Finally(made), false);
    more := Extend(more, k, t, pcs, LeaveCreate(made), false);
  }

  lemma PublishAndReturn(states: seq<Sys>, k: Strategy, t: nat, s: Sys, entered: Shared) returns (more: seq<Sys>)
    requires Run(states, k) && t < |s.pcs| && Unlocked(s.shared) && s.shared.instances.None?
    requires entered == Entered(s.shared, k, t)
    requires var o := s.shared.created + 1;
             states[|states| - 1] == Sys(entered.(initialized := true, created := o), s.pcs[t := Publish(o)])
    ensures more != [] && states <= more && Run(more, k)
    ensures var o := s.shared.created + 1;
            more[|more| - 1]
            == Sys(s.shared.(instances := Some(o), initialized := true, created := o), s.pcs[t := Returned(o)])
  {
    hide Run;
    var o := s.shared.created + 1;
    var done := s.shared.(instances := Some(o), initialized := true, created := o);
    more := Extend(states, k, t, s.pcs, Publish(o), false);
    if k != NO_LOCK {
      more := ReturnPublished(more, k, t, s.pcs, done, o);
    }
  }

  lemma ReturnPublished(states: seq<Sys>, k: Strategy, t: nat, pcs: seq<Pc>, done: Shared, o: nat)
    returns (more: seq<Sys>)
    requires Run(states, k) && t < |pcs| && Unlocked(done) && done.instances == Some(o) && k != NO_LOCK
    requires states[|states| - 1]
          == Sys(Entered(done, k, t), pcs[t := if k == DOUBLE_CHECKED then UnlockThenRead else ReadLocked])
    ensures more != [] && states <= more && Run(more, k)
    ensures more[|more| - 1] == Sys(done, pcs[t := Returned(o)])
  {
    hide Run;
    if k == DOUBLE_CHECKED {
      more := Extend(states, k, t, pcs, UnlockThenRead, false);
      more := Extend(more, k, t, pcs, FinalRead, false);
    } else {
      more := Extend(states, k, t, pcs, ReadLocked, false);
      more := Extend(more, k, t, pcs, Unlock(Some(o)), false);
    }
  }

  /** The call is on its way to raise, or has raised. */
  predicate Failing(pc: Pc) {
    pc == Unwind || pc == Finally(None) || pc == LeaveCreate(None) || pc == Raised
  }

  ghost predicate FailedAt(states: seq<Sys>, k: Strategy, i: int, t: nat) {
    0 <= i < |states| - 1 && t < |states[i].pcs| && (states[i].pcs[t] == Abstract || states[i].pcs[t] == Build) &&
    StepOf(states[i], states[i + 1], k, t, true)
  }

  lemma StartsFailing(s: Sys, n: Sys, k: Strategy, t: nat, u: nat, fails: bool)
    requires Inv(s, k) && StepOf(s, n, k, u, fails) && t < |s.pcs| && !Failing(s.pcs[t]) && Failing(n.pcs[t])
    ensures u == t && fails && (s.pcs[t] == Abstract || s.pcs[t] == Build)
  {
    assert u == t && ThreadOk(s.shared, k, s.pcs[t]);
    if s.pcs[t].Test? { NotInitializing(s, k, t); }
    hide LocksOk, AloneOk, Inv;
  }

  /** A call raises only if its own check for abstract methods or its own constructor did. */
  lemma {:induction false} RaisesForItself(states: seq<Sys>, k: Strategy, t: nat) returns (i: nat)
    requires Run(states, k) && t < |states[|states| - 1].pcs| && Failing(states[|states| - 1].pcs[t])
    ensures FailedAt(states, k, i, t)
  {
    var last := |states| - 1;
    if last == 0 {
      assert false;
    } else {
      ReachedAt(states, k, last - 1);
      var u, fails := LastStep(states, k);
      hide Move, Inv, Run;
      if Failing(states[last - 1].pcs[t]) {
        i := RaisesForItself(states[..last], k, t);
      } else {
        i := last - 1;
        StartsFailing(states[last - 1], states[last], k, t, u, fails);
      }
    }
  }

  lemma LastStep(states: seq<Sys>, k: Strategy) returns (u: nat, fails: bool)
    requires Run(states, k) && |states| > 1
    ensures var last := |states| - 1; Run(states[..last], k) && StepOf(states[last - 1], states[last], k, u, fails)
  {
    hide Init, Move;
    var last := |states| - 1;
    forall j | 0 <= j < last - 1 ensures Step(states[..last][j], states[..last][j + 1], k) {
      assert Step(states[j], states[j + 1], k);
    }
    assert Step(states[last - 1], states[last - 1 + 1], k);
    u, fails :| StepOf(states[last - 1], states[last], k, u, fails);
  }
}
