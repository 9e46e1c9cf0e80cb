/** Thread-safe creation of a singleton: the metaclass's __call__ under its locking strategies, as
    interleaved steps of any number of calling threads. */
module Singleton {
  import opened Common

  datatype Strategy = LOCK | DOUBLE_CHECKED | CLASS_LOCK | NO_LOCK

  /** Where a call stands. Objects are numbered in the order of their construction. */
  datatype Pc =
    | Start                          // `cls in _instances`?
    | Fast                           // `_initialized[cls]`?
    | FastRead                       // return _instances[cls]
    | Slow                           // dispatch on the strategy
    | WantLock                       // DOUBLE_CHECKED: take _instance_lock
    | Check                          // `cls not in _instances`, under the strategy's lock
    | Abstract                       // _check_abstract, which may raise
    | Create                         // _create_instance_safely: take _instance_lock
    | Test                           // `_initializing[cls]`?
    | SetInitializing
    | Build                          // run the constructor, which may raise
    | Built(obj: nat)                // _initialized[cls] = True
    | Finally(made: Option<nat>)     // _initializing[cls] = False
    | LeaveCreate(made: Option<nat>) // release _instance_lock
    | Publish(obj: nat)              // store into _instances
    | ReadLocked                     // read _instances[cls] under the lock
    | Unlock(result: Option<nat>)    // release the strategy's lock and return
    | UnlockThenRead                 // DOUBLE_CHECKED: release the lock first
    | FinalRead                      // return _instances[cls] without a lock
    | Unwind                         // an exception leaves the strategy's lock
    | Returned(obj: nat)
    | Raised

  /** The class-level dictionaries' entries for the class, its locks, and the objects built so far. */
  datatype Shared = Shared(instances: Option<nat>, initialized: bool, initializing: bool,
                           instOwner: Option<nat>, instDepth: nat, classOwner: Option<nat>, created: nat)

  datatype Sys = Sys(shared: Shared, pcs: seq<Pc>)

  ghost predicate Init(s: Sys) {
    && s.shared == Shared(None, false, false, None, 0, None, 0)
    && forall t :: 0 <= t < |s.pcs| ==> s.pcs[t] == Start
  }

  /** The reentrant instance lock. */
  predicate InstFree(s: Shared, t: nat) { s.instOwner == None || s.instOwner == Some(t) }

  function TakeInst(s: Shared, t: nat): Shared { s.(instOwner := Some(t), instDepth := s.instDepth + 1) }

  function DropInst(s: Shared): Shared {
    if s.instDepth <= 1 then s.(instOwner := None, instDepth := 0) else s.(instDepth := s.instDepth - 1)
  }

  /** Leaving the strategy's `with` block. */
  function DropOuter(s: Shared, k: Strategy): Shared {
    match k
    case LOCK => DropInst(s)
    case DOUBLE_CHECKED => DropInst(s)
    case CLASS_LOCK => s.(classOwner := None)
    case NO_LOCK => s
  }

  /** Reading an entry that is not there would raise KeyError. */
  function Read(s: Shared): Pc { if s.instances.Some? then Returned(s.instances.value) else Raised }

  /** One step of thread t at pc; `fails` decides whether a step that may raise does. A blocked or
      finished thread stays where it is. */
  function Move(s: Shared, k: Strategy, t: nat, pc: Pc, fails: bool): (Shared, Pc) {
    match pc
    case Start => (s, if s.instances.Some? then Fast else Slow)
    case Fast => (s, if s.initialized then FastRead else Slow)
    case FastRead => (s, Read(s))
    case Slow =>
      (match k
       case LOCK => if InstFree(s, t) then (TakeInst(s, t), Check) else (s, pc)
       case DOUBLE_CHECKED => (s, if s.instances.Some? then FinalRead else WantLock)
       case CLASS_LOCK => if s.classOwner == None then (s.(classOwner := Some(t)), Check) else (s, pc)
       case NO_LOCK => (s, if s.instances.Some? then FinalRead else Create))
    case WantLock => if InstFree(s, t) then (TakeInst(s, t), Check) else (s, pc)
    case Check => (s, if s.instances.None? then Abstract else if k == DOUBLE_CHECKED then UnlockThenRead else ReadLocked)
    case Abstract => (s, if fails then Unwind else Create)
    case Create => if InstFree(s, t) then (TakeInst(s, t), Test) else (s, pc)
    case Test => (s, if s.initializing then LeaveCreate(None) else SetInitializing)
    case SetInitializing => (s.(initializing := true), Build)
    case Build => if fails then (s, Finally(None)) else (s.(created := s.created + 1), Built(s.created + 1))
    case Built(o) => (s.(initialized := true), Finally(Some(o)))
    case Finally(made) => (s.(initializing := false), LeaveCreate(made))
    case LeaveCreate(made) => (DropInst(s), if made.Some? then Publish(made.value) else Unwind)
    case Publish(o) =>
      if k == NO_LOCK then
        // setdefault keeps an entry that is already there
        var n := if s.instances.None? then s.(instances := Some(o)) else s;
        (n, Read(n))
      else
        (s.(instances := Some(o)), if k == DOUBLE_CHECKED then UnlockThenRead else ReadLocked)
    case ReadLocked => (s, Unlock(s.instances))
    case Unlock(r) => (DropOuter(s, k), if r.Some? then Returned(r.value) else Raised)
    case UnlockThenRead => (DropOuter(s, k), FinalRead)
    case FinalRead => (s, Read(s))
    case Unwind => (DropOuter(s, k), Raised)
    case Returned(_) => (s, pc)
    case Raised => (s, pc)
  }

  ghost predicate StepOf(s: Sys, n: Sys, k: Strategy, t: nat, fails: bool) {
    t < |s.pcs| &&
    var (shared, pc) := Move(s.shared, k, t, s.pcs[t], fails);
    n == Sys(shared, s.pcs[t := pc])
  }

  ghost predicate Step(s: Sys, n: Sys, k: Strategy) {
    exists t: nat, fails: bool :: StepOf(s, n, k, t, fails)
  }

  ghost predicate Run(states: seq<Sys>, k: Strategy) {
    && states != [] && Init(states[0])
    && forall i :: 0 <= i < |states| - 1 ==> Step(states[i], states[i + 1], k)
  }

  // The invariant.

  /** Inside the strategy's `with` block. */
  predicate InOuter(pc: Pc) {
    pc.Check? || pc.Abstract? || pc.Create? || InCreate(pc) || pc.Publish? || pc.ReadLocked? || pc.Unlock?
    || pc.UnlockThenRead? || pc.Unwind?
  }

  /** Inside the `with` block of _create_instance_safely. */
  predicate InCreate(pc: Pc) {
    pc.Test? || pc.SetInitializing? || pc.Build? || pc.Built? || pc.Finally? || pc.LeaveCreate?
  }

  /** How often the thread holds the instance lock. */
  function Depth(pc: Pc, k: Strategy): nat {
    (if (k == LOCK || k == DOUBLE_CHECKED) && InOuter(pc) then 1 else 0) + (if InCreate(pc) then 1 else 0)
  }

  /** The object a thread has constructed and not yet published. */
  function Carried(pc: Pc): Option<nat> {
    match pc
    case Built(o) => Some(o)
    case Finally(made) => made
    case LeaveCreate(made) => made
    case Publish(o) => Some(o)
    case _ => None
  }

  /** The locks are owned by exactly the threads whose position says so. */
  ghost predicate LocksOk(s: Sys, k: Strategy) { InstLockOk(s, k) && ClassLockOk(s, k) }

  ghost predicate InstLockOk(s: Sys, k: Strategy) {
    && (forall t :: 0 <= t < |s.pcs| && Depth(s.pcs[t], k) > 0 ==>
          s.shared.instOwner == Some(t) && s.shared.instDepth == Depth(s.pcs[t], k))
    && (s.shared.instOwner.Some? ==>
          s.shared.instOwner.value < |s.pcs| && Depth(s.pcs[s.shared.instOwner.value], k) > 0)
    && (s.shared.instOwner.None? ==> s.shared.instDepth == 0)
  }

  ghost predicate ClassLockOk(s: Sys, k: Strategy) {
    && (forall t :: 0 <= t < |s.pcs| && k == CLASS_LOCK && InOuter(s.pcs[t]) ==> s.shared.classOwner == Some(t))
    && (s.shared.classOwner.Some? ==>
          k == CLASS_LOCK && s.shared.classOwner.value < |s.pcs| && InOuter(s.pcs[s.shared.classOwner.value]))
  }

  /** What a thread's position says about the shared tables. */
  ghost predicate ThreadOk(s: Shared, k: Strategy, pc: Pc) {
    && (Carried(pc).Some? ==> 0 < Carried(pc).value <= s.created)
    && (pc.Fast? || pc.FastRead? || pc.ReadLocked? || pc.UnlockThenRead? || pc.FinalRead? ==> s.instances.Some?)
    && (pc.Unlock? ==> pc.result == s.instances && s.instances.Some?)
    && (pc.Returned? ==> s.instances == Some(pc.obj))
    && (pc.WantLock? || pc.UnlockThenRead? ==> k == DOUBLE_CHECKED)
    && (pc.ReadLocked? || pc.Unlock? ==> k == LOCK || k == CLASS_LOCK)
    && (pc.Check? || pc.Abstract? ==> k != NO_LOCK)
  }

  /** Positions from the check of the table to the store into it. */
  predicate Creating(pc: Pc) { pc.Abstract? || pc.Create? || InCreate(pc) || pc.Publish? }

  /** Under a locking strategy: nobody creates once the table is filled, and an object that exists is
      either in the table or carried by the one thread that will store it. */
  ghost predicate AloneOk(s: Sys, k: Strategy) {
    && s.shared.created <= 1
    && (forall t :: 0 <= t < |s.pcs| && Creating(s.pcs[t]) ==>
          s.shared.instances.None? && (Carried(s.pcs[t]).Some? <==> s.shared.created == 1))
    && (s.shared.created == 1 && s.shared.instances.None? ==>
          exists t :: 0 <= t < |s.pcs| && Creating(s.pcs[t]))
  }

  predicate Marked(pc: Pc) { pc.Build? || pc.Built? || pc.Finally? }

  ghost predicate Inv(s: Sys, k: Strategy) {
    && LocksOk(s, k)
    && (forall t :: 0 <= t < |s.pcs| ==> ThreadOk(s.shared, k, s.pcs[t]))
    && (s.shared.instances.Some? ==> 0 < s.shared.instances.value <= s.shared.created)
    && (s.shared.initializing ==> exists t :: 0 <= t < |s.pcs| && Marked(s.pcs[t]))
    && (k != NO_LOCK ==> AloneOk(s, k))
  }

  lemma InitInv(s: Sys, k: Strategy)
    requires Init(s)
    ensures Inv(s, k)
  {
  }

  lemma Exclusive(s: Sys, k: Strategy, t: nat, u: nat)
    requires LocksOk(s, k) && t < |s.pcs| && u < |s.pcs|
    ensures k != NO_LOCK && InOuter(s.pcs[t]) && InOuter(s.pcs[u]) ==> t == u
    ensures InCreate(s.pcs[t]) && InCreate(s.pcs[u]) ==> t == u
  {
    assert Depth(s.pcs[t], k) > 0 && Depth(s.pcs[u], k) > 0 ==> t == u;
  }

  /** How a step moves the instance lock, in terms of the thread's position before and after. */
  ghost predicate InstEffect(s: Shared, n: Shared, k: Strategy, t: nat, pc: Pc, pc': Pc) {
    var before, after := Depth(pc, k), Depth(pc', k);
    if before == after then n.instOwner == s.instOwner && n.instDepth == s.instDepth
    else if after > before then InstFree(s, t) && n.instOwner == Some(t) && n.instDepth == s.instDepth + 1 && after == before + 1
    else n.instDepth == after && n.instOwner == if after == 0 then None else Some(t)
  }

  /** And the class lock. */
  ghost predicate ClassEffect(s: Shared, n: Shared, k: Strategy, t: nat, pc: Pc, pc': Pc) {
    if k != CLASS_LOCK || InOuter(pc) == InOuter(pc') then n.classOwner == s.classOwner
    else if InOuter(pc') then s.classOwner == None && n.classOwner == Some(t)
    else n.classOwner == None
  }

  lemma InstEffectInside(s: Shared, k: Strategy, t: nat, pc: Pc, fails: bool)
    requires InCreate(pc) || pc.Create?
    requires Depth(pc, k) > 0 ==> s.instOwner == Some(t) && s.instDepth == Depth(pc, k)
    ensures var (n, pc') := Move(s, k, t, pc, fails); InstEffect(s, n, k, t, pc, pc')
  {
  }

  lemma InstEffectBetween(s: Shared, k: Strategy, t: nat, pc: Pc, fails: bool)
    requires ThreadOk(s, k, pc) && InOuter(pc) && !InCreate(pc) && !pc.Create?
    requires Depth(pc, k) > 0 ==> s.instOwner == Some(t) && s.instDepth == Depth(pc, k)
    ensures var (n, pc') := Move(s, k, t, pc, fails); InstEffect(s, n, k, t, pc, pc')
  {
  }

  lemma InstEffectOutside(s: Shared, k: Strategy, t: nat, pc: Pc, fails: bool)
    requires ThreadOk(s, k, pc) && !InOuter(pc) && s.instOwner != Some(t) && (s.instOwner.None? ==> s.instDepth == 0)
    ensures var (n, pc') := Move(s, k, t, pc, fails); InstEffect(s, n, k, t, pc, pc')
  {
  }

  lemma ClassEffectOfStep(s: Shared, k: Strategy, t: nat, pc: Pc, fails: bool)
    requires ThreadOk(s, k, pc)
    ensures var (n, pc') := Move(s, k, t, pc, fails); ClassEffect(s, n, k, t, pc, pc')
  {
    if InOuter(pc) {
    } else {
    }
  }

  lemma InstEffectOfStep(s: Sys, k: Strategy, t: nat, fails: bool)
    requires InstLockOk(s, k) && t < |s.pcs| && ThreadOk(s.shared, k, s.pcs[t])
    ensures var (n, pc') := Move(s.shared, k, t, s.pcs[t], fails); InstEffect(s.shared, n, k, t, s.pcs[t], pc')
  {
    hide Move, ThreadOk, InstEffect;
    var pc := s.pcs[t];
    if InCreate(pc) || pc.Create? {
      InstEffectInside(s.shared, k, t, pc, fails);
    } else if InOuter(pc) {
      InstEffectBetween(s.shared, k, t, pc, fails);
    } else {
      InstEffectOutside(s.shared, k, t, pc, fails);
    }
  }

  lemma StepInstLock(s: Sys, n: Sys, k: Strategy, t: nat, fails: bool)
    requires InstLockOk(s, k) && StepOf(s, n, k, t, fails) && ThreadOk(s.shared, k, s.pcs[t])
    ensures InstLockOk(n, k)
  {
    hide Move, Depth, ThreadOk;
    InstEffectOfStep(s, k, t, fails);
  }

  lemma StepClassLock(s: Sys, n: Sys, k: Strategy, t: nat, fails: bool)
    requires ClassLockOk(s, k) && StepOf(s, n, k, t, fails) && ThreadOk(s.shared, k, s.pcs[t])
    ensures ClassLockOk(n, k)
  {
    hide Move, InOuter, ThreadOk;
    ClassEffectOfStep(s.shared, k, t, s.pcs[t], fails);
  }

  /** The table's entry is never replaced. */
  lemma TableStable(s: Shared, k: Strategy, t: nat, pc: Pc, fails: bool)
    requires ThreadOk(s, k, pc) && (s.instances.Some? ==> 0 < s.instances.value <= s.created)
    requires k != NO_LOCK && pc.Publish? ==> s.instances.None?
    ensures var n := Move(s, k, t, pc, fails).0;
            && (n.instances.Some? ==> 0 < n.instances.value <= n.created)
            && (s.instances.Some? ==> n.instances == s.instances) && s.created <= n.created
  {
  }

  lemma StepThread(s: Shared, k: Strategy, t: nat, pc: Pc, fails: bool)
    requires ThreadOk(s, k, pc)
    ensures var (n, pc') := Move(s, k, t, pc, fails); ThreadOk(n, k, pc')
  {
    hide Depth, InOuter;
    if pc.Start? || pc.Slow? || pc.WantLock? || pc.Check? || pc.Abstract? {
    } else if InCreate(pc) || pc.Create? {
    } else {
    }
  }

  lemma ThreadOkStable(s: Shared, n: Shared, k: Strategy, pc: Pc)
    requires ThreadOk(s, k, pc) && (s.instances.Some? ==> n.instances == s.instances) && s.created <= n.created
    ensures ThreadOk(n, k, pc)
  {
  }

  /** How a step under a locking strategy moves the creation forward. */
  lemma CreationEffect(s: Shared, k: Strategy, t: nat, pc: Pc, fails: bool)
    requires k != NO_LOCK
    ensures var (n, pc') := Move(s, k, t, pc, fails);
            && n.created == s.created + (if pc.Build? && !fails then 1 else 0)
            && n.instances == (if pc.Publish? then Some(pc.obj) else s.instances)
            && (Creating(pc') ==> (Creating(pc) && !pc.Publish?) || (pc.Check? && s.instances.None?))
            && (Creating(pc) && !Creating(pc') ==> pc.Publish? || Carried(pc).None?)
            && (Creating(pc) && Creating(pc') ==>
                  (Carried(pc').Some? <==> Carried(pc).Some? || (pc.Build? && !fails)))
            && (pc.Check? ==> Carried(pc').None?)
            && (pc.Build? && !fails ==> Creating(pc'))
  {
  }

  lemma CreatingInOuter(pc: Pc)
    ensures Creating(pc) ==> InOuter(pc)
    ensures pc.Check? ==> InOuter(pc) && !Creating(pc)
    ensures pc.Build? || pc.Publish? ==> Creating(pc)
    ensures pc.Build? ==> Carried(pc).None?
  {
  }

  lemma StepAlone(s: Sys, n: Sys, k: Strategy, t: nat, fails: bool)
    requires k != NO_LOCK && LocksOk(s, k) && AloneOk(s, k) && StepOf(s, n, k, t, fails)
    ensures AloneOk(n, k)
  {
    var pc, pc' := s.pcs[t], n.pcs[t];
    CreationEffect(s.shared, k, t, pc, fails);
    CreatingInOuter(pc);
    hide Move, InOuter, Creating, Carried, LocksOk;
    forall u | 0 <= u < |s.pcs|
      ensures InOuter(pc) && InOuter(s.pcs[u]) ==> u == t
      ensures Creating(s.pcs[u]) ==> InOuter(s.pcs[u])
    {
      Exclusive(s, k, t, u);
      CreatingInOuter(s.pcs[u]);
    }
    if s.shared.created == 1 && s.shared.instances.None? {
      var v :| 0 <= v < |s.pcs| && Creating(s.pcs[v]);
      assert v != t ==> Creating(n.pcs[v]);
    }
    if pc.Build? && !fails {
      assert Creating(n.pcs[t]);
    }
  }

  lemma MarkEffect(s: Shared, k: Strategy, t: nat, pc: Pc, fails: bool)
    ensures var (n, pc') := Move(s, k, t, pc, fails);
            && n.initializing == (pc.SetInitializing? || (s.initializing && !pc.Finally?))
            && (pc.SetInitializing? || (Marked(pc) && !pc.Finally?) ==> Marked(pc'))
  {
  }

  lemma StepMarked(s: Sys, n: Sys, k: Strategy, t: nat, fails: bool)
    requires StepOf(s, n, k, t, fails)
    requires s.shared.initializing ==> exists u :: 0 <= u < |s.pcs| && Marked(s.pcs[u])
    ensures n.shared.initializing ==> exists u :: 0 <= u < |n.pcs| && Marked(n.pcs[u])
  {
    MarkEffect(s.shared, k, t, s.pcs[t], fails);
    hide Move, Marked;
    if n.shared.initializing {
      if s.pcs[t].SetInitializing? {
        assert Marked(n.pcs[t]);
      } else {
        var u :| 0 <= u < |s.pcs| && Marked(s.pcs[u]);
        assert Marked(n.pcs[u]);
      }
    }
  }

  lemma StepInv(s: Sys, n: Sys, k: Strategy)
    requires Inv(s, k) && Step(s, n, k)
    ensures Inv(n, k) && |n.pcs| == |s.pcs|
    ensures s.shared.instances.Some? ==> n.shared.instances == s.shared.instances
  {
    var t: nat, fails: bool :| StepOf(s, n, k, t, fails);
    var pc := s.pcs[t];
    if k != NO_LOCK {
      CreatingInOuter(pc);
      StepAlone(s, n, k, t, fails);
    }
    StepInstLock(s, n, k, t, fails);
    StepClassLock(s, n, k, t, fails);
    StepMarked(s, n, k, t, fails);
    StepThread(s.shared, k, t, pc, fails);
    TableStable(s.shared, k, t, pc, fails);
    hide Move, InstLockOk, ClassLockOk, AloneOk, Marked, ThreadOk;
    forall u | 0 <= u < |n.pcs| ensures ThreadOk(n.shared, k, n.pcs[u]) {
      if u != t {
        ThreadOkStable(s.shared, n.shared, k, s.pcs[u]);
      }
    }
  }

  lemma {:induction false} Reachable(states: seq<Sys>, k: Strategy)
    requires Run(states, k)
    ensures Inv(states[|states| - 1], k)
    ensures forall i :: 0 <= i < |states| && states[i].shared.instances.Some? ==>
              states[|states| - 1].shared.instances == states[i].shared.instances
  {
    hide Inv, Init, Step;
    var last := |states| - 1;
    if last == 0 {
      InitInv(states[0], k);
    } else {
      var before := states[..last];
      forall i | 0 <= i < |before| - 1 ensures Step(before[i], before[i + 1], k) {
        assert Step(states[i], states[i + 1], k);
      }
      Reachable(before, k);
      assert Step(states[last - 1], states[last - 1 + 1], k);
      StepInv(states[last - 1], states[last], k);
      forall i | 0 <= i < last && states[i].shared.instances.Some?
        ensures states[last].shared.instances == states[i].shared.instances
      {
        assert before[i] == states[i];
      }
    }
  }

  /** Every call that returns, at whatever time and by whatever path, returns one and the same object,
      under every strategy. */
  lemma OneInstance(states: seq<Sys>, k: Strategy, i: nat, j: nat, t: nat, u: nat)
    requires Run(states, k) && i < |states| && j < |states|
    requires t < |states[i].pcs| && u < |states[j].pcs|
    requires states[i].pcs[t].Returned? && states[j].pcs[u].Returned?
    ensures states[i].pcs[t] == states[j].pcs[u]
  {
    ReachedAt(states, k, i);
    ReachedAt(states, k, j);
    Reachable(states, k);
    assert ThreadOk(states[i].shared, k, states[i].pcs[t]);
    assert ThreadOk(states[j].shared, k, states[j].pcs[u]);
  }

  /** Under a locking strategy at most one construction ever succeeds, however many raised before. */
  lemma AtMostOneConstruction(states: seq<Sys>, k: Strategy, i: nat)
    requires Run(states, k) && i < |states| && k != NO_LOCK
    ensures states[i].shared.created <= 1
  {
    ReachedAt(states, k, i);
  }

  lemma ReachedAt(states: seq<Sys>, k: Strategy, i: nat)
    requires Run(states, k) && i < |states|
    ensures Inv(states[i], k)
  {
    hide Inv, Init, Step;
    var before := states[..i + 1];
    forall j | 0 <= j < |before| - 1 ensures Step(before[j], before[j + 1], k) {
      assert Step(states[j], states[j + 1], k);
    }
    Reachable(before, k);
  }

  /** In every run, no read of the table fails, and the "circular dependency" error is never raised by
      concurrency. */
  lemma NoSpuriousErrors(states: seq<Sys>, k: Strategy, i: nat, t: nat)
    requires Run(states, k) && i < |states| && t < |states[i].pcs|
    ensures var s, pc := states[i].shared, states[i].pcs[t];
            && (pc.FastRead? || pc.FinalRead? || pc.ReadLocked? ==> s.instances.Some?)
            && (pc.Test? ==> !s.initializing)
  {
    ReachedAt(states, k, i);
    hide Run;
    if states[i].pcs[t].Test? {
      NotInitializing(states[i], k, t);
    }
    assert ThreadOk(states[i].shared, k, states[i].pcs[t]);
  }

  lemma NotInitializing(s: Sys, k: Strategy, t: nat)
    requires Inv(s, k) && t < |s.pcs| && s.pcs[t].Test?
    ensures !s.shared.initializing
  {
    hide ThreadOk, AloneOk, LocksOk;
    if s.shared.initializing {
      var u :| 0 <= u < |s.pcs| && Marked(s.pcs[u]);
      Exclusive(s, k, t, u);
    }
  }

  predicate Over(pc: Pc) { pc.Returned? || pc.Raised? }

  lemma Unblocked(s: Shared, k: Strategy, t: nat, pc: Pc)
    requires !Over(pc) && (pc.Slow? || pc.WantLock? || pc.Create? ==> InstFree(s, t))
    requires pc.Slow? && k == CLASS_LOCK ==> s.classOwner == None
    ensures Move(s, k, t, pc, false).1 != pc
  {
  }

  /** No deadlock: while a call is under way, some thread can move. */
  lemma NoDeadlock(s: Sys, k: Strategy, t: nat) returns (u: nat)
    requires Inv(s, k) && t < |s.pcs| && !Over(s.pcs[t])
    ensures u < |s.pcs| && Move(s.shared, k, u, s.pcs[u], false).1 != s.pcs[u]
  {
    hide Move;
    u := t;
    if s.pcs[u].Slow? && k == CLASS_LOCK && s.shared.classOwner.Some? {
      u := s.shared.classOwner.value;
    }
    if !InstFree(s.shared, u) {
      u := s.shared.instOwner.value;
    }
    Unblocked(s.shared, k, u, s.pcs[u]);
  }
}
