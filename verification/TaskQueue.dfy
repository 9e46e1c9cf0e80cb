/** The task-queue update of cache.cpp: a bounded pool of workers takes chunks from a shared deque and
    collects rows in a list of its own. A state machine over the interleaved steps. */
module TaskQueue {
  import opened Common
  import opened Aggregation

  /** A worker that looks for work or processes a chunk, one that sleeps on the condition variable,
      and one that has left its loop. */
  datatype Mode = Running | Waiting | Exited

  /** The rest of the worker's chunk; an empty rest means it is about to look for the next task. */
  datatype Worker = Worker(mode: Mode, rest: Chunk, rows: seq<Row>)

  /** The main thread: workers started; done_adding set; everybody notified. */
  datatype Main = Started | Done | Notified

  datatype Sys = Sys(tasks: seq<Chunk>, main: Main, workers: seq<Worker>, handled: seq<nat>)

  /** An instrument whose update throws contributes no values. */
  datatype Job = Job(symbols: seq<string>, values: seq<seq<string>>)

  /** The number of workers: the requested threads, capped by the default maximum, at least one. */
  function MaxWorkers(numThreads: nat, defaultMax: nat): nat {
    var cap := if defaultMax == 0 then 1 else defaultMax;
    var w := Min(numThreads, cap);
    if w == 0 then 1 else w
  }

  const IDLE := Worker(Running, Chunk(0, 0), [])

  ghost predicate Init(s: Sys, job: Job, numThreads: nat, defaultMax: nat) {
    && numThreads > 0 && |job.symbols| == |job.values|
    && s.tasks == Chunks(|job.symbols|, numThreads) && s.main == Started && s.handled == []
    && s.workers == seq(MaxWorkers(numThreads, defaultMax), i => IDLE)
  }

  predicate Looking(s: Sys, w: nat) {
    w < |s.workers| && s.workers[w].mode == Running && s.workers[w].rest.start >= s.workers[w].rest.end
  }

  ghost predicate Take(s: Sys, n: Sys, w: nat) {
    Looking(s, w) && s.tasks != [] &&
    n == s.(tasks := s.tasks[1..], workers := s.workers[w := s.workers[w].(rest := s.tasks[0])])
  }

  ghost predicate Wait(s: Sys, n: Sys, w: nat) {
    Looking(s, w) && s.tasks == [] && s.main == Started &&
    n == s.(workers := s.workers[w := s.workers[w].(mode := Waiting)])
  }

  ghost predicate Exit(s: Sys, n: Sys, w: nat) {
    Looking(s, w) && s.tasks == [] && s.main != Started &&
    n == s.(workers := s.workers[w := s.workers[w].(mode := Exited)])
  }

  /** One pass of process_batch: the row goes to the worker's own list. */
  ghost predicate Handle(s: Sys, n: Sys, w: nat, job: Job) {
    && w < |s.workers| && s.workers[w].mode == Running && s.workers[w].rest.start < s.workers[w].rest.end
    && var me := s.workers[w];
       var i := me.rest.start;
       n == s.(workers := s.workers[w := Worker(Running, Chunk(i + 1, me.rest.end), me.rows + RowOf(job.symbols, job.values, i))],
               handled := s.handled + [i])
  }

  ghost predicate SetDone(s: Sys, n: Sys) { s.main == Started && n == s.(main := Done) }

  function Woken(ws: seq<Worker>): (r: seq<Worker>)
    ensures |r| == |ws|
    ensures forall w :: 0 <= w < |ws| ==> r[w] == if ws[w].mode == Waiting then ws[w].(mode := Running) else ws[w]
  {
    seq(|ws|, w requires 0 <= w < |ws| => if ws[w].mode == Waiting then ws[w].(mode := Running) else ws[w])
  }

  ghost predicate NotifyAll(s: Sys, n: Sys) { s.main == Done && n == s.(main := Notified, workers := Woken(s.workers)) }

  ghost predicate Spurious(s: Sys, n: Sys, w: nat) {
    w < |s.workers| && s.workers[w].mode == Waiting && n == s.(workers := s.workers[w := s.workers[w].(mode := Running)])
  }

  ghost predicate WorkerStep(s: Sys, n: Sys, w: nat, job: Job) {
    Take(s, n, w) || Wait(s, n, w) || Exit(s, n, w) || Handle(s, n, w, job)
  }

  ghost predicate Progress(s: Sys, n: Sys, job: Job) {
    SetDone(s, n) || NotifyAll(s, n) || exists w: nat :: WorkerStep(s, n, w, job)
  }

  ghost predicate Step(s: Sys, n: Sys, job: Job) {
    Progress(s, n, job) || exists w: nat :: Spurious(s, n, w)
  }

  ghost predicate Run(states: seq<Sys>, job: Job, numThreads: nat, defaultMax: nat) {
    && states != [] && Init(states[0], job, numThreads, defaultMax)
    && forall k :: 0 <= k < |states| - 1 ==> Step(states[k], states[k + 1], job)
  }

  ghost predicate Finished(s: Sys) {
    s.workers != [] && forall w :: 0 <= w < |s.workers| ==> s.workers[w].mode == Exited
  }

  // The invariant: every instrument is in a queued task, ahead of one worker, or handled once.

  predicate Ahead(w: Worker, i: nat) { Within(w.rest, i) }

  ghost function Rests(workers: seq<Worker>): seq<Chunk> {
    seq(|workers|, w requires 0 <= w < |workers| => workers[w].rest)
  }

  ghost function Pending(workers: seq<Worker>, i: nat): nat { Times(Rests(workers), i) }

  lemma PendingUpdate(workers: seq<Worker>, t: nat, w: Worker, i: nat)
    requires t < |workers|
    ensures Pending(workers[t := w], i)
         == Pending(workers, i) - (if Ahead(workers[t], i) then 1 else 0) + (if Ahead(w, i) then 1 else 0)
  {
    TimesUpdate(Rests(workers), t, w.rest, i);
    assert Rests(workers[t := w]) == Rests(workers)[t := w.rest];
  }

  lemma PendingSame(a: seq<Worker>, b: seq<Worker>, i: nat)
    requires |a| == |b| && forall w :: 0 <= w < |a| ==> a[w].rest == b[w].rest
    ensures Pending(a, i) == Pending(b, i)
  {
    assert Rests(a) == Rests(b);
  }

  ghost predicate ExactlyOnce(s: Sys, n: nat) {
    forall i: nat :: Times(s.tasks, i) + Pending(s.workers, i) + multiset(s.handled)[i] == if i < n then 1 else 0
  }

  /** The rows of all workers, list by list. */
  ghost function AllRows(workers: seq<Worker>): seq<Row> {
    if workers == [] then [] else workers[0].rows + AllRows(workers[1..])
  }

  ghost predicate WorkerOk(w: Worker, s: Sys) {
    && (w.mode != Running ==> w.rest.start >= w.rest.end)
    && (w.mode == Exited ==> s.tasks == [] && s.main != Started)
    && (w.mode == Waiting ==> s.tasks == [] && s.main != Notified)
  }

  ghost predicate Inv(s: Sys, job: Job) {
    && |job.symbols| == |job.values| && s.workers != []
    && (forall w :: 0 <= w < |s.workers| ==> WorkerOk(s.workers[w], s))
    && ExactlyOnce(s, |job.symbols|)
    && multiset(AllRows(s.workers)) == multiset(RowsOf(job.symbols, job.values, s.handled))
  }

  lemma {:induction false} RowsGrow(workers: seq<Worker>, t: nat, w: Worker, more: seq<Row>)
    requires t < |workers| && w.rows == workers[t].rows + more
    ensures multiset(AllRows(workers[t := w])) == multiset(AllRows(workers)) + multiset(more)
  {
    if t > 0 {
      assert workers[t := w][1..] == workers[1..][t - 1 := w];
      RowsGrow(workers[1..], t - 1, w, more);
    } else {
      assert workers[0 := w][1..] == workers[1..];
    }
  }

  lemma {:induction false} RowsSame(a: seq<Worker>, b: seq<Worker>)
    requires |a| == |b| && forall w :: 0 <= w < |a| ==> a[w].rows == b[w].rows
    ensures AllRows(a) == AllRows(b)
  {
    if a != [] {
      RowsSame(a[1..], b[1..]);
    }
  }

  lemma {:induction false} IdleWorkers(k: nat, i: nat)
    ensures Pending(seq(k, j => IDLE), i) == 0 && AllRows(seq(k, j => IDLE)) == []
  {
    if k > 0 {
      var ws := seq(k, j => IDLE);
      assert ws[1..] == seq(k - 1, j => IDLE);
      IdleWorkers(k - 1, i);
    }
    NothingTimes(Rests(seq(k, j => IDLE)), i);
  }

  lemma InitInv(s: Sys, job: Job, numThreads: nat, defaultMax: nat)
    requires Init(s, job, numThreads, defaultMax)
    ensures Inv(s, job)
  {
    var n := |job.symbols|;
    forall i: nat ensures Times(s.tasks, i) + Pending(s.workers, i) + multiset(s.handled)[i] == if i < n then 1 else 0 {
      ChunksPartition(n, numThreads, i);
      IdleWorkers(MaxWorkers(numThreads, defaultMax), i);
    }
    IdleWorkers(MaxWorkers(numThreads, defaultMax), 0);
  }

  /** A step that changes neither tasks, nor rests, nor rows, nor the handled list. */
  lemma QuietInv(s: Sys, n: Sys, job: Job)
    requires Inv(s, job) && n.tasks == s.tasks && n.handled == s.handled && |n.workers| == |s.workers|
    requires forall w :: 0 <= w < |n.workers| ==>
               n.workers[w].rest == s.workers[w].rest && n.workers[w].rows == s.workers[w].rows && WorkerOk(n.workers[w], n)
    ensures Inv(n, job)
  {
    forall i: nat ensures Times(n.tasks, i) + Pending(n.workers, i) + multiset(n.handled)[i] == if i < |job.symbols| then 1 else 0 {
      PendingSame(s.workers, n.workers, i);
      assert Times(s.tasks, i) + Pending(s.workers, i) + multiset(s.handled)[i] == if i < |job.symbols| then 1 else 0;
    }
    RowsSame(s.workers, n.workers);
  }

  lemma TakeInv(s: Sys, n: Sys, w: nat, job: Job)
    requires Inv(s, job) && Take(s, n, w)
    ensures Inv(n, job) && |n.workers| == |s.workers|
  {
    forall i: nat ensures Times(n.tasks, i) + Pending(n.workers, i) + multiset(n.handled)[i] == if i < |job.symbols| then 1 else 0 {
      PendingUpdate(s.workers, w, n.workers[w], i);
      assert Times(s.tasks, i) + Pending(s.workers, i) + multiset(s.handled)[i] == if i < |job.symbols| then 1 else 0;
    }
    RowsSame(s.workers, n.workers);
    forall u | 0 <= u < |n.workers| ensures WorkerOk(n.workers[u], n) {
      assert WorkerOk(s.workers[u], s);
    }
  }

  lemma HandleInv(s: Sys, n: Sys, w: nat, job: Job)
    requires Inv(s, job) && Handle(s, n, w, job)
    ensures Inv(n, job) && |n.workers| == |s.workers|
  {
    hide RowOf;
    var i0 := s.workers[w].rest.start;
    forall i: nat ensures Times(n.tasks, i) + Pending(n.workers, i) + multiset(n.handled)[i] == if i < |job.symbols| then 1 else 0 {
      PendingUpdate(s.workers, w, n.workers[w], i);
      assert Times(s.tasks, i) + Pending(s.workers, i) + multiset(s.handled)[i] == if i < |job.symbols| then 1 else 0;
    }
    RowsGrow(s.workers, w, n.workers[w], RowOf(job.symbols, job.values, i0));
    assert n.handled[..|n.handled| - 1] == s.handled;
    forall u | 0 <= u < |n.workers| ensures WorkerOk(n.workers[u], n) {
      assert WorkerOk(s.workers[u], s);
    }
  }

  lemma StepInv(s: Sys, n: Sys, job: Job)
    requires Inv(s, job) && Step(s, n, job)
    ensures Inv(n, job) && |n.workers| == |s.workers|
  {
    hide Inv, Take, Wait, Exit, Handle, Spurious, SetDone, NotifyAll;
    if w: nat :| Spurious(s, n, w) {
      OneWorkerInv(s, n, w, job);
    } else if SetDone(s, n) || NotifyAll(s, n) {
      MainInv(s, n, job);
    } else {
      var w: nat :| WorkerStep(s, n, w, job);
      if Take(s, n, w) {
        TakeInv(s, n, w, job);
      } else if Handle(s, n, w, job) {
        HandleInv(s, n, w, job);
      } else {
        OneWorkerInv(s, n, w, job);
      }
    }
  }

  lemma OneWorkerInv(s: Sys, n: Sys, w: nat, job: Job)
    requires Inv(s, job) && (Wait(s, n, w) || Exit(s, n, w) || Spurious(s, n, w))
    ensures Inv(n, job) && |n.workers| == |s.workers|
  {
    hide Times, Pending, RowsOf, AllRows, ExactlyOnce;
    forall u | 0 <= u < |n.workers|
      ensures n.workers[u].rest == s.workers[u].rest && n.workers[u].rows == s.workers[u].rows && WorkerOk(n.workers[u], n)
    {
      assert WorkerOk(s.workers[u], s);
    }
    QuietInv(s, n, job);
  }

  lemma MainInv(s: Sys, n: Sys, job: Job)
    requires Inv(s, job) && (SetDone(s, n) || NotifyAll(s, n))
    ensures Inv(n, job) && |n.workers| == |s.workers|
  {
    hide Times, Pending, RowsOf, AllRows, ExactlyOnce;
    forall u | 0 <= u < |n.workers|
      ensures n.workers[u].rest == s.workers[u].rest && n.workers[u].rows == s.workers[u].rows && WorkerOk(n.workers[u], n)
    {
      assert WorkerOk(s.workers[u], s);
    }
    QuietInv(s, n, job);
  }

  lemma {:induction false} Reachable(states: seq<Sys>, job: Job, numThreads: nat, defaultMax: nat)
    requires Run(states, job, numThreads, defaultMax)
    ensures Inv(states[|states| - 1], job)
    ensures var w := |states[|states| - 1].workers|;
            && 1 <= w <= numThreads && (defaultMax > 0 ==> w <= defaultMax)
            && (w == numThreads || w == defaultMax || (w == 1 && defaultMax == 0))
  {
    var k := |states| - 1;
    if k == 0 {
      InitInv(states[0], job, numThreads, defaultMax);
    } else {
      var before := states[..k];
      forall i | 0 <= i < |before| - 1 ensures Step(before[i], before[i + 1], job) {
        assert Step(states[i], states[i + 1], job);
      }
      Reachable(before, job, numThreads, defaultMax);
      assert Step(states[k - 1], states[k - 1 + 1], job);
      StepInv(states[k - 1], states[k], job);
    }
  }

  /** In every run a worker sleeps only while no task is left and the main thread has not yet woken everybody, and
      leaves only when no task is left and none will come; what it still had to do is done. */
  lemma IdleMeans(states: seq<Sys>, job: Job, numThreads: nat, defaultMax: nat, w: nat)
    requires Run(states, job, numThreads, defaultMax) && w < |states[|states| - 1].workers|
    requires states[|states| - 1].workers[w].mode != Running
    ensures var s := states[|states| - 1];
            && s.tasks == [] && s.workers[w].rest.start >= s.workers[w].rest.end
            && if s.workers[w].mode == Waiting then s.main != Notified else s.main != Started
  {
    Reachable(states, job, numThreads, defaultMax);
    hide Run, Times, Pending, RowsOf, AllRows, ExactlyOnce;
    assert WorkerOk(states[|states| - 1].workers[w], states[|states| - 1]);
  }

  /** A worker that is awake can always go on, and one that has left never comes back. */
  lemma AwakeMoves(s: Sys, w: nat, job: Job) returns (n: Sys)
    requires w < |s.workers| && s.workers[w].mode == Running
    ensures WorkerStep(s, n, w, job)
    ensures forall m :: Step(s, m, job) ==>
              |m.workers| == |s.workers| &&
              forall u :: 0 <= u < |s.workers| && s.workers[u].mode == Exited ==> m.workers[u] == s.workers[u]
  {
    var me := s.workers[w];
    var i := me.rest.start;
    if i < me.rest.end {
      n := s.(workers := s.workers[w := Worker(Running, Chunk(i + 1, me.rest.end), me.rows + RowOf(job.symbols, job.values, i))],
              handled := s.handled + [i]);
      assert Handle(s, n, w, job);
    } else if s.tasks != [] {
      n := s.(tasks := s.tasks[1..], workers := s.workers[w := me.(rest := s.tasks[0])]);
      assert Take(s, n, w);
    } else if s.main == Started {
      n := s.(workers := s.workers[w := me.(mode := Waiting)]);
      assert Wait(s, n, w);
    } else {
      n := s.(workers := s.workers[w := me.(mode := Exited)]);
      assert Exit(s, n, w);
    }
  }

  // Every schedule ends, and ends well.

  ghost function Effort(w: Worker): nat {
    (if w.rest.start < w.rest.end then w.rest.end - w.rest.start else 0) +
    match w.mode case Running => 2 case Waiting => 1 case Exited => 0
  }

  ghost function WorkersEffort(ws: seq<Worker>): nat {
    if ws == [] then 0 else Effort(ws[0]) + WorkersEffort(ws[1..])
  }

  ghost function TasksEffort(tasks: seq<Chunk>): nat {
    if tasks == [] then 0
    else 1 + (if tasks[0].start < tasks[0].end then tasks[0].end - tasks[0].start else 0) + TasksEffort(tasks[1..])
  }

  ghost function MainEffort(s: Sys): nat {
    (match s.main case Started => 2 case Done => 1 case Notified => 0) * (|s.workers| + 1)
  }

  ghost function TotalEffort(s: Sys): nat { TasksEffort(s.tasks) + WorkersEffort(s.workers) + MainEffort(s) }

  lemma {:induction false} WorkersEffortUpdate(ws: seq<Worker>, t: nat, w: Worker)
    requires t < |ws|
    ensures WorkersEffort(ws[t := w]) == WorkersEffort(ws) - Effort(ws[t]) + Effort(w)
  {
    if t > 0 {
      assert ws[t := w][1..] == ws[1..][t - 1 := w];
      WorkersEffortUpdate(ws[1..], t - 1, w);
    } else {
      assert ws[0 := w][1..] == ws[1..];
    }
  }

  lemma {:induction false} WokenEffort(ws: seq<Worker>)
    ensures WorkersEffort(Woken(ws)) <= WorkersEffort(ws) + |ws|
  {
    if ws != [] {
      assert Woken(ws)[1..] == Woken(ws[1..]);
      WokenEffort(ws[1..]);
    }
  }

  lemma ProgressDecreases(s: Sys, n: Sys, job: Job)
    requires Progress(s, n, job)
    ensures TotalEffort(n) < TotalEffort(s)
  {
    if SetDone(s, n) {
    } else if NotifyAll(s, n) {
      WokenEffort(s.workers);
    } else {
      var w: nat :| WorkerStep(s, n, w, job);
      hide RowOf;
      WorkersEffortUpdate(s.workers, w, n.workers[w]);
      assert n.workers == s.workers[w := n.workers[w]];
    }
  }

  /** No lost wakeup, no deadlock: until every worker has exited, some thread other than a sleeping
      worker can take a step. */
  lemma NoDeadlock(s: Sys, job: Job) returns (n: Sys)
    requires Inv(s, job) && !Finished(s)
    ensures Progress(s, n, job)
  {
    hide Times, Pending, RowsOf, AllRows, ExactlyOnce;
    if s.main == Started {
      n := s.(main := Done);
      assert SetDone(s, n);
    } else if s.main == Done {
      n := s.(main := Notified, workers := Woken(s.workers));
      assert NotifyAll(s, n);
    } else {
      var w: nat :| w < |s.workers| && s.workers[w].mode != Exited;
      assert WorkerOk(s.workers[w], s);
      var me := s.workers[w];
      if me.rest.start < me.rest.end {
        var i := me.rest.start;
        n := s.(workers := s.workers[w := Worker(Running, Chunk(i + 1, me.rest.end), me.rows + RowOf(job.symbols, job.values, i))],
                handled := s.handled + [i]);
        assert Handle(s, n, w, job);
      } else if s.tasks != [] {
        n := s.(tasks := s.tasks[1..], workers := s.workers[w := me.(rest := s.tasks[0])]);
        assert Take(s, n, w);
      } else {
        n := s.(workers := s.workers[w := me.(mode := Exited)]);
        assert Exit(s, n, w);
      }
      assert WorkerStep(s, n, w, job);
    }
  }

  /** Once all workers have exited, every instrument was handled exactly once, the workers never
      outnumber the result lists, and for distinct symbols the written table is the header and the
      nonempty rows in instrument order, whatever the schedule and the number of workers. */
  lemma QueueResult(states: seq<Sys>, job: Job, numThreads: nat, defaultMax: nat, out: seq<Row>, header: seq<string>)
    requires Run(states, job, numThreads, defaultMax)
    requires var s := states[|states| - 1];
             Finished(s) && Distinct(job.symbols) && SortOf(out, AllRows(s.workers), CodeOrder(job.symbols))
    ensures HandledOnce(states[|states| - 1].handled, |job.symbols|)
    ensures var w := |states[|states| - 1].workers|;
            && 1 <= w <= numThreads && (defaultMax > 0 ==> w <= defaultMax)
            && (w == numThreads || w == defaultMax || (w == 1 && defaultMax == 0))
    ensures Table(header, out) == [header] + NonEmpty(job.values)
  {
    var s := states[|states| - 1];
    Reachable(states, job, numThreads, defaultMax);
    assert WorkerOk(s.workers[0], s);
    forall w | 0 <= w < |s.workers| ensures s.workers[w].rest.start >= s.workers[w].rest.end {
      assert WorkerOk(s.workers[w], s);
    }
    forall i: nat ensures multiset(s.handled)[i] == if i < |job.symbols| then 1 else 0 {
      NothingTimes(Rests(s.workers), i);
      assert Times(s.tasks, i) + Pending(s.workers, i) + multiset(s.handled)[i] == if i < |job.symbols| then 1 else 0;
    }
    OutputDetermined(job.symbols, job.values, s.handled, AllRows(s.workers), out, header);
  }

  /** Without spurious wakeups a run has no more steps than the effort of its initial state. */
  lemma {:induction false} RunsEnd(states: seq<Sys>, job: Job, numThreads: nat, defaultMax: nat)
    requires Run(states, job, numThreads, defaultMax)
    requires forall k :: 0 <= k < |states| - 1 ==> Progress(states[k], states[k + 1], job)
    ensures |states| - 1 + TotalEffort(states[|states| - 1]) <= TotalEffort(states[0])
  {
    hide TotalEffort, Progress, Init;
    var k := |states| - 1;
    if k > 0 {
      var before := states[..k];
      forall i | 0 <= i < |before| - 1
        ensures Step(before[i], before[i + 1], job) && Progress(before[i], before[i + 1], job)
      {
        assert Progress(states[i], states[i + 1], job) && Step(states[i], states[i + 1], job);
      }
      RunsEnd(before, job, numThreads, defaultMax);
      assert Progress(states[k - 1], states[k - 1 + 1], job);
      ProgressDecreases(states[k - 1], states[k], job);
    }
  }
}
