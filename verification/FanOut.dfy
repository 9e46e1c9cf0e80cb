/** The feature update of adapter.rs: one thread per chunk, a global semaphore around each update,
    a shared result list. A state machine over the interleaved steps of the threads. */
module FanOut {
  import opened Aggregation
  import Semaphore

  /** A thread stands before instrument `next` of its chunk; `updated` once its row is pushed. */
  datatype Worker = Worker(next: nat, end: nat, updated: bool)

  /** Thread t is client t of the semaphore. `handled` records the update calls in order. */
  datatype Sys = Sys(sem: Semaphore.Sem, workers: seq<Worker>, handled: seq<nat>, results: seq<Row>)

  /** The instruments' symbols and the values their features will have after the update. */
  datatype Job = Job(symbols: seq<string>, values: seq<seq<string>>)

  function Spawned(chunks: seq<Chunk>): (ws: seq<Worker>)
    ensures |ws| == |chunks|
    ensures forall t :: 0 <= t < |ws| ==> ws[t] == Worker(chunks[t].start, chunks[t].end, false)
  {
    seq(|chunks|, t requires 0 <= t < |chunks| => Worker(chunks[t].start, chunks[t].end, false))
  }

  ghost predicate Init(s: Sys, job: Job, max: nat, numThreads: nat) {
    && numThreads > 0 && max > 0 && |job.symbols| == |job.values|
    && Semaphore.Init(s.sem, max)
    && s.workers == Spawned(Chunks(|job.symbols|, numThreads))
    && |s.sem.phases| == |s.workers|
    && s.handled == [] && s.results == []
  }

  /** Taking the guard: the thread gets a permit or parks. */
  ghost predicate Acquire(s: Sys, n: Sys, t: nat) {
    && t < |s.workers| && s.workers[t].next < s.workers[t].end
    && (Semaphore.Enter(s.sem, n.sem, t) || Semaphore.Park(s.sem, n.sem, t))
    && n == s.(sem := n.sem)
  }

  /** Updating the instrument under the guard and pushing its row. */
  ghost predicate Update(s: Sys, n: Sys, t: nat, job: Job) {
    && t < |s.workers| && t < |s.sem.phases| && s.sem.phases[t] == Semaphore.Inside && !s.workers[t].updated
    && var i := s.workers[t].next;
       n == s.(workers := s.workers[t := s.workers[t].(updated := true)],
               handled := s.handled + [i], results := s.results + RowOf(job.symbols, job.values, i))
  }

  /** Dropping the guard and moving on. */
  ghost predicate Release(s: Sys, n: Sys, t: nat) {
    && t < |s.workers| && s.workers[t].updated && Semaphore.Leave(s.sem, n.sem, t)
    && n == s.(sem := n.sem, workers := s.workers[t := Worker(s.workers[t].next + 1, s.workers[t].end, false)])
  }

  /** A step that some thread takes by itself. */
  ghost predicate Progress(s: Sys, n: Sys, job: Job) {
    exists t: nat :: Acquire(s, n, t) || Update(s, n, t, job) || Release(s, n, t)
  }

  ghost predicate Spurious(s: Sys, n: Sys) {
    exists t: nat :: Semaphore.Spurious(s.sem, n.sem, t) && n == s.(sem := n.sem)
  }

  ghost predicate Step(s: Sys, n: Sys, job: Job) { Progress(s, n, job) || Spurious(s, n) }

  ghost predicate Run(states: seq<Sys>, job: Job, max: nat, numThreads: nat) {
    && states != [] && Init(states[0], job, max, numThreads)
    && forall k :: 0 <= k < |states| - 1 ==> Step(states[k], states[k + 1], job)
  }

  ghost predicate Stuck(s: Sys, job: Job) {
    forall n :: !Progress(s, n, job)
  }

  ghost predicate Finished(s: Sys) {
    forall t :: 0 <= t < |s.workers| ==> s.workers[t].next == s.workers[t].end
  }

  // The invariant.

  /** What is still ahead of a worker. */
  function Rest(w: Worker): Chunk { Chunk(w.next + (if w.updated then 1 else 0), w.end) }

  predicate Ahead(w: Worker, i: nat) { Within(Rest(w), i) }

  ghost function Rests(workers: seq<Worker>): seq<Chunk> {
    seq(|workers|, t requires 0 <= t < |workers| => Rest(workers[t]))
  }

  ghost function Pending(workers: seq<Worker>, i: nat): nat { Times(Rests(workers), i) }

  lemma PendingUpdate(workers: seq<Worker>, t: nat, w: Worker, i: nat)
    requires t < |workers|
    ensures Pending(workers[t := w], i)
         == Pending(workers, i) - (if Ahead(workers[t], i) then 1 else 0) + (if Ahead(w, i) then 1 else 0)
  {
    TimesUpdate(Rests(workers), t, Rest(w), i);
    assert Rests(workers[t := w]) == Rests(workers)[t := Rest(w)];
  }

  /** Every instrument is in exactly one place: ahead of one worker, or handled once. */
  ghost predicate ExactlyOnce(s: Sys, n: nat) {
    forall i: nat :: Pending(s.workers, i) + multiset(s.handled)[i] == if i < n then 1 else 0
  }

  ghost predicate WorkerOk(w: Worker, p: Semaphore.Phase) {
    && w.next <= w.end
    && (p != Semaphore.Outside ==> w.next < w.end)
    && (w.updated ==> p == Semaphore.Inside)
  }

  ghost predicate Inv(s: Sys, job: Job) {
    && Semaphore.Inv(s.sem) && s.sem.max > 0
    && |s.sem.phases| == |s.workers| && |job.symbols| == |job.values|
    && (forall t :: 0 <= t < |s.workers| ==> WorkerOk(s.workers[t], s.sem.phases[t]))
    && ExactlyOnce(s, |job.symbols|)
    && s.results == RowsOf(job.symbols, job.values, s.handled)
  }

  lemma SpawnedPending(chunks: seq<Chunk>, i: nat)
    ensures Pending(Spawned(chunks), i) == Times(chunks, i)
  {
    assert Rests(Spawned(chunks)) == chunks;
  }

  lemma {:induction false} ChunksNonempty(n: nat, size: nat, t: nat, numThreads: nat)
    requires t <= numThreads
    ensures forall k :: 0 <= k < |ChunksFrom(n, size, t, numThreads)| ==>
              ChunksFrom(n, size, t, numThreads)[k].start < ChunksFrom(n, size, t, numThreads)[k].end
    decreases numThreads - t
  {
    if t < numThreads {
      ChunksNonempty(n, size, t + 1, numThreads);
    }
  }

  lemma InitInv(s: Sys, job: Job, max: nat, numThreads: nat)
    requires Init(s, job, max, numThreads)
    ensures Inv(s, job)
  {
    var n := |job.symbols|;
    Semaphore.InitInv(s.sem, max);
    ChunksNonempty(n, ChunkSize(n, numThreads), 0, numThreads);
    forall i: nat ensures Pending(s.workers, i) + multiset(s.handled)[i] == if i < n then 1 else 0 {
      SpawnedPending(Chunks(n, numThreads), i);
      ChunksPartition(n, numThreads, i);
    }
  }

  lemma AcquireInv(s: Sys, n: Sys, t: nat, job: Job)
    requires Inv(s, job) && Acquire(s, n, t)
    ensures Inv(n, job)
  {
    hide RowsOf, Pending, Semaphore.Inv;
    assert Semaphore.Step(s.sem, n.sem);
    Semaphore.StepInv(s.sem, n.sem);
  }

  lemma SpuriousInv(s: Sys, n: Sys, job: Job)
    requires Inv(s, job) && Spurious(s, n)
    ensures Inv(n, job)
  {
    hide RowsOf, Pending, Semaphore.Inv;
    var t: nat :| Semaphore.Spurious(s.sem, n.sem, t) && n == s.(sem := n.sem);
    assert Semaphore.Step(s.sem, n.sem);
    Semaphore.StepInv(s.sem, n.sem);
  }

  lemma UpdateInv(s: Sys, n: Sys, t: nat, job: Job)
    requires Inv(s, job) && Update(s, n, t, job)
    ensures Inv(n, job)
  {
    hide RowOf, Semaphore.Inv;
    var w := s.workers[t];
    assert WorkerOk(w, s.sem.phases[t]);
    forall i: nat ensures Pending(n.workers, i) + multiset(n.handled)[i] == if i < |job.symbols| then 1 else 0 {
      PendingUpdate(s.workers, t, w.(updated := true), i);
      assert Pending(s.workers, i) + multiset(s.handled)[i] == if i < |job.symbols| then 1 else 0;
    }
    assert n.handled[..|n.handled| - 1] == s.handled;
  }

  lemma ReleaseInv(s: Sys, n: Sys, t: nat, job: Job)
    requires Inv(s, job) && Release(s, n, t)
    ensures Inv(n, job)
  {
    hide RowsOf, Semaphore.Inv;
    var w := s.workers[t];
    assert WorkerOk(w, s.sem.phases[t]);
    assert Semaphore.Step(s.sem, n.sem);
    Semaphore.StepInv(s.sem, n.sem);
    forall i: nat ensures Pending(n.workers, i) == Pending(s.workers, i) {
      PendingUpdate(s.workers, t, n.workers[t], i);
    }
    forall u | 0 <= u < |n.workers| ensures WorkerOk(n.workers[u], n.sem.phases[u]) {
      assert WorkerOk(s.workers[u], s.sem.phases[u]);
    }
  }

  lemma StepInv(s: Sys, n: Sys, job: Job)
    requires Inv(s, job) && Step(s, n, job)
    ensures Inv(n, job)
  {
    if Spurious(s, n) {
      SpuriousInv(s, n, job);
    } else {
      var t: nat :| Acquire(s, n, t) || Update(s, n, t, job) || Release(s, n, t);
      if Acquire(s, n, t) {
        AcquireInv(s, n, t, job);
      } else if Update(s, n, t, job) {
        UpdateInv(s, n, t, job);
      } else {
        ReleaseInv(s, n, t, job);
      }
    }
  }

  /** Every reachable state keeps the invariant; in particular at most max updates run at once. */
  lemma {:induction false} Reachable(states: seq<Sys>, job: Job, max: nat, numThreads: nat)
    requires Run(states, job, max, numThreads)
    ensures Inv(states[|states| - 1], job)
  {
    var k := |states| - 1;
    if k == 0 {
      InitInv(states[0], job, max, numThreads);
    } else {
      var before := states[..k];
      forall i | 0 <= i < |before| - 1 ensures Step(before[i], before[i + 1], job) {
        assert Step(states[i], states[i + 1], job);
      }
      Reachable(before, job, max, numThreads);
      assert Step(states[k - 1], states[k], job);
      StepInv(states[k - 1], states[k], job);
    }
  }

  // Every schedule ends, and ends well.

  /** Work left for one thread: six per instrument, minus what it has done for the current one. */
  ghost function Effort(w: Worker, p: Semaphore.Phase): nat {
    if w.next >= w.end then 0
    else 6 * (w.end - w.next) +
         match p
         case Parked => 0
         case Inside => if w.updated then 1 else 2
         case _ => 3
  }

  ghost function TotalEffort(workers: seq<Worker>, phases: seq<Semaphore.Phase>): nat
    requires |workers| == |phases|
  {
    if workers == [] then 0 else Effort(workers[0], phases[0]) + TotalEffort(workers[1..], phases[1..])
  }

  lemma {:induction false} EffortUpdate(ws: seq<Worker>, ps: seq<Semaphore.Phase>, t: nat, w: Worker, p: Semaphore.Phase)
    requires |ws| == |ps| && t < |ws|
    ensures TotalEffort(ws[t := w], ps[t := p]) == TotalEffort(ws, ps) - Effort(ws[t], ps[t]) + Effort(w, p)
  {
    hide Effort;
    if t > 0 {
      assert ws[t := w][1..] == ws[1..][t - 1 := w] && ps[t := p][1..] == ps[1..][t - 1 := p];
      EffortUpdate(ws[1..], ps[1..], t - 1, w, p);
    } else {
      assert ws[0 := w][1..] == ws[1..] && ps[0 := p][1..] == ps[1..];
    }
  }

  /** Every step but a spurious wakeup consumes effort, so every schedule without them ends. */
  lemma ProgressDecreases(s: Sys, n: Sys, job: Job)
    requires Inv(s, job) && Progress(s, n, job)
    ensures |n.workers| == |n.sem.phases|
    ensures TotalEffort(n.workers, n.sem.phases) < TotalEffort(s.workers, s.sem.phases)
  {
    hide RowsOf, RowOf, Pending, Semaphore.Inv, TotalEffort;
    var t: nat :| Acquire(s, n, t) || Update(s, n, t, job) || Release(s, n, t);
    var w, p := s.workers[t], s.sem.phases[t];
    assert WorkerOk(w, p);
    if Release(s, n, t) && !Acquire(s, n, t) && !Update(s, n, t, job) {
      var left := s.sem.phases[t := Semaphore.Outside];
      EffortUpdate(s.workers, s.sem.phases, t, n.workers[t], Semaphore.Outside);
      if n.sem.phases != left {
        var u: nat :| Semaphore.Wakes(left, n.sem.phases, u);
        assert WorkerOk(s.workers[u], s.sem.phases[u]);
        EffortUpdate(n.workers, left, u, n.workers[u], Semaphore.Woken);
        assert n.workers[u := n.workers[u]] == n.workers;
      }
    } else {
      EffortUpdate(s.workers, s.sem.phases, t, n.workers[t], n.sem.phases[t]);
      assert n.workers == s.workers[t := n.workers[t]] && n.sem.phases == s.sem.phases[t := n.sem.phases[t]];
    }
  }

  /** No deadlock: while an instrument is left, some thread can take a step. */
  lemma NoDeadlock(s: Sys, job: Job) returns (n: Sys)
    requires Inv(s, job) && !Finished(s)
    ensures Progress(s, n, job)
  {
    hide RowsOf, RowOf, Pending, Semaphore.Inv;
    var t: nat :| t < |s.workers| && s.workers[t].next != s.workers[t].end;
    assert WorkerOk(s.workers[t], s.sem.phases[t]);
    if s.sem.phases[t] == Semaphore.Parked {
      Semaphore.NobodyStranded(s.sem);
      t :| 0 <= t < |s.sem.phases| && (s.sem.phases[t] == Semaphore.Inside ||
                                     (s.sem.phases[t] == Semaphore.Woken && s.sem.counter < s.sem.max));
      assert WorkerOk(s.workers[t], s.sem.phases[t]);
    }
    n := NextOf(s, job, t);
  }

  /** What a thread that is not parked does next. */
  lemma NextOf(s: Sys, job: Job, t: nat) returns (n: Sys)
    requires |s.sem.phases| == |s.workers| && t < |s.workers|
    requires s.workers[t].next < s.workers[t].end && s.sem.phases[t] != Semaphore.Parked
    ensures Progress(s, n, job)
  {
    var sem := s.sem;
    if sem.phases[t] == Semaphore.Inside && !s.workers[t].updated {
      var i := s.workers[t].next;
      n := s.(workers := s.workers[t := s.workers[t].(updated := true)],
              handled := s.handled + [i], results := s.results + RowOf(job.symbols, job.values, i));
      assert Update(s, n, t, job);
    } else if sem.phases[t] == Semaphore.Inside {
      var left := sem.phases[t := Semaphore.Outside];
      var phases := left;
      if u :| 0 <= u < |left| && left[u] == Semaphore.Parked {
        phases := left[u := Semaphore.Woken];
        assert Semaphore.Wakes(left, phases, u);
        assert phases[u] != left[u];
      }
      n := s.(sem := sem.(counter := Semaphore.SaturatingDecrement(sem.counter), phases := phases),
              workers := s.workers[t := Worker(s.workers[t].next + 1, s.workers[t].end, false)]);
      assert Release(s, n, t);
    } else if sem.counter < sem.max {
      n := s.(sem := sem.(counter := sem.counter + 1, phases := sem.phases[t := Semaphore.Inside]));
      assert Acquire(s, n, t);
    } else {
      n := s.(sem := sem.(phases := sem.phases[t := Semaphore.Parked]));
      assert Acquire(s, n, t);
    }
  }

  /** When the threads have been joined, every instrument was handled exactly once, and for distinct
      symbols the table is the header and the nonempty rows in instrument order: the same for every
      schedule, every number of threads and every semaphore size. */
  lemma FanOutResult(states: seq<Sys>, job: Job, max: nat, numThreads: nat, out: seq<Row>, header: seq<string>)
    requires Run(states, job, max, numThreads)
    requires var s := states[|states| - 1];
             Finished(s) && Distinct(job.symbols) && SortOf(out, s.results, CodeOrder(job.symbols))
    ensures HandledOnce(states[|states| - 1].handled, |job.symbols|)
    ensures Table(header, out) == [header] + NonEmpty(job.values)
  {
    var s := states[|states| - 1];
    Reachable(states, job, max, numThreads);
    forall i: nat ensures multiset(s.handled)[i] == if i < |job.symbols| then 1 else 0 {
      NothingTimes(Rests(s.workers), i);
      assert Pending(s.workers, i) + multiset(s.handled)[i] == if i < |job.symbols| then 1 else 0;
    }
    OutputDetermined(job.symbols, job.values, s.handled, s.results, out, header);
  }

  /** A run in which no thread can move any more is a finished one. */
  lemma StuckMeansFinished(states: seq<Sys>, job: Job, max: nat, numThreads: nat)
    requires Run(states, job, max, numThreads)
    requires Stuck(states[|states| - 1], job)
    ensures Finished(states[|states| - 1])
  {
    Reachable(states, job, max, numThreads);
    if !Finished(states[|states| - 1]) {
      var n := NoDeadlock(states[|states| - 1], job);
    }
  }

  /** Without spurious wakeups a run has no more steps than the effort of its initial state. */
  lemma {:induction false} RunsEnd(states: seq<Sys>, job: Job, max: nat, numThreads: nat)
    requires Run(states, job, max, numThreads)
    requires forall k :: 0 <= k < |states| - 1 ==> Progress(states[k], states[k + 1], job)
    ensures |states[0].workers| == |states[0].sem.phases|
    ensures var last := states[|states| - 1];
            |last.workers| == |last.sem.phases| &&
            |states| - 1 + TotalEffort(last.workers, last.sem.phases)
            <= TotalEffort(states[0].workers, states[0].sem.phases)
  {
    hide TotalEffort, Progress, Init, Inv;
    var k := |states| - 1;
    InitShape(states[0], job, max, numThreads);
    if k > 0 {
      var before := states[..k];
      forall i | 0 <= i < |before| - 1
        ensures Step(before[i], before[i + 1], job) && Progress(before[i], before[i + 1], job)
      {
        assert Progress(states[i], states[i + 1], job) && Step(states[i], states[i + 1], job);
      }
      RunsEnd(before, job, max, numThreads);
      Reachable(before, job, max, numThreads);
      assert Progress(states[k - 1], states[k - 1 + 1], job);
      ProgressDecreases(states[k - 1], states[k], job);
    }
  }

  lemma InitShape(s: Sys, job: Job, max: nat, numThreads: nat)
    requires Init(s, job, max, numThreads)
    ensures |s.workers| == |s.sem.phases|
  {
  }
}
