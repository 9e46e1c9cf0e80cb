/** What the callers of the queue are told, and what a thread that is left alone achieves. */
module RingBufferAnswers {
  import opened RingBuffer

  // Refusals.

  predicate Pushing(pc: Pc) { pc.PushLoad? || pc.PushSeq? || pc.PushCas? }

  predicate Popping(pc: Pc) { pc.PopLoad? || pc.PopSeq? || pc.PopClosed? || pc.PopCas? }

  /** The consumers are up to cap elements behind, or one of them is still taking the element that used the slot. */
  ghost predicate NoRoom(s: Sys, pos: nat, cap: nat) {
    s.q.enq - s.q.deq == cap || exists u :: 0 <= u < |s.pcs| && Consumes(s.pcs[u], pos - cap)
  }

  ghost predicate NothingThere(s: Sys) {
    s.q.deq == s.q.enq || exists u :: 0 <= u < |s.pcs| && Produces(s.pcs[u], s.q.deq)
  }

  /** A push is refused only where there is no room, or, if it tries just once more, because it lost its position
      twice or its weak exchange failed. */
  lemma PushRefused(states: seq<Sys>, cap: nat, t: nat, choice: Choice)
    requires Run(states, cap) && cap >= 2 && t < |states[|states| - 1].pcs|
    requires Pushing(states[|states| - 1].pcs[t]) && |states[|states| - 1].q.slots| > 0
    ensures var s := states[|states| - 1];
            var pc := s.pcs[t];
            After(s, t, choice).pcs[t] == Idle(Failed) ==>
              || (pc.PushSeq? && NoRoom(s, pc.pos, cap))
              || (!pc.PushLoad? && pc.mode == Trying(true) && (pc.pos < s.q.enq || choice == Go(true)))
  {
    var s := states[|states| - 1];
    var pc := s.pcs[t];
    if pc.PushSeq? && SlotAt(s.q, pc.pos).stamp < pc.pos {
      FullMeans(states, cap, t);
    } else if pc.PushSeq? {
      RetryMeansOvertaken(states, cap, t);
      var duties := Reachable(states, cap);
      BeyondMeansClaimed(s, cap, duties, pc.pos);
    } else if pc.PushCas? {
      RetryMeansOvertaken(states, cap, t);
    }
  }

  /** A pop is refused only where nothing is there and it does not wait, where it waits but the queue was closed, or,
      if it tries just once more, because it lost its position twice or its weak exchange failed. */
  lemma PopRefused(states: seq<Sys>, cap: nat, t: nat, choice: Choice)
    requires Run(states, cap) && cap >= 2 && t < |states[|states| - 1].pcs|
    requires Popping(states[|states| - 1].pcs[t]) && |states[|states| - 1].q.slots| > 0
    ensures var s := states[|states| - 1];
            var pc := s.pcs[t];
            After(s, t, choice).pcs[t] == Idle(Failed) ==>
              || (pc.mode == Blocking && pc.PopClosed? && s.q.closed)
              || (pc.mode != Blocking && pc.PopSeq? && NothingThere(s))
              || (pc.mode == Trying(true) && (pc.PopSeq? || pc.PopCas?) && (pc.pos < s.q.deq || choice == Go(true)))
  {
    var s := states[|states| - 1];
    var pc := s.pcs[t];
    if pc.PopClosed? {
      OnlyBlockingAsks(states, cap, t);
    } else if pc.PopSeq? && SlotAt(s.q, pc.pos).stamp < pc.pos + 1 {
      EmptyMeans(states, cap, t);
    } else if pc.PopSeq? {
      var duties := Reachable(states, cap);
      BeyondMeansClaimed(s, cap, duties, pc.pos);
    } else if pc.PopCas? {
      RetryMeansOvertaken(states, cap, t);
    }
  }

  lemma Shorter(states: seq<Sys>, cap: nat)
    requires Run(states, cap) && |states| > 1
    ensures var k := |states| - 1; Run(states[..k], cap) && Step(states[k - 1], states[k])
  {
    hide Step, Init;
    var k := |states| - 1;
    forall i | 0 <= i < k - 1 ensures Step(states[..k][i], states[..k][i + 1]) {
      assert Step(states[i], states[i + 1]);
    }
    assert Step(states[k - 1], states[k - 1 + 1]);
  }

  lemma {:induction false} OnlyBlockingAsks(states: seq<Sys>, cap: nat, t: nat)
    requires Run(states, cap) && t < |states[|states| - 1].pcs| && states[|states| - 1].pcs[t].PopClosed?
    ensures states[|states| - 1].pcs[t].mode == Blocking
  {
    if |states| > 1 {
      var k := |states| - 1;
      Shorter(states, cap);
      if states[k - 1].pcs[t].PopClosed? {
        OnlyBlockingAsks(states[..k], cap, t);
      }
    }
  }

  // Closing.

  ghost predicate ClosedAt(states: seq<Sys>, i: int, u: nat) {
    0 <= i < |states| - 1 && |states[i].q.slots| > 0 && u < |states[i].pcs| && states[i].pcs[u].Idle? &&
    StepOf(states[i], states[i + 1], u, Close)
  }

  /** A queue is closed exactly when somebody has closed it before; it is never opened again. */
  lemma ClosedExactly(states: seq<Sys>, cap: nat)
    requires Run(states, cap)
    ensures states != [] && (states[|states| - 1].q.closed <==> exists i, u :: ClosedAt(states, i, u))
  {
    RunStarts(states, cap);
    if i, u :| ClosedAt(states, i, u) {
      assert states[i + 1].q.closed;
      StaysClosed(states, cap, i + 1, |states| - 1);
    }
    if states[|states| - 1].q.closed {
      var i, u := SomebodyClosed(states, cap);
    }
  }

  lemma {:induction false} SomebodyClosed(states: seq<Sys>, cap: nat) returns (i: nat, u: nat)
    requires Run(states, cap) && states != [] && states[|states| - 1].q.closed
    ensures ClosedAt(states, i, u)
  {
    var k := |states| - 1;
    if k == 0 {
      assert false;
    } else {
      Shorter(states, cap);
      hide Run;
      if states[k - 1].q.closed {
        i, u := SomebodyClosed(states[..k], cap);
      } else {
        var w: nat, choice :| StepOf(states[k - 1], states[k], w, choice);
        i, u := k - 1, w;
      }
    }
  }

  /** Once it is closed, a waiting pop that finds nothing asks, and is then told to give up, however long others go on
      in between. */
  lemma ClosedPopEnds(states: seq<Sys>, cap: nat, i: nat, t: nat, choice: Choice)
    requires Run(states, cap) && i < |states| && states[i].q.closed && t < |states[|states| - 1].pcs|
    requires |states[|states| - 1].q.slots| > 0 && choice.Go?
    ensures var s := states[|states| - 1];
            var pc, next := s.pcs[t], After(s, t, choice).pcs[t];
            && (pc.PopSeq? && pc.mode == Blocking && SlotAt(s.q, pc.pos).stamp < pc.pos + 1 ==> next == PopClosed(Blocking))
            && (pc.PopClosed? ==> next == Idle(Failed))
    decreases |states|
  {
    if i < |states| - 1 {
      StaysClosed(states, cap, i, |states| - 1);
    }
  }

  lemma {:induction false} StaysClosed(states: seq<Sys>, cap: nat, i: nat, j: nat)
    requires Run(states, cap) && i <= j < |states| && states[i].q.closed
    ensures states[j].q.closed
    decreases j
  {
    if i < j {
      StaysClosed(states, cap, i, j - 1);
      assert Step(states[j - 1], states[j - 1 + 1]);
    }
  }

  // A thread that is left alone.

  /** One step of the thread t, the others standing where pcs says. */
  lemma Advance(states: seq<Sys>, cap: nat, t: nat, pcs: seq<Pc>, pc: Pc, choice: Choice) returns (more: seq<Sys>)
    requires Run(states, cap) && t < |pcs|
    requires |states[|states| - 1].q.slots| > 0 && states[|states| - 1].pcs == pcs[t := pc]
    ensures more != [] && states <= more && Run(more, cap)
    ensures var s := states[|states| - 1];
            var (q, next) := Move(s.q, pc, choice);
            more[|more| - 1]
            == Sys(q, pcs[t := next], if next.PushStore? && pc.PushCas? then s.pushed + [next.v] else s.pushed,
                   if next.PopRelease? && pc.PopTake? then s.got[next.pos := next.value] else s.got)
  {
    more := Extend(states, cap, t, choice);
    hide Run, Move;
    var s := states[|states| - 1];
    var next := Move(s.q, pc, choice).1;
    assert pcs[t := pc][t := next] == pcs[t := next];
  }

  /** With nobody else at work a push puts its element at the end of the queue, or says that the queue is full. */
  lemma LonePush(states: seq<Sys>, cap: nat, t: nat, v: int, mode: Mode) returns (more: seq<Sys>)
    requires Run(states, cap) && cap >= 2 && Quiet(states[|states| - 1]) && t < |states[|states| - 1].pcs|
    requires mode == Blocking || mode == Trying(false)
    ensures more != [] && states <= more && Run(more, cap)
    ensures var s, n := states[|states| - 1], more[|more| - 1];
            if s.q.enq - s.q.deq < cap then
              && n.pcs == s.pcs[t := Idle(Pushed)] && n.pushed == s.pushed + [v] && n.got == s.got
              && n.q.enq == s.q.enq + 1 && n.q.deq == s.q.deq && n.q.closed == s.q.closed
            else n == s.(pcs := s.pcs[t := Idle(Failed)])
  {
    QuietIsList(states, cap);
    var s := states[|states| - 1];
    assert s.pcs[t := s.pcs[t]] == s.pcs;
    var seen := SlotAt(s.q, s.q.enq).stamp;
    SafeAt(states, cap);
    assert seen < s.q.enq <==> s.q.enq - s.q.deq == cap;
    hide Run, Quiet, Index, SlotAt;
    more := Advance(states, cap, t, s.pcs, s.pcs[t], BeginPush(v, mode));
    more := Advance(more, cap, t, s.pcs, PushLoad(v, mode), Go(false));
    more := Advance(more, cap, t, s.pcs, PushSeq(v, mode, s.q.enq), Go(false));
    if s.q.enq - s.q.deq < cap {
      assert more[|more| - 1] == s.(pcs := s.pcs[t := PushCas(v, mode, s.q.enq)]);
      more := Claimed(more, cap, t, s, v, mode);
    }
  }

  lemma Claimed(states: seq<Sys>, cap: nat, t: nat, s: Sys, v: int, mode: Mode) returns (more: seq<Sys>)
    requires Run(states, cap) && t < |s.pcs| && |s.q.slots| > 0
    requires states[|states| - 1] == s.(pcs := s.pcs[t := PushCas(v, mode, s.q.enq)])
    ensures more != [] && states <= more && Run(more, cap)
    ensures var n := more[|more| - 1];
            && n.pcs == s.pcs[t := Idle(Pushed)] && n.pushed == s.pushed + [v] && n.got == s.got
            && n.q.enq == s.q.enq + 1 && n.q.deq == s.q.deq && n.q.closed == s.q.closed
  {
    hide Run, Index, SlotAt;
    more := Advance(states, cap, t, s.pcs, PushCas(v, mode, s.q.enq), Go(false));
    more := Advance(more, cap, t, s.pcs, PushStore(v, s.q.enq), Go(false));
    more := Advance(more, cap, t, s.pcs, PushPublish(s.q.enq), Go(false));
  }

  /** A pop takes the oldest element. Where there is none it is refused, except that a blocking pop on an open queue
      starts again. */
  lemma LonePop(states: seq<Sys>, cap: nat, t: nat, mode: Mode) returns (more: seq<Sys>)
    requires Run(states, cap) && cap >= 2 && Quiet(states[|states| - 1]) && t < |states[|states| - 1].pcs|
    requires mode == Blocking || mode == Trying(false)
    ensures more != [] && states <= more && Run(more, cap)
    ensures var s, n := states[|states| - 1], more[|more| - 1];
            if s.q.deq < s.q.enq then
              s.q.enq == |s.pushed| &&
              var oldest := s.pushed[s.q.deq];
              && n.pcs == s.pcs[t := Idle(Popped(oldest))] && n.pushed == s.pushed && n.got == s.got[s.q.deq := oldest]
              && n.q.enq == s.q.enq && n.q.deq == s.q.deq + 1 && n.q.closed == s.q.closed
            else if mode == Blocking && !s.q.closed then n == s.(pcs := s.pcs[t := PopLoad(Blocking)])
            else n == s.(pcs := s.pcs[t := Idle(Failed)])
  {
    QuietIsList(states, cap);
    var s := states[|states| - 1];
    assert s.pcs[t := s.pcs[t]] == s.pcs;
    var slot := SlotAt(s.q, s.q.deq);
    assert slot.stamp == s.q.deq + 1 <==> s.q.deq < s.q.enq;
    assert slot.stamp < s.q.deq + 1 <==> s.q.deq == s.q.enq;
    assert s.q.deq < s.q.enq ==> slot.cell == Holding(s.pushed[s.q.deq]);
    assert SlotAt(s.q.(deq := s.q.deq + 1), s.q.deq) == slot;
    hide Run, Quiet, Index, SlotAt;
    more := Advance(states, cap, t, s.pcs, s.pcs[t], BeginPop(mode));
    more := Advance(more, cap, t, s.pcs, PopLoad(mode), Go(false));
    more := Advance(more, cap, t, s.pcs, PopSeq(mode, s.q.deq), Go(false));
    if s.q.deq < s.q.enq {
      assert more[|more| - 1] == s.(pcs := s.pcs[t := PopCas(mode, s.q.deq)]);
      more := Taken(more, cap, t, s, mode, s.pushed[s.q.deq]);
    } else if mode == Blocking {
      more := Advance(more, cap, t, s.pcs, PopClosed(mode), Go(false));
    }
  }

  lemma Taken(states: seq<Sys>, cap: nat, t: nat, s: Sys, mode: Mode, value: int) returns (more: seq<Sys>)
    requires Run(states, cap) && t < |s.pcs| && |s.q.slots| > 0
    requires states[|states| - 1] == s.(pcs := s.pcs[t := PopCas(mode, s.q.deq)])
    requires SlotAt(s.q.(deq := s.q.deq + 1), s.q.deq).cell == Holding(value)
    ensures more != [] && states <= more && Run(more, cap)
    ensures var n := more[|more| - 1];
            && n.pcs == s.pcs[t := Idle(Popped(value))] && n.pushed == s.pushed && n.got == s.got[s.q.deq := value]
            && n.q.enq == s.q.enq && n.q.deq == s.q.deq + 1 && n.q.closed == s.q.closed
  {
    hide Run, Index, SlotAt;
    more := Advance(states, cap, t, s.pcs, PopCas(mode, s.q.deq), Go(false));
    more := Advance(more, cap, t, s.pcs, PopTake(s.q.deq), Go(false));
    more := Advance(more, cap, t, s.pcs, PopRelease(s.q.deq, value), Go(false));
  }

  /** And closing takes one step. */
  lemma LoneClose(states: seq<Sys>, cap: nat, t: nat) returns (more: seq<Sys>)
    requires Run(states, cap) && |states[|states| - 1].q.slots| > 0
    requires t < |states[|states| - 1].pcs| && states[|states| - 1].pcs[t].Idle?
    ensures more != [] && states <= more && Run(more, cap)
    ensures var s := states[|states| - 1]; more[|more| - 1] == s.(q := s.q.(closed := true))
  {
    more := Extend(states, cap, t, Close);
    hide Run;
    var s := states[|states| - 1];
    assert s.pcs[t := s.pcs[t]] == s.pcs;
  }
}
