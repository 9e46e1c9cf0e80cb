/** The bounded queue for many producers and consumers: per-slot sequence numbers and two cursors, as
    interleaved steps of any number of threads. */
module RingBuffer {
  import opened Words
  import PowerOfTwo

  /** The storage of a slot: uninitialised, or an element. */
  datatype Cell = Raw | Holding(value: int)

  datatype Slot = Slot(stamp: nat, cell: Cell)

  datatype Queue = Queue(slots: seq<Slot>, enq: nat, deq: nat, closed: bool)

  /** Blocking calls retry for ever, try_ calls once. */
  datatype Mode = Blocking | Trying(retried: bool)

  datatype Outcome = Nothing | Pushed | Popped(value: int) | Failed

  /** Where a thread stands. */
  datatype Pc =
    | Idle(last: Outcome)
    | PushLoad(v: int, mode: Mode)           // read enqueue_pos_
    | PushSeq(v: int, mode: Mode, pos: nat)  // read the slot's seq and compare it
    | PushCas(v: int, mode: Mode, pos: nat)  // claim the position
    | PushStore(v: int, pos: nat)            // construct the element in the slot
    | PushPublish(pos: nat)                  // seq := pos + 1
    | PopLoad(mode: Mode)                    // read dequeue_pos_
    | PopSeq(mode: Mode, pos: nat)
    | PopClosed(mode: Mode)                  // empty: is the queue closed?
    | PopCas(mode: Mode, pos: nat)
    | PopTake(pos: nat)                      // move the element out and destroy it
    | PopRelease(pos: nat, value: int)       // seq := pos + mask + 1

  /** What a thread decides at a step: to go on (a weak compare-exchange may fail without reason), or,
      when idle, what to begin. */
  datatype Choice = Go(spurious: bool) | BeginPush(v: int, mode: Mode) | BeginPop(mode: Mode) | Close

  /** The queue, the threads, the elements in the order their positions were claimed, and what was taken
      out at each position. */
  datatype Sys = Sys(q: Queue, pcs: seq<Pc>, pushed: seq<int>, got: map<nat, int>)

  /** pos & mask_. */
  function Index(q: Queue, pos: nat): (i: nat)
    requires |q.slots| > 0
    ensures i < |q.slots|
  {
    pos % |q.slots|
  }

  function SlotAt(q: Queue, pos: nat): Slot
    requires |q.slots| > 0
  {
    q.slots[Index(q, pos)]
  }

  function WithSlot(q: Queue, pos: nat, slot: Slot): Queue
    requires |q.slots| > 0
  {
    q.(slots := q.slots[Index(q, pos) := slot])
  }

  /** After losing a race: try again, or give up. */
  function PushAgain(v: int, mode: Mode): Pc {
    match mode
    case Blocking => PushLoad(v, Blocking)
    case Trying(retried) => if retried then Idle(Failed) else PushLoad(v, Trying(true))
  }

  function PopAgain(mode: Mode): Pc {
    match mode
    case Blocking => PopLoad(Blocking)
    case Trying(retried) => if retried then Idle(Failed) else PopLoad(Trying(true))
  }

  predicate Fresh(mode: Mode) { mode == Blocking || mode == Trying(false) }

  /** One step of a thread. */
  function Move(q: Queue, pc: Pc, choice: Choice): (Queue, Pc)
    requires |q.slots| > 0
  {
    match (pc, choice)
    case (Idle(_), BeginPush(v, mode)) => (q, if Fresh(mode) then PushLoad(v, mode) else pc)
    case (Idle(_), BeginPop(mode)) => (q, if Fresh(mode) then PopLoad(mode) else pc)
    case (Idle(_), Close) => (q.(closed := true), pc)
    case (PushLoad(v, mode), Go(_)) => (q, PushSeq(v, mode, q.enq))
    case (PushSeq(v, mode, pos), Go(_)) =>
      var seen := SlotAt(q, pos).stamp;
      (q, if seen == pos then PushCas(v, mode, pos) else if seen < pos then Idle(Failed) else PushAgain(v, mode))
    case (PushCas(v, mode, pos), Go(spurious)) =>
      if q.enq == pos && !spurious then (q.(enq := pos + 1), PushStore(v, pos)) else (q, PushAgain(v, mode))
    case (PushStore(v, pos), Go(_)) => (WithSlot(q, pos, SlotAt(q, pos).(cell := Holding(v))), PushPublish(pos))
    case (PushPublish(pos), Go(_)) => (WithSlot(q, pos, SlotAt(q, pos).(stamp := pos + 1)), Idle(Pushed))
    case (PopLoad(mode), Go(_)) => (q, PopSeq(mode, q.deq))
    case (PopSeq(mode, pos), Go(_)) =>
      var seen := SlotAt(q, pos).stamp;
      (q, if seen == pos + 1 then PopCas(mode, pos)
          else if seen < pos + 1 then (if mode == Blocking then PopClosed(mode) else Idle(Failed))
          else PopAgain(mode))
    case (PopClosed(mode), Go(_)) => (q, if q.closed then Idle(Failed) else PopAgain(mode))
    case (PopCas(mode, pos), Go(spurious)) =>
      if q.deq == pos && !spurious then (q.(deq := pos + 1), PopTake(pos)) else (q, PopAgain(mode))
    case (PopTake(pos), Go(_)) =>
      var slot := SlotAt(q, pos);
      // taking from uninitialised storage yields no particular value
      (WithSlot(q, pos, slot.(cell := Raw)), PopRelease(pos, if slot.cell.Holding? then slot.cell.value else 0))
    case (PopRelease(pos, value), Go(_)) =>
      (WithSlot(q, pos, SlotAt(q, pos).(stamp := pos + |q.slots|)), Idle(Popped(value)))
    case _ => (q, pc)
  }

  /** The state after a step of thread t. */
  function After(s: Sys, t: nat, choice: Choice): Sys
    requires |s.q.slots| > 0 && t < |s.pcs|
  {
    var (q, pc) := Move(s.q, s.pcs[t], choice);
    Sys(q, s.pcs[t := pc],
        if pc.PushStore? && s.pcs[t].PushCas? then s.pushed + [pc.v] else s.pushed,
        if pc.PopRelease? && s.pcs[t].PopTake? then s.got[pc.pos := pc.value] else s.got)
  }

  ghost predicate StepOf(s: Sys, n: Sys, t: nat, choice: Choice)
    requires |s.q.slots| > 0
  {
    t < |s.pcs| && n == After(s, t, choice)
  }

  ghost predicate Step(s: Sys, n: Sys) {
    |s.q.slots| > 0 && exists t: nat, choice :: StepOf(s, n, t, choice)
  }

  /** The constructor: slot i carries sequence number i. */
  ghost predicate Init(s: Sys, cap: nat) {
    && s.q == Queue(seq(cap, (i: nat) => Slot(i, Raw)), 0, 0, false)
    && s.pushed == [] && s.got == map[]
    && forall t :: 0 <= t < |s.pcs| ==> s.pcs[t] == Idle(Nothing)
  }

  ghost predicate Run(states: seq<Sys>, cap: nat) {
    && states != [] && Init(states[0], cap)
    && forall i :: 0 <= i < |states| - 1 ==> Step(states[i], states[i + 1])
  }

  // What the queue promises.

  /** No element is overwritten, read from nothing or taken twice, at most cap are claimed and not yet
      taken, and what came out at a position is what went in there. */
  ghost predicate Safe(s: Sys, cap: nat) {
    && |s.q.slots| == cap > 0
    && s.q.deq <= s.q.enq == |s.pushed| && s.q.enq <= s.q.deq + cap
    && (forall t :: 0 <= t < |s.pcs| && s.pcs[t].PushStore? ==> SlotAt(s.q, s.pcs[t].pos).cell == Raw)
    && (forall t :: 0 <= t < |s.pcs| && s.pcs[t].PopTake? ==>
          SlotAt(s.q, s.pcs[t].pos).cell.Holding? && s.pcs[t].pos !in s.got)
    && (forall p <- s.got :: p < |s.pushed| && s.got[p] == s.pushed[p])
  }

  // The invariant, in terms of the position each slot serves and the thread at work there.

  datatype Duty = Duty(ticket: nat, owner: nat)

  /** Positions of one slot are cap apart. */
  lemma SameSlot(a: nat, b: nat, cap: nat)
    requires cap > 0 && a % cap == b % cap && a <= b < a + cap
    ensures a == b
  {
    Quotients(a, b, cap, a / cap, b / cap, a % cap);
  }

  lemma Quotients(a: nat, b: nat, cap: nat, x: int, y: int, r: nat)
    requires cap > 0 && a <= b < a + cap && a == x * cap + r && b == y * cap + r
    ensures a == b
  {
    MultipleBound(y - x, cap);
    assert (y - x) * cap == b - a;
  }

  lemma NextRound(a: nat, cap: nat)
    requires cap > 0
    ensures (a + cap) % cap == a % cap
  {
    ModUnique(a + cap, a / cap + 1, cap, a % cap);
  }

  ghost predicate SlotOk(s: Sys, duty: Duty, i: nat)
    requires i < |s.q.slots|
  {
    var cap, slot, p := |s.q.slots|, s.q.slots[i], duty.ticket;
    && p % cap == i && s.q.enq <= p + cap && p < s.q.deq + cap
    && |s.pushed| == s.q.enq
    && (slot.stamp == p || slot.stamp == p + 1)
    && (slot.stamp == p ==>
          && s.q.deq <= p
          && (s.q.enq <= p ==> slot.cell == Raw)
          && (p < s.q.enq ==>
                && duty.owner < |s.pcs|
                && ((s.pcs[duty.owner] == PushStore(s.pushed[p], p) && slot.cell == Raw)
                    || (s.pcs[duty.owner] == PushPublish(p) && slot.cell == Holding(s.pushed[p])))))
    && (slot.stamp == p + 1 ==>
          && p < s.q.enq
          && (s.q.deq <= p ==> slot.cell == Holding(s.pushed[p]))
          && (p < s.q.deq ==>
                && duty.owner < |s.pcs|
                && ((s.pcs[duty.owner] == PopTake(p) && slot.cell == Holding(s.pushed[p]))
                    || (s.pcs[duty.owner] == PopRelease(p, s.pushed[p]) && slot.cell == Raw))))
  }

  ghost predicate ThreadOk(s: Sys, duties: seq<Duty>, t: nat, pc: Pc)
    requires |duties| == |s.q.slots| > 0
  {
    match pc
    case PushSeq(_, _, pos) => pos <= s.q.enq
    case PushCas(_, _, pos) =>
      && pos <= s.q.enq
      && (pos == s.q.enq ==> SlotAt(s.q, pos) == Slot(pos, Raw) && duties[Index(s.q, pos)].ticket == pos)
    case PushStore(v, pos) =>
      pos < s.q.enq && duties[Index(s.q, pos)] == Duty(pos, t) && SlotAt(s.q, pos) == Slot(pos, Raw)
    case PushPublish(pos) =>
      pos < s.q.enq && duties[Index(s.q, pos)] == Duty(pos, t) && SlotAt(s.q, pos).stamp == pos
    case PopSeq(_, pos) => pos <= s.q.deq
    case PopCas(_, pos) =>
      && pos <= s.q.deq && pos < s.q.enq
      && (pos == s.q.deq ==> SlotAt(s.q, pos).stamp == pos + 1 && duties[Index(s.q, pos)].ticket == pos)
    case PopTake(pos) =>
      && pos < s.q.deq && duties[Index(s.q, pos)] == Duty(pos, t) && SlotAt(s.q, pos).stamp == pos + 1
      && SlotAt(s.q, pos).cell.Holding? && pos !in s.got
    case PopRelease(pos, _) =>
      && pos < s.q.deq && duties[Index(s.q, pos)] == Duty(pos, t) && SlotAt(s.q, pos) == Slot(pos + 1, Raw)
      && pos in s.got
    case _ => true
  }

  /** Every position up to the consumers' cursor was taken, or is being taken. */
  ghost predicate TakenOk(s: Sys, duties: seq<Duty>, p: nat)
    requires |duties| == |s.q.slots| > 0
  {
    p in s.got || (duties[Index(s.q, p)].ticket == p && SlotAt(s.q, p).cell.Holding?)
  }

  ghost predicate Inv(s: Sys, cap: nat, duties: seq<Duty>) {
    && |s.q.slots| == |duties| == cap >= 2
    && s.q.deq <= s.q.enq == |s.pushed|
    && (forall i :: 0 <= i < cap ==> SlotOk(s, duties[i], i))
    && (forall t :: 0 <= t < |s.pcs| ==> ThreadOk(s, duties, t, s.pcs[t]))
    && (forall p :: 0 <= p < s.q.deq ==> TakenOk(s, duties, p))
    && (forall p <- s.got :: p < s.q.deq && s.got[p] == s.pushed[p])
  }

  lemma InitInv(s: Sys, cap: nat) returns (duties: seq<Duty>)
    requires Init(s, cap) && cap >= 2
    ensures Inv(s, cap, duties)
  {
    duties := seq(cap, (i: nat) => Duty(i, 0));
    forall i | 0 <= i < cap ensures SlotOk(s, duties[i], i) {
      ModUnique(i, 0, cap, i);
    }
  }

  // Each kind of step keeps it.

  /** The thread is at work on a slot it has claimed. */
  predicate AtWork(pc: Pc) { pc.PushStore? || pc.PushPublish? || pc.PopTake? || pc.PopRelease? }

  /** A step that only moves a thread that owns nothing. */
  lemma LocalInv(s: Sys, n: Sys, t: nat, pc: Pc, cap: nat, duties: seq<Duty>)
    requires Inv(s, cap, duties) && t < |s.pcs| && !AtWork(s.pcs[t]) && !AtWork(pc)
    requires n == s.(q := s.q.(closed := n.q.closed), pcs := s.pcs[t := pc])
    requires ThreadOk(s, duties, t, pc)
    ensures Inv(n, cap, duties)
  {
    forall i | 0 <= i < cap ensures SlotOk(n, duties[i], i) {
      assert SlotOk(s, duties[i], i);
    }
    forall u | 0 <= u < |n.pcs| ensures ThreadOk(n, duties, u, n.pcs[u]) {
      assert u != t ==> ThreadOk(s, duties, u, s.pcs[u]);
    }
    forall p | 0 <= p < n.q.deq ensures TakenOk(n, duties, p) {
      assert TakenOk(s, duties, p);
    }
  }

  /** A producer that sees its position's number in the slot finds the slot free, unless the position is
      already claimed. Here at least two slots are needed. */
  lemma SeenFree(s: Sys, pos: nat, cap: nat, duties: seq<Duty>)
    requires Inv(s, cap, duties) && pos == s.q.enq && SlotAt(s.q, pos).stamp == pos
    ensures SlotAt(s.q, pos) == Slot(pos, Raw) && duties[Index(s.q, pos)].ticket == pos
  {
    var i := Index(s.q, pos);
    assert SlotOk(s, duties[i], i);
    if duties[i].ticket == pos - 1 {
      SameSlot(pos - 1, pos, cap);
    }
  }

  /** And a consumer that sees the next number finds the slot filled for its position. */
  lemma SeenFilled(s: Sys, pos: nat, cap: nat, duties: seq<Duty>)
    requires Inv(s, cap, duties) && SlotAt(s.q, pos).stamp == pos + 1
    ensures pos < s.q.enq && duties[Index(s.q, pos)].ticket == pos
  {
    var i := Index(s.q, pos);
    assert SlotOk(s, duties[i], i);
    if duties[i].ticket == pos + 1 {
      SameSlot(pos, pos + 1, cap);
    }
  }

  lemma ClaimPushInv(s: Sys, n: Sys, t: nat, cap: nat, duties: seq<Duty>) returns (d: seq<Duty>)
    requires Inv(s, cap, duties) && t < |s.pcs| && s.pcs[t].PushCas? && s.pcs[t].pos == s.q.enq
    requires var pos, v := s.q.enq, s.pcs[t].v;
             n == Sys(s.q.(enq := pos + 1), s.pcs[t := PushStore(v, pos)], s.pushed + [v], s.got)
    ensures Inv(n, cap, d)
  {
    var pos := s.q.enq;
    var k := Index(s.q, pos);
    d := duties[k := Duty(pos, t)];
    assert ThreadOk(s, duties, t, s.pcs[t]);
    forall i | 0 <= i < cap ensures SlotOk(n, d[i], i) {
      assert SlotOk(s, duties[i], i);
      if i != k && pos == duties[i].ticket + cap {
        NextRound(duties[i].ticket, cap);
      }
    }
    forall u | 0 <= u < |n.pcs| ensures ThreadOk(n, d, u, n.pcs[u]) {
      assert ThreadOk(s, duties, u, s.pcs[u]);
    }
    forall p | 0 <= p < n.q.deq ensures TakenOk(n, d, p) {
      assert TakenOk(s, duties, p);
    }
  }

  lemma StoreInv(s: Sys, n: Sys, t: nat, cap: nat, duties: seq<Duty>)
    requires Inv(s, cap, duties) && t < |s.pcs| && s.pcs[t].PushStore?
    requires var pos, v := s.pcs[t].pos, s.pcs[t].v;
             n == s.(q := WithSlot(s.q, pos, SlotAt(s.q, pos).(cell := Holding(v))), pcs := s.pcs[t := PushPublish(pos)])
    ensures Inv(n, cap, duties)
  {
    var pos := s.pcs[t].pos;
    var k := Index(s.q, pos);
    assert ThreadOk(s, duties, t, s.pcs[t]);
    forall i | 0 <= i < cap ensures SlotOk(n, duties[i], i) {
      assert SlotOk(s, duties[i], i);
    }
    OthersKeep(s, n, t, k, cap, duties, duties);
  }

  /** What a step of the owner of slot k leaves of the other threads and of the taken positions. */
  lemma OthersKeep(s: Sys, n: Sys, t: nat, k: nat, cap: nat, duties: seq<Duty>, d: seq<Duty>)
    requires Inv(s, cap, duties) && t < |s.pcs| && k < cap && AtWork(s.pcs[t])
    requires |n.q.slots| == cap == |d| && n.q.enq == s.q.enq && n.q.deq == s.q.deq && n.pushed == s.pushed
    requires n.q.slots == s.q.slots[k := n.q.slots[k]] && d == duties[k := d[k]]
    requires |n.pcs| == |s.pcs| && n.pcs == s.pcs[t := n.pcs[t]] && ThreadOk(n, d, t, n.pcs[t])
    requires duties[k].owner == t && Index(s.q, s.pcs[t].pos) == k && s.pcs[t].pos == duties[k].ticket
    requires s.got.Keys <= n.got.Keys <= s.got.Keys + {s.pcs[t].pos}
    requires s.pcs[t].pos < s.q.deq ==> s.pcs[t].pos in n.got
    ensures forall u :: 0 <= u < |n.pcs| ==> ThreadOk(n, d, u, n.pcs[u])
    ensures forall p :: 0 <= p < n.q.deq ==> TakenOk(n, d, p)
  {
    forall u | 0 <= u < |n.pcs| ensures ThreadOk(n, d, u, n.pcs[u]) {
      if u != t {
        assert ThreadOk(s, duties, u, s.pcs[u]);
        assert SlotOk(s, duties[k], k);
        assert ThreadOk(s, duties, t, s.pcs[t]);
      }
    }
    forall p | 0 <= p < n.q.deq ensures TakenOk(n, d, p) {
      assert TakenOk(s, duties, p);
    }
  }

  lemma PublishInv(s: Sys, n: Sys, t: nat, cap: nat, duties: seq<Duty>)
    requires Inv(s, cap, duties) && t < |s.pcs| && s.pcs[t].PushPublish?
    requires var pos := s.pcs[t].pos;
             n == s.(q := WithSlot(s.q, pos, SlotAt(s.q, pos).(stamp := pos + 1)), pcs := s.pcs[t := Idle(Pushed)])
    ensures Inv(n, cap, duties)
  {
    var pos := s.pcs[t].pos;
    var k := Index(s.q, pos);
    assert ThreadOk(s, duties, t, s.pcs[t]);
    forall i | 0 <= i < cap ensures SlotOk(n, duties[i], i) {
      assert SlotOk(s, duties[i], i);
    }
    OthersKeep(s, n, t, k, cap, duties, duties);
  }

  lemma ClaimPopInv(s: Sys, n: Sys, t: nat, cap: nat, duties: seq<Duty>) returns (d: seq<Duty>)
    requires Inv(s, cap, duties) && t < |s.pcs| && s.pcs[t].PopCas? && s.pcs[t].pos == s.q.deq
    requires n == s.(q := s.q.(deq := s.q.deq + 1), pcs := s.pcs[t := PopTake(s.q.deq)])
    ensures Inv(n, cap, d)
  {
    var pos := s.q.deq;
    var k := Index(s.q, pos);
    d := duties[k := Duty(pos, t)];
    assert ThreadOk(s, duties, t, s.pcs[t]);
    assert SlotOk(s, duties[k], k);
    forall i | 0 <= i < cap ensures SlotOk(n, d[i], i) {
      assert SlotOk(s, duties[i], i);
    }
    forall u | 0 <= u < |n.pcs| ensures ThreadOk(n, d, u, n.pcs[u]) {
      assert ThreadOk(s, duties, u, s.pcs[u]);
    }
    forall p | 0 <= p < n.q.deq ensures TakenOk(n, d, p) {
      assert p < s.q.deq ==> TakenOk(s, duties, p);
    }
  }

  lemma TakeInv(s: Sys, n: Sys, t: nat, cap: nat, duties: seq<Duty>)
    requires Inv(s, cap, duties) && t < |s.pcs| && s.pcs[t].PopTake?
    requires var pos := s.pcs[t].pos;
             var slot := SlotAt(s.q, pos);
             var v := if slot.cell.Holding? then slot.cell.value else 0;
             n == Sys(WithSlot(s.q, pos, slot.(cell := Raw)), s.pcs[t := PopRelease(pos, v)], s.pushed, s.got[pos := v])
    ensures Inv(n, cap, duties)
  {
    var pos := s.pcs[t].pos;
    var k := Index(s.q, pos);
    assert ThreadOk(s, duties, t, s.pcs[t]);
    assert SlotOk(s, duties[k], k);
    forall i | 0 <= i < cap ensures SlotOk(n, duties[i], i) {
      assert SlotOk(s, duties[i], i);
    }
    OthersKeep(s, n, t, k, cap, duties, duties);
  }

  lemma ReleaseInv(s: Sys, n: Sys, t: nat, cap: nat, duties: seq<Duty>) returns (d: seq<Duty>)
    requires Inv(s, cap, duties) && t < |s.pcs| && s.pcs[t].PopRelease?
    requires var pos := s.pcs[t].pos;
             n == s.(q := WithSlot(s.q, pos, SlotAt(s.q, pos).(stamp := pos + |s.q.slots|)),
                     pcs := s.pcs[t := Idle(Popped(s.pcs[t].value))])
    ensures Inv(n, cap, d)
  {
    var pos := s.pcs[t].pos;
    var k := Index(s.q, pos);
    d := duties[k := Duty(pos + cap, t)];
    assert ThreadOk(s, duties, t, s.pcs[t]);
    NextRound(pos, cap);
    assert SlotOk(s, duties[k], k);
    forall i | 0 <= i < cap ensures SlotOk(n, d[i], i) {
      assert SlotOk(s, duties[i], i);
    }
    OthersKeep(s, n, t, k, cap, duties, d);
  }

  predicate Claims(q: Queue, pc: Pc, choice: Choice) {
    choice == Go(false) && ((pc.PushCas? && q.enq == pc.pos) || (pc.PopCas? && q.deq == pc.pos))
  }

  lemma LocalThreadOk(s: Sys, t: nat, choice: Choice, cap: nat, duties: seq<Duty>)
    requires Inv(s, cap, duties) && t < |s.pcs| && !AtWork(s.pcs[t]) && !Claims(s.q, s.pcs[t], choice)
    ensures var (q, pc) := Move(s.q, s.pcs[t], choice);
            ThreadOk(s, duties, t, pc) && !AtWork(pc) && q == s.q.(closed := q.closed)
  {
    hide SlotAt, SlotOk, TakenOk;
    var pc := s.pcs[t];
    assert ThreadOk(s, duties, t, pc);
    if pc.PushSeq? && pc.pos == s.q.enq && SlotAt(s.q, pc.pos).stamp == pc.pos {
      SeenFree(s, pc.pos, cap, duties);
    }
    if pc.PopSeq? && SlotAt(s.q, pc.pos).stamp == pc.pos + 1 {
      SeenFilled(s, pc.pos, cap, duties);
    }
  }

  lemma StepInv(s: Sys, n: Sys, cap: nat, duties: seq<Duty>) returns (d: seq<Duty>)
    requires Inv(s, cap, duties) && Step(s, n)
    ensures Inv(n, cap, d)
  {
    var t: nat, choice :| StepOf(s, n, t, choice);
    d := StepOfInv(s, n, t, choice, cap, duties);
  }

  lemma StepOfInv(s: Sys, n: Sys, t: nat, choice: Choice, cap: nat, duties: seq<Duty>) returns (d: seq<Duty>)
    requires Inv(s, cap, duties) && StepOf(s, n, t, choice)
    ensures Inv(n, cap, d)
  {
    hide SlotOk, TakenOk, ThreadOk, SlotAt, WithSlot;
    var pc := s.pcs[t];
    d := duties;
    if Claims(s.q, pc, choice) {
      if pc.PushCas? {
        d := ClaimPushInv(s, n, t, cap, duties);
      } else {
        d := ClaimPopInv(s, n, t, cap, duties);
      }
    } else if !AtWork(pc) {
      LocalThreadOk(s, t, choice, cap, duties);
      LocalInv(s, n, t, n.pcs[t], cap, duties);
    } else if !choice.Go? {
      assert n == s;
    } else if pc.PushStore? {
      StoreInv(s, n, t, cap, duties);
    } else if pc.PushPublish? {
      PublishInv(s, n, t, cap, duties);
    } else if pc.PopTake? {
      TakeInv(s, n, t, cap, duties);
    } else {
      d := ReleaseInv(s, n, t, cap, duties);
    }
  }

  // What follows for every run.

  lemma {:induction false} Reachable(states: seq<Sys>, cap: nat) returns (duties: seq<Duty>)
    requires Run(states, cap) && cap >= 2
    ensures Inv(states[|states| - 1], cap, duties)
  {
    hide Inv, Step, Init;
    var last := |states| - 1;
    if last == 0 {
      duties := InitInv(states[0], cap);
    } else {
      var before := states[..last];
      forall i | 0 <= i < |before| - 1 ensures Step(before[i], before[i + 1]) {
        assert Step(states[i], states[i + 1]);
      }
      duties := Reachable(before, cap);
      assert Step(states[last - 1], states[last - 1 + 1]);
      duties := StepInv(states[last - 1], states[last], cap, duties);
    }
  }

  lemma InvSafe(s: Sys, cap: nat, duties: seq<Duty>)
    requires Inv(s, cap, duties)
    ensures Safe(s, cap)
  {
    var k := Index(s.q, s.q.deq);
    assert SlotOk(s, duties[k], k);
    if duties[k].ticket > s.q.deq {
      SameSlot(s.q.deq, duties[k].ticket, cap);
    }
    forall t | 0 <= t < |s.pcs|
      ensures s.pcs[t].PushStore? ==> SlotAt(s.q, s.pcs[t].pos).cell == Raw
      ensures s.pcs[t].PopTake? ==> SlotAt(s.q, s.pcs[t].pos).cell.Holding? && s.pcs[t].pos !in s.got
    {
      assert ThreadOk(s, duties, t, s.pcs[t]);
    }
  }

  /** A run may go on with any step of any thread. */
  lemma Extend(states: seq<Sys>, cap: nat, t: nat, choice: Choice) returns (more: seq<Sys>)
    requires Run(states, cap) && |states[|states| - 1].q.slots| > 0 && t < |states[|states| - 1].pcs|
    ensures more != [] && states <= more && Run(more, cap) && more[|more| - 1] == After(states[|states| - 1], t, choice)
  {
    hide Init, After;
    var last := states[|states| - 1];
    var n := After(last, t, choice);
    more := states + [n];
    assert StepOf(last, n, t, choice);
    forall i | 0 <= i < |more| - 1 ensures Step(more[i], more[i + 1]) {
      assert i < |states| - 1 ==> Step(states[i], states[i + 1]);
    }
  }

  /** One thread alone pushes v at the next position of a queue of one slot. */
  lemma PushIntoOne(states: seq<Sys>, v: int) returns (more: seq<Sys>)
    requires Run(states, 1)
    requires var s := states[|states| - 1];
             |s.q.slots| == 1 && |s.pcs| == 1 && s.pcs[0].Idle? && s.q.slots[0].stamp == s.q.enq
    ensures more != [] && Run(more, 1)
    ensures var s, n := states[|states| - 1], more[|more| - 1];
            n == s.(q := s.q.(enq := s.q.enq + 1), pcs := [PushStore(v, s.q.enq)], pushed := s.pushed + [v])
  {
    RunStarts(states, 1);
    hide Run;
    var s := states[|states| - 1];
    more := Extend(states, 1, 0, BeginPush(v, Blocking));
    assert more[|more| - 1] == s.(pcs := [PushLoad(v, Blocking)]);
    more := Extend(more, 1, 0, Go(false));
    assert more[|more| - 1] == s.(pcs := [PushSeq(v, Blocking, s.q.enq)]);
    more := Extend(more, 1, 0, Go(false));
    assert more[|more| - 1] == s.(pcs := [PushCas(v, Blocking, s.q.enq)]);
    more := Extend(more, 1, 0, Go(false));
  }

  /** With a single slot, "filled for position 0" and "free for position 1" are the same number, so the
      second push overwrites the first element. */
  lemma OneSlotOverwrites(a: int, b: int) returns (states: seq<Sys>)
    ensures states != [] && Run(states, 1) && !Safe(states[|states| - 1], 1)
    ensures states[|states| - 1].pcs == [PushStore(b, 1)] && states[|states| - 1].q.slots == [Slot(1, Holding(a))]
  {
    hide Run;
    states := OneSlotStart();
    states := PushIntoOne(states, a);
    states := Extend(states, 1, 0, Go(false));
    assert states[|states| - 1] == Sys(Queue([Slot(0, Holding(a))], 1, 0, false), [PushPublish(0)], [a], map[]);
    states := Extend(states, 1, 0, Go(false));
    assert states[|states| - 1] == Sys(Queue([Slot(1, Holding(a))], 1, 0, false), [Idle(Pushed)], [a], map[]);
    states := PushIntoOne(states, b);
    var s := states[|states| - 1];
    assert s.pcs[0].PushStore? && SlotAt(s.q, s.pcs[0].pos).cell == Holding(a);
  }

  lemma OneSlotStart() returns (states: seq<Sys>)
    ensures Run(states, 1) && states == [Sys(Queue([Slot(0, Raw)], 0, 0, false), [Idle(Nothing)], [], map[])]
  {
    states := [Sys(Queue([Slot(0, Raw)], 0, 0, false), [Idle(Nothing)], [], map[])];
    assert seq(1, (i: nat) => Slot(i, Raw)) == [Slot(0, Raw)];
  }

  /** The queue keeps its promise over every run of any threads exactly when it has at least two slots. */
  lemma SafeFromTwoSlots(cap: nat)
    requires cap > 0
    ensures (forall states :: Run(states, cap) ==> Safe(states[|states| - 1], cap)) <==> cap >= 2
  {
    hide Run, Safe;
    if cap >= 2 {
      forall states | Run(states, cap) ensures states != [] && Safe(states[|states| - 1], cap) {
        SafeAt(states, cap);
      }
    } else {
      var states := OneSlotOverwrites(0, 0);
      assert Run(states, cap) && !Safe(states[|states| - 1], cap);
    }
  }

  lemma SafeAt(states: seq<Sys>, cap: nat)
    requires Run(states, cap) && cap >= 2
    ensures states != [] && Safe(states[|states| - 1], cap)
  {
    var duties := Reachable(states, cap);
    InvSafe(states[|states| - 1], cap, duties);
  }

  lemma RunStarts(states: seq<Sys>, cap: nat)
    requires Run(states, cap)
    ensures states != []
  {
  }

  // What the answers mean.

  predicate Produces(pc: Pc, p: int) { (pc.PushStore? || pc.PushPublish?) && pc.pos == p }

  predicate Consumes(pc: Pc, p: int) { (pc.PopTake? || pc.PopRelease?) && pc.pos == p }

  /** A push that reports "full" saw cap claimed elements, or a pop of the element that used its slot before
      still under way. */
  lemma FullMeans(states: seq<Sys>, cap: nat, t: nat)
    requires Run(states, cap) && cap >= 2
    requires var s := states[|states| - 1];
             t < |s.pcs| && s.pcs[t].PushSeq? && |s.q.slots| > 0 && SlotAt(s.q, s.pcs[t].pos).stamp < s.pcs[t].pos
    ensures var s := states[|states| - 1];
            s.q.enq - s.q.deq == cap ||
            exists u :: 0 <= u < |s.pcs| && Consumes(s.pcs[u], s.pcs[t].pos - cap)
  {
    var s := states[|states| - 1];
    var duties := Reachable(states, cap);
    InvSafe(s, cap, duties);
    var pos := s.pcs[t].pos;
    var k := Index(s.q, pos);
    var p := duties[k].ticket;
    assert ThreadOk(s, duties, t, s.pcs[t]);
    assert SlotOk(s, duties[k], k);
    if p + cap != pos {
      SameSlot(p, pos, cap);
    }
    if p < s.q.deq {
      assert Consumes(s.pcs[duties[k].owner], p);
    }
  }

  /** A pop that finds nothing saw an empty queue, or the push of the oldest element still under way. */
  lemma EmptyMeans(states: seq<Sys>, cap: nat, t: nat)
    requires Run(states, cap) && cap >= 2
    requires var s := states[|states| - 1];
             t < |s.pcs| && s.pcs[t].PopSeq? && |s.q.slots| > 0 && SlotAt(s.q, s.pcs[t].pos).stamp < s.pcs[t].pos + 1
    ensures var s := states[|states| - 1];
            s.q.deq == s.q.enq || exists u :: 0 <= u < |s.pcs| && Produces(s.pcs[u], s.q.deq)
  {
    var s := states[|states| - 1];
    var duties := Reachable(states, cap);
    var pos := s.pcs[t].pos;
    var k := Index(s.q, pos);
    var p := duties[k].ticket;
    assert ThreadOk(s, duties, t, s.pcs[t]);
    assert SlotOk(s, duties[k], k);
    if p < pos && p + cap != pos {
      SameSlot(p, pos, cap);
    }
    if p == pos && p < s.q.enq {
      assert Produces(s.pcs[duties[k].owner], p);
    }
  }

  /** Lock freedom: a push or pop goes round again only because another thread has claimed its position in
      the meantime, or because its weak compare-exchange failed for no reason. */
  lemma RetryMeansOvertaken(states: seq<Sys>, cap: nat, t: nat)
    requires Run(states, cap) && cap >= 2 && t < |states[|states| - 1].pcs|
    ensures var s := states[|states| - 1];
            var pc := s.pcs[t];
            |s.q.slots| == cap &&
            var again := Move(s.q, pc, Go(false)).1;
            && (pc.PushSeq? && again == PushAgain(pc.v, pc.mode) && again != Idle(Failed) ==> pc.pos < s.q.enq)
            && (pc.PushCas? && !again.PushStore? ==> pc.pos < s.q.enq)
            && (pc.PopSeq? && again == PopAgain(pc.mode) && again != Idle(Failed) ==> pc.pos < s.q.deq)
            && (pc.PopCas? && !again.PopTake? ==> pc.pos < s.q.deq)
  {
    var s := states[|states| - 1];
    var duties := Reachable(states, cap);
    assert ThreadOk(s, duties, t, s.pcs[t]);
    if s.pcs[t].PushSeq? || s.pcs[t].PopSeq? {
      BeyondMeansClaimed(s, cap, duties, s.pcs[t].pos);
    }
  }

  lemma BeyondMeansClaimed(s: Sys, cap: nat, duties: seq<Duty>, pos: nat)
    requires Inv(s, cap, duties)
    ensures SlotAt(s.q, pos).stamp > pos ==> pos < s.q.enq
    ensures SlotAt(s.q, pos).stamp > pos + 1 ==> pos < s.q.deq
  {
    var k := Index(s.q, pos);
    assert SlotOk(s, duties[k], k);
    if pos < duties[k].ticket < pos + cap {
      SameSlot(pos, duties[k].ticket, cap);
    }
  }

  ghost predicate Quiet(s: Sys) { forall t :: 0 <= t < |s.pcs| ==> s.pcs[t].Idle? }

  /** Between operations the queue is exactly a list: everything claimed before the consumers' cursor was
      taken once, the rest lies in its slots in order, and a lone push or pop is refused exactly when the
      list is full or empty. */
  lemma QuietIsList(states: seq<Sys>, cap: nat)
    requires Run(states, cap) && cap >= 2 && Quiet(states[|states| - 1])
    ensures var s := states[|states| - 1];
            && |s.q.slots| == cap && s.q.deq <= s.q.enq == |s.pushed|
            && (forall p :: p in s.got <==> 0 <= p < s.q.deq)
            && (forall p <- s.got :: s.got[p] == s.pushed[p])
            && (forall p :: s.q.deq <= p < s.q.enq ==> SlotAt(s.q, p) == Slot(p + 1, Holding(s.pushed[p])))
            && (SlotAt(s.q, s.q.enq).stamp == s.q.enq <==> s.q.enq - s.q.deq < cap)
            && (SlotAt(s.q, s.q.enq).stamp < s.q.enq <==> s.q.enq - s.q.deq == cap)
            && (SlotAt(s.q, s.q.deq).stamp == s.q.deq + 1 <==> s.q.deq < s.q.enq)
            && (SlotAt(s.q, s.q.deq).stamp < s.q.deq + 1 <==> s.q.deq == s.q.enq)
  {
    RunStarts(states, cap);
    hide Run;
    var s := states[|states| - 1];
    var duties := Reachable(states, cap);
    InvSafe(s, cap, duties);
    forall p: nat | p < s.q.deq ensures p in s.got {
      assert TakenOk(s, duties, p);
      assert SlotOk(s, duties[Index(s.q, p)], Index(s.q, p));
    }
    forall p: nat | s.q.deq <= p < s.q.enq ensures SlotAt(s.q, p) == Slot(p + 1, Holding(s.pushed[p])) {
      QuietSlot(s, cap, duties, p);
    }
    QuietSlot(s, cap, duties, s.q.enq);
    QuietSlot(s, cap, duties, s.q.deq);
  }

  lemma QuietSlot(s: Sys, cap: nat, duties: seq<Duty>, p: nat)
    requires Inv(s, cap, duties) && Quiet(s) && s.q.deq <= p <= s.q.enq
    ensures p < s.q.enq ==> SlotAt(s.q, p) == Slot(p + 1, Holding(s.pushed[p]))
    ensures p == s.q.enq < s.q.deq + cap ==> SlotAt(s.q, p) == Slot(p, Raw)
    ensures p == s.q.enq == s.q.deq + cap ==> SlotAt(s.q, p).stamp == p + 1 - cap
  {
    var k := Index(s.q, p);
    var r := duties[k].ticket;
    assert SlotOk(s, duties[k], k);
    InvSafe(s, cap, duties);
    if r <= p < r + cap {
      SameSlot(r, p, cap);
    } else if p < r {
      SameSlot(p, r, cap);
    }
  }

  // Sizes.

  /** pos & (2^k - 1) is the remainder that Index takes. */
  lemma {:induction false} MaskIsRemainder(pos: nat, k: nat)
    ensures And(pos, Pow2(k) - 1) == pos % Pow2(k)
  {
    if k == 0 {
      assert And(pos, 0) == 0;
    } else {
      MaskIsRemainder(pos / 2, k - 1);
      HalfRemainder(pos, Pow2(k - 1));
      assert (Pow2(k) - 1) / 2 == Pow2(k - 1) - 1;
      if pos == 0 { }
    }
  }

  lemma HalfRemainder(pos: nat, h: nat)
    requires h > 0
    ensures pos % (2 * h) == 2 * (pos / 2 % h) + pos % 2
  {
    var x, r := pos / 2 / h, pos / 2 % h;
    assert pos / 2 == x * h + r;
    assert x * (2 * h) == 2 * (x * h);
    ModUnique(pos, x, 2 * h, 2 * r + pos % 2);
  }

  /** The constructor's rounding of the requested capacity, for size_t of either width. */
  method RoundCapacity(size: nat, width: nat) returns (v: nat)
    requires width in {32, 64} && 0 < size < Pow2(width)
    ensures size <= Pow2(width - 1) ==> PowerOfTwo.LeastPower(v, size)
    ensures size > Pow2(width - 1) ==> v == 0
    ensures v == 1 <==> size == 1
  {
    hide Pow2, Or, Shr, PowerOfTwo.LeastPower, BitLength, PowerOfTwo.Smeared;
    v := size - 1;
    ghost var y := v;
    PowerOfTwo.SmearedStart(y);
    v := Halve(v, 1, y);
    v := Halve(v, 2, y);
    v := Halve(v, 4, y);
    v := Halve(v, 8, y);
    v := Halve(v, 16, y);
    if width > 32 {
      v := Halve(v, 32, y);
    }
    PowerOfTwo.SmearedIsOnes(v, y, width);
    PowerOfTwo.CarryIsPower(size, width);
    Wraps(size, width);
    v := (v + 1) % Pow2(width);
  }

  /** `v |= v >> s`. */
  method Halve(v: nat, s: nat, ghost y: nat) returns (w: nat)
    requires PowerOfTwo.Smeared(v, y, s)
    ensures PowerOfTwo.Smeared(w, y, 2 * s)
  {
    PowerOfTwo.SmearStep(v, y, s);
    w := Or(v, Shr(v, s));
  }

  lemma Wraps(size: nat, width: nat)
    requires width > 1 && 0 < size < Pow2(width)
    requires var p := Pow2(BitLength(size - 1));
             p <= Pow2(width) && (p == Pow2(width) <==> size > Pow2(width - 1)) && PowerOfTwo.LeastPower(p, size)
    ensures var p := Pow2(BitLength(size - 1));
            && p % Pow2(width) == (if size > Pow2(width - 1) then 0 else p)
            && (p % Pow2(width) == 1 <==> size == 1)
  {
    hide Pow2, BitLength, PowerOfTwo.LeastPower;
    var p, w := Pow2(BitLength(size - 1)), Pow2(width);
    OneBit(p, size, width);
    if p == w {
      assert p % w == 0;
    } else {
      ModUnique(p, 0, w, p);
    }
  }

  lemma OneBit(p: nat, size: nat, width: nat)
    requires size > 0 && width > 0 && p == Pow2(BitLength(size - 1)) && PowerOfTwo.LeastPower(p, size)
    ensures size <= p && (size == 1 ==> p == 1) && Pow2(width - 1) >= 1 && (size == 1 ==> size <= Pow2(width - 1))
  {
  }
}
