/** FIFO round-trip statistics: every fill first closes opposite lots, oldest first. */
module RoundTrips {
  import opened Common
  import opened Trades

  const EPS: real := 0.000000000001

  datatype Lot = Lot(quantity: real, price: real, realized: real)

  datatype Tally = Tally(closed: nat, winning: nat, profit: real, loss: real)

  const ZERO := Tally(0, 0, 0.0, 0.0)

  function Add(a: Tally, b: Tally): Tally {
    Tally(a.closed + b.closed, a.winning + b.winning, a.profit + b.profit, a.loss + b.loss)
  }

  /** The effect of closing one lot with the given profit. */
  function Close(pnl: real): Tally {
    if pnl > 0.0 then Tally(1, 1, pnl, 0.0) else Tally(1, 0, 0.0, -pnl)
  }

  function Net(t: Tally): real { t.profit - t.loss }

  /** What closing m units of a lot at `price` earns. */
  function Gain(side: Direction, lot: Lot, price: real, m: real): real {
    (if side == LONG then price - lot.price else lot.price - price) * m
  }

  /** The queue left over, the quantity still needed, the lots closed, and the quantity and cost
      that the EPS test lets go when it closes a lot that is not quite used up. */
  datatype Outcome = Outcome(lots: seq<Lot>, need: real, tally: Tally, residue: real, residueCost: real)

  /** Closing `need` units against the queue of open lots of one side. */
  function Settle(lots: seq<Lot>, need: real, price: real, side: Direction): Outcome {
    if need <= 0.0 || lots == [] then Outcome(lots, need, ZERO, 0.0, 0.0)
    else
      var open := lots[0];
      var m := RealMin(need, open.quantity);
      var pnl := open.realized + Gain(side, open, price, m);
      if m >= open.quantity - EPS then
        var rest := Settle(lots[1..], need - m, price, side);
        Outcome(rest.lots, rest.need, Add(Close(pnl), rest.tally),
                open.quantity - m + rest.residue, Value(open.quantity - m, open.price) + rest.residueCost)
      else
        Outcome([Lot(open.quantity - m, open.price, pnl)] + lots[1..], need - m, ZERO, 0.0, 0.0)
  }

  type Queues = map<string, seq<Lot>>

  function Queue(q: Queues, symbol: string): seq<Lot> {
    if symbol in q then q[symbol] else []
  }

  /** residue and residueCost book what the EPS test dropped, long minus short. */
  datatype State = State(longs: Queues, shorts: Queues, tally: Tally, residue: real, residueCost: real)

  const START := State(map[], map[], ZERO, 0.0, 0.0)

  function OpenRest(q: Queues, t: Trade, need: real): Queues {
    if need > 0.0 then q[t.symbol := Queue(q, t.symbol) + [Lot(need, t.price, 0.0)]] else q
  }

  /** What a fill settles against the opposite side of its symbol. */
  function Settled(s: State, t: Trade): Outcome {
    if t.direction == LONG then Settle(Queue(s.shorts, t.symbol), t.quantity, t.price, SHORT)
    else Settle(Queue(s.longs, t.symbol), t.quantity, t.price, LONG)
  }

  /** A fill on the side of the queues opens its rest there; on the other side it uses lots up. */
  function BookQueue(q: Queues, opening: Direction, t: Trade, o: Outcome): Queues {
    if t.direction == opening then OpenRest(q, t, o.need) else q[t.symbol := o.lots]
  }

  function Book(s: State, t: Trade, o: Outcome): State {
    if t.direction == HOLD || t.direction == FLAT then s
    else
      var sign := if t.direction == LONG then -1.0 else 1.0;
      State(BookQueue(s.longs, LONG, t, o), BookQueue(s.shorts, SHORT, t, o), Add(s.tally, o.tally),
            s.residue + sign * o.residue, s.residueCost + sign * o.residueCost)
  }

  function Step(s: State, t: Trade): State { Book(s, t, Settled(s, t)) }

  function Run(trades: seq<Trade>): State {
    if trades == [] then START else Step(Run(trades[..|trades| - 1]), trades[|trades| - 1])
  }

  datatype Result = Result(closed: nat, events: nat, winning: nat, losing: nat, winRate: real,
                           avgProfit: real, avgLoss: real, profitLossRatio: real)

  function Summary(t: Tally, events: nat): Result {
    var losing := if t.closed > t.winning then t.closed - t.winning else 0;
    var avgProfit := if t.winning > 0 then t.profit / t.winning as real else 0.0;
    var avgLoss := if losing > 0 then t.loss / losing as real else 0.0;
    Result(t.closed, events, t.winning, losing,
           if t.closed > 0 then t.winning as real / t.closed as real * 100.0 else 0.0,
           avgProfit, avgLoss, if avgLoss != 0.0 then avgProfit / avgLoss else 0.0)
  }

  /** The inner while loop on one deque, with the running counters. */
  method SettleLoop(lots: seq<Lot>, need0: real, price: real, side: Direction, t0: Tally)
    returns (q: seq<Lot>, need: real, t: Tally)
    ensures var o := Settle(lots, need0, price, side);
            q == o.lots && need == o.need && t == Add(t0, o.tally)
  {
    hide Gain, Settle, Value, Partial;
    q, need, t := lots, need0, t0;
    while need > 0.0 && q != []
      invariant var o, r := Settle(lots, need0, price, side), Settle(q, need, price, side);
                o.lots == r.lots && o.need == r.need && Add(t0, o.tally) == Add(t, r.tally)
      decreases |q|, if need > 0.0 then 1 else 0
    {
      SettleUnfold(q, need, price, side);
      var open := q[0];
      var m := RealMin(need, open.quantity);
      var pnl := Gain(side, open, price, m);
      open := open.(realized := open.realized + pnl);
      need := need - m;
      if m >= open.quantity - EPS {
        if open.realized > 0.0 {
          t := t.(winning := t.winning + 1, profit := t.profit + open.realized);
        } else {
          t := t.(loss := t.loss + (if open.realized < 0.0 then -open.realized else open.realized));
        }
        t := t.(closed := t.closed + 1);
        q := q[1..];
      } else {
        q := q[0 := open.(quantity := open.quantity - m)];
        SettleDone(q, need, price, side);
      }
    }
    SettleDone(q, need, price, side);
  }

  method ComputeRoundTripStats(trades: seq<Trade>) returns (r: Result)
    ensures r == Summary(Run(trades).tally, |trades|)
    ensures Reports(r, Profits(trades), |trades|)
  {
    var t := ZERO;
    var longOpens: Queues := map[];
    var shortOpens: Queues := map[];
    for i := 0 to |trades|
      invariant var s := Run(trades[..i]); s.longs == longOpens && s.shorts == shortOpens && s.tally == t
    {
      assert trades[..i + 1][..i] == trades[..i];
      var trd := trades[i];
      var sym := trd.symbol;
      if trd.direction == LONG {
        var sq, need;
        sq, need, t := SettleLoop(Queue(shortOpens, sym), trd.quantity, trd.price, SHORT, t);
        shortOpens := shortOpens[sym := sq];
        if need > 0.0 {
          longOpens := longOpens[sym := Queue(longOpens, sym) + [Lot(need, trd.price, 0.0)]];
        }
      } else if trd.direction == SHORT {
        var lq, need;
        lq, need, t := SettleLoop(Queue(longOpens, sym), trd.quantity, trd.price, LONG, t);
        longOpens := longOpens[sym := lq];
        if need > 0.0 {
          shortOpens := shortOpens[sym := Queue(shortOpens, sym) + [Lot(need, trd.price, 0.0)]];
        }
      }
    }
    assert trades[..|trades|] == trades;
    r := Summary(t, |trades|);
    TallyOfRun(trades);
    SummaryReports(t, Profits(trades), |trades|);
  }

  // What the figures mean.

  /** The profits of the lots that a fill closes, in order: what they brought in less what they had cost. */
  ghost function Closings(lots: seq<Lot>, need: real, price: real, side: Direction): seq<real> {
    if need <= 0.0 || lots == [] then []
    else
      var open := lots[0];
      var m := if need < open.quantity then need else open.quantity;
      if m < open.quantity - 0.000000000001 then []
      else
        var traded, cost := Value(m, price), Value(m, open.price);
        [open.realized + (if side == LONG then traded - cost else cost - traded)] +
        Closings(lots[1..], need - m, price, side)
  }

  /** The profits of all round trips of a run, in the order in which they end. */
  ghost function Profits(trades: seq<Trade>): seq<real> {
    if trades == [] then []
    else
      var n := |trades| - 1;
      var s, t := Run(trades[..n]), trades[n];
      Profits(trades[..n]) +
      match t.direction
      case LONG => Closings(Queue(s.shorts, t.symbol), t.quantity, t.price, SHORT)
      case SHORT => Closings(Queue(s.longs, t.symbol), t.quantity, t.price, LONG)
      case _ => []
  }

  ghost function Winners(profits: seq<real>): seq<real> {
    if profits == [] then []
    else (if profits[0] > 0.0 then [profits[0]] else []) + Winners(profits[1..])
  }

  ghost function Losers(profits: seq<real>): seq<real> {
    if profits == [] then []
    else (if profits[0] > 0.0 then [] else [profits[0]]) + Losers(profits[1..])
  }

  ghost function Total(xs: seq<real>): real {
    if xs == [] then 0.0 else xs[0] + Total(xs[1..])
  }

  ghost predicate Counts(t: Tally, profits: seq<real>) {
    && t.closed == |profits| == |Winners(profits)| + |Losers(profits)|
    && t.winning == |Winners(profits)|
    && t.profit == Total(Winners(profits))
    && t.loss == -Total(Losers(profits))
  }

  /** The figures say how many of the round trips won, and what the winning and the losing ones brought on
      average; a figure without anything to divide by is 0. */
  ghost predicate Reports(r: Result, profits: seq<real>, events: nat) {
    && r.events == events && r.closed == |profits| == r.winning + r.losing
    && r.winning == |Winners(profits)| && r.losing == |Losers(profits)|
    && Ratio(r.winRate, 100.0 * r.winning as real, r.closed as real)
    && Ratio(r.avgProfit, Total(Winners(profits)), r.winning as real)
    && Ratio(r.avgLoss, -Total(Losers(profits)), r.losing as real)
    && Ratio(r.profitLossRatio, r.avgProfit, r.avgLoss)
  }

  ghost predicate Ratio(q: real, a: real, b: real) { if b == 0.0 then q == 0.0 else q * b == a }

  lemma {:induction false} SplitProfits(a: seq<real>, b: seq<real>)
    ensures Winners(a + b) == Winners(a) + Winners(b) && Losers(a + b) == Losers(a) + Losers(b)
  {
    if a == [] {
      assert a + b == b;
    } else {
      assert (a + b)[1..] == a[1..] + b;
      SplitProfits(a[1..], b);
    }
  }

  lemma {:induction false} TotalAppend(a: seq<real>, b: seq<real>)
    ensures Total(a + b) == Total(a) + Total(b)
  {
    if a == [] {
      assert a + b == b;
    } else {
      assert (a + b)[1..] == a[1..] + b;
      TotalAppend(a[1..], b);
    }
  }

  lemma CountsAppend(t: Tally, a: seq<real>, u: Tally, b: seq<real>)
    requires Counts(t, a) && Counts(u, b)
    ensures Counts(Add(t, u), a + b)
  {
    hide Total, Winners, Losers;
    SplitProfits(a, b);
    TotalAppend(Winners(a), Winners(b));
    TotalAppend(Losers(a), Losers(b));
  }

  lemma CountsOne(pnl: real)
    ensures Counts(Close(pnl), [pnl])
  {
    assert Total([pnl]) == pnl + Total([pnl][1..]) && Total([pnl][1..]) == 0.0;
    assert Winners([pnl][1..]) == [] && Losers([pnl][1..]) == [];
  }

  /** A fill counts exactly the lots it closes: as won where the profit is positive, as lost otherwise. */
  lemma {:induction false} SettleCounts(lots: seq<Lot>, need: real, price: real, side: Direction)
    ensures Counts(Settle(lots, need, price, side).tally, Closings(lots, need, price, side))
  {
    hide Settle, Gain, Close, Counts, Value;
    if need <= 0.0 || lots == [] {
      SettleDone(lots, need, price, side);
      CountsNothing();
    } else {
      var open, rest := lots[0], lots[1..];
      var m := RealMin(need, open.quantity);
      SettleUnfold(lots, need, price, side);
      GainSplits(side, open, price, m);
      if m >= open.quantity - EPS {
        SettleCounts(rest, need - m, price, side);
        var pnl := open.realized + Gain(side, open, price, m);
        CountsOne(pnl);
        CountsAppend(Close(pnl), [pnl], Settle(rest, need - m, price, side).tally, Closings(rest, need - m, price, side));
      } else {
        CountsNothing();
      }
    }
  }

  lemma CountsNothing()
    ensures Counts(ZERO, [])
  {
  }

  /** Over every run: the counters are those of the round trips' profits. */
  lemma {:induction false} TallyOfRun(trades: seq<Trade>)
    ensures Counts(Run(trades).tally, Profits(trades))
  {
    hide Settle, Counts, Closings;
    if trades == [] {
      CountsNothing();
    } else {
      var n := |trades| - 1;
      var s, t := Run(trades[..n]), trades[n];
      TallyOfRun(trades[..n]);
      if t.direction == LONG {
        SettleCounts(Queue(s.shorts, t.symbol), t.quantity, t.price, SHORT);
        CountsAppend(s.tally, Profits(trades[..n]), Settle(Queue(s.shorts, t.symbol), t.quantity, t.price, SHORT).tally,
                     Closings(Queue(s.shorts, t.symbol), t.quantity, t.price, SHORT));
      } else if t.direction == SHORT {
        SettleCounts(Queue(s.longs, t.symbol), t.quantity, t.price, LONG);
        CountsAppend(s.tally, Profits(trades[..n]), Settle(Queue(s.longs, t.symbol), t.quantity, t.price, LONG).tally,
                     Closings(Queue(s.longs, t.symbol), t.quantity, t.price, LONG));
      } else {
        assert Profits(trades[..n]) + [] == Profits(trades[..n]);
      }
    }
  }

  lemma SummaryReports(t: Tally, profits: seq<real>, events: nat)
    requires Counts(t, profits)
    ensures Reports(Summary(t, events), profits, events)
  {
    hide Winners, Losers, Total;
    var r := Summary(t, events);
    Percentage(t.winning, t.closed);
    Quotient(t.profit, t.winning);
    Quotient(t.loss, r.losing);
  }

  lemma Percentage(a: nat, b: nat)
    ensures b > 0 ==> a as real / b as real * 100.0 * b as real == 100.0 * a as real
  {
    Quotient(a as real, b);
  }

  lemma Quotient(a: real, b: nat)
    ensures b > 0 ==> a / b as real * b as real == a
  {
  }

  // Conservation.

  ghost function Quantity(lots: seq<Lot>): real {
    if lots == [] then 0.0 else lots[0].quantity + Quantity(lots[1..])
  }

  ghost function Cost(lots: seq<Lot>): real {
    if lots == [] then 0.0 else Value(lots[0].quantity, lots[0].price) + Cost(lots[1..])
  }

  /** Profit booked on lots that are only partly closed. */
  ghost function Partial(lots: seq<Lot>): real {
    if lots == [] then 0.0 else lots[0].realized + Partial(lots[1..])
  }

  ghost predicate Positive(lots: seq<Lot>) {
    forall lot <- lots :: lot.quantity > 0.0
  }

  lemma {:induction false} Append(lots: seq<Lot>, lot: Lot)
    ensures Quantity(lots + [lot]) == Quantity(lots) + lot.quantity
    ensures Cost(lots + [lot]) == Cost(lots) + Value(lot.quantity, lot.price)
    ensures Partial(lots + [lot]) == Partial(lots) + lot.realized
  {
    if lots == [] {
      assert lots + [lot] == [lot];
    } else {
      assert (lots + [lot])[1..] == lots[1..] + [lot];
      Append(lots[1..], lot);
    }
  }

  /** Settling neither creates nor loses units: what the fill takes, and what the EPS test drops,
      leaves the queue; a fill with units to spare empties it. */
  lemma {:induction false} SettleConservesUnits(lots: seq<Lot>, need: real, price: real, side: Direction)
    requires Positive(lots)
    ensures var o := Settle(lots, need, price, side);
            && Positive(o.lots)
            && o.residue >= 0.0
            && (o.need > 0.0 ==> o.lots == [])
            && (need >= 0.0 ==> 0.0 <= o.need <= need)
            && Quantity(lots) == Quantity(o.lots) + (need - o.need) + o.residue
  {
    if need > 0.0 && lots != [] {
      var m := RealMin(need, lots[0].quantity);
      if m >= lots[0].quantity - EPS {
        SettleConservesUnits(lots[1..], need - m, price, side);
      } else {
        assert Settle(lots, need, price, side).lots[1..] == lots[1..];
      }
    }
  }

  /** The value taken by a fill is the realized profit plus the cost that leaves the queue
      (with the sign of the side being closed). */
  lemma {:induction false} SettleConservesValue(lots: seq<Lot>, need: real, price: real, side: Direction)
    ensures var o := Settle(lots, need, price, side);
            var profit := Net(o.tally) + Partial(o.lots) - Partial(lots);
            Value(need - o.need, price)
            == Cost(lots) - Cost(o.lots) - o.residueCost + (if side == LONG then profit else -profit)
  {
    hide Settle, Gain, Close, RealMin, Value;
    ValueSplit(0.0, 0.0, price);
    var o := Settle(lots, need, price, side);
    if need <= 0.0 || lots == [] {
      SettleDone(lots, need, price, side);
    } else {
      var open, rest := lots[0], lots[1..];
      var m := RealMin(need, open.quantity);
      GainSplits(side, open, price, m);
      SettleUnfold(lots, need, price, side);
      ValueSplit(m, open.quantity - m, open.price);
      ValueSplit(m, need - m - o.need, price);
      if m >= open.quantity - EPS {
        SettleConservesValue(rest, need - m, price, side);
      } else {
        assert o.lots[1..] == rest;
      }
    }
  }

  lemma SettleDone(lots: seq<Lot>, need: real, price: real, side: Direction)
    requires need <= 0.0 || lots == []
    ensures Settle(lots, need, price, side) == Outcome(lots, need, ZERO, 0.0, 0.0)
  {
  }

  /** One pass of the loop, as equations. */
  lemma SettleUnfold(lots: seq<Lot>, need: real, price: real, side: Direction)
    requires need > 0.0 && lots != []
    ensures var open, rest := lots[0], lots[1..];
            var m := RealMin(need, open.quantity);
            var o, pnl := Settle(lots, need, price, side), open.realized + Gain(side, open, price, m);
            if m >= open.quantity - EPS then
              var r := Settle(rest, need - m, price, side);
              && o.lots == r.lots && o.need == r.need && o.residue == open.quantity - m + r.residue
              && o.tally == Add(Close(pnl), r.tally) && Net(o.tally) == pnl + Net(r.tally)
              && o.residueCost == Value(open.quantity - m, open.price) + r.residueCost
            else
              && o.lots == [Lot(open.quantity - m, open.price, pnl)] + rest && o.need == need - m == 0.0
              && o.tally == ZERO && o.residue == o.residueCost == 0.0
              && Partial(o.lots) == pnl + Partial(rest)
  {
    var open, rest := lots[0], lots[1..];
    var m := RealMin(need, open.quantity);
    assert ([Lot(open.quantity - m, open.price, open.realized + Gain(side, open, price, m))] + rest)[1..] == rest;
  }

  lemma GainSplits(side: Direction, lot: Lot, price: real, m: real)
    ensures Gain(side, lot, price, m)
         == if side == LONG then Value(m, price) - Value(m, lot.price) else Value(m, lot.price) - Value(m, price)
  {
  }
}
