/** What FIFO matching keeps over every run. */
module FifoLaws {
  import opened Common
  import opened Trades
  import opened RoundTrips

  /** Only positive fills trade. */
  function Filled(t: Trade): real { if t.quantity > 0.0 then t.quantity else 0.0 }

  ghost function SignedTotal(trades: seq<Trade>): real {
    if trades == [] then 0.0
    else
      var n := |trades| - 1;
      SignedTotal(trades[..n]) +
      match trades[n].direction
      case LONG => Filled(trades[n])
      case SHORT => -Filled(trades[n])
      case _ => 0.0
  }

  /** Money received from sales minus money spent on purchases. */
  ghost function Proceeds(trades: seq<Trade>): real {
    if trades == [] then 0.0
    else
      var n := |trades| - 1;
      Proceeds(trades[..n]) +
      match trades[n].direction
      case LONG => -Value(Filled(trades[n]), trades[n].price)
      case SHORT => Value(Filled(trades[n]), trades[n].price)
      case _ => 0.0
  }

  ghost predicate AllPositive(q: Queues) {
    forall sym <- q :: Positive(q[sym])
  }

  /** No symbol is open on both sides, and every open lot holds something. */
  ghost predicate Consistent(s: State) {
    && AllPositive(s.longs) && AllPositive(s.shorts)
    && forall sym :: Queue(s.longs, sym) == [] || Queue(s.shorts, sym) == []
  }

  lemma StepConsistent(s: State, t: Trade)
    requires Consistent(s)
    ensures Consistent(Step(s, t))
  {
    hide Settle;
    SettleConservesUnits(Queue(s.shorts, t.symbol), t.quantity, t.price, SHORT);
    SettleConservesUnits(Queue(s.longs, t.symbol), t.quantity, t.price, LONG);
    SettleNothing(Queue(s.shorts, t.symbol), t.quantity, t.price, SHORT);
    SettleNothing(Queue(s.longs, t.symbol), t.quantity, t.price, LONG);
    var n := Step(s, t);
    forall sym ensures Queue(n.longs, sym) == [] || Queue(n.shorts, sym) == [] {
      assert Queue(s.longs, sym) == [] || Queue(s.shorts, sym) == [];
    }
  }

  lemma SettleNothing(lots: seq<Lot>, need: real, price: real, side: Direction)
    ensures lots == [] ==> Settle(lots, need, price, side) == Outcome([], need, ZERO, 0.0, 0.0)
    ensures need <= 0.0 ==> Settle(lots, need, price, side) == Outcome(lots, need, ZERO, 0.0, 0.0)
  {
  }

  /** Long and short queues of a symbol are never both open. */
  lemma {:induction false} RunConsistent(trades: seq<Trade>)
    ensures Consistent(Run(trades))
  {
    if trades != [] {
      RunConsistent(trades[..|trades| - 1]);
      StepConsistent(Run(trades[..|trades| - 1]), trades[|trades| - 1]);
    }
  }

  // Conservation of units, symbol by symbol.

  function Only(trades: seq<Trade>, symbol: string): seq<Trade> {
    if trades == [] then []
    else
      var n := |trades| - 1;
      Only(trades[..n], symbol) + (if trades[n].symbol == symbol then [trades[n]] else [])
  }

  /** What a step does to the queues of one symbol. */
  lemma StepQueues(s: State, t: Trade, symbol: string)
    ensures var n := Step(s, t);
            var lq, sq := Queue(s.longs, symbol), Queue(s.shorts, symbol);
            if t.symbol != symbol || t.direction == HOLD || t.direction == FLAT then
              Queue(n.longs, symbol) == lq && Queue(n.shorts, symbol) == sq
            else if t.direction == LONG then
              var o := Settle(sq, t.quantity, t.price, SHORT);
              && Queue(n.shorts, symbol) == o.lots
              && Queue(n.longs, symbol) == (if o.need > 0.0 then lq + [Lot(o.need, t.price, 0.0)] else lq)
              && n.residue == s.residue - o.residue && n.residueCost == s.residueCost - o.residueCost
            else
              var o := Settle(lq, t.quantity, t.price, LONG);
              && Queue(n.longs, symbol) == o.lots
              && Queue(n.shorts, symbol) == (if o.need > 0.0 then sq + [Lot(o.need, t.price, 0.0)] else sq)
              && n.residue == s.residue + o.residue && n.residueCost == s.residueCost + o.residueCost
  {
    hide Settle;
  }

  /** The queues of a symbol depend only on that symbol's own trades, in their order. */
  lemma {:induction false} QueuesOfSymbol(trades: seq<Trade>, symbol: string)
    ensures Queue(Run(trades).longs, symbol) == Queue(Run(Only(trades, symbol)).longs, symbol)
    ensures Queue(Run(trades).shorts, symbol) == Queue(Run(Only(trades, symbol)).shorts, symbol)
  {
    if trades != [] {
      var n := |trades| - 1;
      hide Settle;
      QueuesOfSymbol(trades[..n], symbol);
      StepQueues(Run(trades[..n]), trades[n], symbol);
      var own := Only(trades[..n], symbol);
      if trades[n].symbol == symbol {
        assert Only(trades, symbol) == own + [trades[n]];
        assert (own + [trades[n]])[..|own|] == own;
        StepQueues(Run(own), trades[n], symbol);
      } else {
        assert Only(trades, symbol) == own;
      }
    }
  }

  /** Queued long minus queued short, plus what the EPS test dropped, is the signed trade total. */
  lemma {:induction false} UnitsConserved(trades: seq<Trade>, symbol: string)
    requires forall t <- trades :: t.symbol == symbol
    ensures var s := Run(trades);
            Quantity(Queue(s.longs, symbol)) - Quantity(Queue(s.shorts, symbol)) + s.residue == SignedTotal(trades)
  {
    if trades != [] {
      var n := |trades| - 1;
      var t := trades[n];
      assert t in trades;
      UnitsConserved(trades[..n], symbol);
      RunConsistent(trades[..n]);
      var s := Run(trades[..n]);
      StepUnits(s, t);
    }
  }

  lemma StepUnits(s: State, t: Trade)
    requires Consistent(s)
    ensures var n := Step(s, t);
            Quantity(Queue(n.longs, t.symbol)) - Quantity(Queue(n.shorts, t.symbol)) + n.residue
            == Quantity(Queue(s.longs, t.symbol)) - Quantity(Queue(s.shorts, t.symbol)) + s.residue +
               match t.direction case LONG => Filled(t) case SHORT => -Filled(t) case _ => 0.0
  {
    hide Settle, Consistent, Quantity, Queue;
    var sq, lq := Queue(s.shorts, t.symbol), Queue(s.longs, t.symbol);
    assert Positive(sq) && Positive(lq) by { SymbolPositive(s, t.symbol); }
    StepQueues(s, t, t.symbol);
    match t.direction
    case LONG =>
      SettleConservesUnits(sq, t.quantity, t.price, SHORT);
      SettleNothing(sq, t.quantity, t.price, SHORT);
      Append(lq, Lot(Settle(sq, t.quantity, t.price, SHORT).need, t.price, 0.0));
    case SHORT =>
      SettleConservesUnits(lq, t.quantity, t.price, LONG);
      SettleNothing(lq, t.quantity, t.price, LONG);
      Append(sq, Lot(Settle(lq, t.quantity, t.price, LONG).need, t.price, 0.0));
    case _ =>
      assert Step(s, t) == s;
  }

  lemma SymbolPositive(s: State, symbol: string)
    requires Consistent(s)
    ensures Positive(Queue(s.longs, symbol)) && Positive(Queue(s.shorts, symbol))
    ensures Queue(s.longs, symbol) == [] || Queue(s.shorts, symbol) == []
  {
  }

  // Conservation of value, over all symbols together.

  ghost function LongStake(lots: seq<Lot>): real { Partial(lots) - Cost(lots) }
  ghost function ShortStake(lots: seq<Lot>): real { Partial(lots) + Cost(lots) }

  /** Realized profit, closed and partial, minus open long cost, plus open short proceeds. */
  ghost function Worth(s: State): real {
    Net(s.tally) + Sum(s.longs, LongStake) + Sum(s.shorts, ShortStake) - s.residueCost
  }

  lemma QueueUpdate(q: Queues, symbol: string, lots: seq<Lot>)
    ensures Sum(q[symbol := lots], LongStake) == Sum(q, LongStake) - LongStake(Queue(q, symbol)) + LongStake(lots)
    ensures Sum(q[symbol := lots], ShortStake) == Sum(q, ShortStake) - ShortStake(Queue(q, symbol)) + ShortStake(lots)
  {
    SumUpdate(q, symbol, lots, LongStake);
    SumUpdate(q, symbol, lots, ShortStake);
  }

  lemma OpenRestStake(q: Queues, t: Trade, need: real)
    ensures Sum(OpenRest(q, t, need), LongStake) == Sum(q, LongStake) - (if need > 0.0 then Value(need, t.price) else 0.0)
    ensures Sum(OpenRest(q, t, need), ShortStake) == Sum(q, ShortStake) + (if need > 0.0 then Value(need, t.price) else 0.0)
  {
    hide Value;
    var lots := Queue(q, t.symbol);
    var lot := Lot(need, t.price, 0.0);
    QueueUpdate(q, t.symbol, lots + [lot]);
    Append(lots, lot);
  }

  /** The part of a fill that closes lots, and the part that opens one. */
  lemma SettledValue(lots: seq<Lot>, t: Trade, side: Direction)
    requires Positive(lots)
    ensures var o := Settle(lots, t.quantity, t.price, side);
            var profit := Net(o.tally) + Partial(o.lots) - Partial(lots);
            Value(Filled(t), t.price) - (if o.need > 0.0 then Value(o.need, t.price) else 0.0)
            == Cost(lots) - Cost(o.lots) - o.residueCost + (if side == LONG then profit else -profit)
  {
    hide Settle, Value;
    var o := Settle(lots, t.quantity, t.price, side);
    SettleNothing(lots, t.quantity, t.price, side);
    SettleConservesValue(lots, t.quantity, t.price, side);
    SettleConservesUnits(lots, t.quantity, t.price, side);
    ValueSplit(t.quantity - o.need, o.need, t.price);
  }

  lemma StepWorth(s: State, t: Trade)
    requires Consistent(s)
    ensures Worth(Step(s, t)) == Worth(s) +
              match t.direction
              case LONG => -Value(Filled(t), t.price)
              case SHORT => Value(Filled(t), t.price)
              case _ => 0.0
  {
    hide Settle, Value, Filled, Consistent, Queue, Sum, OpenRest, Cost, Partial, Positive;
    var sq, lq := Queue(s.shorts, t.symbol), Queue(s.longs, t.symbol);
    SymbolPositive(s, t.symbol);
    match t.direction
    case LONG =>
      var o := Settle(sq, t.quantity, t.price, SHORT);
      SettledValue(sq, t, SHORT);
      QueueUpdate(s.shorts, t.symbol, o.lots);
      OpenRestStake(s.longs, t, o.need);
    case SHORT =>
      var o := Settle(lq, t.quantity, t.price, LONG);
      SettledValue(lq, t, LONG);
      QueueUpdate(s.longs, t.symbol, o.lots);
      OpenRestStake(s.shorts, t, o.need);
    case _ =>
  }

  /** Sale proceeds minus purchases are realized profit minus open cost: no money appears or vanishes. */
  lemma {:induction false} ValueConserved(trades: seq<Trade>)
    ensures Worth(Run(trades)) == Proceeds(trades)
  {
    if trades != [] {
      var n := |trades| - 1;
      ValueConserved(trades[..n]);
      RunConsistent(trades[..n]);
      StepWorth(Run(trades[..n]), trades[n]);
    }
  }

  // Exactness of the EPS test.

  /** Going through the lots in order, the fill never comes within EPS of the end of a lot that it does not
      use up. */
  predicate EndsCleanly(lots: seq<Lot>, need: real) {
    need <= 0.0 || lots == [] ||
    var q := lots[0].quantity;
    (need >= q && EndsCleanly(lots[1..], need - q)) || need < q - 0.000000000001
  }

  /** A fill drops nothing exactly when it ends cleanly. */
  lemma {:induction false} SettleDrops(lots: seq<Lot>, need: real, price: real, side: Direction)
    requires Positive(lots)
    ensures var o := Settle(lots, need, price, side);
            && o.residue >= 0.0
            && (o.residue == 0.0 <==> EndsCleanly(lots, need))
            && (EndsCleanly(lots, need) ==> o.residueCost == 0.0)
            && (o.residue > 0.0 ==> o.need == 0.0)
  {
    hide Settle, Gain, Close, Value;
    if need <= 0.0 || lots == [] {
      SettleDone(lots, need, price, side);
    } else {
      var q := lots[0].quantity;
      assert lots[0] in lots;
      SettleUnfold(lots, need, price, side);
      ValueSplit(0.0, 0.0, lots[0].price);
      if need >= q {
        SettleDrops(lots[1..], need - q, price, side);
      } else if need >= q - EPS {
        SettleDrops(lots[1..], 0.0, price, side);
        SettleDone(lots[1..], 0.0, price, side);
      }
    }
  }

  /** The queue that a fill is settled against. */
  function Against(s: State, t: Trade): seq<Lot> {
    match t.direction
    case LONG => Queue(s.shorts, t.symbol)
    case SHORT => Queue(s.longs, t.symbol)
    case _ => []
  }

  /** What the EPS test drops over a run, on both sides together. */
  ghost function Dropped(trades: seq<Trade>): real {
    if trades == [] then 0.0
    else
      var n := |trades| - 1;
      var s, t := Run(trades[..n]), trades[n];
      Dropped(trades[..n]) + Settle(Against(s, t), t.quantity, t.price, if t.direction == LONG then SHORT else LONG).residue
  }

  /** Every fill ends cleanly when its turn comes. */
  ghost predicate CleanRun(trades: seq<Trade>) {
    trades == [] ||
    var n := |trades| - 1;
    CleanRun(trades[..n]) && EndsCleanly(Against(Run(trades[..n]), trades[n]), trades[n].quantity)
  }

  lemma AgainstPositive(s: State, t: Trade)
    requires Consistent(s)
    ensures Positive(Against(s, t))
  {
    SymbolPositive(s, t.symbol);
  }

  lemma StepDrops(s: State, t: Trade)
    requires Consistent(s)
    ensures Step(s, t).residue == s.residue <==> EndsCleanly(Against(s, t), t.quantity)
    ensures EndsCleanly(Against(s, t), t.quantity) ==> Step(s, t).residueCost == s.residueCost
  {
    hide Settle, Consistent, EndsCleanly;
    AgainstPositive(s, t);
    SettleDrops(Against(s, t), t.quantity, t.price, if t.direction == LONG then SHORT else LONG);
    StepQueues(s, t, t.symbol);
    NothingAgainst(t.quantity);
  }

  lemma NothingAgainst(need: real)
    ensures EndsCleanly([], need)
  {
  }

  /** A run drops nothing exactly when each of its fills ends cleanly. */
  lemma {:induction false} RunDrops(trades: seq<Trade>)
    ensures Dropped(trades) >= 0.0
    ensures Dropped(trades) == 0.0 <==> CleanRun(trades)
    ensures CleanRun(trades) ==> Run(trades).residue == 0.0 && Run(trades).residueCost == 0.0
  {
    if trades != [] {
      hide Settle, EndsCleanly, Step, Consistent;
      var n := |trades| - 1;
      var s, t := Run(trades[..n]), trades[n];
      RunDrops(trades[..n]);
      RunConsistent(trades[..n]);
      AgainstPositive(s, t);
      SettleDrops(Against(s, t), t.quantity, t.price, if t.direction == LONG then SHORT else LONG);
      StepDrops(s, t);
    }
  }

  // Whole units end cleanly.

  ghost predicate InUnits(lots: seq<Lot>, unit: real) {
    forall lot <- lots :: Multiple(lot.quantity, unit)
  }

  lemma {:induction false} UnitsEndCleanly(lots: seq<Lot>, need: real, unit: real)
    requires unit > EPS && InUnits(lots, unit) && Multiple(need, unit)
    ensures EndsCleanly(lots, need)
  {
    hide Multiple;
    if need > 0.0 && lots != [] {
      var q := lots[0].quantity;
      assert lots[0] in lots;
      if need >= q {
        MultipleClosed(need, q, unit);
        UnitsEndCleanly(lots[1..], need - q, unit);
      } else if need >= q - EPS {
        MultiplesApart(need, q, unit);
      }
    }
  }

  lemma {:induction false} SettleKeepsUnits(lots: seq<Lot>, need: real, price: real, side: Direction, unit: real)
    requires InUnits(lots, unit) && Multiple(need, unit)
    ensures var o := Settle(lots, need, price, side); InUnits(o.lots, unit) && Multiple(o.need, unit)
  {
    if need > 0.0 && lots != [] {
      var q := lots[0].quantity;
      var m := RealMin(need, q);
      assert lots[0] in lots;
      hide Multiple, Gain, Close, Value;
      MultipleClosed(q, m, unit);
      MultipleClosed(need, m, unit);
      if m >= q - EPS {
        SettleKeepsUnits(lots[1..], need - m, price, side, unit);
      }
    }
  }

  lemma SettleExact(lots: seq<Lot>, need: real, price: real, side: Direction, unit: real)
    requires unit > EPS && Positive(lots) && InUnits(lots, unit) && Multiple(need, unit)
    ensures var o := Settle(lots, need, price, side);
            o.residue == 0.0 && o.residueCost == 0.0 && InUnits(o.lots, unit) && Multiple(o.need, unit)
  {
    hide Settle, Multiple, EndsCleanly;
    UnitsEndCleanly(lots, need, unit);
    SettleDrops(lots, need, price, side);
    SettleKeepsUnits(lots, need, price, side, unit);
  }

  ghost predicate TradesInUnits(trades: seq<Trade>, unit: real) {
    forall t <- trades :: Multiple(t.quantity, unit)
  }

  ghost predicate StateInUnits(s: State, unit: real) {
    && (forall sym :: InUnits(Queue(s.longs, sym), unit))
    && (forall sym :: InUnits(Queue(s.shorts, sym), unit))
  }

  lemma StepKeepsUnits(s: State, t: Trade, unit: real)
    requires Multiple(t.quantity, unit) && StateInUnits(s, unit)
    ensures StateInUnits(Step(s, t), unit)
  {
    hide Settle, Multiple;
    SettleKeepsUnits(Queue(s.shorts, t.symbol), t.quantity, t.price, SHORT, unit);
    SettleKeepsUnits(Queue(s.longs, t.symbol), t.quantity, t.price, LONG, unit);
    var n := Step(s, t);
    forall sym ensures InUnits(Queue(n.longs, sym), unit) && InUnits(Queue(n.shorts, sym), unit) {
      StepQueues(s, t, sym);
      assert InUnits(Queue(s.longs, sym), unit) && InUnits(Queue(s.shorts, sym), unit);
    }
  }

  lemma {:induction false} UnitsRunClean(trades: seq<Trade>, unit: real)
    requires unit > EPS && TradesInUnits(trades, unit)
    ensures CleanRun(trades) && StateInUnits(Run(trades), unit)
  {
    if trades != [] {
      hide Settle, EndsCleanly, Step, Multiple;
      var n := |trades| - 1;
      var s, t := Run(trades[..n]), trades[n];
      assert t in trades;
      UnitsRunClean(trades[..n], unit);
      UnitsEndCleanly(Against(s, t), t.quantity, unit);
      StepKeepsUnits(s, t, unit);
    }
  }

  /** When all quantities are multiples of a unit above EPS, nothing is ever dropped. */
  lemma NothingDropped(trades: seq<Trade>, unit: real)
    requires unit > 0.000000000001 && TradesInUnits(trades, unit)
    ensures Dropped(trades) == 0.0 && Run(trades).residue == 0.0 && Run(trades).residueCost == 0.0
    ensures StateInUnits(Run(trades), unit)
  {
    UnitsRunClean(trades, unit);
    RunDrops(trades);
  }

  lemma AlmostAll(lot: Lot, need: real, price: real)
    requires 0.0 < need < lot.quantity <= need + EPS
    ensures var r := Settle([lot], need, price, LONG);
            r.lots == [] && r.need == 0.0 && r.residue == lot.quantity - need
  {
    hide Settle, Gain, Value;
    SettleUnfold([lot], need, price, LONG);
    SettleNothing([], 0.0, price, LONG);
    assert [lot][1..] == [];
  }

  /** Off the grid the test does drop something: when a sale leaves at most EPS of a purchase,
      the lot is closed and the rest disappears from the books. */
  lemma SliverDropped(buy: Trade, sell: Trade)
    requires buy.symbol == sell.symbol && buy.direction == LONG && sell.direction == SHORT
    requires 0.0 < sell.quantity < buy.quantity <= sell.quantity + 0.000000000001
    ensures var s := Run([buy, sell]); Queue(s.longs, buy.symbol) == [] && Queue(s.shorts, buy.symbol) == []
    ensures Dropped([buy, sell]) == buy.quantity - sell.quantity > 0.0
  {
    var lot := Lot(buy.quantity, buy.price, 0.0);
    assert [buy, sell][..1] == [buy] && [buy][..0] == [];
    assert Dropped([buy]) == Settle([], buy.quantity, buy.price, SHORT).residue;
    assert Dropped([buy, sell]) == Dropped([buy]) + Settle(Against(Run([buy]), sell), sell.quantity, sell.price, LONG).residue;
    hide Settle, Step, Dropped;
    assert Run([buy]) == Step(START, buy);
    assert Run([buy, sell]) == Step(Run([buy]), sell);
    StepQueues(START, buy, buy.symbol);
    StepQueues(Run([buy]), sell, buy.symbol);
    SettleNothing([], buy.quantity, buy.price, SHORT);
    assert Queue(Run([buy]).longs, buy.symbol) == [lot];
    AlmostAll(lot, sell.quantity, sell.price);
  }
}
