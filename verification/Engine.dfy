/** The backtest engine: sizing, ordering, executing, and the trading loop. */
module Engine {
  import opened Trades
  import opened RoundTrips
  import opened FifoLaws
  import opened FifoOrder
  import opened Positions
  import opened Agreement

  const LOT_SIZE := 100

  datatype Config = Config(initialCapital: real, slippageRate: real)

  datatype Status = PENDING | REJECTED

  datatype Order = Order(symbol: string, direction: Direction, price: real, quantity: real, status: Status)

  /** A C++ cast from double to int drops the fraction. */
  function Truncate(x: real): int { if x >= 0.0 then x.Floor else -(-x).Floor }

  function PositionSize(available: real, price: real): real
    requires price != 0.0
  {
    (available * 0.2 / price / 100.0).Floor as real * 100.0
  }

  /** Shares of a buy order: a fifth of the available capital in board lots, but at least one lot. */
  function BuyQuantity(available: real, price: real): real
    requires price != 0.0
  {
    var rounded := Truncate(PositionSize(available, price) / LOT_SIZE as real) * LOT_SIZE;
    (if rounded > LOT_SIZE then rounded else LOT_SIZE) as real
  }

  function OrderPrice(close: real, slippageRate: real, d: Direction): real {
    close * (1.0 + (if d == LONG then slippageRate else -slippageRate))
  }

  /** createOrder: selling without a position is rejected; a sale always sells everything. */
  function OrderFor(l: Ledger, c: Config, code: string, close: real, d: Direction): Order
    requires close != 0.0
  {
    if d == SHORT && !Held(l.positions, code) then Order(code, d, 0.0, 0.0, REJECTED)
    else Order(code, d, OrderPrice(close, c.slippageRate, d),
               if d == LONG then BuyQuantity(l.balance.availableCapital, close)
               else if code in l.positions then l.positions[code].quantity else 0.0,
               PENDING)
  }

  function Executed(o: Order): Trade { Trade(o.symbol, o.direction, o.price, o.quantity) }

  /** The manager and the trade list. */
  datatype Journal = Journal(ledger: Ledger, trades: seq<Trade>)

  /** One bar: its code, close and the strategy's signal. */
  datatype Tick = Tick(code: string, close: real, signal: Direction)

  /** Entries hold positive whole board lots. */
  ghost predicate LotHoldings(l: Ledger) {
    Healthy(l) && AllHeld(l) && forall s <- l.positions :: Multiple(l.positions[s].quantity, 100.0)
  }

  ghost function MarkedJournal(b: Journal, tick: Tick): Journal {
    b.(ledger := b.ledger.(positions := MarkedAll(b.ledger.positions, tick.code, tick.close)))
  }

  /** Whether the bar leads to a trade. */
  predicate LeadsToTrade(l: Ledger, tick: Tick) {
    tick.signal == LONG || (tick.signal == SHORT && Held(l.positions, tick.code))
  }

  ghost function Ticked(b: Journal, c: Config, tick: Tick): Journal
    requires tick.close != 0.0 && Healthy(b.ledger)
  {
    var m := MarkedJournal(b, tick);
    MarkedHealthy(b.ledger, tick);
    if !LeadsToTrade(m.ledger, tick) then m
    else
      var t := Executed(OrderFor(m.ledger, c, tick.code, tick.close, tick.signal));
      BuyQuantityIsLots(m.ledger.balance.availableCapital, tick.close);
      HealthyAnswers(m.ledger, t);
      Journal(Processed(m.ledger, t), m.trades + [t])
  }

  lemma MarkedHealthy(l: Ledger, tick: Tick)
    requires Healthy(l)
    ensures Healthy(l.(positions := MarkedAll(l.positions, tick.code, tick.close)))
    ensures AllHeld(l) ==> AllHeld(l.(positions := MarkedAll(l.positions, tick.code, tick.close)))
  {
    hide AverageOf, Profit;
  }

  lemma {:induction false} FloorBounds(x: real)
    ensures x.Floor as real <= x < x.Floor as real + 1.0
  {
  }

  /** The cast keeps the sign and the whole part. */
  lemma TruncateTowardZero(x: real)
    ensures x >= 0.0 ==> 0.0 <= Truncate(x) as real <= x < Truncate(x) as real + 1.0
    ensures x <= 0.0 ==> Truncate(x) as real - 1.0 < x <= Truncate(x) as real <= 0.0
  {
    FloorBounds(x);
    FloorBounds(-x);
  }

  lemma TruncateWhole(k: int)
    ensures Truncate(k as real) == k
  {
    if k < 0 {
      assert -(k as real) == (-k) as real;
    }
  }

  lemma LotsOf(available: real, price: real) returns (k: int)
    requires price != 0.0
    ensures k == (available * 0.2 / price / 100.0).Floor
    ensures BuyQuantity(available, price) == (if k * 100 > 100 then k * 100 else 100) as real
  {
    k := (available * 0.2 / price / 100.0).Floor;
    var size := k as real * 100.0;
    assert PositionSize(available, price) == size;
    assert size / LOT_SIZE as real == k as real;
    TruncateWhole(k);
  }

  lemma BuyQuantityIsLots(available: real, price: real)
    requires price != 0.0
    ensures BuyQuantity(available, price) >= 100.0 && Multiple(BuyQuantity(available, price), 100.0)
  {
    var k := LotsOf(available, price);
    var n := if k * 100 > 100 then k else 1;
    assert BuyQuantity(available, price) == Units(n, 100.0);
  }

  /** A buy is the largest number of board lots that a fifth of the available capital pays for at
      the close, except that one lot is bought even when it does not. */
  lemma BuyQuantityAffordable(available: real, close: real)
    requires close > 0.0
    ensures var q := BuyQuantity(available, close);
            && (q > 100.0 ==> q * close <= available * 0.2)
            && available * 0.2 < (q + 100.0) * close
  {
    var k := LotsOf(available, close);
    var budget := available * 0.2;
    var ratio := budget / close;
    FloorBounds(ratio / 100.0);
    var q := BuyQuantity(available, close);
    assert k as real * 100.0 <= ratio < k as real * 100.0 + 100.0;
    assert ratio < q + 100.0;
    assert q > 100.0 ==> q <= ratio;
    Ratio(budget, close, q);
    Ratio(budget, close, q + 100.0);
  }

  lemma Ratio(budget: real, price: real, q: real)
    requires price > 0.0
    ensures q <= budget / price ==> q * price <= budget
    ensures budget / price < q ==> budget < q * price
  {
    var ratio := budget / price;
    assert ratio * price == budget;
    Scale(q, ratio, price);
    Scale(ratio, q, price);
  }

  lemma Scale(a: real, b: real, p: real)
    requires p > 0.0
    ensures a <= b ==> a * p <= b * p
    ensures a < b ==> a * p < b * p
  {
  }

  class BacktestEngine {
    const config: Config
    const account: Account
    const manager: PositionManager
    var trades: seq<Trade>

    constructor (config: Config)
      ensures this.config == config && fresh(account) && fresh(manager) && manager.account == account
      ensures manager.positions == map[] && trades == []
      ensures account.realizedPnl == 0.0
    {
      this.config := config;
      var a := new Account();
      account := a;
      manager := new PositionManager(a);
      trades := [];
    }

    ghost function Contents(): Journal
      reads this, manager, manager.account
    {
      Journal(manager.Contents(), trades)
    }

    ghost predicate Valid()
      reads this, manager, manager.account
    {
      manager.account == account && Healthy(manager.Contents())
    }

    method InitAccount()
      requires manager.account == account
      modifies account
      ensures account.Figures() == Balance(config.initialCapital, config.initialCapital, config.initialCapital,
                                           0.0, 0.0, 0.0, 0.0)
      ensures manager.positions == map[] ==> Untouched(manager.Contents()) && Balanced(manager.Contents())
    {
      SumEmpty(CostOf);
      account.initialCapital := config.initialCapital;
      account.currentCapital := config.initialCapital;
      account.availableCapital := config.initialCapital;
      account.marginUsed := 0.0;
      account.totalPnl := 0.0;
      account.realizedPnl := 0.0;
      account.unrealizedPnl := 0.0;
    }

    method CreateOrder(code: string, close: real, d: Direction) returns (o: Order)
      requires close != 0.0 && manager.account == account
      ensures o == OrderFor(manager.Contents(), config, code, close, d)
    {
      if d == SHORT && !manager.HasPosition(code) {
        return Order(code, d, 0.0, 0.0, REJECTED);
      }
      var price := OrderPrice(close, config.slippageRate, d);
      var rawQuantity := PositionSize(account.availableCapital, close);
      var rounded := Truncate(rawQuantity / LOT_SIZE as real) * LOT_SIZE;
      var quantity;
      if d == LONG {
        quantity := (if rounded > LOT_SIZE then rounded else LOT_SIZE) as real;
      } else {
        quantity := manager.PositionQuantity(code);
      }
      return Order(code, d, price, quantity, PENDING);
    }

    /** One pass of the trading loop. */
    method OnBar(code: string, close: real, signal: Direction)
      requires Valid() && close != 0.0
      modifies this, manager, account
      ensures Valid() && Contents() == Ticked(old(Contents()), config, Tick(code, close, signal))
    {
      hide Healthy, Processed, OrderFor;
      ghost var tick := Tick(code, close, signal);
      TickHealthy(Contents(), config, tick);
      ghost var before := Contents();
      MarkedHealthy(before.ledger, tick);
      manager.UpdatePositions(code, close);
      assert Contents() == MarkedJournal(before, tick);
      if signal == HOLD {
        return;
      }
      if signal != FLAT {
        if signal == SHORT && !manager.HasPosition(code) {
          return;
        }
        var order := CreateOrder(code, close, signal);
        OrderPasses(manager.Contents(), config, tick);
        if order.status == REJECTED || order.quantity == 0.0 {
          return;
        }
        var trade := Executed(order);
        trades := trades + [trade];
        HealthyAnswers(manager.Contents(), trade);
        manager.ProcessTrade(trade);
      }
    }

    /** The trading loop of run(code) over the (already filtered) bars and the strategy's signals. */
    method Run(code: string, bars: seq<real>, signals: seq<Direction>)
      requires Valid() && |signals| == |bars| && forall i :: 0 <= i < |bars| ==> bars[i] != 0.0
      modifies this, manager, account
      ensures Valid()
      ensures Contents() == Session(old(Contents()), config, TicksOf(code, bars, signals))
    {
      hide Healthy, Ticked;
      ghost var ticks := TicksOf(code, bars, signals);
      for i := 0 to |bars|
        invariant Valid()
        invariant Contents() == Session(old(Contents()), config, ticks[..i])
      {
        assert ticks[..i + 1][..i] == ticks[..i] && ticks[i] == Tick(code, bars[i], signals[i]);
        OnBar(code, bars[i], signals[i]);
      }
      assert ticks[..|bars|] == ticks;
    }
  }

  /** What an order asks for: the price moves against the customer by the slippage; a sale or a flat order is for all
      that is held, a purchase for what is affordable; selling without a holding is the only thing rejected. */
  lemma OrderAsks(l: Ledger, c: Config, code: string, close: real, d: Direction)
    requires close != 0.0
    ensures var o := OrderFor(l, c, code, close, d);
            && o.symbol == code && o.direction == d
            && (o.status == REJECTED <==> d == SHORT && HeldQuantity(l, code) <= 0.0)
            && (o.status == REJECTED ==> o.quantity == 0.0)
            && (o.status != REJECTED && d == LONG ==>
                  o.price - close == c.slippageRate * close && Affordable(o.quantity, close, l.balance.availableCapital))
            && (o.status != REJECTED && d != LONG ==>
                  close - o.price == c.slippageRate * close && o.quantity == HeldQuantity(l, code))
  {
    BuyOrder(l, c, code, close);
    hide BuyQuantity, Affordable;
  }

  /** An order that the loop lets through has a positive quantity and is not rejected. */
  lemma OrderPasses(l: Ledger, c: Config, tick: Tick)
    requires tick.close != 0.0 && LeadsToTrade(l, tick)
    ensures var o := OrderFor(l, c, tick.code, tick.close, tick.signal);
            o.status == PENDING && o.quantity > 0.0
  {
    BuyQuantityIsLots(l.balance.availableCapital, tick.close);
  }

  ghost predicate Priced(ticks: seq<Tick>) {
    forall i :: 0 <= i < |ticks| ==> ticks[i].close != 0.0
  }

  function TicksOf(code: string, bars: seq<real>, signals: seq<Direction>): (ticks: seq<Tick>)
    requires |signals| == |bars|
    ensures (forall i :: 0 <= i < |bars| ==> bars[i] != 0.0) ==> Priced(ticks)
  {
    seq(|bars|, i requires 0 <= i < |bars| => Tick(code, bars[i], signals[i]))
  }

  ghost function Session(b: Journal, c: Config, ticks: seq<Tick>): (n: Journal)
    requires Healthy(b.ledger) && Priced(ticks)
    ensures Healthy(n.ledger)
  {
    if ticks == [] then b
    else
      var k := |ticks| - 1;
      var m := Session(b, c, ticks[..k]);
      TickHealthy(m, c, ticks[k]);
      Ticked(m, c, ticks[k])
  }

  lemma TickHealthy(b: Journal, c: Config, tick: Tick)
    requires tick.close != 0.0 && Healthy(b.ledger)
    ensures Healthy(Ticked(b, c, tick).ledger)
  {
    hide Processed, Healthy;
    var m := MarkedJournal(b, tick);
    MarkedHealthy(b.ledger, tick);
    if LeadsToTrade(m.ledger, tick) {
      var t := Executed(OrderFor(m.ledger, c, tick.code, tick.close, tick.signal));
      BuyQuantityIsLots(m.ledger.balance.availableCapital, tick.close);
      StepHealthy(m.ledger, t);
    }
  }

  // The engine's trades keep both ledgers in step at every bar, not only when flat.

  /** No lot of the symbol is partly closed, and both ledgers hold it at the same cost. */
  ghost predicate SameCost(s: State, l: Ledger, symbol: string) {
    && SameHolding(s, l, symbol)
    && Partial(Queue(s.longs, symbol)) == 0.0
    && Cost(Queue(s.longs, symbol)) == (if symbol in l.positions then l.positions[symbol].Cost() else 0.0)
  }

  ghost predicate InStep(b: Journal) {
    && LotHoldings(b.ledger)
    && TradesInUnits(b.trades, 100.0)
    && (forall symbol :: SameCost(Run(b.trades), b.ledger, symbol))
    && Net(Run(b.trades).tally) == b.ledger.balance.realizedPnl
  }

  /** What a sale of everything does to the FIFO queue: all lots close, at their cost. */
  lemma SellEverything(lots: seq<Lot>, t: Trade)
    requires Positive(lots) && InUnits(lots, 100.0) && Partial(lots) == 0.0
    requires t.quantity == Quantity(lots) > 0.0 && Multiple(t.quantity, 100.0)
    ensures var o := Settle(lots, t.quantity, t.price, LONG);
            o.lots == [] && o.need == 0.0 && Net(o.tally) == Value(t.quantity, t.price) - Cost(lots)
  {
    hide Settle, Multiple, Value;
    SaleSettles(lots, t);
    SettleExact(lots, t.quantity, t.price, LONG, 100.0);
    var o := Settle(lots, t.quantity, t.price, LONG);
    QuantityPositive(o.lots);
    SettleConservesValue(lots, t.quantity, t.price, LONG);
  }

  lemma BuyInStep(s: State, l: Ledger, t: Trade, symbol: string)
    requires t.direction == LONG && t.quantity > 0.0 && Healthy(l) && AllHeld(l)
    requires SameCost(s, l, symbol) && SameCost(s, l, t.symbol)
    ensures Answerable(l, t) && SameCost(Step(s, t), Processed(l, t), symbol)
    ensures Net(Step(s, t).tally) == Net(s.tally)
    ensures Processed(l, t).balance.realizedPnl == l.balance.realizedPnl
  {
    HealthyAnswers(l, t);
    var lq := Queue(s.longs, symbol);
    SettleNothing([], t.quantity, t.price, SHORT);
    StepQueues(s, t, symbol);
    Append(lq, Lot(t.quantity, t.price, 0.0));
    hide Settle, Sum, AverageOf, AddedTo, Value, Position.Cost, Queue, Quantity;
    if symbol == t.symbol {
      if symbol in l.positions {
        AddingCost(l.positions[symbol], t);
        AddedQuantity(l.positions[symbol], t);
      } else {
        ClosingValue(Opened(t), t.price, t.quantity);
      }
    }
  }

  lemma AddedQuantity(p: Position, t: Trade)
    requires p.quantity + t.quantity != 0.0
    ensures AddedTo(p, t).quantity == p.quantity + t.quantity
  {
  }

  lemma SaleInStep(s: State, l: Ledger, t: Trade, symbol: string)
    requires Consistent(s) && StateInUnits(s, 100.0)
    requires t.direction == SHORT && Healthy(l) && AllHeld(l) && t.symbol in l.positions && t.quantity == l.positions[t.symbol].quantity
    requires Multiple(t.quantity, 100.0)
    requires SameCost(s, l, symbol) && SameCost(s, l, t.symbol)
    ensures Answerable(l, t) && SameCost(Step(s, t), Processed(l, t), symbol)
    ensures Net(Step(s, t).tally) - Net(s.tally) == Processed(l, t).balance.realizedPnl - l.balance.realizedPnl
  {
    HealthyAnswers(l, t);
    SymbolPositive(s, t.symbol);
    var lots := Queue(s.longs, t.symbol);
    hide Settle, Sum, AverageOf, Value, Position.Cost, Consistent, Multiple, Profit, Quantity;
    SellEverything(lots, t);
    StepQueues(s, t, symbol);
    ClosingValue(l.positions[t.symbol], t.price, t.quantity);
  }

  lemma TickInStep(b: Journal, c: Config, tick: Tick)
    requires tick.close != 0.0 && InStep(b)
    ensures InStep(Ticked(b, c, tick))
  {
    var m := MarkedJournal(b, tick);
    MarkedHealthy(b.ledger, tick);
    MarkedInStep(b, tick);
    TickHealthy(b, c, tick);
    if LeadsToTrade(m.ledger, tick) {
      var t := Executed(OrderFor(m.ledger, c, tick.code, tick.close, tick.signal));
      BuyQuantityIsLots(m.ledger.balance.availableCapital, tick.close);
      TradeInStep(m, t);
    }
  }

  lemma MarkedInStep(b: Journal, tick: Tick)
    requires InStep(b)
    ensures InStep(MarkedJournal(b, tick))
  {
    hide Run, Multiple, AverageOf, Profit, Queue, Quantity;
    MarkedHealthy(b.ledger, tick);
    var m := MarkedJournal(b, tick);
    forall symbol ensures SameCost(Run(m.trades), m.ledger, symbol) {
      assert SameCost(Run(b.trades), b.ledger, symbol);
    }
  }

  lemma TradeInStep(m: Journal, t: Trade)
    requires InStep(m) && Multiple(t.quantity, 100.0) && t.quantity > 0.0
    requires t.direction == LONG ||
             (t.direction == SHORT && t.symbol in m.ledger.positions && t.quantity == m.ledger.positions[t.symbol].quantity)
    ensures Answerable(m.ledger, t)
    ensures InStep(Journal(Processed(m.ledger, t), m.trades + [t]))
  {
    var s, l := Run(m.trades), m.ledger;
    StepHealthy(l, t);
    RunConsistent(m.trades);
    NothingDropped(m.trades, 100.0);
    var n := m.trades + [t];
    assert n[..|n| - 1] == m.trades && Run(n) == Step(s, t);
    var p := Processed(l, t);
    LotsKept(l, t);
    hide Step, Run, Processed, Consistent, StateInUnits, Multiple, Healthy;
    forall symbol ensures SameCost(Step(s, t), p, symbol) && Net(Step(s, t).tally) == p.balance.realizedPnl {
      assert SameCost(s, l, symbol) && SameCost(s, l, t.symbol);
      if t.direction == LONG {
        BuyInStep(s, l, t, symbol);
      } else {
        SaleInStep(s, l, t, symbol);
      }
    }
    assert SameCost(Step(s, t), p, t.symbol);
  }

  lemma LotsKept(l: Ledger, t: Trade)
    requires LotHoldings(l) && Multiple(t.quantity, 100.0) && t.quantity > 0.0 && Answerable(l, t)
    requires t.direction == LONG ||
             (t.direction == SHORT && t.symbol in l.positions && t.quantity == l.positions[t.symbol].quantity)
    ensures LotHoldings(Processed(l, t))
  {
    StepHealthy(l, t);
    hide Multiple, Sum, AverageOf, Mean, Profit;
    if t.symbol in l.positions {
      MultipleClosed(l.positions[t.symbol].quantity, t.quantity, 100.0);
    }
  }

  /** For every run of the engine, over any codes, bars and signals, the FIFO ledger's closed profit
      minus loss equals the position manager's realized profit, whether or not anything is still open. */
  lemma {:induction false} EngineLedgersAgree(b: Journal, c: Config, ticks: seq<Tick>)
    requires Untouched(b.ledger) && b.trades == [] && Priced(ticks)
    ensures Healthy(b.ledger) && InStep(Session(b, c, ticks))
    ensures var n := Session(b, c, ticks);
            Net(Run(n.trades).tally) == n.ledger.balance.realizedPnl
  {
    if ticks == [] {
      assert Run(b.trades) == START;
    } else {
      var k := |ticks| - 1;
      EngineLedgersAgree(b, c, ticks[..k]);
      TickInStep(Session(b, c, ticks[..k]), c, ticks[k]);
    }
  }

  // The account over a session.

  /** The account agrees with the table and with the cash of the trade list. */
  ghost predicate Booked(b: Journal) {
    && Balanced(b.ledger)
    && b.ledger.balance.realizedPnl - Sum(b.ledger.positions, CostOf) == Proceeds(b.trades)
  }

  lemma MarkedBooked(b: Journal, tick: Tick)
    requires Booked(b)
    ensures Booked(MarkedJournal(b, tick))
  {
    hide Sum, Profit;
    MarkedBalanced(b.ledger, tick.code, tick.close);
  }

  lemma TradeBooked(m: Journal, t: Trade)
    requires Booked(m) && Healthy(m.ledger) && AllHeld(m.ledger) && t.quantity > 0.0
    requires Accepts(m.ledger, t) && (t.direction == LONG || t.direction == SHORT)
    ensures Answerable(m.ledger, t) && Booked(Journal(Processed(m.ledger, t), m.trades + [t]))
  {
    HealthyAnswers(m.ledger, t);
    StepBalanced(m.ledger, t);
    StepCash(m.ledger, t);
    CashOfFill(m.ledger, t);
    StepHealthy(m.ledger, t);
    hide Sum, Processed, Healthy, Value, CashFlow, Lost;
    assert (m.trades + [t])[..|m.trades|] == m.trades;
  }

  lemma TickBooked(b: Journal, c: Config, tick: Tick)
    requires tick.close != 0.0 && InStep(b) && Booked(b)
    ensures Booked(Ticked(b, c, tick))
    ensures Ticked(b, c, tick).ledger.balance.initialCapital == b.ledger.balance.initialCapital
  {
    hide Sum, Run, Processed, Healthy, Booked;
    var m := MarkedJournal(b, tick);
    MarkedHealthy(b.ledger, tick);
    MarkedBooked(b, tick);
    if LeadsToTrade(m.ledger, tick) {
      var t := Executed(OrderFor(m.ledger, c, tick.code, tick.close, tick.signal));
      BuyQuantityIsLots(m.ledger.balance.availableCapital, tick.close);
      HealthyAnswers(m.ledger, t);
      KeepsInitial(m.ledger, t);
      TradeBooked(m, t);
    }
  }

  lemma KeepsInitial(l: Ledger, t: Trade)
    requires Answerable(l, t)
    ensures Processed(l, t).balance.initialCapital == l.balance.initialCapital
  {
    hide Sum;
  }

  /** After any session from an initialised account, the account agrees with the open positions, and what is
      available is the initial capital plus the cash of all executed trades plus the booked unrealized profit. */
  lemma {:induction false} SessionBalances(b: Journal, c: Config, ticks: seq<Tick>)
    requires Untouched(b.ledger) && Balanced(b.ledger) && b.trades == [] && Priced(ticks)
    ensures Healthy(b.ledger)
    ensures var n, initial := Session(b, c, ticks), b.ledger.balance.initialCapital;
            && Booked(n) && n.ledger.balance.initialCapital == initial
            && n.ledger.balance.availableCapital == initial + Proceeds(n.trades) + n.ledger.balance.unrealizedPnl
  {
    hide Sum, Ticked, InStep, Proceeds, Booked, Balanced, RoundTrips.Run;
    FreshBooked(b);
    if ticks == [] {
      BookedCapital(b);
    } else {
      var k := |ticks| - 1;
      EngineLedgersAgree(b, c, ticks[..k]);
      SessionBalances(b, c, ticks[..k]);
      TickBooked(Session(b, c, ticks[..k]), c, ticks[k]);
      BookedCapital(Session(b, c, ticks));
    }
  }

  lemma FreshBooked(b: Journal)
    requires Untouched(b.ledger) && Balanced(b.ledger) && b.trades == []
    ensures Healthy(b.ledger) && Booked(b)
  {
    SumEmpty(CostOf);
  }

  lemma BookedCapital(n: Journal)
    requires Booked(n)
    ensures var a := n.ledger.balance; a.availableCapital == a.initialCapital + Proceeds(n.trades) + a.unrealizedPnl
  {
    hide Sum, Proceeds;
  }

  // What a bar does.

  /** The floating profit of an entry after a bar of its code: that of what was held before the bar, at the bar's
      close; a new entry has none. */
  ghost predicate Floats(before: Ledger, after: Ledger, code: string, close: real)
    requires code in after.positions
  {
    if code in before.positions then
      var p := before.positions[code];
      after.positions[code].unrealizedPnl + p.Cost() == Value(p.quantity, close)
    else after.positions[code].unrealizedPnl == 0.0
  }

  /** The largest number of board lots that a fifth of what is available pays for, but at least one. */
  ghost predicate Affordable(q: real, close: real, available: real) {
    && q >= 100.0 && Multiple(q, 100.0)
    && (close > 0.0 ==> (q > 100.0 ==> q * close <= available * 0.2) && available * 0.2 < (q + 100.0) * close)
  }

  lemma BuyOrder(l: Ledger, c: Config, code: string, close: real)
    requires close != 0.0
    ensures var t := Executed(OrderFor(l, c, code, close, LONG));
            && t.symbol == code && t.direction == LONG && t.price - close == c.slippageRate * close
            && Affordable(t.quantity, close, l.balance.availableCapital)
  {
    BuyQuantityIsLots(l.balance.availableCapital, close);
    if close > 0.0 {
      BuyQuantityAffordable(l.balance.availableCapital, close);
    }
    hide BuyQuantity, Multiple;
  }

  lemma BuyBooked(l: Ledger, t: Trade)
    requires Healthy(l) && t.direction == LONG && t.quantity > 0.0
    ensures Answerable(l, t)
    ensures var n := Processed(l, t);
            && t.symbol in n.positions
            && HeldQuantity(n, t.symbol)
               == (if t.symbol in l.positions && l.positions[t.symbol].quantity == 0.0 then 0.0
                   else HeldQuantity(l, t.symbol) + t.quantity)
            && n.positions[t.symbol].unrealizedPnl
               == (if t.symbol in l.positions then l.positions[t.symbol].unrealizedPnl else 0.0)
            && (t.symbol !in l.positions ==>
                  n.positions[t.symbol] == Position(t.symbol, LONG, t.quantity, t.price, 0.0, 0.0, [t]))
            && forall s :: s != t.symbol ==> SameEntry(l, n, s)
  {
    HealthyAnswers(l, t);
    hide Sum, AverageOf, Mean;
  }

  /** A LONG signal always leads to one purchase: of the board lots that a fifth of the available capital pays for,
      at the close plus slippage. The holding grows by it, unless the table has an empty entry. */
  lemma BuySignal(b: Journal, c: Config, tick: Tick)
    requires tick.close != 0.0 && Healthy(b.ledger) && tick.signal == LONG
    ensures var n := Ticked(b, c, tick);
            && |n.trades| == |b.trades| + 1 && n.trades[..|b.trades|] == b.trades
            && var t := n.trades[|b.trades|];
            && t.symbol == tick.code && t.direction == LONG
            && t.price - tick.close == c.slippageRate * tick.close
            && Affordable(t.quantity, tick.close, b.ledger.balance.availableCapital)
            && HeldQuantity(n.ledger, tick.code)
               == (if tick.code in b.ledger.positions && b.ledger.positions[tick.code].quantity == 0.0 then 0.0
                   else HeldQuantity(b.ledger, tick.code) + t.quantity)
            && (forall s :: s != tick.code ==> SameEntry(b.ledger, n.ledger, s))
            && tick.code in n.ledger.positions && Floats(b.ledger, n.ledger, tick.code, tick.close)
            && n.ledger.balance.unrealizedPnl == Sum(n.ledger.positions, UnrealizedOf)
  {
    var l := MarkedJournal(b, tick).ledger;
    var t := TickedBuys(b, c, tick);
    hide Ticked, Sum, Processed, Affordable, Position.Cost, Value, MarkedAll, Healthy, Answerable;
    MarkedWorth(b.ledger, tick.code, tick.close);
    BuyBooked(l, t);
    StepFloating(l, t);
  }

  lemma TickedBuys(b: Journal, c: Config, tick: Tick) returns (t: Trade)
    requires tick.close != 0.0 && Healthy(b.ledger) && tick.signal == LONG
    ensures var l := MarkedJournal(b, tick).ledger;
            && Healthy(l) && Answerable(l, t) && t.quantity > 0.0
            && Ticked(b, c, tick) == Journal(Processed(l, t), b.trades + [t])
            && t.symbol == tick.code && t.direction == LONG
            && t.price - tick.close == c.slippageRate * tick.close
            && Affordable(t.quantity, tick.close, b.ledger.balance.availableCapital)
  {
    var l := MarkedJournal(b, tick).ledger;
    t := Executed(OrderFor(l, c, tick.code, tick.close, LONG));
    MarkedHealthy(b.ledger, tick);
    BuyOrder(l, c, tick.code, tick.close);
    assert t.quantity > 0.0;
    hide Sum, OrderFor, Processed, Affordable, MarkedAll, Healthy;
    HealthyAnswers(l, t);
  }

  /** A SHORT signal with something held sells all of it, at the close less slippage. */
  lemma SellSignal(b: Journal, c: Config, tick: Tick)
    requires tick.close != 0.0 && Healthy(b.ledger) && tick.signal == SHORT && HeldQuantity(b.ledger, tick.code) > 0.0
    ensures var n := Ticked(b, c, tick);
            && |n.trades| == |b.trades| + 1 && n.trades[..|b.trades|] == b.trades
            && var t := n.trades[|b.trades|];
            && t.symbol == tick.code && t.direction == SHORT
            && tick.close - t.price == c.slippageRate * tick.close
            && t.quantity == HeldQuantity(b.ledger, tick.code)
            && tick.code !in n.ledger.positions
            && (forall s :: s != tick.code ==> SameEntry(b.ledger, n.ledger, s))
            && n.ledger.balance.unrealizedPnl == Sum(n.ledger.positions, UnrealizedOf)
  {
    var l := MarkedJournal(b, tick).ledger;
    var t := Executed(OrderFor(l, c, tick.code, tick.close, SHORT));
    MarkedHealthy(b.ledger, tick);
    MarkedWorth(b.ledger, tick.code, tick.close);
    HealthyAnswers(l, t);
    StepFloating(l, t);
    hide Sum, AverageOf, Profit, Position.Cost, Value;
  }

  /** Any other signal only marks the code's entry to the market. */
  lemma QuietSignal(b: Journal, c: Config, tick: Tick)
    requires tick.close != 0.0 && Healthy(b.ledger)
    requires tick.signal == HOLD || tick.signal == FLAT ||
             (tick.signal == SHORT && HeldQuantity(b.ledger, tick.code) <= 0.0)
    ensures var n := Ticked(b, c, tick);
            && n.trades == b.trades && n.ledger.balance == b.ledger.balance
            && n.ledger.positions.Keys == b.ledger.positions.Keys
            && (forall s <- n.ledger.positions ::
                  n.ledger.positions[s].(unrealizedPnl := 0.0) == b.ledger.positions[s].(unrealizedPnl := 0.0))
            && (forall s :: s != tick.code ==> SameEntry(b.ledger, n.ledger, s))
            && (tick.code in n.ledger.positions ==> Floats(b.ledger, n.ledger, tick.code, tick.close))
  {
    MarkedHealthy(b.ledger, tick);
    MarkedWorth(b.ledger, tick.code, tick.close);
    hide Sum, AverageOf, Profit, Value;
  }

  ghost predicate SameEntry(before: Ledger, after: Ledger, s: string) {
    (s in before.positions <==> s in after.positions) &&
    (s in before.positions ==> after.positions[s] == before.positions[s])
  }

  /** What every bar leaves behind: the floating profit of its code's entry, other entries untouched, and an account
      that follows the table when there was a trade and stays as it was otherwise. */
  lemma TickMarks(b: Journal, c: Config, tick: Tick)
    requires tick.close != 0.0 && Healthy(b.ledger)
    ensures var n := Ticked(b, c, tick);
            && (forall s :: s != tick.code ==> SameEntry(b.ledger, n.ledger, s))
            && (tick.code in n.ledger.positions ==> Floats(b.ledger, n.ledger, tick.code, tick.close))
            && (n.ledger.balance.unrealizedPnl == Sum(n.ledger.positions, UnrealizedOf) ||
                (n.trades == b.trades && n.ledger.balance == b.ledger.balance))
  {
    if tick.signal == LONG {
      BuySignal(b, c, tick);
    } else if tick.signal == SHORT && HeldQuantity(b.ledger, tick.code) > 0.0 {
      SellSignal(b, c, tick);
    } else {
      QuietSignal(b, c, tick);
    }
  }

  /** Every open position of a session was last marked at the last bar of its code. */
  lemma {:induction false} SessionMarks(b: Journal, c: Config, ticks: seq<Tick>, code: string) returns (i: nat)
    requires Healthy(b.ledger) && b.ledger.positions == map[] && Priced(ticks)
    requires code in Session(b, c, ticks).ledger.positions
    ensures i < |ticks| && ticks[i].code == code && forall j :: i < j < |ticks| ==> ticks[j].code != code
    ensures Floats(Session(b, c, ticks[..i]).ledger, Session(b, c, ticks).ledger, code, ticks[i].close)
  {
    var k := |ticks| - 1;
    var before := Session(b, c, ticks[..k]);
    TickMarks(before, c, ticks[k]);
    hide Ticked, Sum, Healthy, Value, Position.Cost;
    if ticks[k].code == code {
      i := k;
    } else {
      assert SameEntry(before.ledger, Session(b, c, ticks).ledger, code);
      i := SessionMarks(b, c, ticks[..k], code);
      assert ticks[..k][..i] == ticks[..i];
    }
  }

  /** The account's floating profit is that of the table as it was after the last trade; before the first one it is
      what it started with. */
  lemma {:induction false} SessionFloats(b: Journal, c: Config, ticks: seq<Tick>) returns (k: nat)
    requires Healthy(b.ledger) && Priced(ticks)
    ensures k <= |ticks| && Session(b, c, ticks).trades == Session(b, c, ticks[..k]).trades
    ensures Session(b, c, ticks).ledger.balance == Session(b, c, ticks[..k]).ledger.balance
    ensures k > 0 ==> var l := Session(b, c, ticks[..k]).ledger;
                      l.balance.unrealizedPnl == Sum(l.positions, UnrealizedOf)
  {
    k := |ticks|;
    assert ticks[..k] == ticks;
    if k > 0 {
      var l := Session(b, c, ticks).ledger;
      TickMarks(Session(b, c, ticks[..k - 1]), c, ticks[k - 1]);
      hide Ticked, Sum, Healthy;
      if l.balance.unrealizedPnl != Sum(l.positions, UnrealizedOf) {
        k := SessionFloats(b, c, ticks[..k - 1]);
        assert ticks[..|ticks| - 1][..k] == ticks[..k];
      }
    }
  }
}
