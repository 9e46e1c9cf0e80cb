/** The average-cost position manager and its account. */
module Positions {
  import opened Trades

  datatype Position = Position(symbol: string, direction: Direction, quantity: real, avgPrice: real,
                               realizedPnl: real, unrealizedPnl: real, openTrades: seq<Trade>)
  {
    function Cost(): real { quantity * avgPrice }
  }

  datatype Balance = Balance(initialCapital: real, currentCapital: real, availableCapital: real, marginUsed: real,
                             totalPnl: real, realizedPnl: real, unrealizedPnl: real)

  /** The value of a manager: the table of positions and the figures of its account. */
  datatype Ledger = Ledger(positions: map<string, Position>, balance: Balance)

  ghost function CostOf(p: Position): real { p.Cost() }
  ghost function UnrealizedOf(p: Position): real { p.unrealizedPnl }

  function Side(d: Direction): real { if d == LONG then 1.0 else -1.0 }

  predicate Held(positions: map<string, Position>, symbol: string) {
    symbol in positions && positions[symbol].quantity > 0.0
  }

  /** What selling q units of a position at a price earns over its average cost. */
  function Profit(p: Position, price: real, q: real): real {
    (price - p.avgPrice) * q * Side(p.direction)
  }

  /** The price at which q units bought at a and r units bought at b cost the same in total. */
  function Mean(a: real, q: real, b: real, r: real): real
    requires q + r != 0.0
  {
    (a * q + b * r) / (q + r)
  }

  // The effect of each operation on the value of the manager.

  /** openNewPosition. */
  function Opened(t: Trade): Position {
    Position(t.symbol, t.direction, t.quantity, t.price, 0.0, 0.0, [t])
  }

  /** addToPosition: the new average is the total cost over the total quantity. */
  function AddedTo(p: Position, t: Trade): Position
    requires p.quantity + t.quantity != 0.0
  {
    p.(quantity := p.quantity + t.quantity,
       avgPrice := Mean(p.avgPrice, p.quantity, t.price, t.quantity),
       openTrades := p.openTrades + [t])
  }

  function Closed(l: Ledger, t: Trade): Ledger
    requires t.symbol in l.positions
  {
    var p := l.positions[t.symbol];
    var pnl := Profit(p, t.price, p.quantity);
    Ledger(l.positions - {t.symbol},
           l.balance.(realizedPnl := l.balance.realizedPnl + pnl, currentCapital := l.balance.currentCapital + pnl))
  }

  function Reduced(l: Ledger, t: Trade): Ledger
    requires t.symbol in l.positions
  {
    var p := l.positions[t.symbol];
    if t.quantity >= p.quantity then Closed(l, t)
    else
      var pnl := Profit(p, t.price, t.quantity);
      Ledger(l.positions[t.symbol := p.(quantity := p.quantity - t.quantity)],
             l.balance.(realizedPnl := l.balance.realizedPnl + pnl))
  }

  /** updateAccount: every figure recomputed from the realized profit and the open positions. */
  ghost function Refreshed(l: Ledger): Ledger {
    var cost := Sum(l.positions, CostOf);
    var unrealized := Sum(l.positions, UnrealizedOf);
    var total := l.balance.realizedPnl + unrealized;
    var current := l.balance.initialCapital + total;
    l.(balance := l.balance.(unrealizedPnl := unrealized, totalPnl := total, currentCapital := current,
                             availableCapital := current - cost, marginUsed := cost))
  }

  /** A sell or flat order needs a position of at least its size, a sell a nonempty one; buys always pass. */
  predicate Accepts(l: Ledger, t: Trade) {
    match t.direction
    case HOLD => false
    case LONG => true
    case SHORT => Held(l.positions, t.symbol) && l.positions[t.symbol].quantity >= t.quantity
    case FLAT => t.symbol in l.positions && l.positions[t.symbol].quantity >= t.quantity
  }

  /** Buying into a table entry; an entry of quantity zero stays as it is (emplace does not overwrite). */
  function Bought(positions: map<string, Position>, t: Trade): map<string, Position>
    requires t.symbol in positions && positions[t.symbol].quantity != 0.0 ==>
               positions[t.symbol].quantity + t.quantity != 0.0
  {
    if t.symbol !in positions then positions[t.symbol := Opened(t)]
    else if positions[t.symbol].quantity == 0.0 then positions
    else positions[t.symbol := AddedTo(positions[t.symbol], t)]
  }

  /** Averaging divides by the new quantity: a purchase may not cancel a negative entry exactly. */
  predicate Answerable(l: Ledger, t: Trade) {
    t.direction == LONG && t.symbol in l.positions && l.positions[t.symbol].quantity != 0.0 ==>
      l.positions[t.symbol].quantity + t.quantity != 0.0
  }

  /** A purchase into an entry of quantity zero: emplace does not overwrite the entry, so it is lost. */
  predicate Lost(l: Ledger, t: Trade) {
    t.direction == LONG && t.quantity > 0.0 && t.symbol in l.positions && l.positions[t.symbol].quantity == 0.0
  }

  ghost function Processed(l: Ledger, t: Trade): Ledger
    requires Answerable(l, t)
  {
    if !Accepts(l, t) then l
    else if t.direction == LONG then Refreshed(l.(positions := Bought(l.positions, t)))
    else Refreshed(Reduced(l, t))
  }

  /** Marking the position of a code to the market. */
  function Marked(p: Position, price: real): Position {
    p.(unrealizedPnl := Profit(p, price, p.quantity))
  }

  function MarkedAll(positions: map<string, Position>, code: string, price: real): map<string, Position> {
    if code in positions then positions[code := Marked(positions[code], price)] else positions
  }

  class Account {
    var initialCapital: real
    var currentCapital: real
    var availableCapital: real
    var marginUsed: real
    var totalPnl: real
    var realizedPnl: real
    var unrealizedPnl: real

    ghost function Figures(): Balance
      reads this
    {
      Balance(initialCapital, currentCapital, availableCapital, marginUsed, totalPnl, realizedPnl, unrealizedPnl)
    }

    constructor ()
      ensures Figures() == Balance(0.0, 0.0, 0.0, 0.0, 0.0, 0.0, 0.0)
    {
      initialCapital, currentCapital, availableCapital, marginUsed := 0.0, 0.0, 0.0, 0.0;
      totalPnl, realizedPnl, unrealizedPnl := 0.0, 0.0, 0.0;
    }
  }

  class PositionManager {
    var positions: map<string, Position>
    const account: Account

    constructor (account: Account)
      ensures this.account == account && positions == map[]
    {
      positions := map[];
      this.account := account;
    }

    ghost function Contents(): Ledger
      reads this, account
    {
      Ledger(positions, account.Figures())
    }

    predicate HasPosition(symbol: string)
      reads this
    {
      if symbol !in positions then false else positions[symbol].quantity > 0.0
    }

    function PositionQuantity(symbol: string): real
      reads this
    {
      if symbol in positions then positions[symbol].quantity else 0.0
    }

    method ClosePosition(t: Trade)
      requires t.symbol in positions
      modifies this, account
      ensures Contents() == Closed(old(Contents()), t)
    {
      var p := positions[t.symbol];
      var pnl := Profit(p, t.price, p.quantity);
      account.realizedPnl := account.realizedPnl + pnl;
      account.currentCapital := account.currentCapital + pnl;
      positions := positions - {t.symbol};
    }

    method ReducePosition(t: Trade)
      requires t.symbol in positions
      modifies this, account
      ensures Contents() == Reduced(old(Contents()), t)
    {
      var p := positions[t.symbol];
      if t.quantity >= p.quantity {
        ClosePosition(t);
      } else {
        var pnl := Profit(p, t.price, t.quantity);
        account.realizedPnl := account.realizedPnl + pnl;
        positions := positions[t.symbol := p.(quantity := p.quantity - t.quantity)];
      }
    }

    /** Adds up the open positions, in whatever order the table yields them. */
    method UpdateAccount()
      modifies account
      ensures Contents() == Refreshed(old(Contents()))
    {
      hide Sum;
      var cost, unrealized := 0.0, 0.0;
      var rest := positions;
      while rest != map[]
        invariant cost + Sum(rest, CostOf) == Sum(positions, CostOf)
        invariant unrealized + Sum(rest, UnrealizedOf) == Sum(positions, UnrealizedOf)
        invariant account.Figures() == old(account.Figures())
        decreases |rest|
      {
        var k :| k in rest;
        SumRemove(rest, k, CostOf);
        SumRemove(rest, k, UnrealizedOf);
        assert |rest - {k}| < |rest| by { assert (rest - {k}).Keys == rest.Keys - {k}; }
        cost := cost + rest[k].Cost();
        unrealized := unrealized + rest[k].unrealizedPnl;
        rest := rest - {k};
      }
      SumEmpty(CostOf);
      SumEmpty(UnrealizedOf);
      account.unrealizedPnl := unrealized;
      account.totalPnl := account.realizedPnl + unrealized;
      account.currentCapital := account.initialCapital + account.totalPnl;
      account.availableCapital := account.currentCapital - cost;
      account.marginUsed := cost;
    }

    method UpdatePositions(code: string, price: real)
      modifies this`positions
      ensures Contents() == old(Contents()).(positions := MarkedAll(old(positions), code, price))
    {
      if code in positions {
        var p := positions[code];
        positions := positions[code := p.(unrealizedPnl := Profit(p, price, p.quantity))];
      }
    }

    method ProcessTrade(t: Trade)
      requires Answerable(Contents(), t)
      modifies this, account
      ensures Contents() == Processed(old(Contents()), t)
    {
      if t.direction == HOLD {
        return;
      }
      if t.direction == SHORT && !HasPosition(t.symbol) {
        return;
      }
      if t.direction == FLAT || t.direction == SHORT {
        if t.symbol !in positions {
          return;
        } else if positions[t.symbol].quantity < t.quantity {
          return;
        } else if positions[t.symbol].quantity == t.quantity {
          ClosePosition(t);
        } else {
          ReducePosition(t);
        }
      } else {
        if t.symbol !in positions || positions[t.symbol].quantity == 0.0 {
          var pos := Opened(t);
          if t.symbol !in positions {
            positions := positions[t.symbol := pos];
          }
        } else {
          positions := positions[t.symbol := AddedTo(positions[t.symbol], t)];
        }
      }
      UpdateAccount();
    }
  }

  // Laws of the manager.

  /** The average lies between the cheapest and the dearest purchase. */
  ghost predicate AverageOf(avg: real, trades: seq<Trade>) {
    exists i, j :: 0 <= i < |trades| && 0 <= j < |trades| && trades[i].price <= avg <= trades[j].price
  }

  /** Entries are long, not negative, filed under their own symbol, and averaged from their purchases. */
  ghost predicate Healthy(l: Ledger) {
    forall s <- l.positions ::
      var p := l.positions[s];
      p.symbol == s && p.direction == LONG && p.quantity >= 0.0 && AverageOf(p.avgPrice, p.openTrades)
  }

  /** No entry is empty. */
  ghost predicate AllHeld(l: Ledger) {
    forall s <- l.positions :: l.positions[s].quantity > 0.0
  }

  lemma WeightedMean(a: real, q: real, b: real, r: real)
    requires q > 0.0 && r >= 0.0
    ensures a <= b ==> a <= Mean(a, q, b, r) <= b
    ensures b <= a ==> b <= Mean(a, q, b, r) <= a
  {
    var mean := Mean(a, q, b, r);
    assert mean * (q + r) == a * q + b * r;
    assert (mean - a) * (q + r) == (b - a) * r;
    assert (b - mean) * (q + r) == (b - a) * q;
    SignOf(mean - a, q + r, b - a, r);
    SignOf(b - mean, q + r, b - a, q);
  }

  lemma SignOf(x: real, q: real, y: real, r: real)
    requires q > 0.0 && r >= 0.0 && x * q == y * r
    ensures (y >= 0.0 ==> x >= 0.0) && (y <= 0.0 ==> x <= 0.0)
  {
    if y >= 0.0 { assert y * r >= 0.0; }
    if y <= 0.0 { assert y * r <= 0.0; }
    if x > 0.0 { assert x * q > 0.0; }
    if x < 0.0 { assert x * q < 0.0; }
  }

  lemma AddedAverage(p: Position, t: Trade)
    requires p.quantity > 0.0 && t.quantity >= 0.0 && AverageOf(p.avgPrice, p.openTrades)
    ensures AverageOf(AddedTo(p, t).avgPrice, AddedTo(p, t).openTrades)
  {
    var i, j :| 0 <= i < |p.openTrades| && 0 <= j < |p.openTrades|
                && p.openTrades[i].price <= p.avgPrice <= p.openTrades[j].price;
    hide Mean;
    WeightedMean(p.avgPrice, p.quantity, t.price, t.quantity);
    var n := AddedTo(p, t);
    var k := |p.openTrades|;
    assert n.openTrades[i] == p.openTrades[i] && n.openTrades[j] == p.openTrades[j] && n.openTrades[k] == t;
    if p.avgPrice <= t.price {
      assert n.openTrades[i].price <= n.avgPrice <= n.openTrades[k].price;
    } else {
      assert n.openTrades[k].price <= n.avgPrice <= n.openTrades[j].price;
    }
  }

  lemma HealthyAnswers(l: Ledger, t: Trade)
    requires Healthy(l) && t.quantity >= 0.0
    ensures Answerable(l, t)
  {
    hide AverageOf;
  }

  /** Trades keep the entries sound; positive trades also keep them nonempty. */
  lemma StepHealthy(l: Ledger, t: Trade)
    requires Healthy(l) && t.quantity >= 0.0
    ensures Answerable(l, t) && Healthy(Processed(l, t))
    ensures AllHeld(l) && t.quantity > 0.0 ==> AllHeld(Processed(l, t)) && !Lost(l, t)
  {
    hide Sum, AverageOf, Mean, Profit;
    if Accepts(l, t) && t.direction == LONG {
      if t.symbol in l.positions && l.positions[t.symbol].quantity > 0.0 {
        AddedAverage(l.positions[t.symbol], t);
      } else {
        FreshAverage(t);
      }
    }
  }

  lemma FreshAverage(t: Trade)
    ensures AverageOf(t.price, [t])
  {
    assert [t][0].price <= t.price <= [t][0].price;
  }

  /** The account agrees with the table: the margin is the cost of the open positions, the total is realized
      and booked unrealized profit, and the capital is what was paid in plus the total, less the margin. */
  ghost predicate Balanced(l: Ledger) {
    var b := l.balance;
    && b.marginUsed == Sum(l.positions, CostOf)
    && b.totalPnl == b.realizedPnl + b.unrealizedPnl
    && b.currentCapital == b.initialCapital + b.totalPnl
    && b.availableCapital == b.currentCapital - b.marginUsed
  }

  lemma StepBalanced(l: Ledger, t: Trade)
    requires Answerable(l, t) && Balanced(l)
    ensures Balanced(Processed(l, t)) && Processed(l, t).balance.initialCapital == l.balance.initialCapital
  {
    hide Sum;
  }

  /** Marking to the market changes no cost. */
  lemma MarkedBalanced(l: Ledger, code: string, price: real)
    requires Balanced(l)
    ensures Balanced(l.(positions := MarkedAll(l.positions, code, price)))
  {
    hide Sum, Profit;
    if code in l.positions {
      SumUpdate(l.positions, code, Marked(l.positions[code], price), CostOf);
    }
  }

  /** After every accepted trade the account's floating profit is that of the whole table. */
  lemma StepFloating(l: Ledger, t: Trade)
    requires Answerable(l, t) && Accepts(l, t)
    ensures var n := Processed(l, t); n.balance.unrealizedPnl == Sum(n.positions, UnrealizedOf)
  {
    hide Sum;
  }

  /** Marking a long entry makes its cost and its floating profit add up to what it is worth at the price, and
      changes nothing else. */
  lemma MarkedWorth(l: Ledger, code: string, price: real)
    ensures var n := MarkedAll(l.positions, code, price);
            && n.Keys == l.positions.Keys
            && (forall s <- n :: n[s].(unrealizedPnl := 0.0) == l.positions[s].(unrealizedPnl := 0.0))
            && (forall s <- n :: s != code ==> n[s] == l.positions[s])
            && (code in n && n[code].direction == LONG ==>
                  && n[code].unrealizedPnl + n[code].Cost() == Value(n[code].quantity, price)
                  && n[code].quantity == l.positions[code].quantity && n[code].Cost() == l.positions[code].Cost())
            && (code in n && n[code].direction != LONG ==>
                  n[code].Cost() - n[code].unrealizedPnl == Value(n[code].quantity, price))
  {
  }

  lemma ClosingValue(p: Position, price: real, q: real)
    ensures p.direction == LONG ==> Profit(p, price, q) == Value(q, price) - Value(q, p.avgPrice)
    ensures p.(quantity := p.quantity - q).Cost() == p.Cost() - Value(q, p.avgPrice)
    ensures Value(p.quantity, p.avgPrice) == p.Cost()
  {
  }

  /** Closing a long entry books what it brings in over its cost, to the realized profit and to the current capital;
      reducing it books the same for the part that is sold, and leaves the entry's average alone. */
  lemma SaleBooks(l: Ledger, t: Trade)
    requires t.symbol in l.positions && l.positions[t.symbol].direction == LONG
    ensures var p, n := l.positions[t.symbol], Closed(l, t);
            && n.positions == l.positions - {t.symbol}
            && n.balance.realizedPnl - l.balance.realizedPnl == Value(p.quantity, t.price) - p.Cost()
            && n.balance.currentCapital - l.balance.currentCapital == Value(p.quantity, t.price) - p.Cost()
    ensures var p, n := l.positions[t.symbol], Reduced(l, t);
            t.quantity < p.quantity ==>
              && n.positions.Keys == l.positions.Keys && n.positions[t.symbol] == p.(quantity := p.quantity - t.quantity)
              && (forall s <- n.positions :: s != t.symbol ==> n.positions[s] == l.positions[s])
              && n.balance.realizedPnl - l.balance.realizedPnl
                 == Value(t.quantity, t.price) - (p.Cost() - n.positions[t.symbol].Cost())
  {
    var p := l.positions[t.symbol];
    ClosingValue(p, t.price, p.quantity);
    ClosingValue(p, t.price, t.quantity);
    hide Value, Profit, Position.Cost;
  }

  lemma AddingCost(p: Position, t: Trade)
    requires p.quantity + t.quantity != 0.0
    ensures AddedTo(p, t).Cost() == p.Cost() + Value(t.quantity, t.price)
  {
  }

  /** What a trade brings in, if the manager accepts and books it: buys cost, sells and flat orders earn. */
  ghost function CashFlow(l: Ledger, t: Trade): real {
    if !Accepts(l, t) || Lost(l, t) then 0.0
    else if t.direction == LONG then -Value(t.quantity, t.price)
    else Value(t.quantity, t.price)
  }

  lemma BuyCost(l: Ledger, t: Trade)
    requires Healthy(l) && t.quantity >= 0.0 && !Lost(l, t) && t.direction == LONG
    ensures Answerable(l, t)
    ensures Sum(Bought(l.positions, t), CostOf) == Sum(l.positions, CostOf) + Value(t.quantity, t.price)
  {
    HealthyAnswers(l, t);
    hide Sum, Value, Profit, AddedTo, AverageOf, Position.Cost;
    if t.symbol in l.positions && l.positions[t.symbol].quantity == 0.0 {
      ValueSplit(0.0, 0.0, t.price);
    } else if t.symbol in l.positions {
      var p := l.positions[t.symbol];
      SumUpdate(l.positions, t.symbol, AddedTo(p, t), CostOf);
      AddingCost(p, t);
    } else {
      SumUpdate(l.positions, t.symbol, Opened(t), CostOf);
      ClosingValue(Opened(t), t.price, t.quantity);
    }
  }

  lemma SaleCash(l: Ledger, t: Trade)
    requires Healthy(l) && t.symbol in l.positions && t.quantity <= l.positions[t.symbol].quantity
    ensures var n := Reduced(l, t);
            n.balance.realizedPnl - Sum(n.positions, CostOf)
            == l.balance.realizedPnl - Sum(l.positions, CostOf) + Value(t.quantity, t.price)
  {
    hide Sum, Value, Profit, AddedTo, AverageOf, Position.Cost;
    var p := l.positions[t.symbol];
    ClosingValue(p, t.price, t.quantity);
    if t.quantity >= p.quantity {
      SumRemove(l.positions, t.symbol, CostOf);
    } else {
      SumUpdate(l.positions, t.symbol, p.(quantity := p.quantity - t.quantity), CostOf);
    }
  }

  /** Realized profit minus the cost of the open positions moves exactly with the executed cash. */
  lemma StepCash(l: Ledger, t: Trade)
    requires Healthy(l) && t.quantity >= 0.0
    ensures Answerable(l, t)
    ensures var n := Processed(l, t);
            n.balance.realizedPnl - Sum(n.positions, CostOf)
            == l.balance.realizedPnl - Sum(l.positions, CostOf) + CashFlow(l, t)
  {
    HealthyAnswers(l, t);
    hide Sum, Value, AverageOf, Reduced;
    if Accepts(l, t) {
      if Lost(l, t) {
        assert Bought(l.positions, t) == l.positions;
      } else if t.direction == LONG {
        BuyCost(l, t);
      } else {
        SaleCash(l, t);
      }
    }
  }
}
