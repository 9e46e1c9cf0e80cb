/** The two ledgers, fed the same trades, tell the same story. */
module Agreement {
  import opened Trades
  import opened RoundTrips
  import opened FifoLaws
  import opened FifoOrder
  import opened Positions

  ghost predicate NoNegativeFills(trades: seq<Trade>) {
    forall t <- trades :: t.quantity >= 0.0
  }

  ghost predicate PositiveFills(trades: seq<Trade>) {
    forall t <- trades :: t.quantity > 0.0
  }

  /** The position manager over a whole run. */
  ghost function Managed(l: Ledger, trades: seq<Trade>): (n: Ledger)
    requires Healthy(l) && NoNegativeFills(trades)
    ensures Healthy(n)
  {
    if trades == [] then l
    else
      var m := Managed(l, trades[..|trades| - 1]);
      StepHealthy(m, trades[|trades| - 1]);
      Processed(m, trades[|trades| - 1])
  }

  ghost function Cash(l: Ledger, trades: seq<Trade>): real
    requires Healthy(l) && NoNegativeFills(trades)
  {
    if trades == [] then 0.0
    else
      var n := |trades| - 1;
      Cash(l, trades[..n]) + CashFlow(Managed(l, trades[..n]), trades[n])
  }

  /** Over every run: realized profit minus open cost is executed sales minus executed purchases. */
  lemma {:induction false} CashConserved(l: Ledger, trades: seq<Trade>)
    requires Healthy(l) && NoNegativeFills(trades)
    ensures var n := Managed(l, trades);
            n.balance.realizedPnl - Sum(n.positions, CostOf)
            == l.balance.realizedPnl - Sum(l.positions, CostOf) + Cash(l, trades)
  {
    if trades != [] {
      var n := |trades| - 1;
      CashConserved(l, trades[..n]);
      hide Healthy, Sum, CashFlow, Processed;
      var m := Managed(l, trades[..n]);
      StepHealthy(m, trades[n]);
      StepCash(m, trades[n]);
    }
  }

  /** Every trade is a buy or a sale, and the manager accepts it when its turn comes. */
  ghost predicate AllAccepted(l: Ledger, trades: seq<Trade>)
    requires Healthy(l) && NoNegativeFills(trades)
  {
    trades == [] ||
    var n := |trades| - 1;
    && AllAccepted(l, trades[..n])
    && (trades[n].direction == LONG || trades[n].direction == SHORT)
    && Accepts(Managed(l, trades[..n]), trades[n])
  }

  /** No purchase meets an empty entry. */
  ghost predicate NoneLost(l: Ledger, trades: seq<Trade>)
    requires Healthy(l) && NoNegativeFills(trades)
  {
    trades == [] ||
    var n := |trades| - 1;
    NoneLost(l, trades[..n]) && !Lost(Managed(l, trades[..n]), trades[n])
  }

  /** What the purchases that met an empty entry were worth. */
  ghost function LostValue(l: Ledger, trades: seq<Trade>): real
    requires Healthy(l) && NoNegativeFills(trades)
  {
    if trades == [] then 0.0
    else
      var n := |trades| - 1;
      LostValue(l, trades[..n]) +
      if Lost(Managed(l, trades[..n]), trades[n]) then Value(trades[n].quantity, trades[n].price) else 0.0
  }

  /** A manager that has not traded yet. */
  ghost predicate Untouched(l: Ledger) {
    l.positions == map[] && l.balance.realizedPnl == 0.0
  }

  /** Over every run from a fresh account: the account agrees with the table, and what is available is what
      was paid in, plus the executed cash, plus the booked unrealized profit. */
  lemma {:induction false} AccountBalances(l: Ledger, trades: seq<Trade>)
    requires Healthy(l) && NoNegativeFills(trades) && Balanced(l) && Untouched(l)
    ensures var n := Managed(l, trades);
            && Balanced(n) && n.balance.initialCapital == l.balance.initialCapital
            && n.balance.availableCapital == l.balance.initialCapital + Cash(l, trades) + n.balance.unrealizedPnl
  {
    CashConserved(l, trades);
    SumEmpty(CostOf);
    if trades != [] {
      var n := |trades| - 1;
      AccountBalances(l, trades[..n]);
      hide Sum, CashFlow, Processed, Healthy;
      var m := Managed(l, trades[..n]);
      StepHealthy(m, trades[n]);
      StepBalanced(m, trades[n]);
    }
  }

  ghost function HeldQuantity(l: Ledger, symbol: string): real {
    if symbol in l.positions then l.positions[symbol].quantity else 0.0
  }

  /** Both ledgers hold the same long quantity of every symbol, and nothing is short. */
  ghost predicate SameHoldings(s: State, l: Ledger) {
    forall symbol :: SameHolding(s, l, symbol)
  }

  ghost predicate SameHolding(s: State, l: Ledger, symbol: string) {
    Queue(s.shorts, symbol) == [] && Quantity(Queue(s.longs, symbol)) == HeldQuantity(l, symbol)
  }

  /** A sale that the held quantity covers is filled; what it leaves is exact when it ends cleanly. */
  lemma SaleSettles(lots: seq<Lot>, t: Trade)
    requires Positive(lots) && 0.0 <= t.quantity <= Quantity(lots)
    ensures var o := Settle(lots, t.quantity, t.price, LONG);
            && o.need == 0.0 && Positive(o.lots) && Quantity(o.lots) == Quantity(lots) - t.quantity - o.residue
            && (o.residue == 0.0 <==> EndsCleanly(lots, t.quantity))
            && (EndsCleanly(lots, t.quantity) ==> o.residueCost == 0.0)
  {
    hide Settle, EndsCleanly;
    SettleDrops(lots, t.quantity, t.price, LONG);
    SettleConservesUnits(lots, t.quantity, t.price, LONG);
  }

  /** An accepted trade keeps the holdings equal exactly when it is no purchase into an empty entry and no sale
      that stops just short of the end of a lot. */
  lemma StepHoldings(s: State, l: Ledger, t: Trade)
    requires Consistent(s) && Healthy(l) && SameHoldings(s, l)
    requires t.quantity >= 0.0 && Accepts(l, t) && (t.direction == LONG || t.direction == SHORT)
    ensures Answerable(l, t)
    ensures SameHoldings(Step(s, t), Processed(l, t)) <==> !Lost(l, t) && EndsCleanly(Against(s, t), t.quantity)
  {
    HealthyAnswers(l, t);
    hide Step, Processed, Consistent, Lost, EndsCleanly, Against;
    StepHolding(s, l, t);
    forall symbol | symbol != t.symbol ensures SameHolding(Step(s, t), Processed(l, t), symbol) {
      OtherHolding(s, l, t, symbol);
    }
    if !Lost(l, t) && EndsCleanly(Against(s, t), t.quantity) {
      forall symbol ensures SameHolding(Step(s, t), Processed(l, t), symbol) {}
    } else {
      assert !SameHolding(Step(s, t), Processed(l, t), t.symbol);
    }
  }

  lemma OtherHolding(s: State, l: Ledger, t: Trade, symbol: string)
    requires Answerable(l, t) && SameHoldings(s, l) && symbol != t.symbol
    ensures SameHolding(Step(s, t), Processed(l, t), symbol)
  {
    hide Settle, Step, Sum, AverageOf, Mean, Profit;
    assert SameHolding(s, l, symbol);
    StepQueues(s, t, symbol);
  }

  lemma StepHolding(s: State, l: Ledger, t: Trade)
    requires Consistent(s) && Healthy(l) && SameHoldings(s, l) && Answerable(l, t)
    requires t.quantity >= 0.0 && Accepts(l, t) && (t.direction == LONG || t.direction == SHORT)
    ensures SameHolding(Step(s, t), Processed(l, t), t.symbol)
       <==> !Lost(l, t) && EndsCleanly(Against(s, t), t.quantity)
  {
    hide Settle, Consistent, Sum, AverageOf, Mean, Profit, Step, EndsCleanly;
    SymbolPositive(s, t.symbol);
    var lq := Queue(s.longs, t.symbol);
    assert SameHolding(s, l, t.symbol);
    StepQueues(s, t, t.symbol);
    if t.direction == SHORT {
      SaleSettles(lq, t);
    } else {
      SettleNothing([], t.quantity, t.price, SHORT);
      NothingAgainst(t.quantity);
      Append(lq, Lot(t.quantity, t.price, 0.0));
    }
  }

  lemma {:induction false} HoldingsAgree(l: Ledger, trades: seq<Trade>)
    requires Untouched(l) && Healthy(l) && NoNegativeFills(trades) && AllAccepted(l, trades)
    requires NoneLost(l, trades) && CleanRun(trades)
    ensures SameHoldings(Run(trades), Managed(l, trades))
  {
    if trades == [] {
      assert forall symbol :: SameHolding(START, l, symbol);
    } else {
      var n := |trades| - 1;
      assert trades[n] in trades;
      HoldingsAgree(l, trades[..n]);
      RunConsistent(trades[..n]);
      hide Step, Processed, SameHoldings, Lost, EndsCleanly, Against, Consistent;
      StepHoldings(Run(trades[..n]), Managed(l, trades[..n]), trades[n]);
    }
  }

  /** The holdings agree now, and did after every earlier trade. */
  ghost predicate AgreeThroughout(l: Ledger, trades: seq<Trade>)
    requires Healthy(l) && NoNegativeFills(trades)
  {
    SameHoldings(Run(trades), Managed(l, trades)) &&
    (trades == [] || AgreeThroughout(l, trades[..|trades| - 1]))
  }

  /** The holdings agree throughout a run exactly when no purchase of it is lost and every fill of it ends
      cleanly. */
  lemma {:induction false} HoldingsAgreeExactly(l: Ledger, trades: seq<Trade>)
    requires Untouched(l) && Healthy(l) && NoNegativeFills(trades) && AllAccepted(l, trades)
    ensures AgreeThroughout(l, trades) <==> NoneLost(l, trades) && CleanRun(trades)
  {
    hide SameHoldings, Run, Managed, Lost, EndsCleanly, Against, Healthy;
    if trades == [] {
      HoldingsAgree(l, []);
      assert [] == trades;
    } else {
      HoldingsAgreeExactly(l, trades[..|trades| - 1]);
      LastHoldings(l, trades);
    }
  }

  lemma LastHoldings(l: Ledger, trades: seq<Trade>)
    requires Untouched(l) && Healthy(l) && NoNegativeFills(trades) && AllAccepted(l, trades) && trades != []
    ensures var before := trades[..|trades| - 1];
            SameHoldings(Run(before), Managed(l, before)) ==>
              (SameHoldings(Run(trades), Managed(l, trades)) && NoneLost(l, before) && CleanRun(before)
               <==> NoneLost(l, trades) && CleanRun(trades))
  {
    var k := |trades| - 1;
    var before := trades[..k];
    assert trades[k] in trades;
    RunConsistent(before);
    hide Step, Processed, SameHoldings, Lost, EndsCleanly, Against, Consistent, Healthy;
    if SameHoldings(Run(before), Managed(l, before)) {
      StepHoldings(Run(before), Managed(l, before), trades[k]);
    }
  }

  lemma {:induction false} CashIsProceeds(l: Ledger, trades: seq<Trade>)
    requires Healthy(l) && NoNegativeFills(trades) && AllAccepted(l, trades)
    ensures Cash(l, trades) == Proceeds(trades) + LostValue(l, trades)
  {
    if trades != [] {
      var n := |trades| - 1;
      assert trades[n] in trades;
      CashIsProceeds(l, trades[..n]);
      CashOfFill(Managed(l, trades[..n]), trades[n]);
      hide Accepts, Managed, Value, CashFlow, Lost;
    }
  }

  lemma CashOfFill(l: Ledger, t: Trade)
    requires Accepts(l, t) && (t.direction == LONG || t.direction == SHORT) && t.quantity >= 0.0
    ensures CashFlow(l, t) == (if t.direction == LONG then -Value(Filled(t), t.price) else Value(Filled(t), t.price))
                              + (if Lost(l, t) then Value(t.quantity, t.price) else 0.0)
  {
    hide Value;
  }

  /** What separates the two ledgers over any accepted run: FIFO realized profit (closed and partial) minus open
      cost plus open short proceeds differs from average-cost realized profit minus open cost by the value of the
      lost purchases and the cost that the EPS test dropped, and by nothing else. */
  lemma LedgerGap(l: Ledger, trades: seq<Trade>)
    requires Untouched(l) && Healthy(l) && NoNegativeFills(trades) && AllAccepted(l, trades)
    ensures var s, n := Run(trades), Managed(l, trades);
            Net(s.tally) + Sum(s.longs, LongStake) + Sum(s.shorts, ShortStake)
            == n.balance.realizedPnl - Sum(n.positions, CostOf) - LostValue(l, trades) + s.residueCost
  {
    ValueConserved(trades);
    CashConserved(l, trades);
    CashIsProceeds(l, trades);
    SumEmpty(CostOf);
  }

  lemma {:induction false} NothingLost(l: Ledger, trades: seq<Trade>)
    requires Healthy(l) && NoNegativeFills(trades) && NoneLost(l, trades)
    ensures LostValue(l, trades) == 0.0
  {
    if trades != [] {
      hide Managed, Lost;
      NothingLost(l, trades[..|trades| - 1]);
    }
  }

  /** FIFO realized profit minus FIFO open cost equals average-cost realized profit minus open cost over every
      accepted run without a lost purchase or a dropped rest; so when everything is sold the realized profits
      agree. */
  lemma LedgersAgree(l: Ledger, trades: seq<Trade>)
    requires Untouched(l) && Healthy(l) && NoNegativeFills(trades) && AllAccepted(l, trades)
    requires NoneLost(l, trades) && CleanRun(trades)
    ensures var s, n := Run(trades), Managed(l, trades);
            && Net(s.tally) + Sum(s.longs, LongStake) == n.balance.realizedPnl - Sum(n.positions, CostOf)
            && (n.positions == map[] ==> Net(s.tally) == n.balance.realizedPnl)
  {
    LedgerGap(l, trades);
    HoldingsAgree(l, trades);
    NothingLost(l, trades);
    RunDrops(trades);
    RunConsistent(trades);
    hide Run, Managed, Sum, Consistent, Partial, Cost, Quantity, Healthy, AllAccepted, NoneLost, CleanRun, LostValue;
    var s, n := Run(trades), Managed(l, trades);
    SumEmpty(CostOf);
    forall k <- s.shorts ensures ShortStake(s.shorts[k]) == 0.0 {
      assert SameHolding(s, n, k);
      assert s.shorts[k] == [];
      EmptyStake();
    }
    SumOfZeros(s.shorts, ShortStake);
    if n.positions == map[] {
      forall k <- s.longs ensures LongStake(s.longs[k]) == 0.0 {
        assert SameHolding(s, n, k);
        SymbolPositive(s, k);
        QuantityPositive(s.longs[k]);
        EmptyStake();
      }
      SumOfZeros(s.longs, LongStake);
    }
  }

  lemma EmptyStake()
    ensures LongStake([]) == 0.0 && ShortStake([]) == 0.0
  {
  }

  /** Positive trades never leave an empty entry behind. */
  lemma {:induction false} PositiveNoneLost(l: Ledger, trades: seq<Trade>)
    requires Healthy(l) && AllHeld(l) && PositiveFills(trades)
    ensures NoNegativeFills(trades) && NoneLost(l, trades) && AllHeld(Managed(l, trades))
  {
    assert NoNegativeFills(trades);
    if trades != [] {
      var n := |trades| - 1;
      assert trades[n] in trades;
      PositiveNoneLost(l, trades[..n]);
      hide Healthy, AllHeld, Processed, Lost;
      StepHealthy(Managed(l, trades[..n]), trades[n]);
    }
  }

  /** So the ledgers agree for all accepted trades of positive whole units above EPS, such as shares. */
  lemma WholeSharesAgree(l: Ledger, trades: seq<Trade>, unit: real)
    requires unit > 0.000000000001 && TradesInUnits(trades, unit) && PositiveFills(trades)
    requires Untouched(l) && NoNegativeFills(trades) && Healthy(l) && AllAccepted(l, trades)
    ensures SameHoldings(Run(trades), Managed(l, trades))
    ensures var s, n := Run(trades), Managed(l, trades);
            && Net(s.tally) + Sum(s.longs, LongStake) == n.balance.realizedPnl - Sum(n.positions, CostOf)
            && (n.positions == map[] ==> Net(s.tally) == n.balance.realizedPnl)
  {
    PositiveNoneLost(l, trades);
    UnitsRunClean(trades, unit);
    HoldingsAgree(l, trades);
    LedgersAgree(l, trades);
  }

  /** The smallest run with a lost purchase: after a purchase of zero units the manager keeps an empty entry
      and loses the later purchase, while the FIFO books record it. */
  lemma ZeroPurchaseBlocks(l: Ledger, zero: Trade, buy: Trade)
    requires l.positions == map[] && zero.symbol == buy.symbol && zero.direction == buy.direction == LONG
    requires zero.quantity == 0.0 && buy.quantity > 0.0
    ensures Answerable(l, zero) && Lost(Processed(l, zero), buy) && Answerable(Processed(l, zero), buy)
    ensures HeldQuantity(Processed(Processed(l, zero), buy), buy.symbol) == 0.0
    ensures Queue(Run([zero, buy]).longs, buy.symbol) == [Lot(buy.quantity, buy.price, 0.0)]
  {
    assert [zero, buy][..1] == [zero] && [zero][..0] == [];
    assert Run([zero]) == Step(START, zero);
    assert Run([zero, buy]) == Step(Run([zero]), buy);
    hide Settle, Step, Sum;
    StepQueues(START, zero, buy.symbol);
    StepQueues(Run([zero]), buy, buy.symbol);
    SettleNothing([], zero.quantity, zero.price, SHORT);
    SettleNothing([], buy.quantity, buy.price, SHORT);
  }
}
