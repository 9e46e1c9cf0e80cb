/** Which reorderings and splittings of the trade list leave the round-trip statistics alone. */
module FifoOrder {
  import opened Trades
  import opened RoundTrips
  import opened FifoLaws

  // Trades of different symbols do not influence one another.

  lemma OpeningCommutes(q: Queues, x: Trade, ox: Outcome, y: Trade, oy: Outcome)
    requires x.symbol != y.symbol
    ensures OpenRest(OpenRest(q, x, ox.need), y, oy.need) == OpenRest(OpenRest(q, y, oy.need), x, ox.need)
    ensures OpenRest(q[x.symbol := ox.lots], y, oy.need) == OpenRest(q, y, oy.need)[x.symbol := ox.lots]
    ensures q[x.symbol := ox.lots][y.symbol := oy.lots] == q[y.symbol := oy.lots][x.symbol := ox.lots]
  {
  }

  lemma QueuesCommute(q: Queues, opening: Direction, x: Trade, ox: Outcome, y: Trade, oy: Outcome)
    requires x.symbol != y.symbol
    ensures BookQueue(BookQueue(q, opening, x, ox), opening, y, oy)
         == BookQueue(BookQueue(q, opening, y, oy), opening, x, ox)
  {
    OpeningCommutes(q, x, ox, y, oy);
    OpeningCommutes(q, y, oy, x, ox);
    hide OpenRest;
  }

  lemma BooksCommute(s: State, x: Trade, ox: Outcome, y: Trade, oy: Outcome)
    requires x.symbol != y.symbol
    ensures Book(Book(s, x, ox), y, oy) == Book(Book(s, y, oy), x, ox)
  {
    QueuesCommute(s.longs, LONG, x, ox, y, oy);
    QueuesCommute(s.shorts, SHORT, x, ox, y, oy);
    hide BookQueue;
  }

  lemma StepsCommute(s: State, x: Trade, y: Trade)
    requires x.symbol != y.symbol
    ensures Step(Step(s, x), y) == Step(Step(s, y), x)
  {
    hide Settle, Book;
    StepQueues(s, x, y.symbol);
    StepQueues(s, y, x.symbol);
    BooksCommute(s, x, Settled(s, x), y, Settled(s, y));
  }

  lemma {:induction false} OnlyAppend(a: seq<Trade>, b: seq<Trade>, symbol: string)
    ensures Only(a + b, symbol) == Only(a, symbol) + Only(b, symbol)
  {
    if b == [] {
      assert a + b == a;
    } else {
      var n := |b| - 1;
      assert (a + b)[..|a + b| - 1] == a + b[..n];
      OnlyAppend(a, b[..n], symbol);
    }
  }

  /** A trade may be moved behind later trades of other symbols. */
  lemma {:induction false} MoveLast(a: seq<Trade>, x: Trade, b: seq<Trade>)
    requires forall y <- b :: y.symbol != x.symbol
    ensures Run(a + [x] + b) == Step(Run(a + b), x)
  {
    if b == [] {
      assert a + [x] + b == a + [x] && (a + [x])[..|a|] == a && a + b == a;
    } else {
      var n := |b| - 1;
      var y := b[n];
      assert (a + [x] + b)[..|a + [x] + b| - 1] == a + [x] + b[..n];
      assert (a + b)[..|a + b| - 1] == a + b[..n];
      MoveLast(a, x, b[..n]);
      StepsCommute(Run(a + b[..n]), x, y);
    }
  }

  /** The last trade of a symbol, if there is one. */
  lemma {:induction false} LastOf(b: seq<Trade>, symbol: string) returns (p: nat)
    requires Only(b, symbol) != []
    ensures p < |b| && b[p].symbol == symbol
    ensures forall y <- b[p + 1..] :: y.symbol != symbol
    ensures Only(b, symbol) == Only(b[..p], symbol) + [b[p]]
    ensures Only(b[p + 1..], symbol) == []
  {
    var n := |b| - 1;
    if b[n].symbol == symbol {
      p := n;
    } else {
      p := LastOf(b[..n], symbol);
      assert b[..n][..p] == b[..p] && b[..n][p + 1..] == b[p + 1..n];
      assert b[p + 1..] == b[p + 1..n] + [b[n]];
      OnlyAppend(b[p + 1..n], [b[n]], symbol);
    }
  }

  ghost predicate SameProjections(a: seq<Trade>, b: seq<Trade>) {
    forall symbol :: Only(a, symbol) == Only(b, symbol)
  }

  lemma NoTrades(b: seq<Trade>)
    ensures SameProjections([], b) ==> b == []
  {
    if b != [] {
      var x := b[|b| - 1];
      assert Only([], x.symbol) != Only(b, x.symbol);
    }
  }

  lemma SnocInjective<T>(u: seq<T>, x: T, v: seq<T>, y: T)
    requires u + [x] == v + [y]
    ensures u == v && x == y
  {
    assert |u| == |v|;
    assert (u + [x])[..|u|] == u && (v + [y])[..|v|] == v;
    assert (u + [x])[|u|] == x && (v + [y])[|v|] == y;
  }

  /** Removing one trade of a symbol leaves the other symbols' projections alone. */
  lemma OnlyWithout(b: seq<Trade>, p: nat, z: string)
    requires p < |b|
    ensures Only(b, z) == Only(b[..p], z) + (if b[p].symbol == z then [b[p]] else []) + Only(b[p + 1..], z)
    ensures Only(b[..p] + b[p + 1..], z) == Only(b[..p], z) + Only(b[p + 1..], z)
  {
    assert b == (b[..p] + [b[p]]) + b[p + 1..];
    OnlyAppend(b[..p] + [b[p]], b[p + 1..], z);
    OnlyAppend(b[..p], [b[p]], z);
    OnlyAppend(b[..p], b[p + 1..], z);
    assert [b[p]][..0] == [];
  }

  lemma DropPair(a: seq<Trade>, b: seq<Trade>, p: nat)
    requires a != [] && SameProjections(a, b) && p < |b|
    requires b[p].symbol == a[|a| - 1].symbol
    requires Only(b[p + 1..], b[p].symbol) == []
    ensures b[p] == a[|a| - 1]
    ensures SameProjections(a[..|a| - 1], b[..p] + b[p + 1..])
  {
    var n := |a| - 1;
    var x := a[n];
    forall z ensures Only(a[..n], z) == Only(b[..p] + b[p + 1..], z) && b[p] == x {
      assert Only(a, z) == Only(b, z) && Only(a, x.symbol) == Only(b, x.symbol);
      OnlyWithout(b, p, z);
      OnlyWithout(b, p, x.symbol);
      var mine := Only(b[..p], x.symbol);
      assert mine + [b[p]] + [] == mine + [b[p]];
      SnocInjective(Only(a[..n], x.symbol), x, mine, b[p]);
      if z == x.symbol {
        assert Only(b[..p], z) + [] == Only(b[..p], z);
      } else {
        assert Only(b[..p], z) + [] == Only(b[..p], z);
        assert Only(a, z) == Only(a[..n], z) + [] == Only(a[..n], z);
      }
    }
    assert Only(a[..n], x.symbol) == Only(b[..p] + b[p + 1..], x.symbol);
  }

  /** Only each symbol's own trade order matters: any interleaving across symbols ends in the same
      books, so the statistics are the same. */
  lemma {:induction false} InterleavingIrrelevant(a: seq<Trade>, b: seq<Trade>)
    requires SameProjections(a, b)
    ensures Run(a) == Run(b) && |a| == |b|
    ensures Summary(Run(a).tally, |a|) == Summary(Run(b).tally, |b|)
  {
    hide Step;
    if a == [] {
      NoTrades(b);
    } else {
      var n := |a| - 1;
      var x := a[n];
      assert Only(a, x.symbol) == Only(b, x.symbol);
      var p := LastOf(b, x.symbol);
      DropPair(a, b, p);
      InterleavingIrrelevant(a[..n], b[..p] + b[p + 1..]);
      MoveLast(b[..p], x, b[p + 1..]);
      assert b == b[..p] + [x] + b[p + 1..];
    }
  }

  // Splitting a fill.

  lemma GainAdds(side: Direction, lot: Lot, price: real, a: real, b: real)
    ensures Gain(side, lot, price, a + b) == Gain(side, lot, price, a) + Gain(side, lot, price, b)
  {
    GainSplits(side, lot, price, a);
    GainSplits(side, lot, price, b);
    GainSplits(side, lot, price, a + b);
    ValueSplit(a, b, price);
    ValueSplit(a, b, lot.price);
  }

  ghost predicate SplitsInto(o: Outcome, first: Outcome, second: Outcome) {
    && first.need == 0.0
    && second.lots == o.lots && second.need == o.need
    && Add(first.tally, second.tally) == o.tally
  }

  lemma {:induction false} QuantityPositive(lots: seq<Lot>)
    requires Positive(lots)
    ensures Quantity(lots) >= 0.0 && (lots != [] ==> Quantity(lots) > 0.0)
  {
    if lots != [] {
      QuantityPositive(lots[1..]);
    }
  }

  /** Settling a + b units at one price is settling a and then b, as long as a fits the queue. */
  lemma {:induction false} SettleSplit(lots: seq<Lot>, a: real, b: real, price: real, side: Direction, unit: real)
    requires unit > EPS && Positive(lots) && InUnits(lots, unit)
    requires Multiple(a, unit) && Multiple(b, unit) && a > 0.0 && b > 0.0 && a <= Quantity(lots)
    ensures SplitsInto(Settle(lots, a + b, price, side), Settle(lots, a, price, side),
                       Settle(Settle(lots, a, price, side).lots, b, price, side))
  {
    hide Gain, Value, Close, Multiple, Settle;
    var open, rest := lots[0], lots[1..];
    var q := open.quantity;
    assert open in lots;
    if a < q {
      PartialThenMore(lots, a, b, price, side, unit);
    } else {
      ClosesFirst(lots, a, price, side);
      ClosesFirst(lots, a + b, price, side);
      if a > q {
        MultipleClosed(a, q, unit);
        SettleSplit(rest, a - q, b, price, side, unit);
        assert (a - q) + b == (a + b) - q;
      } else {
        SettleNothing(rest, a - q, price, side);
      }
    }
  }

  /** A fill of at least the first lot closes it and goes on with the rest. */
  lemma ClosesFirst(lots: seq<Lot>, need: real, price: real, side: Direction)
    requires lots != [] && need > 0.0 && need >= lots[0].quantity
    ensures var q := lots[0].quantity;
            var o, r := Settle(lots, need, price, side), Settle(lots[1..], need - q, price, side);
            o.lots == r.lots && o.need == r.need
            && o.tally == Add(Close(lots[0].realized + Gain(side, lots[0], price, q)), r.tally)
  {
  }

  lemma PartialThenMore(lots: seq<Lot>, a: real, b: real, price: real, side: Direction, unit: real)
    requires unit > EPS && lots != [] && Positive(lots) && InUnits(lots, unit)
    requires Multiple(a, unit) && Multiple(b, unit) && 0.0 < a < lots[0].quantity && b > 0.0
    ensures SplitsInto(Settle(lots, a + b, price, side), Settle(lots, a, price, side),
                       Settle(Settle(lots, a, price, side).lots, b, price, side))
  {
    hide Gain, Value, Close, Multiple, Settle;
    var open, rest := lots[0], lots[1..];
    var q := open.quantity;
    assert open in lots;
    MultipleClosed(a, b, unit);
    MultipleClosed(q, a, unit);
    if a >= q - EPS { MultiplesApart(a, q, unit); }
    SettleUnfold(lots, a, price, side);
    var first := Settle(lots, a, price, side);
    var left := Lot(q - a, open.price, open.realized + Gain(side, open, price, a));
    assert first.lots == [left] + rest && first.tally == ZERO;
    assert first.lots[1..] == rest;
    SameGain(side, open, left, price);
    if a + b >= q {
      PartialThenClose(lots, left, a, b, price, side);
    } else {
      if a + b >= q - EPS { MultiplesApart(a + b, q, unit); }
      SettleUnfold(lots, a + b, price, side);
      SettleUnfold(first.lots, b, price, side);
      GainAdds(side, open, price, a, b);
    }
  }

  lemma PartialThenClose(lots: seq<Lot>, left: Lot, a: real, b: real, price: real, side: Direction)
    requires lots != [] && 0.0 < a < lots[0].quantity && b > 0.0 && a + b >= lots[0].quantity
    requires left == Lot(lots[0].quantity - a, lots[0].price, lots[0].realized + Gain(side, lots[0], price, a))
    requires var first := Settle(lots, a, price, side); first.lots == [left] + lots[1..] && first.tally == ZERO && first.need == 0.0
    ensures SplitsInto(Settle(lots, a + b, price, side), Settle(lots, a, price, side),
                       Settle(Settle(lots, a, price, side).lots, b, price, side))
  {
    hide Gain, Value, Close, Settle;
    var q := lots[0].quantity;
    var rest := [left] + lots[1..];
    assert rest[1..] == lots[1..];
    SameGain(side, lots[0], left, price);
    ClosesFirst(lots, a + b, price, side);
    ClosesFirst(rest, b, price, side);
    GainAdds(side, lots[0], price, a, q - a);
    assert (a + b) - q == b - (q - a);
  }

  lemma SameGain(side: Direction, x: Lot, y: Lot, price: real)
    requires x.price == y.price
    ensures forall m :: Gain(side, x, price, m) == Gain(side, y, price, m)
  {
  }

  /** The open quantity that a fill closes first. */
  ghost function Opposite(s: State, t: Trade): real {
    Quantity(Queue(if t.direction == LONG then s.shorts else s.longs, t.symbol))
  }

  /** Splitting a fill in two changes nothing exactly when the first piece does not exceed the
      opposite open quantity; otherwise it opens two lots where the whole fill opens one. */
  lemma SplitFill(s: State, t: Trade, a: real, b: real, unit: real)
    requires unit > EPS && Consistent(s) && StateInUnits(s, unit)
    requires t.direction == LONG || t.direction == SHORT
    requires a > 0.0 && b > 0.0 && Multiple(a, unit) && Multiple(b, unit) && t.quantity == a + b
    ensures Step(Step(s, t.(quantity := a)), t.(quantity := b)) == Step(s, t) <==> a <= Opposite(s, t)
  {
    hide Settle, Multiple, Consistent, Quantity, Step;
    if a <= Opposite(s, t) {
      SplitCovered(s, t, a, b, unit);
    } else {
      SplitBeyond(s, t, a, b, unit);
    }
  }

  lemma SplitCovered(s: State, t: Trade, a: real, b: real, unit: real)
    requires unit > EPS && Consistent(s) && StateInUnits(s, unit)
    requires t.direction == LONG || t.direction == SHORT
    requires a > 0.0 && b > 0.0 && Multiple(a, unit) && Multiple(b, unit) && t.quantity == a + b
    requires a <= Opposite(s, t)
    ensures Step(Step(s, t.(quantity := a)), t.(quantity := b)) == Step(s, t)
  {
    hide Settle, Multiple, Consistent, Quantity;
    var side := if t.direction == LONG then SHORT else LONG;
    var lots := Queue(if t.direction == LONG then s.shorts else s.longs, t.symbol);
    SymbolPositive(s, t.symbol);
    SettleSplit(lots, a, b, t.price, side, unit);
    SplitExact(lots, a, b, t.price, side, unit);
    var s1, s2, whole := Step(s, t.(quantity := a)), Step(Step(s, t.(quantity := a)), t.(quantity := b)), Step(s, t);
    assert s2.longs == whole.longs;
    assert s2.shorts == whole.shorts;
  }

  lemma SplitBeyond(s: State, t: Trade, a: real, b: real, unit: real)
    requires unit > EPS && Consistent(s) && StateInUnits(s, unit)
    requires t.direction == LONG || t.direction == SHORT
    requires a > 0.0 && b > 0.0 && Multiple(a, unit) && Multiple(b, unit) && t.quantity == a + b
    requires a > Opposite(s, t)
    ensures Step(Step(s, t.(quantity := a)), t.(quantity := b)) != Step(s, t)
  {
    hide Settle, Multiple, Consistent, Quantity, Step;
    var side := if t.direction == LONG then SHORT else LONG;
    var lots := Queue(if t.direction == LONG then s.shorts else s.longs, t.symbol);
    var first := Settle(lots, a, t.price, side);
    SymbolPositive(s, t.symbol);
    SettleConservesUnits(lots, a, t.price, side);
    SettleConservesUnits(lots, a + b, t.price, side);
    SettleExact(lots, a, t.price, side, unit);
    QuantityPositive(first.lots);
    assert first.need > 0.0 && first.lots == [];
    MultipleClosed(a, b, unit);
    SettleExact(lots, a + b, t.price, side, unit);
    QuantityPositive(Settle(lots, a + b, t.price, side).lots);
    SettleNothing([], b, t.price, side);
    SplitOpensTwo(s, t, a, b);
  }

  lemma SplitExact(lots: seq<Lot>, a: real, b: real, price: real, side: Direction, unit: real)
    requires unit > EPS && Positive(lots) && InUnits(lots, unit) && Multiple(a, unit) && Multiple(b, unit)
    ensures var first := Settle(lots, a, price, side);
            var second := Settle(first.lots, b, price, side);
            var whole := Settle(lots, a + b, price, side);
            first.residue == 0.0 && first.residueCost == 0.0 && second.residue == 0.0 && second.residueCost == 0.0
            && whole.residue == 0.0 && whole.residueCost == 0.0
  {
    hide Settle, Multiple;
    MultipleClosed(a, b, unit);
    SettleConservesUnits(lots, a, price, side);
    SettleExact(lots, a, price, side, unit);
    SettleExact(Settle(lots, a, price, side).lots, b, price, side, unit);
    SettleExact(lots, a + b, price, side, unit);
  }

  lemma SplitOpensTwo(s: State, t: Trade, a: real, b: real)
    requires (t.direction == LONG || t.direction == SHORT) && a > 0.0 && b > 0.0 && t.quantity == a + b
    requires var side := if t.direction == LONG then SHORT else LONG;
             var lots := Queue(if t.direction == LONG then s.shorts else s.longs, t.symbol);
             && Settle(lots, a, t.price, side).need > 0.0 && Settle(lots, a, t.price, side).lots == []
    ensures Step(Step(s, t.(quantity := a)), t.(quantity := b)) != Step(s, t)
  {
    hide Settle;
    var s1 := Step(s, t.(quantity := a));
    StepQueues(s, t.(quantity := a), t.symbol);
    StepQueues(s1, t.(quantity := b), t.symbol);
    StepQueues(s, t, t.symbol);
    SettleNothing([], b, t.price, SHORT);
    SettleNothing([], b, t.price, LONG);
    var s2, whole := Step(s1, t.(quantity := b)), Step(s, t);
    if t.direction == LONG {
      assert |Queue(s2.longs, t.symbol)| == |Queue(s.longs, t.symbol)| + 2;
      assert |Queue(whole.longs, t.symbol)| <= |Queue(s.longs, t.symbol)| + 1;
    } else {
      assert |Queue(s2.shorts, t.symbol)| == |Queue(s.shorts, t.symbol)| + 2;
      assert |Queue(whole.shorts, t.symbol)| <= |Queue(s.shorts, t.symbol)| + 1;
    }
  }
}
