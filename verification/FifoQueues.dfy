/** First in, first out: lots are closed in the order in which they were opened. */
module FifoQueues {
  import opened Common
  import opened Trades
  import opened RoundTrips
  import opened FifoLaws

  /** What a fill opens against the lots of the other side: the part that they cannot take. */
  ghost function Opening(t: Trade, others: seq<Lot>): seq<Lot> {
    var rest := t.quantity - Quantity(others);
    if t.quantity > 0.0 && rest > 0.0 then [Lot(rest, t.price, 0.0)] else []
  }

  /** All the lots that the trades of a symbol have opened on a side, in order. */
  ghost function Openings(trades: seq<Trade>, symbol: string, side: Direction): seq<Lot> {
    if trades == [] then []
    else
      var n := |trades| - 1;
      var s, t := Run(trades[..n]), trades[n];
      Openings(trades[..n], symbol, side) +
      if t.symbol == symbol && t.direction == side
      then Opening(t, Queue(if side == LONG then s.shorts else s.longs, symbol)) else []
  }

  /** The first k lots are gone, the next one may be partly closed, and the others are as they were. */
  predicate Trimmed(lots: seq<Lot>, made: seq<Lot>, k: nat) {
    && k + |lots| == |made|
    && (forall j :: 0 < j < |lots| ==> lots[j] == made[k + j])
    && (lots != [] ==> lots[0].price == made[k].price && 0.0 < lots[0].quantity <= made[k].quantity)
  }

  /** A fill closes lots from the front of the queue. */
  lemma {:induction false} SettleTrims(lots: seq<Lot>, need: real, price: real, side: Direction) returns (k: nat)
    requires Positive(lots)
    ensures Trimmed(Settle(lots, need, price, side).lots, lots, k)
  {
    hide Settle, Gain, Value, Close;
    if need <= 0.0 || lots == [] {
      SettleDone(lots, need, price, side);
      k := 0;
    } else {
      SettleUnfold(lots, need, price, side);
      assert lots[0] in lots;
      var m := RealMin(need, lots[0].quantity);
      if m >= lots[0].quantity - EPS {
        var i := SettleTrims(lots[1..], need - m, price, side);
        k := i + 1;
      } else {
        k := 0;
      }
    }
  }

  lemma TrimmedAgain(a: seq<Lot>, b: seq<Lot>, c: seq<Lot>, i: nat, j: nat)
    requires Trimmed(a, b, i) && Trimmed(b, c, j)
    ensures Trimmed(a, c, i + j)
  {
  }

  /** What a fill leaves to be opened. */
  lemma RestOpens(lots: seq<Lot>, t: Trade, side: Direction)
    requires Positive(lots)
    ensures var need := Settle(lots, t.quantity, t.price, side).need;
            need > 0.0 <==> t.quantity > 0.0 && t.quantity - Quantity(lots) > 0.0
    ensures var need := Settle(lots, t.quantity, t.price, side).need;
            need > 0.0 ==> need == t.quantity - Quantity(lots)
  {
    hide Settle;
    SettleConservesUnits(lots, t.quantity, t.price, side);
    SettleDrops(lots, t.quantity, t.price, side);
    if t.quantity <= 0.0 {
      SettleDone(lots, t.quantity, t.price, side);
    }
    var o := Settle(lots, t.quantity, t.price, side);
    if o.need <= 0.0 {
      QuantityNotNegative(o.lots);
    }
  }

  lemma {:induction false} QuantityNotNegative(lots: seq<Lot>)
    requires Positive(lots)
    ensures Quantity(lots) >= 0.0
  {
    if lots != [] {
      assert lots[0] in lots;
      QuantityNotNegative(lots[1..]);
    }
  }

  lemma SideOpens(lots: seq<Lot>, made: seq<Lot>, i: nat, others: seq<Lot>, t: Trade, side: Direction)
    requires Trimmed(lots, made, i) && Positive(others)
    ensures var need := Settle(others, t.quantity, t.price, side).need;
            Trimmed(if need > 0.0 then lots + [Lot(need, t.price, 0.0)] else lots, made + Opening(t, others), i)
  {
    hide Settle, Quantity, Positive;
    RestOpens(others, t, side);
    assert made + [] == made;
  }

  lemma SideCloses(lots: seq<Lot>, made: seq<Lot>, i: nat, t: Trade, side: Direction) returns (k: nat)
    requires Trimmed(lots, made, i) && Positive(lots)
    ensures Trimmed(Settle(lots, t.quantity, t.price, side).lots, made, k)
  {
    hide Settle, Positive, Trimmed;
    k := SettleTrims(lots, t.quantity, t.price, side);
    TrimmedAgain(Settle(lots, t.quantity, t.price, side).lots, lots, made, k, i);
    k := k + i;
  }

  lemma StepTrims(s: State, t: Trade, longsMade: seq<Lot>, shortsMade: seq<Lot>, i0: nat, j0: nat)
    returns (i: nat, j: nat)
    requires var longs, shorts := Queue(s.longs, t.symbol), Queue(s.shorts, t.symbol);
             Positive(longs) && Positive(shorts) && Trimmed(longs, longsMade, i0) && Trimmed(shorts, shortsMade, j0)
    ensures var n, longs, shorts := Step(s, t), Queue(s.longs, t.symbol), Queue(s.shorts, t.symbol);
            && Trimmed(Queue(n.longs, t.symbol), longsMade + (if t.direction == LONG then Opening(t, shorts) else []), i)
            && Trimmed(Queue(n.shorts, t.symbol), shortsMade + (if t.direction == SHORT then Opening(t, longs) else []), j)
  {
    i, j := i0, j0;
    var longs, shorts := Queue(s.longs, t.symbol), Queue(s.shorts, t.symbol);
    StepQueues(s, t, t.symbol);
    assert longsMade + [] == longsMade && shortsMade + [] == shortsMade;
    hide Settle, Step, Trimmed, Positive, Opening, Queue;
    if t.direction == LONG {
      SideOpens(longs, longsMade, i, shorts, t, SHORT);
      j := SideCloses(shorts, shortsMade, j, t, SHORT);
    } else if t.direction == SHORT {
      SideOpens(shorts, shortsMade, j, longs, t, LONG);
      i := SideCloses(longs, longsMade, i, t, LONG);
    }
  }

  /** The open lots of a side are the latest ones that were opened there, in that order; only the oldest of them may
      be partly closed. */
  lemma {:induction false} FirstInFirstOut(trades: seq<Trade>, symbol: string) returns (i: nat, j: nat)
    ensures Trimmed(Queue(Run(trades).longs, symbol), Openings(trades, symbol, LONG), i)
    ensures Trimmed(Queue(Run(trades).shorts, symbol), Openings(trades, symbol, SHORT), j)
  {
    if trades == [] {
      i, j := 0, 0;
    } else {
      var n := |trades| - 1;
      var s, t := Run(trades[..n]), trades[n];
      i, j := FirstInFirstOut(trades[..n], symbol);
      var bought, sold := Openings(trades[..n], symbol, LONG), Openings(trades[..n], symbol, SHORT);
      hide Settle, Step, Trimmed, Opening, Positive;
      if t.symbol == symbol {
        RunConsistent(trades[..n]);
        SymbolPositive(s, symbol);
        i, j := StepTrims(s, t, bought, sold, i, j);
      } else {
        StepQueues(s, t, symbol);
        assert bought + [] == bought && sold + [] == sold;
      }
    }
  }
}
