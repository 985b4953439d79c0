/** What a paper book's record means (core/idea_lab.py): its fills from the bars alone, its fees and counts from its
    trades, its returns from its equity, its stress from its record. */
module IdeaTold {
  import opened Prelude
  import opened IdeaMarket
  import opened IdeaBooks
  import T = TargetBook
  import P = TargetPlan

  // ---------------------------------------------------------------- one order

  /** What fills of an order. Its limit stands off the close on the passive side; it fills exactly when the next bar
      trades through the limit by the margin and there is something to sell, or to pay with; at the limit, for the
      whole notional, or what is held, or what the cash pays for with the fee, whichever is least. */
  lemma FillExact(r: Rules, b: Book, o: T.Order, bars: Bars, i: nat)
    requires r.Valid() && bars.Valid() && i + 1 < bars.length && o.asset < bars.Assets()
    ensures var t, close, held := FillOf(r, b, o, bars, i), bars.close[o.asset][i], Held(b.units, o.asset);
            var limit := if o.sell then close + close * r.offset else close - close * r.offset;
            && limit > 0.0
            && (t.Some? <==>
                  && o.notional > 0.0
                  && if o.sell then bars.high[o.asset][i + 1] > limit + limit * r.penetration && held > 0.0
                     else bars.low[o.asset][i + 1] < limit - limit * r.penetration && b.cash > 0.0)
            && (t.Some? ==>
                  var value := t.value.qty * limit;
                  && t.value.asset == o.asset && t.value.buy == !o.sell && t.value.price == limit && t.value.qty > 0.0
                  && value <= o.notional
                  && if o.sell then t.value.qty <= held && (t.value.qty == held || value == o.notional)
                     else value + value * r.k.fee <= b.cash &&
                          (value == o.notional || value + value * r.k.fee == b.cash))
  {
    hide Limit, Quantity;
    var close := bars.close[o.asset][i];
    LimitIs(close, r.offset, o.sell);
    var limit := Limit(close, r.offset, o.sell);
    assert limit * (1.0 + r.penetration) == limit + limit * r.penetration;
    assert limit * (1.0 - r.penetration) == limit - limit * r.penetration;
    QuantityIs(b, o, limit, r.k.fee);
  }

  lemma LimitIs(px: real, off: real, sell: bool)
    requires px > 0.0 && 0.0 <= off < 1.0
    ensures Limit(px, off, sell) == if sell then px + px * off else px - px * off
  {
    assert px * (1.0 + off) == px + px * off && px * (1.0 - off) == px - px * off;
  }

  lemma QuantityIs(b: Book, o: T.Order, limit: real, fee: real)
    requires limit > 0.0 && fee >= 0.0
    ensures var qty, held := Quantity(b, o, limit, fee), Held(b.units, o.asset);
            var value := qty * limit;
            && (qty > 0.0 <==> o.notional > 0.0 && if o.sell then held > 0.0 else b.cash > 0.0)
            && value <= o.notional
            && if o.sell then qty <= held && (qty == held || value == o.notional)
               else value + value * fee <= b.cash && (value == o.notional || value + value * fee == b.cash)
  {
    hide Affordable, Held;
    var whole := o.notional / limit;
    assert whole * limit == o.notional;
    SignOf(whole, limit);
    if o.sell {
      var held := Held(b.units, o.asset);
      if held < whole { TimesMonotone(limit, held, whole); }
    } else {
      AffordableIs(b.cash, o.notional, limit, fee);
    }
  }

  lemma SignOf(a: real, b: real)
    requires b > 0.0
    ensures (a > 0.0 <==> a * b > 0.0) && (a < 0.0 <==> a * b < 0.0)
  {
    if a > 0.0 { PositiveTimes(a, b); }
    if a < 0.0 { NegativeTimes(a, b); }
  }

  lemma AffordableIs(cash: real, notional: real, limit: real, fee: real)
    requires limit > 0.0 && fee >= 0.0
    ensures var qty := Affordable(cash, notional, limit, fee);
            var value := qty * limit;
            && (qty > 0.0 <==> notional > 0.0 && cash > 0.0) && value <= notional
            && value + value * fee <= cash && (value == notional || value + value * fee == cash)
  {
    var qty, whole, price := Affordable(cash, notional, limit, fee), notional / limit, limit * (1.0 + fee);
    Positive(limit, 1.0 + fee);
    assert whole * limit == notional;
    assert whole * limit * (1.0 + fee) == notional + notional * fee;
    SignOf(whole, limit);
    SignOf(notional, 1.0 + fee);
    assert notional * (1.0 + fee) == notional + notional * fee;
    if notional + notional * fee > cash {
      var value := qty * limit;
      assert qty * price == cash;
      assert qty * price == value * (1.0 + fee) == value + value * fee;
      SignOf(qty, price);
      assert (notional - value) * (1.0 + fee) == notional + notional * fee - cash;
      SignOf(notional - value, 1.0 + fee);
    }
  }

  // ---------------------------------------------------------------- the record of a run

  /** The value that changed hands. */
  function Turnover(trades: seq<Trade>): real
  {
    if |trades| == 0 then 0.0
    else Turnover(trades[..|trades| - 1]) + trades[|trades| - 1].qty * trades[|trades| - 1].price
  }

  lemma {:induction false} TurnoverAppend(s: seq<Trade>, t: seq<Trade>)
    ensures Turnover(s + t) == Turnover(s) + Turnover(t)
  {
    if |t| == 0 {
      assert s + t == s;
    } else {
      TurnoverAppend(s, t[..|t| - 1]);
      assert (s + t)[..|s + t| - 1] == s + t[..|t| - 1];
    }
  }

  /** A markout says, in basis points of the price paid or got, how far the close moved the trade's way. */
  predicate Judges(markout: real, t: Trade, close: real)
  {
    markout * t.price == 10000.0 * if t.buy then close - t.price else t.price - close
  }

  /** The later marks of a book judge these trades, each at the close of its asset. */
  predicate AllJudged(marks: seq<real>, trades: seq<Trade>, bars: Bars, j: nat)
    requires bars.Valid() && j < bars.length
  {
    |marks| == |trades| &&
    forall k :: 0 <= k < |trades| ==>
      trades[k].asset < bars.Assets() && Judges(marks[k], trades[k], bars.close[trades[k].asset][j])
  }

  lemma MarkoutJudges(t: Trade, close: real)
    requires t.price > 0.0
    ensures Judges(Markout(t, close), t, close)
  {
    var ratio := close / t.price;
    assert ratio * t.price == close;
    var m := Markout(t, close);
    if t.buy {
      assert m == (ratio - 1.0) * 10000.0;
      assert m * t.price == 10000.0 * (ratio * t.price - t.price);
    } else {
      assert m == (1.0 - ratio) * 10000.0;
      assert m * t.price == 10000.0 * (t.price - ratio * t.price);
    }
  }

  lemma {:induction false} PostingFees(b: Book, trades: seq<Trade>, fee: real)
    ensures PostedAll(b, trades, fee).fees == b.fees + Times(fee, Turnover(trades))
  {
    hide Turnover, Times, FeeOn, Paid, Moved, Held;
    if |trades| == 0 {
      NoTurnover(fee);
    } else {
      var init, t := trades[..|trades| - 1], trades[|trades| - 1];
      PostingFees(b, init, fee);
      TurnoverLast(init, t, fee);
      assert init + [t] == trades;
    }
  }

  lemma ExecutedTold(r: Rules, b: Book, o: T.Order, bars: Bars, i: nat)
    requires r.Valid() && bars.Valid() && i + 1 < bars.length && o.asset < bars.Assets()
    ensures var c, t := Executed(r, b, o, bars, i), FillOf(r, b, o, bars, i);
            && c.attempts == b.attempts + 1
            && c.peak == b.peak && c.bench == b.bench && c.benchCash == b.benchCash && c.pressured == b.pressured
            && if t.None? then c == b.(attempts := b.attempts + 1)
               else
                 && c.fills == b.fills + 1 && c.fees == b.fees + FeeOn(t.value, r.k.fee)
                 && c.traded == b.traded + t.value.qty * t.value.price
                 && c.markouts == b.markouts + [Markout(t.value, bars.close[o.asset][i + 1])]
  {
    hide FillOf, Markout, FeeOn, Held;
  }

  /** The orders of a step, in the book's record: each is an attempt, each that fills is a fill with its fee, its value
      and its markout. */
  lemma {:induction false} ExecutionsTold(r: Rules, b: Book, orders: seq<T.Order>, bars: Bars, i: nat)
    requires r.Valid() && bars.Valid() && i + 1 < bars.length && Inside(orders, bars.Assets())
    ensures var c, trades := ExecutedAll(r, b, orders, bars, i), Fills(r, b, orders, bars, i);
            && c.attempts == b.attempts + |orders| && c.fills == b.fills + |trades|
            && c.fees == b.fees + Times(r.k.fee, Turnover(trades)) && c.traded == b.traded + Turnover(trades)
            && |c.markouts| >= |b.markouts| && c.markouts[..|b.markouts|] == b.markouts
            && AllJudged(c.markouts[|b.markouts|..], trades, bars, i + 1)
            && c.peak == b.peak && c.bench == b.bench && c.benchCash == b.benchCash && c.pressured == b.pressured
  {
    hide FillOf, Markout, Judges, Turnover, Executed, Times;
    if |orders| == 0 {
      NoTurnover(r.k.fee);
    } else {
      var init, o := orders[..|orders| - 1], orders[|orders| - 1];
      ExecutionsTold(r, b, init, bars, i);
      var before, trades := ExecutedAll(r, b, init, bars, i), Fills(r, b, init, bars, i);
      var t := FillOf(r, before, o, bars, i);
      ExecutedTold(r, before, o, bars, i);
      if t.Some? {
        TurnoverLast(trades, t.value, r.k.fee);
        MarkoutJudges(t.value, bars.close[o.asset][i + 1]);
        assert (before.markouts + [Markout(t.value, bars.close[o.asset][i + 1])])[|b.markouts|..]
            == before.markouts[|b.markouts|..] + [Markout(t.value, bars.close[o.asset][i + 1])];
      } else {
        assert Fills(r, b, orders, bars, i) == trades;
      }
    }
  }

  lemma NoTurnover(fee: real)
    ensures Turnover([]) == 0.0 && Times(fee, 0.0) == 0.0
  {
  }

  lemma TurnoverLast(trades: seq<Trade>, t: Trade, fee: real)
    ensures Turnover(trades + [t]) == Turnover(trades) + t.qty * t.price
    ensures Times(fee, Turnover(trades + [t])) == Times(fee, Turnover(trades)) + FeeOn(t, fee)
  {
    assert (trades + [t])[..|trades|] == trades;
    var value := t.qty * t.price;
    assert fee * (Turnover(trades) + value) == fee * Turnover(trades) + value * fee;
  }

  // ---------------------------------------------------------------- over a book's whole run

  /** The fills of the orders of a run, and how many orders there were. */
  function RunFills(r: Rules, idea: Idea, born: nat, cash: real, bars: Bars, first: nat, n: nat): seq<Trade>
    requires r.Valid() && bars.Valid() && first + n < bars.length
  {
    if n == 0 then []
    else
      var at, b := first + n - 1, Solo(r, idea, born, cash, bars, first, n - 1);
      DecisionInside(r, b, bars, at);
      RunFills(r, idea, born, cash, bars, first, n - 1) +
      Fills(r, Decided(r, b, bars, at).book, Decided(r, b, bars, at).orders, bars, at)
  }

  function RunOrders(r: Rules, idea: Idea, born: nat, cash: real, bars: Bars, first: nat, n: nat): nat
    requires r.Valid() && bars.Valid() && first + n < bars.length
  {
    if n == 0 then 0
    else
      RunOrders(r, idea, born, cash, bars, first, n - 1) +
      |Decided(r, Solo(r, idea, born, cash, bars, first, n - 1), bars, first + n - 1).orders|
  }

  /** One step of the record. */
  lemma StepTold(r: Rules, b: Book, bars: Bars, i: nat)
    requires r.Valid() && bars.Valid() && i + 1 < bars.length
    ensures Inside(Decided(r, b, bars, i).orders, bars.Assets())
    ensures var c, d := Stepped(r, b, bars, i), Decided(r, b, bars, i);
            var trades, fills := StepTrades(r, b, bars, i), Fills(r, d.book, d.orders, bars, i);
            && c.attempts == b.attempts + |d.orders| && c.fills == b.fills + |fills|
            && c.fees == b.fees + Times(r.k.fee, Turnover(trades)) && c.traded == b.traded + Turnover(fills)
  {
    hide Opening, PostedAll, ExecutedAll, Fills, Equity, Targets, ReadMarket, T.Orders, PressureOn, Twin, Turnover,
         Times;
    DecisionInside(r, b, bars, i);
    var d := Decided(r, b, bars, i);
    PostingBalances(b, Opening(r, b, bars, i), r.k.fee, 0);
    PostingFees(b, Opening(r, b, bars, i), r.k.fee);
    ExecutionsTold(r, d.book, d.orders, bars, i);
    TurnoverAppend(Opening(r, b, bars, i), Fills(r, d.book, d.orders, bars, i));
    TimesAdds(r.k.fee, Turnover(Opening(r, b, bars, i)), Turnover(Fills(r, d.book, d.orders, bars, i)));
  }

  /** The counters of a book over its whole run: an attempt for each order, a fill for each that filled, the traded
      value of those, and the fee on everything it ever traded, its seeding included. */
  lemma {:induction false} CountersTold(r: Rules, idea: Idea, born: nat, cash: real, bars: Bars, first: nat, n: nat)
    requires r.Valid() && bars.Valid() && first + n < bars.length
    ensures var b, fills := Solo(r, idea, born, cash, bars, first, n), RunFills(r, idea, born, cash, bars, first, n);
            && b.attempts == RunOrders(r, idea, born, cash, bars, first, n)
            && b.fills == |fills| && b.traded == Turnover(fills)
            && b.fees == Times(r.k.fee, Turnover(SoloTrades(r, idea, born, cash, bars, first, n)))
  {
    hide Stepped, StepTrades, Decided, Fills, Turnover, Times;
    if n == 0 {
      NoTurnover(r.k.fee);
    } else {
      CountersTold(r, idea, born, cash, bars, first, n - 1);
      var before, at := Solo(r, idea, born, cash, bars, first, n - 1), first + n - 1;
      StepTold(r, before, bars, at);
      var d := Decided(r, before, bars, at);
      TurnoverAppend(RunFills(r, idea, born, cash, bars, first, n - 1), Fills(r, d.book, d.orders, bars, at));
      TurnoverAppend(SoloTrades(r, idea, born, cash, bars, first, n - 1), StepTrades(r, before, bars, at));
      TimesAdds(r.k.fee, Turnover(SoloTrades(r, idea, born, cash, bars, first, n - 1)),
                Turnover(StepTrades(r, before, bars, at)));
    }
  }

  /** Units of an asset bought less units sold, and what the trades cost less what they brought, fees aside. */
  function NetUnits(trades: seq<Trade>, a: nat): real
  {
    if |trades| == 0 then 0.0
    else
      var t := trades[|trades| - 1];
      NetUnits(trades[..|trades| - 1], a) +
      if t.asset == a && t.buy then t.qty else if t.asset == a && !t.buy then -t.qty else 0.0
  }

  function NetCost(trades: seq<Trade>): real
  {
    if |trades| == 0 then 0.0
    else
      var t := trades[|trades| - 1];
      NetCost(trades[..|trades| - 1]) + if t.buy then t.qty * t.price else -(t.qty * t.price)
  }

  lemma {:induction false} NetsAre(trades: seq<Trade>, a: nat)
    ensures NetUnits(trades, a) == MovedAll(trades, a) && NetCost(trades) == PaidAll(trades)
  {
    if |trades| > 0 { NetsAre(trades[..|trades| - 1], a); }
  }

  /** The money and the holdings of a book over its whole run: cash is what it started with, less what its buys cost and
      plus what its sells brought, less the fee on the value of each; a holding is what was bought less what was
      sold. */
  lemma MoneyTold(r: Rules, idea: Idea, born: nat, cash: real, bars: Bars, first: nat, n: nat, a: nat)
    requires r.Valid() && bars.Valid() && first + n < bars.length
    ensures var b, trades := Solo(r, idea, born, cash, bars, first, n), SoloTrades(r, idea, born, cash, bars, first, n);
            && b.cash == cash - NetCost(trades) - Times(r.k.fee, Turnover(trades))
            && Held(b.units, a) == NetUnits(trades, a)
  {
    hide Solo, SoloTrades, NetUnits, NetCost, Turnover, Times, Held;
    LedgerBalances(r, idea, born, cash, bars, first, n, a);
    CountersTold(r, idea, born, cash, bars, first, n);
    NetsAre(SoloTrades(r, idea, born, cash, bars, first, n), a);
  }

  // ---------------------------------------------------------------- returns

  /** Returns, one after the other. */
  function Compound(rets: seq<real>): real
  {
    if |rets| == 0 then 1.0 else Compound(rets[..|rets| - 1]) * (1.0 + rets[|rets| - 1])
  }

  lemma ReturnGrows(before: real, after: real, start: real, so: real)
    requires before > 0.0 && before == start * so
    ensures after == start * (so * (1.0 + Return(before, after)))
  {
    var ratio := after / before;
    assert ratio * before == after;
    assert 1.0 + Return(before, after) == ratio;
    assert start * (so * ratio) == start * so * ratio;
  }

  lemma ReturnExact(before: real, after: real)
    ensures if before > 0.0 then before * (1.0 + Return(before, after)) == after else Return(before, after) == 0.0
  {
    if before > 0.0 { ReturnGrows(before, after, before, 1.0); }
  }

  /** The book as it stands after the decision at its `k`-th bar. */
  function AtDecision(r: Rules, idea: Idea, born: nat, cash: real, bars: Bars, first: nat, k: nat): Book
    requires r.Valid() && bars.Valid() && first + k < bars.length
  {
    Decided(r, Solo(r, idea, born, cash, bars, first, k), bars, first + k).book
  }

  /** Only a book without a return is seeded or given its twin. */
  lemma DecisionKeepsMoney(r: Rules, b: Book, bars: Bars, i: nat)
    requires r.Valid() && bars.Valid() && i < bars.length
    ensures var d := Decided(r, b, bars, i).book;
            && d.rets == b.rets && d.benchRets == b.benchRets && |d.bench| > 0
            && (|b.rets| > 0 ==> d.cash == b.cash && d.units == b.units)
            && (|b.bench| > 0 ==> d.bench == b.bench && d.benchCash == b.benchCash)
  {
    hide Targets, PressureOn, T.Orders, Equity, SeedTrades;
    PostingBalances(b, Opening(r, b, bars, i), r.k.fee, 0);
    PostNothing(b, r.k.fee);
  }

  /** The mark of a step. */
  lemma StepMarks(r: Rules, b: Book, bars: Bars, i: nat)
    requires r.Valid() && bars.Valid() && i + 1 < bars.length
    ensures var c, d := Stepped(r, b, bars, i), Decided(r, b, bars, i).book;
            && c.rets == b.rets + [Return(Equity(d, bars.Closes(i)), Equity(c, bars.Closes(i + 1)))]
            && c.benchRets == b.benchRets + [Return(Twin(d, bars.Closes(i)), Twin(c, bars.Closes(i + 1)))]
            && c.bench == d.bench && c.benchCash == d.benchCash && c.peak == d.peak && c.pressured == d.pressured
  {
    hide Decided, ExecutedAll, Fills, Return, Legs;
    DecisionInside(r, b, bars, i);
    var d := Decided(r, b, bars, i);
    ExecutionsTold(r, d.book, d.orders, bars, i);
    ExecutionBalances(r, d.book, d.orders, bars, i, 0);
    DecisionKeepsMoney(r, b, bars, i);
    EquityFrame(ExecutedAll(r, d.book, d.orders, bars, i), Stepped(r, b, bars, i), bars.Closes(i + 1));
  }

  /** The record of returns is the growth of the money: over a run in which the equity stays positive, compounding the
      returns takes the equity after the seeding at the first bar to the equity at the last. */
  lemma {:induction false} ReturnsCompound(r: Rules, idea: Idea, born: nat, cash: real, bars: Bars, first: nat, n: nat)
    requires r.Valid() && bars.Valid() && first + n < bars.length && n > 0
    requires forall k: nat :: k < n ==>
               Equity(AtDecision(r, idea, born, cash, bars, first, k), bars.Closes(first + k)) > 0.0
    ensures var b := Solo(r, idea, born, cash, bars, first, n);
            |b.rets| == n &&
            Equity(b, bars.Closes(first + n)) ==
            Equity(AtDecision(r, idea, born, cash, bars, first, 0), bars.Closes(first)) * Compound(b.rets)
  {
    hide Stepped, Decided, Equity, Return;
    var before, at := Solo(r, idea, born, cash, bars, first, n - 1), first + n - 1;
    var d := AtDecision(r, idea, born, cash, bars, first, n - 1);
    var start := Equity(AtDecision(r, idea, born, cash, bars, first, 0), bars.Closes(first));
    StepMarks(r, before, bars, at);
    var worth := Equity(d, bars.Closes(at));
    if n > 1 {
      ReturnsCompound(r, idea, born, cash, bars, first, n - 1);
      DecisionKeepsMoney(r, before, bars, at);
      EquityFrame(d, before, bars.Closes(at));
    } else {
      Newborn(idea, born, cash);
    }
    ReturnGrows(worth, Equity(Solo(r, idea, born, cash, bars, first, n), bars.Closes(first + n)), start,
                Compound(before.rets));
    CompoundLast(before.rets, Return(worth, Equity(Solo(r, idea, born, cash, bars, first, n), bars.Closes(first + n))));
  }

  lemma Newborn(idea: Idea, born: nat, cash: real)
    ensures var b := NewBook(idea, born, cash);
            && b.rets == [] && b.benchRets == [] && b.bench == [] && b.peak == b.cash == cash && b.units == map[]
            && Compound([]) == 1.0 && !b.pressured && b.alive
  {
  }

  lemma CompoundLast(rets: seq<real>, last: real)
    ensures Compound(rets + [last]) == Compound(rets) * (1.0 + last)
  {
    assert (rets + [last])[..|rets|] == rets;
  }

  /** What the twin bought at the first decision is worth at the `k`-th bar. */
  function TwinWorth(r: Rules, idea: Idea, born: nat, cash: real, bars: Bars, first: nat, k: nat): real
    requires r.Valid() && bars.Valid() && first + k < bars.length
  {
    Twin(AtDecision(r, idea, born, cash, bars, first, 0), bars.Closes(first + k))
  }

  /** So is the twin's: bought once with what the book had after its seeding, in equal parts of the invested fraction,
      and never touched; compounding its returns takes that to what it is worth now. */
  lemma {:induction false} TwinCompounds(r: Rules, idea: Idea, born: nat, cash: real, bars: Bars, first: nat, n: nat)
    requires r.Valid() && bars.Valid() && first + n < bars.length && n > 0
    requires forall k: nat :: k < n ==> TwinWorth(r, idea, born, cash, bars, first, k) > 0.0
    ensures var b, d := Solo(r, idea, born, cash, bars, first, n), AtDecision(r, idea, born, cash, bars, first, 0);
            && |b.benchRets| == n && b.bench == d.bench && b.benchCash == d.benchCash
            && Twin(b, bars.Closes(first + n)) == Twin(d, bars.Closes(first)) * Compound(b.benchRets)
  {
    hide Stepped, Decided, Equity, Return, Twin;
    var before, at := Solo(r, idea, born, cash, bars, first, n - 1), first + n - 1;
    var d, now := AtDecision(r, idea, born, cash, bars, first, 0), AtDecision(r, idea, born, cash, bars, first, n - 1);
    StepMarks(r, before, bars, at);
    DecisionKeepsMoney(r, before, bars, at);
    DecisionKeepsMoney(r, NewBook(idea, born, cash), bars, first);
    if n > 1 {
      TwinCompounds(r, idea, born, cash, bars, first, n - 1);
      SameTwin(now, d, bars.Closes(at));
      SameTwin(before, d, bars.Closes(at));
    } else {
      Newborn(idea, born, cash);
    }
    var after := Solo(r, idea, born, cash, bars, first, n);
    var worth := Twin(after, bars.Closes(first + n));
    SameTwin(after, d, bars.Closes(first + n));
    assert TwinWorth(r, idea, born, cash, bars, first, n - 1) > 0.0;
    ReturnGrows(Twin(now, bars.Closes(at)), worth, Twin(d, bars.Closes(first)), Compound(before.benchRets));
    CompoundLast(before.benchRets, Return(Twin(now, bars.Closes(at)), worth));
  }

  lemma SameTwin(b: Book, c: Book, px: seq<real>)
    requires b.bench == c.bench && b.benchCash == c.benchCash
    ensures Twin(b, px) == Twin(c, px)
  {
  }

  /** What the twin buys: with the same money, the invested fraction in equal parts, the rest kept as cash. */
  lemma TwinExact(r: Rules, b: Book, bars: Bars, i: nat)
    requires r.Valid() && bars.Valid() && i < bars.length && b.bench == []
    ensures var d, px := Decided(r, b, bars, i).book, bars.Closes(i);
            && |d.bench| == |px|
            && (forall a :: 0 <= a < |px| ==> d.bench[a] * px[a] * |px| as real == Equity(d, px) * r.k.investFrac)
            && Twin(d, px) == Equity(d, px)
  {
    hide Targets, PressureOn, T.Orders, PostedAll, Opening, Equity, Rows, Twin, PerAsset, TwinUnits;
    var px := bars.Closes(i);
    var seeded := PostedAll(b, Opening(r, b, bars, i), r.k.fee);
    PostingBalances(b, Opening(r, b, bars, i), r.k.fee, 0);
    var d := Decided(r, b, bars, i).book;
    EquityFrame(seeded, d, px);
    TwinBought(d, Equity(d, px), r.k.investFrac, px);
  }

  lemma TwinBought(d: Book, eq: real, frac: real, px: seq<real>)
    requires |px| > 0 && forall a :: 0 <= a < |px| ==> px[a] > 0.0
    requires var per := PerAsset(eq, frac, |px|);
             d.bench == TwinUnits(per, px) && d.benchCash == eq - per * |px| as real
    ensures forall a :: 0 <= a < |px| ==> d.bench[a] * px[a] * |px| as real == eq * frac
    ensures Twin(d, px) == eq
  {
    hide Sum;
    var per := PerAsset(eq, frac, |px|);
    EqualParts(eq, frac, |px|);
    forall a | 0 <= a < |px|
      ensures d.bench[a] * px[a] == per
    {
      assert d.bench[a] == per / px[a];
    }
    AllEqual(Legs(d.bench, px), per);
  }

  lemma EqualParts(eq: real, frac: real, n: nat)
    requires n > 0
    ensures PerAsset(eq, frac, n) * n as real == eq * frac
  {
  }

  lemma {:induction false} AllEqual(s: seq<real>, x: real)
    requires forall i :: 0 <= i < |s| ==> s[i] == x
    ensures Sum(s) == x * |s| as real
  {
    if |s| > 0 {
      AllEqual(s[..|s| - 1], x);
      assert x * (|s| - 1) as real + x == x * |s| as real;
    }
  }

  // ---------------------------------------------------------------- stress

  /** The best equity a book ever decided on, its starting cash at least. */
  function Best(r: Rules, idea: Idea, born: nat, cash: real, bars: Bars, first: nat, n: nat): real
    requires r.Valid() && bars.Valid() && first + n < bars.length
  {
    if n == 0 then cash
    else
      var best := Best(r, idea, born, cash, bars, first, n - 1);
      var worth := Equity(AtDecision(r, idea, born, cash, bars, first, n - 1), bars.Closes(first + n - 1));
      if worth > best then worth else best
  }

  lemma DecisionPeaks(r: Rules, b: Book, bars: Bars, i: nat)
    requires r.Valid() && bars.Valid() && i < bars.length
    ensures var d := Decided(r, b, bars, i).book;
            d.peak == Max(b.peak, Equity(d, bars.Closes(i)))
  {
    hide Targets, PressureOn, T.Orders, Equity, SeedTrades, PostedAll, Opening, Rows;
    var seeded := PostedAll(b, Opening(r, b, bars, i), r.k.fee);
    PostingBalances(b, Opening(r, b, bars, i), r.k.fee, 0);
    EquityFrame(seeded, Decided(r, b, bars, i).book, bars.Closes(i));
  }

  lemma {:induction false} PeakTold(r: Rules, idea: Idea, born: nat, cash: real, bars: Bars, first: nat, n: nat)
    requires r.Valid() && bars.Valid() && first + n < bars.length
    ensures Solo(r, idea, born, cash, bars, first, n).peak == Best(r, idea, born, cash, bars, first, n)
  {
    hide Stepped, Decided, Equity;
    if n == 0 {
      Newborn(idea, born, cash);
    } else {
      var before, at := Solo(r, idea, born, cash, bars, first, n - 1), first + n - 1;
      PeakTold(r, idea, born, cash, bars, first, n - 1);
      DecisionPeaks(r, before, bars, at);
      StepMarks(r, before, bars, at);
    }
  }

  /** The stress a decision is taken under: the share of attempts that filled and the mean of the latest markouts, each
      only from a full window on; the market's volatility ratio; and the share of the peak that is lost. */
  lemma StressExact(r: Rules, b: Book, eq: real, reading: Reading)
    requires r.Valid()
    ensures var s := StressOf(r, b, eq, reading);
            && (s.fillRatio.Some? <==> b.attempts >= r.window)
            && (s.fillRatio.Some? ==> s.fillRatio.value * b.attempts as real == b.fills as real)
            && (s.markout.Some? <==> |b.markouts| >= r.window)
            && (s.markout.Some? ==>
                  s.markout.value * r.window as real == Sum(b.markouts[|b.markouts| - r.window..]))
            && s.volRatio == reading.volRatio
            && (s.drawdown.Some? <==> b.peak > 0.0)
            && (s.drawdown.Some? ==> s.drawdown.value * b.peak == b.peak - eq)
  {
    hide Sum;
    if b.attempts >= r.window {
      var share := b.fills as real / b.attempts as real;
      assert share * b.attempts as real == b.fills as real;
    }
    if |b.markouts| >= r.window {
      MeanTimes(Last(b.markouts, r.window));
    }
    if b.peak > 0.0 {
      var kept := eq / b.peak;
      assert kept * b.peak == eq;
      assert (1.0 - kept) * b.peak == b.peak - eq;
    }
  }

  /** A decision marks the book as pressed exactly when its overlay is not neutral, and the mark stays. */
  lemma PressedExact(r: Rules, b: Book, bars: Bars, i: nat)
    requires r.Valid() && bars.Valid() && i < bars.length
    ensures Decided(r, b, bars, i).book.pressured <==>
            b.pressured || PressureOn(r, Ready(r, b, bars, i), bars, i) != T.Pressure(1.0, 1.0, false)
  {
    hide Targets, T.Orders, Equity, Opening, Rows, T.Strain, StressOf, ReadMarket;
    PostingBalances(b, Opening(r, b, bars, i), r.k.fee, 0);
    var ready := Ready(r, b, bars, i);
    var reading := ReadMarket(bars, i, r.k.sigmaLookback, r.k.volShort, r.limits.volShock, r.k.root);
    var s := StressOf(r, ready, Equity(ready, bars.Closes(i)), reading);
    T.StressOnlyBrakes(s, s, r.limits);
  }

  // ---------------------------------------------------------------- what a book decides

  /** Some decision of the run was taken under an overlay that is not neutral. */
  predicate EverPressed(r: Rules, idea: Idea, born: nat, cash: real, bars: Bars, first: nat, n: nat)
    requires r.Valid() && bars.Valid() && first + n < bars.length
  {
    n > 0 && (EverPressed(r, idea, born, cash, bars, first, n - 1) ||
              var at := first + n - 1;
              var ready := Ready(r, Solo(r, idea, born, cash, bars, first, n - 1), bars, at);
              PressureOn(r, ready, bars, at) != T.Pressure(1.0, 1.0, false))
  }

  lemma {:induction false} PressedTold(r: Rules, idea: Idea, born: nat, cash: real, bars: Bars, first: nat, n: nat)
    requires r.Valid() && bars.Valid() && first + n < bars.length
    ensures Solo(r, idea, born, cash, bars, first, n).pressured <==> EverPressed(r, idea, born, cash, bars, first, n)
  {
    hide Stepped, Decided, Ready, PressureOn;
    if n == 0 {
      Newborn(idea, born, cash);
    } else {
      PressedTold(r, idea, born, cash, bars, first, n - 1);
      PressedExact(r, Solo(r, idea, born, cash, bars, first, n - 1), bars, first + n - 1);
      StepMarks(r, Solo(r, idea, born, cash, bars, first, n - 1), bars, first + n - 1);
    }
  }

  lemma {:induction false} SeededAt(b: Book, t: seq<real>, px: seq<real>, eq: real, fee: real, n: nat, a: nat)
    requires n <= |t| == |px| && forall k :: 0 <= k < |px| ==> px[k] > 0.0
    ensures Held(PostedAll(b, SeedTrades(t, px, eq, n), fee).units, a)
         == Held(b.units, a) + if a < n && eq * t[a] > 0.0 then eq * t[a] / px[a] else 0.0
  {
    hide Value, FeeOn, Paid;
    if n == 0 {
      PostNothing(b, fee);
    } else {
      SeededAt(b, t, px, eq, fee, n - 1, a);
      var before := SeedTrades(t, px, eq, n - 1);
      if eq * t[n - 1] > 0.0 {
        assert (before + [SeedTrade(t, px, eq, n - 1)])[..|before|] == before;
      }
    }
  }

  /** A newborn book's first decision: with money and seeding on it holds of each asset the value of its target, and
      otherwise nothing. */
  lemma SeedTold(r: Rules, idea: Idea, born: nat, cash: real, bars: Bars, i: nat, a: nat)
    requires r.Valid() && bars.Valid() && i < bars.length && a < bars.Assets()
    ensures var d, close := Decided(r, NewBook(idea, born, cash), bars, i).book, bars.close[a][i];
            var value := cash * Targets(idea, bars, i, r.k)[a];
            Held(d.units, a) * close == if r.seedAtTarget && cash > 0.0 && value > 0.0 then value else 0.0
  {
    hide Targets, PressureOn, T.Orders, SeedTrades, PostedAll, Rows;
    var b, px, t := NewBook(idea, born, cash), bars.Closes(i), Targets(idea, bars, i, r.k);
    NoUnitsNoWorth(px);
    PostNothing(b, r.k.fee);
    if Seeds(r, b, px) {
      SeededAt(b, t, px, cash, r.k.fee, |px|, a);
      var value := cash * t[a];
      assert value / px[a] * px[a] == value;
    }
  }

  lemma {:induction false} RowsWorth(units: map<nat, real>, gamma: real, px: seq<real>, t: seq<real>, k: Knobs, n: nat)
    requires n <= |px| == |t| && forall a :: 0 <= a < |px| ==> px[a] > 0.0
    ensures P.WorthOf(Rows(units, gamma, px, t, k), n) == Worth(units, px[..n])
  {
    if n > 0 {
      RowsWorth(units, gamma, px, t, k, n - 1);
      assert px[..n][..n - 1] == px[..n - 1];
    }
  }

  /** An asset is in the plan's sell side exactly when its trade is a sell of the minimum, and then with that
      notional. */
  lemma {:induction false} SellSideHas(rows: seq<T.Row>, n: nat, equity: real, p: T.Params, q: T.Pressure, a: nat)
    requires n <= |rows| && equity > 0.0 && a < |rows|
    ensures forall o :: o in P.SellSide(rows, n, equity, p, q) && o.asset == a ==>
              o.sell && a < n && o.notional == -P.Trade(rows[a], equity, p, q)
    ensures (exists o :: o in P.SellSide(rows, n, equity, p, q) && o.asset == a) <==>
            a < n && P.Trade(rows[a], equity, p, q) < 0.0 && -P.Trade(rows[a], equity, p, q) >= p.minOrder
  {
    hide P.Trade;
    if n > 0 {
      SellSideHas(rows, n - 1, equity, p, q, a);
      var t := P.Trade(rows[n - 1], equity, p, q);
      if a == n - 1 && t < 0.0 && -t >= p.minOrder {
        assert P.Sale(rows, n - 1, t, equity) in P.SellSide(rows, n, equity, p, q);
      } else {
        forall o | o in P.SellSide(rows, n - 1, equity, p, q) ensures o in P.SellSide(rows, n, equity, p, q) {}
      }
    }
  }

  lemma {:induction false} BuySideBuys(rows: seq<T.Row>, n: nat, equity: real, p: T.Params, q: T.Pressure, share: real)
    requires n <= |rows| && equity > 0.0
    ensures forall o :: o in P.BuySide(rows, n, equity, p, q, share) ==> !o.sell
  {
    hide P.Trade;
    if n > 0 { BuySideBuys(rows, n - 1, equity, p, q, share); }
  }

  lemma ShareOf(want: real, spendable: real) returns (share: real)
    ensures spendable >= 0.0 ==> if want <= spendable then share == 1.0 else share * want == spendable
  {
    share := if want <= spendable || want == 0.0 then 1.0 else spendable / want;
  }

  /** The sells of any plan, whatever the buys. */
  lemma PlanSells(rows: seq<T.Row>, cash: real, p: T.Params, q: T.Pressure, a: nat)
    requires T.Sane(rows, p, q) && T.Equity(rows, cash) > 0.0 && a < |rows|
    ensures var orders, t := T.Orders(rows, cash, p, q), P.Trade(rows[a], T.Equity(rows, cash), p, q);
            && (forall o :: o in orders && o.asset == a && o.sell ==> o.notional == -t)
            && ((exists o :: o in orders && o.asset == a && o.sell) <==> t < 0.0 && -t >= p.minOrder)
  {
    hide P.Trade, T.Sane, T.Equity, T.Orders, P.SellSide, P.BuySide, P.Demand, P.Freed;
    var equity := T.Equity(rows, cash);
    var share := ShareOf(P.Demand(rows, |rows|, equity, p, q), Max(cash + P.Freed(rows, |rows|, equity, p, q), 0.0));
    P.PlanExact(rows, cash, p, q, share);
    SellSideHas(rows, |rows|, equity, p, q, a);
    BuySideBuys(rows, |rows|, equity, p, q, share);
    var sells := P.SellSide(rows, |rows|, equity, p, q);
    forall o | o in sells ensures o in T.Orders(rows, cash, p, q) {}
  }

  /** By how much the pressed share of the way from a weight down to its target passes the pressed band. */
  function Beyond(r: Rules, b: Book, weight: real, target: real, q: T.Pressure): real
  {
    b.idea.aimRate * q.aimMult * (weight - target) - r.k.halfwidth(r.k.fee, target, b.idea.gamma) * q.bandMult
  }

  /** What a book sells. A solvent book sells an asset exactly when its weight is above the target by so much that the
      pressed share of the distance passes the pressed band, and the part beyond it is of the minimum; and it sells
      that part. */
  lemma SellsTold(r: Rules, b: Book, bars: Bars, i: nat, a: nat)
    requires r.Valid() && bars.Valid() && i < bars.length && a < bars.Assets() && Unlevered(r.k)
    requires 0.0 <= b.idea.aimRate <= 1.0 && forall c, w, g :: r.k.halfwidth(c, w, g) >= 0.0
    requires Solvent(Ready(r, b, bars, i)) && Equity(Ready(r, b, bars, i), bars.Closes(i)) > 0.0
    ensures var ready, orders := Ready(r, b, bars, i), Decided(r, b, bars, i).orders;
            var q, eq := PressureOn(r, ready, bars, i), Equity(ready, bars.Closes(i));
            var weight := Held(ready.units, a) * bars.close[a][i] / eq;
            var beyond := Beyond(r, b, weight, Targets(b.idea, bars, i, r.k)[a], q);
            && (forall o :: o in orders && o.asset == a && o.sell ==> o.notional == beyond * eq)
            && ((exists o :: o in orders && o.asset == a && o.sell) <==>
                beyond > 0.0 && beyond * eq >= r.k.minOrder)
  {
    hide Targets, T.Orders, T.Equity, PressureOn, Ready, T.Sane, P.Trade, Decided, Equity, Rows, P.WorthOf, Unlevered,
         Solvent, Held, Worth;
    var ready, px, t := Ready(r, b, bars, i), bars.Closes(i), Targets(b.idea, bars, i, r.k);
    var q, p := PressureOn(r, ready, bars, i), T.Params(b.idea.aimRate, r.k.minOrder);
    ReadyFrame(r, b, bars, i);
    var rows, eq := Rows(ready.units, b.idea.gamma, px, t, r.k), Equity(ready, px);
    RowsAreSane(r, ready, bars, i, p);
    RowsWorth(ready.units, b.idea.gamma, px, t, r.k, |px|);
    P.EquityExact(rows, ready.cash, |rows|);
    assert rows[..|rows|] == rows && px[..|px|] == px;
    DecidedOrders(r, b, bars, i);
    RowIs(ready.units, b.idea.gamma, px, t, r.k, a);
    EquityIs(ready, px);
    assert T.Equity(rows, ready.cash) == eq;
    PlanSells(rows, ready.cash, p, q, a);
    BandsArePositive(r, ready, bars, i, rows[a].halfwidth);
    TradeBeyond(rows[a], eq, p, q);
    var beyond := Beyond(r, b, Held(ready.units, a) * bars.close[a][i] / eq, t[a], q);
    assert P.Trade(rows[a], eq, p, q) < 0.0 <==> beyond > 0.0;
    assert beyond > 0.0 ==> -P.Trade(rows[a], eq, p, q) == beyond * eq;
  }

  lemma DecidedOrders(r: Rules, b: Book, bars: Bars, i: nat)
    requires r.Valid() && bars.Valid() && i < bars.length
    ensures var ready := Ready(r, b, bars, i);
            Decided(r, b, bars, i).orders ==
            T.Orders(Rows(ready.units, b.idea.gamma, bars.Closes(i), Targets(b.idea, bars, i, r.k), r.k), ready.cash,
                     T.Params(b.idea.aimRate, r.k.minOrder), PressureOn(r, ready, bars, i))
  {
  }

  lemma RowIs(units: map<nat, real>, gamma: real, px: seq<real>, t: seq<real>, k: Knobs, a: nat)
    requires a < |px| == |t|
    ensures |Rows(units, gamma, px, t, k)| == |px|
    ensures Rows(units, gamma, px, t, k)[a] == T.Row(Held(units, a), px[a], t[a], k.halfwidth(k.fee, t[a], gamma))
  {
  }

  lemma EquityIs(b: Book, px: seq<real>)
    ensures Equity(b, px) == b.cash + Worth(b.units, px)
  {
  }

  lemma BandsArePositive(r: Rules, ready: Book, bars: Bars, i: nat, halfwidth: real)
    requires r.Valid() && bars.Valid() && i < bars.length && halfwidth >= 0.0
    ensures halfwidth * PressureOn(r, ready, bars, i).bandMult >= 0.0
  {
    hide Equity, ReadMarket, StressOf, T.Strain;
    var reading := ReadMarket(bars, i, r.k.sigmaLookback, r.k.volShort, r.limits.volShock, r.k.root);
    var s := StressOf(r, ready, Equity(ready, bars.Closes(i)), reading);
    T.StressOnlyBrakes(s, s, r.limits);
    TimesMonotone(halfwidth, 0.0, PressureOn(r, ready, bars, i).bandMult);
  }

  lemma ReadyFrame(r: Rules, b: Book, bars: Bars, i: nat)
    requires r.Valid() && bars.Valid() && i < bars.length
    ensures Ready(r, b, bars, i).idea == b.idea
  {
    hide Opening, Equity;
    PostingBalances(b, Opening(r, b, bars, i), r.k.fee, 0);
  }

  lemma RowsAreSane(r: Rules, ready: Book, bars: Bars, i: nat, p: T.Params)
    requires r.Valid() && bars.Valid() && i < bars.length && Unlevered(r.k) && Solvent(ready)
    requires 0.0 <= p.aimRate <= 1.0 && forall c, w, g :: r.k.halfwidth(c, w, g) >= 0.0
    ensures var t := Targets(ready.idea, bars, i, r.k);
            T.Sane(Rows(ready.units, ready.idea.gamma, bars.Closes(i), t, r.k), p, PressureOn(r, ready, bars, i))
  {
    hide Targets, Equity, ReadMarket, StressOf, T.Strain;
    TargetsAreFunded(ready.idea, bars, i, r.k);
    var reading := ReadMarket(bars, i, r.k.sigmaLookback, r.k.volShort, r.limits.volShock, r.k.root);
    var s := StressOf(r, ready, Equity(ready, bars.Closes(i)), reading);
    T.StressOnlyBrakes(s, s, r.limits);
    var q := PressureOn(r, ready, bars, i);
    TimesMonotone(p.aimRate, 0.0, q.aimMult);
    TimesMonotone(p.aimRate, q.aimMult, 1.0);
  }

  /** A trade that sells, from the other side. */
  lemma TradeBeyond(row: T.Row, equity: real, p: T.Params, q: T.Pressure)
    requires equity > 0.0 && row.price > 0.0 && row.halfwidth * q.bandMult >= 0.0
    ensures var beyond := p.aimRate * q.aimMult * (row.units * row.price / equity - row.target) -
                          row.halfwidth * q.bandMult;
            && (P.Trade(row, equity, p, q) < 0.0 <==> beyond > 0.0)
            && (beyond > 0.0 ==> -P.Trade(row, equity, p, q) == beyond * equity)
  {
    var held, rate, band := row.units * row.price / equity, p.aimRate * q.aimMult, row.halfwidth * q.bandMult;
    var way := rate * (row.target - held);
    assert rate * (held - row.target) == -way;
    SignOf(way - band, equity);
    SignOf(way + band, equity);
    assert (-way - band) * equity == -((way + band) * equity);
  }
}