/** The plan of core/target_book.py said asset by asset, without its passes over the book. */
module TargetPlan {
  import opened Prelude
  import opened TargetBook

  /** What the assets with a price are worth. */
  function WorthOf(rows: seq<Row>, n: nat): real
    requires n <= |rows|
  {
    if n == 0 then 0.0
    else WorthOf(rows, n - 1) + if rows[n - 1].price > 0.0 then rows[n - 1].units * rows[n - 1].price else 0.0
  }

  lemma {:induction false} EquityExact(rows: seq<Row>, cash: real, n: nat)
    requires n <= |rows|
    ensures Equity(rows[..n], cash) == cash + WorthOf(rows, n)
  {
    if n > 0 {
      EquityExact(rows, cash, n - 1);
      assert rows[..n][..n - 1] == rows[..n - 1];
    }
  }

  /** What the bands make of one asset, signed: the part of the slowed way to the target that is beyond the band. */
  function Trade(row: Row, equity: real, p: Params, q: Pressure): real
    requires equity > 0.0
  {
    var held := row.units * row.price / equity;
    var way := p.aimRate * q.aimMult * (row.target - held);
    var band := row.halfwidth * q.bandMult;
    if row.price <= 0.0 then 0.0
    else if way > band then (way - band) * equity
    else if way < -band then (way + band) * equity
    else 0.0
  }

  /** The orders for a trade of asset `i`: a sell in full, a buy of a share of it. */
  function Sale(rows: seq<Row>, i: nat, t: real, equity: real): Order
    requires i < |rows| && equity > 0.0
  {
    var held := rows[i].units * rows[i].price / equity;
    Order(i, true, -t, held, held + t / equity, false)
  }

  function Purchase(rows: seq<Row>, i: nat, t: real, equity: real, share: real): Order
    requires i < |rows| && equity > 0.0
  {
    var held := rows[i].units * rows[i].price / equity;
    Order(i, false, t * share, held, held + t * share / equity, share < 1.0)
  }

  /** The sells of the first `n` assets: those of at least the venue's minimum. */
  function SellSide(rows: seq<Row>, n: nat, equity: real, p: Params, q: Pressure): seq<Order>
    requires n <= |rows| && equity > 0.0
  {
    if n == 0 then []
    else
      var t := Trade(rows[n - 1], equity, p, q);
      SellSide(rows, n - 1, equity, p, q) +
      if t < 0.0 && -t >= p.minOrder then [Sale(rows, n - 1, t, equity)] else []
  }

  /** The buys of the first `n` assets at a share of what each calls for: those that are still of the minimum. */
  function BuySide(rows: seq<Row>, n: nat, equity: real, p: Params, q: Pressure, share: real): seq<Order>
    requires n <= |rows| && equity > 0.0
  {
    if n == 0 then []
    else
      var t := Trade(rows[n - 1], equity, p, q);
      var order := Purchase(rows, n - 1, t, equity, share);
      BuySide(rows, n - 1, equity, p, q, share) + if t > 0.0 && order.notional >= p.minOrder then [order] else []
  }

  /** What all the buys together call for, and what the sells free. */
  function Demand(rows: seq<Row>, n: nat, equity: real, p: Params, q: Pressure): real
    requires n <= |rows| && equity > 0.0
  {
    if n == 0 then 0.0 else Demand(rows, n - 1, equity, p, q) + Max(Trade(rows[n - 1], equity, p, q), 0.0)
  }

  function Freed(rows: seq<Row>, n: nat, equity: real, p: Params, q: Pressure): real
    requires n <= |rows| && equity > 0.0
  {
    if n == 0 then 0.0
    else
      var t := Trade(rows[n - 1], equity, p, q);
      Freed(rows, n - 1, equity, p, q) + if t < 0.0 && -t >= p.minOrder then -t else 0.0
  }

  lemma MoveIsTrade(rows: seq<Row>, i: nat, equity: real, p: Params, q: Pressure)
    requires i < |rows| && equity > 0.0 && Sane(rows, p, q)
    ensures var m, t := MoveOf(rows, i, equity, p, q), Trade(rows[i], equity, p, q);
            && (m.None? <==> t == 0.0)
            && (m.Some? ==> m.value.notional == t && m.value.weight == Weight(rows, i, equity) + t / equity)
  {
    hide MoveOf, Weight, Rate, Band, Notional, StepWeight, Trade;
    var row, held := rows[i], Weight(rows, i, equity);
    if row.Priced() {
      MoveIsStep(rows, i, equity, p, q);
      TradeIs(rows, i, equity, p, q);
      NotionalFacts(StepWeight(held, row.target, Rate(p, q), Band(row, q)) - held, equity);
    } else {
      Unpriced(rows, i, equity, p, q);
    }
  }

  lemma TradeIs(rows: seq<Row>, i: nat, equity: real, p: Params, q: Pressure)
    requires i < |rows| && equity > 0.0 && Band(rows[i], q) >= 0.0 && rows[i].Priced()
    ensures var held, rate, band := Weight(rows, i, equity), Rate(p, q), Band(rows[i], q);
            Trade(rows[i], equity, p, q) == Notional(StepWeight(held, rows[i].target, rate, band) - held, equity)
  {
    hide StepWeight;
    var held, rate, band := Weight(rows, i, equity), Rate(p, q), Band(rows[i], q);
    StepIs(held, rows[i].target, rate, band);
    assert held == rows[i].units * rows[i].price / equity && rate == p.aimRate * q.aimMult;
    assert p.aimRate * q.aimMult * (rows[i].target - held) == rate * (rows[i].target - held);
  }

  lemma StepIs(held: real, target: real, rate: real, band: real)
    requires band >= 0.0
    ensures var way := rate * (target - held);
            StepWeight(held, target, rate, band) - held
            == if way > band then way - band else if way < -band then way + band else 0.0
  {
  }

  lemma Unpriced(rows: seq<Row>, i: nat, equity: real, p: Params, q: Pressure)
    requires i < |rows| && equity > 0.0 && !rows[i].Priced()
    ensures MoveOf(rows, i, equity, p, q).None? && Trade(rows[i], equity, p, q) == 0.0
  {
  }

  /** The passes over the moves of the first `n` assets, one asset later. */
  lemma {:induction false} PassesAre(rows: seq<Row>, n: nat, equity: real, p: Params, q: Pressure, share: real)
    requires n <= |rows| && equity > 0.0 && Sane(rows, p, q)
    ensures var moves := Moves(rows, n, equity, p, q);
            && InOrder(moves, n)
            && Sells(rows, moves, equity, p) == SellSide(rows, n, equity, p, q)
            && Buys(rows, moves, equity, p, share) == BuySide(rows, n, equity, p, q, share)
            && Wanted(moves) == Demand(rows, n, equity, p, q)
            && Total(Sells(rows, moves, equity, p)) == Freed(rows, n, equity, p, q)
  {
    hide MoveOf, Trade, Sane, SellOf, BuyOf, Sale, Purchase, Weight, Sells, Buys, Wanted, Total;
    MovesInside(rows, n, equity, p, q);
    if n == 0 {
      NoMoves(rows, equity, p, share);
    } else {
      PassesAre(rows, n - 1, equity, p, q, share);
      MoveIsTrade(rows, n - 1, equity, p, q);
      var before, m := Moves(rows, n - 1, equity, p, q), MoveOf(rows, n - 1, equity, p, q);
      if m.Some? {
        OneMore(rows, before, m.value, equity, p, share);
        OrderIs(rows, m.value, equity, share);
      }
    }
  }

  lemma NoMoves(rows: seq<Row>, equity: real, p: Params, share: real)
    requires equity > 0.0
    ensures Sells(rows, [], equity, p) == [] && Buys(rows, [], equity, p, share) == []
    ensures Total([]) == 0.0 && Wanted([]) == 0.0
  {
  }

  lemma OrderIs(rows: seq<Row>, m: Move, equity: real, share: real)
    requires equity > 0.0 && m.asset < |rows|
    ensures BuyOf(rows, m, equity, share) == Purchase(rows, m.asset, m.notional, equity, share)
    ensures m.weight == Weight(rows, m.asset, equity) + m.notional / equity ==>
              SellOf(rows, m, equity) == Sale(rows, m.asset, m.notional, equity)
    ensures SellOf(rows, m, equity).notional == -m.notional
  {
  }

  lemma OneMore(rows: seq<Row>, moves: seq<Move>, m: Move, equity: real, p: Params, share: real)
    requires equity > 0.0 && m.asset < |rows| && forall i :: 0 <= i < |moves| ==> moves[i].asset < |rows|
    ensures var sells, buys := Sells(rows, moves, equity, p), Buys(rows, moves, equity, p, share);
            var sell, buy := SellOf(rows, m, equity), BuyOf(rows, m, equity, share);
            && Sells(rows, moves + [m], equity, p)
               == (if m.notional < 0.0 && -m.notional >= p.minOrder then sells + [sell] else sells)
            && Total(sells + [sell]) == Total(sells) + sell.notional
            && Buys(rows, moves + [m], equity, p, share)
               == (if m.notional > 0.0 && buy.notional >= p.minOrder then buys + [buy] else buys)
            && Wanted(moves + [m]) == Wanted(moves) + Max(m.notional, 0.0)
  {
    hide SellOf, BuyOf;
    assert (moves + [m])[..|moves|] == moves;
    var sells := Sells(rows, moves, equity, p);
    assert (sells + [SellOf(rows, m, equity)])[..|sells|] == sells;
  }

  lemma ShareIsScale(share: real, want: real, spendable: real)
    requires want >= 0.0 && spendable >= 0.0
    requires if want <= spendable then share == 1.0 else share * want == spendable
    ensures share == Scale(want, spendable)
  {
    if want > spendable {
      var exact := spendable / want;
      assert (share - exact) * want == share * want - exact * want == 0.0;
      if share < exact { NegativeTimes(share - exact, want); }
      if share > exact { PositiveTimes(share - exact, want); }
    }
  }

  lemma {:induction false} DemandIsPositive(rows: seq<Row>, n: nat, equity: real, p: Params, q: Pressure)
    requires n <= |rows| && equity > 0.0
    ensures Demand(rows, n, equity, p, q) >= 0.0
  {
    hide Trade;
    if n > 0 { DemandIsPositive(rows, n - 1, equity, p, q); }
  }

  /** The passes of a plan. */
  lemma OrdersAre(rows: seq<Row>, cash: real, p: Params, q: Pressure, share: real)
    requires Equity(rows, cash) > 0.0
    ensures var equity := Equity(rows, cash);
            var moves := Moves(rows, |rows|, equity, p, q);
            InOrder(moves, |rows|) &&
            var sells := Sells(rows, moves, equity, p);
            share == Scale(Wanted(moves), Max(cash + Total(sells), 0.0)) ==>
              Orders(rows, cash, p, q) == sells + if q.haltBuys then [] else Buys(rows, moves, equity, p, share)
  {
    hide Equity, Moves, Scale, Wanted, Total, Max, Sells, Buys;
    MovesInside(rows, |rows|, Equity(rows, cash), p, q);
  }

  /** The whole plan. For nonnegative holdings and targets it sells, in the order of the book, every asset whose
      trade is negative and of the venue's minimum, in full; and unless buys are halted it buys every asset whose
      trade is positive, each at one and the same share of it, all of it when the cash and the sells of the plan pay
      for everything and otherwise the share that spends exactly that, leaving out what the share makes too small.
      */
  lemma PlanExact(rows: seq<Row>, cash: real, p: Params, q: Pressure, share: real)
    requires Sane(rows, p, q) && Equity(rows, cash) > 0.0
    requires var want := Demand(rows, |rows|, Equity(rows, cash), p, q);
             var spendable := Max(cash + Freed(rows, |rows|, Equity(rows, cash), p, q), 0.0);
             if want <= spendable then share == 1.0 else share * want == spendable
    ensures var equity := Equity(rows, cash);
            equity == cash + WorthOf(rows, |rows|) &&
            Orders(rows, cash, p, q) == SellSide(rows, |rows|, equity, p, q) +
              if q.haltBuys then [] else BuySide(rows, |rows|, equity, p, q, share)
  {
    hide Trade, Sane, Equity, WorthOf, SellSide, BuySide, Demand, Freed;
    hide Scale, Orders, Moves, Sells, Buys, Wanted, Total;
    var equity := Equity(rows, cash);
    EquityExact(rows, cash, |rows|);
    assert rows[..|rows|] == rows;
    DemandIsPositive(rows, |rows|, equity, p, q);
    PassesAre(rows, |rows|, equity, p, q, share);
    OrdersAre(rows, cash, p, q, share);
    ShareIsScale(share, Demand(rows, |rows|, equity, p, q), Max(cash + Freed(rows, |rows|, equity, p, q), 0.0));
  }
}
