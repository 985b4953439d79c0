/** The target-inventory rebalancer, core/target_book.py: one plan moves each held weight towards its target
    up to a no-trade band, sells fund buys, and buys are scaled to the cash there is. */
module TargetBook {
  import opened Prelude

  /** One asset of the book, in the sorted order the plan walks them. A price that is missing or not positive
      is 0. `halfwidth` is the no-trade band of its target before pressure. */
  datatype Row = Row(units: real, price: real, target: real, halfwidth: real) {
    predicate Priced() { price > 0.0 }
  }

  datatype Params = Params(aimRate: real, minOrder: real)

  datatype Pressure = Pressure(bandMult: real, aimMult: real, haltBuys: bool)

  datatype Order = Order(asset: nat, sell: bool, notional: real, held: real, newWeight: real, clamped: bool)

  function Value(row: Row): real { if row.Priced() then row.units * row.price else 0.0 }

  function Inventory(rows: seq<Row>): real
  {
    if |rows| == 0 then 0.0 else Inventory(rows[..|rows| - 1]) + Value(rows[|rows| - 1])
  }

  function Equity(rows: seq<Row>, cash: real): real { cash + Inventory(rows) }

  function Aim(held: real, target: real, rate: real): real { held + rate * (target - held) }

  predicate InBand(held: real, target: real, rate: real, band: real)
  {
    Abs(held - Aim(held, target, rate)) <= band
  }

  function BandEdge(held: real, target: real, rate: real, band: real): real
  {
    var aim := Aim(held, target, rate);
    if held - aim > 0.0 then aim + band else aim - band
  }

  /** A trade the bands call for, before the venue minimum and the cash clamp; `notional` is signed. */
  datatype Move = Move(asset: nat, weight: real, notional: real)

  function Rate(p: Params, q: Pressure): real { p.aimRate * q.aimMult }

  function Band(row: Row, q: Pressure): real { row.halfwidth * q.bandMult }

  function Notional(drift: real, equity: real): real { drift * equity }

  function Weight(rows: seq<Row>, i: nat, equity: real): real
    requires i < |rows| && equity > 0.0
  {
    rows[i].units * rows[i].price / equity
  }

  function MoveOf(rows: seq<Row>, i: nat, equity: real, p: Params, q: Pressure): (m: Option<Move>)
    requires i < |rows| && equity > 0.0
    ensures m.Some? ==> m.value.asset == i && rows[i].Priced()
  {
    var held, rate, band := Weight(rows, i, equity), Rate(p, q), Band(rows[i], q);
    if !rows[i].Priced() || InBand(held, rows[i].target, rate, band) then None
    else
      var weight := Max(BandEdge(held, rows[i].target, rate, band), 0.0);
      Some(Move(i, weight, Notional(weight - held, equity)))
  }

  function Moves(rows: seq<Row>, n: nat, equity: real, p: Params, q: Pressure): seq<Move>
    requires n <= |rows| && equity > 0.0
  {
    if n == 0 then []
    else
      var before, m := Moves(rows, n - 1, equity, p, q), MoveOf(rows, n - 1, equity, p, q);
      if m.Some? then before + [m.value] else before
  }

  function SellOf(rows: seq<Row>, m: Move, equity: real): (o: Order)
    requires equity > 0.0 && m.asset < |rows|
    ensures o.asset == m.asset && o.sell
  {
    Order(m.asset, true, -m.notional, Weight(rows, m.asset, equity), m.weight, false)
  }

  function Sells(rows: seq<Row>, moves: seq<Move>, equity: real, p: Params): seq<Order>
    requires equity > 0.0 && forall i :: 0 <= i < |moves| ==> moves[i].asset < |rows|
  {
    if |moves| == 0 then []
    else
      var before, m := Sells(rows, moves[..|moves| - 1], equity, p), moves[|moves| - 1];
      if m.notional < 0.0 && -m.notional >= p.minOrder then before + [SellOf(rows, m, equity)] else before
  }

  /** The buy a move becomes once the cash clamp has scaled it. */
  function BuyOf(rows: seq<Row>, m: Move, equity: real, scale: real): (o: Order)
    requires equity > 0.0 && m.asset < |rows|
    ensures o.asset == m.asset && !o.sell
  {
    var held, spend := Weight(rows, m.asset, equity), m.notional * scale;
    Order(m.asset, false, spend, held, held + spend / equity, scale < 1.0)
  }

  function Buys(rows: seq<Row>, moves: seq<Move>, equity: real, p: Params, scale: real): seq<Order>
    requires equity > 0.0 && forall i :: 0 <= i < |moves| ==> moves[i].asset < |rows|
  {
    if |moves| == 0 then []
    else
      var before, m := Buys(rows, moves[..|moves| - 1], equity, p, scale), moves[|moves| - 1];
      var order := BuyOf(rows, m, equity, scale);
      if m.notional > 0.0 && order.notional >= p.minOrder then before + [order] else before
  }

  function Total(orders: seq<Order>): real
  {
    if |orders| == 0 then 0.0 else Total(orders[..|orders| - 1]) + orders[|orders| - 1].notional
  }

  function Wanted(moves: seq<Move>): real
  {
    if |moves| == 0 then 0.0
    else Wanted(moves[..|moves| - 1]) + if moves[|moves| - 1].notional > 0.0 then moves[|moves| - 1].notional else 0.0
  }

  function Scale(want: real, spendable: real): real
  {
    if want <= spendable || want == 0.0 then 1.0 else spendable / want
  }

  /** One move an asset, in the order of the rows. */
  predicate InOrder(moves: seq<Move>, n: nat)
  {
    && (forall i :: 0 <= i < |moves| ==> moves[i].asset < n)
    && (forall i, j :: 0 <= i < j < |moves| ==> moves[i].asset < moves[j].asset)
  }

  lemma {:induction false} MovesInside(rows: seq<Row>, n: nat, equity: real, p: Params, q: Pressure)
    requires n <= |rows| && equity > 0.0
    ensures InOrder(Moves(rows, n, equity, p, q), n)
    ensures forall m :: m in Moves(rows, n, equity, p, q) ==> Some(m) == MoveOf(rows, m.asset, equity, p, q)
  {
    hide MoveOf;
    if n > 0 {
      MovesInside(rows, n - 1, equity, p, q);
    }
  }

  /** The orders of a plan: sells first, then buys scaled to the cash they free. */
  function Orders(rows: seq<Row>, cash: real, p: Params, q: Pressure): seq<Order>
  {
    var equity := Equity(rows, cash);
    if equity <= 0.0 then []
    else
      var moves := Moves(rows, |rows|, equity, p, q);
      MovesInside(rows, |rows|, equity, p, q);
      var sells := Sells(rows, moves, equity, p);
      if q.haltBuys then sells
      else sells + Buys(rows, moves, equity, p, Scale(Wanted(moves), Max(cash + Total(sells), 0.0)))
  }

  method Plan(rows: seq<Row>, cash: real, p: Params, q: Pressure) returns (orders: seq<Order>)
    ensures orders == Orders(rows, cash, p, q)
  {
    hide MoveOf;
    orders := [];
    var equity := cash;
    var i := 0;
    while i < |rows|
      invariant 0 <= i <= |rows| && equity == cash + Inventory(rows[..i])
    {
      assert rows[..i + 1][..i] == rows[..i];
      if rows[i].price > 0.0 {
        equity := equity + rows[i].units * rows[i].price;
      }
      i := i + 1;
    }
    assert rows[..|rows|] == rows;
    if equity <= 0.0 { return; }
    MovesInside(rows, |rows|, equity, p, q);
    var raw := CollectMoves(rows, equity, p, q);
    var freed;
    orders, freed := CollectSells(rows, raw, equity, p);
    if q.haltBuys { return; }
    var spendable := Max(cash + freed, 0.0);
    var buys := CollectBuys(rows, raw, equity, p, spendable);
    orders := orders + buys;
  }

  method CollectMoves(rows: seq<Row>, equity: real, p: Params, q: Pressure) returns (raw: seq<Move>)
    requires equity > 0.0
    ensures raw == Moves(rows, |rows|, equity, p, q)
  {
    hide Weight, Rate, Band, Notional, Aim;
    raw := [];
    for i := 0 to |rows|
      invariant raw == Moves(rows, i, equity, p, q)
    {
      if rows[i].Priced() {
        var held := Weight(rows, i, equity);
        var aim := Aim(held, rows[i].target, Rate(p, q));
        var band := Band(rows[i], q);
        var gap := held - aim;
        if Abs(gap) > band {
          var weight := Max(if gap > 0.0 then aim + band else aim - band, 0.0);
          raw := raw + [Move(i, weight, Notional(weight - held, equity))];
        }
      }
    }
  }

  method CollectSells(rows: seq<Row>, raw: seq<Move>, equity: real, p: Params) returns (sells: seq<Order>, freed: real)
    requires equity > 0.0 && forall i :: 0 <= i < |raw| ==> raw[i].asset < |rows|
    ensures sells == Sells(rows, raw, equity, p) && freed == Total(sells)
  {
    sells, freed := [], 0.0;
    for i := 0 to |raw|
      invariant sells == Sells(rows, raw[..i], equity, p) && freed == Total(sells)
    {
      assert raw[..i + 1][..i] == raw[..i];
      var m := raw[i];
      if m.notional < 0.0 && !(-m.notional < p.minOrder) {
        freed := freed + -m.notional;
        var order := SellOf(rows, m, equity);
        assert (sells + [order])[..|sells|] == sells;
        sells := sells + [order];
      }
    }
    assert raw[..|raw|] == raw;
  }

  method CollectBuys(rows: seq<Row>, raw: seq<Move>, equity: real, p: Params, spendable: real)
    returns (buys: seq<Order>)
    requires equity > 0.0 && spendable >= 0.0 && forall i :: 0 <= i < |raw| ==> raw[i].asset < |rows|
    ensures buys == Buys(rows, raw, equity, p, Scale(Wanted(raw), spendable))
  {
    hide BuyOf;
    var want := SumWanted(raw);
    var scale := if want <= spendable then 1.0 else spendable / want;
    buys := [];
    for i := 0 to |raw|
      invariant buys == Buys(rows, raw[..i], equity, p, scale)
    {
      assert raw[..i + 1][..i] == raw[..i];
      var m := raw[i];
      if m.notional > 0.0 {
        var order := BuyOf(rows, m, equity, scale);
        if !(order.notional < p.minOrder) {
          buys := buys + [order];
        }
      }
    }
    assert raw[..|raw|] == raw;
  }

  method SumWanted(raw: seq<Move>) returns (want: real)
    ensures want == Wanted(raw) && want >= 0.0
  {
    want := 0.0;
    for i := 0 to |raw|
      invariant want == Wanted(raw[..i]) && want >= 0.0
    {
      assert raw[..i + 1][..i] == raw[..i];
      if raw[i].notional > 0.0 {
        want := want + raw[i].notional;
      }
    }
    assert raw[..|raw|] == raw;
  }

  // ---------------------------------------------------------------- one asset

  /** The weight one plan leaves, where neither the minimum nor the cash clamp bites. */
  function StepWeight(held: real, target: real, rate: real, band: real): real
  {
    if InBand(held, target, rate, band) then held else BandEdge(held, target, rate, band)
  }

  /** For nonnegative holdings and targets the band edge is a nonnegative weight, on the way from the holding
      to the aim: the guard against a negative weight never binds. */
  lemma GuardNeverBinds(held: real, target: real, rate: real, band: real)
    requires held >= 0.0 && target >= 0.0 && 0.0 <= rate <= 1.0 && band >= 0.0
    requires !InBand(held, target, rate, band)
    ensures var edge := BandEdge(held, target, rate, band);
            && edge >= 0.0 && Max(edge, 0.0) == edge
            && (if held > Aim(held, target, rate) then Aim(held, target, rate) <= edge < held
                else held < edge <= Aim(held, target, rate))
  {
    AimBetween(held, target, rate);
  }

  lemma AimBetween(held: real, target: real, rate: real)
    requires 0.0 <= rate <= 1.0
    ensures held <= target ==> held <= Aim(held, target, rate) <= target
    ensures held >= target ==> target <= Aim(held, target, rate) <= held
  {
    if held <= target {
      TimesMonotone(target - held, 0.0, rate);
      TimesMonotone(target - held, rate, 1.0);
      assert rate * (target - held) == Times(target - held, rate);
    } else {
      TimesMonotone(held - target, 0.0, rate);
      TimesMonotone(held - target, rate, 1.0);
      assert rate * (target - held) == -Times(held - target, rate);
    }
  }

  function Distance(held: real, target: real): real { Abs(held - target) }

  /** The gap to the aim is the distance to the target times the rate: the band that matters is the code's
      band over the rate, wider than the band itself whenever the aim is slow. */
  lemma GapIsShare(held: real, target: real, rate: real)
    requires rate >= 0.0
    ensures Abs(held - Aim(held, target, rate)) == Times(rate, Distance(held, target))
  {
    assert held - Aim(held, target, rate) == rate * (held - target);
    if held >= target {
      TimesMonotone(rate, 0.0, held - target);
    } else {
      TimesMonotone(rate, 0.0, target - held);
    }
  }

  /** One frictionless step stays on the holding's side of the target, never moves away from it, and leaves
      the excess over band/rate multiplied by one minus the rate; it trades exactly when rate times distance
      exceeds the band. */
  lemma Contraction(held: real, target: real, rate: real, band: real)
    requires 0.0 < rate <= 1.0 && band >= 0.0
    ensures var after := StepWeight(held, target, rate, band);
            && (held >= target ==> after >= target) && (held <= target ==> after <= target)
            && Distance(after, target) <= Distance(held, target)
            && (after == held <==> Times(rate, Distance(held, target)) <= band)
            && (Times(rate, Distance(held, target)) > band ==>
                  Distance(after, target) == Times(1.0 - rate, Distance(held, target)) + band)
  {
    GapIsShare(held, target, rate);
    AimBetween(held, target, rate);
    assert Times(1.0 - rate, Distance(held, target)) == Distance(held, target) - Times(rate, Distance(held, target));
  }

  function Iterated(held: real, target: real, rate: real, band: real, n: nat): real
  {
    if n == 0 then held else StepWeight(Iterated(held, target, rate, band, n - 1), target, rate, band)
  }

  /** Closed form of repeated plans at fixed prices. From outside, the excess of the distance over band/rate is
      multiplied by (1 - rate) each time; so with a rate below one the book trades at every plan for ever,
      closing on band/rate and never on the band, while a rate of one is done after the first. */
  lemma {:induction false} RepeatedPlans(held: real, target: real, rate: real, band: real, n: nat)
    requires 0.0 < rate <= 1.0 && band >= 0.0 && Times(rate, Distance(held, target)) > band
    ensures Distance(Iterated(held, target, rate, band, n), target) - band / rate
            == Times(Pow(1.0 - rate, n), Distance(held, target) - band / rate)
    ensures rate < 1.0 || n == 0 ==> Iterated(held, target, rate, band, n + 1) != Iterated(held, target, rate, band, n)
    ensures rate == 1.0 && n > 0 ==> Iterated(held, target, rate, band, n + 1) == Iterated(held, target, rate, band, n)
  {
    hide StepWeight, Distance, Times, Pow;
    var e, x := Excess(held, target, rate, band), 1.0 - rate;
    ExcessStep(held, target, rate, band);
    PowScales(x, n, e);
    if n > 0 {
      RepeatedPlans(held, target, rate, band, n - 1);
      ExcessStep(Iterated(held, target, rate, band, n - 1), target, rate, band);
      PowScales(x, n - 1, e);
    }
    ExcessStep(Iterated(held, target, rate, band, n), target, rate, band);
  }

  function Excess(held: real, target: real, rate: real, band: real): real
    requires rate != 0.0
  {
    Distance(held, target) - band / rate
  }

  lemma ExcessStep(held: real, target: real, rate: real, band: real)
    requires 0.0 < rate <= 1.0 && band >= 0.0
    ensures var after, e := StepWeight(held, target, rate, band), Excess(held, target, rate, band);
            && (e > 0.0 <==> after != held) && (e > 0.0 <==> Times(rate, Distance(held, target)) > band)
            && (e > 0.0 ==> Excess(after, target, rate, band) == Times(1.0 - rate, e))
  {
    hide StepWeight, Distance;
    Contraction(held, target, rate, band);
    var d, edge := Distance(held, target), band / rate;
    assert Times(rate, edge) == band;
    assert Times(rate, d) - band == Times(rate, d - edge);
    if d > edge {
      assert Times(rate, d - edge) > 0.0;
    } else {
      TimesMonotone(rate, d - edge, 0.0);
    }
    assert Times(1.0 - rate, d) + band - edge == Times(1.0 - rate, d - edge);
  }

  lemma PowSign(x: real, n: nat)
    requires 0.0 <= x < 1.0
    ensures Pow(x, n) >= 0.0 && (x > 0.0 || n == 0 ==> Pow(x, n) > 0.0) && (x == 0.0 && n > 0 ==> Pow(x, n) == 0.0)
  {
  }

  lemma PowScales(x: real, n: nat, e: real)
    requires 0.0 <= x < 1.0 && e > 0.0
    ensures Times(x, Times(Pow(x, n), e)) == Times(Pow(x, n + 1), e)
    ensures if x > 0.0 || n == 0 then Times(Pow(x, n), e) > 0.0 else Times(Pow(x, n), e) == 0.0
    ensures n == 0 ==> Times(Pow(x, n), e) == e
  {
    PowSign(x, n);
    var k := Pow(x, n);
    assert Pow(x, n + 1) == k * x;
    assert x * (k * e) == (k * x) * e;
  }

  /** The size of a step is what is left of rate times distance after the band. */
  lemma StepSize(held: real, target: real, rate: real, band: real)
    requires 0.0 <= rate <= 1.0 && band >= 0.0
    ensures Abs(StepWeight(held, target, rate, band) - held) == Max(Times(rate, Distance(held, target)) - band, 0.0)
    ensures InBand(held, target, rate, band) <==> Times(rate, Distance(held, target)) <= band
    ensures !InBand(held, target, rate, band) ==> (StepWeight(held, target, rate, band) < held <==> held > target)
  {
    GapIsShare(held, target, rate);
    AimBetween(held, target, rate);
  }

  // ---------------------------------------------------------------- a whole plan

  /** What the book guarantees its planner: long-only holdings and targets, an aim between the two, bands. */
  predicate Sane(rows: seq<Row>, p: Params, q: Pressure)
  {
    && 0.0 <= Rate(p, q) <= 1.0 && q.bandMult >= 0.0
    && forall i :: 0 <= i < |rows| ==> rows[i].units >= 0.0 && rows[i].target >= 0.0 && rows[i].halfwidth >= 0.0
  }

  lemma HeldValue(rows: seq<Row>, i: nat, equity: real)
    requires i < |rows| && equity > 0.0
    ensures Notional(Weight(rows, i, equity), equity) == rows[i].units * rows[i].price
    ensures rows[i].units >= 0.0 && rows[i].price > 0.0 ==> Weight(rows, i, equity) >= 0.0
  {
    var value := rows[i].units * rows[i].price;
    assert (value / equity) * equity == value;
    if rows[i].units >= 0.0 && rows[i].price > 0.0 {
      TimesMonotone(rows[i].price, 0.0, rows[i].units);
      assert value >= 0.0;
    }
  }

  /** What a move is: the step of its asset, for a priced asset outside its band. */
  lemma MoveIsStep(rows: seq<Row>, i: nat, equity: real, p: Params, q: Pressure)
    requires i < |rows| && equity > 0.0 && Sane(rows, p, q) && rows[i].Priced()
    ensures var held, rate, band := Weight(rows, i, equity), Rate(p, q), Band(rows[i], q);
            var m, after := MoveOf(rows, i, equity, p, q), StepWeight(held, rows[i].target, rate, band);
            && (m.None? <==> after == held) && after >= 0.0 && band >= 0.0
            && (m.Some? ==> m.value.weight == after && m.value.notional == Notional(after - held, equity))
  {
    hide Weight, Rate, Notional;
    HeldValue(rows, i, equity);
    var held, rate, band := Weight(rows, i, equity), Rate(p, q), Band(rows[i], q);
    TimesMonotone(q.bandMult, 0.0, rows[i].halfwidth);
    if !InBand(held, rows[i].target, rate, band) {
      GuardNeverBinds(held, rows[i].target, rate, band);
    }
  }

  lemma NotionalFacts(a: real, equity: real)
    requires equity > 0.0
    ensures Notional(a, equity) / equity == a && Notional(-a, equity) == -Notional(a, equity)
    ensures (a < 0.0 ==> Notional(a, equity) < 0.0) && (a > 0.0 ==> Notional(a, equity) > 0.0)
    ensures a == 0.0 ==> Notional(a, equity) == 0.0
    ensures Abs(Notional(a, equity)) == Times(Abs(a), equity)
  {
    var n := a * equity;
    assert n / equity == a;
    if a < 0.0 { NegativeTimes(a, equity); }
  }

  /** Wider bands or a slower aim never enlarge a move, never turn it round, and never start one. */
  lemma PressureNeverEnlarges(rows: seq<Row>, i: nat, equity: real, p: Params, q: Pressure, harder: Pressure)
    requires i < |rows| && equity > 0.0 && Sane(rows, p, q) && p.aimRate >= 0.0
    requires harder.bandMult >= q.bandMult && 0.0 <= harder.aimMult <= q.aimMult
    ensures var m, n := MoveOf(rows, i, equity, p, q), MoveOf(rows, i, equity, p, harder);
            n.Some? ==> m.Some? && Abs(n.value.notional) <= Abs(m.value.notional)
                        && (n.value.notional < 0.0 <==> m.value.notional < 0.0)
  {
    hide Weight, StepWeight, Distance, Notional, Rate, Band;
    if rows[i].Priced() {
      var held, target := Weight(rows, i, equity), rows[i].target;
      PressureOrders(rows[i], p, q, harder);
      MoveIsStep(rows, i, equity, p, q);
      MoveIsStep(rows, i, equity, p, harder);
      SmallerStep(held, target, Rate(p, q), Band(rows[i], q), Rate(p, harder), Band(rows[i], harder));
      var step, small := StepWeight(held, target, Rate(p, q), Band(rows[i], q)) - held,
                         StepWeight(held, target, Rate(p, harder), Band(rows[i], harder)) - held;
      NotionalFacts(small, equity);
      NotionalFacts(step, equity);
      TimesMonotone(equity, Abs(small), Abs(step));
    }
  }

  lemma PressureOrders(row: Row, p: Params, q: Pressure, harder: Pressure)
    requires p.aimRate >= 0.0 && row.halfwidth >= 0.0
    requires harder.bandMult >= q.bandMult >= 0.0 && 0.0 <= harder.aimMult <= q.aimMult
    ensures 0.0 <= Rate(p, harder) <= Rate(p, q) && 0.0 <= Band(row, q) <= Band(row, harder)
  {
    TimesMonotone(p.aimRate, harder.aimMult, q.aimMult);
    TimesMonotone(p.aimRate, 0.0, harder.aimMult);
    TimesMonotone(row.halfwidth, q.bandMult, harder.bandMult);
    TimesMonotone(row.halfwidth, 0.0, q.bandMult);
  }

  /** A slower aim and a wider band take a smaller step the same way, or none. */
  lemma SmallerStep(held: real, target: real, rate: real, band: real, slower: real, wider: real)
    requires 0.0 <= slower <= rate <= 1.0 && 0.0 <= band <= wider
    ensures var step, small := StepWeight(held, target, rate, band) - held,
                               StepWeight(held, target, slower, wider) - held;
            Abs(small) <= Abs(step) && (small < 0.0 ==> step < 0.0) && (small > 0.0 ==> step > 0.0)
  {
    hide StepWeight, InBand;
    StepSize(held, target, rate, band);
    StepSize(held, target, slower, wider);
    TimesMonotone(Distance(held, target), slower, rate);
    assert StepWeight(held, target, slower, wider) == held || !InBand(held, target, slower, wider)
      by { InBandStays(held, target, slower, wider); }
    assert StepWeight(held, target, rate, band) == held || !InBand(held, target, rate, band)
      by { InBandStays(held, target, rate, band); }
  }

  lemma InBandStays(held: real, target: real, rate: real, band: real)
    ensures InBand(held, target, rate, band) ==> StepWeight(held, target, rate, band) == held
  {
  }

  /** An order of the plan comes from a move of its asset: a sell from a negative one, a buy, scaled, from a
      positive one. */
  predicate FromMove(rows: seq<Row>, o: Order, moves: seq<Move>, equity: real, scale: real)
    requires equity > 0.0
  {
    o.asset < |rows| &&
    exists m :: m in moves && m.asset == o.asset &&
      if o.sell then m.notional < 0.0 && o == SellOf(rows, m, equity)
      else m.notional > 0.0 && o == BuyOf(rows, m, equity, scale)
  }

  predicate Distinct(orders: seq<Order>)
  {
    forall i, j :: 0 <= i < j < |orders| ==> orders[i].asset != orders[j].asset
  }

  lemma FromMoveGrows(rows: seq<Row>, o: Order, init: seq<Move>, m: Move, equity: real, scale: real)
    requires equity > 0.0 && FromMove(rows, o, init, equity, scale)
    ensures FromMove(rows, o, init + [m], equity, scale)
  {
    hide SellOf, BuyOf;
    var x :| x in init && x.asset == o.asset &&
             if o.sell then x.notional < 0.0 && o == SellOf(rows, x, equity)
             else x.notional > 0.0 && o == BuyOf(rows, x, equity, scale);
    assert x in init + [m];
  }

  lemma {:induction false} SellsFromMoves(rows: seq<Row>, moves: seq<Move>, equity: real, p: Params)
    requires equity > 0.0 && forall i :: 0 <= i < |moves| ==> moves[i].asset < |rows|
    ensures forall o :: o in Sells(rows, moves, equity, p) ==> o.sell && FromMove(rows, o, moves, equity, 1.0)
  {
    hide BuyOf, SellOf, FromMove;
    if |moves| > 0 {
      var init, m := moves[..|moves| - 1], moves[|moves| - 1];
      SellsFromMoves(rows, init, equity, p);
      assert moves == init + [m];
      forall o | o in Sells(rows, moves, equity, p)
        ensures o.sell && FromMove(rows, o, moves, equity, 1.0)
      {
        if o in Sells(rows, init, equity, p) {
          FromMoveGrows(rows, o, init, m, equity, 1.0);
        } else {
          FromLast(rows, o, init, m, equity, 1.0);
        }
      }
    }
  }

  lemma FromLast(rows: seq<Row>, o: Order, init: seq<Move>, m: Move, equity: real, scale: real)
    requires equity > 0.0 && m.asset < |rows|
    requires (m.notional < 0.0 && o == SellOf(rows, m, equity)) ||
             (m.notional > 0.0 && o == BuyOf(rows, m, equity, scale))
    ensures FromMove(rows, o, init + [m], equity, scale)
  {
    assert m in init + [m];
  }

  lemma {:induction false} BuysFromMoves(rows: seq<Row>, moves: seq<Move>, equity: real, p: Params, scale: real)
    requires equity > 0.0 && forall i :: 0 <= i < |moves| ==> moves[i].asset < |rows|
    ensures forall o :: o in Buys(rows, moves, equity, p, scale) ==> !o.sell && FromMove(rows, o, moves, equity, scale)
  {
    hide BuyOf, SellOf, FromMove;
    if |moves| > 0 {
      var init, m := moves[..|moves| - 1], moves[|moves| - 1];
      BuysFromMoves(rows, init, equity, p, scale);
      assert moves == init + [m];
      forall o | o in Buys(rows, moves, equity, p, scale)
        ensures !o.sell && FromMove(rows, o, moves, equity, scale)
      {
        if o in Buys(rows, init, equity, p, scale) {
          FromMoveGrows(rows, o, init, m, equity, scale);
        } else {
          FromLast(rows, o, init, m, equity, scale);
        }
      }
    }
  }

  /** Orders built from moves in the order of the rows name each asset once. */
  lemma {:induction false} OnceEach(rows: seq<Row>, moves: seq<Move>, n: nat, equity: real, p: Params, scale: real)
    requires equity > 0.0 && n <= |rows| && InOrder(moves, n)
    ensures var sells, buys := Sells(rows, moves, equity, p), Buys(rows, moves, equity, p, scale);
            && Distinct(sells) && Distinct(buys)
            && (forall o :: o in sells + buys ==> o.asset < n)
  {
    hide BuyOf, SellOf;
    if |moves| > 0 {
      OnceEach(rows, moves[..|moves| - 1], moves[|moves| - 1].asset, equity, p, scale);
    }
  }

  /** The cash clamp's factor for the plan at hand. */
  function ScaleOf(rows: seq<Row>, cash: real, p: Params, q: Pressure): real
    requires Equity(rows, cash) > 0.0
  {
    var moves := Moves(rows, |rows|, Equity(rows, cash), p, q);
    MovesInside(rows, |rows|, Equity(rows, cash), p, q);
    Scale(Wanted(moves), Max(cash + Total(Sells(rows, moves, Equity(rows, cash), p)), 0.0))
  }

  /** Every order of the plan comes from the one move of its asset, and no asset is ordered twice. */
  lemma OrdersFromMoves(rows: seq<Row>, cash: real, p: Params, q: Pressure)
    requires Equity(rows, cash) > 0.0
    ensures var orders, equity := Orders(rows, cash, p, q), Equity(rows, cash);
            var moves := Moves(rows, |rows|, equity, p, q);
            && Distinct(orders) && InOrder(moves, |rows|)
            && forall o :: o in orders ==> FromMove(rows, o, moves, equity, ScaleOf(rows, cash, p, q))
  {
    hide BuyOf, SellOf, MoveOf, Scale;
    var equity := Equity(rows, cash);
    var moves := Moves(rows, |rows|, equity, p, q);
    MovesInside(rows, |rows|, equity, p, q);
    var sells, buys := Sells(rows, moves, equity, p), Buys(rows, moves, equity, p, ScaleOf(rows, cash, p, q));
    SellsFromMoves(rows, moves, equity, p);
    BuysFromMoves(rows, moves, equity, p, ScaleOf(rows, cash, p, q));
    OnceEach(rows, moves, |rows|, equity, p, ScaleOf(rows, cash, p, q));
    forall i, j | 0 <= i < |sells| && 0 <= j < |buys|
      ensures sells[i].asset != buys[j].asset
    {
      assert sells[i] in sells && buys[j] in buys;
      OneSide(rows, sells[i], buys[j], moves, equity, ScaleOf(rows, cash, p, q));
    }
  }

  /** An asset has one move, so it is sold or bought, not both. */
  lemma OneSide(rows: seq<Row>, a: Order, b: Order, moves: seq<Move>, equity: real, scale: real)
    requires equity > 0.0 && InOrder(moves, |rows|)
    requires a.sell && FromMove(rows, a, moves, equity, 1.0) && !b.sell && FromMove(rows, b, moves, equity, scale)
    ensures a.asset != b.asset
  {
    hide BuyOf, SellOf;
    var m :| m in moves && m.asset == a.asset && m.notional < 0.0;
    var n :| n in moves && n.asset == b.asset && n.notional > 0.0;
  }

  /** No sell exceeds the value held. */
  lemma SellsWithinHoldings(rows: seq<Row>, cash: real, p: Params, q: Pressure, o: Order)
    requires Equity(rows, cash) > 0.0 && Sane(rows, p, q) && o in Orders(rows, cash, p, q) && o.sell
    ensures o.asset < |rows| && rows[o.asset].Priced()
    ensures 0.0 < o.notional <= rows[o.asset].units * rows[o.asset].price
  {
    hide Orders, Moves, Weight, StepWeight, MoveOf, Notional, Rate, Band, BuyOf;
    var equity := Equity(rows, cash);
    OrdersFromMoves(rows, cash, p, q);
    var moves := Moves(rows, |rows|, equity, p, q);
    var m :| m in moves && m.asset == o.asset && m.notional < 0.0 && o == SellOf(rows, m, equity);
    MovesInside(rows, |rows|, equity, p, q);
    MoveIsStep(rows, o.asset, equity, p, q);
    HeldValue(rows, o.asset, equity);
    SellBound(Weight(rows, o.asset, equity), m.weight, equity);
  }

  lemma SellBound(held: real, after: real, equity: real)
    requires after >= 0.0 && equity > 0.0
    ensures -Notional(after - held, equity) <= Notional(held, equity)
  {
    TimesMonotone(equity, -held, after - held);
  }

  lemma {:induction false} BuysTotal(rows: seq<Row>, moves: seq<Move>, equity: real, p: Params, scale: real)
    requires equity > 0.0 && scale >= 0.0 && forall i :: 0 <= i < |moves| ==> moves[i].asset < |rows|
    ensures 0.0 <= Total(Buys(rows, moves, equity, p, scale)) <= Times(scale, Wanted(moves)) && Wanted(moves) >= 0.0
  {
    hide Weight;
    if |moves| > 0 {
      var m := moves[|moves| - 1];
      BuysTotal(rows, moves[..|moves| - 1], equity, p, scale);
      if m.notional > 0.0 {
        TimesMonotone(scale, 0.0, m.notional);
        assert Times(scale, Wanted(moves)) == Times(scale, Wanted(moves[..|moves| - 1])) + Times(scale, m.notional);
        var buys := Buys(rows, moves[..|moves| - 1], equity, p, scale);
        assert (buys + [BuyOf(rows, m, equity, scale)])[..|buys|] == buys;
      }
    }
  }

  lemma {:induction false} SellsTotal(rows: seq<Row>, moves: seq<Move>, equity: real, p: Params)
    requires equity > 0.0 && forall i :: 0 <= i < |moves| ==> moves[i].asset < |rows|
    ensures Total(Sells(rows, moves, equity, p)) >= 0.0
  {
    hide Weight;
    if |moves| > 0 {
      SellsTotal(rows, moves[..|moves| - 1], equity, p);
      var sells := Sells(rows, moves[..|moves| - 1], equity, p);
      assert (sells + [SellOf(rows, moves[|moves| - 1], equity)])[..|sells|] == sells;
    }
  }

  lemma ScaleFits(want: real, spendable: real)
    requires want >= 0.0 && spendable >= 0.0
    ensures 0.0 <= Scale(want, spendable) <= 1.0 && Times(Scale(want, spendable), want) <= spendable
  {
    if want > spendable {
      var x := spendable / want;
      assert Times(x, want) == spendable;
      if x > 1.0 { TimesMonotone(want, 1.0, x); }
      if x < 0.0 { NegativeTimes(x, want); }
    }
  }

  function Bought(orders: seq<Order>): real
  {
    if |orders| == 0 then 0.0
    else Bought(orders[..|orders| - 1]) + if orders[|orders| - 1].sell then 0.0 else orders[|orders| - 1].notional
  }

  function Sold(orders: seq<Order>): real
  {
    if |orders| == 0 then 0.0
    else Sold(orders[..|orders| - 1]) + if orders[|orders| - 1].sell then orders[|orders| - 1].notional else 0.0
  }

  lemma {:induction false} OneKind(orders: seq<Order>, sell: bool)
    requires forall o :: o in orders ==> o.sell == sell
    ensures Sold(orders) == (if sell then Total(orders) else 0.0) &&
            Bought(orders) == (if sell then 0.0 else Total(orders))
  {
    if |orders| > 0 {
      OneKind(orders[..|orders| - 1], sell);
    }
  }

  lemma {:induction false} SplitAppend(a: seq<Order>, b: seq<Order>)
    ensures Sold(a + b) == Sold(a) + Sold(b) && Bought(a + b) == Bought(a) + Bought(b)
  {
    if |b| == 0 {
      assert a + b == a;
    } else {
      SplitAppend(a, b[..|b| - 1]);
      assert (a + b)[..|a + b| - 1] == a + b[..|b| - 1];
    }
  }

  /** All the buys of a plan together spend at most the cash there is plus what the emitted sells free; an
      account in debt buys nothing beyond its sells' surplus. */
  lemma BuysAreFunded(rows: seq<Row>, cash: real, p: Params, q: Pressure)
    ensures var orders := Orders(rows, cash, p, q);
            0.0 <= Bought(orders) <= Max(cash + Sold(orders), 0.0) && Sold(orders) >= 0.0
  {
    hide Moves, Buys, Sells, Total, Wanted, Scale;
    var equity := Equity(rows, cash);
    if equity > 0.0 {
      MovesInside(rows, |rows|, equity, p, q);
      var moves := Moves(rows, |rows|, equity, p, q);
      var sells := Sells(rows, moves, equity, p);
      var spendable := Max(cash + Total(sells), 0.0);
      var scale := Scale(Wanted(moves), spendable);
      var buys := Buys(rows, moves, equity, p, scale);
      SellsFromMoves(rows, moves, equity, p);
      OneKind(sells, true);
      SellsTotal(rows, moves, equity, p);
      BuysTotal(rows, moves, equity, p, 1.0);
      ScaleFits(Wanted(moves), spendable);
      BuysTotal(rows, moves, equity, p, scale);
      BuysFromMoves(rows, moves, equity, p, scale);
      OneKind(buys, false);
      SplitAppend(sells, buys);
    }
  }

  /** Halting buys leaves the sells as they are: the halted plan is the free plan without its buys. */
  lemma HaltKeepsSells(rows: seq<Row>, cash: real, p: Params, q: Pressure)
    ensures var halted, free := Orders(rows, cash, p, q.(haltBuys := true)),
                               Orders(rows, cash, p, q.(haltBuys := false));
            && halted <= free
            && (forall i :: 0 <= i < |halted| ==> halted[i].sell)
            && (forall i :: |halted| <= i < |free| ==> !free[i].sell)
  {
    hide Buys, Sells, Moves, Scale;
    var equity := Equity(rows, cash);
    if equity > 0.0 {
      var free := q.(haltBuys := false);
      SameMoves(rows, |rows|, equity, p, q.(haltBuys := true), free);
      MovesInside(rows, |rows|, equity, p, free);
      var moves := Moves(rows, |rows|, equity, p, free);
      SellsFromMoves(rows, moves, equity, p);
      BuysFromMoves(rows, moves, equity, p,
                    Scale(Wanted(moves), Max(cash + Total(Sells(rows, moves, equity, p)), 0.0)));
    }
  }

  lemma {:induction false} SameMoves(rows: seq<Row>, n: nat, equity: real, p: Params, q: Pressure, r: Pressure)
    requires n <= |rows| && equity > 0.0 && q.bandMult == r.bandMult && q.aimMult == r.aimMult
    ensures Moves(rows, n, equity, p, q) == Moves(rows, n, equity, p, r)
  {
    hide MoveOf;
    if n > 0 {
      SameMoves(rows, n - 1, equity, p, q, r);
      SameMove(rows, n - 1, equity, p, q, r);
    }
  }

  lemma SameMove(rows: seq<Row>, i: nat, equity: real, p: Params, q: Pressure, r: Pressure)
    requires i < |rows| && equity > 0.0 && q.bandMult == r.bandMult && q.aimMult == r.aimMult
    ensures MoveOf(rows, i, equity, p, q) == MoveOf(rows, i, equity, p, r)
  {
    hide Weight, InBand, BandEdge, Notional;
    assert Rate(p, q) == Rate(p, r) && Band(rows[i], q) == Band(rows[i], r);
  }

  // ---------------------------------------------------------------- settling a plan

  /** Filling an order at the plan's price, without friction. */
  function Filled(rows: seq<Row>, o: Order): (r: seq<Row>)
    requires o.asset < |rows| && rows[o.asset].Priced()
    ensures |r| == |rows|
  {
    var row := rows[o.asset];
    var traded := o.notional / row.price;
    rows[o.asset := row.(units := if o.sell then row.units - traded else row.units + traded)]
  }

  predicate Fillable(rows: seq<Row>, orders: seq<Order>)
  {
    forall o :: o in orders ==> o.asset < |rows| && rows[o.asset].Priced()
  }

  function Settled(rows: seq<Row>, orders: seq<Order>): (r: seq<Row>)
    requires Fillable(rows, orders)
    ensures |r| == |rows|
    ensures forall i :: 0 <= i < |rows| ==>
              r[i].price == rows[i].price && r[i].target == rows[i].target && r[i].halfwidth == rows[i].halfwidth
  {
    if |orders| == 0 then rows
    else
      assert orders[|orders| - 1] in orders;
      Filled(Settled(rows, orders[..|orders| - 1]), orders[|orders| - 1])
  }

  function CashAfter(cash: real, orders: seq<Order>): real { cash + Sold(orders) - Bought(orders) }

  lemma {:induction false} InventoryUpdate(rows: seq<Row>, i: nat, row: Row)
    requires i < |rows|
    ensures Inventory(rows[i := row]) == Inventory(rows) - Value(rows[i]) + Value(row)
  {
    hide Value;
    var n := |rows| - 1;
    if i < n {
      InventoryUpdate(rows[..n], i, row);
      assert rows[i := row][..n] == rows[..n][i := row];
    } else {
      assert rows[i := row][..n] == rows[..n];
    }
  }

  /** Settling any fillable orders at their prices preserves the equity of the book. */
  lemma {:induction false} EquityPreserved(rows: seq<Row>, cash: real, orders: seq<Order>)
    requires Fillable(rows, orders)
    ensures Equity(Settled(rows, orders), CashAfter(cash, orders)) == Equity(rows, cash)
  {
    hide Value, Inventory;
    if |orders| > 0 {
      var init, o := orders[..|orders| - 1], orders[|orders| - 1];
      assert o in orders;
      EquityPreserved(rows, cash, init);
      var before := Settled(rows, init);
      InventoryUpdate(before, o.asset, Filled(before, o)[o.asset]);
      FilledValue(before, o);
    }
  }

  lemma FilledValue(rows: seq<Row>, o: Order)
    requires o.asset < |rows| && rows[o.asset].Priced()
    ensures Value(Filled(rows, o)[o.asset]) == Value(rows[o.asset]) + if o.sell then -o.notional else o.notional
  {
    var row := rows[o.asset];
    var traded := o.notional / row.price;
    assert traded * row.price == o.notional;
    assert (row.units - traded) * row.price == row.units * row.price - traded * row.price;
    assert (row.units + traded) * row.price == row.units * row.price + traded * row.price;
  }

  /** Among distinct orders an asset's holding is changed by its own order only. */
  lemma {:induction false} SettledAt(rows: seq<Row>, orders: seq<Order>, i: nat)
    requires Fillable(rows, orders) && Distinct(orders) && i < |rows|
    ensures (forall o :: o in orders ==> o.asset != i) ==> Settled(rows, orders)[i] == rows[i]
    ensures forall o :: o in orders && o.asset == i ==> Settled(rows, orders)[i] == Filled(rows, o)[i]
  {
    if |orders| > 0 {
      var init, last := orders[..|orders| - 1], orders[|orders| - 1];
      assert last in orders && forall o :: o in init ==> o in orders && o.asset != last.asset;
      SettledAt(rows, init, i);
      forall o | o in orders && o.asset == i
        ensures Settled(rows, orders)[i] == Filled(rows, o)[i]
      {
        if o in init {
        } else {
          assert o == last;
        }
      }
    }
  }

  lemma OrdersAreFillable(rows: seq<Row>, cash: real, p: Params, q: Pressure)
    ensures Fillable(rows, Orders(rows, cash, p, q))
  {
    hide Orders, MoveOf, Moves, BuyOf, SellOf;
    if Equity(rows, cash) > 0.0 {
      OrdersFromMoves(rows, cash, p, q);
      MovesInside(rows, |rows|, Equity(rows, cash), p, q);
    } else {
      assert Orders(rows, cash, p, q) == [] by { NoEquityNoOrders(rows, cash, p, q); }
    }
  }

  lemma NoEquityNoOrders(rows: seq<Row>, cash: real, p: Params, q: Pressure)
    ensures Equity(rows, cash) <= 0.0 ==> Orders(rows, cash, p, q) == []
  {
  }

  /** The book after its plan is settled. */
  function After(rows: seq<Row>, cash: real, p: Params, q: Pressure): seq<Row>
  {
    OrdersAreFillable(rows, cash, p, q);
    Settled(rows, Orders(rows, cash, p, q))
  }

  /** Settling a plan at its prices: the equity is preserved, no holding and no cash balance goes below zero. */
  lemma SettledPlanIsSound(rows: seq<Row>, cash: real, p: Params, q: Pressure)
    requires Sane(rows, p, q)
    ensures var orders, after := Orders(rows, cash, p, q), After(rows, cash, p, q);
            && Equity(after, CashAfter(cash, orders)) == Equity(rows, cash)
            && (cash >= 0.0 ==> CashAfter(cash, orders) >= 0.0)
            && (forall i :: 0 <= i < |rows| ==> after[i].units >= 0.0) && Sane(after, p, q)
  {
    hide Orders, Equity, MoveOf, Weight, Rate, Sold, Bought, Inventory;
    assert Sold([]) == 0.0 && Bought([]) == 0.0 by { NothingTraded(); }
    var orders := Orders(rows, cash, p, q);
    OrdersAreFillable(rows, cash, p, q);
    EquityPreserved(rows, cash, orders);
    BuysAreFunded(rows, cash, p, q);
    NoEquityNoOrders(rows, cash, p, q);
    if Equity(rows, cash) > 0.0 {
      OrdersFromMoves(rows, cash, p, q);
      forall i | 0 <= i < |rows|
        ensures Settled(rows, orders)[i].units >= 0.0
      {
        SettledAt(rows, orders, i);
        if exists o :: o in orders && o.asset == i {
          var o :| o in orders && o.asset == i;
          OrderKeepsUnits(rows, cash, p, q, o);
        }
      }
    }
  }

  lemma NothingTraded()
    ensures Sold([]) == 0.0 && Bought([]) == 0.0
  {
  }

  lemma OrderKeepsUnits(rows: seq<Row>, cash: real, p: Params, q: Pressure, o: Order)
    requires Sane(rows, p, q) && Equity(rows, cash) > 0.0 && o in Orders(rows, cash, p, q)
    ensures o.asset < |rows| && rows[o.asset].Priced() && Filled(rows, o)[o.asset].units >= 0.0
  {
    hide Orders, Equity, Moves, MoveOf, Weight, Rate, Scale;
    OrdersAreFillable(rows, cash, p, q);
    var row, equity := rows[o.asset], Equity(rows, cash);
    if o.sell {
      SellsWithinHoldings(rows, cash, p, q, o);
      Quotient(o.notional, row.units, row.price);
    } else {
      OrdersFromMoves(rows, cash, p, q);
      var m :| m in Moves(rows, |rows|, equity, p, q) && m.notional > 0.0 &&
               o == BuyOf(rows, m, equity, ScaleOf(rows, cash, p, q));
      ScaleNonNegative(rows, cash, p, q);
      TimesMonotone(m.notional, 0.0, ScaleOf(rows, cash, p, q));
      Quotient(0.0, o.notional / row.price, row.price);
      assert (o.notional / row.price) * row.price == o.notional;
    }
  }

  lemma ScaleNonNegative(rows: seq<Row>, cash: real, p: Params, q: Pressure)
    requires Equity(rows, cash) > 0.0
    ensures ScaleOf(rows, cash, p, q) >= 0.0
  {
    hide Moves, Sells, Scale;
    var moves, equity := Moves(rows, |rows|, Equity(rows, cash), p, q), Equity(rows, cash);
    MovesInside(rows, |rows|, equity, p, q);
    BuysTotal(rows, moves, equity, p, 1.0);
    ScaleFits(Wanted(moves), Max(cash + Total(Sells(rows, moves, equity, p)), 0.0));
  }

  lemma Quotient(n: real, units: real, price: real)
    requires price > 0.0
    ensures n <= units * price ==> n / price <= units
  {
    var x := n / price;
    assert x * price == n;
    if x > units { StrictTimes(price, units, x); }
  }

  // ---------------------------------------------------------------- repeated plans of the whole book

  /** Nothing clamps the plan: buys allowed, every move at or above the minimum, and cash for all the buys. */
  predicate Frictionless(rows: seq<Row>, cash: real, p: Params, q: Pressure)
  {
    && Equity(rows, cash) > 0.0 && !q.haltBuys
    && (forall m :: m in Moves(rows, |rows|, Equity(rows, cash), p, q) ==> Abs(m.notional) >= p.minOrder)
    && ScaleOf(rows, cash, p, q) == 1.0
  }

  lemma {:induction false} MovesComplete(rows: seq<Row>, n: nat, equity: real, p: Params, q: Pressure, i: nat)
    requires i < n <= |rows| && equity > 0.0
    ensures MoveOf(rows, i, equity, p, q).Some? ==> MoveOf(rows, i, equity, p, q).value in Moves(rows, n, equity, p, q)
  {
    hide MoveOf;
    if i < n - 1 {
      MovesComplete(rows, n - 1, equity, p, q, i);
    }
  }

  lemma {:induction false} MovesAreOrdered(rows: seq<Row>, moves: seq<Move>, equity: real, p: Params, m: Move)
    requires equity > 0.0 && (forall i :: 0 <= i < |moves| ==> moves[i].asset < |rows|) && m in moves
    requires forall x :: x in moves ==> Abs(x.notional) >= p.minOrder
    ensures m.notional < 0.0 ==> SellOf(rows, m, equity) in Sells(rows, moves, equity, p)
    ensures m.notional > 0.0 ==> BuyOf(rows, m, equity, 1.0) in Buys(rows, moves, equity, p, 1.0)
  {
    hide Weight;
    if m != moves[|moves| - 1] {
      assert m in moves[..|moves| - 1];
      MovesAreOrdered(rows, moves[..|moves| - 1], equity, p, m);
    }
  }

  /** One frictionless plan, settled, moves every priced weight by exactly its own step. */
  lemma FrictionlessStep(rows: seq<Row>, cash: real, p: Params, q: Pressure, i: nat)
    requires Sane(rows, p, q) && Frictionless(rows, cash, p, q) && i < |rows| && rows[i].Priced()
    ensures Weight(After(rows, cash, p, q), i, Equity(rows, cash))
            == StepWeight(Weight(rows, i, Equity(rows, cash)), rows[i].target, Rate(p, q), Band(rows[i], q))
  {
    hide Weight, StepWeight, MoveOf, Moves, Sells, Buys, Notional, Equity, Rate, Scale, SellOf, BuyOf;
    var equity := Equity(rows, cash);
    var moves, m := Moves(rows, |rows|, equity, p, q), MoveOf(rows, i, equity, p, q);
    var orders, held := Orders(rows, cash, p, q), Weight(rows, i, equity);
    OrdersAreFillable(rows, cash, p, q);
    OrdersFromMoves(rows, cash, p, q);
    MovesInside(rows, |rows|, equity, p, q);
    MovesComplete(rows, |rows|, equity, p, q, i);
    MoveIsStep(rows, i, equity, p, q);
    SettledAt(rows, orders, i);
    if m.None? {
      assert forall o :: o in orders ==> o.asset != i;
      SameWeight(After(rows, cash, p, q), rows, i, equity);
    } else {
      MovesAreOrdered(rows, moves, equity, p, m.value);
      NotionalFacts(m.value.weight - held, equity);
      var o := if m.value.notional < 0.0 then SellOf(rows, m.value, equity) else BuyOf(rows, m.value, equity, 1.0);
      assert o in orders;
      FilledWeight(rows, i, m.value, equity);
      SameWeight(After(rows, cash, p, q), Filled(rows, o), i, equity);
    }
  }

  lemma SameWeight(a: seq<Row>, b: seq<Row>, i: nat, equity: real)
    requires i < |a| && i < |b| && a[i] == b[i] && equity > 0.0
    ensures Weight(a, i, equity) == Weight(b, i, equity)
  {
  }

  lemma FilledWeight(rows: seq<Row>, i: nat, m: Move, equity: real)
    requires i < |rows| && m.asset == i && rows[i].Priced() && equity > 0.0
    ensures var o := if m.notional < 0.0 then SellOf(rows, m, equity) else BuyOf(rows, m, equity, 1.0);
            o.asset == i && Weight(Filled(rows, o), i, equity) == Weight(rows, i, equity) + m.notional / equity
  {
    var units, price, n := rows[i].units, rows[i].price, m.notional;
    var traded := n / price;
    assert traded * price == n;
    assert (units + traded) * price == units * price + n;
    assert (units * price + n) / equity == units * price / equity + n / equity;
    assert (-n) / price == -traded by { assert (-traded) * price == -n; }
    assert units - (-n) / price == units + traded;
  }

  /** The book after `n` plans at fixed prices, each settled before the next. */
  function RowsAfter(rows: seq<Row>, cash: real, p: Params, q: Pressure, n: nat): seq<Row>
  {
    if n == 0 then rows
    else After(RowsAfter(rows, cash, p, q, n - 1), CashAt(rows, cash, p, q, n - 1), p, q)
  }

  function CashAt(rows: seq<Row>, cash: real, p: Params, q: Pressure, n: nat): real
  {
    if n == 0 then cash
    else
      var before := CashAt(rows, cash, p, q, n - 1);
      CashAfter(before, Orders(RowsAfter(rows, cash, p, q, n - 1), before, p, q))
  }

  predicate FrictionlessFor(rows: seq<Row>, cash: real, p: Params, q: Pressure, n: nat)
  {
    n == 0 || (FrictionlessFor(rows, cash, p, q, n - 1)
               && Frictionless(RowsAfter(rows, cash, p, q, n - 1), CashAt(rows, cash, p, q, n - 1), p, q))
  }

  /** Repeated plans of a whole book at fixed prices, as long as nothing clamps them, move each weight by its
      own iteration, whatever the other assets do; the equity never moves. With RepeatedPlans this is the
      closed form of the convergence of the book. */
  lemma {:induction false} BookContracts(rows: seq<Row>, cash: real, p: Params, q: Pressure, n: nat)
    requires Sane(rows, p, q) && Equity(rows, cash) > 0.0 && FrictionlessFor(rows, cash, p, q, n)
    ensures var after := RowsAfter(rows, cash, p, q, n);
            && |after| == |rows| && Sane(after, p, q)
            && Equity(after, CashAt(rows, cash, p, q, n)) == Equity(rows, cash)
            && (forall i :: 0 <= i < |rows| ==>
                  after[i].price == rows[i].price && after[i].target == rows[i].target &&
                  after[i].halfwidth == rows[i].halfwidth)
            && (forall i :: 0 <= i < |rows| && rows[i].Priced() ==>
                  Weight(after, i, Equity(rows, cash))
                  == Iterated(Weight(rows, i, Equity(rows, cash)), rows[i].target, Rate(p, q), Band(rows[i], q), n))
  {
    hide Weight, StepWeight, Equity, Rate, Orders, Frictionless, Sane, Band;
    if n > 0 {
      BookContracts(rows, cash, p, q, n - 1);
      var before, money := RowsAfter(rows, cash, p, q, n - 1), CashAt(rows, cash, p, q, n - 1);
      SettledPlanIsSound(before, money, p, q);
      OrdersAreFillable(before, money, p, q);
      forall i | 0 <= i < |rows| && rows[i].Priced()
        ensures Weight(RowsAfter(rows, cash, p, q, n), i, Equity(rows, cash))
             == Iterated(Weight(rows, i, Equity(rows, cash)), rows[i].target, Rate(p, q), Band(rows[i], q), n)
      {
        SameBand(before[i], rows[i], q);
        FrictionlessStep(before, money, p, q, i);
      }
    }
  }

  lemma SameBand(a: Row, b: Row, q: Pressure)
    requires a.halfwidth == b.halfwidth
    ensures Band(a, q) == Band(b, q)
  {
  }

  // ---------------------------------------------------------------- pressure and tilts

  /** Where each stress term starts to bite; the configuration guard keeps the thresholds positive. */
  datatype Limits = Limits(minFill: real, adverse: real, volShock: real, brake: real, maxBand: real, minAim: real) {
    predicate Valid() { minFill > 0.0 && adverse > 0.0 && volShock > 0.0 && maxBand >= 1.0 && 0.0 < minAim <= 1.0 }
  }

  /** The observed stress; None is not observed. */
  datatype Stress = Stress(fillRatio: Option<real>, markout: Option<real>, volRatio: Option<real>,
                           drawdown: Option<real>)

  /** How far an observation is beyond its threshold, as a share of it. */
  function Over(seen: real, limit: real): real
    requires limit != 0.0
  {
    (seen - limit) / limit
  }

  function Strain(s: Stress, lim: Limits): real
    requires lim.Valid()
  {
    (if s.fillRatio.Some? && s.fillRatio.value < lim.minFill then -Over(s.fillRatio.value, lim.minFill) else 0.0) +
    (if s.markout.Some? && s.markout.value < -lim.adverse then Over(-s.markout.value, lim.adverse) else 0.0) +
    (if s.volRatio.Some? && s.volRatio.value > lim.volShock then Over(s.volRatio.value, lim.volShock) else 0.0)
  }

  function PressureFrom(s: Stress, lim: Limits): Pressure
    requires lim.Valid()
  {
    StrainIsPositive(s, lim);
    Pressure(Min(1.0 + Strain(s, lim), lim.maxBand), Max(1.0 / (1.0 + Strain(s, lim)), lim.minAim),
             s.drawdown.Some? && s.drawdown.value >= lim.brake)
  }

  lemma OverOrders(a: real, b: real, limit: real)
    requires limit > 0.0 && a <= b
    ensures Over(a, limit) <= Over(b, limit) && (a >= limit ==> Over(a, limit) >= 0.0) &&
            (a <= limit ==> Over(a, limit) <= 0.0)
    ensures a > limit ==> Over(a, limit) > 0.0
    ensures a < limit ==> Over(a, limit) < 0.0
  {
    var x, y := Over(a, limit), Over(b, limit);
    assert x * limit == a - limit && y * limit == b - limit;
    if x > y { StrictTimes(limit, y, x); }
    if x <= 0.0 { TimesMonotone(limit, x, 0.0); }
    if x >= 0.0 { TimesMonotone(limit, 0.0, x); }
  }

  lemma StrainIsPositive(s: Stress, lim: Limits)
    requires lim.Valid()
    ensures Strain(s, lim) >= 0.0
  {
    WorseStrain(s, s, lim);
  }

  /** Worse: every observation of `s` is there in `t`, and at least as bad. */
  predicate Worse(s: Stress, t: Stress)
  {
    && (s.fillRatio.Some? ==> t.fillRatio.Some? && t.fillRatio.value <= s.fillRatio.value)
    && (s.markout.Some? ==> t.markout.Some? && t.markout.value <= s.markout.value)
    && (s.volRatio.Some? ==> t.volRatio.Some? && t.volRatio.value >= s.volRatio.value)
    && (s.drawdown.Some? ==> t.drawdown.Some? && t.drawdown.value >= s.drawdown.value)
  }

  lemma WorseStrain(s: Stress, t: Stress, lim: Limits)
    requires lim.Valid() && Worse(s, t)
    ensures 0.0 <= Strain(s, lim) <= Strain(t, lim)
  {
    hide Over;
    if t.fillRatio.Some? {
      OverOrders(t.fillRatio.value, t.fillRatio.value, lim.minFill);
      if s.fillRatio.Some? {
        OverOrders(s.fillRatio.value, s.fillRatio.value, lim.minFill);
        OverOrders(t.fillRatio.value, s.fillRatio.value, lim.minFill);
      }
    }
    if t.markout.Some? {
      OverOrders(-t.markout.value, -t.markout.value, lim.adverse);
      if s.markout.Some? {
        OverOrders(-s.markout.value, -t.markout.value, lim.adverse);
      }
    }
    if t.volRatio.Some? {
      OverOrders(t.volRatio.value, t.volRatio.value, lim.volShock);
      if s.volRatio.Some? {
        OverOrders(s.volRatio.value, t.volRatio.value, lim.volShock);
      }
    }
  }

  /** The overlay only ever does less: it is at most neutral, bounded, and worse stress never brings activity
      back. With PressureNeverEnlarges and HaltKeepsSells: stress shrinks moves and stops buys, and leaves
      the selling of what is sold to the bands alone. */
  lemma StressOnlyBrakes(s: Stress, t: Stress, lim: Limits)
    requires lim.Valid() && Worse(s, t)
    ensures var p, q := PressureFrom(s, lim), PressureFrom(t, lim);
            && 1.0 <= p.bandMult <= q.bandMult <= lim.maxBand
            && lim.minAim <= q.aimMult <= p.aimMult <= 1.0
            && (p.haltBuys ==> q.haltBuys)
  {
    hide Strain;
    WorseStrain(s, t, lim);
    Reciprocal(1.0, 1.0 + Strain(s, lim));
    Reciprocal(1.0 + Strain(s, lim), 1.0 + Strain(t, lim));
  }

  /** What the overlay is. With `a`, `b` and `c` how far fill ratio, markout and volatility ratio are beyond their
      thresholds as shares of them, zero for one that is within or not observed: the bands widen by their sum, the
      aim slows by one plus it, each up to its limit, and buys halt exactly at the drawdown brake. Within all
      thresholds it is neutral. */
  lemma PressureExact(s: Stress, lim: Limits, a: real, b: real, c: real)
    requires lim.Valid()
    requires a * lim.minFill == if s.fillRatio.Some? then Max(lim.minFill - s.fillRatio.value, 0.0) else 0.0
    requires b * lim.adverse == if s.markout.Some? then Max(-s.markout.value - lim.adverse, 0.0) else 0.0
    requires c * lim.volShock == if s.volRatio.Some? then Max(s.volRatio.value - lim.volShock, 0.0) else 0.0
    ensures var p, strain := PressureFrom(s, lim), a + b + c;
            && strain >= 0.0 && p.bandMult == (if 1.0 + strain <= lim.maxBand then 1.0 + strain else lim.maxBand)
            && (p.aimMult == lim.minAim || p.aimMult * (1.0 + strain) == 1.0)
            && (p.aimMult == lim.minAim || p.aimMult > lim.minAim)
            && (lim.minAim * (1.0 + strain) <= 1.0 ==> p.aimMult * (1.0 + strain) == 1.0)
            && (p.haltBuys <==> s.drawdown.Some? && s.drawdown.value >= lim.brake)
            && (strain == 0.0 ==> p.bandMult == 1.0 && p.aimMult == 1.0)
  {
    hide Strain, Max;
    StrainIs(s, lim, a, b, c);
    StrainIsPositive(s, lim);
    OverlayIs(Strain(s, lim), lim);
  }

  lemma OverlayIs(strain: real, lim: Limits)
    requires lim.Valid() && strain >= 0.0
    ensures Min(1.0 + strain, lim.maxBand) == if 1.0 + strain <= lim.maxBand then 1.0 + strain else lim.maxBand
    ensures var aim := Max(1.0 / (1.0 + strain), lim.minAim);
            && (aim == lim.minAim || (aim > lim.minAim && aim * (1.0 + strain) == 1.0))
            && (lim.minAim * (1.0 + strain) <= 1.0 ==> aim * (1.0 + strain) == 1.0)
            && (strain == 0.0 ==> aim == 1.0)
  {
    InverseIs(1.0 + strain, lim.minAim);
  }

  lemma StrainIs(s: Stress, lim: Limits, a: real, b: real, c: real)
    requires lim.Valid()
    requires a * lim.minFill == if s.fillRatio.Some? then Max(lim.minFill - s.fillRatio.value, 0.0) else 0.0
    requires b * lim.adverse == if s.markout.Some? then Max(-s.markout.value - lim.adverse, 0.0) else 0.0
    requires c * lim.volShock == if s.volRatio.Some? then Max(s.volRatio.value - lim.volShock, 0.0) else 0.0
    ensures Strain(s, lim) == a + b + c
  {
    hide Over, Max;
    if s.fillRatio.Some? { ShareIs(a, s.fillRatio.value, lim.minFill); } else { NoShare(a, lim.minFill); }
    if s.markout.Some? { ShareIs(b, -s.markout.value, lim.adverse); } else { NoShare(b, lim.adverse); }
    if s.volRatio.Some? { ShareIs(c, s.volRatio.value, lim.volShock); } else { NoShare(c, lim.volShock); }
  }

  lemma NoShare(share: real, limit: real)
    requires limit > 0.0 && share * limit == 0.0
    ensures share == 0.0
  {
    if share < 0.0 { NegativeTimes(share, limit); }
    if share > 0.0 { PositiveTimes(share, limit); }
  }

  lemma ShareIs(share: real, seen: real, limit: real)
    requires limit > 0.0
    ensures share * limit == Max(seen - limit, 0.0) ==> share == if seen > limit then Over(seen, limit) else 0.0
    ensures share * limit == Max(limit - seen, 0.0) ==> share == if seen < limit then -Over(seen, limit) else 0.0
  {
    var x := Over(seen, limit);
    assert x * limit == seen - limit;
    assert (share - x) * limit == share * limit - x * limit && (share + x) * limit == share * limit + x * limit;
    if share * limit == seen - limit { NoShare(share - x, limit); }
    if share * limit == limit - seen { NoShare(share + x, limit); }
    if share * limit == 0.0 { NoShare(share, limit); }
  }

  lemma InverseIs(x: real, least: real)
    requires x >= 1.0
    ensures 1.0 / x * x == 1.0 && (least * x <= 1.0 ==> 1.0 / x >= least) && (x == 1.0 ==> 1.0 / x == 1.0)
  {
    var y := 1.0 / x;
    assert y * x == 1.0;
    if y < least { StrictTimes(x, y, least); }
  }

  /** The bounded tilts before they are renormalised. */
  function Raw(base: seq<real>, tilts: seq<real>, cap: real): seq<real>
    requires |tilts| == |base|
  {
    seq(|base|, i requires 0 <= i < |base| => base[i] * (1.0 + Clamp(tilts[i], -cap, cap)))
  }

  function TiltedTargets(base: seq<real>, tilts: seq<real>, cap: real): (w: seq<real>)
    requires |tilts| == |base|
    ensures |w| == |base|
  {
    var raw := Raw(base, tilts, cap);
    if Sum(raw) <= 0.0 then base
    else seq(|base|, i requires 0 <= i < |base| => raw[i] * Sum(base) / Sum(raw))
  }

  /** One plus the tilt, cut to the cap on either side. */
  function Leaning(t: real, cap: real): real { if t > cap then 1.0 + cap else if t < -cap then 1.0 - cap else 1.0 + t }

  /** Tilted weights stand to each other as the basket's weights times one plus the bounded tilt; with the kept total
      that determines them. Without a positive total the basket stays as it is. */
  lemma TiltedExact(base: seq<real>, tilts: seq<real>, cap: real, i: nat, j: nat)
    requires |tilts| == |base| && i < |base| && j < |base| && cap >= 0.0
    ensures var w := TiltedTargets(base, tilts, cap);
            && Raw(base, tilts, cap)[i] == base[i] * Leaning(tilts[i], cap)
            && (Sum(Raw(base, tilts, cap)) > 0.0 ==>
                  w[i] * (base[j] * Leaning(tilts[j], cap)) == w[j] * (base[i] * Leaning(tilts[i], cap)))
            && (Sum(Raw(base, tilts, cap)) <= 0.0 ==> w[i] == base[i])
  {
    hide Sum, Clamp, Raw, TiltedTargets, Leaning;
    var raw := Raw(base, tilts, cap);
    TiltedAt(base, tilts, cap, i);
    TiltedAt(base, tilts, cap, j);
    if Sum(raw) > 0.0 {
      var k := Sum(base) / Sum(raw);
      Exchange(k, TiltedTargets(base, tilts, cap)[i], TiltedTargets(base, tilts, cap)[j], raw[i], raw[j]);
    }
  }

  lemma TiltedAt(base: seq<real>, tilts: seq<real>, cap: real, i: nat)
    requires |tilts| == |base| && i < |base| && cap >= 0.0
    ensures |Raw(base, tilts, cap)| == |base|
    ensures Raw(base, tilts, cap)[i] == base[i] * Leaning(tilts[i], cap)
    ensures var s := Sum(Raw(base, tilts, cap));
            TiltedTargets(base, tilts, cap)[i] == if s > 0.0 then Sum(base) / s * Raw(base, tilts, cap)[i] else base[i]
  {
    hide Sum, Clamp, Leaning;
    ClampIs(tilts[i], cap);
    if Sum(Raw(base, tilts, cap)) > 0.0 {
      Share(Raw(base, tilts, cap)[i], Sum(base), Sum(Raw(base, tilts, cap)));
    }
  }

  lemma Exchange(k: real, x: real, y: real, a: real, b: real)
    requires x == k * a && y == k * b
    ensures x * b == y * a
  {
    assert (k * a) * b == (k * b) * a;
  }

  lemma ClampIs(t: real, cap: real)
    requires cap >= 0.0
    ensures 1.0 + Clamp(t, -cap, cap) == Leaning(t, cap)
  {
  }

  /** Tilts move weight between assets, never into or out of cash, and with a cap of at most one never below
      zero. */
  lemma TiltsKeepTotal(base: seq<real>, tilts: seq<real>, cap: real)
    requires |tilts| == |base| && 0.0 <= cap <= 1.0 && forall i :: 0 <= i < |base| ==> base[i] >= 0.0
    ensures Sum(TiltedTargets(base, tilts, cap)) == Sum(base)
    ensures forall i :: 0 <= i < |base| ==> TiltedTargets(base, tilts, cap)[i] >= 0.0
  {
    hide Sum;
    var raw, out := Raw(base, tilts, cap), TiltedTargets(base, tilts, cap);
    forall i | 0 <= i < |base|
      ensures raw[i] >= 0.0
    {
      TimesMonotone(base[i], 0.0, 1.0 + Clamp(tilts[i], -cap, cap));
    }
    if Sum(raw) > 0.0 {
      SumNonNegative(base);
      var k := Factor(Sum(base), Sum(raw));
      forall i | 0 <= i < |base|
        ensures out[i] == k * raw[i] && out[i] >= 0.0
      {
        Share(raw[i], Sum(base), Sum(raw));
        TimesMonotone(k, 0.0, raw[i]);
      }
      SumScale(raw, out, k);
    }
  }

  lemma Factor(total: real, s: real) returns (k: real)
    requires total >= 0.0 && s > 0.0
    ensures k >= 0.0 && k == total / s && k * s == total
  {
    k := total / s;
    if k < 0.0 { NegativeTimes(k, s); }
  }

  lemma Share(v: real, total: real, s: real)
    requires s > 0.0
    ensures v * total / s == (total / s) * v
  {
    var k := total / s;
    assert k * s == total;
    assert v * total == (k * v) * s;
  }
}
