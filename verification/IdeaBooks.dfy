/** The paper books of the hypothesis lab, core/idea_lab.py: a book decides at the close of bar `i`, its maker
    orders fill on bar `i + 1` if the price trades through them, and it is marked at the next close. */
module IdeaBooks {
  import opened Prelude
  import opened IdeaMarket
  import T = TargetBook

  datatype Rules = Rules(k: Knobs, limits: T.Limits, seedAtTarget: bool, window: nat, offset: real, penetration: real) {
    predicate Valid() { limits.Valid() && window >= 1 && 0.0 <= offset < 1.0 && 0.0 <= k.fee }
  }

  /** `units` and `bench` are empty until the book is seeded; `rets` and `benchRets` grow together. */
  datatype Book = Book(idea: Idea, born: nat, cash: real, units: map<nat, real>, peak: real,
                       rets: seq<real>, benchRets: seq<real>, attempts: nat, fills: nat, fees: real, traded: real,
                       markouts: seq<real>, alive: bool, pressured: bool, bench: seq<real>, benchCash: real)

  function NewBook(idea: Idea, born: nat, cash: real): Book
  {
    Book(idea, born, cash, map[], cash, [], [], 0, 0, 0.0, 0.0, [], true, false, [], 0.0)
  }

  function Held(units: map<nat, real>, a: nat): real { if a in units then units[a] else 0.0 }

  function Worth(units: map<nat, real>, px: seq<real>): real
  {
    if |px| == 0 then 0.0
    else Worth(units, px[..|px| - 1]) + Held(units, |px| - 1) * px[|px| - 1]
  }

  function Equity(b: Book, px: seq<real>): real { b.cash + Worth(b.units, px) }

  /** A fill: what was bought or sold, how much, at which price. */
  datatype Trade = Trade(asset: nat, buy: bool, qty: real, price: real)

  function Value(t: Trade): real { t.qty * t.price }

  function FeeOn(t: Trade, fee: real): real { Value(t) * fee }

  function Paid(t: Trade): real { if t.buy then Value(t) else -Value(t) }

  function Moved(t: Trade, a: nat): real { if t.asset != a then 0.0 else if t.buy then t.qty else -t.qty }

  /** A fill in the books: its value leaves or enters cash with the fee on top, and the units move. */
  function Posted(b: Book, t: Trade, fee: real): Book
  {
    b.(cash := b.cash - Paid(t) - FeeOn(t, fee), fees := b.fees + FeeOn(t, fee),
       units := b.units[t.asset := Held(b.units, t.asset) + Moved(t, t.asset)])
  }

  function SeedTrade(t: seq<real>, px: seq<real>, eq: real, a: nat): Trade
    requires a < |t| == |px| && px[a] != 0.0
  {
    Trade(a, true, eq * t[a] / px[a], px[a])
  }

  /** The fills that seed a newborn book at its targets. */
  function SeedTrades(t: seq<real>, px: seq<real>, eq: real, n: nat): seq<Trade>
    requires n <= |t| == |px| && forall a :: 0 <= a < |px| ==> px[a] > 0.0
  {
    if n == 0 then []
    else
      var before := SeedTrades(t, px, eq, n - 1);
      if eq * t[n - 1] > 0.0 then before + [SeedTrade(t, px, eq, n - 1)] else before
  }

  function PostedAll(b: Book, trades: seq<Trade>, fee: real): Book
  {
    if |trades| == 0 then b
    else Posted(PostedAll(b, trades[..|trades| - 1], fee), trades[|trades| - 1], fee)
  }

  predicate Seeds(r: Rules, b: Book, px: seq<real>)
  {
    r.seedAtTarget && b.rets == [] && b.units == map[] && Equity(b, px) > 0.0
  }

  function Opening(r: Rules, b: Book, bars: Bars, i: nat): seq<Trade>
    requires bars.Valid() && i < bars.length
  {
    var px := bars.Closes(i);
    if Seeds(r, b, px) then SeedTrades(Targets(b.idea, bars, i, r.k), px, Equity(b, px), |px|) else []
  }

  /** The buy-and-hold twin, bought once, without fees. */
  function TwinUnits(per: real, px: seq<real>): (u: seq<real>)
    requires forall a :: 0 <= a < |px| ==> px[a] > 0.0
    ensures |u| == |px|
  {
    seq(|px|, a requires 0 <= a < |px| => per / px[a])
  }

  function PerAsset(eq: real, frac: real, n: nat): real
    requires n > 0
  {
    eq * frac / n as real
  }

  function Twinned(r: Rules, b: Book, px: seq<real>): Book
    requires |px| > 0 && forall a :: 0 <= a < |px| ==> px[a] > 0.0
  {
    if b.bench != [] then b
    else
      var eq := Equity(b, px);
      var per := PerAsset(eq, r.k.investFrac, |px|);
      b.(bench := TwinUnits(per, px), benchCash := eq - per * |px| as real)
  }

  function Peaked(b: Book, eq: real): Book { b.(peak := Max(b.peak, eq)) }

  function StressOf(r: Rules, b: Book, eq: real, reading: Reading): T.Stress
    requires r.Valid()
  {
    T.Stress(if b.attempts >= r.window then Some(b.fills as real / b.attempts as real) else None,
             if |b.markouts| >= r.window then Some(Mean(Last(b.markouts, r.window))) else None,
             reading.volRatio,
             if b.peak > 0.0 then Some(1.0 - eq / b.peak) else None)
  }

  function Rows(units: map<nat, real>, gamma: real, px: seq<real>, t: seq<real>, k: Knobs): seq<T.Row>
    requires |t| == |px|
  {
    seq(|px|, a requires 0 <= a < |px| => T.Row(Held(units, a), px[a], t[a], k.halfwidth(k.fee, t[a], gamma)))
  }

  datatype Choice = Choice(book: Book, orders: seq<T.Order>)

  /** The book after the bookkeeping of a decision, before its orders. */
  function Ready(r: Rules, b: Book, bars: Bars, i: nat): Book
    requires r.Valid() && bars.Valid() && i < bars.length
  {
    var px := bars.Closes(i);
    var seeded := PostedAll(b, Opening(r, b, bars, i), r.k.fee);
    Peaked(Twinned(r, seeded, px), Equity(seeded, px))
  }

  function PressureOn(r: Rules, b: Book, bars: Bars, i: nat): T.Pressure
    requires r.Valid() && bars.Valid() && i < bars.length
  {
    var reading := ReadMarket(bars, i, r.k.sigmaLookback, r.k.volShort, r.limits.volShock, r.k.root);
    T.PressureFrom(StressOf(r, b, Equity(b, bars.Closes(i)), reading), r.limits)
  }

  function Decided(r: Rules, b: Book, bars: Bars, i: nat): Choice
    requires r.Valid() && bars.Valid() && i < bars.length
  {
    var ready := Ready(r, b, bars, i);
    var pressure := PressureOn(r, ready, bars, i);
    var t := Targets(b.idea, bars, i, r.k);
    var pressed := pressure.haltBuys || pressure.bandMult > 1.0 || pressure.aimMult < 1.0;
    Choice(ready.(pressured := ready.pressured || pressed),
           T.Orders(Rows(ready.units, b.idea.gamma, bars.Closes(i), t, r.k), ready.cash,
                    T.Params(b.idea.aimRate, r.k.minOrder), pressure))
  }

  /** The maker limit: below the close for a buy, above it for a sell. */
  function Limit(px: real, off: real, sell: bool): (limit: real)
    requires px > 0.0 && 0.0 <= off < 1.0
    ensures limit > 0.0
  {
    Positive(px, if sell then 1.0 + off else 1.0 - off);
    px * if sell then 1.0 + off else 1.0 - off
  }

  lemma Positive(a: real, b: real)
    requires a > 0.0 && b > 0.0
    ensures a * b > 0.0
  {
  }

  /** A buy of `notional` at `limit`, cut to what the cash pays for with its fee. */
  function Affordable(cash: real, notional: real, limit: real, fee: real): real
    requires limit > 0.0 && fee >= 0.0
  {
    var qty := notional / limit;
    Positive(limit, 1.0 + fee);
    if qty * limit * (1.0 + fee) > cash then cash / (limit * (1.0 + fee)) else qty
  }

  /** The next bar trades through the limit by the queue's margin. */
  predicate Through(bars: Bars, a: nat, j: nat, limit: real, margin: real, sell: bool)
    requires bars.Valid() && j < bars.length && a < bars.Assets()
  {
    if sell then bars.high[a][j] > limit * (1.0 + margin) else bars.low[a][j] < limit * (1.0 - margin)
  }

  /** How much fills: a sell is cut to the units held, a buy to the cash. */
  function Quantity(b: Book, o: T.Order, limit: real, fee: real): real
    requires limit > 0.0 && fee >= 0.0
  {
    if o.sell then Min(o.notional / limit, Held(b.units, o.asset)) else Affordable(b.cash, o.notional, limit, fee)
  }

  function FillOf(r: Rules, b: Book, o: T.Order, bars: Bars, i: nat): (t: Option<Trade>)
    requires r.Valid() && bars.Valid() && i + 1 < bars.length && o.asset < bars.Assets()
    ensures t.Some? ==> t.value.qty > 0.0 && t.value.price > 0.0 && t.value.asset == o.asset && t.value.buy == !o.sell
  {
    var limit := Limit(bars.close[o.asset][i], r.offset, o.sell);
    var qty := Quantity(b, o, limit, r.k.fee);
    if Through(bars, o.asset, i + 1, limit, r.penetration, o.sell) && qty > 0.0
    then Some(Trade(o.asset, !o.sell, qty, limit)) else None
  }

  function Markout(t: Trade, close: real): real
    requires t.price != 0.0
  {
    (if t.buy then close / t.price - 1.0 else 1.0 - close / t.price) * 10000.0
  }

  function Executed(r: Rules, b: Book, o: T.Order, bars: Bars, i: nat): Book
    requires r.Valid() && bars.Valid() && i + 1 < bars.length && o.asset < bars.Assets()
  {
    var tried, t := b.(attempts := b.attempts + 1), FillOf(r, b, o, bars, i);
    if t.None? then tried
    else
      Posted(tried, t.value, r.k.fee).(fills := b.fills + 1, traded := b.traded + Value(t.value),
        markouts := b.markouts + [Markout(t.value, bars.close[o.asset][i + 1])])
  }

  predicate Inside(orders: seq<T.Order>, assets: nat)
  {
    forall j :: 0 <= j < |orders| ==> orders[j].asset < assets
  }

  function ExecutedAll(r: Rules, b: Book, orders: seq<T.Order>, bars: Bars, i: nat): Book
    requires r.Valid() && bars.Valid() && i + 1 < bars.length && Inside(orders, bars.Assets())
  {
    if |orders| == 0 then b
    else Executed(r, ExecutedAll(r, b, orders[..|orders| - 1], bars, i), orders[|orders| - 1], bars, i)
  }

  function Fills(r: Rules, b: Book, orders: seq<T.Order>, bars: Bars, i: nat): seq<Trade>
    requires r.Valid() && bars.Valid() && i + 1 < bars.length && Inside(orders, bars.Assets())
  {
    if |orders| == 0 then []
    else
      var before, o := orders[..|orders| - 1], orders[|orders| - 1];
      var t := FillOf(r, ExecutedAll(r, b, before, bars, i), o, bars, i);
      Fills(r, b, before, bars, i) + if t.Some? then [t.value] else []
  }

  function Twin(b: Book, px: seq<real>): real { b.benchCash + Sum(Legs(b.bench, px)) }

  function Legs(units: seq<real>, px: seq<real>): seq<real>
  {
    seq(|units|, a requires 0 <= a < |units| => if a < |px| then units[a] * px[a] else 0.0)
  }

  function Return(before: real, after: real): real { if before > 0.0 then after / before - 1.0 else 0.0 }

  /** The mark at the next close. */
  function Marked(b: Book, eq: real, bars: Bars, i: nat): Book
    requires bars.Valid() && i + 1 < bars.length
  {
    var px, next := bars.Closes(i), bars.Closes(i + 1);
    b.(rets := b.rets + [Return(eq, Equity(b, next))], benchRets := b.benchRets + [Return(Twin(b, px), Twin(b, next))])
  }

  function Stepped(r: Rules, b: Book, bars: Bars, i: nat): Book
    requires r.Valid() && bars.Valid() && i + 1 < bars.length
  {
    var choice := Decided(r, b, bars, i);
    DecisionInside(r, b, bars, i);
    Marked(ExecutedAll(r, choice.book, choice.orders, bars, i), Equity(choice.book, bars.Closes(i)), bars, i)
  }

  lemma DecisionInside(r: Rules, b: Book, bars: Bars, i: nat)
    requires r.Valid() && bars.Valid() && i < bars.length
    ensures Inside(Decided(r, b, bars, i).orders, bars.Assets())
  {
    hide T.Orders, PressureOn, Targets, Ready;
    var ready := Ready(r, b, bars, i);
    var rows := Rows(ready.units, b.idea.gamma, bars.Closes(i), Targets(b.idea, bars, i, r.k), r.k);
    T.OrdersAreFillable(rows, ready.cash, T.Params(b.idea.aimRate, r.k.minOrder), PressureOn(r, ready, bars, i));
  }

  // ---------------------------------------------------------------- the class

  class ShadowBook {
    const idea: Idea
    const born: nat
    var cash: real
    var units: map<nat, real>
    var peak: real
    var rets: seq<real>
    var benchRets: seq<real>
    var attempts: nat
    var fills: nat
    var fees: real
    var traded: real
    var markouts: seq<real>
    var alive: bool
    var pressured: bool
    var bench: seq<real>
    var benchCash: real

    ghost function Now(): Book
      reads this
    {
      Book(idea, born, cash, units, peak, rets, benchRets, attempts, fills, fees, traded, markouts,
           alive, pressured, bench, benchCash)
    }

    constructor (what: Idea, at: nat, start: real)
      ensures Now() == NewBook(what, at, start)
    {
      idea, born, cash, peak := what, at, start, start;
      units, rets, benchRets, attempts, fills, fees, traded := map[], [], [], 0, 0, 0.0, 0.0;
      markouts, alive, pressured, bench, benchCash := [], true, false, [], 0.0;
    }

    method EquityAt(px: seq<real>) returns (eq: real)
      ensures eq == Equity(Now(), px)
    {
      eq := cash;
      for a := 0 to |px|
        invariant eq == cash + Worth(units, px[..a])
      {
        assert px[..a + 1][..a] == px[..a];
        eq := eq + Held(units, a) * px[a];
      }
      assert px[..|px|] == px;
    }

    method Post(t: Trade, fee: real)
      modifies this`cash, this`fees, this`units
      ensures Now() == Posted(old(Now()), t, fee)
    {
      hide Value, FeeOn, Held;
      if t.buy {
        cash := cash - Value(t) - FeeOn(t, fee);
        units := units[t.asset := Held(units, t.asset) + t.qty];
      } else {
        cash := cash + Value(t) - FeeOn(t, fee);
        units := units[t.asset := Held(units, t.asset) - t.qty];
      }
      fees := fees + FeeOn(t, fee);
    }

    method Seed(t: seq<real>, px: seq<real>, eq: real, fee: real)
      requires |t| == |px| && forall a :: 0 <= a < |px| ==> px[a] > 0.0
      modifies this`cash, this`fees, this`units
      ensures Now() == PostedAll(old(Now()), SeedTrades(t, px, eq, |px|), fee)
    {
      for a := 0 to |px|
        invariant Now() == PostedAll(old(Now()), SeedTrades(t, px, eq, a), fee)
      {
        if eq * t[a] > 0.0 {
          var trade := SeedTrade(t, px, eq, a);
          ghost var before := SeedTrades(t, px, eq, a);
          assert (before + [trade])[..|before|] == before;
          Post(trade, fee);
        }
      }
    }

    method BuyTwin(r: Rules, px: seq<real>, eq: real)
      requires |px| > 0 && (forall a :: 0 <= a < |px| ==> px[a] > 0.0) && eq == Equity(Now(), px)
      modifies this`bench, this`benchCash
      ensures Now() == Twinned(r, old(Now()), px)
    {
      hide PerAsset, TwinUnits, Equity;
      if bench == [] {
        var per := PerAsset(eq, r.k.investFrac, |px|);
        bench := TwinUnits(per, px);
        benchCash := eq - per * |px| as real;
      }
    }

    method SeedIfNew(r: Rules, bars: Bars, i: nat) returns (eq: real)
      requires r.Valid() && bars.Valid() && i < bars.length
      modifies this`cash, this`fees, this`units
      ensures Now() == PostedAll(old(Now()), Opening(r, old(Now()), bars, i), r.k.fee)
              && eq == Equity(Now(), bars.Closes(i))
    {
      hide Targets, PostedAll, SeedTrades, Equity;
      var px := bars.Closes(i);
      eq := EquityAt(px);
      PostNothing(Now(), r.k.fee);
      if r.seedAtTarget && rets == [] && units == map[] && eq > 0.0 {
        Seed(Targets(idea, bars, i, r.k), px, eq, r.k.fee);
        eq := EquityAt(px);
      }
    }

    method Decide(r: Rules, bars: Bars, i: nat) returns (orders: seq<T.Order>)
      requires r.Valid() && bars.Valid() && i < bars.length
      modifies this
      ensures Choice(Now(), orders) == Decided(r, old(Now()), bars, i)
    {
      hide Targets, PostedAll, Opening, Twinned, ReadMarket, StressOf, Equity, T.PressureFrom, T.Orders, Rows;
      var px := bars.Closes(i);
      var t := Targets(idea, bars, i, r.k);
      var eq := SeedIfNew(r, bars, i);
      label Seeded:
      BuyTwin(r, px, eq);
      peak := Max(peak, eq);
      assert Now() == Ready(r, old(Now()), bars, i);
      TwinFrame(r, old@Seeded(Now()), px);
      EquityFrame(old@Seeded(Now()), Now(), px);
      var reading := ReadMarket(bars, i, r.k.sigmaLookback, r.k.volShort, r.limits.volShock, r.k.root);
      var pressure := T.PressureFrom(StressNow(r, eq, reading), r.limits);
      var rows := Rows(units, idea.gamma, px, t, r.k);
      orders := T.Plan(rows, cash, T.Params(idea.aimRate, r.k.minOrder), pressure);
      if pressure.haltBuys || pressure.bandMult > 1.0 || pressure.aimMult < 1.0 {
        pressured := true;
      }
    }

    method TryFill(r: Rules, o: T.Order, bars: Bars, i: nat) returns (t: Option<Trade>)
      requires r.Valid() && bars.Valid() && i + 1 < bars.length && o.asset < bars.Assets()
      ensures t == FillOf(r, Now(), o, bars, i)
    {
      hide Limit, Affordable, Through, Held, Min;
      var a := o.asset;
      var limit := Limit(bars.close[a][i], r.offset, o.sell);
      if !Through(bars, a, i + 1, limit, r.penetration, o.sell) { return None; }
      var qty;
      if o.sell {
        qty := Min(o.notional / limit, Held(units, a));
      } else {
        qty := Affordable(cash, o.notional, limit, r.k.fee);
      }
      if qty <= 0.0 { return None; }
      return Some(Trade(a, !o.sell, qty, limit));
    }

    method Execute(r: Rules, o: T.Order, bars: Bars, i: nat)
      requires r.Valid() && bars.Valid() && i + 1 < bars.length && o.asset < bars.Assets()
      modifies this
      ensures Now() == Executed(r, old(Now()), o, bars, i)
    {
      hide FillOf, Posted, Markout, Value;
      var t := TryFill(r, o, bars, i);
      attempts := attempts + 1;
      if t.None? { return; }
      label Filling:
      Post(t.value, r.k.fee);
      PostFrame(old@Filling(Now()), t.value, r.k.fee);
      fills := fills + 1;
      traded := traded + Value(t.value);
      markouts := markouts + [Markout(t.value, bars.close[o.asset][i + 1])];
    }

    method StepBook(r: Rules, bars: Bars, i: nat)
      requires r.Valid() && bars.Valid() && i + 1 < bars.length
      modifies this
      ensures Now() == Stepped(r, old(Now()), bars, i)
    {
      hide Decided, Executed, Equity, Legs, Return;
      var px := bars.Closes(i);
      DecisionInside(r, Now(), bars, i);
      var orders := Decide(r, bars, i);
      ghost var chosen := Now();
      var eq := EquityAt(px);
      for n := 0 to |orders|
        invariant Inside(orders[..n], bars.Assets()) && Now() == ExecutedAll(r, chosen, orders[..n], bars, i)
      {
        assert orders[..n + 1][..n] == orders[..n];
        Execute(r, orders[n], bars, i);
      }
      assert orders[..|orders|] == orders;
      ghost var done := Now();
      var next := bars.Closes(i + 1);
      var eq1 := EquityAt(next);
      rets := rets + [Return(eq, eq1)];
      var b0 := TwinAt(px);
      var b1 := TwinAt(next);
      benchRets := benchRets + [Return(b0, b1)];
      assert b0 == Twin(done, px) && b1 == Twin(done, next);
      assert Now() == Marked(done, eq, bars, i);
    }

    method Retire()
      modifies this`alive
      ensures Now() == old(Now()).(alive := false)
    {
      alive := false;
    }

    method Calm()
      modifies this`pressured
      ensures Now() == old(Now()).(pressured := false)
    {
      pressured := false;
    }

    method TwinAt(px: seq<real>) returns (worth: real)
      ensures worth == benchCash + Sum(Legs(bench, px))
    {
      worth := benchCash + Sum(Legs(bench, px));
    }

    function StressNow(r: Rules, eq: real, reading: Reading): (s: T.Stress)
      requires r.Valid()
      reads this
      ensures s == StressOf(r, Now(), eq, reading)
    {
      T.Stress(if attempts >= r.window then Some(fills as real / attempts as real) else None,
               if |markouts| >= r.window then Some(Mean(Last(markouts, r.window))) else None,
               reading.volRatio,
               if peak > 0.0 then Some(1.0 - eq / peak) else None)
    }
  }

  lemma PostNothing(b: Book, fee: real)
    ensures PostedAll(b, [], fee) == b
  {
  }

  lemma PostFrame(b: Book, t: Trade, fee: real)
    ensures Posted(b, t, fee) == b.(cash := Posted(b, t, fee).cash, fees := Posted(b, t, fee).fees,
                                      units := Posted(b, t, fee).units)
  {
  }

  lemma TwinFrame(r: Rules, b: Book, px: seq<real>)
    requires |px| > 0 && forall a :: 0 <= a < |px| ==> px[a] > 0.0
    ensures Twinned(r, b, px) == b.(bench := Twinned(r, b, px).bench, benchCash := Twinned(r, b, px).benchCash)
  {
  }

  lemma EquityFrame(b: Book, c: Book, px: seq<real>)
    requires b.cash == c.cash && b.units == c.units
    ensures Equity(b, px) == Equity(c, px)
  {
  }

  // ---------------------------------------------------------------- nothing looks ahead

  lemma SameCloses(b: Bars, c: Bars, i: nat, k: nat)
    requires b.Valid() && c.Valid() && i < b.length && i < c.length && Agree(b, c, i) && k <= i
    ensures b.Closes(k) == c.Closes(k)
  {
    forall a | 0 <= a < b.Assets()
      ensures b.Closes(k)[a] == c.Closes(k)[a]
    {
      SameBar(b, c, i, k, a);
    }
  }

  /** Two histories that agree up to bar `i` give the same decision at `i`: the same orders and the same book. */
  lemma DecisionsDoNotLookAhead(r: Rules, book: Book, b: Bars, c: Bars, i: nat)
    requires r.Valid() && b.Valid() && c.Valid() && i < b.length && i < c.length && Agree(b, c, i)
    ensures Decided(r, book, b, i) == Decided(r, book, c, i)
  {
    hide Targets, ReadMarket, PostedAll, Twinned, T.Orders, Rows, Equity, SeedTrades, StressOf, T.PressureFrom;
    SameCloses(b, c, i, i);
    SameTargets(b, c, i, book.idea, r.k);
    SameReading(b, c, i, r.k.sigmaLookback, r.k.volShort, r.limits.volShock, r.k.root);
  }

  lemma AgreeEarlier(b: Bars, c: Bars, i: nat, k: nat)
    requires b.Valid() && c.Valid() && i < b.length && i < c.length && Agree(b, c, i) && k <= i
    ensures Agree(b, c, k)
  {
    forall a | 0 <= a < b.Assets()
      ensures b.high[a][..k + 1] == c.high[a][..k + 1] && b.low[a][..k + 1] == c.low[a][..k + 1]
              && b.close[a][..k + 1] == c.close[a][..k + 1]
    {
      assert b.high[a][..k + 1] == b.high[a][..i + 1][..k + 1] && c.high[a][..k + 1] == c.high[a][..i + 1][..k + 1];
      assert b.low[a][..k + 1] == b.low[a][..i + 1][..k + 1] && c.low[a][..k + 1] == c.low[a][..i + 1][..k + 1];
      assert b.close[a][..k + 1] == b.close[a][..i + 1][..k + 1] && c.close[a][..k + 1] == c.close[a][..i + 1][..k + 1];
    }
  }

  lemma {:induction false} SameExecution(r: Rules, book: Book, orders: seq<T.Order>, b: Bars, c: Bars, i: nat)
    requires r.Valid() && b.Valid() && c.Valid() && i + 1 < b.length && i + 1 < c.length && Agree(b, c, i + 1)
    requires Inside(orders, b.Assets())
    ensures ExecutedAll(r, book, orders, b, i) == ExecutedAll(r, book, orders, c, i)
  {
    hide Executed;
    if |orders| > 0 {
      var n := |orders| - 1;
      SameExecution(r, book, orders[..n], b, c, i);
      SameFill(r, ExecutedAll(r, book, orders[..n], b, i), orders[n], b, c, i);
    }
  }

  lemma SameFill(r: Rules, book: Book, o: T.Order, b: Bars, c: Bars, i: nat)
    requires r.Valid() && b.Valid() && c.Valid() && i + 1 < b.length && i + 1 < c.length && Agree(b, c, i + 1)
    requires o.asset < b.Assets()
    ensures Executed(r, book, o, b, i) == Executed(r, book, o, c, i)
  {
    hide Limit, Affordable, Quantity, Posted, Markout;
    SameBar(b, c, i + 1, i, o.asset);
    SameBar(b, c, i + 1, i + 1, o.asset);
  }

  /** A step of a book looks one bar ahead for its fills and its mark, and no further. */
  lemma StepsDoNotLookAhead(r: Rules, book: Book, b: Bars, c: Bars, i: nat)
    requires r.Valid() && b.Valid() && c.Valid() && i + 1 < b.length && i + 1 < c.length && Agree(b, c, i + 1)
    ensures Stepped(r, book, b, i) == Stepped(r, book, c, i)
  {
    hide Decided, ExecutedAll, Equity, Twin, Return;
    AgreeEarlier(b, c, i + 1, i);
    DecisionsDoNotLookAhead(r, book, b, c, i);
    DecisionInside(r, book, b, i);
    var choice := Decided(r, book, b, i);
    SameExecution(r, choice.book, choice.orders, b, c, i);
    SameCloses(b, c, i + 1, i);
    SameCloses(b, c, i + 1, i + 1);
  }

  // ---------------------------------------------------------------- the ledger

  function PaidAll(trades: seq<Trade>): real
  {
    if |trades| == 0 then 0.0 else PaidAll(trades[..|trades| - 1]) + Paid(trades[|trades| - 1])
  }

  function MovedAll(trades: seq<Trade>, a: nat): real
  {
    if |trades| == 0 then 0.0 else MovedAll(trades[..|trades| - 1], a) + Moved(trades[|trades| - 1], a)
  }

  lemma {:induction false} PaidAppend(s: seq<Trade>, t: seq<Trade>, a: nat)
    ensures PaidAll(s + t) == PaidAll(s) + PaidAll(t) && MovedAll(s + t, a) == MovedAll(s, a) + MovedAll(t, a)
  {
    if |t| == 0 {
      assert s + t == s;
    } else {
      PaidAppend(s, t[..|t| - 1], a);
      assert (s + t)[..|s + t| - 1] == s + t[..|t| - 1];
    }
  }

  /** Posting trades: the cash, what was paid for units and the fees always add up, and each holding moves by
      what was traded of it. */
  lemma {:induction false} PostingBalances(b: Book, trades: seq<Trade>, fee: real, a: nat)
    ensures var c := PostedAll(b, trades, fee);
            && c.cash + PaidAll(trades) + c.fees == b.cash + b.fees
            && Held(c.units, a) == Held(b.units, a) + MovedAll(trades, a)
            && c == b.(cash := c.cash, fees := c.fees, units := c.units)
  {
    if |trades| > 0 {
      PostingBalances(b, trades[..|trades| - 1], fee, a);
    }
  }

  lemma {:induction false} ExecutionBalances(r: Rules, b: Book, orders: seq<T.Order>, bars: Bars, i: nat, a: nat)
    requires r.Valid() && bars.Valid() && i + 1 < bars.length && Inside(orders, bars.Assets())
    ensures var c, trades := ExecutedAll(r, b, orders, bars, i), Fills(r, b, orders, bars, i);
            && c.cash + PaidAll(trades) + c.fees == b.cash + b.fees
            && Held(c.units, a) == Held(b.units, a) + MovedAll(trades, a)
            && c.idea == b.idea && c.rets == b.rets && c.benchRets == b.benchRets
            && c.alive == b.alive && c.born == b.born
  {
    hide FillOf, Markout;
    if |orders| > 0 {
      var init, o := orders[..|orders| - 1], orders[|orders| - 1];
      ExecutionBalances(r, b, init, bars, i, a);
      var t := FillOf(r, ExecutedAll(r, b, init, bars, i), o, bars, i);
      PaidAppend(Fills(r, b, init, bars, i), if t.Some? then [t.value] else [], a);
      if t.Some? {
        assert [t.value][..0] == [];
        assert PaidAll([t.value]) == Paid(t.value) && MovedAll([t.value], a) == Moved(t.value, a);
      }
    }
  }

  /** Every trade of a step: the seeding of a newborn book, then the fills of its orders. */
  function StepTrades(r: Rules, b: Book, bars: Bars, i: nat): seq<Trade>
    requires r.Valid() && bars.Valid() && i + 1 < bars.length
  {
    DecisionInside(r, b, bars, i);
    Opening(r, b, bars, i) + Fills(r, Decided(r, b, bars, i).book, Decided(r, b, bars, i).orders, bars, i)
  }

  lemma StepBalances(r: Rules, b: Book, bars: Bars, i: nat, a: nat)
    requires r.Valid() && bars.Valid() && i + 1 < bars.length
    ensures var c, trades := Stepped(r, b, bars, i), StepTrades(r, b, bars, i);
            && c.cash + PaidAll(trades) + c.fees == b.cash + b.fees
            && Held(c.units, a) == Held(b.units, a) + MovedAll(trades, a)
            && c.idea == b.idea && c.born == b.born && c.alive == b.alive
            && |c.rets| == |b.rets| + 1 && |c.benchRets| == |b.benchRets| + 1
  {
    hide Opening, PostedAll, ExecutedAll, Fills, Equity, Targets, ReadMarket, T.Orders, PressureOn, Twin, Held;
    DecisionInside(r, b, bars, i);
    var choice := Decided(r, b, bars, i);
    PostingBalances(b, Opening(r, b, bars, i), r.k.fee, a);
    ExecutionBalances(r, choice.book, choice.orders, bars, i, a);
    PaidAppend(Opening(r, b, bars, i), Fills(r, choice.book, choice.orders, bars, i), a);
  }

  /** A book on its own: born with `cash`, stepped at `first`, `first + 1`, .. */
  function Solo(r: Rules, idea: Idea, born: nat, cash: real, bars: Bars, first: nat, n: nat): Book
    requires r.Valid() && bars.Valid() && first + n < bars.length
  {
    if n == 0 then NewBook(idea, born, cash)
    else Stepped(r, Solo(r, idea, born, cash, bars, first, n - 1), bars, first + n - 1)
  }

  function SoloTrades(r: Rules, idea: Idea, born: nat, cash: real, bars: Bars, first: nat, n: nat): seq<Trade>
    requires r.Valid() && bars.Valid() && first + n < bars.length
  {
    if n == 0 then []
    else SoloTrades(r, idea, born, cash, bars, first, n - 1)
         + StepTrades(r, Solo(r, idea, born, cash, bars, first, n - 1), bars, first + n - 1)
  }

  /** The ledger of a whole run: the starting cash is the cash left, plus what the trades cost net of what they
      returned, plus the fees; and every holding is the sum of its trades. */
  lemma {:induction false} LedgerBalances(r: Rules, idea: Idea, born: nat, cash: real, bars: Bars,
                                       first: nat, n: nat, a: nat)
    requires r.Valid() && bars.Valid() && first + n < bars.length
    ensures var b, trades := Solo(r, idea, born, cash, bars, first, n), SoloTrades(r, idea, born, cash, bars, first, n);
            && b.cash + PaidAll(trades) + b.fees == cash
            && Held(b.units, a) == MovedAll(trades, a)
            && b.idea == idea && |b.rets| == |b.benchRets| == n && b.alive
  {
    hide Stepped, StepTrades;
    if n > 0 {
      LedgerBalances(r, idea, born, cash, bars, first, n - 1, a);
      var before := Solo(r, idea, born, cash, bars, first, n - 1);
      StepBalances(r, before, bars, first + n - 1, a);
      PaidAppend(SoloTrades(r, idea, born, cash, bars, first, n - 1), StepTrades(r, before, bars, first + n - 1), a);
    }
  }

  // ---------------------------------------------------------------- solvency

  predicate Solvent(b: Book)
  {
    b.cash >= 0.0 && forall a :: a in b.units ==> b.units[a] >= 0.0
  }

  lemma {:induction false} NoUnitsNoWorth(px: seq<real>)
    ensures Worth(map[], px) == 0.0
  {
    if |px| > 0 {
      NoUnitsNoWorth(px[..|px| - 1]);
    }
  }

  lemma SeedTradeValue(t: seq<real>, px: seq<real>, eq: real, a: nat)
    requires a < |t| == |px| && px[a] > 0.0
    ensures var s := SeedTrade(t, px, eq, a); s.qty * s.price == eq * t[a] && (eq * t[a] > 0.0 ==> s.qty > 0.0)
  {
    var value := eq * t[a];
    var qty := value / px[a];
    assert qty * px[a] == value;
    if qty <= 0.0 { TimesMonotone(px[a], qty, 0.0); }
  }

  /** Seeding at nonnegative targets costs the equity's share of them with the fee on top. */
  lemma {:induction false} SeedingCosts(b: Book, t: seq<real>, px: seq<real>, eq: real, fee: real, n: nat)
    requires n <= |t| == |px| && (forall a :: 0 <= a < |px| ==> px[a] > 0.0) && NonNegative(t) && eq > 0.0
    requires forall a :: a in b.units ==> b.units[a] >= 0.0
    ensures var c := PostedAll(b, SeedTrades(t, px, eq, n), fee);
            && c.cash == b.cash - Times(Times(eq, Sum(t[..n])), 1.0 + fee)
            && (forall a :: a in c.units ==> c.units[a] >= 0.0)
  {
    hide Sum, Posted, SeedTrade, Times;
    if n == 0 {
      assert t[..0] == [];
      EmptySum(eq, fee);
    } else {
      var before, x := SeedTrades(t, px, eq, n - 1), SeedTrade(t, px, eq, n - 1);
      SeedingCosts(b, t, px, eq, fee, n - 1);
      PostSeed(PostedAll(b, before, fee), t, px, eq, fee, n - 1);
      assert t[..n] == t[..n - 1] + [t[n - 1]];
      SumAppend(t[..n - 1], t[n - 1]);
      SeedCost(eq, Sum(t[..n - 1]), t[n - 1], fee);
      if eq * t[n - 1] > 0.0 {
        assert (before + [x])[..|before|] == before;
      }
    }
  }

  lemma EmptySum(eq: real, fee: real)
    ensures Times(Times(eq, Sum([])), 1.0 + fee) == 0.0
  {
  }

  /** One seeding trade takes its share of the equity, and the fee on it. */
  lemma PostSeed(b: Book, t: seq<real>, px: seq<real>, eq: real, fee: real, a: nat)
    requires a < |t| == |px| && px[a] > 0.0 && t[a] >= 0.0 && eq > 0.0 && forall k :: k in b.units ==> b.units[k] >= 0.0
    ensures var c := if eq * t[a] > 0.0 then Posted(b, SeedTrade(t, px, eq, a), fee) else b;
            && c.cash == b.cash - Times(Times(eq, t[a]), 1.0 + fee)
            && (forall k :: k in c.units ==> c.units[k] >= 0.0)
  {
    SeedTradeValue(t, px, eq, a);
    TimesMonotone(eq, 0.0, t[a]);
    var value := eq * t[a];
    assert Times(Times(eq, t[a]), 1.0 + fee) == value + value * fee;
  }

  lemma SeedCost(eq: real, sum: real, t: real, fee: real)
    ensures Times(Times(eq, sum + t), 1.0 + fee) == Times(Times(eq, sum), 1.0 + fee) + Times(Times(eq, t), 1.0 + fee)
  {
    assert eq * (sum + t) == eq * sum + eq * t;
    assert (eq * sum + eq * t) * (1.0 + fee) == eq * sum * (1.0 + fee) + eq * t * (1.0 + fee);
  }

  /** A newborn book seeded at its targets keeps its cash nonnegative exactly when the targets with the fee on
      top fit into the whole. */
  lemma SeedExact(b: Book, t: seq<real>, px: seq<real>, fee: real)
    requires |t| == |px| && (forall a :: 0 <= a < |px| ==> px[a] > 0.0) && NonNegative(t) && fee >= 0.0
    requires b.units == map[] && b.cash > 0.0
    ensures var c := PostedAll(b, SeedTrades(t, px, Equity(b, px), |px|), fee);
            && (Solvent(c) <==> Times(Sum(t), 1.0 + fee) <= 1.0)
  {
    hide Sum, PostedAll, SeedTrades;
    NoUnitsNoWorth(px);
    SeedingCosts(b, t, px, b.cash, fee, |px|);
    assert t[..|px|] == t;
    var share := Times(Sum(t), 1.0 + fee);
    assert Times(Times(b.cash, Sum(t)), 1.0 + fee) == Times(b.cash, share);
    if share <= 1.0 {
      TimesMonotone(b.cash, share, 1.0);
    } else {
      StrictTimes(b.cash, 1.0, share);
    }
  }

  /** The market's knobs keep the seeding inside the cash. */
  ghost predicate Prudent(r: Rules)
  {
    r.Valid() && Unlevered(r.k) && Times(r.k.investFrac, 1.0 + r.k.fee) <= 1.0 && r.k.fee <= 1.0
  }

  lemma OpeningSolvent(r: Rules, b: Book, bars: Bars, i: nat)
    requires Prudent(r) && bars.Valid() && i < bars.length && Solvent(b)
    ensures Solvent(PostedAll(b, Opening(r, b, bars, i), r.k.fee))
  {
    hide Targets, SeedTrades, PostedAll, Sum, Equity, Unlevered;
    var px := bars.Closes(i);
    PostNothing(b, r.k.fee);
    if Seeds(r, b, px) {
      NoUnitsNoWorth(px);
      assert Equity(b, px) == b.cash by { CashOnly(b, px); }
      TargetsAreFunded(b.idea, bars, i, r.k);
      TimesMonotone(1.0 + r.k.fee, Sum(Targets(b.idea, bars, i, r.k)), r.k.investFrac);
      SeedExact(b, Targets(b.idea, bars, i, r.k), px, r.k.fee);
    }
  }

  lemma CashOnly(b: Book, px: seq<real>)
    requires b.units == map[]
    ensures Equity(b, px) == b.cash
  {
    NoUnitsNoWorth(px);
  }

  lemma AffordableFits(cash: real, notional: real, limit: real, fee: real)
    requires limit > 0.0 && fee >= 0.0
    ensures var qty := Affordable(cash, notional, limit, fee); qty * limit + qty * limit * fee <= cash
  {
    var qty, price := Affordable(cash, notional, limit, fee), limit * (1.0 + fee);
    Positive(limit, 1.0 + fee);
    var raw := notional / limit;
    if raw * limit * (1.0 + fee) > cash {
      assert qty * price == cash;
    }
    assert qty * limit * (1.0 + fee) == qty * limit + qty * limit * fee;
    assert qty * limit * (1.0 + fee) == qty * price;
  }

  /** A fill costs no more than the cash there is, or sells no more than is held. */
  lemma FillFits(r: Rules, b: Book, o: T.Order, bars: Bars, i: nat)
    requires Prudent(r) && bars.Valid() && i + 1 < bars.length && o.asset < bars.Assets()
    ensures var t := FillOf(r, b, o, bars, i);
            t.Some? ==> if t.value.buy then Value(t.value) + FeeOn(t.value, r.k.fee) <= b.cash
                        else t.value.qty <= Held(b.units, o.asset) && FeeOn(t.value, r.k.fee) <= Value(t.value)
                             && Value(t.value) > 0.0
  {
    hide Limit, Affordable, Through, Unlevered, Held;
    var t := FillOf(r, b, o, bars, i);
    if t.Some? {
      Positive(t.value.qty, t.value.price);
      if o.sell {
        TimesMonotone(Value(t.value), r.k.fee, 1.0);
      } else {
        AffordableFits(b.cash, o.notional, t.value.price, r.k.fee);
      }
    }
  }

  lemma PostedSolvent(b: Book, t: Trade, fee: real)
    requires Solvent(b) && t.qty > 0.0
    requires if t.buy then Value(t) + FeeOn(t, fee) <= b.cash
             else t.qty <= Held(b.units, t.asset) && FeeOn(t, fee) <= Value(t)
    ensures Solvent(Posted(b, t, fee))
  {
    hide Value, FeeOn;
  }

  lemma ExecutedSolvent(r: Rules, b: Book, o: T.Order, bars: Bars, i: nat)
    requires Prudent(r) && bars.Valid() && i + 1 < bars.length && o.asset < bars.Assets() && Solvent(b)
    ensures Solvent(Executed(r, b, o, bars, i))
  {
    hide FillOf, Markout, Unlevered, Value, FeeOn, Held, Posted, Times;
    FillFits(r, b, o, bars, i);
    var t := FillOf(r, b, o, bars, i);
    if t.Some? {
      PostedSolvent(b.(attempts := b.attempts + 1), t.value, r.k.fee);
    }
  }

  lemma {:induction false} AllExecutedSolvent(r: Rules, b: Book, orders: seq<T.Order>, bars: Bars, i: nat)
    requires Prudent(r) && bars.Valid() && i + 1 < bars.length && Inside(orders, bars.Assets()) && Solvent(b)
    ensures Solvent(ExecutedAll(r, b, orders, bars, i))
  {
    hide Executed, Solvent;
    if |orders| > 0 {
      AllExecutedSolvent(r, b, orders[..|orders| - 1], bars, i);
      ExecutedSolvent(r, ExecutedAll(r, b, orders[..|orders| - 1], bars, i), orders[|orders| - 1], bars, i);
    }
  }

  /** With an invested fraction that leaves room for the fee, no step takes cash or a holding below zero. */
  lemma StepSolvent(r: Rules, b: Book, bars: Bars, i: nat)
    requires Prudent(r) && bars.Valid() && i + 1 < bars.length && Solvent(b)
    ensures Solvent(Stepped(r, b, bars, i))
  {
    hide Opening, PostedAll, ExecutedAll, Equity, Targets, PressureOn, T.Orders, Twin;
    DecisionInside(r, b, bars, i);
    OpeningSolvent(r, b, bars, i);
    var choice := Decided(r, b, bars, i);
    assert Solvent(choice.book);
    AllExecutedSolvent(r, choice.book, choice.orders, bars, i);
  }

  lemma {:induction false} SoloSolvent(r: Rules, idea: Idea, born: nat, cash: real, bars: Bars, first: nat, n: nat)
    requires Prudent(r) && bars.Valid() && first + n < bars.length && cash >= 0.0
    ensures Solvent(Solo(r, idea, born, cash, bars, first, n))
  {
    hide Stepped;
    if n > 0 {
      SoloSolvent(r, idea, born, cash, bars, first, n - 1);
      StepSolvent(r, Solo(r, idea, born, cash, bars, first, n - 1), bars, first + n - 1);
    }
  }
}
