/** The probe-admission budget of main.py in its budget mode: a token bucket that is refilled at each
    decision, priced by scarcity, charged when the probe's order is placed, and refunded when that order
    ends unfilled. */
module ProbeBudget {
  import opened Prelude

  const DAY: real := 86400.0

  datatype Config = Config(tokensPerDay: real, burstHours: real, floor: real, scarcity: bool,
                           lossFraction: real, clipDivisor: real, refunds: bool,
                           droughtFloor: bool, droughtSec: real, spacingSec: real) {
    predicate Valid()
    {
      tokensPerDay >= 0.0 && burstHours >= 0.0 && 0.0 < floor <= 1.0 && lossFraction >= 0.0
    }

    function Capacity(): real { tokensPerDay * burstHours / 24.0 }

    function Rate(): real { tokensPerDay / DAY }
  }

  // ---------------------------------------------------------------- the tuition governor

  datatype Loss = Loss(at: real, usd: real)

  /** The trailing window: entries older than `span` leave from the front. */
  function Pruned(window: seq<Loss>, now: real, span: real): seq<Loss>
  {
    if |window| == 0 || now - window[0].at <= span then window else Pruned(window[1..], now, span)
  }

  function Total(window: seq<Loss>): real
  {
    if |window| == 0 then 0.0 else Total(window[..|window| - 1]) + window[|window| - 1].usd
  }

  /** What a day of probes may lose before the brake engages. */
  function LossCap(cfg: Config, equity: real): real { cfg.lossFraction * equity }

  function Governor(cfg: Config, window: seq<Loss>, equity: real): real
  {
    var cap, lost := LossCap(cfg, equity), Total(window);
    if cap <= 0.0 then cfg.floor
    else if lost <= cap then 1.0
    else Min(Max(cap / lost, cfg.floor), 1.0)
  }

  function Clipped(cfg: Config, equity: real, net: real): real
  {
    Min(Max(0.0, -net), LossCap(cfg, equity) / Max(cfg.clipDivisor, 1.0))
  }

  method PruneEvents(window: seq<Loss>, now: real, span: real) returns (kept: seq<Loss>)
    ensures kept == Pruned(window, now, span)
  {
    kept := window;
    while |kept| > 0 && !(now - kept[0].at <= span)
      invariant Pruned(kept, now, span) == Pruned(window, now, span)
      decreases |kept|
    {
      kept := kept[1..];
    }
  }

  method AddUp(window: seq<Loss>) returns (sum: real)
    ensures sum == Total(window)
  {
    sum := 0.0;
    for i := 0 to |window|
      invariant sum == Total(window[..i])
    {
      assert window[..i + 1][..i] == window[..i];
      sum := sum + window[i].usd;
    }
    assert window[..|window|] == window;
  }

  // ---------------------------------------------------------------- the bucket

  /** An entry order as the budget sees it: `tag` is the refundable price in its meta, `group` the ladder it
      belongs to. */
  datatype Order = Order(probe: bool, tag: Option<real>, group: Option<nat>, filled: bool, open: bool)

  /** A sliced parent: whether it is a probe, the price taken from the stash when it was created, and whether
      its one admission is recorded. */
  datatype Parent = Parent(probe: bool, price: Option<real>, recorded: bool)

  /** The decision the entry loop is acting on. */
  datatype Decision = Decision(asset: int, explored: bool)

  datatype State = State(tokens: real, clock: Option<real>, stash: map<int, real>, pendingAsset: Option<int>,
                         current: Option<Decision>, orders: seq<Order>, parents: seq<Parent>,
                         losses: seq<Loss>, lastEntry: Option<real>, lastFloor: Option<real>)

  const FRESH: State := State(0.0, None, map[], None, None, [], [], [], None, None)

  function Gain(cfg: Config, f: real, dt: real): real { f * cfg.Rate() * dt }

  function Refilled(cfg: Config, s: State, now: real, equity: real): State
  {
    if s.clock.None? then s.(clock := Some(now))
    else
      var losses := Pruned(s.losses, now, DAY);
      var gain := Gain(cfg, Governor(cfg, losses, equity), Max(0.0, now - s.clock.value));
      s.(clock := Some(now), losses := losses, tokens := Min(cfg.Capacity(), s.tokens + gain))
  }

  /** The scarcity price; the two square roots of `_probe_cost` are inputs. */
  function Price(cfg: Config, rootAsset: real, rootRegime: real): (cost: real)
    requires cfg.Valid()
  {
    if !cfg.scarcity then Min(1.0, cfg.Capacity())
    else
      var s := Max(Min(Max(rootAsset, cfg.floor), 1.0), Min(Max(rootRegime, cfg.floor), 1.0));
      Min(1.0 / s * 1.0, cfg.Capacity())
  }

  /** What one decision draws on: the time, the equity, the two roots, the uniform draw, and whether the
      exploration roll wanted a probe at all. */
  datatype Ask = Ask(now: real, equity: real, asset: int, rootAsset: real, rootRegime: real, u: real, wanted: bool)

  predicate Affordable(tokens: real, cost: real, u: real)
    requires tokens > 0.0 ==> cost > 0.0
  {
    tokens > 0.0 && u < Min(Max(tokens / cost, 0.0), 1.0)
  }

  /** The bucket the decision is taken on: stale stash dropped, refilled. */
  function Prepared(cfg: Config, s: State, ask: Ask): State
  {
    Refilled(cfg, s.(pendingAsset := None, stash := s.stash - {ask.asset}), ask.now, ask.equity)
  }

  predicate Admits(cfg: Config, s: State, ask: Ask)
    requires cfg.Valid() && s.tokens <= cfg.Capacity()
  {
    PriceBounds(cfg, ask.rootAsset, ask.rootRegime);
    RefillBounds(cfg, s.(pendingAsset := None, stash := s.stash - {ask.asset}), ask.now, ask.equity);
    Affordable(Prepared(cfg, s, ask).tokens, Price(cfg, ask.rootAsset, ask.rootRegime), ask.u)
  }

  predicate FloorOpen(cfg: Config, s: State, now: real)
  {
    && cfg.droughtFloor && s.lastEntry.Some? && now - s.lastEntry.value >= cfg.droughtSec
    && (s.lastFloor.Some? ==> now - s.lastFloor.value >= cfg.spacingSec)
  }

  /** `_record_probe_admission`: a probe is charged the given price, or else the stashed price of the
      pending asset. */
  function Recorded(s: State, probe: bool, price: Option<real>): State
  {
    if !probe then s
    else if price.Some? then s.(tokens := s.tokens - price.value)
    else if s.pendingAsset.None? then s
    else
      var t := s.(pendingAsset := None, stash := s.stash - {s.pendingAsset.value});
      if s.pendingAsset.value in s.stash then t.(tokens := s.tokens - s.stash[s.pendingAsset.value]) else t
  }

  function Decided(cfg: Config, s: State, ask: Ask): State
    requires cfg.Valid() && s.tokens <= cfg.Capacity()
  {
    if !ask.wanted then s.(current := Some(Decision(ask.asset, false)))
    else
      var t := Prepared(cfg, s, ask);
      if Admits(cfg, s, ask) then
        t.(stash := t.stash[ask.asset := Price(cfg, ask.rootAsset, ask.rootRegime)],
           pendingAsset := Some(ask.asset), current := Some(Decision(ask.asset, true)))
      else if FloorOpen(cfg, t, ask.now) then
        Recorded(t.(lastFloor := Some(ask.now)), true, None).(current := Some(Decision(ask.asset, true)))
      else t.(current := Some(Decision(ask.asset, false)))
  }

  function Quoted(s: State, d: Decision): Option<real>
  {
    if d.explored && d.asset in s.stash then Some(s.stash[d.asset]) else None
  }

  function PlacedDirect(s: State, landed: bool, now: real): State
  {
    if s.current.None? || !landed then s
    else
      var d := s.current.value;
      var order := Order(d.explored, Quoted(s, d), None, false, true);
      Recorded(s.(orders := s.orders + [order]), d.explored, None).(current := None, lastEntry := Some(now))
  }

  /** The rungs that rested, the refundable price on the first of them. */
  function Rungs(landed: seq<bool>, probe: bool, price: Option<real>, group: nat): seq<Order>
  {
    if |landed| == 0 then []
    else
      var before := Rungs(landed[..|landed| - 1], probe, price, group);
      if !landed[|landed| - 1] then before
      else before + [Order(probe, if before == [] then price else None, Some(group), false, true)]
  }

  function PlacedLadder(s: State, landed: seq<bool>, now: real): State
  {
    if s.current.None? then s
    else
      var d := s.current.value;
      var rungs := Rungs(landed, d.explored, Quoted(s, d), |s.orders|);
      if rungs == [] then s
      else Recorded(s.(orders := s.orders + rungs), d.explored, None).(current := None, lastEntry := Some(now))
  }

  function ParentMade(s: State): State
  {
    if s.current.None? then s
    else
      var d := s.current.value;
      var t := s.(parents := s.parents + [Parent(d.explored, Quoted(s, d), false)], current := None);
      if d.explored then t.(stash := s.stash - {d.asset}, pendingAsset := None) else t
  }

  function ChildPlaced(s: State, i: int, landed: bool, now: real): State
  {
    if !(0 <= i < |s.parents|) || !landed then s
    else if s.parents[i].recorded then s.(lastEntry := Some(now))
    else
      var p := s.parents[i];
      Recorded(s.(parents := s.parents[i := p.(recorded := true)]), p.probe, p.price).(lastEntry := Some(now))
  }

  predicate Refundable(o: Order) { o.probe && o.tag.Some? && !o.filled }

  /** `_maybe_refund_probe_order` on an order's final event: the tag goes, and an unfilled probe gets its
      price back. */
  function Settled(cfg: Config, s: State, i: nat): State
    requires i < |s.orders|
  {
    var o := s.orders[i];
    if !o.probe || o.tag.None? then s
    else
      var t := s.(orders := s.orders[i := o.(tag := None)]);
      if o.filled || !cfg.refunds then t
      else t.(tokens := Min(cfg.Capacity(), s.tokens + o.tag.value))
  }

  function Untagged(o: Order, group: nat): Order
  {
    if o.open && o.group == Some(group) then o.(tag := None) else o
  }

  /** `_drop_ladder_probe_tag`: a fill anywhere in a ladder ends the refund for its open rungs. */
  function GroupDropped(orders: seq<Order>, group: Option<nat>): (r: seq<Order>)
    ensures |r| == |orders|
  {
    if group.None? then orders
    else seq(|orders|, i requires 0 <= i < |orders| => Untagged(orders[i], group.value))
  }

  /** One fill event of an entry order: the order manager has already booked it on the order. */
  function FillSeen(cfg: Config, s: State, i: int, size: real, final: bool): State
  {
    if !(0 <= i < |s.orders|) || !s.orders[i].open then s
    else
      var o := s.orders[i].(filled := s.orders[i].filled || size > 0.0, open := !final);
      var booked := s.(orders := s.orders[i := o]);
      var settled := if final then Settled(cfg, booked, i) else booked;
      if size > EPS then settled.(orders := GroupDropped(settled.orders, o.group)) else settled
  }

  function ProbeClosed(cfg: Config, s: State, net: real, now: real, equity: real): State
  {
    s.(losses := Pruned(s.losses + [Loss(now, Clipped(cfg, equity, net))], now, DAY))
  }

  /** The drought clock starts with the first cycle. */
  function Ticked(s: State, now: real): State { if s.lastEntry.None? then s.(lastEntry := Some(now)) else s }

  /** What a snapshot holds of the budget. Of the orders the source keeps the open ones; the others change nothing
      any more. The drought clock is kept as the running time since the last entry. */
  datatype Saved = Saved(tokens: real, losses: seq<Loss>, orders: seq<Order>, idle: real, lastFloor: Option<real>)

  function Saving(s: State, at: real): Saved
  {
    Saved(s.tokens, s.losses, s.orders,
          if s.lastEntry.None? then 0.0 else Max(0.0, at - s.lastEntry.value), s.lastFloor)
  }

  /** A process that starts from a snapshot: the balance comes back inside [-C, C]; the refill clock, the stash and
      the sliced parents do not. */
  function Resumed(cfg: Config, saved: Saved, boot: real): State
  {
    State(Min(Max(saved.tokens, -cfg.Capacity()), cfg.Capacity()), None, map[], None, None, saved.orders, [],
          saved.losses, Some(boot - saved.idle), saved.lastFloor)
  }

  /** A clean stop, which saves, and the next start. */
  function Restarted(cfg: Config, s: State, at: real, boot: real): State
  {
    Resumed(cfg, Saving(s, at), boot)
  }

  // ---------------------------------------------------------------- bounds of one step

  lemma CapacityIsNonNegative(cfg: Config)
    requires cfg.Valid()
    ensures cfg.Capacity() >= 0.0 && cfg.Rate() >= 0.0
  {
    assert cfg.tokensPerDay * cfg.burstHours >= 0.0;
  }

  /** A price is at most the capacity and at least one token (or the capacity), and positive when the bucket can
      hold anything. */
  lemma PriceBounds(cfg: Config, rootAsset: real, rootRegime: real)
    requires cfg.Valid()
    ensures var cost := Price(cfg, rootAsset, rootRegime);
            && Min(1.0, cfg.Capacity()) <= cost <= cfg.Capacity() && cost <= 1.0 / cfg.floor
            && (cfg.Capacity() > 0.0 ==> cost > 0.0) && cost >= 0.0
  {
    CapacityIsNonNegative(cfg);
    var s := Max(Min(Max(rootAsset, cfg.floor), 1.0), Min(Max(rootRegime, cfg.floor), 1.0));
    assert 0.0 < cfg.floor <= s <= 1.0;
    Reciprocal(cfg.floor, s);
    Reciprocal(s, 1.0);
  }

  /** What sets the price: one token without scarcity pricing; with it, one token as soon as either root reaches one,
      the reciprocal of the floor when both are at it or below, the reciprocal of the larger one in between, and never
      more than the capacity; and a larger root on either side never makes a probe dearer. */
  lemma PriceExact(cfg: Config, rootAsset: real, rootRegime: real, asset: real, regime: real)
    requires cfg.Valid()
    ensures !cfg.scarcity ==> Price(cfg, rootAsset, rootRegime) == Min(1.0, cfg.Capacity())
    ensures var cost, larger := Price(cfg, rootAsset, rootRegime), Max(rootAsset, rootRegime);
            cfg.scarcity ==>
            && (larger >= 1.0 ==> cost == Min(1.0, cfg.Capacity()))
            && (larger <= cfg.floor ==> cost == Min(1.0 / cfg.floor, cfg.Capacity()))
            && (cfg.floor <= larger <= 1.0 ==> cost == Min(1.0 / larger, cfg.Capacity()))
            && (asset >= rootAsset && regime >= rootRegime ==> Price(cfg, asset, regime) <= cost)
  {
    var s := Min(Max(Max(rootAsset, rootRegime), cfg.floor), 1.0);
    var t := Min(Max(Max(asset, regime), cfg.floor), 1.0);
    assert 1.0 / s * 1.0 == 1.0 / s && 1.0 / t * 1.0 == 1.0 / t;
    if asset >= rootAsset && regime >= rootRegime { Reciprocal(s, t); }
  }

  lemma Fraction(a: real, b: real)
    requires 0.0 < a < b
    ensures 0.0 < a / b < 1.0
  {
    var x := a / b;
    assert Times(x, b) == a;
    if x >= 1.0 { TimesMonotone(b, 1.0, x); }
    if x <= 0.0 { TimesMonotone(b, x, 0.0); }
  }

  /** The brake stays between its floor and one, and engages exactly when the clipped losses of the window
      exceed the cap. */
  lemma GovernorInRange(cfg: Config, window: seq<Loss>, equity: real)
    requires cfg.Valid()
    ensures cfg.floor <= Governor(cfg, window, equity) <= 1.0
    ensures LossCap(cfg, equity) > 0.0 && cfg.floor < 1.0
            ==> (Governor(cfg, window, equity) < 1.0 <==> Total(window) > LossCap(cfg, equity))
    ensures cfg.floor < Governor(cfg, window, equity) < 1.0
            ==> Governor(cfg, window, equity) * Total(window) == cfg.lossFraction * equity
    ensures cfg.lossFraction * equity <= 0.0 ==> Governor(cfg, window, equity) == cfg.floor
  {
    hide Total;
    var cap, lost := LossCap(cfg, equity), Total(window);
    if 0.0 < cap < lost {
      Fraction(cap, lost);
      assert cap / lost * lost == cap;
    }
  }

  /** In a window kept in order of time, pruning drops exactly the entries older than the span. */
  lemma {:induction false} PrunedExact(window: seq<Loss>, now: real, span: real)
    requires forall i, j :: 0 <= i < j < |window| ==> window[i].at <= window[j].at
    ensures var kept, gone := Pruned(window, now, span), |window| - |Pruned(window, now, span)|;
            && 0 <= gone && kept == window[gone..]
            && forall i :: 0 <= i < |window| ==> (now - window[i].at <= span <==> i >= gone)
  {
    if |window| > 0 && now - window[0].at > span {
      PrunedExact(window[1..], now, span);
      assert forall i :: 1 <= i < |window| ==> window[i] == window[1..][i - 1];
    }
  }

  /** Each close adds at most the cap over the divisor, so a window of no more losses than the divisor never
      engages the brake: one probe, or two, is not evidence. */
  lemma FewLossesNeverBrake(cfg: Config, window: seq<Loss>, equity: real)
    requires cfg.Valid() && LossCap(cfg, equity) > 0.0 && |window| as real <= Max(cfg.clipDivisor, 1.0)
    requires forall i :: 0 <= i < |window| ==> exists net :: window[i].usd == Clipped(cfg, equity, net)
    ensures Governor(cfg, window, equity) == 1.0
  {
    hide LossCap;
    var cap, d := LossCap(cfg, equity), Max(cfg.clipDivisor, 1.0);
    var each := cap / d;
    assert Times(d, each) == cap && each >= 0.0;
    TotalBound(window, each);
    TimesMonotone(each, |window| as real, d);
  }

  lemma {:induction false} TotalBound(window: seq<Loss>, each: real)
    requires forall i :: 0 <= i < |window| ==> window[i].usd <= each
    ensures Total(window) <= Times(|window| as real, each)
  {
    if |window| > 0 {
      TotalBound(window[..|window| - 1], each);
    }
  }

  /** The refill, in the configuration's own terms: the first one only starts the clock; a later one adds the daily
      tokens for the time passed, braked by the governor's share, and never beyond the hours' worth the bucket
      holds. Time that runs backwards adds nothing. */
  lemma RefillExact(cfg: Config, s: State, now: real, equity: real)
    requires cfg.Valid() && s.tokens <= cfg.Capacity()
    ensures var t := Refilled(cfg, s, now, equity);
            && t.clock == Some(now)
            && t.losses == (if s.clock.None? then s.losses else Pruned(s.losses, now, 86400.0))
            && (s.clock.None? ==> t.tokens == s.tokens)
            && (s.clock.Some? && now <= s.clock.value ==> t.tokens == s.tokens)
            && (s.clock.Some? && now >= s.clock.value ==>
                  var due := s.tokens + Governor(cfg, Pruned(s.losses, now, DAY), equity) *
                                        ((now - s.clock.value) * cfg.tokensPerDay / 86400.0);
                  var full := cfg.tokensPerDay * cfg.burstHours / 24.0;
                  t.tokens == if due <= full then due else full)
  {
    hide Governor, Pruned;
    if s.clock.Some? {
      var f, dt := Governor(cfg, Pruned(s.losses, now, DAY), equity), Max(0.0, now - s.clock.value);
      GainIs(cfg, f, dt);
    }
  }

  lemma GainIs(cfg: Config, f: real, dt: real)
    ensures Gain(cfg, f, dt) == f * (dt * cfg.tokensPerDay / 86400.0)
    ensures Gain(cfg, f, 0.0) == 0.0
  {
    var perSecond := cfg.tokensPerDay / DAY;
    assert perSecond * 86400.0 == cfg.tokensPerDay;
    assert dt * cfg.tokensPerDay / 86400.0 == dt * perSecond;
    assert f * perSecond * dt == f * (dt * perSecond);
  }

  /** What the roll decides. With a draw from [0, 1) a wanted probe is priced and its price stashed exactly when the
      refilled balance is positive and the draw times the price is below it: always when the balance covers the
      price, and never with a draw at or above the balance over the price. What is not admitted stashes nothing. */
  lemma AdmissionExact(cfg: Config, s: State, ask: Ask)
    requires cfg.Valid() && s.tokens <= cfg.Capacity() && ask.wanted && 0.0 <= ask.u < 1.0
    ensures var clean := s.(pendingAsset := None, stash := s.stash - {ask.asset});
            var tokens := Refilled(cfg, clean, ask.now, ask.equity).tokens;
            var cost, t := Price(cfg, ask.rootAsset, ask.rootRegime), Decided(cfg, s, ask);
            && (t.pendingAsset == Some(ask.asset) <==> tokens > 0.0 && ask.u * cost < tokens)
            && (ask.asset in t.stash <==> tokens > 0.0 && ask.u * cost < tokens)
            && (ask.asset in t.stash ==> t.stash[ask.asset] == cost && t.current == Some(Decision(ask.asset, true)))
            && (tokens > 0.0 && tokens >= cost ==> ask.asset in t.stash)
            && (tokens > 0.0 && ask.u >= tokens / cost ==> ask.asset !in t.stash)
            && t.tokens == tokens
  {
    hide Price, Refilled, FloorOpen;
    var clean := s.(pendingAsset := None, stash := s.stash - {ask.asset});
    var tokens, cost := Refilled(cfg, clean, ask.now, ask.equity).tokens, Price(cfg, ask.rootAsset, ask.rootRegime);
    PriceBounds(cfg, ask.rootAsset, ask.rootRegime);
    RefillBounds(cfg, clean, ask.now, ask.equity);
    RefillFrame(cfg, clean, ask.now, ask.equity);
    if tokens > 0.0 { RollExact(tokens, cost, ask.u); }
  }

  lemma RollExact(tokens: real, cost: real, u: real)
    requires tokens > 0.0 && cost > 0.0 && 0.0 <= u < 1.0
    ensures Affordable(tokens, cost, u) <==> u * cost < tokens
    ensures tokens >= cost ==> u * cost < tokens
    ensures u >= tokens / cost <==> u * cost >= tokens
  {
    Ratio(tokens, cost, u);
    StrictTimes(cost, u, 1.0);
    assert u * cost < cost;
  }

  lemma Ratio(a: real, b: real, x: real)
    requires a > 0.0 && b > 0.0
    ensures x >= a / b <==> x * b >= a
    ensures a / b > 0.0 && (a / b >= 1.0 <==> a >= b)
  {
    var ratio := a / b;
    assert ratio * b == a;
    assert (x - ratio) * b == x * b - a;
    if x < ratio { NegativeTimes(x - ratio, b); }
    assert (ratio - 1.0) * b == a - b;
    if ratio < 1.0 { NegativeTimes(ratio - 1.0, b); }
    if ratio < 0.0 { NegativeTimes(ratio, b); }
  }

  lemma RefillBounds(cfg: Config, s: State, now: real, equity: real)
    requires cfg.Valid()
    ensures var t := Refilled(cfg, s, now, equity);
            && (s.tokens <= cfg.Capacity() ==> s.tokens <= t.tokens <= cfg.Capacity())
            && t.tokens - s.tokens <= (if s.clock.Some? then Times(cfg.Rate(), Max(0.0, now - s.clock.value)) else 0.0)
            && t.clock == Some(now)
  {
    CapacityIsNonNegative(cfg);
    if s.clock.Some? {
      var losses := Pruned(s.losses, now, DAY);
      GovernorInRange(cfg, losses, equity);
      GainBounds(Governor(cfg, losses, equity), cfg.Rate(), Max(0.0, now - s.clock.value));
    }
  }

  lemma GainBounds(f: real, rate: real, dt: real)
    requires 0.0 <= f <= 1.0 && rate >= 0.0 && dt >= 0.0
    ensures 0.0 <= f * rate * dt <= Times(rate, dt)
  {
    assert 0.0 <= rate * dt;
    assert f * rate * dt == f * (rate * dt);
  }

  // ---------------------------------------------------------------- the class

  class LiquidityBot {
    const cfg: Config
    var tokens: real
    var clock: Option<real>
    var stash: map<int, real>
    var pendingAsset: Option<int>
    var current: Option<Decision>
    var orders: seq<Order>
    var parents: seq<Parent>
    var losses: seq<Loss>
    var lastEntry: Option<real>
    var lastFloor: Option<real>

    ghost function Now(): State
      reads this
    {
      State(tokens, clock, stash, pendingAsset, current, orders, parents, losses, lastEntry, lastFloor)
    }

    constructor (config: Config)
      ensures cfg == config && Now() == FRESH
    {
      cfg := config;
      tokens, clock, stash, pendingAsset, current := 0.0, None, map[], None, None;
      orders, parents, losses, lastEntry, lastFloor := [], [], [], None, None;
    }

    constructor Resume(config: Config, saved: Saved, boot: real)
      ensures cfg == config && Now() == Resumed(config, saved, boot)
    {
      cfg := config;
      tokens := Min(Max(saved.tokens, -config.Capacity()), config.Capacity());
      clock, stash, pendingAsset, current := None, map[], None, None;
      orders, parents, losses := saved.orders, [], saved.losses;
      lastEntry, lastFloor := Some(boot - saved.idle), saved.lastFloor;
    }

    method Snapshot(at: real) returns (saved: Saved)
      ensures saved == Saving(Now(), at)
    {
      var since := if lastEntry.None? then at else lastEntry.value;
      saved := Saved(tokens, losses, orders, Max(0.0, at - since), lastFloor);
    }

    method SeedDroughtClock(now: real)
      modifies this`lastEntry
      ensures Now() == Ticked(old(Now()), now)
    {
      if lastEntry.None? {
        lastEntry := Some(now);
      }
    }

    method BudgetRefill(now: real, equity: real)
      modifies this
      ensures Now() == Refilled(cfg, old(Now()), now, equity)
    {
      hide Pruned, Governor, Gain, Min, Max, Config.Capacity;
      var last := clock;
      clock := Some(now);
      if last.None? { return; }
      var dt := Max(0.0, now - last.value);
      losses := PruneEvents(losses, now, DAY);
      var f := TuitionGovernorFactor(equity);
      tokens := Min(cfg.Capacity(), tokens + Gain(cfg, f, dt));
    }

    method TuitionGovernorFactor(equity: real) returns (f: real)
      ensures f == Governor(cfg, losses, equity)
    {
      var cap := LossCap(cfg, equity);
      var lost := AddUp(losses);
      if cap <= 0.0 {
        f := cfg.floor;
      } else if lost <= cap {
        f := 1.0;
      } else {
        f := Min(Max(cap / lost, cfg.floor), 1.0);
      }
    }

    method ProbeAdmissionDecision(ask: Ask)
      requires cfg.Valid() && tokens <= cfg.Capacity()
      modifies this
      ensures Now() == Decided(cfg, old(Now()), ask)
    {
      hide Price, Min, Max;
      if !ask.wanted {
        current := Some(Decision(ask.asset, false));
        return;
      }
      ghost var clean := old(Now()).(pendingAsset := None, stash := old(stash) - {ask.asset});
      pendingAsset := None;
      stash := stash - {ask.asset};
      BudgetRefill(ask.now, ask.equity);
      assert Now() == Prepared(cfg, old(Now()), ask);
      var cost := Price(cfg, ask.rootAsset, ask.rootRegime);
      PriceBounds(cfg, ask.rootAsset, ask.rootRegime);
      RefillBounds(cfg, clean, ask.now, ask.equity);
      var admitted := false;
      if tokens > 0.0 {
        var p := Min(Max(tokens / cost, 0.0), 1.0);
        admitted := ask.u < p;
      }
      if admitted {
        stash := stash[ask.asset := cost];
        pendingAsset := Some(ask.asset);
        current := Some(Decision(ask.asset, true));
      } else {
        DroughtFloor(ask);
      }
    }

    method DroughtFloor(ask: Ask)
      requires pendingAsset == None
      modifies this
      ensures var t := old(Now());
              Now() == if FloorOpen(cfg, t, ask.now)
                       then Recorded(t.(lastFloor := Some(ask.now)), true, None)
                             .(current := Some(Decision(ask.asset, true)))
                       else t.(current := Some(Decision(ask.asset, false)))
    {
      if cfg.droughtFloor && lastEntry.Some? && ask.now - lastEntry.value >= cfg.droughtSec &&
         (lastFloor.None? || ask.now - lastFloor.value >= cfg.spacingSec) {
        lastFloor := Some(ask.now);
        RecordProbeAdmission(true, None);
        current := Some(Decision(ask.asset, true));
      } else {
        current := Some(Decision(ask.asset, false));
      }
    }

    method RecordProbeAdmission(probe: bool, price: Option<real>)
      modifies this
      ensures Now() == Recorded(old(Now()), probe, price)
    {
      if !probe { return; }
      var cost := price;
      if cost.None? {
        if pendingAsset.None? { return; }
        var asset := pendingAsset.value;
        cost := if asset in stash then Some(stash[asset]) else None;
        stash := stash - {asset};
        pendingAsset := None;
        if cost.None? { return; }
      }
      tokens := tokens - cost.value;
    }

    method EnterDirect(landed: bool, now: real)
      modifies this
      ensures Now() == PlacedDirect(old(Now()), landed, now)
    {
      if current.None? || !landed { return; }
      var d := current.value;
      var tag := if d.explored && d.asset in stash then Some(stash[d.asset]) else None;
      orders := orders + [Order(d.explored, tag, None, false, true)];
      RecordProbeAdmission(d.explored, None);
      current, lastEntry := None, Some(now);
    }

    method PlaceLadder(landed: seq<bool>, probe: bool, price: Option<real>) returns (placed: nat)
      modifies this
      ensures var rungs := Rungs(landed, probe, price, |old(orders)|);
              placed == |rungs| && Now() == old(Now()).(orders := old(orders) + rungs)
    {
      placed := 0;
      var group := |orders|;
      for i := 0 to |landed|
        invariant var rungs := Rungs(landed[..i], probe, price, group);
                  placed == |rungs| && Now() == old(Now()).(orders := old(orders) + rungs)
      {
        assert landed[..i + 1][..i] == landed[..i];
        if landed[i] {
          placed := placed + 1;
          var order := Order(probe, None, Some(group), false, true);
          if price.Some? && placed == 1 {
            order := order.(tag := price);
          }
          orders := orders + [order];
        }
      }
      assert landed[..|landed|] == landed;
    }

    method LadderEntry(landed: seq<bool>, now: real)
      modifies this
      ensures Now() == PlacedLadder(old(Now()), landed, now)
    {
      if current.None? { return; }
      var d := current.value;
      var price := if d.explored && d.asset in stash then Some(stash[d.asset]) else None;
      var placed := PlaceLadder(landed, d.explored, price);
      assert orders == old(orders) + Rungs(landed, d.explored, price, |old(orders)|);
      if placed == 0 { return; }
      RecordProbeAdmission(d.explored, None);
      current, lastEntry := None, Some(now);
    }

    method CreateAlgoParent()
      modifies this
      ensures Now() == ParentMade(old(Now()))
    {
      if current.None? { return; }
      var d := current.value;
      var price: Option<real> := None;
      if d.explored {
        price := if d.asset in stash then Some(stash[d.asset]) else None;
        stash := stash - {d.asset};
        pendingAsset := None;
      }
      parents := parents + [Parent(d.explored, price, false)];
      current := None;
    }

    method SubmitAlgoChild(i: int, landed: bool, now: real)
      modifies this
      ensures Now() == ChildPlaced(old(Now()), i, landed, now)
    {
      if !(0 <= i < |parents|) || !landed { return; }
      if !parents[i].recorded {
        var p := parents[i];
        parents := parents[i := p.(recorded := true)];
        RecordProbeAdmission(p.probe, p.price);
      }
      lastEntry := Some(now);
    }

    method MaybeRefund(i: nat)
      requires i < |orders|
      modifies this
      ensures Now() == Settled(cfg, old(Now()), i)
    {
      var o := orders[i];
      if !o.probe || o.tag.None? { return; }
      orders := orders[i := o.(tag := None)];
      if o.filled || !cfg.refunds { return; }
      tokens := Min(cfg.Capacity(), tokens + o.tag.value);
    }

    method DropLadderProbeTag(group: Option<nat>)
      modifies this`orders
      ensures orders == GroupDropped(old(orders), group)
    {
      if group.None? { return; }
      for i := 0 to |orders|
        invariant |orders| == |old(orders)|
        invariant forall j :: 0 <= j < |orders| ==>
                    orders[j] == if j < i then Untagged(old(orders)[j], group.value) else old(orders)[j]
      {
        if orders[i].open && orders[i].group == group {
          orders := orders[i := orders[i].(tag := None)];
        }
      }
    }

    method HandleFill(i: int, size: real, final: bool)
      modifies this
      ensures Now() == FillSeen(cfg, old(Now()), i, size, final)
    {
      if !(0 <= i < |orders|) || !orders[i].open { return; }
      var o := orders[i];
      o := o.(filled := o.filled || size > 0.0, open := !final);
      orders := orders[i := o];
      if final {
        MaybeRefund(i);
      }
      if size > EPS {
        DropLadderProbeTag(o.group);
      }
    }

    method NoteProbeTuition(net: real, now: real, equity: real)
      modifies this
      ensures Now() == ProbeClosed(cfg, old(Now()), net, now, equity)
    {
      var clip := LossCap(cfg, equity) / Max(cfg.clipDivisor, 1.0);
      assert Clipped(cfg, equity, net) == Min(Max(0.0, -net), clip);
      losses := losses + [Loss(now, Min(Max(0.0, -net), clip))];
      losses := PruneEvents(losses, now, DAY);
    }
  }

  // ---------------------------------------------------------------- runs

  datatype Event =
    | Decide(ask: Ask)
    | Direct(landed: bool, at: real)
    | Ladder(rungs: seq<bool>, at: real)
    | Slice
    | Child(parent: int, landed: bool, at: real)
    | FillOf(order: int, size: real, final: bool)
    | Close(net: real, at: real, equity: real)
    | Tick(at: real)
    | Restart(at: real, boot: real)

  function Next(cfg: Config, s: State, e: Event): State
    requires cfg.Valid() && s.tokens <= cfg.Capacity()
  {
    match e
    case Decide(ask) => Decided(cfg, s, ask)
    case Direct(landed, now) => PlacedDirect(s, landed, now)
    case Ladder(landed, now) => PlacedLadder(s, landed, now)
    case Slice => ParentMade(s)
    case Child(i, landed, now) => ChildPlaced(s, i, landed, now)
    case FillOf(i, size, final) => FillSeen(cfg, s, i, size, final)
    case Close(net, now, equity) => ProbeClosed(cfg, s, net, now, equity)
    case Tick(now) => Ticked(s, now)
    case Restart(at, boot) => Restarted(cfg, s, at, boot)
  }

  predicate InRange(cfg: Config, price: Option<real>) { price.Some? ==> 0.0 <= price.value <= cfg.Capacity() }

  /** The balance is within the capacity and every price on file is within it too. A stashed price is the
      pending asset's, when it is the current decision's. */
  predicate Inv(cfg: Config, s: State)
  {
    && s.tokens <= cfg.Capacity()
    && (forall a :: a in s.stash ==> 0.0 <= s.stash[a] <= cfg.Capacity())
    && (forall i :: 0 <= i < |s.orders| ==> InRange(cfg, s.orders[i].tag))
    && (forall i :: 0 <= i < |s.parents| ==> InRange(cfg, s.parents[i].price))
    && (s.pendingAsset.Some? ==> s.pendingAsset.value in s.stash)
    && (s.current.Some? && s.current.value.explored && s.current.value.asset in s.stash
        ==> s.pendingAsset == Some(s.current.value.asset))
    && (s.current.Some? && s.current.value.explored && s.pendingAsset.Some?
        ==> s.pendingAsset == Some(s.current.value.asset))
  }

  lemma {:induction false} RungsInRange(cfg: Config, landed: seq<bool>, probe: bool, price: Option<real>, group: nat)
    requires InRange(cfg, price)
    ensures forall i :: 0 <= i < |Rungs(landed, probe, price, group)| ==>
              InRange(cfg, Rungs(landed, probe, price, group)[i].tag)
  {
    if |landed| > 0 {
      RungsInRange(cfg, landed[..|landed| - 1], probe, price, group);
    }
  }

  lemma DecideKeeps(cfg: Config, s: State, ask: Ask)
    requires cfg.Valid() && Inv(cfg, s)
    ensures Inv(cfg, Decided(cfg, s, ask))
  {
    hide Price, Affordable;
    PriceBounds(cfg, ask.rootAsset, ask.rootRegime);
    RefillBounds(cfg, s.(pendingAsset := None, stash := s.stash - {ask.asset}), ask.now, ask.equity);
  }

  lemma FillKeeps(cfg: Config, s: State, i: int, size: real, final: bool)
    requires cfg.Valid() && Inv(cfg, s)
    ensures Inv(cfg, FillSeen(cfg, s, i, size, final))
  {
  }

  lemma ChildKeeps(cfg: Config, s: State, i: int, landed: bool, now: real)
    requires cfg.Valid() && Inv(cfg, s)
    ensures Inv(cfg, ChildPlaced(s, i, landed, now))
  {
    if 0 <= i < |s.parents| && landed && !s.parents[i].recorded {
      var p := s.parents[i];
      RecordKeeps(cfg, s.(parents := s.parents[i := p.(recorded := true)]), p.probe, p.price);
    }
  }

  lemma RecordKeeps(cfg: Config, s: State, probe: bool, price: Option<real>)
    requires Inv(cfg, s) && InRange(cfg, price)
    ensures Inv(cfg, Recorded(s, probe, price))
  {
    if s.pendingAsset.Some? {
      var a := s.pendingAsset.value;
      assert a in s.stash;
      assert 0.0 <= s.stash[a];
    }
  }

  lemma NextKeeps(cfg: Config, s: State, e: Event)
    requires cfg.Valid() && Inv(cfg, s)
    ensures Inv(cfg, Next(cfg, s, e))
  {
    hide Decided, FillSeen, ChildPlaced;
    CapacityIsNonNegative(cfg);
    match e {
      case Decide(ask) => DecideKeeps(cfg, s, ask);
      case Direct(landed, now) =>
      case Ladder(landed, now) =>
        if s.current.Some? {
          RungsInRange(cfg, landed, s.current.value.explored, Quoted(s, s.current.value), |s.orders|);
        }
      case Slice =>
      case Child(i, landed, now) => ChildKeeps(cfg, s, i, landed, now);
      case FillOf(i, size, final) => FillKeeps(cfg, s, i, size, final);
      case Close(net, now, equity) =>
      case Tick(now) =>
      case Restart(at, boot) =>
    }
  }

  function Run(cfg: Config, s: State, events: seq<Event>): (r: State)
    requires cfg.Valid() && Inv(cfg, s)
    ensures Inv(cfg, r)
  {
    if |events| == 0 then s
    else
      var before := Run(cfg, s, events[..|events| - 1]);
      NextKeeps(cfg, before, events[|events| - 1]);
      Next(cfg, before, events[|events| - 1])
  }

  /** What an event takes out of the bucket, and what it puts back before the clamp. */
  function Charge(s: State, e: Event): real
  {
    match e
    case Direct(landed, now) => if landed && s.current.Some? then PendingPrice(s, s.current.value.explored) else 0.0
    case Ladder(landed, now) =>
      if true in landed && s.current.Some? then PendingPrice(s, s.current.value.explored) else 0.0
    case Child(i, landed, now) =>
      if !(0 <= i < |s.parents|) || !landed || s.parents[i].recorded then 0.0
      else if s.parents[i].probe && s.parents[i].price.Some? then s.parents[i].price.value
      else PendingPrice(s, s.parents[i].probe)
    case _ => 0.0
  }

  function PendingPrice(s: State, probe: bool): real
  {
    if probe && s.pendingAsset.Some? && s.pendingAsset.value in s.stash then s.stash[s.pendingAsset.value] else 0.0
  }

  function Refund(cfg: Config, s: State, e: Event): real
  {
    if e.FillOf? && 0 <= e.order < |s.orders| && s.orders[e.order].open && e.final && e.size <= 0.0
       && cfg.refunds && Refundable(s.orders[e.order])
    then s.orders[e.order].tag.value else 0.0
  }

  // ---------------------------------------------------------------- the bucket's guarantee

  /** The debt bound: the balance stays above -C, and a price waiting to be charged was admitted on a
      positive balance. */
  predicate Low(cfg: Config, s: State)
  {
    && -cfg.Capacity() <= s.tokens && (cfg.Capacity() > 0.0 ==> -cfg.Capacity() < s.tokens)
    && (s.pendingAsset.Some? ==> s.tokens > 0.0)
  }

  lemma LowKeeps(cfg: Config, s: State, e: Event)
    requires cfg.Valid() && Inv(cfg, s) && Low(cfg, s) && !e.Child?
    ensures Low(cfg, Next(cfg, s, e))
  {
    hide Decided, FillSeen;
    CapacityIsNonNegative(cfg);
    match e {
      case Decide(ask) => DecideKeepsLow(cfg, s, ask);
      case Direct(landed, now) => PendingInRange(cfg, s);
      case Ladder(landed, now) => PendingInRange(cfg, s);
      case Slice =>
      case FillOf(i, size, final) => FillTokens(cfg, s, i, size, final);
      case Close(net, now, equity) =>
      case Tick(now) =>
      case Restart(at, boot) =>
    }
  }

  lemma PendingInRange(cfg: Config, s: State)
    requires Inv(cfg, s)
    ensures s.pendingAsset.Some? ==>
              s.pendingAsset.value in s.stash && 0.0 <= s.stash[s.pendingAsset.value] <= cfg.Capacity()
  {
    if s.pendingAsset.Some? {
      var a := s.pendingAsset.value;
      assert a in s.stash;
    }
  }

  lemma DecideKeepsLow(cfg: Config, s: State, ask: Ask)
    requires cfg.Valid() && Inv(cfg, s) && Low(cfg, s)
    ensures Low(cfg, Decided(cfg, s, ask)) && Decided(cfg, s, ask).tokens >= s.tokens
  {
    hide Price, Config.Capacity;
    PriceBounds(cfg, ask.rootAsset, ask.rootRegime);
    RefillBounds(cfg, s.(pendingAsset := None, stash := s.stash - {ask.asset}), ask.now, ask.equity);
  }

  /** A fill event moves the balance only by a refund, which the clamp may cut. */
  lemma FillTokens(cfg: Config, s: State, i: int, size: real, final: bool)
    requires cfg.Valid() && Inv(cfg, s)
    ensures var t, back := FillSeen(cfg, s, i, size, final), Refund(cfg, s, FillOf(i, size, final));
            && 0.0 <= back && s.tokens <= t.tokens <= s.tokens + back
            && t.clock == s.clock && t.pendingAsset == s.pendingAsset && t.stash == s.stash && t.current == s.current
  {
  }

  lemma {:induction false} LowAlways(cfg: Config, s: State, events: seq<Event>)
    requires cfg.Valid() && Inv(cfg, s) && Low(cfg, s)
    requires forall i :: 0 <= i < |events| ==> !events[i].Child?
    ensures Low(cfg, Run(cfg, s, events))
  {
    hide Next, Inv, Low;
    if |events| > 0 {
      assert !events[|events| - 1].Child?;
      LowAlways(cfg, s, events[..|events| - 1]);
      LowKeeps(cfg, Run(cfg, s, events[..|events| - 1]), events[|events| - 1]);
    }
  }

  function Charged(cfg: Config, s: State, events: seq<Event>): real
    requires cfg.Valid() && Inv(cfg, s)
  {
    if |events| == 0 then 0.0
    else Charged(cfg, s, events[..|events| - 1]) + Charge(Run(cfg, s, events[..|events| - 1]), events[|events| - 1])
  }

  function Refunded(cfg: Config, s: State, events: seq<Event>): real
    requires cfg.Valid() && Inv(cfg, s)
  {
    if |events| == 0 then 0.0
    else Refunded(cfg, s, events[..|events| - 1]) +
         Refund(cfg, Run(cfg, s, events[..|events| - 1]), events[|events| - 1])
  }

  /** The time of the latest refill, starting at `from`; `Ordered` says time does not run backwards. */
  function Latest(from: real, events: seq<Event>): real
  {
    if |events| == 0 then from
    else if events[|events| - 1].Decide? && events[|events| - 1].ask.wanted then events[|events| - 1].ask.now
    else Latest(from, events[..|events| - 1])
  }

  predicate Ordered(from: real, events: seq<Event>)
  {
    |events| == 0 ||
    (Ordered(from, events[..|events| - 1]) &&
     (events[|events| - 1].Decide? && events[|events| - 1].ask.wanted
      ==> events[|events| - 1].ask.now >= Latest(from, events[..|events| - 1])))
  }

  /** The clock is not behind the latest refill counted from `from`. */
  predicate ClockAfter(s: State, at: real) { s.clock.Some? ==> s.clock.value >= at }

  lemma TokensStep(cfg: Config, s: State, e: Event, at: real)
    requires cfg.Valid() && Inv(cfg, s) && Low(cfg, s) && !e.Child? && ClockAfter(s, at)
    requires e.Decide? && e.ask.wanted ==> e.ask.now >= at
    ensures var later := if e.Decide? && e.ask.wanted then e.ask.now else at;
            && Next(cfg, s, e).tokens <= s.tokens - Charge(s, e) + Refund(cfg, s, e) + Times(cfg.Rate(), later - at)
            && ClockAfter(Next(cfg, s, e), later)
  {
    hide Decided, FillSeen, Config.Rate, Times;
    CapacityIsNonNegative(cfg);
    TimesMonotone(cfg.Rate(), 0.0, 0.0);
    assert at - at == 0.0;
    match e {
      case Decide(ask) => DecideTokens(cfg, s, ask, at);
      case Direct(landed, now) => PendingInRange(cfg, s);
      case Ladder(landed, now) =>
        if s.current.Some? {
          RungsEmpty(landed, s.current.value.explored, Quoted(s, s.current.value), |s.orders|);
        }
        PendingInRange(cfg, s);
      case Slice =>
      case FillOf(i, size, final) => FillTokens(cfg, s, i, size, final);
      case Close(net, now, equity) =>
      case Tick(now) =>
      case Restart(at, boot) =>
    }
  }

  lemma {:induction false} RungsEmpty(landed: seq<bool>, probe: bool, price: Option<real>, group: nat)
    ensures Rungs(landed, probe, price, group) == [] <==> true !in landed
  {
    if |landed| > 0 {
      RungsEmpty(landed[..|landed| - 1], probe, price, group);
      assert landed == landed[..|landed| - 1] + [landed[|landed| - 1]];
    }
  }

  lemma DecideTokens(cfg: Config, s: State, ask: Ask, at: real)
    requires cfg.Valid() && Inv(cfg, s) && ClockAfter(s, at) && (ask.wanted ==> ask.now >= at)
    ensures var later := if ask.wanted then ask.now else at;
            && Decided(cfg, s, ask).tokens <= s.tokens + Times(cfg.Rate(), later - at)
            && ClockAfter(Decided(cfg, s, ask), later)
  {
    hide Price, Affordable, FloorOpen, Refilled;
    CapacityIsNonNegative(cfg);
    var clean := s.(pendingAsset := None, stash := s.stash - {ask.asset});
    RefillBounds(cfg, clean, ask.now, ask.equity);
    RefillFrame(cfg, clean, ask.now, ask.equity);
    if ask.wanted {
      TimesMonotone(cfg.Rate(), 0.0, ask.now - at);
      if s.clock.Some? {
        TimesMonotone(cfg.Rate(), Max(0.0, ask.now - s.clock.value), ask.now - at);
      }
    }
  }

  lemma RefillFrame(cfg: Config, s: State, now: real, equity: real)
    ensures var t := Refilled(cfg, s, now, equity);
            t.pendingAsset == s.pendingAsset && t.stash == s.stash && t.orders == s.orders
  {
  }

  lemma {:induction false} Balance(cfg: Config, s: State, events: seq<Event>, from: real)
    requires cfg.Valid() && Inv(cfg, s) && Low(cfg, s) && ClockAfter(s, from) && Ordered(from, events)
    requires forall i :: 0 <= i < |events| ==> !events[i].Child?
    ensures Run(cfg, s, events).tokens <=
              s.tokens - Charged(cfg, s, events) + Refunded(cfg, s, events) +
              Times(cfg.Rate(), Latest(from, events) - from)
    ensures ClockAfter(Run(cfg, s, events), Latest(from, events))
  {
    hide Next, Charge, Refund, Inv, Low, Config.Rate, Times, ClockAfter;
    if |events| > 0 {
      var init, e := events[..|events| - 1], events[|events| - 1];
      assert !e.Child?;
      Balance(cfg, s, init, from);
      LowAlways(cfg, s, init);
      TokensStep(cfg, Run(cfg, s, init), e, Latest(from, init));
      TimesAdds(cfg.Rate(), Latest(from, init) - from, Latest(from, events) - Latest(from, init));
    } else {
      TimesAdds(cfg.Rate(), 0.0, 0.0);
    }
  }

  /** The bucket's guarantee over whole runs. Where every priced probe is charged before the next decision,
      as on the direct and the ladder path, the balance stays inside (-C, C], and over any interval the
      prices charged less those refunded are at most 2C plus the refill rate times its length, whatever the
      tuition governor and the prices do and however often the bot is stopped and started again. */
  lemma SpendIsBounded(cfg: Config, s: State, events: seq<Event>, from: real)
    requires cfg.Valid() && Inv(cfg, s) && Low(cfg, s) && ClockAfter(s, from) && Ordered(from, events)
    requires forall i :: 0 <= i < |events| ==> !events[i].Child?
    ensures var r, c := Run(cfg, s, events), cfg.Capacity();
            && r.tokens <= c && -c <= r.tokens && (c > 0.0 ==> -c < r.tokens)
            && Charged(cfg, s, events) - Refunded(cfg, s, events) <= 2.0 * c +
               Times(cfg.Rate(), Latest(from, events) - from)
  {
    hide Config.Capacity, Config.Rate, Times, Run, Charged, Refunded;
    Balance(cfg, s, events, from);
    LowAlways(cfg, s, events);
  }

  lemma FreshIsSound(cfg: Config)
    requires cfg.Valid()
    ensures Inv(cfg, FRESH) && Low(cfg, FRESH)
  {
    CapacityIsNonNegative(cfg);
  }

  // ---------------------------------------------------------------- who is charged what

  /** The event places what the current decision asked for. */
  predicate Lands(s: State, e: Event)
  {
    s.current.Some? && ((e.Direct? && e.landed) || (e.Ladder? && true in e.rungs))
  }

  predicate Asked(s: State) { s.current.Some? && s.current.value.explored }

  /** The price quoted by the latest decision that is still to be charged, read off the events alone: set by a
      priced admission, ended by its placement, by the next decision that wants a probe, and by a restart. */
  function Owed(cfg: Config, s: State, events: seq<Event>): Option<real>
    requires cfg.Valid() && Inv(cfg, s)
  {
    if |events| == 0 then None
    else
      var init, e := events[..|events| - 1], events[|events| - 1];
      var before := Run(cfg, s, init);
      if e.Decide? && e.ask.wanted then
        if Admits(cfg, before, e.ask) then Some(Price(cfg, e.ask.rootAsset, e.ask.rootRegime)) else None
      else if e.Restart? || ((Lands(before, e) || e.Slice?) && Asked(before)) then None
      else Owed(cfg, s, init)
  }

  /** The stash of the pending asset holds exactly what is owed. */
  predicate Tracks(s: State, owed: Option<real>)
  {
    match s.pendingAsset
    case None => owed.None?
    case Some(a) => a in s.stash && owed == Some(s.stash[a])
  }

  lemma {:induction false} OwedIsStashed(cfg: Config, s: State, events: seq<Event>)
    requires cfg.Valid() && Inv(cfg, s) && s.pendingAsset.None?
    requires forall i :: 0 <= i < |events| ==> !events[i].Child?
    ensures Tracks(Run(cfg, s, events), Owed(cfg, s, events))
  {
    hide Next, Tracks, Inv, Admits, Price, Lands, Asked;
    if |events| > 0 {
      var init, e := events[..|events| - 1], events[|events| - 1];
      assert !e.Child?;
      OwedIsStashed(cfg, s, init);
      TracksStep(cfg, Run(cfg, s, init), e, Owed(cfg, s, init));
    } else {
      assert Tracks(s, None) by { NothingPendingTracks(s); }
    }
  }

  lemma NothingPendingTracks(s: State)
    requires s.pendingAsset.None?
    ensures Tracks(s, None)
  {
  }

  lemma TracksStep(cfg: Config, s: State, e: Event, owed: Option<real>)
    requires cfg.Valid() && Inv(cfg, s) && Tracks(s, owed) && !e.Child?
    ensures Tracks(Next(cfg, s, e),
              if e.Decide? && e.ask.wanted then
                if Admits(cfg, s, e.ask) then Some(Price(cfg, e.ask.rootAsset, e.ask.rootRegime)) else None
              else if e.Restart? || ((Lands(s, e) || e.Slice?) && Asked(s)) then None
              else owed)
  {
    hide FillSeen, Price, Admits, Refilled, FloorOpen;
    match e {
      case Decide(ask) =>
        RefillFrame(cfg, s.(pendingAsset := None, stash := s.stash - {ask.asset}), ask.now, ask.equity);
      case Direct(landed, now) =>
      case Ladder(landed, now) =>
        if s.current.Some? {
          RungsEmpty(landed, s.current.value.explored, Quoted(s, s.current.value), |s.orders|);
        }
      case Slice =>
      case FillOf(i, size, final) => FillTokens(cfg, s, i, size, final);
      case Close(net, now, equity) =>
      case Tick(now) =>
      case Restart(at, boot) =>
    }
  }

  function ValueOr(price: Option<real>): real { if price.Some? then price.value else 0.0 }

  /** Charging is exact on the direct and the ladder path. A landing placement of a probe takes exactly the
      price its own decision quoted, once, however many rungs rest, and puts it as the refundable tag on
      its first order only; a drought-floor probe was quoted nothing and is charged nothing; a placement
      that is not a probe takes nothing and tags nothing. */
  lemma PlacementChargesQuote(cfg: Config, s: State, events: seq<Event>, e: Event)
    requires cfg.Valid() && Inv(cfg, s) && s.pendingAsset.None?
    requires forall i :: 0 <= i < |events| ==> !events[i].Child?
    requires Lands(Run(cfg, s, events), e)
    ensures var before, after := Run(cfg, s, events), Next(cfg, Run(cfg, s, events), e);
            var due := if Asked(before) then Owed(cfg, s, events) else None;
            && after.tokens == before.tokens - ValueOr(due) && Charge(before, e) == ValueOr(due)
            && |after.orders| > |before.orders| && after.orders[..|before.orders|] == before.orders
            && after.orders[|before.orders|].tag == due
            && (forall i :: |before.orders| < i < |after.orders| ==> after.orders[i].tag == None)
            && (forall i :: |before.orders| <= i < |after.orders| ==>
                  && after.orders[i].probe == Asked(before) && after.orders[i].open && !after.orders[i].filled
                  && after.orders[i].group == if e.Direct? then None else Some(|before.orders|))
            && after.current.None?
            && (Asked(before) ==> after.pendingAsset == None)
            && (due.Some? ==> before.current.value.asset !in after.stash)
  {
    hide Run, Owed;
    var before := Run(cfg, s, events);
    OwedIsStashed(cfg, s, events);
    var price := Quoted(before, before.current.value);
    if e.Ladder? {
      RungsEmpty(e.rungs, before.current.value.explored, price, |before.orders|);
      RungTags(e.rungs, before.current.value.explored, price, |before.orders|);
    }
  }

  lemma {:induction false} RungTags(landed: seq<bool>, probe: bool, price: Option<real>, group: nat)
    ensures var rungs := Rungs(landed, probe, price, group);
            && |rungs| <= |landed|
            && (forall i :: 0 <= i < |rungs| ==>
                  rungs[i] == Order(probe, if i == 0 then price else None, Some(group), false, true))
  {
    if |landed| > 0 {
      RungTags(landed[..|landed| - 1], probe, price, group);
    }
  }

  /** Everything but a landing placement and a child takes nothing, so a vetoed probe is never charged. */
  lemma OthersChargeNothing(cfg: Config, s: State, e: Event)
    requires cfg.Valid() && Inv(cfg, s) && !e.Child? && !Lands(s, e)
    ensures Charge(s, e) == 0.0 && (!e.Restart? ==> Next(cfg, s, e).tokens >= s.tokens)
  {
    hide Decided, FillSeen;
    match e {
      case Decide(ask) => DecideTokensUp(cfg, s, ask);
      case Ladder(landed, now) =>
        if s.current.Some? {
          RungsEmpty(landed, s.current.value.explored, Quoted(s, s.current.value), |s.orders|);
        }
      case FillOf(i, size, final) => FillTokens(cfg, s, i, size, final);
      case _ =>
    }
  }

  lemma DecideTokensUp(cfg: Config, s: State, ask: Ask)
    requires cfg.Valid() && Inv(cfg, s)
    ensures Decided(cfg, s, ask).tokens >= s.tokens
  {
    hide Price, Affordable, FloorOpen, Refilled;
    var clean := s.(pendingAsset := None, stash := s.stash - {ask.asset});
    RefillBounds(cfg, clean, ask.now, ask.equity);
    RefillFrame(cfg, clean, ask.now, ask.equity);
  }

  /** The sliced path is exact for a parent that carries its price. One that carries none, as a drought-floor
      probe's, takes whatever price a later decision has stashed: it is charged its own price exactly when
      it has one, or is no probe, or nothing (or a zero price) is waiting. */
  lemma ChildChargeExact(cfg: Config, s: State, i: int, now: real)
    requires cfg.Valid() && Inv(cfg, s) && 0 <= i < |s.parents| && !s.parents[i].recorded
    requires s.parents[i].probe || s.parents[i].price.None?
    ensures var e, p := Child(i, true, now), s.parents[i];
            && Next(cfg, s, e).tokens == s.tokens - Charge(s, e)
            && (Charge(s, e) == ValueOr(p.price) <==>
                p.price.Some? || !p.probe || s.pendingAsset.None? || s.stash[s.pendingAsset.value] == 0.0)
            && (p.price.None? && p.probe && s.pendingAsset.Some? ==>
                Charge(s, e) == s.stash[s.pendingAsset.value] && Next(cfg, s, e).pendingAsset == None)
  {
    PendingInRange(cfg, s);
  }

  /** From a fresh bot: an ordinary entry, then a drought. The drought floor admits a probe, which is sliced, and
      later a probe of another asset is admitted and its price stashed. */
  function Drought(entry: Ask, floorProbe: Ask, probe: Ask): seq<Event>
  {
    [Decide(entry), Direct(true, entry.now), Decide(floorProbe), Slice, Decide(probe)]
  }

  /** How a parent without a price comes to pay another asset's. For every configuration with a budget and a
      drought floor the run above gets there: when the first child of the floor probe lands, it is charged the
      price of the later probe, whose own placement then takes nothing. */
  lemma FloorParentPaysForAnother(cfg: Config, entry: Ask, floorProbe: Ask, probe: Ask)
    requires cfg.Valid() && cfg.Capacity() > 0.0 && cfg.droughtFloor
    requires !entry.wanted && floorProbe.wanted && probe.wanted && probe.u == 0.0
    requires floorProbe.now - entry.now >= cfg.droughtSec && probe.now > floorProbe.now
    ensures var before := Run(cfg, FRESH, Drought(entry, floorProbe, probe));
            var after := Next(cfg, before, Child(0, true, probe.now));
            && before.parents == [Parent(true, None, false)] && before.current == Some(Decision(probe.asset, true))
            && after.tokens == before.tokens - Price(cfg, probe.rootAsset, probe.rootRegime) < before.tokens
            && Charge(after, Direct(true, probe.now)) == 0.0
  {
    hide Next, Decided, Run, Inv, Price, Config.Capacity;
    FreshIsSound(cfg);
    var s2 := FRESH.(orders := [Order(false, None, None, false, true)], lastEntry := Some(entry.now));
    var s4 := s2.(clock := Some(floorProbe.now), lastFloor := Some(floorProbe.now),
                  parents := [Parent(true, None, false)]);
    var events := Drought(entry, floorProbe, probe);
    UpToDrought(cfg, entry, floorProbe, probe);
    assert events[..4] + [events[4]] == events;
    RunLast(cfg, FRESH, events[..4], events[4]);
    BudgetAdmits(cfg, s4, probe);
    var s5 := Decided(cfg, s4, probe);
    assert Next(cfg, s4, events[4]) == s5 by { NextIs(cfg, s4, events[4]); }
    NextIs(cfg, s5, Child(0, true, probe.now));
    PriceBounds(cfg, probe.rootAsset, probe.rootRegime);
  }

  lemma UpToDrought(cfg: Config, entry: Ask, floorProbe: Ask, probe: Ask)
    requires cfg.Valid() && cfg.Capacity() > 0.0 && cfg.droughtFloor && Inv(cfg, FRESH)
    requires !entry.wanted && floorProbe.wanted && floorProbe.now - entry.now >= cfg.droughtSec
    ensures Run(cfg, FRESH, Drought(entry, floorProbe, probe)[..4]) ==
            FRESH.(orders := [Order(false, None, None, false, true)], lastEntry := Some(entry.now),
                   clock := Some(floorProbe.now), lastFloor := Some(floorProbe.now),
                   parents := [Parent(true, None, false)])
  {
    hide Next, Run, Inv, Config.Capacity, FloorOpen, Decided, Price;
    var events := Drought(entry, floorProbe, probe);
    var s2 := FRESH.(orders := [Order(false, None, None, false, true)], lastEntry := Some(entry.now));
    UpToEntry(cfg, entry);
    assert events[..2] == [Decide(entry), Direct(true, entry.now)];
    assert events[..2] + [events[2]] == events[..3] && events[..3] + [events[3]] == events[..4];
    RunLast(cfg, FRESH, events[..2], events[2]);
    RunLast(cfg, FRESH, events[..3], events[3]);
    OpensFloor(cfg, s2, floorProbe.now);
    FloorTakesOver(cfg, s2, floorProbe);
    NextIs(cfg, s2, events[2]);
    NextIs(cfg, Decided(cfg, s2, floorProbe), events[3]);
  }

  lemma UpToEntry(cfg: Config, entry: Ask)
    requires cfg.Valid() && Inv(cfg, FRESH) && !entry.wanted
    ensures Run(cfg, FRESH, [Decide(entry), Direct(true, entry.now)]) ==
            FRESH.(orders := [Order(false, None, None, false, true)], lastEntry := Some(entry.now))
  {
    hide Next, Run, Inv, Config.Capacity;
    var decide, place := Decide(entry), Direct(true, entry.now);
    RunNothing(cfg, FRESH);
    RunLast(cfg, FRESH, [], decide);
    RunLast(cfg, FRESH, [decide], place);
    assert [] + [decide] == [decide] && [decide] + [place] == [decide, place];
    NextIs(cfg, FRESH, decide);
    NextIs(cfg, FRESH.(current := Some(Decision(entry.asset, false))), place);
  }

  lemma OpensFloor(cfg: Config, s: State, now: real)
    requires cfg.droughtFloor && s.lastFloor.None? && s.lastEntry.Some? && now - s.lastEntry.value >= cfg.droughtSec
    ensures FloorOpen(cfg, s, now)
  {
  }

  lemma RunNothing(cfg: Config, s: State)
    requires cfg.Valid() && Inv(cfg, s)
    ensures Run(cfg, s, []) == s
  {
  }

  lemma RunLast(cfg: Config, s: State, events: seq<Event>, e: Event)
    requires cfg.Valid() && Inv(cfg, s)
    ensures Run(cfg, s, events).tokens <= cfg.Capacity()
    ensures Run(cfg, s, events + [e]) == Next(cfg, Run(cfg, s, events), e)
  {
    assert (events + [e])[..|events|] == events;
  }

  /** `Next` unfolded for the events of that run. */
  lemma NextIs(cfg: Config, s: State, e: Event)
    requires cfg.Valid() && s.tokens <= cfg.Capacity()
    ensures e.Decide? ==> Next(cfg, s, e) == Decided(cfg, s, e.ask)
    ensures e.Direct? ==> Next(cfg, s, e) == PlacedDirect(s, e.landed, e.at)
    ensures e.Slice? ==> Next(cfg, s, e) == ParentMade(s)
    ensures e.Child? ==> Next(cfg, s, e) == ChildPlaced(s, e.parent, e.landed, e.at)
  {
  }

  /** An empty bucket leaves a wanted probe to the drought floor. */
  lemma FloorTakesOver(cfg: Config, s: State, ask: Ask)
    requires cfg.Valid() && s.tokens == 0.0 <= cfg.Capacity() && s.clock.None?
    requires s.stash == map[] && s.pendingAsset.None? && ask.wanted && FloorOpen(cfg, s, ask.now)
    ensures Decided(cfg, s, ask) ==
            s.(clock := Some(ask.now), lastFloor := Some(ask.now), current := Some(Decision(ask.asset, true)))
  {
    hide Price, Config.Capacity;
    assert s.stash - {ask.asset} == map[];
  }

  /** Any time later the bucket holds something, and a draw of zero admits. */
  lemma BudgetAdmits(cfg: Config, s: State, ask: Ask)
    requires cfg.Valid() && cfg.Capacity() > 0.0 && s.tokens == 0.0 && s.losses == [] && s.stash == map[]
    requires s.clock.Some? && ask.now > s.clock.value && ask.wanted && ask.u == 0.0
    ensures var t := Decided(cfg, s, ask);
            && t.parents == s.parents && t.current == Some(Decision(ask.asset, true))
            && t.pendingAsset == Some(ask.asset)
            && t.stash == map[ask.asset := Price(cfg, ask.rootAsset, ask.rootRegime)]
            && 0.0 < t.tokens <= cfg.Capacity() && t.orders == s.orders && t.losses == [] && t.lastFloor == s.lastFloor
  {
    hide Price, Governor;
    var cost, dt := Price(cfg, ask.rootAsset, ask.rootRegime), ask.now - s.clock.value;
    PriceBounds(cfg, ask.rootAsset, ask.rootRegime);
    GovernorInRange(cfg, [], ask.equity);
    RateIsPositive(cfg);
    var gain := Gain(cfg, Governor(cfg, [], ask.equity), dt);
    GainIsPositive(cfg, Governor(cfg, [], ask.equity), dt);
    var tokens := Min(cfg.Capacity(), gain);
    assert Affordable(tokens, cost, 0.0) by { PositiveQuotient(tokens, cost); }
    assert s.stash - {ask.asset} == map[];
  }

  lemma GainIsPositive(cfg: Config, f: real, dt: real)
    requires f > 0.0 && cfg.Rate() > 0.0 && dt > 0.0
    ensures Gain(cfg, f, dt) > 0.0
  {
    hide Config.Rate;
    PositiveProduct(f, cfg.Rate(), dt);
  }

  lemma RateIsPositive(cfg: Config)
    requires cfg.Valid() && cfg.Capacity() > 0.0
    ensures cfg.Rate() > 0.0
  {
    FirstFactor(cfg.tokensPerDay, cfg.burstHours);
  }

  lemma FirstFactor(a: real, b: real)
    requires a >= 0.0 && a * b > 0.0
    ensures a > 0.0
  {
  }

  lemma PositiveProduct(a: real, b: real, c: real)
    requires a > 0.0 && b > 0.0 && c > 0.0
    ensures a * b * c > 0.0
  {
    StrictTimes(b, 0.0, a);
    StrictTimes(c, 0.0, a * b);
  }

  lemma PositiveQuotient(a: real, b: real)
    requires a > 0.0 && b > 0.0
    ensures a / b > 0.0
  {
    var q := a / b;
    assert q * b == a;
    if q < 0.0 { NegativeTimes(q, b); }
  }

  // ---------------------------------------------------------------- refunds

  /** The prices that may still be refunded. */
  function Outstanding(orders: seq<Order>): real
  {
    if |orders| == 0 then 0.0
    else Outstanding(orders[..|orders| - 1]) + ValueOr(orders[|orders| - 1].tag)
  }

  lemma {:induction false} OutstandingAppend(a: seq<Order>, b: seq<Order>)
    ensures Outstanding(a + b) == Outstanding(a) + Outstanding(b)
  {
    if |b| == 0 {
      assert a + b == a;
    } else {
      OutstandingAppend(a, b[..|b| - 1]);
      assert (a + b)[..|a + b| - 1] == a + b[..|b| - 1];
    }
  }

  /** Losing tags only lowers what is outstanding, by at least the tag of any one order that lost it. */
  lemma {:induction false} OutstandingDrops(a: seq<Order>, b: seq<Order>, i: int)
    requires |a| == |b|
    requires forall j :: 0 <= j < |a| ==>
               (b[j].tag == a[j].tag || b[j].tag == None) && (a[j].tag.Some? ==> a[j].tag.value >= 0.0)
    ensures Outstanding(b) <= Outstanding(a)
    ensures 0 <= i < |a| && b[i].tag == None ==> Outstanding(b) + ValueOr(a[i].tag) <= Outstanding(a)
  {
    if |a| > 0 {
      OutstandingDrops(a[..|a| - 1], b[..|b| - 1], i);
    }
  }

  /** Over every run, sliced parents and stolen prices included, what was refunded plus what may still be
      refunded never exceeds what was charged (and what was outstanding at the start). */
  lemma {:induction false} RefundsWithinCharges(cfg: Config, s: State, events: seq<Event>)
    requires cfg.Valid() && Inv(cfg, s)
    ensures Refunded(cfg, s, events) + Outstanding(Run(cfg, s, events).orders)
            <= Charged(cfg, s, events) + Outstanding(s.orders)
  {
    hide Next, Inv, Charge, Refund, Outstanding;
    if |events| > 0 {
      var init := events[..|events| - 1];
      RefundsWithinCharges(cfg, s, init);
      RefundStep(cfg, Run(cfg, s, init), events[|events| - 1]);
    }
  }

  lemma RefundStep(cfg: Config, s: State, e: Event)
    requires cfg.Valid() && Inv(cfg, s)
    ensures Refund(cfg, s, e) + Outstanding(Next(cfg, s, e).orders) <= Charge(s, e) + Outstanding(s.orders)
  {
    hide Decided, FillSeen, Outstanding;
    PendingInRange(cfg, s);
    match e {
      case Decide(ask) => DecideFrame(cfg, s, ask);
      case Direct(landed, now) =>
        if Lands(s, e) {
          var order := Order(s.current.value.explored, Quoted(s, s.current.value), None, false, true);
          OutstandingAppend(s.orders, [order]);
          OutstandingOne(order);
        }
      case Ladder(landed, now) =>
        if s.current.Some? {
          var d := s.current.value;
          RungsEmpty(landed, d.explored, Quoted(s, d), |s.orders|);
          OutstandingAppend(s.orders, Rungs(landed, d.explored, Quoted(s, d), |s.orders|));
          OutstandingRungs(landed, d.explored, Quoted(s, d), |s.orders|);
        }
      case Slice =>
      case Child(i, landed, now) => ChildPrice(cfg, s, i);
      case FillOf(i, size, final) => FillRefunds(cfg, s, i, size, final);
      case Close(net, now, equity) =>
      case Tick(now) =>
      case Restart(at, boot) =>
    }
  }

  lemma OutstandingOne(order: Order)
    ensures Outstanding([order]) == ValueOr(order.tag)
  {
    assert [order][..0] == [];
  }

  lemma {:induction false} OutstandingRungs(landed: seq<bool>, probe: bool, price: Option<real>, group: nat)
    ensures Outstanding(Rungs(landed, probe, price, group)) == if true in landed then ValueOr(price) else 0.0
  {
    if |landed| > 0 {
      var init := landed[..|landed| - 1];
      OutstandingRungs(init, probe, price, group);
      RungsEmpty(init, probe, price, group);
      assert landed == init + [landed[|landed| - 1]];
      var before := Rungs(init, probe, price, group);
      if landed[|landed| - 1] {
        var order := Order(probe, if before == [] then price else None, Some(group), false, true);
        OutstandingAppend(before, [order]);
        OutstandingOne(order);
      }
    }
  }

  lemma ChildPrice(cfg: Config, s: State, i: int)
    requires Inv(cfg, s)
    ensures 0 <= i < |s.parents| && s.parents[i].price.Some? ==> s.parents[i].price.value >= 0.0
  {
    if 0 <= i < |s.parents| {
      assert InRange(cfg, s.parents[i].price);
    }
  }

  lemma DecideFrame(cfg: Config, s: State, ask: Ask)
    requires cfg.Valid() && Inv(cfg, s)
    ensures Decided(cfg, s, ask).orders == s.orders
  {
    hide Price, Affordable, FloorOpen, Refilled;
    RefillFrame(cfg, s.(pendingAsset := None, stash := s.stash - {ask.asset}), ask.now, ask.equity);
  }

  lemma FillRefunds(cfg: Config, s: State, i: int, size: real, final: bool)
    requires cfg.Valid() && Inv(cfg, s)
    ensures Refund(cfg, s, FillOf(i, size, final)) + Outstanding(FillSeen(cfg, s, i, size, final).orders)
            <= Outstanding(s.orders)
  {
    hide Outstanding;
    FillTags(cfg, s, i, size, final);
    assert forall j :: 0 <= j < |s.orders| ==> InRange(cfg, s.orders[j].tag);
    OutstandingDrops(s.orders, FillSeen(cfg, s, i, size, final).orders, i);
  }

  /** A fill event only takes tags away: from the order that ended, and from the open rungs of the ladder of an
      order that filled. */
  lemma FillTags(cfg: Config, s: State, i: int, size: real, final: bool)
    ensures var t := FillSeen(cfg, s, i, size, final);
            && |t.orders| == |s.orders|
            && (forall j :: 0 <= j < |s.orders| ==>
                  && (t.orders[j].tag == s.orders[j].tag || t.orders[j].tag == None)
                  && (s.orders[j].filled ==> t.orders[j].filled) && t.orders[j].group == s.orders[j].group)
            && (0 <= i < |s.orders| && s.orders[i].open && final && s.orders[i].probe ==> t.orders[i].tag == None)
            && (0 <= i < |s.orders| && s.orders[i].open && size > 0.0 ==> t.orders[i].filled)
            && (0 <= i < |s.orders| && s.orders[i].open && size > EPS && s.orders[i].group.Some? ==>
                  forall j :: 0 <= j < |t.orders| && t.orders[j].open && t.orders[j].group == s.orders[i].group
                   ==> t.orders[j].tag == None)
  {
  }

  /** Spent for refunds: no price to give back, or filled. */
  predicate Spent(o: Order) { o.tag == None || o.filled }

  function RefundedTo(cfg: Config, s: State, events: seq<Event>, i: nat): real
    requires cfg.Valid() && Inv(cfg, s)
  {
    if |events| == 0 then 0.0
    else
      var init, e := events[..|events| - 1], events[|events| - 1];
      RefundedTo(cfg, s, init, i) + if e.FillOf? && e.order == i then Refund(cfg, Run(cfg, s, init), e) else 0.0
  }

  lemma SpentStays(cfg: Config, s: State, e: Event, i: nat)
    requires cfg.Valid() && Inv(cfg, s) && i < |s.orders| && Spent(s.orders[i])
    ensures i < |Next(cfg, s, e).orders| && Spent(Next(cfg, s, e).orders[i])
    ensures e.FillOf? && e.order == i ==> Refund(cfg, s, e) == 0.0
  {
    hide Decided, FillSeen;
    match e {
      case Decide(ask) => DecideFrame(cfg, s, ask);
      case FillOf(k, size, final) => FillTags(cfg, s, k, size, final);
      case _ =>
    }
  }

  /** No order is refunded after it filled or lost its tag, in any later run. */
  lemma {:induction false} SpentIsNeverRefunded(cfg: Config, s: State, events: seq<Event>, i: nat)
    requires cfg.Valid() && Inv(cfg, s) && i < |s.orders| && Spent(s.orders[i])
    ensures RefundedTo(cfg, s, events, i) == 0.0
    ensures i < |Run(cfg, s, events).orders| && Spent(Run(cfg, s, events).orders[i])
  {
    hide Next, Inv, Refund, Spent;
    if |events| > 0 {
      var init := events[..|events| - 1];
      SpentIsNeverRefunded(cfg, s, init, i);
      SpentStays(cfg, Run(cfg, s, init), events[|events| - 1], i);
    }
  }

  /** A probe order's final event spends it, and a fill on any rung spends every open rung of its ladder: so
      no order is refunded twice, and a sibling's fill ends the refund of a rung still open. */
  lemma EndsRefund(cfg: Config, s: State, k: nat, size: real, final: bool, events: seq<Event>, i: nat)
    requires cfg.Valid() && Inv(cfg, s) && k < |s.orders| && s.orders[k].open && i < |s.orders|
    requires (i == k && ((final && s.orders[i].probe) || size > 0.0))
          || (size > EPS && s.orders[k].group.Some? && s.orders[i].group == s.orders[k].group
              && s.orders[i].open && i != k)
    ensures var t := Next(cfg, s, FillOf(k, size, final));
            Inv(cfg, t) && RefundedTo(cfg, t, events, i) == 0.0
  {
    hide FillSeen, RefundedTo, Refund;
    NextKeeps(cfg, s, FillOf(k, size, final));
    FillTags(cfg, s, k, size, final);
    if i != k {
      OpenStays(cfg, s, k, size, final, i);
    }
    SpentIsNeverRefunded(cfg, Next(cfg, s, FillOf(k, size, final)), events, i);
  }

  lemma OpenStays(cfg: Config, s: State, k: nat, size: real, final: bool, i: nat)
    requires k < |s.orders| && i < |s.orders| && i != k
    ensures |FillSeen(cfg, s, k, size, final).orders| == |s.orders|
    ensures FillSeen(cfg, s, k, size, final).orders[i].open == s.orders[i].open
  {
  }
}
