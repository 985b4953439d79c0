/** The probe budget told from its events: what becomes of a probe's order and of a sliced parent, when the drought
    floor opens, and what a close adds to the tuition (main.py). */
module ProbeTold {
  import opened Prelude
  import opened ProbeBudget

  // ---------------------------------------------------------------- the refund of one order

  /** The order's final event has been delivered. */
  predicate Ended(events: seq<Event>, i: int)
  {
    |events| > 0 &&
    var e := events[|events| - 1];
    (e.FillOf? && e.order == i && e.final) || Ended(events[..|events| - 1], i)
  }

  /** A fill has ended the refund of order `i`, whatever it was at the start: any on the order itself, or one beyond
      the engine's tolerance on an order of its ladder; what comes after an order's final event is no fill. */
  predicate Spoiled(start: seq<Order>, events: seq<Event>, i: nat)
    requires i < |start|
  {
    |events| > 0 &&
    var init, e := events[..|events| - 1], events[|events| - 1];
    Spoiled(start, init, i) ||
    (e.FillOf? && 0 <= e.order < |start| && start[e.order].open && !Ended(init, e.order) &&
     ((e.order == i && e.size > 0.0) ||
      (e.size > 0.000000001 && start[i].group.Some? && start[e.order].group == start[i].group)))
  }

  /** A probe's order as it was placed, with a price to give back; its ladder is on file. */
  predicate Priced(orders: seq<Order>, i: nat)
  {
    && i < |orders| && orders[i].probe && orders[i].tag.Some? && !orders[i].filled && orders[i].open
    && (orders[i].group.Some? ==> orders[i].group.value < |orders|)
  }

  /** What one fill event does to the orders and the balance. */
  lemma FillExact(cfg: Config, s: State, k: nat, size: real, final: bool)
    requires k < |s.orders| && s.orders[k].open
    ensures var t, o := FillSeen(cfg, s, k, size, final), s.orders[k];
            && |t.orders| == |s.orders|
            && (forall j :: 0 <= j < |s.orders| ==>
                  && t.orders[j].probe == s.orders[j].probe && t.orders[j].group == s.orders[j].group
                  && t.orders[j].open == (s.orders[j].open && !(j == k && final))
                  && t.orders[j].filled == (s.orders[j].filled || (j == k && size > 0.0))
                  && t.orders[j].tag ==
                     if (j == k && final && o.probe) ||
                        (size > 0.000000001 && o.group.Some? && s.orders[j].group == o.group && t.orders[j].open)
                     then None else s.orders[j].tag)
            && t.tokens == if final && o.probe && o.tag.Some? && !o.filled && size <= 0.0 && cfg.refunds
                           then Min(cfg.Capacity(), s.tokens + o.tag.value) else s.tokens
  {
  }

  lemma FillIgnored(cfg: Config, s: State, k: int, size: real, final: bool)
    requires !(0 <= k < |s.orders|) || !s.orders[k].open
    ensures FillSeen(cfg, s, k, size, final) == s
  {
  }

  /** Every other event only adds orders, those of a ladder with a number no earlier order has. */
  lemma OthersAddOrders(cfg: Config, s: State, e: Event)
    requires cfg.Valid() && Inv(cfg, s) && !e.FillOf?
    ensures var t := Next(cfg, s, e);
            && |s.orders| <= |t.orders| && t.orders[..|s.orders|] == s.orders
            && forall j :: |s.orders| <= j < |t.orders| && t.orders[j].group.Some? ==>
                 t.orders[j].group.value == |s.orders|
  {
    hide Decided;
    match e {
      case Decide(ask) => DecideFrame(cfg, s, ask);
      case Ladder(landed, now) =>
        if s.current.Some? {
          var d := s.current.value;
          RungTags(landed, d.explored, Quoted(s, d), |s.orders|);
        }
      case _ =>
    }
  }

  /** The orders of a run, told from where it started: which are open, and whether order `i` still has its price. */
  predicate Follows(start: seq<Order>, orders: seq<Order>, events: seq<Event>, i: nat)
    requires i < |start|
  {
    && |start| <= |orders|
    && (forall j :: 0 <= j < |start| ==>
          && orders[j].probe == start[j].probe && orders[j].group == start[j].group
          && orders[j].open == (start[j].open && !Ended(events, j)))
    && (forall j :: |start| <= j < |orders| && orders[j].group.Some? ==> orders[j].group.value >= |start|)
    && (orders[i].open ==> (orders[i].tag == start[i].tag && !orders[i].filled <==> !Spoiled(start, events, i)))
    && (orders[i].tag.Some? ==> orders[i].tag == start[i].tag)
  }

  lemma FollowsFill(cfg: Config, start: seq<Order>, s: State, init: seq<Event>, i: nat, e: Event)
    requires Priced(start, i) && Follows(start, s.orders, init, i) && e.FillOf?
    ensures Follows(start, FillSeen(cfg, s, e.order, e.size, e.final).orders, init + [e], i)
  {
    hide FillSeen, Spoiled, Ended;
    var events, k := init + [e], e.order;
    LastEvent(start, init, e, i);
    if 0 <= k < |s.orders| && s.orders[k].open {
      FillExact(cfg, s, k, e.size, e.final);
    } else {
      FillIgnored(cfg, s, k, e.size, e.final);
    }
  }

  /** Both stories one event later. */
  lemma LastEvent(start: seq<Order>, init: seq<Event>, e: Event, i: nat)
    requires i < |start|
    ensures forall j :: Ended(init + [e], j) <==> Ended(init, j) || (e.FillOf? && e.order == j && e.final)
    ensures Spoiled(start, init + [e], i) <==>
            Spoiled(start, init, i) ||
            (e.FillOf? && 0 <= e.order < |start| && start[e.order].open && !Ended(init, e.order) &&
             ((e.order == i && e.size > 0.0) ||
              (e.size > 0.000000001 && start[i].group.Some? && start[e.order].group == start[i].group)))
  {
    assert (init + [e])[..|init|] == init;
  }

  lemma {:induction false} RunFollows(cfg: Config, s: State, events: seq<Event>, i: nat)
    requires cfg.Valid() && Inv(cfg, s) && Priced(s.orders, i)
    requires forall j :: 0 <= j < |s.orders| && s.orders[j].group.Some? ==> s.orders[j].group.value < |s.orders|
    ensures Follows(s.orders, Run(cfg, s, events).orders, events, i)
  {
    hide Next, Inv, FillSeen, Spoiled, Ended;
    if |events| == 0 {
      NothingYet(s.orders, i);
    } else {
      var init, e := events[..|events| - 1], events[|events| - 1];
      var before := Run(cfg, s, init);
      RunFollows(cfg, s, init, i);
      assert init + [e] == events;
      if e.FillOf? {
        FollowsFill(cfg, s.orders, before, init, i, e);
        NextFill(cfg, before, e);
      } else {
        LastEvent(s.orders, init, e, i);
        OthersAddOrders(cfg, before, e);
        RunLast(cfg, s, init, e);
        var after := Next(cfg, before, e).orders;
        assert forall j :: 0 <= j < |before.orders| ==> after[j] == after[..|before.orders|][j];
      }
    }
  }

  lemma NothingYet(start: seq<Order>, i: nat)
    requires Priced(start, i)
    ensures forall j :: !Ended([], j)
    ensures !Spoiled(start, [], i)
  {
  }

  lemma NextFill(cfg: Config, s: State, e: Event)
    requires cfg.Valid() && Inv(cfg, s) && e.FillOf?
    ensures Next(cfg, s, e) == FillSeen(cfg, s, e.order, e.size, e.final)
  {
  }

  /** When a probe is refunded. After any run from the placement of a priced order its final event gives back exactly
      the price charged, up to the capacity, if refunds are on and neither the order itself has filled at all nor any
      order of its ladder beyond the tolerance; and it gives back nothing otherwise, or a second time. */
  lemma RefundTold(cfg: Config, s: State, events: seq<Event>, i: nat, size: real)
    requires cfg.Valid() && Inv(cfg, s) && Priced(s.orders, i)
    requires forall j :: 0 <= j < |s.orders| && s.orders[j].group.Some? ==> s.orders[j].group.value < |s.orders|
    ensures var before, last, price := Run(cfg, s, events), FillOf(i, size, true), s.orders[i].tag.value;
            if cfg.refunds && size <= 0.0 && !Ended(events, i) && !Spoiled(s.orders, events, i)
            then Next(cfg, before, last).tokens == Min(cfg.Capacity(), before.tokens + price)
                 && Refund(cfg, before, last) == price
            else Next(cfg, before, last).tokens == before.tokens && Refund(cfg, before, last) == 0.0
  {
    hide Next, Inv, FillSeen, Spoiled, Ended, Run;
    var before := Run(cfg, s, events);
    RunFollows(cfg, s, events, i);
    NextFill(cfg, before, FillOf(i, size, true));
    if before.orders[i].open {
      FillExact(cfg, before, i, size, true);
    } else {
      FillIgnored(cfg, before, i, size, true);
    }
  }

  /** Every bot that has run from fresh meets the condition on ladders. */
  lemma {:induction false} LaddersOnFile(cfg: Config, events: seq<Event>)
    requires cfg.Valid() && Inv(cfg, FRESH)
    ensures var orders := Run(cfg, FRESH, events).orders;
            forall j :: 0 <= j < |orders| && orders[j].group.Some? ==> orders[j].group.value < |orders|
  {
    hide Next, Inv, FillSeen;
    if |events| > 0 {
      var init, e := events[..|events| - 1], events[|events| - 1];
      var before := Run(cfg, FRESH, init);
      LaddersOnFile(cfg, init);
      if !e.FillOf? {
        RunLast(cfg, FRESH, init, e);
        OthersAddOrders(cfg, before, e);
        var after := Next(cfg, before, e).orders;
        assert forall j :: 0 <= j < |before.orders| ==> after[..|before.orders|][j] == after[j];
        forall j | 0 <= j < |after| && after[j].group.Some?
          ensures after[j].group.value < |after|
        {
          if j < |before.orders| { assert after[..|before.orders|][j] == before.orders[j]; }
        }
      } else {
        NextFill(cfg, before, e);
        if 0 <= e.order < |before.orders| && before.orders[e.order].open {
          FillExact(cfg, before, e.order, e.size, e.final);
        } else {
          FillIgnored(cfg, before, e.order, e.size, e.final);
        }
      }
    }
  }

  // ---------------------------------------------------------------- sliced parents

  /** A sliced parent takes the price its decision was quoted, and nothing is left waiting. */
  lemma SliceTakesQuote(cfg: Config, s: State, events: seq<Event>)
    requires cfg.Valid() && Inv(cfg, s) && s.pendingAsset.None?
    requires forall i :: 0 <= i < |events| ==> !events[i].Child?
    ensures var before := Run(cfg, s, events);
            var after := Next(cfg, before, Slice);
            if before.current.None? then after == before
            else
              && after.parents == before.parents +
                   [Parent(Asked(before), if Asked(before) then Owed(cfg, s, events) else None, false)]
              && after.current.None? && after.tokens == before.tokens && after.orders == before.orders
              && (Asked(before) ==> after.pendingAsset.None? && before.current.value.asset !in after.stash)
  {
    hide Run, Owed;
    OwedIsStashed(cfg, s, events);
  }

  /** Once a child of a parent has landed the parent takes nothing more in any later run without a restart. */
  lemma ParentPaysOnce(cfg: Config, s: State, i: nat, at: real, events: seq<Event>, later: real)
    requires cfg.Valid() && Inv(cfg, s) && i < |s.parents|
    requires forall k :: 0 <= k < |events| ==> !events[k].Restart?
    ensures var first := Next(cfg, s, Child(i, true, at));
            && Inv(cfg, first)
            && var t := Run(cfg, first, events);
            && i < |t.parents| && t.parents[i].recorded
            && Next(cfg, t, Child(i, true, later)).tokens == t.tokens && Charge(t, Child(i, true, later)) == 0.0
  {
    hide Run;
    NextKeeps(cfg, s, Child(i, true, at));
    var first := Next(cfg, s, Child(i, true, at));
    RecordedStays(cfg, first, events, i);
  }

  lemma {:induction false} RecordedStays(cfg: Config, s: State, events: seq<Event>, i: nat)
    requires cfg.Valid() && Inv(cfg, s) && i < |s.parents| && s.parents[i].recorded
    requires forall k :: 0 <= k < |events| ==> !events[k].Restart?
    ensures i < |Run(cfg, s, events).parents| && Run(cfg, s, events).parents[i].recorded
  {
    hide Next, Inv;
    if |events| > 0 {
      RecordedStays(cfg, s, events[..|events| - 1], i);
      ParentsStay(cfg, Run(cfg, s, events[..|events| - 1]), events[|events| - 1], i);
    }
  }

  lemma ParentsStay(cfg: Config, s: State, e: Event, i: nat)
    requires cfg.Valid() && Inv(cfg, s) && !e.Restart? && i < |s.parents| && s.parents[i].recorded
    ensures i < |Next(cfg, s, e).parents| && Next(cfg, s, e).parents[i].recorded
  {
    hide Price, Affordable, FloorOpen, Governor, Pruned, Inv, Min, Max;
  }

  // ---------------------------------------------------------------- the drought floor

  /** When an entry last landed, told from the events: a placement or a child that rests, the first cycle when there was
      none; a restart sets it back by what had passed when the bot stopped. */
  function LastEntry(cfg: Config, s: State, events: seq<Event>): Option<real>
    requires cfg.Valid() && Inv(cfg, s)
  {
    if |events| == 0 then s.lastEntry
    else
      var init, e := events[..|events| - 1], events[|events| - 1];
      var last, before := LastEntry(cfg, s, init), Run(cfg, s, init);
      match e
      case Direct(landed, at) => if landed && before.current.Some? then Some(at) else last
      case Ladder(rungs, at) => if true in rungs && before.current.Some? then Some(at) else last
      case Child(i, landed, at) => if landed && 0 <= i < |before.parents| then Some(at) else last
      case Tick(at) => if last.None? then Some(at) else last
      case Restart(at, boot) => Some(boot - if last.Some? && at > last.value then at - last.value else 0.0)
      case _ => last
  }

  /** A decision now finds a drought: the floor is on, the last entry is old enough, and so is the last floor probe. */
  predicate InDrought(cfg: Config, s: State, events: seq<Event>, now: real)
    requires cfg.Valid() && Inv(cfg, s)
  {
    var entry, floor := LastEntry(cfg, s, events), LastFloor(cfg, s, events);
    cfg.droughtFloor && entry.Some? && now - entry.value >= cfg.droughtSec &&
    (floor.None? || now - floor.value >= cfg.spacingSec)
  }

  /** The last floor probe: a wanted probe in a drought that the budget did not price. */
  function LastFloor(cfg: Config, s: State, events: seq<Event>): Option<real>
    requires cfg.Valid() && Inv(cfg, s)
  {
    if |events| == 0 then s.lastFloor
    else
      var init, e := events[..|events| - 1], events[|events| - 1];
      var last, before := LastFloor(cfg, s, init), Run(cfg, s, init);
      var entry := LastEntry(cfg, s, init);
      if e.Decide? && e.ask.wanted && e.ask.asset !in Next(cfg, before, e).stash &&
         cfg.droughtFloor && entry.Some? && e.ask.now - entry.value >= cfg.droughtSec &&
         (last.None? || e.ask.now - last.value >= cfg.spacingSec)
      then Some(e.ask.now) else last
  }

  lemma EntryStep(cfg: Config, s: State, e: Event)
    requires cfg.Valid() && Inv(cfg, s)
    ensures var t := Next(cfg, s, e);
            t.lastEntry == match e
              case Direct(landed, at) => if landed && s.current.Some? then Some(at) else s.lastEntry
              case Ladder(rungs, at) => if true in rungs && s.current.Some? then Some(at) else s.lastEntry
              case Child(i, landed, at) => if landed && 0 <= i < |s.parents| then Some(at) else s.lastEntry
              case Tick(at) => if s.lastEntry.None? then Some(at) else s.lastEntry
              case Restart(at, boot) =>
                Some(boot - if s.lastEntry.Some? && at > s.lastEntry.value then at - s.lastEntry.value else 0.0)
              case _ => s.lastEntry
  {
    hide Price, Affordable, FloorOpen, Governor, Pruned, Inv;
    if e.Ladder? && s.current.Some? {
      RungsEmpty(e.rungs, s.current.value.explored, Quoted(s, s.current.value), |s.orders|);
    }
  }

  lemma FloorStep(cfg: Config, s: State, e: Event)
    requires cfg.Valid() && Inv(cfg, s)
    ensures var t := Next(cfg, s, e);
            if e.Decide? && e.ask.wanted then
              var open := cfg.droughtFloor && s.lastEntry.Some? && e.ask.now - s.lastEntry.value >= cfg.droughtSec &&
                          (s.lastFloor.None? || e.ask.now - s.lastFloor.value >= cfg.spacingSec);
              && t.lastFloor == (if e.ask.asset !in t.stash && open then Some(e.ask.now) else s.lastFloor)
              && t.current == Some(Decision(e.ask.asset, e.ask.asset in t.stash || open))
            else t.lastFloor == s.lastFloor
  {
    hide Price, Affordable, Governor, Pruned, Inv, Rungs, FillSeen;
    if e.FillOf? { FillFloor(cfg, s, e.order, e.size, e.final); }
  }

  lemma FillFloor(cfg: Config, s: State, i: int, size: real, final: bool)
    ensures FillSeen(cfg, s, i, size, final).lastFloor == s.lastFloor
  {
  }

  /** The drought floor over every run, sliced probes and restarts included: a wanted probe that the budget does not
      price is let through exactly in a drought, told from the events. */
  lemma DroughtTold(cfg: Config, s: State, events: seq<Event>, ask: Ask)
    requires cfg.Valid() && Inv(cfg, s) && ask.wanted
    ensures var after := Next(cfg, Run(cfg, s, events), Decide(ask));
            after.current ==
            Some(Decision(ask.asset, ask.asset in after.stash || InDrought(cfg, s, events, ask.now)))
  {
    hide Next, Inv, Run, LastEntry, LastFloor;
    ClocksTold(cfg, s, events);
    FloorStep(cfg, Run(cfg, s, events), Decide(ask));
  }

  lemma {:induction false} ClocksTold(cfg: Config, s: State, events: seq<Event>)
    requires cfg.Valid() && Inv(cfg, s)
    ensures Run(cfg, s, events).lastEntry == LastEntry(cfg, s, events)
    ensures Run(cfg, s, events).lastFloor == LastFloor(cfg, s, events)
  {
    hide Next, Inv;
    if |events| > 0 {
      ClocksTold(cfg, s, events[..|events| - 1]);
      EntryStep(cfg, Run(cfg, s, events[..|events| - 1]), events[|events| - 1]);
      FloorStep(cfg, Run(cfg, s, events[..|events| - 1]), events[|events| - 1]);
    }
  }

  // ---------------------------------------------------------------- tuition

  /** What a close adds to the window: nothing for a gain, the loss of a loser, but at most the day's cap over the clip
      divisor; what is older than a day leaves. */
  lemma TuitionExact(cfg: Config, s: State, net: real, now: real, equity: real)
    requires cfg.Valid() && s.tokens <= cfg.Capacity() && cfg.lossFraction * equity >= 0.0
    ensures var t := Next(cfg, s, Close(net, now, equity));
            var share := if cfg.clipDivisor >= 1.0 then cfg.clipDivisor else 1.0;
            exists usd ::
              && t == s.(losses := Pruned(s.losses + [Loss(now, usd)], now, 86400.0))
              && 0.0 <= usd && usd * share <= cfg.lossFraction * equity && (net >= 0.0 ==> usd == 0.0)
              && (net < 0.0 ==> usd <= -net && (usd == -net || usd * share == cfg.lossFraction * equity))
  {
    hide Pruned;
    var usd := Clipped(cfg, equity, net);
    ClipExact(LossCap(cfg, equity), if cfg.clipDivisor >= 1.0 then cfg.clipDivisor else 1.0, Max(0.0, -net));
    assert ProbeClosed(cfg, s, net, now, equity) == s.(losses := Pruned(s.losses + [Loss(now, usd)], now, 86400.0));
  }

  lemma ClipExact(cap: real, share: real, loss: real)
    requires cap >= 0.0 && share >= 1.0 && loss >= 0.0
    ensures var usd := Min(loss, cap / share);
            0.0 <= usd <= loss && usd * share <= cap && (usd == loss || usd * share == cap)
  {
    var each := cap / share;
    assert each * share == cap;
    if each < 0.0 { NegativeTimes(each, share); }
    if loss < each { TimesMonotone(share, loss, each); }
  }
}
