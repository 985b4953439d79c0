/** What the position holds over a run of exits, told from what the venue reported (main.py with
    execution/order_manager.py). */
module ExitHoldings {
  import opened Prelude
  import opened ExitLadder

  /** The fills reported for the open orders among the first `n`, the maker ones only or all, beyond the tolerance. */
  function Reported(orders: seq<ExitOrder>, fills: seq<real>, makersOnly: bool, n: nat): real
    requires n <= |orders|
  {
    if n == 0 then 0.0
    else
      Reported(orders, fills, makersOnly, n - 1) +
      if orders[n - 1].open && (orders[n - 1].postOnly || !makersOnly) && n <= |fills| && fills[n - 1] > 0.000000001
      then fills[n - 1] else 0.0
  }

  /** What a step's own looks at the venue find sold: a poll or a forced cancel asks about every open order, an exit
      request about the maker take it preempts. */
  function Sold(s: State, e: Event): real
  {
    match e
    case Submit(r) =>
      if s.inBook && Live(s.orders) && !Dedups(s, r) then Reported(s.orders, r.last, true, |s.orders|) else 0.0
    case Cycle(fills, ends) => Reported(s.orders, fills, false, |s.orders|)
    case EntryFill(size) => 0.0
    case ForceDry(last) => Reported(s.orders, last, false, |s.orders|)
  }

  /** Everything sold over a run, less everything bought. */
  function NetSold(cfg: Config, s: State, events: seq<Event>): real
  {
    if |events| == 0 then 0.0
    else
      var init, e := events[..|events| - 1], events[|events| - 1];
      NetSold(cfg, s, init) + Sold(Run(cfg, s, init), e) - if e.EntryFill? then e.size else 0.0
  }

  predicate StaysOpen(cfg: Config, s: State, events: seq<Event>)
  {
    Run(cfg, s, events).inBook && (|events| == 0 || StaysOpen(cfg, s, events[..|events| - 1]))
  }

  /** Only fills beyond the tolerance are queued. */
  predicate Queued(late: seq<Late>) { forall i :: 0 <= i < |late| ==> late[i].size > EPS }

  lemma {:induction false} CancelledReports(s: State, makersOnly: bool, last: seq<real>, n: nat)
    requires n <= |s.orders| && Queued(s.deferred)
    ensures var t := Cancelled(s, makersOnly, last, n);
            && Owing(t.deferred) == Owing(s.deferred) + Reported(s.orders, last, makersOnly, n)
            && Queued(t.deferred) && t.size == s.size && t.inBook == s.inBook
            && (forall j :: n <= j < |s.orders| ==> t.orders[j] == s.orders[j])
  {
    hide Owing;
    if n > 0 {
      CancelledReports(s, makersOnly, last, n - 1);
      BookedReports(Cancelled(s, makersOnly, last, n - 1), n - 1, At(last, n - 1), true);
    }
  }

  lemma {:induction false} PolledReports(s: State, fills: seq<real>, ends: seq<bool>, n: nat)
    requires n <= |s.orders| && Queued(s.deferred)
    ensures var t := Polled(s, fills, ends, n);
            && Owing(t.deferred) == Owing(s.deferred) + Reported(s.orders, fills, false, n)
            && Queued(t.deferred) && t.size == s.size && t.inBook == s.inBook
            && (forall j :: n <= j < |s.orders| ==> t.orders[j] == s.orders[j])
  {
    hide Owing;
    if n > 0 {
      PolledReports(s, fills, ends, n - 1);
      BookedReports(Polled(s, fills, ends, n - 1), n - 1, At(fills, n - 1), n - 1 < |ends| && ends[n - 1]);
    }
  }

  lemma BookedReports(s: State, i: nat, fill: real, ends: bool)
    requires i < |s.orders| && Queued(s.deferred)
    ensures var t := Booked(s, i, fill, ends);
            && Owing(t.deferred) == Owing(s.deferred) + (if fill > 0.000000001 then fill else 0.0)
            && Queued(t.deferred) && t.size == s.size && t.inBook == s.inBook
            && |t.orders| == |s.orders| && (forall j :: 0 <= j < |s.orders| && j != i ==> t.orders[j] == s.orders[j])
  {
    assert (s.deferred + [Late(i, fill)])[..|s.deferred|] == s.deferred;
  }

  /** Delivered in full, the queue leaves the position with that much less. */
  lemma {:induction false} DeliveredExact(s: State, late: seq<Late>)
    requires Queued(late)
    ensures AppliedAll(s, late).inBook ==> s.inBook && AppliedAll(s, late).size == s.size - Owing(late)
    ensures Owing(late) >= 0.0
  {
    if |late| > 0 {
      DeliveredExact(s, late[..|late| - 1]);
    }
  }

  lemma {:induction false} RestIsPositive(orders: seq<ExitOrder>)
    requires forall i :: 0 <= i < |orders| ==> orders[i].filled <= orders[i].size
    ensures LiveRest(orders) >= 0.0
  {
    if |orders| > 0 { RestIsPositive(orders[..|orders| - 1]); }
  }

  function Net(s: State): real { s.size - Owing(s.deferred) }

  lemma DrainNets(s: State)
    requires Sized(s) && Exposure(s) <= s.size && Queued(s.deferred)
    ensures Drained(s).deferred == [] && (Drained(s).inBook ==> Net(Drained(s)) == Net(s))
  {
    RestIsPositive(s.orders);
    DeliveredExact(s.(deferred := []), s.deferred);
    AppliedAllBound(s.(deferred := []), s.deferred);
  }

  lemma StepHolds(cfg: Config, s: State, e: Event)
    requires Safe(s) && Fair(s, e) && Queued(s.deferred) && s.inBook
    ensures var t := Next(cfg, s, e);
            && Queued(t.deferred)
            && (t.inBook ==> Net(t) == Net(s) - Sold(s, e) + if e.EntryFill? then e.size else 0.0)
  {
    hide Exposure, Drained, Wanted, NewOrder, Owing, Fills;
    match e {
      case Submit(r) =>
        if Live(s.orders) && !Dedups(s, r) {
          CancelledReports(s, true, r.last, |s.orders|);
          CancelledKeeps(s, true, r.last, |s.orders|);
          DrainNets(Cancelled(s, true, r.last, |s.orders|));
        }
      case Cycle(fills, ends) =>
        PolledReports(s, fills, ends, |s.orders|);
        PolledKeeps(s, fills, ends, |s.orders|);
        DrainNets(Polled(s, fills, ends, |s.orders|));
      case EntryFill(size) =>
      case ForceDry(last) =>
        CancelledReports(s, false, last, |s.orders|);
    }
  }

  /** What is held. Over every fair run in which the position stays open, what it holds, less the exit fills it has
      yet to be told of, is what it held, plus every entry fill, less everything the venue reported sold: by polls,
      by the last looks of preemptions and by forced cancels, each once. */
  lemma {:induction false} HeldTold(cfg: Config, s: State, events: seq<Event>)
    requires Safe(s) && Queued(s.deferred) && FairRun(cfg, s, events) && StaysOpen(cfg, s, events)
    ensures var t := Run(cfg, s, events);
            && t.size - Owing(t.deferred) == s.size - Owing(s.deferred) - NetSold(cfg, s, events)
            && Queued(t.deferred)
  {
    hide Next, Fair, Safe, Owing, Queued, Sold;
    if |events| > 0 {
      var init := events[..|events| - 1];
      HeldTold(cfg, s, init);
      ExitsNeverOversell(cfg, s, init);
      StepHolds(cfg, Run(cfg, s, init), events[|events| - 1]);
    }
  }

  // ---------------------------------------------------------------- what the orders have sold

  function FilledOf(orders: seq<ExitOrder>): real
  {
    if |orders| == 0 then 0.0 else FilledOf(orders[..|orders| - 1]) + orders[|orders| - 1].filled
  }

  function SoldIn(cfg: Config, s: State, events: seq<Event>): real
  {
    if |events| == 0 then 0.0
    else SoldIn(cfg, s, events[..|events| - 1]) + Sold(Run(cfg, s, events[..|events| - 1]), events[|events| - 1])
  }

  lemma {:induction false} FilledUpdate(orders: seq<ExitOrder>, i: nat, o: ExitOrder)
    requires i < |orders|
    ensures FilledOf(orders[i := o]) == FilledOf(orders) - orders[i].filled + o.filled
  {
    var n := |orders| - 1;
    if i < n {
      FilledUpdate(orders[..n], i, o);
      assert orders[i := o][..n] == orders[..n][i := o];
    } else {
      assert orders[i := o][..n] == orders[..n];
    }
  }

  /** An order stays open after a look at the venue exactly when it is not ended and has more than the tolerance
      left. */
  lemma OpenExact(s: State, i: nat, fill: real, ends: bool)
    requires i < |s.orders|
    ensures var o, p := s.orders[i], Booked(s, i, fill, ends).orders[i];
            && p.filled == o.filled + (if fill > 0.000000001 then fill else 0.0)
            && (p.open <==> !ends && p.size - p.filled > 0.000000001) && p.size == o.size
  {
  }

  lemma BookedFills(s: State, i: nat, fill: real, ends: bool)
    requires i < |s.orders|
    ensures FilledOf(Booked(s, i, fill, ends).orders)
         == FilledOf(s.orders) + if fill > 0.000000001 then fill else 0.0
    ensures forall j :: 0 <= j < |s.orders| && j != i ==> Booked(s, i, fill, ends).orders[j] == s.orders[j]
  {
    FilledUpdate(s.orders, i, Booked(s, i, fill, ends).orders[i]);
  }

  lemma {:induction false} CancelledFills(s: State, makersOnly: bool, last: seq<real>, n: nat)
    requires n <= |s.orders|
    ensures var t := Cancelled(s, makersOnly, last, n);
            && FilledOf(t.orders) == FilledOf(s.orders) + Reported(s.orders, last, makersOnly, n)
            && (forall j :: n <= j < |s.orders| ==> t.orders[j] == s.orders[j])
  {
    hide FilledOf, Booked;
    if n > 0 {
      CancelledFills(s, makersOnly, last, n - 1);
      BookedFills(Cancelled(s, makersOnly, last, n - 1), n - 1, At(last, n - 1), true);
    }
  }

  lemma {:induction false} PolledFills(s: State, fills: seq<real>, ends: seq<bool>, n: nat)
    requires n <= |s.orders|
    ensures var t := Polled(s, fills, ends, n);
            && FilledOf(t.orders) == FilledOf(s.orders) + Reported(s.orders, fills, false, n)
            && (forall j :: n <= j < |s.orders| ==> t.orders[j] == s.orders[j])
  {
    hide FilledOf, Booked;
    if n > 0 {
      PolledFills(s, fills, ends, n - 1);
      BookedFills(Polled(s, fills, ends, n - 1), n - 1, At(fills, n - 1), n - 1 < |ends| && ends[n - 1]);
    }
  }

  lemma StepFills(cfg: Config, s: State, e: Event)
    ensures FilledOf(Next(cfg, s, e).orders) == FilledOf(s.orders) + Sold(s, e)
  {
    hide FilledOf, Booked, Wanted, SlipCap, Asked;
    match e {
      case Submit(r) =>
        if s.inBook && !Dedups(s, r) {
          var t := Cancelled(s, true, r.last, |s.orders|);
          if Live(s.orders) {
            CancelledFills(s, true, r.last, |s.orders|);
            AppliedAllOrders(t.(deferred := []), t.deferred);
          }
          if r.accepted.Some? {
            OneMoreOrder(Cleared(s, r).orders, NewOrder(cfg, Cleared(s, r), r, r.accepted.value));
          }
        }
      case Cycle(fills, ends) =>
        var t := Polled(s, fills, ends, |s.orders|);
        PolledFills(s, fills, ends, |s.orders|);
        AppliedAllOrders(t.(deferred := []), t.deferred);
      case EntryFill(size) =>
      case ForceDry(last) => CancelledFills(s, false, last, |s.orders|);
    }
  }

  lemma OneMoreOrder(orders: seq<ExitOrder>, o: ExitOrder)
    ensures FilledOf(orders + [o]) == FilledOf(orders) + o.filled
  {
    assert (orders + [o])[..|orders|] == orders;
  }

  /** Over every run from every state the exit orders together have sold exactly what the venue reported of them. */
  lemma {:induction false} FillsTold(cfg: Config, s: State, events: seq<Event>)
    ensures FilledOf(Run(cfg, s, events).orders) == FilledOf(s.orders) + SoldIn(cfg, s, events)
  {
    hide Next, FilledOf, Sold;
    if |events| > 0 {
      FillsTold(cfg, s, events[..|events| - 1]);
      StepFills(cfg, Run(cfg, s, events[..|events| - 1]), events[|events| - 1]);
    }
  }

  // ---------------------------------------------------------------- when the position closes

  /** The largest size the position had right after an entry fill since it was opened, told from the events. */
  function Largest(cfg: Config, s: State, events: seq<Event>): real
  {
    if |events| == 0 then s.original
    else
      var init, e := events[..|events| - 1], events[|events| - 1];
      var before, largest := Run(cfg, s, init), Largest(cfg, s, init);
      if !e.EntryFill? then largest
      else if !before.inBook then e.size
      else if before.size + e.size > largest then before.size + e.size else largest
  }

  lemma {:induction false} LargestTold(cfg: Config, s: State, events: seq<Event>)
    ensures Run(cfg, s, events).original == Largest(cfg, s, events)
  {
    hide Next;
    if |events| > 0 {
      LargestTold(cfg, s, events[..|events| - 1]);
      OriginalStays(cfg, Run(cfg, s, events[..|events| - 1]), events[|events| - 1]);
    }
  }

  lemma OriginalStays(cfg: Config, s: State, e: Event)
    ensures var t := Next(cfg, s, e);
            t.original == if !e.EntryFill? then s.original
                          else if !s.inBook then e.size
                          else if s.size + e.size > s.original then s.size + e.size else s.original
  {
    hide Booked, Applied;
    match e {
      case Submit(r) => CancelledOriginal(s, true, r.last, |s.orders|);
      case Cycle(fills, ends) => PolledOriginal(s, fills, ends, |s.orders|);
      case EntryFill(size) =>
      case ForceDry(last) => CancelledOriginal(s, false, last, |s.orders|);
    }
  }

  lemma {:induction false} CancelledOriginal(s: State, makersOnly: bool, last: seq<real>, n: nat)
    requires n <= |s.orders|
    ensures Cancelled(s, makersOnly, last, n).original == s.original
    ensures Drained(Cancelled(s, makersOnly, last, n)).original == s.original
  {
    if n > 0 { CancelledOriginal(s, makersOnly, last, n - 1); }
    var t := Cancelled(s, makersOnly, last, n);
    AppliedOriginal(t.(deferred := []), t.deferred);
  }

  lemma {:induction false} PolledOriginal(s: State, fills: seq<real>, ends: seq<bool>, n: nat)
    requires n <= |s.orders|
    ensures Polled(s, fills, ends, n).original == s.original
    ensures Drained(Polled(s, fills, ends, n)).original == s.original
  {
    if n > 0 { PolledOriginal(s, fills, ends, n - 1); }
    var t := Polled(s, fills, ends, n);
    AppliedOriginal(t.(deferred := []), t.deferred);
  }

  lemma {:induction false} AppliedOriginal(s: State, late: seq<Late>)
    ensures AppliedAll(s, late).original == s.original
  {
    if |late| > 0 { AppliedOriginal(s, late[..|late| - 1]); }
  }

  /** The first `n` fills leave no more than a ten-thousandth of the largest size, or the tolerance. */
  predicate SellsOut(s: State, late: seq<Late>, n: nat)
    requires n <= |late|
  {
    var left := s.size - Owing(late[..n]);
    left * 10000.0 <= s.original || left <= 0.000000001
  }

  /** Delivering a queue closes the position exactly when some of its fills, from the first on, sell it out. */
  lemma {:induction false} ClosesExact(s: State, late: seq<Late>)
    requires s.inBook && Queued(late)
    ensures !AppliedAll(s, late).inBook <==> exists n: nat :: 0 < n <= |late| && SellsOut(s, late, n)
  {
    if |late| > 0 {
      var init := late[..|late| - 1];
      ClosesExact(s, init);
      DeliveredExact(s, init);
      AppliedOriginal(s, init);
      forall n: nat | n <= |init| ensures SellsOut(s, late, n) == SellsOut(s, init, n) {
        assert late[..n] == init[..n];
      }
      assert late[..|late|] == late;
      assert !AppliedAll(s, late).inBook <==> !AppliedAll(s, init).inBook || SellsOut(s, late, |late|);
    }
  }
}
