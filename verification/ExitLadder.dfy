/** The exit escalation ladder of main.py, for one position: at most one live exit order, preemption of a
    resting maker take by a risk-off exit, late fills recovered by the cancel's last look, and the attempt
    counter that widens the slippage cap and ends in a market order. */
module ExitLadder {
  import opened Prelude

  datatype Config = Config(maxSlip: real, widen: real, slipCap: real, marketAfter: int,
                           makerFirstProfit: bool, makerFirstTime: bool)

  /** `asked` is the size submitted, `size` what the order manager registered. */
  datatype ExitOrder = ExitOrder(size: real, filled: real, postOnly: bool, market: bool,
                                 attempt: nat, slip: real, open: bool, asked: real) {
    function Remaining(): real { size - filled }
  }

  /** A fill booked on an order but not yet applied to the position. */
  datatype Late = Late(order: nat, size: real)

  /** `inBook` says whether the position is still in the portfolio; its object outlives that. */
  datatype State = State(size: real, original: real, inBook: bool, attempts: nat,
                         orders: seq<ExitOrder>, deferred: seq<Late>)

  /** `_handle_fill` for one exit fill. */
  function Applied(s: State, late: Late): State
  {
    if !(s.inBook && late.size > EPS) then s
    else
      var done := late.order < |s.orders| && s.orders[late.order].Remaining() <= EPS;
      var left := Max(s.size - late.size, 0.0);
      if left <= s.original * DUST || left <= EPS
      then s.(size := left, inBook := false, attempts := 0)
      else s.(size := left, attempts := if done then 0 else s.attempts)
  }

  function AppliedAll(s: State, late: seq<Late>): State
  {
    if |late| == 0 then s else Applied(AppliedAll(s, late[..|late| - 1]), late[|late| - 1])
  }

  function Drained(s: State): State { AppliedAll(s.(deferred := []), s.deferred) }

  /** The order manager books a segment of a fill on an order and queues it; `ends` closes the order. */
  function Booked(s: State, i: nat, fill: real, ends: bool): State
    requires i < |s.orders|
  {
    var o := s.orders[i];
    var seen := if fill > EPS then fill else 0.0;
    var p := o.(filled := o.filled + seen);
    s.(orders := s.orders[i := p.(open := !ends && p.Remaining() > EPS)],
       deferred := if fill > EPS then s.deferred + [Late(i, fill)] else s.deferred)
  }

  function At(fills: seq<real>, i: nat): real { if i < |fills| then fills[i] else 0.0 }

  /** Cancels the open orders among the first `n`, the maker ones only or all, each with its last look. */
  function Cancelled(s: State, makersOnly: bool, last: seq<real>, n: nat): (t: State)
    requires n <= |s.orders|
    ensures |t.orders| == |s.orders|
  {
    if n == 0 then s
    else
      var t := Cancelled(s, makersOnly, last, n - 1);
      var o := t.orders[n - 1];
      if o.open && (o.postOnly || !makersOnly) then Booked(t, n - 1, At(last, n - 1), true) else t
  }

  function Live(orders: seq<ExitOrder>): bool { exists i :: 0 <= i < |orders| && orders[i].open }

  function LiveMaker(orders: seq<ExitOrder>): bool
  {
    exists i :: 0 <= i < |orders| && orders[i].open && orders[i].postOnly
  }

  function SlipCap(cfg: Config, attempts: nat): real
  {
    Min(cfg.maxSlip * Pow(cfg.widen, attempts), cfg.slipCap)
  }

  /** One exit request and what the environment answers: `last` are the fills the cancels' last look finds,
      `accepted` the size the order manager registers, None for a rejection. */
  datatype Request = Request(percent: real, profitTake: bool, patient: bool, twoSided: bool, ordermin: real,
                             last: seq<real>, accepted: Option<real>)

  function Wanted(s: State, r: Request): real { s.size * r.percent / 100.0 }

  /** The size asked for: a slice below the venue minimum becomes a full close. */
  function Asked(s: State, r: Request): real
  {
    if r.ordermin > 0.0 && Wanted(s, r) < r.ordermin then s.size else Wanted(s, r)
  }

  predicate DustFlat(s: State, r: Request) { r.ordermin > 0.0 && s.size < r.ordermin }

  function NewOrder(cfg: Config, s: State, r: Request, size: real): ExitOrder
  {
    var market := s.attempts >= cfg.marketAfter;
    var maker := ((cfg.makerFirstProfit && r.profitTake) || (r.patient && cfg.makerFirstTime))
                 && s.attempts == 0 && r.twoSided && !market;
    ExitOrder(size, 0.0, maker, market, s.attempts + 1, SlipCap(cfg, s.attempts), true, Asked(s, r))
  }

  function Escaped(cfg: Config, s: State, r: Request): State
  {
    if DustFlat(s, r) then s.(inBook := false, attempts := 0)
    else if Wanted(s, r) <= EPS then s
    else
      var t := s.(attempts := s.attempts + 1);
      if r.accepted.None? then t else t.(orders := s.orders + [NewOrder(cfg, s, r, r.accepted.value)])
  }

  predicate Dedups(s: State, r: Request)
  {
    Live(s.orders) && (r.profitTake || r.patient || !LiveMaker(s.orders))
  }

  /** The state the escape is sized on: with a live maker take, after it was cancelled and every queued fill
      applied. */
  function Cleared(s: State, r: Request): State
  {
    if Live(s.orders) then Drained(Cancelled(s, true, r.last, |s.orders|)) else s
  }

  function Submitted(cfg: Config, s: State, r: Request): State
  {
    if !s.inBook || Dedups(s, r) then s
    else
      var t := Cleared(s, r);
      if Live(s.orders) && t.size <= EPS then t else Escaped(cfg, t, r)
  }

  /** The order manager's poll: queued fills first, then each open order's own. */
  function Polled(s: State, fills: seq<real>, ends: seq<bool>, n: nat): (t: State)
    requires n <= |s.orders|
    ensures |t.orders| == |s.orders|
  {
    if n == 0 then s
    else
      var t := Polled(s, fills, ends, n - 1);
      if t.orders[n - 1].open then Booked(t, n - 1, At(fills, n - 1), n - 1 < |ends| && ends[n - 1]) else t
  }

  function Cycled(s: State, fills: seq<real>, ends: seq<bool>): State
  {
    Drained(Polled(s, fills, ends, |s.orders|))
  }

  /** An entry fill grows the position, or opens it anew under the same id. */
  function Entered(s: State, size: real): State
  {
    if s.inBook then s.(size := s.size + size, original := Max(s.original, s.size + size))
    else s.(size := size, original := size, inBook := true)
  }

  // ---------------------------------------------------------------- the class

  class ExitDesk {
    const cfg: Config
    var size: real
    var original: real
    var inBook: bool
    var attempts: nat
    var orders: seq<ExitOrder>
    var deferred: seq<Late>

    ghost function Now(): State
      reads this
    {
      State(size, original, inBook, attempts, orders, deferred)
    }

    constructor (config: Config, units: real)
      ensures cfg == config && Now() == State(units, units, true, 0, [], [])
    {
      cfg := config;
      size, original, inBook, attempts, orders, deferred := units, units, true, 0, [], [];
    }

    method HandleFill(late: Late)
      modifies this
      ensures Now() == Applied(old(Now()), late)
    {
      if !inBook || late.size <= EPS { return; }
      if late.order < |orders| && orders[late.order].Remaining() <= EPS {
        attempts := 0;
      }
      size := Max(size - late.size, 0.0);
      if size <= original * DUST || size <= EPS {
        inBook := false;
        attempts := 0;
      }
    }

    method HandleAll(events: seq<Late>)
      modifies this
      ensures Now() == AppliedAll(old(Now()), events)
    {
      for n := 0 to |events|
        invariant Now() == AppliedAll(old(Now()), events[..n])
      {
        assert events[..n + 1][..n] == events[..n];
        HandleFill(events[n]);
      }
      assert events[..|events|] == events;
    }

    method TakeDeferred() returns (events: seq<Late>)
      modifies this
      ensures events == old(deferred) && Now() == old(Now()).(deferred := [])
    {
      events := deferred;
      deferred := [];
    }

    method CancelOrder(i: nat, lastLook: real)
      requires i < |orders|
      modifies this
      ensures Now() == Booked(old(Now()), i, lastLook, true)
    {
      var o := orders[i];
      if lastLook > EPS {
        o := o.(filled := o.filled + lastLook);
        deferred := deferred + [Late(i, lastLook)];
      }
      orders := orders[i := o.(open := false)];
    }

    method CancelOrders(makersOnly: bool, last: seq<real>)
      modifies this
      ensures Now() == Cancelled(old(Now()), makersOnly, last, |old(orders)|)
    {
      var n := 0;
      while n < |orders|
        invariant 0 <= n <= |orders| == |old(orders)|
        invariant Now() == Cancelled(old(Now()), makersOnly, last, n)
      {
        if orders[n].open && (orders[n].postOnly || !makersOnly) {
          CancelOrder(n, At(last, n));
        }
        n := n + 1;
      }
    }

    method SubmitExit(r: Request)
      modifies this
      ensures Now() == Submitted(cfg, old(Now()), r)
    {
      if !inBook { return; }
      var live := exists i :: 0 <= i < |orders| && orders[i].open;
      if live {
        var preemptable := exists i :: 0 <= i < |orders| && orders[i].open && orders[i].postOnly;
        if r.profitTake || r.patient || !preemptable { return; }
        CancelOrders(true, r.last);
        var late := TakeDeferred();
        HandleAll(late);
        if size <= EPS { return; }
      }
      Escape(r);
    }

    method Escape(r: Request)
      modifies this
      ensures Now() == Escaped(cfg, old(Now()), r)
    {
      if r.ordermin > 0.0 && size < r.ordermin {
        inBook, attempts := false, 0;
        return;
      }
      var goMarket := attempts >= cfg.marketAfter;
      var makerFirst := ((cfg.makerFirstProfit && r.profitTake) || (r.patient && cfg.makerFirstTime))
                        && attempts == 0 && r.twoSided && !goMarket;
      var slice := size * r.percent / 100.0;
      assert slice == Wanted(Now(), r);
      if slice <= EPS { return; }
      if r.ordermin > 0.0 && slice < r.ordermin {
        slice := size;
      }
      if r.accepted.Some? {
        orders := orders + [ExitOrder(r.accepted.value, 0.0, makerFirst, goMarket,
                             attempts + 1, SlipCap(cfg, attempts), true, slice)];
      }
      attempts := attempts + 1;
    }

    method Cycle(fills: seq<real>, ends: seq<bool>)
      modifies this
      ensures Now() == Cycled(old(Now()), fills, ends)
    {
      var n := 0;
      while n < |orders|
        invariant 0 <= n <= |orders| == |old(orders)|
        invariant Now() == Polled(old(Now()), fills, ends, n)
      {
        if orders[n].open {
          var o := orders[n];
          var fill := At(fills, n);
          if fill > EPS {
            o := o.(filled := o.filled + fill);
            deferred := deferred + [Late(n, fill)];
          }
          orders := orders[n := o.(open := !(n < |ends| && ends[n]) && o.Remaining() > EPS)];
        }
        n := n + 1;
      }
      var events := TakeDeferred();
      HandleAll(events);
    }
  }

  // ---------------------------------------------------------------- exposure

  function Part(o: ExitOrder): real { if o.open then o.Remaining() else 0.0 }

  /** What the live exit orders may still sell, and what they sold that the position does not know yet. */
  function LiveRest(orders: seq<ExitOrder>): real
  {
    if |orders| == 0 then 0.0 else LiveRest(orders[..|orders| - 1]) + Part(orders[|orders| - 1])
  }

  function Owing(late: seq<Late>): real
  {
    if |late| == 0 then 0.0 else Owing(late[..|late| - 1]) + late[|late| - 1].size
  }

  function Exposure(s: State): real { LiveRest(s.orders) + Owing(s.deferred) }

  predicate Sized(s: State)
  {
    && s.size >= 0.0
    && (forall i :: 0 <= i < |s.orders| ==> 0.0 <= s.orders[i].filled <= s.orders[i].size)
    && (forall i :: 0 <= i < |s.deferred| ==> s.deferred[i].size >= 0.0)
  }

  predicate OneLive(orders: seq<ExitOrder>)
  {
    forall i, j :: 0 <= i < j < |orders| ==> !(orders[i].open && orders[j].open)
  }

  /** At most one live exit, which together with the undelivered exit fills never exceeds the position. */
  predicate Safe(s: State)
  {
    Sized(s) && OneLive(s.orders) && (s.inBook ==> Exposure(s) <= s.size)
  }

  lemma {:induction false} LiveRestUpdate(orders: seq<ExitOrder>, i: nat, o: ExitOrder)
    requires i < |orders|
    ensures LiveRest(orders[i := o]) == LiveRest(orders) - Part(orders[i]) + Part(o)
  {
    var n := |orders| - 1;
    if i < n {
      LiveRestUpdate(orders[..n], i, o);
      assert orders[i := o][..n] == orders[..n][i := o];
    } else {
      assert orders[i := o][..n] == orders[..n];
    }
  }

  lemma {:induction false} NoneLive(orders: seq<ExitOrder>)
    requires !Live(orders)
    ensures LiveRest(orders) == 0.0
  {
    if |orders| > 0 {
      assert forall i :: 0 <= i < |orders| - 1 ==> orders[..|orders| - 1][i] == orders[i];
      NoneLive(orders[..|orders| - 1]);
    }
  }

  /** What the environment may answer: a fill of an open order is at most what the order has left. */
  predicate Fills(orders: seq<ExitOrder>, fills: seq<real>)
  {
    forall i :: 0 <= i < |orders| && orders[i].open ==> 0.0 <= At(fills, i) <= orders[i].Remaining()
  }

  lemma BookedKeeps(s: State, i: nat, fill: real, ends: bool)
    requires Sized(s) && OneLive(s.orders) && i < |s.orders|
             && s.orders[i].open && 0.0 <= fill <= s.orders[i].Remaining()
    ensures var t := Booked(s, i, fill, ends);
            && Sized(t) && OneLive(t.orders) && Exposure(t) <= Exposure(s)
            && t.size == s.size && t.original == s.original && t.inBook == s.inBook && t.attempts == s.attempts
            && (forall j :: 0 <= j < |s.orders| && j != i ==> t.orders[j] == s.orders[j])
            && (ends ==> !t.orders[i].open)
            && Kin(s.orders[i], t.orders[i])
  {
    var t := Booked(s, i, fill, ends);
    LiveRestUpdate(s.orders, i, t.orders[i]);
    if fill > EPS {
      assert t.deferred[..|s.deferred|] == s.deferred;
    }
  }

  /** The same order, perhaps fuller, perhaps closed. */
  predicate Kin(o: ExitOrder, p: ExitOrder)
  {
    && p.size == o.size && p.postOnly == o.postOnly && p.market == o.market
    && p.attempt == o.attempt && p.slip == o.slip && p.asked == o.asked
    && p.filled >= o.filled && (p.open ==> o.open)
  }

  predicate AllKin(before: seq<ExitOrder>, after: seq<ExitOrder>)
  {
    |after| >= |before| && forall i :: 0 <= i < |before| ==> Kin(before[i], after[i])
  }

  lemma {:induction false} CancelledKeeps(s: State, makersOnly: bool, last: seq<real>, n: nat)
    requires Sized(s) && OneLive(s.orders) && Fills(s.orders, last) && n <= |s.orders|
    ensures var t := Cancelled(s, makersOnly, last, n);
            && Sized(t) && OneLive(t.orders) && Exposure(t) <= Exposure(s)
            && t.size == s.size && t.original == s.original && t.inBook == s.inBook && t.attempts == s.attempts
            && AllKin(s.orders, t.orders)
            && (forall j :: n <= j < |s.orders| ==> t.orders[j] == s.orders[j])
            && (forall j :: 0 <= j < n && (s.orders[j].postOnly || !makersOnly) ==> !t.orders[j].open)
  {
    hide Exposure, Sized, OneLive, Booked;
    if n > 0 {
      CancelledKeeps(s, makersOnly, last, n - 1);
      var t := Cancelled(s, makersOnly, last, n - 1);
      if t.orders[n - 1].open && (t.orders[n - 1].postOnly || !makersOnly) {
        BookedKeeps(t, n - 1, At(last, n - 1), true);
      }
    }
  }

  lemma {:induction false} PolledKeeps(s: State, fills: seq<real>, ends: seq<bool>, n: nat)
    requires Sized(s) && OneLive(s.orders) && Fills(s.orders, fills) && n <= |s.orders|
    ensures var t := Polled(s, fills, ends, n);
            && Sized(t) && OneLive(t.orders) && Exposure(t) <= Exposure(s)
            && t.size == s.size && t.original == s.original && t.inBook == s.inBook && t.attempts == s.attempts
            && AllKin(s.orders, t.orders)
            && (forall j :: n <= j < |s.orders| ==> t.orders[j] == s.orders[j])
  {
    hide Exposure, Sized, OneLive, Booked;
    if n > 0 {
      PolledKeeps(s, fills, ends, n - 1);
      var t := Polled(s, fills, ends, n - 1);
      if t.orders[n - 1].open {
        BookedKeeps(t, n - 1, At(fills, n - 1), n - 1 < |ends| && ends[n - 1]);
      }
    }
  }

  /** Applying queued fills takes at most their sum from the position and changes no order. */
  lemma {:induction false} AppliedAllBound(s: State, late: seq<Late>)
    requires s.size >= 0.0 && forall i :: 0 <= i < |late| ==> late[i].size >= 0.0
    ensures var t := AppliedAll(s, late);
            && t.orders == s.orders && t.deferred == s.deferred && t.original == s.original
            && t.size >= 0.0 && s.size - Owing(late) <= t.size <= s.size && (t.inBook ==> s.inBook)
  {
    if |late| > 0 {
      AppliedAllBound(s, late[..|late| - 1]);
    }
  }

  lemma DrainedKeeps(s: State)
    requires Sized(s) && OneLive(s.orders) && (s.inBook ==> Exposure(s) <= s.size)
    ensures Safe(Drained(s)) && Drained(s).deferred == [] && Drained(s).orders == s.orders
    ensures Drained(s).inBook ==> s.inBook
  {
    hide OneLive, LiveRest;
    AppliedAllBound(s.(deferred := []), s.deferred);
  }

  // ---------------------------------------------------------------- one exit request

  predicate FairRequest(s: State, r: Request)
  {
    && 0.0 <= r.percent <= 100.0 && Fills(s.orders, r.last)
    && (r.accepted.Some? ==> 0.0 <= r.accepted.value <= Asked(Cleared(s, r), r))
  }

  lemma ClearedKeeps(s: State, r: Request)
    requires Safe(s) && Fills(s.orders, r.last) && s.inBook && !Dedups(s, r) && (Live(s.orders) || s.deferred == [])
    ensures Safe(Cleared(s, r)) && Cleared(s, r).deferred == [] && !Live(Cleared(s, r).orders)
    ensures AllKin(s.orders, Cleared(s, r).orders) && |Cleared(s, r).orders| == |s.orders|
  {
    hide Exposure, Sized, Fills;
    if Live(s.orders) {
      CancelledKeeps(s, true, r.last, |s.orders|);
      var t := Cancelled(s, true, r.last, |s.orders|);
      DrainedKeeps(t);
      var i :| 0 <= i < |s.orders| && s.orders[i].open && s.orders[i].postOnly;
      forall j | 0 <= j < |t.orders|
        ensures !t.orders[j].open
      {
        assert Kin(s.orders[j], t.orders[j]);
        if j != i {
          assert !s.orders[j].open;
        }
      }
    }
  }

  lemma AskedAtMostSize(s: State, r: Request)
    requires s.size >= 0.0 && 0.0 <= r.percent <= 100.0
    ensures 0.0 <= Asked(s, r) <= s.size
  {
    TimesMonotone(s.size, 0.0, r.percent);
    TimesMonotone(s.size, r.percent, 100.0);
    var product := s.size * r.percent;
    assert product == Times(s.size, r.percent) && Wanted(s, r) == product / 100.0;
  }

  lemma {:induction false} LiveRestAppend(orders: seq<ExitOrder>, o: ExitOrder)
    ensures LiveRest(orders + [o]) == LiveRest(orders) + Part(o)
  {
    assert (orders + [o])[..|orders|] == orders;
  }

  /** The escape on a position with no live exit is safe exactly when what it sells and what is still
      undelivered fit the position. */
  lemma EscapeExact(cfg: Config, s: State, r: Request)
    requires Sized(s) && !Live(s.orders) && s.inBook && r.accepted.Some? && r.accepted.value >= 0.0
    requires !DustFlat(s, r) && Wanted(s, r) > EPS
    ensures Safe(Escaped(cfg, s, r)) <==> r.accepted.value + Owing(s.deferred) <= s.size
  {
    hide LiveRest, Wanted;
    var o := NewOrder(cfg, s, r, r.accepted.value);
    LiveRestAppend(s.orders, o);
    NoneLive(s.orders);
    assert OneLive(s.orders + [o]);
  }

  lemma SubmitKeeps(cfg: Config, s: State, r: Request)
    requires Safe(s) && FairRequest(s, r) && (Live(s.orders) || s.deferred == [])
    ensures Safe(Submitted(cfg, s, r)) && AllKin(s.orders, Submitted(cfg, s, r).orders)
  {
    hide Exposure, Cleared, Wanted, Asked, Fills, NewOrder;
    if s.inBook && !Dedups(s, r) {
      ClearedKeeps(s, r);
      var t := Cleared(s, r);
      AskedAtMostSize(t, r);
      if !(Live(s.orders) && t.size <= EPS) {
        EscapeKeeps(cfg, t, r);
      }
    }
  }

  lemma EscapeKeeps(cfg: Config, t: State, r: Request)
    requires Safe(t) && !Live(t.orders) && t.deferred == []
    requires r.accepted.Some? ==> 0.0 <= r.accepted.value <= t.size
    ensures Safe(Escaped(cfg, t, r))
    ensures |Escaped(cfg, t, r).orders| >= |t.orders| && Escaped(cfg, t, r).orders[..|t.orders|] == t.orders
  {
    hide LiveRest, Wanted;
    if r.accepted.Some? && !DustFlat(t, r) && Wanted(t, r) > EPS {
      var o := NewOrder(cfg, t, r, r.accepted.value);
      LiveRestAppend(t.orders, o);
      NoneLive(t.orders);
      assert OneLive(t.orders + [o]);
    }
  }

  // ---------------------------------------------------------------- runs

  datatype Event =
    | Submit(request: Request)
    | Cycle(fills: seq<real>, ends: seq<bool>)
    | EntryFill(size: real)
    | ForceDry(last: seq<real>)

  function Next(cfg: Config, s: State, e: Event): State
  {
    match e
    case Submit(r) => Submitted(cfg, s, r)
    case Cycle(fills, ends) => Cycled(s, fills, ends)
    case EntryFill(size) => Entered(s, size)
    case ForceDry(last) => Cancelled(s, false, last, |s.orders|)
  }

  /** What a fair step asks of its surroundings: venue fills within the orders, exits of at most the whole
      position, no exit sized while a fill recovered outside the ladder is still queued, and no late entry
      fill reopening a closed position that still has exits out. */
  predicate Fair(s: State, e: Event)
  {
    match e
    case Submit(r) => FairRequest(s, r) && (Live(s.orders) || s.deferred == [])
    case Cycle(fills, ends) => Fills(s.orders, fills)
    case EntryFill(size) => size >= 0.0 && (s.inBook || (!Live(s.orders) && s.deferred == []))
    case ForceDry(last) => Fills(s.orders, last)
  }

  function Run(cfg: Config, s: State, events: seq<Event>): State
  {
    if |events| == 0 then s else Next(cfg, Run(cfg, s, events[..|events| - 1]), events[|events| - 1])
  }

  predicate FairRun(cfg: Config, s: State, events: seq<Event>)
  {
    |events| == 0 ||
    (FairRun(cfg, s, events[..|events| - 1]) && Fair(Run(cfg, s, events[..|events| - 1]), events[|events| - 1]))
  }

  lemma NextKeeps(cfg: Config, s: State, e: Event)
    requires Safe(s) && Fair(s, e)
    ensures Safe(Next(cfg, s, e)) && AllKin(s.orders, Next(cfg, s, e).orders)
  {
    hide LiveRest, FairRequest, Fills, Submitted;
    match e {
      case Submit(r) => SubmitKeeps(cfg, s, r);
      case Cycle(fills, ends) =>
        PolledKeeps(s, fills, ends, |s.orders|);
        DrainedKeeps(Polled(s, fills, ends, |s.orders|));
      case EntryFill(size) =>
        if !s.inBook {
          NoneLive(s.orders);
        }
      case ForceDry(last) => CancelledKeeps(s, false, last, |s.orders|);
    }
  }

  /** Exit safety over every run: partial fills, preemptions, timeouts, rejections and further entries
      included, the position has at most one live exit order, and that order and the exit fills not yet
      delivered never add up to more than the position. */
  lemma {:induction false} ExitsNeverOversell(cfg: Config, s: State, events: seq<Event>)
    requires Safe(s) && FairRun(cfg, s, events)
    ensures Safe(Run(cfg, s, events))
  {
    hide Next, Fair, Safe;
    if |events| > 0 {
      ExitsNeverOversell(cfg, s, events[..|events| - 1]);
      NextKeeps(cfg, Run(cfg, s, events[..|events| - 1]), events[|events| - 1]);
    }
  }

  /** Reopening a closed position by a late entry fill is safe exactly when the exits still out fit it. */
  lemma ReopenExact(s: State, size: real)
    requires Sized(s) && OneLive(s.orders) && !s.inBook && size >= 0.0
    ensures Safe(Entered(s, size)) <==> Exposure(s) <= size
  {
    hide Exposure;
    assert Exposure(Entered(s, size)) == Exposure(s) by { SameExposure(s, Entered(s, size)); }
  }

  lemma SameExposure(s: State, t: State)
    requires t.orders == s.orders && t.deferred == s.deferred
    ensures Exposure(t) == Exposure(s)
  {
  }

  /** What the drain is for. A fill recovered by a cancel outside the ladder, as when the bot is forced dry, is
      still queued when the next exit of the same tick is sized: a full close then puts more up for sale than
      the position holds, by exactly what is queued. */
  lemma UndrainedOversells(cfg: Config, s: State, last: seq<real>, r: Request)
    requires Safe(s) && s.inBook && Fills(s.orders, last) && s.size > EPS
    requires r.percent == 100.0 && r.accepted == Some(s.size) && r.ordermin <= s.size
    ensures var t := Cancelled(s, false, last, |s.orders|);
            var end := Submitted(cfg, t, r);
            Exposure(end) == s.size + Owing(t.deferred) && (Safe(end) <==> Owing(t.deferred) <= 0.0)
  {
    hide LiveRest, NewOrder;
    CancelledKeeps(s, false, last, |s.orders|);
    var t := Cancelled(s, false, last, |s.orders|);
    assert !Live(t.orders);
    NoneLive(t.orders);
    assert t.size * 100.0 / 100.0 == t.size;
    EscapeExact(cfg, t, r);
    LiveRestAppend(t.orders, NewOrder(cfg, t, r, s.size));
    assert Part(NewOrder(cfg, t, r, s.size)) == s.size by { NewOrderPart(cfg, t, r, s.size); }
  }

  lemma NewOrderPart(cfg: Config, s: State, r: Request, size: real)
    ensures Part(NewOrder(cfg, s, r, size)) == size
  {
  }

  /** An exit order as it was placed, all of what was asked for registered. */
  function Placed(size: real, maker: bool): ExitOrder { ExitOrder(size, 0.0, maker, false, 1, 0.0, true, size) }

  const HALF_SOLD: State := State(10.0, 10.0, true, 0, [Placed(10.0, false)], [])

  const FLATTEN: Request := Request(100.0, false, false, true, 0.0, [], Some(10.0))

  /** A position of ten with a full exit resting: forced dry when four had sold, then flattened, it has fourteen
      out for sale. */
  lemma ForcedDryExample(cfg: Config)
    ensures var end := Submitted(cfg, Cancelled(HALF_SOLD, false, [4.0], 1), FLATTEN);
            Safe(HALF_SOLD) && Exposure(end) == 14.0 && !Safe(end)
  {
    hide Submitted, Safe;
    var o := HALF_SOLD.orders[0];
    OneOrder(o);
    NothingLate();
    OneIsSafe(HALF_SOLD, 10.0, false);
    UndrainedOversells(cfg, HALF_SOLD, [4.0], FLATTEN);
    assert Cancelled(HALF_SOLD, false, [4.0], 0) == HALF_SOLD;
    var t := Cancelled(HALF_SOLD, false, [4.0], 1);
    assert t.deferred == [Late(0, 4.0)] && t.deferred[..0] == [];
  }

  lemma OneIsSafe(s: State, size: real, maker: bool)
    requires s.orders == [Placed(size, maker)] && s.deferred == [] && s.size == size >= 0.0
    ensures Safe(s)
  {
    OneOrder(Placed(size, maker));
    NothingLate();
  }

  lemma NothingLate()
    ensures Owing([]) == 0.0
  {
  }

  lemma OneOrder(o: ExitOrder)
    ensures LiveRest([o]) == Part(o)
  {
    assert [o][..0] == [];
  }

  lemma {:induction false} AppliedAllOrders(s: State, late: seq<Late>)
    ensures AppliedAll(s, late).orders == s.orders
  {
    if |late| > 0 { AppliedAllOrders(s, late[..|late| - 1]); }
  }

  /** When an exit goes out for a position that is closed. The preemption's drain can close the position as dust and
      leave more than the engine's tolerance; the request then goes on, for only the tolerance is asked about. That is
      the only way a request leaves the position closed and places an order, and it does so exactly then. */
  lemma ClosedYetEscapesExact(cfg: Config, s: State, r: Request)
    requires s.inBook
    ensures var after, t := Submitted(cfg, s, r), Cleared(s, r);
            !after.inBook && |after.orders| > |s.orders| <==>
            && !Dedups(s, r) && Live(s.orders) && !t.inBook && t.size > EPS
            && !DustFlat(t, r) && Wanted(t, r) > EPS && r.accepted.Some?
  {
    hide Wanted, NewOrder;
    if Live(s.orders) {
      AppliedAllOrders(Cancelled(s, true, r.last, |s.orders|).(deferred := []),
                       Cancelled(s, true, r.last, |s.orders|).deferred);
    }
  }

  const RESTING: State := State(10.0, 10.0, true, 1, [Placed(10.0, true)], [])

  const RISK_OFF: Request := Request(100.0, false, false, true, 0.0, [9.9995], Some(0.0005))

  /** A resting take of all ten, found by the cancel to have sold 9.9995: what is left is dust, the position is closed,
      and its exit is placed all the same. */
  lemma DustDrainExample(cfg: Config)
    ensures var after := Submitted(cfg, RESTING, RISK_OFF);
            && Safe(RESTING) && FairRequest(RESTING, RISK_OFF) && !after.inBook
            && |after.orders| == 2 && after.orders[1].open && after.attempts == 1
  {
    hide SlipCap, Cleared, Safe;
    DustDrained();
    OneIsSafe(RESTING, 10.0, true);
    var t := Cleared(RESTING, RISK_OFF);
    assert t.size * 100.0 / 100.0 == t.size;
  }

  lemma DustDrained()
    ensures var t := Cleared(RESTING, RISK_OFF);
            t.size == 0.0005 && !t.inBook && t.attempts == 0 && |t.orders| == 1
  {
    hide Applied, Booked;
    var booked := Booked(RESTING, 0, 9.9995, true);
    LastLookBooked();
    assert RESTING.orders[0].open;
    assert Cancelled(RESTING, true, [9.9995], 0) == RESTING && Cancelled(RESTING, true, [9.9995], 1) == booked;
    var late, waiting := [Late(0, 9.9995)], booked.(deferred := []);
    assert late[..0] == [];
    assert AppliedAll(waiting, []) == waiting && AppliedAll(waiting, late) == Applied(waiting, late[0]);
    DustApplied(waiting);
  }

  lemma LastLookBooked()
    ensures var booked := Booked(RESTING, 0, 9.9995, true);
            && booked.deferred == [Late(0, 9.9995)] && |booked.orders| == 1
            && booked.size == 10.0 && booked.original == 10.0 && booked.inBook
  {
  }

  lemma DustApplied(s: State)
    requires s.size == 10.0 && s.original == 10.0 && s.inBook && |s.orders| == 1
    ensures var t := Applied(s, Late(0, 9.9995));
            t.size == 0.0005 && !t.inBook && t.attempts == 0 && t.orders == s.orders
  {
  }

  // ---------------------------------------------------------------- the ladder

  /** The fill's order has nothing left to sell. */
  predicate Completes(orders: seq<ExitOrder>, late: Late)
  {
    late.order < |orders| && orders[late.order].Remaining() <= EPS
  }

  /** Applying these fills reaches one of a completed order while the position is still in the book. */
  predicate AnyCompletes(s: State, late: seq<Late>)
  {
    |late| > 0 &&
    var init, last := late[..|late| - 1], late[|late| - 1];
    AnyCompletes(s, init) || (AppliedAll(s, init).inBook && last.size > EPS && Completes(s.orders, last))
  }

  /** The state whose queued fills a step delivers to the position, if it delivers any. */
  function Delivering(s: State, e: Event): Option<State>
  {
    match e
    case Submit(r) =>
      if s.inBook && !Dedups(s, r) && Live(s.orders) then Some(Cancelled(s, true, r.last, |s.orders|)) else None
    case Cycle(fills, ends) => Some(Polled(s, fills, ends, |s.orders|))
    case _ => None
  }

  /** The step closes the position, or delivers a fill of an exit order that has nothing left. */
  predicate Resets(cfg: Config, s: State, e: Event)
  {
    var due := Delivering(s, e);
    || (s.inBook && !Next(cfg, s, e).inBook)
    || (due.Some? && AnyCompletes(due.value.(deferred := []), due.value.deferred))
  }

  /** The request gets past the dedup and the dust checks: an attempt is made, accepted or not. */
  predicate Attempts(s: State, r: Request)
  {
    var t := Cleared(s, r);
    s.inBook && !Dedups(s, r) && !(Live(s.orders) && t.size <= EPS) && !DustFlat(t, r) && Wanted(t, r) > EPS
  }

  predicate Tries(s: State, e: Event) { e.Submit? && Attempts(s, e.request) }

  /** The attempts since the last reset, the starting count on top if there was none. */
  function Rung(cfg: Config, s: State, events: seq<Event>): nat
  {
    if |events| == 0 then s.attempts
    else
      var init, e := events[..|events| - 1], events[|events| - 1];
      (if Resets(cfg, Run(cfg, s, init), e) then 0 else Rung(cfg, s, init)) +
      (if Tries(Run(cfg, s, init), e) then 1 else 0)
  }

  /** A fill that leaves the position open leaves the counter alone unless its order is complete, and then
      the counter starts again, as it does when the position closes. */
  lemma {:induction false} AppliedAllCounts(s: State, late: seq<Late>)
    ensures var t := AppliedAll(s, late);
            && t.orders == s.orders && (t.inBook ==> s.inBook)
            && t.attempts == if AnyCompletes(s, late) || (s.inBook && !t.inBook) then 0 else s.attempts
  {
    if |late| > 0 {
      AppliedAllCounts(s, late[..|late| - 1]);
    }
  }

  lemma {:induction false} CancelledCounts(s: State, makersOnly: bool, last: seq<real>, n: nat)
    requires n <= |s.orders|
    ensures var t := Cancelled(s, makersOnly, last, n); t.attempts == s.attempts && t.inBook == s.inBook
  {
    if n > 0 {
      CancelledCounts(s, makersOnly, last, n - 1);
    }
  }

  lemma {:induction false} PolledCounts(s: State, fills: seq<real>, ends: seq<bool>, n: nat)
    requires n <= |s.orders|
    ensures var t := Polled(s, fills, ends, n); t.attempts == s.attempts && t.inBook == s.inBook
  {
    if n > 0 {
      PolledCounts(s, fills, ends, n - 1);
    }
  }

  /** One step, whatever it is: a reset takes the counter to zero, and an attempt adds one. */
  lemma CountStep(cfg: Config, s: State, e: Event)
    ensures Next(cfg, s, e).attempts ==
            (if Resets(cfg, s, e) then 0 else s.attempts) + (if Tries(s, e) then 1 else 0)
  {
    hide Wanted, NewOrder, AnyCompletes;
    match e {
      case Submit(r) =>
        if s.inBook && !Dedups(s, r) && Live(s.orders) {
          var t := Cancelled(s, true, r.last, |s.orders|);
          CancelledCounts(s, true, r.last, |s.orders|);
          AppliedAllCounts(t.(deferred := []), t.deferred);
        }
      case Cycle(fills, ends) =>
        var t := Polled(s, fills, ends, |s.orders|);
        PolledCounts(s, fills, ends, |s.orders|);
        AppliedAllCounts(t.(deferred := []), t.deferred);
      case EntryFill(size) =>
      case ForceDry(last) => CancelledCounts(s, false, last, |s.orders|);
    }
  }

  /** In every run from every state the counter is the number of attempts, rejected and partly filled ones
      included, since an exit order last completed or the position last closed. */
  lemma {:induction false} CounterExact(cfg: Config, s: State, events: seq<Event>)
    ensures Run(cfg, s, events).attempts == Rung(cfg, s, events)
  {
    hide Next, Tries, Resets;
    if |events| > 0 {
      var init := events[..|events| - 1];
      CounterExact(cfg, s, init);
      CountStep(cfg, Run(cfg, s, init), events[|events| - 1]);
    }
  }

  /** No step of the stretch closes the position or delivers a fill of a completed exit order. What completed
      before the stretch does not matter. */
  predicate Struggling(cfg: Config, s: State, events: seq<Event>)
  {
    |events| == 0 ||
    var init := events[..|events| - 1];
    Struggling(cfg, s, init) && !Resets(cfg, Run(cfg, s, init), events[|events| - 1])
  }

  function Tried(cfg: Config, s: State, events: seq<Event>): nat
  {
    if |events| == 0 then 0
    else
      var init := events[..|events| - 1];
      Tried(cfg, s, init) + if Tries(Run(cfg, s, init), events[|events| - 1]) then 1 else 0
  }

  /** While the position struggles the counter counts every attempt. */
  lemma {:induction false} LadderClimbs(cfg: Config, s: State, events: seq<Event>)
    requires Struggling(cfg, s, events)
    ensures Run(cfg, s, events).attempts == s.attempts + Tried(cfg, s, events)
  {
    hide Next, Tries, Resets;
    if |events| > 0 {
      var init := events[..|events| - 1];
      LadderClimbs(cfg, s, init);
      CountStep(cfg, Run(cfg, s, init), events[|events| - 1]);
    }
  }

  /** The order an accepted attempt places after any run: its rung is the number of attempts since the last
      reset, it is a market order exactly when that number has reached `marketAfter`, and its slippage cap is
      at least that of every earlier rung, as long as the configured factor widens. */
  lemma PlacedExact(cfg: Config, s: State, events: seq<Event>, r: Request)
    requires Attempts(Run(cfg, s, events), r) && r.accepted.Some?
    ensures var after := Run(cfg, s, events + [Submit(r)]);
            |after.orders| > 0 &&
            var placed, rung := after.orders[|after.orders| - 1], Rung(cfg, s, events + [Submit(r)]);
            && placed.attempt == rung && placed.slip == SlipCap(cfg, rung - 1)
            && (placed.market <==> rung > cfg.marketAfter)
            && (cfg.widen >= 1.0 && cfg.maxSlip >= 0.0 ==>
                  forall n: nat :: n < rung ==> SlipCap(cfg, n) <= placed.slip)
  {
    hide Next, Attempts, SlipCap, Resets;
    var all := events + [Submit(r)];
    assert all[..|events|] == events;
    CounterExact(cfg, s, all);
    PlacedOrder(cfg, Run(cfg, s, events), r);
    WidestSoFar(cfg, Rung(cfg, s, all) - 1);
  }

  /** Which orders rest as maker orders, after any run: only on the first rung since the last reset, with a book
      that has both sides, for a profit take or a patient exit whose kind is configured so, and never as a market
      order. */
  lemma RestsExact(cfg: Config, s: State, events: seq<Event>, r: Request)
    requires Attempts(Run(cfg, s, events), r) && r.accepted.Some?
    ensures var after := Run(cfg, s, events + [Submit(r)]);
            |after.orders| > 0 &&
            var placed, rung := after.orders[|after.orders| - 1], Rung(cfg, s, events + [Submit(r)]);
            && placed.open && placed.filled == 0.0 && placed.size == r.accepted.value
            && (placed.postOnly <==>
                  && rung == 1 && cfg.marketAfter > 0 && r.twoSided
                  && ((r.profitTake && cfg.makerFirstProfit) || (r.patient && cfg.makerFirstTime)))
            && !(placed.postOnly && placed.market)
  {
    hide Next, Attempts, SlipCap, Resets;
    var all := events + [Submit(r)];
    assert all[..|events|] == events;
    CounterExact(cfg, s, all);
    PlacedOrder(cfg, Run(cfg, s, events), r);
  }

  /** What an exit asks for: nothing from a position below the venue's minimum, which is closed in the book instead;
      otherwise its share of the position as the preemption left it, or all of it if that share is below the
      minimum; and so never more than the position. */
  lemma AskedExact(cfg: Config, s: State, r: Request)
    requires s.inBook && !Dedups(s, r) && !(Live(s.orders) && Cleared(s, r).size <= EPS)
    requires 0.0 <= r.percent <= 100.0 && Cleared(s, r).size >= 0.0
    ensures var t, after := Cleared(s, r), Submitted(cfg, s, r);
            if r.ordermin > 0.0 && t.size < r.ordermin then !after.inBook && after.orders == t.orders
            else if t.size * r.percent <= 0.0000001 then after == t
            else
              && after.attempts == t.attempts + 1 && after.inBook == t.inBook
              && (r.accepted.None? ==> after.orders == t.orders)
              && (r.accepted.Some? ==>
                    && |after.orders| == |t.orders| + 1 && after.orders[..|t.orders|] == t.orders
                    && var placed := after.orders[|t.orders|];
                       && placed.asked <= t.size
                       && (if t.size * r.percent < r.ordermin * 100.0 then placed.asked == t.size
                           else placed.asked * 100.0 == t.size * r.percent))
  {
    hide Cleared, Dedups, SlipCap;
    var t := Cleared(s, r);
    AskedAtMostSize(t, r);
    assert Wanted(t, r) * 100.0 == t.size * r.percent;
  }

  /** Which requests are let through while an exit is live: a risk-off one, and only if that exit is a resting maker
      order, which it cancels. Every other one changes nothing. */
  lemma DedupExact(cfg: Config, s: State, r: Request, i: nat)
    requires s.inBook && OneLive(s.orders) && i < |s.orders| && s.orders[i].open
    ensures if r.profitTake || r.patient || !s.orders[i].postOnly then Submitted(cfg, s, r) == s
            else |Submitted(cfg, s, r).orders| >= |s.orders| && !Submitted(cfg, s, r).orders[i].open
  {
    hide Wanted, NewOrder;
    assert forall j :: 0 <= j < |s.orders| && s.orders[j].open ==> j == i;
    if !r.profitTake && !r.patient && s.orders[i].postOnly {
      var t := Cancelled(s, true, r.last, |s.orders|);
      MakerIsCancelled(s, r.last, |s.orders|, i);
      AppliedAllOrders(t.(deferred := []), t.deferred);
    }
  }

  lemma {:induction false} MakerIsCancelled(s: State, last: seq<real>, n: nat, i: nat)
    requires i < n <= |s.orders| && s.orders[i].postOnly
    ensures !Cancelled(s, true, last, n).orders[i].open
    decreases n
  {
    if i < n - 1 {
      MakerIsCancelled(s, last, n - 1, i);
    } else {
      LaterUntouched(s, last, n - 1, i);
    }
  }

  lemma {:induction false} LaterUntouched(s: State, last: seq<real>, n: nat, i: nat)
    requires n <= i < |s.orders|
    ensures Cancelled(s, true, last, n).orders[i] == s.orders[i]
  {
    if n > 0 { LaterUntouched(s, last, n - 1, i); }
  }

  /** So a struggle that begins with the counter at zero, in whatever state, ends in market orders: every
      attempt after the first `marketAfter` is one. */
  lemma EscapeEndsInMarket(cfg: Config, s: State, events: seq<Event>, r: Request)
    requires Struggling(cfg, s, events + [Submit(r)]) && s.attempts == 0
    requires Attempts(Run(cfg, s, events), r) && r.accepted.Some?
    ensures var after := Run(cfg, s, events + [Submit(r)]);
            |after.orders| > 0 &&
            var placed := after.orders[|after.orders| - 1];
            && placed.attempt == Tried(cfg, s, events) + 1
            && (placed.market <==> Tried(cfg, s, events) >= cfg.marketAfter)
  {
    hide Next, Attempts, SlipCap, Resets, Rung;
    var all := events + [Submit(r)];
    assert all[..|events|] == events;
    LadderClimbs(cfg, s, all);
    CounterExact(cfg, s, all);
    PlacedExact(cfg, s, events, r);
  }

  const TEN: State := State(10.0, 10.0, true, 0, [], [])

  const TAKE: Request := Request(30.0, true, false, true, 0.0, [], Some(3.0))

  /** What is left of `TEN` once the take has sold all of its three. */
  function Taken(cfg: Config): State { Run(cfg, TEN, [Submit(TAKE), Cycle([3.0], [])]) }

  function Flee(accepted: Option<real>): Event { Submit(Request(100.0, false, false, true, 0.0, [], accepted)) }

  function Rejections(n: nat): seq<Event> { seq(n, i => Flee(None)) }

  lemma TakenExact(cfg: Config)
    ensures var s := Taken(cfg);
            && s.size == 7.0 && s.inBook && s.attempts == 0 && s.deferred == [] && !Live(s.orders)
            && |s.orders| == 1 && s.orders[0].Remaining() == 0.0
  {
    var take, poll := Submit(TAKE), Cycle([3.0], []);
    assert [take, poll][..1] == [take] && [take][..0] == [];
    var placed := Escaped(cfg, TEN, TAKE);
    assert Run(cfg, TEN, [take]) == placed && |placed.orders| == 1;
    var booked := Booked(placed, 0, 3.0, false);
    assert Polled(placed, [3.0], [], 0) == placed && Polled(placed, [3.0], [], 1) == booked;
    var late, waiting := [Late(0, 3.0)], booked.(deferred := []);
    assert booked.deferred == late && late[..0] == [];
    assert AppliedAll(waiting, []) == waiting && AppliedAll(waiting, late) == Applied(waiting, late[0]);
    assert Taken(cfg) == Drained(booked);
  }

  /** An example with an exit of the position completed before: a profit take of three of ten fills, and then
      every exit of the rest is rejected. The counter counts the rejections from zero, and the next order is a
      market order exactly once there were `marketAfter` of them. */
  lemma {:induction false} TakeThenStruggle(cfg: Config, n: nat)
    ensures Struggling(cfg, Taken(cfg), Rejections(n))
    ensures Run(cfg, Taken(cfg), Rejections(n)) == Taken(cfg).(attempts := n)
    ensures var after := Next(cfg, Taken(cfg).(attempts := n), Flee(Some(7.0)));
            && |after.orders| == 2 && after.orders[1].size == 7.0 && after.orders[1].attempt == n + 1
            && (after.orders[1].market <==> n >= cfg.marketAfter)
  {
    hide SlipCap, Taken;
    TakenExact(cfg);
    if n > 0 {
      TakeThenStruggle(cfg, n - 1);
      assert Rejections(n)[..n - 1] == Rejections(n - 1);
    }
  }

  lemma WidestSoFar(cfg: Config, m: nat)
    ensures cfg.widen >= 1.0 && cfg.maxSlip >= 0.0 ==> forall n: nat :: n <= m ==> SlipCap(cfg, n) <= SlipCap(cfg, m)
  {
    if cfg.widen >= 1.0 && cfg.maxSlip >= 0.0 {
      forall n: nat | n <= m
        ensures SlipCap(cfg, n) <= SlipCap(cfg, m)
      {
        CapNeverShrinks(cfg, n, m);
      }
    }
  }

  /** The order an accepted attempt places carries the counter it was sized at. */
  lemma PlacedOrder(cfg: Config, s: State, r: Request)
    requires Attempts(s, r) && r.accepted.Some?
    ensures var after := Next(cfg, s, Submit(r));
            |after.orders| > 0 && after.attempts > 0 &&
            var placed := after.orders[|after.orders| - 1];
            && placed.attempt == after.attempts && placed.slip == SlipCap(cfg, after.attempts - 1)
            && placed.open && placed.filled == 0.0 && placed.size == r.accepted.value
            && (placed.postOnly <==>
                  && after.attempts == 1 && cfg.marketAfter > 0 && r.twoSided
                  && ((r.profitTake && cfg.makerFirstProfit) || (r.patient && cfg.makerFirstTime)))
            && (placed.market <==> after.attempts - 1 >= cfg.marketAfter)
  {
    hide Wanted, SlipCap, Cancelled, Drained;
  }

  lemma {:induction false} CapNeverShrinks(cfg: Config, a: nat, b: nat)
    requires cfg.widen >= 1.0 && cfg.maxSlip >= 0.0 && a <= b
    ensures SlipCap(cfg, a) <= SlipCap(cfg, b)
    decreases b
  {
    if a < b {
      CapNeverShrinks(cfg, a, b - 1);
      PowAtLeastOne(cfg.widen, b - 1);
      TimesMonotone(Pow(cfg.widen, b - 1), 1.0, cfg.widen);
      TimesMonotone(cfg.maxSlip, Pow(cfg.widen, b - 1), Pow(cfg.widen, b));
    }
  }

  ghost predicate NeverShrinks(cfg: Config)
  {
    forall a: nat, b: nat :: a <= b ==> SlipCap(cfg, a) <= SlipCap(cfg, b)
  }

  /** With a slippage and an absolute cap above zero, the cap never shrinks from rung to rung exactly when the
      factor is at least one. */
  lemma CapClimbsExact(cfg: Config)
    requires cfg.maxSlip > 0.0 && cfg.slipCap > 0.0
    ensures NeverShrinks(cfg) <==> cfg.widen >= 1.0
  {
    if cfg.widen >= 1.0 {
      forall a: nat, b: nat | a <= b ensures SlipCap(cfg, a) <= SlipCap(cfg, b) { CapNeverShrinks(cfg, a, b); }
    } else {
      var n := Shrinking(cfg);
      assert SlipCap(cfg, n) > SlipCap(cfg, n + 1);
    }
  }

  /** Below one the rungs get under the absolute cap, and from there on they shrink. */
  lemma Shrinking(cfg: Config) returns (n: nat)
    requires cfg.maxSlip > 0.0 && cfg.slipCap > 0.0 && cfg.widen < 1.0
    ensures SlipCap(cfg, n + 1) < SlipCap(cfg, n)
  {
    hide Pow;
    if cfg.widen <= 0.0 {
      n := 0;
      FirstPowers(cfg.widen);
      TimesMonotone(cfg.maxSlip, cfg.widen, 0.0);
    } else {
      n := PowFallsBelow(cfg.widen, cfg.slipCap / cfg.maxSlip);
      var before := Pow(cfg.widen, n);
      PowPositive(cfg.widen, n);
      PowNext(cfg.widen, n);
      StrictTimes(cfg.maxSlip, before, cfg.slipCap / cfg.maxSlip);
      assert cfg.slipCap / cfg.maxSlip * cfg.maxSlip == cfg.slipCap;
      StrictTimes(before, cfg.widen, 1.0);
      StrictTimes(cfg.maxSlip, before * cfg.widen, before);
    }
  }

  lemma FirstPowers(x: real)
    ensures Pow(x, 0) == 1.0 && Pow(x, 1) == x
  {
  }

  lemma PowNext(x: real, n: nat)
    ensures Pow(x, n + 1) == Pow(x, n) * x
  {
  }

  lemma PowFallsBelow(x: real, bound: real) returns (n: nat)
    requires 0.0 < x < 1.0 && bound > 0.0
    ensures Pow(x, n) < bound
  {
    var y, large := 1.0 / x, 1.0 / bound;
    assert y * x == 1.0 && large * bound == 1.0;
    Reciprocal(x, 1.0);
    if y <= 1.0 { TimesMonotone(x, y, 1.0); }
    n := PowExceeds(y, large);
    PowTimes(y, x, n);
    PowOne(n);
    var up, down := Pow(y, n), Pow(x, n);
    assert up * down == 1.0;
    PowPositive(y, n);
    StrictTimes(bound, large, up);
    if down >= bound { TimesMonotone(up, bound, down); }
  }

  lemma {:induction false} PowOne(n: nat)
    ensures Pow(1.0, n) == 1.0
  {
    if n > 0 { PowOne(n - 1); }
  }

  /** The cap starts at the configured slippage and each rung multiplies it by the factor until the absolute cap
      is met. */
  lemma CapExact(cfg: Config, n: nat)
    ensures SlipCap(cfg, 0) == Min(cfg.maxSlip, cfg.slipCap)
    ensures SlipCap(cfg, n) < cfg.slipCap ==> SlipCap(cfg, n + 1) == Min(SlipCap(cfg, n) * cfg.widen, cfg.slipCap)
    ensures SlipCap(cfg, n) <= cfg.slipCap
  {
    var before := Pow(cfg.widen, n);
    assert Pow(cfg.widen, n + 1) == before * cfg.widen;
    assert cfg.maxSlip * (before * cfg.widen) == cfg.maxSlip * before * cfg.widen;
  }

  lemma {:induction false} PowAtLeastOne(x: real, n: nat)
    requires x >= 1.0
    ensures Pow(x, n) >= 1.0
  {
    if n > 0 {
      PowAtLeastOne(x, n - 1);
      TimesMonotone(x, 1.0, Pow(x, n - 1));
    }
  }
}
