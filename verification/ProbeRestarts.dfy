/** The probe budget over snapshots, clean stops and kills, main.py with core/persistence.py. A stop writes a last
    snapshot; a kill brings back whatever the last snapshot holds, so what was charged since is charged for
    nothing. */
module ProbeRestarts {
  import opened Prelude
  import opened ProbeBudget

  /** The running bot and the snapshot on disk. */
  datatype Process = Process(live: State, saved: Option<Saved>)

  /** A snapshot that fails to be written is no step; a stop whose last snapshot fails is a kill. */
  datatype Step =
    | Live(event: Event)
    | Save(at: real)
    | Kill(boot: real)

  const BOOT: Process := Process(FRESH, None)

  function Woken(cfg: Config, saved: Option<Saved>, boot: real): State
  {
    match saved
    case None => FRESH
    case Some(snapshot) => Resumed(cfg, snapshot, boot)
  }

  function Advance(cfg: Config, p: Process, step: Step): Process
    requires cfg.Valid() && p.live.tokens <= cfg.Capacity()
  {
    match step
    case Live(e) =>
      Process(ProbeBudget.Next(cfg, p.live, e), if e.Restart? then Some(Saving(p.live, e.at)) else p.saved)
    case Save(at) => p.(saved := Some(Saving(p.live, at)))
    case Kill(boot) => p.(live := Woken(cfg, p.saved, boot))
  }

  /** What a snapshot of a sound bot holds. */
  predicate SavedInv(cfg: Config, saved: Saved)
  {
    && saved.tokens <= cfg.Capacity() && -cfg.Capacity() <= saved.tokens
    && (cfg.Capacity() > 0.0 ==> -cfg.Capacity() < saved.tokens)
    && (forall i :: 0 <= i < |saved.orders| ==> InRange(cfg, saved.orders[i].tag))
  }

  predicate Sound(cfg: Config, p: Process)
  {
    Inv(cfg, p.live) && Low(cfg, p.live) && (p.saved.Some? ==> SavedInv(cfg, p.saved.value))
  }

  predicate Unsliced(step: Step) { step.Live? ==> !step.event.Child? }

  lemma BootIsSound(cfg: Config)
    requires cfg.Valid()
    ensures Sound(cfg, BOOT)
  {
    FreshIsSound(cfg);
  }

  lemma AdvanceKeeps(cfg: Config, p: Process, step: Step)
    requires cfg.Valid() && Sound(cfg, p) && Unsliced(step)
    ensures Sound(cfg, Advance(cfg, p, step))
  {
    hide ProbeBudget.Next, Config.Capacity;
    match step {
      case Live(e) =>
        NextKeeps(cfg, p.live, e);
        LowKeeps(cfg, p.live, e);
      case Save(at) =>
      case Kill(boot) =>
        if p.saved.None? { FreshIsSound(cfg); }
        CapacityIsNonNegative(cfg);
    }
  }

  predicate AllUnsliced(steps: seq<Step>) { forall i :: 0 <= i < |steps| ==> Unsliced(steps[i]) }

  function Run(cfg: Config, p: Process, steps: seq<Step>): (r: Process)
    requires cfg.Valid() && Sound(cfg, p) && AllUnsliced(steps)
    ensures Sound(cfg, r)
  {
    if |steps| == 0 then p
    else
      var before := Run(cfg, p, steps[..|steps| - 1]);
      assert Unsliced(steps[|steps| - 1]);
      AdvanceKeeps(cfg, before, steps[|steps| - 1]);
      Advance(cfg, before, steps[|steps| - 1])
  }

  // ---------------------------------------------------------------- what kills cost

  /** What a step charges less what it refunds. */
  function Spent(cfg: Config, p: Process, step: Step): real
  {
    if step.Live? then Charge(p.live, step.event) - Refund(cfg, p.live, step.event) else 0.0
  }

  function Net(cfg: Config, p: Process, steps: seq<Step>): real
    requires cfg.Valid() && Sound(cfg, p) && AllUnsliced(steps)
  {
    if |steps| == 0 then 0.0
    else
      var init := steps[..|steps| - 1];
      Net(cfg, p, init) + Spent(cfg, Run(cfg, p, init), steps[|steps| - 1])
  }

  predicate Saves(step: Step) { step.Save? || (step.Live? && step.event.Restart?) }

  /** The net charges since the snapshot on disk was written or brought back. */
  function Since(cfg: Config, p: Process, steps: seq<Step>): real
    requires cfg.Valid() && Sound(cfg, p) && AllUnsliced(steps)
  {
    if |steps| == 0 then 0.0
    else
      var init, step := steps[..|steps| - 1], steps[|steps| - 1];
      if Saves(step) || step.Kill? then 0.0 else Since(cfg, p, init) + Spent(cfg, Run(cfg, p, init), step)
  }

  /** The net charges the kills of a run forgot: at each, those made since the snapshot it brought back. */
  function Lost(cfg: Config, p: Process, steps: seq<Step>): real
    requires cfg.Valid() && Sound(cfg, p) && AllUnsliced(steps)
  {
    if |steps| == 0 then 0.0
    else
      var init := steps[..|steps| - 1];
      Lost(cfg, p, init) + if steps[|steps| - 1].Kill? then Since(cfg, p, init) else 0.0
  }

  /** The time of a step's refill, if it has one later than `at`. */
  function After(at: real, step: Step): real
  {
    if step.Live? && step.event.Decide? && step.event.ask.wanted then step.event.ask.now else at
  }

  function Latest(from: real, steps: seq<Step>): real
  {
    if |steps| == 0 then from else After(Latest(from, steps[..|steps| - 1]), steps[|steps| - 1])
  }

  predicate Ordered(from: real, steps: seq<Step>)
  {
    |steps| == 0 ||
    (Ordered(from, steps[..|steps| - 1]) && Latest(from, steps) >= Latest(from, steps[..|steps| - 1]))
  }

  function Balance(saved: Option<Saved>): real { if saved.None? then 0.0 else saved.value.tokens }

  /** One capacity and the refill pay for the balance and for the net charges not forgotten, of the bot as of its
      snapshot. */
  ghost predicate Covered(cfg: Config, p: Process, steps: seq<Step>, from: real)
    requires cfg.Valid() && Sound(cfg, p) && AllUnsliced(steps)
  {
    var r, kept := Run(cfg, p, steps), Net(cfg, p, steps) - Lost(cfg, p, steps);
    var paid := cfg.Capacity() + Times(cfg.Rate(), Latest(from, steps) - from);
    && r.live.tokens + kept <= paid
    && Balance(r.saved) + kept - Since(cfg, p, steps) <= paid
    && ClockAfter(r.live, Latest(from, steps))
  }

  lemma {:induction false} AlwaysCovered(cfg: Config, p: Process, steps: seq<Step>, from: real)
    requires cfg.Valid() && Sound(cfg, p) && AllUnsliced(steps) && ClockAfter(p.live, from) && Ordered(from, steps)
    ensures Covered(cfg, p, steps, from)
  {
    hide Advance, Spent, Sound, Config.Capacity, Config.Rate, Times, ClockAfter;
    if |steps| == 0 {
      StartIsCovered(cfg, p, from);
    } else {
      var init, step := steps[..|steps| - 1], steps[|steps| - 1];
      AlwaysCovered(cfg, p, init, from);
      assert Unsliced(step);
      var before, at := Run(cfg, p, init), Latest(from, init);
      AdvanceBalance(cfg, before, step, at);
      var later := After(at, step);
      TimesAdds(cfg.Rate(), at - from, later - at);
      assert Latest(from, steps) == later;
      assert Run(cfg, p, steps) == Advance(cfg, before, step);
    }
  }

  lemma StartIsCovered(cfg: Config, p: Process, from: real)
    requires cfg.Valid() && Sound(cfg, p) && ClockAfter(p.live, from)
    ensures Covered(cfg, p, [], from)
  {
    TimesZero(cfg.Rate());
    CapacityIsNonNegative(cfg);
  }

  /** What one step does to the two balances. */
  lemma AdvanceBalance(cfg: Config, p: Process, step: Step, at: real)
    requires cfg.Valid() && Sound(cfg, p) && Unsliced(step) && ClockAfter(p.live, at) && After(at, step) >= at
    ensures p.live.tokens <= cfg.Capacity()
    ensures var q, later := Advance(cfg, p, step), After(at, step);
            && ClockAfter(q.live, later) && Times(cfg.Rate(), later - at) >= 0.0
            && (!step.Kill? ==>
                  q.live.tokens <= p.live.tokens - Spent(cfg, p, step) + Times(cfg.Rate(), later - at))
            && (step.Kill? ==> q.live.tokens == Balance(p.saved) && Spent(cfg, p, step) == 0.0)
            && (if Saves(step) then Balance(q.saved) == p.live.tokens && Spent(cfg, p, step) == 0.0
                else q.saved == p.saved)
  {
    hide ProbeBudget.Next, Config.Rate, Config.Capacity, Times;
    CapacityIsNonNegative(cfg);
    TimesMonotone(cfg.Rate(), 0.0, After(at, step) - at);
    TimesZero(cfg.Rate());
    if step.Live? { TokensStep(cfg, p.live, step.event, at); }
  }

  /** Kills and the bucket. Over every run of the direct and the ladder path, with snapshots, stops and kills
      anywhere, from any sound process, the balance stays inside (-C, C], and the net charges are at most 2C
      plus the refill rate times the elapsed time, plus what was charged since the snapshots the kills brought
      back. */
  lemma KillsCostWhatTheyForget(cfg: Config, p: Process, steps: seq<Step>, from: real)
    requires cfg.Valid() && Sound(cfg, p) && AllUnsliced(steps) && ClockAfter(p.live, from) && Ordered(from, steps)
    ensures var r, c := Run(cfg, p, steps).live, cfg.Capacity();
            && r.tokens <= c && -c <= r.tokens && (c > 0.0 ==> -c < r.tokens)
            && Net(cfg, p, steps) <= 2.0 * c + Times(cfg.Rate(), Latest(from, steps) - from) + Lost(cfg, p, steps)
  {
    hide Config.Capacity, Config.Rate, Times, Run, Net, Lost, Since, Latest;
    AlwaysCovered(cfg, p, steps, from);
  }

  /** Every kill of the run comes when the net charges since its snapshot are at most zero. */
  predicate NothingForgotten(cfg: Config, p: Process, steps: seq<Step>)
    requires cfg.Valid() && Sound(cfg, p) && AllUnsliced(steps)
  {
    |steps| == 0 ||
    (NothingForgotten(cfg, p, steps[..|steps| - 1]) &&
     (steps[|steps| - 1].Kill? ==> Since(cfg, p, steps[..|steps| - 1]) <= 0.0))
  }

  lemma {:induction false} NothingForgottenIsNothingLost(cfg: Config, p: Process, steps: seq<Step>)
    requires cfg.Valid() && Sound(cfg, p) && AllUnsliced(steps) && NothingForgotten(cfg, p, steps)
    ensures Lost(cfg, p, steps) <= 0.0
  {
    if |steps| > 0 { NothingForgottenIsNothingLost(cfg, p, steps[..|steps| - 1]); }
  }

  /** So the bound of the bucket holds over every run without a kill, and over every run whose kills come with no
      net charge since the last snapshot. */
  lemma HarmlessKillsKeepTheBound(cfg: Config, p: Process, steps: seq<Step>, from: real)
    requires cfg.Valid() && Sound(cfg, p) && AllUnsliced(steps) && ClockAfter(p.live, from) && Ordered(from, steps)
    requires NothingForgotten(cfg, p, steps)
    ensures Net(cfg, p, steps) <= 2.0 * cfg.Capacity() + Times(cfg.Rate(), Latest(from, steps) - from)
  {
    KillsCostWhatTheyForget(cfg, p, steps, from);
    NothingForgottenIsNothingLost(cfg, p, steps);
  }

  // ---------------------------------------------------------------- which kills keep the bound

  /** One capacity and the refill pay for the balance and for all net charges: what the bound rests on. */
  ghost predicate Paid(cfg: Config, p: Process, steps: seq<Step>, from: real)
    requires cfg.Valid() && Sound(cfg, p) && AllUnsliced(steps)
  {
    Run(cfg, p, steps).live.tokens + Net(cfg, p, steps)
    <= cfg.Capacity() + Times(cfg.Rate(), Latest(from, steps) - from)
  }

  /** What was left of the capacity and the refill, up to now, when the snapshot on disk was taken. */
  ghost function Spare(cfg: Config, p: Process, steps: seq<Step>, from: real): real
    requires cfg.Valid() && Sound(cfg, p) && AllUnsliced(steps)
  {
    cfg.Capacity() + Times(cfg.Rate(), Latest(from, steps) - from)
    - (Balance(Run(cfg, p, steps).saved) + Net(cfg, p, steps) - Since(cfg, p, steps))
  }

  /** A kill leaves all charges paid for exactly when the net charges since the snapshot are at most what was spare
      then; before the first kill of a run that is never less than nothing. */
  lemma KillIsPaidExact(cfg: Config, p: Process, steps: seq<Step>, boot: real, from: real)
    requires cfg.Valid() && Sound(cfg, p) && AllUnsliced(steps) && ClockAfter(p.live, from) && Ordered(from, steps)
    ensures AllUnsliced(steps + [Kill(boot)])
    ensures Paid(cfg, p, steps + [Kill(boot)], from) <==> Since(cfg, p, steps) <= Spare(cfg, p, steps, from)
    ensures Lost(cfg, p, steps) <= 0.0 ==> Spare(cfg, p, steps, from) >= 0.0
  {
    hide Advance, Sound, Config.Capacity, Config.Rate, Times, ClockAfter, Since;
    var all := steps + [Kill(boot)];
    assert all[..|steps|] == steps;
    AlwaysCovered(cfg, p, steps, from);
    AdvanceBalance(cfg, Run(cfg, p, steps), Kill(boot), Latest(from, steps));
  }

  lemma RunLast(cfg: Config, p: Process, steps: seq<Step>, step: Step)
    requires cfg.Valid() && Sound(cfg, p) && AllUnsliced(steps) && Unsliced(step)
    ensures AllUnsliced(steps + [step])
    ensures var before := Run(cfg, p, steps);
            && before.live.tokens <= cfg.Capacity()
            && Run(cfg, p, steps + [step]) == Advance(cfg, before, step)
            && Net(cfg, p, steps + [step]) == Net(cfg, p, steps) + Spent(cfg, before, step)
  {
    assert (steps + [step])[..|steps|] == steps;
  }

  lemma RunNothing(cfg: Config, p: Process)
    requires cfg.Valid() && Sound(cfg, p)
    ensures Run(cfg, p, []) == p && Net(cfg, p, []) == 0.0
  {
  }

  lemma {:induction false} RunThen(cfg: Config, p: Process, a: seq<Step>, b: seq<Step>)
    requires cfg.Valid() && Sound(cfg, p) && AllUnsliced(a) && AllUnsliced(b)
    ensures AllUnsliced(a + b)
    ensures Run(cfg, p, a + b) == Run(cfg, Run(cfg, p, a), b)
    ensures Net(cfg, p, a + b) == Net(cfg, p, a) + Net(cfg, Run(cfg, p, a), b)
    decreases |b|
  {
    hide Advance, Spent, Sound, Run, Net;
    if |b| == 0 {
      assert a + b == a;
      RunNothing(cfg, Run(cfg, p, a));
    } else {
      var m := |b| - 1;
      assert Unsliced(b[m]);
      RunThen(cfg, p, a, b[..m]);
      RunLast(cfg, p, a + b[..m], b[m]);
      RunLast(cfg, Run(cfg, p, a), b[..m], b[m]);
      assert a + b[..m] + [b[m]] == a + b && b[..m] + [b[m]] == b;
    }
  }

  /** One decision, with the luckiest draw. */
  function Lucky(now: real): Ask { Ask(now, 0.0, 0, 1.0, 1.0, 0.0, true) }

  function Cost(cfg: Config): real
    requires cfg.Valid()
  {
    Price(cfg, 1.0, 1.0)
  }

  /** A fresh bot, a day of refill, and an admission that is saved before it is placed. */
  function Warm(): seq<Step> { [Live(Decide(Lucky(0.0))), Live(Decide(Lucky(DAY))), Save(DAY)] }

  /** Place it, die, come back, and be admitted again. */
  function Round(): seq<Step> { [Live(Direct(true, DAY)), Kill(DAY), Live(Decide(Lucky(DAY)))] }

  function Rounds(n: nat): seq<Step> { if n == 0 then [] else Rounds(n - 1) + Round() }

  /** A bot with tokens, nothing placed, and a probe admitted whose price is to be charged. */
  predicate Admitted(cfg: Config, s: State)
    requires cfg.Valid()
  {
    && s.current == Some(Decision(0, true)) && s.pendingAsset == Some(0) && s.stash == map[0 := Cost(cfg)]
    && 0.0 < s.tokens <= cfg.Capacity() && s.orders == [] && s.losses == [] && s.parents == [] && s.lastFloor.None?
  }

  lemma DecidesLuckily(cfg: Config, s: State, now: real)
    requires cfg.Valid() && 0.0 < s.tokens <= cfg.Capacity()
    requires s.clock.None? && s.stash == map[] && s.pendingAsset.None?
    ensures Decided(cfg, s, Lucky(now)) ==
            s.(clock := Some(now), stash := map[0 := Cost(cfg)], pendingAsset := Some(0),
               current := Some(Decision(0, true)))
  {
    hide Price, Config.Capacity;
    PriceBounds(cfg, 1.0, 1.0);
    assert s.stash - {0} == map[];
    PositiveQuotient(s.tokens, Cost(cfg));
  }

  lemma WarmAdmits(cfg: Config)
    requires cfg.Valid() && cfg.Capacity() > 0.0 && Sound(cfg, BOOT)
    ensures AllUnsliced(Warm())
    ensures var p := Run(cfg, BOOT, Warm());
            Admitted(cfg, p.live) && p.saved == Some(Saving(p.live, DAY)) && Net(cfg, BOOT, Warm()) == 0.0
  {
    hide Price, Config.Capacity, Sound, Run, Net, Decided, Admitted;
    var steps := Warm();
    var first := FRESH.(clock := Some(0.0), current := Some(Decision(0, false)));
    RunNothing(cfg, BOOT);
    RunLast(cfg, BOOT, [], steps[0]);
    RunLast(cfg, BOOT, [steps[0]], steps[1]);
    RunLast(cfg, BOOT, [steps[0], steps[1]], steps[2]);
    assert [] + [steps[0]] == [steps[0]] && [steps[0]] + [steps[1]] == [steps[0], steps[1]];
    assert [steps[0], steps[1]] + [steps[2]] == steps;
    FirstDecision(cfg);
    BudgetAdmits(cfg, first, Lucky(DAY));
    assert Admitted(cfg, Decided(cfg, first, Lucky(DAY))) by { AdmittedThen(cfg, Decided(cfg, first, Lucky(DAY))); }
  }

  lemma AdmittedThen(cfg: Config, s: State)
    requires cfg.Valid() && s.current == Some(Decision(0, true)) && s.pendingAsset == Some(0)
    requires s.stash == map[0 := Cost(cfg)] && 0.0 < s.tokens <= cfg.Capacity()
    requires s.orders == [] && s.losses == [] && s.parents == [] && s.lastFloor.None?
    ensures Admitted(cfg, s)
  {
  }

  /** Ready for a round: a probe is admitted but not placed, and so is the balance in the snapshot. */
  predicate Ripe(cfg: Config, p: Process)
    requires cfg.Valid()
  {
    && Admitted(cfg, p.live) && p.saved.Some?
    && var v := p.saved.value; 0.0 < v.tokens <= cfg.Capacity() && v.orders == [] && v.losses == [] && v.lastFloor.None?
  }

  /** A round charges the price, and the bot is as ready as before. */
  lemma RoundReturns(cfg: Config, p: Process)
    requires cfg.Valid() && Sound(cfg, p) && Ripe(cfg, p)
    ensures AllUnsliced(Round()) && Ripe(cfg, Run(cfg, p, Round())) && Net(cfg, p, Round()) == Cost(cfg)
  {
    hide Price, Config.Capacity, Sound, Run, Net, Decided, Admitted;
    var steps := Round();
    RunNothing(cfg, p);
    RunLast(cfg, p, [], steps[0]);
    RunLast(cfg, p, [steps[0]], steps[1]);
    RunLast(cfg, p, [steps[0], steps[1]], steps[2]);
    assert [] + [steps[0]] == [steps[0]] && [steps[0]] + [steps[1]] == [steps[0], steps[1]];
    assert [steps[0], steps[1]] + [steps[2]] == steps;
    PlacedFor(cfg, p.live);
    var back := Resumed(cfg, p.saved.value, DAY);
    CapacityIsNonNegative(cfg);
    DecidesLuckily(cfg, back, DAY);
    AdmittedThen(cfg, Decided(cfg, back, Lucky(DAY)));
  }

  lemma PlacedFor(cfg: Config, s: State)
    requires cfg.Valid() && Admitted(cfg, s)
    ensures Charge(s, Direct(true, DAY)) == Cost(cfg) && Refund(cfg, s, Direct(true, DAY)) == 0.0
  {
  }

  lemma {:induction false} RoundsCharge(cfg: Config, p: Process, n: nat)
    requires cfg.Valid() && Sound(cfg, p) && Ripe(cfg, p)
    ensures AllUnsliced(Rounds(n)) && Ripe(cfg, Run(cfg, p, Rounds(n)))
    ensures Net(cfg, p, Rounds(n)) == Times(n as real, Cost(cfg))
  {
    hide Sound, Ripe, Price, Cost, Run, Net, Round;
    if n == 0 {
      RunNothing(cfg, p);
    } else {
      RoundsCharge(cfg, p, n - 1);
      var q := Run(cfg, p, Rounds(n - 1));
      RoundReturns(cfg, q);
      RunThen(cfg, p, Rounds(n - 1), Round());
    }
  }

  lemma OrderedLast(from: real, steps: seq<Step>, step: Step)
    ensures Latest(from, steps + [step]) == After(Latest(from, steps), step)
    ensures Ordered(from, steps + [step]) <==>
            Ordered(from, steps) && After(Latest(from, steps), step) >= Latest(from, steps)
  {
    assert (steps + [step])[..|steps|] == steps;
  }

  /** The rounds take no time. */
  lemma {:induction false} RoundsTakeNoTime(n: nat)
    ensures Latest(0.0, Warm() + Rounds(n)) == DAY && Ordered(0.0, Warm() + Rounds(n))
  {
    hide Latest, Ordered;
    if n == 0 {
      var steps := Warm();
      assert [] + [steps[0]] == [steps[0]] && [steps[0]] + [steps[1]] == [steps[0], steps[1]];
      assert [steps[0], steps[1]] + [steps[2]] == steps && steps + Rounds(0) == steps;
      NoSteps();
      OrderedLast(0.0, [], steps[0]);
      OrderedLast(0.0, [steps[0]], steps[1]);
      OrderedLast(0.0, [steps[0], steps[1]], steps[2]);
    } else {
      RoundsTakeNoTime(n - 1);
      var before, steps := Warm() + Rounds(n - 1), Round();
      OrderedLast(0.0, before, steps[0]);
      OrderedLast(0.0, before + [steps[0]], steps[1]);
      OrderedLast(0.0, before + [steps[0]] + [steps[1]], steps[2]);
      assert before + [steps[0]] + [steps[1]] + [steps[2]] == Warm() + Rounds(n);
    }
  }

  lemma NoSteps()
    ensures Latest(0.0, []) == 0.0 && Ordered(0.0, [])
  {
  }

  /** The run a few kills need. With any capacity at all, a fresh bot that is killed after each placement and admitted
      again goes beyond every bound while no time passes. */
  lemma KillsBreakTheBound(cfg: Config, bound: real) returns (steps: seq<Step>)
    requires cfg.Valid() && cfg.Capacity() > 0.0 && Sound(cfg, BOOT)
    ensures AllUnsliced(steps) && Ordered(0.0, steps) && Latest(0.0, steps) == DAY
    ensures Net(cfg, BOOT, steps) > bound
  {
    hide Sound, Price, Cost, Config.Capacity, Net, Run, Admitted;
    WarmAdmits(cfg);
    var p := Run(cfg, BOOT, Warm());
    assert Ripe(cfg, p) by { AdmittedHas(cfg, p.live); }
    PriceBounds(cfg, 1.0, 1.0);
    var price := Cost(cfg);
    assert price > 0.0 by { CostIs(cfg); }
    var n := RealCeiling(bound / price);
    RoundsCharge(cfg, p, n + 1);
    RunThen(cfg, BOOT, Warm(), Rounds(n + 1));
    RoundsTakeNoTime(n + 1);
    QuotientBound(bound, price, n as real);
    steps := Warm() + Rounds(n + 1);
    assert ((n + 1) as real) * price == (n as real) * price + price;
  }

  lemma AdmittedHas(cfg: Config, s: State)
    requires cfg.Valid() && Admitted(cfg, s)
    ensures 0.0 < s.tokens <= cfg.Capacity() && s.orders == [] && s.losses == [] && s.lastFloor.None?
  {
  }

  lemma CostIs(cfg: Config)
    requires cfg.Valid()
    ensures Cost(cfg) == Price(cfg, 1.0, 1.0)
  {
  }

  /** The bound of the bucket, over all runs with kills of the direct and the ladder path from a fresh bot. */
  ghost predicate Bounded(cfg: Config)
    requires cfg.Valid()
  {
    BootIsSound(cfg);
    forall steps, from :: AllUnsliced(steps) && Ordered(from, steps) ==>
      Net(cfg, BOOT, steps) <= 2.0 * cfg.Capacity() + Times(cfg.Rate(), Latest(from, steps) - from)
  }

  /** It survives kills exactly when the bucket has no capacity, and so never pays for a probe. */
  lemma BoundedExact(cfg: Config)
    requires cfg.Valid()
    ensures Bounded(cfg) <==> cfg.Capacity() == 0.0
  {
    hide Sound, Net, Run, Config.Rate, Config.Capacity, Times;
    BootIsSound(cfg);
    CapacityIsNonNegative(cfg);
    if cfg.Capacity() > 0.0 {
      var bound := 2.0 * cfg.Capacity() + Times(cfg.Rate(), DAY - 0.0);
      var steps := KillsBreakTheBound(cfg, bound);
    } else {
      forall steps, from | AllUnsliced(steps) && Ordered(from, steps)
        ensures Net(cfg, BOOT, steps) <= 2.0 * cfg.Capacity() + Times(cfg.Rate(), Latest(from, steps) - from)
      {
        NoCapacityNoCharge(cfg, BOOT, steps);
        TimeAdvances(from, steps);
        TimesMonotone(cfg.Rate(), 0.0, Latest(from, steps) - from);
      }
    }
  }

  lemma {:induction false} TimeAdvances(from: real, steps: seq<Step>)
    requires Ordered(from, steps)
    ensures Latest(from, steps) >= from
  {
    if |steps| > 0 { TimeAdvances(from, steps[..|steps| - 1]); }
  }

  lemma {:induction false} NoCapacityNoCharge(cfg: Config, p: Process, steps: seq<Step>)
    requires cfg.Valid() && Sound(cfg, p) && AllUnsliced(steps) && cfg.Capacity() == 0.0
    ensures Net(cfg, p, steps) <= 0.0
  {
    hide Sound, Spent, Config.Capacity;
    if |steps| > 0 {
      var init := steps[..|steps| - 1];
      NoCapacityNoCharge(cfg, p, init);
      assert Unsliced(steps[|steps| - 1]);
      StepsWithinCapacity(cfg, Run(cfg, p, init), steps[|steps| - 1]);
    }
  }

  lemma StepsWithinCapacity(cfg: Config, p: Process, step: Step)
    requires cfg.Valid() && Sound(cfg, p) && Unsliced(step)
    ensures Spent(cfg, p, step) <= cfg.Capacity()
  {
    CapacityIsNonNegative(cfg);
    PendingInRange(cfg, p.live);
    if step.Live? && step.event.FillOf? {
      FillTokens(cfg, p.live, step.event.order, step.event.size, step.event.final);
    }
  }

  /** The first decision finds an empty bucket and starts its clock. */
  lemma FirstDecision(cfg: Config)
    requires cfg.Valid() && 0.0 <= cfg.Capacity()
    ensures Decided(cfg, FRESH, Lucky(0.0)) == FRESH.(clock := Some(0.0), current := Some(Decision(0, false)))
  {
    hide Price, Config.Capacity;
    assert FRESH.stash - {0} == FRESH.stash;
  }

  // ---------------------------------------------------------------- a kill is a rewind

  /** The events that survive in the bot, and how much of them the snapshot on disk has seen, with its time. */
  datatype History = History(events: seq<Event>, mark: Option<(seq<Event>, real)>)

  function Remembered(h: History, step: Step): History
  {
    match step
    case Live(e) => History(h.events + [e], if e.Restart? then Some((h.events, e.at)) else h.mark)
    case Save(at) => h.(mark := Some((h.events, at)))
    case Kill(boot) =>
      match h.mark
      case None => History([], None)
      case Some((events, at)) => h.(events := events + [ProbeBudget.Restart(at, boot)])
  }

  function HistoryOf(steps: seq<Step>): History
  {
    if |steps| == 0 then History([], None) else Remembered(HistoryOf(steps[..|steps| - 1]), steps[|steps| - 1])
  }

  /** The live bot is the bot of the surviving events, and the snapshot is the one they had when it was taken. */
  ghost predicate Remembers(cfg: Config, p: Process, h: History)
    requires cfg.Valid() && Inv(cfg, FRESH)
  {
    && p.live == ProbeBudget.Run(cfg, FRESH, h.events)
    && p.saved == match h.mark
                  case None => None
                  case Some((events, at)) => Some(Saving(ProbeBudget.Run(cfg, FRESH, events), at))
  }

  lemma RememberedStep(cfg: Config, p: Process, h: History, step: Step)
    requires cfg.Valid() && Inv(cfg, FRESH) && Remembers(cfg, p, h)
    ensures p.live.tokens <= cfg.Capacity() && Remembers(cfg, Advance(cfg, p, step), Remembered(h, step))
  {
    hide ProbeBudget.Next, Resumed, Saving, Config.Capacity;
    match step {
      case Live(e) =>
        assert (h.events + [e])[..|h.events|] == h.events;
      case Save(at) =>
      case Kill(boot) =>
        if h.mark.Some? {
          var (events, at) := h.mark.value;
          var stop := ProbeBudget.Restart(at, boot);
          assert (events + [stop])[..|events|] == events;
          StopIs(cfg, ProbeBudget.Run(cfg, FRESH, events), at, boot);
        }
    }
  }

  lemma StopIs(cfg: Config, s: State, at: real, boot: real)
    requires cfg.Valid() && s.tokens <= cfg.Capacity()
    ensures ProbeBudget.Next(cfg, s, ProbeBudget.Restart(at, boot)) == Resumed(cfg, Saving(s, at), boot)
  {
  }

  /** A kill is a rewind to the last snapshot followed by a clean start: after any run the bot is, in everything it
      holds, the bot of the events that survive. So whatever holds of runs without kills holds of those. */
  lemma {:induction false} KillsRewind(cfg: Config, steps: seq<Step>)
    requires cfg.Valid() && AllUnsliced(steps)
    ensures Inv(cfg, FRESH) && Sound(cfg, BOOT)
    ensures Remembers(cfg, Run(cfg, BOOT, steps), HistoryOf(steps))
  {
    hide Advance, Remembered, Sound, Inv;
    BootIsSound(cfg);
    FreshIsSound(cfg);
    if |steps| == 0 {
      NothingYet(cfg);
    } else {
      KillsRewind(cfg, steps[..|steps| - 1]);
      RememberedStep(cfg, Run(cfg, BOOT, steps[..|steps| - 1]), HistoryOf(steps[..|steps| - 1]), steps[|steps| - 1]);
    }
  }

  lemma NothingYet(cfg: Config)
    requires cfg.Valid() && Inv(cfg, FRESH)
    ensures Remembers(cfg, BOOT, History([], None))
  {
  }

  /** For one: what the surviving events refunded, with what may still be refunded, is within what they charged. */
  lemma SurvivingRefundsWithinCharges(cfg: Config, steps: seq<Step>)
    requires cfg.Valid() && AllUnsliced(steps)
    ensures Inv(cfg, FRESH) && Sound(cfg, BOOT)
    ensures var events := HistoryOf(steps).events;
            Refunded(cfg, FRESH, events) + Outstanding(Run(cfg, BOOT, steps).live.orders) <= Charged(cfg, FRESH, events)
  {
    hide Inv, Sound, Run, HistoryOf, Charged, Refunded;
    KillsRewind(cfg, steps);
    RefundsWithinCharges(cfg, FRESH, HistoryOf(steps).events);
  }

  // ---------------------------------------------------------------- refunds brought back

  /** The order is open, a probe, and carries a price nothing has filled. */
  predicate Waiting(orders: seq<Order>, i: nat)
  {
    i < |orders| && orders[i].open && Refundable(orders[i])
  }

  /** The event refunds the order. */
  predicate GivesBack(cfg: Config, s: State, e: Event, i: nat)
  {
    cfg.refunds && Waiting(s.orders, i) && e.FillOf? && e.order == i && e.final && e.size <= 0.0
  }

  /** The order is on the books of the bot and of its snapshot, and waits in neither. */
  predicate Over(p: Process, i: nat)
  {
    && i < |p.live.orders| && !Waiting(p.live.orders, i)
    && p.saved.Some? && i < |p.saved.value.orders| && !Waiting(p.saved.value.orders, i)
  }

  lemma NeverWaitsAgain(cfg: Config, s: State, e: Event, i: nat)
    requires cfg.Valid() && Inv(cfg, s) && i < |s.orders| && !Waiting(s.orders, i)
    ensures i < |ProbeBudget.Next(cfg, s, e).orders| && !Waiting(ProbeBudget.Next(cfg, s, e).orders, i)
  {
    hide Decided, FillSeen;
    match e {
      case Decide(ask) => DecideFrame(cfg, s, ask);
      case FillOf(k, size, final) => FillNeverReopens(cfg, s, k, size, final, i);
      case _ =>
    }
  }

  lemma FillNeverReopens(cfg: Config, s: State, k: int, size: real, final: bool, i: nat)
    requires i < |s.orders|
    ensures var t := FillSeen(cfg, s, k, size, final);
            |t.orders| == |s.orders| && (Waiting(t.orders, i) ==> Waiting(s.orders, i))
  {
  }

  lemma {:induction false} OverForGood(cfg: Config, p: Process, steps: seq<Step>, i: nat)
    requires cfg.Valid() && Sound(cfg, p) && AllUnsliced(steps) && Over(p, i)
    ensures Over(Run(cfg, p, steps), i)
  {
    hide Sound, ProbeBudget.Next, Waiting;
    if |steps| > 0 {
      var init, step := steps[..|steps| - 1], steps[|steps| - 1];
      OverForGood(cfg, p, init, i);
      if step.Live? {
        assert Inv(cfg, Run(cfg, p, init).live) by { SoundHasInv(cfg, Run(cfg, p, init)); }
        NeverWaitsAgain(cfg, Run(cfg, p, init).live, step.event, i);
      }
    }
  }

  lemma SoundHasInv(cfg: Config, p: Process)
    requires Sound(cfg, p)
    ensures Inv(cfg, p.live)
  {
  }

  ghost predicate CanBeRefunded(cfg: Config, p: Process, i: nat)
    requires cfg.Valid() && Sound(cfg, p)
  {
    exists steps, e :: AllUnsliced(steps) && GivesBack(cfg, Run(cfg, p, steps).live, e, i)
  }

  /** An order in the snapshot can still be refunded in some later run exactly when it waits in the bot or in the
      snapshot: spent or refunded since, a kill makes it refundable again; spent in both, it is never refunded. */
  lemma RefundableExact(cfg: Config, p: Process, i: nat)
    requires cfg.Valid() && Sound(cfg, p) && p.saved.Some? && i < |p.saved.value.orders| && i < |p.live.orders|
    ensures CanBeRefunded(cfg, p, i) <==> cfg.refunds && (Waiting(p.live.orders, i) || Waiting(p.saved.value.orders, i))
  {
    hide Sound, Waiting, Run;
    var cancel := FillOf(i, 0.0, true);
    RunNothing(cfg, p);
    RunLast(cfg, p, [], Kill(0.0));
    assert [] + [Kill(0.0)] == [Kill(0.0)];
    if cfg.refunds && Waiting(p.live.orders, i) {
      assert GivesBack(cfg, Run(cfg, p, []).live, cancel, i);
    } else if cfg.refunds && Waiting(p.saved.value.orders, i) {
      assert GivesBack(cfg, Run(cfg, p, [Kill(0.0)]).live, cancel, i);
    } else if CanBeRefunded(cfg, p, i) {
      var steps, e :| AllUnsliced(steps) && GivesBack(cfg, Run(cfg, p, steps).live, e, i);
      OverForGood(cfg, p, steps, i);
    }
  }

  /** From a fresh bot: place the probe, save, cancel it, die, and cancel it again. One charge, two refunds. */
  function Twice(): seq<Step>
  {
    [Live(Direct(true, DAY)), Save(DAY), Live(FillOf(0, 0.0, true)), Kill(DAY), Live(FillOf(0, 0.0, true))]
  }

  /** So over runs with kills refunds can exceed charges. */
  lemma RefundedTwice(cfg: Config)
    requires cfg.Valid() && cfg.Capacity() > 0.0 && cfg.refunds && Sound(cfg, BOOT)
    ensures AllUnsliced(Warm() + Twice()) && Net(cfg, BOOT, Warm() + Twice()) == -Cost(cfg) < 0.0
  {
    hide Price, Cost, Config.Capacity, Sound, Run, Net, Admitted;
    WarmAdmits(cfg);
    var p, steps := Run(cfg, BOOT, Warm()), Twice();
    RunNothing(cfg, p);
    RunLast(cfg, p, [], steps[0]);
    RunLast(cfg, p, steps[..1], steps[1]);
    RunLast(cfg, p, steps[..2], steps[2]);
    RunLast(cfg, p, steps[..3], steps[3]);
    RunLast(cfg, p, steps[..4], steps[4]);
    assert [] + [steps[0]] == steps[..1] && steps[..1] + [steps[1]] == steps[..2];
    assert steps[..2] + [steps[2]] == steps[..3] && steps[..3] + [steps[3]] == steps[..4];
    assert steps[..4] + [steps[4]] == steps;
    PlacedFor(cfg, p.live);
    PlacedWaits(cfg, p.live);
    var placed := PlacedDirect(p.live, true, DAY);
    CancelRefunds(cfg, placed);
    CancelRefunds(cfg, Resumed(cfg, Saving(placed, DAY), DAY));
    PriceBounds(cfg, 1.0, 1.0);
    CostIs(cfg);
    RunThen(cfg, BOOT, Warm(), steps);
  }

  lemma PlacedWaits(cfg: Config, s: State)
    requires cfg.Valid() && Admitted(cfg, s)
    ensures PlacedDirect(s, true, DAY).orders == [Order(true, Some(Cost(cfg)), None, false, true)]
  {
  }

  lemma CancelRefunds(cfg: Config, s: State)
    requires cfg.Valid() && cfg.refunds && s.orders == [Order(true, Some(Cost(cfg)), None, false, true)]
    ensures Charge(s, FillOf(0, 0.0, true)) == 0.0 && Refund(cfg, s, FillOf(0, 0.0, true)) == Cost(cfg)
  {
  }
}
