/** The runner's cycle-wedge guard, runner.py, together with the fault authority it drives: which cycle
    outcomes refuse new risk, and what lets it resume. */
module WedgeGuard {
  import opened FaultAuthority

  datatype Guard = Guard(failStreak: nat, alerted: bool, latched: bool, recoverStreak: nat)

  const QUIET: Guard := Guard(0, false, false, 0)

  /** The fault authority, the guard, and the fault table in the snapshot on disk, empty before the first one. */
  datatype Machine = Machine(fault: Authority, guard: Guard, saved: seq<Record>)

  /** The streak that trips the guard; a configured value below one acts as one. */
  function Trip(halt: int): (k: nat) ensures k >= 1 { if halt >= 1 then halt else 1 }

  datatype Event =
    | CycleOk
    | Paused
    | CycleFailed(detail: string, now: real)
    | OperatorClear(key: string)
    | OtherLatch(key: string, severity: Severity, why: string, at: real)
    | Save
    | Stop(boot: real)
    | Kill(boot: real)

  const BOOT: Machine := Machine(BOOTED, QUIET, [])

  function AfterOk(m: Machine, recovered: bool, halt: int): Machine
  {
    var g := m.guard.(failStreak := 0, alerted := false);
    if !recovered || !g.latched then m.(guard := g)
    else if g.recoverStreak + 1 >= halt then
      m.(fault := Cleared(m.fault, WEDGED), guard := g.(latched := false, recoverStreak := 0))
    else m.(guard := g.(recoverStreak := g.recoverStreak + 1))
  }

  function AfterFailure(m: Machine, detail: string, now: real, halt: int): Machine
  {
    var g := m.guard.(failStreak := m.guard.failStreak + 1, recoverStreak := 0);
    if g.failStreak >= halt && !g.alerted then
      m.(fault := Latched(m.fault, WEDGED, CRITICAL, detail, now), guard := g.(alerted := true, latched := true))
    else m.(guard := g)
  }

  function AfterClear(m: Machine, key: string): Machine
  {
    if key == "" then m
    else m.(fault := Cleared(m.fault, key),
            guard := if key == WEDGED then m.guard.(latched := false, recoverStreak := 0) else m.guard)
  }

  /** A new process over the table a snapshot holds. */
  function Booted(saved: seq<Record>, boot: real): Machine
  {
    Machine(Restored(BOOTED, Saving(saved), boot), QUIET, saved)
  }

  /** A clean stop saves before it ends; a kill, or a stop whose snapshot fails, leaves the last one. */
  function Next(m: Machine, e: Event, halt: int): Machine
  {
    match e
    case CycleOk => AfterOk(m, true, halt)
    case Paused => AfterOk(m, false, halt)
    case CycleFailed(detail, now) => AfterFailure(m, detail, now, halt)
    case OperatorClear(key) => AfterClear(m, key)
    case OtherLatch(key, severity, why, at) => m.(fault := Latched(m.fault, key, severity, why, at))
    case Save => m.(saved := m.fault.faults)
    case Stop(boot) => Booted(m.fault.faults, boot)
    case Kill(boot) => Booted(m.saved, boot)
  }

  function Run(m: Machine, events: seq<Event>, halt: int): Machine
  {
    if |events| == 0 then m
    else Next(Run(m, events[..|events| - 1], halt), events[|events| - 1], halt)
  }

  // ---------------------------------------------------------------- the class

  class BotRunner {
    const halt: int
    const fault: FaultManager
    var failStreak: nat
    var alerted: bool
    var latched: bool
    var recoverStreak: nat
    var saved: seq<Record>

    ghost function Now(): Machine
      reads this, fault
    {
      Machine(fault.Now(), Guard(failStreak, alerted, latched, recoverStreak), saved)
    }

    constructor (cycleFailHalt: int, authority: FaultManager, onDisk: seq<Record>)
      ensures halt == cycleFailHalt && fault == authority
      ensures Now() == Machine(authority.Now(), QUIET, onDisk)
    {
      halt, fault, saved := cycleFailHalt, authority, onDisk;
      failStreak, alerted, latched, recoverStreak := 0, false, false, 0;
    }

    method Snapshot()
      modifies this`saved
      ensures Now() == Next(old(Now()), Save, halt)
    {
      saved := fault.faults;
    }

    method NoteCycleOk(recovered: bool)
      modifies this, fault
      ensures Now() == AfterOk(old(Now()), recovered, halt)
    {
      failStreak := 0;
      alerted := false;
      if !recovered { return; }
      if latched {
        recoverStreak := recoverStreak + 1;
        if recoverStreak >= halt {
          latched := false;
          recoverStreak := 0;
          var found := fault.ClearFault(WEDGED);
        }
      }
    }

    method NoteCycleFailure(detail: string, now: real) returns (streak: nat)
      modifies this, fault
      ensures Now() == AfterFailure(old(Now()), detail, now, halt) && streak == old(failStreak) + 1
    {
      failStreak := failStreak + 1;
      recoverStreak := 0;
      if failStreak >= halt && !alerted {
        alerted := true;
        latched := true;
        fault.Latch(WEDGED, CRITICAL, detail, now);
      }
      return failStreak;
    }

    method ClearFaultCommand(key: string)
      modifies this, fault
      ensures Now() == AfterClear(old(Now()), key)
    {
      if key == "" { return; }
      var found := fault.ClearFault(key);
      if key == WEDGED {
        latched := false;
        recoverStreak := 0;
      }
    }
  }

  // ---------------------------------------------------------------- every run

  /** A table with the state it demands. */
  function Table(faults: seq<Record>): Authority { Authority(faults, StateOver(faults)) }

  predicate MachineInv(m: Machine, halt: int)
  {
    && Inv(m.fault) && Inv(Table(m.saved))
    && (m.guard.alerted ==> m.guard.failStreak >= Trip(halt))
    && (m.guard.latched ==> m.guard.recoverStreak < Trip(halt))
    && (!m.guard.latched ==> m.guard.recoverStreak == 0)
  }

  lemma NextKeeps(m: Machine, e: Event, halt: int)
    requires MachineInv(m, halt)
    ensures MachineInv(Next(m, e, halt), halt)
  {
    hide Inv, Latched, Cleared, Restored, Saving;
    match e {
      case CycleOk => ClearKeeps(m.fault, WEDGED);
      case Paused =>
      case CycleFailed(detail, now) => LatchKeeps(m.fault, WEDGED, CRITICAL, detail, now);
      case OperatorClear(key) => ClearKeeps(m.fault, key);
      case OtherLatch(key, severity, why, at) => LatchKeeps(m.fault, key, severity, why, at);
      case Save => TableKeeps(m.fault);
      case Stop(boot) =>
        TableKeeps(m.fault);
        BootedInv();
        RestoreKeeps(BOOTED, Saving(m.fault.faults), boot);
      case Kill(boot) =>
        BootedInv();
        RestoreKeeps(BOOTED, Saving(m.saved), boot);
    }
  }

  lemma TableKeeps(a: Authority)
    requires Inv(a)
    ensures Inv(Table(a.faults))
  {
    hide DistinctKeys, Bounded;
    assert HasCritical(a.faults) ==> !OnlyWarnings(a.faults);
  }

  lemma BootedInv()
    ensures Inv(BOOTED)
  {
  }

  /** In every reachable state the operational state is the one the table demands, and the guard's counters
      agree with its flags. */
  lemma {:induction false} RunKeeps(m: Machine, events: seq<Event>, halt: int)
    requires MachineInv(m, halt)
    ensures MachineInv(Run(m, events, halt), halt)
  {
    if |events| > 0 {
      RunKeeps(m, events[..|events| - 1], halt);
      NextKeeps(Run(m, events[..|events| - 1], halt), events[|events| - 1], halt);
    }
  }

  // ---------------------------------------------------------------- refusing risk

  predicate Failing(e: Event) { e.CycleFailed? || e.OtherLatch? }

  function Failures(events: seq<Event>): nat
  {
    if |events| == 0 then 0
    else Failures(events[..|events| - 1]) + if events[|events| - 1].CycleFailed? then 1 else 0
  }

  /** A streak of failures as long as the trip refuses new risk, whatever else is latched meanwhile, a full
      table included. */
  lemma {:induction false} FailuresRefuseRisk(m: Machine, events: seq<Event>, halt: int)
    requires MachineInv(m, halt) && m.guard.failStreak == 0
    requires forall i :: 0 <= i < |events| ==> Failing(events[i])
    ensures var after := Run(m, events, halt);
            && MachineInv(after, halt) && after.guard.failStreak == Failures(events)
            && (Failures(events) >= Trip(halt) ==> after.fault.state == HALTED && after.guard.latched)
  {
    hide Inv, Latched;
    if |events| > 0 {
      var init, e := events[..|events| - 1], events[|events| - 1];
      assert Failing(e);
      FailuresRefuseRisk(m, init, halt);
      var before := Run(m, init, halt);
      NextKeeps(before, e, halt);
      if e.CycleFailed? {
        LatchKeeps(before.fault, WEDGED, CRITICAL, e.detail, e.now);
      } else {
        LatchHolds(before.fault, e.key, e.severity, e.why, e.at);
      }
    }
  }

  /** A latch never leaves the halted state. */
  lemma LatchHolds(a: Authority, key: string, severity: Severity, detail: string, now: real)
    ensures a.state == HALTED ==> Latched(a, key, severity, detail, now).state == HALTED
  {
  }

  /** Successes since the last failure or restart, starting from a given count; pauses and commands add
      nothing. */
  function Successes(start: nat, events: seq<Event>): nat
  {
    if |events| == 0 then start
    else
      var before := Successes(start, events[..|events| - 1]);
      match events[|events| - 1]
      case CycleOk => before + 1
      case CycleFailed(_, _) => 0
      case Stop(_) => 0
      case Kill(_) => 0
      case _ => before
  }

  /** While the wedge is latched the recovery count is the number of successes since the last failure. */
  lemma {:induction false} RecoveryCount(m: Machine, events: seq<Event>, halt: int)
    requires MachineInv(m, halt)
    ensures MachineInv(Run(m, events, halt), halt)
    ensures Run(m, events, halt).guard.latched ==>
              Run(m, events, halt).guard.recoverStreak == Successes(m.guard.recoverStreak, events)
  {
    hide Inv, Latched, Cleared, Restored;
    if |events| > 0 {
      RecoveryCount(m, events[..|events| - 1], halt);
      NextKeeps(Run(m, events[..|events| - 1], halt), events[|events| - 1], halt);
    }
  }

  /** In every run from boot, a clean cycle lifts the wedge latch exactly when it is the trip-th success
      since the last failure. */
  lemma AutoClearExact(m: Machine, events: seq<Event>, halt: int)
    requires MachineInv(m, halt) && m.guard == QUIET
    requires Run(m, events, halt).guard.latched
    ensures !Run(m, events + [CycleOk], halt).guard.latched <==> Successes(0, events + [CycleOk]) >= Trip(halt)
    ensures Successes(0, events + [CycleOk]) <= Trip(halt)
  {
    hide Inv, Cleared;
    RecoveryCount(m, events, halt);
    assert (events + [CycleOk])[..|events|] == events;
  }

  predicate Unattended(e: Event) { !e.OperatorClear? && !e.Stop? && !e.Kill? }

  /** No stretch of the events reaches the trip's number of successes without a failure. */
  predicate NeverRecovers(start: nat, events: seq<Event>, halt: int)
  {
    Successes(start, events) < Trip(halt) && (|events| == 0 || NeverRecovers(start, events[..|events| - 1], halt))
  }

  /** Once wedged, nothing but the operator, a restart, or a full healthy streak lets new risk in. */
  lemma {:induction false} NoRiskBeforeRecovery(m: Machine, events: seq<Event>, halt: int)
    requires MachineInv(m, halt) && m.guard.latched && m.fault.state == HALTED
    requires forall i :: 0 <= i < |events| ==> Unattended(events[i])
    requires NeverRecovers(m.guard.recoverStreak, events, halt)
    ensures Run(m, events, halt).guard.latched && Run(m, events, halt).fault.state == HALTED
  {
    hide Inv, Latched;
    if |events| > 0 {
      var init, e := events[..|events| - 1], events[|events| - 1];
      assert Unattended(e);
      NoRiskBeforeRecovery(m, init, halt);
      RecoveryCount(m, init, halt);
      var before := Run(m, init, halt);
      if e.OtherLatch? {
        LatchHolds(before.fault, e.key, e.severity, e.why, e.at);
      } else if e.CycleFailed? {
        LatchHolds(before.fault, WEDGED, CRITICAL, e.detail, e.now);
      }
    }
  }

  predicate Healthy(e: Event) { e.CycleOk? || e.Paused? }

  function Oks(events: seq<Event>): nat
  {
    if |events| == 0 then 0 else Oks(events[..|events| - 1]) + if events[|events| - 1].CycleOk? then 1 else 0
  }

  /** The wedge alone heals by itself: with nothing else latched, the trip's number of clean cycles, pauses
      in between or not, arms the bot again, and no smaller number does. */
  lemma {:induction false} WedgeHeals(m: Machine, events: seq<Event>, halt: int)
    requires m.guard.latched && m.guard.recoverStreak == 0 && m.fault.state == HALTED
    requires |m.fault.faults| == 1 && m.fault.faults[0].key == WEDGED
    requires forall i :: 0 <= i < |events| ==> Healthy(events[i])
    ensures var after := Run(m, events, halt);
            && (after.fault.state == ARMED <==> Oks(events) >= Trip(halt))
            && (if Oks(events) >= Trip(halt) then after.fault == Authority([], ARMED) && !after.guard.latched
                else after.fault == m.fault && after.guard.latched && after.guard.recoverStreak == Oks(events))
  {
    if |events| > 0 {
      assert Healthy(events[|events| - 1]);
      WedgeHeals(m, events[..|events| - 1], halt);
    }
  }

  /** Clearing the wedge by hand in the middle of a failing streak is not undone by more failures: the guard
      latches again only after a success or a pause. */
  lemma {:induction false} HandClearedWedgeStaysOpen(m: Machine, events: seq<Event>, halt: int)
    requires m.guard.alerted && !m.guard.latched && m.fault == Authority([], ARMED)
    requires forall i :: 0 <= i < |events| ==> events[i].CycleFailed?
    ensures Run(m, events, halt).fault == m.fault && Run(m, events, halt).guard.alerted
    ensures Run(m, events, halt).guard.failStreak == m.guard.failStreak + |events|
  {
    if |events| > 0 {
      HandClearedWedgeStaysOpen(m, events[..|events| - 1], halt);
    }
  }

  function Fails(n: nat, detail: string, now: real): seq<Event> { seq(n, i => CycleFailed(detail, now)) }

  lemma {:induction false} FewFailures(n: nat, detail: string, now: real, halt: int)
    requires n < Trip(halt)
    ensures Run(BOOT, Fails(n, detail, now), halt) == Machine(BOOTED, Guard(n, false, false, 0), [])
  {
    if n > 0 {
      FewFailures(n - 1, detail, now, halt);
      assert Fails(n, detail, now)[..n - 1] == Fails(n - 1, detail, now);
    }
  }

  /** The run that gets there: from boot the trip's number of failures latches the wedge, and the operator
      names it. However many failures follow, new risk stays allowed. */
  lemma HandClearIsReachable(more: seq<Event>, detail: string, now: real, halt: int)
    requires forall i :: 0 <= i < |more| ==> more[i].CycleFailed?
    ensures var wedged := Run(BOOT, Fails(Trip(halt), detail, now), halt);
            var cleared := Next(wedged, OperatorClear(WEDGED), halt);
            && wedged.fault.state == HALTED && wedged.guard.latched
            && cleared == Machine(Authority([], ARMED), Guard(Trip(halt), true, false, 0), [])
            && Run(cleared, more, halt).fault.state == ARMED
            && Run(cleared, more, halt).guard.failStreak == Trip(halt) + |more|
  {
    hide Run, Next, Fails;
    var h := Trip(halt);
    FewFailures(h - 1, detail, now, halt);
    FailsGrow(h, detail, now);
    RunLast(BOOT, Fails(h, detail, now), halt);
    WedgesAndClears(detail, now, halt);
    HandClearedWedgeStaysOpen(Machine(Authority([], ARMED), Guard(h, true, false, 0), []), more, halt);
  }

  lemma FailsGrow(n: nat, detail: string, now: real)
    requires n > 0
    ensures Fails(n, detail, now)[..n - 1] == Fails(n - 1, detail, now)
    ensures |Fails(n, detail, now)| == n && Fails(n, detail, now)[n - 1] == CycleFailed(detail, now)
  {
  }

  lemma WedgesAndClears(detail: string, now: real, halt: int)
    ensures var h := Trip(halt);
            var wedged := Machine(Authority([Record(WEDGED, CRITICAL, detail, now, 1)], HALTED),
                                  Guard(h, true, true, 0), []);
            && Next(Machine(BOOTED, Guard(h - 1, false, false, 0), []), CycleFailed(detail, now), halt) == wedged
            && Next(wedged, OperatorClear(WEDGED), halt) == Machine(Authority([], ARMED), Guard(h, true, false, 0), [])
  {
    assert Without([Record(WEDGED, CRITICAL, detail, now, 1)], 0) == [];
  }

  lemma RunLast(m: Machine, events: seq<Event>, halt: int)
    requires |events| > 0
    ensures Run(m, events, halt) == Next(Run(m, events[..|events| - 1], halt), events[|events| - 1], halt)
  {
  }

  // ---------------------------------------------------------------- exactly when it is latched, and risk refused

  predicate Attended(e: Event) { e.CycleFailed? || e.OtherLatch? || e.OperatorClear? }

  /** The failure that completes the streak. */
  predicate TripsAt(events: seq<Event>, k: nat, halt: int)
    requires k < |events|
  {
    events[k].CycleFailed? && Failures(events[..k + 1]) == Trip(halt)
  }

  /** After the event the operator never names the wedge. */
  predicate UnnamedAfter(events: seq<Event>, k: nat)
  {
    forall j :: k < j < |events| ==> events[j] != OperatorClear(WEDGED)
  }

  /** There was a Trip-th failure, and the operator has not named the wedge since. */
  predicate StillWedged(events: seq<Event>, halt: int)
  {
    exists k :: 0 <= k < |events| && TripsAt(events, k, halt) && UnnamedAfter(events, k)
  }

  lemma WedgedStep(events: seq<Event>, halt: int)
    requires |events| > 0
    ensures var n := |events| - 1;
            StillWedged(events, halt) <==>
            || (events[n].CycleFailed? && Failures(events) == Trip(halt))
            || (StillWedged(events[..n], halt) && events[n] != OperatorClear(WEDGED))
  {
    hide TripsAt, UnnamedAfter, Failures;
    var n := |events| - 1;
    LastTrip(events, halt);
    forall k | 0 <= k < n
      ensures TripsAt(events, k, halt) == TripsAt(events[..n], k, halt)
      ensures UnnamedAfter(events, k) <==> UnnamedAfter(events[..n], k) && events[n] != OperatorClear(WEDGED)
    {
      EarlierTrips(events, k, halt);
    }
  }

  /** Over every run of failures, other latches and operator clears from a quiet guard, whatever the fault table holds:
      the wedge is latched exactly when there was a Trip-th failure and the operator has not named the wedge
      since. A hand-cleared wedge is not latched again by the same streak, however long it goes on. */
  lemma {:induction false} WedgeLatchedExact(m: Machine, events: seq<Event>, halt: int)
    requires m.guard == QUIET && forall i :: 0 <= i < |events| ==> Attended(events[i])
    ensures var g := Run(m, events, halt).guard;
            && g.failStreak == Failures(events) && (g.alerted <==> Failures(events) >= Trip(halt))
            && (g.latched <==> StillWedged(events, halt))
  {
    if |events| > 0 {
      hide Next, Run, StillWedged;
      var n := |events| - 1;
      assert Attended(events[n]);
      WedgeLatchedExact(m, events[..n], halt);
      RunLast(m, events, halt);
      GuardStep(Run(m, events[..n], halt), events[n], halt);
      WedgedStep(events, halt);
      LastTrip(events, halt);
      NotYetWedged(events[..n], halt);
    }
  }

  lemma NotYetWedged(events: seq<Event>, halt: int)
    ensures Failures(events) < Trip(halt) ==> !StillWedged(events, halt)
  {
    TripsOnce(events, halt);
  }

  lemma EarlierTrips(events: seq<Event>, k: nat, halt: int)
    requires k < |events| - 1
    ensures var init := events[..|events| - 1];
            && TripsAt(events, k, halt) == TripsAt(init, k, halt)
            && (UnnamedAfter(events, k) <==> UnnamedAfter(init, k) && events[|events| - 1] != OperatorClear(WEDGED))
  {
    var init := events[..|events| - 1];
    assert events[..k + 1] == init[..k + 1];
    assert forall j :: k < j < |init| ==> events[j] == init[j];
  }

  lemma LastTrip(events: seq<Event>, halt: int)
    requires |events| > 0
    ensures var n := |events| - 1;
            && UnnamedAfter(events, n)
            && (TripsAt(events, n, halt) <==> events[n].CycleFailed? && Failures(events) == Trip(halt))
            && Failures(events) == Failures(events[..n]) + if events[n].CycleFailed? then 1 else 0
  {
    assert events[..|events| - 1 + 1] == events;
  }

  lemma GuardStep(m: Machine, e: Event, halt: int)
    requires Attended(e)
    ensures var g, h := m.guard, Next(m, e, halt).guard;
            if e.CycleFailed? then
              && h.failStreak == g.failStreak + 1
              && h.alerted == (g.alerted || g.failStreak + 1 >= halt)
              && h.latched == (g.latched || (!g.alerted && g.failStreak + 1 >= halt))
            else
              && h.failStreak == g.failStreak && h.alerted == g.alerted
              && h.latched == (g.latched && e != OperatorClear(WEDGED))
  {
    hide Latched, Cleared;
  }

  /** No event trips before the Trip-th failure. */
  lemma TripsOnce(events: seq<Event>, halt: int)
    ensures Failures(events) < Trip(halt) ==> forall k :: 0 <= k < |events| ==> !TripsAt(events, k, halt)
  {
    if Failures(events) < Trip(halt) {
      forall k | 0 <= k < |events| ensures !TripsAt(events, k, halt) { FailuresGrow(events, k + 1); }
    }
  }

  lemma {:induction false} FailuresGrow(events: seq<Event>, k: nat)
    requires k <= |events|
    ensures Failures(events[..k]) <= Failures(events)
  {
    if k < |events| {
      FailuresGrow(events[..|events| - 1], k);
      assert events[..|events| - 1][..k] == events[..k];
    } else {
      assert events[..k] == events;
    }
  }

  /** Failures since the last success, pause or restart, starting from a given count. */
  function Streak(start: nat, events: seq<Event>): nat
  {
    if |events| == 0 then start
    else
      var before := Streak(start, events[..|events| - 1]);
      match events[|events| - 1]
      case CycleFailed(_, _) => before + 1
      case OperatorClear(_) => before
      case OtherLatch(_, _, _, _) => before
      case Save => before
      case _ => 0
  }

  /** Over every run from a quiet guard, with successes, pauses, failures, latches, clears, snapshots and restarts: the
      failure count is the consecutive streak, and the guard knows whether this streak has reached the trip. */
  lemma {:induction false} StreakExact(m: Machine, events: seq<Event>, halt: int)
    requires m.guard == QUIET
    ensures var g := Run(m, events, halt).guard;
            g.failStreak == Streak(0, events) && (g.alerted <==> Streak(0, events) >= Trip(halt))
  {
    hide Latched, Cleared, Restored, Booted;
    if |events| > 0 {
      StreakExact(m, events[..|events| - 1], halt);
      BootedGuard();
    }
  }

  lemma BootedGuard()
    ensures forall saved, boot :: Booted(saved, boot).guard == QUIET
  {
  }

  /** In every such run a failure latches the wedge exactly when it makes the streak as long as the trip: once a
      streak, and again in the next streak, after a healed or a hand-cleared wedge or none. */
  lemma TripLatchesExact(m: Machine, events: seq<Event>, detail: string, now: real, halt: int)
    requires m.guard == QUIET
    ensures var before, after := Run(m, events, halt), Run(m, events + [CycleFailed(detail, now)], halt);
            if Streak(0, events) + 1 == Trip(halt)
            then after.fault == Latched(before.fault, WEDGED, CRITICAL, detail, now) && after.guard.latched
                 && after.fault.state == HALTED
            else after.fault == before.fault && after.guard.latched == before.guard.latched
  {
    hide Entered;
    StreakExact(m, events, halt);
    assert (events + [CycleFailed(detail, now)])[..|events|] == events;
  }

  /** The wedge is latched, told from the events: by the failure that completes a streak; until the operator names it,
      a restart, or the trip-th success since the last failure. */
  predicate Wedged(events: seq<Event>, halt: int)
  {
    |events| > 0 &&
    var init := events[..|events| - 1];
    match events[|events| - 1]
    case CycleFailed(_, _) => Streak(0, events) == Trip(halt) || Wedged(init, halt)
    case CycleOk => Wedged(init, halt) && Successes(0, events) < Trip(halt)
    case OperatorClear(key) => Wedged(init, halt) && key != WEDGED
    case Stop(_) => false
    case Kill(_) => false
    case _ => Wedged(init, halt)
  }

  /** Over every run from boot the wedge is latched exactly when the events say so. */
  lemma {:induction false} WedgedExact(events: seq<Event>, halt: int)
    ensures Run(BOOT, events, halt).guard.latched <==> Wedged(events, halt)
  {
    hide Next, MachineInv;
    BootInv(halt);
    if |events| > 0 {
      var init := events[..|events| - 1];
      WedgedExact(init, halt);
      StreakExact(BOOT, init, halt);
      RecoveryCount(BOOT, init, halt);
      LatchedStep(Run(BOOT, init, halt), events[|events| - 1], halt);
    }
  }

  /** What an event makes of the wedge. */
  lemma LatchedStep(m: Machine, e: Event, halt: int)
    ensures Next(m, e, halt).guard.latched <==>
            match e
            case CycleFailed(_, _) => m.guard.latched || (m.guard.failStreak + 1 >= halt && !m.guard.alerted)
            case CycleOk => m.guard.latched && m.guard.recoverStreak + 1 < halt
            case OperatorClear(key) => m.guard.latched && key != WEDGED
            case Stop(_) => false
            case Kill(_) => false
            case _ => m.guard.latched
  {
    hide Latched, Cleared, Restored, Booted;
    BootedGuard();
  }

  lemma BootInv(halt: int)
    ensures MachineInv(BOOT, halt)
  {
    BootedInv();
  }

  predicate Uninterrupted(e: Event) { !e.Stop? && !e.Kill? }

  /** The guard is about to latch, or lift, the wedge at this event. */
  predicate Wedges(m: Machine, e: Event, halt: int)
  {
    e.CycleFailed? && m.guard.failStreak + 1 >= halt && !m.guard.alerted
  }

  predicate Lifts(m: Machine, e: Event, halt: int)
  {
    e.CycleOk? && m.guard.latched && m.guard.recoverStreak + 1 >= halt
  }

  /** The event latches more than a warning, or overflows the table. */
  predicate Blocks(m: Machine, e: Event, halt: int)
  {
    || Wedges(m, e, halt)
    || (e.OtherLatch? && (e.severity != WARNING || Overflows(m.fault.faults, e.key)))
  }

  /** The event takes the last fault out of the table. */
  predicate TakesLast(m: Machine, e: Event, halt: int)
  {
    |m.fault.faults| == 1 &&
    ((e.OperatorClear? && e.key != "" && m.fault.faults[0].key == e.key)
     || (Lifts(m, e, halt) && m.fault.faults[0].key == WEDGED))
  }

  predicate BlocksAt(m: Machine, events: seq<Event>, k: nat, halt: int)
    requires k < |events|
  {
    Blocks(Run(m, events[..k], halt), events[k], halt)
  }

  predicate TakesLastAt(m: Machine, events: seq<Event>, k: nat, halt: int)
    requires k < |events|
  {
    TakesLast(Run(m, events[..k], halt), events[k], halt)
  }

  predicate NeverEmptied(m: Machine, events: seq<Event>, k: nat, halt: int)
  {
    forall j :: k < j < |events| ==> !TakesLastAt(m, events, j, halt)
  }

  lemma Earlier(m: Machine, events: seq<Event>, k: nat, halt: int)
    requires k < |events| - 1
    ensures var init := events[..|events| - 1];
            && BlocksAt(m, events, k, halt) == BlocksAt(m, init, k, halt)
            && TakesLastAt(m, events, k, halt) == TakesLastAt(m, init, k, halt)
  {
    assert events[..|events| - 1][..k] == events[..k];
  }

  lemma EarlierUnemptied(m: Machine, events: seq<Event>, k: nat, halt: int)
    requires k < |events| - 1
    ensures NeverEmptied(m, events, k, halt) <==>
            NeverEmptied(m, events[..|events| - 1], k, halt) && !TakesLastAt(m, events, |events| - 1, halt)
  {
    hide TakesLastAt, BlocksAt;
    var n := |events| - 1;
    forall j | k < j < n ensures TakesLastAt(m, events, j, halt) == TakesLastAt(m, events[..n], j, halt) {
      Earlier(m, events, j, halt);
    }
  }

  /** The state follows the two kinds of events. */
  lemma RiskStep(m: Machine, e: Event, halt: int)
    requires m.fault.state != INIT && Uninterrupted(e)
    ensures var after := Next(m, e, halt).fault.state;
            && after != INIT
            && (after != ARMED <==>
                  Blocks(m, e, halt) || (m.fault.state != ARMED && !TakesLast(m, e, halt)))
  {
    hide Latched, Cleared, Overflows;
    match e {
      case CycleOk => DoneState(m.fault, DoClear(WEDGED));
      case CycleFailed(detail, now) => DoneState(m.fault, DoLatch(WEDGED, CRITICAL, detail, now));
      case OperatorClear(key) => DoneState(m.fault, DoClear(key));
      case OtherLatch(key, severity, why, at) => DoneState(m.fault, DoLatch(key, severity, why, at));
      case _ =>
    }
  }

  /** Over every run of an armed bot without a restart, whatever clears, heals or latches: new risk is refused exactly
      when a blocking latch, the wedge's or another, was made since the table was last emptied. */
  lemma {:induction false} RiskRefusedExact(m: Machine, events: seq<Event>, halt: int)
    requires m.fault.state == ARMED && forall i :: 0 <= i < |events| ==> Uninterrupted(events[i])
    ensures Run(m, events, halt).fault.state != INIT
    ensures Run(m, events, halt).fault.state != ARMED <==>
            exists k :: 0 <= k < |events| && BlocksAt(m, events, k, halt) && NeverEmptied(m, events, k, halt)
  {
    if |events| > 0 {
      hide Run, BlocksAt, TakesLastAt, NeverEmptied;
      var n := |events| - 1;
      assert Uninterrupted(events[n]);
      RiskRefusedExact(m, events[..n], halt);
      LastStep(m, events, halt);
      forall k | 0 <= k < n
        ensures BlocksAt(m, events, k, halt) == BlocksAt(m, events[..n], k, halt)
        ensures NeverEmptied(m, events, k, halt) <==>
                NeverEmptied(m, events[..n], k, halt) && !TakesLastAt(m, events, n, halt)
      {
        Earlier(m, events, k, halt);
        EarlierUnemptied(m, events, k, halt);
      }
    }
  }

  lemma LastStep(m: Machine, events: seq<Event>, halt: int)
    requires |events| > 0 && Uninterrupted(events[|events| - 1])
    requires Run(m, events[..|events| - 1], halt).fault.state != INIT
    ensures var n := |events| - 1;
            var before, after := Run(m, events[..n], halt).fault.state, Run(m, events, halt).fault.state;
            && after != INIT && NeverEmptied(m, events, n, halt)
            && (after != ARMED <==>
                  BlocksAt(m, events, n, halt) || (before != ARMED && !TakesLastAt(m, events, n, halt)))
  {
    hide Next, Blocks, TakesLast;
    RiskStep(Run(m, events[..|events| - 1], halt), events[|events| - 1], halt);
  }

  // ---------------------------------------------------------------- latched until named

  predicate AtLeast(faults: seq<Record>, key: string, rank: nat)
  {
    Has(faults, key) && faults[Find(faults, key)].severity.Rank() >= rank
  }

  /** A fault other than the wedge stays in the table, never softer, through every success, failure, automatic clear,
      snapshot and clean stop until the operator names it, and through kills as well once a snapshot holds it;
      a blocking one refuses new risk as long. */
  lemma {:induction false} LatchedUntilNamed(m: Machine, events: seq<Event>, key: string, rank: nat, halt: int)
    requires MachineInv(m, halt) && key != WEDGED && AtLeast(m.fault.faults, key, rank)
    requires forall i :: 0 <= i < |events| ==> events[i] != OperatorClear(key)
    requires AtLeast(m.saved, key, rank) || forall i :: 0 <= i < |events| ==> !events[i].Kill?
    ensures MachineInv(Run(m, events, halt), halt) && AtLeast(Run(m, events, halt).fault.faults, key, rank)
    ensures AtLeast(m.saved, key, rank) ==> AtLeast(Run(m, events, halt).saved, key, rank)
    ensures rank >= FAULT.Rank() ==> Run(m, events, halt).fault.state != ARMED
  {
    hide AtLeast, Inv, Next;
    if |events| > 0 {
      var before := Run(m, events[..|events| - 1], halt);
      LatchedUntilNamed(m, events[..|events| - 1], key, rank, halt);
      NextKeeps(before, events[|events| - 1], halt);
      NextHolds(before, events[|events| - 1], key, rank, halt);
    }
    BlockingIsNotArmed(Run(m, events, halt).fault, key, rank);
  }

  lemma BlockingIsNotArmed(a: Authority, key: string, rank: nat)
    requires Inv(a) && AtLeast(a.faults, key, rank)
    ensures rank >= FAULT.Rank() ==> a.state != ARMED
  {
  }

  lemma NextHolds(m: Machine, e: Event, key: string, rank: nat, halt: int)
    requires MachineInv(m, halt) && key != WEDGED && AtLeast(m.fault.faults, key, rank)
    requires e != OperatorClear(key) && (e.Kill? ==> AtLeast(m.saved, key, rank))
    ensures AtLeast(Next(m, e, halt).fault.faults, key, rank)
    ensures AtLeast(m.saved, key, rank) ==> AtLeast(Next(m, e, halt).saved, key, rank)
  {
    hide AtLeast, Latched, Cleared, Restored, Inv;
    match e {
      case CycleOk => ClearHolds(m.fault, WEDGED, key, rank);
      case Paused =>
      case CycleFailed(detail, now) => LatchIsNoSofter(m.fault, WEDGED, CRITICAL, detail, now, key, rank);
      case OperatorClear(k) => ClearHolds(m.fault, k, key, rank);
      case OtherLatch(k, severity, why, at) => LatchIsNoSofter(m.fault, k, severity, why, at, key, rank);
      case Save =>
      case Stop(boot) => RestartHolds(m.fault, boot, key, rank);
      case Kill(boot) => RestartHolds(Table(m.saved), boot, key, rank);
    }
  }

  lemma LatchIsNoSofter(a: Authority, key: string, severity: Severity, detail: string, now: real,
                           held: string, rank: nat)
    requires Inv(a) && AtLeast(a.faults, held, rank)
    ensures AtLeast(Latched(a, key, severity, detail, now).faults, held, rank)
  {
    if Overflows(a.faults, key) {
      EnterIsNoSofter(a.faults, OVERFLOW, CRITICAL, OverflowDetail(key), now, held, rank);
    } else {
      EnterIsNoSofter(a.faults, key, severity, detail, now, held, rank);
    }
  }

  lemma EnterIsNoSofter(faults: seq<Record>, key: string, severity: Severity, detail: string, now: real,
                           held: string, rank: nat)
    requires AtLeast(faults, held, rank)
    ensures AtLeast(Entered(faults, key, severity, detail, now), held, rank)
  {
    var after, i := Entered(faults, key, severity, detail, now), Find(faults, held);
    assert forall j :: 0 <= j < |faults| ==>
             after[j].key == faults[j].key && after[j].severity.Rank() >= faults[j].severity.Rank();
    assert Find(after, held) == i;
  }

  lemma ClearHolds(a: Authority, key: string, held: string, rank: nat)
    requires Inv(a) && key != held && AtLeast(a.faults, held, rank)
    ensures AtLeast(Cleared(a, key).faults, held, rank)
  {
    hide DistinctKeys, HasCritical, OnlyWarnings, Bounded;
    var i, j := Find(a.faults, key), Find(a.faults, held);
    if i < |a.faults| {
      WithoutKeeps(a.faults, i);
      WithoutAt(a.faults, i, j);
    }
  }

  lemma WithoutAt(faults: seq<Record>, i: nat, j: nat)
    requires i < |faults| && j < |faults| && i != j && DistinctKeys(Without(faults, i))
    ensures Has(Without(faults, i), faults[j].key)
    ensures Without(faults, i)[Find(Without(faults, i), faults[j].key)] == faults[j]
  {
    var rest, at := Without(faults, i), if j < i then j else j - 1;
    assert rest[at] == faults[j];
    HasIff(rest, at);
  }

  lemma RestartHolds(a: Authority, now: real, held: string, rank: nat)
    requires Inv(a) && held != WEDGED && AtLeast(a.faults, held, rank)
    ensures AtLeast(Restored(BOOTED, Saving(a.faults), now).faults, held, rank)
  {
    hide Restored, Surviving, Saving;
    RestartKeepsFaults(a, now);
    BootedInv();
    RestoreKeeps(BOOTED, Saving(a.faults), now);
    var kept := Surviving(a.faults, now);
    var j := SurvivorOf(a.faults, Find(a.faults, held), now);
    HasIff(kept, j);
  }

  // ---------------------------------------------------------------- what a kill loses

  /** After a restart from a saved table a fault is there exactly when it was saved and is not recoverable, and then
      with its severity. */
  lemma BootedHas(saved: seq<Record>, boot: real, key: string)
    requires Inv(Table(saved))
    ensures var after := Booted(saved, boot).fault.faults;
            && (Has(after, key) <==> Has(saved, key) && key !in RECOVERABLE)
            && (Has(after, key) ==> after[Find(after, key)].severity == saved[Find(saved, key)].severity)
  {
    hide Restored, Surviving, Saving;
    RestartKeepsFaults(Table(saved), boot);
    BootedInv();
    RestoreKeeps(BOOTED, Saving(saved), boot);
    var kept := Surviving(saved, boot);
    if Has(kept, key) {
      var i := SurvivorFrom(saved, Find(kept, key), boot);
      HasIff(saved, i);
    }
    if Has(saved, key) && key !in RECOVERABLE {
      var j := SurvivorOf(saved, Find(saved, key), boot);
      HasIff(kept, j);
    }
  }

  /** The wedge is the one recoverable fault: restoring brings back every other fault of the snapshot. */
  lemma OnlyTheWedgeIsDropped(saved: seq<Record>, boot: real, key: string)
    requires Inv(Table(saved))
    ensures Has(Booted(saved, boot).fault.faults, key) <==> Has(saved, key) && key != "cycle_wedged"
  {
    BootedHas(saved, boot, key);
  }

  /** A clean stop keeps exactly the faults that are not recoverable; a kill brings back exactly those of the last
      snapshot. A fault latched since is lost, one cleared since is back. */
  lemma KillKeepsExact(m: Machine, boot: real, key: string, halt: int)
    requires MachineInv(m, halt)
    ensures Has(Next(m, Stop(boot), halt).fault.faults, key) <==> Has(m.fault.faults, key) && key !in RECOVERABLE
    ensures Has(Next(m, Kill(boot), halt).fault.faults, key) <==> Has(m.saved, key) && key !in RECOVERABLE
    ensures Has(Next(Next(m, Save, halt), Kill(boot), halt).fault.faults, key) <==>
            Has(m.fault.faults, key) && key !in RECOVERABLE
  {
    hide Inv, Booted;
    TableKeeps(m.fault);
    BootedHas(m.fault.faults, boot, key);
    BootedHas(m.saved, boot, key);
  }

  /** And new risk is allowed after a kill exactly when every fault of the snapshot that is not recoverable was a
      warning, whatever was latched since. */
  lemma KillAllowsRiskExact(m: Machine, boot: real, halt: int)
    requires MachineInv(m, halt)
    ensures Next(m, Kill(boot), halt).fault.state == ARMED <==>
            forall i :: 0 <= i < |m.saved| && m.saved[i].key !in RECOVERABLE ==> m.saved[i].severity == WARNING
  {
    RestartAllowsRiskExact(Table(m.saved), boot);
  }

  /** A run that loses a critical fault: latched after the snapshot, gone after the kill, and new risk allowed. */
  lemma CriticalIsLost(key: string, why: string, at: real, boot: real, halt: int)
    ensures var halted := Next(Next(BOOT, Save, halt), OtherLatch(key, CRITICAL, why, at), halt);
            && halted.fault.state == HALTED && Has(halted.fault.faults, key)
            && Next(halted, Kill(boot), halt) == BOOT
  {
    EnteredHas([], key, CRITICAL, why, at);
    var halted := Next(Next(BOOT, Save, halt), OtherLatch(key, CRITICAL, why, at), halt);
    assert halted.saved == [] && Saving([]) == [];
  }
}
