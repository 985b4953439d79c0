/** The fault authority, core/fault.py: a bounded table of latched faults and the operational state it
    drives. The table is Python's insertion-ordered dictionary, kept as a sequence with distinct keys. */
module FaultAuthority {
  import opened Prelude

  datatype OpState = INIT | ARMED | DEGRADED | HALTED

  datatype Severity = WARNING | FAULT | CRITICAL {
    function Rank(): nat { match this case WARNING => 0 case FAULT => 1 case CRITICAL => 2 }
  }

  datatype Record = Record(key: string, severity: Severity, detail: string, ts: real, count: int)

  const MAX_FAULTS: nat := 128
  const OVERFLOW := "fault_table_overflow"
  const WEDGED := "cycle_wedged"
  const RECOVERABLE: set<string> := {WEDGED}

  /** The position of a key, or the length of the table. */
  function Find(faults: seq<Record>, key: string): (i: nat)
    ensures i <= |faults|
    ensures i < |faults| ==> faults[i].key == key
    ensures forall j :: 0 <= j < i ==> faults[j].key != key
  {
    if |faults| == 0 then 0
    else if faults[0].key == key then 0
    else 1 + Find(faults[1..], key)
  }

  predicate Has(faults: seq<Record>, key: string) { Find(faults, key) < |faults| }

  predicate HasCritical(faults: seq<Record>)
  {
    exists i :: 0 <= i < |faults| && faults[i].severity == CRITICAL
  }

  predicate OnlyWarnings(faults: seq<Record>)
  {
    forall i :: 0 <= i < |faults| ==> faults[i].severity == WARNING
  }

  predicate DistinctKeys(faults: seq<Record>)
  {
    forall i, j :: 0 <= i < j < |faults| ==> faults[i].key != faults[j].key
  }

  datatype Authority = Authority(faults: seq<Record>, state: OpState)

  function Worse(a: Severity, b: Severity): Severity { if a.Rank() > b.Rank() then a else b }

  /** The table after a latch of a key it may hold already. */
  function Entered(faults: seq<Record>, key: string, severity: Severity, detail: string, now: real): seq<Record>
  {
    var i := Find(faults, key);
    if i < |faults| then
      faults[i := faults[i].(count := faults[i].count + 1, detail := detail,
                              severity := Worse(severity, faults[i].severity))]
    else faults + [Record(key, severity, detail, now, 1)]
  }

  function LatchedState(state: OpState, severity: Severity): OpState
  {
    if severity == CRITICAL then HALTED
    else if severity == FAULT && state == ARMED then DEGRADED
    else state
  }

  function OverflowDetail(key: string): string { "fault table full; latest dropped fault: " + key }

  predicate Overflows(faults: seq<Record>, key: string) { |faults| >= MAX_FAULTS && !Has(faults, key) }

  function Latched(a: Authority, key: string, severity: Severity, detail: string, now: real): Authority
  {
    if Overflows(a.faults, key)
    then Authority(Entered(a.faults, OVERFLOW, CRITICAL, OverflowDetail(key), now), HALTED)
    else Authority(Entered(a.faults, key, severity, detail, now), LatchedState(a.state, severity))
  }

  function Without(faults: seq<Record>, i: nat): seq<Record>
    requires i < |faults|
  {
    faults[..i] + faults[i + 1..]
  }

  function Cleared(a: Authority, key: string): Authority
  {
    var i := Find(a.faults, key);
    if i == |a.faults| then a
    else
      var rest := Without(a.faults, i);
      var state := if rest == [] && (a.state == DEGRADED || a.state == HALTED) then ARMED
                   else if rest != [] && a.state == HALTED && !HasCritical(rest) then DEGRADED
                   else a.state;
      Authority(rest, state)
  }

  function Armed(a: Authority): Authority
  {
    if a.state == INIT && a.faults == [] then a.(state := ARMED) else a
  }

  // ---------------------------------------------------------------- persistence

  /** One persisted entry as `restore` reads it: an unknown severity skips the entry, an unreadable
      count or time stamp leaves the fresh record's. */
  datatype Saved = Saved(key: string, severity: Option<Severity>, detail: string, count: Option<int>, ts: Option<real>)

  function Saving(faults: seq<Record>): seq<Saved>
  {
    seq(|faults|, i requires 0 <= i < |faults| =>
      Saved(faults[i].key, Some(faults[i].severity), faults[i].detail, Some(faults[i].count), Some(faults[i].ts)))
  }

  function Adjusted(r: Record, entry: Saved): Record
  {
    r.(count := if entry.count.Some? then MaxInt(r.count, entry.count.value) else r.count,
       ts := if entry.ts.Some? && entry.ts.value != 0.0 then entry.ts.value else r.ts)
  }

  function RestoredOne(a: Authority, entry: Saved, now: real): Authority
  {
    if entry.key in RECOVERABLE || entry.severity.None? then a
    else
      var b := Latched(a, entry.key, entry.severity.value, entry.detail, now);
      var i := Find(b.faults, entry.key);
      if i < |b.faults| then b.(faults := b.faults[i := Adjusted(b.faults[i], entry)]) else b
  }

  function Restored(a: Authority, saved: seq<Saved>, now: real): Authority
  {
    if |saved| == 0 then a
    else RestoredOne(Restored(a, saved[..|saved| - 1], now), saved[|saved| - 1], now)
  }

  // ---------------------------------------------------------------- the class

  class FaultManager {
    var faults: seq<Record>
    var state: OpState

    ghost function Now(): Authority reads this { Authority(faults, state) }

    constructor ()
      ensures Now() == Authority([], INIT)
    {
      faults, state := [], INIT;
    }

    method Lookup(key: string) returns (i: nat)
      ensures i == Find(faults, key)
    {
      i := 0;
      while i < |faults| && faults[i].key != key
        invariant i <= |faults| && Find(faults, key) == i + Find(faults[i..], key)
      {
        assert faults[i..][1..] == faults[i + 1..];
        i := i + 1;
      }
    }

    method Arm()
      modifies this
      ensures Now() == Armed(old(Now()))
    {
      if state == INIT && faults == [] {
        state := ARMED;
      }
    }

    method Latch(key: string, severity: Severity, detail: string, now: real)
      modifies this
      ensures Now() == Latched(old(Now()), key, severity, detail, now)
    {
      var k, s, d := key, severity, detail;
      var i := Lookup(k);
      if |faults| >= MAX_FAULTS && i == |faults| {
        k, d, s := OVERFLOW, "fault table full; latest dropped fault: " + key, CRITICAL;
        i := Lookup(k);
      }
      if i < |faults| {
        var rec := faults[i];
        rec := rec.(count := rec.count + 1, detail := d);
        if s.Rank() > rec.severity.Rank() {
          rec := rec.(severity := s);
        }
        faults := faults[i := rec];
      } else {
        faults := faults + [Record(k, s, d, now, 1)];
      }
      if s == CRITICAL {
        state := HALTED;
      } else if s == FAULT && state == ARMED {
        state := DEGRADED;
      }
    }

    method ClearFault(key: string) returns (found: bool)
      modifies this
      ensures Now() == Cleared(old(Now()), key) && found == Has(old(faults), key)
    {
      var i := Lookup(key);
      if i == |faults| { return false; }
      faults := faults[..i] + faults[i + 1..];
      if faults == [] && (state == DEGRADED || state == HALTED) {
        state := ARMED;
      } else if faults != [] && state == HALTED {
        var critical := AnyCritical();
        if !critical {
          state := DEGRADED;
        }
      }
      return true;
    }

    method AnyCritical() returns (found: bool)
      ensures found <==> HasCritical(faults)
    {
      for i := 0 to |faults|
        invariant forall j :: 0 <= j < i ==> faults[j].severity != CRITICAL
      {
        if faults[i].severity == CRITICAL { return true; }
      }
      return false;
    }

    method ToDict() returns (saved: seq<Saved>)
      ensures saved == Saving(faults)
    {
      saved := [];
      for i := 0 to |faults|
        invariant saved == Saving(faults)[..i]
      {
        var f := faults[i];
        saved := saved + [Saved(f.key, Some(f.severity), f.detail, Some(f.count), Some(f.ts))];
      }
    }

    method Restore(saved: seq<Saved>, now: real)
      modifies this
      ensures Now() == Restored(old(Now()), saved, now)
    {
      for n := 0 to |saved|
        invariant Now() == Restored(old(Now()), saved[..n], now)
      {
        assert saved[..n + 1][..n] == saved[..n];
        var entry := saved[n];
        if entry.key in RECOVERABLE || entry.severity.None? { continue; }
        Latch(entry.key, entry.severity.value, entry.detail, now);
        var i := Lookup(entry.key);
        if i < |faults| {
          var rec := faults[i];
          if entry.count.Some? {
            rec := rec.(count := MaxInt(rec.count, entry.count.value));
          }
          if entry.ts.Some? && entry.ts.value != 0.0 {
            rec := rec.(ts := entry.ts.value);
          }
          faults := faults[i := rec];
        }
      }
      assert saved[..|saved|] == saved;
    }
  }

  // ---------------------------------------------------------------- what every operation keeps

  /** Halted exactly when a critical fault is in the table, armed only over warnings, degraded only over a
      nonempty table; keys distinct; the table within its bound, the extra place being the overflow's. */
  predicate Inv(a: Authority)
  {
    && DistinctKeys(a.faults)
    && (a.state == HALTED <==> HasCritical(a.faults))
    && (a.state == ARMED ==> OnlyWarnings(a.faults))
    && (a.state == DEGRADED ==> a.faults != [])
    && Bounded(a.faults)
    && forall i :: 0 <= i < |a.faults| ==> a.faults[i].count >= 1
  }

  predicate Bounded(faults: seq<Record>)
  {
    |faults| <= MAX_FAULTS ||
    (|faults| == MAX_FAULTS + 1 && faults[MAX_FAULTS].key == OVERFLOW && faults[MAX_FAULTS].severity == CRITICAL)
  }

  lemma EnteredKeeps(faults: seq<Record>, key: string, severity: Severity, detail: string, now: real)
    requires DistinctKeys(faults) && Bounded(faults)
    requires |faults| < MAX_FAULTS || Has(faults, key) ||
             (|faults| == MAX_FAULTS && key == OVERFLOW && severity == CRITICAL)
    requires forall i :: 0 <= i < |faults| ==> faults[i].count >= 1
    ensures var after := Entered(faults, key, severity, detail, now);
            && DistinctKeys(after) && Bounded(after)
            && (HasCritical(after) <==> HasCritical(faults) || severity == CRITICAL)
            && (OnlyWarnings(after) <==> OnlyWarnings(faults) && severity == WARNING)
            && after != []
            && (forall i :: 0 <= i < |after| ==> after[i].count >= 1)
  {
    var after, i := Entered(faults, key, severity, detail, now), Find(faults, key);
    var at := if i < |faults| then i else |faults|;
    assert after[at].severity.Rank() >= severity.Rank();
    forall j | 0 <= j < |faults|
      ensures after[j].severity.Rank() >= faults[j].severity.Rank() && after[j].key == faults[j].key
      ensures after[j].severity == faults[j].severity || (j == at && after[j].severity == severity)
    {
    }
    if HasCritical(faults) {
      var j :| 0 <= j < |faults| && faults[j].severity == CRITICAL;
      assert after[j].severity == CRITICAL;
    }
  }

  lemma EnteredHas(faults: seq<Record>, key: string, severity: Severity, detail: string, now: real)
    ensures var after := Entered(faults, key, severity, detail, now);
            Has(after, key) && forall k :: Has(faults, k) ==> Has(after, k)
  {
    var after, i := Entered(faults, key, severity, detail, now), Find(faults, key);
    assert after[if i < |faults| then i else |faults|].key == key;
    forall k | Has(faults, k)
      ensures Has(after, k)
    {
      assert after[Find(faults, k)].key == k;
      HasIff(after, Find(faults, k));
    }
    HasIff(after, if i < |faults| then i else |faults|);
  }

  lemma HasIff(faults: seq<Record>, i: nat)
    requires i < |faults|
    ensures Has(faults, faults[i].key)
    ensures DistinctKeys(faults) ==> Find(faults, faults[i].key) == i
  {
  }

  lemma LatchKeeps(a: Authority, key: string, severity: Severity, detail: string, now: real)
    requires Inv(a)
    ensures Inv(Latched(a, key, severity, detail, now))
    ensures severity == CRITICAL || Overflows(a.faults, key) ==> Latched(a, key, severity, detail, now).state == HALTED
    ensures forall k :: Has(a.faults, k) ==> Has(Latched(a, key, severity, detail, now).faults, k)
    ensures Has(Latched(a, key, severity, detail, now).faults, if Overflows(a.faults, key) then OVERFLOW else key)
  {
    hide Entered, HasCritical, OnlyWarnings, DistinctKeys;
    if Overflows(a.faults, key) {
      if |a.faults| == MAX_FAULTS + 1 {
        HasIff(a.faults, MAX_FAULTS);
      }
      EnteredKeeps(a.faults, OVERFLOW, CRITICAL, OverflowDetail(key), now);
      EnteredHas(a.faults, OVERFLOW, CRITICAL, OverflowDetail(key), now);
    } else {
      EnteredKeeps(a.faults, key, severity, detail, now);
      EnteredHas(a.faults, key, severity, detail, now);
    }
  }

  lemma WithoutKeeps(faults: seq<Record>, i: nat)
    requires i < |faults| && DistinctKeys(faults) && Bounded(faults)
    ensures var rest := Without(faults, i);
            && DistinctKeys(rest) && Bounded(rest)
            && (HasCritical(rest) ==> HasCritical(faults))
            && (OnlyWarnings(faults) ==> OnlyWarnings(rest))
            && ((forall j :: 0 <= j < |faults| ==> faults[j].count >= 1) ==>
                 forall j :: 0 <= j < |rest| ==> rest[j].count >= 1)
  {
    var rest := Without(faults, i);
    assert forall j :: 0 <= j < |rest| ==> rest[j] == faults[if j < i then j else j + 1];
    if HasCritical(rest) {
      var j :| 0 <= j < |rest| && rest[j].severity == CRITICAL;
      assert faults[if j < i then j else j + 1].severity == CRITICAL;
    }
  }

  lemma WithoutHas(faults: seq<Record>, i: nat, key: string)
    requires i < |faults| && DistinctKeys(faults)
    ensures Has(Without(faults, i), key) <==> Has(faults, key) && key != faults[i].key
  {
    var rest := Without(faults, i);
    var j, m := Find(faults, key), Find(rest, key);
    if j < |faults| && j != i {
      assert rest[if j < i then j else j - 1] == faults[j];
      HasIff(rest, if j < i then j else j - 1);
    }
    if m < |rest| {
      assert faults[if m < i then m else m + 1] == rest[m];
      HasIff(faults, if m < i then m else m + 1);
    }
  }

  lemma ClearKeeps(a: Authority, key: string)
    requires Inv(a)
    ensures Inv(Cleared(a, key))
  {
    hide DistinctKeys, HasCritical, OnlyWarnings, Bounded, Without;
    var i := Find(a.faults, key);
    if i < |a.faults| {
      WithoutKeeps(a.faults, i);
      EmptyHasNone();
    }
  }

  lemma ClearRemoves(a: Authority, key: string)
    requires Inv(a)
    ensures forall k :: Has(Cleared(a, key).faults, k) <==> Has(a.faults, k) && k != key
  {
    hide DistinctKeys, HasCritical, OnlyWarnings, Bounded, Has, Without;
    var i := Find(a.faults, key);
    if i < |a.faults| {
      forall k
        ensures Has(Without(a.faults, i), k) <==> Has(a.faults, k) && k != key
      {
        WithoutHas(a.faults, i, k);
      }
    } else {
      NotThere(a.faults, key);
    }
  }

  /** Arming acts on a manager in INIT without faults, and on no other: it never arms over a fault, not even over a
      warning. */
  lemma ArmKeeps(a: Authority)
    requires Inv(a)
    ensures Inv(Armed(a)) && Armed(a).faults == a.faults
    ensures Armed(a).state == ARMED <==> a.state == ARMED || (a.state == INIT && |a.faults| == 0)
    ensures a.state != INIT || |a.faults| > 0 ==> Armed(a).state == a.state
  {
    EmptyHasNone();
  }

  // ---------------------------------------------------------------- armed without `arm`

  datatype Op =
    | DoLatch(key: string, severity: Severity, detail: string, now: real)
    | DoClear(key: string)

  function Done(a: Authority, op: Op): Authority
  {
    match op
    case DoLatch(key, severity, detail, now) => Latched(a, key, severity, detail, now)
    case DoClear(key) => Cleared(a, key)
  }

  /** A manager that has latched and cleared but was never armed. */
  function Unarmed(ops: seq<Op>): Authority
  {
    if |ops| == 0 then Authority([], INIT) else Done(Unarmed(ops[..|ops| - 1]), ops[|ops| - 1])
  }

  /** The operation halts: it latches a critical fault, or a new one into a full table. */
  predicate Halts(a: Authority, op: Op)
  {
    op.DoLatch? && (op.severity == CRITICAL || Overflows(a.faults, op.key))
  }

  /** The operation clears the last fault of a manager that has left INIT. */
  predicate Empties(a: Authority, op: Op)
  {
    op.DoClear? && |a.faults| == 1 && a.faults[0].key == op.key && a.state != INIT
  }

  predicate HaltsAt(ops: seq<Op>, k: nat)
    requires k < |ops|
  {
    Halts(Unarmed(ops[..k]), ops[k])
  }

  predicate EmptiesAt(ops: seq<Op>, k: nat)
    requires k < |ops|
  {
    Empties(Unarmed(ops[..k]), ops[k])
  }

  /** The operation latches more than a warning, or overflows the table. */
  predicate BlocksAt(ops: seq<Op>, k: nat)
    requires k < |ops|
  {
    HaltsAt(ops, k) || (ops[k].DoLatch? && ops[k].severity == FAULT)
  }

  predicate QuietAfter(ops: seq<Op>, k: nat)
  {
    forall j :: k < j < |ops| ==> !BlocksAt(ops, j)
  }

  lemma Earlier(ops: seq<Op>, k: nat)
    requires k < |ops| - 1
    ensures HaltsAt(ops, k) == HaltsAt(ops[..|ops| - 1], k) && EmptiesAt(ops, k) == EmptiesAt(ops[..|ops| - 1], k)
    ensures BlocksAt(ops, k) == BlocksAt(ops[..|ops| - 1], k)
  {
    assert ops[..|ops| - 1][..k] == ops[..k];
  }

  lemma EarlierQuiet(ops: seq<Op>, k: nat)
    requires k < |ops| - 1
    ensures QuietAfter(ops, k) <==> QuietAfter(ops[..|ops| - 1], k) && !BlocksAt(ops, |ops| - 1)
  {
    hide BlocksAt;
    var m := |ops| - 1;
    forall j | k < j < m ensures BlocksAt(ops, j) == BlocksAt(ops[..m], j) { Earlier(ops, j); }
  }

  lemma {:induction false} LeftInitExact(ops: seq<Op>)
    ensures Unarmed(ops).state != INIT <==> exists k :: 0 <= k < |ops| && HaltsAt(ops, k)
  {
    if |ops| > 0 {
      hide HaltsAt, EmptiesAt, BlocksAt;
      var m := |ops| - 1;
      LeftInitExact(ops[..m]);
      forall k | 0 <= k < m ensures HaltsAt(ops, k) == HaltsAt(ops[..m], k) { Earlier(ops, k); }
      UnarmedStep(ops);
    }
  }

  lemma UnarmedStep(ops: seq<Op>)
    requires |ops| > 0
    ensures var m := |ops| - 1;
            var before, after := Unarmed(ops[..m]).state, Unarmed(ops).state;
            && (after != INIT <==> before != INIT || HaltsAt(ops, m))
            && (after == ARMED <==> EmptiesAt(ops, m) || (before == ARMED && !BlocksAt(ops, m)))
  {
    hide Done, Halts, Empties;
    DoneState(Unarmed(ops[..|ops| - 1]), ops[|ops| - 1]);
  }

  /** What one operation makes of the state. */
  lemma DoneState(a: Authority, op: Op)
    ensures var after := Done(a, op).state;
            && (after != INIT <==> a.state != INIT || Halts(a, op))
            && (after == ARMED <==> Empties(a, op) ||
                                    (a.state == ARMED && !Halts(a, op) && !(op.DoLatch? && op.severity == FAULT)))
  {
    hide Entered, HasCritical, Has, OverflowDetail, Without, Overflows;
    if op.DoClear? {
      var i := Find(a.faults, op.key);
      if i < |a.faults| { RestLength(a.faults, i); }
    }
  }

  lemma RestLength(faults: seq<Record>, i: nat)
    requires i < |faults|
    ensures Without(faults, i) == [] <==> |faults| == 1
  {
    assert |Without(faults, i)| == |faults| - 1;
  }

  /** A clear arms a manager nobody armed exactly when some fault had halted it and the clear removes the last
      fault. */
  lemma ClearArmsTheUnarmed(ops: seq<Op>, key: string)
    ensures var faults, after := Unarmed(ops).faults, Unarmed(ops + [DoClear(key)]);
            Unarmed(ops).state != ARMED ==>
              (after.state == ARMED <==>
               (exists k :: 0 <= k < |ops| && HaltsAt(ops, k)) && |faults| == 1 && faults[0].key == key)
  {
    hide HaltsAt, BlocksAt, Unarmed;
    var all := ops + [DoClear(key)];
    assert all[..|ops|] == ops;
    LeftInitExact(ops);
    UnarmedStep(all);
  }

  /** Which managers arm themselves. Over every run of latches and clears without a single `arm`, the manager
      ends armed exactly when, after a fault had halted it, a clear emptied the table and nothing but warnings
      was latched since: the start-up validation that `arm` waits for is not asked about again. */
  lemma {:induction false} ArmsUnaskedExact(ops: seq<Op>)
    ensures Unarmed(ops).state == ARMED <==> exists k :: 0 <= k < |ops| && EmptiesAt(ops, k) && QuietAfter(ops, k)
  {
    if |ops| > 0 {
      hide HaltsAt, EmptiesAt, BlocksAt, QuietAfter, Unarmed;
      var m := |ops| - 1;
      ArmsUnaskedExact(ops[..m]);
      UnarmedStep(ops);
      NothingAfterLast(ops);
      forall k | 0 <= k < m
        ensures EmptiesAt(ops, k) && QuietAfter(ops, k)
                <==> EmptiesAt(ops[..m], k) && QuietAfter(ops[..m], k) && !BlocksAt(ops, m)
      {
        Earlier(ops, k);
        EarlierQuiet(ops, k);
      }
    }
  }

  lemma NothingAfterLast(ops: seq<Op>)
    requires |ops| > 0
    ensures QuietAfter(ops, |ops| - 1)
  {
  }

  lemma NotThere(faults: seq<Record>, key: string)
    requires Find(faults, key) == |faults|
    ensures !Has(faults, key)
  {
  }

  lemma EmptyHasNone()
    ensures !HasCritical([]) && OnlyWarnings([])
  {
  }

  // ---------------------------------------------------------------- the records

  function Held(faults: seq<Record>, key: string): Option<Record>
  {
    if Has(faults, key) then Some(faults[Find(faults, key)]) else None
  }

  /** One more latch of a fault: a new record, or the old one with its time, one more count, the later detail and
      the worse severity. */
  function Again(before: Option<Record>, latch: Record): Record
  {
    match before
    case None => latch
    case Some(r) =>
      var severity := if r.severity == CRITICAL || latch.severity == CRITICAL then CRITICAL
                      else if r.severity == FAULT || latch.severity == FAULT then FAULT else WARNING;
      Record(latch.key, severity, latch.detail, r.ts, r.count + 1)
  }

  /** The record of a key, told from the latches and clears. A latch of a key without a record lands on the overflow's
      when the table is full. */
  function Told(ops: seq<Op>, key: string): Option<Record>
  {
    if |ops| == 0 then None
    else
      var init, op := ops[..|ops| - 1], ops[|ops| - 1];
      var before := Told(init, key);
      match op
      case DoClear(k) => if k == key then None else before
      case DoLatch(k, severity, detail, now) =>
        if |Unarmed(init).faults| >= 128 && Told(init, k).None? then
          if key == "fault_table_overflow" then Some(Again(before, Record(key, CRITICAL, OverflowDetail(k), now, 1)))
          else before
        else if k == key then Some(Again(before, Record(key, severity, detail, now, 1)))
        else before
  }

  /** After every run of latches and clears each record is the one the run tells: it is there exactly since a latch that
      no clear has followed, counts the latches since then, and keeps their first time, their last detail and
      their worst severity. */
  lemma {:induction false} RecordsTold(ops: seq<Op>, key: string)
    ensures Held(Unarmed(ops).faults, key) == Told(ops, key)
    ensures Inv(Unarmed(ops))
  {
    hide Inv, Entered, Without, Overflows, Held, Again, OverflowDetail;
    if |ops| == 0 {
      EmptyTable(key);
    } else {
      var a, op := Unarmed(ops[..|ops| - 1]), ops[|ops| - 1];
      RecordsTold(ops[..|ops| - 1], key);
      RecordsTold(ops[..|ops| - 1], op.key);
      if op.DoLatch? {
        LatchKeeps(a, op.key, op.severity, op.detail, op.now);
        OverflowsExact(a.faults, op.key);
        EnteredHeld(a.faults, OVERFLOW, CRITICAL, OverflowDetail(op.key), op.now, key);
        EnteredHeld(a.faults, op.key, op.severity, op.detail, op.now, key);
      } else {
        ClearKeeps(a, op.key);
        ClearedHeld(a, op.key, key);
      }
    }
  }

  lemma EmptyTable(key: string)
    ensures Inv(Authority([], INIT)) && Held([], key).None?
  {
    EmptyHasNone();
  }

  lemma OverflowsExact(faults: seq<Record>, key: string)
    ensures Overflows(faults, key) <==> |faults| >= 128 && Held(faults, key).None?
  {
  }

  lemma EnteredHeld(faults: seq<Record>, key: string, severity: Severity, detail: string, now: real, k: string)
    ensures Held(Entered(faults, key, severity, detail, now), k)
         == if k == key then Some(Again(Held(faults, key), Record(key, severity, detail, now, 1))) else Held(faults, k)
  {
    var after, i := Entered(faults, key, severity, detail, now), Find(faults, key);
    FindFirst(after, key, if i < |faults| then i else |faults|);
    if k != key {
      var j := Find(faults, k);
      if j < |faults| { FindFirst(after, k, j); }
    }
  }

  lemma FindFirst(faults: seq<Record>, key: string, i: nat)
    requires i < |faults| && faults[i].key == key && forall j :: 0 <= j < i ==> faults[j].key != key
    ensures Find(faults, key) == i
  {
  }

  lemma ClearedHeld(a: Authority, key: string, k: string)
    requires Inv(a)
    ensures Held(Cleared(a, key).faults, k) == if k == key then None else Held(a.faults, k)
  {
    hide HasCritical, OnlyWarnings, Bounded;
    var i := Find(a.faults, key);
    if i < |a.faults| {
      WithoutHas(a.faults, i, k);
      if k != key && Has(a.faults, k) {
        var rest, j := Without(a.faults, i), Find(a.faults, k);
        assert rest[if j < i then j else j - 1] == a.faults[j];
        WithoutKeeps(a.faults, i);
        HasIff(rest, if j < i then j else j - 1);
      }
    }
  }

  // ---------------------------------------------------------------- restarts

  /** Whatever a snapshot holds, restoring it keeps the invariant. */
  lemma {:induction false} RestoreKeeps(a: Authority, saved: seq<Saved>, now: real)
    requires Inv(a)
    ensures Inv(Restored(a, saved, now))
  {
    if |saved| > 0 {
      RestoreKeeps(a, saved[..|saved| - 1], now);
      RestoreOneKeeps(Restored(a, saved[..|saved| - 1], now), saved[|saved| - 1], now);
    }
  }

  lemma RestoreOneKeeps(a: Authority, entry: Saved, now: real)
    requires Inv(a)
    ensures Inv(RestoredOne(a, entry, now))
  {
    hide Latched;
    if entry.key !in RECOVERABLE && entry.severity.Some? {
      LatchKeeps(a, entry.key, entry.severity.value, entry.detail, now);
      var b := Latched(a, entry.key, entry.severity.value, entry.detail, now);
      var i := Find(b.faults, entry.key);
      if i < |b.faults| {
        AdjustKeeps(b, i, Adjusted(b.faults[i], entry));
      }
    }
  }

  lemma AdjustKeeps(a: Authority, i: nat, r: Record)
    requires Inv(a) && i < |a.faults| && r.count >= 1
    requires r.key == a.faults[i].key && r.severity == a.faults[i].severity
    ensures Inv(a.(faults := a.faults[i := r]))
  {
    var after := a.faults[i := r];
    assert forall j :: 0 <= j < |after| ==>
           after[j].severity == a.faults[j].severity && after[j].key == a.faults[j].key;
    if HasCritical(a.faults) {
      var j :| 0 <= j < |a.faults| && a.faults[j].severity == CRITICAL;
      assert after[j].severity == CRITICAL;
    }
    if HasCritical(after) {
      var j :| 0 <= j < |after| && after[j].severity == CRITICAL;
      assert a.faults[j].severity == CRITICAL;
    }
  }

  /** What a restart brings back of a table: every record whose key is not recoverable, in order, with its
      severity and count. A record that finds the rebuilt table full gets the overflow's wording. */
  function Surviving(faults: seq<Record>, now: real): (r: seq<Record>)
    ensures |r| <= |faults|
  {
    if |faults| == 0 then []
    else
      var before, last := Surviving(faults[..|faults| - 1], now), faults[|faults| - 1];
      if last.key in RECOVERABLE then before
      else before + [last.(ts := if last.ts == 0.0 then now else last.ts,
                           detail := if |before| >= MAX_FAULTS then OverflowDetail(last.key) else last.detail)]
  }

  function StateOver(faults: seq<Record>): OpState
  {
    if HasCritical(faults) then HALTED else if OnlyWarnings(faults) then ARMED else DEGRADED
  }

  const BOOTED: Authority := Armed(Authority([], INIT))

  /** A restart from the saved table, for every table the manager can reach, the full one included: nothing
      but the recoverable faults is lost, and the state is the one those faults demand. */
  lemma RestartKeepsFaults(a: Authority, now: real)
    requires Inv(a)
    ensures var b := Restored(BOOTED, Saving(a.faults), now);
            b.faults == Surviving(a.faults, now) && b.state == StateOver(b.faults)
  {
    RestorePrefix(a, |a.faults|, now);
    assert Saving(a.faults)[..|a.faults|] == Saving(a.faults) && a.faults[..|a.faults|] == a.faults;
  }

  predicate SameFault(r: Record, s: Record)
  {
    r.key == s.key && r.severity == s.severity && r.count == s.count
  }

  lemma {:induction false} SurvivorFrom(faults: seq<Record>, j: nat, now: real) returns (i: nat)
    requires j < |Surviving(faults, now)|
    ensures i < |faults| && faults[i].key !in RECOVERABLE && SameFault(faults[i], Surviving(faults, now)[j])
  {
    var n := |faults| - 1;
    if j < |Surviving(faults[..n], now)| {
      i := SurvivorFrom(faults[..n], j, now);
    } else {
      i := n;
    }
  }

  lemma {:induction false} SurvivorOf(faults: seq<Record>, i: nat, now: real) returns (j: nat)
    requires i < |faults| && faults[i].key !in RECOVERABLE
    ensures j < |Surviving(faults, now)| && SameFault(faults[i], Surviving(faults, now)[j])
  {
    var n := |faults| - 1;
    if i < n {
      j := SurvivorOf(faults[..n], i, now);
    } else {
      j := |Surviving(faults[..n], now)|;
    }
  }

  lemma {:induction false} RestorePrefix(a: Authority, n: nat, now: real)
    requires Inv(a) && n <= |a.faults|
    ensures var b := Restored(BOOTED, Saving(a.faults)[..n], now);
            b.faults == Surviving(a.faults[..n], now) && b.state == StateOver(b.faults)
  {
    if n == 0 {
      assert !HasCritical([]) by { EmptyHasNone(); }
    } else {
      RestorePrefix(a, n - 1, now);
      var saved, faults := Saving(a.faults)[..n], a.faults[..n];
      assert saved[..n - 1] == Saving(a.faults)[..n - 1] && faults[..n - 1] == a.faults[..n - 1];
      var b := Restored(BOOTED, saved[..n - 1], now);
      RestoreNext(a, n - 1, b, now);
      assert saved[n - 1] == Saving(a.faults)[n - 1];
    }
  }

  lemma RestoreNext(a: Authority, n: nat, b: Authority, now: real)
    requires Inv(a) && n < |a.faults|
    requires b.faults == Surviving(a.faults[..n], now) && b.state == StateOver(b.faults)
    ensures var c := RestoredOne(b, Saving(a.faults)[n], now);
            c.faults == Surviving(a.faults[..n + 1], now) && c.state == StateOver(c.faults)
  {
    hide HasCritical, OnlyWarnings, Surviving, Bounded, DistinctKeys;
    var r := a.faults[n];
    SurvivingStep(a.faults, n, now);
    if r.key !in RECOVERABLE {
      NotYetThere(a.faults, n, now);
      FullMeansOverflow(a, n, now);
      StateStep(b.faults, Surviving(a.faults[..n + 1], now));
    }
  }

  lemma SurvivingStep(faults: seq<Record>, n: nat, now: real)
    requires n < |faults|
    ensures var before, last := Surviving(faults[..n], now), faults[n];
            Surviving(faults[..n + 1], now) ==
            if last.key in RECOVERABLE then before
            else before + [last.(ts := if last.ts == 0.0 then now else last.ts,
                                 detail := if |before| >= MAX_FAULTS then OverflowDetail(last.key) else last.detail)]
  {
    assert faults[..n + 1][..n] == faults[..n];
  }

  lemma NotYetThere(faults: seq<Record>, n: nat, now: real)
    requires n < |faults| && DistinctKeys(faults)
    ensures Find(Surviving(faults[..n], now), faults[n].key) == |Surviving(faults[..n], now)|
  {
    hide Surviving;
    var before := Surviving(faults[..n], now);
    if Find(before, faults[n].key) < |before| {
      var j := SurvivorFrom(faults[..n], Find(before, faults[n].key), now);
    }
  }

  lemma FullMeansOverflow(a: Authority, n: nat, now: real)
    requires Inv(a) && n < |a.faults|
    ensures |Surviving(a.faults[..n], now)| >= MAX_FAULTS ==>
            a.faults[n].key == OVERFLOW && a.faults[n].severity == CRITICAL
    ensures |Surviving(a.faults[..n], now)| <= MAX_FAULTS
  {
  }

  lemma StateStep(before: seq<Record>, after: seq<Record>)
    requires |after| == |before| + 1 && after[..|before|] == before
    ensures StateOver(after) == LatchedState(StateOver(before), after[|before|].severity)
  {
    assert forall i :: 0 <= i < |before| ==> after[i] == after[..|before|][i] == before[i];
    if HasCritical(before) {
      var i :| 0 <= i < |before| && before[i].severity == CRITICAL;
      assert after[i].severity == CRITICAL;
    }
    if OnlyWarnings(after) {
      assert forall i :: 0 <= i < |before| ==> after[i].severity == WARNING;
    }
  }

  /** New risk is allowed again after a restart exactly when every fault that is not recoverable was a
      warning. */
  lemma RestartAllowsRiskExact(a: Authority, now: real)
    requires Inv(a)
    ensures Restored(BOOTED, Saving(a.faults), now).state == ARMED
            <==> forall i :: 0 <= i < |a.faults| && a.faults[i].key !in RECOVERABLE ==> a.faults[i].severity == WARNING
  {
    hide Restored, Saving, Surviving, Inv;
    RestartKeepsFaults(a, now);
    var kept := Surviving(a.faults, now);
    if OnlyWarnings(kept) {
      forall i | 0 <= i < |a.faults| && a.faults[i].key !in RECOVERABLE
        ensures a.faults[i].severity == WARNING
      {
        var j := SurvivorOf(a.faults, i, now);
      }
    } else {
      var j :| 0 <= j < |kept| && kept[j].severity != WARNING;
      var i := SurvivorFrom(a.faults, j, now);
    }
    assert HasCritical(kept) ==> !OnlyWarnings(kept);
  }
}
