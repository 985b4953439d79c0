/** Runs of the audit trail: processes start, log, fail part-way through a write, and die, in any
    order and with any number of writers on one file. */
module AuditRuns {
  import opened Prelude
  import opened AuditFile
  import opened AuditWriter

  /** The file and the writers that are alive. */
  datatype World = World(disk: Disk, writers: map<nat, Writer>)

  datatype Step =
    | Start(id: nat, adopt: AdoptFate)
    | Log(id: nat, payload: string, adopt: AdoptFate, write: WriteFate)
    | DieLogging(id: nat, payload: string, adopt: AdoptFate, bytes: Bytes)
    | Die(id: nat)

  const NOTHING: World := World(Absent, map[])

  function Next(hash: Hasher, s: World, step: Step): World
  {
    match step
    case Start(id, adopt) =>
      var (w, d) := Adopt(FRESH, s.disk, adopt);
      World(d, s.writers[id := w])
    case Log(id, payload, adopt, write) =>
      if id !in s.writers then s
      else
        var (w, d, _) := LogStep(hash, s.writers[id], s.disk, payload, adopt, write);
        World(d, s.writers[id := w])
    case DieLogging(id, payload, adopt, bytes) =>
      if id !in s.writers then s
      else
        var (_, d, _) := LogStep(hash, s.writers[id], s.disk, payload, adopt, Raises(bytes));
        World(d, s.writers - {id})
    case Die(id) => World(s.disk, s.writers - {id})
  }

  function Run(hash: Hasher, steps: seq<Step>): World
  {
    if |steps| == 0 then NOTHING
    else Next(hash, Run(hash, steps[..|steps| - 1]), steps[|steps| - 1])
  }

  // ---------------------------------------------------------------- one writer

  /** One process at a time (a restart replaces the writer), whose tail reads succeed. */
  predicate SingleWriter(step: Step)
  {
    step.id == 0 && (step.Die? || step.adopt.AdoptOk?)
  }

  /** One chain: own hashes right, sequence numbers 1, 2, 3, ..., each record naming the one above. */
  predicate Chain(hash: Hasher, lines: seq<Line>)
  {
    |lines| == 0 ||
    var init, last := lines[..|lines| - 1], lines[|lines| - 1];
    && Chain(hash, init)
    && HashOk(hash, last) && last.rec.body.seqNo == Some(|lines|) && ChainedTo(init, last)
  }

  /** The records on disk, the unterminated one included. */
  function Records(d: Disk): seq<Line>
  {
    if d.Absent? then []
    else if d.tail.Some? && d.tail.value.Rec? then d.lines + [d.tail.value]
    else d.lines
  }

  /** The unterminated line, if there is one, is a whole record or a torn one. */
  predicate TornOrWhole(d: Disk)
  {
    d.Present? && d.tail.Some? ==> d.tail.value.Rec? || d.tail.value.Junk?
  }

  predicate CleanDisk(hash: Hasher, d: Disk)
  {
    Chain(hash, Records(d)) && TornOrWhole(d)
  }

  predicate CleanWriter(d: Disk, w: Writer)
  {
    var records := Records(d);
    && 0 <= w.seqNo <= |records|
    && w.anomalies == 0
    && (|records| == 0 ==> w.prev == GENESIS)
    && (w.synced ==> (d.Present? ==> d.tail.None?) && w.seqNo == |records| && w.prev == Tip(records))
  }

  predicate Clean(hash: Hasher, s: World)
  {
    CleanDisk(hash, s.disk) && forall id :: id in s.writers ==> id == 0 && CleanWriter(s.disk, s.writers[id])
  }

  lemma {:induction false} ChainIsSound(hash: Hasher, lines: seq<Line>)
    requires Chain(hash, lines)
    ensures Sound(hash, lines) && Forks(lines) == 0
    ensures forall i :: 0 <= i < |lines| ==> lines[i].Rec? && lines[i].rec.body.seqNo == Some(i + 1)
  {
    if |lines| > 0 {
      ChainIsSound(hash, lines[..|lines| - 1]);
      TipIsDigest(lines[..|lines| - 1]);
    }
  }

  lemma {:induction false} EntriesOfNoBlanks(lines: seq<Line>)
    requires forall i :: 0 <= i < |lines| ==> !lines[i].Blank?
    ensures |Entries(lines)| == |lines| && forall i :: 0 <= i < |lines| ==> Entries(lines)[i] == (i, lines[i])
  {
    if |lines| > 0 {
      EntriesOfNoBlanks(lines[..|lines| - 1]);
    }
  }

  /** On a file of records with at most a torn last line, healing cuts exactly the torn line and the
      window holds the last records. */
  lemma HealTorn(d: Disk)
    requires d.Present? && (forall i :: 0 <= i < |d.lines| ==> d.lines[i].Rec?)
    requires d.tail == Some(Junk)
    ensures TornLast(Window(d)) && Healed(d) == Present(d.lines, None)
    ensures var kept := Kept(Window(d));
            && |kept| <= |d.lines| && (|d.lines| > 0 ==> |kept| > 0)
            && (forall i :: 0 <= i < |kept| ==> kept[i].1 == d.lines[|d.lines| - |kept| + i])
  {
    EntriesOfNoBlanks(LinesOf(d));
    assert Window(d)[|Window(d)| - 1] == (|d.lines|, Junk);
    assert d.lines[..|d.lines|] == d.lines;
  }

  lemma HealWhole(d: Disk)
    requires d.Present? && (forall i :: 0 <= i < |LinesOf(d)| ==> LinesOf(d)[i].Rec?)
    ensures !TornLast(Window(d)) && Healed(d) == d
    ensures var kept, lines := Kept(Window(d)), LinesOf(d);
            && |kept| <= |lines| && (|lines| > 0 ==> |kept| > 0)
            && (forall i :: 0 <= i < |kept| ==> kept[i].1 == lines[|lines| - |kept| + i])
  {
    EntriesOfNoBlanks(LinesOf(d));
    if |Window(d)| > 0 {
      assert Window(d)[|Window(d)| - 1].1 == LinesOf(d)[|LinesOf(d)| - 1];
    }
  }

  /** Both cases at once: healing loses no record. */
  lemma HealKeepsRecords(d: Disk)
    requires d.Present? && (forall i :: 0 <= i < |d.lines| ==> d.lines[i].Rec?)
    requires d.tail.Some? ==> d.tail.value.Rec? || d.tail.value.Junk?
    ensures Records(Healed(d)) == Records(d) && Healed(d).Present?
    ensures Healed(d).tail.Some? ==> Healed(d).tail.value.Rec?
    ensures EndsWith(Kept(Window(d)), Records(d))
  {
    hide Window, Healed, Kept, TornLast;
    if d.tail == Some(Junk) { HealTorn(d); } else { HealWhole(d); }
  }

  /** Adoption never touches the records of a healed file. */
  lemma ResumeKeepsRecords(w: Writer, d: Disk, kept: seq<(nat, Line)>, fate: AdoptFate)
    requires d.Present? && (d.tail.Some? ==> d.tail.value.Rec?)
    ensures var d1 := AdoptFrom(w, d, kept, fate).1;
            d1.Present? && Records(d1) == Records(d) && (d1 == d || d1.tail.None?)
  {
  }

  lemma ResumeFromLast(w: Writer, d: Disk, kept: seq<(nat, Line)>, fate: AdoptFate)
    requires |kept| > 0 && kept[|kept| - 1].1.Rec? && kept[|kept| - 1].1.rec.body.seqNo.Some?
    ensures var rec := kept[|kept| - 1].1.rec;
            AdoptFrom(w, d, kept, fate) ==
              (w.(seqNo := MaxInt(w.seqNo, rec.body.seqNo.value), prev := ShownHash(rec.h)),
               if fate.RepairFails? then d else Terminate(d))
  {
    var rec := kept[|kept| - 1].1.rec;
    assert FindGood(kept) == (Some((rec, rec.body.seqNo.value)), 0);
  }

  /** The window ends with the last record, when there is one. */
  predicate EndsWith(kept: seq<(nat, Line)>, records: seq<Line>)
  {
    && |kept| <= |records| && (|records| > 0 ==> |kept| > 0)
    && (forall i {:trigger kept[i]} :: 0 <= i < |kept| ==> kept[i].1 == records[|records| - |kept| + i])
  }

  lemma ResumeClean(hash: Hasher, w: Writer, d: Disk, kept: seq<(nat, Line)>)
    requires d.Present? && (d.tail.Some? ==> d.tail.value.Rec?)
    requires CleanDisk(hash, d) && CleanWriter(d, w) && EndsWith(kept, Records(d))
    ensures var (w1, d1) := AdoptFrom(w, d, kept, AdoptOk);
            && Records(d1) == Records(d) && d1.Present? && d1.tail.None?
            && CleanWriter(d1, w1.(synced := true)) && w1.synced == w.synced
  {
    var records := Records(d);
    ResumeKeepsRecords(w, d, kept, AdoptOk);
    if |records| > 0 {
      ResumeFromLast(w, d, kept, AdoptOk);
    }
  }

  /** Adoption on a file one writer left behind: the torn tail goes, no record does, and the writer
      continues from the last record. */
  lemma AdoptClean(hash: Hasher, w: Writer, d: Disk)
    requires CleanDisk(hash, d) && CleanWriter(d, w) && !w.synced
    ensures var (w1, d1) := Adopt(w, d, AdoptOk);
            && CleanDisk(hash, d1) && Records(d1) == Records(d)
            && (d1.Absent? <==> d.Absent?) && (d1.Present? ==> d1.tail.None?)
            && CleanWriter(d1, w1.(synced := true)) && !w1.synced
  {
    hide Entries, Sound, Chain;
    if d.Present? {
      RecordsAreRec(hash, d);
      HealKeepsRecords(d);
      var w1 := if TornLast(Window(d)) then w.(truncations := w.truncations + 1) else w;
      ResumeClean(hash, w1, Healed(d), Kept(Window(d)));
    }
  }

  lemma RecordsAreRec(hash: Hasher, d: Disk)
    requires d.Present? && (Sound(hash, Records(d)) || CleanDisk(hash, d))
    ensures forall i :: 0 <= i < |d.lines| ==> d.lines[i].Rec?
  {
    var records := Records(d);
    if CleanDisk(hash, d) { ChainIsSound(hash, records); }
    forall i | 0 <= i < |d.lines| ensures d.lines[i].Rec? {
      SoundAt(hash, records, i);
      assert records[i] == d.lines[i];
    }
  }

  /** What any number of bytes of a record does to a terminated file. */
  lemma AppendRecords(d: Disk, bytes: Bytes, rec: Record)
    requires TornOrWhole(d) && (Terminated(d) || bytes.Untouched? || bytes.Opened?)
    ensures var d1 := Append(d, bytes, rec);
            && TornOrWhole(d1)
            && Records(d1) == Records(d) + (if bytes.NoNewline? || bytes.WholeLine? then [Rec(rec)] else [])
            && (bytes.WholeLine? ==> d1.Present? && d1.tail.None?)
  {
  }

  lemma ChainAppend(hash: Hasher, records: seq<Line>, w: Writer, payload: string)
    requires Chain(hash, records) && w.seqNo == |records| && w.prev == Tip(records)
    ensures Chain(hash, records + [Rec(NextRecord(hash, w, payload))])
  {
    assert (records + [Rec(NextRecord(hash, w, payload))])[..|records|] == records;
  }

  lemma AppendClean(hash: Hasher, w: Writer, d: Disk, payload: string, bytes: Bytes)
    requires CleanDisk(hash, d) && CleanWriter(d, w) && w.synced
    ensures var rec := NextRecord(hash, w, payload);
            var d1 := Append(d, bytes, rec);
            && CleanDisk(hash, d1)
            && Records(d1) == Records(d) + (if bytes.NoNewline? || bytes.WholeLine? then [Rec(rec)] else [])
  {
    AppendRecords(d, bytes, NextRecord(hash, w, payload));
    ChainAppend(hash, Records(d), w, payload);
    assert Records(d) + [] == Records(d);
  }

  lemma LogClean(hash: Hasher, w: Writer, d: Disk, payload: string, write: WriteFate)
    requires CleanDisk(hash, d) && CleanWriter(d, w)
    ensures var (w1, d1, result) := LogStep(hash, w, d, payload, AdoptOk, write);
            && CleanDisk(hash, d1) && CleanWriter(d1, w1)
            && Records(d) <= Records(d1)
            && (write.Committed? ==>
                  && d1.Present? && d1.tail.None? && |d1.lines| == |Records(d)| + 1 == result
                  && d1.lines[|Records(d)|].rec.body.payload == payload)
  {
    hide Entries, Chain, Sound;
    if !w.synced { AdoptClean(hash, w, d); }
    var (w1, d1) := Synced(w, d, AdoptOk);
    AppendClean(hash, w1, d1, payload, if write.Committed? then WholeLine else write.bytes);
  }

  lemma StepClean(hash: Hasher, s: World, step: Step)
    requires Clean(hash, s) && SingleWriter(step)
    ensures Clean(hash, Next(hash, s, step))
    ensures Records(s.disk) <= Records(Next(hash, s, step).disk)
  {
    match step
    case Start(_, _) => AdoptClean(hash, FRESH, s.disk);
    case Log(id, payload, _, write) =>
      if id in s.writers { LogClean(hash, s.writers[id], s.disk, payload, write); }
    case DieLogging(id, payload, _, bytes) =>
      if id in s.writers { LogClean(hash, s.writers[id], s.disk, payload, Raises(bytes)); }
    case Die(_) =>
  }

  lemma {:induction false} RunClean(hash: Hasher, steps: seq<Step>)
    requires forall i :: 0 <= i < |steps| ==> SingleWriter(steps[i])
    ensures Clean(hash, Run(hash, steps))
  {
    if |steps| > 0 {
      RunClean(hash, steps[..|steps| - 1]);
      StepClean(hash, Run(hash, steps[..|steps| - 1]), steps[|steps| - 1]);
    }
  }

  lemma VerdictOfShared(hash: Hasher, d: Disk)
    requires SharedDisk(hash, d) && d.Present?
    ensures var v := Verify(hash, d);
            && !v.tamper && v.seams == Forks(Records(d)) && v.records == |Records(d)|
            && (v.tornTail <==> d.tail == Some(Junk))
            && (v.ok <==> d.tail != Some(Junk) && Forks(Records(d)) == 0)
  {
    var lines, records := LinesOf(d), Records(d);
    RecordsAreRec(hash, d);
    ContentOfNoBlanks(lines);
    TamperExact(hash, d);
    if d.tail == Some(Junk) {
      assert lines[..|lines| - 1] == records;
      assert lines == records + [Junk];
      SoundAppend(hash, records, Junk);
    } else {
      assert lines == records;
    }
  }

  lemma VerdictOfClean(hash: Hasher, d: Disk)
    requires CleanDisk(hash, d) && d.Present?
    ensures var v := Verify(hash, d);
            && !v.tamper && v.seams == 0 && v.records == |Records(d)|
            && (v.tornTail <==> d.tail == Some(Junk))
            && (v.ok <==> d.tail != Some(Junk))
  {
    ChainIsSound(hash, Records(d));
    VerdictOfShared(hash, d);
  }

  /** Crash safety. In every run of one writer, whatever writes fail after however many bytes and
      wherever the process dies and restarts, the verifier reports tampering exactly while the file
      does not exist yet, and never a seam. */
  lemma CrashesNeverLookLikeTampering(hash: Hasher, steps: seq<Step>)
    requires forall i :: 0 <= i < |steps| ==> SingleWriter(steps[i])
    ensures var v := Verify(hash, Run(hash, steps).disk);
            && (v.tamper <==> Run(hash, steps).disk.Absent?)
            && v.seams == 0
  {
    RunClean(hash, steps);
    var d := Run(hash, steps).disk;
    if d.Present? { VerdictOfClean(hash, d); }
  }

  /** After the next successful log the file is one clean chain of complete lines: every record that
      was on disk, then the new one, sequence numbers 1, 2, 3, ... with none reused, and the value
      `log` returns is the last of them. */
  lemma NextLogHeals(hash: Hasher, steps: seq<Step>, payload: string)
    requires forall i :: 0 <= i < |steps| ==> SingleWriter(steps[i])
    requires 0 in Run(hash, steps).writers
    ensures var before := Run(hash, steps);
            var (_, d, result) := LogStep(hash, before.writers[0], before.disk, payload, AdoptOk, Committed);
            && Verify(hash, d).ok && Verify(hash, d).records == result
            && d.tail.None? && |d.lines| == result >= 1 && d.lines[..result - 1] == Records(before.disk)
            && d.lines[result - 1].rec.body.payload == payload
            && (forall i :: 0 <= i < |d.lines| ==> d.lines[i].Rec? && d.lines[i].rec.body.seqNo == Some(i + 1))
  {
    RunClean(hash, steps);
    var before := Run(hash, steps);
    LogClean(hash, before.writers[0], before.disk, payload, Committed);
    var (_, d, _) := LogStep(hash, before.writers[0], before.disk, payload, AdoptOk, Committed);
    ChainIsSound(hash, d.lines);
    VerdictOfClean(hash, d);
  }

  /** A record on disk stays on disk, at its place, through the rest of the run. */
  lemma {:induction false} RecordsAreNeverLost(hash: Hasher, steps: seq<Step>, k: nat)
    requires k <= |steps|
    requires forall i :: 0 <= i < |steps| ==> SingleWriter(steps[i])
    ensures Records(Run(hash, steps[..k]).disk) <= Records(Run(hash, steps).disk)
  {
    if k < |steps| {
      var init := steps[..|steps| - 1];
      assert init[..k] == steps[..k];
      RecordsAreNeverLost(hash, init, k);
      RunClean(hash, init);
      StepClean(hash, Run(hash, init), steps[|steps| - 1]);
    } else {
      assert steps[..k] == steps;
    }
  }

  // ---------------------------------------------------------------- any number of writers

  /** The step appends no byte to a line that has no newline yet. A crashed writer leaves such a line;
      a writer that has not re-read the tail since can append to it. */
  predicate NoWeld(s: World, step: Step)
  {
    match step
    case Log(id, _, adopt, write) =>
      id in s.writers ==>
        Terminated(Synced(s.writers[id], s.disk, adopt).1) || write == Raises(Untouched) || write == Raises(Opened)
    case DieLogging(id, _, adopt, bytes) =>
      id in s.writers ==>
        Terminated(Synced(s.writers[id], s.disk, adopt).1) || bytes.Untouched? || bytes.Opened?
    case _ => true
  }

  predicate Terminated(d: Disk) { d.Present? ==> d.tail.None? }

  predicate AllNoWeld(hash: Hasher, steps: seq<Step>)
  {
    forall i :: 0 <= i < |steps| ==> NoWeld(Run(hash, steps[..i]), steps[i])
  }

  predicate SharedDisk(hash: Hasher, d: Disk)
  {
    Sound(hash, Records(d)) && TornOrWhole(d)
  }

  predicate SharedWriter(d: Disk, w: Writer)
  {
    w.prev == GENESIS || w.prev in Digests(Records(d))
  }

  predicate Shared(hash: Hasher, s: World)
  {
    SharedDisk(hash, s.disk) && forall id :: id in s.writers ==> SharedWriter(s.disk, s.writers[id])
  }

  lemma {:induction false} DigestsGrow(lines: seq<Line>, k: nat)
    requires k <= |lines|
    ensures Digests(lines[..k]) <= Digests(lines)
  {
    if k < |lines| {
      var init := lines[..|lines| - 1];
      DigestsGrow(init, k);
      assert init[..k] == lines[..k];
    } else {
      assert lines[..k] == lines;
    }
  }

  /** The adopted record is one of the window's. */
  lemma {:induction false} FoundIsInWindow(es: seq<(nat, Line)>)
    requires FindGood(es).0.Some?
    ensures exists k :: 0 <= k < |es| && es[k].1 == Rec(FindGood(es).0.value.0)
  {
    if !ParseRecord(es[|es| - 1].1).Good? {
      FoundIsInWindow(es[..|es| - 1]);
      var init := es[..|es| - 1];
      var k :| 0 <= k < |init| && init[k].1 == Rec(FindGood(init).0.value.0);
      assert es[k] == init[k];
    }
  }

  lemma AdoptShared(hash: Hasher, w: Writer, d: Disk, fate: AdoptFate)
    requires SharedDisk(hash, d) && SharedWriter(d, w)
    ensures var (w1, d1) := Adopt(w, d, fate);
            && SharedDisk(hash, d1) && Records(d1) == Records(d) && SharedWriter(d1, w1)
  {
    hide Window, Sound, Healed, Kept, AdoptFrom;
    if d.Present? && !fate.AdoptFails? {
      RecordsAreRec(hash, d);
      HealKeepsRecords(d);
      var w1 := if TornLast(Window(d)) then w.(truncations := w.truncations + 1) else w;
      ResumeShared(hash, w1, Healed(d), Kept(Window(d)), fate);
    }
  }

  lemma ResumeShared(hash: Hasher, w: Writer, d: Disk, kept: seq<(nat, Line)>, fate: AdoptFate)
    requires d.Present? && (d.tail.Some? ==> d.tail.value.Rec?)
    requires Sound(hash, Records(d)) && SharedWriter(d, w) && EndsWith(kept, Records(d))
    ensures var (w1, d1) := AdoptFrom(w, d, kept, fate);
            && Records(d1) == Records(d) && d1.Present? && (d1.tail.Some? ==> d1.tail.value.Rec?)
            && SharedWriter(d1, w1)
  {
    ResumeKeepsRecords(w, d, kept, fate);
    if FindGood(kept).0.Some? { FoundCarriesADigest(hash, Records(d), kept); }
  }

  lemma FoundCarriesADigest(hash: Hasher, records: seq<Line>, kept: seq<(nat, Line)>)
    requires Sound(hash, records) && EndsWith(kept, records)
    requires FindGood(kept).0.Some?
    ensures ShownHash(FindGood(kept).0.value.0.h) in Digests(records)
  {
    FoundIsInWindow(kept);
    var k :| 0 <= k < |kept| && kept[k].1 == Rec(FindGood(kept).0.value.0);
    var j := |records| - |kept| + k;
    SoundAt(hash, records, j);
    DigestsExact(records, records[j].rec.h.digest);
  }

  /** Every byte outcome of an append to a terminated file keeps it sound. */
  lemma AppendShared(hash: Hasher, w: Writer, d: Disk, payload: string, bytes: Bytes)
    requires SharedDisk(hash, d) && SharedWriter(d, w)
    requires Terminated(d) || bytes.Untouched? || bytes.Opened?
    ensures var rec := NextRecord(hash, w, payload);
            var d1 := Append(d, bytes, rec);
            && SharedDisk(hash, d1)
            && Records(d1) == Records(d) + (if bytes.NoNewline? || bytes.WholeLine? then [Rec(rec)] else [])
  {
    hide Sound, Digests, Append;
    AppendRecords(d, bytes, NextRecord(hash, w, payload));
    SoundAppend(hash, Records(d), Rec(NextRecord(hash, w, payload)));
    assert Records(d) + [] == Records(d);
  }

  lemma LogShared(hash: Hasher, w: Writer, d: Disk, payload: string, adopt: AdoptFate, write: WriteFate)
    requires SharedDisk(hash, d) && SharedWriter(d, w)
    requires Terminated(Synced(w, d, adopt).1) || write == Raises(Untouched) || write == Raises(Opened)
    ensures var (w1, d1, _) := LogStep(hash, w, d, payload, adopt, write);
            SharedDisk(hash, d1) && SharedWriter(d1, w1) && Records(d) <= Records(d1)
  {
    if !w.synced { AdoptShared(hash, w, d, adopt); }
    var (w1, d1) := Synced(w, d, adopt);
    var bytes := if write.Committed? then WholeLine else write.bytes;
    AppendShared(hash, w1, d1, payload, bytes);
    var rec := NextRecord(hash, w1, payload);
    var after := Records(Append(d1, bytes, rec));
    DigestsGrow(after, |Records(d1)|);
    assert after[..|Records(d1)|] == Records(d1);
    if write.Committed? { DigestsExact(after, rec.h.digest); }
  }

  lemma OthersStayShared(d: Disk, d1: Disk, writers: map<nat, Writer>)
    requires Records(d) <= Records(d1)
    requires forall id :: id in writers ==> SharedWriter(d, writers[id])
    ensures forall id :: id in writers ==> SharedWriter(d1, writers[id])
  {
    DigestsGrow(Records(d1), |Records(d)|);
    assert Records(d1)[..|Records(d)|] == Records(d);
  }

  lemma StepShared(hash: Hasher, s: World, step: Step)
    requires Shared(hash, s) && NoWeld(s, step)
    ensures Shared(hash, Next(hash, s, step))
    ensures Records(s.disk) <= Records(Next(hash, s, step).disk)
  {
    match step {
    case Start(_, adopt) =>
      AdoptShared(hash, FRESH, s.disk, adopt);
    case Log(id, payload, adopt, write) =>
      if id in s.writers { LogShared(hash, s.writers[id], s.disk, payload, adopt, write); }
    case DieLogging(id, payload, adopt, bytes) =>
      if id in s.writers { LogShared(hash, s.writers[id], s.disk, payload, adopt, Raises(bytes)); }
    case Die(_) =>
    }
    OthersStayShared(s.disk, Next(hash, s, step).disk, s.writers);
  }

  lemma {:induction false} RunShared(hash: Hasher, steps: seq<Step>)
    requires AllNoWeld(hash, steps)
    ensures Shared(hash, Run(hash, steps))
  {
    if |steps| > 0 {
      var init := steps[..|steps| - 1];
      assert forall i :: 0 <= i < |init| ==> init[..i] == steps[..i] && init[i] == steps[i];
      RunShared(hash, init);
      StepShared(hash, Run(hash, init), steps[|steps| - 1]);
    }
  }

  /** Writer seams are benign. Any number of writers, stale or not, crashing anywhere, with adoption
      failing or not: as long as no write lands on an unterminated line, the file (once it exists) is
      never reported as tampered, every committed record is verified, and the seam counter is exactly
      the number of records not chained to the line above them. */
  lemma SeamsAreBenign(hash: Hasher, steps: seq<Step>)
    requires AllNoWeld(hash, steps) && Run(hash, steps).disk.Present?
    ensures var d := Run(hash, steps).disk;
            var v := Verify(hash, d);
            && !v.tamper && v.records == |Records(d)| && v.seams == Forks(Records(d))
            && (v.tornTail <==> d.tail == Some(Junk))
  {
    RunShared(hash, steps);
    VerdictOfShared(hash, Run(hash, steps).disk);
  }

  /** The condition is needed: once a whole line has been appended to an unterminated one, any further
      complete line makes the verifier report tampering. */
  lemma WeldLooksLikeTampering(hash: Hasher, d: Disk, r1: Record, r2: Record)
    requires d.Present? && d.tail.Some? && !d.tail.value.Blank?
    ensures Verify(hash, Append(Append(d, WholeLine, r1), WholeLine, r2)).tamper
  {
    var d2 := Append(Append(d, WholeLine, r1), WholeLine, r2);
    assert d2.lines == d.lines + [Junk] + [Rec(r2)];
    var c := Content(d.lines);
    assert (d.lines + [Junk])[..|d.lines|] == d.lines;
    assert d2.lines[..|d.lines| + 1] == d.lines + [Junk];
    assert Content(d2.lines) == c + [Junk] + [Rec(r2)];
    TamperExact(hash, d2);
    if Sound(hash, c + [Junk] + [Rec(r2)]) {
      SoundAppend(hash, c + [Junk], Rec(r2));
      SoundAppend(hash, c, Junk);
    }
  }

  lemma RunThen(hash: Hasher, steps: seq<Step>, step: Step)
    ensures Run(hash, steps + [step]) == Next(hash, Run(hash, steps), step)
  {
    assert (steps + [step])[..|steps|] == steps;
  }

  /** One writer alone can get there, when the re-read of the tail after a torn write fails: the chain
      then shows tampering although nobody touched the file. */
  lemma FailedAdoptionLooksLikeTampering(hash: Hasher, a: string, b: string, c: string)
    ensures var run := [Start(0, AdoptOk)] + [Log(0, a, AdoptOk, Raises(Fragment))] +
                       [Log(0, b, AdoptFails, Committed)] + [Log(0, c, AdoptOk, Committed)];
            Verify(hash, Run(hash, run).disk).tamper
  {
    var run1 := [Start(0, AdoptOk)];
    var run2 := run1 + [Log(0, a, AdoptOk, Raises(Fragment))];
    var run3 := run2 + [Log(0, b, AdoptFails, Committed)];
    RunThen(hash, [], Start(0, AdoptOk));
    RunThen(hash, run1, Log(0, a, AdoptOk, Raises(Fragment)));
    RunThen(hash, run2, Log(0, b, AdoptFails, Committed));
    RunThen(hash, run3, Log(0, c, AdoptOk, Committed));
    assert [] + [Start(0, AdoptOk)] == run1;
    assert Run(hash, run1) == World(Absent, map[0 := FRESH]);
    var s2 := Run(hash, run2);
    assert s2.disk == Present([], Some(Junk)) && 0 in s2.writers && !s2.writers[0].synced;
    var torn := s2.writers[0].(synced := true);
    var s3 := Run(hash, run3);
    assert s3.disk == Append(s2.disk, WholeLine, NextRecord(hash, torn, b));
    assert s3.writers[0].synced;
    WeldLooksLikeTampering(hash, s2.disk, NextRecord(hash, torn, b), NextRecord(hash, s3.writers[0], c));
  }
}
