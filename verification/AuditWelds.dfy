/** Exactly which honest writes make the verifier of the audit trail report tampering. */
module AuditWelds {
  import opened Prelude
  import opened AuditFile
  import opened AuditWriter
  import opened AuditRuns
  import opened AuditTamper

  /** The verifier has nothing to report about the file, if there is one. */
  predicate Unalarmed(hash: Hasher, d: Disk)
  {
    d.Present? ==> !Verify(hash, d).tamper
  }

  /** What is written now continues an unterminated line. */
  predicate Joins(d: Disk) { d.Present? && d.tail.Some? && !d.tail.value.Blank? }

  /** The record the writer chains to is not in the file. */
  predicate Orphan(d: Disk, w: Writer)
  {
    w.prev != GENESIS && w.prev !in Digests(Content(LinesOf(d)))
  }

  /** A write that starts a new line below bytes that are not JSON, or that completes a record whose parent is
      gone. */
  predicate Alarming(d: Disk, w: Writer, bytes: Bytes)
  {
    && !bytes.Untouched? && !bytes.Opened? && !Joins(d)
    && (EndsInJunk(Content(LinesOf(d))) || (!bytes.Fragment? && Orphan(d, w)))
  }

  /** The content after a write. */
  function Grown(d: Disk, bytes: Bytes, line: Line): seq<Line>
  {
    var c := Content(LinesOf(d));
    if bytes.Untouched? || bytes.Opened? then c
    else if Joins(d) then Content(d.lines) + [Junk]
    else if bytes.Fragment? then c + [Junk]
    else c + [line]
  }

  /** The content of terminated lines and what follows them. */
  lemma ContentWith(lines: seq<Line>, line: Line)
    ensures Content(lines + [line]) == if line.Blank? then Content(lines) else Content(lines) + [line]
  {
    assert (lines + [line])[..|lines|] == lines;
  }

  function Lines(d: Disk): seq<Line> { if d.Absent? then [] else d.lines }

  lemma ContentIs(d: Disk)
    ensures Joins(d) ==> Content(LinesOf(d)) == Content(d.lines) + [d.tail.value]
    ensures !Joins(d) ==> Content(LinesOf(d)) == Content(Lines(d))
  {
    hide Content;
    if d.Present? && d.tail.Some? { ContentWith(d.lines, d.tail.value); }
  }

  lemma GrownExact(d: Disk, bytes: Bytes, rec: Record)
    ensures Content(LinesOf(Append(d, bytes, rec))) == Grown(d, bytes, Rec(rec))
    ensures Joins(d) ==> Content(LinesOf(d)) == Content(d.lines) + [d.tail.value]
  {
    hide Content;
    ContentIs(d);
    ContentIs(Append(d, bytes, rec));
    ContentWith(Lines(d), Junk);
    ContentWith(Lines(d), Rec(rec));
  }

  lemma AppendedVerdict(hash: Hasher, d: Disk, c: seq<Line>, line: Line)
    requires d.Present? && Content(LinesOf(d)) == c + [line]
    ensures Unalarmed(hash, d) <==> Sound(hash, c) && (line.Junk? || Fits(hash, c, line))
  {
    TamperExact(hash, d);
    SoundAppend(hash, c, line);
    assert (c + [line])[..|c|] == c;
  }

  lemma QuietContent(hash: Hasher, d: Disk)
    requires Unalarmed(hash, d)
    ensures var c := Content(LinesOf(d));
            if EndsInJunk(c) then Sound(hash, c[..|c| - 1]) && !Sound(hash, c) else Sound(hash, c)
  {
    hide Verify;
    var c := Content(LinesOf(d));
    if d.Present? { TamperExact(hash, d); }
    if EndsInJunk(c) {
      assert c == c[..|c| - 1] + [Junk];
      SoundAppend(hash, c[..|c| - 1], Junk);
      assert d.Present?;
    }
  }

  /** One write. On a file the verifier has no complaint about, what any writer puts there raises the alarm
      exactly if it starts a line below terminated bytes that are not JSON, or completes a record whose parent
      is no longer on disk. */
  lemma AppendAlarmExact(hash: Hasher, d: Disk, w: Writer, payload: string, bytes: Bytes)
    requires Unalarmed(hash, d)
    ensures Unalarmed(hash, Append(d, bytes, NextRecord(hash, w, payload))) <==> !Alarming(d, w, bytes)
  {
    hide Verify, Sound, Content, Append, Digests;
    var rec := NextRecord(hash, w, payload);
    var d1, c := Append(d, bytes, rec), Content(LinesOf(d));
    GrownExact(d, bytes, rec);
    QuietContent(hash, d);
    if bytes.Untouched? || bytes.Opened? {
      SameVerdict(hash, d, d1, bytes);
    } else {
      assert d1.Present? by { WritesExist(d, bytes, rec); }
      if Joins(d) {
        AppendedVerdict(hash, d1, Content(d.lines), Junk);
        AppendedVerdict(hash, d, Content(d.lines), d.tail.value);
      } else {
        AppendedVerdict(hash, d1, c, if bytes.Fragment? then Junk else Rec(rec));
        assert Fits(hash, c, Rec(rec)) <==> !Orphan(d, w);
      }
    }
  }

  lemma WritesExist(d: Disk, bytes: Bytes, rec: Record)
    requires !bytes.Untouched?
    ensures Append(d, bytes, rec).Present?
  {
  }

  lemma SameVerdict(hash: Hasher, d: Disk, d1: Disk, bytes: Bytes)
    requires bytes.Untouched? || bytes.Opened?
    requires exists rec :: d1 == Append(d, bytes, rec)
    ensures Unalarmed(hash, d) <==> Unalarmed(hash, d1)
  {
    if d.Absent? && bytes.Opened? {
      assert LinesOf(d1) == [];
    }
  }

  /** Starting, and the re-read before a write, never raise the alarm. */
  lemma AdoptStaysQuiet(hash: Hasher, w: Writer, d: Disk, fate: AdoptFate)
    requires Unalarmed(hash, d)
    ensures Unalarmed(hash, Adopt(w, d, fate).1)
  {
    hide Adopt, Verify, Sound, Content;
    if d.Absent? || fate.AdoptFails? {
      AdoptNothing(w, d, fate);
    } else {
      var c := Content(LinesOf(d));
      QuietContent(hash, d);
      AdoptionContentExact(w, d, fate);
      if Sound(hash, c) && |c| > 0 { SoundPrefix(hash, c, |c| - 1); }
      TamperExact(hash, Adopt(w, d, fate).1);
    }
  }

  lemma AdoptNothing(w: Writer, d: Disk, fate: AdoptFate)
    requires d.Absent? || fate.AdoptFails?
    ensures Adopt(w, d, fate) == (w, d)
  {
  }

  /** The step writes something alarming to the file as its own re-read left it. */
  predicate AlarmingStep(s: World, step: Step)
  {
    match step
    case Log(id, _, adopt, write) =>
      id in s.writers &&
      var (w, d) := Synced(s.writers[id], s.disk, adopt);
      Alarming(d, w, if write.Committed? then WholeLine else write.bytes)
    case DieLogging(id, _, adopt, bytes) =>
      id in s.writers && var (w, d) := Synced(s.writers[id], s.disk, adopt); Alarming(d, w, bytes)
    case _ => false
  }

  lemma LogAlarmExact(hash: Hasher, w: Writer, d: Disk, payload: string, adopt: AdoptFate, write: WriteFate)
    requires Unalarmed(hash, d)
    ensures var (w1, d1) := Synced(w, d, adopt);
            Unalarmed(hash, LogStep(hash, w, d, payload, adopt, write).1) <==>
            !Alarming(d1, w1, if write.Committed? then WholeLine else write.bytes)
  {
    hide Adopt, Alarming, Unalarmed, Append;
    AdoptStaysQuiet(hash, w, d, adopt);
    var (w1, d1) := Synced(w, d, adopt);
    AppendAlarmExact(hash, d1, w1, payload, if write.Committed? then WholeLine else write.bytes);
  }

  lemma StepAlarmExact(hash: Hasher, s: World, step: Step)
    requires Unalarmed(hash, s.disk)
    ensures Unalarmed(hash, Next(hash, s, step).disk) <==> !AlarmingStep(s, step)
  {
    hide Adopt, Alarming, Unalarmed, LogStep, Synced;
    match step
    case Start(_, adopt) => AdoptStaysQuiet(hash, FRESH, s.disk, adopt);
    case Log(id, payload, adopt, write) =>
      if id in s.writers { LogAlarmExact(hash, s.writers[id], s.disk, payload, adopt, write); }
    case DieLogging(id, payload, adopt, bytes) =>
      if id in s.writers { LogAlarmExact(hash, s.writers[id], s.disk, payload, adopt, Raises(bytes)); }
    case Die(_) =>
  }

  /** At no moment of the run is there anything to report. */
  predicate NeverAlarmed(hash: Hasher, steps: seq<Step>)
  {
    Unalarmed(hash, Run(hash, steps).disk) && (|steps| == 0 || NeverAlarmed(hash, steps[..|steps| - 1]))
  }

  predicate NothingAlarming(hash: Hasher, steps: seq<Step>)
  {
    |steps| == 0 ||
    var init := steps[..|steps| - 1];
    NothingAlarming(hash, init) && !AlarmingStep(Run(hash, init), steps[|steps| - 1])
  }

  /** Whole runs, of one writer or many, with tail reads and repairs failing or not: honest writers are never
      accused exactly when none of their writes is alarming. */
  lemma {:induction false} AccusedExact(hash: Hasher, steps: seq<Step>)
    ensures NeverAlarmed(hash, steps) <==> NothingAlarming(hash, steps)
  {
    hide Unalarmed, AlarmingStep, Next;
    if |steps| == 0 {
      NothingIsQuiet(hash);
    } else {
      var init := steps[..|steps| - 1];
      AccusedExact(hash, init);
      if NeverAlarmed(hash, init) {
        StepAlarmExact(hash, Run(hash, init), steps[|steps| - 1]);
      }
    }
  }

  lemma NothingIsQuiet(hash: Hasher)
    ensures Unalarmed(hash, NOTHING.disk)
  {
  }

  // ---------------------------------------------------------------- after a successful re-read

  /** Every record has a number, as every record a writer completes does. */
  predicate Numbered(lines: seq<Line>)
  {
    forall i :: 0 <= i < |lines| && lines[i].Rec? ==> lines[i].rec.body.seqNo.Some?
  }

  lemma AppendNumbered(hash: Hasher, d: Disk, w: Writer, payload: string, bytes: Bytes)
    requires Numbered(Content(LinesOf(d)))
    ensures Numbered(Content(LinesOf(Append(d, bytes, NextRecord(hash, w, payload)))))
  {
    hide Content, Append, LinesOf;
    GrownExact(d, bytes, NextRecord(hash, w, payload));
    if Joins(d) {
      var c := Content(LinesOf(d));
      assert forall i :: 0 <= i < |c| - 1 ==> Content(d.lines)[i] == c[i];
    }
  }

  lemma AdoptNumbered(w: Writer, d: Disk, fate: AdoptFate)
    requires Numbered(Content(LinesOf(d)))
    ensures Numbered(Content(LinesOf(Adopt(w, d, fate).1)))
  {
    hide Adopt, Content, LinesOf;
    if d.Absent? || fate.AdoptFails? { AdoptNothing(w, d, fate); } else { AdoptionContentExact(w, d, fate); }
  }

  lemma {:induction false} RunNumbered(hash: Hasher, steps: seq<Step>)
    ensures Numbered(Content(LinesOf(Run(hash, steps).disk)))
  {
    hide Adopt, Numbered, Append;
    if |steps| == 0 {
      NothingIsNumbered();
    } else {
      RunNumbered(hash, steps[..|steps| - 1]);
      var s := Run(hash, steps[..|steps| - 1]);
      match steps[|steps| - 1] {
        case Start(_, adopt) => AdoptNumbered(FRESH, s.disk, adopt);
        case Log(id, payload, adopt, write) =>
          if id in s.writers {
            LogNumbered(hash, s.writers[id], s.disk, payload, adopt, write);
          }
        case DieLogging(id, payload, adopt, bytes) =>
          if id in s.writers { LogNumbered(hash, s.writers[id], s.disk, payload, adopt, Raises(bytes)); }
        case Die(_) =>
      }
    }
  }

  lemma NothingIsNumbered()
    ensures Numbered(Content(LinesOf(NOTHING.disk)))
  {
  }

  lemma LogNumbered(hash: Hasher, w: Writer, d: Disk, payload: string, adopt: AdoptFate, write: WriteFate)
    requires Numbered(Content(LinesOf(d)))
    ensures Numbered(Content(LinesOf(LogStep(hash, w, d, payload, adopt, write).1)))
  {
    hide Adopt, Numbered, Append;
    AdoptNumbered(w, d, adopt);
    var (w1, d1) := Synced(w, d, adopt);
    AppendNumbered(hash, d1, w1, payload, if write.Committed? then WholeLine else write.bytes);
  }

  /** The window ends as the content does. */
  lemma WindowEnds(d: Disk)
    ensures var c, w := Content(LinesOf(d)), Window(d);
            && (|w| > 0 <==> |c| > 0) && (|w| > 1 <==> |c| > 1)
            && (|c| > 0 ==> w[|w| - 1].1 == c[|c| - 1])
            && (|c| > 1 ==> w[|w| - 2].1 == c[|c| - 2])
  {
    hide Content, Entries, LinesOf;
    EntriesExact(LinesOf(d));
  }

  /** What is kept of the window ends with the last record. */
  lemma KeptEndsWithLast(hash: Hasher, d: Disk)
    requires d.Present? && Unalarmed(hash, d)
    ensures var kept, records := Kept(Window(d)), Whole(Content(LinesOf(d)));
            && (|kept| > 0 <==> |records| > 0)
            && (|kept| > 0 ==> kept[|kept| - 1].1 == records[|records| - 1])
  {
    hide Sound, Verify, Window, Content, LinesOf, Unalarmed;
    var c := Content(LinesOf(d));
    QuietContent(hash, d);
    WindowEnds(d);
    if |c| > 0 && !EndsInJunk(c) { SoundAt(hash, c, |c| - 1); }
  }

  /** A re-read that succeeds chains the writer to the last record on disk, if there is one, and forgets
      nothing if there is none. */
  lemma RereadExact(hash: Hasher, w: Writer, d: Disk, adopt: AdoptFate)
    requires d.Present? && !adopt.AdoptFails? && Unalarmed(hash, d) && Numbered(Content(LinesOf(d)))
    ensures var (w1, d1) := Adopt(w, d, adopt);
            var records := Whole(Content(LinesOf(d)));
            && Content(LinesOf(d1)) == records && Sound(hash, records) && d1.Present?
            && w1.prev == if |records| == 0 then w.prev else records[|records| - 1].rec.h.digest
  {
    hide Content, Window, Kept, Healed, Verify, Sound;
    var c := Content(LinesOf(d));
    QuietContent(hash, d);
    KeptEndsWithLast(hash, d);
    AdoptionContentExact(w, d, adopt);
    var kept, records := Kept(Window(d)), Whole(c);
    if |c| > 0 && !EndsInJunk(c) { SoundAt(hash, c, |c| - 1); }
    if |records| > 0 {
      SoundAt(hash, records, |records| - 1);
      assert records[|records| - 1] == c[|records| - 1];
      var w1 := if TornLast(Window(d)) then w.(truncations := w.truncations + 1) else w;
      ResumeFromLast(w1, Healed(d), kept, adopt);
    }
  }

  /** So a writer that has just re-read the file with success writes something alarming in one case only: it
      completes a record although the file holds none any more, and it remembers one. */
  lemma RereadAlarmExact(hash: Hasher, steps: seq<Step>, id: nat, adopt: AdoptFate, bytes: Bytes)
    requires NeverAlarmed(hash, steps) && id in Run(hash, steps).writers
    requires !Run(hash, steps).writers[id].synced && !adopt.AdoptFails?
    ensures var w, d := Run(hash, steps).writers[id], Run(hash, steps).disk;
            var (w1, d1) := Synced(w, d, adopt);
            Alarming(d1, w1, bytes) <==>
            (bytes.NoNewline? || bytes.WholeLine?) && w.prev != GENESIS && Whole(Content(LinesOf(d))) == []
  {
    hide Adopt, Content, Verify, Sound, Digests;
    var w, d := Run(hash, steps).writers[id], Run(hash, steps).disk;
    RunNumbered(hash, steps);
    if d.Absent? {
      AdoptNothing(w, d, adopt);
      NothingRead(d);
    } else {
      RereadExact(hash, w, d, adopt);
      QuietContent(hash, d);
      var (w1, d1) := Adopt(w, d, adopt);
      var records := Whole(Content(LinesOf(d)));
      if |records| > 0 {
        SoundAt(hash, records, |records| - 1);
        DigestsExact(records, w1.prev);
      } else {
        EmptyJoinsNothing(d1);
      }
    }
  }

  lemma NothingRead(d: Disk)
    requires d.Absent?
    ensures Content(LinesOf(d)) == [] && Digests([]) == {}
  {
  }

  lemma EmptyJoinsNothing(d: Disk)
    requires Content(LinesOf(d)) == []
    ensures !Joins(d) && Digests([]) == {}
  {
    GrownExact(d, Untouched, Record(Body(None, "", NoPrev), NoHash));
  }

  /** And one writer alone gets into that case. Its first record reaches the disk without its newline; the next
      call re-reads it but cannot repair the line, and tears its own record onto it; the re-read after that
      removes the torn line, and the writer chains on to a record that no longer exists. */
  lemma FailedRepairLosesTheParent(hash: Hasher, a: string, b: string, c: string)
    requires forall body :: hash(body) != GENESIS
    ensures var run := [Start(0, AdoptOk)] + [Log(0, a, AdoptOk, Raises(NoNewline))] +
                       [Log(0, b, RepairFails, Raises(Fragment))];
            && NeverAlarmed(hash, run)
            && !Unalarmed(hash, Run(hash, run + [Log(0, c, AdoptOk, Committed)]).disk)
  {
    var run1 := [Start(0, AdoptOk)];
    var run2 := run1 + [Log(0, a, AdoptOk, Raises(NoNewline))];
    var run3 := run2 + [Log(0, b, RepairFails, Raises(Fragment))];
    var first := NextRecord(hash, FRESH, a);
    FirstSteps(hash, a, b);
    RunThen(hash, run3, Log(0, c, AdoptOk, Committed));
    StepAlarmExact(hash, Run(hash, run3), Log(0, c, AdoptOk, Committed));
    RereadAlarmExact(hash, run3, 0, AdoptOk, WholeLine);
    OneTornLine();
  }

  lemma OneTornLine()
    ensures Whole(Content(LinesOf(Present([], Some(Junk))))) == []
  {
    assert [Junk][..0] == [];
  }

  lemma FirstSteps(hash: Hasher, a: string, b: string)
    requires forall body :: hash(body) != GENESIS
    ensures var run := [Start(0, AdoptOk)] + [Log(0, a, AdoptOk, Raises(NoNewline))] +
                       [Log(0, b, RepairFails, Raises(Fragment))];
            var after := Run(hash, run);
            && NeverAlarmed(hash, run) && after.disk == Present([], Some(Junk))
            && after.writers.Keys == {0} && !after.writers[0].synced && after.writers[0].prev != GENESIS
  {
    var run1 := [Start(0, AdoptOk)];
    var run2 := run1 + [Log(0, a, AdoptOk, Raises(NoNewline))];
    var run3 := run2 + [Log(0, b, RepairFails, Raises(Fragment))];
    RunThen(hash, [], Start(0, AdoptOk));
    RunThen(hash, run1, Log(0, a, AdoptOk, Raises(NoNewline)));
    RunThen(hash, run2, Log(0, b, RepairFails, Raises(Fragment)));
    assert [] + run1 == run1 && run1[..0] == [] && run2[..1] == run1 && run3[..2] == run2;
    var s1, s2, s3 := Run(hash, run1), Run(hash, run2), Run(hash, run3);
    assert s1 == World(Absent, map[0 := FRESH]);
    var first := NextRecord(hash, FRESH, a);
    assert s2.disk == Present([], Some(Rec(first)));
    OneRecord(s2.writers[0], first);
    assert s3.disk == Present([], Some(Junk)) && s3.writers[0].prev == first.h.digest;
    QuietStart(hash, first);
  }

  /** A whole record on one unterminated line is adopted, and stays unterminated if the repair fails. */
  lemma OneRecord(w: Writer, rec: Record)
    requires rec.body.seqNo.Some?
    ensures Adopt(w, Present([], Some(Rec(rec))), RepairFails) ==
            (w.(seqNo := MaxInt(w.seqNo, rec.body.seqNo.value), prev := ShownHash(rec.h)), Present([], Some(Rec(rec))))
  {
    var d := Present([], Some(Rec(rec)));
    assert LinesOf(d) == [Rec(rec)] && [Rec(rec)][..0] == [];
    assert Entries([Rec(rec)]) == [(0, Rec(rec))] == Window(d);
    ResumeFromLast(w, d, Window(d), RepairFails);
  }

  lemma QuietStart(hash: Hasher, first: Record)
    requires first.h == Hash(hash(first.body)) && first.body.prev == Prev(GENESIS)
    ensures Unalarmed(hash, Absent) && Unalarmed(hash, Present([], Some(Rec(first))))
    ensures Unalarmed(hash, Present([], Some(Junk)))
  {
    var c := [Rec(first)];
    assert c[..0] == [] && [Junk][..0] == [];
    TamperExact(hash, Present([], Some(Rec(first))));
    TamperExact(hash, Present([], Some(Junk)));
  }
}
