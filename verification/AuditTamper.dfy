/** What the hash chain detects, and what the writer may not destroy. */
module AuditTamper {
  import opened Prelude
  import opened AuditFile
  import opened AuditWriter
  import opened AuditRuns

  /** The file with one of its lines, the unterminated one included, replaced. */
  function Replaced(d: Disk, i: nat, line: Line): Disk
    requires d.Present? && i < |LinesOf(d)|
  {
    if i < |d.lines| then Present(d.lines[i := line], d.tail) else Present(d.lines, Some(line))
  }

  /** Editing the body of a complete record but keeping its "h" is always detected, wherever the record stands,
      terminated or not, and whatever else is in the file. */
  lemma EditIsDetected(hash: Hasher, d: Disk, i: nat, edited: Body)
    requires IdealHash(hash) && d.Present?
    requires i < |LinesOf(d)| && HashOk(hash, LinesOf(d)[i]) && edited != LinesOf(d)[i].rec.body
    ensures Verify(hash, Replaced(d, i, Rec(Record(edited, LinesOf(d)[i].rec.h)))).tamper
  {
    var line := Rec(Record(edited, LinesOf(d)[i].rec.h));
    var d1 := Replaced(d, i, line);
    assert hash(edited) != hash(LinesOf(d)[i].rec.body);
    assert LinesOf(d1)[i] == line;
    TamperExact(hash, d1);
    var c := Content(LinesOf(d1));
    var k := ContentKeeps(LinesOf(d1), i);
    assert c[k] == line && !HashOk(hash, line);
    if Sound(hash, c) { SoundAt(hash, c, k); }
    if k < |c| - 1 && Sound(hash, c[..|c| - 1]) { SoundAt(hash, c[..|c| - 1], k); }
  }

  lemma {:induction false} ContentKeeps(lines: seq<Line>, i: nat) returns (k: nat)
    requires i < |lines| && !lines[i].Blank?
    ensures k < |Content(lines)| && Content(lines)[k] == lines[i]
  {
    var m := |lines| - 1;
    if i == m {
      k := |Content(lines[..m])|;
    } else {
      k := ContentKeeps(lines[..m], i);
    }
  }

  predicate EndsInJunk(lines: seq<Line>) { |lines| > 0 && lines[|lines| - 1].Junk? }

  /** The content without a last line that is not JSON. */
  function Whole(lines: seq<Line>): seq<Line>
  {
    if EndsInJunk(lines) then lines[..|lines| - 1] else lines
  }

  /** The lines of the file that are not blank, without a torn last one. */
  function Committed(d: Disk): seq<Line> { Whole(Content(LinesOf(d))) }

  /** Deleting and moving. In any file whose committed lines are records that all hash correctly, blank lines and a torn
      last line allowed, the alarm is exactly this: some record's parent is neither the genesis marker nor a
      record above it. */
  lemma RearrangementExact(hash: Hasher, d: Disk)
    requires d.Present? && forall i :: 0 <= i < |Committed(d)| ==> HashOk(hash, Committed(d)[i])
    ensures Verify(hash, d).tamper <==> exists i :: 0 <= i < |Committed(d)| && !ParentAbove(Committed(d), i)
  {
    hide Verify, Content;
    var lines := Committed(d);
    TamperExact(hash, d);
    TornIsUnsound(hash, Content(LinesOf(d)));
    if Sound(hash, lines) {
      forall i | 0 <= i < |lines| ensures ParentAbove(lines, i) {
        SoundAt(hash, lines, i);
        ParentAboveExact(lines, i);
      }
    } else {
      var i := UnsoundAt(hash, lines);
      if lines[i].rec.body.prev.Prev? { ParentAboveExact(lines, i); }
      assert !ParentAbove(lines, i);
    }
  }

  lemma TornIsUnsound(hash: Hasher, lines: seq<Line>)
    ensures EndsInJunk(lines) ==> !Sound(hash, lines)
  {
    if EndsInJunk(lines) {
      assert lines == lines[..|lines| - 1] + [Junk];
      SoundAppend(hash, lines[..|lines| - 1], Junk);
    }
  }

  ghost predicate ParentAbove(lines: seq<Line>, i: nat)
    requires i < |lines|
  {
    lines[i].Rec? && lines[i].rec.body.prev.Prev? &&
    var parent := lines[i].rec.body.prev.digest;
    parent == GENESIS ||
    exists j :: 0 <= j < i && lines[j].Rec? && lines[j].rec.h == Hash(parent)
  }

  lemma ParentAboveExact(lines: seq<Line>, i: nat)
    requires i < |lines| && lines[i].Rec? && lines[i].rec.body.prev.Prev?
    ensures ParentAbove(lines, i) <==>
            var parent := lines[i].rec.body.prev.digest;
            parent == GENESIS || parent in Digests(lines[..i])
  {
    DigestsExact(lines[..i], lines[i].rec.body.prev.digest);
  }

  /** Two correctly hashed lines with one digest are one line. */
  lemma SameDigestSameLine(hash: Hasher, a: Line, b: Line)
    requires IdealHash(hash) && HashOk(hash, a) && HashOk(hash, b) && a.rec.h == b.rec.h
    ensures a == b
  {
    assert hash(a.rec.body) == hash(b.rec.body);
  }

  /** Take the records of a legitimate file, drop some, move some, repeat some, and let the last write be torn. If one
      survivor is no longer below its parent, the verifier reports tampering. */
  lemma LostParentIsDetected(hash: Hasher, legit: seq<Line>, d: Disk, child: nat, parent: nat, i: nat)
    requires IdealHash(hash) && Sound(hash, legit) && d.Present?
    requires forall k :: 0 <= k < |Committed(d)| ==> Committed(d)[k] in legit
    requires child < |legit| && parent < |legit| && legit[child].Rec?
    requires HashOk(hash, legit[parent]) && legit[child].rec.body.prev == Prev(legit[parent].rec.h.digest)
    requires i < |Committed(d)| && Committed(d)[i] == legit[child] && legit[parent] !in Committed(d)[..i]
    ensures Verify(hash, d).tamper
  {
    hide Committed;
    var lines := Committed(d);
    forall k | 0 <= k < |lines| ensures HashOk(hash, lines[k]) {
      var j :| 0 <= j < |legit| && legit[j] == lines[k];
      SoundAt(hash, legit, j);
    }
    RearrangementExact(hash, d);
    assert legit[parent].rec.h.digest == hash(legit[parent].rec.body);
    if ParentAbove(lines, i) { ParentItselfAbove(hash, lines, i, legit[parent]); }
  }

  lemma ParentItselfAbove(hash: Hasher, lines: seq<Line>, i: nat, parent: Line)
    requires IdealHash(hash) && HashOk(hash, parent)
    requires forall k :: 0 <= k < |lines| ==> HashOk(hash, lines[k])
    requires i < |lines| && ParentAbove(lines, i) && lines[i].rec.body.prev == Prev(parent.rec.h.digest)
    ensures parent in lines[..i]
  {
    var digest := parent.rec.h.digest;
    assert digest == hash(parent.rec.body);
    var j :| 0 <= j < i && lines[j].Rec? && lines[j].rec.h == Hash(digest);
    SameDigestSameLine(hash, lines[j], parent);
    assert lines[..i][j] == parent;
  }

  // ---------------------------------------------------------------- evidence is kept

  /** The first thing wrong with the file is a complete JSON object, and its line is terminated; `c` is
      the content up to and including that object. */
  ghost predicate BreaksAt(hash: Hasher, d: Disk, c: seq<Line>)
  {
    && d.Present? && |c| > 0 && c <= Content(d.lines)
    && Sound(hash, c[..|c| - 1])
    && c[|c| - 1].Rec? && !Fits(hash, c[..|c| - 1], c[|c| - 1])
  }

  lemma SoundFits(hash: Hasher, lines: seq<Line>, c: seq<Line>)
    requires Sound(hash, lines) && |c| > 0 && c <= lines
    ensures Fits(hash, c[..|c| - 1], c[|c| - 1])
  {
    SoundAt(hash, lines, |c| - 1);
    assert lines[..|c| - 1] == c[..|c| - 1];
  }

  lemma BreakIsTamper(hash: Hasher, d: Disk, c: seq<Line>)
    requires BreaksAt(hash, d, c)
    ensures Verify(hash, d).tamper
  {
    hide Sound, Fits, Content;
    var all := Content(LinesOf(d));
    ContentOfTail(d);
    TamperExact(hash, d);
    if Sound(hash, all) { SoundFits(hash, all, c); }
    if |c| < |all| && Sound(hash, all[..|all| - 1]) { SoundFits(hash, all[..|all| - 1], c); }
  }

  lemma ContentOfTail(d: Disk)
    requires d.Present?
    ensures Content(LinesOf(d)) == Content(d.lines) +
              (if d.tail.Some? && !d.tail.value.Blank? then [d.tail.value] else [])
  {
    if d.tail.Some? {
      assert (d.lines + [d.tail.value])[..|d.lines|] == d.lines;
    }
  }

  lemma {:induction false} ContentGrows(lines: seq<Line>, k: nat)
    requires k <= |lines|
    ensures Content(lines[..k]) <= Content(lines)
  {
    if k < |lines| {
      assert lines[..|lines| - 1][..k] == lines[..k];
      ContentGrows(lines[..|lines| - 1], k);
    } else {
      assert lines[..k] == lines;
    }
  }

  /** Truncation before the last entry removes that entry and the blank lines after it. */
  lemma {:induction false} CutBeforeLast(lines: seq<Line>)
    requires |Entries(lines)| > 0
    ensures var es := Entries(lines);
            var k := es[|es| - 1].0;
            && k < |lines| && lines[k] == es[|es| - 1].1
            && Content(lines) == Content(lines[..k]) + [lines[k]]
  {
    var m := |lines| - 1;
    if lines[m].Blank? {
      CutBeforeLast(lines[..m]);
      var k := Entries(lines[..m])[|Entries(lines[..m])| - 1].0;
      assert lines[..m][..k] == lines[..k];
    }
  }

  /** Healing removes nothing but a last line that is not a JSON object. */
  lemma HealedContent(d: Disk)
    requires d.Present?
    ensures var c := Content(LinesOf(d));
            Healed(d).Present? &&
            if |c| > 0 && !c[|c| - 1].Rec?
            then Content(Healed(d).lines) == c[..|c| - 1] && Healed(d).tail.None?
            else Healed(d) == d
  {
    var lines := LinesOf(d);
    EntriesExact(lines);
    if |Entries(lines)| > 0 {
      CutBeforeLast(lines);
      var es := Entries(lines);
      var k := es[|es| - 1].0;
      assert Window(d)[|Window(d)| - 1] == es[|es| - 1];
      if !lines[k].Rec? {
        assert d.lines[..k] == lines[..k];
      }
    }
  }

  lemma AdoptedDisk(w: Writer, d: Disk, fate: AdoptFate)
    requires d.Present? && !fate.AdoptFails?
    ensures Adopt(w, d, fate).1 == Healed(d) || Adopt(w, d, fate).1 == Terminate(Healed(d))
  {
    hide Window, Kept, Healed, FindGood;
  }

  lemma TerminatedContent(d: Disk)
    requires d.Present?
    ensures Content(d.lines) <= Content(Terminate(d).lines)
    ensures Content(LinesOf(Terminate(d))) == Content(LinesOf(d))
  {
    ContentOfTail(d);
    if d.tail.Some? {
      assert (d.lines + [d.tail.value])[..|d.lines|] == d.lines;
    }
  }

  /** No construction and no adoption removes the broken record, however it goes. */
  lemma AdoptKeepsBreak(hash: Hasher, w: Writer, d: Disk, fate: AdoptFate, c: seq<Line>)
    requires BreaksAt(hash, d, c)
    ensures BreaksAt(hash, Adopt(w, d, fate).1, c)
  {
    if !fate.AdoptFails? {
      hide Window, Kept, Sound, Fits, Healed, Adopt, Terminate;
      HealedContent(d);
      ContentOfTail(d);
      var healed := Healed(d);
      var all := Content(LinesOf(d));
      if !all[|all| - 1].Rec? && d.tail.None? {
        assert all == Content(d.lines);
        assert c[|c| - 1] == all[|c| - 1];
        assert |c| <= |all| - 1;
      }
      assert c <= Content(healed.lines);
      AdoptedDisk(w, d, fate);
      TerminatedContent(healed);
    }
  }

  lemma AppendKeepsBreak(hash: Hasher, d: Disk, bytes: Bytes, rec: Record, c: seq<Line>)
    requires BreaksAt(hash, d, c)
    ensures BreaksAt(hash, Append(d, bytes, rec), c)
  {
    if bytes.WholeLine? {
      var lines := d.lines + [Weld(d.tail, Rec(rec))];
      assert lines[..|d.lines|] == d.lines;
      ContentGrows(lines, |d.lines|);
    }
  }

  /** Once the first break is a complete object on a terminated line, no construction, log call,
      failed write or death of any writer turns the alarm off again. */
  lemma {:induction false} EvidenceIsKept(hash: Hasher, s: World, steps: seq<Step>, c: seq<Line>)
    requires BreaksAt(hash, s.disk, c)
    ensures BreaksAt(hash, RunFrom(hash, s, steps).disk, c)
    ensures Verify(hash, RunFrom(hash, s, steps).disk).tamper
  {
    if |steps| > 0 {
      var before := RunFrom(hash, s, steps[..|steps| - 1]);
      EvidenceIsKept(hash, s, steps[..|steps| - 1], c);
      StepKeepsBreak(hash, before, steps[|steps| - 1], c);
    }
    BreakIsTamper(hash, RunFrom(hash, s, steps).disk, c);
  }

  function RunFrom(hash: Hasher, s: World, steps: seq<Step>): World
  {
    if |steps| == 0 then s
    else Next(hash, RunFrom(hash, s, steps[..|steps| - 1]), steps[|steps| - 1])
  }

  lemma LogKeepsBreak(hash: Hasher, w: Writer, d: Disk, payload: string, adopt: AdoptFate, write: WriteFate,
                      c: seq<Line>)
    requires BreaksAt(hash, d, c)
    ensures BreaksAt(hash, LogStep(hash, w, d, payload, adopt, write).1, c)
  {
    AdoptKeepsBreak(hash, w, d, adopt, c);
    var (w1, d1) := Synced(w, d, adopt);
    AppendKeepsBreak(hash, d1, if write.Committed? then WholeLine else write.bytes, NextRecord(hash, w1, payload), c);
  }

  lemma StepKeepsBreak(hash: Hasher, s: World, step: Step, c: seq<Line>)
    requires BreaksAt(hash, s.disk, c)
    ensures BreaksAt(hash, Next(hash, s, step).disk, c)
  {
    match step
    case Start(_, adopt) => AdoptKeepsBreak(hash, FRESH, s.disk, adopt, c);
    case Log(id, payload, adopt, write) =>
      if id in s.writers { LogKeepsBreak(hash, s.writers[id], s.disk, payload, adopt, write, c); }
    case DieLogging(id, payload, adopt, bytes) =>
      if id in s.writers { LogKeepsBreak(hash, s.writers[id], s.disk, payload, adopt, Raises(bytes), c); }
    case Die(_) =>
  }

  // ---------------------------------------------------------------- when evidence is lost

  /** What adoption does to the content of any file it can read: it drops a last line that is not a
      JSON object, torn or not, and nothing else. */
  lemma AdoptionContentExact(w: Writer, d: Disk, fate: AdoptFate)
    requires d.Present? && !fate.AdoptFails?
    ensures var c, d1 := Content(LinesOf(d)), Adopt(w, d, fate).1;
            && d1.Present?
            && Content(LinesOf(d1)) == if |c| > 0 && !c[|c| - 1].Rec? then c[..|c| - 1] else c
  {
    hide Window, Kept, Healed, Adopt, Content;
    HealedContent(d);
    ContentOfTail(d);
    var healed := Healed(d);
    ContentOfTail(healed);
    AdoptedDisk(w, d, fate);
    TerminatedContent(healed);
  }

  /** When a start silences the alarm. For any file under alarm, adoption by any writer that can read it turns the alarm
      off exactly when the last line is no JSON object and what is above it is sound, or sound but for one more
      line that is not JSON. */
  lemma StartSilencesExact(hash: Hasher, w: Writer, d: Disk, fate: AdoptFate)
    requires d.Present? && !fate.AdoptFails? && Verify(hash, d).tamper
    ensures var c := Content(LinesOf(d));
            !Verify(hash, Adopt(w, d, fate).1).tamper <==>
            |c| > 0 && !c[|c| - 1].Rec? && Sound(hash, Whole(c[..|c| - 1]))
  {
    hide Verify, Adopt, Content;
    var c, d1 := Content(LinesOf(d)), Adopt(w, d, fate).1;
    AdoptionContentExact(w, d, fate);
    TamperExact(hash, d);
    TamperExact(hash, d1);
    if |c| > 0 { TornIsUnsound(hash, c[..|c| - 1]); }
  }

  /** So a JSON value that is not an object below a sound file, which no crash produces, is reported until the next
      start of any writer, which erases it together with the alarm. */
  lemma ScalarTailIsErased(hash: Hasher, lines: seq<Line>)
    requires Sound(hash, Content(lines))
    ensures Verify(hash, Present(lines + [Scalar], None)).tamper
    ensures !Verify(hash, Adopt(FRESH, Present(lines + [Scalar], None), AdoptOk).1).tamper
  {
    var d := Present(lines + [Scalar], None);
    var c := Content(lines);
    assert (lines + [Scalar])[..|lines|] == lines;
    assert Content(LinesOf(d)) == c + [Scalar];
    assert (c + [Scalar])[..|c|] == c;
    SoundAppend(hash, c, Scalar);
    TamperExact(hash, d);
    TornIsUnsound(hash, c);
    StartSilencesExact(hash, FRESH, d, AdoptOk);
  }

  /** The first thing wrong is a complete object on the last, unterminated line. */
  ghost predicate BreaksAtTail(hash: Hasher, d: Disk)
  {
    && d.Present? && d.tail.Some? && d.tail.value.Rec?
    && Sound(hash, Content(d.lines)) && !Fits(hash, Content(d.lines), d.tail.value)
  }

  /** One of the last 512 lines that are not blank is an object with an integer "seq". */
  ghost predicate Adoptable(d: Disk)
  {
    exists k :: 0 <= k < |Window(d)| && ParseRecord(Window(d)[k].1).Good?
  }

  lemma {:induction false} FindGoodExact(es: seq<(nat, Line)>)
    ensures FindGood(es).0.Some? <==> exists k :: 0 <= k < |es| && ParseRecord(es[k].1).Good?
  {
    if |es| > 0 {
      var m := |es| - 1;
      FindGoodExact(es[..m]);
      if ParseRecord(es[m].1).Good? {
      } else if exists k :: 0 <= k < m && ParseRecord(es[..m][k].1).Good? {
        var k :| 0 <= k < m && ParseRecord(es[..m][k].1).Good?;
        assert ParseRecord(es[k].1).Good?;
      } else if exists k :: 0 <= k < |es| && ParseRecord(es[k].1).Good? {
        var k :| 0 <= k < |es| && ParseRecord(es[k].1).Good?;
        assert ParseRecord(es[..m][k].1).Good?;
      }
    }
  }

  /** An altered object on an unterminated last line survives one log call as evidence exactly when the
      call writes nothing, or re-reads the tail with success and finds a record to adopt. Otherwise
      the new bytes weld to it, the weld reads as a crashed append, and the alarm goes off. */
  lemma UnterminatedEvidenceExact(hash: Hasher, w: Writer, d: Disk, payload: string,
                                  adopt: AdoptFate, write: WriteFate)
    requires BreaksAtTail(hash, d)
    ensures Verify(hash, d).tamper
    ensures Verify(hash, LogStep(hash, w, d, payload, adopt, write).1).tamper <==>
            || write == Raises(Untouched) || write == Raises(Opened)
            || (!w.synced && adopt.AdoptOk? && Adoptable(d))
  {
    var c := Content(d.lines);
    TailBreakIsTamper(hash, d);
    var (w1, d1) := Synced(w, d, adopt);
    SyncedAtTail(w, d, adopt);
    var bytes := if write.Committed? then WholeLine else write.bytes;
    var rec := NextRecord(hash, w1, payload);
    if d1 == Terminate(d) {
      assert d1.lines[..|d.lines|] == d.lines;
      assert (c + [d.tail.value])[..|c|] == c;
      assert BreaksAt(hash, d1, c + [d.tail.value]);
      AppendKeepsBreak(hash, d1, bytes, rec, c + [d.tail.value]);
      BreakIsTamper(hash, Append(d1, bytes, rec), c + [d.tail.value]);
    } else if !bytes.Untouched? && !bytes.Opened? {
      WeldIsTorn(hash, d, bytes, rec);
    }
  }

  lemma SyncedAtTail(w: Writer, d: Disk, adopt: AdoptFate)
    requires d.Present? && d.tail.Some? && d.tail.value.Rec?
    ensures Synced(w, d, adopt).1 ==
            if !w.synced && adopt.AdoptOk? && Adoptable(d) then Terminate(d) else d
  {
    EntriesExact(LinesOf(d));
    assert LinesOf(d)[..|d.lines|] == d.lines;
    assert Window(d)[|Window(d)| - 1].1 == d.tail.value;
    FindGoodExact(Window(d));
  }

  lemma TailBreakIsTamper(hash: Hasher, d: Disk)
    requires BreaksAtTail(hash, d)
    ensures Verify(hash, d).tamper
  {
    ContentOfTail(d);
    SoundAppend(hash, Content(d.lines), d.tail.value);
    TamperExact(hash, d);
  }

  lemma WeldIsTorn(hash: Hasher, d: Disk, bytes: Bytes, rec: Record)
    requires d.Present? && d.tail.Some? && d.tail.value.Rec? && Sound(hash, Content(d.lines))
    requires !bytes.Untouched? && !bytes.Opened?
    ensures !Verify(hash, Append(d, bytes, rec)).tamper
  {
    var d1 := Append(d, bytes, rec);
    assert LinesOf(d1) == d.lines + [Junk];
    assert (d.lines + [Junk])[..|d.lines|] == d.lines;
    var c := Content(d.lines);
    assert (c + [Junk])[..|c|] == c;
    TamperExact(hash, d1);
  }
}
