/** The writer of core/audit.py: class `AuditTrail` with `_adopt_tail` and `log`.

    What the operating system does is an input: a `WriteFate` says how many bytes of a line reached
    the disk before the call raised, an `AdoptFate` whether adoption could read and repair the file. */
module AuditWriter {
  import opened Prelude
  import opened AuditFile

  const WINDOW: nat := 512

  /** The three states `_parse_record` keeps apart. */
  datatype Parsed = Torn | Altered(rec: Record) | Good(rec: Record, seqNo: int)

  function ParseRecord(line: Line): Parsed
  {
    match line
    case Rec(Record(Body(Some(n), payload, prev), h)) => Good(line.rec, n)
    case Rec(rec) => Altered(rec)
    case _ => Torn
  }

  datatype AdoptFate = AdoptOk | AdoptFails | RepairFails

  /** How much of `line + newline` is on disk when the write stops. */
  datatype Bytes = Untouched | Opened | Fragment | NoNewline | WholeLine

  datatype WriteFate = Committed | Raises(bytes: Bytes)

  datatype Writer = Writer(seqNo: int, prev: Digest, synced: bool,
                           dropped: nat, truncations: nat, anomalies: nat)

  const FRESH: Writer := Writer(0, GENESIS, false, 0, 0, 0)

  /** The lines that are not blank, with their positions. */
  function Entries(lines: seq<Line>): seq<(nat, Line)>
  {
    if |lines| == 0 then []
    else
      var m := |lines| - 1;
      var before := Entries(lines[..m]);
      if lines[m].Blank? then before else before + [(m, lines[m])]
  }

  function LastN<T>(s: seq<T>, n: nat): seq<T>
  {
    if |s| <= n then s else s[|s| - n..]
  }

  /** The last adoptable record, and how many entries after it are not adoptable. */
  function FindGood(es: seq<(nat, Line)>): (Option<(Record, int)>, nat)
  {
    if |es| == 0 then (None, 0)
    else
      match ParseRecord(es[|es| - 1].1)
      case Good(rec, n) => (Some((rec, n)), 0)
      case _ => var (found, altered) := FindGood(es[..|es| - 1]); (found, altered + 1)
  }

  function ShownHash(h: HashField): Digest
  {
    match h
    case NoHash => GENESIS
    case Hash(d) => d
    case OtherHash(shown) => shown
  }

  /** Truncate the file before line `k`. */
  function CutAt(d: Disk, k: nat): Disk
    requires d.Present? && k <= |d.lines|
  {
    Present(d.lines[..k], None)
  }

  function Terminate(d: Disk): Disk
  {
    if d.Present? && d.tail.Some? then Present(d.lines + [d.tail.value], None) else d
  }

  lemma {:induction false} EntriesExact(lines: seq<Line>)
    ensures var es := Entries(lines);
            && (|es| == |Content(lines)|)
            && (forall i :: 0 <= i < |es| ==> es[i].0 < |lines| && es[i].1 == lines[es[i].0] == Content(lines)[i])
  {
    if |lines| > 0 {
      EntriesExact(lines[..|lines| - 1]);
    }
  }

  /** The entries `_adopt_tail` keeps in memory. */
  function Window(d: Disk): seq<(nat, Line)>
  {
    LastN(Entries(LinesOf(d)), WINDOW)
  }

  predicate TornLast(window: seq<(nat, Line)>)
  {
    |window| > 0 && ParseRecord(window[|window| - 1].1).Torn?
  }

  /** The file without its torn last line. */
  function Healed(d: Disk): Disk
  {
    var window := Window(d);
    if d.Present? && TornLast(window)
    then EntriesExact(LinesOf(d)); CutAt(d, window[|window| - 1].0)
    else d
  }

  function Kept(window: seq<(nat, Line)>): seq<(nat, Line)>
  {
    if TornLast(window) then window[..|window| - 1] else window
  }

  /** `_adopt_tail`. */
  function Adopt(w: Writer, d: Disk, fate: AdoptFate): (Writer, Disk)
  {
    if fate.AdoptFails? || d.Absent? then (w, d)
    else
      var w1 := if TornLast(Window(d)) then w.(truncations := w.truncations + 1) else w;
      AdoptFrom(w1, Healed(d), Kept(Window(d)), fate)
  }

  function AdoptFrom(w: Writer, d: Disk, window: seq<(nat, Line)>, fate: AdoptFate): (Writer, Disk)
  {
    if |window| == 0 then (w, d)
    else
      var (found, altered) := FindGood(window);
      var w1 := w.(anomalies := w.anomalies + altered);
      match found
      case None => (w1, d)
      case Some((rec, n)) =>
        (w1.(seqNo := MaxInt(w.seqNo, n), prev := ShownHash(rec.h)),
         if fate.RepairFails? then d else Terminate(d))
  }

  lemma NothingToAdopt(w: Writer, d: Disk, fate: AdoptFate)
    ensures AdoptFrom(w, d, [], fate) == (w, d)
  {
  }

  /** The record a writer would append next. */
  function NextRecord(hash: Hasher, w: Writer, payload: string): Record
  {
    var body := Body(Some(w.seqNo + 1), payload, Prev(w.prev));
    Record(body, Hash(hash(body)))
  }

  /** Bytes appended after an unterminated line form one line with it. Two JSON texts on one line
      are not JSON, and neither is a piece of one followed by another (sections 2 and 4 of RFC 8259). */
  function Weld(tail: Option<Line>, piece: Line): Line
  {
    if tail.None? || tail.value.Blank? then piece else Junk
  }

  function Append(d: Disk, bytes: Bytes, rec: Record): Disk
  {
    var lines, tail := if d.Absent? then [] else d.lines, if d.Absent? then None else d.tail;
    match bytes
    case Untouched => d
    case Opened => Present(lines, tail)
    case Fragment => Present(lines, Some(Weld(tail, Junk)))
    case NoNewline => Present(lines, Some(Weld(tail, Rec(rec))))
    case WholeLine => Present(lines + [Weld(tail, Rec(rec))], None)
  }

  /** The writer and the file at the moment `log` starts to write. */
  function Synced(w: Writer, d: Disk, adopt: AdoptFate): (Writer, Disk)
  {
    if w.synced then (w, d) else var (w1, d1) := Adopt(w, d, adopt); (w1.(synced := true), d1)
  }

  /** `log`: the new writer, the new file and the value returned. */
  function LogStep(hash: Hasher, w: Writer, d: Disk, payload: string, adopt: AdoptFate, write: WriteFate)
    : (Writer, Disk, int)
  {
    var (w1, d1) := Synced(w, d, adopt);
    var rec := NextRecord(hash, w1, payload);
    match write
    case Committed =>
      (w1.(seqNo := w1.seqNo + 1, prev := rec.h.digest), Append(d1, WholeLine, rec), w1.seqNo + 1)
    case Raises(bytes) =>
      (w1.(dropped := w1.dropped + 1, synced := false), Append(d1, bytes, rec), 0)
  }

  /** Which entry adoption takes: the last one that is a record with a number, whatever altered lines stand below it,
      all of which it counts; none when there is none. */
  lemma {:induction false} FindGoodLast(es: seq<(nat, Line)>)
    ensures var (found, altered) := FindGood(es);
            if found.None? then altered == |es| && forall j :: 0 <= j < |es| ==> !ParseRecord(es[j].1).Good?
            else
              && altered < |es|
              && var k := |es| - 1 - altered;
              && es[k].1.Rec? && es[k].1.rec == found.value.0 && es[k].1.rec.body.seqNo == Some(found.value.1)
              && forall j :: k < j < |es| ==> !ParseRecord(es[j].1).Good?
  {
    if |es| > 0 && !ParseRecord(es[|es| - 1].1).Good? {
      FindGoodLast(es[..|es| - 1]);
    }
  }

  /** What adoption leaves in the writer, of any file it can read: the larger of its own number and the adopted
      record's, that record's digest to chain to, and one anomaly for each line passed over. So however stale a
      writer is, its next record is numbered above the last numbered record on disk and above all of its own. */
  lemma AdoptedExact(hash: Hasher, w: Writer, d: Disk, fate: AdoptFate, payload: string)
    requires d.Present? && !fate.AdoptFails?
    ensures var (found, altered) := FindGood(Kept(Window(d)));
            var w1 := Adopt(w, d, fate).0;
            && w1.anomalies == w.anomalies + altered && w1.dropped == w.dropped && w1.synced == w.synced
            && w1.truncations == w.truncations + (if TornLast(Window(d)) then 1 else 0)
            && (found.None? ==> w1.seqNo == w.seqNo && w1.prev == w.prev)
            && (found.Some? ==>
                  && w1.seqNo >= w.seqNo && w1.seqNo >= found.value.1
                  && (w1.seqNo == w.seqNo || w1.seqNo == found.value.1)
                  && w1.prev == match found.value.0.h
                                case NoHash => GENESIS
                                case Hash(digest) => digest
                                case OtherHash(shown) => shown)
            && var number := NextRecord(hash, w1, payload).body.seqNo;
            && number.Some? && number.value == w1.seqNo + 1
  {
    hide Window, Healed;
    if |Kept(Window(d))| == 0 { assert FindGood(Kept(Window(d))) == (None, 0); }
  }

  /** What the writer sees of a file: its last 512 lines that are not blank, or all of them when there are no more, in
      order and with their places. */
  lemma WindowExact(d: Disk)
    ensures var w, c := Window(d), Content(LinesOf(d));
            && |w| == (if |c| <= 512 then |c| else 512)
            && (forall i :: 0 <= i < |w| ==> w[i].1 == c[|c| - |w| + i])
            && (forall i :: 0 <= i < |w| ==> w[i].0 < |LinesOf(d)| && LinesOf(d)[w[i].0] == w[i].1)
            && (forall i, j :: 0 <= i < j < |w| ==> w[i].0 < w[j].0)
  {
    EntriesExact(LinesOf(d));
    EntriesRise(LinesOf(d));
  }

  lemma {:induction false} EntriesRise(lines: seq<Line>)
    ensures forall i, j :: 0 <= i < j < |Entries(lines)| ==> Entries(lines)[i].0 < Entries(lines)[j].0
  {
    if |lines| > 0 {
      EntriesRise(lines[..|lines| - 1]);
      EntriesExact(lines[..|lines| - 1]);
    }
  }

  // ---------------------------------------------------------------- the numbers returned

  /** A call of `log`, and the file it finds: other writers may have done anything to it. */
  datatype Call = Call(payload: string, disk: Disk, adopt: AdoptFate, write: WriteFate)

  function AfterCalls(hash: Hasher, w: Writer, calls: seq<Call>): Writer
  {
    if |calls| == 0 then w
    else
      var c := calls[|calls| - 1];
      LogStep(hash, AfterCalls(hash, w, calls[..|calls| - 1]), c.disk, c.payload, c.adopt, c.write).0
  }

  function Returned(hash: Hasher, w: Writer, calls: seq<Call>): (r: seq<int>)
    ensures |r| == |calls|
  {
    if |calls| == 0 then []
    else
      var init, c := calls[..|calls| - 1], calls[|calls| - 1];
      Returned(hash, w, init) + [LogStep(hash, AfterCalls(hash, w, init), c.disk, c.payload, c.adopt, c.write).2]
  }

  function Failures(calls: seq<Call>): nat
  {
    if |calls| == 0 then 0
    else Failures(calls[..|calls| - 1]) + if calls[|calls| - 1].write.Raises? then 1 else 0
  }

  /** The numbers a writer returns, over every run of calls and whatever happens to the file meanwhile: zero exactly for
      the writes that fail, which are counted as dropped, and above every earlier number for the others. */
  lemma {:induction false} NumbersRise(hash: Hasher, w: Writer, calls: seq<Call>)
    requires w.seqNo >= 0
    ensures var r, after := Returned(hash, w, calls), AfterCalls(hash, w, calls);
            && (forall i :: 0 <= i < |r| ==> (r[i] == 0 <==> calls[i].write.Raises?) && 0 <= r[i] <= after.seqNo)
            && (forall i, j :: 0 <= i < j < |r| && r[j] != 0 ==> r[i] < r[j])
            && w.seqNo <= after.seqNo && after.dropped == w.dropped + Failures(calls)
  {
    hide LogStep;
    if |calls| > 0 {
      var init, c := calls[..|calls| - 1], calls[|calls| - 1];
      NumbersRise(hash, w, init);
      assert forall i :: 0 <= i < |init| ==> init[i] == calls[i];
      NumberRises(hash, AfterCalls(hash, w, init), c);
    }
  }

  lemma NumberRises(hash: Hasher, w: Writer, c: Call)
    ensures var (after, _, number) := LogStep(hash, w, c.disk, c.payload, c.adopt, c.write);
            if c.write.Raises? then number == 0 && after.seqNo >= w.seqNo && after.dropped == w.dropped + 1
            else number == after.seqNo > w.seqNo && after.dropped == w.dropped
  {
    hide Window, Healed, FindGood, Append, NextRecord;
  }

  /** What a call leaves. A committed one leaves its record, under the number it returns and chained to the digest the
      writer held, as the last line of the file, unless that line was begun by others; the writer chains on to it.
      A failed one leaves number and digest, and has the next call read the tail again. */
  lemma LogExact(hash: Hasher, w: Writer, d: Disk, payload: string, adopt: AdoptFate, write: WriteFate)
    ensures var (w1, d1) := Synced(w, d, adopt);
            var (after, file, number) := LogStep(hash, w, d, payload, adopt, write);
            if write.Committed? then
              var body := Body(Some(number), payload, Prev(w1.prev));
              && number == w1.seqNo + 1 == after.seqNo && after.prev == hash(body) && after.synced
              && file.Present? && file.tail.None? && |file.lines| == |if d1.Present? then d1.lines else []| + 1
              && (d1.Absent? || d1.tail.None? || d1.tail.value.Blank? ==>
                    file.lines[|file.lines| - 1] == Rec(Record(body, Hash(hash(body)))))
            else number == 0 && after.seqNo == w1.seqNo && after.prev == w1.prev && !after.synced
  {
    hide Adopt;
  }

  class DiskFile {
    var content: Disk
    constructor (d: Disk)
      ensures content == d
    {
      content := d;
    }
  }

  class AuditTrail {
    const hash: Hasher
    const disk: DiskFile
    var seqNo: int
    var prev: Digest
    var synced: bool
    var dropped: nat
    var truncations: nat
    var anomalies: nat

    function State(): Writer
      reads this
    {
      Writer(seqNo, prev, synced, dropped, truncations, anomalies)
    }

    constructor (hash: Hasher, disk: DiskFile, adopt: AdoptFate)
      modifies disk
      ensures this.hash == hash && this.disk == disk
      ensures (State(), disk.content) == Adopt(FRESH, old(disk.content), adopt)
    {
      this.hash, this.disk := hash, disk;
      seqNo, prev, synced, dropped, truncations, anomalies := 0, GENESIS, false, 0, 0, 0;
      new;
      AdoptTail(adopt);
    }

    /** The scan that keeps the last entries of the file in a bounded window. */
    static method ReadTail(lines: seq<Line>) returns (entries: seq<(nat, Line)>)
      ensures entries == LastN(Entries(lines), WINDOW)
    {
      entries := [];
      for k := 0 to |lines|
        invariant entries == LastN(Entries(lines[..k]), WINDOW)
      {
        assert lines[..k + 1][..k] == lines[..k];
        if !lines[k].Blank? {
          entries := entries + [(k, lines[k])];
          if |entries| > WINDOW {
            entries := entries[1..];
          }
        }
      }
      assert lines[..|lines|] == lines;
    }

    /** The backward scan for the last adoptable record. */
    static method ScanBack(entries: seq<(nat, Line)>)
      returns (adopted: Option<(Record, int)>, altered: nat)
      ensures (adopted, altered) == FindGood(entries)
    {
      adopted, altered := None, 0;
      var k: nat := |entries|;
      assert entries[..k] == entries;
      while k > 0
        invariant k <= |entries|
        invariant adopted.None?
        invariant var (found, more) := FindGood(entries[..k]); FindGood(entries) == (found, more + altered)
      {
        k := k - 1;
        assert entries[..k + 1][..k] == entries[..k];
        match ParseRecord(entries[k].1) {
          case Good(rec, n) =>
            adopted := Some((rec, n));
            return;
          case _ => altered := altered + 1;
        }
      }
    }

    method AdoptTail(fate: AdoptFate)
      modifies this, disk
      ensures (State(), disk.content) == Adopt(old(State()), old(disk.content), fate)
    {
      hide AdoptFrom, LastN, Entries, ParseRecord;
      if disk.content.Absent? || fate.AdoptFails? {
        return;
      }
      var entries := ReadTail(LinesOf(disk.content));
      if |entries| == 0 {
        NothingToAdopt(State(), disk.content, fate);
        return;
      }
      var last := entries[|entries| - 1];
      if ParseRecord(last.1).Torn? {
        WindowExact(disk.content);
        disk.content := CutAt(disk.content, last.0);
        truncations := truncations + 1;
        entries := entries[..|entries| - 1];
      }
      assert Adopt(old(State()), old(disk.content), fate) == AdoptFrom(State(), disk.content, entries, fate);
      Resume(entries, fate);
    }

    /** Adopt the last good record of the window, and repair a missing newline. */
    method Resume(entries: seq<(nat, Line)>, fate: AdoptFate)
      modifies this, disk
      ensures (State(), disk.content) == AdoptFrom(old(State()), old(disk.content), entries, fate)
    {
      if |entries| == 0 {
        return;
      }
      var adopted, altered := ScanBack(entries);
      anomalies := anomalies + altered;
      if adopted.None? {
        return;
      }
      seqNo := MaxInt(seqNo, adopted.value.1);
      prev := ShownHash(adopted.value.0.h);
      if !fate.RepairFails? {
        disk.content := Terminate(disk.content);
      }
    }

    method Log(payload: string, adopt: AdoptFate, write: WriteFate) returns (result: int)
      modifies this, disk
      ensures (State(), disk.content, result) ==
              LogStep(hash, old(State()), old(disk.content), payload, adopt, write)
    {
      hide Adopt, Append;
      if !synced {
        AdoptTail(adopt);
        synced := true;
      }
      seqNo := seqNo + 1;
      var body := Body(Some(seqNo), payload, Prev(prev));
      var rec := Record(body, Hash(hash(body)));
      if write.Committed? {
        disk.content := Append(disk.content, WholeLine, rec);
        prev := rec.h.digest;
        result := seqNo;
      } else {
        disk.content := Append(disk.content, write.bytes, rec);
        dropped := dropped + 1;
        seqNo := seqNo - 1;
        synced := false;
        result := 0;
      }
    }
  }
}
