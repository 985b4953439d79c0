/** The audit file of core/audit.py: what a line can be, what is on disk, and the verifier
    `verify_chain`.

    A line is classified by what a JSON parser makes of it. The hash is a parameter; the results
    that need it ask for an ideal one (injective, never equal to the genesis marker). */
module AuditFile {
  import opened Prelude

  type Digest = string

  const GENESIS: Digest := "0000000000000000"

  /** The value stored under "prev": absent (or a value that equals no digest), a string, or a
      JSON array or object, which Python cannot look up in a dictionary. */
  datatype PrevField = NoPrev | Prev(digest: Digest) | Unhashable

  /** The value stored under "h"; for a value that is not a string, what `str` shows of it. */
  datatype HashField = NoHash | Hash(digest: Digest) | OtherHash(shown: Digest)

  /** A record without its "h". `seqNo` is None when "seq" does not convert to an int. */
  datatype Body = Body(seqNo: Option<int>, payload: string, prev: PrevField)

  datatype Record = Record(body: Body, h: HashField)

  /** A line: only white space; bytes that are not JSON; JSON that is not an object; an object. */
  datatype Line = Blank | Junk | Scalar | Rec(rec: Record)

  /** The file: terminated lines and, after them, possibly bytes with no newline. */
  datatype Disk = Absent | Present(lines: seq<Line>, tail: Option<Line>)

  type Hasher = Body -> Digest

  ghost predicate IdealHash(hash: Hasher)
  {
    && (forall b :: hash(b) != GENESIS)
    && (forall b, c :: hash(b) == hash(c) ==> b == c)
  }

  function LinesOf(d: Disk): seq<Line>
  {
    match d
    case Absent => []
    case Present(lines, None) => lines
    case Present(lines, Some(t)) => lines + [t]
  }

  /** The lines that are not blank. */
  function Content(lines: seq<Line>): seq<Line>
  {
    if |lines| == 0 then []
    else
      var before := Content(lines[..|lines| - 1]);
      var last := lines[|lines| - 1];
      if last.Blank? then before else before + [last]
  }

  predicate HashOk(hash: Hasher, line: Line)
  {
    line.Rec? && line.rec.h == Hash(hash(line.rec.body))
  }

  // ---------------------------------------------------------------- verify_chain

  /** The loop variables of `verify_chain`; `seen` holds the keys of its dictionary. */
  datatype Scan = Scan(n: nat, prev: Digest, firstBreak: Option<nat>, breakTorn: bool,
                       afterBreak: nat, seams: nat, seen: set<Digest>)

  datatype Verdict = Verdict(ok: bool, records: nat, firstBreak: Option<nat>, tornTail: bool,
                             seams: nat, tamper: bool)

  const START: Scan := Scan(0, GENESIS, None, false, 0, 0, {})

  function ScanLine(hash: Hasher, s: Scan, line: Line): Scan
  {
    if line.Blank? then s
    else if s.firstBreak.Some? then s.(afterBreak := s.afterBreak + 1)
    else if line.Junk? then s.(firstBreak := Some(s.n + 1), breakTorn := true)
    else if !HashOk(hash, line) then s.(firstBreak := Some(s.n + 1), breakTorn := false)
    else
      var digest := line.rec.h.digest;
      var parent := line.rec.body.prev;
      if parent == Prev(s.prev) then
        s.(n := s.n + 1, prev := digest, seen := s.seen + {digest})
      else if parent.Prev? && (parent.digest in s.seen || parent.digest == GENESIS) then
        s.(n := s.n + 1, prev := digest, seen := s.seen + {digest}, seams := s.seams + 1)
      else s.(firstBreak := Some(s.n + 1), breakTorn := false)
  }

  function ScanAll(hash: Hasher, lines: seq<Line>): Scan
  {
    if |lines| == 0 then START
    else ScanLine(hash, ScanAll(hash, lines[..|lines| - 1]), lines[|lines| - 1])
  }

  function Judge(s: Scan): Verdict
  {
    var torn := s.firstBreak.Some? && s.afterBreak == 0 && s.breakTorn;
    Verdict(s.firstBreak.None? && s.seams == 0, s.n, s.firstBreak, torn, s.seams,
            s.firstBreak.Some? && !torn)
  }

  /** What `verify_chain` reports; a file that cannot be opened reads as tampered. */
  function Verify(hash: Hasher, d: Disk): Verdict
  {
    if d.Absent? then Verdict(false, 0, None, false, 0, true) else Judge(ScanAll(hash, LinesOf(d)))
  }

  /** `verify_chain`, as the loop it is. */
  method VerifyChain(hash: Hasher, d: Disk) returns (v: Verdict)
    ensures v == Verify(hash, d)
  {
    if d.Absent? {
      return Verdict(false, 0, None, false, 0, true);
    }
    var lines := LinesOf(d);
    var n, prev, firstBreak, breakTorn, afterBreak, seams := 0, GENESIS, None, false, 0, 0;
    var seen: map<Digest, nat> := map[];
    for k := 0 to |lines|
      invariant ScanAll(hash, lines[..k]) ==
                Scan(n, prev, firstBreak, breakTorn, afterBreak, seams, seen.Keys)
    {
      assert lines[..k + 1][..k] == lines[..k];
      var line := lines[k];
      if line.Blank? { continue; }
      if firstBreak.Some? {
        afterBreak := afterBreak + 1;
        continue;
      }
      if line.Junk? {
        firstBreak, breakTorn := Some(n + 1), true;
        continue;
      }
      if !HashOk(hash, line) {
        firstBreak, breakTorn := Some(n + 1), false;
        continue;
      }
      var parent := line.rec.body.prev;
      if parent != Prev(prev) {
        if parent.Prev? && (parent.digest in seen || parent.digest == GENESIS) {
          seams := seams + 1;
        } else {
          firstBreak, breakTorn := Some(n + 1), false;
          continue;
        }
      }
      prev := line.rec.h.digest;
      seen := seen[prev := n + 1];
      n := n + 1;
    }
    assert lines[..|lines|] == lines;
    var torn := firstBreak.Some? && afterBreak == 0 && breakTorn;
    v := Verdict(firstBreak.None? && seams == 0, n, firstBreak, torn, seams,
                 firstBreak.Some? && !torn);
  }

  // ---------------------------------------------------------------- what the verdict means

  /** The digests the records of these lines carry. */
  function Digests(lines: seq<Line>): set<Digest>
  {
    if |lines| == 0 then {}
    else
      var last := lines[|lines| - 1];
      Digests(lines[..|lines| - 1]) + if last.Rec? && last.rec.h.Hash? then {last.rec.h.digest} else {}
  }

  /** A line that may follow `above`: its own hash is right, and its parent is the genesis marker or
      a record above it. */
  predicate Fits(hash: Hasher, above: seq<Line>, line: Line)
  {
    && HashOk(hash, line)
    && line.rec.body.prev.Prev?
    && (line.rec.body.prev.digest == GENESIS || line.rec.body.prev.digest in Digests(above))
  }

  /** Every line fits the lines above it. */
  predicate Sound(hash: Hasher, lines: seq<Line>)
  {
    |lines| == 0 ||
    var init := lines[..|lines| - 1]; Sound(hash, init) && Fits(hash, init, lines[|lines| - 1])
  }

  /** The digest a record must name to be chained to the line above it. */
  function Tip(lines: seq<Line>): Digest
  {
    if |lines| > 0 && lines[|lines| - 1].Rec? && lines[|lines| - 1].rec.h.Hash?
    then lines[|lines| - 1].rec.h.digest else GENESIS
  }

  predicate ChainedTo(above: seq<Line>, line: Line)
  {
    line.Rec? && line.rec.body.prev == Prev(Tip(above))
  }

  /** How many records are not chained to the line above them. */
  function Forks(lines: seq<Line>): nat
  {
    if |lines| == 0 then 0
    else
      var init := lines[..|lines| - 1];
      Forks(init) + if ChainedTo(init, lines[|lines| - 1]) then 0 else 1
  }

  lemma {:induction false} DigestsExact(lines: seq<Line>, d: Digest)
    ensures d in Digests(lines) <==>
            exists j :: 0 <= j < |lines| && lines[j].Rec? && lines[j].rec.h == Hash(d)
  {
    if |lines| > 0 {
      var m := |lines| - 1;
      var init := lines[..m];
      DigestsExact(init, d);
      if d in Digests(init) {
        var j :| 0 <= j < |init| && init[j].Rec? && init[j].rec.h == Hash(d);
        assert lines[j] == init[j];
      } else if exists j :: 0 <= j < |lines| && lines[j].Rec? && lines[j].rec.h == Hash(d) {
        var j :| 0 <= j < |lines| && lines[j].Rec? && lines[j].rec.h == Hash(d);
        if j < m { assert init[j] == lines[j]; }
      }
    }
  }

  lemma SoundAppend(hash: Hasher, lines: seq<Line>, line: Line)
    ensures Sound(hash, lines + [line]) <==> Sound(hash, lines) && Fits(hash, lines, line)
  {
    assert (lines + [line])[..|lines|] == lines;
  }

  /** The same, line by line: each line of a sound sequence fits the lines above it, and a sequence
      that is not sound has a line that does not. */
  lemma {:induction false} SoundAt(hash: Hasher, lines: seq<Line>, i: nat)
    requires i < |lines| && Sound(hash, lines)
    ensures Fits(hash, lines[..i], lines[i])
  {
    if i < |lines| - 1 {
      SoundAt(hash, lines[..|lines| - 1], i);
      assert lines[..|lines| - 1][..i] == lines[..i];
    }
  }

  lemma {:induction false} UnsoundAt(hash: Hasher, lines: seq<Line>) returns (i: nat)
    requires !Sound(hash, lines)
    ensures i < |lines| && !Fits(hash, lines[..i], lines[i])
  {
    var m := |lines| - 1;
    if Sound(hash, lines[..m]) {
      i := m;
    } else {
      i := UnsoundAt(hash, lines[..m]);
      assert lines[..m][..i] == lines[..i];
    }
  }

  lemma {:induction false} SoundPrefix(hash: Hasher, lines: seq<Line>, k: nat)
    requires k <= |lines| && Sound(hash, lines)
    ensures Sound(hash, lines[..k])
  {
    if k < |lines| {
      SoundPrefix(hash, lines[..|lines| - 1], k);
      assert lines[..|lines| - 1][..k] == lines[..k];
    } else {
      assert lines[..k] == lines;
    }
  }

  /** Blank lines do not change the scan. */
  lemma {:induction false} ScanIgnoresBlanks(hash: Hasher, lines: seq<Line>)
    ensures ScanAll(hash, lines) == ScanAll(hash, Content(lines))
  {
    if |lines| > 0 {
      var init, last := lines[..|lines| - 1], lines[|lines| - 1];
      ScanIgnoresBlanks(hash, init);
      if !last.Blank? {
        assert (Content(init) + [last])[..|Content(init)|] == Content(init);
      }
    }
  }

  lemma {:induction false} ContentHasNoBlanks(lines: seq<Line>)
    ensures forall i :: 0 <= i < |Content(lines)| ==> !Content(lines)[i].Blank?
  {
    if |lines| > 0 {
      ContentHasNoBlanks(lines[..|lines| - 1]);
    }
  }

  lemma {:induction false} ContentOfNoBlanks(lines: seq<Line>)
    requires forall i :: 0 <= i < |lines| ==> !lines[i].Blank?
    ensures Content(lines) == lines
  {
    if |lines| > 0 {
      ContentOfNoBlanks(lines[..|lines| - 1]);
      assert lines == lines[..|lines| - 1] + [lines[|lines| - 1]];
    }
  }

  /** The scan meets no break exactly on a sound sequence; it has then counted every record, holds
      their digests, and its seam counter is the number of forks. */
  lemma {:induction false} ScanOfSound(hash: Hasher, lines: seq<Line>)
    requires forall i :: 0 <= i < |lines| ==> !lines[i].Blank?
    ensures var s := ScanAll(hash, lines);
            && (s.firstBreak.None? <==> Sound(hash, lines))
            && (Sound(hash, lines) ==> s.n == |lines| && s.prev == Tip(lines) && s.afterBreak == 0 &&
                                       s.seams == Forks(lines) && s.seen == Digests(lines))
  {
    if |lines| > 0 {
      var m := |lines| - 1;
      assert lines == lines[..m] + [lines[m]];
      ScanOfSound(hash, lines[..m]);
      SoundAppend(hash, lines[..m], lines[m]);
      TipIsDigest(lines[..m]);
    }
  }

  lemma TipIsDigest(lines: seq<Line>)
    ensures Tip(lines) == GENESIS || Tip(lines) in Digests(lines)
  {
  }

  /** The exact meaning of every field of the verdict, for every file that can be opened: no alarm
      means a sound sequence of records, followed by at most one last line that is not JSON. */
  lemma TamperExact(hash: Hasher, d: Disk)
    requires d.Present?
    ensures var c := Content(LinesOf(d));
            var tornLast := |c| > 0 && c[|c| - 1].Junk? && Sound(hash, c[..|c| - 1]);
            var v := Verify(hash, d);
            && (v.tamper <==> !Sound(hash, c) && !tornLast)
            && (v.tornTail <==> tornLast)
            && (v.ok <==> Sound(hash, c) && Forks(c) == 0)
            && (Sound(hash, c) ==> v.records == |c| && v.seams == Forks(c) && v.firstBreak.None?)
            && (tornLast ==> v.records == |c| - 1 && v.seams == Forks(c[..|c| - 1]) &&
                             v.firstBreak == Some(|c|))
  {
    var c := Content(LinesOf(d));
    ScanIgnoresBlanks(hash, LinesOf(d));
    ContentHasNoBlanks(LinesOf(d));
    ScanOfSound(hash, c);
    if |c| > 0 {
      var m := |c| - 1;
      ScanOfSound(hash, c[..m]);
      assert c == c[..m] + [c[m]];
      SoundAppend(hash, c[..m], c[m]);
    }
  }

  /** How many lines, from the first, make a sound sequence. */
  function SoundLength(hash: Hasher, lines: seq<Line>): (k: nat)
    ensures k <= |lines|
  {
    if |lines| == 0 then 0
    else
      var k := SoundLength(hash, lines[..|lines| - 1]);
      if k == |lines| - 1 && Fits(hash, lines[..k], lines[k]) then |lines| else k
  }

  lemma {:induction false} SoundLengthExact(hash: Hasher, lines: seq<Line>)
    ensures var k := SoundLength(hash, lines);
            Sound(hash, lines[..k]) && (k < |lines| ==> !Fits(hash, lines[..k], lines[k]))
  {
    if |lines| > 0 {
      var n := |lines| - 1;
      SoundLengthExact(hash, lines[..n]);
      var k := SoundLength(hash, lines[..n]);
      assert lines[..n][..k] == lines[..k];
      if SoundLength(hash, lines) == |lines| {
        assert lines[..|lines|] == lines;
      }
    }
  }

  /** What the scan holds after any lines: the first break is the line after the longest sound beginning, and what
      follows it is only counted. */
  lemma {:induction false} ScanExact(hash: Hasher, lines: seq<Line>)
    requires forall i :: 0 <= i < |lines| ==> !lines[i].Blank?
    ensures var s, k := ScanAll(hash, lines), SoundLength(hash, lines);
            && s.n == k && s.prev == Tip(lines[..k]) && s.seams == Forks(lines[..k]) && s.seen == Digests(lines[..k])
            && (if k == |lines| then s.firstBreak.None? && s.afterBreak == 0
                else s.firstBreak == Some(k + 1) && s.breakTorn == lines[k].Junk? && s.afterBreak == |lines| - k - 1)
  {
    var k := SoundLength(hash, lines);
    SoundLengthExact(hash, lines);
    if k == |lines| {
      assert lines[..k] == lines;
      ScanOfSound(hash, lines);
    } else {
      var n := |lines| - 1;
      ScanExact(hash, lines[..n]);
      assert SoundLength(hash, lines[..n]) == k && lines[..n][..k] == lines[..k];
      if k == n { ScanBreaks(hash, lines[..n], lines[n]); }
    }
  }

  /** The scan breaks at a line that does not fit. */
  lemma ScanBreaks(hash: Hasher, lines: seq<Line>, line: Line)
    requires Sound(hash, lines) && !Fits(hash, lines, line) && !line.Blank?
    requires forall i :: 0 <= i < |lines| ==> !lines[i].Blank?
    ensures var s, t := ScanAll(hash, lines), ScanLine(hash, ScanAll(hash, lines), line);
            t == s.(firstBreak := Some(|lines| + 1), breakTorn := line.Junk?)
  {
    ScanOfSound(hash, lines);
    TipIsDigest(lines);
  }

  /** Every field of the verdict for every file, tampered ones included. One that is not there has nothing verified, no
      break, and the alarm on; of any other, with `k` the length of the longest sound beginning of the content: the
      records verified are those `k`, the seams are their forks, the first break is the next line, and the break is a
      torn tail exactly when that line is the last and is not JSON; any other break is tampering. */
  lemma VerdictExact(hash: Hasher, d: Disk)
    ensures d.Absent? ==> var v := Verify(hash, d);
              !v.ok && v.tamper && !v.tornTail && v.firstBreak.None? && v.records == 0 && v.seams == 0
    ensures var c := Content(LinesOf(d));
            var k, v := SoundLength(hash, c), Verify(hash, d);
            d.Present? ==>
            && v.records == k && v.seams == Forks(c[..k])
            && v.firstBreak == (if k == |c| then None else Some(k + 1))
            && (v.tornTail <==> k == |c| - 1 && c[k].Junk?)
            && (v.tamper <==> k < |c| && !(k == |c| - 1 && c[k].Junk?))
            && (v.ok <==> k == |c| && Forks(c) == 0)
  {
    if d.Present? {
      var c := Content(LinesOf(d));
      ScanIgnoresBlanks(hash, LinesOf(d));
      ContentHasNoBlanks(LinesOf(d));
      ScanExact(hash, c);
      assert c[..|c|] == c;
    }
  }
}
