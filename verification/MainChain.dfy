/** `main_chain_indices` of core/audit.py: the longest lineage of a forked trail. */
module MainChain {
  import opened Prelude
  import opened AuditFile
  import opened AuditTamper

  /** One parsed line: None for a line that is not a JSON object. */
  type Entry = Option<Record>

  predicate Linked(e: Entry) { e.Some? && e.value.h.Hash? }

  /** The first entry that carries the digest. */
  function FirstWith(records: seq<Entry>, d: Digest): (i: Option<nat>)
    ensures i.Some? ==> i.value < |records| && Linked(records[i.value]) && records[i.value].value.h.digest == d
  {
    if |records| == 0 then None
    else
      var m := |records| - 1;
      var before := FirstWith(records[..m], d);
      if before.Some? then before
      else if Linked(records[m]) && records[m].value.h.digest == d then Some(m)
      else None
  }

  /** The entry a "prev" names, in the given list. */
  function Named(records: seq<Entry>, prev: PrevField): (i: Option<nat>)
    ensures i.Some? ==> i.value < |records| && Linked(records[i.value]) && prev == Prev(records[i.value].value.h.digest)
  {
    if prev.Prev? then FirstWith(records, prev.digest) else None
  }

  /** 1 + the depth of the entry above that "prev" names. */
  function Depth(records: seq<Entry>, i: nat): nat
    requires i < |records| && Linked(records[i])
    decreases i
  {
    match Named(records[..i], records[i].value.body.prev)
    case None => 1
    case Some(p) => Depth(records, p) + 1
  }

  function Below(n: nat): (r: set<nat>)
    ensures forall i: nat :: i in r <==> i < n
  {
    if n == 0 then {} else Below(n - 1) + {n - 1}
  }

  /** The walk back from `i`, stopping at an index already visited. */
  function Walk(records: seq<Entry>, i: nat, out: set<nat>): set<nat>
    requires i < |records| && Linked(records[i])
    decreases Below(|records|) - out
  {
    if i in out then out
    else
      assert i in Below(|records|) - out && i !in Below(|records|) - (out + {i});
      match Named(records, records[i].value.body.prev)
      case None => out + {i}
      case Some(p) => Walk(records, p, out + {i})
  }

  /** `best` is a deepest entry among the first `k`, and the last such. */
  ghost predicate Deepest(records: seq<Entry>, k: nat, best: nat)
    requires k <= |records|
  {
    best < k && Linked(records[best]) &&
    forall j: nat | j < k && Linked(records[j]) ::
      Depth(records, j) < Depth(records, best) || (Depth(records, j) == Depth(records, best) && j <= best)
  }

  ghost predicate Unlookable(records: seq<Entry>)
  {
    exists i :: 0 <= i < |records| && Linked(records[i]) && records[i].value.body.prev.Unhashable?
  }

  ghost predicate IsIndex(records: seq<Entry>, idxOf: map<Digest, nat>)
  {
    && (forall d :: d in idxOf <==> FirstWith(records, d).Some?)
    && (forall d :: d in idxOf ==> FirstWith(records, d) == Some(idxOf[d]))
  }

  lemma IndexGrows(records: seq<Entry>, i: nat, idxOf: map<Digest, nat>)
    requires i < |records| && IsIndex(records[..i], idxOf)
    ensures !Linked(records[i]) || records[i].value.h.digest in idxOf ==> IsIndex(records[..i + 1], idxOf)
    ensures Linked(records[i]) && records[i].value.h.digest !in idxOf ==>
              IsIndex(records[..i + 1], idxOf[records[i].value.h.digest := i])
  {
    assert records[..i + 1][..i] == records[..i];
  }

  ghost predicate DepthsKnown(records: seq<Entry>, i: nat, depth: map<nat, nat>)
    requires i <= |records|
  {
    forall j: nat :: j < i && Linked(records[j]) ==> j in depth && depth[j] == Depth(records, j)
  }

  lemma DepthFromIndex(records: seq<Entry>, i: nat, idxOf: map<Digest, nat>, depth: map<nat, nat>)
    requires i < |records| && Linked(records[i])
    requires IsIndex(records[..i], idxOf) && DepthsKnown(records, i, depth)
    ensures var prev := records[i].value.body.prev;
            if prev.Prev? && prev.digest in idxOf
            then idxOf[prev.digest] in depth && Depth(records, i) == depth[idxOf[prev.digest]] + 1
            else Depth(records, i) == 1
  {
    var prev := records[i].value.body.prev;
    if prev.Prev? && prev.digest in idxOf {
      assert FirstWith(records[..i], prev.digest) == Some(idxOf[prev.digest]);
    }
  }

  /** The running best of the first pass. */
  ghost predicate BestSoFar(records: seq<Entry>, i: nat, best: Option<nat>, bestDepth: nat)
    requires i <= |records|
  {
    match best
    case None => bestDepth == 0 && forall j :: 0 <= j < i ==> !Linked(records[j])
    case Some(b) => Deepest(records, i, b) && bestDepth == Depth(records, b)
  }

  lemma BestGrows(records: seq<Entry>, i: nat, best: Option<nat>, bestDepth: nat)
    requires i < |records| && BestSoFar(records, i, best, bestDepth)
    ensures !Linked(records[i]) ==> BestSoFar(records, i + 1, best, bestDepth)
    ensures Linked(records[i]) && Depth(records, i) < bestDepth ==> BestSoFar(records, i + 1, best, bestDepth)
    ensures Linked(records[i]) && Depth(records, i) >= bestDepth ==>
              BestSoFar(records, i + 1, Some(i), Depth(records, i))
  {
    hide Depth;
  }

  /** The first pass: the parent map, and the deepest entry. None when a lookup raises. */
  method Deepen(records: seq<Entry>) returns (idxOf: Option<map<Digest, nat>>, best: Option<nat>)
    ensures idxOf.None? <==> Unlookable(records)
    ensures idxOf.Some? ==> IsIndex(records, idxOf.value)
    ensures idxOf.Some? ==> exists depth :: BestSoFar(records, |records|, best, depth)
  {
    hide Depth, FirstWith, IsIndex, Deepest, BestSoFar;
    var index: map<Digest, nat>, depth: map<nat, nat> := map[], map[];
    var bestDepth := 0;
    best := None;
    assert IsIndex(records[..0], index) && BestSoFar(records, 0, best, bestDepth) by { FirstPassStarts(records); }
    for i := 0 to |records|
      invariant IsIndex(records[..i], index)
      invariant DepthsKnown(records, i, depth)
      invariant forall j :: 0 <= j < i && Linked(records[j]) ==> !records[j].value.body.prev.Unhashable?
      invariant BestSoFar(records, i, best, bestDepth)
    {
      IndexGrows(records, i, index);
      BestGrows(records, i, best, bestDepth);
      if !Linked(records[i]) { continue; }
      var prev := records[i].value.body.prev;
      if prev.Unhashable? {
        return None, None;
      }
      DepthFromIndex(records, i, index, depth);
      var d := 1;
      if prev.Prev? && prev.digest in index {
        d := depth[index[prev.digest]] + 1;
      }
      depth := depth[i := d];
      if records[i].value.h.digest !in index {
        index := index[records[i].value.h.digest := i];
      }
      if d >= bestDepth {
        best, bestDepth := Some(i), d;
      }
    }
    assert records[..|records|] == records;
    idxOf := Some(index);
  }

  lemma FirstPassStarts(records: seq<Entry>)
    ensures IsIndex(records[..0], map[]) && BestSoFar(records, 0, None, 0)
  {
  }

  /** The second pass: the walk back through the parent map. */
  method WalkBack(records: seq<Entry>, idxOf: map<Digest, nat>, best: nat) returns (out: set<nat>)
    requires IsIndex(records, idxOf) && best < |records| && Linked(records[best])
    ensures out == Walk(records, best, {})
  {
    var next: Option<nat> := Some(best);
    out := {};
    while next.Some? && next.value !in out
      invariant next.Some? ==> next.value < |records| && Linked(records[next.value])
      invariant Walk(records, best, {}) == if next.Some? then Walk(records, next.value, out) else out
      decreases Below(|records|) - out, next.Some?
    {
      var i := next.value;
      assert i in Below(|records|) - out && i !in Below(|records|) - (out + {i});
      out := out + {i};
      var prev := records[i].value.body.prev;
      next := if prev.Prev? && prev.digest in idxOf then Some(idxOf[prev.digest]) else None;
    }
  }

  /** `main_chain_indices`, for every input; None stands for the TypeError Python raises when a linked
      record's "prev" is a JSON array or object. The walk ends on every input, cycles included. */
  method MainChainIndices(records: seq<Entry>) returns (result: Option<set<nat>>)
    ensures result.None? <==> Unlookable(records)
    ensures !Unlookable(records) && (exists i :: 0 <= i < |records| && Linked(records[i])) ==>
              exists best :: Deepest(records, |records|, best) && result == Some(Walk(records, best, {}))
    ensures !(exists i :: 0 <= i < |records| && Linked(records[i])) ==>
              result == Some(set i: nat | i < |records| && records[i].Some?)
  {
    var idxOf, best := Deepen(records);
    if idxOf.None? {
      return None;
    }
    if best.None? {
      return Some(set i: nat | i < |records| && records[i].Some?);
    }
    var out := WalkBack(records, idxOf.value, best.value);
    result := Some(out);
  }

  // ---------------------------------------------------------------- the longest lineage

  /** Each entry names the one before it; the first may name anything. */
  ghost predicate IsLineage(records: seq<Entry>, chain: seq<nat>)
  {
    && |chain| > 0
    && (forall k :: 0 <= k < |chain| ==> chain[k] < |records| && Linked(records[chain[k]]))
    && (forall k :: 0 < k < |chain| ==> Names(records, chain[k], chain[k - 1]))
  }

  predicate Names(records: seq<Entry>, child: nat, parent: nat)
  {
    child < |records| && parent < |records| && Linked(records[child]) && Linked(records[parent]) &&
    records[child].value.body.prev == Prev(records[parent].value.h.digest)
  }

  /** No two records carry one digest, and a record that names another stands below it. */
  ghost predicate WellOrdered(records: seq<Entry>)
  {
    && (forall i, j :: 0 <= i < j < |records| && Linked(records[i]) && Linked(records[j]) ==>
          records[i].value.h.digest != records[j].value.h.digest)
    && (forall i: nat, j: nat :: Names(records, i, j) ==> j < i)
  }

  lemma {:induction false} FirstIsOnly(records: seq<Entry>, k: nat, j: nat)
    requires WellOrdered(records) && j < k <= |records| && Linked(records[j])
    ensures FirstWith(records[..k], records[j].value.h.digest) == Some(j)
  {
    assert records[..k][..k - 1] == records[..k - 1];
    if j < k - 1 {
      FirstIsOnly(records, k - 1, j);
    }
  }

  /** In a well ordered trail the entry a record names is the same above it and in the whole file. */
  lemma NamedAgree(records: seq<Entry>, i: nat)
    requires WellOrdered(records) && i < |records| && Linked(records[i])
    ensures Named(records[..i], records[i].value.body.prev) == Named(records, records[i].value.body.prev)
    ensures var p := Named(records, records[i].value.body.prev); p.Some? ==> p.value < i && Names(records, i, p.value)
  {
    var prev := records[i].value.body.prev;
    assert records[..|records|] == records;
    var p := Named(records, prev);
    if p.Some? {
      assert Names(records, i, p.value);
      FirstIsOnly(records, i, p.value);
    }
    var q := Named(records[..i], prev);
    if q.Some? { FirstIsOnly(records, |records|, q.value); }
  }

  /** A lineage is no longer than the depth of its last entry. */
  lemma {:induction false} LineageBound(records: seq<Entry>, chain: seq<nat>)
    requires WellOrdered(records) && IsLineage(records, chain)
    ensures |chain| <= Depth(records, chain[|chain| - 1])
  {
    if |chain| > 1 {
      var m := |chain| - 1;
      assert Names(records, chain[m], chain[m - 1]);
      FirstIsOnly(records, chain[m], chain[m - 1]);
      LineageBound(records, chain[..m]);
    }
  }

  /** The lineage the walk collects, oldest first. */
  lemma {:induction false} WalkIsLineage(records: seq<Entry>, i: nat, out: set<nat>) returns (chain: seq<nat>)
    requires WellOrdered(records) && i < |records| && Linked(records[i])
    requires forall j :: j in out ==> j > i
    ensures IsLineage(records, chain) && |chain| == Depth(records, i) && chain[|chain| - 1] == i
    ensures forall k :: 0 < k < |chain| ==> chain[k - 1] < chain[k]
    ensures Walk(records, i, out) == out + (set k | k in chain)
    decreases i
  {
    hide WellOrdered, FirstWith, IsLineage;
    NamedAgree(records, i);
    match Named(records, records[i].value.body.prev)
    case None =>
      chain := [i];
      assert IsLineage(records, chain) by { SingleIsLineage(records, i); }
    case Some(p) =>
      var before := WalkIsLineage(records, p, out + {i});
      chain := before + [i];
      ExtendLineage(records, before, i);
  }

  lemma SingleIsLineage(records: seq<Entry>, i: nat)
    requires i < |records| && Linked(records[i])
    ensures IsLineage(records, [i])
  {
  }

  lemma ExtendLineage(records: seq<Entry>, before: seq<nat>, i: nat)
    requires IsLineage(records, before) && Names(records, i, before[|before| - 1])
    ensures IsLineage(records, before + [i])
    ensures (set k | k in before + [i]) == (set k | k in before) + {i}
  {
  }

  /** On a well ordered trail the result is exactly one lineage, written in file order; no lineage in
      the file is longer, and one as long ends no later. */
  lemma LongestLineage(records: seq<Entry>, best: nat) returns (chain: seq<nat>)
    requires WellOrdered(records) && Deepest(records, |records|, best)
    ensures IsLineage(records, chain) && Walk(records, best, {}) == set k | k in chain
    ensures forall k :: 0 < k < |chain| ==> chain[k - 1] < chain[k]
    ensures forall other :: IsLineage(records, other) ==>
              |other| < |chain| || (|other| == |chain| && other[|other| - 1] <= chain[|chain| - 1])
  {
    chain := WalkIsLineage(records, best, {});
    forall other | IsLineage(records, other)
      ensures |other| < |chain| || (|other| == |chain| && other[|other| - 1] <= chain[|chain| - 1])
    {
      LineageBound(records, other);
    }
  }

  /** What an append-only trail of writers gives: the sound files of the verifier, without repeated
      records, are well ordered. */
  lemma SoundIsWellOrdered(hash: Hasher, lines: seq<Line>, records: seq<Entry>)
    requires IdealHash(hash) && Sound(hash, lines) && |records| == |lines|
    requires forall i, j :: 0 <= i < j < |lines| ==> lines[i] != lines[j]
    requires forall i :: 0 <= i < |lines| ==> records[i] == (if lines[i].Rec? then Some(lines[i].rec) else None)
    ensures WellOrdered(records)
  {
    forall i | 0 <= i < |lines| ensures HashOk(hash, lines[i]) { SoundAt(hash, lines, i); }
    forall i, j | 0 <= i < j < |records| && Linked(records[i]) && Linked(records[j])
      ensures records[i].value.h.digest != records[j].value.h.digest
    {
      if records[i].value.h.digest == records[j].value.h.digest {
        SameDigestSameLine(hash, lines[i], lines[j]);
      }
    }
    forall i: nat, j: nat | Names(records, i, j) ensures j < i {
      SoundAt(hash, lines, i);
      var d := records[j].value.h.digest;
      assert d == hash(lines[j].rec.body);
      DigestsExact(lines[..i], d);
      var k :| 0 <= k < i && lines[..i][k].Rec? && lines[..i][k].rec.h == Hash(d);
      SameDigestSameLine(hash, lines[k], lines[j]);
    }
  }
}
