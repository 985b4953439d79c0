/** `e_bh` of core/evidence.py: the e-BH procedure and its false discovery rate under any dependence. */
module EBh {
  import opened Prelude

  /** One hypothesis with its e-value; the input is a dictionary in insertion order. */
  type Scored = (string, real)

  predicate Distinct(items: seq<Scored>)
  {
    forall i, j :: 0 <= i < j < |items| ==> items[i].0 != items[j].0
  }

  // ---------------------------------------------------------------- sorting and the cut

  predicate Descending(s: seq<Scored>)
  {
    forall i, j :: 0 <= i < j < |s| ==> s[i].1 >= s[j].1
  }

  /** Insert after everything at least as large. */
  function Insert(s: seq<Scored>, x: Scored): seq<Scored>
  {
    if |s| == 0 || s[|s| - 1].1 >= x.1 then s + [x]
    else Insert(s[..|s| - 1], x) + [s[|s| - 1]]
  }

  /** Python's stable `sorted(items, key=lambda kv: -kv[1])`. */
  function Ranked(items: seq<Scored>): seq<Scored>
  {
    if |items| == 0 then [] else Insert(Ranked(items[..|items| - 1]), items[|items| - 1])
  }

  /** The threshold for the k-th largest e-value among m. */
  function Threshold(m: nat, alpha: real, k: nat): real
    requires alpha != 0.0 && k > 0
  {
    (m as real) / (alpha * (k as real))
  }

  /** The largest k <= n whose k-th ranked e-value reaches the threshold; 0 if there is none. */
  function LastReaching(ranked: seq<Scored>, m: nat, alpha: real, n: nat): nat
    requires alpha != 0.0 && n <= |ranked|
  {
    if n == 0 then 0
    else if ranked[n - 1].1 >= Threshold(m, alpha, n) then n
    else LastReaching(ranked, m, alpha, n - 1)
  }

  function KStar(items: seq<Scored>, alpha: real): nat
    requires alpha != 0.0
  {
    RankedLength(items);
    LastReaching(Ranked(items), |items|, alpha, |items|)
  }

  function Names(s: seq<Scored>): set<string> { set x | x in s :: x.0 }

  function Rejected(items: seq<Scored>, alpha: real): set<string>
    requires alpha != 0.0
  {
    RankedLength(items);
    KStarRange(items, alpha);
    Names(Ranked(items)[..KStar(items, alpha)])
  }

  /** `e_bh`, as the loop it is. */
  method EBenjaminiHochberg(items: seq<Scored>, alpha: real) returns (rejected: set<string>)
    requires alpha != 0.0
    ensures rejected == Rejected(items, alpha)
  {
    hide Threshold, Insert;
    var ranked := Ranked(items);
    RankedLength(items);
    var kStar: nat := 0;
    for k := 1 to |ranked| + 1
      invariant kStar == LastReaching(ranked, |items|, alpha, k - 1) <= |ranked|
    {
      if ranked[k - 1].1 >= Threshold(|items|, alpha, k) {
        kStar := k;
      }
    }
    rejected := set x | x in ranked[..kStar] :: x.0;
  }

  lemma {:induction false} InsertKeeps(s: seq<Scored>, x: Scored)
    ensures multiset(Insert(s, x)) == multiset(s) + multiset{x} && |Insert(s, x)| == |s| + 1
  {
    if |s| > 0 && s[|s| - 1].1 < x.1 {
      InsertKeeps(s[..|s| - 1], x);
      assert s == s[..|s| - 1] + [s[|s| - 1]];
    }
  }

  lemma {:induction false} InsertSorts(s: seq<Scored>, x: Scored)
    requires Descending(s)
    ensures Descending(Insert(s, x))
  {
    if |s| > 0 && s[|s| - 1].1 < x.1 {
      var m := |s| - 1;
      InsertSorts(s[..m], x);
      InsertKeeps(s[..m], x);
      AppendLeast(s[..m], x, Insert(s[..m], x), s[m]);
    }
  }

  lemma AppendLeast(s: seq<Scored>, x: Scored, inner: seq<Scored>, last: Scored)
    requires Descending(inner) && multiset(inner) == multiset(s) + multiset{x}
    requires x.1 >= last.1 && forall i :: 0 <= i < |s| ==> s[i].1 >= last.1
    ensures Descending(inner + [last])
  {
    forall i | 0 <= i < |inner| ensures inner[i].1 >= last.1 {
      assert inner[i] in multiset(inner);
      if inner[i] != x { assert inner[i] in s; }
    }
  }

  lemma {:induction false} RankedFacts(items: seq<Scored>)
    ensures Descending(Ranked(items)) && multiset(Ranked(items)) == multiset(items)
  {
    if |items| > 0 {
      var m := |items| - 1;
      RankedFacts(items[..m]);
      InsertSorts(Ranked(items[..m]), items[m]);
      InsertKeeps(Ranked(items[..m]), items[m]);
      assert items == items[..m] + [items[m]];
    }
  }

  lemma RankedLength(items: seq<Scored>)
    ensures |Ranked(items)| == |items|
  {
    RankedFacts(items);
    assert |multiset(Ranked(items))| == |multiset(items)|;
  }

  lemma {:induction false} LastReachingFacts(ranked: seq<Scored>, m: nat, alpha: real, n: nat)
    requires alpha != 0.0 && n <= |ranked|
    ensures var k := LastReaching(ranked, m, alpha, n);
            && k <= n
            && (k > 0 ==> ranked[k - 1].1 >= Threshold(m, alpha, k))
            && (forall j :: k < j <= n ==> ranked[j - 1].1 < Threshold(m, alpha, j))
  {
    if n > 0 && ranked[n - 1].1 < Threshold(m, alpha, n) {
      LastReachingFacts(ranked, m, alpha, n - 1);
    }
  }

  lemma KStarRange(items: seq<Scored>, alpha: real)
    requires alpha != 0.0
    ensures KStar(items, alpha) <= |items|
  {
    RankedLength(items);
    LastReachingFacts(Ranked(items), |items|, alpha, |items|);
  }

  // ---------------------------------------------------------------- what is rejected

  /** How many e-values are at least `level`. */
  function Count(s: seq<Scored>, level: real): nat
  {
    if |s| == 0 then 0
    else Count(s[..|s| - 1], level) + if s[|s| - 1].1 >= level then 1 else 0
  }

  lemma {:induction false} CountInsert(s: seq<Scored>, x: Scored, level: real)
    ensures Count(Insert(s, x), level) == Count(s, level) + if x.1 >= level then 1 else 0
  {
    if |s| == 0 || s[|s| - 1].1 >= x.1 {
      assert (s + [x])[..|s|] == s;
    } else {
      var m := |s| - 1;
      CountInsert(s[..m], x, level);
      var inner := Insert(s[..m], x);
      assert (inner + [s[m]])[..|inner|] == inner;
    }
  }

  lemma {:induction false} CountRanked(items: seq<Scored>, level: real)
    ensures Count(Ranked(items), level) == Count(items, level)
  {
    if |items| > 0 {
      CountRanked(items[..|items| - 1], level);
      CountInsert(Ranked(items[..|items| - 1]), items[|items| - 1], level);
    }
  }

  /** In a descending sequence the k-th value reaches a level exactly when k values do. */
  lemma {:induction false} CountDescending(s: seq<Scored>, level: real, k: nat)
    requires Descending(s) && 0 < k <= |s|
    ensures s[k - 1].1 >= level <==> Count(s, level) >= k
    ensures Count(s, level) <= |s|
  {
    var m := |s| - 1;
    if m == 0 {
      assert s[..0] == [];
    } else if k <= m {
      CountDescending(s[..m], level, k);
      if s[m].1 >= level { assert s[k - 1].1 >= s[m].1; }
    } else {
      CountDescending(s[..m], level, m);
      if s[m].1 >= level { assert s[m - 1].1 >= s[m].1; }
    }
  }

  /** e-BH without a sort: k* is the largest k such that at least k of the e-values reach m/(alpha k). */
  lemma KStarExact(items: seq<Scored>, alpha: real)
    requires alpha != 0.0
    ensures var k := KStar(items, alpha);
            && k <= |items|
            && (k > 0 ==> Count(items, Threshold(|items|, alpha, k)) >= k)
            && (forall j :: k < j <= |items| ==> Count(items, Threshold(|items|, alpha, j)) < j)
  {
    hide Threshold, Count, Ranked, LastReaching;
    var ranked, m := Ranked(items), |items|;
    RankedFacts(items);
    RankedLength(items);
    LastReachingFacts(ranked, m, alpha, m);
    var k := KStar(items, alpha);
    if k > 0 {
      CountDescending(ranked, Threshold(m, alpha, k), k);
      CountRanked(items, Threshold(m, alpha, k));
    }
    forall j | k < j <= m ensures Count(items, Threshold(m, alpha, j)) < j {
      CountDescending(ranked, Threshold(m, alpha, j), j);
      CountRanked(items, Threshold(m, alpha, j));
    }
  }

  /** The rejected set has k* members, each of the given names, each with an e-value of at least
      m/(alpha k*), and with a hypothesis it holds every one with a larger e-value. */
  lemma RejectedExact(items: seq<Scored>, alpha: real)
    requires alpha != 0.0 && Distinct(items)
    ensures var k := KStar(items, alpha);
            && |Rejected(items, alpha)| == k
            && (forall i :: 0 <= i < |items| && items[i].0 in Rejected(items, alpha) ==>
                  k > 0 && items[i].1 >= Threshold(|items|, alpha, k))
            && Rejected(items, alpha) <= Names(items)
            && (forall i, j :: 0 <= i < |items| && 0 <= j < |items| && items[j].1 > items[i].1 ==>
                  items[i].0 in Rejected(items, alpha) ==> items[j].0 in Rejected(items, alpha))
  {
    hide Threshold, Ranked, LastReaching;
    var ranked, m, k := Ranked(items), |items|, KStar(items, alpha);
    RankedFacts(items);
    RankedLength(items);
    LastReachingFacts(ranked, m, alpha, m);
    RankedDistinct(items);
    NamesCount(ranked[..k]);
    forall i | 0 <= i < m && items[i].0 in Rejected(items, alpha)
      ensures k > 0 && items[i].1 >= Threshold(m, alpha, k)
    {
      var j :| 0 <= j < k && ranked[..k][j].0 == items[i].0;
      assert ranked[j] in multiset(items);
      var i' :| 0 <= i' < m && items[i'] == ranked[j];
      assert i' == i;
    }
    forall name | name in Rejected(items, alpha) ensures name in Names(items) {
      var j :| 0 <= j < k && ranked[..k][j].0 == name;
      assert ranked[j] in multiset(items);
    }
    forall i, j | 0 <= i < m && 0 <= j < m && items[i].0 in Rejected(items, alpha) && items[j].1 > items[i].1
      ensures items[j].0 in Rejected(items, alpha)
    {
      LargerIsRejected(items, alpha, i, j);
    }
  }

  /** Where a value stands in the ranking. */
  lemma RankOf(items: seq<Scored>, i: nat) returns (r: nat)
    requires i < |items|
    ensures r < |Ranked(items)| && Ranked(items)[r] == items[i]
  {
    RankedFacts(items);
    assert items[i] in multiset(Ranked(items));
    r :| 0 <= r < |Ranked(items)| && Ranked(items)[r] == items[i];
  }

  lemma LargerIsRejected(items: seq<Scored>, alpha: real, i: nat, j: nat)
    requires alpha != 0.0 && Distinct(items) && i < |items| && j < |items|
    requires items[i].0 in Rejected(items, alpha) && items[j].1 > items[i].1
    ensures items[j].0 in Rejected(items, alpha)
  {
    hide Threshold, Ranked, LastReaching;
    var ranked, k := Ranked(items), KStar(items, alpha);
    RankedFacts(items);
    RankedDistinct(items);
    KStarRange(items, alpha);
    RankedLength(items);
    var a := RankOf(items, i);
    var b := RankOf(items, j);
    var at :| 0 <= at < k && ranked[..k][at].0 == items[i].0;
    assert at == a;
    assert b < a;
    assert ranked[..k][b] == items[j];
  }

  /** The threshold, without a division. */
  lemma ThresholdExact(m: nat, alpha: real, k: nat, e: real)
    requires alpha > 0.0 && k > 0
    ensures e >= Threshold(m, alpha, k) <==> e * alpha * (k as real) >= m as real
  {
    var scale := alpha * (k as real);
    PositiveTimes(alpha, k as real);
    var t := (m as real) / scale;
    assert t * scale == m as real;
    assert e * alpha * (k as real) == e * scale;
    if e >= t { TimesMonotone(scale, t, e); } else { StrictTimes(scale, e, t); }
  }

  /** How many of the e-values, times alpha and k, reach the number of hypotheses. */
  function Reaching(items: seq<Scored>, m: nat, alpha: real, k: nat): nat
  {
    if |items| == 0 then 0
    else Reaching(items[..|items| - 1], m, alpha, k) +
         if items[|items| - 1].1 * alpha * (k as real) >= m as real then 1 else 0
  }

  lemma {:induction false} ReachingExact(items: seq<Scored>, m: nat, alpha: real, k: nat)
    requires alpha > 0.0 && k > 0
    ensures Reaching(items, m, alpha, k) == Count(items, Threshold(m, alpha, k))
  {
    hide Threshold;
    if |items| > 0 {
      ReachingExact(items[..|items| - 1], m, alpha, k);
      ThresholdExact(m, alpha, k, items[|items| - 1].1);
    }
  }

  /** Larger k ask for less. */
  lemma {:induction false} CountFalls(s: seq<Scored>, low: real, high: real)
    requires low <= high
    ensures Count(s, high) <= Count(s, low)
  {
    if |s| > 0 { CountFalls(s[..|s| - 1], low, high); }
  }

  lemma ThresholdFalls(m: nat, alpha: real, k: nat)
    requires alpha > 0.0 && k > 0
    ensures Threshold(m, alpha, k + 1) <= Threshold(m, alpha, k)
  {
    var e := Threshold(m, alpha, k);
    ThresholdExact(m, alpha, k, e);
    ThresholdExact(m, alpha, k + 1, e);
    var part := e * alpha;
    assert part * ((k + 1) as real) == part * (k as real) + part;
    if part < 0.0 {
      StrictTimes(k as real, part, 0.0);
    }
  }

  /** The procedure in one sentence, without a sort and without its own threshold. For a positive level the number k*
      is the largest k such that at least k of the e-values e satisfy e * alpha * k >= m, exactly k* do at k*, and
      the rejected hypotheses are exactly those. */
  lemma EBhExact(items: seq<Scored>, alpha: real, i: nat)
    requires alpha > 0.0 && Distinct(items) && i < |items|
    ensures var m, k := |items|, KStar(items, alpha);
            && k <= m
            && (k > 0 ==> Reaching(items, m, alpha, k) == k)
            && (forall j :: k < j <= m ==> Reaching(items, m, alpha, j) < j)
            && (items[i].0 in Rejected(items, alpha) <==> k > 0 && items[i].1 * alpha * (k as real) >= m as real)
  {
    hide Threshold, Count, Ranked, LastReaching, Rejected;
    var m, k := |items|, KStar(items, alpha);
    KStarExact(items, alpha);
    RejectedExact(items, alpha);
    forall j | k < j <= m ensures Reaching(items, m, alpha, j) < j { ReachingExact(items, m, alpha, j); }
    if k > 0 {
      ReachingExact(items, m, alpha, k);
      ThresholdExact(m, alpha, k, items[i].1);
      NoMoreThanK(items, alpha);
      AllReachingAreRejected(items, alpha, i);
    }
  }

  lemma NoMoreThanK(items: seq<Scored>, alpha: real)
    requires alpha > 0.0 && KStar(items, alpha) > 0
    ensures Count(items, Threshold(|items|, alpha, KStar(items, alpha))) == KStar(items, alpha)
  {
    hide Threshold, Count, Ranked, LastReaching;
    var m, k := |items|, KStar(items, alpha);
    KStarExact(items, alpha);
    CountAtMost(items, Threshold(m, alpha, k));
    if k < m {
      ThresholdFalls(m, alpha, k);
      CountFalls(items, Threshold(m, alpha, k + 1), Threshold(m, alpha, k));
      assert Count(items, Threshold(m, alpha, k + 1)) < k + 1;
    }
  }

  lemma {:induction false} CountAtMost(items: seq<Scored>, level: real)
    ensures Count(items, level) <= |items|
  {
    if |items| > 0 { CountAtMost(items[..|items| - 1], level); }
  }

  /** In the ranking the values that reach the threshold are the first k*. */
  lemma AllReachingAreRejected(items: seq<Scored>, alpha: real, i: nat)
    requires alpha > 0.0 && i < |items| && KStar(items, alpha) > 0
    requires Count(items, Threshold(|items|, alpha, KStar(items, alpha))) == KStar(items, alpha)
    ensures items[i].1 >= Threshold(|items|, alpha, KStar(items, alpha)) ==> items[i].0 in Rejected(items, alpha)
  {
    hide Threshold, Ranked, LastReaching;
    var ranked, k := Ranked(items), KStar(items, alpha);
    var level := Threshold(|items|, alpha, k);
    RankedFacts(items);
    RankedLength(items);
    KStarRange(items, alpha);
    CountRanked(items, level);
    var r := RankOf(items, i);
    if items[i].1 >= level {
      if r >= k { CountDescending(ranked, level, r + 1); }
      assert ranked[..k][r] == items[i];
    }
  }

  lemma RankedDistinct(items: seq<Scored>)
    requires Distinct(items)
    ensures Distinct(Ranked(items))
  {
    var ranked := Ranked(items);
    RankedFacts(items);
    forall i, j | 0 <= i < j < |ranked| ensures ranked[i].0 != ranked[j].0 {
      if ranked[i].0 == ranked[j].0 {
        assert ranked[i] in multiset(items) && ranked[j] in multiset(items);
        var a :| 0 <= a < |items| && items[a] == ranked[i];
        var b :| 0 <= b < |items| && items[b] == ranked[j];
        assert a == b;
        TwiceInOnceOut(ranked, items, i, j, a);
      }
    }
  }

  lemma {:induction false} OnceInDistinct(items: seq<Scored>, a: nat)
    requires Distinct(items) && a < |items|
    ensures multiset(items)[items[a]] == 1
  {
    var m := |items| - 1;
    assert items == items[..m] + [items[m]];
    if a < m {
      OnceInDistinct(items[..m], a);
    } else {
      assert items[m] !in items[..m];
    }
  }

  lemma TwiceInOnceOut(ranked: seq<Scored>, items: seq<Scored>, i: nat, j: nat, a: nat)
    requires Distinct(items) && a < |items| && i < j < |ranked| && ranked[i] == ranked[j] == items[a]
    ensures multiset(ranked) != multiset(items)
  {
    OnceInDistinct(items, a);
    assert ranked == ranked[..j] + ranked[j..];
    assert ranked[..j][i] == items[a] && ranked[j..][0] == items[a];
    assert multiset(ranked) == multiset(ranked[..j]) + multiset(ranked[j..]);
    assert items[a] in multiset(ranked[..j]) && items[a] in multiset(ranked[j..]);
  }

  lemma {:induction false} NamesCount(s: seq<Scored>)
    requires Distinct(s)
    ensures |Names(s)| == |s|
  {
    if |s| > 0 {
      var m := |s| - 1;
      NamesCount(s[..m]);
      assert s == s[..m] + [s[m]];
      assert Names(s) == Names(s[..m]) + {s[m].0};
      assert s[m].0 !in Names(s[..m]);
    }
  }

  // ---------------------------------------------------------------- false discovery rate

  /** One outcome of the whole experiment: its probability and every e-value. */
  datatype World = World(p: real, e: seq<real>)

  function Scores(names: seq<string>, e: seq<real>): seq<Scored>
    requires |names| == |e|
  {
    seq(|names|, i requires 0 <= i < |names| => (names[i], e[i]))
  }

  /** False discoveries over discoveries, 0 when there are none. */
  function Fdp(names: seq<string>, e: seq<real>, nulls: set<string>, alpha: real): real
    requires |names| == |e| && alpha != 0.0
  {
    var rejected := Rejected(Scores(names, e), alpha);
    if rejected == {} then 0.0 else (|rejected * nulls| as real) / (|rejected| as real)
  }

  /** The expected false discovery proportion. */
  function Fdr(worlds: seq<World>, names: seq<string>, nulls: set<string>, alpha: real): real
    requires alpha != 0.0 && forall w :: w in worlds ==> |w.e| == |names|
  {
    if |worlds| == 0 then 0.0
    else
      var last := worlds[|worlds| - 1];
      Fdr(worlds[..|worlds| - 1], names, nulls, alpha) + Times(last.p, Fdp(names, last.e, nulls, alpha))
  }

  /** The mean of the i-th e-value. */
  function MeanOf(worlds: seq<World>, i: nat): real
    requires forall w :: w in worlds ==> i < |w.e|
  {
    if |worlds| == 0 then 0.0
    else
      var last := worlds[|worlds| - 1];
      MeanOf(worlds[..|worlds| - 1], i) + Times(last.p, last.e[i])
  }

  /** The sum of the e-values of the null hypotheses among the first n. */
  function NullSum(names: seq<string>, e: seq<real>, nulls: set<string>, n: nat): real
    requires n <= |names| == |e|
  {
    if n == 0 then 0.0
    else NullSum(names, e, nulls, n - 1) + if names[n - 1] in nulls then e[n - 1] else 0.0
  }

  /** The mean of `NullSum`. */
  function MeanNullSum(worlds: seq<World>, names: seq<string>, nulls: set<string>, n: nat): real
    requires n <= |names| && forall w :: w in worlds ==> |w.e| == |names|
  {
    if |worlds| == 0 then 0.0
    else
      var last := worlds[|worlds| - 1];
      MeanNullSum(worlds[..|worlds| - 1], names, nulls, n) + Times(last.p, NullSum(names, last.e, nulls, n))
  }

  /** Exchange of the two sums, one name at a time. */
  lemma {:induction false} MeanNullSumStep(worlds: seq<World>, names: seq<string>, nulls: set<string>, n: nat)
    requires 0 < n <= |names| && forall w :: w in worlds ==> |w.e| == |names|
    ensures MeanNullSum(worlds, names, nulls, n) ==
            MeanNullSum(worlds, names, nulls, n - 1) + if names[n - 1] in nulls then MeanOf(worlds, n - 1) else 0.0
  {
    if |worlds| > 0 {
      var last := worlds[|worlds| - 1];
      MeanNullSumStep(worlds[..|worlds| - 1], names, nulls, n);
      TimesSum(last.p, NullSum(names, last.e, nulls, n - 1), last.e[n - 1]);
    }
  }

  lemma TimesSum(k: real, a: real, b: real)
    ensures Times(k, a + b) == Times(k, a) + Times(k, b)
    ensures Times(k, a + 0.0) == Times(k, a)
  {
  }

  /** The first n names that are null. */
  function NullNames(names: seq<string>, nulls: set<string>, n: nat): nat
    requires n <= |names|
  {
    if n == 0 then 0 else NullNames(names, nulls, n - 1) + if names[n - 1] in nulls then 1 else 0
  }

  lemma {:induction false} MeanNullSumBound(worlds: seq<World>, names: seq<string>, nulls: set<string>, n: nat)
    requires n <= |names| && forall w :: w in worlds ==> |w.e| == |names|
    requires forall i :: 0 <= i < |names| && names[i] in nulls ==> MeanOf(worlds, i) <= 1.0
    ensures MeanNullSum(worlds, names, nulls, n) <= NullNames(names, nulls, n) as real <= n as real
  {
    if n > 0 {
      MeanNullSumBound(worlds, names, nulls, n - 1);
      MeanNullSumStep(worlds, names, nulls, n);
    } else {
      MeanNullSumZero(worlds, names, nulls);
    }
  }

  lemma {:induction false} MeanNullSumZero(worlds: seq<World>, names: seq<string>, nulls: set<string>)
    requires forall w :: w in worlds ==> |w.e| == |names|
    ensures MeanNullSum(worlds, names, nulls, 0) == 0.0
  {
    if |worlds| > 0 {
      MeanNullSumZero(worlds[..|worlds| - 1], names, nulls);
    }
  }

  /** The rejected null names among the first n. */
  function Hits(names: seq<string>, rejected: set<string>, nulls: set<string>, n: nat): set<string>
    requires n <= |names|
  {
    if n == 0 then {}
    else
      var before := Hits(names, rejected, nulls, n - 1);
      if names[n - 1] in rejected && names[n - 1] in nulls then before + {names[n - 1]} else before
  }

  lemma {:induction false} HitsExact(names: seq<string>, rejected: set<string>, nulls: set<string>, n: nat)
    requires n <= |names|
    ensures forall x :: x in Hits(names, rejected, nulls, n) <==>
              x in rejected && x in nulls && exists i :: 0 <= i < n && names[i] == x
  {
    if n > 0 {
      HitsExact(names, rejected, nulls, n - 1);
    }
  }

  /** If every rejected e-value is at least `level`, the rejected nulls together carry at most the sum
      of the null e-values. */
  lemma {:induction false} HitsBound(names: seq<string>, e: seq<real>, rejected: set<string>, nulls: set<string>,
                                     n: nat, level: real)
    requires n <= |names| == |e|
    requires forall i :: 0 <= i < |e| ==> e[i] >= 0.0
    requires forall i :: 0 <= i < |e| && names[i] in rejected ==> e[i] >= level
    requires level >= 0.0
    ensures Times(level, |Hits(names, rejected, nulls, n)| as real) <= NullSum(names, e, nulls, n)
  {
    if n > 0 {
      HitsBound(names, e, rejected, nulls, n - 1, level);
      var before := Hits(names, rejected, nulls, n - 1);
      if names[n - 1] in rejected && names[n - 1] in nulls {
        var after := |before + {names[n - 1]}| as real;
        assert after <= |before| as real + 1.0;
        TimesMonotone(level, after, |before| as real + 1.0);
        TimesSum(level, |before| as real, 1.0);
        TimesMonotone(level, 0.0, 1.0);
      }
    }
  }

  /** In one world the false discovery proportion is at most alpha/m times the null e-values. */
  lemma FdpBound(names: seq<string>, e: seq<real>, nulls: set<string>, alpha: real)
    requires |names| == |e| && alpha > 0.0 && |names| > 0
    requires forall i, j :: 0 <= i < j < |names| ==> names[i] != names[j]
    requires forall i :: 0 <= i < |e| ==> e[i] >= 0.0
    ensures Fdp(names, e, nulls, alpha) <= Times(alpha / (|names| as real), NullSum(names, e, nulls, |names|))
    ensures NullSum(names, e, nulls, |names|) >= 0.0
  {
    var items := Scores(names, e);
    var rejected, k, m := Rejected(items, alpha), KStar(items, alpha), |names|;
    RejectedExact(items, alpha);
    HitsBound(names, e, {}, nulls, m, 0.0);
    TimesMonotone(0.0, |Hits(names, {}, nulls, m)| as real, |Hits(names, {}, nulls, m)| as real);
    if k > 0 {
      var level := Threshold(m, alpha, k);
      forall i | 0 <= i < m && names[i] in rejected ensures e[i] >= level {
        assert items[i].0 == names[i];
      }
      LevelIsPositive(m, alpha, k);
      HitsBound(names, e, rejected, nulls, m, level);
      HitsExact(names, rejected, nulls, m);
      assert Hits(names, rejected, nulls, m) == rejected * nulls by {
        forall x | x in rejected * nulls ensures x in Hits(names, rejected, nulls, m) {
          assert x in Names(items);
          var i :| 0 <= i < m && items[i].0 == x;
          assert names[i] == x;
        }
      }
      Rescale(m, alpha, k, |rejected * nulls| as real, NullSum(names, e, nulls, m));
    } else {
      var scale := alpha / (m as real);
      assert scale > 0.0;
      TimesMonotone(scale, 0.0, NullSum(names, e, nulls, m));
    }
  }

  lemma LevelIsPositive(m: nat, alpha: real, k: nat)
    requires m > 0 && alpha > 0.0 && k > 0
    ensures Threshold(m, alpha, k) > 0.0
  {
    assert alpha * (k as real) > 0.0;
  }

  lemma Rescale(m: nat, alpha: real, k: nat, hits: real, sum: real)
    requires m > 0 && alpha > 0.0 && k > 0 && Times(Threshold(m, alpha, k), hits) <= sum
    ensures hits / (k as real) <= Times(alpha / (m as real), sum)
  {
    var scale := alpha / (m as real);
    assert scale > 0.0;
    TimesMonotone(scale, Times(Threshold(m, alpha, k), hits), sum);
    var d := alpha * (k as real);
    assert d > 0.0;
    assert scale * ((m as real) / d) == 1.0 / (k as real);
    assert scale * (((m as real) / d) * hits) == (scale * ((m as real) / d)) * hits;
  }

  lemma {:induction false} FdrBound(worlds: seq<World>, names: seq<string>, nulls: set<string>, alpha: real)
    requires alpha > 0.0 && |names| > 0
    requires forall i, j :: 0 <= i < j < |names| ==> names[i] != names[j]
    requires forall w :: w in worlds ==> |w.e| == |names| && w.p >= 0.0 && forall i :: 0 <= i < |w.e| ==> w.e[i] >= 0.0
    ensures Fdr(worlds, names, nulls, alpha) <=
            Times(alpha / (|names| as real), MeanNullSum(worlds, names, nulls, |names|))
  {
    hide Fdp, NullSum, Times;
    var scale := alpha / (|names| as real);
    if |worlds| > 0 {
      var init, last := worlds[..|worlds| - 1], worlds[|worlds| - 1];
      FdrBound(init, names, nulls, alpha);
      FdpBound(names, last.e, nulls, alpha);
      var sum := NullSum(names, last.e, nulls, |names|);
      TimesMonotone(last.p, Fdp(names, last.e, nulls, alpha), Times(scale, sum));
      TimesSwap(last.p, scale, sum);
      TimesSum(scale, MeanNullSum(init, names, nulls, |names|), Times(last.p, sum));
    } else {
      ScaleZero(scale);
    }
  }

  lemma ScaleZero(k: real)
    ensures Times(k, 0.0) == 0.0
  {
  }

  lemma TimesSwap(a: real, b: real, c: real)
    ensures Times(a, Times(b, c)) == Times(b, Times(a, c))
  {
  }

  /** e-BH controls the false discovery rate under any dependence: on every finite probability space
      with nonnegative e-values whose means are at most 1 for the true nulls, the expected proportion of
      false discoveries is at most alpha times the share of nulls, hence at most alpha. */
  lemma FdrControl(worlds: seq<World>, names: seq<string>, nulls: set<string>, alpha: real)
    requires alpha > 0.0
    requires forall i, j :: 0 <= i < j < |names| ==> names[i] != names[j]
    requires forall w :: w in worlds ==> |w.e| == |names| && w.p >= 0.0 && forall i :: 0 <= i < |w.e| ==> w.e[i] >= 0.0
    requires forall i :: 0 <= i < |names| && names[i] in nulls ==> MeanOf(worlds, i) <= 1.0
    ensures |names| > 0 ==>
              Fdr(worlds, names, nulls, alpha) <= alpha * (NullNames(names, nulls, |names|) as real) / (|names| as real)
    ensures Fdr(worlds, names, nulls, alpha) <= alpha
  {
    hide Times, Fdr, MeanNullSum, NullNames, MeanOf;
    if |names| == 0 {
      NothingToReject(worlds, names, nulls, alpha);
    } else {
      FdrBound(worlds, names, nulls, alpha);
      MeanNullSumBound(worlds, names, nulls, |names|);
      Share(alpha, |names|, MeanNullSum(worlds, names, nulls, |names|), NullNames(names, nulls, |names|) as real);
    }
  }

  lemma Share(alpha: real, m: nat, mean: real, nulls: real)
    requires alpha > 0.0 && m > 0 && mean <= nulls <= m as real
    ensures Times(alpha / (m as real), mean) <= alpha * nulls / (m as real) <= alpha
  {
    var scale := alpha / (m as real);
    assert scale > 0.0 && scale * (m as real) == alpha;
    TimesMonotone(scale, mean, nulls);
    TimesMonotone(scale, nulls, m as real);
    assert scale * nulls == alpha * nulls / (m as real);
  }

  lemma {:induction false} NothingToReject(worlds: seq<World>, names: seq<string>, nulls: set<string>, alpha: real)
    requires alpha != 0.0 && |names| == 0 && forall w :: w in worlds ==> |w.e| == |names|
    ensures Fdr(worlds, names, nulls, alpha) == 0.0
  {
    if |worlds| > 0 {
      var last := worlds[|worlds| - 1];
      NothingToReject(worlds[..|worlds| - 1], names, nulls, alpha);
      assert Rejected(Scores(names, last.e), alpha) == {};
    }
  }
}
