/** `betting_eprocess` and `status` of core/evidence.py, and Ville's inequality for the bets the code
    places. Probability is exact: a finite tree of outcomes whose branches may depend on the whole
    history. */
module Betting {
  import opened Prelude

  function Deviations(s: seq<real>): (d: seq<real>)
    requires |s| > 0
    ensures |d| == |s|
  {
    seq(|s|, i requires 0 <= i < |s| => (s[i] - Mean(s)) * (s[i] - Mean(s)))
  }

  function Variance(s: seq<real>): real
    requires |s| > 0
  {
    Mean(Deviations(s))
  }

  /** The bet on a mean `m` and variance `v`, clamped to [0, lamMax]. */
  function AGrapa(m: real, v: real, lamMax: real): real
  {
    if v + m * m > 0.0 then Min(Max(m / (v + m * m), 0.0), lamMax) else 0.0
  }

  /** The question an e-process asks: "greater" or "less" than the null mean, with a bound. */
  datatype Test = Test(nullMean: real, bound: real, greater: bool) {
    function Y(x: real): real
    {
      (if greater then 1.0 else -1.0) * (x - nullMean)
    }

    function Ys(xs: seq<real>): seq<real>
    {
      seq(|xs|, i requires 0 <= i < |xs| => Y(xs[i]))
    }

    /** The stake for the next observation, from the past ones only. */
    function Stake(past: seq<real>): real
      requires bound != 0.0
    {
      if |past| < 2 then 0.0
      else AGrapa(Mean(past), Variance(past), 1.0 / (2.0 * bound))
    }

    /** What the wealth is multiplied by. */
    function Factor(past: seq<real>, y: real): real
      requires bound != 0.0
    {
      Max(1.0 + Times(Stake(past), Min(y, bound)), 0.0)
    }

    /** The e-value after these observations. */
    function Wealth(xs: seq<real>): real
      requires bound != 0.0
    {
      if |xs| == 0 then 1.0
      else var past := xs[..|xs| - 1]; Times(Wealth(past), Factor(Ys(past), Y(xs[|xs| - 1])))
    }

    /** The e-process has reached `c` after some observation. */
    predicate Reaches(xs: seq<real>, c: real)
      requires bound != 0.0
    {
      |xs| > 0 && (Wealth(xs) >= c || Reaches(xs[..|xs| - 1], c))
    }
  }

  /** `betting_eprocess`: the running e-value after each observation. */
  method BettingEprocess(test: Test, xs: seq<real>) returns (out: array<real>)
    requires test.bound != 0.0
    ensures out.Length == |xs|
    ensures forall t {:trigger out[t]} :: 0 <= t < |xs| ==> out[t] == test.Wealth(xs[..t + 1])
  {
    hide Test.Wealth, Mean, Variance, AGrapa, Test.Stake, Test.Factor;
    var ys := test.Ys(xs);
    var lamMax := 1.0 / (2.0 * test.bound);
    var wealth := 1.0;
    out := new real[|xs|];
    WealthStarts(test);
    for t := 0 to |xs|
      invariant wealth == test.Wealth(xs[..t])
      invariant forall j {:trigger out[j]} :: 0 <= j < t ==> out[j] == test.Wealth(xs[..j + 1])
    {
      assert xs[..t + 1] == xs[..t] + [xs[t]] && ys[..t] == test.Ys(xs[..t]);
      WealthGrows(test, xs[..t], xs[t]);
      var lam := 0.0;
      if t >= 2 {
        var past := ys[..t];
        lam := AGrapa(Mean(past), Variance(past), lamMax);
      }
      FactorIs(test, ys[..t], ys[t], lam, lamMax);
      wealth := wealth * Max(1.0 + lam * Min(ys[t], test.bound), 0.0);
      out[t] := wealth;
    }
  }

  lemma FactorIs(test: Test, past: seq<real>, y: real, lam: real, lamMax: real)
    requires test.bound != 0.0 && lamMax == 1.0 / (2.0 * test.bound)
    requires lam == if |past| < 2 then 0.0 else AGrapa(Mean(past), Variance(past), lamMax)
    ensures test.Factor(past, y) == Max(1.0 + lam * Min(y, test.bound), 0.0)
  {
    hide AGrapa, Mean, Variance;
    assert lam == test.Stake(past);
  }

  lemma WealthStarts(test: Test)
    requires test.bound != 0.0
    ensures test.Wealth([]) == 1.0
  {
  }

  lemma WealthGrows(test: Test, past: seq<real>, x: real)
    requires test.bound != 0.0
    ensures test.Wealth(past + [x]) == Times(test.Wealth(past), test.Factor(test.Ys(past), test.Y(x)))
  {
    hide Test.Factor, Test.Ys, Test.Y;
    var whole := past + [x];
    assert whole[..|whole| - 1] == past;
  }

  lemma ReachesGrows(test: Test, past: seq<real>, x: real, c: real)
    requires test.bound != 0.0
    ensures test.Reaches(past + [x], c) <==> test.Wealth(past + [x]) >= c || test.Reaches(past, c)
  {
    hide Test.Wealth;
    assert (past + [x])[..|past|] == past;
  }

  /** The e-value the method returns at index `t` is at least `c`. */
  predicate AtLeast(test: Test, xs: seq<real>, t: nat, c: real)
    requires test.bound != 0.0 && t < |xs|
  {
    test.Wealth(xs[..t + 1]) >= c
  }

  /** `Reaches` is a statement about the values the method returns. */
  lemma {:induction false} ReachesExact(test: Test, xs: seq<real>, c: real)
    requires test.bound != 0.0
    ensures test.Reaches(xs, c) <==> exists t :: 0 <= t < |xs| && AtLeast(test, xs, t, c)
  {
    hide Test.Wealth;
    if |xs| > 0 {
      var m := |xs| - 1;
      var past := xs[..m];
      ReachesExact(test, past, c);
      assert xs[..m + 1] == xs;
      forall t | 0 <= t < m ensures AtLeast(test, past, t, c) <==> AtLeast(test, xs, t, c) {
        assert past[..t + 1] == xs[..t + 1];
      }
      assert AtLeast(test, xs, m, c) <==> test.Wealth(xs) >= c;
    }
  }

  // ---------------------------------------------------------------- what the stake maximises

  /** The approximate growth of a bet `lam` over the past observations: the first two terms of the logarithm. */
  function Growth(past: seq<real>, lam: real): real
  {
    lam * Sum(past) - lam * lam * SquareSum(past) / 2.0
  }

  /** Variance and squared mean make the mean square. */
  lemma MeanSquare(s: seq<real>)
    requires |s| > 0
    ensures Variance(s) + Mean(s) * Mean(s) == SquareSum(s) / (|s| as real)
  {
    hide Mean, Sum, SquareSum, Spread, Square;
    DeviationSum(s);
    MeanIs(s);
    MeanIs(Deviations(s));
    MeanParts(SquareSum(s), Sum(s), |s| as real, Mean(s));
  }

  lemma DeviationSum(s: seq<real>)
    requires |s| > 0
    ensures Sum(Deviations(s)) == Spread(SquareSum(s), Sum(s), |s| as real, Mean(s))
  {
    hide Mean, Sum, SquareSum, Spread, Square;
    forall i | 0 <= i < |s| ensures Deviations(s)[i] == Square(s[i] - Mean(s)) { SquareIs(s[i] - Mean(s)); }
    SpreadSum(s, Deviations(s), Mean(s));
  }

  lemma MeanParts(squares: real, sum: real, n: real, m: real)
    requires n > 0.0 && m == sum / n
    ensures Spread(squares, sum, n, m) / n + m * m == squares / n
  {
    assert m * n == sum;
    assert 2.0 * m * sum == 2.0 * (n * (m * m));
    var spread := squares - n * (m * m);
    Cancel(spread / n + m * m, squares / n, n);
  }

  lemma {:induction false} SquaresAreZero(s: seq<real>)
    ensures SquareSum(s) >= 0.0 && (SquareSum(s) == 0.0 ==> Sum(s) == 0.0)
  {
    if |s| > 0 {
      SquaresAreZero(s[..|s| - 1]);
      SquareSign(s[|s| - 1]);
    }
  }

  lemma SquareSign(x: real)
    ensures x * x >= 0.0 && (x * x == 0.0 ==> x == 0.0)
  {
    var y := -x;
    assert y * y == x * x;
    if x > 0.0 { PositiveTimes(x, x); }
    if x < 0.0 { PositiveTimes(y, y); }
  }

  /** The peak of the growth is the sum over the sum of squares, and the clamped one is the best within the range. */
  lemma ClampedPeak(sum: real, squares: real, most: real, lam: real, l: real)
    requires squares > 0.0 && most >= 0.0 && lam == Min(Max(sum / squares, 0.0), most) && 0.0 <= l <= most && l != lam
    ensures l * sum - l * l * squares / 2.0 < lam * sum - lam * lam * squares / 2.0
  {
    var peak := sum / squares;
    assert peak * squares == sum;
    var side := (lam - l) * (2.0 * peak - lam - l);
    SideIsPositive(peak, most, lam, l);
    StrictTimes(squares, 0.0, side);
    GainOver(peak, squares, lam, l);
  }

  lemma SideIsPositive(peak: real, most: real, lam: real, l: real)
    requires most >= 0.0 && lam == Min(Max(peak, 0.0), most) && 0.0 <= l <= most && l != lam
    ensures (lam - l) * (2.0 * peak - lam - l) > 0.0
  {
    if lam > l {
      assert peak >= lam;
      PositiveTimes(lam - l, 2.0 * peak - lam - l);
    } else {
      assert peak <= lam;
      var below, over := l - lam, lam + l - 2.0 * peak;
      PositiveTimes(below, over);
      assert -below * -over == below * over;
    }
  }

  lemma GainOver(peak: real, squares: real, lam: real, l: real)
    ensures (lam * (peak * squares) - lam * lam * squares / 2.0) - (l * (peak * squares) - l * l * squares / 2.0)
            == (lam - l) * (2.0 * peak - lam - l) * squares / 2.0
  {
    assert (lam - l) * (2.0 * peak - lam - l) == 2.0 * (lam * peak) - lam * lam - 2.0 * (l * peak) + l * l;
  }

  /** What the code bets. After two observations or more the stake is the number between zero and 1/(2B) with the
      largest approximate growth over the past, and the only one unless every observation was zero. */
  lemma StakeExact(test: Test, past: seq<real>, l: real)
    requires test.bound > 0.0 && |past| >= 2 && 0.0 <= l <= 1.0 / (2.0 * test.bound)
    ensures 0.0 <= test.Stake(past) <= 1.0 / (2.0 * test.bound)
    ensures Growth(past, l) <= Growth(past, test.Stake(past))
    ensures SquareSum(past) > 0.0 && l != test.Stake(past) ==> Growth(past, l) < Growth(past, test.Stake(past))
  {
    hide Mean, Variance, Sum, SquareSum;
    StakeRange(test, past);
    MeanSquare(past);
    SquaresAreZero(past);
    var n, m, most := |past| as real, Mean(past), 1.0 / (2.0 * test.bound);
    if SquareSum(past) > 0.0 {
      MeanOverSquares(Sum(past), SquareSum(past), n);
      MeanIs(past);
      assert test.Stake(past) == Min(Max(Sum(past) / SquareSum(past), 0.0), most);
      if l != test.Stake(past) { ClampedPeak(Sum(past), SquareSum(past), most, test.Stake(past), l); }
    }
  }

  lemma MeanOverSquares(sum: real, squares: real, n: real)
    requires n > 0.0 && squares > 0.0
    ensures squares / n > 0.0 && (sum / n) / (squares / n) == sum / squares
  {
    var m, q := sum / n, squares / n;
    assert m * n == sum && q * n == squares;
    if q <= 0.0 { TimesMonotone(n, q, 0.0); }
    var r := m / q;
    assert r * q == m;
    assert r * squares == r * (q * n) == m * n;
    Cancel(r, sum / squares, squares);
  }

  // ---------------------------------------------------------------- outcome trees

  datatype Tree = Stop | Node(branches: Branches)
  datatype Branches = End | Or(p: real, x: real, next: Tree, others: Branches)

  function Total(b: Branches): real
  {
    match b
    case End => 0.0
    case Or(p, _, _, others) => p + Total(others)
  }

  /** The mean of the signed, centred observation over these branches. */
  function Drift(test: Test, b: Branches): real
  {
    match b
    case End => 0.0
    case Or(p, x, _, others) => Times(p, test.Y(x)) + Drift(test, others)
  }

  /** The probability of an event on complete histories. */
  function Chance(t: Tree, past: seq<real>, event: seq<real> -> bool): real
  {
    match t
    case Stop => if event(past) then 1.0 else 0.0
    case Node(b) => ChanceOf(b, past, event)
  }

  function ChanceOf(b: Branches, past: seq<real>, event: seq<real> -> bool): real
  {
    match b
    case End => 0.0
    case Or(p, x, next, others) => Times(p, Chance(next, past + [x], event)) + ChanceOf(others, past, event)
  }

  /** The null hypothesis: at every history a probability distribution whose drift is at most zero. */
  predicate Null(test: Test, t: Tree)
  {
    t.Node? ==> Total(t.branches) == 1.0 && Drift(test, t.branches) <= 0.0 && NullAll(test, t.branches)
  }

  predicate NullAll(test: Test, b: Branches)
  {
    b.Or? ==> b.p >= 0.0 && Null(test, b.next) && NullAll(test, b.others)
  }

  /** The bet is solvent on an outcome when the floor at zero wealth does not cut it. */
  predicate Solvent(test: Test, past: seq<real>, x: real)
    requires test.bound != 0.0
  {
    1.0 + Times(test.Stake(test.Ys(past)), Min(test.Y(x), test.bound)) >= 0.0
  }

  predicate SolventTree(test: Test, t: Tree, past: seq<real>)
    requires test.bound != 0.0
  {
    t.Node? ==> SolventAll(test, t.branches, past)
  }

  predicate SolventAll(test: Test, b: Branches, past: seq<real>)
    requires test.bound != 0.0
  {
    b.Or? ==> Solvent(test, past, b.x) && SolventTree(test, b.next, past + [b.x]) && SolventAll(test, b.others, past)
  }

  lemma StakeRange(test: Test, past: seq<real>)
    requires test.bound > 0.0
    ensures 0.0 <= test.Stake(past) <= 1.0 / (2.0 * test.bound)
  {
  }

  lemma {:induction false} WealthNonNegative(test: Test, xs: seq<real>)
    requires test.bound != 0.0
    ensures test.Wealth(xs) >= 0.0
  {
    if |xs| > 0 {
      WealthNonNegative(test, xs[..|xs| - 1]);
    }
  }

  /** The event that the e-process reaches `c` on a history. */
  function Reaching(test: Test, c: real): seq<real> -> bool
    requires test.bound != 0.0
  {
    xs => test.Reaches(xs, c)
  }

  /** What an observation does to the wealth is at most what the linear bet would do. */
  lemma FactorBound(test: Test, past: seq<real>, x: real)
    requires test.bound > 0.0 && Solvent(test, past, x)
    ensures test.Factor(test.Ys(past), test.Y(x)) <= 1.0 + Times(test.Stake(test.Ys(past)), test.Y(x))
  {
    hide Test.Stake, Times;
    StakeRange(test, test.Ys(past));
    TimesMonotone(test.Stake(test.Ys(past)), Min(test.Y(x), test.bound), test.Y(x));
  }

  lemma Shrinks(w: real, lam: real, drift: real)
    requires w >= 0.0 && lam >= 0.0 && drift <= 0.0
    ensures Times(w, 1.0 + Times(lam, drift)) <= w
  {
    hide Times;
    TimesMonotone(lam, drift, 0.0);
    TimesMonotone(w, 1.0 + Times(lam, drift), 1.0);
  }

  /** After a history that has already reached `c` the chance is at most 1; otherwise it is at most the
      wealth over `c`. */
  lemma {:induction false} VilleFrom(test: Test, t: Tree, past: seq<real>, c: real)
    requires test.bound > 0.0 && c > 0.0
    requires Null(test, t) && SolventTree(test, t, past)
    ensures if test.Reaches(past, c) then Chance(t, past, Reaching(test, c)) <= 1.0
            else Times(Chance(t, past, Reaching(test, c)), c) <= test.Wealth(past)
    decreases t
  {
    hide Times, Test.Stake, Test.Wealth, Test.Reaches, Drift, Total;
    WealthNonNegative(test, past);
    TimesMonotone(c, 0.0, 1.0);
    if t.Node? {
      StakeRange(test, test.Ys(past));
      VilleBranches(test, t.branches, past, c);
      assert Bound(test, past, c, Chance(t, past, Reaching(test, c)), 1.0, Drift(test, t.branches));
      Shrinks(test.Wealth(past), test.Stake(test.Ys(past)), Drift(test, t.branches));
    }
  }

  /** The inductive bound for some branches of a node, from their chance, total and drift. */
  ghost predicate Bound(test: Test, past: seq<real>, c: real, chance: real, total: real, drift: real)
    requires test.bound != 0.0
  {
    if test.Reaches(past, c) then chance <= total
    else Times(chance, c) <= Times(test.Wealth(past), total + Times(test.Stake(test.Ys(past)), drift))
  }

  lemma {:induction false} VilleBranches(test: Test, b: Branches, past: seq<real>, c: real)
    requires test.bound > 0.0 && c > 0.0
    requires NullAll(test, b) && SolventAll(test, b, past)
    ensures Bound(test, past, c, ChanceOf(b, past, Reaching(test, c)), Total(b), Drift(test, b))
    decreases b
  {
    hide Times, Bound, Test.Stake, Test.Wealth, Test.Reaches, Chance, Solvent, Reaching, Test.Factor, Test.Y, Null,
      SolventTree;
    match b
    case End =>
      BoundOfNothing(test, past, c);
    case Or(p, x, next, others) =>
      VilleFrom(test, next, past + [x], c);
      VilleBranches(test, others, past, c);
      VilleStep(test, p, x, Chance(next, past + [x], Reaching(test, c)), past, c);
      BoundOfOr(test, past, c, p, test.Y(x), Chance(next, past + [x], Reaching(test, c)),
                ChanceOf(others, past, Reaching(test, c)), Total(others), Drift(test, others));
  }

  lemma BoundOfNothing(test: Test, past: seq<real>, c: real)
    requires test.bound > 0.0
    ensures Bound(test, past, c, 0.0, 0.0, 0.0)
  {
    hide Test.Stake, Test.Wealth, Test.Reaches;
  }

  lemma BoundOfOr(test: Test, past: seq<real>, c: real, p: real, y: real, chance: real, rest: real, total: real,
                  drift: real)
    requires test.bound > 0.0 && c > 0.0
    requires if test.Reaches(past, c) then Times(p, chance) <= p
             else Times(p, Times(chance, c)) <=
                   Times(p, Times(test.Wealth(past), 1.0 + Times(test.Stake(test.Ys(past)), y)))
    requires Bound(test, past, c, rest, total, drift)
    ensures Bound(test, past, c, Times(p, chance) + rest, p + total, Times(p, y) + drift)
  {
    hide Times, Test.Stake, Test.Wealth, Test.Reaches;
    Regroup(p, chance, rest, c, test.Wealth(past), test.Stake(test.Ys(past)), y, total, drift);
  }

  lemma VilleStep(test: Test, p: real, x: real, chance: real, past: seq<real>, c: real)
    requires test.bound > 0.0 && c > 0.0 && p >= 0.0 && Solvent(test, past, x)
    requires if test.Reaches(past + [x], c) then chance <= 1.0 else Times(chance, c) <= test.Wealth(past + [x])
    ensures if test.Reaches(past, c) then Times(p, chance) <= p
            else Times(p, Times(chance, c)) <=
                   Times(p, Times(test.Wealth(past), 1.0 + Times(test.Stake(test.Ys(past)), test.Y(x))))
  {
    hide Times, Test.Stake, Test.Wealth, Test.Reaches, Test.Factor, Solvent;
    ReachesGrows(test, past, x, c);
    if test.Reaches(past, c) {
      TimesMonotone(p, chance, 1.0);
    } else {
      WealthGrows(test, past, x);
      WealthNonNegative(test, past);
      FactorBound(test, past, x);
      var w, linear := test.Wealth(past), 1.0 + Times(test.Stake(test.Ys(past)), test.Y(x));
      TimesMonotone(w, test.Factor(test.Ys(past), test.Y(x)), linear);
      if test.Reaches(past + [x], c) { TimesMonotone(c, chance, 1.0); }
      TimesMonotone(p, Times(chance, c), Times(w, linear));
    }
  }

  /** The two sums of a node, put together. */
  lemma Regroup(p: real, chance: real, rest: real, c: real, w: real, lam: real, y: real, total: real, drift: real)
    ensures Times(Times(p, chance) + rest, c) == Times(p, Times(chance, c)) + Times(rest, c)
    ensures Times(w, p + total + Times(lam, Times(p, y) + drift)) ==
            Times(p, Times(w, 1.0 + Times(lam, y))) + Times(w, total + Times(lam, drift))
  {
    assert w * (p + total + lam * (p * y + drift)) == w * p + w * total + w * (lam * (p * y)) + w * (lam * drift);
    assert p * (w * (1.0 + lam * y)) == w * p + w * (lam * (p * y));
    assert w * (total + lam * drift) == w * total + w * (lam * drift);
  }

  /** Ville's inequality for the code's own bets: under the null, at any horizon and for any threshold,
      the probability that the e-process ever reaches `c` is at most 1/c, provided no bet is cut by the
      floor. */
  lemma Ville(test: Test, t: Tree, c: real)
    requires test.bound > 0.0 && c > 0.0 && Null(test, t) && SolventTree(test, t, [])
    ensures Chance(t, [], Reaching(test, c)) <= 1.0 / c
  {
    hide Chance, Null, SolventTree;
    VilleFrom(test, t, [], c);
    Quotient(Chance(t, [], Reaching(test, c)), c);
  }

  lemma Quotient(chance: real, c: real)
    requires c > 0.0 && Times(chance, c) <= 1.0
    ensures chance <= 1.0 / c
  {
    assert chance == (chance * c) / c;
  }

  /** The documented range of the data is enough: no outcome below -2B is cut. */
  lemma BoundedIsSolvent(test: Test, past: seq<real>, x: real)
    requires test.bound > 0.0 && test.Y(x) >= -2.0 * test.bound
    ensures Solvent(test, past, x)
  {
    hide Test.Stake;
    var lam, most := test.Stake(test.Ys(past)), 1.0 / (2.0 * test.bound);
    StakeRange(test, test.Ys(past));
    var low := Min(test.Y(x), test.bound);
    assert low >= -2.0 * test.bound;
    TimesMonotone(lam, -2.0 * test.bound, low);
    TimesMonotone(2.0 * test.bound, lam, most);
    assert most * (2.0 * test.bound) == 1.0;
  }

  /** No outcome of the tree is below minus `most`. */
  predicate LossesWithin(test: Test, t: Tree, most: real)
  {
    t.Node? ==> LossesWithinAll(test, t.branches, most)
  }

  predicate LossesWithinAll(test: Test, b: Branches, most: real)
  {
    b.Or? ==> test.Y(b.x) >= -most && LossesWithin(test, b.next, most) && LossesWithinAll(test, b.others, most)
  }

  lemma {:induction false} BoundedTreeIsSolvent(test: Test, t: Tree, past: seq<real>, most: real)
    requires test.bound > 0.0 && most <= 2.0 * test.bound && LossesWithin(test, t, most)
    ensures SolventTree(test, t, past)
    decreases t
  {
    if t.Node? { BoundedBranchesAreSolvent(test, t.branches, past, most); }
  }

  lemma {:induction false} BoundedBranchesAreSolvent(test: Test, b: Branches, past: seq<real>, most: real)
    requires test.bound > 0.0 && most <= 2.0 * test.bound && LossesWithinAll(test, b, most)
    ensures SolventAll(test, b, past)
    decreases b
  {
    hide Solvent;
    if b.Or? {
      BoundedIsSolvent(test, past, b.x);
      BoundedTreeIsSolvent(test, b.next, past + [b.x], most);
      BoundedBranchesAreSolvent(test, b.others, past, most);
    }
  }

  /** Ville as the module promises it: centred observations never below -2B. */
  lemma VilleForBoundedData(test: Test, t: Tree, c: real, most: real)
    requires test.bound > 0.0 && c > 0.0 && Null(test, t) && LossesWithin(test, t, most) && most <= 2.0 * test.bound
    ensures Chance(t, [], Reaching(test, c)) <= 1.0 / c
  {
    BoundedTreeIsSolvent(test, t, [], most);
    Ville(test, t, c);
  }

  // ---------------------------------------------------------------- when the floor cuts a bet

  /** The expected factor of two outcomes with probabilities `p` and 1 - p. */
  function TwoPoint(test: Test, past: seq<real>, p: real, low: real, high: real): real
    requires test.bound != 0.0
  {
    p * test.Factor(test.Ys(past), low) + (1.0 - p) * test.Factor(test.Ys(past), high)
  }

  /** The observation whose signed, centred value is `y`. */
  function Observation(test: Test, y: real): real
  {
    test.nullMean + if test.greater then y else -y
  }

  /** Whatever gain the outcome is paired with and however likely, a null pair does not grow the wealth on
      average. */
  ghost predicate FairAt(test: Test, past: seq<real>, x: real)
    requires test.bound != 0.0
  {
    forall p, high :: 0.0 <= p <= 1.0 && high >= 0.0 && p * test.Y(x) + (1.0 - p) * high <= 0.0 ==>
      TwoPoint(test, past, p, test.Y(x), high) <= 1.0
  }

  /** The bet on an outcome is fair in every pair exactly when the floor does not cut it. */
  lemma SolventExact(test: Test, past: seq<real>, x: real)
    requires test.bound > 0.0
    ensures Solvent(test, past, x) <==> FairAt(test, past, x)
  {
    hide Test.Stake, Test.Factor, TwoPoint;
    if Solvent(test, past, x) {
      forall p, high | 0.0 <= p <= 1.0 && high >= 0.0 && p * test.Y(x) + (1.0 - p) * high <= 0.0
        ensures TwoPoint(test, past, p, test.Y(x), high) <= 1.0
      {
        FairPair(test, past, x, p, high);
      }
    } else {
      var p, high := FloorBreaksFairness(test, past, x);
    }
  }

  lemma FairPair(test: Test, past: seq<real>, x: real, p: real, high: real)
    requires test.bound > 0.0 && Solvent(test, past, x)
    requires 0.0 <= p <= 1.0 && high >= 0.0 && p * test.Y(x) + (1.0 - p) * high <= 0.0
    ensures TwoPoint(test, past, p, test.Y(x), high) <= 1.0
  {
    hide Test.Stake, Test.Factor, Times;
    var ys, up := test.Ys(past), Observation(test, high);
    StakeRange(test, ys);
    assert test.Y(up) == high;
    TimesMonotone(test.Stake(ys), 0.0, Min(high, test.bound));
    FactorBound(test, past, x);
    FactorBound(test, past, up);
    MixedPair(p, test.Stake(ys), test.Y(x), high, test.Factor(ys, test.Y(x)), test.Factor(ys, high));
  }

  lemma MixedPair(p: real, lam: real, low: real, high: real, atLow: real, atHigh: real)
    requires 0.0 <= p <= 1.0 && lam >= 0.0 && p * low + (1.0 - p) * high <= 0.0
    requires atLow <= 1.0 + Times(lam, low) && atHigh <= 1.0 + Times(lam, high)
    ensures p * atLow + (1.0 - p) * atHigh <= 1.0
  {
    var drift := p * low + (1.0 - p) * high;
    TimesMonotone(p, atLow, 1.0 + Times(lam, low));
    TimesMonotone(1.0 - p, atHigh, 1.0 + Times(lam, high));
    TimesMonotone(lam, drift, 0.0);
    assert p * (1.0 + lam * low) + (1.0 - p) * (1.0 + lam * high) == 1.0 + lam * drift;
  }

  /** The condition is the right one. If the floor cuts an outcome, some fair two-point distribution
      containing that outcome makes the expected factor exceed 1, so the e-process is no longer fair. */
  lemma FloorBreaksFairness(test: Test, past: seq<real>, x: real) returns (p: real, high: real)
    requires test.bound > 0.0 && !Solvent(test, past, x)
    ensures 0.0 < p < 1.0 && 0.0 < high <= test.bound && p * test.Y(x) + (1.0 - p) * high == 0.0
    ensures TwoPoint(test, past, p, test.Y(x), high) > 1.0
  {
    hide Test.Stake;
    var lam, low := test.Stake(test.Ys(past)), test.Y(x);
    StakeRange(test, test.Ys(past));
    var cut := Min(low, test.bound);
    assert 1.0 + lam * cut < 0.0 by {
      var change := test.Stake(test.Ys(past)) * Min(test.Y(x), test.bound);
      assert 1.0 + change < 0.0 && change == lam * cut;
    }
    CutIsALoss(lam, low, test.bound, cut);
    high := test.bound;
    p := high / (high - low);
    assert p * (high - low) == high;
    assert p > 0.0 && 1.0 - p == -low / (high - low) && 1.0 - p > 0.0;
    CutBet(p, lam, low, high);
    assert test.Factor(test.Ys(past), low) == 0.0;
    TimesMonotone(lam, 0.0, high);
    assert test.Factor(test.Ys(past), high) == 1.0 + lam * high;
  }

  lemma NegativeProduct(k: real, a: real)
    requires k >= 0.0 && k * a < 0.0
    ensures a < 0.0
  {
  }

  lemma CutIsALoss(lam: real, low: real, bound: real, cut: real)
    requires lam >= 0.0 && bound > 0.0 && cut == Min(low, bound) && 1.0 + lam * cut < 0.0
    ensures low < 0.0 && 1.0 + lam * low < 0.0
  {
    var worst, loss := lam * cut, lam * low;
    assert 1.0 + worst < 0.0;
    NegativeProduct(lam, cut);
    TimesMonotone(lam, low, cut);
    assert loss <= worst;
    assert 1.0 + loss < 0.0;
  }

  lemma Zero(k: real, z: real)
    requires z == 0.0
    ensures k * z == 0.0
  {
  }

  /** If one side of a fair mixture loses more than everything, the other gains more than 1 on average. */
  lemma CutBet(p: real, lam: real, low: real, high: real)
    requires 0.0 < p && p * low + (1.0 - p) * high == 0.0 && 1.0 + lam * low < 0.0
    ensures (1.0 - p) * (1.0 + lam * high) > 1.0
  {
    Zero(lam, p * low + (1.0 - p) * high);
    assert p * (1.0 + lam * low) + (1.0 - p) * (1.0 + lam * high) ==
           1.0 + lam * (p * low + (1.0 - p) * high) == 1.0;
    LossScaled(p, 1.0 + lam * low);
  }

  lemma LossScaled(p: real, loss: real)
    requires p > 0.0 && loss < 0.0
    ensures p * loss < 0.0
  {
  }

  // ---------------------------------------------------------------- the exact range of the data

  /** The chance of a gain of B that makes it fair against a loss of `most`. */
  function GainChance(test: Test, most: real): real
    requires most + test.bound != 0.0
  {
    most / (most + test.bound)
  }

  /** At most `n` fair rounds, each gaining B or losing `most` and ending. */
  function Gamble(test: Test, most: real, n: nat): Tree
    requires most + test.bound != 0.0
  {
    if n == 0 then Stop
    else
      var p := GainChance(test, most);
      Node(Or(p, Observation(test, test.bound), Gamble(test, most, n - 1),
              Or(1.0 - p, Observation(test, -most), Stop, End)))
  }

  function Gains(test: Test, n: nat): seq<real>
  {
    seq(n, i => Observation(test, test.bound))
  }

  lemma GainChanceRange(test: Test, most: real)
    requires test.bound > 0.0 && most > 0.0
    ensures var p := GainChance(test, most);
            0.0 < p < 1.0 && p * test.bound + (1.0 - p) * -most == 0.0
  {
    var p, all := GainChance(test, most), most + test.bound;
    assert p * all == most;
    assert p * all == p * most + p * test.bound;
  }

  lemma {:induction false} GambleIsNull(test: Test, most: real, n: nat)
    requires test.bound > 0.0 && most > 0.0
    ensures Null(test, Gamble(test, most, n)) && LossesWithin(test, Gamble(test, most, n), most)
  {
    hide GainChance;
    if n > 0 {
      GambleIsNull(test, most, n - 1);
      GainChanceRange(test, most);
      var p := GainChance(test, most);
      var loss := Or(1.0 - p, Observation(test, -most), Stop, End);
      assert Total(loss) == 1.0 - p && Drift(test, loss) == (1.0 - p) * -most;
      assert test.Y(loss.x) == -most && LossesWithinAll(test, End, most) && LossesWithin(test, Stop, most);
      assert NullAll(test, loss) && LossesWithinAll(test, loss, most);
    }
  }

  /** The chance of a gamble of `n` rounds after `k` gains is at least that of `n` more gains. */
  lemma {:induction false} GambleChance(test: Test, most: real, n: nat, k: nat, e: seq<real> -> bool)
    requires test.bound > 0.0 && most > 0.0 && e(Gains(test, k + n))
    ensures Chance(Gamble(test, most, n), Gains(test, k), e) >= Pow(GainChance(test, most), n)
  {
    hide GainChance;
    if n > 0 {
      var p, x := GainChance(test, most), Observation(test, test.bound);
      var loss := Or(1.0 - p, Observation(test, -most), Stop, End);
      GainChanceRange(test, most);
      assert Gains(test, k) + [x] == Gains(test, k + 1);
      GambleChance(test, most, n - 1, k + 1, e);
      assert ChanceOf(loss, Gains(test, k), e) >= 0.0 by {
        assert ChanceOf(End, Gains(test, k), e) == 0.0;
      }
      TimesMonotone(p, Pow(p, n - 1), Chance(Gamble(test, most, n - 1), Gains(test, k + 1), e));
    }
  }

  lemma {:induction false} SumOfEqual(s: seq<real>, x: real)
    requires forall i :: 0 <= i < |s| ==> s[i] == x
    ensures Sum(s) == (|s| as real) * x
  {
    if |s| > 0 {
      SumOfEqual(s[..|s| - 1], x);
    }
  }

  lemma MeanOfEqual(n: real, x: real)
    requires n > 0.0
    ensures n * x / n == x
  {
    Cancel(n * x / n, x, n);
  }

  lemma EqualMoments(s: seq<real>, x: real)
    requires |s| > 0 && forall i :: 0 <= i < |s| ==> s[i] == x
    ensures Mean(s) == x && Variance(s) == 0.0
  {
    SumOfEqual(s, x);
    MeanOfEqual(|s| as real, x);
    assert forall i :: 0 <= i < |s| ==> s[i] - Mean(s) == 0.0;
    SumOfEqual(Deviations(s), 0.0);
  }

  /** After two equal gains the bet is the largest allowed, and a gain of B adds half the wealth. */
  lemma GainFactor(test: Test, n: nat)
    requires test.bound > 0.0
    ensures test.Factor(test.Ys(Gains(test, n)), test.bound) == if n < 2 then 1.0 else 1.5
  {
    hide Mean, Variance;
    var b, ys := test.bound, test.Ys(Gains(test, n));
    if n >= 2 {
      EqualMoments(ys, b);
      FullStake(b);
      assert test.Stake(ys) == 1.0 / (2.0 * b);
    }
  }

  lemma FullStake(b: real)
    requires b > 0.0
    ensures AGrapa(b, 0.0, 1.0 / (2.0 * b)) == 1.0 / (2.0 * b) && 1.0 / (2.0 * b) * b == 0.5
  {
    StrictTimes(b, 0.0, b);
    var ratio, most := b / (b * b), 1.0 / (2.0 * b);
    Cancel(ratio * b, 1.0, b);
    Cancel(most * b, 0.5, 2.0);
    if ratio < most { StrictTimes(b, ratio, most); }
  }

  lemma Cancel(x: real, y: real, b: real)
    requires b > 0.0 && x * b == y * b
    ensures x == y
  {
    assert (x - y) * b == 0.0;
  }

  lemma {:induction false} WealthOfGains(test: Test, n: nat)
    requires test.bound > 0.0
    ensures test.Wealth(Gains(test, n + 2)) == Pow(1.5, n)
  {
    hide Test.Factor, Test.Wealth;
    var x := Observation(test, test.bound);
    if n == 0 {
      WealthStarts(test);
      GainFactor(test, 0);
      GainFactor(test, 1);
      WealthGrows(test, Gains(test, 0), x);
      WealthGrows(test, Gains(test, 1), x);
      assert Gains(test, 0) == [] && Gains(test, 0) + [x] == Gains(test, 1) && Gains(test, 1) + [x] == Gains(test, 2);
    } else {
      WealthOfGains(test, n - 1);
      GainFactor(test, n + 1);
      WealthGrows(test, Gains(test, n + 1), x);
      assert Gains(test, n + 1) + [x] == Gains(test, n + 2);
    }
  }

  /** Deeper losses break the guarantee: long enough a fair gamble against a loss beyond 2B reaches some level
      with more than the promised chance. */
  lemma DeepLossesBreakVille(test: Test, most: real) returns (t: Tree, c: real)
    requires test.bound > 0.0 && most > 2.0 * test.bound
    ensures c > 0.0 && Null(test, t) && LossesWithin(test, t, most)
    ensures Chance(t, [], Reaching(test, c)) > 1.0 / c
  {
    hide GainChance, Gamble, Chance, Null, LossesWithin, Test.Wealth, Pow;
    var p := GainChance(test, most);
    GainChanceRange(test, most);
    GrowthPerRound(test, most);
    var n := PowExceeds(1.5 * p, 1.0 / (p * p));
    t, c := Gamble(test, most, n + 2), Pow(1.5, n);
    PowPositive(1.5, n);
    GambleIsNull(test, most, n + 2);
    WealthOfGains(test, n);
    assert test.Reaches(Gains(test, n + 2), c);
    GambleChance(test, most, n + 2, 0, Reaching(test, c));
    assert Gains(test, 0) == [];
    BeatsTheBound(p, n);
  }

  /** 3/2 of the chance of a gain exceeds one exactly when the loss is beyond 2B. */
  lemma GrowthPerRound(test: Test, most: real)
    requires test.bound > 0.0 && most > 0.0
    ensures 1.5 * GainChance(test, most) > 1.0 <==> most > 2.0 * test.bound
  {
    var p, all := GainChance(test, most), most + test.bound;
    assert p * all == most;
    if p > 2.0 / 3.0 { StrictTimes(all, 2.0 / 3.0, p); } else { TimesMonotone(all, p, 2.0 / 3.0); }
  }

  lemma BeatsTheBound(p: real, n: nat)
    requires 0.0 < p && Pow(1.5 * p, n) > 1.0 / (p * p) && Pow(1.5, n) > 0.0
    ensures Pow(p, n + 2) > 1.0 / Pow(1.5, n)
  {
    var c, square, power := Pow(1.5, n), p * p, Pow(p, n);
    StrictTimes(p, 0.0, p);
    PowTimes(1.5, p, n);
    assert Pow(p, n + 2) == power * p * p == power * square;
    StrictTimes(square, 1.0 / square, c * power);
    assert 1.0 / square * square == 1.0;
    assert c * power * square == c * (power * square);
    var q := 1.0 / c;
    assert q * c == 1.0;
    if power * square <= q { TimesMonotone(c, power * square, q); }
  }

  /** The promise for data never below minus `most`: on every null tree and for every threshold the chance of
      reaching it is at most its inverse. */
  ghost predicate Guarantees(test: Test, most: real)
    requires test.bound > 0.0
  {
    forall t, c :: c > 0.0 && Null(test, t) && LossesWithin(test, t, most) ==>
      Chance(t, [], Reaching(test, c)) <= 1.0 / c
  }

  /** Ville's inequality holds for all data never below minus `most` exactly when `most` is at most 2B. */
  lemma VilleExact(test: Test, most: real)
    requires test.bound > 0.0
    ensures Guarantees(test, most) <==> most <= 2.0 * test.bound
  {
    hide Null, LossesWithin, Chance;
    if most <= 2.0 * test.bound {
      forall t, c | c > 0.0 && Null(test, t) && LossesWithin(test, t, most)
        ensures Chance(t, [], Reaching(test, c)) <= 1.0 / c
      {
        VilleForBoundedData(test, t, c, most);
      }
    } else {
      var t, c := DeepLossesBreakVille(test, most);
    }
  }

  // ---------------------------------------------------------------- status

  datatype Status = EdgeBelowRoundTrip | Live | EliminatedForTrips | EliminatedAsTilt | Undecided

  /** `status`, on running maxima. */
  function StatusOf(eExist: real, eDead: real, threshold: real, tilt: bool): Status
  {
    var alive, dead := eExist >= threshold, eDead >= threshold;
    if alive && dead then EdgeBelowRoundTrip
    else if alive then Live
    else if dead then if tilt then EliminatedAsTilt else EliminatedForTrips
    else Undecided
  }

  /** The running maximum of an e-process. */
  function Peak(test: Test, xs: seq<real>): real
    requires test.bound != 0.0 && |xs| > 0
  {
    if |xs| == 1 then test.Wealth(xs) else Max(Peak(test, xs[..|xs| - 1]), test.Wealth(xs))
  }

  lemma {:induction false} PeakExact(test: Test, xs: seq<real>, c: real)
    requires test.bound != 0.0 && |xs| > 0
    ensures Peak(test, xs) >= c <==> test.Reaches(xs, c)
  {
    hide Test.Wealth;
    if |xs| > 1 {
      PeakExact(test, xs[..|xs| - 1], c);
    }
  }

  /** The statuses that claim an edge, and those that claim there is none. */
  predicate ClaimsEdge(s: Status) { s.Live? || s.EdgeBelowRoundTrip? }

  predicate ClaimsDead(s: Status) { s.EliminatedForTrips? || s.EliminatedAsTilt? || s.EdgeBelowRoundTrip? }

  /** A verdict, once reached on running maxima, is not undone by any amount of further data. */
  lemma {:induction false} VerdictsAreKept(exist: Test, dead: Test, xs: seq<real>, more: seq<real>, threshold: real,
                                           tilt: bool)
    requires exist.bound != 0.0 && dead.bound != 0.0 && |xs| > 0
    ensures var before := StatusOf(Peak(exist, xs), Peak(dead, xs), threshold, tilt);
            var after := StatusOf(Peak(exist, xs + more), Peak(dead, xs + more), threshold, tilt);
            (ClaimsEdge(before) ==> ClaimsEdge(after)) && (ClaimsDead(before) ==> ClaimsDead(after))
  {
    hide Test.Wealth;
    if |more| == 0 {
      assert xs + more == xs;
    } else {
      VerdictsAreKept(exist, dead, xs, more[..|more| - 1], threshold, tilt);
      assert (xs + more)[..|xs + more| - 1] == xs + more[..|more| - 1];
    }
  }

  /** The event that the ledger claims an edge on a history. */
  ghost function Claiming(exist: Test, dead: Test, threshold: real, tilt: bool): seq<real> -> bool
    requires exist.bound != 0.0 && dead.bound != 0.0
  {
    xs => |xs| > 0 && ClaimsEdge(StatusOf(Peak(exist, xs), Peak(dead, xs), threshold, tilt))
  }

  /** The error rate the ledger advertises: when there is no edge, whenever the ledger is read, it
      claims one with probability at most 1/threshold. */
  lemma FalseClaimsAreRare(exist: Test, dead: Test, t: Tree, threshold: real, tilt: bool)
    requires exist.bound > 0.0 && dead.bound != 0.0 && threshold > 0.0
    requires Null(exist, t) && LossesWithin(exist, t, 2.0 * exist.bound)
    ensures Chance(t, [], Claiming(exist, dead, threshold, tilt)) <= 1.0 / threshold
  {
    var claim, reach := Claiming(exist, dead, threshold, tilt), Reaching(exist, threshold);
    forall xs ensures claim(xs) == reach(xs) {
      if |xs| > 0 { PeakExact(exist, xs, threshold); }
    }
    SameChance(t, [], claim, reach);
    VilleForBoundedData(exist, t, threshold, 2.0 * exist.bound);
  }

  lemma {:induction false} SameChance(t: Tree, past: seq<real>, e: seq<real> -> bool, f: seq<real> -> bool)
    requires forall xs :: e(xs) == f(xs)
    ensures Chance(t, past, e) == Chance(t, past, f)
    decreases t
  {
    if t.Node? { SameChanceOf(t.branches, past, e, f); }
  }

  lemma {:induction false} SameChanceOf(b: Branches, past: seq<real>, e: seq<real> -> bool, f: seq<real> -> bool)
    requires forall xs :: e(xs) == f(xs)
    ensures ChanceOf(b, past, e) == ChanceOf(b, past, f)
    decreases b
  {
    if b.Or? {
      SameChance(b.next, past + [b.x], e, f);
      SameChanceOf(b.others, past, e, f);
    }
  }
}
