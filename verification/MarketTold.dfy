/** What the lab's market measures measure (core/idea_lab.py, core/target_book.py): returns, deviations, volatility
    targeting, tilts and floors, each by a relation to the closes that fixes it. */
module MarketTold {
  import opened Prelude
  import opened IdeaMarket
  import T = TargetBook

  predicate AllAbove(c: seq<real>) { forall i :: 0 <= i < |c| ==> c[i] > 0.0 }

  /** A return takes one close to the next. */
  predicate Takes(ret: real, from: real, to: real) { from * (1.0 + ret) == to }

  /** Of positive closes there is one return a step, and each takes its close to the next. */
  lemma {:induction false} RetsExact(c: seq<real>)
    requires AllAbove(c) && |c| > 0
    ensures |Rets(c)| == |c| - 1 && forall k :: 0 <= k < |c| - 1 ==> Takes(Rets(c)[k], c[k], c[k + 1])
  {
    hide Takes;
    if |c| > 1 {
      var init := c[..|c| - 1];
      RetsExact(init);
      RatioTakes(c[|c| - 2], c[|c| - 1]);
      forall k | 0 <= k < |c| - 1
        ensures Takes(Rets(c)[k], c[k], c[k + 1])
      {
        if k < |c| - 2 { assert init[k] == c[k] && init[k + 1] == c[k + 1]; }
      }
    }
  }

  lemma RatioTakes(from: real, to: real)
    requires from > 0.0
    ensures Takes(to / from - 1.0, from, to)
  {
    var ratio := to / from;
    assert ratio * from == to;
  }

  /** A close that is not positive starts no return, and the others keep theirs. */
  lemma RetsSkip(c: seq<real>, next: real)
    requires |c| > 0 && c[|c| - 1] <= 0.0
    ensures Rets(c + [next]) == Rets(c)
  {
    assert (c + [next])[..|c|] == c;
  }

  /** The sample deviation is the root of the one number v with n (n - 1) v = n times the squares' sum less the sum's
      square, of two values or more. */
  lemma SdExact(x: seq<real>, root: real -> real, v: real)
    requires |x| >= 2 ==> var n := |x| as real; n * (n - 1.0) * v == n * SquareSum(x) - Sum(x) * Sum(x)
    ensures Sd(x, root) == if |x| >= 2 then Some(root(v)) else None
  {
    hide Sum, SquareSum, Spread, Square, Mean;
    if |x| >= 2 {
      var n, m := |x| as real, Mean(x);
      forall i | 0 <= i < |x| ensures Squares(x, m)[i] == Square(x[i] - m) { SquareIs(x[i] - m); }
      SpreadSum(x, Squares(x, m), m);
      MeanIs(x);
      VarianceIs(n, m, Sum(x), SquareSum(x), Sum(Squares(x, m)), v);
    }
  }

  lemma VarianceIs(n: real, m: real, sum: real, squares: real, about: real, v: real)
    requires n >= 2.0 && m == sum / n && about == Spread(squares, sum, n, m)
    requires n * (n - 1.0) * v == n * squares - sum * sum
    ensures about / (n - 1.0) == v
  {
    assert m * n == sum;
    assert n * (m * m) == m * sum;
    assert about == squares - m * sum;
    assert n * about == n * squares - (m * n) * sum;
    SameFactor(n, about, (n - 1.0) * v);
    Quotient(about, n - 1.0, v);
  }

  lemma SameFactor(n: real, a: real, b: real)
    requires n > 0.0 && n * a == n * b
    ensures a == b
  {
    if a < b { StrictTimes(n, a, b); }
    if a > b { StrictTimes(n, b, a); }
  }

  lemma Quotient(a: real, b: real, q: real)
    requires b > 0.0 && a == b * q
    ensures a / b == q
  {
    var exact := a / b;
    assert exact * b == a;
    SameFactor(b, exact, q);
  }

  /** The volatility of an asset at a bar reads exactly the closes from `lookback` bars before it, or the first, up to
      it; it is not reported below two returns or when it is zero. */
  lemma SigmaExact(bars: Bars, i: nat, lookback: nat, root: real -> real, a: nat)
    requires bars.Aligned() && i < bars.length && a < bars.Assets()
    ensures var s := Sd(Rets(bars.close[a][if i < lookback then 0 else i - lookback..i + 1]), root);
            Sigmas(bars, i, lookback, root)[a] == if s == Some(0.0) then None else s
  {
  }

  /** Volatility targeting multiplies a weight by at most the cap and by no more than takes the annual volatility to the
      target, and by one of the two; without a target or a volatility it leaves the weight. */
  lemma VolScaledExact(w: seq<real>, s: seq<Option<real>>, k: Knobs, a: nat) returns (factor: real)
    requires |s| == |w| && a < |w|
    ensures VolScaled(w, s, k)[a] == w[a] * factor
    ensures if k.volTarget > 0.0 && s[a].Some? && s[a].value * k.annual > 0.0
            then
              var vol := s[a].value * k.annual;
              factor <= k.volCap && factor * vol <= k.volTarget && (factor == k.volCap || factor * vol == k.volTarget)
            else factor == 1.0
  {
    if k.volTarget > 0.0 && s[a].Some? && s[a].value * k.annual > 0.0 {
      var vol := s[a].value * k.annual;
      var exact := k.volTarget / vol;
      assert exact * vol == k.volTarget;
      factor := Min(k.volCap, exact);
      TimesMonotone(vol, factor, exact);
    } else {
      factor := 1.0;
    }
  }

  /** An asset's tilt: with two known moves or more that differ, half its move's distance from their mean in deviations,
      for momentum, and the opposite for reversal; otherwise, and for an asset without a move, nothing. */
  lemma TiltsExact(bars: Bars, i: nat, tilt: Tilt, k: Knobs, a: nat)
    requires bars.Aligned() && i < bars.length && a < bars.Assets()
    ensures var t := Tilts(bars, i, tilt, k)[a];
            if tilt == NoTilt || i < k.tiltLookback then t == 0.0
            else
              var known, move := Present(Moves(bars, i, k.tiltLookback)), Moves(bars, i, k.tiltLookback)[a];
              var sd := Sd(known, k.root);
              if |known| < 2 || sd == Some(0.0) || move.None? then t == 0.0
              else
                && sd.Some?
                && t * sd.value * 2.0 == if tilt == Momentum then move.value - Mean(known) else Mean(known) - move.value
  {
    hide Sd, Mean, Present;
    if tilt != NoTilt && i >= k.tiltLookback {
      var r := Moves(bars, i, k.tiltLookback);
      var known := Present(r);
      var sd := Sd(known, k.root);
      SdThere(known, k.root);
      if |known| >= 2 && sd != Some(0.0) && r[a].Some? {
        ScoreExact(r[a].value - Mean(known), sd.value);
      }
    }
  }

  lemma SdThere(x: seq<real>, root: real -> real)
    ensures Sd(x, root).Some? <==> |x| >= 2
  {
  }

  lemma ScoreExact(x: real, sd: real)
    requires sd != 0.0
    ensures 1.0 * x / sd / 2.0 * sd * 2.0 == x && -1.0 * x / sd / 2.0 * sd * 2.0 == -x
  {
    var q := x / sd;
    assert q * sd == x;
    assert -1.0 * x / sd == -q;
    assert q / 2.0 * sd * 2.0 == q * sd;
  }

  /** A move takes the close of `lookback` bars ago to this one; there is none from a close that is not positive. */
  lemma MovesExact(bars: Bars, i: nat, lookback: nat, a: nat)
    requires bars.Aligned() && lookback <= i < bars.length && a < bars.Assets()
    ensures var m, c := Moves(bars, i, lookback)[a], bars.close[a];
            if c[i - lookback] > 0.0 then m.Some? && c[i - lookback] * (1.0 + m.value) == c[i] else m.None?
  {
    var c := bars.close[a];
    if c[i - lookback] > 0.0 {
      var ratio := c[i] / c[i - lookback];
      assert ratio * c[i - lookback] == c[i];
    }
  }

  lemma {:induction false} HighestExact(c: seq<real>)
    requires |c| > 0
    ensures Highest(c) in c && forall k :: 0 <= k < |c| ==> c[k] <= Highest(c)
  {
    if |c| > 1 { HighestExact(c[..|c| - 1]); }
  }

  /** An asset is floored exactly when its close has lost more than the drawdown from some positive close of the
      window. */
  lemma FloorExact(c: seq<real>, drawdown: real)
    requires drawdown <= 1.0
    ensures FloorBreached(c, drawdown) <==>
            |c| > 0 && drawdown > 0.0 && exists k :: 0 <= k < |c| && c[k] > 0.0 && LostMore(c[|c| - 1], c[k], drawdown)
  {
    if |c| > 0 && drawdown > 0.0 {
      HighestExact(c);
      var top :| 0 <= top < |c| && c[top] == Highest(c);
      forall k | 0 <= k < |c| && LostMore(c[|c| - 1], c[k], drawdown)
        ensures LostMore(c[|c| - 1], c[top], drawdown)
      {
        TimesMonotone(1.0 - drawdown, c[k], c[top]);
      }
    }
  }

  predicate LostMore(now: real, then_: real, drawdown: real) { now < (1.0 - drawdown) * then_ }

  /** Where no risk is weighed every asset gets the same part of the invested fraction: when the book asks for that, or
      when a volatility is missing. */
  lemma EqualWeights(s: seq<Option<real>>, inverse: bool, frac: real, a: nat)
    requires a < |s| && (!inverse || exists b :: 0 <= b < |s| && (s[b].None? || s[b].value <= 0.0))
    ensures BaseWeights(s, inverse, frac)[a] * |s| as real == frac
  {
    assert !(inverse && AllPositive(s));
  }

  /** The target of an asset: nothing on a floor, else its tilted weight; the basket is weighed on the long volatility,
      then targeted on the short one, then tilted. */
  lemma TargetsExact(idea: Idea, bars: Bars, i: nat, k: Knobs, a: nat)
    requires bars.Aligned() && i < bars.length && a < bars.Assets()
    ensures var window := bars.close[a][if i < k.floorLookback then 0 else i - k.floorLookback..i + 1];
            var base := BaseWeights(Sigmas(bars, i, k.sigmaLookback, k.root), idea.inverseVol, k.investFrac);
            var scaled := VolScaled(base, Sigmas(bars, i, k.volLookback, k.root), k);
            Targets(idea, bars, i, k)[a] ==
            if FloorBreached(window, k.floorDrawdown) then 0.0
            else T.TiltedTargets(scaled, Tilts(bars, i, idea.tilt, k), k.tiltCap)[a]
  {
  }

  // ---------------------------------------------------------------- the reading's parts

  /** The reading reads the closes of each asset from `window` bars back, or the first, up to the bar, and nothing
      else. */
  lemma WindowsExact(bars: Bars, i: nat, window: nat, a: nat)
    requires bars.Aligned() && i < bars.length && a < bars.Assets()
    ensures Windows(bars, i, window)[a] == Rets(bars.close[a][if i < window then 0 else i - window..i + 1])
  {
  }

  /** Relative returns differ between assets as the returns do; with their sum of nothing that fixes them. */
  lemma RelativeExact(r: seq<seq<real>>, t: nat, a: nat, b: nat)
    requires a < |r| && b < |r| && t < |r[a]| && t < |r[b]|
    ensures Relative(r, t)[a] - Relative(r, t)[b] == r[a][t] - r[b][t]
  {
  }

  lemma {:induction false} LagsExact(r: seq<seq<real>>, n: nat, t: nat)
    requires |r| > 0 && 1 <= t < n
    ensures |Lags(r, n)| == n - 1
    ensures Lags(r, n)[t - 1] == Sum(Products(Relative(r, t), Relative(r, t - 1)))
  {
    hide Sum, Products, Relative;
    if t < n - 1 {
      LagsExact(r, n - 1, t);
    } else if n > 2 {
      LagsExact(r, n - 1, n - 2);
    }
  }

  lemma {:induction false} ShortestExact(r: seq<seq<real>>)
    requires |r| > 0
    ensures (exists a :: 0 <= a < |r| && |r[a]| == Shortest(r)) && forall a :: 0 <= a < |r| ==> |r[a]| >= Shortest(r)
  {
    if |r| > 1 {
      ShortestExact(r[..|r| - 1]);
      var a :| 0 <= a < |r| - 1 && |r[..|r| - 1][a]| == Shortest(r[..|r| - 1]);
      assert |r[a]| == Shortest(r[..|r| - 1]);
      assert Shortest(r) == |r[|r| - 1]| || Shortest(r) == |r[a]|;
      assert forall b :: 0 <= b < |r| - 1 ==> r[..|r| - 1][b] == r[b];
    } else {
      assert |r[0]| == Shortest(r);
    }
  }

  /** The ratio an asset adds: short over long deviation, when both are there and neither is zero. */
  lemma RatiosExact(r: seq<seq<real>>, x: seq<real>, short: nat, root: real -> real)
    requires 0 < short < |x|
    ensures var long, near := Sd(x, root), Sd(x[|x| - short..], root);
            var before, after := Ratios(r, short, root), Ratios(r + [x], short, root);
            if long.None? || near.None? || long.value == 0.0 || near.value == 0.0 then after == before
            else |after| == |before| + 1 && after[..|before|] == before && after[|before|] * long.value == near.value
  {
    hide Sd;
    var all := r + [x];
    assert all[..|all| - 1] == r && all[|all| - 1] == x;
    var long, near := Sd(x, root), Sd(x[|x| - short..], root);
    assert Last(x, short) == x[|x| - short..];
    hide Last;
    if long.Some? && near.Some? && long.value != 0.0 && near.value != 0.0 {
      Whole(near.value, long.value);
      assert Ratios(all, short, root) == Ratios(r, short, root) + [near.value / long.value];
    }
  }

  lemma Whole(a: real, b: real)
    requires b != 0.0
    ensures a / b * b == a
  {
  }
}
