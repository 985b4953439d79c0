/** What the hypothesis lab reads off the market, core/idea_lab.py: returns, volatilities, the cross-sectional
    reading, tilts and target weights at bar `i`. Square roots and the band's cube root are inputs. */
module IdeaMarket {
  import opened Prelude
  import T = TargetBook

  /** Aligned bars, asset by asset in sorted order. */
  datatype Bars = Bars(high: seq<seq<real>>, low: seq<seq<real>>, close: seq<seq<real>>, length: nat) {
    /** The same number of bars for every asset, of which there is at least one. */
    predicate Aligned()
    {
      && |high| == |low| == |close| > 0
      && (forall a :: 0 <= a < |close| ==> |high[a]| == length && |low[a]| == length && |close[a]| == length)
    }

    /** Prices a book can trade at: dividing by a close of zero ends the source's program. */
    predicate Valid()
    {
      Aligned() && forall a, k :: 0 <= a < |close| && 0 <= k < length ==> close[a][k] > 0.0
    }

    function Assets(): nat { |close| }

    /** The closes at one bar. */
    function Closes(i: nat): (px: seq<real>)
      requires Valid() && i < length
      ensures |px| == Assets() && forall a :: 0 <= a < |px| ==> px[a] == close[a][i] && px[a] > 0.0
    {
      seq(Assets(), a requires 0 <= a < Assets() => close[a][i])
    }
  }

  /** Two histories that cannot be told apart by looking at the bars up to and including `i`. */
  predicate Agree(b: Bars, c: Bars, i: nat)
    requires b.Aligned() && c.Aligned() && i < b.length && i < c.length
  {
    && b.Assets() == c.Assets()
    && forall a :: 0 <= a < b.Assets() ==>
         b.high[a][..i + 1] == c.high[a][..i + 1] && b.low[a][..i + 1] == c.low[a][..i + 1]
         && b.close[a][..i + 1] == c.close[a][..i + 1]
  }

  datatype Tilt = NoTilt | Reversal | Momentum

  datatype Idea = Idea(gamma: real, aimRate: real, inverseVol: bool, tilt: Tilt)

  /** The knobs the computations below read; `root` is the square root, `annual` the root of bars per year,
      `halfwidth` the no-trade band of a cost, a weight and a risk aversion. */
  datatype Knobs = Knobs(root: real -> real, halfwidth: (real, real, real) -> real, annual: real,
                         sigmaLookback: nat, volLookback: nat, tiltLookback: nat, floorLookback: nat, volShort: nat,
                         floorDrawdown: real, investFrac: real, tiltCap: real, volTarget: real, volCap: real,
                         fee: real, minOrder: real)

  function Rets(c: seq<real>): seq<real>
  {
    if |c| < 2 then []
    else
      var before := Rets(c[..|c| - 1]);
      if c[|c| - 2] > 0.0 then before + [c[|c| - 1] / c[|c| - 2] - 1.0] else before
  }

  function Squares(x: seq<real>, m: real): seq<real>
  {
    seq(|x|, i requires 0 <= i < |x| => (x[i] - m) * (x[i] - m))
  }

  /** The sample deviation; None below two values. */
  function Sd(x: seq<real>, root: real -> real): Option<real>
  {
    if |x| < 2 then None else Some(root(Sum(Squares(x, Mean(x))) / (|x| - 1) as real))
  }

  function From(i: nat, lookback: nat): (lo: nat) ensures lo <= i { if i < lookback then 0 else i - lookback }

  /** The volatility of one asset over the lookback ending at bar `i`; a zero one is not reported. */
  function Sigma(c: seq<real>, i: nat, lookback: nat, root: real -> real): Option<real>
    requires i < |c|
  {
    var s := Sd(Rets(c[From(i, lookback)..i + 1]), root);
    if s.Some? && s.value != 0.0 then s else None
  }

  function Sigmas(bars: Bars, i: nat, lookback: nat, root: real -> real): (s: seq<Option<real>>)
    requires bars.Aligned() && i < bars.length
    ensures |s| == bars.Assets()
  {
    seq(bars.Assets(), a requires 0 <= a < bars.Assets() => Sigma(bars.close[a], i, lookback, root))
  }

  predicate AllPositive(s: seq<Option<real>>)
  {
    forall a :: 0 <= a < |s| ==> s[a].Some? && s[a].value > 0.0
  }

  function Inverses(s: seq<Option<real>>): (v: seq<real>)
    requires AllPositive(s)
    ensures |v| == |s|
  {
    seq(|s|, a requires 0 <= a < |s| => 1.0 / s[a].value)
  }

  function Portion(frac: real, v: real, total: real): real
    requires total != 0.0
  {
    frac * v / total
  }

  function BaseWeights(s: seq<Option<real>>, inverse: bool, frac: real): (w: seq<real>)
    requires |s| > 0
    ensures |w| == |s|
  {
    if inverse && AllPositive(s) then
      var v := Inverses(s);
      InversesArePositive(s);
      seq(|s|, a requires 0 <= a < |s| => Portion(frac, v[a], Sum(v)))
    else seq(|s|, a requires 0 <= a < |s| => frac / |s| as real)
  }

  lemma InversesArePositive(s: seq<Option<real>>)
    requires AllPositive(s) && |s| > 0
    ensures Sum(Inverses(s)) > 0.0 && forall a :: 0 <= a < |s| ==> Inverses(s)[a] > 0.0
  {
    forall a | 0 <= a < |s|
      ensures Inverses(s)[a] > 0.0
    {
      OneOver(s[a].value);
    }
    SumPositive(Inverses(s));
  }

  lemma OneOver(x: real)
    requires x > 0.0
    ensures 1.0 / x > 0.0
  {
  }

  lemma {:induction false} SumPositive(s: seq<real>)
    requires |s| > 0 && forall i :: 0 <= i < |s| ==> s[i] > 0.0
    ensures Sum(s) > 0.0
  {
    if |s| > 1 {
      SumPositive(s[..|s| - 1]);
    } else {
      assert s[..0] == [];
    }
  }

  function Scaled(w: real, s: Option<real>, k: Knobs): real
  {
    if s.Some? && s.value * k.annual > 0.0 then w * Min(k.volCap, k.volTarget / (s.value * k.annual)) else w
  }

  function VolScaled(w: seq<real>, s: seq<Option<real>>, k: Knobs): (r: seq<real>)
    requires |s| == |w|
    ensures |r| == |w|
  {
    if k.volTarget <= 0.0 then w else seq(|w|, a requires 0 <= a < |w| => Scaled(w[a], s[a], k))
  }

  /** Every asset's return over the tilt's lookback; None from a close that is not positive. */
  function Moves(bars: Bars, i: nat, lookback: nat): (r: seq<Option<real>>)
    requires bars.Aligned() && lookback <= i < bars.length
    ensures |r| == bars.Assets()
  {
    seq(bars.Assets(), a requires 0 <= a < bars.Assets() => Move(bars.close[a], i, lookback))
  }

  function Move(c: seq<real>, i: nat, lookback: nat): Option<real>
    requires lookback <= i < |c|
  {
    if c[i - lookback] > 0.0 then Some(c[i] / c[i - lookback] - 1.0) else None
  }

  /** The values that are there, in order. */
  function Present(r: seq<Option<real>>): seq<real>
  {
    if |r| == 0 then []
    else
      var before, last := Present(r[..|r| - 1]), r[|r| - 1];
      if last.Some? then before + [last.value] else before
  }

  /** How far a return stands from the mean, half its distance in deviations; an asset without one is not
      tilted. */
  function Score(v: Option<real>, sign: real, m: real, sd: real): real
    requires sd != 0.0
  {
    if v.Some? then sign * (v.value - m) / sd / 2.0 else 0.0
  }

  function Zeros(n: nat): (z: seq<real>) ensures |z| == n { seq(n, a => 0.0) }

  function Tilts(bars: Bars, i: nat, tilt: Tilt, k: Knobs): (t: seq<real>)
    requires bars.Aligned() && i < bars.length
    ensures |t| == bars.Assets()
  {
    if tilt == NoTilt || i < k.tiltLookback then Zeros(bars.Assets())
    else
      var r := Moves(bars, i, k.tiltLookback);
      var known := Present(r);
      if |known| < 2 then Zeros(bars.Assets())
      else
        var m, sd := Mean(known), Sd(known, k.root);
        if sd.None? || sd.value == 0.0 then Zeros(bars.Assets())
        else
          var sign := if tilt == Momentum then 1.0 else -1.0;
          seq(|r|, a requires 0 <= a < |r| => Score(r[a], sign, m, sd.value))
  }

  function Highest(c: seq<real>): real
    requires |c| > 0
  {
    if |c| == 1 then c[0] else Max(Highest(c[..|c| - 1]), c[|c| - 1])
  }

  predicate FloorBreached(c: seq<real>, drawdown: real)
  {
    |c| > 0 && drawdown > 0.0 && Highest(c) > 0.0 && c[|c| - 1] < (1.0 - drawdown) * Highest(c)
  }

  /** The target weights the decision at close `i` aims at. */
  function Targets(idea: Idea, bars: Bars, i: nat, k: Knobs): (t: seq<real>)
    requires bars.Aligned() && i < bars.length
    ensures |t| == bars.Assets()
  {
    var base := BaseWeights(Sigmas(bars, i, k.sigmaLookback, k.root), idea.inverseVol, k.investFrac);
    var scaled := VolScaled(base, Sigmas(bars, i, k.volLookback, k.root), k);
    Floored(T.TiltedTargets(scaled, Tilts(bars, i, idea.tilt, k), k.tiltCap), bars, i, k)
  }

  /** A collapsing asset's target is nothing. */
  function Floored(t: seq<real>, bars: Bars, i: nat, k: Knobs): (r: seq<real>)
    requires bars.Aligned() && i < bars.length && |t| == bars.Assets()
    ensures |r| == |t|
  {
    seq(|t|, a requires 0 <= a < |t| =>
      if FloorBreached(bars.close[a][From(i, k.floorLookback)..i + 1], k.floorDrawdown) then 0.0 else t[a])
  }

  // ---------------------------------------------------------------- the market reading

  datatype Drift = Reverting | Trending | Neutral

  datatype Reading = Reading(drift: Drift, shock: bool, volRatio: Option<real>)

  function Windows(bars: Bars, i: nat, window: nat): (r: seq<seq<real>>)
    requires bars.Aligned() && i < bars.length
    ensures |r| == bars.Assets()
  {
    seq(bars.Assets(), a requires 0 <= a < bars.Assets() => Rets(bars.close[a][From(i, window)..i + 1]))
  }

  function Shortest(r: seq<seq<real>>): nat
    requires |r| > 0
  {
    if |r| == 1 then |r[0]|
    else
      var n := Shortest(r[..|r| - 1]);
      if |r[|r| - 1]| < n then |r[|r| - 1]| else n
  }

  /** The returns of bar `t` across the assets, as far as an asset has one. */
  function Across(r: seq<seq<real>>, t: nat): (x: seq<real>)
    ensures |x| == |r|
  {
    seq(|r|, a requires 0 <= a < |r| => if t < |r[a]| then r[a][t] else 0.0)
  }

  /** Relative returns at `t`: each asset's less the mean of all. */
  function Relative(r: seq<seq<real>>, t: nat): (x: seq<real>)
    requires |r| > 0
    ensures |x| == |r|
  {
    var row := Across(r, t);
    seq(|r|, a requires 0 <= a < |r| => row[a] - Mean(row))
  }

  function Products(x: seq<real>, y: seq<real>): seq<real>
    requires |x| == |y|
  {
    seq(|x|, a requires 0 <= a < |x| => x[a] * y[a])
  }

  /** The lag products c_1 .. c_{n-1}. */
  function Lags(r: seq<seq<real>>, n: nat): seq<real>
    requires |r| > 0
  {
    if n < 2 then [] else Lags(r, n - 1) + [Sum(Products(Relative(r, n - 1), Relative(r, n - 2)))]
  }

  function Last<T>(x: seq<T>, n: nat): seq<T>
  {
    if n == 0 || n >= |x| then x else x[|x| - n..]
  }

  /** The short over the long volatility of each asset that has both. */
  function Ratios(r: seq<seq<real>>, short: nat, root: real -> real): seq<real>
  {
    if |r| == 0 then []
    else
      var before, x := Ratios(r[..|r| - 1], short, root), r[|r| - 1];
      var long, near := Sd(x, root), Sd(Last(x, short), root);
      if long.Some? && near.Some? && long.value != 0.0 && near.value != 0.0
      then before + [near.value / long.value] else before
  }

  function ReadMarket(bars: Bars, i: nat, window: nat, short: nat, shockRatio: real, root: real -> real): Reading
    requires bars.Aligned() && i < bars.length
  {
    var r := Windows(bars, i, window);
    var n := Shortest(r);
    if n < 3 || |r| < 2 then Reading(Neutral, false, None)
    else
      var c := Lags(r, n);
      var spread := root(Sum(Products(c, c)));
      var z := if Sum(Products(c, c)) > 0.0 && spread != 0.0 then Sum(c) / spread else 0.0;
      var ratios := Ratios(r, short, root);
      var vr := if |ratios| > 0 then Some(Mean(ratios)) else None;
      Reading(if z < -2.0 then Reverting else if z > 2.0 then Trending else Neutral,
              vr.Some? && vr.value > shockRatio, vr)
  }

  /** Every asset's relative return keeps its side of the market from each bar to the next. */
  ghost predicate LeadersLead(r: seq<seq<real>>, n: nat)
    requires |r| > 0
  {
    forall t, a :: 1 <= t < n && 0 <= a < |r| ==> Relative(r, t)[a] * Relative(r, t - 1)[a] >= 0.0
  }

  ghost predicate LeadersGiveBack(r: seq<seq<real>>, n: nat)
    requires |r| > 0
  {
    forall t, a :: 1 <= t < n && 0 <= a < |r| ==> Relative(r, t)[a] * Relative(r, t - 1)[a] <= 0.0
  }

  lemma {:induction false} SumSign(x: seq<real>)
    ensures (forall a :: 0 <= a < |x| ==> x[a] >= 0.0) ==> Sum(x) >= 0.0
    ensures (forall a :: 0 <= a < |x| ==> x[a] <= 0.0) ==> Sum(x) <= 0.0
  {
    if |x| > 0 { SumSign(x[..|x| - 1]); }
  }

  lemma {:induction false} LagsSign(r: seq<seq<real>>, n: nat)
    requires |r| > 0
    ensures LeadersLead(r, n) ==> Sum(Lags(r, n)) >= 0.0
    ensures LeadersGiveBack(r, n) ==> Sum(Lags(r, n)) <= 0.0
  {
    hide Relative, Sum;
    if n < 2 {
      SumSign([]);
    } else {
      LagsSign(r, n - 1);
      var x := Products(Relative(r, n - 1), Relative(r, n - 2));
      SumSign(x);
      SumAppend(Lags(r, n - 1), Sum(x));
    }
  }

  /** Which way the reading points. Trending means the lag products add up to more than twice the root of their squares,
      reverting to less than minus that; a market whose leaders keep leading never reads as reverting and one whose
      leaders give back never as trending. A shock is a mean ratio of short to long volatility beyond the limit. */
  lemma ReadingExact(bars: Bars, i: nat, window: nat, short: nat, shockRatio: real, root: real -> real)
    requires bars.Aligned() && i < bars.length && forall x :: x > 0.0 ==> root(x) > 0.0
    ensures var r := Windows(bars, i, window);
            var n, reading := Shortest(r), ReadMarket(bars, i, window, short, shockRatio, root);
            var c := Lags(r, n);
            if n < 3 || |r| < 2 then reading == Reading(Neutral, false, None)
            else
              && (reading.drift == Trending <==>
                    Sum(Products(c, c)) > 0.0 && Sum(c) > 2.0 * root(Sum(Products(c, c))))
              && (reading.drift == Reverting <==>
                    Sum(Products(c, c)) > 0.0 && Sum(c) < -2.0 * root(Sum(Products(c, c))))
              && (LeadersLead(r, n) ==> reading.drift != Reverting)
              && (LeadersGiveBack(r, n) ==> reading.drift != Trending)
              && (reading.shock <==> reading.volRatio.Some? && reading.volRatio.value > shockRatio)
              && (reading.volRatio.Some? ==> reading.volRatio.value == Mean(Ratios(r, short, root)))
              && (reading.volRatio.None? <==> Ratios(r, short, root) == [])
  {
    hide Sum, Mean, Lags, Products, Ratios, Windows, Shortest;
    var r := Windows(bars, i, window);
    var n := Shortest(r);
    var c := Lags(r, n);
    LagsSign(r, n);
    if n >= 3 && |r| >= 2 && Sum(Products(c, c)) > 0.0 { QuotientSides(Sum(c), root(Sum(Products(c, c)))); }
  }

  lemma QuotientSides(x: real, s: real)
    requires s > 0.0
    ensures (x / s > 2.0 <==> x > 2.0 * s) && (x / s < -2.0 <==> x < -2.0 * s)
  {
    var z := x / s;
    assert z * s == x;
    if z > 2.0 { StrictTimes(s, 2.0, z); } else { TimesMonotone(s, z, 2.0); }
    if z < -2.0 { StrictTimes(s, z, -2.0); } else { TimesMonotone(s, -2.0, z); }
  }

  // ---------------------------------------------------------------- nothing looks ahead

  /** A window ending at `i` is the same in histories that agree up to `i`. */
  lemma SameWindow(b: Bars, c: Bars, i: nat, lo: nat, a: nat)
    requires b.Aligned() && c.Aligned() && i < b.length && i < c.length && Agree(b, c, i) && lo <= i && a < b.Assets()
    ensures b.close[a][lo..i + 1] == c.close[a][lo..i + 1]
  {
    assert b.close[a][lo..i + 1] == b.close[a][..i + 1][lo..];
    assert c.close[a][lo..i + 1] == c.close[a][..i + 1][lo..];
  }

  lemma SameBar(b: Bars, c: Bars, i: nat, k: nat, a: nat)
    requires b.Aligned() && c.Aligned() && i < b.length && i < c.length && Agree(b, c, i) && k <= i && a < b.Assets()
    ensures b.close[a][k] == c.close[a][k] && b.high[a][k] == c.high[a][k] && b.low[a][k] == c.low[a][k]
  {
    assert b.close[a][k] == b.close[a][..i + 1][k] && c.close[a][k] == c.close[a][..i + 1][k];
    assert b.high[a][k] == b.high[a][..i + 1][k] && c.high[a][k] == c.high[a][..i + 1][k];
    assert b.low[a][k] == b.low[a][..i + 1][k] && c.low[a][k] == c.low[a][..i + 1][k];
  }

  lemma SameSigmas(b: Bars, c: Bars, i: nat, lookback: nat, root: real -> real)
    requires b.Aligned() && c.Aligned() && i < b.length && i < c.length && Agree(b, c, i)
    ensures Sigmas(b, i, lookback, root) == Sigmas(c, i, lookback, root)
  {
    forall a | 0 <= a < b.Assets()
      ensures Sigmas(b, i, lookback, root)[a] == Sigmas(c, i, lookback, root)[a]
    {
      SameWindow(b, c, i, From(i, lookback), a);
    }
  }

  lemma SameTilts(b: Bars, c: Bars, i: nat, tilt: Tilt, k: Knobs)
    requires b.Aligned() && c.Aligned() && i < b.length && i < c.length && Agree(b, c, i)
    ensures Tilts(b, i, tilt, k) == Tilts(c, i, tilt, k)
  {
    hide Sd, Mean, Present, Score;
    if i >= k.tiltLookback {
      forall a | 0 <= a < b.Assets()
        ensures Moves(b, i, k.tiltLookback)[a] == Moves(c, i, k.tiltLookback)[a]
      {
        SameBar(b, c, i, i, a);
        SameBar(b, c, i, i - k.tiltLookback, a);
      }
      assert Moves(b, i, k.tiltLookback) == Moves(c, i, k.tiltLookback);
    }
  }

  lemma SameFloors(b: Bars, c: Bars, i: nat, t: seq<real>, k: Knobs)
    requires b.Aligned() && c.Aligned() && i < b.length && i < c.length && Agree(b, c, i) && |t| == b.Assets()
    ensures Floored(t, b, i, k) == Floored(t, c, i, k)
  {
    hide FloorBreached;
    forall a | 0 <= a < |t|
      ensures Floored(t, b, i, k)[a] == Floored(t, c, i, k)[a]
    {
      SameWindow(b, c, i, From(i, k.floorLookback), a);
    }
  }

  /** The targets at bar `i` depend on no later bar. */
  lemma SameTargets(b: Bars, c: Bars, i: nat, idea: Idea, k: Knobs)
    requires b.Aligned() && c.Aligned() && i < b.length && i < c.length && Agree(b, c, i)
    ensures Targets(idea, b, i, k) == Targets(idea, c, i, k)
  {
    hide Sigmas, BaseWeights, VolScaled, Tilts, Floored;
    SameSigmas(b, c, i, k.sigmaLookback, k.root);
    SameSigmas(b, c, i, k.volLookback, k.root);
    SameTilts(b, c, i, idea.tilt, k);
    var base := BaseWeights(Sigmas(b, i, k.sigmaLookback, k.root), idea.inverseVol, k.investFrac);
    var scaled := VolScaled(base, Sigmas(b, i, k.volLookback, k.root), k);
    SameFloors(b, c, i, T.TiltedTargets(scaled, Tilts(b, i, idea.tilt, k), k.tiltCap), k);
  }

  /** Nor does the market reading. */
  lemma SameReading(b: Bars, c: Bars, i: nat, window: nat, short: nat, shockRatio: real, root: real -> real)
    requires b.Aligned() && c.Aligned() && i < b.length && i < c.length && Agree(b, c, i)
    ensures ReadMarket(b, i, window, short, shockRatio, root) == ReadMarket(c, i, window, short, shockRatio, root)
  {
    hide Lags, Ratios, Shortest, Rets, Mean, Products;
    forall a | 0 <= a < b.Assets()
      ensures Windows(b, i, window)[a] == Windows(c, i, window)[a]
    {
      SameWindow(b, c, i, From(i, window), a);
    }
    assert Windows(b, i, window) == Windows(c, i, window);
  }

  // ---------------------------------------------------------------- what the targets add up to

  /** The knobs keep the basket inside the account: no leverage, bounded tilts, roots that are roots. */
  ghost predicate Unlevered(k: Knobs)
  {
    && k.investFrac >= 0.0 && 0.0 <= k.tiltCap <= 1.0 && 0.0 <= k.volCap <= 1.0
    && (forall x :: k.root(x) >= 0.0) && k.annual >= 0.0
  }

  predicate NonNegative(s: seq<real>) { forall a :: 0 <= a < |s| ==> s[a] >= 0.0 }

  lemma {:induction false} SumConstant(s: seq<real>, c: real)
    requires forall a :: 0 <= a < |s| ==> s[a] == c
    ensures Sum(s) == Times(|s| as real, c)
  {
    if |s| > 0 {
      SumConstant(s[..|s| - 1], c);
    }
  }

  lemma BaseWeightsSum(s: seq<Option<real>>, inverse: bool, frac: real)
    requires |s| > 0 && frac >= 0.0
    ensures NonNegative(BaseWeights(s, inverse, frac)) && Sum(BaseWeights(s, inverse, frac)) == frac
  {
    hide Sum, Inverses, Portion;
    var w := BaseWeights(s, inverse, frac);
    if inverse && AllPositive(s) {
      InversesArePositive(s);
      Normalised(Inverses(s), w, frac);
    } else {
      EqualShares(w, frac);
    }
  }

  lemma Normalised(v: seq<real>, w: seq<real>, frac: real)
    requires |w| == |v| && Sum(v) > 0.0 && frac >= 0.0 && NonNegative(v)
    requires forall a :: 0 <= a < |v| ==> w[a] == Portion(frac, v[a], Sum(v))
    ensures NonNegative(w) && Sum(w) == frac
  {
    hide Sum, Portion, Times;
    var k := Quota(frac, Sum(v));
    forall a | 0 <= a < |w|
      ensures w[a] == Times(k, v[a]) && w[a] >= 0.0
    {
      PortionIs(frac, v[a], Sum(v));
      TimesMonotone(k, 0.0, v[a]);
    }
    SumTimes(v, w, k);
  }

  function Quota(frac: real, total: real): (k: real)
    requires frac >= 0.0 && total > 0.0
    ensures k >= 0.0 && Times(k, total) == frac
  {
    var k := frac / total;
    assert k * total == frac;
    assert k >= 0.0 by { if k < 0.0 { NegativeTimes(k, total); } }
    k
  }

  lemma PortionIs(frac: real, v: real, total: real)
    requires frac >= 0.0 && total > 0.0
    ensures Portion(frac, v, total) == Times(Quota(frac, total), v)
  {
    T.Share(v, frac, total);
  }

  lemma {:induction false} SumTimes(s: seq<real>, t: seq<real>, k: real)
    requires |s| == |t| && forall i :: 0 <= i < |s| ==> t[i] == Times(k, s[i])
    ensures Sum(t) == Times(k, Sum(s))
  {
    if |s| > 0 {
      SumTimes(s[..|s| - 1], t[..|t| - 1], k);
    }
  }

  lemma EqualShares(w: seq<real>, frac: real)
    requires |w| > 0 && frac >= 0.0 && forall a :: 0 <= a < |w| ==> w[a] == frac / |w| as real
    ensures NonNegative(w) && Sum(w) == frac
  {
    hide Sum;
    var n := |w| as real;
    var each := frac / n;
    assert Times(n, each) == frac;
    assert each >= 0.0 by { if each < 0.0 { NegativeTimes(each, n); } }
    SumConstant(w, each);
  }

  /** Inverse-volatility weights carry the same risk each: weight times volatility is one number. */
  lemma InverseVolBalances(s: seq<Option<real>>, frac: real, a: nat, b: nat)
    requires a < |s| && b < |s| && frac >= 0.0 && forall c :: 0 <= c < |s| ==> s[c].Some? && s[c].value > 0.0
    ensures var w := BaseWeights(s, true, frac);
            w[a] * s[a].value == w[b] * s[b].value
  {
    hide Sum, Inverses;
    InversesArePositive(s);
    var k := Quota(frac, Sum(Inverses(s)));
    RiskOf(s, frac, a);
    RiskOf(s, frac, b);
  }

  lemma RiskOf(s: seq<Option<real>>, frac: real, a: nat)
    requires AllPositive(s) && a < |s| && frac >= 0.0 && Sum(Inverses(s)) > 0.0
    ensures BaseWeights(s, true, frac)[a] * s[a].value == Quota(frac, Sum(Inverses(s)))
  {
    var k, v, x := Quota(frac, Sum(Inverses(s))), Inverses(s)[a], s[a].value;
    InversesArePositive(s);
    PortionIs(frac, v, Sum(Inverses(s)));
    assert v * x == 1.0;
    assert (k * v) * x == k * (v * x);
  }

  /** What is left of a sequence after its mean adds up to nothing. */
  lemma {:induction false} CentredSum(x: seq<real>, y: seq<real>, m: real)
    requires |y| == |x| && forall a :: 0 <= a < |x| ==> y[a] == x[a] - m
    ensures Sum(y) == Sum(x) - Times(|x| as real, m)
  {
    if |x| > 0 {
      CentredSum(x[..|x| - 1], y[..|y| - 1], m);
    }
  }

  lemma MeanTimes(x: seq<real>)
    requires |x| > 0
    ensures Times(|x| as real, Mean(x)) == Sum(x)
  {
  }

  /** Relative returns add up to nothing across the assets, at every bar. */
  lemma RelativeSumsToZero(r: seq<seq<real>>, t: nat)
    requires |r| > 0
    ensures Sum(Relative(r, t)) == 0.0
  {
    hide Sum, Mean;
    MeanTimes(Across(r, t));
    CentredSum(Across(r, t), Relative(r, t), Mean(Across(r, t)));
  }

  /** Tilts move weight between assets only, and the two sources are each other's opposite. */
  lemma TiltsBalance(bars: Bars, i: nat, k: Knobs)
    requires bars.Aligned() && i < bars.length
    ensures Sum(Tilts(bars, i, Momentum, k)) == 0.0
    ensures forall a :: 0 <= a < bars.Assets() ==> Tilts(bars, i, Reversal, k)[a] == -Tilts(bars, i, Momentum, k)[a]
  {
    hide Sum, Mean, Sd, Present, Score, Times;
    SumConstant(Zeros(bars.Assets()), 0.0);
    TimesZero(|Zeros(bars.Assets())| as real);
    if i >= k.tiltLookback {
      var r := Moves(bars, i, k.tiltLookback);
      var known := Present(r);
      if |known| >= 2 && Sd(known, k.root).Some? && Sd(known, k.root).value != 0.0 {
        var m, sd := Mean(known), Sd(known, k.root).value;
        var up, down := Tilts(bars, i, Momentum, k), Tilts(bars, i, Reversal, k);
        var c := 1.0 / sd / 2.0;
        forall a | 0 <= a < |r|
          ensures up[a] == (if r[a].Some? then Times(c, r[a].value - m) else 0.0) && down[a] == -up[a]
        {
          Opposite(r[a], m, sd);
        }
        SumPresent(r, up, c, m);
        MeanTimes(known);
        TimesZero(c);
      }
    }
  }

  lemma Opposite(v: Option<real>, m: real, sd: real)
    requires sd != 0.0
    ensures Score(v, 1.0, m, sd) == if v.Some? then Times(1.0 / sd / 2.0, v.value - m) else 0.0
    ensures Score(v, -1.0, m, sd) == -Score(v, 1.0, m, sd)
  {
    if v.Some? { ScoreIs(v.value - m, sd); }
  }

  /** The scores add up to the scaled sum of the returns there are, less their number of means. */
  lemma {:induction false} SumPresent(r: seq<Option<real>>, t: seq<real>, c: real, m: real)
    requires |t| == |r|
    requires forall a :: 0 <= a < |r| ==> t[a] == if r[a].Some? then Times(c, r[a].value - m) else 0.0
    ensures Sum(t) == Times(c, Sum(Present(r)) - Times(|Present(r)| as real, m))
  {
    hide Times;
    if |r| == 0 {
      TimesZero(m);
      TimesZero(c);
    } else {
      var n := |r| - 1;
      SumPresent(r[..n], t[..n], c, m);
      if r[n].Some? {
        var before := Present(r[..n]);
        SumAppend(before, r[n].value);
        OneMore(c, Sum(before), |before| as real, m, r[n].value);
      }
    }
  }

  lemma OneMore(c: real, sum: real, n: real, m: real, v: real)
    ensures Times(c, sum - Times(n, m)) + Times(c, v - m) == Times(c, sum + v - Times(n + 1.0, m))
  {
    assert (n + 1.0) * m == n * m + m;
    assert c * (sum - n * m) + c * (v - m) == c * (sum - n * m + (v - m));
  }

  lemma ScoreIs(x: real, sd: real)
    requires sd != 0.0
    ensures 1.0 * x / sd / 2.0 == (1.0 / sd / 2.0) * x && -1.0 * x / sd / 2.0 == -(1.0 * x / sd / 2.0)
  {
    var y := 1.0 / sd;
    assert y * sd == 1.0;
    assert x == (y * x) * sd;
    assert -x == (-(y * x)) * sd;
  }

  lemma ScaledShrinks(w: real, s: Option<real>, k: Knobs)
    requires w >= 0.0 && 0.0 <= k.volCap <= 1.0 && k.volTarget > 0.0
    ensures 0.0 <= Scaled(w, s, k) <= w
  {
    if s.Some? && s.value * k.annual > 0.0 {
      var sigma := s.value * k.annual;
      var x := k.volTarget / sigma;
      assert x * sigma == k.volTarget;
      if x < 0.0 { NegativeTimes(x, sigma); }
      TimesMonotone(w, 0.0, Min(k.volCap, x));
      TimesMonotone(w, Min(k.volCap, x), 1.0);
    }
  }

  /** The targets are nonnegative and invest at most the invested fraction, whatever the market does. */
  lemma TargetsAreFunded(idea: Idea, bars: Bars, i: nat, k: Knobs)
    requires bars.Aligned() && i < bars.length && Unlevered(k)
    ensures NonNegative(Targets(idea, bars, i, k)) && 0.0 <= Sum(Targets(idea, bars, i, k)) <= k.investFrac
  {
    hide Sigmas, BaseWeights, Tilts, FloorBreached, Scaled, T.TiltedTargets, Sum;
    var base := BaseWeights(Sigmas(bars, i, k.sigmaLookback, k.root), idea.inverseVol, k.investFrac);
    BaseWeightsSum(Sigmas(bars, i, k.sigmaLookback, k.root), idea.inverseVol, k.investFrac);
    var vols := Sigmas(bars, i, k.volLookback, k.root);
    var scaled := VolScaled(base, vols, k);
    if k.volTarget > 0.0 {
      forall a | 0 <= a < |base|
        ensures 0.0 <= scaled[a] <= base[a]
      {
        ScaledShrinks(base[a], vols[a], k);
      }
    }
    SumMonotone(scaled, base);
    var tilts := Tilts(bars, i, idea.tilt, k);
    T.TiltsKeepTotal(scaled, tilts, k.tiltCap);
    var tilted := T.TiltedTargets(scaled, tilts, k.tiltCap);
    SumMonotone(Floored(tilted, bars, i, k), tilted);
    SumNonNegative(Floored(tilted, bars, i, k));
  }
}
