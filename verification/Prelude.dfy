/** Small vocabulary shared by the models: optional values, and the arithmetic of `min`, `max`
    and sums over sequences of reals. */
module Prelude {

  datatype Option<+T> = None | Some(value: T)

  function Min(a: real, b: real): real { if a <= b then a else b }

  function Max(a: real, b: real): real { if a >= b then a else b }

  function Abs(a: real): real { if a < 0.0 then -a else a }

  /** Multiplication under a name, so that a proof can treat a product as one number. */
  function Times(a: real, b: real): real { a * b }

  lemma TimesMonotone(k: real, a: real, b: real)
    requires k >= 0.0 && a <= b
    ensures Times(k, a) <= Times(k, b)
    ensures Times(a, k) <= Times(b, k)
    ensures Times(k, 1.0) == k && Times(k, 0.0) == 0.0 && Times(1.0, k) == k && Times(0.0, k) == 0.0
  {
  }

  lemma TimesAdds(k: real, a: real, b: real)
    ensures Times(k, a) + Times(k, b) == Times(k, a + b) && Times(k, 0.0) == 0.0
  {
  }

  lemma TimesZero(a: real)
    ensures Times(a, 0.0) == 0.0 && Times(0.0, a) == 0.0
  {
  }

  lemma PositiveTimes(a: real, b: real)
    requires a > 0.0 && b > 0.0
    ensures a * b > 0.0 && Times(a, b) > 0.0
  {
  }

  lemma NegativeTimes(a: real, b: real)
    requires a < 0.0 && b > 0.0
    ensures a * b < 0.0
  {
  }

  lemma StrictTimes(k: real, a: real, b: real)
    requires k > 0.0 && a < b
    ensures a * k < b * k
  {
    assert (b - a) * k > 0.0;
  }

  lemma Reciprocal(a: real, b: real)
    requires 0.0 < a <= b
    ensures 0.0 < 1.0 / b <= 1.0 / a
  {
    var x, y := 1.0 / a, 1.0 / b;
    assert x * a == 1.0 && y * b == 1.0;
    assert x * b >= x * a;
    assert (x - y) * b >= 0.0;
  }

  function Pow(x: real, n: nat): real { if n == 0 then 1.0 else Pow(x, n - 1) * x }

  lemma {:induction false} PowPositive(x: real, n: nat)
    requires x > 0.0
    ensures Pow(x, n) > 0.0
  {
    if n > 0 {
      PowPositive(x, n - 1);
      StrictTimes(x, 0.0, Pow(x, n - 1));
    }
  }

  lemma {:induction false} PowTimes(x: real, y: real, n: nat)
    ensures Pow(x * y, n) == Pow(x, n) * Pow(y, n)
  {
    if n > 0 {
      PowTimes(x, y, n - 1);
      var a, b := Pow(x, n - 1), Pow(y, n - 1);
      assert a * b * (x * y) == (a * x) * (b * y);
    }
  }

  /** Bernoulli's inequality. */
  lemma {:induction false} PowGrows(x: real, n: nat)
    requires x >= 1.0
    ensures Pow(x, n) >= 1.0 + (n as real) * (x - 1.0)
  {
    if n > 0 {
      PowGrows(x, n - 1);
      var less := 1.0 + ((n - 1) as real) * (x - 1.0);
      TimesMonotone(x, less, Pow(x, n - 1));
      assert less * x == less + (x - 1.0) + ((n - 1) as real) * ((x - 1.0) * (x - 1.0));
      TimesMonotone((n - 1) as real, 0.0, (x - 1.0) * (x - 1.0));
    }
  }

  /** So powers of anything above one exceed any bound. */
  lemma PowExceeds(x: real, bound: real) returns (n: nat)
    requires x > 1.0
    ensures Pow(x, n) > bound
  {
    n := RealCeiling(Max(bound, 0.0) / (x - 1.0));
    PowGrows(x, n);
    QuotientBound(Max(bound, 0.0), x - 1.0, n as real);
  }

  lemma RealCeiling(a: real) returns (n: nat)
    ensures a <= n as real
  {
    n := if a < 0.0 then 0 else a.Floor + 1;
  }

  lemma QuotientBound(a: real, b: real, q: real)
    requires b > 0.0 && a / b <= q
    ensures a <= q * b
  {
    var exact := a / b;
    assert exact * b == a;
    TimesMonotone(b, exact, q);
  }

  function MaxInt(a: int, b: int): int { if a >= b then a else b }

  /** The engine's tolerance for sizes, and the share of its original size below which a position is flat. */
  const EPS: real := 0.000000001
  const DUST: real := 0.0001

  /** `_clamp` of core/target_book.py, and the `min(max(x, lo), hi)` idiom. */
  function Clamp(x: real, lo: real, hi: real): real
  {
    if x < lo then lo else if x > hi then hi else x
  }

  function Sum(s: seq<real>): real
  {
    if |s| == 0 then 0.0 else Sum(s[..|s| - 1]) + s[|s| - 1]
  }

  function Mean(s: seq<real>): real
    requires |s| > 0
  {
    Sum(s) / (|s| as real)
  }

  lemma MeanIs(s: seq<real>)
    requires |s| > 0
    ensures Mean(s) == Sum(s) / (|s| as real)
  {
  }

  lemma SumAppend(s: seq<real>, x: real)
    ensures Sum(s + [x]) == Sum(s) + x
  {
    assert (s + [x])[..|s|] == s;
  }

  function Square(x: real): real { x * x }

  function SquareSum(s: seq<real>): real
  {
    if |s| == 0 then 0.0 else SquareSum(s[..|s| - 1]) + Square(s[|s| - 1])
  }

  /** The sum of squared distances from `m`, from the sums. */
  function Spread(squares: real, sum: real, n: real, m: real): real
  {
    squares - 2.0 * m * sum + n * (m * m)
  }

  lemma {:induction false} SpreadSum(s: seq<real>, t: seq<real>, m: real)
    requires |t| == |s| && forall i :: 0 <= i < |s| ==> t[i] == Square(s[i] - m)
    ensures Sum(t) == Spread(SquareSum(s), Sum(s), |s| as real, m)
  {
    hide Square, Spread;
    if |s| == 0 {
      SpreadStarts(m);
    } else {
      var n := |s| - 1;
      SpreadSum(s[..n], t[..n], m);
      SpreadStep(SquareSum(s[..n]), Sum(s[..n]), n as real, s[n], m);
      assert (n as real) + 1.0 == |s| as real;
    }
  }

  lemma SquareIs(x: real)
    ensures Square(x) == x * x
  {
  }

  lemma SpreadStarts(m: real)
    ensures Spread(0.0, 0.0, 0.0, m) == 0.0
  {
  }

  lemma SpreadStep(squares: real, sum: real, n: real, x: real, m: real)
    ensures Spread(squares, sum, n, m) + Square(x - m) == Spread(squares + Square(x), sum + x, n + 1.0, m)
  {
    assert (x - m) * (x - m) == x * x - 2.0 * (m * x) + m * m;
    assert 2.0 * m * (sum + x) == 2.0 * m * sum + 2.0 * (m * x);
  }

  /** A sum of terms below the terms of another sequence is below its sum. */
  lemma {:induction false} SumMonotone(s: seq<real>, t: seq<real>)
    requires |s| == |t|
    requires forall i :: 0 <= i < |s| ==> s[i] <= t[i]
    ensures Sum(s) <= Sum(t)
  {
    if |s| > 0 {
      SumMonotone(s[..|s| - 1], t[..|t| - 1]);
    }
  }

  lemma {:induction false} SumScale(s: seq<real>, t: seq<real>, k: real)
    requires |s| == |t|
    requires forall i :: 0 <= i < |s| ==> t[i] == k * s[i]
    ensures Sum(t) == k * Sum(s)
  {
    if |s| > 0 {
      SumScale(s[..|s| - 1], t[..|t| - 1], k);
    }
  }

  lemma {:induction false} SumNonNegative(s: seq<real>)
    requires forall i :: 0 <= i < |s| ==> s[i] >= 0.0
    ensures Sum(s) >= 0.0
  {
    if |s| > 0 {
      SumNonNegative(s[..|s| - 1]);
    }
  }
}
