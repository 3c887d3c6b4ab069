/** Mean, variance and Welch's t-test. The t-distribution tail is a parameter: any function of t squared
    and the degrees of freedom. The standard error enters through its square, which is zero exactly when
    the standard error is. */
module Welch {
  import opened Sequences

  function Sum(vals: seq<real>): real {
    if vals == [] then 0.0 else Sum(vals[..|vals| - 1]) + vals[|vals| - 1]
  }

  function Mean(vals: seq<real>): real {
    if vals == [] then 0.0 else Sum(vals) / |vals| as real
  }

  /** The sum of squared deviations from m. */
  function Deviation(vals: seq<real>, m: real): (r: real)
    ensures r >= 0.0
  {
    if vals == [] then 0.0 else
    Deviation(vals[..|vals| - 1], m) + Square(vals[|vals| - 1] - m)
  }

  function Square(d: real): (r: real)
    ensures if d == 0.0 then r == 0.0 else r > 0.0
  {
    SquarePositive(d, d * d);
    d * d
  }

  lemma SquarePositive(d: real, r: real)
    requires r == d * d
    ensures if d == 0.0 then r == 0.0 else r > 0.0
  {
    if d > 0.0 {
      ProductPositive(d, d, r);
    } else if d < 0.0 {
      ProductPositive(-d, -d, r);
    }
  }

  lemma ProductPositive(x: real, y: real, r: real)
    requires x > 0.0 && y > 0.0 && r == x * y
    ensures r > 0.0
  {
  }

  /** The sample variance; 0 for fewer than two values. */
  function Variance(vals: seq<real>): (r: real)
    ensures r >= 0.0
  {
    if |vals| < 2 then 0.0 else Deviation(vals, Mean(vals)) / (|vals| - 1) as real
  }

  method ComputeMean(vals: seq<real>) returns (m: real)
    ensures m == Mean(vals)
  {
    if |vals| == 0 {
      return 0.0;
    }
    var sum := 0.0;
    for i := 0 to |vals|
      invariant sum == Sum(vals[..i])
    {
      assert vals[..i + 1][..i] == vals[..i];
      sum := sum + vals[i];
    }
    assert vals[..|vals|] == vals;
    m := sum / |vals| as real;
  }

  method ComputeVariance(vals: seq<real>) returns (v: real)
    ensures v == Variance(vals)
  {
    if |vals| < 2 {
      return 0.0;
    }
    var m := ComputeMean(vals);
    var sum := 0.0;
    for i := 0 to |vals|
      invariant sum == Deviation(vals[..i], m)
    {
      assert vals[..i + 1][..i] == vals[..i];
      sum := sum + Square(vals[i] - m);
    }
    assert vals[..|vals|] == vals;
    v := sum / (|vals| - 1) as real;
  }

  lemma {:induction false} DeviationZero(vals: seq<real>, m: real)
    ensures Deviation(vals, m) == 0.0 <==> Constant(vals, m)
  {
    if vals != [] {
      DeviationZero(vals[..|vals| - 1], m);
    }
  }

  lemma {:induction false} SumOfConstant(vals: seq<real>, c: real)
    requires Constant(vals, c)
    ensures Sum(vals) == |vals| as real * c
  {
    if vals != [] {
      SumOfConstant(vals[..|vals| - 1], c);
      assert |vals| as real * c == (|vals| - 1) as real * c + c;
    }
  }

  lemma MeanOfConstant(vals: seq<real>, c: real)
    requires vals != [] && Constant(vals, c)
    ensures Mean(vals) == c
  {
    SumOfConstant(vals, c);
    var n := |vals| as real;
    assert n * c / n == c;
  }

  lemma QuotientZero(x: real, y: real)
    requires y > 0.0
    ensures x / y == 0.0 <==> x == 0.0
    ensures x >= 0.0 ==> x / y >= 0.0
  {
  }

  /** A sample of at least two values has variance zero exactly when it is constant. */
  lemma VarianceZero(vals: seq<real>)
    requires |vals| >= 2
    ensures Variance(vals) == 0.0 <==> exists c :: Constant(vals, c)
  {
    DeviationZero(vals, Mean(vals));
    QuotientZero(Deviation(vals, Mean(vals)), (|vals| - 1) as real);
    if c :| Constant(vals, c) {
      MeanOfConstant(vals, c);
    }
  }

  // ----- the test -----

  /** One sample's share of the squared standard error. */
  function Share(vals: seq<real>): (r: real)
    requires vals != []
    ensures r >= 0.0
  {
    QuotientZero(Variance(vals), |vals| as real);
    Variance(vals) / |vals| as real
  }

  /** The Welch-Satterthwaite degrees of freedom for the shares w1, w2 of samples of n1 and n2 values. */
  function DegreesOfFreedom(w1: real, n1: int, w2: real, n2: int): real
    requires n1 >= 2 && n2 >= 2 && w1 >= 0.0 && w2 >= 0.0 && w1 + w2 != 0.0
  {
    DenominatorPositive(w1, (n1 - 1) as real, w2, (n2 - 1) as real);
    (w1 + w2) * (w1 + w2) / (Square(w1) / (n1 - 1) as real + Square(w2) / (n2 - 1) as real)
  }

  lemma DenominatorPositive(w1: real, p: real, w2: real, q: real)
    requires p > 0.0 && q > 0.0 && w1 >= 0.0 && w2 >= 0.0 && w1 + w2 != 0.0
    ensures Square(w1) / p + Square(w2) / q > 0.0
  {
  }

  /** The tail of the t-distribution, as a function of t squared and the degrees of freedom. */
  type Tail = (real, real) -> real

  /** The two-tailed p-value; 1 when a sample is too short to test. */
  function PValue(a: seq<real>, b: seq<real>, tail: Tail): real {
    if |a| < 2 || |b| < 2 then 1.0 else
    var w1, w2 := Share(a), Share(b);
    if w1 + w2 == 0.0 then
      if Mean(a) != Mean(b) then 0.0 else 1.0
    else
      var df := DegreesOfFreedom(w1, |a|, w2, |b|);
      if df <= 0.0 then 1.0 else tail(Square(Mean(a) - Mean(b)) / (w1 + w2), df)
  }

  method WelchTTest(a: seq<real>, b: seq<real>, tail: Tail) returns (pValue: real)
    ensures pValue == PValue(a, b, tail)
  {
    if |a| < 2 || |b| < 2 {
      return 1.0;
    }
    var v1 := ComputeVariance(a);
    var v2 := ComputeVariance(b);
    var m1 := ComputeMean(a);
    var m2 := ComputeMean(b);
    var seSquared := v1 / |a| as real + v2 / |b| as real;
    if seSquared == 0.0 {
      return if m1 != m2 then 0.0 else 1.0;
    }
    var df := DegreesOfFreedom(v1 / |a| as real, |a|, v2 / |b| as real, |b|);
    pValue := if df <= 0.0 then 1.0 else tail(Square(m1 - m2) / seSquared, df);
  }

  /** The standard error vanishes exactly when both samples are constant. */
  lemma StandardErrorZero(a: seq<real>, b: seq<real>)
    requires |a| >= 2 && |b| >= 2
    ensures Share(a) + Share(b) == 0.0 <==> (exists c :: Constant(a, c)) && (exists c :: Constant(b, c))
  {
    VarianceZero(a);
    VarianceZero(b);
    QuotientZero(Variance(a), |a| as real);
    QuotientZero(Variance(b), |b| as real);
  }

  /** For samples the test can use, only a vanishing standard error keeps the tail from being asked. */
  lemma TailIsAsked(a: seq<real>, b: seq<real>, tail: Tail)
    requires |a| >= 2 && |b| >= 2 && Share(a) + Share(b) != 0.0
    ensures PValue(a, b, tail)
            == tail(Square(Mean(a) - Mean(b)) / (Share(a) + Share(b)), DegreesOfFreedom(Share(a), |a|, Share(b), |b|))
  {
  }

  /** Two different constants are told apart with certainty. */
  lemma ConstantsAreCertain(a: seq<real>, b: seq<real>, x: real, y: real, tail: Tail)
    requires |a| >= 2 && |b| >= 2 && Constant(a, x) && Constant(b, y) && x != y
    ensures PValue(a, b, tail) == 0.0
  {
    StandardErrorZero(a, b);
    MeanOfConstant(a, x);
    MeanOfConstant(b, y);
  }

  /** The degrees of freedom lie between the smaller sample's and the pooled ones, so they are positive and
      the p-value is always the tail's answer. */
  lemma DegreesOfFreedomBounds(w1: real, n1: int, w2: real, n2: int)
    requires n1 >= 2 && n2 >= 2 && w1 >= 0.0 && w2 >= 0.0 && w1 + w2 != 0.0
    ensures DegreesOfFreedom(w1, n1, w2, n2) >= (if n1 < n2 then n1 - 1 else n2 - 1) as real > 0.0
    ensures DegreesOfFreedom(w1, n1, w2, n2) <= (n1 + n2 - 2) as real
  {
    hide Square;
    var p, q := (n1 - 1) as real, (n2 - 1) as real;
    var least := if p < q then p else q;
    DenominatorPositive(w1, p, w2, q);
    LowerBound(w1, p, w2, q, least);
    UpperBound(w1, p, w2, q);
    QuotientBetween((w1 + w2) * (w1 + w2), Square(w1) / p + Square(w2) / q, least, p + q);
    assert (n1 + n2 - 2) as real == p + q;
  }

  lemma QuotientBetween(num: real, denom: real, lo: real, hi: real)
    requires denom > 0.0 && lo * denom <= num <= hi * denom
    ensures lo <= num / denom <= hi
  {
  }

  lemma LowerBound(w1: real, p: real, w2: real, q: real, least: real)
    requires 0.0 < least <= p && least <= q && w1 >= 0.0 && w2 >= 0.0
    ensures least * (Square(w1) / p + Square(w2) / q) <= (w1 + w2) * (w1 + w2)
  {
    LowerTerm(Square(w1), p, least);
    LowerTerm(Square(w2), q, least);
    assert (w1 + w2) * (w1 + w2) == Square(w1) + Square(w2) + 2.0 * (w1 * w2);
    assert w1 * w2 >= 0.0;
  }

  lemma LowerTerm(x: real, p: real, least: real)
    requires x >= 0.0 && 0.0 < least <= p
    ensures least * (x / p) <= x
  {
  }

  /** Titu's form of the Cauchy-Schwarz inequality. */
  lemma UpperBound(w1: real, p: real, w2: real, q: real)
    requires p > 0.0 && q > 0.0
    ensures (w1 + w2) * (w1 + w2) <= (p + q) * (Square(w1) / p + Square(w2) / q)
  {
    hide Square;
    var x, y := w1 / p, w2 / q;
    Cancel(w1, p, x);
    Cancel(w2, q, y);
    Titu(x, p, y, q);
  }

  lemma Cancel(w: real, p: real, x: real)
    requires p > 0.0 && x * p == w
    ensures Square(w) / p == p * Square(x)
  {
  }

  lemma Titu(x: real, p: real, y: real, q: real)
    requires p > 0.0 && q > 0.0
    ensures (x * p + y * q) * (x * p + y * q) <= (p + q) * (p * Square(x) + q * Square(y))
  {
    assert (p + q) * (p * Square(x) + q * Square(y)) - (x * p + y * q) * (x * p + y * q)
           == p * q * Square(x - y);
    assert p * q > 0.0;
  }
}
