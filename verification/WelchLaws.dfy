/** What the moments of Welch's test are, without the code's formulas: the variance counts squared differences over
    all pairs, and the two numbers put to the t-distribution's tail are fixed by equations. */
module WelchLaws {
  import opened Sequences
  import opened Welch

  ghost function Squared(x: real): real {
    x * x
  }

  /** The squared differences from x, summed. */
  ghost function SquareRow(x: real, t: seq<real>): real {
    if t == [] then 0.0 else SquareRow(x, t[..|t| - 1]) + Squared(x - t[|t| - 1])
  }

  /** The squared differences over all ordered pairs of s and t, summed. */
  ghost function SquareSum(s: seq<real>, t: seq<real>): real {
    if s == [] then 0.0 else SquareSum(s[..|s| - 1], t) + SquareRow(s[|s| - 1], t)
  }

  ghost function SumOfSquares(s: seq<real>): real {
    if s == [] then 0.0 else SumOfSquares(s[..|s| - 1]) + Squared(s[|s| - 1])
  }

  /** The squared differences of x from n values with this sum and sum of squares. */
  ghost function FromMoments(n: real, x: real, sum: real, squares: real): real {
    n * (x * x) - 2.0 * x * sum + squares
  }

  /** The squared differences between m and n values with these sums and sums of squares. */
  ghost function Between(m: real, sum: real, squares: real, n: real, sum': real, squares': real): real {
    n * squares - 2.0 * (sum * sum') + m * squares'
  }

  lemma OneMoreValue(n: real, x: real, sum: real, squares: real, y: real)
    ensures FromMoments(n, x, sum, squares) + Squared(x - y) == FromMoments(n + 1.0, x, sum + y, squares + Squared(y))
    ensures FromMoments(0.0, x, 0.0, 0.0) == 0.0
  {
  }

  lemma OneMoreRow(m: real, sum: real, squares: real, n: real, sum': real, squares': real, x: real)
    ensures Between(m, sum, squares, n, sum', squares') + FromMoments(n, x, sum', squares')
            == Between(m + 1.0, sum + x, squares + Squared(x), n, sum', squares')
    ensures Between(0.0, 0.0, 0.0, n, sum', squares') == 0.0
  {
  }

  lemma {:induction false} SquareRowExpands(x: real, t: seq<real>)
    ensures SquareRow(x, t) == FromMoments(|t| as real, x, Sum(t), SumOfSquares(t))
  {
    hide FromMoments, Squared;
    if t == [] {
      OneMoreValue(0.0, x, 0.0, 0.0, 0.0);
    } else {
      var m := |t| - 1;
      SquareRowExpands(x, t[..m]);
      OneMoreValue(m as real, x, Sum(t[..m]), SumOfSquares(t[..m]), t[m]);
      assert |t| as real == m as real + 1.0;
    }
  }

  lemma {:induction false} SquareSumExpands(s: seq<real>, t: seq<real>)
    ensures SquareSum(s, t) == Between(|s| as real, Sum(s), SumOfSquares(s), |t| as real, Sum(t), SumOfSquares(t))
  {
    hide FromMoments, Between, Squared;
    if s == [] {
      OneMoreRow(0.0, 0.0, 0.0, |t| as real, Sum(t), SumOfSquares(t), 0.0);
    } else {
      var m := |s| - 1;
      SquareSumExpands(s[..m], t);
      SquareRowExpands(s[m], t);
      OneMoreRow(m as real, Sum(s[..m]), SumOfSquares(s[..m]), |t| as real, Sum(t), SumOfSquares(t), s[m]);
      assert |s| as real == m as real + 1.0;
    }
  }

  lemma {:induction false} DeviationExpands(s: seq<real>, c: real)
    ensures Deviation(s, c) == FromMoments(|s| as real, c, Sum(s), SumOfSquares(s))
  {
    hide FromMoments, Square, Squared;
    if s == [] {
      OneMoreValue(0.0, c, 0.0, 0.0, 0.0);
    } else {
      var m := |s| - 1;
      DeviationExpands(s[..m], c);
      OneMoreValue(m as real, c, Sum(s[..m]), SumOfSquares(s[..m]), s[m]);
      EitherWay(s[m], c);
      assert |s| as real == m as real + 1.0;
    }
  }

  lemma EitherWay(x: real, y: real)
    ensures Square(x - y) == Squared(y - x)
  {
  }

  /** The mean times the number of values is their sum. */
  lemma MeanTimesCount(s: seq<real>)
    ensures |s| as real * Mean(s) == Sum(s)
  {
  }

  /** Twice the variance is the mean squared difference over the n (n - 1) ordered pairs of different places. */
  lemma VarianceByPairs(s: seq<real>)
    requires |s| >= 2
    ensures 2.0 * |s| as real * (|s| - 1) as real * Variance(s) == SquareSum(s, s)
  {
    hide SquareSum, SumOfSquares, Sum, Deviation, Mean, FromMoments, Between;
    var n, m := |s| as real, Mean(s);
    SquareSumExpands(s, s);
    DeviationExpands(s, m);
    MeanTimesCount(s);
    AroundTheMean(n, m, Sum(s), SumOfSquares(s), Deviation(s, m));
    Undivide((|s| - 1) as real, Deviation(s, m), Variance(s), n);
  }

  lemma AroundTheMean(n: real, m: real, sum: real, squares: real, deviation: real)
    requires n * m == sum && deviation == FromMoments(n, m, sum, squares)
    ensures 2.0 * n * deviation == Between(n, sum, squares, n, sum, squares)
  {
    assert n * (m * m) == sum * m;
    assert deviation == squares - m * sum;
    assert n * (m * sum) == sum * sum;
  }

  lemma Undivide(q: real, x: real, v: real, n: real)
    requires q > 0.0 && v == x / q
    ensures 2.0 * n * q * v == 2.0 * n * x
  {
    assert q * v == x;
  }

  /** m is the mean of s, and w its variance over its size. */
  ghost predicate Moments(s: seq<real>, m: real, w: real) {
    var n := |s| as real;
    n * m == Sum(s) && 2.0 * n * (n - 1.0) * (n * w) == SquareSum(s, s)
  }

  /** t squared is the squared difference of the means over the squared standard error, and df the degrees of
      freedom of Welch and Satterthwaite, each stated as the equation it satisfies. */
  ghost predicate Question(n1: nat, m1: real, w1: real, n2: nat, m2: real, w2: real, tSquared: real, df: real)
    requires n1 >= 2 && n2 >= 2
  {
    && w1 + w2 > 0.0 && tSquared * (w1 + w2) == (m1 - m2) * (m1 - m2)
    && df * (w1 * w1 / (n1 - 1) as real + w2 * w2 / (n2 - 1) as real) == (w1 + w2) * (w1 + w2)
  }

  /** For two samples that are not both constant the p-value is the tail's answer to these two numbers. */
  lemma TailQuestion(a: seq<real>, b: seq<real>, tail: Tail)
    returns (m1: real, w1: real, m2: real, w2: real, tSquared: real, df: real)
    requires |a| >= 2 && |b| >= 2 && !((exists c :: Constant(a, c)) && exists c :: Constant(b, c))
    ensures Moments(a, m1, w1) && Moments(b, m2, w2)
    ensures Question(|a|, m1, w1, |b|, m2, w2, tSquared, df) && PValue(a, b, tail) == tail(tSquared, df)
  {
    hide Moments, Question, Mean, Share, PValue, DegreesOfFreedom, Square;
    m1, w1, m2, w2 := Mean(a), Share(a), Mean(b), Share(b);
    MomentsOf(a);
    MomentsOf(b);
    StandardErrorZero(a, b);
    TailIsAsked(a, b, tail);
    tSquared, df := Square(m1 - m2) / (w1 + w2), DegreesOfFreedom(w1, |a|, w2, |b|);
    QuestionOf(|a|, m1, w1, |b|, m2, w2);
  }

  lemma MomentsOf(s: seq<real>)
    requires |s| >= 2
    ensures Moments(s, Mean(s), Share(s))
  {
    hide SquareSum, Sum, Mean, Share;
    MeanTimesCount(s);
    ShareByPairs(s);
    assert (|s| - 1) as real == |s| as real - 1.0;
  }

  lemma QuestionOf(n1: nat, m1: real, w1: real, n2: nat, m2: real, w2: real)
    requires n1 >= 2 && n2 >= 2 && w1 >= 0.0 && w2 >= 0.0 && w1 + w2 != 0.0
    ensures Question(n1, m1, w1, n2, m2, w2, Square(m1 - m2) / (w1 + w2), DegreesOfFreedom(w1, n1, w2, n2))
  {
    hide DegreesOfFreedom;
    Divided(Square(m1 - m2), w1 + w2, Square(m1 - m2) / (w1 + w2));
    DegreesSatisfy(w1, n1, w2, n2);
  }

  lemma ShareByPairs(s: seq<real>)
    requires |s| >= 2
    ensures 2.0 * |s| as real * (|s| - 1) as real * (|s| as real * Share(s)) == SquareSum(s, s)
  {
    hide SquareSum, Variance;
    VarianceByPairs(s);
    Divided(Variance(s), |s| as real, Share(s));
  }

  lemma Divided(x: real, y: real, q: real)
    requires y != 0.0 && q == x / y
    ensures q * y == x && y * q == x
  {
  }

  lemma DegreesSatisfy(w1: real, n1: int, w2: real, n2: int)
    requires n1 >= 2 && n2 >= 2 && w1 >= 0.0 && w2 >= 0.0 && w1 + w2 != 0.0
    ensures DegreesOfFreedom(w1, n1, w2, n2) * (w1 * w1 / (n1 - 1) as real + w2 * w2 / (n2 - 1) as real)
            == (w1 + w2) * (w1 + w2)
  {
    var p, q := (n1 - 1) as real, (n2 - 1) as real;
    DenominatorPositive(w1, p, w2, q);
    Divided((w1 + w2) * (w1 + w2), Square(w1) / p + Square(w2) / q, DegreesOfFreedom(w1, n1, w2, n2));
  }

  /** The answers given without asking: 1 if a sample is too short or both are the same constant, 0 if they are
      different constants. */
  lemma AnswersWithoutTail(a: seq<real>, b: seq<real>, tail: Tail)
    ensures |a| < 2 || |b| < 2 ==> PValue(a, b, tail) == 1.0
    ensures forall x, y :: |a| >= 2 && |b| >= 2 && Constant(a, x) && Constant(b, y) ==>
              PValue(a, b, tail) == if x != y then 0.0 else 1.0
  {
    forall x, y | |a| >= 2 && |b| >= 2 && Constant(a, x) && Constant(b, y)
      ensures PValue(a, b, tail) == if x != y then 0.0 else 1.0
    {
      StandardErrorZero(a, b);
      MeanOfConstant(a, x);
      MeanOfConstant(b, y);
    }
  }
}
