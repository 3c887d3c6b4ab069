/** What the energy statistic is, without the code's weights and averages: a combination of three double sums.
    The distances within the two parts count against a split, so parts that hold the same values never score. */
module EnergyLaws {
  import opened ChangePoints
  import opened Splitting

  /** The statistic of two parts, cleared of its denominator. A part of one point has no pairs of its own. */
  lemma EnergyFormula(a: seq<real>, b: seq<real>)
    requires a != [] && b != []
    ensures var na, nb := |a| as real, |b| as real;
      (na + nb) * Energy(a + b, |a|)
      == 2.0 * DoubleSum(a, b)
         - (if |a| == 1 then 0.0 else nb / (na - 1.0) * DoubleSum(a, a))
         - (if |b| == 1 then 0.0 else na / (nb - 1.0) * DoubleSum(b, b))
  {
    hide DoubleSum, Energy;
    EnergyFromTerms(a, b);
  }

  /** What the pairs within s take away, next to a part of the given size. */
  ghost function PairTerm(s: seq<real>, other: real): real {
    if |s| <= 1 then 0.0 else other / (|s| as real - 1.0) * DoubleSum(s, s)
  }

  lemma EnergyFromTerms(a: seq<real>, b: seq<real>)
    requires a != [] && b != []
    ensures (|a| as real + |b| as real) * Energy(a + b, |a|)
            == 2.0 * DoubleSum(a, b) - PairTerm(a, |b| as real) - PairTerm(b, |a| as real)
  {
    hide DoubleSum, MeanWithin, MeanAcross, Energy, PairTerm;
    var na, nb := |a| as real, |b| as real;
    EnergyOfParts(a, b);
    AcrossTotal(a, b);
    WithinTotal(a, nb);
    WithinTotal(b, na);
    Combine(na, nb, MeanAcross(a, b), MeanWithin(a), MeanWithin(b), Energy(a + b, |a|), DoubleSum(a, b),
            PairTerm(a, nb), PairTerm(b, na));
  }

  lemma Combine(na: real, nb: real, ab: real, aa: real, bb: real, e: real, totalAB: real, totalAA: real, totalBB: real)
    requires na > 0.0 && nb > 0.0 && e == 2.0 * na * nb / (na + nb) * (ab - aa / 2.0 - bb / 2.0)
    requires na * nb * ab == totalAB && na * nb * aa == totalAA && nb * na * bb == totalBB
    ensures (na + nb) * e == 2.0 * totalAB - totalAA - totalBB
  {
    WeighTotal(na, nb, ab, aa, bb);
  }

  lemma EnergyOfParts(a: seq<real>, b: seq<real>)
    requires a != [] && b != []
    ensures var na, nb := |a| as real, |b| as real;
      Energy(a + b, |a|)
      == 2.0 * na * nb / (na + nb) * (MeanAcross(a, b) - MeanWithin(a) / 2.0 - MeanWithin(b) / 2.0)
  {
    hide MeanWithin, MeanAcross;
    assert (a + b)[..|a|] == a && (a + b)[|a|..] == b;
  }

  lemma AcrossTotal(a: seq<real>, b: seq<real>)
    requires a != [] && b != []
    ensures |a| as real * |b| as real * MeanAcross(a, b) == DoubleSum(a, b)
  {
    hide DoubleSum;
    GridTotal(|a| as real, |b| as real, DoubleSum(a, b), MeanAcross(a, b));
  }

  lemma WithinTotal(s: seq<real>, other: real)
    requires s != []
    ensures |s| as real * other * MeanWithin(s)
            == PairTerm(s, other)
  {
    hide DoubleSum;
    if |s| > 1 {
      PairsTotal(|s| as real, other, DoubleSum(s, s), MeanWithin(s));
    }
  }

  lemma GridTotal(na: real, nb: real, total: real, mean: real)
    requires na > 0.0 && nb > 0.0 && na * nb > 0.0 && mean == total / (na * nb)
    ensures na * nb * mean == total
  {
  }

  lemma PairsTotal(na: real, nb: real, total: real, mean: real)
    requires na > 1.0 && na * (na - 1.0) > 0.0 && mean == total / (na * (na - 1.0))
    ensures na * nb * mean == nb / (na - 1.0) * total
  {
    var q := na - 1.0;
    assert na * q * mean == total;
    var y := na * mean;
    assert q * y == total;
    assert nb / q * (q * y) == nb * y;
  }

  lemma WeighTotal(na: real, nb: real, ab: real, aa: real, bb: real)
    requires na > 0.0 && nb > 0.0
    ensures (na + nb) * (2.0 * na * nb / (na + nb) * (ab - aa / 2.0 - bb / 2.0))
            == 2.0 * (na * nb * ab) - na * nb * aa - na * nb * bb
  {
    var n, g, d := na + nb, 2.0 * na * nb / (na + nb), ab - aa / 2.0 - bb / 2.0;
    assert n * g == 2.0 * na * nb;
    assert n * (g * d) == (n * g) * d;
    assert (2.0 * na * nb) * d == 2.0 * (na * nb * ab) - na * nb * aa - na * nb * bb;
  }

  // ----- parts with the same values -----

  lemma {:induction false} RowSumPermutation(x: real, s: seq<real>, t: seq<real>)
    requires multiset(s) == multiset(t)
    ensures RowSum(x, s) == RowSum(x, t)
    decreases |s|
  {
    assert |s| == |multiset(s)| == |multiset(t)| == |t|;
    if s != [] {
      var m := |s| - 1;
      var y := s[m];
      var k := DropOne(s, t);
      RowSumPermutation(x, s[..m], t[..k] + t[k + 1..]);
      assert t == t[..k] + [y] + t[k + 1..];
      RowSumConcat(x, t[..k] + [y], t[k + 1..]);
      RowSumConcat(x, t[..k], [y]);
      RowSumConcat(x, t[..k], t[k + 1..]);
      RowSumOfOne(x, y);
    }
  }

  /** The last value of s is somewhere in its permutation t, and without it the rests are permutations. */
  lemma DropOne(s: seq<real>, t: seq<real>) returns (k: nat)
    requires s != [] && multiset(s) == multiset(t)
    ensures k < |t| && t[k] == s[|s| - 1] && multiset(s[..|s| - 1]) == multiset(t[..k] + t[k + 1..])
  {
    var y := s[|s| - 1];
    assert y in multiset(s);
    assert y in t;
    k :| 0 <= k < |t| && t[k] == y;
    WithoutOne(s[..|s| - 1], y, []);
    WithoutOne(t[..k], y, t[k + 1..]);
    assert s == s[..|s| - 1] + [y] + [];
    assert t == t[..k] + [y] + t[k + 1..];
    assert s[..|s| - 1] + [] == s[..|s| - 1];
  }

  lemma WithoutOne(lo: seq<real>, y: real, hi: seq<real>)
    ensures multiset(lo + hi) == multiset(lo + [y] + hi) - multiset{y}
  {
  }

  lemma {:induction false} DoubleSumPermutation(a: seq<real>, s: seq<real>, t: seq<real>)
    requires multiset(s) == multiset(t)
    ensures DoubleSum(a, s) == DoubleSum(a, t)
  {
    if a != [] {
      DoubleSumPermutation(a[..|a| - 1], s, t);
      RowSumPermutation(a[|a| - 1], s, t);
    }
  }

  lemma {:induction false} RowSumNonNegative(x: real, t: seq<real>)
    ensures RowSum(x, t) >= 0.0
  {
    if t != [] {
      RowSumNonNegative(x, t[..|t| - 1]);
    }
  }

  lemma {:induction false} DoubleSumNonNegative(s: seq<real>, t: seq<real>)
    ensures DoubleSum(s, t) >= 0.0
  {
    if s != [] {
      DoubleSumNonNegative(s[..|s| - 1], t);
      RowSumNonNegative(s[|s| - 1], t);
    }
  }

  /** Two parts with the same values score minus their mean distance within: never above zero. */
  lemma SameValuesScoreNothing(a: seq<real>, b: seq<real>)
    requires |a| >= 2 && multiset(a) == multiset(b)
    ensures var n := |a| as real; Energy(a + b, |a|) == -DoubleSum(a, a) / (n * (n - 1.0))
    ensures Energy(a + b, |a|) <= 0.0
  {
    hide Energy, DoubleSum;
    assert |a| == |multiset(a)| == |multiset(b)| == |b|;
    var n, d, e := |a| as real, DoubleSum(a, a), Energy(a + b, |a|);
    DoubleSumPermutation(a, a, b);
    DoubleSumPermutation(b, a, b);
    DoubleSumSymmetric(a, b);
    DoubleSumNonNegative(a, a);
    EnergyFormula(a, b);
    SolveForEnergy(n, d, e);
  }

  lemma SolveForEnergy(n: real, d: real, e: real)
    requires n >= 2.0 && d >= 0.0
    requires (n + n) * e == 2.0 * d - n / (n - 1.0) * d - n / (n - 1.0) * d
    ensures n * (n - 1.0) > 0.0 && e == -d / (n * (n - 1.0)) && e <= 0.0
  {
    var q := n - 1.0;
    var r := n / q;
    assert r * q == n;
    var w := r * d;
    assert w * q == n * d by { assert w * q == (r * q) * d; }
    assert n * e == d - w;
    assert (n * e) * q == d * q - n * d;
    assert d * q - n * d == -d;
    var p := n * q;
    assert p > 0.0;
    assert p * e == -d by { assert p * e == (n * e) * q; }
    assert e == -d / p by { assert p * e / p == e; }
    NotPositive(p, e);
  }

  lemma NotPositive(p: real, e: real)
    requires p > 0.0 && p * e <= 0.0
    ensures e <= 0.0
  {
  }

  /** So a stretch that merely repeats has no change point where it repeats, whatever its noise. */
  lemma RepetitionHasNoChangePoint(a: seq<real>, b: seq<real>, maxPoints: int)
    requires |a| >= 2 && multiset(a) == multiset(b)
    ensures Picks(Energy, a + b, |a|, maxPoints) == []
  {
    hide Energy;
    assert |a| == |multiset(a)| == |multiset(b)| == |b|;
    var series, segs := a + b, [Segment(0, |a + b|)];
    SameValuesScoreNothing(a, b);
    assert series[0..|series|] == series;
    assert forall i, k :: SplitOf(segs, |a|, i, k) ==> i == 0 && k == |a|;
    NothingLeftStops(Energy, series, |a|, segs, maxPoints);
  }
}
