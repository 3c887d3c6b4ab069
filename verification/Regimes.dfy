/** What `EDivisive` finds: a clean step exactly where it is, nothing in a constant series, and the same
    points whatever the unit and offset of the latencies. */
module Regimes {
  import opened ChangePoints
  import opened Sequences
  import opened Splitting

  /** Constant before z, another constant from z on. */
  ghost predicate Step(s: seq<real>, z: nat, a: real, b: real) {
    z <= |s| && a != b && Constant(s[..z], a) && Constant(s[z..], b)
  }

  // ----- double sums of constant parts -----

  lemma {:induction false} RowSumConstant(x: real, t: seq<real>, c: real)
    requires Constant(t, c)
    ensures RowSum(x, t) == |t| as real * Abs(x - c)
  {
    if t != [] {
      RowSumConstant(x, t[..|t| - 1], c);
      OneMore(|t|, Abs(x - c));
    }
  }

  lemma OneMore(n: nat, d: real)
    requires n > 0
    ensures (n - 1) as real * d + d == n as real * d
  {
  }

  /** The summed distances between a block of m points and a block of n points at distance d. */
  ghost function Block(m: nat, n: nat, d: real): real {
    m as real * (n as real * d)
  }

  lemma {:induction false} DoubleSumConstant(s: seq<real>, a: real, t: seq<real>, b: real)
    requires Constant(s, a) && Constant(t, b)
    ensures DoubleSum(s, t) == Block(|s|, |t|, Abs(a - b))
  {
    hide RowSum, Abs;
    if s == [] {
      assert 0 as real == 0.0;
    } else {
      DoubleSumConstant(s[..|s| - 1], a, t, b);
      RowSumConstant(a, t, b);
      OneMore(|s|, |t| as real * Abs(a - b));
    }
  }

  /** A part that is a on its first points and b on the rest has only the pairs across in its double sum. */
  lemma DoubleSumTwoParts(p: seq<real>, a: real, q: seq<real>, b: real)
    requires Constant(p, a) && Constant(q, b)
    ensures DoubleSum(p + q, p + q) == 2.0 * Block(|p|, |q|, Abs(a - b))
  {
    DoubleSumConcatLeft(p, q, p + q);
    DoubleSumConcatRight(p, p, q);
    DoubleSumConcatRight(q, p, q);
    DoubleSumSymmetric(q, p);
    SameConstant(p, p, a);
    SameConstant(q, q, b);
    DoubleSumConstant(p, a, q, b);
  }

  lemma SameConstant(s: seq<real>, t: seq<real>, c: real)
    requires Constant(s, c) && Constant(t, c)
    ensures DoubleSum(s, t) == 0.0
  {
    DoubleSumConstant(s, c, t, c);
    assert Abs(c - c) == 0.0;
    assert |t| as real * 0.0 == 0.0 && |s| as real * 0.0 == 0.0;
  }

  // ----- the statistic of a step -----

  /** The statistic of cutting k points off the long side of a step that leaves `far` points on its other
      side: z - k points stay with the wrong part. */
  ghost function Misplaced(k: nat, stay: nat, far: nat, d: real): real
    requires 0 < k && 0 < far
  {
    Weigh(k, stay + far, MeanOverGrid(k, stay + far, Block(k, far, d)), 0.0,
          MeanOverPairs(stay + far, 2.0 * Block(stay, far, d)))
  }

  /** The statistic of k points against far points at distance d, out of n: what an exact cut scores. */
  ghost function Gain(k: nat, far: nat, d: real, n: nat): real
    requires n > 0
  {
    2.0 * k as real * (far as real * d) / n as real
  }

  lemma GainGrows(k: nat, more: nat, far: nat, d: real, n: nat)
    requires more > 0 && far > 0 && d > 0.0 && n > 0
    ensures Gain(k, far, d, n) < Gain(k + more, far, d, n)
    ensures Gain(0, far, d, n) == 0.0
  {
    var w := far as real * d;
    Larger(k, more, w);
    Ratio(2.0 * k as real * w, 2.0 * (k + more) as real * w, n as real);
  }

  /** Cutting exactly at the step beats cutting anywhere before it. */
  lemma MisplacedIsLess(k: nat, stay: nat, far: nat, d: real)
    requires 0 < k && 0 < far && 0 < stay && d > 0.0
    ensures Misplaced(k, stay, far, d) < Misplaced(k + stay, 0, far, d)
  {
    hide Misplaced, Gain;
    MisplacedBound(k, stay, far, d);
    ExactValue(k + stay, far, d);
    GainGrows(k, stay, far, d, k + stay + far);
  }

  lemma MisplacedBound(k: nat, stay: nat, far: nat, d: real)
    requires 0 < k && 0 < far && d > 0.0
    ensures Misplaced(k, stay, far, d) <= Gain(k, far, d, k + stay + far)
  {
    hide Weigh, MeanOverGrid, MeanOverPairs, Gain, Block;
    BlockNonNegative(stay, far, d);
    NonNegativeMean(stay + far, 2.0 * Block(stay, far, d));
    WeighCross(k, stay + far, far, d, MeanOverPairs(stay + far, 2.0 * Block(stay, far, d)));
    assert k + (stay + far) == k + stay + far;
  }

  lemma ExactValue(z: nat, far: nat, d: real)
    requires 0 < z && 0 < far
    ensures Misplaced(z, 0, far, d) == Gain(z, far, d, z + far)
  {
    hide Weigh, MeanOverGrid, MeanOverPairs, Gain, Block;
    NoPairs(far, d);
    WeighCross(z, far, far, d, 0.0);
    assert 0 + far == far;
  }

  /** An exact cut has a positive statistic. */
  lemma ExactIsPositive(z: nat, far: nat, d: real)
    requires 0 < z && 0 < far && d > 0.0
    ensures Misplaced(z, 0, far, d) > 0.0
  {
    hide Misplaced, Gain;
    ExactValue(z, far, d);
    GainGrows(0, z, far, d, z + far);
  }

  lemma BlockNonNegative(m: nat, n: nat, d: real)
    requires d >= 0.0
    ensures Block(m, n, d) >= 0.0
  {
  }

  lemma NonNegativeMean(n: nat, total: real)
    requires total >= 0.0
    ensures MeanOverPairs(n, total) >= 0.0
  {
  }

  lemma NoPairs(n: nat, d: real)
    ensures MeanOverPairs(n, 2.0 * Block(0, n, d)) == 0.0
  {
    assert Block(0, n, d) == 0.0 by { assert 0 as real == 0.0; }
    MeanOfZero(n);
  }

  lemma Larger(x: nat, y: nat, w: real)
    requires y > 0 && w > 0.0
    ensures 2.0 * x as real * w < 2.0 * (x + y) as real * w
  {
  }

  lemma Ratio(x: real, y: real, n: real)
    requires x < y && n > 0.0
    ensures x / n < y / n
  {
  }

  lemma WeighCross(k: nat, m: nat, far: nat, d: real, bb: real)
    requires 0 < k && 0 < m && bb >= 0.0
    ensures Weigh(k, m, MeanOverGrid(k, m, Block(k, far, d)), 0.0, bb) <= Gain(k, far, d, k + m)
    ensures bb == 0.0 ==> Weigh(k, m, MeanOverGrid(k, m, Block(k, far, d)), 0.0, bb) == Gain(k, far, d, k + m)
  {
    WeighCrossReal(k as real, m as real, far as real * d, bb);
    assert (k + m) as real == k as real + m as real;
  }

  lemma WeighCrossReal(k: real, m: real, w: real, bb: real)
    requires 0.0 < k && 0.0 < m && bb >= 0.0
    ensures 2.0 * k * m / (k + m) * (k * w / (k * m) - 0.0 / 2.0 - bb / 2.0) <= 2.0 * k * w / (k + m)
    ensures bb == 0.0 ==> 2.0 * k * m / (k + m) * (k * w / (k * m) - 0.0 / 2.0 - bb / 2.0) == 2.0 * k * w / (k + m)
  {
    var g := 2.0 * k * m / (k + m);
    var ab := k * w / (k * m);
    assert ab == w / m by { Quotient(k * w, k * m, w / m); }
    assert g >= 0.0;
    assert g * (ab - bb / 2.0) <= g * ab;
    assert g * ab == 2.0 * k * w / (k + m) by {
      Quotient(2.0 * k * w, k + m, g * ab);
    }
  }

  lemma Quotient(x: real, y: real, q: real)
    requires y != 0.0 && x == q * y
    ensures x / y == q
  {
  }

  /** Splitting a step at or before the step. */
  lemma EnergyBeforeStep(s: seq<real>, z: nat, a: real, b: real, k: nat)
    requires Step(s, z, a, b) && 0 < k <= z < |s|
    ensures Energy(s, k) == Misplaced(k, z - k, |s| - z, Abs(a - b))
  {
    hide Weigh, MeanOverGrid, MeanOverPairs, Block;
    var left, p, q, d := s[..k], s[k..z], s[z..], Abs(a - b);
    assert Constant(left, a) && Constant(p, a) by { assert forall i :: 0 <= i < z ==> s[i] == s[..z][i]; }
    assert s[k..] == p + q;
    DoubleSumConcatRight(left, p, q);
    SameConstant(left, p, a);
    DoubleSumConstant(left, a, q, b);
    SameConstant(left, left, a);
    DoubleSumTwoParts(p, a, q, b);
    MeanOfZero(k);
    assert MeanWithin(left) == 0.0;
    var stay, far := z - k, |s| - z;
    assert |p + q| == stay + far && |p| == stay && |q| == far;
    assert MeanAcross(left, p + q) == MeanOverGrid(k, stay + far, Block(k, far, d));
    assert MeanWithin(p + q) == MeanOverPairs(stay + far, 2.0 * Block(stay, far, d));
  }

  /** Splitting a step at or after the step: the mirror image. */
  lemma EnergyAfterStep(s: seq<real>, z: nat, a: real, b: real, k: nat)
    requires Step(s, z, a, b) && 0 < z <= k < |s|
    ensures Energy(s, k) == Misplaced(|s| - k, k - z, z, Abs(a - b))
  {
    hide Weigh, MeanOverGrid, MeanOverPairs, Block;
    var p, q, right, d := s[..z], s[z..k], s[k..], Abs(a - b);
    assert Constant(q, b) && Constant(right, b) by { assert forall i :: z <= i < |s| ==> s[i] == s[z..][i - z]; }
    assert s[..k] == p + q;
    DoubleSumConcatLeft(p, q, right);
    SameConstant(q, right, b);
    DoubleSumConstant(p, a, right, b);
    SameConstant(right, right, b);
    DoubleSumTwoParts(p, a, q, b);
    MeanOfZero(|right|);
    Regroup(z, |right|, d);
    Regroup(z, k - z, d);
    WeighSwap(k, |right|, MeanAcross(p + q, right), MeanWithin(p + q));
    var cut, stay := |right|, k - z;
    assert |p + q| == stay + z && |p| == z && |q| == stay;
    assert DoubleSum(p + q, right) == Block(cut, z, d);
    GridSwap(stay + z, cut, Block(cut, z, d));
    assert MeanWithin(right) == 0.0;
    assert MeanAcross(p + q, right) == MeanOverGrid(cut, stay + z, Block(cut, z, d));
    assert MeanWithin(p + q) == MeanOverPairs(stay + z, 2.0 * Block(stay, z, d));
  }

  lemma Regroup(m: nat, n: nat, d: real)
    ensures Block(m, n, d) == Block(n, m, d)
  {
  }

  lemma MeanOfZero(n: nat)
    ensures MeanOverPairs(n, 0.0) == 0.0
  {
  }

  lemma GridSwap(m: nat, n: nat, total: real)
    requires m > 0 && n > 0
    ensures MeanOverGrid(m, n, total) == MeanOverGrid(n, m, total)
  {
  }

  lemma WeighSwap(m: nat, n: nat, ab: real, aa: real)
    requires m > 0 && n > 0
    ensures Weigh(m, n, ab, aa, 0.0) == Weigh(n, m, ab, 0.0, aa)
  {
  }

  /** A step scores highest exactly where it is. */
  lemma StepIsFirstMaximum(s: seq<real>, z: nat, a: real, b: real, minSegLen: nat)
    requires Step(s, z, a, b) && 0 < minSegLen <= z <= |s| - minSegLen
    ensures Energy(s, z) > 0.0
    ensures Best(Energy, s, minSegLen) == ChangePoint(z, Energy(s, z))
  {
    hide Energy, Misplaced;
    var n, d := |s|, Abs(a - b);
    assert d > 0.0;
    EnergyBeforeStep(s, z, a, b, z);
    EnergyAfterStep(s, z, a, b, z);
    ExactIsPositive(z, n - z, d);
    forall k | Admissible(s, minSegLen, k) && k != z
      ensures Energy(s, k) < Energy(s, z)
    {
      if k < z {
        EnergyBeforeStep(s, z, a, b, k);
        MisplacedIsLess(k, z - k, n - z, d);
      } else {
        EnergyAfterStep(s, z, a, b, k);
        MisplacedIsLess(n - k, k - z, z, d);
      }
    }
    var cp := ChangePoint(z, Energy(s, z));
    assert Admissible(s, minSegLen, z);
    assert FirstMaximum(Energy, s, minSegLen, n - minSegLen, cp);
    BestIsFirstMaximum(Energy, s, minSegLen, n - minSegLen);
    FirstMaximumIsUnique(Energy, s, minSegLen, n - minSegLen, cp, Best(Energy, s, minSegLen));
  }

  lemma EnergyOfConstant(s: seq<real>, c: real, k: int)
    requires Constant(s, c)
    ensures Energy(s, k) == 0.0
  {
    if 0 < k < |s| {
      var a, b := s[..k], s[k..];
      SameConstant(a, a, c);
      SameConstant(a, b, c);
      SameConstant(b, b, c);
      MeanOfZero(k);
      MeanOfZero(|b|);
      assert MeanAcross(a, b) == MeanOverGrid(k, |b|, 0.0) == 0.0;
    }
  }

  // ----- the two localisation theorems -----

  /** Segments on which the series is constant offer no positive split. */
  lemma ConstantSegmentsOfferNothing(series: seq<real>, minSegLen: nat, segs: seq<Segment>)
    requires 0 < minSegLen && Partition(segs, minSegLen, |series|)
    requires forall i :: 0 <= i < |segs| ==> segs[i].hi <= |series| && exists c :: Constant(series[segs[i].lo..segs[i].hi], c)
    ensures NothingLeft(Energy, series, minSegLen, segs)
  {
    hide Energy;
    forall i, k | SplitOf(segs, minSegLen, i, k)
      ensures ScoreAt(Energy, series, minSegLen, segs, i, k) <= 0.0
    {
      var part := series[segs[i].lo..segs[i].hi];
      var c :| Constant(part, c);
      EnergyOfConstant(part, c, k - segs[i].lo);
    }
  }

  /** A constant series has no change point, however many are asked for. */
  lemma ConstantHasNoChangePoint(series: seq<real>, c: real, minSegLen: nat, maxPoints: int)
    requires 0 < minSegLen && Constant(series, c)
    ensures Picks(Energy, series, minSegLen, maxPoints) == []
  {
    hide Energy;
    if |series| >= 2 * minSegLen {
      var segs := [Segment(0, |series|)];
      assert series[0..|series|] == series;
      ConstantSegmentsOfferNothing(series, minSegLen, segs);
      NothingLeftStops(Energy, series, minSegLen, segs, maxPoints);
    }
  }

  /** A clean step has exactly one change point, at the step, however many are asked for. */
  lemma StepHasOneChangePoint(series: seq<real>, z: nat, a: real, b: real, minSegLen: nat, maxPoints: int)
    requires Step(series, z, a, b) && 0 < minSegLen <= z <= |series| - minSegLen && maxPoints >= 1
    ensures Energy(series, z) > 0.0
    ensures Picks(Energy, series, minSegLen, maxPoints) == [ChangePoint(z, Energy(series, z))]
  {
    hide Energy;
    var segs := [Segment(0, |series|)];
    assert series[0..|series|] == series;
    StepIsFirstMaximum(series, z, a, b, minSegLen);
    assert PickUpTo(Energy, series, minSegLen, segs, 0) == Candidate(NONE, -1);
    assert Pick(Energy, series, minSegLen, segs) == Candidate(ChangePoint(z, Energy(series, z)), 0);
    RoundsUnfold(Energy, series, minSegLen, segs, maxPoints);
    var halves := SplitAt(segs, 0, z);
    assert halves == [Segment(0, z), Segment(z, |series|)];
    assert series[0..z] == series[..z] && series[z..|series|] == series[z..];
    assert Constant(series[0..z], a) && Constant(series[z..|series|], b);
    ConstantSegmentsOfferNothing(series, minSegLen, halves);
    NothingLeftStops(Energy, series, minSegLen, halves, maxPoints - 1);
  }

  /** The same for what `EDivisive` returns: exactly the step, with its positive statistic. */
  lemma StepIsLocalised(series: seq<real>, z: nat, a: real, b: real, minSegLen: nat, maxPoints: int,
                        found: seq<ChangePoint>)
    requires Step(series, z, a, b) && 0 < minSegLen <= z <= |series| - minSegLen && maxPoints >= 1
    ensures IsSortOf(found, Picks(Energy, series, minSegLen, maxPoints), IndexOf) ==>
              found == [ChangePoint(z, Energy(series, z))] && found[0].stat > 0.0
  {
    hide Energy, Picks;
    StepHasOneChangePoint(series, z, a, b, minSegLen, maxPoints);
    if IsSortOf(found, Picks(Energy, series, minSegLen, maxPoints), IndexOf) {
      OneElementSort(found, Picks(Energy, series, minSegLen, maxPoints));
    }
  }

  // ----- unit independence -----

  /** The series in another unit and offset. */
  ghost function Affine(s: seq<real>, c: real, d: real): (t: seq<real>)
    ensures |t| == |s| && forall i :: 0 <= i < |s| ==> t[i] == Convert(s[i], c, d)
  {
    seq(|s|, i requires 0 <= i < |s| => Convert(s[i], c, d))
  }

  ghost function Convert(x: real, c: real, d: real): real {
    c * x + d
  }

  ghost function Scale(r: real, x: real): real {
    r * x
  }

  lemma {:induction false} AffineRow(x: real, t: seq<real>, c: real, d: real)
    ensures RowSum(Convert(x, c, d), Affine(t, c, d)) == Scale(Abs(c), RowSum(x, t))
  {
    hide Scale, Convert;
    if t == [] {
      ScaleZero(Abs(c));
    } else {
      var p, y := t[..|t| - 1], t[|t| - 1];
      assert Affine(t, c, d)[..|t| - 1] == Affine(p, c, d);
      AffineRow(x, p, c, d);
      AffineDistance(x, y, c, d);
      Distribute(Abs(c), RowSum(x, p), Abs(x - y));
    }
  }

  lemma AffineDistance(x: real, y: real, c: real, d: real)
    ensures Abs(Convert(x, c, d) - Convert(y, c, d)) == Scale(Abs(c), Abs(x - y))
  {
  }

  lemma ScaleZero(r: real)
    ensures Scale(r, 0.0) == 0.0
  {
  }

  lemma Distribute(r: real, x: real, y: real)
    ensures Scale(r, x) + Scale(r, y) == Scale(r, x + y)
  {
  }

  lemma {:induction false} AffineDoubleSum(s: seq<real>, t: seq<real>, c: real, d: real)
    ensures DoubleSum(Affine(s, c, d), Affine(t, c, d)) == Scale(Abs(c), DoubleSum(s, t))
    decreases |s|
  {
    hide Scale, Convert;
    if s == [] {
      ScaleZero(Abs(c));
    } else {
      var p, x := s[..|s| - 1], s[|s| - 1];
      assert Affine(s, c, d)[..|s| - 1] == Affine(p, c, d);
      AffineDoubleSum(p, t, c, d);
      AffineRow(x, t, c, d);
      Distribute(Abs(c), DoubleSum(p, t), RowSum(x, t));
    }
  }

  lemma ScaledQuotient(r: real, x: real, y: real)
    requires y != 0.0
    ensures Scale(r, x) / y == Scale(r, x / y)
  {
  }

  lemma ScaledPairs(n: nat, r: real, total: real)
    ensures MeanOverPairs(n, Scale(r, total)) == Scale(r, MeanOverPairs(n, total))
  {
    if n < 2 {
      ScaleZero(r);
    } else {
      ScaledQuotient(r, total, n as real * (n as real - 1.0));
    }
  }

  lemma ScaledGrid(m: nat, n: nat, r: real, total: real)
    requires m > 0 && n > 0
    ensures MeanOverGrid(m, n, Scale(r, total)) == Scale(r, MeanOverGrid(m, n, total))
  {
    ScaledQuotient(r, total, m as real * n as real);
  }

  lemma ScaledWeigh(m: nat, n: nat, r: real, ab: real, aa: real, bb: real)
    requires m > 0 && n > 0
    ensures Weigh(m, n, Scale(r, ab), Scale(r, aa), Scale(r, bb)) == Scale(r, Weigh(m, n, ab, aa, bb))
  {
  }

  lemma AffineEnergy(s: seq<real>, k: int, c: real, d: real)
    ensures Energy(Affine(s, c, d), k) == Scale(Abs(c), Energy(s, k))
  {
    hide Weigh, MeanOverGrid, MeanOverPairs, Scale;
    ScaleZero(Abs(c));
    if 0 < k < |s| {
      var a, b, r := s[..k], s[k..], Abs(c);
      assert Affine(s, c, d)[..k] == Affine(a, c, d) && Affine(s, c, d)[k..] == Affine(b, c, d);
      AffineDoubleSum(a, a, c, d);
      AffineDoubleSum(a, b, c, d);
      AffineDoubleSum(b, b, c, d);
      ScaledPairs(|a|, r, DoubleSum(a, a));
      ScaledPairs(|b|, r, DoubleSum(b, b));
      ScaledGrid(|a|, |b|, r, DoubleSum(a, b));
      ScaledWeigh(|a|, |b|, r, MeanAcross(a, b), MeanWithin(a), MeanWithin(b));
    }
  }

  /** Changing the unit and offset of every latency leaves the chosen indices as they are and multiplies
      every statistic by |c|. */
  lemma UnitIndependence(series: seq<real>, c: real, d: real, minSegLen: nat, maxPoints: int)
    requires 0 < minSegLen && c != 0.0
    ensures RescaledBy(Picks(Energy, series, minSegLen, maxPoints),
                       Picks(Energy, Affine(series, c, d), minSegLen, maxPoints), x => Abs(c) * x)
  {
    hide Energy;
    var g := (x: real) => Abs(c) * x;
    var t := Affine(series, c, d);
    if |series| >= 2 * minSegLen {
      forall lo, hi, k | 0 <= lo <= hi <= |series|
        ensures Energy(t[lo..hi], k) == g(Energy(series[lo..hi], k))
      {
        assert t[lo..hi] == Affine(series[lo..hi], c, d);
        AffineEnergy(series[lo..hi], k, c, d);
      }
      assert Rescaling(g) by {
        forall x: real, y: real | x < y
          ensures g(x) < g(y)
        {
          Monotone(Abs(c), x, y);
        }
      }
      RescaledRounds(Energy, series, t, minSegLen, [Segment(0, |series|)], maxPoints, g);
    }
  }

  /** The same for what `EDivisive` returns: the two results hold the same indices, each with its statistic
      multiplied by |c|. */
  lemma UnitIndependenceOfResult(series: seq<real>, c: real, d: real, minSegLen: nat, maxPoints: int,
                                 found: seq<ChangePoint>, found': seq<ChangePoint>)
    requires 0 < minSegLen && c != 0.0
    requires IsSortOf(found, Picks(Energy, series, minSegLen, maxPoints), IndexOf)
    requires IsSortOf(found', Picks(Energy, Affine(series, c, d), minSegLen, maxPoints), IndexOf)
    ensures SameUpTo(found, found', x => Abs(c) * x)
  {
    hide Energy, Picks;
    UnitIndependence(series, c, d, minSegLen, maxPoints);
    SortsAgreeUpToScale(found, Picks(Energy, series, minSegLen, maxPoints),
                        found', Picks(Energy, Affine(series, c, d), minSegLen, maxPoints), x => Abs(c) * x);
  }

  lemma Monotone(r: real, x: real, y: real)
    requires r > 0.0 && x < y
    ensures r * x < r * y
  {
  }
}
