/** The energy statistic of a split (Matteson and James, 2014), stated as double sums over the two
    parts, and the incremental scan of `bestChangePoint` that must agree with it. */
module ChangePoints {

  import opened Sequences
  import opened Splitting

  function Abs(x: real): (r: real)
    ensures r >= 0.0
  {
    if x < 0.0 then -x else x
  }

  // ----- the textbook definition -----

  /** The distances from x to every point of t, summed. */
  function RowSum(x: real, t: seq<real>): real {
    if t == [] then 0.0 else RowSum(x, t[..|t| - 1]) + Abs(x - t[|t| - 1])
  }

  /** The distances over all ordered pairs of s and t, summed. */
  function DoubleSum(s: seq<real>, t: seq<real>): real {
    if s == [] then 0.0 else DoubleSum(s[..|s| - 1], t) + RowSum(s[|s| - 1], t)
  }

  /** Mean distance between two different points of one part; 0 for fewer than two points. */
  function MeanWithin(s: seq<real>): real {
    MeanOverPairs(|s|, DoubleSum(s, s))
  }

  /** A total over the n (n - 1) ordered pairs of n points, averaged. */
  function MeanOverPairs(n: nat, total: real): real {
    if n < 2 then 0.0 else total / (n as real * (n as real - 1.0))
  }

  /** Mean distance between a point of one part and a point of the other. */
  function MeanAcross(a: seq<real>, b: seq<real>): real
    requires a != [] && b != []
  {
    MeanOverGrid(|a|, |b|, DoubleSum(a, b))
  }

  function MeanOverGrid(na: nat, nb: nat, total: real): real
    requires na > 0 && nb > 0
  {
    total / (na as real * nb as real)
  }

  /** The energy statistic of the two parts. */
  function EnergyOf(a: seq<real>, b: seq<real>): real
    requires a != [] && b != []
  {
    Weigh(|a|, |b|, MeanAcross(a, b), MeanWithin(a), MeanWithin(b))
  }

  /** The size-weighted difference between the mean distance across and the mean distances within. */
  function Weigh(na: nat, nb: nat, ab: real, aa: real, bb: real): real
    requires na + nb != 0
  {
    2.0 * na as real * nb as real / (na as real + nb as real) * (ab - aa / 2.0 - bb / 2.0)
  }

  function Energy(s: seq<real>, k: int): real {
    if 0 < k < |s| then EnergyOf(s[..k], s[k..]) else 0.0
  }

  // ----- algebra of the double sums -----

  lemma {:induction false} RowSumConcat(x: real, t: seq<real>, u: seq<real>)
    ensures RowSum(x, t + u) == RowSum(x, t) + RowSum(x, u)
    decreases |u|
  {
    if u == [] {
      assert t + u == t;
    } else {
      var u' := u[..|u| - 1];
      assert (t + u)[..|t + u| - 1] == t + u';
      RowSumConcat(x, t, u');
    }
  }

  lemma {:induction false} DoubleSumConcatLeft(s: seq<real>, s': seq<real>, t: seq<real>)
    ensures DoubleSum(s + s', t) == DoubleSum(s, t) + DoubleSum(s', t)
    decreases |s'|
  {
    if s' == [] {
      assert s + s' == s;
    } else {
      var p := s'[..|s'| - 1];
      assert (s + s')[..|s + s'| - 1] == s + p;
      DoubleSumConcatLeft(s, p, t);
    }
  }

  lemma {:induction false} DoubleSumConcatRight(s: seq<real>, t: seq<real>, t': seq<real>)
    ensures DoubleSum(s, t + t') == DoubleSum(s, t) + DoubleSum(s, t')
    decreases |s|
  {
    if s != [] {
      DoubleSumConcatRight(s[..|s| - 1], t, t');
      RowSumConcat(s[|s| - 1], t, t');
    }
  }

  lemma {:induction false} DoubleSumOfOne(s: seq<real>, x: real)
    ensures DoubleSum(s, [x]) == RowSum(x, s) && DoubleSum([x], s) == RowSum(x, s)
  {
    if s != [] {
      DoubleSumOfOne(s[..|s| - 1], x);
      RowSumOfOne(s[|s| - 1], x);
    }
    assert [x][..0] == [];
  }

  lemma RowSumOfOne(x: real, y: real)
    ensures RowSum(x, [y]) == Abs(y - x) == Abs(x - y)
  {
  }

  lemma {:induction false} DoubleSumSymmetric(s: seq<real>, t: seq<real>)
    ensures DoubleSum(s, t) == DoubleSum(t, s)
    decreases |s|
  {
    if s == [] {
      DoubleSumEmpty(t);
    } else {
      var p, x := s[..|s| - 1], s[|s| - 1];
      assert s == p + [x];
      DoubleSumSymmetric(p, t);
      DoubleSumConcatRight(t, p, [x]);
      DoubleSumOfOne(t, x);
    }
  }

  lemma {:induction false} DoubleSumEmpty(t: seq<real>)
    ensures DoubleSum(t, []) == 0.0
  {
    if t != [] {
      DoubleSumEmpty(t[..|t| - 1]);
    }
  }

  // ----- unordered pairs, as the code sums them -----

  /** The distances over all pairs i < j of one part. */
  ghost function PairSum(s: seq<real>): real {
    if s == [] then 0.0 else RowSum(s[0], s[1..]) + PairSum(s[1..])
  }

  /** All pairs of a + b are the pairs within a, the pairs across, and the pairs within b. */
  lemma {:induction false} PairSumConcat(a: seq<real>, b: seq<real>)
    ensures PairSum(a + b) == PairSum(a) + DoubleSum(a, b) + PairSum(b)
  {
    if a == [] {
      assert a + b == b;
    } else {
      var x, p := a[0], a[1..];
      assert (a + b)[1..] == p + b;
      PairSumConcat(p, b);
      RowSumConcat(x, p, b);
      assert a == [x] + p;
      DoubleSumConcatLeft([x], p, b);
      DoubleSumOfOne(b, x);
    }
  }

  lemma PairSumOfOne(x: real)
    ensures PairSum([x]) == 0.0
  {
  }

  /** Each unordered pair is two ordered ones. */
  lemma {:induction false} DoubleSumIsTwicePairSum(s: seq<real>)
    ensures DoubleSum(s, s) == 2.0 * PairSum(s)
  {
    if s != [] {
      var x, p := s[0], s[1..];
      assert s == [x] + p;
      DoubleSumIsTwicePairSum(p);
      DoubleSumConcatLeft([x], p, s);
      DoubleSumConcatRight([x], [x], p);
      DoubleSumConcatRight(p, [x], p);
      DoubleSumOfOne(p, x);
      DoubleSumOfOne([x], x);
      RowSumOfOne(x, x);
    }
  }

  /** Moving one point x from the right part to the left part changes the three sums as the code does. */
  lemma MoveOnePoint(a: seq<real>, x: real, b: seq<real>)
    ensures DoubleSum(a + [x], b) == DoubleSum(a, [x] + b) - RowSum(x, a) + RowSum(x, b)
    ensures PairSum(a + [x]) == PairSum(a) + RowSum(x, a)
    ensures PairSum(b) == PairSum([x] + b) - RowSum(x, b)
  {
    DoubleSumConcatRight(a, [x], b);
    DoubleSumConcatLeft(a, [x], b);
    DoubleSumOfOne(a, x);
    DoubleSumOfOne(b, x);
    PairSumConcat(a, [x]);
    PairSumOfOne(x);
    assert ([x] + b)[1..] == b;
  }

  // ----- the scan -----

  /** The three running sums hold exactly the pairs within the left part, across, and within the right
      part of the split at k. */
  ghost predicate SumsAt(s: seq<real>, k: nat, sumAA: real, sumAB: real, sumBB: real)
    requires k <= |s|
  {
    && sumAA == PairSum(s[..k])
    && sumAB == DoubleSum(s[..k], s[k..])
    && sumBB == PairSum(s[k..])
  }

  /** The three sums always add up to the same total: every pair is in exactly one of them. */
  lemma SumsHaveConstantTotal(s: seq<real>, k: nat, sumAA: real, sumAB: real, sumBB: real)
    requires k <= |s| && SumsAt(s, k, sumAA, sumAB, sumBB)
    ensures sumAA + sumAB + sumBB == PairSum(s)
  {
    assert s == s[..k] + s[k..];
    PairSumConcat(s[..k], s[k..]);
  }

  /** The inner loops over one part: sum of |x - series[j]| for lo <= j < hi. */
  method SumRow(series: seq<real>, x: real, lo: nat, hi: nat) returns (sum: real)
    requires lo <= hi <= |series|
    ensures sum == RowSum(x, series[lo..hi])
  {
    sum := 0.0;
    for j := lo to hi
      invariant sum == RowSum(x, series[lo..j])
    {
      assert series[lo..j + 1][..j - lo] == series[lo..j];
      sum := sum + Abs(x - series[j]);
    }
  }

  method SumAcross(series: seq<real>, k: nat) returns (sum: real)
    requires k <= |series|
    ensures sum == DoubleSum(series[..k], series[k..])
  {
    sum := 0.0;
    for i := 0 to k
      invariant sum == DoubleSum(series[..i], series[k..])
    {
      var row := SumRow(series, series[i], k, |series|);
      assert series[..i + 1][..i] == series[..i] && series[k..|series|] == series[k..];
      sum := sum + row;
    }
  }

  method SumPairs(series: seq<real>, lo: nat, hi: nat) returns (sum: real)
    requires lo <= hi <= |series|
    ensures sum == PairSum(series[lo..hi])
  {
    sum := 0.0;
    for i := lo to hi
      invariant sum + PairSum(series[i..hi]) == PairSum(series[lo..hi])
    {
      var row := SumRow(series, series[i], i + 1, hi);
      assert series[i..hi][1..] == series[i + 1..hi];
      sum := sum + row;
    }
  }

  /** The statistic of the split at k, from the running sums alone. */
  function FromSums(n: nat, k: nat, sumAA: real, sumAB: real, sumBB: real): real
    requires 0 < k < n
  {
    var na, nb := k, n - k;
    Weigh(na, nb, MeanOverGrid(na, nb, sumAB), MeanOverPairs(na, 2.0 * sumAA), MeanOverPairs(nb, 2.0 * sumBB))
  }

  lemma FromSumsIsEnergy(s: seq<real>, k: nat, sumAA: real, sumAB: real, sumBB: real)
    requires 0 < k < |s| && SumsAt(s, k, sumAA, sumAB, sumBB)
    ensures FromSums(|s|, k, sumAA, sumAB, sumBB) == Energy(s, k)
  {
    DoubleSumIsTwicePairSum(s[..k]);
    DoubleSumIsTwicePairSum(s[k..]);
    assert |s[..k]| == k && |s[k..]| == |s| - k;
  }

  /** `bestChangePoint`: the O(n^2) scan finds the first maximum of the statistic itself. */
  method BestChangePoint(series: seq<real>, minSegLen: nat) returns (best: ChangePoint)
    requires 2 * minSegLen <= |series|
    ensures best == Best(Energy, series, ShortestPart(minSegLen))
    ensures FirstMaximum(Energy, series, ShortestPart(minSegLen), |series| - ShortestPart(minSegLen), best)
  {
    hide Energy, PairSum, DoubleSum, RowSum, SumsAt, Best, BestUpTo, ScannedTo, FirstMaximum;
    ghost var m := ShortestPart(minSegLen);
    var n := |series|;
    best := NONE;
    var sumAB := SumAcross(series, minSegLen);
    var sumAA := SumPairs(series, 0, minSegLen);
    var sumBB := SumPairs(series, minSegLen, n);
    SumsAtSplit(series, minSegLen, sumAA, sumAB, sumBB);
    best := EvalAndUpdate(series, minSegLen, sumAA, sumAB, sumBB, best);
    ScanStep(series, m, minSegLen);
    ScanStart(series, m, minSegLen - 1);

    for k := minSegLen + 1 to n - minSegLen + 1
      invariant SumsAt(series, k - 1, sumAA, sumAB, sumBB)
      invariant best == ScannedTo(series, m, k - 1)
    {
      var moved := series[k - 1];
      var left := SumRow(series, moved, 0, k - 1);
      var right := SumRow(series, moved, k, n);
      MoveSplit(series, k, sumAA, sumAB, sumBB);
      sumAB := sumAB - left;
      sumAB := sumAB + right;
      sumBB := sumBB - right;
      sumAA := sumAA + left;
      ScanStep(series, m, k);
      best := EvalAndUpdate(series, k, sumAA, sumAB, sumBB, best);
    }
    ScanEnd(series, m, n - minSegLen);
  }

  /** The best of the splits up to k. */
  ghost function ScannedTo(s: seq<real>, m: nat, k: int): ChangePoint
    requires 0 < m
  {
    BestUpTo(Energy, s, m, if k <= |s| - m then k else |s| - m)
  }

  lemma ScanStart(s: seq<real>, m: nat, k: int)
    requires 0 < m && k < m
    ensures ScannedTo(s, m, k) == NONE
  {
  }

  lemma ScanStep(s: seq<real>, m: nat, k: int)
    requires 0 < m && (m <= k <= |s| - m || (m == 1 && 0 <= k <= |s|))
    ensures ScannedTo(s, m, k) ==
            if 0 < k < |s| && Energy(s, k) > ScannedTo(s, m, k - 1).stat then ChangePoint(k, Energy(s, k))
            else ScannedTo(s, m, k - 1)
  {
    hide Energy;
  }

  lemma ScanEnd(s: seq<real>, m: nat, k: int)
    requires 0 < m && k >= |s| - m
    ensures ScannedTo(s, m, k) == Best(Energy, s, m) && FirstMaximum(Energy, s, m, |s| - m, Best(Energy, s, m))
  {
    hide Energy;
    BestIsFirstMaximum(Energy, s, m, |s| - m);
  }

  /** `evalAndUpdate`: one split scored from the running sums. With an empty part the score is 0 / 0, not a
      number, and so not greater than the best. */
  method EvalAndUpdate(series: seq<real>, k: nat, sumAA: real, sumAB: real, sumBB: real, best: ChangePoint)
    returns (best': ChangePoint)
    requires k <= |series| && SumsAt(series, k, sumAA, sumAB, sumBB)
    ensures best' == if 0 < k < |series| && Energy(series, k) > best.stat then ChangePoint(k, Energy(series, k)) else best
  {
    if k == 0 || k == |series| {
      return best;
    }
    FromSumsIsEnergy(series, k, sumAA, sumAB, sumBB);
    var e := FromSums(|series|, k, sumAA, sumAB, sumBB);
    best' := if e > best.stat then ChangePoint(k, e) else best;
  }

  /** The sums of the first split. */
  lemma SumsAtSplit(s: seq<real>, k: nat, sumAA: real, sumAB: real, sumBB: real)
    requires k <= |s| && sumAB == DoubleSum(s[..k], s[k..])
    requires sumAA == PairSum(s[0..k]) && sumBB == PairSum(s[k..|s|])
    ensures SumsAt(s, k, sumAA, sumAB, sumBB)
  {
    assert s[0..k] == s[..k] && s[k..|s|] == s[k..];
  }

  /** The updates of the loop body turn the sums of one split into those of the next. */
  lemma MoveSplit(s: seq<real>, k: nat, sumAA: real, sumAB: real, sumBB: real)
    requires 0 < k <= |s| && SumsAt(s, k - 1, sumAA, sumAB, sumBB)
    ensures var left, right := RowSum(s[k - 1], s[0..k - 1]), RowSum(s[k - 1], s[k..|s|]);
      SumsAt(s, k, sumAA + left, sumAB - left + right, sumBB - right)
  {
    var a, x, b := s[..k - 1], s[k - 1], s[k..];
    assert s[..k] == a + [x] && s[k - 1..] == [x] + b && s[0..k - 1] == a && s[k..|s|] == b;
    MoveOnePoint(a, x, b);
  }

  // ----- EDivisive -----

  /** `EDivisive` returns the greedy picks in index order. */
  method EDivisive(series: seq<real>, minSegLen: nat, maxPoints: int) returns (found: seq<ChangePoint>)
    ensures IsSortOf(found, Picks(Energy, series, ShortestPart(minSegLen), maxPoints), IndexOf)
    ensures |found| <= if maxPoints < 0 then 0 else maxPoints
    ensures WellSpaced(found, ShortestPart(minSegLen), |series|)
    ensures forall i, j :: 0 <= i < j < |found| ==> found[i].index + ShortestPart(minSegLen) <= found[j].index
  {
    hide Energy;
    if |series| < 2 * minSegLen {
      return [];
    }
    found := GreedyLoop(series, minSegLen, maxPoints);
    found := SortSlice(found, IndexOf);
    ResultShape(Energy, series, ShortestPart(minSegLen), maxPoints, found);
  }

  /** The outer loop: split the best segment until the budget is spent or nothing scores above zero. */
  method GreedyLoop(series: seq<real>, minSegLen: nat, maxPoints: int) returns (found: seq<ChangePoint>)
    requires 2 * minSegLen <= |series|
    ensures found == Picks(Energy, series, ShortestPart(minSegLen), maxPoints)
  {
    hide *;
    found := [];
    var segments := [Segment(0, |series|)];
    ghost var m := ShortestPart(minSegLen);
    FirstRound(Energy, series, m, maxPoints);
    while |found| < maxPoints
      invariant OnTheWay(Energy, series, m, maxPoints, segments, found)
    {
      OnTheWaySegmented(Energy, series, m, maxPoints, segments, found);
      var best := BestOfSegments(series, minSegLen, segments);
      NextRound(Energy, series, m, maxPoints, segments, found);
      if best.cp.stat <= 0.0 || best.seg == -1 {
        return;
      }
      found := found + [best.cp];
      segments := ReplaceSegment(segments, m, |series|, best.seg, best.cp.index);
    }
    SpentRounds(Energy, series, m, maxPoints, segments, found);
  }

  /** The inner loop: the best split over all segments long enough to be split. */
  method BestOfSegments(series: seq<real>, minSegLen: nat, segments: seq<Segment>) returns (best: Candidate)
    requires 2 * minSegLen <= |series| && Segmented(series, ShortestPart(minSegLen), segments)
    ensures best == PickOf(Energy, series, ShortestPart(minSegLen), segments)
  {
    hide Energy;
    best := Candidate(NONE, -1);
    ghost var m := ShortestPart(minSegLen);
    for j := 0 to |segments|
      invariant best == if |series| < 2 * m then Candidate(NONE, -1) else PickUpTo(Energy, series, m, segments, j)
    {
      if |series| >= 2 * m {
        PartitionBounds(segments, m, |series|, j);
        ShortSegment(Energy, series, m, segments, j, series[segments[j].lo..segments[j].hi]);
      }
      var l, r := segments[j].lo, segments[j].hi;
      if r - l >= 2 * minSegLen {
        var cp := BestChangePoint(series[l..r], minSegLen);
        if cp.stat > best.cp.stat {
          best := Candidate(ChangePoint(l + cp.index, cp.stat), j);
        }
      }
    }
  }

  /** The rebuild of the segment list; comparing bounds identifies the one segment to split. */
  method ReplaceSegment(segments: seq<Segment>, ghost minSegLen: nat, ghost n: nat, at: nat, k: nat)
    returns (segs: seq<Segment>)
    requires 0 < minSegLen && Partition(segments, minSegLen, n) && at < |segments|
    ensures segs == SplitAt(segments, at, k)
  {
    segs := [];
    var target := segments[at];
    for j := 0 to |segments|
      invariant segs == Rebuilt(segments, at, k, j)
    {
      hide Partition;
      var s := segments[j];
      PartitionDistinct(segments, minSegLen, n, j, at);
      if s.lo == target.lo && s.hi == target.hi {
        segs := segs + [Segment(target.lo, k)];
        segs := segs + [Segment(k, target.hi)];
      } else {
        segs := segs + [s];
      }
    }
    RebuiltIsSplit(segments, at, k, |segments|);
  }

  /** What the rebuild has produced from the first j segments. */
  ghost function Rebuilt(segments: seq<Segment>, at: nat, k: nat, j: nat): seq<Segment>
    requires j <= |segments|
  {
    if j == 0 then [] else
    var s := segments[j - 1];
    Rebuilt(segments, at, k, j - 1) + if j - 1 == at then [Segment(s.lo, k), Segment(k, s.hi)] else [s]
  }

  lemma {:induction false} RebuiltIsSplit(segments: seq<Segment>, at: nat, k: nat, j: nat)
    requires at < |segments| && j <= |segments|
    ensures Rebuilt(segments, at, k, j) == if j <= at then segments[..j] else
            segments[..at] + [Segment(segments[at].lo, k), Segment(k, segments[at].hi)] + segments[at + 1..j]
  {
    if j > 0 {
      RebuiltIsSplit(segments, at, k, j - 1);
      if j <= at {
        assert segments[..j] == segments[..j - 1] + [segments[j - 1]];
      } else if j > at + 1 {
        assert segments[at + 1..j] == segments[at + 1..j - 1] + [segments[j - 1]];
      }
    }
  }
}
