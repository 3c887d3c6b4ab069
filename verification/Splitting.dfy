/** Greedy segmentation of a series by an arbitrary split statistic: the specification of `EDivisive`
    and what holds of it whatever the statistic is. */
module Splitting {
  import opened Sequences

  datatype ChangePoint = ChangePoint(index: nat, stat: real)

  /** The score of splitting a part before its k-th point. */
  type Statistic = (seq<real>, int) -> real

  /** What the scan starts from, and returns when no split scores above it. */
  const NONE := ChangePoint(0, -1.0)

  ghost predicate Admissible(s: seq<real>, minSegLen: nat, k: int) {
    minSegLen <= k <= |s| - minSegLen && 0 < k < |s|
  }

  // ----- the specification of the scan -----

  /** The best split among those not after k, the earliest one on a tie. */
  ghost function BestUpTo(f: Statistic, s: seq<real>, minSegLen: nat, k: int): ChangePoint
    requires 0 < minSegLen && k <= |s| - minSegLen
    decreases k
  {
    if k < minSegLen then NONE else
    var best := BestUpTo(f, s, minSegLen, k - 1);
    if f(s, k) > best.stat then ChangePoint(k, f(s, k)) else best
  }

  ghost function Best(f: Statistic, s: seq<real>, minSegLen: nat): ChangePoint
    requires 0 < minSegLen
  {
    BestUpTo(f, s, minSegLen, |s| - minSegLen)
  }

  /** cp is the first split that maximises the statistic, or NONE when none exceeds -1. */
  ghost predicate FirstMaximum(f: Statistic, s: seq<real>, minSegLen: nat, upTo: int, cp: ChangePoint) {
    && (forall k :: Admissible(s, minSegLen, k) && k <= upTo ==> f(s, k) <= cp.stat)
    && (cp == NONE
        || (&& Admissible(s, minSegLen, cp.index) && cp.index <= upTo
            && cp.stat == f(s, cp.index) && cp.stat > -1.0
            && forall k :: Admissible(s, minSegLen, k) && k < cp.index ==> f(s, k) < cp.stat))
  }

  lemma {:induction false} BestIsFirstMaximum(f: Statistic, s: seq<real>, minSegLen: nat, k: int)
    requires 0 < minSegLen && k <= |s| - minSegLen
    ensures FirstMaximum(f, s, minSegLen, k, BestUpTo(f, s, minSegLen, k))
    decreases k
  {
    if k >= minSegLen {
      BestIsFirstMaximum(f, s, minSegLen, k - 1);
    }
  }

  /** The first maximum is one split only, so the scan has no freedom. */
  lemma FirstMaximumIsUnique(f: Statistic, s: seq<real>, minSegLen: nat, upTo: int, a: ChangePoint, b: ChangePoint)
    requires FirstMaximum(f, s, minSegLen, upTo, a) && FirstMaximum(f, s, minSegLen, upTo, b)
    ensures a == b
  {
  }

  /** The half-open range [lo, hi) of the series. */
  datatype Segment = Segment(lo: nat, hi: nat)

  /** The segments cover [0, n) in order, each at least minSegLen long. */
  ghost predicate Partition(segs: seq<Segment>, minSegLen: nat, n: nat) {
    && segs != [] && segs[0].lo == 0 && segs[|segs| - 1].hi == n
    && (forall i :: 0 <= i < |segs| ==> segs[i].lo + minSegLen <= segs[i].hi)
    && (forall i, j :: 0 <= i < j < |segs| ==> segs[i].hi <= segs[j].lo)
    && (forall i :: 0 <= i < |segs| - 1 ==> segs[i].hi == segs[i + 1].lo)
  }

  // ----- one round -----

  /** A candidate split, and the segment it belongs to (-1 while there is none). */
  datatype Candidate = Candidate(cp: ChangePoint, seg: int)

  ghost function Consider(f: Statistic, series: seq<real>, minSegLen: nat, segs: seq<Segment>, j: nat,
                          best: Candidate): Candidate
    requires 0 < minSegLen && j < |segs| && segs[j].lo <= segs[j].hi <= |series|
  {
    var s := segs[j];
    if s.hi - s.lo < 2 * minSegLen then best else
    var cp := Best(f, series[s.lo..s.hi], minSegLen);
    if cp.stat > best.cp.stat then Candidate(ChangePoint(s.lo + cp.index, cp.stat), j) else best
  }

  ghost function PickUpTo(f: Statistic, series: seq<real>, minSegLen: nat, segs: seq<Segment>, j: nat): Candidate
    requires 0 < minSegLen && Partition(segs, minSegLen, |series|) && j <= |segs|
  {
    if j == 0 then Candidate(NONE, -1) else
    Consider(f, series, minSegLen, segs, j - 1, PickUpTo(f, series, minSegLen, segs, j - 1))
  }

  ghost function Pick(f: Statistic, series: seq<real>, minSegLen: nat, segs: seq<Segment>): Candidate
    requires 0 < minSegLen && Partition(segs, minSegLen, |series|)
  {
    PickUpTo(f, series, minSegLen, segs, |segs|)
  }

  /** k is a split of segment i that leaves both halves long enough. */
  ghost predicate SplitOf(segs: seq<Segment>, minSegLen: nat, i: int, k: int) {
    0 <= i < |segs| && segs[i].lo + minSegLen <= k <= segs[i].hi - minSegLen
  }

  /** The statistic of splitting segment i at k. */
  ghost function ScoreAt(f: Statistic, series: seq<real>, minSegLen: nat, segs: seq<Segment>, i: int, k: int): real
    requires 0 < minSegLen && Partition(segs, minSegLen, |series|) && SplitOf(segs, minSegLen, i, k)
  {
    PartitionBounds(segs, minSegLen, |series|, i);
    f(series[segs[i].lo..segs[i].hi], k - segs[i].lo)
  }

  lemma PartitionDistinct(segs: seq<Segment>, minSegLen: nat, n: nat, i: int, j: int)
    requires 0 < minSegLen && Partition(segs, minSegLen, n) && 0 <= i < |segs| && 0 <= j < |segs|
    ensures segs[i].lo == segs[j].lo <==> i == j
  {
  }

  lemma PartitionBounds(segs: seq<Segment>, minSegLen: nat, n: nat, i: int)
    requires Partition(segs, minSegLen, n) && 0 <= i < |segs|
    ensures segs[i].lo + minSegLen <= segs[i].hi <= n
  {
  }

  /** The pick is a split of one current segment; no split of any of the first j segments scores higher, and no
      earlier one as high. */
  ghost predicate IsGreedyMax(f: Statistic, series: seq<real>, minSegLen: nat, segs: seq<Segment>, j: nat, c: Candidate)
    requires 0 < minSegLen && Partition(segs, minSegLen, |series|) && j <= |segs|
  {
    && (forall i, k :: i < j && SplitOf(segs, minSegLen, i, k) ==> ScoreAt(f, series, minSegLen, segs, i, k) <= c.cp.stat)
    && (c.cp.stat > 0.0 ==>
          && c.seg < j && SplitOf(segs, minSegLen, c.seg, c.cp.index)
          && c.cp.stat == ScoreAt(f, series, minSegLen, segs, c.seg, c.cp.index)
          && (forall i, k :: SplitOf(segs, minSegLen, i, k) && (i < c.seg || (i == c.seg && k < c.cp.index)) ==>
                ScoreAt(f, series, minSegLen, segs, i, k) < c.cp.stat))
  }

  lemma {:induction false} PickIsGreedyMax(f: Statistic, series: seq<real>, minSegLen: nat, segs: seq<Segment>, j: nat)
    requires 0 < minSegLen && Partition(segs, minSegLen, |series|) && j <= |segs|
    ensures IsGreedyMax(f, series, minSegLen, segs, j, PickUpTo(f, series, minSegLen, segs, j))
  {
    if j > 0 {
      hide Partition, IsGreedyMax;
      PickIsGreedyMax(f, series, minSegLen, segs, j - 1);
      PartitionBounds(segs, minSegLen, |series|, j - 1);
      ConsiderIsGreedy(f, series, minSegLen, segs, j - 1, PickUpTo(f, series, minSegLen, segs, j - 1));
    }
  }

  lemma ConsiderIsGreedy(f: Statistic, series: seq<real>, minSegLen: nat, segs: seq<Segment>, j: nat, best: Candidate)
    requires 0 < minSegLen && Partition(segs, minSegLen, |series|) && j < |segs|
    requires segs[j].lo + minSegLen <= segs[j].hi <= |series| && IsGreedyMax(f, series, minSegLen, segs, j, best)
    ensures IsGreedyMax(f, series, minSegLen, segs, j + 1, Consider(f, series, minSegLen, segs, j, best))
  {
    hide Partition, Best, ScoreAt;
    var s := segs[j];
    if s.hi - s.lo < 2 * minSegLen {
      assert forall k :: !SplitOf(segs, minSegLen, j, k);
    } else {
      var cp := Best(f, series[s.lo..s.hi], minSegLen);
      BestOfSegment(f, series, minSegLen, segs, j);
      forall i, k | i < j + 1 && SplitOf(segs, minSegLen, i, k)
        ensures ScoreAt(f, series, minSegLen, segs, i, k) <= (if cp.stat > best.cp.stat then cp.stat else best.cp.stat)
      {
      }
    }
  }

  /** The best split of segment i beats every other split of it. */
  lemma BestOfSegment(f: Statistic, series: seq<real>, minSegLen: nat, segs: seq<Segment>, i: nat)
    requires 0 < minSegLen && Partition(segs, minSegLen, |series|) && i < |segs|
    requires segs[i].lo + minSegLen <= segs[i].hi <= |series|
    ensures var cp := Best(f, series[segs[i].lo..segs[i].hi], minSegLen);
      && (forall k :: SplitOf(segs, minSegLen, i, k) ==> ScoreAt(f, series, minSegLen, segs, i, k) <= cp.stat)
      && (cp.stat > 0.0 ==>
            && SplitOf(segs, minSegLen, i, segs[i].lo + cp.index)
            && cp.stat == ScoreAt(f, series, minSegLen, segs, i, segs[i].lo + cp.index)
            && (forall k :: SplitOf(segs, minSegLen, i, k) && k < segs[i].lo + cp.index ==>
                  ScoreAt(f, series, minSegLen, segs, i, k) < cp.stat))
  {
    hide Partition;
    var part := series[segs[i].lo..segs[i].hi];
    BestIsFirstMaximum(f, part, minSegLen, |part| - minSegLen);
    forall k | SplitOf(segs, minSegLen, i, k)
      ensures ScoreAt(f, series, minSegLen, segs, i, k) <= Best(f, part, minSegLen).stat
      ensures Best(f, part, minSegLen).stat > 0.0 && k < segs[i].lo + Best(f, part, minSegLen).index ==>
                ScoreAt(f, series, minSegLen, segs, i, k) < Best(f, part, minSegLen).stat
    {
      assert Admissible(part, minSegLen, k - segs[i].lo);
    }
  }

  ghost function SplitAt(segs: seq<Segment>, i: nat, k: nat): seq<Segment>
    requires i < |segs|
  {
    segs[..i] + [Segment(segs[i].lo, k), Segment(k, segs[i].hi)] + segs[i + 1..]
  }

  lemma SplitKeepsPartition(segs: seq<Segment>, minSegLen: nat, n: nat, i: int, k: nat)
    requires 0 < minSegLen && Partition(segs, minSegLen, n) && SplitOf(segs, minSegLen, i, k)
    ensures Partition(SplitAt(segs, i, k), minSegLen, n)
  {
    var t := SplitAt(segs, i, k);
    forall j | 0 <= j < |t|
      ensures t[j].lo + minSegLen <= t[j].hi
      ensures j < |t| - 1 ==> t[j].hi == t[j + 1].lo
      ensures j > i + 1 ==> t[j] == segs[j - 1]
    {
    }
    ChainIsOrdered(t, minSegLen);
  }

  /** Consecutive segments that touch are in order as a whole. */
  lemma ChainIsOrdered(t: seq<Segment>, minSegLen: nat)
    requires forall i :: 0 <= i < |t| ==> t[i].lo + minSegLen <= t[i].hi
    requires forall i :: 0 <= i < |t| - 1 ==> t[i].hi == t[i + 1].lo
    ensures forall i, j :: 0 <= i < j < |t| ==> t[i].hi <= t[j].lo
  {
    forall i, j | 0 <= i < j < |t|
      ensures t[i].hi <= t[j].lo
    {
      ChainReaches(t, minSegLen, i, j);
    }
  }

  lemma {:induction false} ChainReaches(t: seq<Segment>, minSegLen: nat, i: nat, j: nat)
    requires forall i :: 0 <= i < |t| ==> t[i].lo + minSegLen <= t[i].hi
    requires forall i :: 0 <= i < |t| - 1 ==> t[i].hi == t[i + 1].lo
    requires i < j < |t|
    ensures t[i].hi <= t[j].lo
    decreases j - i
  {
    assert t[i].hi == t[i + 1].lo;
    if i + 1 < j {
      ChainReaches(t, minSegLen, i + 1, j);
    }
  }

  // ----- all rounds -----

  /** The picks in the order they are made, starting from segs with at most budget rounds. */
  ghost function Rounds(f: Statistic, series: seq<real>, minSegLen: nat, segs: seq<Segment>,
                        budget: int): seq<ChangePoint>
    requires 0 < minSegLen && Partition(segs, minSegLen, |series|)
    decreases budget
  {
    if budget <= 0 then [] else
    var c := Pick(f, series, minSegLen, segs);
    if c.cp.stat <= 0.0 then [] else
    PickIsGreedyMax(f, series, minSegLen, segs, |segs|);
    SplitKeepsPartition(segs, minSegLen, |series|, c.seg, c.cp.index);
    [c.cp] + Rounds(f, series, minSegLen, SplitAt(segs, c.seg, c.cp.index), budget - 1)
  }

  /** The picks of a whole call: none for a series too short to split. */
  ghost function Picks(f: Statistic, series: seq<real>, minSegLen: nat, maxPoints: int): seq<ChangePoint>
    requires 0 < minSegLen
  {
    if |series| < 2 * minSegLen then [] else
    Rounds(f, series, minSegLen, [Segment(0, |series|)], maxPoints)
  }

  function IndexOf(cp: ChangePoint): int { cp.index }

  // ----- what the result looks like -----

  /** Every pick is positive and keeps minSegLen from both ends; any two keep minSegLen from each other. */
  ghost predicate WellSpaced(cps: seq<ChangePoint>, minSegLen: nat, n: nat) {
    && (forall i :: 0 <= i < |cps| ==> cps[i].stat > 0.0 && minSegLen <= cps[i].index <= n - minSegLen)
    && (forall i, j :: 0 <= i < j < |cps| ==> Apart(cps[i], cps[j], minSegLen))
  }

  predicate Apart(p: ChangePoint, q: ChangePoint, minSegLen: nat) {
    p.index + minSegLen <= q.index || q.index + minSegLen <= p.index
  }

  /** A split of a refined segmentation is a split of the coarser one, minSegLen away from the cut. */
  lemma SplitOfSplit(segs: seq<Segment>, minSegLen: nat, n: nat, at: int, cut: nat, i: int, k: int) returns (i': int)
    requires 0 < minSegLen && Partition(segs, minSegLen, n) && SplitOf(segs, minSegLen, at, cut)
    requires SplitOf(SplitAt(segs, at, cut), minSegLen, i, k)
    ensures SplitOf(segs, minSegLen, i', k)
    ensures cut + minSegLen <= k || k + minSegLen <= cut
  {
    i' := if i <= at then i else i - 1;
    if i < at {
      assert segs[i].hi <= segs[at].lo;
    } else if i > at + 1 {
      assert SplitAt(segs, at, cut)[i] == segs[i'] && segs[at].hi <= segs[i'].lo;
    }
  }

  lemma RoundsUnfold(f: Statistic, series: seq<real>, minSegLen: nat, segs: seq<Segment>, budget: int)
    requires 0 < minSegLen && Partition(segs, minSegLen, |series|) && budget > 0
    ensures var c := Pick(f, series, minSegLen, segs);
      var picks := Rounds(f, series, minSegLen, segs, budget);
      && IsGreedyMax(f, series, minSegLen, segs, |segs|, c)
      && (c.cp.stat <= 0.0 ==> picks == [])
      && (c.cp.stat > 0.0 ==>
            && SplitOf(segs, minSegLen, c.seg, c.cp.index)
            && Partition(SplitAt(segs, c.seg, c.cp.index), minSegLen, |series|)
            && picks == [c.cp] + Rounds(f, series, minSegLen, SplitAt(segs, c.seg, c.cp.index), budget - 1))
  {
    var c := Pick(f, series, minSegLen, segs);
    PickIsGreedyMax(f, series, minSegLen, segs, |segs|);
    if c.cp.stat > 0.0 {
      SplitKeepsPartition(segs, minSegLen, |series|, c.seg, c.cp.index);
    }
  }

  // ----- the states of the greedy loop -----

  /** The shortest part that counts: a split that leaves one part empty scores 0 / 0, which is never chosen. */
  function ShortestPart(minSegLen: nat): (m: nat)
    ensures m >= minSegLen && m > 0
  {
    if minSegLen == 0 then 1 else minSegLen
  }

  /** The segmentation of a series; one too short to split stays whole. */
  ghost predicate Segmented(series: seq<real>, m: nat, segs: seq<Segment>) {
    if |series| < 2 * m then segs == [Segment(0, |series|)] else Partition(segs, m, |series|)
  }

  ghost function PickOf(f: Statistic, series: seq<real>, m: nat, segs: seq<Segment>): Candidate
    requires 0 < m && Segmented(series, m, segs)
  {
    if |series| < 2 * m then Candidate(NONE, -1) else Pick(f, series, m, segs)
  }

  /** The picks of the whole call are those found so far and those still to come. */
  ghost predicate OnTheWay(f: Statistic, series: seq<real>, m: nat, maxPoints: int, segs: seq<Segment>,
                           found: seq<ChangePoint>)
    requires 0 < m
  {
    && Segmented(series, m, segs)
    && (if |series| < 2 * m then found == []
        else Picks(f, series, m, maxPoints) == found + Rounds(f, series, m, segs, maxPoints - |found|))
  }

  lemma OnTheWaySegmented(f: Statistic, series: seq<real>, m: nat, maxPoints: int, segs: seq<Segment>,
                          found: seq<ChangePoint>)
    requires 0 < m && OnTheWay(f, series, m, maxPoints, segs, found)
    ensures Segmented(series, m, segs)
  {
  }

  /** No candidate scores below the sentinel, and a segment too short to split offers nothing above it. */
  lemma {:induction false} ShortSegment(f: Statistic, series: seq<real>, m: nat, segs: seq<Segment>, j: nat,
                                        s: seq<real>)
    requires 0 < m && Partition(segs, m, |series|) && j <= |segs|
    ensures PickUpTo(f, series, m, segs, j).cp.stat >= -1.0
    ensures |s| < 2 * m ==> Best(f, s, m) == NONE
  {
    if j > 0 {
      ShortSegment(f, series, m, segs, j - 1, s);
    }
  }

  lemma FirstRound(f: Statistic, series: seq<real>, m: nat, maxPoints: int)
    requires 0 < m
    ensures OnTheWay(f, series, m, maxPoints, [Segment(0, |series|)], [])
  {
  }

  lemma SpentRounds(f: Statistic, series: seq<real>, m: nat, maxPoints: int, segs: seq<Segment>,
                    found: seq<ChangePoint>)
    requires 0 < m && OnTheWay(f, series, m, maxPoints, segs, found) && |found| >= maxPoints
    ensures found == Picks(f, series, m, maxPoints)
  {
  }

  /** One more round moves the head of the remaining picks to the end of those already found. */
  lemma NextRound(f: Statistic, series: seq<real>, m: nat, maxPoints: int, segs: seq<Segment>, found: seq<ChangePoint>)
    requires 0 < m && OnTheWay(f, series, m, maxPoints, segs, found) && |found| < maxPoints
    ensures var c := PickOf(f, series, m, segs);
      if c.cp.stat <= 0.0 then found == Picks(f, series, m, maxPoints) else
        && 0 <= c.seg < |segs| && Partition(segs, m, |series|)
        && OnTheWay(f, series, m, maxPoints, SplitAt(segs, c.seg, c.cp.index), found + [c.cp])
  {
    hide Picks, Pick;
    if |series| < 2 * m {
      TooShort(f, series, m, maxPoints);
    } else {
      RoundsUnfold(f, series, m, segs, maxPoints - |found|);
    }
  }

  lemma TooShort(f: Statistic, series: seq<real>, m: nat, maxPoints: int)
    requires 0 < m && |series| < 2 * m
    ensures Picks(f, series, m, maxPoints) == []
  {
  }

  ghost predicate InsideSome(segs: seq<Segment>, minSegLen: nat, p: ChangePoint) {
    exists i :: SplitOf(segs, minSegLen, i, p.index)
  }

  /** Later picks stay inside the current segments, minSegLen away from every boundary. */
  lemma {:induction false} RoundsAreWellSpaced(f: Statistic, series: seq<real>, minSegLen: nat, segs: seq<Segment>,
                                               budget: int)
    requires 0 < minSegLen && Partition(segs, minSegLen, |series|)
    ensures var cps := Rounds(f, series, minSegLen, segs, budget);
      && |cps| <= (if budget < 0 then 0 else budget) && WellSpaced(cps, minSegLen, |series|)
      && forall p :: p in cps ==> InsideSome(segs, minSegLen, p)
    decreases budget
  {
    if budget > 0 {
      var c := Pick(f, series, minSegLen, segs);
      RoundsUnfold(f, series, minSegLen, segs, budget);
      if c.cp.stat > 0.0 {
        var t := SplitAt(segs, c.seg, c.cp.index);
        var rest := Rounds(f, series, minSegLen, t, budget - 1);
        RoundsAreWellSpaced(f, series, minSegLen, t, budget - 1);
        PartitionBounds(segs, minSegLen, |series|, c.seg);
        forall p | p in rest
          ensures Apart(c.cp, p, minSegLen) && InsideSome(segs, minSegLen, p)
        {
          var i :| SplitOf(t, minSegLen, i, p.index);
          var i' := SplitOfSplit(segs, minSegLen, |series|, c.seg, c.cp.index, i, p.index);
        }
        assert InsideSome(segs, minSegLen, c.cp);
      }
    }
  }

  /** A sorted permutation of a well-spaced list rises by at least minSegLen at every step. */
  lemma SortedWellSpaced(r: seq<ChangePoint>, cps: seq<ChangePoint>, minSegLen: nat, n: nat)
    requires 0 < minSegLen && WellSpaced(cps, minSegLen, n) && IsSortOf(r, cps, IndexOf)
    ensures WellSpaced(r, minSegLen, n) && |r| == |cps|
    ensures forall i, j :: 0 <= i < j < |r| ==> r[i].index + minSegLen <= r[j].index
  {
    SortHasSameElements(r, cps);
    forall i, j | 0 <= i < j < |r|
      ensures Apart(r[i], r[j], minSegLen)
    {
      if r[i] == r[j] {
        RepeatedCountsTwice(r, i, j);
        DistinctCountsOnce(cps, r[i]);
        assert false;
      }
      assert r[i] in cps && r[j] in cps;
    }
    forall i | 0 <= i < |r|
      ensures r[i].stat > 0.0 && minSegLen <= r[i].index <= n - minSegLen
    {
      assert r[i] in cps;
    }
    forall i, j | 0 <= i < j < |r|
      ensures r[i].index + minSegLen <= r[j].index
    {
      assert IndexOf(r[i]) <= IndexOf(r[j]);
    }
  }

  /** The shape of every result: at most maxPoints positive change points, strictly increasing with gaps
      of at least minSegLen between them and to both ends. */
  lemma ResultShape(f: Statistic, series: seq<real>, minSegLen: nat, maxPoints: int, found: seq<ChangePoint>)
    requires 0 < minSegLen
    requires IsSortOf(found, Picks(f, series, minSegLen, maxPoints), IndexOf)
    ensures |found| <= if maxPoints < 0 then 0 else maxPoints
    ensures WellSpaced(found, minSegLen, |series|)
    ensures forall i, j :: 0 <= i < j < |found| ==> found[i].index + minSegLen <= found[j].index
  {
    if |series| >= 2 * minSegLen {
      RoundsAreWellSpaced(f, series, minSegLen, [Segment(0, |series|)], maxPoints);
    }
    SortedWellSpaced(found, Picks(f, series, minSegLen, maxPoints), minSegLen, |series|);
  }

  /** At most one pick needs no sorting. */
  lemma OneElementSort(r: seq<ChangePoint>, s: seq<ChangePoint>)
    requires IsSortOf(r, s, IndexOf) && |s| <= 1
    ensures r == s
  {
    SortHasSameElements(r, s);
    if |r| == 1 {
      assert r[0] in r;
    }
  }

  // ----- greediness, stated without the scan -----

  /** picks is a greedy run from segs: each pick is a positive maximum over all splits of all current
      segments, and the run stops early only when no current segment has a positive split. */
  ghost predicate GreedyRun(f: Statistic, series: seq<real>, minSegLen: nat, segs: seq<Segment>, budget: int,
                            picks: seq<ChangePoint>)
    requires 0 < minSegLen && Partition(segs, minSegLen, |series|)
    decreases budget
  {
    if picks == [] then
      budget <= 0 || NothingLeft(f, series, minSegLen, segs)
    else
      && budget > 0
      && exists i :: GreedyStep(f, series, minSegLen, segs, picks[0], i)
                     && GreedyRun(f, series, minSegLen, SplitAt(segs, i, picks[0].index), budget - 1, picks[1..])
  }

  /** p is a positive split of segment i that no split of any current segment beats. */
  ghost predicate GreedyStep(f: Statistic, series: seq<real>, minSegLen: nat, segs: seq<Segment>, p: ChangePoint,
                             i: int)
    requires 0 < minSegLen && Partition(segs, minSegLen, |series|)
    ensures GreedyStep(f, series, minSegLen, segs, p, i) ==>
              0 <= i < |segs| && Partition(SplitAt(segs, i, p.index), minSegLen, |series|)
  {
    && SplitOf(segs, minSegLen, i, p.index)
    && p.stat > 0.0
    && IsGreedyMax(f, series, minSegLen, segs, |segs|, Candidate(p, i))
    && (SplitKeepsPartition(segs, minSegLen, |series|, i, p.index); true)
  }

  ghost predicate NothingLeft(f: Statistic, series: seq<real>, minSegLen: nat, segs: seq<Segment>)
    requires 0 < minSegLen && Partition(segs, minSegLen, |series|)
  {
    forall i, k :: SplitOf(segs, minSegLen, i, k) ==> ScoreAt(f, series, minSegLen, segs, i, k) <= 0.0
  }

  lemma {:induction false} RoundsAreGreedy(f: Statistic, series: seq<real>, minSegLen: nat, segs: seq<Segment>,
                                           budget: int)
    requires 0 < minSegLen && Partition(segs, minSegLen, |series|)
    ensures GreedyRun(f, series, minSegLen, segs, budget, Rounds(f, series, minSegLen, segs, budget))
    decreases budget
  {
    if budget > 0 {
      var c := Pick(f, series, minSegLen, segs);
      RoundsUnfold(f, series, minSegLen, segs, budget);
      if c.cp.stat > 0.0 {
        var t := SplitAt(segs, c.seg, c.cp.index);
        RoundsAreGreedy(f, series, minSegLen, t, budget - 1);
        GreedyCons(f, series, minSegLen, segs, budget, c, Rounds(f, series, minSegLen, t, budget - 1));
      }
    }
  }

  /** Two first best splits of the same segments are one. */
  lemma GreedyStepIsUnique(f: Statistic, series: seq<real>, minSegLen: nat, segs: seq<Segment>, p: ChangePoint, i: int,
                           q: ChangePoint, j: int)
    requires 0 < minSegLen && Partition(segs, minSegLen, |series|)
    requires GreedyStep(f, series, minSegLen, segs, p, i) && GreedyStep(f, series, minSegLen, segs, q, j)
    ensures p == q && i == j
  {
    hide Partition, ScoreAt;
    assert p.stat == q.stat;
  }

  /** A greedy run has no freedom: whatever is greedy in this sense is what the loop picks. */
  lemma {:induction false} GreedyRunIsUnique(f: Statistic, series: seq<real>, minSegLen: nat, segs: seq<Segment>,
                                             budget: int, a: seq<ChangePoint>, b: seq<ChangePoint>)
    requires 0 < minSegLen && Partition(segs, minSegLen, |series|)
    requires GreedyRun(f, series, minSegLen, segs, budget, a) && GreedyRun(f, series, minSegLen, segs, budget, b)
    ensures a == b
    decreases budget
  {
    hide Partition, GreedyStep, NothingLeft;
    if a != [] && b != [] {
      var i :| GreedyStep(f, series, minSegLen, segs, a[0], i)
               && GreedyRun(f, series, minSegLen, SplitAt(segs, i, a[0].index), budget - 1, a[1..]);
      var j :| GreedyStep(f, series, minSegLen, segs, b[0], j)
               && GreedyRun(f, series, minSegLen, SplitAt(segs, j, b[0].index), budget - 1, b[1..]);
      GreedyStepIsUnique(f, series, minSegLen, segs, a[0], i, b[0], j);
      GreedyRunIsUnique(f, series, minSegLen, SplitAt(segs, i, a[0].index), budget - 1, a[1..], b[1..]);
      assert a == [a[0]] + a[1..] && b == [b[0]] + b[1..];
    } else if a != [] {
      var i :| GreedyStep(f, series, minSegLen, segs, a[0], i)
               && GreedyRun(f, series, minSegLen, SplitAt(segs, i, a[0].index), budget - 1, a[1..]);
      StepMeansSomethingLeft(f, series, minSegLen, segs, a[0], i);
    } else if b != [] {
      var j :| GreedyStep(f, series, minSegLen, segs, b[0], j)
               && GreedyRun(f, series, minSegLen, SplitAt(segs, j, b[0].index), budget - 1, b[1..]);
      StepMeansSomethingLeft(f, series, minSegLen, segs, b[0], j);
    }
  }

  lemma StepMeansSomethingLeft(f: Statistic, series: seq<real>, minSegLen: nat, segs: seq<Segment>, p: ChangePoint, i: int)
    requires 0 < minSegLen && Partition(segs, minSegLen, |series|) && GreedyStep(f, series, minSegLen, segs, p, i)
    ensures !NothingLeft(f, series, minSegLen, segs)
  {
  }

  lemma GreedyCons(f: Statistic, series: seq<real>, minSegLen: nat, segs: seq<Segment>, budget: int,
                   c: Candidate, rest: seq<ChangePoint>)
    requires 0 < minSegLen && Partition(segs, minSegLen, |series|) && budget > 0
    requires GreedyStep(f, series, minSegLen, segs, c.cp, c.seg)
    requires GreedyRun(f, series, minSegLen, SplitAt(segs, c.seg, c.cp.index), budget - 1, rest)
    ensures GreedyRun(f, series, minSegLen, segs, budget, [c.cp] + rest)
  {
    var picks := [c.cp] + rest;
    assert picks[0] == c.cp && picks[1..] == rest;
  }

  /** A segmentation without a positive split yields no pick. */
  lemma NothingLeftStops(f: Statistic, series: seq<real>, minSegLen: nat, segs: seq<Segment>, budget: int)
    requires 0 < minSegLen && Partition(segs, minSegLen, |series|) && NothingLeft(f, series, minSegLen, segs)
    ensures Rounds(f, series, minSegLen, segs, budget) == []
  {
    if budget > 0 {
      RoundsUnfold(f, series, minSegLen, segs, budget);
      assert Pick(f, series, minSegLen, segs).cp.stat <= 0.0;
    }
  }

  // ----- series whose statistics are ordered alike -----

  /** A change of scale: strictly increasing and fixing zero. */
  ghost predicate Rescaling(g: real -> real) {
    g(0.0) == 0.0 && forall x, y :: x < y ==> g(x) < g(y)
  }

  /** q is p with its statistic rescaled; below zero only the sign is comparable, because the scan starts
      from the fixed value -1. */
  ghost predicate Matches(p: ChangePoint, q: ChangePoint, g: real -> real) {
    if p.stat > 0.0 then q == ChangePoint(p.index, g(p.stat)) else q.stat <= 0.0
  }

  lemma {:induction false} RescaledBest(f: Statistic, s: seq<real>, t: seq<real>, minSegLen: nat, k: int,
                                        g: real -> real)
    requires 0 < minSegLen && k <= |s| - minSegLen && |s| == |t| && Rescaling(g)
    requires forall k :: f(t, k) == g(f(s, k))
    ensures Matches(BestUpTo(f, s, minSegLen, k), BestUpTo(f, t, minSegLen, k), g)
    decreases k
  {
    if k >= minSegLen {
      RescaledBest(f, s, t, minSegLen, k - 1, g);
      assert f(t, k) == g(f(s, k));
    }
  }

  /** On every range of the series, t scores as s does up to the change of scale g. */
  ghost predicate RescaledSeries(f: Statistic, s: seq<real>, t: seq<real>, g: real -> real) {
    && |s| == |t| && Rescaling(g)
    && forall lo, hi, k :: 0 <= lo <= hi <= |s| ==> f(t[lo..hi], k) == g(f(s[lo..hi], k))
  }

  lemma {:induction false} RescaledPick(f: Statistic, s: seq<real>, t: seq<real>, minSegLen: nat, segs: seq<Segment>,
                                        j: nat, g: real -> real)
    requires 0 < minSegLen && Partition(segs, minSegLen, |s|) && j <= |segs| && RescaledSeries(f, s, t, g)
    ensures var p, q := PickUpTo(f, s, minSegLen, segs, j), PickUpTo(f, t, minSegLen, segs, j);
      Matches(p.cp, q.cp, g) && (p.cp.stat > 0.0 ==> p.seg == q.seg)
  {
    if j > 0 {
      RescaledPick(f, s, t, minSegLen, segs, j - 1, g);
      PartitionBounds(segs, minSegLen, |s|, j - 1);
      var seg := segs[j - 1];
      var a, b := s[seg.lo..seg.hi], t[seg.lo..seg.hi];
      if |a| >= 2 * minSegLen {
        RescaledBest(f, a, b, minSegLen, |a| - minSegLen, g);
      }
    }
  }

  /** Every pick keeps its index and has its statistic rescaled. */
  ghost predicate RescaledBy(cps: seq<ChangePoint>, cps': seq<ChangePoint>, g: real -> real) {
    && |cps| == |cps'|
    && forall i :: 0 <= i < |cps| ==> cps'[i] == ChangePoint(cps[i].index, g(cps[i].stat))
  }

  lemma {:induction false} RescaledRounds(f: Statistic, s: seq<real>, t: seq<real>, minSegLen: nat,
                                          segs: seq<Segment>, budget: int, g: real -> real)
    requires 0 < minSegLen && Partition(segs, minSegLen, |s|) && RescaledSeries(f, s, t, g)
    ensures RescaledBy(Rounds(f, s, minSegLen, segs, budget), Rounds(f, t, minSegLen, segs, budget), g)
    decreases budget
  {
    if budget > 0 {
      RoundsUnfold(f, s, minSegLen, segs, budget);
      RoundsUnfold(f, t, minSegLen, segs, budget);
      RescaledPick(f, s, t, minSegLen, segs, |segs|, g);
      var c := Pick(f, s, minSegLen, segs);
      if c.cp.stat > 0.0 {
        assert g(c.cp.stat) > g(0.0);
        RescaledRounds(f, s, t, minSegLen, SplitAt(segs, c.seg, c.cp.index), budget - 1, g);
      }
    }
  }

  /** The same change points in both, up to the change of scale. */
  ghost predicate SameUpTo(found: seq<ChangePoint>, found': seq<ChangePoint>, g: real -> real) {
    && |found| == |found'|
    && (forall p :: p in found ==> ChangePoint(p.index, g(p.stat)) in found')
    && (forall q :: q in found' ==> exists p :: p in found && q == ChangePoint(p.index, g(p.stat)))
  }

  lemma SortsAgreeUpToScale(found: seq<ChangePoint>, cps: seq<ChangePoint>, found': seq<ChangePoint>,
                            cps': seq<ChangePoint>, g: real -> real)
    requires IsSortOf(found, cps, IndexOf) && IsSortOf(found', cps', IndexOf) && RescaledBy(cps, cps', g)
    ensures SameUpTo(found, found', g)
  {
    SortHasSameElements(found, cps);
    SortHasSameElements(found', cps');
    forall p | p in found
      ensures ChangePoint(p.index, g(p.stat)) in found'
    {
      var i :| 0 <= i < |cps| && cps[i] == p;
      assert cps'[i] in found';
    }
    forall q | q in found'
      ensures exists p :: p in found && q == ChangePoint(p.index, g(p.stat))
    {
      var i :| 0 <= i < |cps'| && cps'[i] == q;
      assert cps[i] in found;
    }
  }
}
