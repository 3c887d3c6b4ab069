/** The two-stage detection of one query: mean filter, E-divisive change point, Welch's t-test, and for a
    deploy the distance of the change point from it. */
module Detection {
  import opened ChangePoints
  import opened Regimes
  import opened Sequences
  import opened Splitting
  import opened Types
  import opened Welch

  datatype Config = Config(
    minExecutions: int, latencyChangeThreshold: real, pValueThreshold: real, changePointTolerance: int)

  /** What the shared statistical core reports. */
  datatype ChangeStats =
    | Insufficient
    | NoChangePoint(meanPre: real, meanPost: real, changeFactor: real)
    | Found(meanPre: real, meanPost: real, changeFactor: real,
            changeAt: int, pValue: real, confidence: real, significant: bool)

  function Latencies(samples: seq<QuerySample>): (r: seq<real>)
    ensures |r| == |samples| && forall i :: 0 <= i < |r| ==> r[i] == samples[i].meanMs
  {
    seq(|samples|, i requires 0 <= i < |samples| => samples[i].meanMs)
  }

  /** `changePointMinSegLen`. */
  function MinSegLen(n: nat): nat {
    if n / 10 < 3 then 3 else n / 10
  }

  function ChangeFactor(meanPre: real, meanPost: real): real {
    if meanPre > 0.0 then meanPost / meanPre else 0.0
  }

  /** Which sorted permutation the combined series is put in does not matter to the specification: order is
      whatever `sort.Slice` made of pre + post. */
  ghost predicate Chronological(order: seq<QuerySample>, samples: seq<QuerySample>) {
    IsSortOf(order, samples, RecordedAt)
  }

  /** The verdict on the change point cp of the ordered samples. */
  function Confirm(cfg: Config, tail: Tail, order: seq<QuerySample>, cp: ChangePoint, meanPre: real,
                   meanPost: real): ChangeStats
    requires cp.index < |order|
  {
    var series := Latencies(order);
    var p := PValue(series[..cp.index], series[cp.index..], tail);
    Found(meanPre, meanPost, ChangeFactor(meanPre, meanPost), order[cp.index].recordedAt,
          p, if 1.0 - p > 1.0 then 1.0 else 1.0 - p, p <= cfg.pValueThreshold)
  }

  /** The specification of `computeChangeStats`. */
  ghost function StatsOf(cfg: Config, tail: Tail, pre: seq<QuerySample>, post: seq<QuerySample>,
                         order: seq<QuerySample>): ChangeStats
    requires Chronological(order, pre + post)
  {
    if |pre| < cfg.minExecutions || |post| < cfg.minExecutions then Insufficient else
    var meanPre, meanPost := Mean(Latencies(pre)), Mean(Latencies(post));
    var factor := ChangeFactor(meanPre, meanPost);
    if factor - 1.0 < cfg.latencyChangeThreshold then NoChangePoint(meanPre, meanPost, factor) else
    var series := Latencies(order);
    var cps := Picks(Energy, series, MinSegLen(|series|), 1);
    if cps == [] then NoChangePoint(meanPre, meanPost, factor) else
    FirstPickInside(series);
    Confirm(cfg, tail, order, cps[0], meanPre, meanPost)
  }

  /** At most one point is asked for; it leaves at least three samples on both sides. */
  lemma FirstPickInside(series: seq<real>)
    ensures var cps := Picks(Energy, series, MinSegLen(|series|), 1);
      |cps| <= 1 && (cps != [] ==> 3 <= cps[0].index <= |series| - 3 && cps[0].stat > 0.0)
  {
    hide Energy;
    var m := MinSegLen(|series|);
    if |series| >= 2 * m {
      RoundsAreWellSpaced(Energy, series, m, [Segment(0, |series|)], 1);
    }
  }

  method ComputeChangeStats(cfg: Config, tail: Tail, pre: seq<QuerySample>, post: seq<QuerySample>)
    returns (stats: ChangeStats)
    ensures exists order :: Chronological(order, pre + post) && stats == StatsOf(cfg, tail, pre, post, order)
  {
    hide Energy, PValue;
    // sorted before the early returns, so that every path can name the order
    var allSamples := SortSlice(pre + post, RecordedAt);
    assert Chronological(allSamples, pre + post);
    if |pre| < cfg.minExecutions || |post| < cfg.minExecutions {
      return Insufficient;
    }
    var meanPre := ComputeMean(Latencies(pre));
    var meanPost := ComputeMean(Latencies(post));
    var factor := ChangeFactor(meanPre, meanPost);
    if factor - 1.0 < cfg.latencyChangeThreshold {
      return NoChangePoint(meanPre, meanPost, factor);
    }
    var series := Latencies(allSamples);
    var cps := EDivisive(series, MinSegLen(|series|), 1);
    FirstPickInside(series);
    OneElementSort(cps, Picks(Energy, series, MinSegLen(|series|), 1));
    if |cps| == 0 {
      return NoChangePoint(meanPre, meanPost, factor);
    }
    var cp := cps[0];
    var p := WelchTTest(series[..cp.index], series[cp.index..], tail);
    stats := Found(meanPre, meanPost, factor, allSamples[cp.index].recordedAt,
                   p, if 1.0 - p > 1.0 then 1.0 else 1.0 - p, p <= cfg.pValueThreshold);
  }

  // ----- verdicts -----

  function QueryText(pre: seq<QuerySample>, post: seq<QuerySample>): string {
    if |pre| > 0 then pre[0].text else if |post| > 0 then post[0].text else ""
  }

  function Distance(a: int, b: int): nat {
    if a < b then b - a else a - b
  }

  /** `evaluateQuery` after the statistics are known. */
  function DeployVerdict(cfg: Config, ev: DeployEvent, queryID: int, text: string, stats: ChangeStats): Regression {
    match stats
    case Insufficient => Regression(ev.id, queryID, text, InsufficientData, 0.0, 0.0, 0.0, 0.0, 0)
    case NoChangePoint(before, after, factor) =>
      Regression(ev.id, queryID, text, NoRegression, 0.0, before, after, factor, 0)
    case Found(before, after, factor, changeAt, p, confidence, significant) =>
      if Distance(changeAt, ev.timestamp) > cfg.changePointTolerance || !significant
      then Regression(ev.id, queryID, text, NoRegression, 0.0, before, after, factor, 0)
      else Regression(ev.id, queryID, text, Detected, confidence, before, after, factor, changeAt)
  }

  method EvaluateQuery(cfg: Config, tail: Tail, ev: DeployEvent, queryID: int, pre: seq<QuerySample>,
                       post: seq<QuerySample>)
    returns (r: Regression)
    ensures r.eventID == ev.id && r.queryID == queryID && TextOfFirst(pre + post, r.text)
    ensures exists order ::
      && Chronological(order, pre + post)
      && r == DeployVerdict(cfg, ev, queryID, QueryText(pre, post), StatsOf(cfg, tail, pre, post, order))
      && Outcome(cfg, tail, pre, post, order,
                 t => -cfg.changePointTolerance <= t - ev.timestamp <= cfg.changePointTolerance, r)
  {
    hide StatsOf, Outcome;
    var stats := ComputeChangeStats(cfg, tail, pre, post);
    r := DeployVerdict(cfg, ev, queryID, QueryText(pre, post), stats);
    ghost var order :| Chronological(order, pre + post) && stats == StatsOf(cfg, tail, pre, post, order);
    DeployOutcome(cfg, tail, ev, queryID, pre, post, order);
  }

  /** `evaluatePeriodic` after the statistics are known: no instant to be close to. */
  function PeriodicVerdict(queryID: int, text: string, stats: ChangeStats): Regression {
    match stats
    case Insufficient => Regression("", queryID, text, InsufficientData, 0.0, 0.0, 0.0, 0.0, 0)
    case NoChangePoint(before, after, factor) =>
      Regression("", queryID, text, NoRegression, 0.0, before, after, factor, 0)
    case Found(before, after, factor, changeAt, p, confidence, significant) =>
      if !significant
      then Regression("", queryID, text, NoRegression, 0.0, before, after, factor, 0)
      else Regression("", queryID, text, Detected, confidence, before, after, factor, changeAt)
  }

  method EvaluatePeriodic(cfg: Config, tail: Tail, queryID: int, pre: seq<QuerySample>, post: seq<QuerySample>)
    returns (r: Regression)
    ensures r.eventID == "" && r.queryID == queryID && TextOfFirst(pre + post, r.text)
    ensures exists order ::
      && Chronological(order, pre + post)
      && r == PeriodicVerdict(queryID, QueryText(pre, post), StatsOf(cfg, tail, pre, post, order))
      && Outcome(cfg, tail, pre, post, order, t => true, r)
  {
    hide StatsOf, Outcome;
    var stats := ComputeChangeStats(cfg, tail, pre, post);
    r := PeriodicVerdict(queryID, QueryText(pre, post), stats);
    ghost var order :| Chronological(order, pre + post) && stats == StatsOf(cfg, tail, pre, post, order);
    PeriodicOutcome(cfg, tail, queryID, pre, post, order);
  }

  // ----- what a verdict means, gate by gate -----

  ghost predicate TextOfFirst(samples: seq<QuerySample>, text: string) {
    text == if samples == [] then "" else samples[0].text
  }

  /** The mean latency after is at least 1 + threshold times the one before; a mean of zero before counts as a
      ratio of zero. */
  ghost predicate Slower(before: real, after: real, threshold: real) {
    if before > 0.0 then after >= (1.0 + threshold) * before else threshold <= -1.0
  }

  /** i is the first best split of the series by energy, among those that leave a tenth of the series, and at least
      three points, on both sides; and it scores above zero. */
  ghost predicate ChangesAt(series: seq<real>, i: int) {
    var least := if |series| < 30 then 3 else |series| / 10;
    && least <= i <= |series| - least && Energy(series, i) > 0.0
    && (forall k :: least <= k <= |series| - least ==> Energy(series, k) <= Energy(series, i))
    && (forall k :: least <= k < i ==> Energy(series, k) < Energy(series, i))
  }

  /** The series changes at i, at an acceptable instant, and the two segments differ significantly. */
  ghost predicate ConfirmedAt(cfg: Config, tail: Tail, order: seq<QuerySample>, near: int -> bool, i: int) {
    && 0 <= i < |order| && ChangesAt(Latencies(order), i) && near(order[i].recordedAt)
    && PValue(Latencies(order)[..i], Latencies(order)[i..], tail) <= cfg.pValueThreshold
  }

  /** The verdict r on samples before and after, put in chronological order. */
  ghost predicate Outcome(cfg: Config, tail: Tail, pre: seq<QuerySample>, post: seq<QuerySample>,
                          order: seq<QuerySample>, near: int -> bool, r: Regression) {
    var enough := |pre| >= cfg.minExecutions && |post| >= cfg.minExecutions;
    var before, after := Mean(Latencies(pre)), Mean(Latencies(post));
    && (r.status == InsufficientData <==> !enough)
    && (r.status == Detected <==>
          enough && Slower(before, after, cfg.latencyChangeThreshold)
          && exists i :: ConfirmedAt(cfg, tail, order, near, i))
    && (r.status == Detected ==>
          exists i :: ConfirmedAt(cfg, tail, order, near, i) && r.changeAt == order[i].recordedAt
                      && r.confidence == AtMostOne(1.0 - PValue(Latencies(order)[..i], Latencies(order)[i..], tail)))
    && (r.status != Detected ==> r.confidence == 0.0 && r.changeAt == 0)
    && (if enough then r.meanBefore == before && r.meanAfter == after else r.meanBefore == r.meanAfter == 0.0)
    && (if enough && before > 0.0 then r.changeFactor * before == after else r.changeFactor == 0.0)
  }

  ghost function AtMostOne(x: real): real {
    if x > 1.0 then 1.0 else x
  }

  /** There is at most one such place. */
  lemma ChangesOnce(series: seq<real>, i: int, j: int)
    requires ChangesAt(series, i) && ChangesAt(series, j)
    ensures i == j
  {
  }

  /** The one pick of the detector is that place, and there is no pick if there is none. */
  lemma PickIsWhereItChanges(series: seq<real>)
    ensures var cps := Picks(Energy, series, MinSegLen(|series|), 1);
      if cps == [] then forall i :: !ChangesAt(series, i) else ChangesAt(series, cps[0].index)
  {
    hide Energy;
    var m := MinSegLen(|series|);
    if |series| >= 2 * m {
      hide Picks, Best;
      OnePick(series, m);
      BestChangesAt(series, m, Best(Energy, series, m));
    }
  }

  lemma BestChangesAt(series: seq<real>, m: nat, best: ChangePoint)
    requires m == MinSegLen(|series|) && 2 * m <= |series| && best == Best(Energy, series, m)
    ensures if best.stat > 0.0 then ChangesAt(series, best.index) else forall i :: !ChangesAt(series, i)
  {
    hide Energy;
    BestIsFirstMaximum(Energy, series, m, |series| - m);
    assert forall k :: m <= k <= |series| - m ==> Admissible(series, m, k);
  }

  /** One round on the whole series picks its best split, if that scores above zero. */
  lemma OnePick(series: seq<real>, m: nat)
    requires 0 < m && 2 * m <= |series|
    ensures var best := Best(Energy, series, m);
      Picks(Energy, series, m, 1) == if best.stat > 0.0 then [best] else []
  {
    hide Energy, Best;
    var segs := [Segment(0, |series|)];
    assert series[0..|series|] == series;
    assert PickUpTo(Energy, series, m, segs, 0) == Candidate(NONE, -1);
    assert PickUpTo(Energy, series, m, segs, 1) == Consider(Energy, series, m, segs, 0, Candidate(NONE, -1));
    RoundsUnfold(Energy, series, m, segs, 1);
    var c := Pick(Energy, series, m, segs);
    if c.cp.stat > 0.0 {
      assert Rounds(Energy, series, m, SplitAt(segs, c.seg, c.cp.index), 0) == [];
    }
  }

  lemma RatioMeans(before: real, after: real, threshold: real)
    ensures ChangeFactor(before, after) - 1.0 < threshold <==> !Slower(before, after, threshold)
    ensures if before > 0.0 then ChangeFactor(before, after) * before == after else ChangeFactor(before, after) == 0.0
  {
    if before > 0.0 {
      var z := after / before;
      assert z * before == after;
      if z < 1.0 + threshold {
        Monotone(before, z, 1.0 + threshold);
      } else if z > 1.0 + threshold {
        Monotone(before, 1.0 + threshold, z);
      }
    }
  }

  /** The statistics behind every outcome: the gates in their order. */
  lemma StatsMean(cfg: Config, tail: Tail, pre: seq<QuerySample>, post: seq<QuerySample>, order: seq<QuerySample>)
    requires Chronological(order, pre + post)
    ensures var stats := StatsOf(cfg, tail, pre, post, order);
      var before, after := Mean(Latencies(pre)), Mean(Latencies(post));
      && (stats.Insufficient? <==> |pre| < cfg.minExecutions || |post| < cfg.minExecutions)
      && (!stats.Insufficient? ==>
            stats.meanPre == before && stats.meanPost == after && stats.changeFactor == ChangeFactor(before, after))
      && (stats.NoChangePoint? ==>
            !Slower(before, after, cfg.latencyChangeThreshold) || forall i :: !ChangesAt(Latencies(order), i))
      && (stats.Found? ==> Slower(before, after, cfg.latencyChangeThreshold) && FoundAt(cfg, tail, order, stats))
  {
    hide Energy, PValue, Mean, Picks, ChangesAt, Slower;
    var series := Latencies(order);
    RatioMeans(Mean(Latencies(pre)), Mean(Latencies(post)), cfg.latencyChangeThreshold);
    FirstPickInside(series);
    PickIsWhereItChanges(series);
    if StatsOf(cfg, tail, pre, post, order).Found? {
      assert FoundAtIndex(cfg, tail, order, StatsOf(cfg, tail, pre, post, order),
                          Picks(Energy, series, MinSegLen(|series|), 1)[0].index);
    }
  }

  ghost predicate FoundAtIndex(cfg: Config, tail: Tail, order: seq<QuerySample>, stats: ChangeStats, i: int)
    requires stats.Found?
  {
    && 0 <= i < |order| && ChangesAt(Latencies(order), i) && stats.changeAt == order[i].recordedAt
    && var p := PValue(Latencies(order)[..i], Latencies(order)[i..], tail);
      stats.confidence == AtMostOne(1.0 - p) && (stats.significant <==> p <= cfg.pValueThreshold)
  }

  ghost predicate FoundAt(cfg: Config, tail: Tail, order: seq<QuerySample>, stats: ChangeStats)
    requires stats.Found?
  {
    exists i :: FoundAtIndex(cfg, tail, order, stats, i)
  }

  /** What the verdict makes of the statistics: Detected exactly if a change point was found at an acceptable
      instant and is significant. */
  ghost predicate Judged(stats: ChangeStats, near: int -> bool, r: Regression) {
    match stats
    case Insufficient =>
      r.status == InsufficientData && r.confidence == r.meanBefore == r.meanAfter == r.changeFactor == 0.0 && r.changeAt == 0
    case NoChangePoint(before, after, factor) =>
      && r.status == NoRegression && r.meanBefore == before && r.meanAfter == after && r.changeFactor == factor
      && r.confidence == 0.0 && r.changeAt == 0
    case Found(before, after, factor, changeAt, p, confidence, significant) =>
      && r.status == (if near(changeAt) && significant then Detected else NoRegression)
      && r.meanBefore == before && r.meanAfter == after && r.changeFactor == factor
      && (if r.status == Detected then r.confidence == confidence && r.changeAt == changeAt
          else r.confidence == 0.0 && r.changeAt == 0)
  }

  lemma JudgedOutcome(cfg: Config, tail: Tail, pre: seq<QuerySample>, post: seq<QuerySample>,
                      order: seq<QuerySample>, near: int -> bool, r: Regression)
    requires Chronological(order, pre + post) && Judged(StatsOf(cfg, tail, pre, post, order), near, r)
    ensures Outcome(cfg, tail, pre, post, order, near, r)
  {
    hide StatsOf, PValue, Mean, ChangesAt, Slower, Latencies, Chronological, AtMostOne;
    var stats := StatsOf(cfg, tail, pre, post, order);
    StatsMean(cfg, tail, pre, post, order);
    RatioMeans(Mean(Latencies(pre)), Mean(Latencies(post)), cfg.latencyChangeThreshold);
    if stats.Found? {
      var i :| FoundAtIndex(cfg, tail, order, stats, i);
      forall j | ConfirmedAt(cfg, tail, order, near, j)
        ensures i == j
      {
        ChangesOnce(Latencies(order), i, j);
      }
      assert ConfirmedAt(cfg, tail, order, near, i) <==> near(stats.changeAt) && stats.significant;
    }
  }

  lemma DeployOutcome(cfg: Config, tail: Tail, ev: DeployEvent, queryID: int, pre: seq<QuerySample>,
                      post: seq<QuerySample>, order: seq<QuerySample>)
    requires Chronological(order, pre + post)
    ensures Outcome(cfg, tail, pre, post, order,
                    t => -cfg.changePointTolerance <= t - ev.timestamp <= cfg.changePointTolerance,
                    DeployVerdict(cfg, ev, queryID, QueryText(pre, post), StatsOf(cfg, tail, pre, post, order)))
  {
    hide StatsOf, Outcome, Chronological;
    var near := (t: int) => -cfg.changePointTolerance <= t - ev.timestamp <= cfg.changePointTolerance;
    JudgedOutcome(cfg, tail, pre, post, order, near,
                  DeployVerdict(cfg, ev, queryID, QueryText(pre, post), StatsOf(cfg, tail, pre, post, order)));
  }

  lemma PeriodicOutcome(cfg: Config, tail: Tail, queryID: int, pre: seq<QuerySample>, post: seq<QuerySample>,
                        order: seq<QuerySample>)
    requires Chronological(order, pre + post)
    ensures Outcome(cfg, tail, pre, post, order, t => true,
                    PeriodicVerdict(queryID, QueryText(pre, post), StatsOf(cfg, tail, pre, post, order)))
  {
    hide StatsOf, Outcome, Chronological;
    JudgedOutcome(cfg, tail, pre, post, order, t => true,
                  PeriodicVerdict(queryID, QueryText(pre, post), StatsOf(cfg, tail, pre, post, order)));
  }

  // ----- soundness -----

  /** i splits the ordered samples into two tested segments. */
  ghost predicate TestedSplit(cfg: Config, tail: Tail, order: seq<QuerySample>, i: nat) {
    && 3 <= i <= |order| - 3
    && PValue(Latencies(order)[..i], Latencies(order)[i..], tail) <= cfg.pValueThreshold
  }

  /** Everything a Detected result promises. */
  ghost predicate Sound(cfg: Config, tail: Tail, ev: DeployEvent, pre: seq<QuerySample>, post: seq<QuerySample>,
                        order: seq<QuerySample>, r: Regression) {
    && |pre| >= cfg.minExecutions && |post| >= cfg.minExecutions
    && r.changeFactor >= 1.0 + cfg.latencyChangeThreshold
    && (cfg.latencyChangeThreshold > -1.0 ==>
          r.meanBefore > 0.0 && r.meanAfter / r.meanBefore >= 1.0 + cfg.latencyChangeThreshold)
    && Distance(r.changeAt, ev.timestamp) <= cfg.changePointTolerance
    && exists i: nat :: TestedSplit(cfg, tail, order, i) && r.changeAt == order[i].recordedAt
                        && order[i] in pre + post && Energy(Latencies(order), i) > 0.0
  }

  lemma DetectedIsSound(cfg: Config, tail: Tail, ev: DeployEvent, queryID: int, pre: seq<QuerySample>,
                        post: seq<QuerySample>, order: seq<QuerySample>)
    requires Chronological(order, pre + post)
    ensures var r := DeployVerdict(cfg, ev, queryID, QueryText(pre, post), StatsOf(cfg, tail, pre, post, order));
      r.status == Detected ==> Sound(cfg, tail, ev, pre, post, order, r)
  {
    hide Energy, PValue;
    var series := Latencies(order);
    var r := DeployVerdict(cfg, ev, queryID, QueryText(pre, post), StatsOf(cfg, tail, pre, post, order));
    if r.status == Detected {
      FirstPickInside(series);
      var cps := Picks(Energy, series, MinSegLen(|series|), 1);
      SortHasSameElements(order, pre + post);
      FirstPickScore(series);
      assert TestedSplit(cfg, tail, order, cps[0].index);
    }
  }

  /** The one pick reports the statistic of the split it names. */
  lemma FirstPickScore(series: seq<real>)
    ensures var cps := Picks(Energy, series, MinSegLen(|series|), 1);
      cps != [] ==> cps[0].stat == Energy(series, cps[0].index)
  {
    hide Energy;
    var m, segs := MinSegLen(|series|), [Segment(0, |series|)];
    if |series| >= 2 * m {
      RoundsUnfold(Energy, series, m, segs, 1);
      assert series[0..|series|] == series;
    }
  }

  // ----- splitting a window at an instant -----

  function UpTo(split: int): QuerySample -> bool { (s: QuerySample) => s.recordedAt <= split }

  function From(split: int): QuerySample -> bool { (s: QuerySample) => s.recordedAt >= split }

  /** `partitionAt`: a sample recorded exactly at the split goes to both sides. */
  method PartitionAt(samples: seq<QuerySample>, split: int) returns (pre: seq<QuerySample>, post: seq<QuerySample>)
    ensures pre == Filter(samples, UpTo(split)) && post == Filter(samples, From(split))
  {
    pre, post := [], [];
    for i := 0 to |samples|
      invariant pre == Filter(samples[..i], UpTo(split)) && post == Filter(samples[..i], From(split))
    {
      assert samples[..i + 1][..i] == samples[..i];
      var s := samples[i];
      if !(s.recordedAt > split) {
        pre := pre + [s];
      }
      if !(s.recordedAt < split) {
        post := post + [s];
      }
    }
    assert samples[..|samples|] == samples;
  }

  /** Nothing is lost by the split, and only the samples at the instant itself are doubled. */
  lemma PartitionConserves(samples: seq<QuerySample>, split: int, x: QuerySample)
    ensures multiset(Filter(samples, UpTo(split)) + Filter(samples, From(split)))[x]
            == multiset(samples)[x] * if x.recordedAt == split then 2 else 1
  {
    FilterMultiplicity(samples, UpTo(split), x);
    FilterMultiplicity(samples, From(split), x);
  }

  // ----- the end-to-end theorem -----

  /** Latency c1 before the instant, c2 after it, nothing at it. */
  ghost predicate CleanStep(samples: seq<QuerySample>, at: int, c1: real, c2: real) {
    forall s :: s in samples ==>
      s.recordedAt != at && s.meanMs == if s.recordedAt < at then c1 else c2
  }

  /** In chronological order the samples before the instant come first. */
  lemma {:induction false} EarlierComeFirst(order: seq<QuerySample>, at: int)
    requires SortedBy(order, RecordedAt)
    ensures |Filter(order, UpTo(at))| <= |order|
    ensures forall i :: 0 <= i < |order| ==> (order[i].recordedAt <= at <==> i < |Filter(order, UpTo(at))|)
  {
    if order != [] {
      var m := |order| - 1;
      EarlierComeFirst(order[..m], at);
      if order[m].recordedAt <= at {
        assert forall i :: 0 <= i < m ==> RecordedAt(order[i]) <= RecordedAt(order[m]);
      }
    }
  }

  lemma NothingIsDoubled(samples: seq<QuerySample>, at: int)
    requires forall s :: s in samples ==> s.recordedAt != at
    ensures multiset(Filter(samples, UpTo(at)) + Filter(samples, From(at))) == multiset(samples)
  {
    var both, all := multiset(Filter(samples, UpTo(at)) + Filter(samples, From(at))), multiset(samples);
    forall x
      ensures both[x] == all[x]
    {
      PartitionConserves(samples, at, x);
      assert x in samples <==> x in all;
    }
    assert both == all;
  }

  /** In chronological order, z samples come before the instant and the rest after it. */
  ghost predicate Around(order: seq<QuerySample>, samples: seq<QuerySample>, at: int, z: nat) {
    && |order| == |samples| && z <= |order|
    && (forall s :: s in order <==> s in samples)
    && (forall i :: 0 <= i < |order| ==> (order[i].recordedAt <= at <==> i < z))
  }

  lemma CombinedOrder(samples: seq<QuerySample>, at: int, order: seq<QuerySample>)
    requires forall s :: s in samples ==> s.recordedAt != at
    requires Chronological(order, Filter(samples, UpTo(at)) + Filter(samples, From(at)))
    ensures Around(order, samples, at, |Filter(samples, UpTo(at))|)
    ensures |order| == |samples|
  {
    NothingIsDoubled(samples, at);
    SortHasSameElements(order, samples);
    FilterOfPermutation(order, samples, UpTo(at));
    SortHasSameElements(Filter(order, UpTo(at)), Filter(samples, UpTo(at)));
    EarlierComeFirst(order, at);
  }

  /** The combined series of a clean step is a step exactly at the number of samples before it. */
  lemma CombinedSeriesIsStep(samples: seq<QuerySample>, at: int, c1: real, c2: real, order: seq<QuerySample>, z: nat)
    requires CleanStep(samples, at, c1, c2) && c1 != c2 && Around(order, samples, at, z)
    ensures Step(Latencies(order), z, c1, c2)
  {
  }

  lemma LatenciesOfFilter(samples: seq<QuerySample>, p: QuerySample -> bool, c: real)
    requires forall s :: s in samples && p(s) ==> s.meanMs == c
    ensures Constant(Latencies(Filter(samples, p)), c)
  {
  }

  /** A clean step with enough samples on both sides. */
  ghost predicate SizeableStep(cfg: Config, samples: seq<QuerySample>, at: int, c1: real, c2: real) {
    && CleanStep(samples, at, c1, c2)
    && 0.0 < c1 && cfg.latencyChangeThreshold > 0.0 && c2 >= (1.0 + cfg.latencyChangeThreshold) * c1
    && |Filter(samples, UpTo(at))| >= cfg.minExecutions && |Filter(samples, UpTo(at))| >= MinSegLen(|samples|)
    && |Filter(samples, From(at))| >= cfg.minExecutions && |Filter(samples, From(at))| >= MinSegLen(|samples|)
  }

  /** The filters see exactly c1 and c2, E-divisive finds the step, and Welch is certain of it. */
  lemma StatsOfCleanStep(cfg: Config, tail: Tail, samples: seq<QuerySample>, at: int, c1: real, c2: real,
                         order: seq<QuerySample>)
    requires SizeableStep(cfg, samples, at, c1, c2)
    requires Chronological(order, Filter(samples, UpTo(at)) + Filter(samples, From(at)))
    ensures var pre, post := Filter(samples, UpTo(at)), Filter(samples, From(at));
      && |pre| < |order|
      && StatsOf(cfg, tail, pre, post, order)
         == Found(c1, c2, c2 / c1, order[|pre|].recordedAt, 0.0, 1.0, 0.0 <= cfg.pValueThreshold)
  {
    hide Energy, PValue, Mean, Picks, Around, Filter, ChangeFactor;
    var pre, post := Filter(samples, UpTo(at)), Filter(samples, From(at));
    SortHasSameElements(order, pre + post);
    MeansOfCleanStep(cfg, samples, at, c1, c2);
    CombinedOrder(samples, at, order);
    SeriesOfCleanStep(samples, at, c1, c2, order, |pre|, tail);
  }

  lemma SeriesOfCleanStep(samples: seq<QuerySample>, at: int, c1: real, c2: real, order: seq<QuerySample>, z: nat,
                          tail: Tail)
    requires CleanStep(samples, at, c1, c2) && c1 != c2 && Around(order, samples, at, z)
    requires MinSegLen(|order|) <= z <= |order| - MinSegLen(|order|)
    ensures var series := Latencies(order);
      && Picks(Energy, series, MinSegLen(|series|), 1) == [ChangePoint(z, Energy(series, z))]
      && PValue(series[..z], series[z..], tail) == 0.0
  {
    hide Energy, PValue, Picks, Step;
    CombinedSeriesIsStep(samples, at, c1, c2, order, z);
    StepIsCertain(Latencies(order), z, c1, c2, tail);
  }

  lemma StepIsCertain(series: seq<real>, z: nat, c1: real, c2: real, tail: Tail)
    requires Step(series, z, c1, c2) && MinSegLen(|series|) <= z <= |series| - MinSegLen(|series|)
    ensures Picks(Energy, series, MinSegLen(|series|), 1) == [ChangePoint(z, Energy(series, z))]
    ensures PValue(series[..z], series[z..], tail) == 0.0
  {
    hide Energy, PValue, Picks;
    StepHasOneChangePoint(series, z, c1, c2, MinSegLen(|series|), 1);
    ConstantsAreCertain(series[..z], series[z..], c1, c2, tail);
  }

  lemma MeansOfCleanStep(cfg: Config, samples: seq<QuerySample>, at: int, c1: real, c2: real)
    requires SizeableStep(cfg, samples, at, c1, c2)
    ensures var pre, post := Filter(samples, UpTo(at)), Filter(samples, From(at));
      && |pre| >= cfg.minExecutions && |post| >= cfg.minExecutions
      && Mean(Latencies(pre)) == c1 && Mean(Latencies(post)) == c2
      && c1 != c2 && ChangeFactor(c1, c2) == c2 / c1 && ChangeFactor(c1, c2) - 1.0 >= cfg.latencyChangeThreshold
  {
    hide Mean;
    Exceeds(c1, c2, cfg.latencyChangeThreshold);
    MeanOfSide(samples, UpTo(at), c1);
    MeanOfSide(samples, From(at), c2);
  }

  /** A clean step of sufficient size around a deploy is Detected with confidence 1 at the earliest sample
      after it, exactly when that sample is within the tolerance (and the p-value threshold admits 0). */
  lemma CleanStepIsDetected(cfg: Config, tail: Tail, ev: DeployEvent, queryID: int, samples: seq<QuerySample>,
                            c1: real, c2: real, order: seq<QuerySample>)
    requires SizeableStep(cfg, samples, ev.timestamp, c1, c2)
    requires Chronological(order, Filter(samples, UpTo(ev.timestamp)) + Filter(samples, From(ev.timestamp)))
    ensures var pre, post := Filter(samples, UpTo(ev.timestamp)), Filter(samples, From(ev.timestamp));
      var r := DeployVerdict(cfg, ev, queryID, QueryText(pre, post), StatsOf(cfg, tail, pre, post, order));
      exists earliest: QuerySample ::
        && earliest in post && (forall s :: s in post ==> earliest.recordedAt <= s.recordedAt)
        && (r.status == Detected <==>
              Distance(earliest.recordedAt, ev.timestamp) <= cfg.changePointTolerance && 0.0 <= cfg.pValueThreshold)
        && (r.status == Detected ==> r.confidence == 1.0 && r.changeAt == earliest.recordedAt)
        && r.meanBefore == c1 && r.meanAfter == c2
  {
    hide StatsOf;
    var at := ev.timestamp;
    StatsOfCleanStep(cfg, tail, samples, at, c1, c2, order);
    CombinedOrder(samples, at, order);
    EarliestAfter(samples, at, order, |Filter(samples, UpTo(at))|);
  }

  lemma MeanOfSide(samples: seq<QuerySample>, p: QuerySample -> bool, c: real)
    requires forall s :: s in samples && p(s) ==> s.meanMs == c
    requires Filter(samples, p) != []
    ensures Mean(Latencies(Filter(samples, p))) == c
  {
    LatenciesOfFilter(samples, p, c);
    MeanOfConstant(Latencies(Filter(samples, p)), c);
  }

  lemma Exceeds(c1: real, c2: real, threshold: real)
    requires c1 > 0.0 && threshold > 0.0 && c2 >= (1.0 + threshold) * c1
    ensures c2 > c1 && c2 / c1 - 1.0 >= threshold
  {
    assert threshold * c1 > 0.0;
    var z := c2 / c1;
    assert c1 * z == c2;
    if z < 1.0 + threshold {
      Monotone(c1, z, 1.0 + threshold);
    }
  }

  /** The first sample of the later part is the earliest of those after the instant. */
  lemma EarliestAfter(samples: seq<QuerySample>, at: int, order: seq<QuerySample>, z: nat)
    requires SortedBy(order, RecordedAt) && z < |order| && Around(order, samples, at, z)
    requires forall s :: s in samples ==> s.recordedAt != at
    ensures order[z] in Filter(samples, From(at))
    ensures forall s :: s in Filter(samples, From(at)) ==> order[z].recordedAt <= s.recordedAt
  {
    FilterMembers(samples, From(at));
    assert order[z] in order;
    forall s | s in Filter(samples, From(at))
      ensures order[z].recordedAt <= s.recordedAt
    {
      var i :| 0 <= i < |order| && order[i] == s;
      assert RecordedAt(order[z]) <= RecordedAt(order[i]);
    }
  }
}
