/** PeriodicTracker: an ongoing regression is reported once and re-armed by recovery. */
module Periodic {
  import opened Sequences
  import opened Types

  /** The suppressed queries after one more result. */
  function Suppress(suppressed: set<int>, r: Regression): set<int> {
    if r.status == Detected then suppressed + {r.queryID} else suppressed - {r.queryID}
  }

  function SuppressAll(suppressed: set<int>, rs: seq<Regression>): set<int> {
    if rs == [] then suppressed else
    Suppress(SuppressAll(suppressed, rs[..|rs| - 1]), rs[|rs| - 1])
  }

  /** The results that start a new episode. */
  function News(suppressed: set<int>, rs: seq<Regression>): seq<Regression> {
    if rs == [] then [] else
    var init, r := rs[..|rs| - 1], rs[|rs| - 1];
    News(suppressed, init)
    + if r.status == Detected && r.queryID !in SuppressAll(suppressed, init) then [r] else []
  }

  class PeriodicTracker {
    var inRegression: map<int, bool>

    ghost predicate Valid()
      reads this
    {
      forall q :: q in inRegression ==> inRegression[q]
    }

    ghost function Suppressed(): set<int>
      reads this
    {
      inRegression.Keys
    }

    constructor ()
      ensures Valid() && Suppressed() == {}
    {
      inRegression := map[];
    }

    /** results is what AnalysePeriodic answers for this tick. */
    method Tick(results: seq<Regression>) returns (newlyDetected: seq<Regression>)
      requires Valid()
      modifies this
      ensures Valid()
      ensures Suppressed() == SuppressAll(old(Suppressed()), results)
      ensures newlyDetected == News(old(Suppressed()), results)
    {
      newlyDetected := [];
      for i := 0 to |results|
        invariant Valid()
        invariant Suppressed() == SuppressAll(old(Suppressed()), results[..i])
        invariant newlyDetected == News(old(Suppressed()), results[..i])
      {
        var r := results[i];
        assert results[..i + 1][..i] == results[..i];
        var suppressed := r.queryID in inRegression && inRegression[r.queryID];
        if r.status == Detected {
          if !suppressed {
            inRegression := inRegression[r.queryID := true];
            newlyDetected := newlyDetected + [r];
          }
        } else if suppressed {
          inRegression := inRegression - {r.queryID};
        }
      }
      assert results[..|results|] == results;
    }
  }

  // ----- episodes -----

  function Of(q: int): Regression -> bool { (r: Regression) => r.queryID == q }

  /** The first observation of each maximal block of consecutive Detected observations. */
  ghost function EpisodeStarts(obs: seq<Regression>): seq<Regression> {
    if obs == [] then [] else
    var init, r := obs[..|obs| - 1], obs[|obs| - 1];
    EpisodeStarts(init) + if r.status == Detected && !Ongoing(init) then [r] else []
  }

  /** The last observation is Detected. */
  ghost predicate Ongoing(obs: seq<Regression>) {
    obs != [] && obs[|obs| - 1].status == Detected
  }

  /** The i-th observation is Detected and the one before it, if any, is not. */
  ghost predicate StartsAt(obs: seq<Regression>, i: int) {
    0 <= i < |obs| && obs[i].status == Detected && (i == 0 || obs[i - 1].status != Detected)
  }

  /** starts are the observations at these places, which are all the places where a block begins, in order. */
  ghost predicate Marks(obs: seq<Regression>, starts: seq<Regression>, at: seq<int>) {
    && |at| == |starts| && (forall i, j :: 0 <= i < j < |at| ==> at[i] < at[j])
    && (forall n :: 0 <= n < |at| ==> StartsAt(obs, at[n]) && starts[n] == obs[at[n]])
    && (forall i :: StartsAt(obs, i) ==> i in at)
  }

  /** There is one start per maximal block: the n-th start is where the n-th block begins. */
  lemma {:induction false} StartsCounted(obs: seq<Regression>) returns (at: seq<int>)
    ensures Marks(obs, EpisodeStarts(obs), at)
  {
    at := [];
    if obs != [] {
      hide Marks, EpisodeStarts;
      var m := |obs| - 1;
      at := StartsCounted(obs[..m]);
      EpisodeStep(obs[..m], obs[m]);
      assert obs == obs[..m] + [obs[m]];
      at := MarksGrow(obs[..m], obs[m], EpisodeStarts(obs[..m]), at);
    }
  }

  lemma MarksGrow(obs: seq<Regression>, r: Regression, starts: seq<Regression>, at: seq<int>) returns (at': seq<int>)
    requires Marks(obs, starts, at)
    ensures Marks(obs + [r], starts + (if r.status == Detected && !Ongoing(obs) then [r] else []), at')
  {
    var m, more := |obs|, obs + [r];
    SameStarts(obs, r);
    hide StartsAt;
    assert forall n :: 0 <= n < |at| ==> more[at[n]] == obs[at[n]];
    at' := at + if r.status == Detected && !Ongoing(obs) then [m] else [];
    forall i | StartsAt(more, i)
      ensures i in at'
    {
      assert i == m || i in at;
      if i == m {
        assert at'[|at|] == m;
      }
    }
  }

  lemma SameStarts(obs: seq<Regression>, r: Regression)
    ensures forall i :: StartsAt(obs, i) ==> 0 <= i < |obs|
    ensures forall i :: i != |obs| ==> (StartsAt(obs + [r], i) <==> StartsAt(obs, i))
    ensures StartsAt(obs + [r], |obs|) <==> r.status == Detected && !Ongoing(obs)
  {
  }

  /** Over any list of results, a query is suppressed exactly while its own last observation is Detected, and
      what is reported of it is the first observation of each of its episodes. */
  lemma {:induction false} OneReportPerEpisode(rs: seq<Regression>, q: int)
    ensures q in SuppressAll({}, rs) <==> Ongoing(Filter(rs, Of(q)))
    ensures Filter(News({}, rs), Of(q)) == EpisodeStarts(Filter(rs, Of(q)))
  {
    hide SuppressAll, Ongoing, Filter, News, EpisodeStarts;
    if rs == [] {
      NothingReported(q);
    } else {
      var init, r := rs[..|rs| - 1], rs[|rs| - 1];
      OneReportPerEpisode(init, q);
      OneMoreResult(init, r, q);
      assert rs == init + [r];
    }
  }

  lemma NothingReported(q: int)
    ensures ReportedPerEpisode([], q)
  {
  }

  ghost predicate ReportedPerEpisode(rs: seq<Regression>, q: int) {
    && (q in SuppressAll({}, rs) <==> Ongoing(Filter(rs, Of(q))))
    && Filter(News({}, rs), Of(q)) == EpisodeStarts(Filter(rs, Of(q)))
  }

  lemma OneMoreResult(rs: seq<Regression>, r: Regression, q: int)
    requires ReportedPerEpisode(rs, q)
    ensures ReportedPerEpisode(rs + [r], q)
  {
    hide SuppressAll, Ongoing, Filter, News, EpisodeStarts, Of;
    NewsStep({}, rs, r);
    FilterSnoc(News({}, rs), r, Of(q));
    FilterSnoc(rs, r, Of(q));
    EpisodeStep(Filter(rs, Of(q)), r);
    OfMeans(q, r);
    if r.queryID != q {
      assert Filter(rs + [r], Of(q)) == Filter(rs, Of(q));
    } else {
      assert Filter(rs + [r], Of(q)) == Filter(rs, Of(q)) + [r];
    }
  }

  lemma OfMeans(q: int, r: Regression)
    ensures Of(q)(r) <==> r.queryID == q
  {
  }

  lemma NewsStep(s: set<int>, rs: seq<Regression>, r: Regression)
    ensures SuppressAll(s, rs + [r])
            == if r.status == Detected then SuppressAll(s, rs) + {r.queryID} else SuppressAll(s, rs) - {r.queryID}
    ensures News(s, rs + [r])
            == if r.status == Detected && r.queryID !in SuppressAll(s, rs) then News(s, rs) + [r] else News(s, rs)
  {
    assert (rs + [r])[..|rs|] == rs;
  }

  lemma EpisodeStep(obs: seq<Regression>, r: Regression)
    ensures EpisodeStarts(obs + [r]) == EpisodeStarts(obs) + if r.status == Detected && !Ongoing(obs) then [r] else []
    ensures Ongoing(obs + [r]) <==> r.status == Detected
  {
    assert (obs + [r])[..|obs|] == obs;
  }

  // ----- whole runs -----

  ghost function Flatten(ticks: seq<seq<Regression>>): seq<Regression> {
    if ticks == [] then [] else Flatten(ticks[..|ticks| - 1]) + ticks[|ticks| - 1]
  }

  /** Ticking batch by batch is the same as one long list of results. */
  lemma {:induction false} BatchesDoNotMatter(s: set<int>, a: seq<Regression>, b: seq<Regression>)
    ensures SuppressAll(s, a + b) == SuppressAll(SuppressAll(s, a), b)
    ensures News(s, a + b) == News(s, a) + News(SuppressAll(s, a), b)
    decreases |b|
  {
    if b == [] {
      assert a + b == a;
    } else {
      assert (a + b)[..|a + b| - 1] == a + b[..|b| - 1];
      BatchesDoNotMatter(s, a, b[..|b| - 1]);
    }
  }

  /** A tracker over its whole life: per query, the first observation of each episode is reported, and it is
      suppressed exactly while the last observation is Detected. */
  method RunTracker(ticks: seq<seq<Regression>>) returns (reports: seq<Regression>, suppressed: set<int>)
    ensures forall q :: Filter(reports, Of(q)) == EpisodeStarts(Filter(Flatten(ticks), Of(q)))
    ensures forall q :: q in suppressed <==> Ongoing(Filter(Flatten(ticks), Of(q)))
  {
    var tracker := new PeriodicTracker();
    reports := [];
    for i := 0 to |ticks|
      invariant tracker.Valid() && fresh(tracker)
      invariant tracker.Suppressed() == SuppressAll({}, Flatten(ticks[..i]))
      invariant reports == News({}, Flatten(ticks[..i]))
    {
      assert ticks[..i + 1][..i] == ticks[..i];
      BatchesDoNotMatter({}, Flatten(ticks[..i]), ticks[i]);
      var newly := tracker.Tick(ticks[i]);
      reports := reports + newly;
    }
    assert ticks[..|ticks|] == ticks;
    suppressed := tracker.inRegression.Keys;
    forall q
      ensures Filter(reports, Of(q)) == EpisodeStarts(Filter(Flatten(ticks), Of(q)))
      ensures q in suppressed <==> Ongoing(Filter(Flatten(ticks), Of(q)))
    {
      OneReportPerEpisode(Flatten(ticks), q);
    }
  }
}
