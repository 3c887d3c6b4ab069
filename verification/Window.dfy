/** analyseWindow: one evaluation per distinct query, although a query whose queryid rotated is listed under
    several queryids. */
module Window {
  import opened Detection
  import opened Sequences
  import opened Types

  /** The samples of a queryid in the window being analysed. */
  type Source = int -> seq<QuerySample>

  type Eval = (int, seq<QuerySample>, seq<QuerySample>) -> Regression

  // ----- the latest sample -----

  ghost function LatestOf(samples: seq<QuerySample>): QuerySample
    requires samples != []
  {
    var m := |samples| - 1;
    if m == 0 then samples[0] else
    var latest := LatestOf(samples[..m]);
    if samples[m].recordedAt > latest.recordedAt then samples[m] else latest
  }

  /** It is the first of the samples with the latest instant. */
  lemma {:induction false} LatestIsFirstMaximum(samples: seq<QuerySample>) returns (i: nat)
    requires samples != []
    ensures i < |samples| && LatestOf(samples) == samples[i]
    ensures forall j :: 0 <= j < |samples| ==> samples[j].recordedAt <= samples[i].recordedAt
    ensures forall j :: 0 <= j < i ==> samples[j].recordedAt < samples[i].recordedAt
  {
    var m := |samples| - 1;
    if m == 0 {
      i := 0;
    } else {
      i := LatestIsFirstMaximum(samples[..m]);
      assert forall j :: 0 <= j < m ==> samples[j] == samples[..m][j];
      if samples[m].recordedAt > samples[i].recordedAt {
        i := m;
      }
    }
  }

  method LatestSample(samples: seq<QuerySample>) returns (latest: QuerySample, found: bool)
    ensures found <==> samples != []
    ensures found ==> latest == LatestOf(samples)
  {
    latest, found := QuerySample(0, "", 0, 0.0, 0.0, 0, ""), false;
    for i := 0 to |samples|
      invariant found <==> i > 0
      invariant found ==> latest == LatestOf(samples[..i])
    {
      assert samples[..i + 1][..i] == samples[..i];
      var s := samples[i];
      if !found || s.recordedAt > latest.recordedAt {
        latest, found := s, true;
      }
    }
    assert samples[..|samples|] == samples;
  }

  ghost function Fingerprint(samples: seq<QuerySample>): string {
    if samples == [] then "" else LatestOf(samples).fingerprint
  }

  /** The queryid a finding is reported under: the one still receiving samples. */
  ghost function CanonicalID(samples: seq<QuerySample>, fallback: int): int {
    if samples == [] then fallback else LatestOf(samples).queryID
  }

  // ----- which queryids are evaluated -----

  /** q is evaluated: it has no fingerprint, or is the smallest listed queryid with its fingerprint. */
  ghost predicate Wins(ids: set<int>, src: Source, q: int) {
    && q in ids
    && (Fingerprint(src(q)) == "" || forall p :: p in ids && p < q ==> Fingerprint(src(p)) != Fingerprint(src(q)))
  }

  ghost predicate Ascending(s: seq<int>) {
    forall i, j :: 0 <= i < j < |s| ==> s[i] < s[j]
  }

  function Elements(s: seq<int>): set<int> {
    set x | x in s
  }

  /** The evaluated queryids, in ascending order. */
  ghost predicate IsSchedule(evaluated: seq<int>, ids: set<int>, src: Source) {
    Ascending(evaluated) && forall q :: q in evaluated <==> Wins(ids, src, q)
  }

  /** The schedule depends on the set of queryids alone, not on the order they are listed in. */
  lemma ScheduleIsUnique(a: seq<int>, b: seq<int>, ids: set<int>, src: Source)
    requires IsSchedule(a, ids, src) && IsSchedule(b, ids, src)
    ensures a == b
  {
    AscendingIsUnique(a, b);
  }

  lemma {:induction false} AscendingIsUnique(a: seq<int>, b: seq<int>)
    requires Ascending(a) && Ascending(b) && forall x :: x in a <==> x in b
    ensures a == b
  {
    if a != [] {
      AscendingLast(a);
      assert a[|a| - 1] in b;
    }
    if b != [] {
      AscendingLast(b);
      assert b[|b| - 1] in a;
    }
    if a != [] && b != [] {
      AscendingIsUnique(a[..|a| - 1], b[..|b| - 1]);
      assert a == a[..|a| - 1] + [a[|a| - 1]] && b == b[..|b| - 1] + [b[|b| - 1]];
    }
  }

  lemma AscendingLast(a: seq<int>)
    requires a != [] && Ascending(a)
    ensures var m := |a| - 1;
      && a[m] in a && (forall x :: x in a ==> x <= a[m])
      && (forall x :: x in a[..m] <==> x in a && x != a[m])
  {
  }

  /** No two evaluated queryids share a fingerprint. */
  lemma NoTwoShare(evaluated: seq<int>, ids: set<int>, src: Source, p: int, q: int)
    requires IsSchedule(evaluated, ids, src) && p in evaluated && q in evaluated && p != q
    ensures Fingerprint(src(p)) != Fingerprint(src(q)) || Fingerprint(src(p)) == ""
  {
  }

  /** Every skipped queryid has a smaller evaluated one with its fingerprint. */
  lemma SkippedHasSmaller(evaluated: seq<int>, ids: set<int>, src: Source, q: int) returns (p: int)
    requires IsSchedule(evaluated, ids, src) && q in ids && q !in evaluated
    ensures p in evaluated && p < q && Fingerprint(src(p)) == Fingerprint(src(q)) != ""
  {
    p := SmallestLike(ids, src, q);
    assert Wins(ids, src, p);
    assert !Wins(ids, src, q);
  }

  lemma {:induction false} SmallestLike(ids: set<int>, src: Source, q: int) returns (p: int)
    requires q in ids
    ensures p in ids && p <= q && Fingerprint(src(p)) == Fingerprint(src(q))
    ensures forall k :: k in ids && k < p ==> Fingerprint(src(k)) != Fingerprint(src(q))
    decreases |set k | k in ids && k < q|
  {
    if k :| k in ids && k < q && Fingerprint(src(k)) == Fingerprint(src(q)) {
      var below, above := set j | j in ids && j < k, set j | j in ids && j < q;
      assert below < above by { assert k in above && k !in below; }
      Smaller(below, above);
      p := SmallestLike(ids, src, k);
    } else {
      p := q;
    }
  }

  lemma Smaller(a: set<int>, b: set<int>)
    requires a < b
    ensures |a| < |b|
  {
    var rest := b - a;
    assert a + rest == b && a !! rest;
    assert rest != {};
  }

  // ----- the loop -----

  ghost function ResultOf(q: int, src: Source, split: int, eval: Eval): Regression {
    var all := src(q);
    eval(CanonicalID(all, q), Filter(all, UpTo(split)), Filter(all, From(split)))
  }

  ghost function ResultsOf(evaluated: seq<int>, src: Source, split: int, eval: Eval): seq<Regression> {
    if evaluated == [] then [] else
    ResultsOf(evaluated[..|evaluated| - 1], src, split, eval) + [ResultOf(evaluated[|evaluated| - 1], src, split, eval)]
  }

  function QueryIDOf(r: Regression): int { r.queryID }

  /** The results of the schedule, ordered by reported queryid. */
  method AnalyseWindow(ids: seq<int>, src: Source, split: int, eval: Eval)
    returns (results: seq<Regression>)
    requires forall i, j :: 0 <= i < j < |ids| ==> ids[i] != ids[j]
    ensures exists evaluated :: IsSchedule(evaluated, Elements(ids), src)
                                && IsSortOf(results, ResultsOf(evaluated, src, split, eval), QueryIDOf)
                                && Reports(evaluated, src, split, eval, results)
    ensures forall i, j :: 0 <= i < j < |results| ==> results[i].queryID <= results[j].queryID
  {
    var queryIDs := SortSlice(ids, x => x);
    SortedDistinctAscends(queryIDs, ids);
    var seen: set<string> := {};
    results := [];
    ghost var evaluated: seq<int> := [];
    for i := 0 to |queryIDs|
      invariant LoopState(queryIDs, i, src, evaluated, seen)
      invariant results == ResultsOf(evaluated, src, split, eval)
    {
      hide LoopState, Fingerprint, IsSortOf;
      var qid := queryIDs[i];
      var allSamples := src(qid);
      var latest, found := LatestSample(allSamples);
      var fp := if found then latest.fingerprint else "";
      LatestFingerprint(allSamples, fp);
      NextState(queryIDs, i, src, evaluated, seen);
      if fp != "" && fp in seen {
        continue;
      }
      if fp != "" {
        seen := seen + {fp};
      }
      var reportQID := if found then latest.queryID else qid;
      var pre, post := PartitionAt(allSamples, split);
      AppendResult(evaluated, qid, src, split, eval);
      results := results + [eval(reportQID, pre, post)];
      evaluated := evaluated + [qid];
    }
    SortHasSameElements(queryIDs, ids);
    AtTheEnd(queryIDs, ids, src, evaluated, seen);
    ResultsReport(evaluated, src, split, eval);
    ghost var raw := results;
    results := SortSlice(results, QueryIDOf);
    assert forall r: Regression :: QueryIDOf(r) == r.queryID;
    assert PermutedFrom(results, raw, evaluated, src, split, eval);
  }

  // ----- what is evaluated for each queryid -----

  /** id is the queryid of the first sample with the latest instant, or q if there is no sample. */
  ghost predicate ReportedAs(all: seq<QuerySample>, q: int, id: int) {
    if all == [] then id == q else
    exists i :: 0 <= i < |all| && id == all[i].queryID && FirstLatest(all, i)
  }

  ghost predicate FirstLatest(all: seq<QuerySample>, i: int)
    requires 0 <= i < |all|
  {
    && (forall j :: 0 <= j < |all| ==> all[j].recordedAt <= all[i].recordedAt)
    && (forall j :: 0 <= j < i ==> all[j].recordedAt < all[i].recordedAt)
  }

  /** r is the evaluation of all: the samples up to the split before, those from the split on after, in order. */
  ghost predicate IsEvaluation(all: seq<QuerySample>, q: int, split: int, eval: Eval, r: Regression) {
    exists id :: ReportedAs(all, q, id)
                 && r == eval(id, Filter(all, (s: QuerySample) => s.recordedAt <= split),
                              Filter(all, (s: QuerySample) => s.recordedAt >= split))
  }

  ghost predicate PermutedFrom(results: seq<Regression>, raw: seq<Regression>, evaluated: seq<int>, src: Source,
                               split: int, eval: Eval) {
    && multiset(results) == multiset(raw) && |raw| == |evaluated|
    && forall k :: 0 <= k < |raw| ==> IsEvaluation(src(evaluated[k]), evaluated[k], split, eval, raw[k])
  }

  /** The results are, in some order, one evaluation for each evaluated queryid. */
  ghost predicate Reports(evaluated: seq<int>, src: Source, split: int, eval: Eval, results: seq<Regression>) {
    exists raw :: PermutedFrom(results, raw, evaluated, src, split, eval)
  }

  lemma {:induction false} ResultsReport(evaluated: seq<int>, src: Source, split: int, eval: Eval)
    ensures var raw := ResultsOf(evaluated, src, split, eval);
      && |raw| == |evaluated|
      && forall k :: 0 <= k < |raw| ==> IsEvaluation(src(evaluated[k]), evaluated[k], split, eval, raw[k])
  {
    hide IsEvaluation, ResultOf;
    if evaluated != [] {
      var m := |evaluated| - 1;
      ResultsReport(evaluated[..m], src, split, eval);
      ResultIsEvaluation(evaluated[m], src, split, eval);
    }
  }

  lemma ResultIsEvaluation(q: int, src: Source, split: int, eval: Eval)
    ensures IsEvaluation(src(q), q, split, eval, ResultOf(q, src, split, eval))
  {
    hide Filter;
    var all := src(q);
    FilterAgrees(all, UpTo(split), (s: QuerySample) => s.recordedAt <= split);
    FilterAgrees(all, From(split), (s: QuerySample) => s.recordedAt >= split);
    if all != [] {
      var i := LatestIsFirstMaximum(all);
    }
    assert ReportedAs(all, q, CanonicalID(all, q));
  }

  /** The first i queryids have been scheduled, and seen holds exactly their fingerprints. */
  ghost predicate LoopState(queryIDs: seq<int>, i: nat, src: Source, evaluated: seq<int>, seen: set<string>)
    requires i <= |queryIDs|
  {
    IsSchedule(evaluated, Elements(queryIDs[..i]), src) && SeenExactly(queryIDs, i, src, seen)
  }

  lemma NextState(queryIDs: seq<int>, i: nat, src: Source, evaluated: seq<int>, seen: set<string>)
    requires Ascending(queryIDs) && i < |queryIDs| && LoopState(queryIDs, i, src, evaluated, seen)
    ensures var fp := Fingerprint(src(queryIDs[i]));
      if fp != "" && fp in seen then LoopState(queryIDs, i + 1, src, evaluated, seen)
      else LoopState(queryIDs, i + 1, src, evaluated + [queryIDs[i]], if fp == "" then seen else seen + {fp})
  {
    hide Fingerprint, IsSchedule, Wins;
    SeenNext(queryIDs, i, src, seen);
    ScheduleNext(queryIDs, i, src, evaluated);
  }

  ghost predicate SeenExactly(queryIDs: seq<int>, i: nat, src: Source, seen: set<string>)
    requires i <= |queryIDs|
  {
    forall fp :: fp in seen <==> fp != "" && exists k :: 0 <= k < i && Fingerprint(src(queryIDs[k])) == fp
  }

  lemma SeenNext(queryIDs: seq<int>, i: nat, src: Source, seen: set<string>)
    requires i < |queryIDs| && SeenExactly(queryIDs, i, src, seen)
    ensures var fp := Fingerprint(src(queryIDs[i]));
      SeenExactly(queryIDs, i + 1, src, if fp == "" then seen else seen + {fp})
    ensures var fp := Fingerprint(src(queryIDs[i]));
      fp != "" && fp in seen ==> seen + {fp} == seen
  {
  }

  /** The next queryid joins the schedule exactly if it has no fingerprint or none before it has the same. */
  lemma ScheduleNext(queryIDs: seq<int>, i: nat, src: Source, evaluated: seq<int>)
    requires Ascending(queryIDs) && i < |queryIDs| && IsSchedule(evaluated, Elements(queryIDs[..i]), src)
    ensures var fp := Fingerprint(src(queryIDs[i]));
      if fp == "" || forall k :: 0 <= k < i ==> Fingerprint(src(queryIDs[k])) != fp
      then IsSchedule(evaluated + [queryIDs[i]], Elements(queryIDs[..i + 1]), src)
      else IsSchedule(evaluated, Elements(queryIDs[..i + 1]), src)
  {
    hide Fingerprint;
    var q := queryIDs[i];
    WinsNext(queryIDs, i, src);
    hide Wins;
    assert forall k :: 0 <= k < |evaluated| ==> evaluated[k] in evaluated;
    assert forall x :: x in evaluated + [q] <==> x in evaluated || x == q;
  }

  lemma AtTheEnd(queryIDs: seq<int>, ids: seq<int>, src: Source, evaluated: seq<int>, seen: set<string>)
    requires LoopState(queryIDs, |queryIDs|, src, evaluated, seen) && forall x :: x in queryIDs <==> x in ids
    ensures IsSchedule(evaluated, Elements(ids), src)
  {
  }

  lemma LatestFingerprint(samples: seq<QuerySample>, fp: string)
    requires fp == if samples == [] then "" else LatestOf(samples).fingerprint
    ensures fp == Fingerprint(samples)
  {
  }

  lemma AppendResult(evaluated: seq<int>, q: int, src: Source, split: int, eval: Eval)
    ensures ResultsOf(evaluated + [q], src, split, eval)
            == ResultsOf(evaluated, src, split, eval) + [ResultOf(q, src, split, eval)]
  {
  }

  lemma SortedDistinctAscends(r: seq<int>, ids: seq<int>)
    requires IsSortOf(r, ids, x => x) && forall i, j :: 0 <= i < j < |ids| ==> ids[i] != ids[j]
    ensures Ascending(r)
  {
    var key := (x: int) => x;
    forall i, j | 0 <= i < j < |r|
      ensures r[i] < r[j]
    {
      DistinctCountsOnce(ids, r[i]);
      if r[i] == r[j] {
        RepeatedCountsTwice(r, i, j);
      }
      assert key(r[i]) <= key(r[j]);
    }
  }

  /** Adding the next larger queryid changes nothing for the smaller ones. */
  lemma WinsNext(ids: seq<int>, i: nat, src: Source)
    requires Ascending(ids) && i < |ids|
    ensures forall q :: q != ids[i] ==> (Wins(Elements(ids[..i + 1]), src, q) <==> Wins(Elements(ids[..i]), src, q))
    ensures Wins(Elements(ids[..i + 1]), src, ids[i]) <==>
            Fingerprint(src(ids[i])) == "" || forall k :: 0 <= k < i ==> Fingerprint(src(ids[k])) != Fingerprint(src(ids[i]))
    ensures forall q :: Wins(Elements(ids[..i]), src, q) ==> q < ids[i]
  {
  }
}
