/** The two-way fingerprint index of the Collector and the range queries that fall back to siblings sharing a
    fingerprint. */
module Fingerprints {
  import opened SampleBuckets
  import opened Sequences
  import opened Types

  type Index = map<string, set<int>>

  // ----- the two-way index -----

  /** index is the exact inverse of fps, without empty sets. */
  ghost predicate Inverse(fps: map<int, string>, index: Index) {
    && (forall fp :: fp in index ==> index[fp] != {})
    && (forall fp, q :: fp in index && q in index[fp] ==> q in fps && fps[q] == fp)
    && (forall q :: q in fps ==> fps[q] in index && q in index[fps[q]])
  }

  function Removed(index: Index, fp: string, q: int): Index {
    if fp !in index then index
    else if index[fp] - {q} == {} then index - {fp}
    else index[fp := index[fp] - {q}]
  }

  function Inserted(index: Index, fp: string, q: int): Index {
    index[fp := (if fp in index then index[fp] else {}) + {q}]
  }

  lemma RemoveKeepsInverse(fps: map<int, string>, index: Index, q: int)
    requires Inverse(fps, index) && q in fps
    ensures Inverse(fps - {q}, Removed(index, fps[q], q))
  {
  }

  lemma InsertKeepsInverse(fps: map<int, string>, index: Index, q: int, fp: string)
    requires Inverse(fps, index) && (q in fps ==> fps[q] == fp)
    ensures Inverse(fps[q := fp], Inserted(index, fp, q))
  {
  }

  lemma InsertAfterRemove(fps: map<int, string>, index: Index, q: int, fp: string)
    requires Inverse(fps, index) && q in fps
    ensures Inverse(fps[q := fp], Inserted(Removed(index, fps[q], q), fp, q))
  {
    RemoveKeepsInverse(fps, index, q);
    InsertKeepsInverse(fps - {q}, Removed(index, fps[q], q), q, fp);
    assert (fps - {q})[q := fp] == fps[q := fp];
  }

  ghost predicate Submap(a: map<int, string>, b: map<int, string>) {
    forall q :: q in a ==> q in b && a[q] == b[q]
  }

  lemma SubmapReflexive(a: map<int, string>)
    ensures Submap(a, a)
  {
  }

  lemma SubmapTransitive(a: map<int, string>, b: map<int, string>, c: map<int, string>)
    requires Submap(a, b) && Submap(b, c)
    ensures Submap(a, c)
  {
  }

  // ----- range queries -----

  const FALLBACK_MIN_SAMPLES := 5

  function Direct(samples: Buckets, q: int, from: int, to: int): seq<QuerySample> {
    Filter(Bucket(samples, q), InRange(from, to))
  }

  /** The queryids that share q's fingerprint, q included. */
  ghost function Siblings(fps: map<int, string>, q: int): set<int>
    requires q in fps
  {
    set k | k in fps && fps[k] == fps[q]
  }

  /** merged holds, with multiplicity, exactly the in-range samples of the given queryids. */
  ghost predicate MergedFrom(samples: Buckets, ids: set<int>, from: int, to: int, merged: seq<QuerySample>) {
    forall x :: multiset(merged)[x]
                == if x.queryID in ids then multiset(Direct(samples, x.queryID, from, to))[x] else 0
  }

  /** What a range query may answer. */
  ghost predicate RangeAnswer(samples: Buckets, fps: map<int, string>, q: int, from: int, to: int,
                              out: seq<QuerySample>) {
    if |Direct(samples, q, from, to)| >= FALLBACK_MIN_SAMPLES || q !in fps then
      out == Direct(samples, q, from, to)
    else
      MergedFrom(samples, Siblings(fps, q), from, to, out)
  }

  /** The fallback in numbers: up to four samples of its own in range a queryid is given those of all its siblings,
      from five on its own alone. */
  lemma FallbackBelowFive(samples: Buckets, fps: map<int, string>, q: int, from: int, to: int, out: seq<QuerySample>)
    requires RangeAnswer(samples, fps, q, from, to, out) && q in fps
    ensures var own := Filter(Bucket(samples, q), (s: QuerySample) => from <= s.recordedAt <= to);
      if |own| >= 5 then out == own else
        forall x :: multiset(out)[x]
                    == if x.queryID in fps && fps[x.queryID] == fps[q] && from <= x.recordedAt <= to
                       then multiset(Bucket(samples, x.queryID))[x] else 0
  {
    hide Filter;
    FilterAgrees(Bucket(samples, q), InRange(from, to), (s: QuerySample) => from <= s.recordedAt <= to);
    if |Direct(samples, q, from, to)| < 5 {
      forall x
        ensures multiset(out)[x] == if x.queryID in fps && fps[x.queryID] == fps[q] && from <= x.recordedAt <= to
                                    then multiset(Bucket(samples, x.queryID))[x] else 0
      {
        FilterMultiplicity(Bucket(samples, x.queryID), InRange(from, to), x);
      }
    }
  }

  lemma SiblingsAreIndexed(fps: map<int, string>, index: Index, q: int)
    requires Inverse(fps, index) && q in fps
    ensures index[fps[q]] == Siblings(fps, q)
  {
    forall k
      ensures k in index[fps[q]] <==> k in Siblings(fps, q)
    {
    }
  }

  lemma OnlyMember(s: set<int>, q: int)
    requires q in s && |s| <= 1
    ensures s == {q}
  {
    assert |s - {q}| == |s| - 1;
  }

  lemma DirectSorted(samples: Buckets, q: int, from: int, to: int)
    ensures BucketsSorted(samples) ==> SortedBy(Direct(samples, q, from, to), RecordedAt)
  {
    if q in samples && SortedBy(samples[q], RecordedAt) {
      FilterSorted(samples[q], InRange(from, to), RecordedAt);
    }
  }

  lemma OwnSamples(samples: Buckets, q: int, from: int, to: int, x: QuerySample)
    requires BucketsProper(samples) && x.queryID != q
    ensures multiset(Direct(samples, q, from, to))[x] == 0
  {
    FilterMultiplicity(Bucket(samples, q), InRange(from, to), x);
    assert x !in Bucket(samples, q);
  }

  lemma DirectMembers(samples: Buckets, q: int, from: int, to: int)
    requires BucketsProper(samples)
    ensures forall x :: x in Direct(samples, q, from, to) ==> x.queryID == q
  {
    FilterMembers(Bucket(samples, q), InRange(from, to));
  }

  lemma DirectIsMerged(samples: Buckets, q: int, from: int, to: int, direct: seq<QuerySample>)
    requires BucketsProper(samples) && direct == Direct(samples, q, from, to)
    ensures MergedFrom(samples, {q}, from, to, direct)
  {
    forall x
      ensures multiset(direct)[x] == if x.queryID in {q} then multiset(Direct(samples, x.queryID, from, to))[x] else 0
    {
      if x.queryID != q {
        OwnSamples(samples, q, from, to, x);
      }
    }
  }

  lemma MergeOne(samples: Buckets, ids: set<int>, from: int, to: int, merged: seq<QuerySample>, q: int)
    requires BucketsProper(samples) && MergedFrom(samples, ids, from, to, merged) && q !in ids
    ensures MergedFrom(samples, ids + {q}, from, to, merged + Direct(samples, q, from, to))
  {
    var more := Direct(samples, q, from, to);
    forall x
      ensures multiset(merged + more)[x]
              == if x.queryID in ids + {q} then multiset(Direct(samples, x.queryID, from, to))[x] else 0
    {
      if x.queryID != q {
        OwnSamples(samples, q, from, to, x);
      }
    }
  }

  lemma SortStaysMerged(samples: Buckets, ids: set<int>, from: int, to: int, merged: seq<QuerySample>,
                        out: seq<QuerySample>)
    requires MergedFrom(samples, ids, from, to, merged) && multiset(out) == multiset(merged)
    ensures MergedFrom(samples, ids, from, to, out)
  {
  }

  // ----- when siblings agree -----

  /** Too few samples of its own in range, so that a range query falls back. */
  predicate Few(samples: Buckets, q: int, from: int, to: int) {
    |Direct(samples, q, from, to)| < FALLBACK_MIN_SAMPLES
  }

  /** No other queryid with q's fingerprint has a sample in range. */
  ghost predicate Alone(samples: Buckets, fps: map<int, string>, q: int, from: int, to: int)
    requires q in fps
  {
    forall k :: k in Siblings(fps, q) && k != q ==> Direct(samples, k, from, to) == []
  }

  /** The guard: q1 and q2 are indexed under one fingerprint, and either both fell back to the shared set, or one
      has enough of its own and no sibling has any other. */
  ghost predicate SameView(samples: Buckets, fps: map<int, string>, q1: int, q2: int, from: int, to: int)
    requires q1 in fps && q2 in fps
  {
    && fps[q1] == fps[q2]
    && (|| (Few(samples, q1, from, to) && Few(samples, q2, from, to))
        || (!Few(samples, q1, from, to) && Alone(samples, fps, q1, from, to))
        || (!Few(samples, q2, from, to) && Alone(samples, fps, q2, from, to)))
  }

  /** Two answers, not both empty, hold the same samples exactly under that guard. */
  lemma AnswersAgree(samples: Buckets, fps: map<int, string>, q1: int, q2: int, from: int, to: int,
                     out1: seq<QuerySample>, out2: seq<QuerySample>)
    requires BucketsProper(samples) && samples.Keys == fps.Keys
    requires q1 in fps && q2 in fps && q1 != q2
    ensures RangeAnswer(samples, fps, q1, from, to, out1) && RangeAnswer(samples, fps, q2, from, to, out2) && out1 != [] ==>
            (multiset(out1) == multiset(out2) <==> SameView(samples, fps, q1, q2, from, to))
  {
    hide Direct, MergedFrom, RangeAnswer;
    if RangeAnswer(samples, fps, q1, from, to, out1) && RangeAnswer(samples, fps, q2, from, to, out2) && out1 != [] {
      if fps[q1] == fps[q2] {
        SiblingAnswersAgree(samples, fps, q1, q2, from, to, out1, out2);
      } else {
        AnswerMembers(samples, fps, q1, from, to, out1);
        AnswerMembers(samples, fps, q2, from, to, out2);
        assert out1[0] in out1 && out1[0] in multiset(out1);
        assert out1[0] !in out2 && out1[0] !in multiset(out2);
      }
    }
  }

  /** An answer holds samples of siblings only, each from its bucket and in range. */
  lemma AnswerMembers(samples: Buckets, fps: map<int, string>, q: int, from: int, to: int, out: seq<QuerySample>)
    requires BucketsProper(samples) && samples.Keys == fps.Keys && RangeAnswer(samples, fps, q, from, to, out)
    ensures q !in fps ==> out == []
    ensures forall x :: x in out ==> x.queryID in fps && fps[x.queryID] == fps[q] && x in samples[x.queryID]
    ensures forall x :: x in out ==> from <= x.recordedAt <= to
  {
    hide Filter;
    FilterMembers(Bucket(samples, q), InRange(from, to));
    forall x | x in out
      ensures x.queryID in fps && fps[x.queryID] == fps[q] && x in samples[x.queryID] && from <= x.recordedAt <= to
    {
      assert x in multiset(out);
      var own := Direct(samples, x.queryID, from, to);
      FilterMembers(Bucket(samples, x.queryID), InRange(from, to));
      assert x in own <==> x in multiset(own);
    }
    assert out == [] || out[0] in out;
  }

  /** An answer holds at least the queryid's own samples. */
  lemma AnswerHoldsOwn(samples: Buckets, fps: map<int, string>, q: int, from: int, to: int, out: seq<QuerySample>,
                       x: QuerySample)
    requires BucketsProper(samples) && samples.Keys == fps.Keys && RangeAnswer(samples, fps, q, from, to, out)
    requires q in samples && x in samples[q] && from <= x.recordedAt <= to
    ensures x in out
  {
    hide Filter;
    var own := Direct(samples, q, from, to);
    FilterMembers(Bucket(samples, q), InRange(from, to));
    assert x in own && x in multiset(own);
    assert x in multiset(out);
  }

  lemma SiblingAnswersAgree(samples: Buckets, fps: map<int, string>, q1: int, q2: int, from: int, to: int,
                            out1: seq<QuerySample>, out2: seq<QuerySample>)
    requires BucketsProper(samples) && samples.Keys == fps.Keys
    requires q1 in fps && q2 in fps && q1 != q2 && fps[q1] == fps[q2]
    ensures RangeAnswer(samples, fps, q1, from, to, out1) && RangeAnswer(samples, fps, q2, from, to, out2) ==>
            (multiset(out1) == multiset(out2) <==> SameView(samples, fps, q1, q2, from, to))
  {
    hide Direct, MergedFrom;
    if !RangeAnswer(samples, fps, q1, from, to, out1) || !RangeAnswer(samples, fps, q2, from, to, out2) {
      return;
    }
    assert Siblings(fps, q1) == Siblings(fps, q2);
    if Few(samples, q1, from, to) && Few(samples, q2, from, to) {
      MergedIsUnique(samples, Siblings(fps, q1), from, to, out1, out2);
    } else if Few(samples, q2, from, to) {
      OwnVersusMerged(samples, fps, q1, q2, from, to, out1, out2);
    } else if Few(samples, q1, from, to) {
      OwnVersusMerged(samples, fps, q2, q1, from, to, out2, out1);
    } else {
      FirstIsForeign(samples, q1, q2, from, to);
    }
  }

  lemma MergedIsUnique(samples: Buckets, ids: set<int>, from: int, to: int, a: seq<QuerySample>, b: seq<QuerySample>)
    requires MergedFrom(samples, ids, from, to, a) && MergedFrom(samples, ids, from, to, b)
    ensures multiset(a) == multiset(b)
  {
  }

  lemma FirstIsForeign(samples: Buckets, q1: int, q2: int, from: int, to: int)
    requires BucketsProper(samples) && q1 != q2 && Direct(samples, q1, from, to) != []
    ensures multiset(Direct(samples, q1, from, to)) != multiset(Direct(samples, q2, from, to))
  {
    var x := Direct(samples, q1, from, to)[0];
    assert x in multiset(Direct(samples, q1, from, to));
    DirectMembers(samples, q1, from, to);
    OwnSamples(samples, q2, from, to, x);
  }

  /** An answer of q1's own samples equals the merged answer exactly when no sibling adds anything. */
  lemma OwnVersusMerged(samples: Buckets, fps: map<int, string>, q1: int, q2: int, from: int, to: int,
                        own: seq<QuerySample>, merged: seq<QuerySample>)
    requires BucketsProper(samples) && q1 in fps && q2 in fps && q1 != q2 && fps[q1] == fps[q2]
    requires own == Direct(samples, q1, from, to) && MergedFrom(samples, Siblings(fps, q1), from, to, merged)
    ensures multiset(own) == multiset(merged) <==> Alone(samples, fps, q1, from, to)
  {
    hide Direct;
    DirectIsMerged(samples, q1, from, to, own);
    if Alone(samples, fps, q1, from, to) {
      forall x
        ensures multiset(own)[x] == multiset(merged)[x]
      {
        if x.queryID != q1 && x.queryID in Siblings(fps, q1) {
          assert Direct(samples, x.queryID, from, to) == [];
        }
      }
      var mo, mm := multiset(own), multiset(merged);
      assert mo == mm;
    } else {
      var k :| k in Siblings(fps, q1) && k != q1 && Direct(samples, k, from, to) != [];
      var x := Direct(samples, k, from, to)[0];
      DirectMembers(samples, k, from, to);
      assert x in Direct(samples, k, from, to) && x in multiset(Direct(samples, k, from, to));
      assert multiset(own)[x] == 0;
    }
  }
}
