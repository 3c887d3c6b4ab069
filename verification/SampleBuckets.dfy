/** Samples in buckets per queryid: the plain form the memory SampleStore keeps (append and filter), and what
    a binary search may do instead of the filter. */
module SampleBuckets {
  import opened Sequences
  import opened Types

  type Buckets = map<int, seq<QuerySample>>

  function Bucket(samples: Buckets, q: int): seq<QuerySample> {
    if q in samples then samples[q] else []
  }

  function NotBefore(cutoff: int): QuerySample -> bool { (s: QuerySample) => s.recordedAt >= cutoff }

  function InRange(from: int, to: int): QuerySample -> bool { (s: QuerySample) => from <= s.recordedAt <= to }

  ghost predicate BucketsSorted(samples: Buckets) {
    forall q :: q in samples ==> SortedBy(samples[q], RecordedAt)
  }

  /** Buckets are non-empty and hold their own queryid's samples. */
  ghost predicate BucketsProper(samples: Buckets) {
    forall q :: q in samples ==> samples[q] != [] && forall s :: s in samples[q] ==> s.queryID == q
  }

  ghost predicate SameBuckets(a: Buckets, b: Buckets) {
    a.Keys == b.Keys && forall q :: q in a ==> multiset(a[q]) == multiset(b[q])
  }

  ghost predicate NotLater(bucket: seq<QuerySample>, now: int) {
    forall s :: s in bucket ==> s.recordedAt <= now
  }

  // ----- the plain form -----

  ghost function AppendSample(samples: Buckets, s: QuerySample): Buckets {
    samples[s.queryID := Bucket(samples, s.queryID) + [s]]
  }

  ghost function AppendAll(samples: Buckets, batch: seq<QuerySample>): Buckets {
    if batch == [] then samples else
    AppendSample(AppendAll(samples, batch[..|batch| - 1]), batch[|batch| - 1])
  }

  lemma AppendStep(samples: Buckets, batch: seq<QuerySample>, s: QuerySample)
    ensures AppendAll(samples, batch + [s]) == AppendSample(AppendAll(samples, batch), s)
  {
  }

  /** Keep what is not older than the cutoff, and drop a queryid left with nothing. */
  ghost function Prune(samples: Buckets, cutoff: int): Buckets {
    map q | q in samples && Filter(samples[q], NotBefore(cutoff)) != [] :: Filter(samples[q], NotBefore(cutoff))
  }

  class MemoryStore {
    var samples: Buckets

    constructor ()
      ensures samples == map[]
    {
      samples := map[];
    }

    method Append(s: QuerySample)
      modifies this
      ensures samples == AppendSample(old(samples), s)
    {
      samples := samples[s.queryID := Bucket(samples, s.queryID) + [s]];
    }

    /** The linear filter, bucket by bucket. */
    method PruneOlder(olderThan: int)
      modifies this
      ensures samples == Prune(old(samples), olderThan)
    {
      var todo := samples.Keys;
      while todo != {}
        invariant todo <= samples.Keys <= old(samples).Keys
        invariant forall q :: q in todo ==> samples[q] == old(samples)[q]
        invariant forall q :: q in old(samples) && q !in todo ==>
          PrunedBucket(samples, old(samples), q, olderThan)
        decreases todo
      {
        SomeMember(todo);
        var q :| q in todo;
        var kept := FilterSlice(samples[q], NotBefore(olderThan));
        if |kept| == 0 {
          samples := samples - {q};
        } else {
          samples := samples[q := kept];
        }
        todo := todo - {q};
      }
      PrunedEverywhere(samples, old(samples), olderThan);
    }

    method SamplesInRange(q: int, from: int, to: int) returns (out: seq<QuerySample>)
      ensures IsSortOf(out, Filter(Bucket(samples, q), InRange(from, to)), RecordedAt)
    {
      var kept := FilterSlice(Bucket(samples, q), InRange(from, to));
      out := SortSlice(kept, RecordedAt);
    }
  }

  /** q has exactly its surviving samples, and no key if there are none. */
  ghost predicate PrunedBucket(now: Buckets, before: Buckets, q: int, cutoff: int)
    requires q in before
  {
    var kept := Filter(before[q], NotBefore(cutoff));
    if kept == [] then q !in now else q in now && now[q] == kept
  }

  lemma PrunedEverywhere(now: Buckets, before: Buckets, cutoff: int)
    requires forall q :: q in now ==> q in before
    ensures now == Prune(before, cutoff) <==> forall q :: q in before ==> PrunedBucket(now, before, q, cutoff)
  {
    hide Filter;
    var spec := Prune(before, cutoff);
    if forall q :: q in before ==> PrunedBucket(now, before, q, cutoff) {
      forall q
        ensures q in now <==> q in spec
        ensures q in now ==> now[q] == spec[q]
      {
        assert q in before ==> PrunedBucket(now, before, q, cutoff);
      }
      assert now.Keys == spec.Keys;
      assert now == spec;
    }
  }

  lemma SomeMember(s: set<int>)
    requires s != {}
    ensures exists q :: q in s
  {
    assert (forall q :: q !in s) ==> s == {};
  }

  // ----- reordering buckets -----

  ghost predicate PartlySorted(current: Buckets, before: Buckets, todo: set<int>) {
    && (forall q :: q in todo ==> q in current)
    && SameBuckets(current, before)
    && forall q :: q in current && q !in todo ==> SortedBy(current[q], RecordedAt)
  }

  lemma SameBucketsProper(a: Buckets, b: Buckets)
    requires SameBuckets(a, b) && BucketsProper(b)
    ensures BucketsProper(a)
  {
    forall q | q in a
      ensures a[q] != [] && forall s :: s in a[q] ==> s.queryID == q
    {
      SortHasSameElements(a[q], b[q]);
    }
  }

  lemma SameTransitive(a: Buckets, b: Buckets, c: Buckets)
    requires SameBuckets(a, b) && SameBuckets(b, c)
    ensures SameBuckets(a, c)
  {
  }

  lemma AppendRespectsOrder(a: Buckets, b: Buckets, s: QuerySample)
    requires SameBuckets(a, b)
    ensures SameBuckets(AppendSample(a, s), AppendSample(b, s))
  {
  }

  lemma {:induction false} AppendAllRespectsOrder(a: Buckets, b: Buckets, batch: seq<QuerySample>)
    requires SameBuckets(a, b)
    ensures SameBuckets(AppendAll(a, batch), AppendAll(b, batch))
  {
    if batch != [] {
      var m := |batch| - 1;
      AppendAllRespectsOrder(a, b, batch[..m]);
      AppendRespectsOrder(AppendAll(a, batch[..m]), AppendAll(b, batch[..m]), batch[m]);
    }
  }

  /** Reordering buckets does not change what pruning keeps. */
  lemma PruneRespectsOrder(a: Buckets, b: Buckets, cutoff: int)
    requires SameBuckets(a, b)
    ensures SameBuckets(Prune(a, cutoff), Prune(b, cutoff))
  {
    hide Filter;
    var p := NotBefore(cutoff);
    forall q | q in a
      ensures multiset(Filter(a[q], p)) == multiset(Filter(b[q], p))
      ensures Filter(a[q], p) == [] <==> Filter(b[q], p) == []
    {
      FilterOfPermutation(a[q], b[q], p);
      SortHasSameElements(Filter(a[q], p), Filter(b[q], p));
    }
    assert Prune(a, cutoff).Keys == Prune(b, cutoff).Keys;
  }

  lemma LoadRespectsOrder(a: Buckets, b: Buckets, batch: seq<QuerySample>, cutoff: int)
    requires SameBuckets(a, b)
    ensures SameBuckets(Prune(AppendAll(a, batch), cutoff), Prune(AppendAll(b, batch), cutoff))
  {
    AppendAllRespectsOrder(a, b, batch);
    PruneRespectsOrder(AppendAll(a, batch), AppendAll(b, batch), cutoff);
  }

  // ----- pruning by binary search -----

  /** No sample older than the cutoff comes after one that is not. */
  ghost predicate Partitioned(bucket: seq<QuerySample>, cutoff: int) {
    forall i, j :: 0 <= i < j < |bucket| && bucket[i].recordedAt >= cutoff ==> bucket[j].recordedAt >= cutoff
  }

  lemma SortedIsPartitioned(samples: Buckets, cutoff: int)
    requires BucketsSorted(samples)
    ensures forall q :: q in samples ==> Partitioned(samples[q], cutoff)
  {
  }

  /** What the binary search promises of its answer on any bucket. */
  ghost predicate Boundary(all: seq<QuerySample>, idx: nat, cutoff: int) {
    && idx <= |all|
    && (idx > 0 ==> all[idx - 1].recordedAt < cutoff)
    && (idx < |all| ==> all[idx].recordedAt >= cutoff)
  }

  /** The suffix from the boundary the search returns is what a filter keeps exactly on a partitioned bucket. */
  lemma AgedBoundary(all: seq<QuerySample>, idx: nat, cutoff: int)
    requires Boundary(all, idx, cutoff)
    ensures Filter(all, NotBefore(cutoff)) == all[idx..] <==> Partitioned(all, cutoff)
  {
    hide Filter;
    var p := NotBefore(cutoff);
    if Partitioned(all, cutoff) {
      FilterSplit(all, idx, p);
    }
    if Filter(all, p) == all[idx..] {
      OnlySuffixKept(all, idx, p);
    }
  }

  /** Two samples of one queryid, recorded at 10 and then, after the clock went back, at 5. */
  function ClockWentBack(): seq<QuerySample> {
    [QuerySample(1, "q", 1, 1.0, 1.0, 10, "f"), QuerySample(1, "q", 1, 1.0, 1.0, 5, "f")]
  }

  /** With cutoff 7 the filter keeps the first one only; the search keeps both or neither. */
  lemma SearchMissesTheCut(idx: nat)
    requires Boundary(ClockWentBack(), idx, 7)
    ensures idx == 0 || idx == 2
    ensures !Partitioned(ClockWentBack(), 7)
    ensures Filter(ClockWentBack(), NotBefore(7)) == ClockWentBack()[..1] != ClockWentBack()[idx..]
  {
    var all := ClockWentBack();
    assert all[0].recordedAt >= 7 > all[1].recordedAt;
    assert all[..1][..0] == [];
  }

  ghost predicate IsSuffix(a: seq<QuerySample>, b: seq<QuerySample>) {
    exists i :: 0 <= i <= |b| && a == b[i..]
  }

  lemma SuffixMembers(s: seq<QuerySample>, i: nat)
    requires i <= |s|
    ensures IsSuffix(s[i..], s) && forall x :: x in s[i..] ==> x in s
  {
  }

  lemma SuffixesSorted(a: Buckets, b: Buckets)
    requires BucketsSorted(b) && forall q :: q in a ==> q in b && IsSuffix(a[q], b[q])
    ensures BucketsSorted(a)
  {
  }

  /** One bucket was pruned and no other touched. */
  ghost predicate OnlyPruned(current: Buckets, next: Buckets, q: int, cutoff: int) {
    && q in current
    && (forall k :: k != q ==> (k in next <==> k in current))
    && (forall k :: k != q && k in next ==> next[k] == current[k])
    && (q in next ==> IsSuffix(next[q], current[q]))
    && (PrunedBucket(next, current, q, cutoff) <==> Partitioned(current[q], cutoff))
  }

  /** Every bucket except those still to do has been pruned. */
  ghost predicate PartlyPruned(current: Buckets, before: Buckets, todo: set<int>, cutoff: int) {
    && (forall q :: q in current ==> q in before)
    && (forall q :: q in todo ==> q in current && current[q] == before[q])
    && (forall q :: q in current && q !in todo ==> IsSuffix(current[q], before[q]))
    && (forall q :: q in before && q !in todo ==>
          (PrunedBucket(current, before, q, cutoff) <==> Partitioned(before[q], cutoff)))
  }

  lemma StillThere(current: Buckets, before: Buckets, todo: set<int>, cutoff: int, q: int)
    requires PartlyPruned(current, before, todo, cutoff) && q in todo
    ensures q in current
  {
  }

  lemma PruneStep(current: Buckets, next: Buckets, before: Buckets, todo: set<int>, cutoff: int, q: int)
    requires PartlyPruned(current, before, todo, cutoff) && q in todo && OnlyPruned(current, next, q, cutoff)
    ensures PartlyPruned(next, before, todo - {q}, cutoff)
  {
  }

  lemma PruneResult(current: Buckets, before: Buckets, cutoff: int)
    requires PartlyPruned(current, before, {}, cutoff)
    ensures forall q :: q in current ==> q in before && IsSuffix(current[q], before[q])
    ensures current == Prune(before, cutoff) <==> forall q :: q in before ==> Partitioned(before[q], cutoff)
    ensures BucketsSorted(before) ==> current == Prune(before, cutoff) && BucketsSorted(current)
  {
    hide Prune, PrunedBucket, Partitioned, IsSuffix;
    PrunedEverywhere(current, before, cutoff);
    if BucketsSorted(before) {
      SortedIsPartitioned(before, cutoff);
      SuffixesSorted(current, before);
    }
  }
}
