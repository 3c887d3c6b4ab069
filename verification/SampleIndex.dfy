/** The Collector's in-memory sample history. */
module SampleIndex {
  import opened Fingerprints
  import opened SampleBuckets
  import opened Sequences
  import opened Types

  const ELLIPSIS: string := "\U{2026}"

  /** The fixed settings of a collector; the fingerprint is whatever function of the query text. */
  datatype Settings = Settings(retention: int, maxTextLen: nat, fingerprintOf: string -> string)

  /** The sample recorded for one scraped row, its text cut to the configured length. */
  function Sampled(cfg: Settings, now: int, q: int, text: string, calls: int, totalMs: real,
                   meanMs: real): QuerySample {
    var kept := if |text| > cfg.maxTextLen then text[..cfg.maxTextLen] + ELLIPSIS else text;
    QuerySample(q, kept, calls, totalMs, meanMs, now, cfg.fingerprintOf(kept))
  }

  function Fingerprinted(fingerprintOf: string -> string, s: QuerySample): QuerySample {
    if s.fingerprint == "" then s.(fingerprint := fingerprintOf(s.text)) else s
  }

  ghost function FingerprintAll(fingerprintOf: string -> string, batch: seq<QuerySample>): seq<QuerySample> {
    if batch == [] then [] else
    FingerprintAll(fingerprintOf, batch[..|batch| - 1]) + [Fingerprinted(fingerprintOf, batch[|batch| - 1])]
  }

  /** A loaded batch is the persisted one, with fingerprints filled in where there were none. */
  lemma {:induction false} OnlyFingerprintsFilledIn(fingerprintOf: string -> string, batch: seq<QuerySample>)
    ensures var loaded := FingerprintAll(fingerprintOf, batch);
      && |loaded| == |batch|
      && forall i :: 0 <= i < |batch| ==>
           && loaded[i] == batch[i].(fingerprint := loaded[i].fingerprint)
           && loaded[i].fingerprint
              == if batch[i].fingerprint != "" then batch[i].fingerprint else fingerprintOf(batch[i].text)
  {
    if batch != [] {
      OnlyFingerprintsFilledIn(fingerprintOf, batch[..|batch| - 1]);
    }
  }

  /** Each queryid with the fingerprint last loaded for it, in the order of the batch and not of the instants. */
  ghost function IndexAll(fps: map<int, string>, batch: seq<QuerySample>): map<int, string> {
    if batch == [] then fps else
    IndexAll(fps, batch[..|batch| - 1])[batch[|batch| - 1].queryID := batch[|batch| - 1].fingerprint]
  }

  lemma NothingIndexed(fingerprintOf: string -> string, fps: map<int, string>)
    ensures Submap(fps, IndexAll(fps, FingerprintAll(fingerprintOf, [])))
  {
  }

  lemma IndexStep(fps: map<int, string>, batch: seq<QuerySample>, s: QuerySample)
    ensures IndexAll(fps, batch + [s]) == IndexAll(fps, batch)[s.queryID := s.fingerprint]
  {
  }

  class Collector {
    const cfg: Settings
    var samples: Buckets
    var queryFingerprint: map<int, string>
    var fingerprintIndex: Index

    ghost predicate Valid()
      reads this
    {
      && samples.Keys == queryFingerprint.Keys
      && BucketsProper(samples)
      && Inverse(queryFingerprint, fingerprintIndex)
    }

    constructor (cfg: Settings)
      ensures Valid() && samples == map[] && this.cfg == cfg
    {
      this.cfg := cfg;
      samples, queryFingerprint, fingerprintIndex := map[], map[], map[];
    }

    method RemoveFromFingerprintIndex(fp: string, q: int)
      modifies this`fingerprintIndex
      ensures fingerprintIndex == Removed(old(fingerprintIndex), fp, q)
    {
      if fp !in fingerprintIndex {
        return;
      }
      var rest := fingerprintIndex[fp] - {q};
      fingerprintIndex := fingerprintIndex[fp := rest];
      if rest == {} {
        fingerprintIndex := fingerprintIndex - {fp};
        assert fingerprintIndex == old(fingerprintIndex) - {fp};
      }
    }

    method IndexFingerprint(q: int, fp: string)
      requires Inverse(queryFingerprint, fingerprintIndex)
      modifies this`queryFingerprint, this`fingerprintIndex
      ensures Inverse(queryFingerprint, fingerprintIndex)
      ensures queryFingerprint == old(queryFingerprint)[q := fp]
    {
      if q in queryFingerprint && queryFingerprint[q] != fp {
        InsertAfterRemove(queryFingerprint, fingerprintIndex, q, fp);
        RemoveFromFingerprintIndex(queryFingerprint[q], q);
      } else {
        InsertKeepsInverse(queryFingerprint, fingerprintIndex, q, fp);
      }
      queryFingerprint := queryFingerprint[q := fp];
      var set' := if fp in fingerprintIndex then fingerprintIndex[fp] else {};
      fingerprintIndex := fingerprintIndex[fp := set' + {q}];
    }

    method ForgetQuery(q: int)
      requires Inverse(queryFingerprint, fingerprintIndex)
      modifies this`queryFingerprint, this`fingerprintIndex
      ensures Inverse(queryFingerprint, fingerprintIndex)
      ensures queryFingerprint == old(queryFingerprint) - {q}
    {
      if q !in queryFingerprint {
        assert queryFingerprint - {q} == queryFingerprint;
        return;
      }
      var fp := queryFingerprint[q];
      RemoveKeepsInverse(queryFingerprint, fingerprintIndex, q);
      queryFingerprint := queryFingerprint - {q};
      RemoveFromFingerprintIndex(fp, q);
    }

    /** Appends one sample to its bucket and indexes its fingerprint. */
    method Store(s: QuerySample)
      requires Valid()
      modifies this
      ensures Valid() && samples == AppendSample(old(samples), s)
      ensures queryFingerprint == old(queryFingerprint)[s.queryID := s.fingerprint]
    {
      samples := samples[s.queryID := Bucket(samples, s.queryID) + [s]];
      IndexFingerprint(s.queryID, s.fingerprint);
    }

    /** Records one scraped row; buckets stay chronological if the clock has not gone back on this queryid. */
    method IngestSample(now: int, q: int, text: string, calls: int, totalMs: real, meanMs: real)
      requires Valid()
      modifies this
      ensures Valid()
      ensures q in samples && samples[q][..|samples[q]| - 1] == old(Bucket(samples, q))
      ensures forall k :: k != q ==> Bucket(samples, k) == old(Bucket(samples, k))
      ensures var s := samples[q][|samples[q]| - 1];
        && s.queryID == q && s.calls == calls && s.totalMs == totalMs && s.meanMs == meanMs && s.recordedAt == now
        && s.text == (if |text| <= cfg.maxTextLen then text else text[..cfg.maxTextLen] + "\U{2026}")
        && s.fingerprint == cfg.fingerprintOf(s.text) && queryFingerprint[q] == s.fingerprint
      ensures samples == AppendSample(old(samples), Sampled(cfg, now, q, text, calls, totalMs, meanMs))
      ensures queryFingerprint
              == old(queryFingerprint)[q := Sampled(cfg, now, q, text, calls, totalMs, meanMs).fingerprint]
      ensures old(BucketsSorted(samples)) && NotLater(old(Bucket(samples, q)), now) ==> BucketsSorted(samples)
    {
      var s := Sampled(cfg, now, q, text, calls, totalMs, meanMs);
      Store(s);
      assert samples[q] == old(Bucket(samples, q)) + [s];
    }

    /** `pruneLocked`: one binary search per bucket. On any state it keeps a suffix of every bucket and the
        index exact; it does what the linear filter does exactly when no bucket has an aged sample after one
        that is not, so in particular on chronological buckets. */
    method PruneByAge(now: int)
      requires Valid()
      modifies this
      ensures Valid()
      ensures forall q :: q in samples ==> q in old(samples) && IsSuffix(samples[q], old(samples)[q])
      ensures Submap(queryFingerprint, old(queryFingerprint))
      ensures samples == Prune(old(samples), now - cfg.retention)
              <==> forall q :: q in old(samples) ==> Partitioned(old(samples)[q], now - cfg.retention)
      ensures old(BucketsSorted(samples)) ==> samples == Prune(old(samples), now - cfg.retention) && BucketsSorted(samples)
    {
      hide *;
      ghost var before := samples;
      PruneAll(now - cfg.retention);
      PruneResult(samples, before, now - cfg.retention);
    }

    method PruneAll(cutoff: int)
      requires Valid()
      modifies this
      ensures Valid() && PartlyPruned(samples, old(samples), {}, cutoff)
      ensures Submap(queryFingerprint, old(queryFingerprint))
    {
      var todo := samples.Keys;
      ghost var before := samples;
      SubmapReflexive(queryFingerprint);
      while todo != {}
        invariant Valid() && PartlyPruned(samples, before, todo, cutoff)
        invariant Submap(queryFingerprint, old(queryFingerprint))
        decreases todo
      {
        hide PartlyPruned, PrunedBucket, OnlyPruned, Submap;
        SomeMember(todo);
        var q :| q in todo;
        ghost var current, fps := samples, queryFingerprint;
        StillThere(samples, before, todo, cutoff, q);
        PruneBucket(q, cutoff);
        PruneStep(current, samples, before, todo, cutoff, q);
        SubmapTransitive(queryFingerprint, fps, old(queryFingerprint));
        todo := todo - {q};
      }
    }

    method PruneBucket(q: int, cutoff: int)
      requires Valid() && q in samples
      modifies this
      ensures Valid()
      ensures OnlyPruned(old(samples), samples, q, cutoff)
      ensures Submap(queryFingerprint, old(queryFingerprint))
    {
      hide Filter, Inverse;
      var all := samples[q];
      var idx := SearchFirst(all, (s: QuerySample) => !(s.recordedAt < cutoff));
      AgedBoundary(all, idx, cutoff);
      if idx == 0 {
        assert all == all[0..];
      } else if idx >= |all| {
        samples := samples - {q};
        ForgetQuery(q);
      } else {
        SuffixMembers(all, idx);
        samples := samples[q := all[idx..]];
      }
    }

    /** Sorts every bucket in place; within a bucket `sort.Slice` may reorder equal instants. */
    method SortBuckets()
      requires Valid()
      modifies this`samples
      ensures Valid() && BucketsSorted(samples) && SameBuckets(samples, old(samples))
    {
      ghost var before := samples;
      var todo := samples.Keys;
      while todo != {}
        invariant PartlySorted(samples, before, todo)
        decreases todo
      {
        SomeMember(todo);
        var q :| q in todo;
        var sorted := SortSlice(samples[q], RecordedAt);
        samples := samples[q := sorted];
        todo := todo - {q};
      }
      SameBucketsProper(samples, before);
    }

    /** Loads persisted history, restores chronological buckets and applies retention. */
    method Backfill(batch: seq<QuerySample>, now: int)
      requires Valid()
      modifies this
      ensures Valid()
      ensures batch == [] ==> samples == old(samples) && queryFingerprint == old(queryFingerprint)
      ensures batch != [] ==>
        && BucketsSorted(samples)
        && SameBuckets(samples, Prune(AppendAll(old(samples), FingerprintAll(cfg.fingerprintOf, batch)), now - cfg.retention))
      ensures Submap(queryFingerprint, IndexAll(old(queryFingerprint), FingerprintAll(cfg.fingerprintOf, batch)))
    {
      hide Prune, AppendAll, IndexAll;
      if |batch| == 0 {
        NothingIndexed(cfg.fingerprintOf, queryFingerprint);
        return;
      }
      Load(batch);
      ghost var loaded := samples;
      SortBuckets();
      PruneRespectsOrder(samples, loaded, now - cfg.retention);
      PruneByAge(now);
    }

    /** The loop of Backfill: append and index, one sample after the other. */
    method Load(batch: seq<QuerySample>)
      requires Valid()
      modifies this
      ensures Valid()
      ensures samples == AppendAll(old(samples), FingerprintAll(cfg.fingerprintOf, batch))
      ensures queryFingerprint == IndexAll(old(queryFingerprint), FingerprintAll(cfg.fingerprintOf, batch))
    {
      for i := 0 to |batch|
        invariant Valid() && samples == AppendAll(old(samples), FingerprintAll(cfg.fingerprintOf, batch[..i]))
        invariant queryFingerprint == IndexAll(old(queryFingerprint), FingerprintAll(cfg.fingerprintOf, batch[..i]))
      {
        hide AppendAll, IndexAll, Valid;
        ghost var sofar := FingerprintAll(cfg.fingerprintOf, batch[..i]);
        var s := Fingerprinted(cfg.fingerprintOf, batch[i]);
        assert batch[..i + 1][..i] == batch[..i];
        AppendStep(old(samples), sofar, s);
        IndexStep(old(queryFingerprint), sofar, s);
        Store(s);
      }
      assert batch[..|batch|] == batch;
    }

    /** The samples of a queryid in the closed interval; with fewer than five of its own, those of every
        queryid sharing its fingerprint. */
    method SamplesInRange(q: int, from: int, to: int) returns (out: seq<QuerySample>)
      requires Valid()
      ensures RangeAnswer(samples, queryFingerprint, q, from, to, out)
      ensures BucketsSorted(samples) ==> SortedBy(out, RecordedAt)
    {
      hide Filter, MergedFrom;
      var direct := FilterSlice(Bucket(samples, q), InRange(from, to));
      DirectSorted(samples, q, from, to);
      if |direct| >= FALLBACK_MIN_SAMPLES || q !in queryFingerprint {
        return direct;
      }
      var siblings := fingerprintIndex[queryFingerprint[q]];
      SiblingsAreIndexed(queryFingerprint, fingerprintIndex, q);
      DirectIsMerged(samples, q, from, to, direct);
      if |siblings| <= 1 {
        OnlyMember(siblings, q);
        return direct;
      }
      var merged := MergeSiblings(q, siblings, from, to, direct);
      if |merged| <= |direct| {
        assert merged == direct;
        return direct;
      }
      out := SortSlice(merged, RecordedAt);
      SortStaysMerged(samples, siblings, from, to, merged, out);
    }

    /** Appends the in-range samples of the other siblings, in whatever order the set yields them. */
    method MergeSiblings(q: int, siblings: set<int>, from: int, to: int,
                         direct: seq<QuerySample>) returns (merged: seq<QuerySample>)
      requires Valid() && q in siblings && MergedFrom(samples, {q}, from, to, direct)
      ensures MergedFrom(samples, siblings, from, to, merged)
      ensures direct <= merged
    {
      hide MergedFrom, Filter, Inverse;
      merged := direct;
      var todo := siblings - {q};
      assert siblings - todo == {q};
      while todo != {}
        invariant todo <= siblings - {q}
        invariant MergedFrom(samples, siblings - todo, from, to, merged)
        invariant direct <= merged
        decreases todo
      {
        SomeMember(todo);
        var sibling :| sibling in todo;
        var more := FilterSlice(Bucket(samples, sibling), InRange(from, to));
        MergeOne(samples, siblings - todo, from, to, merged, sibling);
        assert siblings - todo + {sibling} == siblings - (todo - {sibling});
        merged := merged + more;
        todo := todo - {sibling};
      }
      assert siblings - todo == siblings;
    }
  }

  /** Pruning after the clock went back does not do what the filter does. */
  method PruneAfterClockWentBack() returns (kept: Buckets)
    ensures Prune(map[1 := ClockWentBack()], 7) == map[1 := ClockWentBack()[..1]]
    ensures kept != Prune(map[1 := ClockWentBack()], 7)
  {
    hide *;
    ClockWentBackFacts();
    var c := new Collector(Settings(0, 10, text => "f"));
    ClockWentBackRows(c.cfg);
    c.IngestSample(10, 1, "q", 1, 1.0, 1.0);
    c.IngestSample(5, 1, "q", 1, 1.0, 1.0);
    assert 1 in c.samples;
    c.PruneByAge(7);
    kept := c.samples;
  }

  lemma ClockWentBackRows(cfg: Settings)
    requires cfg.maxTextLen == 10 && cfg.fingerprintOf("q") == "f"
    ensures AppendSample(AppendSample(map[], Sampled(cfg, 10, 1, "q", 1, 1.0, 1.0)), Sampled(cfg, 5, 1, "q", 1, 1.0, 1.0))
            == map[1 := ClockWentBack()]
  {
    var late, early := Sampled(cfg, 10, 1, "q", 1, 1.0, 1.0), Sampled(cfg, 5, 1, "q", 1, 1.0, 1.0);
    assert [] + [late] + [early] == ClockWentBack();
  }

  lemma ClockWentBackFacts()
    ensures Prune(map[1 := ClockWentBack()], 7) == map[1 := ClockWentBack()[..1]]
    ensures !Partitioned(ClockWentBack(), 7)
  {
    hide Filter;
    SearchMissesTheCut(0);
    var all := map[1 := ClockWentBack()];
    assert Prune(all, 7).Keys == {1};
  }
}
