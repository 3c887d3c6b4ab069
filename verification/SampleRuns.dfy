/** Whole runs of ingest, backfill and prune: the Collector against the plain form. */
module SampleRuns {
  import opened Fingerprints
  import opened SampleBuckets
  import opened SampleIndex
  import opened Sequences
  import opened Types

  datatype Op =
    | Ingest(now: int, q: int, text: string, calls: int, totalMs: real, meanMs: real)
    | Load(batch: seq<QuerySample>, now: int)
    | Age(now: int)

  /** The plain form of one operation: append and filter. */
  ghost function Apply(cfg: Settings, samples: Buckets, op: Op): Buckets {
    match op
    case Ingest(now, q, text, calls, totalMs, meanMs) =>
      AppendSample(samples, Sampled(cfg, now, q, text, calls, totalMs, meanMs))
    case Load(batch, now) =>
      if batch == [] then samples
      else Prune(AppendAll(samples, FingerprintAll(cfg.fingerprintOf, batch)), now - cfg.retention)
    case Age(now) => Prune(samples, now - cfg.retention)
  }

  ghost function Plain(cfg: Settings, ops: seq<Op>): Buckets {
    if ops == [] then map[] else
    Apply(cfg, Plain(cfg, ops[..|ops| - 1]), ops[|ops| - 1])
  }

  /** No row is ingested with a time earlier than a sample its queryid still retains. */
  ghost predicate WellTimed(cfg: Settings, ops: seq<Op>) {
    forall j :: 0 <= j < |ops| && ops[j].Ingest? ==> Timely(Plain(cfg, ops[..j]), ops[j])
  }

  ghost predicate Timely(samples: Buckets, op: Op) {
    op.Ingest? ==> NotLater(Bucket(samples, op.q), op.now)
  }

  ghost function ApplyFingerprints(cfg: Settings, fps: map<int, string>, op: Op): map<int, string> {
    match op
    case Ingest(now, q, text, calls, totalMs, meanMs) =>
      fps[q := Sampled(cfg, now, q, text, calls, totalMs, meanMs).fingerprint]
    case Load(batch, now) => IndexAll(fps, FingerprintAll(cfg.fingerprintOf, batch))
    case Age(now) => fps
  }

  /** The fingerprint last ingested or loaded for every queryid that still has samples. */
  ghost function PlainFingerprints(cfg: Settings, ops: seq<Op>): map<int, string> {
    if ops == [] then map[] else
    Restrict(ApplyFingerprints(cfg, PlainFingerprints(cfg, ops[..|ops| - 1]), ops[|ops| - 1]), Plain(cfg, ops).Keys)
  }

  ghost function Restrict(fps: map<int, string>, ids: set<int>): map<int, string> {
    map q | q in fps && q in ids :: fps[q]
  }

  lemma PlainStep(cfg: Settings, ops: seq<Op>, i: nat)
    requires i < |ops|
    ensures Plain(cfg, ops[..i + 1]) == Apply(cfg, Plain(cfg, ops[..i]), ops[i])
    ensures PlainFingerprints(cfg, ops[..i + 1])
            == Restrict(ApplyFingerprints(cfg, PlainFingerprints(cfg, ops[..i]), ops[i]), Plain(cfg, ops[..i + 1]).Keys)
  {
    assert ops[..i + 1][..i] == ops[..i];
  }

  // ----- the collector -----

  ghost predicate Tracks(samples: Buckets, fps: map<int, string>, plain: Buckets, plainFps: map<int, string>) {
    SameBuckets(samples, plain) && BucketsSorted(samples) && fps == plainFps
  }

  /** Over any run of ingests, backfills and prunes the index stays exact; and if the run is well timed, the
      buckets hold what plain appending and filtering would hold, chronologically, each queryid under the
      fingerprint last ingested or loaded for it. */
  method Replay(cfg: Settings, ops: seq<Op>) returns (samples: Buckets, fps: map<int, string>, index: Index)
    ensures BucketsProper(samples) && samples.Keys == fps.Keys && Inverse(fps, index)
    ensures WellTimed(cfg, ops) ==>
      SameBuckets(samples, Plain(cfg, ops)) && BucketsSorted(samples) && fps == PlainFingerprints(cfg, ops)
  {
    var c := new Collector(cfg);
    for i := 0 to |ops|
      invariant c.Valid() && fresh(c) && c.cfg == cfg
      invariant WellTimed(cfg, ops) ==>
        Tracks(c.samples, c.queryFingerprint, Plain(cfg, ops[..i]), PlainFingerprints(cfg, ops[..i]))
    {
      hide Tracks;
      PlainStep(cfg, ops, i);
      ReplayOne(c, ops[i], Plain(cfg, ops[..i]), PlainFingerprints(cfg, ops[..i]), WellTimed(cfg, ops));
    }
    assert ops[..|ops|] == ops;
    samples, fps, index := c.samples, c.queryFingerprint, c.fingerprintIndex;
  }

  method ReplayOne(c: Collector, op: Op, ghost plain: Buckets, ghost plainFps: map<int, string>, ghost timed: bool)
    requires c.Valid()
    requires timed ==> Tracks(c.samples, c.queryFingerprint, plain, plainFps) && Timely(plain, op)
    modifies c
    ensures c.Valid()
    ensures timed ==>
      var next := Apply(c.cfg, plain, op);
      Tracks(c.samples, c.queryFingerprint, next, Restrict(ApplyFingerprints(c.cfg, plainFps, op), next.Keys))
  {
    hide Prune, SameBuckets, BucketsSorted, AppendAll, AppendSample, IndexAll;
    ghost var cutoff := (if op.Ingest? then 0 else op.now) - c.cfg.retention;
    ghost var before := c.samples;
    match op {
      case Ingest(now, q, text, calls, totalMs, meanMs) =>
        if timed {
          SameTimes(c.samples, plain, op);
          AppendRespectsOrder(c.samples, plain, Sampled(c.cfg, now, q, text, calls, totalMs, meanMs));
        }
        c.IngestSample(now, q, text, calls, totalMs, meanMs);
      case Load(batch, now) =>
        ghost var loaded := FingerprintAll(c.cfg.fingerprintOf, batch);
        if timed {
          LoadRespectsOrder(c.samples, plain, loaded, cutoff);
        }
        c.Backfill(batch, now);
        if timed && batch != [] {
          SameTransitive(c.samples, Prune(AppendAll(before, loaded), cutoff), Apply(c.cfg, plain, op));
        }
      case Age(now) =>
        if timed {
          PruneRespectsOrder(c.samples, plain, cutoff);
        }
        c.PruneByAge(now);
    }
    if timed {
      Restricted(c.queryFingerprint, ApplyFingerprints(c.cfg, plainFps, op), c.samples, Apply(c.cfg, plain, op));
    }
  }

  lemma SameTimes(a: Buckets, b: Buckets, op: Op)
    requires SameBuckets(a, b) && Timely(b, op)
    ensures Timely(a, op)
  {
    if op.Ingest? && op.q in a {
      SortHasSameElements(a[op.q], b[op.q]);
    }
  }

  lemma Restricted(fps: map<int, string>, all: map<int, string>, samples: Buckets, plain: Buckets)
    requires Submap(fps, all) && fps.Keys == samples.Keys && SameBuckets(samples, plain)
    ensures fps == Restrict(all, plain.Keys)
  {
    var spec := Restrict(all, plain.Keys);
    assert plain.Keys == samples.Keys;
    forall q
      ensures q in fps <==> q in spec
    {
      assert q in fps <==> q in plain.Keys;
    }
    assert fps.Keys == spec.Keys;
    assert forall q :: q in fps ==> fps[q] == spec[q];
    assert fps == spec;
  }

  // ----- the memory store -----

  /** The memory store holds exactly the plain form, for any run. */
  method ReplayPlain(cfg: Settings, ops: seq<Op>) returns (samples: Buckets)
    ensures samples == Plain(cfg, ops)
  {
    var m := new MemoryStore();
    for i := 0 to |ops|
      invariant fresh(m) && m.samples == Plain(cfg, ops[..i])
    {
      PlainStep(cfg, ops, i);
      ReplayPlainOne(m, cfg, ops[i]);
    }
    assert ops[..|ops|] == ops;
    samples := m.samples;
  }

  method ReplayPlainOne(m: MemoryStore, cfg: Settings, op: Op)
    modifies m
    ensures m.samples == Apply(cfg, old(m.samples), op)
  {
    hide Prune, AppendSample;
    match op
    case Ingest(now, q, text, calls, totalMs, meanMs) =>
      m.Append(Sampled(cfg, now, q, text, calls, totalMs, meanMs));
    case Load(batch, now) =>
      if batch != [] {
        for j := 0 to |batch|
          invariant m.samples == AppendAll(old(m.samples), FingerprintAll(cfg.fingerprintOf, batch[..j]))
        {
          assert batch[..j + 1][..j] == batch[..j];
          AppendStep(old(m.samples), FingerprintAll(cfg.fingerprintOf, batch[..j]), Fingerprinted(cfg.fingerprintOf, batch[j]));
          m.Append(Fingerprinted(cfg.fingerprintOf, batch[j]));
        }
        assert batch[..|batch|] == batch;
        m.PruneOlder(now - cfg.retention);
      }
    case Age(now) =>
      m.PruneOlder(now - cfg.retention);
  }
}
