/** What `analyseWindow` loses by evaluating one queryid per fingerprint: when the samples of a skipped queryid are
    those of the one evaluated in its place. */
module Skipping {
  import opened Fingerprints
  import opened SampleBuckets
  import opened SampleIndex
  import opened SampleRuns
  import opened Sequences
  import opened Types
  import opened Window

  /** The window loop asks a collector in the given state for the samples of every listed queryid. */
  ghost predicate Answers(samples: Buckets, fps: map<int, string>, from: int, to: int, ids: set<int>, src: Source) {
    && BucketsProper(samples) && samples.Keys == fps.Keys
    && forall q :: q in ids ==> RangeAnswer(samples, fps, q, from, to, src(q))
  }

  /** Every skipped queryid has a smaller evaluated one with its latest fingerprint; that one sees the identical
      samples exactly if the two are indexed alike and their views coincide. */
  lemma SkippedSeesTheSame(samples: Buckets, fps: map<int, string>, from: int, to: int, ids: set<int>, src: Source,
                           evaluated: seq<int>, q: int) returns (p: int)
    requires IsSchedule(evaluated, ids, src) && q in ids && q !in evaluated
    ensures p in evaluated && p < q && Fingerprint(src(p)) == Fingerprint(src(q)) != ""
    ensures Answers(samples, fps, from, to, ids, src) ==>
      && p in fps && q in fps
      && (multiset(src(p)) == multiset(src(q)) <==> SameView(samples, fps, p, q, from, to))
  {
    hide RangeAnswer, SameView;
    p := SkippedHasSmaller(evaluated, ids, src, q);
    assert Wins(ids, src, p);
    assert src(p) != [] && src(q) != [];
    if Answers(samples, fps, from, to, ids, src) {
      AnswerMembers(samples, fps, p, from, to, src(p));
      AnswerMembers(samples, fps, q, from, to, src(q));
      AnswersAgree(samples, fps, p, q, from, to, src(p), src(q));
    }
  }

  // ----- two runs after which a skipped queryid would see other samples -----

  const CFG := Settings(100, 10, FingerprintOf)

  function FingerprintOf(text: string): string { if text == "q" then "f" else "g" }

  function Row(now: int, q: int, text: string): Op { Ingest(now, q, text, 1, 1.0, 1.0) }

  function Seen(now: int, q: int, text: string): QuerySample {
    QuerySample(q, text, 1, 1.0, 1.0, now, FingerprintOf(text))
  }

  /** What a collector holds after a well-timed run (`SampleRuns.Replay`). */
  ghost predicate Holds(ops: seq<Op>, samples: Buckets, fps: map<int, string>) {
    && BucketsProper(samples) && samples.Keys == fps.Keys
    && WellTimed(CFG, ops) && SameBuckets(samples, Plain(CFG, ops)) && fps == PlainFingerprints(CFG, ops)
  }

  /** The run is well timed and leaves this plain form. */
  ghost predicate Leaves(ops: seq<Op>, plain: Buckets, fps: map<int, string>) {
    WellTimed(CFG, ops) && Plain(CFG, ops) == plain && PlainFingerprints(CFG, ops) == fps
  }

  lemma EmptyRun()
    ensures Leaves([], map[], map[])
  {
  }

  /** One more row at the end of a run. */
  lemma NextRow(ops: seq<Op>, plain: Buckets, fps: map<int, string>, now: int, q: int, text: string,
                plain': Buckets, fps': map<int, string>)
    requires Leaves(ops, plain, fps) && plain.Keys == fps.Keys && |text| <= 10 && NotLater(Bucket(plain, q), now)
    requires plain'.Keys == plain.Keys + {q} && plain'[q] == Bucket(plain, q) + [Seen(now, q, text)]
    requires (forall k :: k in plain && k != q ==> plain'[k] == plain[k]) && fps' == fps[q := FingerprintOf(text)]
    ensures Leaves(ops + [Row(now, q, text)], plain', fps')
  {
    var op := Row(now, q, text);
    var next := ops + [op];
    var appended := plain[q := Bucket(plain, q) + [Seen(now, q, text)]];
    assert appended.Keys == plain'.Keys;
    assert forall k :: k in appended ==> appended[k] == plain'[k];
    assert appended == plain';
    assert next[..|ops|] == ops && next[|ops|] == op;
    assert forall j :: 0 <= j < |ops| ==> next[..j] == ops[..j] && next[j] == ops[j];
    assert ApplyFingerprints(CFG, fps, op) == fps';
    assert Restrict(fps', plain'.Keys) == fps';
  }

  /** Queryid 1 has five samples, and its successor 2 has one. */
  function RotatedRun(): seq<Op> {
    [Row(5, 1, "q")] + [Row(5, 1, "q")] + [Row(5, 1, "q")] + [Row(5, 1, "q")] + [Row(5, 1, "q")] + [Row(6, 2, "q")]
  }

  lemma RotatedState()
    ensures var s := Seen(5, 1, "q");
      Leaves(RotatedRun(), map[1 := [s, s, s, s, s], 2 := [Seen(6, 2, "q")]], map[1 := "f", 2 := "f"])
  {
    hide Leaves;
    var s, run, fps := Seen(5, 1, "q"), [Row(5, 1, "q")], map[1 := "f"];
    EmptyRun();
    NextRow([], map[], map[], 5, 1, "q", map[1 := [s]], fps);
    assert [] + run == run;
    NextRow(run, map[1 := [s]], fps, 5, 1, "q", map[1 := [s, s]], fps);
    NextRow(run + run, map[1 := [s, s]], fps, 5, 1, "q", map[1 := [s, s, s]], fps);
    NextRow(run + run + run, map[1 := [s, s, s]], fps, 5, 1, "q", map[1 := [s, s, s, s]], fps);
    NextRow(run + run + run + run, map[1 := [s, s, s, s]], fps, 5, 1, "q", map[1 := [s, s, s, s, s]], fps);
    NextRow(run + run + run + run + run, map[1 := [s, s, s, s, s]], fps, 6, 2, "q",
            map[1 := [s, s, s, s, s], 2 := [Seen(6, 2, "q")]], map[1 := "f", 2 := "f"]);
  }

  /** Queryid 1 is seen with the text of queryid 2 in the window, and with another one after it. */
  function ReusedRun(): seq<Op> {
    [Row(5, 1, "q")] + [Row(6, 2, "q")] + [Row(20, 1, "r")]
  }

  lemma ReusedState()
    ensures Leaves(ReusedRun(), map[1 := [Seen(5, 1, "q"), Seen(20, 1, "r")], 2 := [Seen(6, 2, "q")]],
                   map[1 := "g", 2 := "f"])
  {
    hide Leaves;
    var s, s', run := Seen(5, 1, "q"), Seen(6, 2, "q"), [Row(5, 1, "q")];
    EmptyRun();
    NextRow([], map[], map[], 5, 1, "q", map[1 := [s]], map[1 := "f"]);
    assert [] + run == run;
    NextRow(run, map[1 := [s]], map[1 := "f"], 6, 2, "q", map[1 := [s], 2 := [s']], map[1 := "f", 2 := "f"]);
    NextRow(run + [Row(6, 2, "q")], map[1 := [s], 2 := [s']], map[1 := "f", 2 := "f"], 20, 1, "r",
            map[1 := [s, Seen(20, 1, "r")], 2 := [s']], map[1 := "g", 2 := "f"]);
  }

  /** A collector comes to both states. */
  method ReachBoth() returns (samples1: Buckets, fps1: map<int, string>, samples2: Buckets, fps2: map<int, string>)
    ensures Holds(RotatedRun(), samples1, fps1) && Holds(ReusedRun(), samples2, fps2)
  {
    hide WellTimed, SameBuckets, RotatedRun, ReusedRun;
    RotatedState();
    ReusedState();
    var index;
    samples1, fps1, index := Replay(CFG, RotatedRun());
    samples2, fps2, index := Replay(CFG, ReusedRun());
  }

  lemma AllOneFingerprint(out: seq<QuerySample>, fp: string)
    requires out != [] && forall x :: x in out ==> x.fingerprint == fp
    ensures Fingerprint(out) == fp
  {
    var i := LatestIsFirstMaximum(out);
    assert out[i] in out;
  }

  /** Where every sample in range has one fingerprint, queryid 2 is skipped for queryid 1. */
  lemma SecondIsSkipped(samples: Buckets, fps: map<int, string>, src: Source)
    requires Answers(samples, fps, 0, 10, {1, 2}, src) && samples.Keys == {1, 2}
    requires Seen(5, 1, "q") in samples[1] && Seen(6, 2, "q") in samples[2]
    requires forall q, x :: q in samples && x in samples[q] && 0 <= x.recordedAt <= 10 ==> x.fingerprint == "f"
    ensures Wins({1, 2}, src, 1) && !Wins({1, 2}, src, 2) && src(1) != []
  {
    hide RangeAnswer, Fingerprint;
    AnswerHoldsOwn(samples, fps, 1, 0, 10, src(1), Seen(5, 1, "q"));
    AnswerHoldsOwn(samples, fps, 2, 0, 10, src(2), Seen(6, 2, "q"));
    AnswerMembers(samples, fps, 1, 0, 10, src(1));
    AnswerMembers(samples, fps, 2, 0, 10, src(2));
    AllOneFingerprint(src(1), "f");
    AllOneFingerprint(src(2), "f");
  }

  lemma SameMembers(a: Buckets, b: Buckets)
    requires SameBuckets(a, b)
    ensures a.Keys == b.Keys
    ensures forall q :: q in a ==> |a[q]| == |b[q]|
    ensures forall q, x :: q in a ==> (x in a[q] <==> x in b[q])
  {
    forall q | q in a
      ensures |a[q]| == |b[q]| && forall x :: x in a[q] <==> x in b[q]
    {
      SortHasSameElements(a[q], b[q]);
    }
  }

  /** After this run queryid 2 is skipped, and would not see the identical samples: it has one that queryid 1,
      with five of its own, does not fall back to. */
  lemma SkippingCanLoseSamples(samples: Buckets, fps: map<int, string>, src: Source)
    ensures Holds(RotatedRun(), samples, fps) && Answers(samples, fps, 0, 10, {1, 2}, src) ==>
      Wins({1, 2}, src, 1) && !Wins({1, 2}, src, 2) && multiset(src(1)) != multiset(src(2))
  {
    hide RangeAnswer, Wins, RotatedRun, Plain, PlainFingerprints, WellTimed, Filter;
    if !Holds(RotatedRun(), samples, fps) || !Answers(samples, fps, 0, 10, {1, 2}, src) {
      return;
    }
    RotatedState();
    SameMembers(samples, Plain(CFG, RotatedRun()));
    SecondIsSkipped(samples, fps, src);
    AllInWindow(samples[1]);
    AllInWindow(samples[2]);
    assert 2 in Siblings(fps, 1);
    AnswersAgree(samples, fps, 1, 2, 0, 10, src(1), src(2));
  }

  lemma AllInWindow(bucket: seq<QuerySample>)
    requires forall x :: x in bucket ==> 0 <= x.recordedAt <= 10
    ensures Filter(bucket, InRange(0, 10)) == bucket
  {
    assert forall i :: 0 <= i < |bucket| ==> bucket[i] in bucket;
    FilterAll(bucket, InRange(0, 10));
  }

  /** After this run too, although both queryids have too few samples of their own: in the window they have one
      fingerprint, and the index, which knows what queryid 1 became later, does not make them siblings. */
  lemma SkippingCanMissTheIndex(samples: Buckets, fps: map<int, string>, src: Source)
    ensures Holds(ReusedRun(), samples, fps) && Answers(samples, fps, 0, 10, {1, 2}, src) ==>
      Wins({1, 2}, src, 1) && !Wins({1, 2}, src, 2) && multiset(src(1)) != multiset(src(2))
  {
    hide RangeAnswer, Wins, ReusedRun, Plain, PlainFingerprints, WellTimed, Filter;
    if !Holds(ReusedRun(), samples, fps) || !Answers(samples, fps, 0, 10, {1, 2}, src) {
      return;
    }
    ReusedState();
    SameMembers(samples, Plain(CFG, ReusedRun()));
    SecondIsSkipped(samples, fps, src);
    AnswersAgree(samples, fps, 1, 2, 0, 10, src(1), src(2));
  }
}
