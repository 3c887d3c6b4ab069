# pg-regression-radar, verified core

A Dafny model of the four parts of pg-regression-radar that decide which regressions are reported, and
proofs of what they promise. `dafny verify dfyconfig.toml` checks the whole project.

1. **Change points and significance** (`ChangePoints`, `Splitting`, `EnergyLaws`, `Regimes`, `Welch`, `WelchLaws`,
   `Detection`, `Window`, `Skipping`): the incremental O(n²) scan for the energy statistic, greedy E-divisive splitting, Welch's
   t-test, the gates that turn them into a verdict, and the loop over queryids. Latencies are reals.
2. **The sample history** (`SampleBuckets`, `Fingerprints`, `SampleIndex`, `SampleRuns`): the Collector's
   buckets, its two-way fingerprint index, retention by binary search and range queries that merge sibling
   queryids, held against the memory SampleStore, which only appends and filters.
3. **The SQL scanner** (`Scanner`, `Comments`, `Replacement`, `Insensitivity`, `Lexical`): the one-pass scanner that removes comments and replaces
   literals before a query text is fingerprinted.
4. **The deploy-event protocol** (`EventStore`, `Pending`, `Operator`, `Periodic`): webhooks, the drain
   cursor, the pending set with its in-place compaction, and the periodic tracker, over whole runs.

`Sequences` holds what the Go library calls promise: `sort.Slice` is *some* sorted permutation, `sort.Search`
a binary search that always returns a boundary of its predicate. `Types` holds the shared records.

What the environment supplies is a parameter, so every statement holds for all of its values: the clock
(`now`), the engine's answers to a poll, the tail of the t-distribution (any function of t² and the degrees
of freedom), the fingerprint of a text, and which runes count as letters or digits. Instants are integers.
Where a class updates fields in the source, the model is a class whose methods are proved against functions
of the old state, and the theorems are about those functions. What such a function computes is in turn stated
without it: the energy statistic and the variance as sums over pairs, the verdict gate by gate, the scanner's output
by a lexical grammar, the result of the greedy loop as the only greedy run.

Three statements about the source turn out to hold only under a condition. Each condition is proved to be exact,
for all inputs, and each failure is shown at an input:

- The comment at internal/correlation/engine.go:217-219 says a skipped queryid would only re-evaluate the
  identical merged samples. It would exactly if the two queryids are indexed under one fingerprint and either
  both have fewer than five samples of their own in the window, or one has five and no other sibling has any
  (`Skipping.SkippedSeesTheSame`). `Skipping.SkippingCanLoseSamples` and `Skipping.SkippingCanMissTheIndex`
  are two well-timed runs after which it would not.
- `pruneLocked` relies on chronological buckets. `SampleIndex.Collector.PruneByAge` states exactly when its
  binary search agrees with the linear filter: no aged sample after one that is not aged.
  `SampleIndex.PruneAfterClockWentBack` is a run after which it does not.
- The scanner is there to make the contents of comments and literals irrelevant. Because the search for the
  closer of a dollar quote looks ahead over the whole text, they are irrelevant exactly if they do not close a
  dollar quote left open before them (`Replacement.ReplaceToken`, and in `Insensitivity` one theorem for each
  of the four kinds of token). `Insensitivity.DollarsMatter` and `Insensitivity.QuoteBodyMatters` are inputs
  where they matter; literals and comments without a dollar sign never do.

## Model

| member | source | states |
|---|---|---|
| `ChangePoints.BestChangePoint` | internal/correlation/engine.go:871-949 | The incremental scan returns the first split that maximises the energy statistic defined by full double sums over the two parts, and (0, -1) exactly when no split exceeds -1 |
| `ChangePoints.MoveOnePoint` | internal/correlation/engine.go:923-943 | Moving one point across the split changes the three double sums by exactly the row sums the code adds and subtracts |
| `ChangePoints.SumsHaveConstantTotal` | internal/correlation/engine.go:868-870 | Pairs within the left part, across, and within the right part always add up to all pairs of the series |
| `EnergyLaws.EnergyFormula` | internal/correlation/engine.go:898-914 | For parts of na and nb points, (na + nb) times the statistic is twice the distances across, minus nb / (na - 1) times those within the left part, minus na / (nb - 1) times those within the right; a part of one point has none |
| `EnergyLaws.SameValuesScoreNothing` | internal/correlation/engine.go:905-913 | Two parts with the same multiset of values score minus their mean distance within, so never above zero |
| `EnergyLaws.RepetitionHasNoChangePoint` | internal/correlation/engine.go:839-841 | A noisy stretch followed by a permutation of itself has no change point where it repeats |
| `ChangePoints.EvalAndUpdate` | internal/correlation/engine.go:898-917 | The statistic computed from the running sums is the one of the two parts, and replaces the best only when strictly larger |
| `Splitting.BestIsFirstMaximum` | internal/correlation/engine.go:873-919 | The running best is, for any statistic, the earliest maximum over the splits scanned so far |
| `ChangePoints.EDivisive` | internal/correlation/engine.go:815-860 | Returns the greedy picks in index order: at most maxPoints, positive, strictly increasing with gaps of at least minSegLen (at least 1 if that is 0) to each other and to both ends |
| `ChangePoints.BestOfSegments` | internal/correlation/engine.go:824-837 | The inner loop finds the best split over all segments long enough to split |
| `ChangePoints.ReplaceSegment` | internal/correlation/engine.go:845-855 | Comparing bounds splits exactly the chosen segment and keeps the others |
| `Splitting.SplitKeepsPartition` | internal/correlation/engine.go:845-855 | Every split leaves an ordered partition of [0, n) into segments of at least minSegLen |
| `Splitting.RoundsAreGreedy` | internal/correlation/engine.go:823-856 | Each pick is a positive maximum over all splits of all current segments, the earliest on a tie, and the loop stops early only when no split of any segment is positive |
| `Splitting.GreedyRunIsUnique` | internal/correlation/engine.go:823-856 | Only one list of picks is greedy in that sense, so the loop has no freedom |
| `Splitting.ResultShape` | internal/correlation/engine.go:815-860 | The shape of every result, from any sorted permutation of the picks |
| `Regimes.StepHasOneChangePoint` | internal/correlation/engine.go:815-949 | A series constant before z and a different constant from z on has exactly one change point, at z, for every admissible z and every maxPoints of at least 1 |
| `Regimes.StepIsLocalised` | internal/correlation/engine.go:858-859 | The returned list for such a series is exactly that one point |
| `Regimes.ConstantHasNoChangePoint` | internal/correlation/engine.go:839-841 | A constant series has no change point, however many are asked for |
| `Regimes.UnitIndependence` | internal/correlation/engine.go:815-949 | Replacing every latency x by c·x + d, c ≠ 0, keeps every picked index and multiplies every statistic by the absolute value of c |
| `Regimes.UnitIndependenceOfResult` | internal/correlation/engine.go:858-859 | The same for the returned lists |
| `Welch.ComputeMean` | internal/correlation/engine.go:639-648 | The loop computes the mean, 0 for an empty slice |
| `Welch.ComputeVariance` | internal/correlation/engine.go:651-662 | The loop computes the sample variance, 0 for fewer than two values |
| `Welch.VarianceZero` | internal/correlation/engine.go:651-662 | The variance of at least two values is zero exactly when they are all equal |
| `WelchLaws.VarianceByPairs` | internal/correlation/engine.go:651-662 | 2 n (n - 1) times the variance is the sum of squared differences over all ordered pairs |
| `WelchLaws.TailQuestion` | internal/correlation/engine.go:675-703 | For samples not both constant the p-value is the tail's answer to the t squared and the degrees of freedom that solve Welch's and Satterthwaite's equations for their means and pairwise variances |
| `WelchLaws.AnswersWithoutTail` | internal/correlation/engine.go:669-689 | 1 for a short sample or two equal constants, 0 for two different ones |
| `Welch.WelchTTest` | internal/correlation/engine.go:669-703 | The p-value: 1 for short samples, 0 or 1 when the standard error vanishes, else the tail's answer |
| `Welch.StandardErrorZero` | internal/correlation/engine.go:681-689 | The standard error vanishes exactly when both samples are constant |
| `Welch.DegreesOfFreedomBounds` | internal/correlation/engine.go:693-699 | The Welch-Satterthwaite degrees of freedom lie between min(n1, n2) - 1 and n1 + n2 - 2 |
| `Welch.TailIsAsked` | internal/correlation/engine.go:701-710 | Whenever the standard error is not zero the p-value is the tail's answer: the exit for non-positive degrees of freedom is unreachable from the t-test |
| `Detection.ComputeChangeStats` | internal/correlation/engine.go:354-451 | The gates in order: sample counts, mean filter, one change point of some chronological order of the samples, p-value of the two segments it separates |
| `Detection.EvaluateQuery` | internal/correlation/engine.go:462-529 | Detected if and only if both counts suffice, the mean ratio reaches 1 + threshold, the first best split of some chronological order scores above zero and lies within tolerance of the deploy, and the p-value of its two segments is within the threshold; then with that split's time and confidence 1 - p, at most 1. InsufficientData if and only if a count is short. Event, query, text, means and ratio as given |
| `Detection.EvaluatePeriodic` | internal/correlation/engine.go:541-581 | The same if and only if, without the distance from a deploy |
| `Detection.PickIsWhereItChanges` | internal/correlation/engine.go:398-399 | The one change point asked for is the first best split among those that leave a tenth of the series, and at least three points, on both sides; none exactly if no such split scores above zero |
| `Detection.PartitionAt` | internal/correlation/engine.go:615-625 | Pre and post are the samples up to and from the split, in their order |
| `Detection.PartitionConserves` | internal/correlation/engine.go:609-614 | No sample is lost by the split and exactly those recorded at it are doubled |
| `Detection.FirstPickInside` | internal/correlation/engine.go:601-607 | The one change point asked for leaves at least three samples on both sides, so the t-test is never too short |
| `Detection.DetectedIsSound` | internal/correlation/engine.go:477-528 | Every Detected result has enough samples on both sides, a mean ratio of at least 1 + threshold, a change time within tolerance that is some sample's time, and a p-value within the threshold on two segments of at least three samples |
| `Detection.CleanStepIsDetected` | internal/correlation/engine.go:354-529 | A clean step of sufficient size is Detected exactly when the earliest later sample is within tolerance (and the p-value threshold admits 0), with confidence 1 and that sample's time |
| `Window.LatestSample` | internal/correlation/engine.go:295-305 | Whether there is a sample, and which is the latest |
| `Window.LatestIsFirstMaximum` | internal/correlation/engine.go:295-305 | The latest sample is the first of those with the latest instant |
| `Window.AnalyseWindow` | internal/correlation/engine.go:199-253 | Evaluates exactly the queryids without fingerprint and the smallest of each fingerprint: each once, with its samples up to the split before and those from the split on after, under the queryid of its first sample with the latest instant; results are ordered by queryid |
| `Window.NoTwoShare` | internal/correlation/engine.go:206-231 | No two evaluated queryids share a non-empty latest fingerprint |
| `Window.SkippedHasSmaller` | internal/correlation/engine.go:226-230 | Every skipped queryid has a smaller evaluated one with the same fingerprint |
| `Window.ScheduleIsUnique` | internal/correlation/engine.go:192-198 | Which queryids are evaluated does not depend on the order they are listed in |
| `Scanner.StripCommentsAndLiterals` | internal/collector/fingerprint.go:186-281 | The scan writes, token by token, what the token function prescribes |
| `Scanner.SkipComment` | internal/collector/fingerprint.go:202-217 | The depth-counting loop stops where the nesting depth returns to zero, or at the end |
| `Scanner.SkipString` | internal/collector/fingerprint.go:227-242 | The loop over a literal honours doubled quotes, and backslash pairs when escapes are on |
| `Scanner.CopyQuoted` | internal/collector/fingerprint.go:245-260 | A quoted identifier is copied through to its closing quote, doubled quotes included |
| `Scanner.DollarQuoteTag` | internal/collector/fingerprint.go:286-300 | The end of a dollar-quote opening delimiter, digits allowed as first tag rune, or none |
| `Scanner.FindDollarQuoteEnd` | internal/collector/fingerprint.go:305-320 | The end of the first occurrence of the closer, or none |
| `Lexical.ScannerFollowsGrammar` | internal/collector/fingerprint.go:186-320 | Whatever list of comments, literals, identifiers, dollar quotes and single runes, each fitting between its neighbours, a text consists of, the scanner writes it piece by piece as the grammar says |
| `Lexical.EveryTextHasPieces` | internal/collector/fingerprint.go:186-320 | Every text consists of such pieces, unterminated ones included, so the grammar determines the output for every text |
| `Lexical.EscapeLiteral` | internal/collector/fingerprint.go:220-238 | After an E or e that does not end a longer word a literal with backslash pairs is one token, written as a placeholder |
| `Lexical.PlainLiteral` | internal/collector/fingerprint.go:220-238 | At the start, after any other rune, or after an E that ends a longer word, backslashes are not special |
| `Scanner.WordOccurs` | internal/collector/fingerprint.go:262-273 | A possible delimiter in the output occurs in the text from the same point on: the scan never creates one |
| `Scanner.StripIsIdempotent` | internal/collector/fingerprint.go:186-320 | Stripping an already stripped text returns it unchanged, for every text, unterminated ones included |
| `Comments.NestedIsConsumed` | internal/collector/fingerprint.go:202-217 | A properly nested comment body is consumed to its matching close, at any depth |
| `Comments.CommentIsMatched` | internal/collector/fingerprint.go:202-217 | After an opening delimiter the scan consumes exactly the properly nested body that follows, and everything if none does |
| `Replacement.TokenChoice` | internal/collector/fingerprint.go:262-273 | A token that ends before the replaced one is the same in both texts, unless it is a dollar sign whose quote the new token closes; then it becomes a placeholder that reaches past it |
| `Replacement.ReplaceToken` | internal/collector/fingerprint.go:192-281 | Replacing a token the scan reaches by one written alike leaves the output unchanged if and only if no dollar quote left open before it is closed from within the new token, and if and only if the scan still comes to the new token |
| `Insensitivity.LiteralsMatterExactly` | internal/collector/fingerprint.go:219-243 | Two texts that differ only in the contents of one literal the scan reaches strip to the same text if and only if the new contents close no dollar quote left open before; for any contents with doubled quotes and, after an escape prefix, backslash pairs |
| `Insensitivity.LiteralsDoNotMatter` | internal/collector/fingerprint.go:219-243 | New contents without a dollar sign never change the output |
| `Insensitivity.LiteralLen` | internal/collector/fingerprint.go:227-242 | Well-formed contents are consumed exactly to the closing quote |
| `Insensitivity.CommentsMatterExactly` | internal/collector/fingerprint.go:202-217 | The same if and only if for the inside of one properly nested block comment the scan reaches |
| `Insensitivity.CommentsDoNotMatter` | internal/collector/fingerprint.go:202-217 | A new inside without a dollar sign never changes the output |
| `Insensitivity.LineCommentsMatterExactly` | internal/collector/fingerprint.go:195-200 | The same if and only if for one line comment the scan reaches, up to the end of its line |
| `Insensitivity.LineCommentsDoNotMatter` | internal/collector/fingerprint.go:195-200 | A new line comment without a dollar sign never changes the output |
| `Insensitivity.QuotesMatterExactly` | internal/collector/fingerprint.go:262-273 | The same if and only if for the body of one closed dollar quote the scan reaches |
| `Insensitivity.DollarsMatter` | internal/collector/fingerprint.go:262-273 | Inputs on which dollar signs in a literal, a block comment and a line comment change how the text before them is scanned |
| `Insensitivity.QuoteBodyMatters` | internal/collector/fingerprint.go:262-273 | An input on which the body of a dollar quote, without a dollar sign of its own, does so together with its delimiters |
| `EventStore.Store.constructor` | internal/ingester/ingester.go:71-73 | A new store is empty and consistent |
| `EventStore.Store.Add` | internal/ingester/ingester.go:78-90 | First write wins; arrival order, IDs and time index stay consistent |
| `EventStore.Store.InsertByTime` | internal/ingester/ingester.go:95-102 | The shifted insertion keeps the index the stable sort of the arrival list |
| `EventStore.Store.EventsInRange` | internal/ingester/ingester.go:107-122 | The binary search and cut-off yield exactly the events in the closed interval, as the stable sort of the matching arrivals |
| `EventStore.Store.Backfill` | internal/ingester/ingester.go:137-160 | Adds the batch first-write-wins and returns the cursor past it |
| `EventStore.Store.DrainSince` | internal/ingester/ingester.go:166-175 | The events after the cursor in arrival order, and the cursor past them |
| `EventStore.StoredAsDelivered` | internal/ingester/ingester.go:78-90 | The store holds what it held and the first delivery of every new ID, unchanged, and nothing else |
| `EventStore.StableSortIsUnique` | internal/ingester/ingester.go:60-62 | The time index is determined by the arrival list alone |
| `Pending.PendingSet.Add` | internal/correlation/pending.go:91-102 | Registers the event with its deadline and nothing notified |
| `Pending.PendingSet.Tick` | internal/correlation/pending.go:113-151 | Compacting survivors into the buffer being read yields the new findings in order and exactly the events before their deadline, marked |
| `Pending.FreshCount` | internal/correlation/pending.go:119-128 | One answer reports a query once if Detected for the first time, else not at all |
| `Pending.FreshIsGenuine` | internal/correlation/pending.go:119-128 | What is reported is the first result of the answer that finds the query Detected |
| `Pending.DetectedMeans` | internal/correlation/pending.go:119-128 | The queries marked are those with a Detected result in the answer |
| `Operator.PollOnce` | internal/cli/operator.go:541-554 | One turn of the poll loop: drain, register in order, tick |
| `Operator.RunOperator` | internal/cli/operator.go:532-573 | The process over any interleaving of webhooks and polls emits exactly the alerts of the run |
| `Operator.RunKeepsInvariant` | internal/cli/operator.go:307-311 | After any run the pending set is exactly what the history of polls prescribes, drained events are a stretch of the arrival list, and alert counts match what was due |
| `Operator.ReportedExactlyOnce` | internal/correlation/pending.go:43-47 | Each event and query pair is reported at most once, and once exactly if it was found Detected while the drained event was pending |
| `Operator.DrainedOnceInOrder` | internal/ingester/ingester.go:162-175 | Every event stored after the backfill is drained exactly once and in arrival order |
| `Operator.PendingUntilDeadline` | internal/correlation/pending.go:130-147 | A drained event is pending exactly until the first poll at or after its deadline |
| `Operator.HistoryIsNeverReported` | internal/cli/operator.go:361-369 | No backfilled event is ever reported, even when its webhook is delivered again |
| `Operator.ReportsAreGrounded` | internal/correlation/pending.go:118-128 | Every report is a Detected result the engine gave for a drained event |
| `Operator.SeenMeans` | internal/correlation/pending.go:40-47 | A pair is due exactly when some poll found it Detected before any earlier poll had passed the deadline |
| `Periodic.PeriodicTracker.Tick` | internal/correlation/periodic.go:71-106 | One tick reports the results that start an episode and updates the suppressed queries |
| `Periodic.OneReportPerEpisode` | internal/correlation/periodic.go:31-37 | Per query, the reports are the first observations of its maximal Detected blocks, and it is suppressed exactly while its last observation is Detected |
| `Periodic.StartsCounted` | internal/correlation/periodic.go:31-37 | The n-th such observation is where the n-th maximal block begins |
| `Periodic.RunTracker` | internal/correlation/periodic.go:71-106 | The same over the whole life of a tracker, however the results fall into ticks |
| `SampleBuckets.MemoryStore.Append` | internal/storage/memory/store.go:57-66 | Appends to the queryid's bucket |
| `SampleBuckets.MemoryStore.PruneOlder` | internal/storage/memory/store.go:100-118 | The linear filter of every bucket, dropping empty ones |
| `SampleBuckets.MemoryStore.SamplesInRange` | internal/storage/memory/store.go:69-82 | The in-range samples of the bucket in some chronological order |
| `SampleBuckets.AgedBoundary` | internal/collector/collector.go:773-791 | The suffix the binary search keeps is what the filter keeps exactly when no aged sample follows one that is not |
| `SampleBuckets.SearchMissesTheCut` | internal/collector/collector.go:773-791 | Where the clock went back across the cutoff, every boundary the search may return keeps both samples or neither, and the filter one |
| `SampleIndex.PruneAfterClockWentBack` | internal/collector/collector.go:769-804 | A collector that ingested at 10 and then at 5 and prunes at 7 is left with something other than the filter's one sample |
| `SampleIndex.Collector.IndexFingerprint` | internal/collector/collector.go:722-734 | Records the current fingerprint and keeps the index its exact inverse |
| `SampleIndex.Collector.RemoveFromFingerprintIndex` | internal/collector/collector.go:736-745 | Removes the queryid from the set and the set when it is empty |
| `SampleIndex.Collector.ForgetQuery` | internal/collector/collector.go:750-757 | Forgets a queryid and keeps the index exact |
| `SampleIndex.Collector.IngestSample` | internal/collector/collector.go:678-699 | The bucket gains one sample with the row's queryid, calls, total, mean and time, its text cut to the limit with an ellipsis if longer, and the fingerprint of that text; buckets stay chronological if the clock has not gone back on this queryid |
| `SampleIndex.Collector.PruneByAge` | internal/collector/collector.go:769-804 | On any state keeps a suffix of every bucket and the index exact; agrees with the linear filter exactly on partitioned buckets, so on all chronological ones |
| `SampleIndex.Collector.Backfill` | internal/collector/collector.go:367-391 | Buckets become chronological and hold, with multiplicity, what appending and filtering would leave; queryids carry the fingerprint last loaded for them |
| `SampleIndex.OnlyFingerprintsFilledIn` | internal/collector/collector.go:372-376 | A backfilled sample is the persisted one, with its fingerprint computed from its text only where it had none |
| `Fingerprints.FallbackBelowFive` | internal/collector/collector.go:102 | With four or fewer samples of its own in the closed interval a queryid is given, with multiplicity, those of all queryids of its fingerprint; with five or more its own alone |
| `SampleIndex.Collector.SamplesInRange` | internal/collector/collector.go:420-452 | Chronologically, the queryid's own in-range samples if there are at least five, else with multiplicity exactly those of all queryids sharing its fingerprint |
| `Fingerprints.InsertAfterRemove` | internal/collector/collector.go:722-734 | Changing a queryid's fingerprint keeps the index the exact inverse without empty sets |
| `Fingerprints.AnswersAgree` | internal/collector/collector.go:420-452 | Two queryids get the same samples, if any, exactly when they are indexed under one fingerprint and both have fewer than five of their own, or one has enough and no other sibling has any |
| `Fingerprints.SiblingAnswersAgree` | internal/collector/collector.go:420-452 | The same for siblings, empty answers included |
| `Skipping.SkippedSeesTheSame` | internal/correlation/engine.go:206-231 | Every queryid the window loop skips by latest fingerprint has a smaller evaluated one that sees the identical samples if and only if that condition holds |
| `Skipping.SkippingCanLoseSamples` | internal/correlation/engine.go:217-219 | After a well-timed run the second of two siblings is skipped although it would see a sample the first does not |
| `Skipping.SkippingCanMissTheIndex` | internal/correlation/engine.go:226-230 | After a well-timed run the second queryid is skipped by its fingerprint in the window although the index does not make the two siblings, and both have too few samples of their own |
| `Skipping.ReachBoth` | internal/collector/collector.go:678-699 | A collector comes to both of these states by ingesting rows |
| `SampleRuns.Replay` | internal/collector/collector.go:678-804 | Over any run of ingests, backfills and prunes the index is exact and buckets are proper; if the run is well timed, buckets hold what the plain form holds, chronologically, under the fingerprints last ingested or loaded |
| `SampleRuns.ReplayPlain` | internal/storage/memory/store.go:56-118 | The memory store holds exactly the plain form after any run |

## Left out

- `Welch.WelchTTest`: the t-distribution tail (tDistPValue, incompleteBeta, betaCF, logBeta) is a parameter, because it depends on exp, log, Lgamma and floating-point convergence; the t statistic itself is not returned.
- `ChangePoints.EvalAndUpdate`: reals have no NaN, so the score 0 / 0 of a split with an empty part, which arises only for minSegLen 0, is modelled as a score that is not compared.
- `SampleIndex.Collector.IngestSample`: the length limit counts runes of the model's text where the code counts bytes and may cut a rune.
- Floating-point rounding, overflow and NaN: arithmetic is over reals.
- The regular-expression passes and the FNV hash after the scanner: the fingerprint is any function of the text.
- `Engine.Analyse` and `AnalysePeriodic` as callers of the window loop, `Config.defaults`, the report's name, namespace, trigger and creation time.
- Pointer identity of pending events: the model stores them by value in the compacted buffer.
- Locks and goroutines: webhooks and polls interleave as atomic steps; the source holds a mutex for each.
- SQL access, plan capture, metrics, logging, and slice capacity in the collector.
- The plan-history ring, `Len` and `AllQueryIDs` accessors, the last-write-wins event stores, and pruning of the durable stores.
- HTTP handlers, payload parsing, alerting, the dashboard API, Kubernetes reconcilers and command-line flags.
