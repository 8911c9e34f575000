# SignalDeck's self-grading statistics, verified

SignalDeck grades its own forecasts and publishes a number only when the number has earned it.
This project models the Python side of that machinery in Dafny and proves what it promises, over
every input and every run.

| part of SignalDeck | modules |
|---|---|
| the accuracy registry: forward-horizon blocks, design effect, Wilson interval, verdict, prequential null | `HorizonBlocks`, `BlockTheorems`, `ClusteredInterval`, `DesignEffectLaws`, `Admission`, `Wilson`, `Verdict`, `GradeLaws`, `Prequential` |
| the price of multiplicity over grading cycles | `Multiplicity`, `MultiplicityRuns` |
| readiness dates and the fixed-grid block count | `Readiness` |
| the volatility labellers: forward-backward, Baum-Welch, terciles | `PathSums`, `HmmChain`, `ScaledChain`, `Transitions`, `VolRegime`, `ModelWeights`, `ModelLaws`, `BaumWelch`, `WeightedMoments`, `EmLaws`, `FitHmm`, `VolTercile` |
| the pairs trade and its two ledgers | `TradePair`, `PairLedgers`, `LedgerGaps`, `SpreadLaws` |
| average-tie ranks and rank correlation | `Ranks`, `RankLaws`, `Spearman` |
| symmetric cross-validation | `Combinations`, `Cscv`, `Degradation`, `CscvReport`, `CscvTheorems`, `Mirrors` |
| the documentation gates | `Anchoring`, `AnchorLaws`, `RegionScanner`, `RegionLaws`, `Splice` |
| shared mathematics | `Options`, `RealAlgebra`, `RealSeq`, `Counting` |

Loops of the source are methods with loops, proved against specification functions or against the
property itself; the registry's module state is the class `Multiplicity.Grader`, the document that
`inject` rewrites is the class `Splice.Document`, and the forward-backward recursions fill arrays.
`dafny verify dfyconfig.toml` checks everything.

Arithmetic is exact: `int` and `real`, no rounding. Functions the source takes from a library are
function values with the property that defines them: `sqrt` by its square, the normal quantile as a
non-decreasing function that is zero at one half (strictly increasing where that is said), the
logarithm as an increasing function that is zero at one (or, for the volatility labels, any function
at all), `polyfit` as a line of least squared error, the emission density as any positive function of
an observation, a mean and a positive variance.

## What turned out differently from the documentation

* `trading_to_calendar` documents a ceiling, but adds 0.999 and truncates. `Readiness.RoundsUpExactly`
  gives the exact condition for the two to agree, for negative ratios too; one bar at a ratio of 1.0005
  does not meet it (`Readiness.RatioCanRoundDown`). Every caller uses the default ratio of 7/5, which
  always does (`Readiness.DefaultRatioRoundsUp`).
* The readiness report counts blocks on a fixed grid with SQLite's `/`, which truncates toward zero.
  The grid reports at most twice as many blocks as the greedy sweep. It never reports fewer, whichever
  of the possible days the calls fall on, exactly when no two possible days straddle day zero: one
  before it and one after it, both less than a horizon away from it but a horizon or more apart
  (`Readiness.GridIsSafeExactlyWhen`; per set of call days `Readiness.GridUndercountsExactlyWhen`).
  Day zero is 1 January 1970 and call days are days of live forecasts, so the report does not meet
  such days, although nothing in its query rules them out.
* `design_effect` documents that it never returns less than 1. It does when the sample has fewer rows
  than clusters and they all hit or all miss, and only then
  (`ClusteredInterval.PenaltyAtLeastOneExactlyWhen`, with a two-cluster input in
  `ClusteredInterval.EmptyClusterInflates`). Clusters that each hold a row never come to that
  (`ClusteredInterval.NoneEmptyIsNotThinned`).
* `grade_with_multiplicity` does not check its last pass. Under its documented assumption, a row count
  that does not depend on z, one regrade settles it (`MultiplicityRuns.ConstantRowsSettle`). Without
  the assumption rows can be published that the family does not pay for
  (`MultiplicityRuns.LastPassCanUndercharge`). The family always covers the rows exactly when the row
  counts a grading can publish are charged at most four ways, a count of zero being charged as one
  (`MultiplicityRuns.CoveredExactlyWhen`).
* Only the database path folds the family floor, so a snapshot cycle can hand family back:
  `MultiplicityRuns.SnapshotCanRefund` shows one that takes the divisor from 500 to 50. No snapshot
  cycle does so exactly when every row count it can publish is charged for at least the family already
  published (`MultiplicityRuns.SnapshotNeverRefundsExactlyWhen`). Under a strictly increasing quantile
  z falls exactly when the divisor does (`MultiplicityRuns.SnapshotRefundsExactlyWhen`).
* A delisted exit charges its cost to the trade but not to the daily series, so the two ledgers differ
  by exactly one side's cost for each such exit (`PairLedgers.LedgersReconcile`). For given gaps in the
  prints they agree at all prices exactly when no bar of the window with both legs is followed by one
  without (`LedgerGaps.LedgersAgreeExactlyWhen`).
* `inject` and `block_matches` agree, and `inject` is idempotent over all texts, exactly for blocks that
  start with BEGIN and whose first END is at their end (`Splice.InjectedMatchesExactlyWhen`,
  `Splice.SplicingIsIdempotentExactlyWhen`); with text after END every run of `inject` adds another copy
  (`Splice.SplicingCanDiverge`).

## What cross-validation cannot tell

The documentation does not speak of rules that all have the same mean over the trimmed rows. Under
`mean_return` the rule that wins in training then comes last in testing, whatever the panel. The
probability of overfitting is one exactly when no training half scores all rules alike
(`CscvTheorems.CertainOverfitExactlyWhen`); for every even number of blocks there is such a panel
(`CscvTheorems.EqualMeansCanLookCertain`). The degradation slope is minus one unless every winner
scored the same in training (`CscvTheorems.EqualMeansDegradeByOne`).

## Model

| member | source | states |
|---|---|---|
| HorizonBlocks.HorizonBlocks | tools/accuracy_registry.py:1192-1224 | the sweep returns the fold: anchors are call days at least hd apart whose windows cover every call day, and each block holds exactly the rows of its window |
| HorizonBlocks.AggregateDays | tools/accuracy_registry.py:1210-1213 | the per-day dict holds, for exactly the days that occur, the total of that day's rows |
| BlockTheorems.PackingNeverExceedsCover | tools/accuracy_registry.py:1201-1207 | no set of call days pairwise hd apart outnumbers any set of length-hd windows that covers the call days |
| BlockTheorems.AnchoringIsOptimal | tools/accuracy_registry.py:1215-1223 | the anchors are a largest packing of the call days and a smallest cover of them |
| BlockTheorems.FoldIsOptimal | tools/accuracy_registry.py:1192-1224 | the number of blocks is both the largest number of call days pairwise hd apart and the fewest windows covering all of them |
| BlockTheorems.FoldIsUnique | tools/accuracy_registry.py:1192-1224 | there is only one fold: anchors and tallies are determined by the rows |
| BlockTheorems.FoldIgnoresOrder | tools/accuracy_registry.py:1211-1216 | shuffling the rows changes nothing |
| BlockTheorems.FoldConserves | tools/accuracy_registry.py:1210-1223 | no observation and no hit is lost or counted twice |
| BlockTheorems.HorizonOneIsIdentity | tools/accuracy_registry.py:1199 | at horizon one every call day is its own block |
| BlockTheorems.SpanBoundsBlocks | tools/accuracy_registry.py:1241-1248 | block_span is at least the number of blocks |
| Readiness.RoundsUpExactly | tools/prereg_readiness.py:7-15 | exactly when adding 0.999 and truncating toward zero equals the documented ceiling, for every ratio |
| Readiness.RatioCanRoundDown | tools/prereg_readiness.py:15 | one bar at ratio 1.0005 is estimated at one day where the ceiling is two |
| Readiness.DefaultRatioRoundsUp | tools/prereg_readiness.py:7-15 | at ratio 7/5 it is the ceiling for every bar count |
| Readiness.NoBlocksBeforeGate | tools/prereg_readiness.py:38-40 | call days starting no earlier than the first and ending before the gate fold into fewer than min_blocks blocks |
| Readiness.GateIsExact | tools/prereg_readiness.py:38-40 | daily calls from the first day reach min_blocks blocks exactly from block_gate_call_day on |
| Readiness.SpanIsDailyBlocks | tools/accuracy_registry.py:1241-1248 | block_span is the number of blocks that calls on every day from the first anchor to the last would fold into |
| Readiness.DefaultDates | tools/prereg_readiness.py:17-45 | at the default ratio the waits are seven calendar days for five bars, rounded up, after the first call and after the gate |
| Readiness.GridNeverUndercounts | tools/prereg_readiness.py:96 | the fixed grid counts at least as many blocks as the sweep unless two call days straddle day zero |
| Readiness.GridIsSafeExactlyWhen | tools/prereg_readiness.py:96 | over all sets of call days out of a range of possible days, it never undercounts exactly when no two possible days straddle day zero |
| Readiness.GridUndercountsExactlyWhen | tools/prereg_readiness.py:96 | for one set of call days it undercounts exactly when two anchors straddle day zero and no call day lies outside the anchors' buckets, and then by one |
| Readiness.GridAtMostDoubles | tools/prereg_readiness.py:96 | and at most twice as many |
| Readiness.GridCanDouble | tools/prereg_readiness.py:96 | for every count g and horizon above one there are call days that fold into g blocks and lie in 2g buckets |
| Readiness.GridUndercountsAroundZero | tools/prereg_readiness.py:96 | days -1 and 1 at horizon two are two blocks and one bucket |
| Wilson.ClampsChangeNothing | tools/accuracy_registry.py:1184-1188 | in exact arithmetic the clamps and the endpoint patches never act |
| Wilson.IntervalIsScoreTest | tools/accuracy_registry.py:1180-1189 | a point q in [0, 1] lies in the interval exactly when n(q-p)^2 <= z^2 q(1-q) |
| Wilson.IntervalContainsEstimate | tools/accuracy_registry.py:1165-1189 | the interval lies in [0, 1] and contains the estimate |
| Wilson.WideningIsMonotone | tools/accuracy_registry.py:286-296 | a larger z or a smaller effective sample gives an enclosing interval |
| Wilson.SideOfThreshold | tools/accuracy_registry.py:1165-1189 | a threshold is outside the interval on one side exactly when the estimate is on the other and the score test rejects |
| Verdict.WideningOnlyLoses | tools/accuracy_registry.py:2708-2729 | widening the interval keeps the verdict or drops it to NO SKILL or WIDE, never the reverse and never across; a judgement it leaves was already there |
| Verdict.FallsExactlyWhenWidened | tools/accuracy_registry.py:2708-2729 | one verdict falls to another exactly when some evidence and a wider interval take it there |
| Verdict.FallsToIsTransitive | tools/accuracy_registry.py:2665-2671 | those moves compose |
| Verdict.NullVerdictIsScoreTest | tools/accuracy_registry.py:2717-2722 | against a null the verdict is the score test at the null moved by the guard |
| Verdict.ClaimVerdictIsScoreTest | tools/accuracy_registry.py:2723-2729 | against a claim: DECAYED when no rate from the line up is compatible, HOLDING when none below it is, WIDE otherwise |
| Verdict.JudgedExactlyWhen | tools/accuracy_registry.py:2673-2730 | a judgement is passed exactly on enough rows, an interval, a fully covered baseline and something to compare with |
| Verdict.RefusalNamesItsCount | tools/accuracy_registry.py:2686-2709 | a refusal for want of an interval quotes the count the row is gated on: blocks, otherwise credible days if those fall short, otherwise days |
| Verdict.ExtremesAreNotInverted | tools/accuracy_registry.py:2711-2722 | a perfect record never FAILS and a hitless one is never VALIDATED |
| ClusteredInterval.DesignEffectBounds | tools/accuracy_registry.py:1143-1162 | for k >= 2 clusters, empty ones included, the design effect is at most k/(k-1) times the largest cluster, and at least 1 exactly when some rows hit and some miss or rows are no fewer than clusters |
| ClusteredInterval.PenaltyAtLeastOneExactlyWhen | tools/accuracy_registry.py:1139-1162 | the same lower bound for the formula alone |
| ClusteredInterval.NoneEmptyIsNotThinned | tools/accuracy_registry.py:1143-1162 | clusters that each hold a row always meet the condition under which the design effect is at least 1 |
| ClusteredInterval.EmptyClusterInflates | tools/accuracy_registry.py:1155-1156 | one row in two clusters gives one half |
| ClusteredInterval.EffectiveSampleBounds | tools/accuracy_registry.py:1317-1325 | the effective sample is at least n(k-1)/(k m) in every branch, and at most n under the same exact condition |
| ClusteredInterval.DesignEffectBoundIsTight | tools/accuracy_registry.py:1150-1162 | two opposed clusters of size m attain the bound |
| ClusteredInterval.DesignEffectPositive | tools/accuracy_registry.py:1143-1162 | a measured design effect is positive, so n / deff is defined |
| DesignEffectLaws.DesignEffectInCounts | tools/accuracy_registry.py:1139-1162 | the measured design effect with every quotient cleared: k times the sum of (hits N - n H)^2 against (k - 1) times the binomial H (N - H) N, in terms of the clusters' counts |
| DesignEffectLaws.UnanimousClustersInflateMost | tools/accuracy_registry.py:1139-1162 | any k clusters of one size m, each of them unanimous and not all alike, attain k m / (k - 1) |
| Admission.SortedSorts | tools/accuracy_registry.py:1306 | the order behind the median is an ascending permutation |
| Admission.HalfReachTheMedian | tools/accuracy_registry.py:1306-1307 | at least half of any sample reaches a floor no higher than its median |
| Admission.AdmissionKeepsHalf | tools/accuracy_registry.py:1305-1308 | at least half of the clusters are always credible |
| Admission.EnoughClustersAreAdmitted | tools/accuracy_registry.py:1305-1316 | a non-empty sample of 2 min_clusters - 1 clusters is never refused for credibility |
| Admission.PublishedExactlyWhen | tools/accuracy_registry.py:1278-1327 | an interval is published exactly when there are rows, enough credible clusters and at least two clusters |
| Admission.PublishedIntervalIsHonest | tools/accuracy_registry.py:1301-1327 | a published interval contains the accuracy over every cluster; under that condition, and so whenever no cluster is empty, it encloses the interval of the raw row count |
| GradeLaws.PublishedIsScoreTest | tools/accuracy_registry.py:1278-1327 | of a published grade: the accuracy is hits over rows, the effective sample is the rows over the design effect that the counts give, and a proportion q in [0, 1] is in the interval exactly when n_eff (q - p)^2 <= z^2 q (1 - q) |
| GradeLaws.GradeVerdictIsScoreTest | tools/accuracy_registry.py:2711-2722 | against a null such a grade is VALIDATED exactly when its accuracy is above the guarded null and that null is not compatible with it, FAILED exactly when the same holds below, otherwise NO SKILL |
| GradeLaws.LargerZOnlyLoses | tools/accuracy_registry.py:286-296 | grading the same clusters at a larger z keeps or loses their verdict |
| GradeLaws.CredibleExactlyWhen | tools/accuracy_registry.py:1305-1308 | the credible clusters are those that hold at least a tenth of the median cluster's rows |
| GradeLaws.OutcomeSaysWhy | tools/accuracy_registry.py:1278-1327 | rows, hits and clusters are always told, and what came of the interval: no rows, or how many clusters are credible and whether they are too few, not measurable or published |
| GradeLaws.DayRefusalIsHonest | tools/accuracy_registry.py:2695-2708 | a day-clustered grade with rows and no interval is refused for its credible days, and the count it quotes does fall short |
| Prequential.ClusteredCiBlocks | tools/accuracy_registry.py:1227-1250 | the grade is clustered_ci of the fold; totals survive, blocks number at most the days and at most the span; a published interval is the score test at the blocks' own accuracy, design effect and effective sample |
| Prequential.PrequentialNull | tools/accuracy_registry.py:1343-1369 | the loop grades exactly the walk-forward guesses, folding them leaves the null's accuracy unchanged, and a published interval is the score test at the blocks' design effect |
| Prequential.NullNeverBeatsHindsight | tools/accuracy_registry.py:1346-1352 | the null's hits never exceed the better of always-up and always-down in hindsight |
| Prequential.NullIsCausal | tools/accuracy_registry.py:1348-1350 | the guess for a day depends on the days before it only |
| Prequential.NullIsSymmetric | tools/accuracy_registry.py:1343-1369 | exchanging ups and downs exchanges the guesses, so the null scores the same |
| Prequential.NullScores | tools/accuracy_registry.py:1355-1362 | with nothing seen or a tie it scores exactly half of the day, after more ups than downs the day's ups |
| Multiplicity.ZGrowsWithDivisor | tools/accuracy_registry.py:286-296 | z grows with the divisor and never falls below the uncorrected z |
| Multiplicity.FloorIsImplied | tools/accuracy_registry.py:289-295 | for a divisor of at least one the floor under z is redundant |
| Multiplicity.PriceGrows | tools/accuracy_registry.py:286-320 | a larger family and more looks never give a smaller divisor or z |
| Multiplicity.AlphaIsShared | tools/accuracy_registry.py:286-320 | rows times looks share out MAX_ALPHA evenly, and z is the larger of the quantiles at the whole and at one share |
| Multiplicity.Grader.constructor | tools/accuracy_registry.py:262-279 | a fresh process: floor one and the uncorrected price |
| Multiplicity.Grader.SetFamilyFloor | tools/accuracy_registry.py:299-303 | the floor becomes the largest of itself, one and the argument; nothing else changes |
| Multiplicity.Grader.SetMultiplicity | tools/accuracy_registry.py:306-320 | the price in force is that of the family, folded with the floor, and the looks |
| Multiplicity.Grader.GradeWithMultiplicity | tools/accuracy_registry.py:343-365 | rows, stamps and the price in force are those of grading to the fixed point with at most three checked regrades |
| Multiplicity.Grader.DatabaseCycle | tools/accuracy_registry.py:2824-2832 | one database cycle: floor and looks folded from chain and last registry before any interval exists |
| Multiplicity.Grader.SnapshotCycle | tools/accuracy_registry.py:2751-2763 | one snapshot cycle: looks folded from the pinned protocol and the last registry, the floor left as it is |
| Multiplicity.ChainLooks | tools/accuracy_registry.py:368-390 | the loop returns the fold over the records, unreadable counters skipped |
| Multiplicity.ChainFamilies | tools/accuracy_registry.py:393-413 | the same for the families, from zero |
| Multiplicity.ChainLooksIsMax | tools/accuracy_registry.py:371-377 | that fold is the maximum of the record count and every readable counter |
| Multiplicity.ChainFamiliesIsMax | tools/accuracy_registry.py:396-401 | that fold is the maximum of zero and every readable family |
| MultiplicityRuns.PublishedAtItsOwnPrice | tools/accuracy_registry.py:343-365 | whatever path it takes, exactly the rows graded at the z stamped on them are published, at a family no smaller than the floor |
| MultiplicityRuns.CheckedRunsAreCovered | tools/accuracy_registry.py:355-360 | on every early return the stamped family covers the rows returned |
| MultiplicityRuns.ConstantRowsSettle | tools/accuracy_registry.py:346-351 | a row count that does not depend on z is settled by one regrade |
| MultiplicityRuns.ShrinkingRowsSettle | tools/accuracy_registry.py:346-360 | so is, from a fresh process, one that only shrinks as z grows |
| MultiplicityRuns.CoveredExactlyWhen | tools/accuracy_registry.py:343-365 | for every strictly increasing quantile: over all graders that publish one of the given row counts, all looks, floors and starting z, the family always covers the rows exactly when those counts are charged at most four ways |
| MultiplicityRuns.FourChargesAreCovered | tools/accuracy_registry.py:353-365 | at most four charges are always covered, for any quantile at all |
| MultiplicityRuns.FiveChargesCanUndercharge | tools/accuracy_registry.py:353-365 | any five different charges can be undercharged, from a fresh process at two looks |
| MultiplicityRuns.UncoveredExactlyWhen | tools/accuracy_registry.py:353-365 | rows outnumber their family exactly when the count grew on all three checked passes and outgrew the price on the last |
| MultiplicityRuns.LastPassCanUndercharge | tools/accuracy_registry.py:361-365 | a grader that publishes five rows at a family of four |
| MultiplicityRuns.DatabaseCycleNeverRefunds | tools/accuracy_registry.py:2824-2832 | a database cycle prices no lower than the registry it read, whatever the chain now holds |
| MultiplicityRuns.RunNeverRefunds | tools/accuracy_registry.py:368-433 | over any run in which only database cycles publish, published looks, family, divisor and z never decrease |
| MultiplicityRuns.VerdictsOnlyFall | tools/accuracy_registry.py:2665-2671 | over such a run the verdict on unchanged evidence is kept or lost, never gained or reversed |
| MultiplicityRuns.GradesOnlyFall | tools/accuracy_registry.py:2665-2671 | the same of the clusters themselves, graded at the published z |
| MultiplicityRuns.SnapshotNeverRefundsExactlyWhen | tools/accuracy_registry.py:2751-2763 | over all snapshot cycles that publish one of the given row counts, none hands family back exactly when each of those counts is charged for at least the family already published |
| MultiplicityRuns.SnapshotRefundsExactlyWhen | tools/accuracy_registry.py:2751-2763 | one snapshot cycle keeps the looks; it hands family back exactly when every pass up to the one it charges published fewer rows than were charged; a lower divisor only comes from that, and under a strictly increasing quantile z falls exactly when the divisor does |
| MultiplicityRuns.SnapshotCanRefund | tools/accuracy_registry.py:2751-2763 | ten rows after a family of a hundred: the divisor falls from 500 to 50 and z with it |
| MultiplicityRuns.RunCycle | tools/accuracy_registry.py:2751-2832 | a cycle run from fresh module state publishes the price that the theorems about runs speak of, and rows stamped with it |
| MultiplicityRuns.CyclePricesTheMost | tools/accuracy_registry.py:2751-2832 | a cycle prices the most looks that any of its sources reports, and the largest family that any of them reports or a number of rows; only the database path reads a family |
| PathSums.CountsEveryPath | research/volregime.py:33-78 | the brute-force sum has K^n terms |
| PathSums.MeetsEachPathOnce | research/volregime.py:33-78 | it meets every path once, and nothing that is not a path |
| HmmChain.ForwardIsPathSum | research/volregime.py:43-53 | the forward recursion is the sum of the joint weights of all paths that end in the state |
| HmmChain.BackwardIsPathSum | research/volregime.py:54-59 | the backward recursion is the sum over all continuations |
| HmmChain.TotalIsForward | research/volregime.py:70 | the final forward variables add up to the total weight of all paths |
| ScaledChain.HatIsForward | research/volregime.py:43-53 | the scaled forward variable times the product of the scale factors is the unscaled one |
| ScaledChain.LikelihoodIsPathSum | research/volregime.py:70 | the product of the scale factors is the total weight of all K^N paths |
| ScaledChain.FilteredIsPosterior | research/volregime.py:71-77 | filtered is the posterior of the state given x[0..t] |
| ScaledChain.FilteredSumsToOne | research/volregime.py:71-77 | and sums to one |
| ScaledChain.FilteredIsCausal | research/volregime.py:71-77 | chains that agree up to t have the same filtered variables at t |
| ScaledChain.BetaIsBackward | research/volregime.py:54-59 | the scaled backward variable is the backward sum over a known product of factors |
| ScaledChain.GammaIsPosterior | research/volregime.py:60-64 | gamma is the posterior of the state given the whole series |
| ScaledChain.GammaSumsToOne | research/volregime.py:60-64 | and sums to one |
| Transitions.XiIsPosterior | research/volregime.py:65-69 | each step's xi is the whole-series posterior of the transition |
| Transitions.XiRowsAreGamma | research/volregime.py:60-69 | each step's xi row sums to that step's gamma |
| Transitions.TransitionsAreVisits | research/volregime.py:65-69 | accumulated xi rows are the expected visits before the last step |
| Transitions.TransitionsTotal | research/volregime.py:65-69 | the accumulated xi totals N - 1 |
| Transitions.NewRowsAreStochastic | research/volregime.py:113-114 | re-estimated transition rows are positive and sum to one |
| Transitions.NewStepIsExpectedRate | research/volregime.py:113-114 | a new transition probability is the share of the smoothed expected transitions in the smoothed expected visits |
| VolRegime.LabelNeverSeesTheFuture | research/volregime.py:121-142 | the label at i is unchanged by any change to x[i+1..] |
| VolRegime.LabelMaximisesPosterior | research/volregime.py:141-142 | the label is a state of greatest path-sum posterior given x[0..i] |
| VolRegime.SmoothedLabelsSeeTheFuture | research/volregime.py:124-136 | labels from gamma can change with a later observation |
| ModelWeights.ChainWeighsTheModel | research/volregime.py:33-78 | the recursions weigh every path as the model does: start probability, times transition probabilities from row to column, times densities at each state's mean and variance |
| ModelWeights.LikelihoodOfModel | research/volregime.py:70 | the likelihood is the total of those weights |
| ModelWeights.FilteredOfModel | research/volregime.py:71-77 | filtered[t][s] is the share of the paths over x[0..t] that end in s |
| ModelWeights.GammaOfModel | research/volregime.py:60-64 | gamma[t][s] is the share of the paths over the whole series that are in s at bar t |
| ModelWeights.XiOfModel | research/volregime.py:65-69 | xi[i][j] is the share of the paths that step from i to j, added up over the bars |
| ModelWeights.LabelIsHeaviest | research/volregime.py:141-142 | the label at i is the first state whose paths over x[0..i] weigh most |
| ModelLaws.UninformedFilterFollowsTheChain | research/volregime.py:43-53 | when the first two observations are equally likely in every state, filtered[1][s] is the sum over i of pi[i] a[i][s] |
| BaumWelch.ForwardPass | research/volregime.py:43-53 | the arrays hold the scaled forward variables and scale factors at every step |
| BaumWelch.BackwardPass | research/volregime.py:54-59 | the array holds the scaled backward variables |
| BaumWelch.GammaPass | research/volregime.py:60-64 | the array holds gamma |
| BaumWelch.XiPass | research/volregime.py:65-69 | the matrix accumulates every step's xi |
| BaumWelch.ForwardBackward | research/volregime.py:33-78 | all four results, and for every positive model the likelihood is the total weight of the model's paths, and filtered, gamma and xi are the shares of the paths that end in a state, pass through it and take a transition |
| BaumWelch.HmmLabelPath | research/volregime.py:121-142 | every label is the filtered one: for every positive model the first state whose paths over the series so far weigh most |
| BaumWelch.EmStepIsValid | research/volregime.py:103-114 | one re-estimation leaves a valid model whose transition rows and start sum to one |
| BaumWelch.EmKeepsValid | research/volregime.py:103-117 | so does any number of them |
| BaumWelch.EmIteration | research/volregime.py:103-114 | the in-place updates compute exactly that re-estimation |
| EmLaws.StartIsExpected | research/volregime.py:103-105 | the new start is the share of the paths that start in the state |
| EmLaws.TransitionIsExpected | research/volregime.py:113-114 | the new probability of i to j is the weight of the paths that step from i to j over the weight of being in i before the last bar, both smoothed |
| EmLaws.MomentsAreExpected | research/volregime.py:106-112 | for a visited state the weighted observations balance at the new mean, and the new variance, less the floor, is their weighted mean squared distance from it |
| EmLaws.UnvisitedKeeps | research/volregime.py:107-109 | a state whose weight is below the limit keeps its mean and variance |
| EmLaws.NewMeanIsClosest | research/volregime.py:110 | no other centre is closer to the state's observations |
| FitHmm.FitHmm | research/volregime.py:88-118 | short series are refused; otherwise the result is the re-estimation iterated from the quantile start, up to the first iteration whose log-likelihood is within tol of the one before or to n_iter, and a valid model with rows that sum to one |
| FitHmm.StartIsValid | research/volregime.py:94-101 | the start is a valid model with positive variances, whose transition rows and start sum to one, for every series and every jitter |
| FitHmm.HalfQuantileIsMedian | research/volregime.py:95 | the interpolated quantile at one half is the registry's median |
| FitHmm.QuantileInterpolates | research/volregime.py:95 | from one order statistic to the next the quantile grows in proportion to the level |
| FitHmm.LevelsAreEven | research/volregime.py:95 | the levels of the starting means are evenly spaced and symmetric |
| FitHmm.StartReadsTheSeries | research/volregime.py:94-101 | the i-th of k starting means, less its jitter, is the order statistic 2i + 1 parts in 2k of the way, where there is one; each variance, less the floor, is the mean squared distance from the mean; the start is uniform |
| FitHmm.JitterMovesTheMeans | research/volregime.py:96 | the jitter moves every mean by itself and nothing else |
| FitHmm.StartStays | research/volregime.py:98-100 | a state starts out staying with probability 0.9 and moves to all others equally often |
| FitHmm.VarianceIsLeast | research/volregime.py:97 | the starting variance is the mean squared distance from the mean, and no centre has a smaller one |
| FitHmm.LikelihoodIsTotal | research/volregime.py:103-118 | the likelihood compared from one iteration to the next is the total weight of the paths under those parameters |
| VolTercile.VolTercileLabels | research/volregime.py:151-178 | every bar gets its tercile label, none before a full look-back |
| VolTercile.LabelIsARank | research/volregime.py:169-177 | low means at most a third of the look-back is calmer, high that more than two thirds are no wilder |
| VolTercile.LabelIsCausalAndLocal | research/volregime.py:151-178 | the label depends on the closes of its own look-back and nothing else |
| VolTercile.LabelIgnoresTheUnit | research/volregime.py:151-178 | rescaling all prices moves no label |
| VolTercile.SteadyMovesHaveTheirSize | research/volregime.py:151-162 | when every bar of the window moves by r, up or down, the realised volatility is r |
| TradePair.TradePair | tools/pairs_trading.py:440-498 | the bar loop computes the book of the state machine: daily series and trades |
| PairLedgers.OpenAlways | tools/pairs_trading.py:458-496 | on every reachable book an open position was entered on a signal, has met no exit since, and carries the spread's move less the entry cost |
| PairLedgers.PrevOkWhileHolding | tools/pairs_trading.py:460-472 | whenever the machine holds a position, both legs printed on the bar before, inside the window |
| PairLedgers.TestNeverSkips | tools/pairs_trading.py:472-477 | the machine without the prev_ok test computes the same book on every path, so no return is skipped |
| PairLedgers.OpenKept | tools/pairs_trading.py:458-496 | one bar keeps that invariant |
| PairLedgers.EndsFlat | tools/pairs_trading.py:484-492 | the book ends flat on every path |
| PairLedgers.EveryTradeFollowsTheRules | tools/pairs_trading.py:453-498 | in terms of the spread the position is paid on: every trade is entered when the spread lies at least ENTRY_Z and less than STOP_Z deviations from alpha + mu, against it, held at least one bar to its first exit, closed for the stated reason and paid the spread's move less a round trip; trades never overlap |
| PairLedgers.SignalsAreSpread | tools/pairs_trading.py:479-494 | entry, stop and revert conditions on z are those conditions on the spread |
| SpreadLaws.BookSeesOnlyTheSpread | tools/pairs_trading.py:453-498 | markets with the same gaps and the same spread have the same book |
| SpreadLaws.HedgedMovesAreInvisible | tools/pairs_trading.py:453-498 | adding d to the second leg and beta d to the first, bar by bar, changes no trade and no return |
| PairLedgers.EveryBarIsAccountedFor | tools/pairs_trading.py:458-498 | a trade's bars hold exactly what it booked; a bar outside every trade booked nothing and gave no entry |
| PairLedgers.LedgersReconcile | tools/pairs_trading.py:463-498 | the daily series totals the trades' returns plus one exit cost per delisted exit |
| LedgerGaps.LedgersAgreeExactlyWhen | tools/pairs_trading.py:463-498 | for given gaps and a non-zero cost the two ledgers agree at all prices exactly when no bar of the window with both legs printed is followed by one without |
| LedgerGaps.DelistedWhereCutOff | tools/pairs_trading.py:463-468 | a delisted exit is taken only where such a bar is |
| PairLedgers.Portfolio | tools/pairs_trading.py:587-591 | every entry of the arm's series is the mean of its pairs' entries on that bar, and its total the mean of their totals |
| PairLedgers.ArmReconciles | tools/pairs_trading.py:587-597 | both ledgers agree over a whole arm |
| Ranks.ArgSortSorts | research/xsvalue.py:205 | the sort of the indices is stable and visits each once |
| Ranks.RankCrossSectional | research/xsvalue.py:199-216 | the run-grouping loop gives every value (smaller + (equal-1)/2)/(n-1) - 1/2, zeros for one value or none |
| Ranks.RunCounts | research/xsdirection.py:218-226 | a run of the sorted order counts the smaller values before it and the equal ones in it |
| Ranks.Rank | tools/pairs_trading.py:207-217 | arange through the order, then group means, gives the same ranks unscaled |
| Ranks.PlaceInOrder | tools/pairs_trading.py:208-210 | an index's place is the number of smaller values plus the equal ones before it |
| RankLaws.RankRange | research/xsdirection.py:206-210 | ranks lie in [0, n-1], scaled in [-1/2, 1/2] |
| RankLaws.LargerRanksHigher | research/xsdirection.py:206-210 | a larger value ranks at least one position higher |
| RankLaws.RanksAreTheOrder | research/xsvalue.py:199-216 | two series have the same ranks exactly when they order their entries the same way |
| RankLaws.RanksIgnoreIncreasingMaps | research/xsvalue.py:199-216 | no strictly increasing map moves a rank |
| RankLaws.RanksFollowPermutations | research/xsvalue.py:199-216 | shuffling a series shuffles its ranks with it |
| RankLaws.NegationFlips | research/xsvalue.py:199-216 | negating a series flips every scaled rank |
| RankLaws.MidRanksSum | tools/pairs_trading.py:207-217 | whatever the ties, ranks total n(n-1)/2 |
| RankLaws.CrossRanksSumToZero | research/xsvalue.py:199-216 | scaled ranks total zero |
| Spearman.CauchySchwarz | research/xsvalue.py:359-362 | the squared numerator never exceeds the product under the root |
| Spearman.CorrelationInRange | research/xsvalue.py:351-362 | both correlations lie in [-1, 1] whenever defined |
| Spearman.DefinedExactlyWhen | research/xsvalue.py:353-361 | defined exactly for two or more points with some spread in both series |
| Spearman.CorrelationSeesOrderOnly | research/xsvalue.py:351-362 | no change that keeps the order of either series moves it |
| Spearman.PerfectExactlyWhen | research/xsvalue.py:351-362 | it is one exactly when both series order the points the same way |
| Spearman.CorrelationIsRatio | research/xsvalue.py:351-362 | it has the sign of the ranks' inner product, and its square is that product's square over the product of the two spreads |
| Spearman.CorrelationIsDistance | research/xsvalue.py:351-362 | for ranks that spread alike it is one less half their squared distance per unit of spread |
| Spearman.ReversalFlips | research/xsvalue.py:351-362 | reversing one series flips its sign |
| Spearman.VersionsAgree | tools/pairs_trading.py:195-204 | on three or more points the two versions agree |
| Combinations.CombosAreTheSubsets | tools/pbo_ledger.py:125 | the enumeration lists every ascending m-tuple once and nothing else |
| Combinations.CombosMirror | tools/pbo_ledger.py:125 | read backwards, it is the list of complements |
| Combinations.BlocksTrainInHalf | tools/pbo_ledger.py:125-142 | every block trains in exactly half of the splits |
| Cscv.Cscv | tools/pbo_ledger.py:101-176 | argument errors in the source's order, otherwise the report of judging every split with one mask overwritten in place: probability of overfitting, degradation line and probability of loss over all splits |
| CscvReport.ReportSaysWhatHappened | tools/pbo_ledger.py:135-176 | for any statistic: every split tells the first best rule in training, its scores, its mid-rank in testing and its mean return over the rows not trained on; pbo is the share of splits whose winner is beaten by more rules than it beats, prob_loss the share whose mean return is negative |
| CscvReport.LogitIsOfOdds | tools/pbo_ledger.py:149-151 | a split's logit is the logarithm of its rank's odds, whatever the logarithm |
| CscvReport.OldestRowsAreTrimmed | tools/pbo_ledger.py:120-123 | what is trimmed is the oldest rows, fewer than there are blocks; the rest divides evenly |
| CscvReport.SidesOfASplit | tools/pbo_ledger.py:138-142 | training rows are the rows of the combination's blocks, testing rows all others, in time order |
| CscvReport.ReturnsAreShared | tools/pbo_ledger.py:154-156 | the split's return and the winner's mean over the training rows add up to twice its mean over the trimmed rows, whatever the statistic |
| CscvReport.MeanReturnScoresReturns | tools/pbo_ledger.py:153-156 | under mean_return the out-of-sample score is that return |
| CscvReport.ReportFitsBest | tools/pbo_ledger.py:157-161 | the degradation line is a best line through the splits' training and testing scores |
| Cscv.SetMask | tools/pbo_ledger.py:138-139 | the mask holds exactly the combination, whatever it held before |
| Cscv.RelativeRank | tools/pbo_ledger.py:146-149 | the relative rank is strictly inside (0, 1) |
| Cscv.ArgMax | tools/pbo_ledger.py:144 | the first of the largest scores |
| CscvTheorems.HalvesAreEqual | tools/pbo_ledger.py:121-142 | train and test hold the same number of rows |
| CscvTheorems.MeansAreShared | tools/pbo_ledger.py:59-61 | in every split a rule's two mean returns add up to twice its mean over the trimmed rows |
| CscvTheorems.SplitsTradePlaces | tools/pbo_ledger.py:135-142 | the i-th split from the front and the i-th from the back exchange training and test rows |
| CscvTheorems.LogitSign | tools/pbo_ledger.py:149-151 | the logit is negative exactly below one half |
| CscvTheorems.RelativeRankAgainstHalf | tools/pbo_ledger.py:146-149 | below one half exactly when more rules beat the winner out of sample than it beats |
| CscvTheorems.EqualMeansLookOverfit | tools/pbo_ledger.py:135-152 | when all rules share one mean, the winner's logit is never positive, and negative exactly when training told rules apart |
| CscvTheorems.CertainOverfitExactlyWhen | tools/pbo_ledger.py:125-164 | for such rules the probability of overfitting is one exactly when every training half scores some rules differently |
| CscvTheorems.EqualMeansCanLookCertain | tools/pbo_ledger.py:125-164 | for every even number of blocks, rules that each earn once, in turn, have the same mean and a probability of overfitting of one |
| CscvTheorems.EqualMeansDegradeByOne | tools/pbo_ledger.py:157-161 | for such rules the degradation line falls by exactly one from twice the mean, and is flat when every winner scored the same in training |
| Degradation.TradeOffIsFitted | tools/pbo_ledger.py:157-161 | a least-squares line through scores that trade off one for one has slope minus one and their sum as intercept |
| Degradation.DegradationIsBest | tools/pbo_ledger.py:157-161 | no line has a smaller squared error than the degradation line, flat or not |
| Mirrors.DropMirrors | tools/pbo_ledger.py:182-198 | no mirror pair is kept, every dropped rule's mirror is kept before it, and the list of dropped rules is exact |
| Mirrors.MirrorsNegate | tools/pbo_ledger.py:193-196 | an exact negation is always a mirror; a rule mirrors itself only if it is as good as zero throughout |
| Anchoring.AnchorableExactlyWhen | tools/docs_gate.py:432-446 | a name may be claimed exactly when it is declared, with or without its suffix |
| Anchoring.NormKeeps | tools/docs_gate.py:471-477 | normalising keeps every line with anything on it and adds none |
| Anchoring.EarnedMeansPublished | tools/docs_gate.py:449-480 | every non-blank line of an exempt region stands in the partial it names |
| AnchorLaws.EarnedExactlyWhen | tools/docs_gate.py:449-480 | a region is exempt exactly when its name is declared and it is its partial line for line up to trailing blanks, once blank lines at both ends of both and marker lines at the partial's ends are dropped |
| AnchorLaws.RefusedExactlyWhen | tools/docs_gate.py:466-470 | it is refused for its name exactly when that is not declared, and for want of a partial exactly when it is declared and has no file |
| AnchorLaws.InjectedIsEarned | tools/docs_gate.py:449-480 | a freshly injected partial is always exempt |
| AnchorLaws.RStripSplits | tools/docs_gate.py:471-472 | stripping a line drops exactly its trailing blanks |
| RegionScanner.CheckDocument | tools/docs_gate.py:492-588 | both passes compute the exempt regions and the findings of the specification, in order |
| RegionScanner.ExemptRegionsAreSound | tools/docs_gate.py:498-568 | exempt regions are disjoint and increasing, with matching markers, no BEGIN and no END of their kind in between, and the contents of a declared partial |
| RegionScanner.BeginsAreConserved | tools/docs_gate.py:502-568 | every BEGIN marker opens an exempt region or is paid for by a finding, two by a nesting |
| RegionScanner.MarkersPassExactlyWhen | tools/docs_gate.py:502-568 | no marker finding exactly when every BEGIN marker starts a proper region |
| RegionLaws.ExemptRegionsAreGenuine | tools/docs_gate.py:502-568 | every exempt region lies between matching markers with nothing opening in between, holds its partial line for line, and comes after the one before it |
| RegionLaws.MarkersPassWhenGenuine | tools/docs_gate.py:502-568 | no marker finding exactly when every BEGIN starts such a region |
| RegionLaws.GenuineIsExempt | tools/docs_gate.py:502-568 | and then every one of those regions is exempt |
| RegionLaws.InjectedIsGenuine | tools/docs_gate.py:449-568 | a freshly injected partial between its markers is such a region |
| RegionScanner.ReportedExactlyOnce | tools/docs_gate.py:570-588 | a flagged line is reported exactly once outside the exempt regions and never inside |
| RegionScanner.UnreportedMeansPublished | tools/docs_gate.py:494-588 | a non-blank flagged line goes unreported only as a marker line or as a line of a declared partial |
| Splice.Document.Inject | tools/live_accuracy.py:558-567 | the text between the pair is replaced; without a pair nothing is written and the result is false |
| Splice.Document.BlockMatches | tools/live_accuracy.py:570-575 | the answer is whether the pair's text is the block |
| Splice.Find | tools/live_accuracy.py:550-551 | the first match from a position on, or none at all |
| Splice.RStripNewlinesSplits | tools/live_accuracy.py:562-566 | the block loses its trailing newlines and nothing else |
| Splice.PairIsWellFormed | tools/live_accuracy.py:548-555 | the text a pair spans starts with its begin marker and has its first end marker at its end |
| Splice.InjectedMatchesExactlyWhen | tools/live_accuracy.py:558-575 | after a splice the check passes exactly for well-formed blocks |
| Splice.InjectingMatchesIsNoChange | tools/live_accuracy.py:558-575 | the check passes exactly when there is a pair and injecting would change nothing |
| Splice.SplicingIsIdempotentExactlyWhen | tools/live_accuracy.py:562-566 | splicing a block twice is splicing it once, over all texts, exactly for well-formed blocks |
| Splice.SpliceSettlesExactlyWhen | tools/live_accuracy.py:562-566 | on one text, exactly when there was no pair, the splice left none, or the block is well-formed |
| Splice.OutsideIsKept | tools/live_accuracy.py:566 | text outside the old pair is kept character for character |
| Splice.SplicingCanDiverge | tools/live_accuracy.py:563-566 | a block with text after its END adds another copy on every splice |

## Left out

- Wilson.ClampsChangeNothing: exact reals; rounding, which the clamps and `VERDICT_EPS` guard against, is not modelled, and `VERDICT_EPS` is only a positive constant.
- HmmChain.ForwardIsPathSum: the source works in log space with log-sum-exp; the recursions are modelled on the weights themselves, with positive emissions, transitions and start.
- FitHmm.FitHmm: the random jitter of the initial means is an argument, the log-likelihood is any function of the likelihood, and nothing is claimed about convergence or about the likelihood growing.
- BaumWelch.ForwardPass: rows of the two-dimensional arrays are sequences inside a one-dimensional array, and `mu` and `var` are rebuilt as sequences, so writing single cells in place and aliasing between rows are not captured.
- VolTercile.VolTercileLabels: not-a-number entries of `rv` are `None`.
- Multiplicity.ChainLooks: SQLite reads become a list of records; a record that is JSON but not an object, on which the source stops with an error, is not modelled.
- Multiplicity.Grader.DatabaseCycle: the registry path and its JSON parsing become an optional last price; a different path per cycle is not modelled.
- MultiplicityRuns.RunNeverRefunds: needs the last published registry to survive between cycles, as the folds in the source do.
- Prequential.ClusteredCiBlocks: the missing horizon, which the source reads as one, is passed as zero or one; the text of withholding reasons is reduced to a tag.
- TradePair.TradePair: prices are optional reals, not-a-number and infinities being `None`; pair selection, the entry-day stamp and the grouping by quarter are not modelled.
- Ranks.RankCrossSectional: not-a-number values are not modelled, and `argsort` is a stable insertion of indices.
- Ranks.Rank: the groups of `np.unique` are kept in maps from value to count and to total instead of parallel arrays.
- Spearman.CorrelationInRange: the correlations are functions over the rank specifications that the two ranking methods are proved equal to.
- Cscv.Cscv: results are appended to one sequence of records instead of six preallocated arrays; `sharpe` and `wilson_stat` are any statistic that scores every rule.
- Mirrors.DropMirrors: the kept rules are a mask and the dropped ones indices.
- RegionScanner.CheckDocument: one document at a time; the marker patterns and the test for a live-accuracy figure are arbitrary functions of a line, so the scrubbing of confidence percentages is not modelled.
- Anchoring.EarnedMeansPublished: file reading and newline translation are not modelled; the lines of every partial are an input.
- Splice.Document.Inject: the file is a text field; reading, writing and the printed message are not modelled.
- SQL, SQLite, JSON, git, network and command-line handling, and all printing and rendering.
- Monte Carlo and optimisation: `block_bootstrap`, placebo draws, logistic regression, ADF and OLS, walk-forward training.
- Threshold and status checks without an interplay of their own: `check_revalidation`, `publication_gate`, `build_manifest`, `grader_heartbeat`, `deployment_drift`, and the other documentation checks.
- `tools/live_accuracy.py` `scan` and the historical-marker exemptions: a line filter over literals with only easy members.
- Turnover in `research/xsvalue.py`, which compares positions within a day and supports no claim about symbols.
- Hashing, signatures and timestamps, and the web and Go code.
