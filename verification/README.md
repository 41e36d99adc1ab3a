# Fidelity and resilience: a verified model

This project models the parts of the repository whose results everything else relies on, and proves what those
parts promise.

* **Fidelity mathematics** (`scripts/fidelity/`): the coarse KL divergence of a scored position, its vectorised
  form, mixtures of repeated executions, weighted percentiles under resampling, group bootstrap sums, the row
  alignment of run pairs, and the product-limit survival curve.
* **Resilience runtime** (`scripts/resilience/`): the cross-process byte quota, the counted fault plan, the rotating
  event log and its cursors, the observed memory budget, artifact mutations and their restore, and the verdict of
  the compound cancel-during-restore case.
* **Ragged decode packing** (`scripts/node/sparse_attn_indexer_kpool_sm121.py`): the index arithmetic that lays
  requests of different lengths out in a padded grid and reads them back.

## Conventions

* Numbers that the source computes in floating point are exact reals. `exp` and `ln` are two functions of a value
  `Math` that the theorems require to obey their laws (`RealMath.Lawful`); nothing is assumed globally.
* A logprob is `NegInf` or `Fin(v)`; a raw row entry may also be `NaN`.
* File system outcomes, clocks, other processes and failing calls are parameters or steps, so a statement over all
  of them is a statement over every environment. Interleavings are sequences of atomic steps.
* Loops and objects of the source are methods and classes here; each is proved equal to a function (or to a run of
  the step system), and the promises are proved about that function.

## What the proofs found

The model keeps the code as it is. Where a documented promise does not hold of it, a lemma exhibits an input and
another one says when it does hold.

* *A larger K never lowers the coarse KL* (note at `scripts/fidelity/analyze.py:394-395`) holds when both known masses are
  at most one and no dropped token, nor then the rest, has a candidate zero under positive reference mass, provided a
  repeated id carries one score and the actual token's scores are its entries: `KlRefinement.RefinementInK`. The converse
  is proved case by case, for any two rows of ids, any prefixes and any actual token, over all scores:
  * masses that leave the candidate a rest and the reference none too many: it holds iff no dropped token is a candidate zero
    (`KlRefinementExact.RefinementIsExact`);
  * a candidate mass of exactly one beside a smaller reference mass, or one that is clamped: iff nothing is dropped
    (`KlRefinementRest.RestRefinementIsExact`, `KlRefinementRest.ClampedRefinementIsExact`);
  * a reference mass that is clamped beside a candidate mass that is not: iff nothing is dropped or nothing is kept
    (`KlRefinementClamped.ReferenceRefinementIsExact`).

  Concrete rows are in `KlRefinement.RefinementFailsWhenFloored` and `KlRefinement.RefinementFailsWhenClamped`.
* *The numpy path agrees with the stdlib path* (`scripts/fidelity/metrics.py:3-5`) fails for a row that repeats an
  id of the other row. For two rows of ids the paths agree on all scores exactly when no shared id repeats:
  `NumpyRepeats.PathsAgreeExactly`; then they agree with any actual token too: `NumpyKl.PathsAgree`.
* *The namespace stays within its cap* fails in four ways. Each has an exact condition, "iff" over all that may follow,
  and a run; runs that keep to all four are safe (`Quota.QuotaSafety`).
  * The `missing` mutation renames an artifact into the control directory, where a process that still has it open writes
    without any guard. Safe iff nobody has it open for writing (`QuotaBackups.RenameIsExact`); otherwise it reaches any
    size at any cap (`QuotaOvershoots.RenameCanExceed`).
  * The other mutations check a copy against the largest cap, with named bytes and a record that is old or unreadable, and
    do not renew the record (`QuotaBackups.CopyCheckIsExact`). One such mutation passes a smaller cap
    (`QuotaOvershoots.SmallCapCanBeExceeded`), two pass the largest (`QuotaOvershoots.QuotaCanBeExceeded`,
    `QuotaOvershoots.WholeCapCanBeExceeded`).
  * They then copy, and truncate to half the size that was checked, whatever their path names by that time. A restore, a
    rename or a creation in between is safe iff there is room for the copy of what arrives and for its extension
    (`QuotaBackups.ArrivalIsExact`); a restore during a mutation passes the whole cap although every check saw enough
    (`QuotaOvershoots.RestoreRaceCanExceed`, `QuotaOvershoots.RaceCanExceedWholeCap`).
  * The guard takes the payload's `len` for its bytes and the offset for where it lands. A write that ends further on, on a
    descriptor that appends or with elements wider than a byte, is safe iff there is room for it
    (`QuotaBackups.GrantIsExact`), and can reach any size (`QuotaOvershoots.OverreachCanExceed`). The same lemma and
    `QuotaBackups.GrowthCheckIsExact` say what a walk that misses files does.
* *After two rotations a cursor scans nothing* rests on inodes not being given out again. `EventLog.CursorLaw` holds with
  and without reuse and says exactly when such a scan is empty; `EventLog.ReusedInode` gives a run that sees part of a
  newer file for every log line shorter than the rotation limit.
* *Restoring returns every artifact* depends on ids, not on time, when one artifact is mutated twice:
  `Mutations.SameTargetTwice` for two mutations and `Mutations.AnyMutations` for any calls say exactly when it does.
* *A fault plan hits at most `remaining` accesses* holds between two loads of the plan; one unreadable moment of the
  control file loads the same plan afresh (`FaultPlan.UnreadableControlStartsOver`), and a run of twice `remaining` hits is
  `FaultPlan.PlanCanHitTwice`.

## Files

| file | subject |
|---|---|
| `options.dfy`, `sums.dfy`, `sorting.dfy`, `counting.dfy`, `real_math.dfy` | shared definitions: sums, sorting, counts, laws of `exp` and `ln` |
| `coarse_kl.dfy`, `kl_theorems.dfy`, `kl_refinement.dfy`, `kl_refinement_exact.dfy`, `kl_refinement_rest.dfy`, `kl_refinement_clamped.dfy`, `numpy_kl.dfy`, `numpy_repeats.dfy`, `mixtures.dfy`, `repeated_position.dfy` | divergences |
| `percentile.dfy`, `group_bootstrap.dfy`, `pair_view.dfy`, `survival.dfy` | statistics |
| `quota.dfy`, `quota_backups.dfy`, `quota_overshoots.dfy`, `quota_runtime.dfy`, `fault_plan.dfy`, `event_log.dfy`, `memory_budget.dfy`, `mutation.dfy`, `combination.dfy` | resilience |
| `ragged.dfy` | decode packing |

## Model

| member | source | states |
|---|---|---|
| `CoarseKl.LogRestMeaning` | scripts/fidelity/metrics.py:77-107 | both ways of computing the rest, `log1p(-mass)` and the compensated complement around the largest cell, give the logarithm of one minus the known mass; above one the mass is clamped within the tolerance and inconsistent beyond it |
| `CoarseKl.ExpsOfRemoved` | scripts/fidelity/metrics.py:84-89 | taking the first largest cell out of the list leaves exactly the other cells' probability |
| `CoarseKl.BuildRow` | scripts/fidelity/metrics.py:50-59 | the loop builds the row dictionary and gives up on a NaN real entry or an empty row |
| `CoarseKl.GatheredMeaning` | scripts/fidelity/metrics.py:50-59 | the dictionary exists iff no real entry is NaN, and then holds exactly the real ids, each with its last score |
| `CoarseKl.PartitionMeaning` | scripts/fidelity/metrics.py:120-124 | a token has its own cell iff both rows hold it or it is the actual token known on both sides, and which scores that cell carries |
| `CoarseKl.AddTerms` | scripts/fidelity/metrics.py:129-133 | the accumulation loop adds every cell's term and notes whether any was floored |
| `CoarseKl.DivergenceOfCells` | scripts/fidelity/metrics.py:125-135 | rests, loop and rest term make the divergence of a cell list, or an invalid result when a rest is inconsistent |
| `CoarseKl.CoarseDivergence` | scripts/fidelity/metrics.py:110-135 | the whole per-position computation from raw rows and the actual token |
| `KlTheorems.TermTangent` | scripts/fidelity/metrics.py:62-74 | a term lies above every tangent `p(1 + ln r) - r q`: the step of the log-sum inequality |
| `KlTheorems.TermMeaning` | scripts/fidelity/metrics.py:62-74 | a coded term is `p ln(p / q)`, with the floor for a zero candidate; only a zero candidate against positive reference mass is a hit |
| `KlTheorems.MergedTerm` | scripts/fidelity/metrics.py:134-135 | merging cells, none of them floored, into one never raises their contribution |
| `KlTheorems.Coarsening` | scripts/fidelity/metrics.py:110-135 | keeping some cells of any partition and merging all others, none of them floored, into the rest gives a valid and unclamped divergence that is no larger, and is floored iff a kept cell is |
| `KlTheorems.FullMass` | scripts/fidelity/metrics.py:97-107 | known cells and rest together carry mass exactly one, or up to the tolerance more when clamped |
| `KlTheorems.BoundedError` | scripts/fidelity/metrics.py:62-135 | a valid divergence is at least minus the tolerance (only if clamped) minus one floor per floored cell, and non-negative without either |
| `KlTheorems.KnownCellsAreVocabulary` | scripts/fidelity/metrics.py:120-124 | against rows taken from two distributions, every known cell is the vocabulary's own cell of its token |
| `KlTheorems.CoarseIsLowerBound` | scripts/fidelity/metrics.py:110-135 | for any two distributions the rows agree with, the result is valid iff both rows are usable, never clamped, and when the full KL is finite it is unfloored and between zero and the full KL |
| `KlTheorems.FullKlIsFinite` | scripts/fidelity/metrics.py:62-74 | the full divergence is finite iff the candidate has no zero where the reference has probability |
| `KlRefinement.TruncatedRow` | scripts/fidelity/analyze.py:104-108 | a row cut to a prefix holds a subset of the row's entries |
| `KlRefinement.FewerKnownCells` | scripts/fidelity/analyze_campaign.py:413-423 | dropping known cells without candidate zeros, with masses at most one, cannot raise the divergence; kept floors do no harm |
| `KlRefinement.RefinementInK` | scripts/fidelity/analyze_campaign.py:413-423 | cutting both rows to prefixes never raises the result when the masses are at most one, a repeated id has one score, the actual token has its entries' scores, and no dropped token, nor then the rest, has a candidate zero under positive reference mass |
| `KlRefinement.RefinementFailsWhenFloored` | scripts/fidelity/analyze.py:394-395 | the unconditional claim fails: two-entry rows with one floored cell score below their one-entry prefix |
| `KlRefinement.RefinementFailsWhenClamped` | scripts/fidelity/analyze.py:394-395 | concrete rows that fail for every clamped excess of the reference mass below a tenth, without a floor |
| `KlRefinementExact.DroppedZeroBreaks` | scripts/fidelity/analyze.py:394-395 | whenever a candidate zero is dropped, scores with exactly these zeros on which the prefixes score higher |
| `KlRefinementExact.RefinementIsExact` | scripts/fidelity/analyze.py:104-110 | with masses that leave a rest, longer rows never score lower, for any scores with given candidate zeros, iff none of the dropped tokens is one; the actual token is never dropped |
| `KlRefinementRest.RestRefinementIsExact` | scripts/fidelity/metrics.py:134-135 | when the known tokens exhaust the candidate but not the reference, they never score lower iff no known token is dropped |
| `KlRefinementRest.ClampedRefinementIsExact` | scripts/fidelity/metrics.py:97-107 | when the candidate mass is above one and clamped, they never score lower iff no known token is dropped |
| `KlRefinementClamped.ReferenceRefinementIsExact` | scripts/fidelity/metrics.py:97-107 | when only the reference mass is above one and clamped, they never score lower iff no known token is dropped or none is kept |
| `NumpyKl.CompensatedSum` | scripts/fidelity/metrics.py:383-389 | the Neumaier loop's total and compensation add up to the sum |
| `NumpyKl.LogRestRow` | scripts/fidelity/metrics.py:364-397 | one vectorised rest agrees with the per-position rest; its `over` flag is the inconsistent outcome |
| `NumpyKl.NumpyDivergence` | scripts/fidelity/metrics.py:314-361 | one row of the fast path; when no shared id repeats it is the per-position divergence |
| `NumpyKl.ColumnsMatch` | scripts/fidelity/metrics.py:333-337 | masked match columns carry the same sums as the shared ids' cells |
| `NumpyKl.PathsAgree` | scripts/fidelity/metrics.py:314-361 | fast path equals simple path whenever no shared id repeats, for any scores and actual token, flags included |
| `NumpyKl.KeysShared` | scripts/fidelity/metrics.py:120 | ids that repeat without being shared make no difference to the shared keys |
| `NumpyRepeats.ReferenceRepeat` | scripts/fidelity/metrics.py:333-337 | for any shared id that repeats in the reference row, scores on which the two paths differ |
| `NumpyRepeats.CandidateRepeat` | scripts/fidelity/metrics.py:335-337 | for any shared id that repeats only in the candidate row, scores on which they differ |
| `NumpyRepeats.PathsAgreeExactly` | scripts/fidelity/metrics.py:314-361 | the two paths agree on all scores iff no id that both rows hold repeats in either |
| `Mixtures.PartitionLogprobs` | scripts/fidelity/analyze_campaign.py:451-485 | all executions on one shared partition, each row its known cells and their rest; valid iff every row is usable and within the tolerance |
| `Mixtures.LogMeanExpMeaning` | scripts/fidelity/analyze_campaign.py:493-498 | the stable form is the logarithm of the mean probability, all-zero columns included |
| `Mixtures.MixtureMass` | scripts/fidelity/analyze_campaign.py:493-498 | the mixture's mass lies between the executions' smallest and largest, so it is one when theirs are |
| `Mixtures.AveragesBelowCross` | scripts/fidelity/analyze_campaign.py:517-525 | joint convexity: at an unfloored position D is at most X, for any number of executions |
| `Mixtures.AveragesBounds` | scripts/fidelity/analyze_campaign.py:517-525 | at an unfloored position minus the tolerance <= D <= X, and D >= 0 when no candidate execution was clamped |
| `RepeatedPositions.RepeatedPosition` | scripts/fidelity/analyze_campaign.py:501-533 | one position from raw rows: validity, partition rows of both arms, D and X, and their order; with one execution per arm and no repeated shared id, validity, D and X are those of the plain coarse divergence of the two raw rows |
| `RepeatedPositions.KnownMeaning` | scripts/fidelity/analyze_campaign.py:456-483 | what a row's known cells are on the raw rows: a column whose token all rows hold carries the row's own first entry for that very token, any other a zero, and the last one the actual token's score exactly when not all rows hold it and all know its score |
| `RepeatedPositions.TwoRows` | scripts/fidelity/analyze_campaign.py:463-481 | two rows' known cells side by side are the columns of the vectorised path |
| `RepeatedPositions.SingleValidity` | scripts/fidelity/analyze_campaign.py:485 | one execution per arm is valid iff the plain divergence of its rows is |
| `RepeatedPositions.SingleDivergence` | scripts/fidelity/analyze_campaign.py:517-525 | one execution per arm: D and X equal the plain coarse divergence with the actual token as extra cell |
| `Mixtures.CrossIsMean` | scripts/fidelity/analyze_campaign.py:525 | X times the number of pairs is all pairs' divergences added up |
| `Mixtures.CrossWithin` | scripts/fidelity/analyze_campaign.py:525 | X lies between the smallest and the largest pair divergence |
| `Percentile.SliceStart` | scripts/fidelity/analyze_campaign.py:340-342 | the top slice holds at least a twentieth of the values and at least 4096 of them, or everything, and no more values than that takes |
| `Percentile.AtRankMeaning` | scripts/fidelity/metrics.py:494-506 | searching the cumulative counts finds the entry of the expanded pool at that rank |
| `Percentile.CountsGiveDrawn` | scripts/fidelity/analyze_campaign.py:350 | the multiplicity-count product is the number of values drawn |
| `Percentile.ExpandIsResampled` | scripts/fidelity/metrics.py:284-286 | repeating each value by its group's count gives the values of the resampled windows |
| `Percentile.TopSliceRank` | scripts/fidelity/analyze_campaign.py:356-360 | a rank that reaches the top slice is found there, shifted by the draws below it |
| `Percentile.PercentileRefinement` | scripts/fidelity/analyze_campaign.py:335-365 | for every pool, index list, percentile and slice start, sort-the-concatenation, cumulative search and top-slice search give the same value |
| `Percentile.FlattenWindows` | scripts/fidelity/metrics.py:486-492 | labelled pooling keeps every window's values |
| `Percentile.UnweightedPercentile` | scripts/fidelity/analyze_campaign.py:347-349 | without multiplicities the prepared pool gives the percentile of the sorted values |
| `Percentile.PercentileInterpolates` | scripts/fidelity/metrics.py:222-230 | between two neighbouring points `100 k / (n - 1)` the percentile is the linear interpolation of the two values |
| `Percentile.PercentileAtPoint` | scripts/fidelity/metrics.py:222-230 | at such a point it is the value of that index |
| `Percentile.PercentileEnds` | scripts/fidelity/metrics.py:222-230 | the zeroth percentile is the first value, the hundredth the last |
| `Percentile.PercentileRises` | scripts/fidelity/metrics.py:222-230 | a larger percentile of ascending values is no smaller |
| `GroupBootstrap.FillMultiplicity` | scripts/fidelity/analyze_campaign.py:262-269 | the in-place additions leave, per row, how often each group was drawn |
| `GroupBootstrap.ProductIsDrawnSum` | scripts/fidelity/analyze_campaign.py:319-322 | the matrix product equals the sum over the drawn index list |
| `GroupBootstrap.BuildMeaning` | scripts/fidelity/analyze_campaign.py:298-307 | group labels become dense: every label below the count, every kept group non-empty |
| `GroupBootstrap.GroupingConserves` | scripts/fidelity/analyze_campaign.py:309-317 | group sums add up to the selected values and group counts to their number, for any mask |
| `GroupBootstrap.SumsOfMeaning` | scripts/fidelity/analyze_campaign.py:298-317 | every group's sum and count are those of its own selected and unmasked positions |
| `GroupBootstrap.RatioMeaning` | scripts/fidelity/metrics.py:266 | a ratio gives its numerator back, and is undefined exactly for an empty denominator |
| `GroupBootstrap.UnmaskedCounts` | scripts/fidelity/analyze_campaign.py:309-317 | without a mask every group counts at least one position |
| `GroupBootstrap.ReplicatesAgree` | scripts/fidelity/metrics.py:261-266 | the matrix replicate is the index-list replicate, and an unmasked replicate has a positive denominator |
| `PairView.BuildPair` | scripts/fidelity/analyze_campaign.py:540-553 | the table finds every window's own rows in the concatenation |
| `PairView.Common` | scripts/fidelity/analyze_campaign.py:681 | exactly the expected windows that every pair has |
| `PairView.CommonKeepsOrder` | scripts/fidelity/analyze_campaign.py:681 | in the expected order |
| `PairView.RowsLineUp` | scripts/fidelity/analyze_campaign.py:696-697 | row `j` of concatenated windows is entry `pos[j]` of window `win[j]` |
| `PairView.RowsOrdered` | scripts/fidelity/analyze_campaign.py:696-697 | rows come window by window with ascending positions, as many as the windows have |
| `PairView.RowsComplete` | scripts/fidelity/analyze_campaign.py:696-697 | every position of every window has its row |
| `PairView.PairLinesUp` | scripts/fidelity/analyze_campaign.py:686-690 | one pair's gathered rows come from the named windows and positions |
| `PairView.MakeView` | scripts/fidelity/analyze_campaign.py:679-691 | a view exists iff the common windows have the same lengths in all pairs; it then has a row for every position of every common window, in order, and no other, and entry `j` of every pair is that pair's own entry for that row |
| `Survival.Grid` | scripts/fidelity/plots.py:590 | zero and the distinct divergence times, strictly ascending |
| `Survival.SurvivalCurve` | scripts/fidelity/plots.py:591-597 | the loop yields the product-limit estimate at every grid point |
| `Survival.FactorStep` | scripts/fidelity/plots.py:593-596 | one factor lowers both bounds by the number that diverge |
| `Survival.CurveBounds` | scripts/fidelity/plots.py:591-597 | at every grid point the estimate is in [0, 1], not above its predecessor, and between the two counts |
| `Survival.SurvivalBounds` | scripts/fidelity/plots.py:588-598 | at every position the drawn step is between the share known identical beyond it and one minus the share known diverged, and equals both when nothing was censored so far |
| `Survival.SurvivalFalls` | scripts/fidelity/plots.py:588-598 | the drawn curve never rises and stays in [0, 1] |
| `Ragged.RepeatedAt` | scripts/node/sparse_attn_indexer_kpool_sm121.py:120-124 | `repeat_interleave` puts element `b` on exactly the tokens of request `b` |
| `Ragged.CumSumIsStart` | scripts/node/sparse_attn_indexer_kpool_sm121.py:125-128 | the shifted prefix sums are the requests' offsets |
| `Ragged.IndicesAreBijection` | scripts/node/sparse_attn_indexer_kpool_sm121.py:105-134 | (request id, intra index) is a bijection from the flat tokens onto the occupied cells |
| `Ragged.ScatterDecodeTokensByRequest` | scripts/node/sparse_attn_indexer_kpool_sm121.py:137-161 | token `t` of request `b` is at `(b, t)`, every other cell holds the pad value |
| `Ragged.PackRoundTrip` | scripts/node/sparse_attn_indexer_kpool_sm121.py:885-889 | reading each row's first entries back restores the tokens |
| `Ragged.PaddingIsInvisible` | scripts/node/sparse_attn_indexer_kpool_sm121.py:885-889 | for any row function, working in the padded grid and dropping the padding is working on the flat tokens |
| `Ragged.GroupForWrite` | scripts/node/sparse_attn_indexer_kpool_sm121.py:637-691 | reshape and scatter give the same grid whenever the reshape is chosen: request `b`'s tokens in order, then padding |
| `Ragged.DecodeTopkSeqLens` | scripts/node/sparse_attn_indexer_kpool_sm121.py:164-198 | padded row `(b, t)` gets position plus one of token `offset_b + t`, in 32-bit arithmetic, pad rows zero; the uniform branch is the flat slice |
| `Ragged.PaddedEqualsUniform` | scripts/node/sparse_attn_indexer_kpool_sm121.py:172-198 | the two branches agree iff every length is `next_n` |
| `Ragged.LengthsReachTheirTokens` | scripts/node/sparse_attn_indexer_kpool_sm121.py:172-184 | after the padded rows are dropped every token has its own position plus one |
| `Ragged.ShortcutMisaligns` | scripts/node/sparse_attn_indexer_kpool_sm121.py:174-184 | `b * next_n` is request `b`'s offset iff no earlier request is short; otherwise it lies further on |
| `Quota.StepSafe` | scripts/resilience/runtime.py:398-476 | every covered step, locked or not, guarded or not, keeps guarded bytes and all the lock holder may still add within the limit |
| `Quota.RunSafe` | scripts/resilience/runtime.py:364-368 | so does every interleaving of covered steps, from any safe state |
| `Quota.QuotaSafety` | scripts/resilience/runtime.py:398-476 | in every run whose writes are honest, whose renames move closed artifacts, whose backup checks see enough and whose mutations have room for what comes to their path, guarded bytes stay within the cap less the allowance, and all bytes within the cap while control files stay within the allowance |
| `Quota.LimitIsExact` | scripts/resilience/runtime.py:425-426 | the limit is the most that fits under the cap beside any control bytes up to a quarter of it or 64 MiB |
| `QuotaBackups.CopyCheckIsExact` | scripts/resilience/faultctl.py:204-215 | the backup check, its record readable or not, keeps the limit for every checked size it admits iff it admits none or sees enough bytes |
| `QuotaBackups.PromiseIsExact` | scripts/resilience/runtime.py:411-459 | a sound state stays within the limit in all covered runs iff what its lock holder may still do fits |
| `QuotaBackups.GrowthCheckIsExact` | scripts/resilience/runtime.py:422-428 | the growth check keeps the limit for every growth it lets through iff it lets none through or its measurement misses nothing guarded |
| `QuotaBackups.GrantIsExact` | scripts/resilience/runtime.py:411-459 | a write that was let through keeps the limit in all that follows iff there is room for where it really ends |
| `QuotaBackups.OrdinaryIsHonest` | scripts/resilience/runtime.py:422-428 | a write measured by whole walks that ends where its position and length say, or inside its file, is honest |
| `QuotaBackups.MutationIsExact` | scripts/resilience/faultctl.py:204-229 | an admitted mutation keeps the limit, unless something arrives at its path without room, iff there is room for a copy |
| `QuotaBackups.ArrivalIsExact` | scripts/resilience/faultctl.py:204-229 | a file that is restored, renamed or created at the path of a mutation keeps the limit in all that follows iff there is room for its copy and its extension to half the checked size |
| `QuotaBackups.NamedRunsAreCovered` | scripts/resilience/faultctl.py:204-215 | at the largest cap, with whole walks, no lost names and nothing arriving during a mutation, a run is covered iff its writes are honest and its renames move closed artifacts |
| `QuotaBackups.CopylessRunsAreCovered` | scripts/resilience/faultctl.py:201-202 | at any cap, a run whose mutations only rename is covered iff its writes are honest and its renames move closed artifacts |
| `QuotaBackups.RenameIsExact` | scripts/resilience/faultctl.py:201-202 | a rename keeps the limit in every covered continuation iff nobody has the artifact open for writing |
| `QuotaOvershoots.RenameCanExceed` | scripts/resilience/runtime.py:414-416 | at any cap a renamed artifact whose writer goes on reaches any size |
| `QuotaOvershoots.QuotaCanBeExceeded` | scripts/resilience/faultctl.py:204-215 | mutate, restore with a reader, mutate again: three copies of any artifact of which two and the control bytes fit under the limit |
| `QuotaOvershoots.WholeCapCanBeExceeded` | scripts/resilience/faultctl.py:204-215 | for any control bytes within the allowance some artifact makes that run pass the whole cap |
| `QuotaOvershoots.SmallCapCanBeExceeded` | scripts/resilience/faultctl.py:212-213 | below the largest cap one mutation passes the campaign's limit |
| `QuotaOvershoots.RestoreRaceCanExceed` | scripts/resilience/faultctl.py:204-216 | a restore between a mutation's check and its copy leaves two and a half times the artifact, although every backup check saw enough |
| `QuotaOvershoots.RaceCanExceedWholeCap` | scripts/resilience/faultctl.py:266 | for any control bytes within the allowance some artifact makes that run pass the whole cap |
| `QuotaOvershoots.OverreachCanExceed` | scripts/resilience/runtime.py:436-459 | a write that declares one element and ends further on reaches any size at any cap |
| `QuotaRuntime.Namespace.TreeBytes` | scripts/resilience/runtime.py:324-335 | the walk totals the named files |
| `QuotaRuntime.Namespace.AnonymousBytes` | scripts/resilience/runtime.py:338-361 | the descriptor walk counts every unlinked open file once |
| `QuotaRuntime.Namespace.GuardGrowth` | scripts/resilience/runtime.py:411-433 | a file in the control directory is neither locked nor checked; otherwise granted iff the operation ends inside the file or the total after it is within the limit; a refusal records and unlocks; the state change is the run Acquire, Admit, followed on refusal by Record and Release |
| `QuotaRuntime.Namespace.Unlock` | scripts/resilience/runtime.py:398-408 | the lock is given back whether or not recording works |
| `QuotaRuntime.Namespace.Write` | scripts/resilience/runtime.py:436-459 | which writes are let through, in the total after them; what a whole, short, failed, refused or unguarded write leaves in the file and the record, wherever its bytes land; and that it is a run of the step system |
| `QuotaRuntime.Namespace.TruncateFd` | scripts/resilience/runtime.py:462-468 | the same for a truncation to a new length, whatever size was read before the lock |
| `QuotaRuntime.RoomIsExact` | scripts/resilience/runtime.py:422-428 | the growth check lets an operation through iff it does not extend the file or the total after it is within the limit |
| `QuotaRuntime.Namespace.BackUp` | scripts/resilience/faultctl.py:197-215 | a copying mutation with any steps of other processes between check, copy and damage: when it is admitted, what it copies of what its path then names, and that it is a run of the step system |
| `QuotaRuntime.Namespace.CheckCopy` | scripts/resilience/faultctl.py:205-215 | admitted iff the path names a file and the larger of walk and readable record has room for its size under the largest cap |
| `QuotaRuntime.Namespace.CopyNamed` | scripts/resilience/faultctl.py:216 | the copy takes what the path names by then, or fails if it names nothing |
| `QuotaRuntime.Namespace.DamageNamed` | scripts/resilience/faultctl.py:217-229 | a truncation sets what the path names by then to half the size that was checked |
| `QuotaRuntime.QuietMutation` | scripts/resilience/faultctl.py:204-229 | without interference a mutation leaves a whole backup and, if it truncates, half of its artifact |
| `QuotaRuntime.Namespace.RenameAway` | scripts/resilience/faultctl.py:199-202 | the rename of the `missing` mutation makes no check and is a run of the step system |
| `FaultPlan.FaultState.Fault` | scripts/resilience/runtime.py:249-289 | counters and outcome of one access; while busy nothing happens; the flag is down afterwards |
| `FaultPlan.MatchesMeaning` | scripts/resilience/runtime.py:232-247 | an access counts iff it is to a campaign artifact, of the kind asked for, and eligible for the mode |
| `FaultPlan.EffectMeaning` | scripts/resilience/runtime.py:275-287 | which modes raise which error, and which delays are made |
| `FaultPlan.BooleansCount` | scripts/resilience/runtime.py:268-274 | boolean counters act as one and zero |
| `FaultPlan.CountersAgree` | scripts/resilience/runtime.py:263-274 | after any stream the counters are what the current segment's start and length determine |
| `FaultPlan.FaultPlanIsExact` | scripts/resilience/runtime.py:263-274 | access `k` is hit iff it reaches the counters as number `after` to `after + remaining - 1` since the last reload |
| `FaultPlan.HitsAreDue` | scripts/resilience/runtime.py:249-289 | over any run the hits are the sum over segments of `min(remaining, max(0, n - after))` |
| `FaultPlan.SetControl` | scripts/resilience/faultctl.py:76-110 | accepted iff mode and operation are known and all counts are non-negative integers within range, booleans excluded |
| `FaultPlan.PlanHits` | scripts/resilience/faultctl.py:97-109 | a newly set plan hits exactly `min(remaining, max(0, n - after))` of the `n` accesses that reach it, whatever went before |
| `FaultPlan.UnreadableControlStartsOver` | scripts/resilience/runtime.py:222-228 | one unreadable moment makes the same plan count from the start again |
| `FaultPlan.PlanCanHitTwice` | scripts/resilience/runtime.py:222-228 | with enough accesses before and after such a moment one plan hits twice `remaining` |
| `EventLog.EventFiles.RawAppend` | scripts/resilience/runtime.py:87-100 | rotation at the size limit, then one appended line |
| `EventLog.EventFiles.EventCursor` | scripts/resilience/faultctl.py:281-287 | the current end of the log, zero without a file |
| `EventLog.CollectScans` | scripts/resilience/faultctl.py:295-314 | the files and start offsets a poll collects |
| `EventLog.FindEvent` | scripts/resilience/faultctl.py:290-333 | the first match of the first poll that has one; a timeout only if no poll had one |
| `EventLog.MatchesMeaning` | scripts/resilience/faultctl.py:324-326 | kind and case must agree, and a stage or mode that is asked for keeps exactly the answers that have it |
| `EventLog.NextTracks` | scripts/resilience/runtime.py:91-96 | how each append, rotating or not, moves the log past a cursor |
| `EventLog.SkipHead` | scripts/resilience/faultctl.py:317-319 | reading from a recorded byte position continues exactly after the lines before it |
| `EventLog.CursorLaw` | scripts/resilience/faultctl.py:301-314 | in every run a poll scans a suffix of the log no older than the cursor, exactly the lines since iff at most one rotation happened, and after more rotations nothing iff neither file carries the cursor's inode with lines beyond its position |
| `EventLog.EarlyCursorLaw` | scripts/resilience/faultctl.py:286-287 | a cursor taken before the first event scans all retained lines, which is everything iff at most one rotation happened |
| `EventLog.FoundIsNew` | scripts/resilience/faultctl.py:322-327 | what is reported was appended after the cursor and, up to one rotation, is the first match since then |
| `EventLog.NotFoundMeansNone` | scripts/resilience/faultctl.py:330-333 | up to one rotation, finding nothing proves that nothing matching was appended |
| `EventLog.WatchedRun` | scripts/resilience/faultctl.py:290-333 | polling while the run goes on: a report was appended between cursor and poll and, up to one rotation, is the first match since; an empty poll, up to one rotation, means no match by then |
| `EventLog.ReusedInode` | scripts/resilience/faultctl.py:301-304 | for every line below the rotation limit, a run of such lines in which the cursor's inode is given out again and the reader sees the last line of a newer file |
| `MemoryBudgets.MemoryBudget.TryReserve` | scripts/resilience/connector_wrapper.py:45-69 | admission, rejection and roll-back of one request, as the ledger function says |
| `MemoryBudgets.AdmissionIsExact` | scripts/resilience/connector_wrapper.py:48-56 | a positive request is admitted iff the reader gave a number, the maximum is kept and the minimum stays available |
| `MemoryBudgets.MemoryBudget.Release` | scripts/resilience/connector_wrapper.py:71-86 | a released object is ignored, another budget's refused, an own one returned even if its record fails |
| `MemoryBudgets.MemoryBudget.WriteReservation` | scripts/resilience/runtime.py:200-219 | a failure before the replace keeps the old record, one after it does not |
| `MemoryBudgets.BudgetSafety` | scripts/resilience/connector_wrapper.py:39-86 | in every run reserved bytes are the unreleased reservations', never negative, never above the durable record, which never exceeds the maximum |
| `MemoryBudgets.WholeWriteRepairs` | scripts/resilience/connector_wrapper.py:60-86 | in every run the durable record equals the reserved bytes if the last record that was tried was written in full, however many failed before |
| `MemoryBudgets.ReleaseIsIdempotent` | scripts/resilience/connector_wrapper.py:73-74 | in every run a second release of a reservation might as well be left out |
| `MemoryBudgets.FailedReserveIsUndone` | scripts/resilience/connector_wrapper.py:64-68 | in every run a request that was not admitted might as well not have been made: all later admissions, reservations and reserved bytes are the same |
| `MemoryBudgets.NothingLeaks` | scripts/resilience/connector_wrapper.py:71-86 | after any run, releasing every reservation frees every byte |
| `Mutations.ArtifactStore.MutateArtifact` | scripts/resilience/faultctl.py:179-247 | error cases in order, then the mutation of the chosen artifact |
| `Mutations.MutationChanges` | scripts/resilience/faultctl.py:201-229 | a mutation changes its artifact and nothing else; a refusal changes none |
| `Mutations.HalfOf` | scripts/resilience/faultctl.py:217-221 | a truncation leaves the first half, rounded down but not empty |
| `Mutations.FlipFirst` | scripts/resilience/faultctl.py:223-228 | a checksum mutation flips the lowest bit of the first byte and nothing else |
| `Mutations.Insert` | scripts/resilience/faultctl.py:246 | the journal listing stays in id order and gains one record |
| `Mutations.ArtifactStore.RestoreMutations` | scripts/resilience/faultctl.py:250-273 | the loop puts back pending records in id order and stops at the first missing backup or differing hash |
| `Mutations.RestoreResult` | scripts/resilience/faultctl.py:255-272 | each target ends with the backup of its highest-id pending record, every other artifact as it was, every record restored |
| `Mutations.RestoreTwice` | scripts/resilience/faultctl.py:257-258 | a second restore changes nothing |
| `Mutations.MutationRoundTrip` | scripts/resilience/faultctl.py:179-273 | after any mutations of artifacts without a pending record, refused ones included, one restore brings everything back |
| `Mutations.SameTargetTwice` | scripts/resilience/faultctl.py:255 | after two mutations of one artifact the original comes back iff the later one drew the smaller id |
| `Mutations.AnyMutations` | scripts/resilience/faultctl.py:250-273 | after any calls, refused and repeated ones included, one restore succeeds and brings everything back iff each target's highest-id pending backup is its original |
| `Combination.SetAll` | scripts/resilience/combination_cases.py:52-73 | complete iff every rank answered; pending only if all failures are the phase deadline's without a safety stop |
| `Combination.Case.Seed` | scripts/resilience/combination_cases.py:183-209 | goes on iff the seed and its four-rank committed publication were proven in time; pending and fail only for cause |
| `Combination.Case.CancelInRestore` | scripts/resilience/combination_cases.py:211-269 | goes on iff all ranks were armed, four ranks waited in restore for that digest, and the client was cancelled |
| `Combination.Case.ObserveError` | scripts/resilience/combination_cases.py:271-334 | goes on iff four read errors and four matching restore errors came in order |
| `Combination.Case.Act` | scripts/resilience/combination_cases.py:182-346 | the status is pass iff everything above held, pending or fail only for a cause named by the environment; an interruption passes through |
| `Combination.Case.CleanUp` | scripts/resilience/combination_cases.py:347-386 | the faults are reset exactly once on every path; which errors are kept, also when the reset is interrupted, and which interruptions pass through |
| `Combination.ReceiptMeaning` | scripts/resilience/combination_cases.py:76-106 | what terminated, finished before the cancellation, completed and interrupted mean for the observed request |
| `Combination.Case.Judge` | scripts/resilience/combination_cases.py:388-408 | exactly which cleanup errors, client ends and HTTP statuses make a failure and which leave a pass; a failure is kept |
| `Combination.Case.Recover` | scripts/resilience/combination_cases.py:419-454 | a failure iff there was one, an answer was bad, or the first call that did not return raised an exception that counts; a pass iff there was one and all was good; interrupted iff that call was |
| `Combination.Case.RunCacheEioCancelRestore` | scripts/resilience/combination_cases.py:168-460 | pass iff, in the environment's own terms, no wait was cut, every call returned, four ranks proved one digest's story, the client was interrupted, and cleanup and recovery held; fail iff the action, the cleanup, the client's end, a safety stop or a recovery that was reached found a failure; one reset on every way out |
| `Combination.ActionMeaning` | scripts/resilience/combination_cases.py:183-334 | a good action, rank by rank: a committed publication of the digest, a wait in restore for it, a read error, and that very restore's error end, in this order |
| `Combination.InterruptedMeaning` | scripts/resilience/combination_cases.py:392-408 | a proven interruption: running before the cancellation, ended, not finished by then, not complete, broken off, status 200 or none |
| `Combination.RunCase` | scripts/resilience/combination_cases.py:128-165 | the verdict, in the environment's own terms; that only an interruption propagates; and the record of it before it is passed on |

## Left out

- Survival.SurvivalCurve: without prompts the source raises at `scripts/fidelity/plots.py:590`; curves have at least one prompt here.
- Floating-point rounding and overflow: exact reals throughout; the Neumaier compensation is therefore zero.
- Logprobs of `+inf`: no row entry or actual token carries one here.
- The random index stream of the bootstrap, numpy chunking and caching: index lists are arbitrary, rows are one at a time.
- `ci_dict`, `criterion`, `combine`, top-1 agreement, coverage, delta NLL, path and bucket tags: short expressions, they would only add easy members.
- Other label arrays of a view (group, category, bucket, path): looked up by the same row index.
- The within-arm means WR and WC, the agreement means and the covered mass of a repeated position: the same averages over other pairs.
- Mixtures.AveragesBounds: positions with a floored pair are not bounded.
- Ragged.PaddedEqualsUniform: positions are taken non-negative and below the largest 32-bit value, which live tokens are.
- The GPU kernels, `pack_seq_triton`, `unpack_seq_triton` and the top-k operators are not part of this model; unpacking is modelled as reading each row's first entries.
- Quota.QuotaSafety: growth by calls that the runtime does not intercept (`fallocate`, `sendfile`, memory maps, a stream's own buffer), a buffer left over from a failed flush, hard links, files moved into the namespace from outside, and a process that opens a backup itself for writing.
- QuotaRuntime.Namespace.BackUp: copying is one step, as are reading and flipping the first byte.
- QuotaRuntime.Namespace.TreeBytes: one walk sees one state; walks that miss files are a parameter of `Quota.Step`.
- QuotaRuntime.Namespace.GuardGrowth: the fault consulted before the lock is taken belongs to the fault plan.
- FaultPlan.FaultState.Fault: a failure to write the hit event itself, and unhashable JSON values as mode.
- EventLog.CursorLaw: check, rename and append are one step; another process rotating in between is left out, as is a file vanishing between its stat and its open. Device numbers are folded into the inode.
- MemoryBudgets.BudgetSafety: the base connector's class is not part of this model; the overriding methods contain all admission and release logic.
- Mutations.MutationRoundTrip: candidate search by manifest, symlink checks and a journal write that fails after the artifact was changed.
- Combination.RunCase: waits and clocks are readings given by the environment; evidence fields that no decision reads.
- Plotting, reports, exports, redaction, SSH and container plumbing.
