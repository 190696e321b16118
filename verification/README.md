# Verified model of the differential-upgrade engine and its sync service

This project models, in Dafny, the decision-making core of a differential testing engine for on-chain
lending programs and of the service its results are synced to, and proves the guarantees that core is for.

The engine replays one fixture against two builds of a program, compares the two execution results
(`Diff`), reads the comparison economically (`Impact`, `Totals`), groups findings into regression clusters
(`Cluster`), counts them (`Reports`), and searches for a smaller fixture that shows the same regression
(`Shrink`, `Minimizer`, `Engine`). Program execution is a deterministic function from a fixture to an
execution result or an error; everything after it is modelled branch for branch. The numeric base is exact:
decimal text and saturating money (`Money`), the reference risk arithmetic (`Reference`), account layouts
(`Layout`). Each machine width is a subset of `int`, so that an overflow or a lossy cast is a proof
obligation; the three casts in the comparison that do wrap are written out and given the exact range in which
they lose nothing. The service is modelled as two database protocols over interleaved statements: the write-once
run store (`RunStore`, `RunProtocol`, `RecordStore`) and the device authorization flow of RFC 8628
(`DeviceAuth`).

Code that works step by step is modelled by methods and classes proved against a specification function:
the comparison and consequence collectors, the summary and report counters, thousands grouping, hexadecimal
coding, cluster building, variant editing, the search object with its probe budget, the report whose
clusters are filled in, and the synced tables. The lemmas then speak about the specification functions.

A method's contract names the specification function it computes; what that function means is stated apart
from its definition, on the inputs: `DiffContents` says which differences a comparison lists, from the accounts
and the bytes in them; `KeyMeaning` and `ClusterMeaning` when findings share a cluster and what the cluster says
of them; `SummaryFacts` which records each group of the summary counts; `MinimizerFacts` what local minimality
and a reported case amount to; `DevicePolls` what a polling client is told over whole runs.

`Text`, `Order` and `Prelude` hold what the modules share: decimal digits, three-way comparisons with stable
sorting and key-ordered traversal, optional values and integer widths.

## Where the code and its documentation part

- `debt_for_health` promises the target health exactly (engine/src/corpus.rs:404). Integer floors give at
  least the target, and exactly the target when the first division's remainder is below its quotient
  (`Reference.TargetHealthIsExactWhen`). The corpus only asks for targets that are met
  (`Reference.CorpusTargetsAreMet`).
- The twenty percent cutoff for an informative range floors before it compares, so the true cutoff is just
  above twenty percent (`ClusterFacts.InformativeCutoff`).
- Percentages of compute are narrowed to 32 bits: the comparison, given a large enough explosion, files it as
  noise (`DiffProperties.PercentageIsExactWhen`, `DiffProperties.ComputeExplosionReadsAsNoise`). Counters a
  transaction can reach are reported exactly from seven units on (`DiffProperties.PercentageIsExactInBudget`).
- The compute delta subtracts reinterpreted counters: the build checks overflow, so counters on both sides of
  2^63 can abort the comparison (`DiffProperties.ComputeDeltaIsExactWhen`).
- The lending decoder does not list the version byte, so the completeness of a comparison holds up to that
  byte (`DiffProperties.VersionByteIsInvisible`).
- At the single instant of expiry the sign-in page still shows a code as pending while the approving update
  refuses it (`DeviceAuth.ShownPendingIsDecidable`).
- The digests a set of documents leaves behind do not depend on arrival order exactly when the documents that
  the stored rows do not refuse are pairwise compatible (`RunStore.DigestsForgetOrderWhen`); the local projects
  the rows name do not exactly when each new run comes from one local project
  (`RunStore.ProjectsForgetOrderWhen`).

## Model

| member | source | states |
|---|---|---|
| Minimizer.Minimize | engine/src/shrink.rs:170-300 | For every pair of builds, budget and granularity the search ends; an error means a zero granularity or a variant of the base at a legal state that cannot be executed or compared; a reported case is a strictly smaller witness on the grid within all bounds, whose variant carries a position of just the collateral and debt the case names, locally minimal if budget is left; no case means no position, or a start no single move can shrink unless the budget cannot pay for one full pass |
| Minimizer.Search.Run | engine/src/shrink.rs:203-242 | The pass loop ends in a consistent state, and with budget left that state is locally minimal: none of the ratios 1/2, 3/4, 7/8 and no halving step of either field down to its granularity leads to a legal, reproducing candidate |
| Minimizer.Search.Pass | engine/src/shrink.rs:204-238 | A pass that leaves the state unchanged with budget left has refuted every move from it and has cost at most one probe per ratio and halving step; otherwise the state is strictly smaller |
| Minimizer.Search.RatioPhase | engine/src/shrink.rs:206-216 | Joint scaling repeats while accepted, terminates, and if nothing moved the ratio is refuted; the casts back to 64 bits lose nothing |
| Minimizer.Search.CollateralDescent | engine/src/shrink.rs:220-226 | Halving descent on collateral terminates, and if nothing moved every halving step is refuted |
| Minimizer.Search.DebtDescent | engine/src/shrink.rs:228-234 | The same for debt |
| Minimizer.Search.TryCandidate | engine/src/shrink.rs:135-162 | The answer is yes exactly when budget is left and the quantized candidate is legal, new and reproduces; the search then moves there and nowhere else, strictly down, staying a witness on the grid, and counts at most one probe |
| Minimizer.Search.Adopt | engine/src/shrink.rs:156-161 | A legal candidate costs one probe and is moved to exactly when it reproduces |
| Minimizer.Search.Reproduced | engine/src/shrink.rs:119-128 | One probe is spent, and the answer is whether the class observed on both builds is the target; errors are passed on |
| Minimizer.AcceptedStep | engine/src/shrink.rs:135-162 | Adopting a candidate keeps all bookkeeping: probes within budget, reductions within probes, whole granules strictly decreasing after the first move |
| Minimizer.ReductionsBounded | engine/src/shrink.rs:135-162 | Reductions stay below the start's collateral and debt counted in granules, whatever the budget |
| Minimizer.ScaledShrinks | engine/src/shrink.rs:210-211 | Scaling by a ratio of at most one never exceeds the value, so narrowing from 128 to 64 bits is lossless |
| MinimizerFacts.LocallyMinimalMeans | engine/src/shrink.rs:197-238 | Local minimality in numbers: neither a half, three quarters nor seven eighths of both amounts, nor either amount less its 2^k-th part for any k with that part at least its granularity, is a legal new state that reproduces the regression |
| MinimizerFacts.DefaultBudgetPays | engine/src/shrink.rs:49-57 | Under the default limits, reporting nothing for a position of amounts below 2^63 does mean that no single move shrinks it |
| MinimizerFacts.PassCostBound | engine/src/shrink.rs:203-238 | A pass that moves nothing costs at most 129 probes, whatever the amounts and granularities |
| MinimizerFacts.CaseReads | engine/src/shrink.rs:244-299 | Every health, liquidation flag and outcome in a reported case is what the first and the second build show on the variant the case names, and its values are those of its amounts at the position's price |
| Shrink.Variant | engine/src/shrink.rs:77-105 | The account loop computes `VariantOf`, returning nothing when there is no position or a vault balance would overflow |
| Shrink.VariantIsSelfConsistent | engine/src/shrink.rs:71-105 | Every position account of the variant decodes to the base's position with the given collateral, the given debt and the health these have at its own price and threshold, its other eight fields as they were; each vault holds 890880 plus the collateral; bytes past the struct, every other account and every other part of the fixture are untouched |
| Shrink.VariantExistsWhen | engine/src/shrink.rs:77-105 | A variant exists exactly when there is a position and no vault balance overflows |
| Shrink.VariantsCompose | engine/src/shrink.rs:77-105 | Editing a variant gives what editing the base gives: candidates depend on the base alone, not on the search path |
| Shrink.QuantizeIsFloor | engine/src/shrink.rs:59-64 | Quantizing gives the largest multiple of the granularity not above the value |
| Types.FindAccountIsFirst | engine/src/types.rs:131-133 | The account lookup finds the first account of a label, and nothing only where there is none |
| Engine.MinimizeClusters | engine/src/lib.rs:159-186 | Non-critical clusters are untouched; of the others only the counterexample changes, to a minimized case, or to none where the representative cannot be shrunk; an error stops the pass, with the rest unchanged, at a cluster for which the granularity is zero or some variant fails; every other report field is framed |
| Engine.MinimizedCaseSpeaksForCluster | engine/src/lib.rs:167-183 | The variant of an attached case shows the regression signature of every member of its cluster |
| Engine.MinimizedCaseShowsTheFinding | engine/src/lib.rs:167-183 | What the two builds do on the variant of an attached case agrees with every finding of the cluster in consequences, sorts of differences, changed fields, outcomes and liquidation status changes |
| Engine.TargetIsMemberKey | engine/src/lib.rs:170-180 | For distinct ids the search target found through the report is the key of the representative member |
| Cluster.Build | engine/src/cluster.rs:440-555 | The grouping, counting, naming and sorting loops compute `Clusters`, whose content the rows of KeyMeaning, ClusterMeaning and ClusterFacts state on the findings |
| Cluster.GroupFindings | engine/src/cluster.rs:451-471 | The grouping loop fills exactly the groups of the findings, one per key, in diff order |
| Cluster.NameClusters | engine/src/cluster.rs:486-547 | The naming loop with its used-id counter assigns the specified ids and summaries |
| Cluster.KeysTotal | engine/src/cluster.rs:116-124 | Comparing keys field by field is a total order, so key-ordered traversal is deterministic and never merges distinct keys |
| KeyMeaning.KeysAgreeWhen | engine/src/cluster.rs:126-160 | Two findings have one key exactly when they agree on the consequences, the instruction, the sorts of behavioural differences, the set of changed fields by account and name, both outcomes, and the multiset of liquidation status changes |
| KeyMeaning.ClusterMatesAgree | engine/src/cluster.rs:451-471 | Of distinct findings, two are listed in one cluster exactly when they agree so |
| KeyMeaning.KeyLists | engine/src/cluster.rs:126-141 | A sort of difference, or a field, is listed in a key exactly when such a behavioural difference occurs |
| ClusterMeaning.KeyOrderMeans | engine/src/cluster.rs:117-126 | Keys compare by consequences, instruction, sorts of differences, fields, both outcomes and status changes, in that order |
| ClusterProperties.ClusteringForgetsOrder | engine/src/cluster.rs:440-555 | For distinct ids, any permutation of fixtures, diffs and records gives the same cluster list in full |
| ClusterProperties.LastFixtureIsKept | engine/src/cluster.rs:445-446 | Of several fixtures of one id the last is kept |
| ClusterProperties.LastRecordIsKept | engine/src/cluster.rs:447-450 | Of several records of one id the last is kept |
| ClusterIds.IdsDiffer | engine/src/cluster.rs:473-511 | Ids are pairwise distinct for every possible list of keys |
| ClusterIds.NumberedInjective | engine/src/cluster.rs:505-511 | A suffixed id determines both the plain id and the number |
| ClusterFacts.ClusterIdsAreDistinct | engine/src/cluster.rs:473-555 | No two clusters of a finished list share an id |
| ClusterFacts.FinalOrderIsStrict | engine/src/cluster.rs:549-554 | The final sort meets no tie |
| ClusterFacts.ClusterOrderMeans | engine/src/cluster.rs:549-554 | The order is critical first, then larger, then smaller id |
| ClusterFacts.EveryClusterSpeaks | engine/src/cluster.rs:486-547 | Each cluster lists exactly the findings of one key, carries that key's consequences, action and kinds, and its representative is one of them |
| ClusterFacts.EveryFindingIsListed | engine/src/cluster.rs:451-547 | Every finding is in the cluster of its key |
| ClusterFacts.RepresentativeIsUnique | engine/src/cluster.rs:271-293 | With distinct ids the representative strictly precedes every other member in rank |
| ClusterFacts.InformativeCutoff | engine/src/cluster.rs:101-110 | A range is informative exactly when its ends are equal or spread times 10000 is below 2001 times scale |
| ClusterFacts.RangeIsTight | engine/src/cluster.rs:82-98 | A range is reported exactly when every member supplied a value; its ends are attained and bound all values |
| ClusterFacts.FiniteWhen | engine/src/cluster.rs:410-421 | Health is ranged over only when every member has a finite one |
| ClusterFacts.ConditionMeansAgreement | engine/src/cluster.rs:303-312 | A condition is stated exactly when all values agree |
| ClusterMeaning.ClusterReads | engine/src/cluster.rs:486-547 | Every listed cluster is a fair account of exactly the findings of one key: their ids in ascending order, critical when one of them is, their capital clamped once, all conditions and ranges that hold of them and no others, and a representative that none of them precedes |
| ClusterMeaning.RankMeans | engine/src/cluster.rs:249-293 | A finding precedes another by fewer of four awkward traits, then smaller worth, then health under the first build closer to 1.0, then smaller id |
| ClusterMeaning.ConditionsMean | engine/src/cluster.rs:299-376 | A condition is stated exactly when it is one of the seven, some finding has its text and none has another |
| ClusterMeaning.RangesMean | engine/src/cluster.rs:377-433 | A range is reported exactly when it is one of the five, its ends are attained and bound all findings, it is shown in its metric and marked informative by the cutoff; a health only where every finding has a finite one |
| ClusterMeaning.IdMeans | engine/src/cluster.rs:473-511 | An id joins the consequences' names by plus signs, and adds the instruction exactly when another key has the same ones |
| ClusterTotals.ClustersConserveAffected | engine/src/cluster.rs:440-547 | Cluster sizes add up to the affected positions, and cluster collateral and debt to the affected capital, clamped once |
| ClusterTotals.GroupsConserve | engine/src/cluster.rs:451-471 | Grouping by key conserves any additive quantity |
| ClusterTotals.FindingsAreListedOnce | engine/src/cluster.rs:451-547 | With distinct ids a finding is listed by one cluster only |
| ClusterTotals.ClusterCriticalThroughout | engine/src/cluster.rs:525 | In a run every position of a cluster is critical exactly when the cluster is |
| ClusterTotals.AffectedFindings | engine/src/cluster.rs:452-464 | The findings that enter clusters are exactly the affected records, in order |
| Reports.NewReport | engine/src/report.rs:75-159 | A report is built exactly when counters and net value are representable, and then all its parts describe the diffs |
| Reports.CountOutcomes | engine/src/report.rs:82-141 | The counting loop tallies every outcome, severity, category and compute extreme, and drops empty categories |
| Reports.OutcomesPartition | engine/src/report.rs:112-135 | Identical, compute-only and changed add up to the fixtures; critical, high and warning to the changed |
| Reports.CategoriesPartition | engine/src/report.rs:90-103 | The category counts cover the run |
| Reports.CriticalCountsAgree | engine/src/report.rs:143-145 | The economic summary never counts more critical positions than the behavioural one, and as many when every fixture has a position |
| Reports.LookupIsUnambiguous | engine/src/report.rs:161-164 | A cluster is found by its id, with or without the group prefix, and no other is |
| Reports.FindsFirstDiff | engine/src/report.rs:166-168 | A diff is looked up as the first of its fixture id |
| Reports.FindsFirstFixture | engine/src/lib.rs:170-175 | A cluster's representative is looked up as the first fixture of its id |
| Reports.ThresholdMeans | engine/src/report.rs:102-110 | The threshold counter counts a compute change of thirty percent or more either way; the count aborts on the one percentage without a magnitude |
| Reports.CategoryNamesMean | engine/src/types.rs:64-92 | Each of the nine categories is counted under its own name |
| Diff.Compare | engine/src/diff.rs:314-497 | The pushing loops over labels, fields and invocations compute the specified list of differences, whose content DiffContents states on the two results, and the comparison aborts exactly when the compute delta overflows |
| DiffContents.DifferencesAre | engine/src/diff.rs:314-497 | A difference is in the list exactly when it is true of the two results: the outcome flags and errors; a balance before and after with their difference as cast; an account's own field, or a number or address at its place in the bytes of a position or market, with both sides as shown, the difference where it fits 64 bits and the remark; a health crossing 1.0; bytes shown raw from where they first part, where no field speaks for them; the invocations; both compute counters with delta and percentage |
| DiffContents.DifferencesOnceEach | engine/src/diff.rs:314-497 | No two entries of the list are about one outcome, one balance, one field or one status |
| DiffContents.NumberIsReportedOnce | engine/src/diff.rs:426-444 | A numeric field that moved from x to y in a position held on both sides has exactly one entry, with x first, y second and y minus x where that fits 64 bits |
| DiffContents.ComputeDeltaMeans | engine/src/diff.rs:220-227 | A comparison has a compute delta exactly when both sides report their units and these differ |
| DiffProperties.ClassificationDecides | engine/src/diff.rs:229-237 | Identical exactly when behaviour and compute agree, compute-only exactly when only compute differs, under either decoder |
| DiffProperties.OpaqueAgreementIsEquality | engine/src/diff.rs:314-497 | Without a decoder, agreeing behaviour is equality of success, accounts and invocations |
| DiffProperties.VersionByteIsInvisible | engine/src/interpret.rs:105-149 | Two results that differ only in a decoded account's version byte are called identical |
| DiffProperties.InvocationKeyInjective | engine/src/diff.rs:263-275 | Two invocations have one key exactly when they are equal, for all program names |
| DiffProperties.CriticalIffDecisive | engine/src/diff.rs:213-241 | Critical exactly when an outcome or a liquidation status changed |
| DiffProperties.SeverityMeans | engine/src/diff.rs:123-147 | The level of a difference, by what changed and, for compute, by five and thirty percent |
| DiffProperties.OutcomeSeverityMeans | engine/src/diff.rs:213-218 | A finding's severity is the worst level among its behavioural differences, and absent exactly when there are none |
| DiffProperties.MaterialIsEveryOutcome | engine/src/diff.rs:244-252 | The material list keeps every behavioural difference, is ordered worst first, and keeps differences of one level in the order of the comparison |
| DiffProperties.BalanceDeltaIsExactWhen | engine/src/diff.rs:350-360 | The reported lamport delta is exact precisely within 64-bit signed range |
| DiffProperties.PercentageIsExactWhen | engine/src/diff.rs:474-484 | The reported percentage is exact precisely below the growth factor that overflows 32 bits |
| DiffProperties.PercentageIsExactInBudget | engine/src/diff.rs:474-484 | Within the platform's compute limit, growth from at least seven units is reported exactly |
| DiffProperties.ComputeDeltaIsExactWhen | engine/src/diff.rs:479-484 | The compute delta is reported exactly precisely when both counters lie on the same side of 2^63 |
| DiffProperties.ComputeExplosionReadsAsNoise | engine/src/diff.rs:136-146 | Counters beyond any transaction's reach for which the comparison reports zero percent and the lowest severity |
| Interpret.FieldsAndTailDecide | engine/src/interpret.rs:105-149 | Comparing decoded fields and the bytes past the struct is comparing the bytes, the version byte aside |
| Interpret.EconomicsAreRead | engine/src/interpret.rs:185-243 | An account has economics exactly when it is long enough and tagged as a position; its amounts, price and health are those at their places in the bytes, its value the floor, its debt value the debt, its net value their difference, and it is liquidatable below 1.0 |
| Interpret.InstructionNamesMean | engine/src/interpret.rs:221-234 | A payload is named after its tag in declaration order, and two payloads have one name exactly when they carry the same known tag or neither does |
| Interpret.HealthIsWritten | engine/src/interpret.rs:45-50 | A health is written with six decimals that read back as it, the infinite one in words |
| Interpret.SolIsWritten | engine/src/interpret.rs:60-66 | Lamports are written with nine decimals that read back as them |
| Impact.CollectConsequences | engine/src/impact.rs:103-134 | The collecting loop, sort and removal of repeats compute the consequences |
| Impact.ConsequencesExactly | engine/src/impact.rs:103-134 | Which consequences hold, each in both directions; the list is ordered and without repeats |
| ClusterMeaning.ConsequencesInOrder | engine/src/impact.rs:41-56 | Consequences are ordered as they are declared |
| Impact.LayersAgree | engine/src/impact.rs:96-134 | Critical exactly when a consequence beyond changed values is present; affected exactly when any is; changed values stand alone |
| Impact.LiquidationIsReadFromBytes | engine/src/diff.rs:386-459 | Newly (no longer) liquidatable exactly when some account decodes as a position on both sides and its cached health crosses 1.0 down (up) |
| Totals.Summarize | engine/src/impact.rs:240-281 | The summary loop totals every group exactly, and aborts exactly when the net value does not fit |
| SummaryFacts.SummaryMeans | engine/src/impact.rs:240-281 | Each group of a run's summary counts, and adds up once clamped, exactly the records its name says: all, those with a consequence, those with one beyond changed values, the newly liquidatable, and each consequence |
| SummaryFacts.EvaluateMeans | engine/src/impact.rs:162-185 | A record exists exactly when the fixture's first position account decodes as one; it holds the economics before, those the first build left and those the second left, and its flags say whether any behaviour, or an outcome or status, changed |
| SummaryFacts.RecordsAre | engine/src/impact.rs:284-293 | For distinct fixture ids the records are those of the comparisons, each with the fixture of its id |
| Totals.RecordsAreCoherent | engine/src/impact.rs:162-185 | The flags of every record follow from its consequences |
| Totals.AffectedIsCriticalPlusValueChanged | engine/src/impact.rs:240-293 | Affected positions are the critical ones plus the value-changed ones |
| Totals.SummaryFits | engine/src/impact.rs:240-281 | No run of up to five hundred million positions can make the summary abort |
| Money.ParserIsExact | engine/src/money.rs:43-79 | A text is read as an amount exactly when it spells that amount with an optional sign and at most six decimals |
| Money.SpellingsParse | engine/src/money.rs:43-79 | Every well-formed spelling is read as its exact value, or refused for size alone |
| Money.UnsignedParserIsExact | engine/src/money.rs:154-160 | An unsigned amount is read exactly from its spellings without a minus sign, and from negative zero; any other negative spelling is refused as negative |
| Money.SignedParserIsExact | engine/src/money.rs:229-237 | A signed amount is read exactly from the spellings of numbers that fit, the least one included |
| Money.MicroMeans | engine/src/money.rs:43-79 | A spelling is worth all its digits read as one number, times ten for each decimal it leaves out |
| Money.TrimMeans | engine/src/money.rs:43-44 | Before reading, white space goes from both ends, all of it and nothing else |
| Money.UsdRoundTrip | engine/src/money.rs:144-160 | Writing and reading back is the identity on every unsigned amount |
| Money.SignedUsdRoundTrip | engine/src/money.rs:219-236 | The same for every signed amount, the least one included |
| Money.ShortUsdRoundTrip | engine/src/corpus.rs:96-101 | The trimmed dollar form reads back to every 64-bit amount |
| Money.GroupThousands | engine/src/money.rs:29-39 | The loop writes the grouped form |
| Money.GroupingIsRight | engine/src/money.rs:29-39 | Erasing commas gives the digits back; commas stand exactly at every fourth place from the right and never first |
| Money.SumIsClamped | engine/src/money.rs:170-174 | A saturating total is the true total clamped once |
| Money.SumForgetsOrder | engine/src/money.rs:170-174 | Totals do not depend on order |
| Money.CentsAreNearest | engine/src/money.rs:86-88 | Rounding to cents gives the only number of cents within half a cent, ties up |
| Money.DollarsAreWritten | engine/src/money.rs:149-152 | Displayed dollars, commas aside, write the nearest cents with two decimals |
| Money.UsdIsWritten | engine/src/money.rs:144-146 | Full amounts are written with six decimals, negative ones after a minus sign |
| Money.SignedAssociativity | engine/src/money.rs:215-217 | Signed saturating addition is associative exactly when no overflowing pair meets a step back toward zero |
| Money.SignedSubIsExact | engine/src/money.rs:120-131 | The signed difference is present exactly when it fits, and is then the exact difference |
| SignedTotals.SignedTotalForgetsOrderWhen | engine/src/money.rs:246-250 | A signed total is the same for every order of its amounts exactly when gains fit the upper bound or there are no losses, and losses fit the lower bound or there are no gains |
| SignedTotals.ExtremeTotals | engine/src/money.rs:239-250 | The totals of the two extreme orders, gains first and losses first |
| SignedTotals.SumIsExact | engine/src/money.rs:239-250 | A signed total is exact as long as neither bound can be reached |
| Reference.ValueIsTrueFloor | interface/src/lib.rs:137-144 | For all 256 exponents the valuation is the true floor of amount times price over the scale |
| Reference.AdjustedIsFloor | interface/src/lib.rs:147-162 | Collateral value and adjusted collateral both round down, to the last micro-dollar |
| Reference.HealthMeans | interface/src/lib.rs:164-175 | Health reaches t exactly when t times the debt is covered by the adjusted collateral at health scale, debt-free and saturated positions included |
| Reference.HealthDebtGalois | interface/src/lib.rs:159-175 | Health reaches a positive target exactly when debt is at most the debt computed for it, through all floors and saturations |
| Reference.TargetHealthIsExactWhen | engine/src/corpus.rs:404-408 | With n the adjusted collateral at health scale, the computed debt reaches at least the target, and exactly the target if and only if the remainder of n by the target is below the quotient, or, where the debt saturates, n is below the next target times the largest debt |
| Reference.CorpusTargetsAreMet | engine/src/corpus.rs:511-524 | All eight targets the corpus asks for are met exactly |
| Reference.TargetHealthCanBeMissed | engine/src/corpus.rs:404-408 | A concrete input, none of the corpus' own, that misses its target |
| Reference.LiquidatableIffUnderwater | interface/src/lib.rs:159-179 | Liquidatable exactly when debt exceeds adjusted collateral |
| Reference.HealthMonotone | interface/src/lib.rs:154-175 | Health grows with collateral, price and threshold and falls with debt |
| Reference.BoundaryWindow | engine/src/corpus.rs:13-21 | Truncating to whole SOL turns healthy into liquidatable exactly for debts between the two adjusted values |
| Reference.BoundaryWindowWidth | engine/src/corpus.rs:13-21 | That window is empty for whole SOL and no wider than one SOL's adjusted worth plus one |
| Reference.WholeSolIsFloor | engine/src/corpus.rs:13-21 | The whole SOL of an amount are its largest multiple of a billion lamports |
| Layout.PositionCodec | interface/src/lib.rs:71-88 | A block decodes to a position exactly when it is that position's encoding |
| Layout.MarketCodec | interface/src/lib.rs:48-60 | The same for a market |
| Hexfmt.Decode | engine/src/hexfmt.rs:18-33 | Reading succeeds exactly on even-length hexadecimal text and yields the bytes whose hex form it is |
| Hexfmt.Encode | engine/src/hexfmt.rs:9-15 | The loop writes the hex form |
| Hexfmt.RoundTrip | engine/src/hexfmt.rs:9-33 | Decoding what was encoded gives the bytes back |
| Hexfmt.HexInjective | engine/src/hexfmt.rs:9-33 | Equal hex forms come from equal bytes, so decoding an encoding is lossless |
| RunStore.Database.SyncRun | cloud/src/api.rs:523-593 | One request alone computes the specified answer and tables, whose content AnswerMeans and SyncWrites state |
| RunStore.AnswerMeans | cloud/src/api.rs:548-584 | Created exactly for a new run; refused exactly on another core, or another search where both have one; a search attached exactly to the same core without one |
| RunStore.SyncWrites | cloud/src/api.rs:526-593 | A created row is the document's in every field; an attached search brings its text and summary and leaves the rest of the row; no other row moves; unless refused, the link is there and names the sender if it is new |
| RunStore.Database.RecordLink | cloud/src/api.rs:349-363 | A link is inserted once and an existing one kept as it is |
| RunStore.SyncExtends | cloud/migrations/0001_init.sql:144-169 | A sync only extends the tables within what the update trigger allows, the summary moving only with the search; a conflict changes nothing, links included |
| RunStore.ResendIsUnchanged | cloud/src/api.rs:549-584 | A document is wholly stored exactly when re-sending it answers unchanged and changes nothing |
| RunStore.SyncForgetsOrder | cloud/src/api.rs:523-593 | Any two orders of documents that do not contradict each other, repeats and refused ones included, end in the same digests and links |
| RunStore.DigestsForgetOrderWhen | cloud/src/api.rs:523-593 | The digests are the same for every order of arrival if and only if the documents the stored rows do not refuse are pairwise compatible |
| RunStore.ProjectsForgetOrderWhen | cloud/src/api.rs:523-586 | The local projects named by the rows are the same for every order of arrival if and only if the documents of each new run come from one local project |
| RunStore.FirstWriterWins | cloud/src/api.rs:549-584 | Concrete pairs, one over cores and one over search results, for which order matters |
| RunStore.FirstWriterNamesTheProject | cloud/src/api.rs:549-586 | Compatible documents exist for which arrival order decides the local project a row names |
| RunProtocol.Linearizable | cloud/src/api.rs:523-593 | Every interleaving of transactions equals the requests one after another in the order their answers took effect, with the same answers |
| RunProtocol.RunsAreWriteOnce | cloud/src/api.rs:549-584 | Over every interleaving core digest and texts never change and a search appears at most once and stays |
| RunProtocol.RowsComeFromRequests | cloud/src/api.rs:526-572 | In every reachable state a row's search and summary come together from one finished request, or the initial row, and so does the rest of it from the request that created it |
| RunProtocol.LinksComeFromRequests | cloud/src/api.rs:349-363 | In every reachable state a link names whom it named initially, a direct linker, or the sender of an accepted document |
| RunProtocol.OpenTransactionsAreInvisible | cloud/src/api.rs:524-593 | Only a commit or a direct link changes the tables |
| RunProtocol.FinishIsAnswer | cloud/src/api.rs:548-593 | A transaction that finishes gives the answer, and has the effect, of the whole request at that moment |
| RunProtocol.ResendAnswersUnchanged | cloud/src/api.rs:565-584 | Once a document is accepted, any request with it that finishes later answers unchanged |
| RunProtocol.InterleavingsAgree | cloud/src/api.rs:523-593 | Two runs of the service over the same documents, none contradicting another that can be accepted, end with the same digests |
| RunProtocol.NoDeadlock | cloud/src/api.rs:526-593 | Row and link locks never deadlock |
| RecordStore.ParentsAlwaysExist | cloud/src/api.rs:632-677 | In every reachable store each counterexample has its parent run with the local project it was checked against, and each reproduction such a counterexample |
| RecordStore.InsertFindsParent | cloud/src/api.rs:654-660 | The insert after a passed check always finds its parent: no foreign-key failure, without a transaction |
| RecordStore.RecordsAreImmutable | cloud/src/api.rs:654-751 | Runs and records are never removed, rewritten or re-homed |
| RecordStore.ReplyMeans | cloud/src/api.rs:654-677 | Accepted exactly when the table holds the sent digest afterwards, refused as different exactly when it holds another; a creation adds the record itself under its key, and no other reply changes a table |
| RecordStore.CheckMeans | cloud/src/api.rs:632-652 | A request is refused at its check exactly when the parent it names is missing, comes from another local project, or does not bind |
| RecordStore.CounterexamplesComeFromRequests | cloud/src/api.rs:654-677 | Every stored counterexample is, in full, what one request sent that was answered as having created it |
| RecordStore.ReproductionsComeFromRequests | cloud/src/api.rs:728-751 | The same for reproductions |
| RecordStore.CallsProgress | cloud/src/api.rs:622-677 | An open request can always take its next step |
| RecordStore.AcceptedDigestStays | cloud/src/api.rs:661-677 | An accepted digest stays, so a re-send is never refused as different |
| DeviceAuth.OneTokenPerCode | cloud/src/auth.rs:678-738 | Over every interleaving a device code yields at most one token, on an approval made before expiry and a poll that found the code unexpired |
| DeviceAuth.TokenHasApproval | cloud/src/auth.rs:658-735 | Every token goes back to an earlier step in which its user approved its code, on a request begun before the code expired |
| DeviceAuth.TokenIsForApprover | cloud/src/auth.rs:658-735 | A token is only ever for the user the code was approved by, and a denied code never yields one |
| DeviceAuth.RowHistory | cloud/src/auth.rs:558-735 | A row's approver never changes, denied and consumed are final, and a cleared code never returns |
| DeviceAuth.InvKept | cloud/src/auth.rs:558-735 | Approved and denied exclude each other, consumed implies approved, decisions precede expiry, tokens match their rows: kept by every step |
| DeviceAuth.PollMeans | cloud/src/auth.rs:689-735 | A committed poll is granted to the approver exactly when its row is approved, minting one token and consuming the code; undecided, it is told to slow down exactly when another poll touched the row under two seconds before, and to wait otherwise, and only the time of the last poll changes |
| DeviceAuth.SightMeans | cloud/src/auth.rs:685-701 | On sight of its row a poll is answered expired exactly for an unknown, used or expired code, denied exactly for an open denied one, and goes on holding the row exactly otherwise; no row changes and nothing is minted |
| DevicePolls.PatientPollIsNotSlowed | cloud/src/auth.rs:706-711 | Over every interleaving a first poll, and one begun at least the announced three seconds after every earlier poll of its code, is never told to slow down |
| DevicePolls.SlowDownHasCause | cloud/src/auth.rs:702-711 | Whoever is told to slow down has an earlier committed poll of that code, begun under two seconds before |
| DevicePolls.CodesLiveTenMinutes | cloud/src/auth.rs:572-584 | In every reachable state a code expires exactly ten minutes after the step that inserted its row, and keeps the user code and client of its request |
| DevicePolls.InsertMeans | cloud/src/auth.rs:572-584 | Inserting a code adds one undecided, unused row, exactly when its user code is free |
| DevicePolls.PurgeMeans | cloud/src/auth.rs:567-571 | Clearing removes exactly the codes that expired over a day before the request began |
| DevicePolls.DecisionMeans | cloud/src/auth.rs:656-669 | A decision is taken only on an open, unexpired code, writes the approver or the denial and nothing else, and cannot be refused while it can be taken |
| DeviceAuth.RequestsProgress | cloud/src/auth.rs:558-735 | Every open request can take its next step or waits for a row whose poll can commit |
| DeviceAuth.ShownPendingIsDecidable | cloud/src/auth.rs:616-627 | The page's pending state is decidable but for the instant of expiry |
| DeviceAuth.ShownStateMeans | cloud/src/auth.rs:616-627 | On every row that can occur the page's used, denied, approved and expired are what the row says |
| DeviceAuth.LetterByLetter | cloud/src/auth.rs:539-544 | Typed text is read letter by letter: an ASCII letter as its capital, anything else not at all |
| DeviceAuth.CodesNormalize | cloud/src/auth.rs:539-550 | A displayed code, four capitals, a dash and four capitals, normalizes to itself, and typed text to it exactly when its letters are the same eight |

## Left out

- Program execution, rent, addresses and signing: execution is a parameter, addresses are opaque text, the vault's rent floor is the constant 890880.
- Base58: addresses appear in rendered field text as hexadecimal, which is injective like the original.
- Error texts of the parser and of the service: the model keeps which inputs are refused and how, not the wording.
- `i128` overflow of the spread product in `is_informative`: the product is formed in unbounded integers.
- Minimizer.Minimize: asks that, once the first account labelled as a position can be read, every other one be at least 110 bytes long, because the original aborts on a shorter second one.
- Shrink.Variant: asks the same, for the same reason.
- Shrink.VariantExistsWhen: asks the same, for the same reason.
- Engine.MinimizeClusters: asks the same of the representatives it minimizes. An abort of the comparison inside the search is modelled as an error, which ends the pass likewise.
- DeviceAuth.OneTokenPerCode: assumes freshly drawn device codes never repeat; user codes are unique only among stored rows, as the table demands.
- RunProtocol.Linearizable: assumes the database's read-committed isolation with unique-key waits and row locks, as described at the head of the module; removal of whole projects is not part of the model.
- RecordStore.ParentsAlwaysExist: the contract between a record and its parent is an arbitrary predicate; it was met by a version of the parent run that can since have gained only a search result.
- In-place writes into an account's byte buffer and borrowed fixtures: accounts are values, so aliasing between them is not expressed.
- Corpus generation, seeds and instruction encoding: constants without a law of their own.
- Report rendering, JSON assembly, command line, readiness, rollout and notice modules: output formats and wiring.
- Sign-in throttling, sessions, password hashing, cookies and headers: the throttle is a counter per address, the rest is foreign code.
- User, workspace and token management endpoints: single-row reads and writes.
- Frontend and scripts.
