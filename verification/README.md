# Verification of the effect-utils CI tooling

A Dafny model of the parts of this repository's tooling that decide something: the lexer behind the
baseline-migration checker, the measurement regression gate, the promotion of pull-request snapshots to
npm, the native-binding closure audit, and the small printers and parsers between them. `dafny verify dfyconfig.toml`
checks everything.

| modules | what they model |
|---|---|
| `Masker`, `MaskerGrammar`, `MaskerParser`, `MaskerLoop` | blanking comments, strings and template text in place, against a recursive lexical grammar with printer and reader |
| `MaskedText`, `Delimiters`, `StaticStrings`, `TemplateScan`, `Interpolations` | what masking keeps, line/column reports, and the two other scanners, which must agree with the masker, also across template interpolations |
| `Statistics`, `Gate`, `Verdicts`, `GateLaws`, `Policies`, `PolicyVerdicts`, `Rollup`, `RowsByKey`, `PairedException` | median, percentile and MAD; the verdict on one row, told from its inputs, and its laws; the built-in policies; grouping, comparing and the verdict on whole documents; the exceptional paired row |
| `Measure`, `MeasuredFile` | the sampling loop that writes head and base samples, the join of the two, and what the file holds |
| `Snapshot`, `SnapshotRuns`, `SnapshotSteps`, `SnapshotJob`, `Promotion` | snapshot promotion: its checks, the protocol as a transition system, the publish and verify loops, and the way from the producer to the receipt |
| `PackageNames`, `Closure`, `AuditTold`, `InstalledTree` | package names in lockfile keys and store directories, the audit that uses them, told on its lists, and the two together |
| `RelativePath`, `ShellQuote`, `GithubRefs`, `GithubPatterns`, `DevenvInputs`, `DevenvLines`, `DevenvBlocks`, `GithubOutput` | relative paths, shell quoting, GitHub reference spellings, devenv input blocks, the GitHub output file |
| `Basics` | options, lines, joining |

Loops that update variables are methods with invariants, proved against functions on values; objects with changing
fields (the registry, the output file) are classes. The laws are lemmas about those functions.

Numbers of the gate are reals: rounding is not modelled. Digests are functions; what they protect is proved
under the hypothesis that SHA-256 and SHA-512 are injective. Answers of the network (a registry query that
fails, the contents of a downloaded artifact) and the outcomes of measured commands are parameters, so that every
statement holds for all of them.

## Findings

Where a promise holds only under a condition, the condition is proved, and each entry says whether it is the exact one.

- The masker and `findMatchingDelimiter` (`context/effect-4/check-baseline-migration-markers.ts:559-660` and `716-780`)
  agree on every source without `${`, and on many with it. The scanner ends a template with that template if and only
  if no interpolation holds an unescaped backquote (`TemplateScan.TemplateEndsWithItself`). A template moves the end of
  no call around it if and only if the brackets that masking leaves visible in it are balanced
  (`Interpolations.TransparentIsBalanced`). If both hold of the templates that start in the span of a call, at its
  level, the ends agree, also for a call that stands, and ends, inside an interpolation (`Interpolations.EndsAgree`).
  For a whole call the two conditions together are sufficient and not necessary: `Delimiters.InterpolationsDisagree`
  and `Interpolations.UnbalancedDisagrees` are calls that break the one or the other and have different ends, and
  `Interpolations.ErrorsCancel` is one where two stray backquotes cancel.
- The upper quartile (`genie/ci-workflow/measurements.ts:2051-2056`) is at least the median unless there are exactly
  two, different, samples: `percentile` floors its index, and the median of two is their mean. The condition is exact
  (`Statistics.MedianBelowUpperQuartile`).
- In paired mode a row whose plain difference is within the noise floor passes although its paired evidence may exceed
  the warn budget (`genie/ci-workflow/measurements.ts:2220-2268`); then, and only then, a passing row has an impact
  above 1 (`GateLaws.PassBoundsImpact`). The case occurs under a built-in policy: five pairs with equal medians, four of
  them slower by ten seconds, pass with an impact above 9 (`PairedException.PassWithHighImpact`).
- An output whose value has line breaks (`packages/@overeng/ci-tools/src/deploy-io.ts:24-25`) is lost if its name ends
  in `<`: the reader finds the first `<<` one character early. The condition is exact (`GithubOutput.ReadsBackExactly`).
- In a devenv file (`genie/ci-workflow/megarepo.ts:354-390`) a printed block followed by dedented content gives exactly
  the printed inputs if and only if the lines behind that content make no input: an `inputs:` line that opens a block,
  a deeper name line, a `url:` line, and no closing line between (`DevenvBlocks.OnlyThePrintedInputs`;
  `DevenvBlocks.SecondBlockIsRead` is a file with further inputs). An `inputs:` line that is itself the dedented line only closes the
  first block, and the inputs under it are lost (`DevenvBlocks.AdjacentBlocks`).

## Model

| member | source | states |
|---|---|---|
| MaskerLoop.MaskCommentsAndStrings | context/effect-4/check-baseline-migration-markers.ts:559-660 | for every source the in-place loop returns the text of the source's lexical tree in which exactly the code characters, at any depth of template nesting, are still visible |
| MaskerLoop.MaskStep | context/effect-4/check-baseline-migration-markers.ts:570-657 | one iteration on the array: at most the one or two characters it consumes are blanked, and mode, escape flag and brace stack move as the specification says |
| MaskerGrammar.CodeRuns | context/effect-4/check-baseline-migration-markers.ts:570-657 | printing any lexical tree and running the masker on it blanks exactly its non-code characters, in any enclosing nesting and before any following text |
| MaskerLoop.MaskOfPrint | context/effect-4/check-baseline-migration-markers.ts:559-660 | the same for whole files, with the loop's final mode, escape flag and stack read off the tree |
| MaskerParser.ParsePrints | context/effect-4/check-baseline-migration-markers.ts:559-660 | every text is the print of a lexical tree, finished or cut off by the end of the file |
| MaskerParser.PrintParses | context/effect-4/check-baseline-migration-markers.ts:559-660 | the grammar is unambiguous: reading a printed tree, before any following text, gives that tree back |
| MaskerLoop.TreeIsUnique | context/effect-4/check-baseline-migration-markers.ts:559-660 | a tree is the tree of a source if and only if it is lexical and prints that source |
| MaskerGrammar.DepthsCountBraces | context/effect-4/check-baseline-migration-markers.ts:642-654 | the stack holds, for each interpolation that is open at the end of a text, its opening braces minus its closing ones, outermost first |
| MaskerLoop.LoopInvariant | context/effect-4/check-baseline-migration-markers.ts:559-657 | at the head of every iteration on every source the stack is the open-brace counts of the enclosing interpolations, and `escaped` is false outside of strings and templates |
| MaskedText.MaskKeeps | context/effect-4/check-baseline-migration-markers.ts:554-568 | masking keeps length and line breaks and changes characters only to blanks, from any state of the loop |
| MaskedText.MaskIdempotent | context/effect-4/check-baseline-migration-markers.ts:559-660 | masking masked text changes nothing |
| MaskedText.FirstLocation | context/effect-4/check-baseline-migration-markers.ts:508-521 | lines and columns count from one |
| MaskedText.NextLocation | context/effect-4/check-baseline-migration-markers.ts:508-521 | one character further is the next column, or column 1 of the next line after a line break |
| MaskedText.LocationsIncrease | context/effect-4/check-baseline-migration-markers.ts:508-521 | later offsets have lexicographically later locations, so a location determines its offset |
| MaskedText.LocationsAgree | context/effect-4/check-baseline-migration-markers.ts:671-677 | a location computed on the source for an offset found in the masked text is the location in the masked text |
| Delimiters.FindMatchingDelimiter | context/effect-4/check-baseline-migration-markers.ts:716-780 | the scanner's result is that of a naive bracket counter on the text without what the scanner takes for quotes and comments |
| Delimiters.NaiveIsLeast | context/effect-4/check-baseline-migration-markers.ts:772-779 | a returned end is the least position behind a closing bracket where the depth is zero, and no result means that there is no such position |
| Delimiters.SpansAreLaminar | context/effect-4/check-baseline-migration-markers.ts:716-780 | a bracket that the scan from an outer bracket sees inside its span has a span of its own, which ends strictly inside |
| Delimiters.ScannersAgree | context/effect-4/check-baseline-migration-markers.ts:559-780 | without `${` the masker and the scanner, from matching states, see the same code in the same text |
| Delimiters.EndOnMaskedText | context/effect-4/check-baseline-migration-markers.ts:716-780 | in a source without `${`, from any bracket that survives masking, the scanner finds exactly the end, or the absence of one, that a naive counter finds on the masked text |
| Delimiters.InterpolationsDisagree | context/effect-4/check-baseline-migration-markers.ts:731-770 | a concrete source with an interpolation where the masked text has an end and the scanner finds none |
| TemplateScan.TemplateEndsWithItself | context/effect-4/check-baseline-migration-markers.ts:747-771 | the scanner's string for a template ends with the template, or runs to the end of the file with it, if and only if no interpolation holds an unescaped backquote |
| TemplateScan.OuterSeen | context/effect-4/check-baseline-migration-markers.ts:716-780 | up to any offset before which that holds of the templates of one level, the scanner sees exactly the code of that level, with strings, comments and whole templates blanked |
| Interpolations.SeenFromStart | context/effect-4/check-baseline-migration-markers.ts:559-780 | for a whole such source, what the scanner sees is the masked text with the interpolations blanked too |
| Interpolations.TransparentIsBalanced | context/effect-4/check-baseline-migration-markers.ts:772-776 | a piece of text moves the end of no call around it, at any depth and before any text, if and only if its brackets are balanced and never negative |
| Interpolations.EndsAgree | context/effect-4/check-baseline-migration-markers.ts:716-780 | from any bracket that survives masking, at any depth of interpolations, the scanner finds the end of a naive counter on the masked text, if the templates that start in that span at its level hold no unescaped backquote in interpolations and only balanced brackets, and a call inside an interpolation ends in it |
| Interpolations.ErrorsCancel | context/effect-4/check-baseline-migration-markers.ts:716-780 | a concrete call with stray backquotes whose ends still agree |
| Interpolations.UnbalancedDisagrees | context/effect-4/check-baseline-migration-markers.ts:716-780 | a concrete call whose template holds no stray backquote but an unbalanced bracket, with two different ends |
| StaticStrings.ReadStaticString | context/effect-4/check-baseline-migration-markers.ts:782-808 | the loop returns the first unescaped occurrence of the opening quote, or nothing |
| StaticStrings.TitleIsExact | context/effect-4/check-baseline-migration-markers.ts:782-808 | wherever a quote, any string or template glyphs and the same quote stand, the reader returns the text of the glyphs and the offset behind them |
| StaticStrings.TitleHasGlyphs | context/effect-4/check-baseline-migration-markers.ts:782-808 | and it returns nothing else: every result is such a string |
| StaticStrings.QuotedTitleIsLexeme | context/effect-4/check-baseline-migration-markers.ts:843-861 | a quoted title is the very string that the masker's grammar has there, with the same end |
| StaticStrings.TemplateTitleIsTemplate | context/effect-4/check-baseline-migration-markers.ts:843-861 | a template title without `${`, the kind that is kept, is the very template that the masker's grammar has there, with the same end |
| Statistics.ShiftLaws | genie/ci-workflow/measurements.ts:2043-2056 | adding a constant to all samples adds it to the median and to every percentile and leaves the MAD alone |
| Statistics.OrderIrrelevant | genie/ci-workflow/measurements.ts:2043-2056 | median, percentiles and MAD depend on the multiset of the samples only |
| Statistics.MajorityHoldsMedian | genie/ci-workflow/measurements.ts:2043-2049 | an interval with strictly more than half of the samples holds the median, whatever the rest are |
| Statistics.PercentilesAscend | genie/ci-workflow/measurements.ts:2051-2056 | percentiles ascend with their parameter |
| Statistics.LowPercentileBelowMedian | genie/ci-workflow/measurements.ts:2043-2056 | every percentile up to one half, so p25 too, is at most the median |
| Statistics.MedianBelowUpperQuartile | genie/ci-workflow/measurements.ts:2043-2056 | the median is at most p75 if and only if there are not exactly two different samples |
| Statistics.MedianOfSeconds | genie/ci-workflow/measurements.ts:1074-1110 | the converted median of the milliseconds is the median of the converted samples |
| Verdicts.PairedStatus | genie/ci-workflow/measurements.ts:2147-2241 | a paired row fails if and only if it has enough samples and pairs, its values differ by more than the noise floor, and its pairs exceed every amount of the fail budget (by the evidence quantile of the deltas, or by the median less every tolerance); it warns when they exceed only those of the warn budget |
| Verdicts.UnpairedVerdict | genie/ci-workflow/measurements.ts:2147-2241 | an unpaired row fails if and only if it has enough documents and samples, leaves the noise floor, is over both fail thresholds, and is not a historical row whose change is within the scatter of either or both sides; it warns over the warn thresholds only |
| Verdicts.EvidenceInterval | genie/ci-workflow/measurements.ts:2178-2179 | the evidence of a paired row reaches from the evidence quantile of its deltas to the opposite one, or as far around their median as the largest tolerance |
| Verdicts.BudgetIsLargest | genie/ci-workflow/measurements.ts:2180-2181 | a budget is the largest of the absolute amount, the relative amount, the noise floor and the guard |
| Verdicts.BandIsLargest | genie/ci-workflow/measurements.ts:2153-2173 | a tolerance is the largest of the noise floor, the two configured tolerances, three deviations and one and a half quartile ranges |
| Verdicts.PairedImpact | genie/ci-workflow/measurements.ts:2253-2262 | a paired row scores the point of its evidence interval nearest to zero, in warn budgets, and nothing within the noise floor |
| Verdicts.UnpairedImpact | genie/ci-workflow/measurements.ts:2253-2268 | a flagged row scores its whole change, every other one the part beyond both tolerance bands, with its sign, and nothing when excused or within the noise floor |
| Verdicts.UnpairedDirection | genie/ci-workflow/measurements.ts:2242-2252 | the direction of an unpaired row is the sign of its change, unless that is within the noise floor or excused |
| Verdicts.PairedDirection | genie/ci-workflow/measurements.ts:2242-2252 | the direction of a paired row is the sign of its median delta, unless that is within the noise floor or the evidence interval holds zero |
| Verdicts.KindOfChange | genie/ci-workflow/measurements.ts:2269-2278 | the kind says where the scored change stands between zero, the warn and the fail budget |
| Verdicts.KindWithoutScore | genie/ci-workflow/measurements.ts:2253-2278 | a row has no score exactly when it is disabled, then it is diagnostic, or without a baseline, then it is unknown |
| Verdicts.ReasonIsTrue | genie/ci-workflow/measurements.ts:2204-2221 | the reported reason really stands in the way, `eligible` means that nothing does, and gateable is the same as eligible |
| Verdicts.ConfidenceIsTrue | genie/ci-workflow/measurements.ts:2222-2241 | the confidence label is true of its row, and `threshold_exceeded` stands exactly on failing and warning rows |
| Verdicts.ConfidenceOfGateable | genie/ci-workflow/measurements.ts:2222-2234 | a gateable row beyond the noise floor is `paired_uncertain` exactly when its median but not its lower evidence exceeds the warn budget, and `within_robust_band` exactly when it is excused of an exceeded threshold |
| Verdicts.PercentileIsRanked | genie/ci-workflow/measurements.ts:2051-2056 | a percentile is the sample whose rank is the parameter's share of the last index, rounded down |
| Verdicts.MedianIsMiddle | genie/ci-workflow/measurements.ts:2043-2049 | the median is the sample of middle rank, or halfway between the two |
| Verdicts.StatsAreRanked | genie/ci-workflow/measurements.ts:2074-2105 | the value of several observations is their median, with p25 and p75 of quarter ranks on either side and the median distance as deviation |
| GateLaws.FlaggedStatus | genie/ci-workflow/measurements.ts:2194-2241 | outside of paired mode a row fails or warns if and only if it is gateable, leaves the noise floor, exceeds a threshold and is not excused by the robust band |
| GateLaws.SlowerIsNoBetter | genie/ci-workflow/measurements.ts:2142-2241 | in the unpaired modes, a row whose current statistics are shifted up never gets a better status, for non-negative budgets and a tolerance ratio between 0 and 1 |
| GateLaws.SlowerSamplesNoBetter | genie/ci-workflow/measurements.ts:2074-2241 | the same from the samples: adding `c >= 0` to every current sample never improves pass, warn, fail |
| GateLaws.StatusForcesImpact | genie/ci-workflow/measurements.ts:2178-2278 | in all modes a failing row scores above `failBudget / warnBudget` and is a `fail_boundary`, and a warning row scores above 1 |
| GateLaws.PassBoundsImpact | genie/ci-workflow/measurements.ts:2235-2268 | a gateable passing row scores at most 1, if and only if it is not a paired row that the noise floor excused while its evidence exceeds the warn budget |
| GateLaws.ImpactFollowsDirection | genie/ci-workflow/measurements.ts:2242-2268 | in every mode a positive score means regressed and a negative one improved, an unchanged row scores 0, and the score is absent exactly when the direction is unknown |
| GateLaws.OneDocument | genie/ci-workflow/measurements.ts:2074-2105 | with one current document the paired median that the gate reads is the median of the paired samples it reads |
| GateLaws.SelfRowPasses | genie/ci-workflow/measurements.ts:2142-2241 | in the unpaired modes a row compared with its own statistics passes, or is unknown when its value is not positive |
| PolicyVerdicts.BudgetPolicies | genie/ci-workflow/measurements.ts:2107-2136 | under the default policies for sizes and counts a row of one document fails above 200 MiB and 10 % (20 % for buckets), 500 paths and 10 %, or 3 and 50 %, and warns above the lower limits |
| PolicyVerdicts.DurationPolicy | genie/ci-workflow/measurements.ts:2107-2136 | a duration with ten documents and three samples fails above one second and 20 %, warns above a quarter second and 10 %, and is excused within past scatter |
| PolicyVerdicts.PairedProbes | genie/ci-workflow/measurements.ts:370-431 | under each probe preset, which samples and pairs a row needs and which limits its lower delta quartile has to exceed to fail or warn |
| PolicyVerdicts.SlackOfPolicies | genie/ci-workflow/measurements.ts:2107-2136 | under every built-in policy, which changes are reported as none, and which scatter of the baseline is allowed |
| PolicyVerdicts.TracedProbe | genie/ci-workflow/measurements.ts:371-384 | the traced shell probe is never gated nor scored |
| Policies.BuiltInPoliciesFit | genie/ci-workflow/measurements.ts:2107-2138 | every default policy and every devenv probe preset meets the conditions of the laws above, on every row |
| RowsByKey.ItemsStandAt | genie/ci-workflow/measurements.ts:2060-2072 | the items of a key are, in document order, exactly those of the observations that have the key |
| RowsByKey.RowsOfCurrentKeys | genie/ci-workflow/measurements.ts:2281-2290 | there is a row for every key of the current documents and for no other |
| RowsByKey.RowIsLocal | genie/ci-workflow/measurements.ts:2060-2363 | a row does not change when observations of other keys are added or removed on either side |
| RowsByKey.RowPolicyIsLatest | genie/ci-workflow/measurements.ts:2285-2345 | a row is judged by the policy and kind of the latest current observation of its key |
| RowsByKey.PairedRowsCarryTheirBaseline | genie/ci-workflow/measurements.ts:2292-2302 | a paired row with pairs is judged against their base side, whatever the baseline documents are |
| RowsByKey.MissingBaselineRow | genie/ci-workflow/measurements.ts:2306-2320 | without baseline and pairs a row is unknown, not gateable, and unscored |
| RowsByKey.OverallIsWorst | genie/ci-workflow/measurements.ts:2364-2377 | the overall verdict is as bad as the worst row |
| RowsByKey.ReadinessCounts | genie/ci-workflow/measurements.ts:2378-2393 | enabled rows are gateable or counted as not gateable, and enforceable means that none is left over |
| Rollup.RollupLaw | genie/ci-workflow/measurements.ts:2364-2393 | for any set of rows: gateable rows are enabled, overall pass implies enforceable, partial implies not enforceable, fail or warn implies a gateable row |
| Rollup.ComparisonsRollUp | genie/ci-workflow/measurements.ts:2281-2393 | every comparison of two lists of documents obeys that law |
| Rollup.SelfComparison | genie/ci-workflow/measurements.ts:2060-2393 | documents compared with themselves never warn or fail in the unpaired modes |
| PairedException.PassWithHighImpact | genie/ci-workflow/measurements.ts:2220-2268 | under a built-in probe policy five pairs with equal medians, four of them slower by ten seconds, are gateable and pass with an impact above 9 |
| Rollup.SlowerDocumentsNoBetter | genie/ci-workflow/measurements.ts:2060-2393 | slowing every current sample down equally never turns an overall fail into anything else, an overall warn into anything but warn or fail, nor partial into pass |
| Measure.MeasureProbe | genie/ci-workflow/measurements.ts:757-927 | every call, with any failures and early stop, leaves a bracketed list of comma-separated records that are exactly the turns up to the first failing head run |
| Measure.RunTurn | genie/ci-workflow/measurements.ts:827-921 | one turn appends base-then-head, head-then-base or head alone, well separated, and reports the head's status |
| MeasuredFile.FullFile | genie/ci-workflow/measurements.ts:789-921 | when no head run fails the file holds one unpaired warmup sample for each warmup, then one measured head sample for each repetition, numbered from one, and with pairing one base sample for each of these |
| MeasuredFile.FileTold | genie/ci-workflow/measurements.ts:789-925 | in every run the file ends with the first index whose head run fails, each index up to there has one head sample, and a base sample unless the head went first and failed |
| MeasuredFile.FileInOrder | genie/ci-workflow/measurements.ts:789-921 | indices never descend, and at one index the side comes first that the recorded order names |
| MeasuredFile.RecordsAndCommas | genie/ci-workflow/measurements.ts:844-846 | records stand at every even place of the list, with single commas between them |
| MeasuredFile.JoinTold | genie/ci-workflow/measurements.ts:694-707 | the joined pairs, in ascending order, are those of the reached measured indices where both runs succeeded, and no other |
| Measure.OneSamplePerSide | genie/ci-workflow/measurements.ts:794-921 | every measured index has at most one head sample and at most one base sample |
| Measure.TurnsAlternate | genie/ci-workflow/measurements.ts:827-828 | with pairing on, base-first and head-first turns differ by at most one, and the side whose turn it is first is never the rarer one |
| Measure.JoinIsExact | genie/ci-workflow/measurements.ts:694-707 | the join gives exactly one pair, in order, for each measured index where both sides succeeded, with that index's durations and their difference |
| Snapshot.HandoffIsValidated | genie/ci-workflow/pr-snapshot.ts:700-722 | an artifact that passes the handoff has the validated manifest, as many packages as were counted, and the validated bytes in every tarball |
| Promotion.ProducedIsAccepted | genie/ci-scripts/pr-snapshot-artifact.mjs:276-340 | what the producer packs for a valid identity passes validation and the handoff |
| Promotion.TarballNames | genie/ci-scripts/pr-snapshot-artifact.mjs:417-424 | an accepted tarball name is a non-empty word of letters, digits, dots, underscores and dashes before the extension |
| Promotion.IdentityFormats | genie/ci-scripts/pr-snapshot-artifact.mjs:7-7 | accepted heads are forty lower-case hexadecimal digits, accepted numbers are positive and exact in JavaScript |
| Promotion.ValidatedIdentity | genie/ci-scripts/pr-snapshot-artifact.mjs:355-425 | a validated manifest carries the trusted repository, numbers, head, version and topology, and the digest of every file |
| Promotion.PromotionCompletes | genie/ci-workflow/pr-snapshot.ts:475-830 | from any state, a validated candidate with an approved head and a registry without its cohort can be promoted to its receipt |
| Snapshot.ManifestNamesAreTrusted | genie/ci-scripts/pr-snapshot-artifact.mjs:396-453 | the packages of a validated manifest are exactly the trusted ones |
| Snapshot.VersionIdentifiesHead | genie/ci-scripts/pr-snapshot-artifact.mjs:124-128 | a snapshot version determines its pull request number and its 40-character head |
| Snapshot.PublishOneAddsOnlyMissing | genie/ci-workflow/pr-snapshot.ts:728-752 | a round that succeeds leaves the registry as it was if the version is there (then with the candidate's SHA-1), and else adds that version, with the candidate's bytes, and nothing more |
| SnapshotJob.VerifiedTold | genie/ci-workflow/pr-snapshot.ts:768-779 | one attempt succeeds if and only if the version is there with the integrity and its tag, if it was read, is not on another version |
| SnapshotRuns.NothingIsRetracted | genie/ci-workflow/pr-snapshot.ts:475-830 | no step of any job, crash or outsider takes away a published version, an attestation, a receipt or a candidate |
| SnapshotSteps.StepsGoForward | genie/ci-workflow/pr-snapshot.ts:475-830 | no step but a crash or the receipt takes a job back |
| SnapshotSteps.AttestedManifest | genie/ci-workflow/pr-snapshot.ts:500-523 | a job is attested only when it shows the validated manifest |
| SnapshotSteps.AuthorizedHead | genie/ci-workflow/pr-snapshot.ts:549-617 | an authorized job's head was approved when that was decided |
| SnapshotSteps.VerifiesAfterPublishing | genie/ci-workflow/pr-snapshot.ts:728-789 | in every run all listed versions are in the registry when a job's verification starts, and from then on |
| SnapshotRuns.StepKeepsInv | genie/ci-workflow/pr-snapshot.ts:475-830 | every step keeps the protocol's invariant: jobs past the recheck are attested and authorized, verified packages are in the registry with the artifact's bytes, receipts stand for complete cohorts |
| SnapshotRuns.PublishedIsImmutable | genie/ci-workflow/pr-snapshot.ts:728-752 | between any two states of a run published versions keep their contents and receipts stay |
| SnapshotRuns.ReceiptMeansComplete | genie/ci-workflow/pr-snapshot.ts:755-821 | in every run, with crashes, reruns and competing jobs, a receipt means that its candidate was attested and that every package of its manifest is in the registry with the validated bytes |
| SnapshotRuns.ReceiptsAgree | genie/ci-workflow/pr-snapshot.ts:755-821 | two receipts for one version, written at any times of a run, are about one pull request and one head, agree on the bytes of every package that both manifests name, and name the same packages under one trusted topology |
| SnapshotRuns.PublishedByAuthorizedJobs | genie/ci-workflow/pr-snapshot.ts:618-698 | whatever a promotion job publishes was attested and authorized, and its head was rechecked as approved since the job last crashed |
| SnapshotJob.NpmRegistry.Publish | genie/ci-workflow/pr-snapshot.ts:750-751 | the registry refuses an existing version and otherwise gains exactly that version and its tag |
| SnapshotJob.PublishCohort | genie/ci-workflow/pr-snapshot.ts:728-752 | the loop succeeds if and only if it does not crash and every package's version is absent, or present, seen, equal by SHA-1 and without a conflicting tag that was read; it leaves the registry with exactly the absent ones of the completed rounds added |
| SnapshotJob.LoopSucceeds | genie/ci-workflow/pr-snapshot.ts:728-752 | the same of the rounds as a function, for any answers of the registry |
| SnapshotJob.FreshCohortIsPublished | genie/ci-workflow/pr-snapshot.ts:728-752 | a cohort of which nothing is there yet is published completely, with the candidate's bytes and tag, whatever the queries answer |
| SnapshotJob.OnlyMissingArePublished | genie/ci-workflow/pr-snapshot.ts:728-752 | whatever the registry answers, the completed rounds add exactly the missing packages with the candidate's bytes and change nothing; the others match by SHA-1 |
| SnapshotJob.RerunCompletes | genie/ci-workflow/pr-snapshot.ts:728-752 | crash after any round and rerun: the rerun gets as far, and leaves the same registry, as a loop that never stopped |
| SnapshotJob.VerifyCohort | genie/ci-workflow/pr-snapshot.ts:760-789 | the step succeeds if and only if, within twelve attempts, every package is found with the candidate's SHA-512 integrity before a tag is read that is on another version, and their number is the validated one |
| PackageNames.PresentIsInstalled | genie/ci-scripts/native-binding-closure-check.ts:214-236 | over the store directories of any set of installed packages, the tree query is true exactly for their name and version pairs, whatever their peers |
| PackageNames.KeyRoundTrip | genie/ci-scripts/native-dep-policy-lib.ts:37-46 | name and version come back from every lockfile key, scoped or not, with or without peers |
| PackageNames.LongestPeersStripped | genie/ci-scripts/native-dep-policy-lib.ts:37-37 | exactly the longest parenthesised suffix on one line is cut off a key |
| PackageNames.LastAtSeparates | genie/ci-scripts/native-binding-closure-check.ts:238-243 | without peers the last `@` with something behind it separates name and version |
| PackageNames.NoVersion | genie/ci-scripts/native-binding-closure-check.ts:238-243 | a key without one is a name with the empty version |
| Closure.AuditNativeBindingClosure | genie/ci-scripts/native-binding-closure-check.ts:341-401 | the reported problems are exactly the required, supported, unwaived bindings of present consumers that the tree lacks, in lockfile order |
| AuditTold.ProblemsAreLacking | genie/ci-scripts/native-binding-closure-check.ts:341-401 | for all declared triples the problems are exactly the absent, unwaived bindings of a pure family whose every listed value is supported, pulled in by a present consumer |
| AuditTold.BuildProblems | genie/ci-scripts/native-binding-closure-check.ts:324-374 | for a build platform they are exactly those whose non-empty os, cpu and libc lists hold its set values |
| AuditTold.SharedProblems | genie/ci-scripts/native-binding-closure-check.ts:324-374 | two build platforms with different operating systems share a problem only if its triple lists both or none |
| AuditTold.NoBuildFiltersNothing | genie/ci-scripts/native-binding-closure-check.ts:368-374 | without a build platform that mode filters nothing |
| AuditTold.FamilyIsFirst | genie/ci-scripts/native-dep-policy-lib.ts:53-67 | a package belongs to the first policy key that is its name or goes on with `-` or `/` |
| InstalledTree.AuditOfInstalled | genie/ci-scripts/native-binding-closure-check.ts:214-401 | on the store directories and lockfile keys of any packages, the audit reports exactly the wanted bindings of installed consumers that are not installed |
| Closure.DetectActiveFamilies | genie/ci-scripts/native-binding-closure-check.ts:411-432 | the families are exactly those of which a present consumer pulls in a package |
| Closure.UnionOfBuildPlatforms | genie/ci-scripts/native-binding-closure-check.ts:324-374 | a problem is reported for all declared triples if and only if it is reported for some build platform made of supported values |
| Closure.CompleteForAll | genie/ci-scripts/native-binding-closure-check.ts:324-401 | so a tree is complete in the one mode if and only if it is complete in the other for every supported platform |
| Closure.WaiversRemoveExactly | genie/ci-scripts/native-binding-closure-check.ts:293-302 | adding waivers removes exactly the problems they match and keeps the order of the others |
| Closure.ProblemFamiliesAreActive | genie/ci-scripts/native-binding-closure-check.ts:403-432 | every reported problem is about a family that is detected as active |
| RelativePath.RelativeRepoPath | genie/external.ts:491-510 | for all paths without `.` and `..` segments, also from a bare `.`, the result leads from one directory to the other in as many steps as their distance; from a bare `.` to the path itself, in as many steps as it has segments |
| RelativePath.MoveIsOneStep | genie/external.ts:491-510 | no segment, `.` and `..` included, brings a directory closer to another by more than the one step it counts |
| RelativePath.NoShorterPath | genie/external.ts:491-510 | so no relative path leads there in fewer steps |
| ShellQuote.QuoteReadsBack | genie/ci-workflow/shared.ts:231 | the shell reads a quoted value, in front of anything, as that value |
| ShellQuote.SplitUndoesQuoting | genie/ci-workflow/shared.ts:231 | word splitting of any space-joined quoted words, empty ones too, gives the words, in every environment |
| ShellQuote.NestedQuoting | genie/ci-workflow/shared.ts:406-417 | quoting quoted commands to any depth is undone by splitting as often |
| ShellQuote.RetryPassesTheCommand | genie/ci-workflow/shared.ts:415-417 | in the one-line form the retry script gets its path, label and command as single words |
| ShellQuote.RetryScriptPassesTheCommand | genie/ci-workflow/shared.ts:419-422 | so it does in the two-line form that other scripts directories, the default argument included, take: the path survives the assignment and its expansion, line breaks and all |
| ShellQuote.ProbePassesTheCommand | genie/ci-workflow/measurements.ts:438-454 | `measure` gets its nine settings and the measured command word by word |
| GithubRefs.AllSpellings | genie/ci-workflow/megarepo.ts:201-247 | every address form with a path ref, a query ref and a hash ref, any of them or none, is read as the repository and the ref that counts: the hash's, else the query's, else the path's, and in the short form the hash's only |
| GithubPatterns.RepoAfterHostExactly | genie/ci-workflow/megarepo.ts:201-204 | behind a host a text names a repository if and only if it is an owner, a slash and a slash-free name, with at most a query or fragment on one line behind it |
| GithubPatterns.LeftmostHost | genie/ci-workflow/megarepo.ts:201-204 | the leftmost host with a repository behind it counts, and without one there is none |
| GithubPatterns.ParameterRead | genie/ci-workflow/megarepo.ts:211-212 | of the parameters of a query the first one whose decoded name is `ref` gives its decoded value |
| GithubPatterns.NameRead | genie/ci-workflow/megarepo.ts:211-212 | a parameter without `=` has the empty value |
| GithubPatterns.QueryOfValue | genie/ci-workflow/megarepo.ts:207-212 | the query begins behind the first question mark, without a second one |
| GithubPatterns.SchemeIsNoShortForm | genie/ci-workflow/megarepo.ts:239-239 | a scheme anywhere in the value, also in the ref, rules the short form out |
| GithubRefs.BareIsShort | genie/ci-workflow/megarepo.ts:239-245 | a value without scheme prefix, host and ref is a reference if and only if it is two non-empty names around one slash, the first not `.` or `..` |
| GithubRefs.SpellingsAgree | genie/ci-workflow/megarepo.ts:201-247 | every spelling of a plain repository and ref (six address forms, `.git` or not, the ref behind `#`, in the query or in the path) is read as that repository and that ref |
| GithubRefs.UrlFound | genie/ci-workflow/megarepo.ts:201-204 | the pattern finds owner and repository in an https address, and drops `.git` |
| GithubRefs.PartsReadBack | genie/ci-workflow/megarepo.ts:216-223 | owner, repository and a ref with any slashes come back from a slash-separated path |
| DevenvInputs.ExtractDevenvYamlInputs | genie/ci-workflow/megarepo.ts:354-390 | the loop over the lines finds what the scanner function finds |
| DevenvInputs.BlockReadsBack | genie/ci-workflow/megarepo.ts:354-390 | a printed inputs block, in any indentation and quoting, gives exactly its names and URLs; behind the first dedented line the file is scanned as if it began there |
| DevenvInputs.LastBlockReadsBack | genie/ci-workflow/megarepo.ts:354-390 | the same for a block at the end of the file |
| DevenvInputs.NoOtherBlock | genie/ci-workflow/megarepo.ts:363-369 | content without an `inputs:` line gives nothing |
| DevenvLines.NameMatchExactly | genie/ci-workflow/megarepo.ts:375-375 | a line names an input if and only if, behind its indentation, it is a word of letters, digits, dashes and underscores and a colon |
| DevenvLines.UrlOfLine | genie/ci-workflow/megarepo.ts:380-385 | any spacing around a URL is dropped |
| DevenvLines.BrokenUrl | genie/ci-workflow/megarepo.ts:380-380 | a value with a line terminator in it, such as a carriage return at its end, is no URL |
| DevenvLines.BlankUrl | genie/ci-workflow/megarepo.ts:380-380 | when only white space follows the colon, its last character counts as the value |
| DevenvLines.UnquoteTold | genie/ci-workflow/megarepo.ts:383-385 | quotes of one kind around a value are dropped once, and anything else stays |
| DevenvBlocks.ScanIsExact | genie/ci-workflow/megarepo.ts:354-390 | for every file the result is, in order, one input for each URL line that stands in an open block under a name line, with the last such name |
| DevenvBlocks.NothingScanned | genie/ci-workflow/megarepo.ts:354-390 | the result is empty if and only if no opening line, later name line and later URL line stand in one block |
| DevenvBlocks.OnlyThePrintedInputs | genie/ci-workflow/megarepo.ts:354-390 | a printed block before dedented content gives exactly the printed list if and only if the lines behind it make no input |
| DevenvBlocks.SeparatedBlocks | genie/ci-workflow/megarepo.ts:363-374 | two blocks with dedented content between them give both lists |
| DevenvBlocks.AdjacentBlocks | genie/ci-workflow/megarepo.ts:363-374 | a second block whose `inputs:` line closes the first one gives nothing |
| DevenvBlocks.SecondBlockIsRead | genie/ci-workflow/megarepo.ts:363-374 | a concrete file whose result is more than the first printed list |
| GithubOutput.OutputFile.AppendLine | packages/@overeng/ci-tools/src/deploy-io.ts:11-12 | the file grows by exactly the line |
| GithubOutput.OutputFile.AppendGithubOutput | packages/@overeng/ci-tools/src/deploy-io.ts:14-26 | the file grows by exactly one printed output |
| GithubOutput.WrittenForm | packages/@overeng/ci-tools/src/deploy-io.ts:19-25 | a value with a line feed or a carriage return is written as a block, every other one on one line |
| GithubOutput.ReadsBack | packages/@overeng/ci-tools/src/deploy-io.ts:14-26 | a well-formed output is read back as it was written, in front of whatever follows |
| GithubOutput.AllReadBack | packages/@overeng/ci-tools/src/deploy-io.ts:14-26 | any series of well-formed outputs is read back as that series |
| GithubOutput.ReadsBackExactly | packages/@overeng/ci-tools/src/deploy-io.ts:14-26 | an output comes back alone and unchanged if and only if its name is plain, does not end in `<` before a block, and the delimiter is not a line of the value |

## Left out

- MaskerGrammar: the grammar is the masker's own, not JavaScript's: regular-expression literals are code characters to both.
- GateLaws.SlowerSamplesNoBetter: says nothing about paired mode, where the verdict depends on the paired deltas and not on the samples that are shifted.
- Interpolations.EndsAgree: says nothing about a call inside an interpolation that does not end in it, or about spans where a stray backquote or an unbalanced template happens to do no harm.
- GithubRefs.SpellingsAgree: covers plain names (letters, digits, `-`, `_`, `.`, not ending in `.git`, owner not `.` or `..`) and refs that may also hold `/`; percent-decoding of query parameters is a parameter that leaves such refs alone.
- RelativePath.RelativeRepoPath: promises nothing for paths with `.` or `..` segments, which the source does not normalise.
- SnapshotJob.RerunCompletes: assumes that the registry answers the queries of both runs; with unanswered queries `SnapshotJob.OnlyMissingArePublished` still holds.
- SnapshotJob.VerifyCohort: does not model the waits between attempts, nor a registry that changes during verification, which `SnapshotRuns` covers.
- Snapshot: size limits, unpacking of tarballs and checks of their package.json, the publish list's sort order, file listing; digests are functions, not algorithms.
- SnapshotRuns: how approval and labels are evaluated (`approved` is the set of heads that would pass), and the upload of receipts.
- Gate: floating-point rounding; policy fields that are null or not numbers, and an evidence quantile outside 0 to 1; the fields min, max, p95, ratio and `withinBaselineRange`, which decide nothing; the `observation_key` text (keys are parameters).
- Measure: command output files, traces, warnings, expansion of the command's arguments, and the summary status and duration behind the loop.
- ShellQuote: the reader covers blanks, quotes, variables in double quotes and assignments; other expansions and operators outside of quotes make it give up. `withAppendedNixConfig`, which needs conditional parameter expansion, is not modelled.
- Closure: YAML and lockfile parsing, the directory walk, the texts of problems and waiver logs, and the sorting of the family list.
- GithubOutput: the reader is a line reader for the documented format, not the runner's own code.
- DevenvInputs: other YAML forms of inputs, such as flow maps or quoted names, which the scanner does not know either.
- Regular-expression discovery of `describe` and `test` calls, attached comments, `parsePatchSpecifier`, `parseWaivers` and `lockfileFloorViolations` would add only easy members.
- Rendering of comments and charts, artifact downloads, tool bootstrap, the GitHub API, the npm client and process exit codes are not part of this model.
