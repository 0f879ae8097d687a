# SuitCode, modelled and proved

SuitCode answers questions about a repository, plans the smallest set of tests and builds that
validates a change, and records what its tools were asked and what the answers cost. This project
models the parts of it that decide something over unbounded inputs or over whole runs, and proves
what they promise. `dafny verify dfyconfig.toml` checks all of it.

What is modelled, by area:

- **Change planning.** `test_minimizer*.dfy`, `build_minimizer*.dfy` and `change_set_*.dfy` follow
  the minimizer and the planner: grouping and ranking of test matches, the four build tiers, the
  fallback to dependents, and the exclusions that explain every drop.
- **Call analytics.** `recorder*.dfy` holds the recorder as an object and as interleaved steps,
  `invocations*.dfy` the collapse of its log, `token_economics*.dfy` the token accounting,
  `rolling_store*.dfy` the rolling files underneath and the order in which they are read,
  `redaction*.dfy` the redaction of arguments.
- **Rollouts.** `rollout*.dfy` holds the session parser, the transcript builder and the token
  estimator, which read the same events independently, and which events the builder accepts.
- **Printers and readers.** `framing*.dfy` (with `decimals.dfy`) for Content-Length frames, and
  `toml_*.dfy` and `codex_*.dfy` for the configuration file of the installer, as tables, lines and
  text.
- **Tasks.** `task_protocol.dfy` interleaves a task's worker with the message loop, one status
  read or one mark at a time, and `task_cancellation.dfy` says what becomes of a cancellation.
- **Repositories.** `repository_root.dfy`, `workspace.dfy`, `code_reference*.dfy` and
  `flow_preview*.dfy`.

Loops and objects of the source are methods and classes here, each proved against a specification
function; the lemmas are about those functions. What an operation returns is said once more of its
inputs alone, without those functions, in the modules called `*_outcome` and in
`rolling_store_packing.dfy`, `rolling_store_reading.dfy`, `recorder_flushes.dfy`, `task_cancellation.dfy`,
`rollout_counts.dfy`, `redaction_shape.dfy`, `toml_layout.dfy`, `codex_install_text.dfy` and
`framing_headers.dfy`. `ordering.dfy`, `stable_sort.dfy`,
`lexicographic.dfy`, `sums.dfy` and `first_per_key.dfy` hold what they share: Python's stable sort,
tuple comparison, grouped sums, and dict key order.

Ids, paths, labels, timestamps and provenance entries are opaque values with equality and a total
order (integers), except where their text matters: repository ids, tool names, configuration keys and files,
sensitive keys and frames. Answers of language servers, providers, clocks, id generators and token
counters are parameters.

Where the code does not do what one would expect, the project keeps the code and states the exact
condition:

- The second lookup in the test minimizer goes by reason alone. A dependent-component match without
  an owner, given before one with an owner, makes it drop the only matched test
  (`OwnerlessDependentDropsTheOnlyTest`, `EmptiedIff`). The planner's own helper always sets an owner.
- A repository-wide target together with two component targets of one action id makes the build
  minimizer fail in a validator (`RefusedIff`, `SharedActionIsRefused`). Only a direct caller can pass
  such a list: the repository's own is keyed by action id and refuses a repeated one
  (`src/suitcode/core/build_service.py:111-120`), which is the `UniqueActions` of `PlanOutcome`. In the
  dependent tier repository-wide targets go unmentioned (`RepositoryWideMentionedIff`,
  `RepositoryWideIsForgotten`); the planner never reaches that tier while one exists (`TierSafety`).
- The frame reader treats an empty body as the end of the stream (`StreamRoundTrip`).
- The TOML emitter prints keys unquoted, so a file is read back as what was written exactly if all
  its keys are bare (`HeaderNamesItsTableIff`, `TextRoundTripIff`). Installing under a name like
  `my.server` therefore reports a change every time (`SecondInstallSilentIff`,
  `DottedNameNeverSettles`).
- Archives are read in the text order of their names, which is the order in which they were made
  exactly if the instants of a stream's rollovers strictly increase (`ListedAsMadeIff`,
  `BurstIsReadOutOfOrder`). No event is lost or doubled otherwise (`LoadsExactlyWhatWasAppended`).
- A task cancelled before its worker starts is marked working again, and its result request can be
  answered with an empty stand-in (`TerminalIsTakenBackIff`, `EmptyReplyIff`,
  `CancelledTaskCanAnswerEmpty`). A cancellation and a completion can each replace the other
  (`TerminalIsReplacedIff` and its two runs).
- A capped list of references is sorted after the cut, so it is the front of the complete list only
  under a condition on what was found (`FileFrontIff`, `OwnerFrontIff`; `CappedIsNotAFront` is an input
  on which it fails).
- Truncation with a limit of 1 or 2, or a negative one, lengthens or keeps changing strings
  (`TruncateRespectsLimitIff`, `IdempotentIff`), and the markers exceed a limit below 11
  (`StrictlyBoundedIff`).

## Model

| member | source | states |
|---|---|---|
| `ChangeSetModels.MergedProvenance` | `src/suitcode/core/minimum_verified_change_set_service.py:287-293` | the double loop yields every entry of every group once, in order of first appearance |
| `TestMinimizer.MatchOrderTotal` | `src/suitcode/core/minimum_verified_change_set_service.py:689-704` | the sort key orders all matches totally, so that a strongest match always exists |
| `Sums.GroupBy` | `src/suitcode/core/minimum_verified_change_set_service.py:496-498` | appending to a defaultdict of lists: the dict holds exactly the elements of each key, in the order given, under keys in order of first appearance (here matches by test; the event and report groups use the same loop) |
| `TestMinimizer.SelectMatches` | `src/suitcode/core/minimum_verified_change_set_service.py:503-527` | one item per test, described and justified by its strongest match; every other match object of the test becomes a duplicate exclusion |
| `TestMinimizer.DropBroad` | `src/suitcode/core/minimum_verified_change_set_service.py:544-560` | the second loop refines the declarative split into kept and broad tests |
| `TestMinimizer.MinimizeTests` | `src/suitcode/core/minimum_verified_change_set_service.py:490-560` | the four loops together refine `Kept` and `Exclusions`, the specification the lemmas below are about |
| `TestMinimizer.ChosenIsStrongest` | `src/suitcode/core/minimum_verified_change_set_service.py:503-505` | the chosen match is minimal under the sort key, and the earliest of those that tie |
| `TestMinimizer.GroupsSpec` | `src/suitcode/core/minimum_verified_change_set_service.py:496-503` | one group per matched test and no other, by increasing test id |
| `TestMinimizer.RelookupSucceeds` | `src/suitcode/core/minimum_verified_change_set_service.py:545-546` | the second lookup, by reason alone, finds a match for every selected test |
| `TestMinimizerProperties.RelookupLandsInItsClass` | `src/suitcode/core/minimum_verified_change_set_service.py:545-547` | with owners on dependent matches, the match it finds is exactly as specific as the chosen one |
| `TestMinimizerProperties.KeepsSpec` | `src/suitcode/core/minimum_verified_change_set_service.py:545-547` | the lookup keeps a test exactly when its chosen match is specific and no earlier ownerless dependent match shadows it |
| `TestMinimizerProperties.KeptIffNotLedAstray` | `src/suitcode/core/minimum_verified_change_set_service.py:529-560` | with something specific around, the kept tests are exactly the specifically matched ones if and only if no group starts its dependent matches with an ownerless one |
| `TestMinimizerProperties.KeptTests` | `src/suitcode/core/minimum_verified_change_set_service.py:490-560` | given an owner on dependent matches (lines 255-284 always set one): increasing ids, exactly the specifically matched tests if there are any and all tests otherwise, never empty for a non-empty input |
| `TestMinimizerProperties.EmptiedIff` | `src/suitcode/core/minimum_verified_change_set_service.py:529-560` | the exact condition under which a non-empty list of matches is minimized to nothing |
| `TestMinimizerProperties.OwnerlessDependentDropsTheOnlyTest` | `src/suitcode/core/minimum_verified_change_set_service.py:545-547` | a concrete input of two matches on which the only matched test is dropped |
| `TestMinimizerProperties.NothingLost` | `src/suitcode/core/minimum_verified_change_set_service.py:490-560` | kept tests plus exclusions never exceed the matches, and equal them if and only if no chosen match object was passed in twice |
| `TestMinimizerProperties.BroadExclusionSpec` | `src/suitcode/core/minimum_verified_change_set_service.py:547-557` | a broad test is replaced by every other matched test, each named once |
| `TestMinimizerProperties.ExclusionsJustified` | `src/suitcode/core/minimum_verified_change_set_service.py:506-560` | every exclusion passes its validators, is about a matched test, and its replacements lead to a kept test |
| `TestMinimizerOutcome.KeyOrder` | `src/suitcode/core/minimum_verified_change_set_service.py:689-704` | which of two matches comes first: one with a path, then one with an owner, then authoritative before other, then by the text of the reason, then by path or owner |
| `TestMinimizerOutcome.KeptItemsSpec` | `src/suitcode/core/minimum_verified_change_set_service.py:490-560` | every kept test is described and justified by the one match of it that no other match beats and no equal one precedes, its provenance united with that of the test itself; the tests come by increasing id |
| `TestMinimizerOutcome.ReasonsSpec` | `src/suitcode/core/minimum_verified_change_set_service.py:706-713` | a kept test is "exact" if and only if some match of it has a path; the other three descriptions, and what its matches must look like for each |
| `TestMinimizerOutcome.DuplicateExclusionsIff` | `src/suitcode/core/minimum_verified_change_set_service.py:506-520` | the duplicate exclusions are exactly those of the matches that lost to the strongest of their test, each with its own provenance |
| `TestMinimizerOutcome.BroadExclusionsSpec` | `src/suitcode/core/minimum_verified_change_set_service.py:544-560` | the broad exclusions are about exactly the matched tests that are not kept, with the provenance an item would have had |
| `TestMinimizerOutcome.ExclusionsInOrder` | `src/suitcode/core/minimum_verified_change_set_service.py:500-560` | duplicates come before broad tests, and each kind by test id |
| `BuildMinimizer.CollectPairs` | `src/suitcode/core/minimum_verified_change_set_service.py:642-646` | the nested loop finds all pairs of a dependent and a target of its component |
| `BuildMinimizer.DedupePairs` | `src/suitcode/core/minimum_verified_change_set_service.py:648-650` | the `setdefault` dict keeps the first pair of each action id |
| `BuildMinimizer.MinimizeBuildTargets` | `src/suitcode/core/minimum_verified_change_set_service.py:562-676` | the cascade with its loops refines `Minimize`, including the refusal of repeated replacement ids |
| `BuildMinimizerProperties.NarrowSpec` | `src/suitcode/core/minimum_verified_change_set_service.py:615` | the dict comprehension keeps every action id exactly once, in increasing order, and invents no target |
| `BuildMinimizerProperties.DedupedSpec` | `src/suitcode/core/minimum_verified_change_set_service.py:642-660` | dependent targets end up with strictly increasing action ids: exactly the ids of real pairs, each taken from one of them |
| `BuildMinimizerProperties.OneTier` | `src/suitcode/core/minimum_verified_change_set_service.py:562-676` | all items come from the single narrowest tier that has any target; every action that tier offers is among them |
| `BuildMinimizerProperties.RefusedIff` | `src/suitcode/core/minimum_verified_change_set_service.py:588-600` | minimizing fails if and only if a repository-wide target exists and two component targets share an action id |
| `BuildMinimizerProperties.SharedActionIsRefused` | `src/suitcode/core/minimum_verified_change_set_service.py:588-600` | a concrete list of three targets that is refused |
| `BuildMinimizerProperties.Idempotent` | `src/suitcode/core/minimum_verified_change_set_service.py:562-676` | minimizing what was selected selects the same targets, in the same order, for the same reason |
| `BuildMinimizerProperties.BuildExclusionsSpec` | `src/suitcode/core/minimum_verified_change_set_service.py:588-640` | each exclusion is valid, is about a repository-wide target and names exactly the chosen builds |
| `BuildMinimizerProperties.RepositoryWideMentionedIff` | `src/suitcode/core/minimum_verified_change_set_service.py:588-674` | every repository-wide target is selected or excluded if and only if the tier is not the dependent one or no such target is on offer |
| `BuildMinimizerProperties.RepositoryWideIsForgotten` | `src/suitcode/core/minimum_verified_change_set_service.py:642-662` | a concrete list of two targets whose repository-wide one is neither selected nor excluded |
| `BuildMinimizerProperties.BuildItemsCarryProvenance` | `src/suitcode/core/minimum_verified_change_set_service.py:601-662` | every selected build carries provenance, also when it is merged from dependency edges |
| `BuildMinimizerOutcome.TierIsNarrowest` | `src/suitcode/core/minimum_verified_change_set_service.py:562-676` | a tier is the one selected if and only if it has a target and no narrower one has, for tiers spelled out by kind, target and owners |
| `BuildMinimizerOutcome.PlainTierSpec` | `src/suitcode/core/minimum_verified_change_set_service.py:575-600` | component and repository builds are the targets of the tier in the order given |
| `BuildMinimizerOutcome.OwnerTierSpec` | `src/suitcode/core/minimum_verified_change_set_service.py:602-640` | owner builds are, for each action of the tier, the last target with it, by action id |
| `BuildMinimizerOutcome.DependentTierSpec` | `src/suitcode/core/minimum_verified_change_set_service.py:642-662` | dependent builds are, for each action, the first target of the first dependent that has it, by action id, on the provenance of that dependency and of the target |
| `BuildMinimizerOutcome.AttributionSpec` | `src/suitcode/core/minimum_verified_change_set_service.py:588-676` | whom a build is attributed to: the component or the owner, with the provenance of its target |
| `BuildMinimizerOutcome.ExclusionsSpec` | `src/suitcode/core/minimum_verified_change_set_service.py:588-640` | in the two narrower tiers each repository-wide target is excluded, in the order given, with its own provenance and in favour of all builds; in the others nothing is |
| `ChangeSetPlanner.RelatedTestsForDependents` | `src/suitcode/core/minimum_verified_change_set_service.py:255-284` | the nested loop with its `seen` set keeps the first offer of each test and relabels it with the dependent component |
| `ChangeSetPlanner.FallBackToDependentTests` | `src/suitcode/core/minimum_verified_change_set_service.py:754-783` | dependents' tests become the tests, or become exclusions when direct builds exist |
| `ChangeSetPlanner.GetMinimumVerifiedChangeSet` | `src/suitcode/core/minimum_verified_change_set_service.py:728-871` | the whole method, with its reassignments and early failures, refines `Plan` |
| `ChangeSetProperties.DependentMatchesSpec` | `src/suitcode/core/minimum_verified_change_set_service.py:255-284` | every test related to some dependent comes up exactly once, relabelled with a dependent that relates to it and carrying that dependency's provenance |
| `ChangeSetProperties.TierSafety` | `src/suitcode/core/minimum_verified_change_set_service.py:744-790` | in every result builds share one tier; a repository-wide build means no component or owner build was on offer; a dependent build means no test and no direct build at all |
| `ChangeSetProperties.DependentTestsOrBuilds` | `src/suitcode/core/minimum_verified_change_set_service.py:754-790` | a target with related tests gets those and no dependent build; for one without, dependents' tests and builds never occur together, and when builds win every such test is excluded naming exactly the chosen builds |
| `ChangeSetProperties.AlwaysConstructible` | `src/suitcode/core/minimum_verified_change_set_models.py:279-295` | once the non-empty check passes, merged provenance is non-empty and the change-set validator accepts |
| `ChangeSetProperties.PlanOutcome` | `src/suitcode/core/minimum_verified_change_set_service.py:728-871` | given items with provenance and once-listed actions, the exact failures: a runner target without exactly one action, or a target to which nothing applies; everything else yields a plan |
| `ChangeSetProperties.EveryExclusionJustified` | `src/suitcode/core/minimum_verified_change_set_service.py:809-938` | from every exclusion that names replacements, following them reaches an item of the change set |
| `ChangeSetOutcome.DependentsWhereTheyCount` | `src/suitcode/core/minimum_verified_change_set_service.py:732-736` | dependents count if and only if the target is no artifact member, has a component, and is not made up of structured artifacts; then all of them do, in order |
| `ChangeSetOutcome.NothingFromDependents` | `src/suitcode/core/minimum_verified_change_set_service.py:732-783` | where they do not count: every test is one that was related to the target itself, no build is a dependent one, and no exclusion speaks of a dependent |
| `ChangeSetOutcome.UntestedTarget` | `src/suitcode/core/minimum_verified_change_set_service.py:754-783` | a target without tests for which dependents count: their tests, in the order in which dependents first relate them, become the tests if nothing can be built directly, and else exclusions in favour of the builds |
| `ChangeSetOutcome.TestedTarget` | `src/suitcode/core/minimum_verified_change_set_service.py:737-783` | a target with related tests gets exactly those the test minimizer keeps |
| `ChangeSetOutcome.BuildsOfPlan` | `src/suitcode/core/minimum_verified_change_set_service.py:744-790` | the builds are those minimized without dependents, unless there is no test, nothing direct to build and a dependent counts: then those minimized with them |
| `ChangeSetOutcome.RunnersAndQuality` | `src/suitcode/core/minimum_verified_change_set_service.py:792-812` | a runner target runs its one action; each quality provider lints and formats the relevant files, unless the target is an artifact member |
| `ChangeSetOutcome.AvailabilitySpec` | `src/suitcode/core/minimum_verified_change_set_service.py:927-1038` | which of the three notes says what is missing, about which target, and when there is none |
| `ChangeSetOutcome.BreadthSpec` | `src/suitcode/core/minimum_verified_change_set_service.py:1066-1119` | the note on a shared file is there if and only if a file target has only dependent tests and builds, and at least one; its provenance unites theirs |
| `ChangeSetOutcome.ProvenanceSpec` | `src/suitcode/core/minimum_verified_change_set_service.py:873-896` | the provenance unites that of all items in order, and one summary is added exactly if something was excluded |
| `ChangeSetOutcome.ExclusionsByKind` | `src/suitcode/core/minimum_verified_change_set_service.py:860-868` | all exclusions in order: of the test minimizer, of dependents, of the build minimizer, then at most one note of each kind |
| `Invocations.CollapseInvocations` | `src/suitcode/analytics/aggregation.py:191-211` | grouping by invocation, sorting each group and scanning backwards refines `Collapse` |
| `Invocations.ComputeToolUsage` | `src/suitcode/analytics/aggregation.py:106-150` | the per-tool loops compute the sorted table of the grouped records |
| `Invocations.RecordSpec` | `src/suitcode/analytics/aggregation.py:191-211` | a record says started, or ended, exactly when its events do, and its terminal event is one of them |
| `Invocations.CollapseSpec` | `src/suitcode/analytics/aggregation.py:191-211` | one record per invocation key of the log, and for nothing else, in increasing order |
| `Invocations.TotalIsFinishedPlusUnfinished` | `src/suitcode/analytics/aggregation.py:81-104` | on any log every counted call is either finished or unfinished, never both |
| `Invocations.ToolUsageAddsUp` | `src/suitcode/analytics/aggregation.py:106-150` | each of nine columns of the per-tool table sums to the figure of the summary |
| `Invocations.CollapseIgnoresOrder` | `src/suitcode/analytics/aggregation.py:191-211` | the records do not depend on the order in which the log is read |
| `InvocationsOutcome.CallIsReportedByItsLastEnd` | `src/suitcode/analytics/aggregation.py:191-211` | a finished call is reported by the terminal event behind which no other terminal event of it comes, by timestamp and then event id, and under its tool; an unfinished one under the tool of its last event |
| `InvocationsOutcome.SummaryCounts` | `src/suitcode/analytics/aggregation.py:81-104` | each figure of the summary is the number of calls it names, or the sum over their last terminal events |
| `InvocationsOutcome.ToolUsageSpec` | `src/suitcode/analytics/aggregation.py:106-150` | one row per tool with exactly its calls, the busiest first and ties by tool |
| `Recorder.StartKeeps` | `src/suitcode/analytics/recorder.py:126-157` | starting a fresh call keeps the active map equal to what the events leave open |
| `Recorder.EndKeeps` | `src/suitcode/analytics/recorder.py:308-312` | ending a call, known or not, once or again, keeps it |
| `Recorder.ToolCallRecorder.RecordStarted` | `src/suitcode/analytics/recorder.py:126-157` | the new map and log, and that they still agree |
| `Recorder.ToolCallRecorder.RecordEnd` | `src/suitcode/analytics/recorder.py:83-124` | success and error: the call leaves the map, one terminal event is logged, and they still agree |
| `Recorder.ToolCallRecorder.RecordInterrupted` | `src/suitcode/analytics/recorder.py:199-238` | a negative duration is logged as zero; map and log still agree |
| `Recorder.ToolCallRecorder.FlushInterruptedCalls` | `src/suitcode/analytics/recorder.py:240-258` | every active call is logged as interrupted, each exactly once, and none stays active |
| `RecorderRuns.StepKeepsInvariant` | `src/suitcode/analytics/recorder.py:240-312` | each atomic step of interleaved calls and flushes keeps: the map is exactly what written and pending events leave open, and event ids are unique |
| `RecorderRuns.RunKeepsInvariant` | `src/suitcode/analytics/recorder.py:240-312` | the same over every possible run |
| `RecorderRuns.ReportAgreesWithActiveMap` | `src/suitcode/analytics/aggregation.py:81-104` | over every run, racing flushes included: reported unfinished calls are exactly the active ones, and total = finished + active |
| `RecorderRuns.RunLogIsOrderFree` | `src/suitcode/analytics/aggregation.py:191-211` | the collapse of the log of any run does not depend on reading order |
| `RecorderRuns.RacedCallCountsOnce` | `src/suitcode/analytics/recorder.py:240-258` | a call that completed and was flushed as well is one finished record and not active |
| `RecorderFlushes.FlushEndsWhatItSaw` | `src/suitcode/analytics/recorder.py:240-258` | once every flush is through, no call that one of them saw is active, and each has a terminal event |
| `RecorderFlushes.RunReportsLastEnds` | `src/suitcode/analytics/aggregation.py:191-211` | over every run and in any reading order: a call that completed and was flushed is reported by the last of its ends |
| `TokenEconomics.TokenEconomicsStore.Record` | `src/suitcode/analytics/token_economics.py:708-796` | the event appended for a call after any earlier events |
| `TokenEconomics.CollectEvidence` | `src/suitcode/analytics/token_economics.py:848-855` | one item per evidence id, in increasing order, for exactly the references that resolve; the last reference of an id counts |
| `TokenEconomics.CollectUnique` | `src/suitcode/analytics/token_economics.py:1271-1274` | the dict loop keeps the first item of each evidence id over all events |
| `TokenEconomicsProperties.SessionUnique` | `src/suitcode/analytics/token_economics.py:733-743` | the unique tokens found call by call in a session sum to the tokens of its distinct evidence ids |
| `TokenEconomicsProperties.IncrementalEqualsBatch` | `src/suitcode/analytics/token_economics.py:1271-1277` | for any calls across any sessions and any reading order, incremental unique and duplicate tokens sum to the batch figures, and neither clamp changes a value |
| `TokenEconomicsProperties.DroppingFailuresChangesNothing` | `src/suitcode/analytics/token_economics.py:1271-1277` | leaving failed calls out changes no unique or duplicate figure |
| `TokenEconomicsProperties.UniqueBetween` | `src/suitcode/analytics/token_economics.py:1502-1513` | for any grouping key: total unique <= sum of the groups' unique <= total footprint |
| `TokenEconomicsProperties.GroupedReportsAddUp` | `src/suitcode/analytics/token_economics.py:1238-1260` | for any grouping, six columns and the unfinished count of the groups sum to the ungrouped aggregate |
| `TokenEconomicsProperties.PercentileIsOrderStatistic` | `src/suitcode/analytics/token_economics.py:1516-1521` | the percentile is one of the values, with enough values on either side |
| `TokenEconomicsProperties.PercentilesOrdered` | `src/suitcode/analytics/token_economics.py:1334-1336` | p50 <= p95 <= max in every report row |
| `TokenEconomicsOutcome.EachCallIsStored` | `src/suitcode/analytics/token_economics.py:708-796` | what every call of any sequence adds: its own figures, the tokens of all its evidence, of what no earlier call of its session had, and of the rest |
| `TokenEconomicsOutcome.AggregateSpec` | `src/suitcode/analytics/token_economics.py:1263-1340` | every figure of a report row is the count, sum, rank, maximum or deduplicated sum it is named after |
| `TokenEconomicsOutcome.GroupReportSpec` | `src/suitcode/analytics/token_economics.py:1238-1260` | one row per key that occurs, by increasing key, about exactly the events and unfinished calls of that key |
| `RollingStore.JsonlAnalyticsStore.FindArchiveName` | `src/suitcode/analytics/storage.py:71-77` | the counter loop ends on a finite directory, at the first free name |
| `RollingStore.JsonlAnalyticsStore.Append` | `src/suitcode/analytics/storage.py:62-69` | rollover when the line would not fit, then one append; other streams untouched |
| `RollingStore.JsonlAnalyticsStore.AppendEvent` | `src/suitcode/analytics/storage.py:22-27` | an event goes to the global stream and, with a repository, to that stream too |
| `RollingStore.JsonlAnalyticsStore.IterLines` | `src/suitcode/analytics/storage.py:83-96` | archives in the text order of their names, each once, then the active file |
| `RollingStore.FirstArchiveSortsLast` | `src/suitcode/analytics/storage.py:71-89` | the first archive of an instant sorts behind all later ones of that instant |
| `RollingStore.JsonlAnalyticsStore.LoadEvents` | `src/suitcode/analytics/storage.py:29-48` | the chosen streams, merged by event id and sorted by timestamp |
| `RollingStoreProperties.FreeNameIsFree` | `src/suitcode/analytics/storage.py:71-77` | the name is free, is for this instant, and every lower counter is taken |
| `RollingStoreProperties.RollOverKeeps` | `src/suitcode/analytics/storage.py:71-81` | rolling over loses no line, overwrites no archive and adds exactly one |
| `RollingStoreProperties.AppendKeeps` | `src/suitcode/analytics/storage.py:62-69` | one append adds one line, leaves every archive as it was, and keeps the active file within the limit or at one line |
| `RollingStoreProperties.RunKeeps` | `src/suitcode/analytics/storage.py:62-81` | after any appends each stream holds exactly its lines, within bounds |
| `RollingStoreProperties.ArchivesAreFinal` | `src/suitcode/analytics/storage.py:71-81` | no later append removes or rewrites an archive |
| `RollingStoreProperties.ReadsWhatWasAppended` | `src/suitcode/analytics/storage.py:83-96` | in whatever order archives are listed, reading yields the appended lines |
| `RollingStoreProperties.LoadsExactlyWhatWasAppended` | `src/suitcode/analytics/storage.py:22-48` | under fresh event ids, loading after any appends returns the appended events once each, by timestamp, equal timestamps in the order in which they are read |
| `RollingStoreOrder.ListedAsMadeIff` | `src/suitcode/analytics/storage.py:71-96` | archives are listed in the order in which they were made if and only if the instants of the rollovers strictly increase |
| `RollingStoreOrder.ReadsInAppendOrder` | `src/suitcode/analytics/storage.py:71-96` | then reading a stream yields its lines exactly in append order |
| `RollingStoreOrder.LoadsInAppendOrder` | `src/suitcode/analytics/storage.py:22-48` | and loading is the stable sort of the events as appended: equal timestamps come back in append order |
| `RollingStoreOrder.BurstIsReadOutOfOrder` | `src/suitcode/analytics/storage.py:71-96` | a run of three appends with two rollovers in one instant, of which the lines come back in another order |
| `RollingStoreProperties.RereadingChangesNothing` | `src/suitcode/analytics/storage.py:37-48` | reading lines of events already read changes nothing |
| `RollingStoreProperties.RepositoryStreamAddsNothing` | `src/suitcode/analytics/storage.py:29-48` | adding a repository stream to the global one never changes the loaded result |
| `RollingStorePacking.RollsOverIff` | `src/suitcode/analytics/storage.py:62-69` | no archive is added if and only if there is no active file or the line still fits, and then the line joins it; otherwise the active file becomes an archive of this instant and the line starts a new one |
| `RollingStorePacking.StreamIsPacked` | `src/suitcode/analytics/storage.py:62-81` | over every run, the archives as they were made and the active file cut the lines into files that each fit, or hold one line, and that the next line would have overfilled |
| `RollingStorePacking.PackedUnique` | `src/suitcode/analytics/storage.py:62-81` | there is only one way to cut lines like that |
| `RollingStoreReading.NamesCompareAsText` | `src/suitcode/analytics/storage.py:71-89` | the order of archives is the text order of their file names |
| `RollingStoreReading.LoadSpec` | `src/suitcode/analytics/storage.py:37-48` | loading keeps of every id the event read last, once, by timestamp and then by first appearance of the id |
| `Framing.InputBuffer.ReadLine` | `taskstests/sep1686_task_probe_server.py:99-103` | one line is consumed, and no byte more |
| `Framing.InputBuffer.ReadMessageBody` | `taskstests/sep1686_task_probe_server.py:97-116` | the stream reader refines `ReadMessage` and stops exactly where that says, also when there is no message |
| `Decimals.DecimalParses` | `taskstests/sep1686_task_probe_server.py:108-111` | a written length is read back as the same number |
| `Framing.HeadersOfFrame` | `taskstests/sep1686_task_probe_server.py:97-124` | the reader consumes the header of a written frame exactly, whatever the body looks like |
| `Framing.FrameRoundTrip` | `taskstests/sep1686_task_probe_server.py:97-124` | a written non-empty body is read back whole and the rest of the stream is left alone; an empty one reads as end of stream |
| `Framing.StreamRoundTrip` | `taskstests/sep1686_task_probe_server.py:97-124` | reading any sequence of frames gives the bodies up to the first empty one: all of them if and only if none is empty |
| `FramingHeaders.HeaderLineSpec` | `taskstests/sep1686_task_probe_server.py:105-110` | a header sets the length exactly if its name is Content-Length in any mix of cases, whatever spaces surround name and value; the last one counts |
| `FramingHeaders.OtherLinesAreIgnored` | `taskstests/sep1686_task_probe_server.py:106-107` | a line without a colon changes nothing |
| `FramingHeaders.LengthsAreRead` | `taskstests/sep1686_task_probe_server.py:25-30` | a length is read with or without a sign; text that is no number counts as -1 |
| `FramingHeaders.ShortBodies` | `taskstests/sep1686_task_probe_server.py:97-116` | lone newlines end headers as well, and a body that is cut short is returned as far as it goes |
| `TomlTables.TomlWriter.Emit` | `src/suitcode/install.py:231-246` | the two loops and the recursion refine `EmitTable` on the shared list of lines |
| `TomlLayout.DumpIsLayout` | `src/suitcode/install.py:225-246` | the file is laid out block by block: each table under its header, with its own scalars in order, before the tables in it, and a blank line between blocks |
| `TomlRoundTrip.ReadTable` | `src/suitcode/install.py:231-246` | reading an emitted table changes the document at its path and nowhere else |
| `TomlRoundTrip.DumpRoundTrip` | `src/suitcode/install.py:225-228` | the emitted lines are valid under the "Table" section of TOML v1.0.0 and describe exactly the nested dict, at any depth, empty tables included |
| `TomlHeaders.HeaderNamesItsTableIff` | `src/suitcode/install.py:242` | a header names its table if and only if every key on the path is bare |
| `TomlHeaders.DottedNameNamesAnotherTable` | `src/suitcode/install.py:242` | a dotted server name is printed as two nested tables |
| `TomlText.BareLineReads` | `src/suitcode/install.py:239-244` | as text, a line whose keys are bare is read as the line it was printed from |
| `TomlText.ReadTextsAreBare` | `src/suitcode/install.py:225-246` | whatever a file says, reading it yields bare keys only |
| `TomlText.TextRoundTripIff` | `src/suitcode/install.py:225-246` | reading the text of the written file gives back the configuration if and only if every key of it, at any depth, is bare |
| `CodexInstall.CodexConfig.ApplyCodex` | `src/suitcode/install.py:83-111` | the in-place edit and the conditional write refine `Apply` |
| `CodexInstall.RefusedIff` | `src/suitcode/install.py:83-111` | only a scalar in the place of the server table is refused |
| `CodexInstall.OnlyTheEntryChanges` | `src/suitcode/install.py:83-111` | the server entry is set or removed, every other entry is what it was, and a change is reported exactly when there is one |
| `CodexInstall.OrderIsKept` | `src/suitcode/install.py:83-111` | what was in the file keeps its place, what is new comes last, and what is removed leaves no gap |
| `CodexInstallText.FirstInstallText` | `src/suitcode/install.py:83-111` | the file that a first install writes, to the letter |
| `CodexInstall.SecondInstallChangesNothing` | `src/suitcode/install.py:83-111` | where all keys are bare: after writing the file and reading it back, a second install reports no change and uninstalling restores the other servers |
| `CodexInstall.SecondInstallChangesAgain` | `src/suitcode/install.py:83-111` | under a name that is not bare, whatever the configuration held, a second install reports a change again |
| `CodexInstall.SecondInstallSilentIff` | `src/suitcode/install.py:83-111` | for a configuration of bare keys a second install is silent if and only if the server name is bare |
| `CodexDottedName.DottedNameNeverSettles` | `src/suitcode/install.py:83-111` | a concrete install under `my.server`: the file is read back as another configuration, and the next install reports a change |
| `TaskProtocol.StepKeepsInvariant` | `taskstests/sep1686_task_probe_server.py:315-341` | each status read or mark of worker or loop keeps the protocol invariant |
| `TaskProtocol.CompletedHasResult` | `taskstests/sep1686_task_probe_server.py:315-341` | in every interleaving a completed status means the result is already stored |
| `TaskProtocol.SettledAfterExit` | `taskstests/sep1686_task_probe_server.py:315-341` | once the worker has returned the status is completed or cancelled for ever, and a cancelled one stays cancelled |
| `TaskProtocol.TerminalIsTakenBackIff` | `taskstests/sep1686_task_probe_server.py:323` | a terminal status is taken back if and only if the task was cancelled before its worker's first mark |
| `TaskProtocol.TerminalIsReplacedIff` | `taskstests/sep1686_task_probe_server.py:405-415` | the two races in which one terminal status replaces another, and no others |
| `TaskProtocol.CompletionCanReplaceCancellation` | `taskstests/sep1686_task_probe_server.py:328-340` | a run in which a cancellation between the worker's check and its mark is lost |
| `TaskProtocol.CancellationCanReplaceCompletion` | `taskstests/sep1686_task_probe_server.py:410-413` | a run in which a task completes between the loop's look and its mark and ends cancelled |
| `TaskProtocol.BlockedWaitFinishes` | `taskstests/sep1686_task_probe_server.py:72-75` | a blocked result request is answered within four loop steps of the worker's last one, and with the right answer |
| `TaskProtocol.RepliesAreHonest` | `taskstests/sep1686_task_probe_server.py:356-397` | a reply is never a failure and never a foreign result; a cancellation is reported only for a cancelled task |
| `TaskProtocol.EmptyReplyIff` | `taskstests/sep1686_task_probe_server.py:356-397` | in any reachable state the empty stand-in is the answer if and only if the wait ended before the worker's first mark and no result has been stored since |
| `TaskProtocol.CancelledTaskCanAnswerEmpty` | `taskstests/sep1686_task_probe_server.py:356-397` | a run in which exactly that happens |
| `TaskCancellation.CancellationSticks` | `taskstests/sep1686_task_probe_server.py:326-329` | cancelled after the worker's first mark and before its check: cancelled for ever, no result stored, none sent, over every continuation of every run |
| `TaskCancellation.ResultIffUncancelledAtCheck` | `taskstests/sep1686_task_probe_server.py:328-339` | once the worker is through, there is a result if and only if the task was not cancelled when the worker looked |
| `TaskCancellation.NobodyCancels` | `taskstests/sep1686_task_probe_server.py:315-341` | a task that nobody asks to cancel is working until it completes, and ends completed with its result |
| `TaskCancellation.CancelRequestTakesEffect` | `taskstests/sep1686_task_probe_server.py:405-415` | a cancel request cancels exactly if it finds the task working, whatever the worker does before the mark |
| `TaskCancellation.FinishedTasksStay` | `taskstests/sep1686_task_probe_server.py:340-341` | behind the worker's final mark, and with no cancellation under way, no request changes the status |
| `TaskCancellation.EmptyAnswersComeFromEarlyWaits` | `taskstests/sep1686_task_probe_server.py:356-397` | over every run, the empty stand-in answers a wait that found the task cancelled before its worker's first mark |
| `Rollout.ParseSession` | `src/suitcode/analytics/codex_session_parser.py:53-116` | the event loop with its counters and early failures refines `Parse` |
| `Rollout.BuildTranscript` | `src/suitcode/analytics/codex_transcript_capture.py:24-115` | the builder loop with its call index refines `Build` |
| `Rollout.EstimateCapture` | `src/suitcode/analytics/transcript_token_estimation.py:34-97` | the running totals and first-seen variables refine `Estimate` |
| `RolloutProperties.ParserAgreesWithTranscript` | `src/suitcode/analytics/codex_session_parser.py:87-113` | whenever both accept a rollout, the parser's counts, per-tool counts and first tools are those of the captured call segments |
| `RolloutCounts.CanonicalIff` | `src/suitcode/analytics/tool_naming.py:12-20` | a name is that of a SuitCode tool exactly if one of the four prefixes stands before it and something is left without the spaces; refused exactly if nothing is |
| `RolloutCounts.ParserCounts` | `src/suitcode/analytics/codex_session_parser.py:53-113` | every counter of the parser is the number of events, or of named calls, that it is called after, and both first tools are those of the first such call |
| `RolloutCounts.ParserAcceptsIff` | `src/suitcode/analytics/codex_session_parser.py:53-116` | the parser accepts exactly the rollouts with a session meta, timestamps everywhere, objects where it looks into them, and tool names that name something |
| `RolloutCounts.EachEventShows` | `src/suitcode/analytics/codex_transcript_capture.py:35-115` | the transcript is what each event shows, in order: a message, a call, an output under the name of its call, each summary with text, or nothing |
| `RolloutCounts.EstimateSpec` | `src/suitcode/analytics/transcript_token_estimation.py:49-97` | the total, each category, and the tokens before the first tools, as sums over the segments |
| `RolloutAcceptance.BuilderAcceptsIff` | `src/suitcode/analytics/codex_transcript_capture.py:35-115` | of the rollouts the parser accepts the builder accepts exactly those whose items all follow a session meta, whose messages are not blank, whose call ids are present and fresh, whose outputs answer an earlier call, and whose SuitCode names are MCP names |
| `RolloutProperties.TranscriptsAreWellShaped` | `src/suitcode/analytics/codex_transcript_capture.py:30-115` | segments are numbered 1..n and every output follows its own call |
| `RolloutProperties.CategoriesSum` | `src/suitcode/analytics/transcript_models.py:102-143` | category counts sum to the total if and only if no token sits in a system-context segment |
| `RolloutProperties.EstimateFirstTools` | `src/suitcode/analytics/transcript_token_estimation.py:49-97` | first tools agree with the counters, and tokens before the first SuitCode call <= tokens before the first high-value call <= total |
| `RolloutProperties.EstimateAgreesWithParser` | `src/suitcode/analytics/transcript_token_estimation.py:34-97` | parser, builder and estimator on one rollout: valid breakdown, same first tools, ordered token marks |
| `RepositoryRoot.RootWithinBoundary` | `src/suitcode/core/repository.py:69-122` | the root is the path or an ancestor no farther up than the first marker |
| `RepositoryRoot.RootSpec` | `src/suitcode/core/repository.py:69-108` | the root is the nearest supported directory up to the first marker; without one the nearest under version control, then with a `.suit` directory, then with IDE settings, then the path itself |
| `RepositoryRoot.RootIsIdempotent` | `src/suitcode/core/repository.py:69-122` | the root of a root is that root |
| `RepositoryRoot.SuitChangesNoRoot` | `src/suitcode/core/repository.py:110-122` | creating `.suit` at a supported root changes the root of no path |
| `RepositoryRoot.CandidateSpec` | `src/suitcode/core/repository.py:69-108` | missing paths and files are refused, each for its reason; every directory has a candidate between itself and the first marker that is its own candidate |
| `RepositoryRoot.SuitChangesNoCandidate` | `src/suitcode/core/repository.py:110-122` | materializing `.suit` at a supported root changes no answer, refusals included |
| `FlowPreview.DedupeSteps` | `src/suitcode/core/implementation_flow_service.py:303-321` | the dict loop refines `Deduped` |
| `FlowPreview.TiesShareTheirKey` | `src/suitcode/core/implementation_flow_service.py:326-336` | only steps with the same key tie in the ranking |
| `FlowPreview.KindDiversePreview` | `src/suitcode/core/implementation_flow_service.py:380-394` | the greedy loop with its early break picks the first step of each kind up to the limit |
| `FlowPreview.RemainingPreviewSteps` | `src/suitcode/core/implementation_flow_service.py:397-431` | the fill-up loop picks the first steps not shown yet up to the limit |
| `FlowPreview.CapSteps` | `src/suitcode/core/implementation_flow_service.py:356-369` | the cap composes the two |
| `FlowPreviewProperties.EvidenceIsUnion` | `src/suitcode/core/implementation_flow_service.py:303-321` | provenance is united: an entry is held for a key exactly if a step with that key carried it |
| `FlowPreviewProperties.DedupedKeys` | `src/suitcode/core/implementation_flow_service.py:303-321` | one step per key, in the order of first appearance |
| `FlowPreviewProperties.DedupeIsIdempotent` | `src/suitcode/core/implementation_flow_service.py:303-321` | deduplicating twice changes nothing, provenance included |
| `FlowPreviewProperties.PreviewIsOptimal` | `src/suitcode/core/implementation_flow_service.py:356-431` | the preview of any collected steps holds min(limit, n) distinct steps and covers min(limit, kinds) kinds; no selection of that size covers more |
| `FlowPreviewProperties.PreviewShowsBestOfKind` | `src/suitcode/core/implementation_flow_service.py:380-394` | a kind that is shown is shown by its best-ranked step |
| `FlowPreviewProperties.PreviewPrefersHighPriority` | `src/suitcode/core/implementation_flow_service.py:338-394` | when not all kinds fit, every shown kind has a higher priority than every missing one |
| `FlowPreviewProperties.RankingIgnoresOrder` | `src/suitcode/core/implementation_flow_service.py:323-335` | the ranked keys do not depend on the order in which steps were collected |
| `FlowPreviewOutcome.RankOrderIs` | `src/suitcode/core/implementation_flow_service.py:323-354` | steps rank by kind in the order of thirteen kinds, then path, line, column, source, target and detail, an absent label first |
| `FlowPreviewOutcome.EvidenceInOrder` | `src/suitcode/core/implementation_flow_service.py:303-321` | a step collected once keeps its provenance; one collected more often unites it in the order of collection |
| `FlowPreviewOutcome.PreviewIsLaidOut` | `src/suitcode/core/implementation_flow_service.py:356-431` | 4, 6 or 10 steps; a short list whole and in rank order, else the best step of each kind in rank order and then the best of the others in theirs |
| `Workspaces.NextRepositoryId` | `src/suitcode/core/workspace.py:40-52` | the search ends, by counting down the finite set of ids in use, at the plain name or the least free suffix |
| `Workspaces.FreshIsUnique` | `src/suitcode/core/workspace.py:40-52` | there is only one such id |
| `Workspaces.SecondOfItsName` | `src/suitcode/core/workspace.py:40-52` | the id of a second repository of one name, to the letter |
| `Workspaces.SuffixIsBounded` | `src/suitcode/core/workspace.py:47-52` | with k ids in use the suffix is at most k + 1 |
| `Workspaces.Workspace.AddRepository` | `src/suitcode/core/workspace.py:54-67` | unsupported roots are refused, known ones answered unchanged, new ones get the fresh id; ids stay distinct |
| `Workspaces.Workspace.GetRepositoryById` | `src/suitcode/core/workspace.py:72-76` | finds the root of an id, and fails exactly for ids not in use |
| `Workspaces.RunKeepsIds` | `src/suitcode/core/workspace.py:54-67` | over any run ids stay pairwise distinct and no root loses or changes its id |
| `Workspaces.AllocationIsInverted` | `src/suitcode/core/workspace.py:54-76` | an id handed out leads back to its root for ever after, and asking again for that root answers the same and changes nothing |
| `Workspaces.AnswersAreDistinct` | `src/suitcode/core/workspace.py:40-67` | two answers of a run are equal if and only if their roots are, whatever the directories are called |
| `CodeReferences.AddLocations` | `src/suitcode/core/code_reference_service.py:39-43` | the `setdefault` loop: either everything was collected, or the cap was reached and the rest cannot matter |
| `CodeReferences.ReferencesForFile` | `src/suitcode/core/code_reference_service.py:30-44` | both loops and the early return refine `FileReferences`; a limit below 1 is refused |
| `CodeReferences.ReferencesForOwner` | `src/suitcode/core/code_reference_service.py:46-70` | the nested capped collection refines `OwnerReferences`; a limit below 1 is refused |
| `CodeReferences.CollectedSpec` | `src/suitcode/core/code_reference_service.py:30-44` | a file yields min(cap, distinct keys) of its locations, sorted, each key once |
| `CodeReferences.LocationOrderIs` | `src/suitcode/core/code_reference_service.py:83-86` | locations are sorted by path, line, column and symbol, an absent symbol first; the end of the range does not matter |
| `CodeReferences.CuttingEachFileKeepsEnough` | `src/suitcode/core/code_reference_service.py:61-69` | capping every file first never leaves the owner's answer short |
| `CodeReferences.OwnerReferencesFillTheLimit` | `src/suitcode/core/code_reference_service.py:46-70` | exactly min(cap, uncapped size over the same files) locations, their keys among the uncapped ones, no key twice, sorted; uncapped is complete |
| `CodeReferences.FileFrontIff` | `src/suitcode/core/code_reference_service.py:30-44` | the capped answer for a file is the front of the complete one if and only if no location found after the cut sorts before one found earlier |
| `CodeReferenceFronts.OwnerFrontIff` | `src/suitcode/core/code_reference_service.py:46-70` | for an owner: if and only if no location of the chosen files whose key the answer leaves out sorts before one that it holds |
| `CodeReferences.CappedIsNotAFront` | `src/suitcode/core/code_reference_service.py:66-70` | a concrete input on which neither holds |
| `Redaction.Redact` | `src/suitcode/analytics/redaction.py:23-50` | the recursive walk with its growing dicts and lists refines `Redacted` |
| `Redaction.RedactArguments` | `src/suitcode/analytics/redaction.py:52-52` | the same for the whole argument map |
| `RedactionProperties.TruncateRespectsLimitIff` | `src/suitcode/analytics/redaction.py:65-68` | truncation respects the limit for all strings if and only if the limit is at least 3 |
| `RedactionProperties.TruncatedKeyIsHarmless` | `src/suitcode/analytics/redaction.py:38-41` | the truncation marker key is never mistaken for a secret |
| `RedactionProperties.NoSecretSurvives` | `src/suitcode/analytics/redaction.py:23-50` | no value under a sensitive key survives, at any depth |
| `RedactionShape.SensitiveIff` | `src/suitcode/analytics/redaction.py:9-62` | a key is sensitive exactly if one of the ten markers occurs in it, in any mix of cases |
| `RedactionShape.TruncateCuts` | `src/suitcode/analytics/redaction.py:65-68` | a string within the limit stays; a longer one keeps its front and ends in three dots |
| `RedactionShape.ShownInPlace` | `src/suitcode/analytics/redaction.py:23-50` | whatever is neither under a sensitive key nor beyond an item limit stands at its own place, as it was, or with a long text cut, or with the marker behind the items that are shown |
| `RedactionShape.HiddenInPlace` | `src/suitcode/analytics/redaction.py:23-50` | behind such a place every sensitive key within the item limit holds the placeholder |
| `RedactionShape.TopLevelInPlace` | `src/suitcode/analytics/redaction.py:52-52` | at the top level every argument is there, at its place: the placeholder exactly under a sensitive key, and else as the value is shown |
| `RedactionProperties.ResultIsBounded` | `src/suitcode/analytics/redaction.py:23-50` | strings within the limit except the two markers, nested collections at most one entry over |
| `RedactionProperties.StrictlyBoundedIff` | `src/suitcode/analytics/redaction.py:23-50` | every string, the markers included, respects the limit for all arguments if and only if the limit is at least 11 |
| `RedactionProperties.FixedIff` | `src/suitcode/analytics/redaction.py:23-50` | redaction leaves arguments alone if and only if they need none |
| `RedactionProperties.IdempotentIff` | `src/suitcode/analytics/redaction.py:23-52` | a second pass changes nothing, for all arguments, if and only if the string limit is 0 or at least 3 |
| `RedactionProperties.TopLevelKeepsEveryKey` | `src/suitcode/analytics/redaction.py:52-52` | every top-level argument keeps its place and name; the top level is never cut |
| `RedactionProperties.ArgumentsTwice` | `src/suitcode/analytics/redaction.py:52-52` | redacting a whole redacted argument map changes nothing |

## Left out

- Recorder.ToolCallRecorder.Snapshot: the order in which the active calls are listed is any order, because a Dafny map has none; the flush is proved for all of them.
- RollingStore.JsonlAnalyticsStore.LoadEvents: every stored line is a valid event, because the store wrote it; the error for a foreign line is not modelled.
- Invocations.ComputeToolUsage: a row has no latency percentiles and no confidence mix; the first average two values, the second only counts labels.
- TokenEconomics.TokenEconomicsStore.Record: the event carries no item counts, reduction percentages, outcome flags or workload description, on which no total depends.
- Rollout.ParseSession: message lengths, timestamps and per-tool timestamps are not carried; no count depends on them.
- Rollout.BuildTranscript: segment ids, texts and timestamps are not carried; tokens are an arbitrary function of the segment.
- Framing.InputBuffer.ReadMessageBody: stops before the JSON text; headers are ASCII bytes, and bodies are opaque bytes.
- TomlRoundTrip.DumpRoundTrip: about lines whose keys are data, not text; `TomlText.TextRoundTripIff` is about the text.
- TomlText.TextRoundTripIff: printing and reading of a scalar are parameters, so `_format_toml_value` is not modelled; the reader knows bare and dotted keys, but no quoted keys, comments or inline tables.
- CodexInstall.CodexConfig.ApplyCodex: the parsed and the written file are values; backups and the other clients of the installer are not modelled.
- TaskProtocol.BlockedWaitFinishes: measures progress in steps, not in seconds; delays are finite and input and output do not fail.
- RedactionProperties.IdempotentIff: keys are strings, so `str(key)` never merges two keys, and lower-casing is ASCII only.
- Workspaces.Workspace.AddRepository: constructing the repository itself is assumed to succeed; whether a root is supported is a parameter.
- TokenEconomicsProperties.IncrementalEqualsBatch: takes the token count of an evidence id as a function of the id, as the content hash makes it.
- ChangeSetProperties.EveryExclusionJustified: takes related tests and targets with provenance and owners on dependent matches, which the source's own constructors and helper supply.
- Resolution of the planner's target, of artifact members and of direct dependents: answers of the repository, taken as given.
- Reason texts, confidence modes and proof edges of the change set: they do not influence what is selected.
- Confidence mix, averages and reduction percentages of the reports: they are rounded floating point.
- `_latency_percentiles`: its median averages two values and is ordered against nothing.
- Session identity, message texts and model metadata of rollouts: no counted figure depends on them.
- File systems, clocks, fingerprints, retries and the JSON text of stored lines: input and output only.
- Language servers, providers, transports, reports and scripts: foreign code or printing.
