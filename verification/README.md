# Verified models of OpenClaw's stateful helpers

OpenClaw is a TypeScript assistant gateway with a large tool chain around it. Most of it moves data between
processes; a few parts hold real algorithms and protocols. This project models those parts in Dafny and proves what
their callers rely on:

- **Import cycles** (`scripts/check-import-cycles.ts`). `Digraphs`, `TarjanInvariant`, `ImportCycles`,
  `CycleWitness`, `CycleCheck`: Tarjan's algorithm over its mutable index, low-link and stack variables, proved to
  report exactly the non-trivial strongly connected classes; the witness search, proved to return a real simple cycle
  for every reported class; and the exit code, proved to be 0 if and only if the graph is acyclic.
- **Locale synchroniser** (`scripts/control-ui-i18n.ts`). `TranslationBatches` (a greedy batcher, proved optimal),
  `TranslationRetry` (retry and splitting, with an exact worst-case number of prompts), `TranslationTimeouts` (what
  counts as a timeout, and what each reply leads to), `TranslationRuns` (the batches of a locale one after the other),
  `DottedKeys`, `TranslationTree`, `TranslationRoundTrip`, `TranslationLookup`, `TranslationExactness` (flatten and
  rebuild are inverse, and exactly when), `TranslationOrder` (key order and colliding keys), `LocaleSync`,
  `LocaleSyncRun`, `LocaleSyncValues` (what every key and file ends up with, told from the files before the run),
  `LocaleSyncFixpoint` (a second run has nothing to do, and exactly when).
- **Active memory** (`extensions/active-memory/index.ts`). `ToggleStore`, `ToggleLock`: a promise chain used as a
  mutex, as interleaved steps. `RecallCache`: an expiring, bounded, insertion-ordered map, refined to "the last put".
- **Pairing notifier** (`extensions/device-pair/notify.ts`). `NotifierKeys`, `PairNotifier`, `NotifierRuns`,
  `NotifierDelivery`, `NotifierArming`, `NotifierRepeats`: polls and commands over one state file, with invariants over
  whole runs. `NotifierPolls`, `NotifierMessages`: what a poll does, in terms of records, times and messages.
  `NotifierChats`: what a command does, in terms of recipients, accounts and threads. `NotifierInterleaving`,
  `NotifierOverlap`: the same notifier with reads and writes apart, as the code has no lock.
- **Bedrock and ElevenLabs** (`extensions/amazon-bedrock/*`, `extensions/elevenlabs/config-compat.ts`).
  `DiscoveryCache` (a single-flight cache as interleaved steps), `ConfigRecords` (the recursive merge),
  `BedrockMigration`, `TalkMigration`.
- **Claude arguments, UTF-16, appcast** (`extensions/anthropic/cli-shared.ts`, `src/utils.ts`,
  `scripts/sparkle-build.ts`, `scripts/release-check.ts`). `ClaudeArgs`, `ClaudeArgsClean`, `ClaudeArgsText`,
  `Utf16`, `Appcast`.

`Sequences`, `Text`, `OrderedMaps` and `Results` hold what several parts share: sorting, trimming, insertion-ordered
maps, and the option and result types.

Code that updates variables step by step is modelled by methods and classes with the same fields and loops. Each is
proved against a specification function or predicate, and the theorems are lemmas about those. Code whose difficulty
is interleaving (the lock, the discovery cache) is a state machine whose steps are the stretches between two awaits,
and the theorems hold for every sequence of steps.

## What turned out false

For each of these the exact condition is proved, for all inputs.

- Flattening a rebuilt map loses keys that start with a dot: `flattenTranslations` drops an empty prefix. The round
  trip holds if and only if no key starts with a dot and no key is a part-wise prefix of another
  (`TranslationExactness.FlattenRebuilt`, with `LeadingDotIsLost` as the smallest case); `sync --write` is a fixpoint
  under that same condition, and otherwise there are files for which the next run changes something again, with or
  without a provider (`LocaleSyncFixpoint.SyncIsFixpoint`, `SyncDriftsOtherwise`).
- The rebuilt map does not depend on the order of the keys if and only if none is a part-wise prefix of another
  (`TranslationExactness.RebuildOrderIrrelevantIff`).
- The "stack underflow" error of the component search is reachable: it is thrown if and only if the empty string is a
  node (`CycleCheck.CollectStronglyConnectedComponents`).
- A chat that subscribes keeps the subscriber keys unique if and only if its account id has no outer space, because a
  command keys the raw id and the state file is re-read trimmed (`NotifierDelivery.UniqueKeysIffTrimmed`,
  `UntrimmedAccountDuplicates`).
- Announcements of one pending request are more than 24 hours apart if and only if its id has no outer space and is not
  empty (`NotifierRepeats.ApartIffTrimmed`, `NotifierDelivery.RecordSurvivesReread`).
- A numeric thread id and the same integer as text share a key if and only if the number prints without an exponent,
  that is, below 1e21 (`NotifierKeys.NumericThreadKeys`).
- `off` unsubscribes a chat that turned notifications on if and only if its account id has no outer space
  (`NotifierDelivery.OffWorksIffTrimmed`, `UntrimmedOffFails`).
- A poll that writes undoes every command given while it was sending (`NotifierInterleaving.EndOverwrites`). An `off`
  given then is undone if and only if the chat was subscribed when the poll read the file, gets no one-shot message from
  it, and the poll forgets a record or reaches somebody (`OffDuringPoll`); such a poll exists, in a reachable system, for
  every chat whose `off` works at all (`NotifierOverlap.OffUndoneIff`).
- A one-shot subscription served by one poll is served again by a second poll if and only if that one reads the file
  before the first has written it and would serve it alone (`NotifierOverlap.OneShotTwiceIff`); any chat with a trimmed
  account id can meet this (`OneShotCanBeTwice`).
- The Bedrock migration keeps the effective discovery config if and only if there is no plugin config or it is
  compatible: where both sides hold a record the plugin's covers the legacy one, no plugin field is present but
  undefined where the legacy config has a value, and the plugin lacks no legacy field with a blocked name
  (`BedrockMigration.MigrationKeepsMeaning`). Its change message is right if and only if a top-level field is filled or
  the plugin config covers the legacy one at every level (`BedrockMigration.ReportAccurateIff`, with
  `ReportMissesNestedFill` as the smallest case).
- In an error-free appcast, what is dated like a version is lane-numbered once anything up to that date is, if and only
  if the version's year has four digits (`Appcast.LaneRuleIff`, `EarlyYearsMixRanges`).

Everything stated here is proved by the Dafny verifier (`dafny verify dfyconfig.toml`).

## Model

| member | source | states |
|---|---|---|
| Digraphs.Graph.ClosedWalkMutual | scripts/check-import-cycles.ts:253-276 | all nodes of a directed cycle reach each other |
| Digraphs.Graph.OnCycleClosedWalk | scripts/check-import-cycles.ts:253-276 | a node with an edge back to itself over some walk lies on a directed cycle |
| TarjanInvariant.PushKeeps | scripts/check-import-cycles.ts:166-170 | numbering and pushing a node keeps the search invariant: indices grow along the stack, stack nodes reach an open visit, finished nodes are closed and fully reported |
| TarjanInvariant.SeenAfterVisit | scripts/check-import-cycles.ts:173-175 | taking the smaller low link over a visited successor keeps the bound on every edge into the stack |
| TarjanInvariant.SeenAfterLookup | scripts/check-import-cycles.ts:176-178 | the same for a successor that already has an index |
| TarjanInvariant.LowReachesBelow | scripts/check-import-cycles.ts:181-183 | a low link under the own index means the node reaches an open visit strictly below it on the stack |
| TarjanInvariant.LeaveKeeps | scripts/check-import-cycles.ts:181-183 | returning early keeps the invariant although the node is no longer open |
| TarjanInvariant.RootTailIsClass | scripts/check-import-cycles.ts:184-193 | at a root, the part of the stack that gets popped is one whole strongly connected class: connected and maximal |
| TarjanInvariant.ClassNontrivial | scripts/check-import-cycles.ts:194-196 | the code's test (more than one member, or a self-import) holds exactly when the class contains a cycle |
| TarjanInvariant.ReportKeeps | scripts/check-import-cycles.ts:194-196 | reporting a class keeps "exactly the non-trivial classes among the finished nodes, each once" |
| TarjanInvariant.PopKeeps | scripts/check-import-cycles.ts:184-196 | popping a class keeps the whole search invariant |
| ImportCycles.ComponentSearch.constructor | scripts/check-import-cycles.ts:158-163 | the search starts with nothing indexed and satisfies its invariant |
| ImportCycles.ComponentSearch.Enter | scripts/check-import-cycles.ts:166-170 | numbers and pushes one node; the node is then being visited with no successor seen |
| ImportCycles.ComponentSearch.Descend | scripts/check-import-cycles.ts:173-175 | visits an unindexed successor and takes over its low link; one more successor counts as seen |
| ImportCycles.ComponentSearch.LookAt | scripts/check-import-cycles.ts:172-179 | one round of the successor loop, in all three branches |
| ImportCycles.ComponentSearch.LookAtAll | scripts/check-import-cycles.ts:172-179 | the successor loop: afterwards every successor has been seen |
| ImportCycles.ComponentSearch.PopComponent | scripts/check-import-cycles.ts:184-193 | pops exactly the stack from the root up, and fails exactly when an empty name is among it |
| ImportCycles.ComponentSearch.PopClass | scripts/check-import-cycles.ts:184-196 | removes the class from the stack and reports it, sorted, unless it is trivial |
| ImportCycles.ComponentSearch.CloseRoot | scripts/check-import-cycles.ts:181-196 | at equal index and low link, the visit ends with its class popped and everything above closed |
| ImportCycles.ComponentSearch.Visit | scripts/check-import-cycles.ts:165-197 | a visit that returns has indexed its node, left the stack below it and older indices alone, kept the invariant and a correct low link; it throws only if the empty string is a node |
| CycleCheck.CollectStronglyConnectedComponents | scripts/check-import-cycles.ts:155-208 | returns exactly the strongly connected classes with more than one member or a self-import, each once, maximal, disjoint, the largest first, those of one size by their members joined with line breaks, each sorted; throws if and only if the empty string is a node |
| CycleCheck.SearchComplete | scripts/check-import-cycles.ts:199-203 | once every key has been visited, every node of the graph is finished, so the report is complete |
| CycleCheck.PermutedComponents | scripts/check-import-cycles.ts:204-207 | sorting the report does not change what it says |
| CycleCheck.EmptyReportIffAcyclic | scripts/check-import-cycles.ts:194-196 | the report is empty if and only if the graph has no directed cycle |
| CycleCheck.CycleInsideOneComponent | scripts/check-import-cycles.ts:155-208 | every directed cycle runs inside exactly one reported component |
| CycleCheck.CheckImports | scripts/check-import-cycles.ts:253-276 | the exit code is 0 if and only if the graph is acyclic, otherwise 1, with one simple cycle inside each reported component, the components in that order |
| CycleWitness.WitnessSearch.constructor | scripts/check-import-cycles.ts:214-220 | the search starts with an empty path and nothing visited |
| CycleWitness.WitnessSearch.Visit | scripts/check-import-cycles.ts:221-241 | a found walk is a simple cycle inside the component; returning nothing leaves the path as it was and the node finished |
| CycleWitness.FoundCycle | scripts/check-import-cycles.ts:228-231 | the path from the repeated node on, plus that node, is a simple cycle |
| CycleWitness.FinishKeepsTopological | scripts/check-import-cycles.ts:239-240 | finishing nodes without finding a cycle lists them in topological order |
| CycleWitness.WalkDescends | scripts/check-import-cycles.ts:221-241 | along any walk inside the component, positions in that order strictly decrease |
| CycleWitness.TopologicalIsAcyclic | scripts/check-import-cycles.ts:242 | so if the search finds nothing, no walk from its start meets a node twice |
| CycleWitness.FindCycleWitness | scripts/check-import-cycles.ts:210-243 | returns a simple cycle inside the component whenever one is reachable from its first node, and the bare component exactly otherwise |
| CycleWitness.ReportedComponentHasCycle | scripts/check-import-cycles.ts:242 | for a reported component a cycle is always reachable, so the fallback is never taken |
| TranslationBatches.BuildTranslationBatches | scripts/control-ui-i18n.ts:659-683 | batches concatenate to the items in order, none is empty, each keeps both limits, each of two or more items has its estimate within budget, and no other partition within the limits has fewer batches |
| TranslationBatches.EstimateBelowCurrent | scripts/control-ui-i18n.ts:499-501 | the batcher's running count is the estimate plus two per item, so it is the stricter of the two |
| TranslationBatches.SegmentWithinLimits | scripts/control-ui-i18n.ts:666-669 | any part of a batch within the limits is within them |
| TranslationBatches.OtherEndsNoLater | scripts/control-ui-i18n.ts:659-683 | no batch of another partition that starts no earlier can end past a greedy batch |
| TranslationBatches.GreedyStaysAhead | scripts/control-ui-i18n.ts:659-683 | greedy needs at most as many batches as any partition within the limits |
| TranslationBatches.CloseOpen | scripts/control-ui-i18n.ts:667-675 | a batch is closed only when the next item would not fit |
| TranslationBatches.LimitsSpelledOut | scripts/control-ui-i18n.ts:659-683 | a batch is within the limits if and only if it has 1 to 20 items and, from two on, 2 plus the key and text lengths plus 10 an item is within the budget |
| TranslationBatches.GreedyUnique | scripts/control-ui-i18n.ts:659-683 | only one partition is greedy, so the batches of given items are determined |
| TranslationRetry.ReadReply | scripts/control-ui-i18n.ts:942-952 | reads a reply item by item and fails at the first missing or blank text |
| TranslationRetry.Client.Prompt | scripts/control-ui-i18n.ts:939-941 | one prompt: the model's next outcome, counted |
| TranslationRetry.TranslateBatch | scripts/control-ui-i18n.ts:925-987 | the retry loop with recursive splitting gives the result and the number of prompts of its specification |
| TranslationRetry.CollectValid | scripts/control-ui-i18n.ts:943-952 | a reply that is accepted maps exactly the items' keys, each to the non-blank text the reply holds |
| TranslationRetry.TranslateSound | scripts/control-ui-i18n.ts:925-987 | success maps exactly the keys of the batch, each to a non-blank text that some prompt of this run returned for it |
| TranslationRetry.TranslateBounded | scripts/control-ui-i18n.ts:925-987 | n items cost at most 4n - 2 prompts, retries and splits included |
| TranslationRetry.PromptBoundIsTight | scripts/control-ui-i18n.ts:925-987 | for every non-empty batch there is a model behaviour that costs exactly 4n - 2 prompts and still succeeds |
| TranslationRetry.TimeoutOnlyForOneItem | scripts/control-ui-i18n.ts:959-978 | a timeout error reaches the caller only from a prompt of this run for a single item of the batch |
| TranslationRetry.SplittingRecovers | scripts/control-ui-i18n.ts:959-975 | a model that answers single items, and at worst times out on more, always yields a full translation |
| TranslationTimeouts.TimedOutIff | scripts/control-ui-i18n.ts:473-475 | an error is a timeout if and only if it contains "timed out" in any case of its letters, with anything before and after |
| TranslationTimeouts.ReadExact | scripts/control-ui-i18n.ts:942-952 | a reply is accepted if and only if it has a non-blank text for every item, with just those texts; otherwise the first item without one is named; a failed prompt gives its own message |
| TranslationTimeouts.TranslateSpelledOut | scripts/control-ui-i18n.ts:925-987 | the run by its first replies: accepted, split in halves after a timeout of two or more items, failed at once after one of a single item, prompted once more after any other error |
| TranslationTimeouts.TimeoutSplits | scripts/control-ui-i18n.ts:959-975 | a prompt for two or more items that fails with any message around "timed out" makes the run that of the first half followed by that of the second |
| TranslationTimeouts.OtherErrorRetries | scripts/control-ui-i18n.ts:979-986 | a message without that stretch prompts the same batch again, and a second reply that is no timeout of several items decides |
| TranslationRuns.TranslateAllSound | scripts/control-ui-i18n.ts:1067-1101 | translating all batches in order maps exactly the items of the batches, each to a text that a prompt of this run returned for it |
| TranslationRuns.FailureOfOneBatch | scripts/control-ui-i18n.ts:1067-1105 | a failed run has the error and the prompts of one batch, with all batches before it translated and none after it started |
| TranslationRuns.RunUnique | scripts/control-ui-i18n.ts:1052-1105 | the outcome and the number of prompts are determined by the items, the budget and the model |
| DottedKeys.DottedSplit | scripts/control-ui-i18n.ts:294 | joining the parts of a split key gives the key back |
| DottedKeys.SplitDotted | scripts/control-ui-i18n.ts:294 | splitting the joined parts gives the parts back, if none contains a dot |
| TranslationTree.FlattenTranslations | scripts/control-ui-i18n.ts:281-291 | the recursive walk writes every text under its dotted key, later ones over earlier ones |
| TranslationTree.SetNestedValue | scripts/control-ui-i18n.ts:293-308 | walking a cursor down and writing at its end sets one path and puts every changed map back where it was |
| TranslationTree.Rebuild | scripts/control-ui-i18n.ts:1135-1138 | filling the next map key by key sets the paths in order |
| TranslationTree.FlattenIsRender | scripts/control-ui-i18n.ts:281-291 | if no two texts get the same key, flattening appends one entry per text, in depth-first order |
| TranslationRoundTrip.PathsDistinct | scripts/control-ui-i18n.ts:281-291 | no two texts of a map have the same path |
| TranslationRoundTrip.SetAllRebuilds | scripts/control-ui-i18n.ts:293-308 | writing all paths of a map in order appends that map, key order included |
| TranslationRoundTrip.RebuildFlattened | scripts/control-ui-i18n.ts:281-308 | rebuilding a flattened map gives the same map, order included, if keys are non-empty and dot-free and no sub-map is empty; its dotted keys are distinct |
| TranslationLookup.TextAtSetPath | scripts/control-ui-i18n.ts:293-308 | a written path reads back, hides every path that continues it or that it continues, and leaves all others alone |
| TranslationLookup.PathsAreTexts | scripts/control-ui-i18n.ts:281-291 | the flattened paths are exactly the readable ones |
| TranslationLookup.SetAllReads | scripts/control-ui-i18n.ts:293-308 | when no path continues another, every written path reads back at the end |
| TranslationLookup.SetAllOnly | scripts/control-ui-i18n.ts:293-308 | rebuilding invents no text |
| TranslationExactness.FlattenRebuilt | scripts/control-ui-i18n.ts:281-308 | flattening a rebuilt map, or one that reads like it, gives the same entries if and only if no key starts with a dot and none is a part-wise prefix of another |
| TranslationExactness.SomeKeyLost | scripts/control-ui-i18n.ts:281-308 | otherwise at least one key is gone, whatever the texts |
| TranslationExactness.PlainSourceRoundTrips | scripts/control-ui-i18n.ts:281-308 | a source map with non-empty, dot-free keys and no empty sub-map always meets that condition |
| TranslationExactness.RebuildOrderIrrelevant | scripts/control-ui-i18n.ts:1135-1138 | with prefix-free keys the rebuilt map reads the same whatever their order |
| TranslationExactness.RebuildOrderIrrelevantIff | scripts/control-ui-i18n.ts:1135-1138 | it reads the same for every order of the keys if and only if they are prefix-free |
| TranslationExactness.LeadingDotIsLost | scripts/control-ui-i18n.ts:282-283 | the key ".b" comes back as "b" |
| TranslationOrder.FlattenedSpelledOut | scripts/control-ui-i18n.ts:281-291 | flattening any map gives each full key once, in the order in which the keys first come, with the text that comes last, colliding keys included |
| TranslationOrder.SetPathOrder | scripts/control-ui-i18n.ts:293-308 | one write keeps the order of the keys of every map on its way, adds a new key at the end and leaves all other keys alone |
| LocaleSyncRun.SelectKeys | scripts/control-ui-i18n.ts:1017-1050 | the first loop reuses memory or existing text exactly where it may, queues exactly the other keys, and carries fallback marks over |
| LocaleSyncRun.StoreBatch | scripts/control-ui-i18n.ts:1082-1101 | storing a translated batch adds its texts, and exactly those the reply gave, to the values and the memory and nothing else |
| LocaleSyncRun.TranslatePending | scripts/control-ui-i18n.ts:1052-1105 | translating the greedy batches in order gives every pending key its non-blank text, or the error of the first batch to fail, with exactly the prompts of that run |
| LocaleSyncRun.SettlePending | scripts/control-ui-i18n.ts:1114-1128 | the last loop gives each remaining key its existing text unless forced, else the source text, and records fallbacks |
| LocaleSyncRun.CollectValues | scripts/control-ui-i18n.ts:1135-1138 | every source key has a value at the end |
| LocaleSyncRun.SyncLocale | scripts/control-ui-i18n.ts:996-1232 | the whole run has the outcome and files of its specification, for the translation that running the pending keys through the model gives when a provider is configured and for none otherwise; each translated text stems from a prompt of this run, and it fails only as that run does |
| LocaleSyncRun.PendingItems | scripts/control-ui-i18n.ts:1044-1049 | the queue holds exactly the source entries decided for translation, no key twice |
| LocaleSyncRun.FallbackKeysExact | scripts/control-ui-i18n.ts:1030-1032 | fallback keys are exactly the source keys that ended as fallbacks, each once |
| LocaleSyncRun.SettledValue | scripts/control-ui-i18n.ts:1114-1138 | after the loops every source key holds the value decided for it |
| LocaleSyncValues.SettleSpelledOut | scripts/control-ui-i18n.ts:1021-1050 | per key: a memory entry before an existing text before a translation, both of the first unless a fallback is refreshed; else the existing text unless forced; else the source text; and whether it is recorded as a fallback |
| LocaleSyncValues.PendingSpelledOut | scripts/control-ui-i18n.ts:1044-1049 | exactly the source entries that are not reused are queued, with cache key and text hash, in source order, no key twice |
| LocaleSyncValues.RememberSpelledOut | scripts/control-ui-i18n.ts:1082-1101 | the memory holds every new translation under its cache key, with the time of the run, and is otherwise unchanged |
| LocaleSyncValues.MetaSpelledOut | scripts/control-ui-i18n.ts:1140-1169 | every field of the record, with workflow 1; it keeps its old time if and only if nothing else in it changed |
| LocaleSyncValues.FallbacksSpelledOut | scripts/control-ui-i18n.ts:1145-1147 | the record lists exactly the keys that ended as fallbacks, each once, in locale order |
| LocaleSyncValues.SyncSpelledOut | scripts/control-ui-i18n.ts:996-1232 | the result of a run from the four files it read: the value of every key, the record, the glossary, the memory, when something counts as changed, and when and what is written |
| LocaleSyncFixpoint.EveryKeyOnce | scripts/control-ui-i18n.ts:1135-1169 | one value per source key, in source order; translated plus fallback keys equal the total |
| LocaleSyncFixpoint.ProviderLeavesNoFallback | scripts/control-ui-i18n.ts:1052-1128 | a successful run with a provider leaves no fallback key |
| LocaleSyncFixpoint.PlanWritable | scripts/control-ui-i18n.ts:376-395 | whatever a run loaded, what it plans to write survives being written and read: the memory holds no blank text and no empty key |
| LocaleSyncFixpoint.WriteThenLoad | scripts/control-ui-i18n.ts:1179-1221 | after a writing run the files load as what was planned, the locale map in any key order, and equal what was expected, an empty memory file included |
| LocaleSyncFixpoint.MemoryAgain | scripts/control-ui-i18n.ts:1028-1034 | a memory hit in the second run is the value the first run settled on |
| LocaleSyncFixpoint.MetaAgain | scripts/control-ui-i18n.ts:1148-1169 | an unchanged meta keeps its generation time |
| LocaleSyncFixpoint.SecondPlan | scripts/control-ui-i18n.ts:996-1177 | the second run computes the same values, fallback keys, meta, glossary and memory |
| LocaleSyncFixpoint.SyncIsFixpoint | scripts/control-ui-i18n.ts:996-1232 | whatever the files were, after one `sync --write` a later run, forced or not, has nothing to translate and reports no change, if the source keys survive a rebuild |
| LocaleSyncFixpoint.LostKeyChanges | scripts/control-ui-i18n.ts:1021-1050 | a key lost in the rebuilt file makes the second run's meta or memory differ from the first one's |
| LocaleSyncFixpoint.SyncDriftsOtherwise | scripts/control-ui-i18n.ts:1186-1190 | if they do not, there are files after which the next run reports a change again, without a provider and with one whatever it answers |
| ToggleStore.ApplyFound | extensions/active-memory/index.ts:390-406 | one toggle changes what a reader finds for its own session and for no other |
| ToggleStore.LastToggleWins | extensions/active-memory/index.ts:326-406 | after any toggles a session is disabled exactly when its last toggle disabled it, with that time; untouched sessions read as before |
| ToggleStore.ApplyExact | extensions/active-memory/index.ts:326-406 | after one change the file holds the toggled session, if it was disabled, and the other disabled sessions with a non-blank key, and nothing else |
| ToggleStore.TogglesSpelledOut | extensions/active-memory/index.ts:326-406 | after any toggles a session reads as disabled if and only if its last toggle disabled it, at that time, or, never toggled, the file did; never under a blank key |
| ToggleLock.RunKeeps | extensions/active-memory/index.ts:148-163 | over every interleaving, promises are chained in call order and the file is the fold of the committed toggles |
| ToggleLock.MutualExclusion | extensions/active-memory/index.ts:148-163 | at most one task is between entering and releasing |
| ToggleLock.FirstComeFirstServed | extensions/active-memory/index.ts:148-163 | tasks get in in the order of their calls |
| ToggleLock.FileIsCommittedPrefix | extensions/active-memory/index.ts:390-406 | at every moment the file, hence any unlocked read, is the fold of the committed toggles of a prefix of the calls |
| ToggleLock.NoLostUpdate | extensions/active-memory/index.ts:390-406 | when all calls returned and none threw, the file is the fold of all toggles in call order |
| ToggleLock.AlwaysProgress | extensions/active-memory/index.ts:157-162 | the first unreleased task can always take its next step, whoever threw before it |
| ToggleLock.StepsUseUpWork | extensions/active-memory/index.ts:157-162 | every step but a new call uses up work, so finitely many calls all return |
| ToggleLock.LocksIndependent | extensions/active-memory/index.ts:165-172 | with one lock per file, each file sees exactly its own calls |
| RecallCache.Cache.GetCachedResult | extensions/active-memory/index.ts:780-790 | returns the unexpired entry or nothing, deleting an expired one |
| RecallCache.Cache.SweepExpiredCacheEntries | extensions/active-memory/index.ts:810-816 | deleting while iterating leaves exactly the unexpired entries, in order |
| RecallCache.Cache.SetCachedResult | extensions/active-memory/index.ts:792-808 | sweeps, moves the key to the end with its new entry, and evicts from the front |
| RecallCache.Cache.EvictOldest | extensions/active-memory/index.ts:801-807 | the eviction loop leaves a suffix: down to the capacity, or up to an empty key |
| RecallCache.RunRefines | extensions/active-memory/index.ts:780-816 | over every run, each entry is what the last put of its key stored, in the order of those puts |
| RecallCache.HitIsLastPut | extensions/active-memory/index.ts:780-790 | a hit is the result of the last put for that key and has not expired |
| RecallCache.MissOnlyAfterCapacity | extensions/active-memory/index.ts:792-808 | with a clock that never goes back, an unexpired key is missing only after at least 1000 different keys were put after it |
| RecallCache.EvictedAccounts | extensions/active-memory/index.ts:801-807 | whatever eviction drops was put before everything it keeps, and it keeps at least 1000 |
| RecallCache.SizeBounded | extensions/active-memory/index.ts:801-807 | after a put there are at most 1000 entries, unless the oldest key is empty |
| RecallCache.CapacityHolds | extensions/active-memory/index.ts:770-808 | with the keys the code builds, that exception never happens |
| RecallCache.HitIff | extensions/active-memory/index.ts:780-790 | in every run a get hits if and only if an entry of its key expires later, and gives that entry |
| RecallCache.GetDrops | extensions/active-memory/index.ts:785-788 | a get removes the entry of its key if that has expired and no other |
| RecallCache.PutLeaves | extensions/active-memory/index.ts:792-808 | after a put its entry is the newest, and every other one was there before, is of another key and had not expired at the sweep |
| RecallCache.UnexpiredMiss | extensions/active-memory/index.ts:780-808 | a miss of a key whose last put has not expired means at least 1000 different keys were put since |
| RecallCache.CacheKeysAgree | extensions/active-memory/index.ts:770-778 | two requests share a key if and only if agent, session and digest agree, for agent ids and digests without a colon; the session is the session key, else the session id, else "none" |
| NotifierKeys.ParseShowInt | extensions/device-pair/notify.ts:179 | writing an integer in decimal and parsing it gives it back |
| NotifierKeys.NumericThreadKeys | extensions/device-pair/notify.ts:164-183 | two numbers, or two numeric texts, share a key exactly when the integers agree; a number and a numeric text when they agree and are below 1e21 |
| NotifierKeys.TextThreadKeys | extensions/device-pair/notify.ts:175-177 | other texts share a key with a number exactly when they spell its exponent form, and never with no thread |
| NotifierKeys.RereadThreadKey | extensions/device-pair/notify.ts:102-107 | writing and re-reading keeps the thread key of every thread id |
| NotifierKeys.RereadKeepsKey | extensions/device-pair/notify.ts:91-120 | a subscriber keeps its key across re-reading exactly when its account id has no outer space |
| NotifierKeys.RereadStable | extensions/device-pair/notify.ts:91-120 | a second re-reading changes nothing |
| NotifierKeys.ShowNumberInjective | extensions/device-pair/notify.ts:165-167 | numbers print alike exactly when they are equal, and as integers exactly below 1e21 |
| NotifierKeys.ThreadKeysAgree | extensions/device-pair/notify.ts:164-183 | for all pairs of thread ids: one key if and only if they stand for the same thread or one is how the other prints |
| NotifierKeys.TargetKeysAgree | extensions/device-pair/notify.ts:152-162 | two targets have one key if and only if recipient, account and thread agree |
| NotifierKeys.ExponentialSpelledOut | extensions/device-pair/notify.ts:165-167 | the exponent form of a number in terms of its decimal digits |
| NotifierKeys.TruncExact | extensions/device-pair/notify.ts:166 | truncation goes toward zero on both sides |
| NotifierChats.ResolvedSpelledOut | extensions/device-pair/notify.ts:191-211 | the chat is the trimmed sender, else the origin, else the recipient of the message, blank ones not counting; an empty account counts as none |
| NotifierChats.CommandSpelledOut | extensions/device-pair/notify.ts:213-235 | each command appends, keeps, replaces in place or removes the first subscriber of the chat, told from recipient, account and thread, and touches no record |
| NotifierChats.OtherChatsUntouched | extensions/device-pair/notify.ts:411-489 | no command adds, removes, reorders or changes a subscriber of another recipient, account or thread |
| NotifierChats.CommandSubscribes | extensions/device-pair/notify.ts:425-463 | after `on` or `once` from a chat with a trimmed account id the next reader finds a subscriber with exactly this recipient, account and thread, in that mode |
| NotifierChats.OffUnsubscribes | extensions/device-pair/notify.ts:449-457 | in every run, after `off` from a chat with a trimmed account id there is no subscriber with this recipient, account and thread, and all others are kept in order |
| NotifierChats.ReadSpelledOut | extensions/device-pair/notify.ts:91-120 | reading keeps each subscriber with a non-blank recipient, trimmed, blank accounts and threads dropped, numbers truncated |
| PairNotifier.Notifier.UpsertNotifySubscriber | extensions/device-pair/notify.ts:213-235 | appends a new subscriber, replaces one of the other mode in place, and reports exactly whether anything changed |
| PairNotifier.Notifier.SweepNotified | extensions/device-pair/notify.ts:325-330 | forgets exactly the records that are no longer pending or too old, and reports whether there were any |
| PairNotifier.Notifier.SendToSubscribers | extensions/device-pair/notify.ts:341-354 | one request goes to exactly the subscribers that should hear of it; delivered one-shot keys are collected |
| PairNotifier.Notifier.NotifyRequests | extensions/device-pair/notify.ts:333-360 | requests not yet on record are announced in order and recorded if any delivery went through |
| PairNotifier.Notifier.FilterSubscribers | extensions/device-pair/notify.ts:361-369 | keeps exactly the subscribers whose key was not delivered once |
| PairNotifier.Notifier.NotifyPendingPairingRequests | extensions/device-pair/notify.ts:314-375 | one poll moves the file as specified, a skipped write included |
| PairNotifier.Notifier.HandleNotifyCommand | extensions/device-pair/notify.ts:411-489 | one command moves the file as specified: on, off, once, status, anything else, another channel or no target |
| NotifierRuns.UpsertedOk | extensions/device-pair/notify.ts:213-235 | subscribing keeps keys unique and leaves the chat subscribed in the given mode |
| NotifierRuns.UnsubscribedGone | extensions/device-pair/notify.ts:449-457 | with unique keys `off` removes exactly the subscriber with that key |
| NotifierRuns.PolledOk | extensions/device-pair/notify.ts:314-375 | a poll keeps the state well formed, and afterwards only pending requests are on record |
| NotifierRuns.RunOk | extensions/device-pair/notify.ts:83-135 | over every run with trimmed ids, subscriber keys are unique in the file and in what is read back |
| NotifierRuns.SkippedWriteIsNoChange | extensions/device-pair/notify.ts:372-374 | a skipped write means the state is unchanged |
| NotifierRuns.PollKeepsPersistent | extensions/device-pair/notify.ts:361-369 | in every run, a poll never removes a persistent subscriber |
| NotifierRuns.OffRemovesAll | extensions/device-pair/notify.ts:449-457 | in every run, `off` leaves no subscriber with the key the chat resolves to, exactly the other subscribers, and the same records |
| NotifierDelivery.AnnouncementsApart | extensions/device-pair/notify.ts:325-360 | two announcements of a request that stays pending are more than 24 hours apart |
| NotifierDelivery.RecordIsPending | extensions/device-pair/notify.ts:325-330 | after every poll of a run, recorded ids are pending ids |
| NotifierDelivery.OneShotFiresOnce | extensions/device-pair/notify.ts:345-369 | one arming is delivered in at most one poll, and for some request made at or after it |
| NotifierArming.RunExplained | extensions/device-pair/notify.ts:213-235 | in every run each subscriber stems from an earlier command of its chat, with that command's mode and time |
| NotifierArming.OneShotOnlyAfterArming | extensions/device-pair/notify.ts:266-279 | when a one-shot subscription fires, the chat armed it earlier in the run, and every request sent to it was made at or after that arming |
| NotifierDelivery.GoneAfterFiring | extensions/device-pair/notify.ts:361-369 | once delivered, a one-shot key is absent until the chat subscribes again |
| NotifierDelivery.RecordSurvivesReread | extensions/device-pair/notify.ts:122-132 | a recorded request id survives re-reading exactly when it is trimmed and not empty |
| NotifierDelivery.UntrimmedAccountDuplicates | extensions/device-pair/notify.ts:213-235 | two `on` commands of any chat whose account id has an outer space leave two subscribers with one key |
| NotifierDelivery.UniqueKeysIffTrimmed | extensions/device-pair/notify.ts:152-162 | a chat keeps subscriber keys unique in all runs with otherwise trimmed ids if and only if its account id is trimmed |
| NotifierRepeats.RepeatingAnnounces | extensions/device-pair/notify.ts:325-360 | an untrimmed or empty request id is announced by two polls one millisecond apart |
| NotifierRepeats.ApartIffTrimmed | extensions/device-pair/notify.ts:325-360 | announcements of a request id are more than 24 hours apart in all runs with otherwise trimmed ids if and only if it is trimmed and not empty |
| NotifierDelivery.UntrimmedOffFails | extensions/device-pair/notify.ts:449-457 | a chat whose account id has an outer space is still subscribed after `on` and then `off` |
| NotifierDelivery.OffWorksIffTrimmed | extensions/device-pair/notify.ts:449-457 | after any run, `on` and then `off` leave a chat unsubscribed if and only if its account id is trimmed |
| NotifierPolls.FiresIffServes | extensions/device-pair/notify.ts:351-353 | a key is struck off by a poll if and only if the poll sends something to a one-shot subscriber with it |
| NotifierPolls.PollKeepsKey | extensions/device-pair/notify.ts:361-369 | after a poll a chat is subscribed if and only if it was and got no one-shot message |
| NotifierPolls.PollWritesIff | extensions/device-pair/notify.ts:325-374 | a poll writes if and only if it forgets a record or a pending request without a valid record reaches a subscriber |
| NotifierMessages.HearsIff | extensions/device-pair/notify.ts:258-279 | a one-shot subscriber hears of requests dated 1 ms or later and not before its subscription, a persistent one of all |
| NotifierMessages.SendsSpelledOut | extensions/device-pair/notify.ts:325-354 | a poll sends a request to a subscriber if and only if that one hears of it, the message goes through, no record of its id at most 24 hours old is on file and the poll has not announced that id before |
| NotifierMessages.RecordsAfterPoll | extensions/device-pair/notify.ts:325-360 | after a poll what it announced is recorded with its time, and of the rest exactly the pending records at most 24 hours old stay |
| NotifierMessages.SubscribersAfterPoll | extensions/device-pair/notify.ts:361-369 | after a poll exactly those subscribers are gone whose chat got a message as a one-shot subscriber |
| NotifierInterleaving.SerialIsAtomic | extensions/device-pair/notify.ts:314-489 | without overlap, reading and writing apart runs as if every poll and command were atomic |
| NotifierInterleaving.StepsOk | extensions/device-pair/notify.ts:314-489 | in every interleaving of reads and writes the file keeps unique subscriber keys |
| NotifierInterleaving.EndOverwrites | extensions/device-pair/notify.ts:372-374 | an event that writes leaves the file as it alone would have: whatever was written since it read is lost; one that does not write changes nothing |
| NotifierInterleaving.KeysAtEnd | extensions/device-pair/notify.ts:372-374 | a chat is subscribed when an event ends according to what the event read, if it writes, and to the file if not |
| NotifierInterleaving.OffDuringPoll | extensions/device-pair/notify.ts:449-457 | an `off` given while a poll is under way is undone if and only if the poll had read the chat as subscribed, sends it no one-shot message, and forgets a record or reaches somebody |
| NotifierOverlap.SubscribedOffUndone | extensions/device-pair/notify.ts:372-374 | for every chat with a trimmed account id a reachable system and a poll that undo its `off` |
| NotifierOverlap.OffUndoneIff | extensions/device-pair/notify.ts:372-374 | some poll in some reachable system undoes an `off` of a chat if and only if its account id is trimmed |
| NotifierOverlap.OneShotTwiceIff | extensions/device-pair/notify.ts:345-369 | a second poll serves a one-shot subscription served by a first if and only if it begins before the first ends and would serve it alone |
| NotifierOverlap.OneShotCanBeTwice | extensions/device-pair/notify.ts:345-369 | every chat with a trimmed account id reaches a system in which two polls both serve its one-shot subscription |
| DiscoveryCache.RunKeeps | extensions/amazon-bedrock/discovery.ts:329-429 | over every interleaving, the cache is what the latest fetch of each key says it should be |
| DiscoveryCache.SingleFlight | extensions/amazon-bedrock/discovery.ts:331-339 | at most one fetch per cached key is outstanding |
| DiscoveryCache.ResumeTouchesOwnEntry | extensions/amazon-bedrock/discovery.ts:408-420 | a finishing fetch overwrites or deletes its own entry and no other |
| DiscoveryCache.JoinersShareOutcome | extensions/amazon-bedrock/discovery.ts:336-338 | everyone who joined a fetch gets its outcome: the same models, or a rejection where the starter gets an empty list |
| DiscoveryCache.HitIsFresh | extensions/amazon-bedrock/discovery.ts:333-335 | a hit comes from a returned fetch for that key that started less than 1000 times the interval in seconds before |
| DiscoveryCache.LatestFetchDecides | extensions/amazon-bedrock/discovery.ts:331-339 | the next call for a cached key joins the latest fetch while it is outstanding, hits if it returned models and started less than 1000 times the interval before, and fetches otherwise |
| DiscoveryCache.NoIntervalNoCache | extensions/amazon-bedrock/discovery.ts:331 | without a refresh interval every call fetches and nothing is cached |
| DiscoveryCache.FetchesStarted | extensions/amazon-bedrock/discovery.ts:343-408 | a call that starts a fetch adds exactly one, for its own key and time; any other adds none |
| ConfigRecords.MergeMissing | extensions/amazon-bedrock/config-compat.ts:27-41 | the recursive loop gives the merged record whatever the order of the entries |
| ConfigRecords.MergeKeepsTarget | extensions/amazon-bedrock/config-compat.ts:32-39 | a value the target defines never changes, except that a record may be filled inside |
| ConfigRecords.MergeFillsMissing | extensions/amazon-bedrock/config-compat.ts:32-36 | every unblocked path the target lacks gets the source's value |
| ConfigRecords.MergeInventsNothing | extensions/amazon-bedrock/config-compat.ts:27-41 | every leaf of the result is the target's, or the source's where the target has none |
| ConfigRecords.MergeNoopIffCovered | extensions/amazon-bedrock/config-compat.ts:27-41 | merging changes nothing exactly when the target covers the source at every level |
| ConfigRecords.MergeIdempotent | extensions/amazon-bedrock/config-compat.ts:27-41 | merging twice is merging once |
| ConfigRecords.MissingFieldFilled | extensions/amazon-bedrock/config-compat.ts:27-41 | a missing field takes the source's value unless it is one of the three prototype keys, which are never filled |
| ConfigRecords.LookupSetAt | extensions/amazon-bedrock/config-compat.ts:17-25 | a write through a chain of ensured records reads back and leaves every unrelated path alone |
| BedrockMigration.MigrateAmazonBedrockLegacyConfig | extensions/amazon-bedrock/config-compat.ts:62-107 | the migration gives the config and the change message of its specification |
| BedrockMigration.UnrelatedConfigUnchanged | extensions/amazon-bedrock/config-compat.ts:72-97 | outside the legacy path and the plugin's discovery path every path reads the same |
| BedrockMigration.MigratedDiscovery | extensions/amazon-bedrock/config-compat.ts:78-97 | afterwards there is no legacy config and the plugin's is its own merged with the legacy one |
| BedrockMigration.MigrationIdempotent | extensions/amazon-bedrock/config-compat.ts:62-107 | a second migration changes nothing and reports nothing |
| BedrockMigration.ModelsAfter | extensions/amazon-bedrock/config-compat.ts:57-75 | `models` loses its legacy field and keeps all others, and goes altogether if nothing else is in it |
| BedrockMigration.ReportSpelledOut | extensions/amazon-bedrock/config-compat.ts:62-107 | which report each migration gives, in terms of the fields of the two records |
| BedrockMigration.LittleChanges | extensions/amazon-bedrock/config-compat.ts:62-81 | without a legacy record the config stays as it is, and an empty one leaves everything beside `models` |
| BedrockMigration.FlatIsCompatible | extensions/amazon-bedrock/config-compat.ts:95-106 | flat records without undefined or blocked fields always keep their meaning, and the change message is then accurate |
| BedrockMigration.ReportAccurateIff | extensions/amazon-bedrock/config-compat.ts:95-106 | the change message of a merge is right if and only if a top-level field is filled or the plugin config already covers the legacy one at every level |
| BedrockMigration.ReportMissesNestedFill | extensions/amazon-bedrock/config-compat.ts:95-106 | a nested fill that the comparison of the two records does not see |
| BedrockMigration.MigrationKeepsMeaning | extensions/amazon-bedrock/discovery.ts:438-441 | the effective config reads the same before and after if and only if there is no plugin config or it is compatible with the legacy one |
| TalkMigration.MigrateElevenLabsLegacyTalkConfig | extensions/elevenlabs/config-compat.ts:91-143 | the migration loop gives the config and the change report of its specification |
| TalkMigration.SkipsExactly | extensions/elevenlabs/config-compat.ts:68-109 | it skips exactly when legacy fields are present and no single usable provider can be named |
| TalkMigration.TargetSpelledOut | extensions/elevenlabs/config-compat.ts:68-90 | the target is the explicit provider, trimmed, if usable; else the only usable entry; else, with none, "elevenlabs"; and none for two or more |
| TalkMigration.LegacyByName | extensions/elevenlabs/config-compat.ts:9-15 | exactly five fields of `talk` are legacy, and they keep their values |
| TalkMigration.ChangesSpelledOut | extensions/elevenlabs/config-compat.ts:91-143 | what is not moved leaves the config as it was, and what is moved goes to the target provider |
| TalkMigration.MigratedTalkSettled | extensions/elevenlabs/config-compat.ts:119-135 | afterwards no legacy field is left and the same provider is still resolved |
| TalkMigration.MigrationIdempotent | extensions/elevenlabs/config-compat.ts:91-143 | applying it twice equals applying it once |
| TalkMigration.ProviderValuesKept | extensions/elevenlabs/config-compat.ts:132-133 | explicit provider values survive at every depth and legacy values arrive wherever the provider had none, a provider without settings included |
| TalkMigration.OtherConfigUnchanged | extensions/elevenlabs/config-compat.ts:111-135 | everything outside the legacy fields and the target provider reads the same |
| ClaudeArgs.NormalizeClaudePermissionArgs | extensions/anthropic/cli-shared.ts:98-132 | the look-ahead loop gives the tokens of its specification, with the bypass mode appended exactly when no mode was given |
| ClaudeArgs.NormalizeClaudeSettingSourcesArgs | extensions/anthropic/cli-shared.ts:134-166 | the same for the setting sources |
| ClaudeArgs.NormalizeClaudeBackendConfig | extensions/anthropic/cli-shared.ts:168-174 | both argument lists are normalised, absent ones stay absent |
| ClaudeArgsClean.StaysImproper | extensions/anthropic/cli-shared.ts:134-166 | the sources pass never moves a value up behind an option that had none |
| ClaudeArgsClean.SourcesPass | extensions/anthropic/cli-shared.ts:134-166 | the sources pass makes every source `user` and changes neither the modes nor the other arguments |
| ClaudeArgsClean.PermissionPass | extensions/anthropic/cli-shared.ts:98-132 | on such a list the permission pass drops the legacy flags and valueless options and keeps modes, sources and the rest |
| ClaudeArgsClean.CleanEverywhere | extensions/anthropic/cli-shared.ts:98-166 | the recursive reading of a clean list is the positional one: no legacy flag, every bare mode option followed by a proper value, every source `user` |
| ClaudeArgsClean.NormalizedKeeps | extensions/anthropic/cli-shared.ts:168-174 | the result is clean with both settings present, keeps the given modes or bypasses, and keeps all unrelated arguments in order |
| ClaudeArgsClean.UnchangedIffSettled | extensions/anthropic/cli-shared.ts:168-174 | the fixed points are exactly the clean lists with both settings present |
| ClaudeArgsClean.NormalizedIdempotent | extensions/anthropic/cli-shared.ts:168-174 | normalising twice is normalising once, for every list |
| ClaudeArgsText.ValueIff | extensions/anthropic/cli-shared.ts:110-115 | an argument is a value if and only if it is not blank and does not start with a dash |
| ClaudeArgsText.ModesIff | extensions/anthropic/cli-shared.ts:98-174 | `--permission-mode v` is in the result if and only if it was given, or no mode was and it is `bypassPermissions`; every `--permission-mode=...` stays |
| ClaudeArgsText.ResultSpelledOut | extensions/anthropic/cli-shared.ts:98-166 | at every position of the result: no legacy flag, a bare mode option followed by a value, `--setting-sources` by `user`, and no other `--setting-sources=...` than `user` |
| ClaudeArgsText.UnrelatedKept | extensions/anthropic/cli-shared.ts:104-165 | every argument that is no option of the two passes, and not the value of a setting source, stays |
| ClaudeArgsText.SourcesGiven | extensions/anthropic/cli-shared.ts:162-164 | some setting source is always given |
| Utf16.SliceUtf16Safe | src/utils.ts:88-115 | for all integer bounds the result is the longest stretch within them that splits no surrogate pair at either end, and nothing for equal bounds |
| Utf16.EncodeDecoded | src/utils.ts:80-86 | decoding code units to code points loses nothing, lone surrogates included |
| Utf16.DecodeCut | src/utils.ts:99-112 | decoding commutes with every cut that splits no pair |
| Utf16.SliceDecodes | src/utils.ts:88-115 | the slice decodes to a stretch of the text's code points, so it is well formed if the text is |
| Utf16.SliceIsPlainIff | src/utils.ts:99-114 | it equals the plain slice exactly when neither bound splits a pair, or the bounds are equal |
| Utf16.TruncateUtf16Safe | src/utils.ts:117-123 | truncation to a real limit floors it, clamps it at zero and slices |
| Utf16.TruncatedIsPrefix | src/utils.ts:117-123 | the code points are a prefix of the text's, the length is at most the limit, and at least one less when truncated |
| Utf16.TruncatedIsLongest | src/utils.ts:117-123 | no longer prefix of the code points would fit |
| Utf16.ClampExact | src/utils.ts:88-98 | a bound in range is itself, a negative one counts from the end, and the others are cut to the text |
| Utf16.BoundsExact | src/utils.ts:88-98 | the bounds of a slice, swapped if they come in the wrong order, with the end of the text for a missing one |
| Utf16.PairsInOrder | src/utils.ts:80-86 | which units form a pair, and that the pairs are the code points from U+10000 to U+10FFFF in order |
| Appcast.FloorsOrderByDate | scripts/sparkle-build.ts:37-52 | floors order by date whatever the lanes |
| Appcast.FloorRanges | scripts/sparkle-build.ts:37-52 | legacy floors are below 1,000,000,000, lane floors at or above it exactly for years of four digits |
| Appcast.FloorsSpelledOut | scripts/sparkle-build.ts:31-52 | floors exist for months 1 to 12 and days 1 to 31; stable is lane 90, a name lane 1, a number its own lane up to 89 |
| Appcast.StableOnTop | scripts/sparkle-build.ts:41-52 | on one date the stable build lies above all others, and numbered ones keep their order up to 89 |
| Appcast.CollectAppcastSparkleVersionErrors | scripts/release-check.ts:316-373 | the two loops give the errors of the specification, in order |
| Appcast.AdoptionIsEarliest | scripts/release-check.ts:343-350 | the effective adoption date is the earliest lane-numbered date or the fixed one |
| Appcast.ErrorFreeIff | scripts/release-check.ts:316-373 | an appcast is free of errors exactly when all builds are numbers and each reaches its floor: the lane floor for lane-numbered items and from the adoption date on, else the legacy floor |
| Appcast.ErrorFreeRanges | scripts/release-check.ts:351-370 | for years of four digits that means: each build reaches the floor of its own range, and from the adoption date on all are lane-numbered |
| Appcast.LaneNumberingStays | scripts/release-check.ts:351-370 | in an error-free appcast nothing dated on or after a lane-numbered item has a legacy build, if its lane floor is out of the legacy range |
| Appcast.EarlyYearsMixRanges | scripts/release-check.ts:351-370 | for every version of a year below 1000 an error-free appcast mixes both ranges at its date |
| Appcast.LaneRuleIff | scripts/release-check.ts:351-370 | the rule that lane numbering stays holds for a version in every error-free appcast if and only if its year has four digits |
| Appcast.ErrorsSpelledOut | scripts/release-check.ts:316-373 | the errors reported are exactly the justified ones: no items, a missing or non-numeric build, or a build below its floor, with the floor, its kind and the dates in numbers |
| Appcast.CalverMembers | scripts/release-check.ts:340-349 | exactly the items with a numeric build and a version of a possible date are checked against floors |

## Left out

- TranslationTree.SetNestedValue: `setNestedValue` writes into shared nested objects; here each sub-map is a value that
  is put back under its parent, so aliasing between sub-maps is not modelled.
- ConfigRecords.MergeMissing: the same for the in-place merge and for `ensureRecord`; the one visible effect of
  aliasing, the Bedrock change message, is modelled in `BedrockMigration`. Records are maps, so key order is not kept.
- ToggleLock.RunKeeps, DiscoveryCache.RunKeeps: the lock and the discovery cache are step functions on values rather
  than methods, because what matters there is the interleaving; any interleaving of steps is allowed, which includes
  the real microtask order.
- LocaleSyncFixpoint.SyncIsFixpoint: assumes of serialising then parsing that a locale module keeps the text at every
  path, that integers are kept up to `Number.MAX_SAFE_INTEGER`, and that the memory loader drops blank texts and empty
  keys and nothing else; that cache keys are not empty and differ for different keys; that `localeCompare` tells
  different keys apart; that no part of a source key is `__proto__`, which assignment does not make a key; and that the
  source, the provider and the model stay the same between the two runs. Files that do not parse are not modelled.
- NotifierRuns.RunOk, NotifierDelivery.AnnouncementsApart, NotifierDelivery.OneShotFiresOnce: polls and commands are
  atomic there; what their overlap does is in `NotifierInterleaving` and `NotifierOverlap`.
- NotifierKeys.NumericThreadKeys: a number stands for the decimal JavaScript prints for it; non-finite numbers are not
  modelled.
- RecallCache.Cache.SetCachedResult: clock readings are parameters; the digest in the key is an arbitrary string.
- TranslationRetry.TranslateBatch: a prompt returns parsed JSON or an error message; client start-up, prompt text, the
  retry delay and the RPC client are not modelled.
- LocaleSyncRun.SyncLocale: progress output and the rendering of files are parameters or absent; duplicate keys in the
  source cannot occur because it is a map.
- CycleCheck.CheckImports: the graph is given; file discovery and import parsing are not modelled.
- Utf16.SliceUtf16Safe: bounds that are not integers are not modelled.
- Appcast.CollectAppcastSparkleVersionErrors: items are given with their build and version fields already parsed; the
  XML and version patterns are not modelled, and decimal concatenation of dates is arithmetic.
- ClaudeArgs.NormalizeClaudeBackendConfig: other config fields pass through unchanged and are not represented.
- TalkMigration.MigrateElevenLabsLegacyTalkConfig, BedrockMigration.MigrateAmazonBedrockLegacyConfig: change messages
  are reduced to their kind and the target provider; the list of moved keys in the text is not modelled.
- ToggleStore.LastToggleWins: session keys are taken as they are; the reader trims the key it looks up, and finds
  nothing under a blank one.
- DiscoveryCache.JoinersShareOutcome: a client factory that throws before the fetch starts, the one-time warning and
  the resets for tests are not modelled.
- BedrockMigration.MigrationKeepsMeaning: the spread of a discovery config that is not a record is not modelled.
- JavaScript objects order integer-like keys first and inherit names such as `constructor`; the models use plain
  insertion order and own keys only. Where a map is written and read back, any order of its keys is allowed.
- Outside `Utf16`, a string is a sequence of characters none of which is a surrogate, so its length is JavaScript's only
  for text in the basic multilingual plane.
- Read errors of the toggle store and the notifier state, which silently give an empty store, and state files edited
  by hand.
- File, process and network access, logging, command parsing, prompts, status lines, plugin registration, model
  catalogues and the construction of the discovered model list, which hold no property beyond their own text.
- Other small caches and batchers of the repository, which would repeat the ones here in easier form.
