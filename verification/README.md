# Runlet backend: verified model

Runlet crawls web systems, compiles what it finds into page assets and checks, schedules the checks and runs
them. This project models the state-carrying parts of its backend in Dafny and proves what they keep.

| module | models |
|---|---|
| `Corpus`, `CorpusHistory`, `SwitchMeaning` | crawl snapshots, the current-state switch, history and archived facts |
| `SemanticDiff`, `Fingerprints`, `DriftLaws` | the comparison that decides the switch, and page drift |
| `ModulePlans`, `CheckChoice`, `ModuleExecutor`, `DataChecks` | check definitions, module plans, the step interpreter and what checks test for |
| `Reconciliation`, `RetirementLaws`, `TruthMeaning` | retirement decisions against the current snapshot |
| `AssetCompiler`, `AssetKeys`, `LifecycleLaws`, `GateLaws`, `FreshCheckLaws`, `CompileOutcome`, `CollidingPages` | the compile body on assets and checks |
| `Cascade`, `StrandedJobs`, `World`, `Store` | published jobs and aliases after a compile; whole runs; the tables as mutable state |
| `TargetEvidence`, `TargetRegistryLaws`, `NavigationTargets` | the budgeted navigation-target registry |
| `CrawlAssembly`, `CrawlPersistence`, `MenuForest`, `NavigationAliases` | combining and writing a crawl, the menu forest, menu chains and aliases |
| `RetryLoop`, `WorkerQueue`, `RetiredRuns` | the retry loop, the job queue, its worker and handlers |
| `ScheduledTriggers`, `SchedulerRegistry` | published-job and policy triggers, the scheduler registry and its callbacks |
| `Basics`, `Sorting`, `Text` | sequences, stable sorting and text normalisation |

Procedures that the backend carries out in place are methods over fields, maps and sequences; each is proved
against a specification function, and the laws are lemmas about that function. Browser, database, services
and clocks are parameters.

`dafny verify dfyconfig.toml` checks everything.

## What the code does not do

- If a compile is committed and its cascade then fails, jobs that should have been resumed stay paused and jobs
  that should have been paused stay active, and no later compile picks them up while their check stays where it
  is (`Cascade.CompileWithoutCascade`, `StrandedJobs.FailedCascadeStrands`, `Cascade.MissedJobStays`,
  `Cascade.MissedActiveJobStays`). With cascades that succeed, paused jobs are never left behind; active ones are
  not either as long as jobs are published active for checks in service only, which nothing enforces
  (`World.EveryRunKeepsJobs`, `World.SimpleStepActive`).
- Element listing order can show in a page fingerprint and its drift status, exactly when two different cleaned
  elements compare equal in the sort key (`Fingerprints.ElementOrderVisible`, `Fingerprints.UsageOrderShows`).
  Menu order never does.
- A snapshot can retire a check it has just compiled. Pages whose routes differ only in a slash at the end, or in
  `-` and `_`, share an asset (`AssetKeys.AssetKeysCollide`); the asset moves to the last of them while a
  check that this page does not compile keeps the chain of an earlier one. When that happens is exact and can be
  read off the snapshot (`FreshCheckLaws.FreshCheckFate`, `FreshCheckLaws.FreshCheckStays`,
  `CollidingPages.FreshCheckRetired`); pages with distinct keys never lose a check that way
  (`FreshCheckLaws.FreshCheckSurvives`, `FreshCheckLaws.DistinctKeysStay`).
- Merging the same metadata twice is not always the same as merging it once: a list with repeated items that
  lands on an empty place is deduplicated only the second time (`TargetEvidence.MetadataAbsorbs`,
  `TargetEvidence.RepeatShrinks`).
- Fires that reach a published job out of minute order can give it two runs in one minute
  (`ScheduledTriggers.FireKeepsOnceExactly`, `ScheduledTriggers.OutOfOrderFiresTwice`).

## Model

| member | source | states |
|---|---|---|
| World.EveryRunSound | backend/src/app/domains/asset_compiler/service.py:367-392 | In every state reached from an empty platform by any sequence of crawls, submissions, compiles (with their cascade succeeding or failing), publications and alias creations, every check in service belongs to an asset in service, and the snapshot, history, job and alias laws hold. |
| World.EveryRunKeepsJobs | backend/src/app/domains/asset_compiler/service.py:424-447 | In every run whose cascades succeed, a published job paused with a retirement marker has a check that is out of service, and an active job carries no marker; if moreover jobs are published active only for checks in service, every active job belongs to a check in service. |
| World.SimpleStepActive | backend/src/app/domains/runner_service/scheduler.py:96-128 | Outside compiles, the law that active jobs belong to checks in service breaks exactly when a job is published active for a check that is out of service, which nothing prevents. |
| World.RunsProgress | backend/src/app/domains/asset_compiler/current_state_switch.py:32-126 | However a run goes on: discarded snapshots stay exactly as they are, a system with an active snapshot keeps having one, and crawled facts and history rows are never lost or reordered. |
| World.CompileSound | backend/src/app/jobs/asset_compile_job.py:30-72 | One compile job keeps every law of the platform, whatever its outcome and whether or not its cascade succeeds, and both published-job laws when the cascade succeeds. |
| Store.Store.RunCompileJob | backend/src/app/jobs/asset_compile_job.py:30-72 | Carried out row by row on mutable tables, switch, compile body and cascade together reach exactly the state the run model prescribes; an error leaves everything as it was. |
| Store.Store.CompleteCrawl | backend/src/app/jobs/crawl_job.py:71-93 | In place, the end of a successful crawl job persists the crawl, drops superseded drafts and records the compile request, and touches no asset, check, published job or alias. |
| Store.Store.DiscardSupersededDrafts | backend/src/app/jobs/crawl_job.py:144-171 | The loop over the drafts discards exactly the drafts of the system that are neither kept nor named by a compile job. |
| Store.Store.ApplyCurrentStateSwitch | backend/src/app/domains/asset_compiler/current_state_switch.py:32-126 | The in-place switch performs the specified switch on rows, history and archived facts. |
| Store.Store.ArchiveActiveFacts | backend/src/app/domains/asset_compiler/current_state_switch.py:220-302 | Row by row, exactly the facts of the replaced snapshot are appended to the history tables. |
| Store.Store.UpsertSnapshotPages | backend/src/app/domains/asset_compiler/service.py:185-315 | The page and check loops leave the tables that upserting every page in order leaves, and report the checks brought back into service. |
| Store.Store.ApplyDecision | backend/src/app/domains/asset_compiler/service.py:367-392 | One retirement decision applied in place retires the asset only for a missing page, and only checks still in service. |
| Store.Store.RetireMissing | backend/src/app/domains/asset_compiler/service.py:317-403 | Truth building, decision and retirement over the tables equal the specified sweep. |
| Store.Store.ApplyCascade | backend/src/app/domains/control_plane/service.py:547-587 | Aliases and published jobs end up as the cascade specification says, with the queries taken before the first update. |
| Store.Store.PausePublishedJobs | backend/src/app/domains/runner_service/scheduler.py:255-289 | Only jobs active at that moment are paused, all of those and with their markers; every other job is untouched. |
| Store.Store.ResumePublishedJobs | backend/src/app/domains/runner_service/scheduler.py:291-324 | Only paused jobs among the given ones are resumed, with every marker cleared. |
| Store.Store.DisableAliasRows | backend/src/app/domains/control_plane/repository.py:1169-1205 | Exactly the active aliases among the given ones are disabled, and the count returned is their number. |
| Store.Store.EnableAliasRows | backend/src/app/domains/control_plane/repository.py:1207-1236 | Exactly the inactive aliases among the given ones are enabled, and the count returned is their number. |
| Corpus.LoadActiveMeaning | backend/src/app/domains/asset_compiler/current_state_switch.py:129-142 | The loaded row is the newest active snapshot of the system other than the draft, and none is loaded only when there is none. |
| Corpus.FactsOfMeaning | backend/src/app/domains/asset_compiler/current_state_switch.py:220-245 | What is archived with a snapshot: exactly its pages, menus and elements, each by identifier. |
| CorpusHistory.SwitchCases | backend/src/app/domains/asset_compiler/current_state_switch.py:32-126 | A switch changes nothing on an error, and names the error for an unknown snapshot, a discarded one, or blank or repeated routes on either side; discards a draft of low quality, or one whose page fingerprints are the same set as those of an active snapshot of its system; activates a good draft when its system has no other active one; or else, the fingerprints differing, archives the active one and puts the draft in its place. |
| CorpusHistory.SwitchInv | backend/src/app/domains/asset_compiler/current_state_switch.py:73-126 | A switch keeps: at most one active snapshot a system; active snapshots full, not degraded and scoring at least 0.9; history exactly the replaced snapshots, each once; each row replaced by the next row of its system and the last by the current active one; archived facts exactly those of the replaced snapshots. |
| CorpusHistory.SwitchOutcomeMeaning | backend/src/app/domains/asset_compiler/current_state_switch.py:44-71 | A promoted snapshot is active and of high quality; a discard changes the row of the draft alone; an error changes nothing. |
| CorpusHistory.SwitchProgress | backend/src/app/domains/asset_compiler/current_state_switch.py:90-121 | A switch never revives a discarded snapshot, never leaves a system without its active snapshot, never loses facts and keeps every system assignment. |
| CorpusHistory.UnchangedDraftDiscarded | backend/src/app/domains/asset_compiler/current_state_switch.py:73-89 | A high-quality draft is discarded as unchanged exactly when its pages normalise to the same set of fingerprints as the active snapshot, and then history and active snapshot stay. |
| SwitchMeaning.FingerprintMeaning | backend/src/app/domains/asset_compiler/current_state_switch.py:145-217 | What a page counts as in the comparison, on the stored rows: its stripped route and title; the stripped non-blank names of exactly the menus of its snapshot that belong to it, one a row, by depth, sort order and identifier; and exactly the descriptors of its element rows. |
| SwitchMeaning.SwitchByRows | backend/src/app/domains/asset_compiler/current_state_switch.py:32-126 | A draft against the active snapshot of its system, decided on rows alone: discarded if not full, degraded or below 0.9; refused with a route error if a route is blank or repeated on either side; discarded as unchanged exactly if both have the same routes and every route the same title, menu labels and descriptors; put in the place of the active one otherwise, with both rows as they then are, and with the replaced row and its facts appended to the history. |
| SwitchMeaning.FirstSwitch | backend/src/app/domains/asset_compiler/current_state_switch.py:44-72 | Without an active snapshot in its system the draft goes into use exactly if it is full, undegraded and scores at least 0.9. |
| SwitchMeaning.ChangedPagePromotes | backend/src/app/domains/asset_compiler/current_state_switch.py:73-126 | One shared route whose pages differ in title, label list or descriptors is enough to promote the draft. |
| SwitchMeaning.RenamedMenuShows | backend/src/app/domains/asset_compiler/current_state_switch.py:183-190 | For example a page whose only menu has another name. |
| CorpusHistory.PersistInv | backend/src/app/domains/crawler_service/service.py:2478-2530 | Writing a crawl keeps every snapshot and history law. |
| CorpusHistory.CrawlInv | backend/src/app/jobs/crawl_job.py:71-93 | A successful crawl job, with its sweep of superseded drafts, keeps every snapshot and history law. |
| CorpusHistory.CrawlCoversDrafts | backend/src/app/jobs/crawl_job.py:71-93 | After a successful crawl job every remaining draft of the system is named by a compile job. |
| CorpusHistory.ReplaceLinks | backend/src/app/domains/asset_compiler/current_state_switch.py:90-121 | Replacing the active snapshot extends the history of its system as a linear chain and leaves the others alone. |
| CorpusHistory.ReplaceFacts | backend/src/app/domains/asset_compiler/current_state_switch.py:220-302 | Replacing the active snapshot archives exactly its facts, in order. |
| SemanticDiff.KeyElementsCanonical | backend/src/app/domains/asset_compiler/current_state_diff.py:114-123 | Two element lists normalise to the same key elements exactly when they describe the same set, whatever order or repetition. |
| Text.StripMeaning | backend/src/app/domains/asset_compiler/current_state_diff.py:145-148 | Stripped text is what is left of the text without blank ends, and nothing else is. |
| SemanticDiff.NormalizeKeyElements | backend/src/app/domains/asset_compiler/current_state_diff.py:114-123 | The set-filling loop yields the canonical key elements. |
| SemanticDiff.IndexByRoute | backend/src/app/domains/asset_compiler/current_state_diff.py:100-111 | The index loop computes the specified index or its error. |
| SemanticDiff.IndexMeaning | backend/src/app/domains/asset_compiler/current_state_diff.py:100-111 | The index represents the fingerprints, one a route, and fails exactly on a missing or repeated route. |
| SemanticDiff.CompareSemanticStates | backend/src/app/domains/asset_compiler/current_state_diff.py:79-97 | Comparison of two states, errors included. |
| SemanticDiff.NoChangeMeaning | backend/src/app/domains/asset_compiler/current_state_diff.py:69-97 | Two indexable states show no change exactly when they hold the same fingerprints, in any page order. |
| SemanticDiff.CompareMirrored | backend/src/app/domains/asset_compiler/current_state_diff.py:79-97 | Swapping the states swaps added and deleted routes and keeps the modified ones. |
| Fingerprints.DriftMeaning | backend/src/app/domains/asset_compiler/fingerprints.py:103-132 | Between two pages fingerprinted by the current builder: STALE exactly when the key-locator part changed, SUSPECT exactly when navigation or semantic text changed and it did not, SAFE otherwise. |
| DriftLaws.LocatorChangeStale | backend/src/app/domains/asset_compiler/fingerprints.py:32-132 | A page is stale as soon as its elements, counted with repetition, differ in kind, role, state, locator candidates or attributes. |
| DriftLaws.PlacesKeptDrift | backend/src/app/domains/asset_compiler/fingerprints.py:32-132 | As long as each element keeps these and its text a page is never stale; it is suspect as soon as route, title, summary or a menu differs, and safe when neither these nor the usage descriptions do. |
| Fingerprints.StructureDetermines | backend/src/app/domains/asset_compiler/fingerprints.py:32-100 | Equal structure digests mean equal fingerprints: each component is a projection of the structure payload. |
| Fingerprints.LegacyIrrelevant | backend/src/app/domains/asset_compiler/fingerprints.py:281-301 | Against a fingerprint of the current builder the legacy fallback never decides whether a component changed. |
| Fingerprints.MenuOrderInvisible | backend/src/app/domains/asset_compiler/fingerprints.py:149-174 | Permuting the menus of a page changes no digest. |
| Fingerprints.NormalizeMenus | backend/src/app/domains/asset_compiler/fingerprints.py:149-174 | The menu loop computes the cleaned and sorted menus. |
| Fingerprints.ElementOrderVisible | backend/src/app/domains/asset_compiler/fingerprints.py:177-207 | The fingerprint of a page is the same for every listing order of its elements exactly when no two different cleaned elements compare equal in the sort key. |
| Fingerprints.ConfusableExchange | backend/src/app/domains/asset_compiler/fingerprints.py:177-207 | When two do, some exchange of two elements changes the structure digest of the page. |
| Fingerprints.UsageOrderShows | backend/src/app/domains/asset_compiler/fingerprints.py:177-207 | At a real page: two elements that differ only in their usage descriptions, listed the other way round, turn the drift status from safe to suspect. |
| ModulePlans.BuildModulePlan | backend/src/app/domains/asset_compiler/module_plan_builder.py:7-80 | The appending builder yields the specified plan. |
| ModulePlans.BuildTemplateChainSteps | backend/src/app/domains/asset_compiler/module_plan_builder.py:118-151 | The template loop yields the specified steps. |
| ModulePlans.PlanShape | backend/src/app/domains/asset_compiler/module_plan_builder.py:7-80 | Every plan, for every code, page, state and locator bundle, starts with authentication, navigation and ready-wait, has at least one more step, uses only modules the executor handles, never authenticates or navigates again and never names the table assertion that would add a required element. |
| ModulePlans.StandardChecksCodes | backend/src/app/domains/asset_compiler/check_templates.py:7-72 | The standard checks of a page have distinct codes, always include the open-page check and, when the page has a table, the table check and every template check. |
| CheckChoice.ChecksChosen | backend/src/app/domains/asset_compiler/service.py:231-262 | Which checks a page gets, on its element rows and summary: the open-page check always; the table check and every data check exactly if an element is a table; the creation check exactly if an element or the summary names creation; the tab and dialog state checks exactly if an element is in a state of its own entered that way; no others. |
| CheckChoice.StateChosen | backend/src/app/domains/asset_compiler/service.py:231-249 | A state check is for the state of the first element, by identifier, that is in a state of its own entered that way. |
| CheckChoice.DefinitionsAsk | backend/src/app/domains/asset_compiler/check_templates.py:7-123 | Every check of a page carries the assertion and the required elements of its code. |
| CheckChoice.CompiledDependsOn | backend/src/app/domains/asset_compiler/reconciliation.py:126-181 | Through its plan a compiled check depends on exactly the labels of the menus of its page and the elements of its code. |
| CheckChoice.PlanOfCheck | backend/src/app/domains/asset_compiler/module_plan_builder.py:7-88 | Whatever check a page gets, its plan signs in, goes to the page along its menus, waits, and enters the state of the check exactly if it has one of its own; then a data check runs the actions and the assertion of its template on the table, and any other check looks for what it asserts at an element of the kind it depends on, and clicks if it is the creation check. |
| ModuleExecutor.Execute | backend/src/app/domains/runner_service/module_executor.py:77-384 | For any runtime the loop gives the specified execution, which passes exactly if every step gets the answer it needs, and otherwise ends with the first step that does not, failed with the category of its module. |
| ModuleExecutor.StepMeaning | backend/src/app/domains/runner_service/module_executor.py:87-400 | What a step needs, by module: a truthy answer; for filters and row assertions also a non-blank field and a value; for counts a non-negative number within the given bounds, at least 1 without any; for authentication true, reused or refreshed; for locators a match. And how it fails: navigation, readiness, assertion, state, blocked authentication, the locator's own category, or runtime error. |
| DataChecks.ResolveMeaning | backend/src/app/domains/runner_service/data_assertion_modules.py:9-62 | A parameter that asks for a key the caller gave gets the given value; every other parameter stays as it is. |
| DataChecks.PlaceholderMeaning | backend/src/app/domains/runner_service/data_assertion_modules.py:53-62 | A text asks for a key exactly if it is the key in double braces, blanks around either allowed. |
| DataChecks.NumberCoerced | backend/src/app/domains/runner_service/data_assertion_modules.py:25-34 | A digit string counts as its number, after a minus sign as the negated one, with any blanks around. |
| DataChecks.PresenceMeans | backend/src/app/domains/asset_compiler/template_registry.py:7-30 | Run by the interpreter, the data-present check passes exactly if everything before works and there is at least one row, the no-data check exactly if there is none. |
| DataChecks.CountGteMeans | backend/src/app/domains/asset_compiler/template_registry.py:83-95 | The count check passes exactly if there are at least as many rows as the caller asks for. |
| DataChecks.FieldEqualsMeans | backend/src/app/domains/asset_compiler/template_registry.py:31-58 | The field check filters and looks for a row by the field, operator and value of the caller, and passes exactly if, everything before having worked, there is one; a blank field or no value fails it. |
| DataChecks.StatusMeans | backend/src/app/domains/asset_compiler/template_registry.py:59-82 | The status check does the same for the field status, the operator equals and the status of the caller. |
| ModuleExecutor.PrefixOrderly | backend/src/app/domains/runner_service/module_executor.py:77-384 | Any execution is either one passed result for every step or a passed prefix followed by exactly one failed step. |
| ModuleExecutor.AuthDecidedFirst | backend/src/app/domains/runner_service/module_executor.py:386-395 | When only the first step authenticates, the authentication status is settled there, and a run that goes on or passes is not blocked. |
| ModuleExecutor.PlannedRun | backend/src/app/domains/runner_service/module_executor.py:77-384 | Running any built plan against any runtime is orderly, never fails for an unsupported module, and never gets beyond its first step with authentication blocked. |
| Reconciliation.MenuChainSatisfied | backend/src/app/domains/asset_compiler/reconciliation.py:281-292 | The scanning loop answers as the recursive scan does. |
| Reconciliation.ScanIsSubsequence | backend/src/app/domains/asset_compiler/reconciliation.py:281-292 | The greedy scan succeeds exactly when the expected chain is a subsequence of the current one. |
| Reconciliation.BuildCurrentSnapshotTruth | backend/src/app/domains/asset_compiler/reconciliation.py:77-123 | The dictionary-filling loops compute the specified truth: routes, chains and element rows a route. |
| Reconciliation.BuildBlockingDependency | backend/src/app/domains/asset_compiler/reconciliation.py:126-181 | The loop over the steps computes the specified dependencies. |
| Reconciliation.ReconcileRetirementDecisions | backend/src/app/domains/asset_compiler/reconciliation.py:184-250 | The grouping loops compute the specified decision list. |
| RetirementLaws.RetirementExact | backend/src/app/domains/asset_compiler/reconciliation.py:184-250 | With the gate open a decision names a check exactly when it is about its asset and states the first applicable reason; every check with a reason is named; an asset is decided missing exactly when its route is gone; no two decisions share asset and reason. With the gate closed there are none. |
| GateLaws.GateMeaning | backend/src/app/domains/asset_compiler/service.py:105-122 | The gate is open exactly for a full, undegraded snapshot that scores at least 0.7 and has at least half as many distinct non-blank routes as the assets of its system in service had before. |
| CompileOutcome.ClosedRetiresNothing | backend/src/app/domains/asset_compiler/reconciliation.py:45-74 | A compile of any other snapshot, a collapsed one included, retires no asset and no check. |
| CompileOutcome.UntrustedMovesNothing | backend/src/app/domains/asset_compiler/service.py:104-122 | One that is not full, degraded, without score or below 0.7 does not bring anything back either: every asset and check keeps its lifecycle. |
| CompileOutcome.AssetsRetiredExactly | backend/src/app/domains/asset_compiler/service.py:317-379 | With the gate open exactly the assets in service of the system are retired that no page of the snapshot lists and whose page has a route that does not occur in it. |
| CompileOutcome.ChecksRetiredExactly | backend/src/app/domains/asset_compiler/service.py:317-392 | And exactly the checks in service, under assets in service of the system, that have a reason to go; the row of each says which, when, and by which snapshot. |
| TruthMeaning.VerdictByRows | backend/src/app/domains/asset_compiler/reconciliation.py:184-250 | The reason, on fact rows: no page of the snapshot has the route; or the labels do not occur in order among those of the menus on the pages with it; or no element on these pages meets one of the requirements; in this order. |
| TruthMeaning.ChainMeaning | backend/src/app/domains/asset_compiler/reconciliation.py:77-123 | The chain of a route lists the stripped names of exactly the labelled menus on the pages with that route, page by page in display order. |
| TruthMeaning.ElementMeaning | backend/src/app/domains/asset_compiler/reconciliation.py:295-311 | A requirement is met exactly if an element on these pages has the kind, role and text it names. |
| LifecycleLaws.CompileBodyMoves | backend/src/app/domains/asset_compiler/service.py:391-429 | A compile body keeps checks in service only under assets in service; the checks reported as resumed are exactly those that came back, those reported as retired are out of service and include every one taken out, and no check is both. |
| LifecycleLaws.UpsertPagesInv | backend/src/app/domains/asset_compiler/service.py:271-277 | Upserting the pages of a good snapshot reactivates assets and checks together. |
| LifecycleLaws.SweepAllInv | backend/src/app/domains/asset_compiler/service.py:367-392 | Applying decisions that cover the checks of every asset they retire keeps the lifecycle law. |
| LifecycleLaws.RetirementsCover | backend/src/app/domains/asset_compiler/service.py:317-363 | The decisions of a compile name every check in service of each asset they retire. |
| FreshCheckLaws.StoredChainCurrent | backend/src/app/domains/asset_compiler/service.py:207-214 | The chain stored for a check through its plan is a subsequence of the chain the separately sorted truth has for its route, however many pages share the route. |
| FreshCheckLaws.FreshCheckFate | backend/src/app/domains/asset_compiler/service.py:185-358 | For every asset key and check code that pages of a snapshot compile, whether or not they share the key: after the upserts the check is in service, and the decisions taken against that snapshot name it for a missing menu chain exactly if the last page with the key has a non-blank route and the chain of the last page compiling the code is not a subsequence of the chain the truth has for that route; for a missing element exactly if the chain holds and a required element does not; and never, nor its asset, for a missing page. |
| FreshCheckLaws.FreshCheckStays | backend/src/app/domains/asset_compiler/service.py:185-392 | After the whole compile such a check is in service exactly if the snapshot has fewer than half of the routes served before or that condition, read off its facts, names no reason. |
| FreshCheckLaws.FreshCheckSurvives | backend/src/app/domains/asset_compiler/service.py:267-270 | If the last page with the key and the last one compiling the code have the same route, the snapshot never retires the check for its menu chain. |
| FreshCheckLaws.DistinctKeysStay | backend/src/app/domains/asset_compiler/service.py:207-215 | Where asset keys are distinct those two pages are the same page, for every page and every code it compiles. |
| CollidingPages.FreshCheckRetired | backend/src/app/domains/asset_compiler/service.py:207-392 | At real facts: with the pages /a and /a/, a menu and a table on the first, the first compile creates the table check, names it for a missing menu chain and takes it out of service again. |
| FreshCheckLaws.UpsertPagesInstall | backend/src/app/domains/asset_compiler/service.py:207-277 | The asset of every key ends on the last page with the key, and the check of every code under it carries the dependencies of the last such page that compiles the code, both in service. |
| FreshCheckLaws.RowsKeepIdentity | backend/src/app/domains/asset_compiler/service.py:207-215 | A key that has an asset and a code that has a check keep their rows: upserting never puts a second one beside them. |
| AssetKeys.AssetKeysCollide | backend/src/app/domains/asset_compiler/service.py:810-815 | Any two routes that differ only in a slash at the end, or in hyphens and underscores, get the same asset key. |
| AssetKeys.AssetKeyMeaning | backend/src/app/domains/asset_compiler/service.py:810-815 | Pages whose routes have segments share a key exactly if their segments joined by dots agree up to hyphens and underscores; without dots and hyphens in them exactly if the segments are the same, whatever the titles. |
| AssetKeys.SegmentsMeaning | backend/src/app/domains/asset_compiler/service.py:811 | A route is split into exactly the segments between its slashes. |
| Cascade.CascadeKeepsJobs | backend/src/app/domains/asset_compiler/service.py:636-655 | A compile and its cascade keep both job laws; pause and resume sets are disjoint; a job neither retired nor resumed, one paused by hand included, is untouched; a marked job whose check is back runs again; no job stays active on a check that was retired. |
| Cascade.JobQueries | backend/src/app/domains/asset_compiler/service.py:636-655 | The queries return exactly the active jobs of the retired checks and exactly the system-paused jobs of the resumed ones. |
| Cascade.ResumedExactly | backend/src/app/domains/asset_compiler/service.py:646-655 | A cascade resumes a paused job exactly if its check was brought back, its pause reason mentions retirement and it names what it was paused for; a pause by hand stays. |
| Cascade.PausedExactly | backend/src/app/domains/runner_service/scheduler.py:255-289 | It pauses exactly the active jobs of the retired checks, with the reason, the snapshot and the check on them. |
| Cascade.EnabledExactly | backend/src/app/domains/asset_compiler/service.py:612-634 | It enables exactly those disabled aliases that name a check brought back, know the snapshot that disabled them and give a reason that mentions retirement. |
| Cascade.DisabledExactly | backend/src/app/domains/asset_compiler/service.py:588-610 | It disables exactly those aliases in use whose asset was retired or that name a retired check. |
| Cascade.CompileWithoutCascade | backend/src/app/jobs/asset_compile_job.py:42-60 | When the compile is committed and its cascade fails, the law on paused jobs survives exactly if the cascade had no job to resume, and the law on active jobs exactly if it had none to pause. |
| StrandedJobs.FailedCascadeStrands | backend/src/app/jobs/asset_compile_job.py:42-60 | At real facts: one compile takes a check with an active job out of service and brings back a check with a paused job; both laws hold before it and, without its cascade, neither does afterwards. |
| Cascade.MissedJobStays | backend/src/app/domains/asset_compiler/service.py:424-447 | A paused job missed that way stays paused through the next compile and cascade while its check is in service. |
| Cascade.MissedActiveJobStays | backend/src/app/domains/asset_compiler/service.py:424-447 | An active job missed on a retired check stays active through the next compile and cascade, unless that compile reports the check as retired again. |
| Cascade.PauseResumeRestores | backend/src/app/domains/runner_service/scheduler.py:255-324 | Pausing and resuming restores the records of active, unmarked jobs exactly. |
| Cascade.RetireThenReturn | backend/src/app/domains/control_plane/service.py:572-582 | When one cascade retires checks and a later one brings them back, the jobs are as they were. |
| Cascade.CascadeKeepsAliases | backend/src/app/domains/control_plane/repository.py:1169-1236 | A disabled alias can always be enabled again, enabling restores it exactly, and an alias is enabled exactly when its check is resumed. |
| Cascade.InactiveAliasExplained | backend/src/app/domains/asset_compiler/service.py:612-634 | An alias that stays disabled while its check is in service names a check that was in service before the compile or is new in it, and it stays exactly as it is unless a check with its target is brought back; an alias of a check that the compile brings back is enabled. |
| NavigationTargets.NavigationTargetRegistry.AddTarget | backend/src/app/domains/crawler_service/navigation_targets.py:153-178 | Adding any target object, also one already listed, keeps list, key map and counters in agreement with the whole history of offers, gives the verdict that history calls for, and changes exactly the fields that verdict changes. |
| NavigationTargets.NavigationTargetRegistry.Extend | backend/src/app/domains/crawler_service/navigation_targets.py:180-186 | A batch is offered in order and the targets returned are exactly those accepted, in order, which are the ones appended. |
| NavigationTargets.NavigationTargetRegistry.Take | backend/src/app/domains/crawler_service/navigation_targets.py:153-178 | The field updates of one offer: merge, block or list, with the counters. |
| NavigationTargets.NavigationTargetRegistry.Consistent | backend/src/app/domains/crawler_service/navigation_targets.py:121-200 | In every valid state all four budgets hold, keys are unique, and accepted plus rejected is the number of offers. |
| NavigationTargets.OfferKeepsSound | backend/src/app/domains/crawler_service/navigation_targets.py:153-178 | One offer keeps the agreement of list, key map, counters and history. |
| NavigationTargets.DecideByHistory | backend/src/app/domains/crawler_service/navigation_targets.py:155-200 | The verdict from key map and counters, budget reasons in their order included, is the verdict from the list of accepted targets, for every history of offers. |
| NavigationTargets.NavigationTargetRegistry.ListedEvidence | backend/src/app/domains/crawler_service/navigation_targets.py:237-265 | In every valid state of the registry a listed target carries the least source offered for its key and the first occurrences among all locators offered for it, in order of arrival. |
| NavigationTargets.NavigationTargetRegistry.Create | backend/src/app/domains/crawler_service/navigation_targets.py:18-43 | A target made from raw input is normalised before it can be offered, and making it disturbs nothing. |
| NavigationTargets.MergeInPlace | backend/src/app/domains/crawler_service/navigation_targets.py:92-95 | Merging into the one object the key map names is merging into the listed target with that key, and changes no key. |
| TargetRegistryLaws.ReplayInvariant | backend/src/app/domains/crawler_service/navigation_targets.py:121-200 | After any sequence of offers keys are unique, every budget holds, and there are as many targets as accepted offers. |
| TargetRegistryLaws.FirstVerdictFinal | backend/src/app/domains/crawler_service/navigation_targets.py:153-200 | A key blocked once is blocked at every later offer; a key accepted or merged once is merged at every later offer. |
| TargetRegistryLaws.EntryMergesAll | backend/src/app/domains/crawler_service/navigation_targets.py:92-95 | An accepted target carries the merge of all offers of its key from the first to the last. |
| TargetRegistryLaws.AcceptedEvidence | backend/src/app/domains/crawler_service/navigation_targets.py:237-265 | The source of an accepted target is the least ever offered for its key and its locators are the first occurrences among all offered ones. |
| TargetRegistryLaws.SourceOrderFree | backend/src/app/domains/crawler_service/navigation_targets.py:317-329 | The source does not depend on the order of the offers. |
| TargetEvidence.PreferLeast | backend/src/app/domains/crawler_service/navigation_targets.py:317-329 | Preferring one source to another keeps the least by priority and then name. |
| TargetEvidence.SourceOrderMeaning | backend/src/app/domains/crawler_service/navigation_targets.py:317-329 | The six known sources are preferred in their order and before all others, which go by name. |
| TargetEvidence.NormalLocatorsClean | backend/src/app/domains/crawler_service/navigation_targets.py:237-258 | Normalised locators are stripped, non-empty and distinct. |
| TargetEvidence.NormalRouteMeaning | backend/src/app/domains/crawler_service/navigation_targets.py:204-211 | A route must start with a slash; without query and fragment it loses the slashes at its end, unless it consists of nothing else. |
| TargetEvidence.MetadataKeeps | backend/src/app/domains/crawler_service/navigation_targets.py:294-314 | Merging metadata keeps every key, takes over new ones, and never overwrites a non-empty scalar. |
| TargetEvidence.MetadataMeets | backend/src/app/domains/crawler_service/navigation_targets.py:294-314 | Where both sides have a key: objects are merged by the same rules, lists joined without repetition, an empty value gives way, and anything else stays. |
| TargetEvidence.MetadataAbsorbs | backend/src/app/domains/crawler_service/navigation_targets.py:294-314 | Merging the same metadata twice equals merging it once exactly when every value landing on an empty place has repetition-free lists, in particular when no incoming list repeats an item. |
| TargetEvidence.RepeatShrinks | backend/src/app/domains/crawler_service/navigation_targets.py:294-314 | At a real value: a list naming one item twice under a new key is taken over whole and shrinks at the second merge. |
| CrawlAssembly.CombineResults | backend/src/app/domains/crawler_service/service.py:2532-2603 | The dictionary loops compute pages, menus, elements, quality, failure reason, warnings and degradation; an extraction without any page is degraded. |
| CrawlAssembly.CombinedProper | backend/src/app/domains/crawler_service/service.py:2545-2574 | The combined pages have distinct routes, and these are the routes found, those of routed menus and those of kept elements, and no others. |
| CrawlAssembly.MergeRepresentatives | backend/src/app/domains/crawler_service/service.py:2605-2645 | The merging loop computes the representative elements. |
| CrawlAssembly.RepresentativesMeaning | backend/src/app/domains/crawler_service/service.py:2605-2645 | Kept elements are signed, one a key, listed under their own key in order of first appearance, and merging never changes a key. |
| CrawlAssembly.CollectedPage | backend/src/app/domains/crawler_service/service.py:2647-2667 | A page found several times carries the first non-empty title and summary, in the order discovery, menus, probe, and the union of the sources. |
| CrawlAssembly.RepresentativeData | backend/src/app/domains/crawler_service/service.py:2605-2645 | A kept element carries, of all signed candidates with its key, those of the menus first, the last non-empty locator, the last stability given and for every context entry the last value given. |
| CrawlAssembly.TitleRoutesMeaning | backend/src/app/domains/crawler_service/service.py:2742-2752 | The title map leads to the first page whose normalised title it is. |
| CrawlAssembly.TitleKeyMeaning | backend/src/app/domains/crawler_service/service.py:2754-2766 | A title counts by what comes before its first separator of any of the four kinds, stripped; by nothing if that is blank. |
| CrawlAssembly.RoutedByTitle | backend/src/app/domains/crawler_service/service.py:2553-2568 | A menu keeps its route, or takes that of the first page titled like it; its page is the one it names, else the one of its route. |
| CrawlAssembly.MaxScoreMeaning | backend/src/app/domains/crawler_service/service.py:2578-2581 | The quality is the greatest score given, and absent exactly when none is. |
| CrawlAssembly.BuildTitleRoutes | backend/src/app/domains/crawler_service/service.py:2742-2763 | For each normalised title the route of the first page with it. |
| CrawlPersistence.PersistPages | backend/src/app/domains/crawler_service/service.py:2789-2813 | One row a page with its route, title and summary, and the map from route to row. |
| CrawlPersistence.RowsTellAll | backend/src/app/domains/crawler_service/service.py:2789-2884 | Every written page, menu and element row carries the data of its own candidate, field by field. |
| CrawlPersistence.PersistMenus | backend/src/app/domains/crawler_service/service.py:2815-2852 | With the identity and label maps, each menu row gets as parent the latest earlier menu with its parent identity, else the latest earlier one with its parent label. |
| CrawlPersistence.PersistElements | backend/src/app/domains/crawler_service/service.py:2854-2884 | Element rows for the elements whose page exists. |
| CrawlPersistence.ParentEarlier | backend/src/app/domains/crawler_service/service.py:2826-2832 | A parent was created before its child. |
| CrawlPersistence.CombinedCovered | backend/src/app/domains/crawler_service/service.py:2532-2603 | What combining returns has a page for every routed menu and every kept element. |
| CrawlPersistence.NothingHomeless | backend/src/app/domains/crawler_service/service.py:2478-2530 | Written out, every routed menu points to the page row with its route, every element has a row on the page row with its route, and no page, menu or element is lost. |
| CrawlPersistence.PersistedAdmissible | backend/src/app/domains/crawler_service/service.py:2478-2530 | Such a crawl meets the key constraints under which the run laws are proved. |
| MenuForest.PersistedForest | backend/src/app/domains/crawler_service/service.py:2815-2852 | The menus of one crawl form a forest, in whatever order their rows are read. |
| MenuForest.ForestWalkEndsAtRoot | backend/src/app/domains/asset_compiler/service.py:795-802 | In a forest the upward walk ends at a menu without a parent: its cycle guard never fires. |
| MenuForest.LineageExact | backend/src/app/domains/asset_compiler/service.py:795-802 | On any parent graph, cyclic ones included, the guarded walk visits exactly the menus that can be reached upwards. |
| MenuForest.WalkUp | backend/src/app/domains/asset_compiler/service.py:795-802 | The walking loop terminates on any parent graph and computes the lineage. |
| MenuForest.AppendMenuWithAncestors | backend/src/app/domains/asset_compiler/service.py:787-807 | Appending a menu adds its root-first lineage without the menus already there. |
| MenuForest.BuildNavigationMenuTopology | backend/src/app/domains/asset_compiler/service.py:768-784 | The loop over the menus of a page computes its topology. |
| MenuForest.TopologyClosure | backend/src/app/domains/asset_compiler/service.py:768-807 | A topology is exactly the menus of the page and everything above them, each once, on any parent graph. |
| MenuForest.TopologyParentsFirst | backend/src/app/domains/asset_compiler/service.py:768-807 | For the menus of one crawl every parent precedes its child in the topology. |
| NavigationAliases.DeriveChainForCandidate | backend/src/app/domains/asset_compiler/navigation_aliases.py:133-165 | The parent walk terminates on any graph and computes the chain of the candidate. |
| NavigationAliases.HasCompleteTopologyChain | backend/src/app/domains/asset_compiler/navigation_aliases.py:168-182 | The separate completeness walk answers exactly whether such a root path exists. |
| NavigationAliases.ChainForMeaning | backend/src/app/domains/asset_compiler/navigation_aliases.py:133-165 | The chain is complete exactly when a path leads down from a root of depth 0, one depth at a time; it then lists the labels along that path, one more than the depth of the candidate; otherwise it is the label of the candidate. |
| NavigationAliases.DeriveMenuChain | backend/src/app/domains/asset_compiler/navigation_aliases.py:60-130 | The labelled menus with the route of the page decide; without any, those without labelled children; without any, all labelled ones. If the menus that decide all have one chain, the labels on the way down from a root or else the own label, the result is that chain; otherwise it is none. |
| NavigationAliases.RouteDecides | backend/src/app/domains/asset_compiler/navigation_aliases.py:77-97 | With a labelled menu on the route of the page, a chain is the chain of that menu and ends with its label; a single one decides alone; two with different chains leave none. |
| NavigationAliases.PreferredDecides | backend/src/app/domains/asset_compiler/navigation_aliases.py:99-130 | The same for any menu of the group that decides. |
| NavigationAliases.FormatMeaning | backend/src/app/domains/asset_compiler/navigation_aliases.py:199-202 | A chain is shown as its labels in order with an arrow between any two. |
| NavigationAliases.LeafCandidates | backend/src/app/domains/asset_compiler/navigation_aliases.py:66-74 | Counting children finds exactly the labelled menus without a labelled child. |
| NavigationAliases.OrderFree | backend/src/app/domains/asset_compiler/navigation_aliases.py:60-130 | The result does not depend on the order of the menus: the sort among candidates is irrelevant. |
| NavigationAliases.PageChainOrderFree | backend/src/app/domains/asset_compiler/service.py:292-300 | Nor does the chain of a page depend on the order in which the stored menu rows are read. |
| NavigationAliases.BuildNavigationAliases | backend/src/app/domains/asset_compiler/navigation_aliases.py:17-57 | The drafts for title, leaf and complete chain of the chain the deciding menus agree on; deduplication removes nothing. |
| NavigationAliases.DraftsFit | backend/src/app/domains/asset_compiler/navigation_aliases.py:17-57 | At most one alias of each type, a chain alias exactly for a complete chain, all showing the same chain and leaf, none repeated. |
| RetryLoop.RunPrecompiledWithRetry | backend/src/app/jobs/run_check_job.py:327-479 | For any policy and any outcomes the loop ends as its first attempt that is no retryable failure, or its last allowed one, prescribes, and sleeps exactly the sum of the back-offs before it. |
| RetryLoop.LastAttemptMeaning | backend/src/app/jobs/run_check_job.py:341-468 | Every earlier attempt was a retryable failure, and a retryable failure ends the run only at the maximum. |
| RetryLoop.AttemptsInOrder | backend/src/app/jobs/run_check_job.py:341-468 | Attempts are recorded as 1, 2, 3 and so on; all but the last are failures marked retryable with their back-off. |
| RetryLoop.ReportMeaning | backend/src/app/jobs/run_check_job.py:404-479 | Flaky exactly on a pass after a failure; exhausted exactly on a retryable failure at the maximum; a block at the first attempt is raised as it is; the return after the loop is reached only when no attempt is allowed. |
| RetryLoop.SleepSum | backend/src/app/jobs/run_check_retry.py:49-52 | With base and jitter not negative a run ending at attempt n has slept base*(2^(n-1)-1)+(n-1)*jitter. |
| RetryLoop.PrecompiledPolicy | backend/src/app/jobs/run_check_job.py:18-20 | With the constants in force: at most three attempts and 0, 100 or 300 milliseconds of sleep. |
| RetryLoop.RetryableMeaning | backend/src/app/jobs/run_check_retry.py:34-46 | Exactly these failures are retried: navigation failed, page not ready, or a runtime error whose message names a timeout, a network error, a reset connection, a closed target or temporary unavailability. |
| RetryLoop.PrecompiledRetries | backend/src/app/jobs/run_check_job.py:327-479 | With the constants in force there is a second attempt exactly after such a failure of the first and a third exactly after such failures of the first two. |
| WorkerQueue.WorkerRunner.RunOnce | backend/src/app/workers/runner.py:51-77 | The oldest accepted job is claimed and ends terminal, no other job changes, and twice the accepted crawls plus the other accepted jobs strictly falls. |
| WorkerQueue.WorkerRunner.RunUntilIdle | backend/src/app/workers/runner.py:79-94 | Without outside submissions polling goes idle after finitely many jobs; every accepted job was claimed, none twice, and each is terminal. |
| WorkerQueue.WorkerRunner.RunCheck | backend/src/app/jobs/run_check_job.py:51-240 | A run-check job ends with its verdict; once its job run is found, every exit ends both with the same status, message and time; otherwise no job run changes. |
| RetiredRuns.RefusedExactly | backend/src/app/jobs/run_check_job.py:285-330 | In tables that keep the lifecycle law the worker refuses a well-formed job exactly if its check is out of service or its published job is paused for retirement; any other job ends as its service run ends. |
| RetiredRuns.RefusedIfRetired | backend/src/app/jobs/run_check_job.py:285-330 | While the job law holds the second case is part of the first: worker and compile agree on which checks run. |
| WorkerQueue.WorkerRunner.CheckPayload | backend/src/app/jobs/run_check_job.py:56-128 | The payload is refused exactly when it is not usable, with the status the first offending entry calls for. |
| WorkerQueue.WorkerRunner.RunCrawl | backend/src/app/jobs/crawl_job.py:25-93 | Completed exactly when payload and crawl are in order, and exactly then one accepted compile job joins the queue. |
| WorkerQueue.WorkerRunner.RunCompile | backend/src/app/jobs/asset_compile_job.py:30-80 | Completed exactly when the payload names a snapshot and neither compile nor cascade raises; failed otherwise. |
| WorkerQueue.WorkerRunner.RunAuth | backend/src/app/jobs/auth_refresh_job.py:23-69 | Terminal on every path, and retryable only when the service says so. |
| WorkerQueue.NextAcceptedMeaning | backend/src/app/workers/runner.py:96-113 | The next job is the accepted one created first, by identifier among equals. |
| WorkerQueue.BacklogCounts | backend/src/app/workers/runner.py:51-77 | What falls at each claim is twice the accepted crawls plus the other accepted jobs. |
| WorkerQueue.PrecompiledVerdict | backend/src/app/jobs/run_check_job.py:172-213 | A usable precompiled job is skipped when its last attempt was blocked, failed when it raised, and completed when it returned a result, even a failed one. |
| ScheduledTriggers.AtMostOncePerMinute | backend/src/app/domains/runner_service/scheduler.py:209-230 | If fires and manual triggers reach a job in forward minute order, whatever happens to the stored jobs in between, it gets at most one scheduled run a minute, and none in a minute that already has a run. |
| ScheduledTriggers.LatestOnlyMisses | backend/src/app/domains/runner_service/scheduler.py:330-344 | Looking at the latest run only misses a run of the same minute exactly when there is a run in a later minute. |
| ScheduledTriggers.FireKeepsOnceExactly | backend/src/app/domains/runner_service/scheduler.py:330-344 | A scheduled fire gives a minute a second run exactly if the job already has a run in that minute and one in a later minute. |
| ScheduledTriggers.OutOfOrderFiresTwice | backend/src/app/domains/runner_service/scheduler.py:330-344 | At real fires: minutes 1, 2 and 1 again, from an empty board with an active job whose schedule always matches, give two scheduled runs in minute 1. |
| ScheduledTriggers.LatestMeaning | backend/src/app/domains/runner_service/scheduler.py:336-344 | The latest run is one of the job with the greatest scheduled time. |
| ScheduledTriggers.PublishedJobService.TriggerScheduled | backend/src/app/domains/runner_service/scheduler.py:209-230 | Fires exactly when the job is active, its schedule matches and its latest run is of another minute; then one run and one queued job linked to it, otherwise nothing. |
| ScheduledTriggers.PublishedJobService.TriggerManually | backend/src/app/domains/runner_service/scheduler.py:156-174 | A manual trigger needs only an existing job. |
| ScheduledTriggers.PublishedJobService.Trigger | backend/src/app/jobs/published_job_trigger.py:29-76 | The new run and the new queued job point to each other. |
| ScheduledTriggers.TriggeredJobIsUsable | backend/src/app/jobs/published_job_trigger.py:50-64 | What a trigger queues, the worker accepts: the payload is complete, the job run is found and its linkage fits. |
| SchedulerRegistry.PolicyFiresOncePerMinute | backend/src/app/runtime/scheduler_runtime.py:72-107 | However a policy is reconfigured in between, forward ticks fire it in strictly increasing minutes. |
| SchedulerRegistry.PolicyNeverMisses | backend/src/app/runtime/scheduler_runtime.py:72-107 | A policy that stays on fires in every ticked minute but the one of its last trigger. |
| SchedulerRegistry.SchedulerRuntime.OnSchedulerJobEvent | backend/src/app/runtime/scheduler_runtime.py:156-211 | Whatever the registry holds, stale entries included, something is enqueued only if the stored row the callback leads to is active at that moment; otherwise nothing changes. |
| SchedulerRegistry.SchedulerRuntime.TriggerAuthPolicy | backend/src/app/runtime/scheduler_runtime.py:72-107 | Fires exactly when the policy found is enabled, active and not yet triggered in this minute; queues one refresh job for its system and records the time. |
| SchedulerRegistry.SchedulerRuntime.TriggerCrawlPolicy | backend/src/app/runtime/scheduler_runtime.py:109-145 | The same for crawl policies, with the system and scope of the policy in the queued job. |
| SchedulerRegistry.SchedulerRuntime.UpsertPublished | backend/src/app/domains/control_plane/scheduler_registry.py:75-95 | Afterwards the registry has an entry for the job exactly if the job is stored and active, with its schedule, timezone and callback; it fails, changing nothing, exactly for an active job with a malformed schedule; no other entry changes. |
| SchedulerRegistry.SchedulerRuntime.LoadAllFromDb | backend/src/app/domains/control_plane/scheduler_registry.py:57-143 | After a successful load every loaded published job has an entry exactly if it is active, every loaded policy exactly if it is enabled and active, each with the stored schedule, its timezone and its callback; rows are taken in order up to the first malformed schedule. |
| SchedulerRegistry.LoadSucceedsFor | backend/src/app/domains/control_plane/scheduler_registry.py:57-143 | A load succeeds exactly if every active published job and every enabled active policy it loads has a well-formed schedule. |
| SchedulerRegistry.LoadAgrees | backend/src/app/domains/control_plane/scheduler_registry.py:57-143 | Loading succeeds exactly when every active row has a well-formed schedule; then the registry agrees with every stored row; entries for no stored row stay. |
| SchedulerRegistry.LoadIdempotent | backend/src/app/domains/control_plane/scheduler_registry.py:57-70 | Loading twice is loading once. |
| SchedulerRegistry.RowsHaveDistinctKeys | backend/src/app/domains/control_plane/scheduler_registry.py:18-27 | Stored rows never share a registry key. |
| SchedulerRegistry.LoadedJobsResolve | backend/src/app/runtime/scheduler_runtime.py:167-186 | After loading, a fired job leads to the row it was registered for. |
| SchedulerRegistry.ResolvePolicyMeaning | backend/src/app/runtime/scheduler_runtime.py:213-235 | A policy is found by its identifier or else by its system, and missed only when neither exists. |

## Left out

- SHA-256 and canonical JSON text: digests, dedupe keys and registry job identifiers are the values that would be serialised, which takes serialisation and hashing to be injective.
- Floats are exact reals; UUIDs are numbers whose order is the order of the UUIDs; times are integers. New asset, check, run and queue identifiers are handed out increasingly, which no stated property about the original order relies on.
- SQL, sessions and transactions: a job's transaction is one step and a database error is a step without effect. Failed crawls that still commit their snapshot and facts are a separate event of the run model.
- Cascade: modelled with a published-job service configured, as `backend/src/app/domains/control_plane/system_admin_bootstrap.py` does; the second control-plane service the worker builds without one (`backend/src/app/workers/runner.py:199-202`) is not.
- Drift status, asset snapshots, audit counters and navigation-alias rows written during a compile; drift and alias derivation are modelled as functions of their inputs. Creating intent aliases is an event of its own.
- Locator bundle selection for checks: plans are compiled with an empty bundle where dependencies are concerned, since dependencies do not read it. Checks whose stored dependencies are null are not modelled.
- NavigationTargets.NavigationTargetRegistry.AddTarget: target objects live in an explicit table of objects and are named by reference, so that sharing between the registry and its callers is visible; normalisation of state context and metadata at construction is taken as done, and a target that is marked applied or not applied later is not modelled.
- Navigation identities of menus are taken as already serialised keys. Of candidate pages and elements, keyword, constraint, diagnostic, attribute and locator-list merging is not modelled.
- Lower-casing is that of ASCII letters.
- WorkerQueue.WorkerRunner.RunOnce: one worker; row locks between several workers are not modelled. An error a handler does not catch is modelled as raised before the handler changed anything.
- Result payloads, audit fields and policy success and failure timestamps written by job handlers.
- ScheduledTriggers.PublishedJobService.TriggerScheduled: whether a crontab expression matches a minute, and whether it is well formed, is a given predicate; APScheduler's own trigger computation is not part of this model.
- Browser code, page extraction, credentials, captcha handling, HTTP endpoints, the command line and the front end.
- System teardown and page-hint resolution are not modelled.
