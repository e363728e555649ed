# Verified models of whilly's algorithms and state machines

Each module models one self-contained piece of whilly and proves what that piece promises.
`dafny verify dfyconfig.toml` checks everything.

- **Liquid escaping** (`LiquidScanner`, `LiquidEscape`, `LiquidIdempotence`): the two patterns of the Jekyll escaper as
  leftmost scanners with the first possible closer, the escaping loop, what it inserts, and exactly when escaping twice
  equals escaping once.
- **Plan scheduling** (`Tasks`, `TaskManager`, `BatchPlanner`, `DependencyGraph`, `PlanRun`, `PlanMerge`): the task store
  as a class over a disk, the ready set, the greedy batch planner, whole runs of ready set, batches and mark-done, and
  the merge that adds freshly numbered tasks.  A plan is acyclic if its dependencies have no cycle; that this is the
  same as having a rank is proved.
- **Drift-review fleet** (`DriftFleet`, `DriftArtifact`, `DriftClusters`): units that complete in any order, the sorted
  findings, the per-cluster tallies, and the cluster table.
- **Human review** (`HumanReview`, `ReviewGaps`, `SnapshotCodec`, `IsoTime`): review states folded from audit events,
  the gaps shown to operators, and the wire form of snapshots.
- **Durable stores** (`AtomicFile`, `CredentialStore`): temporary file and rename with any call failing and the process
  dying at any point; the keyring with its file fallback.
- **Configuration** (`Dotenv`, `EnvMigration`, `TomlText`, `TomlConfig`): the two `.env` loops, the migration, and the
  TOML printer together with a reader for what it prints, after TOML v1.0.0 (sections "Keys", "String", "Integer",
  "Float", "Boolean", "Table").
- **Review-fix-merge loop** (`ReviewLoop`): the budgeted loop of the end-to-end demo and its merge decision.

`Basics`, `Json`, `Text`, `Numbers`, `StableSort` and `Counting` hold what these share.  Code that changes things step by
step is a method proved against a function on values; the properties are lemmas about that function.

## Where the code and its promises differ

- `scripts/m1_baseline_fixtures.py:489` calls escaping idempotent.  It is not, on a text such as
  `{{ {% endraw %}{{ x }}`: the inner endraw tag ends the inserted raw span early.  `IdempotentIff` gives the exact
  condition, `IdempotentWithoutInnerEndraw` a simple sufficient one: no bare output token `{{ … }}` holds an endraw tag.
- `scripts/semantic_drift_check.py:491-496` promises a stable order of findings.  That holds exactly if, for every slug
  and severity, the findings of any two units make the same list in either order (`FleetOrderIndependentIff`).  It fails
  if reviewers report under another unit's slug (`OrderShowsInSharedSlugs`) and holds if they do not
  (`OwnSlugsMakeOrderIrrelevant`).
- `whilly/orchestrator.py:31` looks a task up by equality.  If two equal tasks without key files are among the ready
  ones, some limit makes the plan list tasks again; exactly then the batches fail to partition their input
  (`PlanPartitionsIff`).  The loop still ends and loses no task (`PlanListsAll`).  Equal tasks with key files do no harm,
  since they conflict with each other.
- `whilly/prd_wizard.py:363` keeps the dependencies of new tasks that name old ones and drops the rest, so merged tasks
  never depend on each other.  A dependency of the running plan that names no task can be captured by a new number and
  then close a cycle (`DanglingDependencyMakesCycle`).  All merges of k tasks keep an acyclic plan acyclic exactly if none
  of its dependencies names one of the next k ids (`MergeAcyclicIff`).
- `whilly/task_manager.py:145-150` promises to tolerate reads during a write and to fall back to the last snapshot.  The
  loop retries on read errors and on text that is not JSON, but a read that ends inside a multi-byte character raises
  UnicodeDecodeError, which leaves `reload` at once.  `SurvivesIff` says when a snapshot survives.  In the same way
  `whilly/secrets.py:214` promises an empty map for an unreadable file and raises on one that is not UTF-8.
- `whilly/config.py:34-42` does not mention assignments that the environment refuses: a null character in a key or value
  stops the loader with a ValueError.  `LoaderRaisesIff` says when.
- `whilly/secrets.py:233-292`: a bearer that went to the file stays hidden behind an older keyring entry once the keyring
  works again (`OldKeyringEntryWins`), and storing while the file cannot be read drops the other entries
  (`UnreadableFileIsReplaced`).
- `whilly/operator_views.py:488-494` finds review events by their task column, while the fold also accepts a task that is
  named only in the detail; such an event is lost once it is not among the recent ones (`DetailOnlyEventIsMissed`).  The
  two queries show a task's history exactly if all its review events carry a listed id or are recent
  (`QueriesShowHistoryIff`).
- `whilly/config.py:34-66` and `451-467` read repeated keys differently: the loader keeps the first, the migration the
  last (`LoaderAgreesIff` says when that does not matter).
- `whilly/config.py:533-541` does not escape control characters; a value with one gives a file that is not valid TOML
  (`RenderRoundTripIff`).

## Model

| member | source | states |
|---|---|---|
| LiquidScanner.TagMatchesRegex | scripts/m1_baseline_fixtures.py:474 | a recognised raw or endraw tag is an opener, whitespace, the word, whitespace and a closer, as in the pattern |
| LiquidScanner.RegexMatchesTag | scripts/m1_baseline_fixtures.py:474 | conversely every text the tag pattern matches is recognised, with that length |
| LiquidScanner.SpanMatchesRegex | scripts/m1_baseline_fixtures.py:474 | a recognised raw span is a raw tag, a text in which no endraw tag starts, and an endraw tag |
| LiquidScanner.RegexMatchesSpan | scripts/m1_baseline_fixtures.py:474 | conversely, where the span pattern matches a raw span is recognised that ends no later |
| LiquidScanner.TokenIsFirstMatch | scripts/m1_baseline_fixtures.py:475 | a token is `{{` or `{%` up to the first possible closer of its own kind, and every such text is one |
| LiquidEscape.EscapeLiquidForJekyll | scripts/m1_baseline_fixtures.py:501-508 | the loop over raw spans with its two accumulators computes the escaping function |
| LiquidEscape.EscapeIsPiecewise | scripts/m1_baseline_fixtures.py:494-508 | the two-level scan (raw spans first, tokens in the gaps) equals one left-to-right scan into spans, wrapped tokens, kept tags and plain characters |
| LiquidEscape.EscapeOnlyInserts | scripts/m1_baseline_fixtures.py:494-508 | the pieces put together are the input and rendered are the output; each piece is what the patterns find at its place (a raw span, a token closing before the next span, or neither); a kept token is a `{% %}` tag whose trimmed body is exactly raw or endraw, a wrapped one is no such tag and gains exactly the two markers `{% raw %}` and `{% endraw %}`, and everything else stays verbatim |
| LiquidEscape.UnchangedIffNoBareToken | scripts/m1_baseline_fixtures.py:489-491 | a text is left untouched if and only if it has no bare token |
| LiquidIdempotence.ReescapeWrapsLeftovers | scripts/m1_baseline_fixtures.py:494-508 | escaping a second time wraps exactly the bare tokens found behind the first endraw tag inside a token wrapped the first time |
| LiquidIdempotence.IdempotentIff | scripts/m1_baseline_fixtures.py:489-491 | escaping twice equals escaping once if and only if no bare token has a bare token behind its first endraw tag |
| LiquidIdempotence.IdempotentWithoutInnerEndraw | scripts/m1_baseline_fixtures.py:489-491 | escaping is idempotent on every text whose bare output tokens hold no endraw tag, whatever raw spans, lone tags and unclosed braces it has |
| LiquidIdempotence.TagTokenLeavesNothing | scripts/m1_baseline_fixtures.py:475 | a wrapped tag token never breaks idempotence, since an endraw tag in it can only end it |
| LiquidIdempotence.NotAlwaysIdempotent | scripts/m1_baseline_fixtures.py:489-491 | a concrete text on which escaping twice differs from escaping once |
| Tasks.DictRoundTrip | whilly/task_manager.py:59-102 | reading a written task gives the task back if its id is valid and the id error otherwise, with any optional fields absent or present |
| Tasks.ReadDictIs | whilly/task_manager.py:59-72 | reading raises exactly for a refused id or one of six missing keys, and otherwise every field is the value of its key or the default |
| Tasks.DictIs | whilly/task_manager.py:74-102 | the written dictionary has exactly the eleven keys and those optional ones that are set, each with its field |
| Tasks.ValidIdIs | whilly/core/task_id.py:26-60 | an id is let through if and only if it is not empty, holds no two dots in a row, and has only characters of the pattern |
| TaskManager.TaskManager.Open | whilly/task_manager.py:132-140 | constructing a manager gives the state of the first reload, or no object if that raises |
| TaskManager.TaskManager.Reload | whilly/task_manager.py:142-166 | the loop over five attempts returns, raises and leaves what the specification says: read errors and text that is not JSON are retried, bytes that are not UTF-8 and refused tasks raise at once |
| TaskManager.ReloadedIs | whilly/task_manager.py:152-166 | attempts that cannot be read or are not JSON are passed over; the first other one decides, and without one a snapshot is kept if there is one |
| TaskManager.TasksFromIs | whilly/task_manager.py:158 | reading a list gives one task per entry, or the error of the first entry that has one |
| TaskManager.SurvivesIff | whilly/task_manager.py:145-166 | a manager with a snapshot survives a reload if and only if no attempt yields bytes that are not UTF-8 before one yields a document, and the first document is accepted |
| TaskManager.TaskManager.Save | whilly/task_manager.py:168-185 | the target holds the complete new document if the rename took effect and its old content otherwise, wherever the save stops; tasks replace only the tasks key |
| TaskManager.TaskManager.ResetStaleTasks | whilly/task_manager.py:187-196 | every task whose status is in_progress becomes pending and no other changes, the count is theirs, and the file is written only if there were any |
| TaskManager.TaskManager.MarkStatus | whilly/task_manager.py:205-223 | a status other than the seven valid ones changes nothing; otherwise exactly the named tasks get the status and nothing else changes, and the observer sees exactly the changes, in order, only after a completed save |
| TaskManager.TransitionsPartByPart | whilly/task_manager.py:210-215 | the changes told are those of the tasks one by one, in list order: a named task whose status differs, with its old and new status |
| TaskManager.SaveReload | whilly/task_manager.py:142-185 | a written plan document reads back with equal tasks and keeps every other top-level key |
| TaskManager.TaskManager.SaveThenReload | whilly/task_manager.py:142-185 | a completed save followed by a reload of the same file gives equal tasks and every other top-level key |
| TaskManager.ParsedIdsValid | whilly/core/task_id.py:36-60 | no task with a refused id gets out of reading a plan |
| BatchPlanner.PlanBatches | whilly/orchestrator.py:8-41 | on every list the nested loops over remaining tasks end and compute the specified batches |
| BatchPlanner.PassShrinks | whilly/orchestrator.py:20-39 | why they end: a pass leaves fewer tasks without key files, or no more of them and fewer tasks |
| BatchPlanner.FillBatch | whilly/orchestrator.py:21-35 | one pass fills one batch and the list of tasks put off |
| BatchPlanner.IndexIsPosition | whilly/orchestrator.py:30-33 | if equal tasks have key files, the lookup by equality finds the current position, so nothing is lost or repeated when a batch is full |
| BatchPlanner.PlanPartitionsIff | whilly/orchestrator.py:20-41 | for every limit the returned batches partition the input, if and only if no two equal tasks are without key files |
| BatchPlanner.PlanListsAll | whilly/orchestrator.py:20-41 | the plan of any list lists every task at least as often as the list does |
| BatchPlanner.ListedAgain | whilly/orchestrator.py:30-33 | once a pass puts a task off again, the returned plan is longer than the list |
| BatchPlanner.PlanIsGood | whilly/orchestrator.py:14-41 | if no two equal tasks are without key files: batches partition the input, each in input order, nonempty, within the limit and free of file conflicts; a task put after a batch shares a file with an earlier-listed member or the batch is full; without parallelism every task runs alone |
| DependencyGraph.RankedIsAcyclic | whilly/task_manager.py:198-203 | a graph with a rank that falls along dependencies has no cycle |
| DependencyGraph.AcyclicIsRanked | whilly/task_manager.py:198-203 | a graph without a cycle has such a rank |
| PlanRun.ReadyTasksAre | whilly/task_manager.py:198-203 | the ready list holds exactly the pending tasks whose dependencies are all done, sorted by priority and phase, stably |
| PlanRun.ReadyListIs | whilly/task_manager.py:198-203 | the ready list holds exactly the pending tasks all of whose dependencies are ids of done tasks; critical, high, medium, low and other ones in this order, then by phase, and ties as listed |
| PlanRun.NoReadyMeansBlocked | whilly/task_manager.py:198-203 | on an acyclic plan without a ready task, every pending task reaches through pending dependencies one that names no task or a task neither pending nor done |
| PlanRun.BlockedIsNotReady | whilly/task_manager.py:198-203 | conversely such a task is never ready |
| PlanRun.RoundIs | whilly/orchestrator.py:8-41 | one round of ready set, batches and mark-done runs exactly the ready tasks, each once, and marks exactly those done |
| PlanRun.RunKeepsInvariant | whilly/task_manager.py:198-215 | after any number of rounds the log lists distinct, initially pending tasks in dependency order and the plan is the old one with them marked |
| PlanRun.RunExhausts | whilly/task_manager.py:198-215 | as many rounds as there are pending tasks leave nothing ready |
| PlanRun.RunCompletesUnblocked | whilly/task_manager.py:198-215 | on an acyclic plan a run of at most as many rounds as tasks does exactly the pending tasks that no dead dependency blocks, each once, in topological order |
| PlanRun.RunIs | whilly/task_manager.py:198-215 | after that run exactly the logged tasks are done and nothing else has changed, and every dependency of a logged task names a task that was done or is logged before it |
| PlanRun.RunCompletesPlan | whilly/task_manager.py:198-215 | if moreover all dependencies resolve and all tasks are pending or done, every task ends up done |
| PlanMerge.MergeTasksIntoPlan | whilly/prd_wizard.py:341-372 | the merged plan is the target followed by the source tasks, numbered on from the largest number among the target ids; each keeps every key but its status, which is pending, and its origin mark, and exactly those dependencies that the target knows; exactly the missing keys raise |
| PlanMerge.KeptPartByPart | whilly/prd_wizard.py:363 | of a list of dependencies exactly the known ones stay, in their order |
| PlanMerge.NewIdIs | whilly/prd_wizard.py:359 | a new id is `TASK-` and the number in decimal with at least three digits, without zeros in front of more |
| PlanMerge.RemoveFirst | whilly/prd_wizard.py:348-349 | the first occurrence of a prefix is taken out of an id and the search goes on behind it |
| PlanMerge.RemoveNone | whilly/prd_wizard.py:348-349 | an id without the prefix stays as it is |
| PlanMerge.MaxNumber | whilly/prd_wizard.py:346-353 | the loop finds the largest number in the ids, in whatever order the set yields them |
| PlanMerge.NewIdNumber | whilly/prd_wizard.py:349-359 | the number read back from a new id is the one it was made from |
| PlanMerge.NewIdsAreFresh | whilly/prd_wizard.py:357-360 | zero-padded numbering is injective, and ids above the maximum are not in the plan |
| PlanMerge.MergeKeepsIds | whilly/prd_wizard.py:355-366 | ids stay distinct, dependencies keep resolving, and new tasks depend only on old ones |
| PlanMerge.MergeKeepsAcyclic | whilly/prd_wizard.py:355-366 | no cycle appears if no dependency of the target names one of the new ids |
| PlanMerge.MergeAcyclicIff | whilly/prd_wizard.py:355-366 | every merge of k tasks into an acyclic plan keeps it acyclic if and only if no dependency of the plan names one of the next k ids |
| PlanMerge.AllMergesAcyclicIff | whilly/prd_wizard.py:355-366 | merges of every size do if and only if no dependency names any id still to come |
| PlanMerge.MergeKeepsPlan | whilly/prd_wizard.py:344-372 | the plan grows by exactly the source count, and distinct ids, resolving dependencies and, unless a dependency is captured, acyclicity are kept |
| PlanMerge.DanglingDependencyMakesCycle | whilly/prd_wizard.py:357-363 | the smallest acyclic plan that a merge gives a cycle |
| DriftFleet.RunFleet | scripts/semantic_drift_check.py:499-533 | the completion loop collects tagged findings, errors and reviewed slugs as specified and sorts the findings |
| DriftFleet.UnitContributes | scripts/semantic_drift_check.py:515-530 | a failed unit contributes its error, a reviewed one its slug and its findings, all tagged with the cluster of its slug, one unit after the other |
| DriftFleet.FindingsAre | scripts/semantic_drift_check.py:532 | the list holds what the units contributed, by slug and then HIGH, MEDIUM, LOW and others, ties in the order of completion |
| DriftFleet.EverySlugLandsOnce | scripts/semantic_drift_check.py:515-530 | reviewed slugs and error slugs together are the submitted slugs, each exactly as often as submitted |
| DriftFleet.FleetOrderIndependentIff | scripts/semantic_drift_check.py:493-496 | the findings list is the same for every completion order if and only if any two units contribute the same findings, in either order, under every sort key |
| DriftFleet.OwnSlugsMakeOrderIrrelevant | scripts/semantic_drift_check.py:493-496 | it is, if slugs are distinct and every finding carries its unit's slug |
| DriftFleet.OrderShowsInSharedSlugs | scripts/semantic_drift_check.py:532 | two units with different findings under one slug and severity make the completion order show |
| DriftArtifact.BuildArtifact | scripts/semantic_drift_check.py:619-651 | the three loops leave in every cluster the numbers of its HIGH, MEDIUM and LOW findings, of its errors, and of its reviewed slugs that have neither a finding in a cluster nor an error |
| DriftArtifact.SlugIndexIs | scripts/semantic_drift_check.py:119-120 | a slug belongs to the last row of the table that lists it, and to none if no row does |
| DriftArtifact.ClusterConservation | scripts/semantic_drift_check.py:644-651 | in every cluster clean, errors and slugs with findings add up to the slugs submitted in it |
| DriftArtifact.ClusterSize | scripts/semantic_drift_check.py:119-120 | for a table that partitions the slugs the reverse index gives every cluster exactly its row |
| DriftClusters.ClustersPartition | scripts/semantic_drift_check.py:67-118 | the table is the disjoint partition into six clusters that its comment calls it |
| DriftClusters.ClustersSweep | scripts/semantic_drift_check.py:619-651 | for a sweep over all its slugs, clean, errors and slugs with findings add up to the size of each cluster |
| DriftArtifact.FullSweepConservation | scripts/semantic_drift_check.py:619-651 | for a sweep over the whole table they add up to the number of slugs in the cluster's row |
| DriftArtifact.SeverityConservation | scripts/semantic_drift_check.py:626-634 | high, medium and low over all clusters count each owned finding with a known severity once |
| DriftArtifact.AllFindingsCounted | scripts/semantic_drift_check.py:626-634 | if every finding is valid and carries its unit's slug from the table, they add up to the number of findings |
| HumanReview.HumanReviewStatesFromEvents | whilly/operator_views.py:643-685 | both loops, over sorted events and over checkpoints, compute the specified map |
| HumanReview.StepTwice | whilly/operator_views.py:648-676 | handling one event twice in a row leaves what handling it once leaves |
| HumanReview.HistoryIs | whilly/operator_views.py:643-685 | a task's state depends only on its recognised events, each once, in order of time and id |
| HumanReview.SameEventsSameState | whilly/operator_views.py:643-685 | lists with the same recognised events about a task give it the same state |
| HumanReview.OrderAndRepetitionDoNotMatter | whilly/operator_views.py:646-647 | the map is unchanged by permuting and repeating events |
| HumanReview.QueriesShowHistoryIff | whilly/operator_views.py:546-550 | the concatenated overlapping queries show the whole history of a task if and only if all its review events carry a listed id or are recent |
| HumanReview.TwoQueriesAreEnough | whilly/operator_views.py:546-550 | in that case they give the task the state of the whole log |
| HumanReview.QueriesShowOpenIff | whilly/operator_views.py:546-550 | from the queries a review is open if and only if the last visible event of some stage is not an approval |
| HumanReview.DetailOnlyEventIsMissed | whilly/operator_views.py:488-494 | an event that names its task only in the detail and is not recent is missed |
| HumanReview.CheckpointIsLatest | whilly/operator_views.py:653-676 | a stage's checkpoint is what its last event says, with the reason and channel first given since the last request |
| HumanReview.CheckpointSays | whilly/operator_views.py:648-676 | the checkpoint of a stage says what the latest event about it says: no decision, approved, rejected or changes requested, and its reviewer |
| HumanReview.CheckpointReasons | whilly/operator_views.py:661-676 | its reason and channel are the first ones given since the review was last requested |
| HumanReview.ShownStateSays | whilly/operator_views.py:678-685 | the state shown for a task says what the latest event about one of its stages says, one that is no approval if there is such a stage |
| HumanReview.ShownIff | whilly/operator_views.py:648-655 | a task is shown if and only if there is a review event about it |
| HumanReview.FirstOpenIsShown | whilly/operator_views.py:678-685 | of the checkpoints of a task the first open one is shown, or else the first one |
| HumanReview.ReviewOpenIff | whilly/operator_views.py:657-685 | a task's review is open if and only if the last recognised event of some stage is not an approval |
| ReviewGaps.FindReviewGaps | whilly/operator_views.py:688-717 | the loop and the sort list exactly the gaps of the tasks, each with its reason and the data of its review, in the order of reason, plan and task |
| ReviewGaps.ActionableGaps | whilly/operator_views.py:696-706 | a task id has as many actionable gaps as rows with criteria and an open review |
| ReviewGaps.OneGapPerOpenReview | whilly/operator_views.py:550-554 | a listed task gets exactly one actionable gap if it has criteria and its events leave a review open, and none otherwise |
| ReviewGaps.ActionableReason | whilly/operator_views.py:550-554 | the actionable gap of a task names the reason that the latest event of an open stage gives: awaiting review, rejected, or changes requested |
| IsoTime.IsoRoundTrip | whilly/operator_snapshot_codec.py:21-26 | reading a printed point in time gives it back, with or without microseconds and UTC offset |
| IsoTime.IsoForm | whilly/operator_snapshot_codec.py:21-22 | the printed form: year, month and day with dashes, T, hour, minute and second with colons, then microseconds if there are any and the offset |
| SnapshotCodec.TaskRoundTrip | whilly/operator_snapshot_codec.py:51-86 | a task row survives the wire with optional fields absent or present |
| SnapshotCodec.TaskKeys | whilly/operator_snapshot_codec.py:70-86 | each field of a task row is the value of its own key on the wire, or the default |
| SnapshotCodec.DefaultsMayBeLeftOut | whilly/operator_snapshot_codec.py:40-86 | a row that lacks keys holding their default, the review state and keys inside it included, still stands for the same task |
| SnapshotCodec.SnapshotRoundTrip | whilly/operator_snapshot_codec.py:197-218 | decoding an encoded snapshot gives the snapshot, with any numbers of rows |
| SnapshotCodec.SnapshotKeys | whilly/operator_snapshot_codec.py:209-218 | each part of a snapshot is read from its own key, row by row |
| AtomicFile.Disk.Save | whilly/state_store.py:49-63 | whichever call raises or is the last, before or after its effect: complete new content if the rename took effect, old content otherwise; after an exception a temporary file stays only if creating it raised late, closing the descriptor again raised, or its removal failed |
| AtomicFile.Disk.WriteJson | whilly/secrets.py:174-210 | the same for the credentials file with its mode change and tolerant clean-up; after an exception a temporary file stays only if creating it raised late or its removal failed |
| CredentialStore.CanonicalUrlMerges | whilly/secrets.py:123-133 | trailing slashes do not matter and canonical urls are fixed |
| CredentialStore.CanonicalUrlIs | whilly/secrets.py:123-133 | the canonical form is the url without its slashes at the end, and nothing else is taken away |
| CredentialStore.SharedFormIff | whilly/secrets.py:123-133 | two urls share an entry if and only if they differ in slashes at the end only |
| CredentialStore.Credentials.Store | whilly/secrets.py:257-269 | keyring first, and if that raises, with or without having stored the entry, the file rewritten with the one entry changed; every other file stays as it is, and each tier changes exactly if its write took effect |
| CredentialStore.Credentials.Load | whilly/secrets.py:284-292 | keyring first, then the file; an empty or unreadable keyring entry counts as absent, and a file that is not UTF-8 raises |
| CredentialStore.StoresAreHistory | whilly/secrets.py:233-269 | after any run both tiers hold exactly the last bearer that went there and was not dropped |
| CredentialStore.LoadIsHistory | whilly/secrets.py:272-292 | what a load returns after any run, for all failures of keyring and file |
| CredentialStore.LoadReturnsStoredBearer | whilly/secrets.py:272-292 | after any run of stores a load does not raise and returns only a bearer whose store took effect for the same url up to slashes at its end |
| CredentialStore.NothingForOtherServers | whilly/secrets.py:272-292 | a load for a url that no store named, up to slashes at the end, finds nothing |
| CredentialStore.LoadReturnsLatestIff | whilly/secrets.py:272-292 | the latest bearer comes back if it is in the tier where the load finds one, and only then unless an older store had the same bearer |
| CredentialStore.OldKeyringEntryWins | whilly/secrets.py:285-288 | an older keyring entry hides a later one in the file |
| CredentialStore.UnreadableFileIsReplaced | whilly/secrets.py:264-268 | storing with an unreadable file drops its other entries |
| Dotenv.LoadDotenv | whilly/config.py:43-66 | the loop with its skips sets the variables and counts as specified and stops at the first assignment that raises; a missing file changes nothing |
| Dotenv.ParseEnvFile | whilly/config.py:451-467 | the migration's loop parses the same assignments into a map |
| Dotenv.AssignmentIs | whilly/config.py:46-61 | a line gives an assignment exactly if it is no comment and has, after an optional `export`, a nonempty key, the first equals sign, and a value that loses its surrounding blanks and one pair of matching quotes |
| Dotenv.AssignmentsPartByPart | whilly/config.py:46-66 | the assignments of a file are those of its lines, in order |
| Dotenv.LoaderRaisesIff | whilly/config.py:62-64 | the loader raises if and only if the first assignment of some unset variable holds a null character |
| Dotenv.LoaderKeepsFirst | whilly/config.py:62-64 | unless it raises, a set variable wins, otherwise the first assignment of the file |
| Dotenv.LoaderCount | whilly/config.py:61-66 | the returned count is the number of variables that are new afterwards |
| Dotenv.MigrationKeepsLast | whilly/config.py:466-467 | the parsed map has the last assignment |
| Dotenv.LoaderAgreesIff | whilly/config.py:46-66 | the loader leaves exactly the environment and the parsed map if and only if it does not raise and every unset key has equal first and last values |
| Dotenv.LoaderAgreesWithoutRepeats | whilly/config.py:46-66 | without repeated keys and set variables the loader raises exactly on a null character, and otherwise sets exactly the parsed map |
| Dotenv.OverrideRaisesIff | whilly/config.py:62-65 | with override the loader raises if and only if some assignment holds a null character |
| Dotenv.OverrideAgrees | whilly/config.py:62-65 | otherwise it sets exactly the parsed map and counts every assignment |
| EnvMigration.SortAssignments | whilly/config.py:469-496 | the loop sorts assignments into fields, sections and secrets as specified, or stops at the first bad value |
| EnvMigration.EverythingIsPlaced | whilly/config.py:469-496 | the migration fails exactly at a value its field refuses; otherwise set tokens are reported and leave a reference in their section, server and user go to the jira section, WHILLY_ variables to the field they name, and nothing else is written |
| EnvMigration.SecretsDoNotShow | whilly/config.py:417-422 | the values of set secret variables influence neither the written file nor the summary |
| EnvMigration.MigratedFileReadsBack | whilly/config.py:469-513 | the migrated file reads back as exactly the fields and sections, or is invalid if a value holds a control character other than tab |
| TomlText.EscapeIsPerChar | whilly/config.py:539-541 | the two chained replacements equal a per-character escape |
| TomlText.EscapePartByPart | whilly/config.py:539 | a backslash and a quote get a backslash before them, any other character stays |
| TomlText.ReadEscaped | whilly/config.py:539-541 | a basic string read back is the text that was escaped |
| TomlText.IntRoundTrip | whilly/config.py:536-538 | a printed integer reads back |
| TomlText.IntIsDecimal | whilly/config.py:536-538 | integers are printed in decimal, negative ones with a sign |
| TomlText.ReadPrintedFloat | whilly/config.py:537-538 | a printed float reads back as the same float and not as an integer |
| TomlText.ReadPrinted | whilly/config.py:533-541 | every printed value without control characters reads back and stays on its line |
| TomlConfig.RenderToml | whilly/config.py:543-560 | the lines appended for header, sorted fields and nonempty sections, joined by newlines |
| TomlConfig.RenderIs | whilly/config.py:543-560 | the text is the two comment lines, a blank one, the items of the fields, and each nonempty table behind a blank line and its header |
| TomlConfig.ItemLinesAre | whilly/config.py:547-548 | the i-th line is the i-th key, an equals sign and the printed value |
| TomlConfig.SortedKeysAre | whilly/config.py:547 | the keys come in the order of strings, each as often as it is there |
| TomlConfig.ReadItems | whilly/config.py:548-549 | reading the printed items adds exactly them to the current table |
| TomlConfig.RenderRoundTripIff | whilly/config.py:522-560 | reading the printed text gives the three dictionaries back if and only if no text holds a control character other than tab |
| TomlConfig.CleanDictIs | whilly/config.py:539-541 | that condition, character by character: no code below 32 other than 9, and not 127 |
| TomlConfig.ToMapIs | whilly/config.py:547-560 | what the round trip gives back: every entry of the dictionary and no other |
| ReviewLoop.ParseReview | scripts/whilly_e2e_demo.py:313-355 | the review is clean if and only if the answer is decoded, says clean and sends no comment object with severity blocker or major; its comments are those objects with their own file and severity and the first 300 characters of their message |
| ReviewLoop.CommentsPartByPart | scripts/whilly_e2e_demo.py:335-347 | the comments come in the order of the answer, one for every object and none for anything else |
| ReviewLoop.ReviewPrIs | scripts/whilly_e2e_demo.py:269-310 | an empty diff is never clean, a dry run always, and otherwise the answer decides; only an asked reviewer costs |
| ReviewLoop.ReviewFixMerge | scripts/whilly_e2e_demo.py:612-676 | the loop and the decision after it perform exactly the specified actions and track the cost of every model call |
| ReviewLoop.LoopKeepsInvariant | scripts/whilly_e2e_demo.py:615-654 | from any iteration on, reviews start below the budget, stay within the limit, and a clean review ends the loop |
| ReviewLoop.LoopFollowsAnswers | scripts/whilly_e2e_demo.py:615-654 | the k-th review of a run is of the reviewer's k-th answer, and the fix after it is the fixer's k-th answer, always good and free in a dry run |
| ReviewLoop.RunEnds | scripts/whilly_e2e_demo.py:656-676 | what follows the loop: approve and merge, leave open, or post and leave open |
| ReviewLoop.MergeSafety | scripts/whilly_e2e_demo.py:615-676 | a merge happens exactly with auto-merge on, dry-run off and a clean last review, with no fixer or review after it; the last answer asked for then says clean and holds no blocker and no major comment; at most the allowed number of reviews run, each starting below the budget |

## Left out

- Task objects: tasks are values in the manager's list, so a caller that keeps a returned task and sees it change through the manager is not captured.
- `LoadReturnsLatestIff`: is about nonempty bearers and a readable file; `LoadIsHistory` covers all others.
- Credentials files changed by anything but the store: runs start from no file.
- `validate_finding`: its consequence, one of three severities, is a condition of `AllFindingsCounted`; that the other values are texts is a property of the finding type.
- The `total` field of the artifact: its default is 32 while the table lists 33 slugs, so nothing is claimed about it.
- What a dependency means across a merge: source dependencies are filtered by target ids and not renamed.
- The write at the end of a merge is one step, since that code writes without a temporary file.
- Renames that are not atomic, syncs of the disk, and file modes; what a failing write leaves is arbitrary.
- `StateStore.save` up to the file write: the fields of the state are one document.
- Values of another type than declared in plan files and snapshots: in plans they are excluded, in snapshots they read as an error.
- Float arithmetic: a float of a configuration is the text that `str` prints for it, and costs are reals.
- Texts: code points without normalisation; digits are ASCII digits; lines of a `.env` file come decoded and split.
- TOML beyond bare keys, basic strings, integers, floats, booleans, comments and plain table headers; the reader rejects it, unicode escapes and underscores in floats included.
- ISO 8601 forms that `isoformat` does not print, and UTC offsets with fractions of a second; the reader rejects them.
- Decoding of the reviewer's text into JSON, with its fallback search; and converting values of other types to text.
- The search for human review in criteria and steps is a parameter of the gap list.
- How `_coerce` turns texts into field values is a parameter of the migration.
- The keyring service name: one service is modelled.
- Observers: which transitions they are told is modelled, what they do is not.
- Sleeping, clocks, logging, git, GitHub, subprocesses, prompts, and planning by a language model.
- Counters such as the status counts of a snapshot and the summary of a run, which follow from reading one line.
- Postgres, HTTP, dashboards, menus and the command line; the state machine under `whilly/core` is not part of this model.
