# Verification models for Floppy's automation scripts

Dafny models of the parts of Floppy's tooling that carry state or must not go wrong silently, with proofs of
what they are for. Every module models one component; `dafny verify dfyconfig.toml` checks them all.

**The merge train** (`scripts/merge_train.py`). `AttemptMarker` is the comment in a pull request's body that
remembers an attempt, as text. `MergeJudge` is the verdict on one pull request over time, `MergeVerdicts` the same verdicts and the auto-merge order in
terms of the fields alone, `MergeTrain` one run
(`choose`, the calls to GitHub, the loop of `main` as a method over a `GitHub` object, proved equal to a transition
system), `MergeRun` what a whole run guarantees about the queue, and `MergeProtocol` any number of serial runs
interleaved with new commits on latest, edited descriptions, failing calls and killed runs. The main results are:
whether a frozen pull request holds the queue for ever, at every distance from latest (`EventuallyReleasedIff`); that a
run goes down the queue in order, ends with status 1 exactly when nothing can advance or the first pull request that
could makes it raise, and makes at most one accepted call (`RunReport`, `AttemptsGoDown`); and that the marker allows
one retry for each latest commit (`OneRetryPerLatestCommit`). The last one needs bodies in which removing the markers
leaves none: `SplicedMarkerHidesTheAttempt` is a body for which the train forgets what it did, and `ReadBack` and
`RetriedAgainIff` say exactly when that happens. It also has a price: a run that is killed after it wrote the marker
leaves a pull request that waits for checks nobody started (`KilledRunHoldsTheQueue`).

**The migration gate** (`scripts/check_migration_order.py`). `MigrationOrder` models trees, branches and merges, the
check, and histories in which branches change any file, are updated from the base as the merge train does, and are
merged. The check compares a branch with a base that moved on; once the branch contains the base it passes whatever the
branch does (`UpToDateMerge`). So what keeps one chain of migrations per app is the check together with a test of the
branch's own tree, and exactly these two (`PassingMergeKeepsChainsIff`, `AlwaysLinearIff`). The second is the step of
`.github/workflows/migration-order.yml` that loads the migration graph with latest merged in. Authors who extend the leaf
they see, and point their migration at the new leaf after an update, always pass it (`RuledHistory`, `OneLeafForEver`).

**Attempt tracing** (`scripts/benchmark_celery.py`, `scripts/celery_trace.py`, `scripts/benchmark_matrix.py`).
`CeleryWorker` is the two-slot worker as a step machine in which publishing, taking, the barrier, provider calls, retries
and endings interleave freely. `CeleryRuns` has its invariants, `CeleryProgress` termination (a maximal schedule completes
iff the plan does not have exactly one barrier job), `CeleryTrace` the collector as a class and `correlate` as loops
against a specification, `CeleryCorrelation` and `CeleryLaws` what the report says about any list of events, and `CeleryHarness` and
`CeleryExercise` that every completed run passes the harness's checks, with 7 ends and 9 provider calls for its plan,
and for which plans the harness's way of waiting means that a run is complete.

**The gettext scanner** (`scripts/update_translations.py`). `GettextScanner` is the lexer over comments, quoted strings,
template literals and calls, `GettextLaws` says in terms of the text what each of them hides and what is emitted, and
`GettextRoundTrip` proves that the generated file, scanned again, yields exactly the
calls it was written for.

**Memory accounting** (`scripts/container_memory_sample.py`, `scripts/memory_aging_report.py`). `MemorySample` has the
per-role totals in which one unknown reading makes a sum unknown, and their conservation; `MemoryAging` the drift of a
series and the deltas of cumulative counters, with `AgingLaws` for what every figure is.

**Loops over streams and graphs** (`scripts/investigate_performance.py`, `scripts/ui_migration_metrics.py`).
`TransactionWindows` is the tracker that keeps the sixteen longest transactions online; `TemplateHosting` the
fixpoint over template includes.

**Two smaller ones.** `SponsorsGoal` (`scripts/update_sponsors_goal.py`) is the print/parse round trip of the sponsors card
and `ProviderDirectory` (`frontend/providers/ProviderDirectoryView.jsx`) the fetch and pin state of a list under stale
replies.

`Text`, `StableSort` and `FirstSeen` hold the Python built-ins the scripts share: `isspace`, `rstrip`, the stable `sorted`,
and `dict.fromkeys`. `Permutations` has what sums and selections keep when a list is reordered.

## Exceptions that the proofs brought out

- The one-time marker: markers are replaced and `OneRetryPerLatestCommit` holds for bodies in which removing markers leaves
  none. Exactly for the other bodies markers accumulate (`RecordReplacesIff`) and the attempt may be forgotten
  (`RetriedAgainIff`); `SplicedMarkerHidesTheAttempt` is such a body (`merge_train.py:52, 252-256`).
- Waiting is bounded only under `WillClear` for an up-to-date pull request: a partial set of required checks, a required
  check that has not started, or a conclusion that is neither failed nor passed can hold the queue for ever. A passed
  check without completion time ends the run with an exception, which is the verdict `Raises` (`merge_train.py:126-146`).
- Behind latest there is one more unbounded wait: for an attempt whose marker was written although its call was not made
  or its refusal could not be noted, until latest moves (`KilledRunHoldsTheQueue`,
  `RefusalHoldsTheQueueIff`, `merge_train.py:163-167`).
- A failed write of the marker may still have taken effect; the pull request then waits although no call was made
  (`UnreportedWriteHoldsTheQueue`). What all this means for a whole queue is `QueueIsFreedIff`.
- The barrier never opens for a plan with exactly one barrier job (`benchmark_celery.py:355-362`).
- A sponsors card with a negative target is never current, so it would be rewritten on every run
  (`update_sponsors_goal.py:11, 60-75`).
- An empty marker list makes every template a host, because the empty pattern matches, and an empty tag list every
  template with a tag; `NeverGainsIff` says when fewer markers can therefore gain hosts (`ui_migration_metrics.py:61-62, 82`).
- An end-to-end counter delta is too small exactly if some reading in between went back (`EndToEndIsRightIff`, with
  `EndToEndHidesReset` as a witness, `memory_aging_report.py:130-202`).
- The migration check passes again after a branch merged the base, although its migration still has the old parent
  (`UpdateIsNoFix`); `PassingMergeKeepsChainsIff` says what has to be tested besides. It does not see deletions and
  edits on the base branch (`DeletionIsNotSeen`, `MergeIsHeadIff`), nor migrations that the branch moves out of their
  folder when git takes that for a rename (`MoveIsNotSeen`, `check_migration_order.py:42-47`).
- The harness waits for one end more than there are jobs, which is right for plans with exactly one retrying job only
  (`WaitMeansComplete`, `WaitNeverEnds`, `WaitEndsTooEarly`, `benchmark_celery.py:226-240`).

## Model

| member | source | states |
|---|---|---|
| AttemptMarker.MatchAt | scripts/merge_train.py:52 | finds the marker at the start of a text, and finds none only if no marker with a full object name stands there |
| AttemptMarker.MatchAtFinds | scripts/merge_train.py:52 | the marker printed in front of any text is recognised, with its commit and refused flag |
| AttemptMarker.ReadBack | scripts/merge_train.py:252-256 | after recording, the next run reads the recorded commit and flag if removing old markers left none, and otherwise exactly the marker that the removal left (also lines 121-123) |
| AttemptMarker.RecordIsClean | scripts/merge_train.py:252-256 | a recorded body is clean again and its remaining text is the old one without trailing space |
| AttemptMarker.RecordReplacesIff | scripts/merge_train.py:252-256 | recording twice leaves what recording only the second time leaves, so that nothing accumulates, iff removing the old markers left none |
| AttemptMarker.RecordKeepsText | scripts/merge_train.py:252-256 | a body without `<` is kept but for the space at its end, followed by a blank line and the comment with the commit and, if refused, the word |
| AttemptMarker.RemoveByLine | scripts/merge_train.py:255 | no marker reaches over a line break: removing them from two lines is removing them from each |
| AttemptMarker.SplicedMarkerHidesTheAttempt | scripts/merge_train.py:252-256 | for every pair of commits, a body whose marker removal joins another marker, so that the next run reads the stale commit (also line 52) |
| AttemptMarker.PlainText | scripts/merge_train.py:52 | text without `<` is neither found nor removed by the pattern |
| MergeJudge.Required | scripts/merge_train.py:83-85 | keeps exactly the checks with a required name |
| MergeJudge.FirstFailed | scripts/merge_train.py:96-98 | names a check iff some check failed |
| MergeJudge.FirstHung | scripts/merge_train.py:99-102 | names a check iff some started check has been pending for more than two hours |
| MergeJudge.LastCompletion | scripts/merge_train.py:138 | the latest completion time: reached by a check and exceeded by none |
| MergeJudge.SkipIsStable | scripts/merge_train.py:149-180 | with unchanged data, a pull request judged skip is judged skip at every later time |
| MergeJudge.BoundedWaiting | scripts/merge_train.py:126-146 | a frozen up-to-date pull request waits until its deadline and is skipped at every moment after it; without `WillClear` it is never skipped (also lines 92-103) |
| MergeJudge.UnresolvedAttemptWaits | scripts/merge_train.py:163-167 | the verdict is to wait for an attempt of an earlier run, at one time and so at all, iff the pull request is behind with only failures older than latest and its body names latest without a refusal |
| MergeJudge.EventuallyReleasedIff | scripts/merge_train.py:149-180 | at every distance from latest: a frozen pull request neither waits nor raises from some moment on iff it does not wait for such an attempt and, if up to date, conflicts, has a failed or a started pending required check, has none, or has all passed with completion times |
| MergeJudge.EventuallySkippedIff | scripts/merge_train.py:149-180 | a frozen pull request is skipped from some moment on iff a condition on its data and distance holds, and otherwise holds the queue at every time or is due for an update at every time |
| MergeJudge.UpdateIsSafe | scripts/merge_train.py:149-180 | an update verdict is never given to a conflict, a failed migration-order check, or an unknown or zero distance; it repeats a failed check only if every failure is older than latest and the marker does not name latest, and otherwise only without failed or hung required checks and on a branch that maintainers may edit |
| MergeVerdicts.VerdictIff | scripts/merge_train.py:149-180 | every verdict is given iff the fields of the pull request, its checks, the distance and the clock warrant it, with the limits of two hours and half an hour (also lines 81-146) |
| MergeVerdicts.RetriedIff | scripts/merge_train.py:158-168 | a failed check is repeated iff there is no conflict and no failed migration-order check, the pull request is behind by a known distance, some lint or test check failed, all that failed completed strictly before latest, and the first marker does not name latest (also lines 106-116) |
| MergeVerdicts.FreshFailureIsNotUpdated | scripts/merge_train.py:106-116 | a pull request whose lint or test check failed on the latest commit or after it is never updated |
| MergeTrain.FirstHolder | scripts/merge_train.py:197-207 | the first queued pull request that is not skipped; all before it are |
| MergeTrain.Choose | scripts/merge_train.py:183-210 | the loop returns the specified action and one note per queued pull request; the next three rows say what these are |
| MergeVerdicts.QueueIsByTime | scripts/merge_train.py:191-194 | auto-merge order: the queue holds the listed pull requests that are no drafts and have auto-merge on, as often as listed, earlier times first, equal times in the order fetched |
| MergeVerdicts.ChoiceSays | scripts/merge_train.py:197-210 | the choice falls on a queued pull request that is not skipped while all with an earlier auto-merge time are, and is its verdict; it is idle iff nothing is queued, and stuck iff something is and all of it is skipped |
| MergeVerdicts.NotesSay | scripts/merge_train.py:197-207 | the notes give the reason for every pull request before the chosen one, its verdict, and for every later one the number it waits behind |
| MergeTrain.QueueIsFreedIff | scripts/merge_train.py:183-210 | with frozen data, for every queue: from some moment on the choice is neither to wait nor an exception iff the first pull request in auto-merge order that is not skipped for ever does not hold the queue for ever |
| MergeTrain.ChosenIsListed | scripts/merge_train.py:191-209 | an update is chosen only for a listed pull request that is judged update |
| MergeTrain.DropShrinks | scripts/merge_train.py:339 | dropping the refused pull request makes the list shorter, so the loop ends (also line 350) |
| MergeTrain.Iterate | scripts/merge_train.py:319-353 | one pass of the loop ends the run or makes the list of pull requests shorter |
| MergeTrain.GitHub.RecordAttempt | scripts/merge_train.py:252-260 | stores the recorded body if the call took effect, which a failed call may have, and changes nothing else |
| MergeTrain.GitHub.UpdateBranch | scripts/merge_train.py:342-344 | makes one update-branch call and changes no body |
| MergeTrain.RunTrain | scripts/merge_train.py:318-353 | the loop with its marker writes, calls and drops ends in the same state and with the same exit as the transition system |
| MergeRun.HolderPosition | scripts/merge_train.py:197-207 | the chosen pull request in the shortened list has only skipped or dropped ones before it in the whole queue (also line 350) |
| MergeRun.QueueOfRest | scripts/merge_train.py:191-194 | dropping a pull request and sorting commute: the queue of the rest is the rest of the queue (also line 350) |
| MergeRun.DecisionEnds | scripts/merge_train.py:318-353 | whatever pass ends the run, its end is explained by the first pull request of the whole queue that is neither skipped nor refused before, in both directions |
| MergeRun.IterateKeeps | scripts/merge_train.py:318-353 | every pass keeps the order of attempts, and every pass that ends the run explains the end by the whole queue |
| MergeRun.RunReport | scripts/merge_train.py:318-353 | a run attempts only the first pull request not skipped or refused and never passes one that waits; its process ends with status 1 iff the queue is not empty and all of it ended skipped or refused, or the first other one makes it raise; its calls go to different attempted pull requests in order and only the last can have been accepted |
| MergeRun.LoopSends | scripts/merge_train.py:341-353 | the calls GitHub received from a run go to attempted pull requests, in the order of the attempts; none but the last was accepted, and that one iff the run reports an update |
| MergeRun.AttemptsGoDown | scripts/merge_train.py:318-353 | later attempts are at later positions in auto-merge order |
| MergeRun.DryRunSendsNothing | scripts/merge_train.py:326-328 | a dry run makes no call and changes no body |
| MergeVerdicts.DryRunReport | scripts/merge_train.py:321-328 | a dry run makes one choice and ends with status 1 iff that is stuck or raises |
| MergeProtocol.RetryIsNew | scripts/merge_train.py:158-168 | a pull request chosen for the failed-check path was not retried before for the run's latest commit (also lines 329-344) |
| MergeProtocol.PatchKeeps | scripts/merge_train.py:252-260 | writing a marker keeps the invariant, and when it takes effect the attempt is remembered (also lines 329-348) |
| MergeProtocol.StepKeeps | scripts/merge_train.py:252-260 | every step of a run or of the world keeps the invariant that each retry on the current latest commit is remembered in the body (also lines 329-351) |
| MergeProtocol.OneRetryPerLatestCommit | scripts/merge_train.py:158-168 | over any number of runs with failing calls in between, each pull request gets at most one retry call per latest commit (also lines 252-260, 329-351) |
| MergeProtocol.DueRetryIsMade | scripts/merge_train.py:329-353 | it gets that call: when a run chooses a pull request with old failures and no call fails, the marker is written, the one call is made, and the run ends as an update |
| MergeProtocol.KilledRunHoldsTheQueue | scripts/merge_train.py:331-344 | a run killed between the marker and the call made no call, and leaves the pull request waiting at every later time for as long as latest stays |
| MergeProtocol.UnreportedWriteHoldsTheQueue | scripts/merge_train.py:331-340 | so does a write of the marker that took effect although it was reported as failed, without any call |
| MergeProtocol.RefusalHoldsTheQueueIff | scripts/merge_train.py:345-351 | after a refused call the pull request, fetched again, is skipped as refused at every later time if the note took effect, with the refused marker of this latest commit in its body, and otherwise waits: it holds the queue iff the note did not take effect (also lines 163-167) |
| MergeProtocol.RetriedAgainIff | scripts/merge_train.py:158-168 | a recorded attempt is judged due again iff marker removal left a marker that names another commit (also lines 252-256) |
| MigrationOrder.RenamesHideOnlyMoves | scripts/check_migration_order.py:42-47 | git's rename detection changes the verdict only for a branch that does nothing to migrations but move some out of their folders |
| MigrationOrder.MigrationIff | scripts/check_migration_order.py:21 | a path is a migration of an app iff it is src, the app, migrations and a file of four digits, an underscore, a name and the ending |
| MigrationOrder.PassingMergeTakesOneSide | scripts/check_migration_order.py:37-72 | on a base that only gained migrations, a merge that passes has the migrations of one of its sides: the base's if the branch changed none, else the branch's |
| MigrationOrder.MergeExists | scripts/check_migration_order.py:42-47 | any branch can be merged into any base, so the results about merges are not about none |
| MigrationOrder.UpToDateMerge | scripts/check_migration_order.py:41-60 | a branch that contains the base passes whatever it does, and merging it yields exactly its tree |
| MigrationOrder.LinearHasOneLeaf | scripts/check_migration_order.py:5-8 | an app whose migrations form a chain has a leaf, only one, and no two migrations with one parent |
| MigrationOrder.PassingMergeKeepsChainsIff | scripts/check_migration_order.py:51-72 | a passing merge, of an up-to-date branch or onto a base that only gained migrations, keeps one chain per app iff the branch left the migrations alone or its own tree has one chain per app |
| MigrationOrder.AddKeepsLinear | scripts/check_migration_order.py:61-65 | a migration that extends the leaf its branch sees keeps every app a chain |
| MigrationOrder.RepointingRestores | scripts/check_migration_order.py:61-65 | merging the base into a branch with one new migration and pointing that at the leaf of the base puts the branch in order |
| MigrationOrder.StepKeepsIff | scripts/check_migration_order.py:51-72 | of all steps, with any commit to any file and with branch updates, only the merge of an untested branch breaks the chains of the base |
| MigrationOrder.AlwaysLinearIff | scripts/check_migration_order.py:51-72 | in every history of passing merges the base has one chain per app all the time iff every branch was in order when it was merged |
| MigrationOrder.BaseStaysLinear | scripts/check_migration_order.py:37-72 | so in every history of passing merges of branches in order, with commits and updates in between, each app of the base has one leaf and no duplicate successor (also lines 3-11) |
| MigrationOrder.RuledStep | scripts/check_migration_order.py:61-65 | every commit that extends the leaf its branch sees, every update, and every repointing after one keep the base and the branches in order, so that what is merged has its own chains |
| MigrationOrder.RuledHistory | scripts/check_migration_order.py:51-72 | if authors keep to these rules and merges pass the check, every merge is of a branch in order and the base has one chain per app all the time |
| MigrationOrder.OneLeafForEver | scripts/check_migration_order.py:37-72 | so if every migration extends the leaf its branch sees, or is pointed at the base's after an update, and every merge passes the check, each app of the base has one leaf and no duplicate successor for ever (also lines 3-11) |
| MigrationOrder.AdditiveIsCovered | scripts/check_migration_order.py:37-60 | if nobody edits, deletes or moves a migration of the base, that holds for merges of branches however far behind |
| MigrationOrder.UpdateIsNoFix | scripts/check_migration_order.py:5-8 | for any base: two branches that extend the same migration fail the check; after merging the base into the branch it passes, and every merge forks the chain (also lines 61-65) |
| MigrationOrder.MergeIsHeadIff | scripts/check_migration_order.py:42-47 | a merge that passes because the base gained nothing has exactly the branch's migrations iff the base neither deleted nor edited one (also lines 58-60) |
| MigrationOrder.DeletionIsNotSeen | scripts/check_migration_order.py:45-47 | a deleted migration passes the check and leaves a migration without its parent (also lines 58-60) |
| MigrationOrder.MoveIsNotSeen | scripts/check_migration_order.py:42-44 | so does a migration that the branch moves out of its folder, through rename detection only |
| CeleryWorker.KeysFrom | scripts/benchmark_celery.py:80-93 | the attempts a plan calls for, each once: one per job and a second one for a job that retries (also lines 367-371) |
| CeleryRuns.StepKeepsSlots | scripts/benchmark_celery.py:198-206 | a step never lets two attempts that share time run on one slot |
| CeleryRuns.StepKeeps | scripts/benchmark_celery.py:345-371 | every step keeps the order within attempts, between an attempt and its retry, and the barrier's promise (also lines 198-213) |
| CeleryRuns.RunKeeps | scripts/benchmark_celery.py:345-371 | so does every schedule (also lines 198-213) |
| CeleryRuns.NoTripleOverlap | scripts/benchmark_celery.py:198-206 | no three attempts pairwise overlap |
| CeleryLaws.PublishedInOrder | scripts/benchmark_celery.py:208-211 | in every reachable state, a job of the batch is announced only when the publication of every job before it has returned |
| CeleryProgress.NeverStuck | scripts/benchmark_celery.py:345-371 | a worker that is not done can take a step unless the plan has exactly one barrier job |
| CeleryProgress.StepTakesOne | scripts/benchmark_celery.py:345-371 | every step takes exactly one from the number of steps left |
| CeleryProgress.LoneBarrierNeverCompletes | scripts/benchmark_celery.py:355-362 | a plan with exactly one barrier job completes in no schedule |
| CeleryProgress.CompletesIff | scripts/benchmark_celery.py:355-371 | a schedule that cannot be extended has completed iff the plan does not have exactly one barrier job, always after the same number of steps (also lines 198-213) |
| CeleryProgress.BarrierForcesOverlap | scripts/benchmark_celery.py:355-371 | in a completed run with two barrier jobs two barrier attempts overlap for some time |
| CeleryProgress.TheTwoBarrierJobsOverlap | scripts/benchmark_celery.py:355-371 | with exactly two barrier jobs that do not retry, those two overlap (also lines 88-90) |
| CeleryTrace.Trace.constructor | scripts/celery_trace.py:176-180 | starts with no open attempt and no event |
| CeleryTrace.Trace.Publish | scripts/celery_trace.py:206-209 | appends the producer's intent and touches no open attempt |
| CeleryTrace.Trace.PublishReturned | scripts/celery_trace.py:211-214 | appends the return of the publication and touches no open attempt |
| CeleryTrace.Trace.Begin | scripts/celery_trace.py:216-242 | opens the attempt with no provider call and appends its start with the process id |
| CeleryTrace.Trace.ProviderCall | scripts/benchmark_celery.py:181-192 | counts the call of an open attempt and appends no event |
| CeleryTrace.Trace.RetryDecided | scripts/celery_trace.py:244-248 | appends the retry decision |
| CeleryTrace.Trace.Finish | scripts/celery_trace.py:250-272 | closes the attempt and appends its end with its provider calls; an attempt never opened is an error and changes nothing |
| CeleryTrace.Join | scripts/celery_trace.py:319-331 | the first loop: attempts in order of first event, the rows of each in order of time, and the worker numbers |
| CeleryTrace.Pairs | scripts/celery_trace.py:354-370 | the loops over pairs yield the specified overlaps |
| CeleryTrace.Correlate | scripts/celery_trace.py:319-390 | the loops return the specified report |
| CeleryLaws.RowsSay | scripts/celery_trace.py:322-331 | the rows of a listed attempt tell of all its events and no others, by time and for equal times in the order of the input, with the number in place of the process |
| CeleryLaws.NumbersByAppearance | scripts/celery_trace.py:324-326 | the process with the smaller number was seen first |
| CeleryLaws.FlagsSay | scripts/celery_trace.py:335-341 | a kind is missing iff it is a boundary and no event of the attempt has it, and repeated, with its count, iff more than one has |
| CeleryLaws.DelaysSay | scripts/celery_trace.py:342-351 | the queue delay runs from the latest enqueue to the latest start and the broker delay from the latest return of the publication; each is unknown iff one of its two events is missing |
| CeleryLaws.DelaysOfSingle | scripts/celery_trace.py:342-351 | with one enqueue, published and start event each, anywhere in the input, the delays are the differences of their times |
| CeleryLaws.OutcomeSays | scripts/celery_trace.py:334 | the state is that of the latest end, and unknown without one (also line 352) |
| CeleryLaws.OverlapSays | scripts/celery_trace.py:354-370 | two attempts are listed with a number of seconds iff both have all boundaries and their times, latest start to latest end, share exactly that many, more than none |
| CeleryCorrelation.AttemptsPartition | scripts/celery_trace.py:321-353 | the attempts are the job and attempt keys of the events, each listed once with all its events |
| CeleryCorrelation.CountsAreExact | scripts/celery_trace.py:335-341 | the two counts are the numbers of attempts that lack a boundary and that repeat an event (also lines 375-376) |
| CeleryCorrelation.OutcomeOfSingleEnd | scripts/celery_trace.py:334 | an attempt that ends once is listed with the state of that end (also line 352) |
| CeleryCorrelation.OrderIsIrrelevant | scripts/celery_trace.py:319-390 | the counts do not depend on the order of the input, and neither does the digested graph unless an attempt repeats an event |
| CeleryCorrelation.WorkersAreNumbered | scripts/celery_trace.py:324-326 | worker numbers and process ids correspond one to one (also line 374) |
| CeleryCorrelation.OverlapsIff | scripts/celery_trace.py:354-370 | an entry is listed iff it is a pair of complete attempts whose intervals share positive time, with that length |
| CeleryCorrelation.OverlapsAreDistinct | scripts/celery_trace.py:356-370 | no pair of attempts is listed twice |
| CeleryCorrelation.ReportedOverlaps | scripts/celery_trace.py:354-370 | both hold for the report of any list of events |
| CeleryHarness.StepKeepsLog | scripts/celery_trace.py:206-272 | every step keeps the log faithful: sorted, one event for what happened, with its time, process and calls |
| CeleryHarness.NothingIncomplete | scripts/benchmark_celery.py:243-249 | a completed run reports no incomplete and no duplicate attempt |
| CeleryHarness.OverlapsReported | scripts/benchmark_celery.py:243-249 | the report of a completed run lists a pair of attempts iff they were running at the same time for some time, in whatever order the events arrived |
| CeleryHarness.EndsAndCalls | scripts/benchmark_matrix.py:350-362 | a completed run has one end per planned attempt, and the provider calls of the ends are those of the plan with retried jobs counted twice |
| CeleryLaws.DelaysOfRun | scripts/celery_trace.py:342-351 | in every completed run, in whatever order its events arrived, the delays of an attempt are the times from its announcement and from the return of its publication to its start on a slot; the first is never negative and never the smaller one (also scripts/benchmark_celery.py lines 207-215) |
| CeleryHarness.WorkerCount | scripts/celery_trace.py:324-326 | a completed run with an overlap reports exactly two workers (also line 374) |
| CeleryHarness.TracedRunPasses | scripts/benchmark_celery.py:226-249 | every completed run of a plan with two or more barrier jobs passes, in whatever order its events arrived: nothing incomplete or duplicate, an overlap, two workers, planned ends and calls |
| CeleryHarness.BenchmarkSums | scripts/benchmark_celery.py:80-93 | the benchmark's plan calls for 7 attempts and 9 provider calls |
| CeleryHarness.EndsAreBounded | scripts/benchmark_celery.py:226-234 | a reachable log never has more ends than planned attempts, and as many iff all have ended |
| CeleryHarness.WaitMeansComplete | scripts/benchmark_celery.py:226-240 | with exactly one retrying job, the harness's wait for one end more than jobs is over iff the run is complete |
| CeleryHarness.WaitNeverEnds | scripts/benchmark_celery.py:226-240 | without a retrying job the wait is over in no schedule, so it ends at its deadline |
| CeleryHarness.WaitEndsTooEarly | scripts/benchmark_celery.py:226-240 | with more retrying jobs, every completing schedule passes an incomplete state in which the wait is over |
| CeleryHarness.BenchmarkRunPasses | scripts/benchmark_matrix.py:347-364 | every run of the benchmark's plan, when the harness's wait is over and in whatever order the events arrived, reports 7 ends, 9 provider calls and the overlap of its two barrier jobs |
| CeleryExercise.Observe | scripts/celery_trace.py:206-272 | the signal handlers append exactly the event of the step, from what the collector and the slots know |
| CeleryExercise.Exercise | scripts/benchmark_celery.py:207-242 | the traced batch, run with the collector object, reports the correlation of the machine's log |
| GettextScanner.LineLength | scripts/update_translations.py:16 | a line comment ends at the first line break or at the end (also line 20) |
| GettextScanner.ReadArgument | scripts/update_translations.py:33-38 | reads blanks and comments, one static literal, and blanks and comments, and fails exactly where the specification has no argument |
| GettextScanner.ReadArguments | scripts/update_translations.py:32-43 | reads exactly the asked number of literals separated by commas, or fails when there are not that many |
| GettextScanner.ReadCall | scripts/update_translations.py:30-51 | prints the call iff its arguments are static and the expected character follows |
| GettextScanner.CallsStep | scripts/update_translations.py:26-51 | the scan splits at the end of each token, and what a token emits depends only on what follows it |
| GettextScanner.LiteralCalls | scripts/update_translations.py:24-51 | the token loop yields exactly the specified calls in order |
| GettextLaws.LineCommentHides | scripts/update_translations.py:17 | nothing is emitted from a line comment; the scan goes on at its line break |
| GettextLaws.BlockCommentHides | scripts/update_translations.py:17 | nothing is emitted from a block comment; the scan goes on behind its first end |
| GettextLaws.QuotedTextHides | scripts/update_translations.py:17 | nothing is emitted from a string or template literal, whatever is escaped in it (also line 13) |
| GettextLaws.BoundNameIsPassed | scripts/update_translations.py:18 | a name behind a word character, a dollar sign or a dot is passed over |
| GettextLaws.FreeCharacterIsPassed | scripts/update_translations.py:16-20 | elsewhere a character with which no comment, quoted text or call begins is passed over |
| GettextLaws.OpenCommentHidesNothing | scripts/update_translations.py:17 | a slash that opens no comment, or one that is never closed, hides nothing |
| GettextLaws.OpenQuoteHidesNothing | scripts/update_translations.py:17 | a quote that is never closed hides nothing (also line 13) |
| GettextLaws.CallIff | scripts/update_translations.py:30-51 | a free call emits a text iff as many static literals as its function takes are written behind it, with blanks and comments around them, separated by commas and followed by the right character, and the text is the function with these literals, and the count for a plural (also lines 21-22) |
| GettextLaws.FreeCallEmits | scripts/update_translations.py:18-51 | a call with static arguments, bare or behind `window.` or `django.`, is emitted wherever its name is free, exactly once, and the scan goes on behind its arguments |
| GettextRoundTrip.LiteralRest | scripts/update_translations.py:13-14 | a literal is matched as such whatever follows it |
| GettextRoundTrip.LiteralCut | scripts/update_translations.py:13-14 | what the literal pattern matched is a literal by itself (also line 34) |
| GettextRoundTrip.EmittedArePrinted | scripts/update_translations.py:30-51 | every emitted call is a known function applied to its number of static literals |
| GettextRoundTrip.ArgumentsReadBack | scripts/update_translations.py:32-51 | a printed argument list is read back as the same literals, with the right character behind them, also when it has the constant count |
| GettextRoundTrip.PrintedLine | scripts/update_translations.py:26-51 | a printed line yields its own call and nothing else, whatever its literals contain, and leaves the scanner where it started (also lines 117-120) |
| GettextRoundTrip.LinesReadBack | scripts/update_translations.py:117-120 | printed lines yield their calls in order |
| GettextRoundTrip.SkipHeader | scripts/update_translations.py:118 | the header comment yields nothing |
| GettextRoundTrip.FileReadsBack | scripts/update_translations.py:109-122 | scanning a generated file yields exactly the calls it was written for, in order (also lines 24-51) |
| GettextRoundTrip.ExtractionReadsBack | scripts/update_translations.py:100-122 | so the file of a template stands for exactly the distinct calls of its snippets, whatever these contain |
| GettextRoundTrip.ScanIsIdempotent | scripts/update_translations.py:24-51 | scanning what was printed for a scan changes nothing, for every input |
| FirstSeen.UniqueMembers | scripts/update_translations.py:102-106 | removing repeated calls loses none and lists none twice |
| MemorySample.RollUp | scripts/container_memory_sample.py:237-289 | the loop makes one budget for each role that has a process, from the members of that role |
| MemorySample.RoleTotal | scripts/container_memory_sample.py:281-288 | a role's total is the exact sum of its members, and unknown iff one of them is |
| MemorySample.RoleCounts | scripts/container_memory_sample.py:255 | measured and rss-only counts add up to the members, and rss-only is zero iff all are measured (also lines 266-269) |
| MemorySample.RoleMaximum | scripts/container_memory_sample.py:261-265 | the largest known reading is reported with the first process that has it, and is unknown iff none is known |
| MemorySample.RoleUptime | scripts/container_memory_sample.py:274-280 | the longest known uptime is reported, and none iff none is known |
| MemorySample.RoleSums | scripts/container_memory_sample.py:255-273 | the counts, resident sizes and descriptors are sums that leave unknown values out |
| MemorySample.TotalsPermute | scripts/container_memory_sample.py:237-289 | no count, total or maximum of a role depends on the order of the processes; the process shown for the maximum may (also lines 525-527) |
| MemorySample.SumOrNone | scripts/container_memory_sample.py:387-395 | the sum in bytes, or unknown iff a reading is unknown |
| MemorySample.Reconcile | scripts/container_memory_sample.py:528-531 | process sums over the measured processes, with unknown PSS or private sums counted as zero; complete iff no process is rss-only, valid iff also one was measured (also lines 566, 571-580) |
| MemorySample.RolesPartition | scripts/container_memory_sample.py:240-254 | distributing processes over roles loses nothing and counts nothing twice |
| MemorySample.ReportedExactly | scripts/container_memory_sample.py:240-289 | for every key, the role totals add up to the total of all processes, and are unknown iff one reading is |
| MemorySample.RolesReconcile | scripts/container_memory_sample.py:571-572 | on a valid capture the roles' PSS totals in bytes equal the reconciliation's process PSS (also lines 527-531, 566) |
| MemoryAging.MedianBounds | scripts/memory_aging_report.py:116-117 | a median lies between any bounds of the readings |
| MemoryAging.MedianPermutes | scripts/memory_aging_report.py:116-117 | a median does not depend on the order of the readings (also line 128) |
| MemoryAging.QuartersApart | scripts/memory_aging_report.py:115-117 | in a series that never falls the first quarter's median is at most the last one's, also when the quarters coincide |
| MemoryAging.DriftSoundness | scripts/memory_aging_report.py:107-118 | a series that never falls has no negative drift, and a constant one has drift zero |
| MemoryAging.TrendBounds | scripts/memory_aging_report.py:33 | early, late and median values lie between the least value and the peak, and drift is unknown iff the span is under a quarter of an hour (also lines 107-127) |
| AgingLaws.TrendSays | scripts/memory_aging_report.py:97-127 | a trend is made iff two readings are known; its counts, span, first, last, peak, medians of the warm part and of its first and last quarter, and drift per hour are those of the known readings and of those behind the warm-up |
| MemoryAging.SumTicks | scripts/memory_aging_report.py:158-170 | the two sums over a dictionary do not depend on the order of its keys |
| MemoryAging.ResourceDelta | scripts/memory_aging_report.py:130-202 | every delta and both warnings: another boot iff identities differ or lack, a reset iff some compared counter went back |
| AgingLaws.DeltaSays | scripts/memory_aging_report.py:139-145 | a delta is known iff both readings are, on one boot and without going back, and is then exactly their difference in seconds; otherwise a reset is noted iff both are known on one boot |
| AgingLaws.CounterSays | scripts/memory_aging_report.py:174-196 | so for every counter of microseconds |
| AgingLaws.CpuSays | scripts/memory_aging_report.py:147-173 | so for all and for busy processor ticks, if the clock rate is known, not zero and unchanged and the keys are the same and not empty |
| AgingLaws.TicksSay | scripts/memory_aging_report.py:158-170 | the sums grow by the ticks of each key, the busy one by all but those of idle and iowait |
| MemoryAging.BusyWithinTotal | scripts/memory_aging_report.py:150-173 | a known busy delta is not negative and lies within a known total iff the idle counters together did not go back |
| MemoryAging.DeltasTelescope | scripts/memory_aging_report.py:139-145 | when every consecutive delta of a counter is known, the end-to-end delta is known, their sum, and not negative |
| MemoryAging.CounterTelescopes | scripts/memory_aging_report.py:174-196 | so, with a sum that is not negative, for the cgroup CPU counter and all twelve pressure counters |
| MemoryAging.CpuTelescopes | scripts/memory_aging_report.py:147-173 | so, with a sum that is not negative, for the processor ticks, all of them or the busy ones, under one unchanged clock rate |
| MemoryAging.ResetsAreLost | scripts/memory_aging_report.py:139-145 | for every chain of known readings on one boot, the plain difference from end to end is at most the sum of the deltas, and equal iff every delta is known |
| MemoryAging.EndToEndIsRightIff | scripts/memory_aging_report.py:139-145 | so the end-to-end delta is the sum of the deltas iff no reading is below the one before, and when it is known it is never too large |
| MemoryAging.CounterEndToEndIsRightIff | scripts/memory_aging_report.py:174-196 | the same for the cgroup CPU counter and every pressure counter of a run |
| MemoryAging.EndToEndHidesReset | scripts/memory_aging_report.py:139-145 | a witness: a known end-to-end delta over a reset in between |
| TransactionWindows.Monitor.Query | scripts/investigate_performance.py:507-521 | the wrapper around a statement opens a transaction, counts writes and times the first one that succeeds, as specified |
| TransactionWindows.Monitor.Finish | scripts/investigate_performance.py:523-541 | the end of a transaction counts it, raises the peaks, keeps the sixteen longest and closes it, and changes nothing when it fails or none is open |
| TransactionWindows.OnlineIsOffline | scripts/investigate_performance.py:536-538 | for elements and keys of any kind, appending, sorting and truncating keeps what sorting everything once would keep |
| TransactionWindows.KeptIsTop | scripts/investigate_performance.py:596-598 | so after any number of appends, of samples as of chunk receipts by their own key, the kept list is the first sixteen of the stable sort of everything |
| TransactionWindows.SampleIsNested | scripts/investigate_performance.py:529-532 | a sample of an open transaction has nested windows |
| TransactionWindows.StepKeeps | scripts/investigate_performance.py:507-541 | every statement and ending keeps the order of times, the kept list, the peaks and the counts |
| TransactionWindows.WindowsAndPeaks | scripts/investigate_performance.py:487-541 | for every trace with a clock that does not go back: nested windows, the first sixteen of a stable descending sort of all samples, and peaks and counts over all of them |
| TransactionWindows.TransactionIsMeasured | scripts/investigate_performance.py:507-541 | whatever went before, a transaction gives one sample: its outcome, its number of writes, and the times since it began, since its first write began and since its first successful write ended, zero where there is none; then none is open |
| TransactionWindows.OnlyEndsAreMeasured | scripts/investigate_performance.py:523-528 | nothing gives a sample but an end that succeeds while a transaction begun before has not ended |
| TransactionWindows.LongestWindows | scripts/investigate_performance.py:536-539 | sixteen samples are kept, or all if there are fewer, none shorter than one that was dropped, longest first, and of equal ones those completed first |
| TemplateHosting.DirectHosts | scripts/ui_migration_metrics.py:82-92 | the set starts with exactly the templates that match a marker or open a tag |
| TemplateHosting.Pass | scripts/ui_migration_metrics.py:95-100 | a pass adds only templates that reach a direct host, reports a change iff it added one, and otherwise leaves a closed set |
| TemplateHosting.Fixpoint | scripts/ui_migration_metrics.py:92-100 | the loop ends, and marks a template iff a chain of includes leads from it to a direct host |
| TemplateHosting.Hosting | scripts/ui_migration_metrics.py:80-104 | the entries say who hosts directly and who only through includes, and these two partition the hosts |
| TemplateHosting.ChainIsInside | scripts/ui_migration_metrics.py:94-100 | every set that is closed under includes of hosts has all templates with a chain, so the hosts are the least one |
| TemplateHosting.OrderIsIrrelevant | scripts/ui_migration_metrics.py:84 | the order of the templates does not change the hosts (also line 96) |
| TemplateHosting.FewerMarkersFewerHosts | scripts/ui_migration_metrics.py:371-376 | with fewer markers and tags, some of each left, a host is still a host for all markers: substantive hosts are hosts (also lines 390-393) |
| TemplateHosting.NeverGainsIff | scripts/ui_migration_metrics.py:80-104 | exactly when a smaller choice of markers and tags gains no host for any templates: some of each are left, or all templates matched anyway (also lines 61-62, 372-373) |
| SponsorsGoal.FiguresOf | scripts/update_sponsors_goal.py:56-57 | the percent is clamped to 0 and 100 and otherwise unchanged, and so is the target |
| SponsorsGoal.GroupedReadsBack | scripts/update_sponsors_goal.py:70 | dropping the commas of a grouped number and reading it gives the number (also line 75) |
| SponsorsGoal.FiguresAreFound | scripts/update_sponsors_goal.py:11 | the search finds the printed percent and target in the card (also lines 68, 73-82) |
| SponsorsGoal.CurrentIff | scripts/update_sponsors_goal.py:60-75 | the card of one goal is current for another iff their clamped percent and target agree |
| SponsorsGoal.NegativeIsNeverCurrent | scripts/update_sponsors_goal.py:11 | a card with a negative target is current for no goal (also lines 60-75) |
| SponsorsGoal.FreshCardIsCurrentIff | scripts/update_sponsors_goal.py:60-75 | a card is current for its own goal iff the target is not negative (also lines 95-98) |
| SponsorsGoal.LabelSays | scripts/update_sponsors_goal.py:75 | a label is the clamped percent, the words, and the target in groups of three digits, both without leading zeros |
| SponsorsGoal.WidthSays | scripts/update_sponsors_goal.py:84 | the bar is 4.5 times as wide as the percent, to one decimal |
| SponsorsGoal.SearchIff | scripts/update_sponsors_goal.py:11 | the search returns the figures of the first label in a text, where a label is any number and any digits and commas with the words around them |
| SponsorsGoal.CurrentSays | scripts/update_sponsors_goal.py:60-70 | any card is current iff its first label shows the clamped percent and the target |
| ProviderDirectory.PinnedFirst | frontend/providers/ProviderDirectoryView.jsx:67-69 | sorting puts the pinned items first and keeps the order within both groups |
| ProviderDirectory.Directory.constructor | frontend/providers/ProviderDirectoryView.jsx:117-142 | mounting shows the given items and starts a load unless it is skipped |
| ProviderDirectory.Directory.ChangeFilters | frontend/providers/ProviderDirectoryView.jsx:165-169 | a change of a filter value aborts the effect before it and starts one for the new filters; equal values leave everything as it is (also lines 177-181) |
| ProviderDirectory.Directory.RetryLoad | frontend/providers/ProviderDirectoryView.jsx:165-169 | a retry clears the error and restarts the effect (also lines 183-187) |
| ProviderDirectory.Directory.TimerFires | frontend/providers/ProviderDirectoryView.jsx:148-152 | the timer starts the request and shows loading |
| ProviderDirectory.Directory.RequestSettles | frontend/providers/ProviderDirectoryView.jsx:152-163 | a reply to an aborted request changes nothing shown; another one shows its items with confirmed pins, or an error |
| ProviderDirectory.Directory.PinSettles | frontend/providers/ProviderDirectoryView.jsx:195-198 | a confirmation is remembered and shown |
| ProviderDirectory.CleanupEnds | frontend/providers/ProviderDirectoryView.jsx:165-168 | after a cleanup no timer and no live request is left, and nothing shown has changed |
| ProviderDirectory.StartSays | frontend/providers/ProviderDirectoryView.jsx:137-169 | new filters and a retry abort the effect before with its timer and start one for the selected filters, or show an error without a loader; equal filters do nothing (also lines 183-187) |
| ProviderDirectory.ReplySays | frontend/providers/ProviderDirectoryView.jsx:148-163 | a live reply ends loading: items replace the shown ones, each with its confirmed pin, pinned ones first in their order, and anything else shows an error and keeps them; an aborted one changes nothing shown |
| ProviderDirectory.ConfirmationSays | frontend/providers/ProviderDirectoryView.jsx:195-198 | a confirmation is remembered, set on the shown items with that slug, and reorders them pinned first |
| ProviderDirectory.NextKeeps | frontend/providers/ProviderDirectoryView.jsx:137-169 | every step keeps shown pins in agreement with the confirmed ones, at most one live effect, and an honest loading sign (also lines 183-204) |
| ProviderDirectory.ShownPinsAreConfirmed | frontend/providers/ProviderDirectoryView.jsx:155-158 | over every interleaving, a shown item whose slug was ever confirmed carries the last confirmed value (also lines 195-198) |
| ProviderDirectory.RepliesAreCurrent | frontend/providers/ProviderDirectoryView.jsx:152-163 | only the reply for the selected filters changes the items, pinned first; a superseded one changes nothing |
| ProviderDirectory.OneReplyPerRequest | frontend/providers/ProviderDirectoryView.jsx:148-169 | in every history a timer fires at most once and its request is answered at most once, after it fired |
| ProviderDirectory.FiresForSelected | frontend/providers/ProviderDirectoryView.jsx:165-169 | a timer that can still fire belongs to the effect for the selected filters |
| ProviderDirectory.ConfirmationReorders | frontend/providers/ProviderDirectoryView.jsx:197-198 | a confirmation sets one slug, keeps all others and leaves pinned items first |
| StableSort.SortPermutes | scripts/investigate_performance.py:537 | sorting neither loses nor invents an element |
| StableSort.SortStable | scripts/merge_train.py:191-194 | sorting keeps the order of elements with equal keys |
| StableSort.SortIsUnique | scripts/celery_trace.py:322 | a list sorted by a key and with a given order in each group of equal keys is unique, so the model's sort is the only stable one |
| StableSort.SelectSort | scripts/merge_train.py:191-194 | dropping elements before or after sorting makes no difference (also line 350) |
| Text.RStrip | scripts/merge_train.py:255 | drops exactly the space characters at the end |

## Left out

- The rest of Floppy: the Django application, its integrations and migrations, and all React code but the provider directory.
- Merge train: fetching over `gh`, the retries while GitHub still calculates mergeability, the wording of reasons and the report. The answers of GitHub, the distances and the clock are inputs; one run reads its data once, as the source does.
- Merge train: `RunReport` and `AttemptsGoDown` assume a clock that does not go back during a run. `OneRetryPerLatestCommit` assumes serial runs (the workflow's concurrency group), descriptions edited without touching the marker, bodies in which removing markers leaves none, and latest commits that never recur.
- MigrationOrder: how git computes differences and merges. A merge takes a path that one side changed from that side and leaves open what becomes of one that both changed; rename detection is any pairing of removed with added files.
- MigrationOrder: a migration has at most one parent, so Django's merge migrations, which join two leaves, are not chains here; the other rules of the hygiene command are left out.
- MigrationOrder.BaseStaysLinear: for branches behind the base it needs that nobody deletes, edits or moves a migration of the base, because the check does not look for that; for up-to-date branches, which latest asks for, it does not.
- CeleryWorker: the ten-second timeout of the barrier and of the final wait, failing publications, the retry countdown, memory and CPU readings, and diagnostics events in the step machine (they exist as a kind of event for `correlate`).
- MigrationOrder.RuledHistory: a branch that adds several migrations may not merge the base; it would have to repoint the first of them in every app.
- CeleryTrace.Trace: the two worker processes hold separate dictionaries of open attempts; one dictionary keyed by attempt stands for both, which is the same because an attempt runs in one process.
- CeleryCorrelation.OrderIsIrrelevant: the SHA-256 digest is represented by the set of nodes that is digested.
- Gettext: the substitutions on Django templates and the HTML parser, which supply arbitrary snippets, and writing files. The class `\w` is a parameter; the round trips assume only that a line break is not in it and that a path is one line.
- TemplateHosting: the tag expression is represented by the set of tags that a text opens; counts, shares and the register score.
- SponsorsGoal.CurrentIff: the card's wording is a parameter without a percent sign and without a digit right before a figure; `\d` stands for ASCII digits. The GraphQL request is left out.
- MemorySample: finding roles, warnings, cgroup files and the unmeasured resident size.
- MemoryAging: `series`, `exposure_summary`, rounding and units for display; times are whole seconds and sizes whole KiB.
- TransactionWindows: the query counter by command and the cache counters; times are integer ticks, so floating-point rounding does not occur.
- ProviderDirectory: rendering, history subscription, labels, and the guard that allows one pin request at a time: any number may be in flight here, so the results hold for more behaviours.
- `correctness` beyond the trace invariants, `compatible`, `matrix`, `percentile` and `register_score`: they compare or count field by field.
