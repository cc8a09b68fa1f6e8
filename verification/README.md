# Stablemate, verified

Dafny 4.11 models of the protocols of Stablemate's tools that carry state from one call to the next, each with the
properties its code and documentation promise. Git, clocks, processes and the file system are state the models move
through step by step, or parameters; the algorithms over them are the repository's own.

| module | of the repository |
|---|---|
| `ReviewDiff`, `CommitDag`, `ReviewGate`, `ReviewGateRuns`, `ReviewGateAnswers` | the Stop hook that pins a base tree, cuts what changed into batches a model reviews, walks a committed backlog range by range and gives up after ten blocked rounds |
| `ManifestCache`, `ManifestThreads` | the stat-stamped manifest cache: one load, and any number of threads loading against files other processes write |
| `HomeConfigCache` | the same cache over the several sources of the home config |
| `Churn`, `ChurnLaws`, `RunTelemetry`, `RunTelemetryLaws`, `TelemetryRules` | the state groom folds each run's spans, metric points and clock ticks into, and the replay it must agree with |
| `ArchiveStream`, `Archive` | the paged, merged reading of a run's rows, and the archival that survives a crash between any two steps |
| `HomeEntries` | farrier's entries in config files their user also edits, and the ledger of which are farrier's |
| `PlainJson`, `PlainJsonKept` | the scan that turns JSONC into JSON |
| `Dispatch`, `DispatchLoss`, `DispatchQueue`, `DispatchAlone` | a dispatch queue's slots, under every interleaving of drains, exits and stops |
| `Worktree`, `WorktreeRows` | whether a linked worktree can go, retiring it, and a sweep with its preview |
| `OwnedFiles`, `OwnedFilesCheck` | farrier's install, sweep and check over files it may and may not touch |
| `Fences`, `FencesInstall` | farrier's fenced region in a hook file the user also edits |
| `Sockets` | newline-framed messages over a socket |
| `Wrappers`, `Collections`, `Text` | result types, facts about sets and sequences, Python string operations |

Whatever the source does by updating objects, lists or files step by step is a class or a method with loops here. Each
is proved equal to a function of what it was given (`…Spec` where a name was needed), and the properties are lemmas
about that function, so a changed body breaks the method's contract and a changed function breaks its lemmas. Runs are
sequences of atomic steps with any interleaving, and git commands that may fail are parameters saying which ones do.

`dafny verify dfyconfig.toml` checks the whole project.

## Where the code falls short of what it says

The models follow the code. Where a promise fails, one lemma gives an input that shows it and another the exact
condition under which the promise holds.

- The give-up message says the next stop reviews the same diff again. After history was rewritten past the saved base
  commit it does not: the reset round count drops the pin (`GiveUpCanDropTheDiff`, `GiveUpKeepsTheDiffExactlyWhen`).
- `load_manifest` says an edit that fails to load keeps the last good document. It does so only if the file was there
  to stat when the load began, and a good document read by a load whose stat failed is not remembered
  (`FailedRereadKeepsTheLastGoodExactlyWhen`, `GoodRereadIsRememberedExactlyWhen`). Its two-second window is tight
  (`AWriteBehindTheWindowIsMissed`). Between threads the last good document is the one of the load that finished last,
  not of the one that read last (`ASlowLoadBringsBackAnOlderDocument`).
- In the home config a missing source leaves no part in the stamp. A file created between the stat and the read and
  then deleted is answered for good (`AFileCreatedDuringALoadOutlivesItsDeletion`); a hit is right exactly when the
  entry was read from stamped sources only (`HitIsRightExactlyWhen`).
- A sweep measures all runs first, and only a move counts again, while it writes. A row that arrives before a resume is
  deleted and held by no archive (`IngestDuringASweepCanLoseARow`): a resume, and a move whose count passed, are safe
  exactly when the stored rows still have the measured counts (`ResumeIsSafeExactlyWhen`, `MoveIsSafeExactlyWhen`,
  `NeverDisturbedExactlyWhen`), and after the publish no count would help (`ARowAfterThePublishCanBeLost`). An archive is recognised by its counts and
  `max_ts`: a row dated before the archive's end can stand in for one already deleted, and goes with the resume
  (`AnOlderRowCanPassForAnArchivedOne`).
- An install is to leave alone what farrier did not install. A user's entry that is `null` is taken for missing:
  selected, it is overwritten and taken into the ledger, and deselected it is gone (`ANullEntryIsTaken`). Every other
  entry survives, and a null one exactly when no install puts its key through (`UserEntriesSurviveExactlyWhen`).
- `plain_json` looks for the end of a block comment from the comment's own slash on, so `/*/` ends where it began
  (`ACommentCanBeLeftInPart`). It cuts JSONC as JSONC is cut exactly when no block comment's first character is a slash
  (`LexIsJsoncExactlyWhen`).
- `dispatch_start` flips a row whatever its status. Two drains that launch one item, with a stop between their two
  records, free two slots while a process still runs (`AStopBetweenTwoStartsFreesTwice`). Over every run no slot can be
  freed twice exactly when no start reopens a row that a stale thread can still finish (`GuardedExactlyWhen`).
  A stop on a process left over from an earlier lifetime, before the semaphore exists, makes a slot
  (`StoppingAnOrphanMakesASlot`); a stop keeps the slots exactly when the semaphore was there (`StopKeepsSlotsExactlyWhen`),
  and one whose queue is no longer configured keeps the slot to itself (`StopItem`). With no stop at all, of two
  processes launched for one item only one gives its slot back (`ADoubleLaunchLosesASlot`): a slot missing from a quiet
  queue is missing for good (`SlotsAreLostForGood`).
- A worktree sweep judges every worktree it removes, but not those whose folder is gone, which `git worktree prune`
  drops: a detached HEAD among them may be the last name of its commits (`ASweepCanLoseCommits`,
  `SweepLosesNothingExactlyWhen`).
- A retirement takes being merged into its base as being kept. A branch is merged into itself, and `base_name` of a
  detached checkout is a bare commit that no ref need keep by the time a run ends
  (workhorse/workhorse/pyflow/run.py:127-132 records it, :150-160 uses it): either way commits can be lost
  (`RetiringAgainstItsOwnTipCanLoseCommits`, `RetireLosesNothingExactlyWhen`).
- A user's file in the folder of a bundle farrier renders survives the install that puts the bundle there and is
  deleted by the next (`NotesGoWithTheSecondInstall`, `StrayGoesWithTheNextInstall`).
- A hook file with a start marker and no end marker loses every line after it at the second install
  (`TwoInstallsCanDropALine`, `LoneStartSwallows`).
- The text of an over-long message's error depends on how the message was cut into packets (`ErrorTextDependsOnPackets`).

## Model

| member | source | states |
|---|---|---|
| ReviewDiff.SplitDiffKeepsTheTail | scripts/review_diff.py:24-29 | the pieces hold the diff from its first file header on, in order, with one newline after it; what stands before that header is in none of them |
| ReviewDiff.SplitDiffIsLossless | scripts/review_diff.py:24-29 | the pieces are the whole diff if and only if the diff opens with a file header |
| ReviewDiff.Batches | scripts/review_diff.py:36-46 | the loop that fills and flushes `current` yields the greedy cut |
| ReviewDiff.BatchesConcatenate | scripts/review_diff.py:36-46 | the batches laid end to end are the pieces, none lost, repeated or moved |
| ReviewDiff.BatchesFit | scripts/review_diff.py:36-46 | every batch is within the budget when every piece is |
| ReviewDiff.GreedyIsOptimal | scripts/review_diff.py:36-46 | no order-preserving grouping within the budget uses fewer groups than the greedy cut has batches |
| ReviewDiff.OversizedAreNamed | scripts/review_diff.py:49-58 | one finding for each piece over the budget, with its path and size, and for no other |
| ReviewDiff.PackRefusesOnlyTheImpossible | scripts/review_diff.py:49-71 | a diff is refused exactly when no order-preserving grouping within the budget has at most the allowed number of groups |
| ReviewDiff.PlanCoversTheDiff | scripts/review_diff.py:49-71 | a plan that is not refused is the whole diff in order, each batch within the budget, and no more batches than allowed |
| CommitDag.FirstParentChain | scripts/review_git.py:51-52 | the list is the first-parent chain down from the head, none of it reachable from the base, empty exactly when the head is reached already, and it ends at a root or where the base's history begins |
| CommitDag.FirstParentSuffix | scripts/review_git.py:51-52 | once a listed commit is reached, what is left to list is exactly the commits after it |
| CommitDag.AncestryIsTransitive | scripts/review_git.py:36-37 | being an ancestor is transitive |
| ReviewGate.PlanIsTheWholeDiff | scripts/review_run.py:40-43 | at the gate's own budget, rubric and cap of four, a plan that is not too large is the whole diff |
| ReviewGate.ApprovalMeansEveryBatchWasClean | scripts/review_run.py:46-65 | a review passes exactly when nothing was too large and every batch, each one asked in order, came back without a finding |
| ReviewGate.RangeStopsBeforeTheFirstTooLarge | scripts/review_backlog.py:52-59 | each range is the longest prefix before the first commit too large to plan |
| ReviewGate.RangeMakesProgress | scripts/review_backlog.py:71-95 | a range that does not block leaves strictly fewer first-parent commits between the base commit and the head, so the walk ends |
| ReviewGate.Gate.RunBatches | scripts/review_run.py:46-54 | the loop that asks batch after batch, stopping at the first failure, gives the specified verdict and call log |
| ReviewGate.Gate.WidestRange | scripts/review_backlog.py:52-59 | the loop finds the change up to the last commit that fits, or none |
| ReviewGate.Gate.ReviewNextRange | scripts/review_backlog.py:71-95 | the skip, the move, the block and the calls are those of the specified range step |
| ReviewGate.Gate.ReviewCommits | scripts/review_backlog.py:71-82 | the same over the commits git listed: the first one skipped when it cannot be planned alone, else the widest range that can |
| ReviewGate.Gate.ReviewRange | scripts/review_backlog.py:83-95 | the same for a range that fits: out of scope, unreviewed, approved or handed over |
| ReviewGate.Gate.WalkBacklog | scripts/review_backlog.py:98-120 | the loop ends, and its state, change, skips, block, saved state and calls are those of the specified walk |
| ReviewGate.Gate.ReviewTip | scripts/review_gate.py:101-113 | the tip review writes and answers what is specified |
| ReviewGate.Gate.HookDecision | scripts/review_gate.py:116-130 | one stop saves and answers what is specified, skip notices included |
| ReviewGateRuns.ApprovedMeansTheWholeDiff | scripts/review_backlog.py:83-95 | the batches behind an approved move are the whole diff between its two trees, for every diff that opens with a file header |
| ReviewGateRuns.WalkIsJustified | scripts/review_backlog.py:98-132 | a walk moves the base only along justified segments that chain with no gap, and names every skipped commit |
| ReviewGateRuns.StopIsJustified | scripts/review_gate.py:101-130 | one stop moves the pinned tree only over a diff that was approved, was out of scope, was handed over in this stop's block or is named in this stop's skip notice |
| ReviewGateRuns.PinnedRunsChain | scripts/review_gate.py:49-66 | over any run of stops, commits and edits in which each stop finds its pin, all segments chain from the first pinned tree to the last, each justified by its own stop |
| ReviewGateRuns.RoundsStayBelowTen | scripts/review_state.py:54-61 | the saved count stays below ten over every stop, and a give-up is always the tenth round |
| ReviewGateRuns.EveryTenthRoundGivesUp | scripts/review_gate.py:101-113 | in an unbroken run of failed tip reviews the gate gives up at exactly every tenth, using the tie-break model from the third |
| ReviewGateRuns.GiveUpKeepsTheDiffExactlyWhen | scripts/review_gate.py:93-98 | the stop after a give-up starts where this one did if and only if no base commit was saved, the saved one is an ancestor of HEAD, or this stop started at HEAD's own tree |
| ReviewGateRuns.AReviewThatAlwaysFindsNeverPasses | scripts/review_run.py:46-54 | a model that always finds something never approves |
| ReviewGateAnswers.ReviewIsItsCalls | scripts/review_run.py:46-54 | a review asks batch after batch with the rubric until a call fails, and its findings are what was too large and then what those calls found, in order |
| ReviewGateAnswers.WalkAnswers | scripts/review_backlog.py:98-120 | a walk is unfinished if and only if one of its calls failed, hands over exactly what the calls of its last range found, and names exactly the commits it skipped |
| ReviewGateAnswers.EveryAnswerIsRight | scripts/review_gate.py:93-130 | every stop with something in scope: it lets the agent go only if nothing in scope is left or all that was left was approved; gives up only at the tenth counted round or later; and else blocks, with what the reviewer found in the whole range or in all that is left, by the model its round calls for, or as unfinished if and only if a call failed; what is too large is a finding only when no backlog is left to walk; and what it saves for the next stop |
| ReviewGateAnswers.OutOfScopeStopsAreSilent | scripts/review_gate.py:116-122 | a stop in another directory, or with nothing in scope, asks, saves and says nothing |
| ReviewGateAnswers.StartsAtThePinExactlyWhen | scripts/review_gate.py:49-58 | a stop compares against the pinned tree if and only if git still has it and rounds are being counted or the saved base commit is in HEAD's history |
| ReviewGateAnswers.WalksOnlyABacklog | scripts/review_backlog.py:31-37 | only a pinned backlog that is too large at once is walked |
| ReviewGateRuns.GiveUpCanDropTheDiff | scripts/review_gate.py:93-98 | a repository in which the stop after a give-up no longer compares against the pinned tree |
| ManifestCache.Cache.LoadManifest | core/stablemate_core/manifest.py:209-241 | one load answers, raises and updates `_held` as specified, for every stat, clock and read |
| ManifestCache.FailedRereadKeepsTheLastGoodExactlyWhen | core/stablemate_core/manifest.py:209-241 | a failing re-read answers the last good document if and only if the file was there to stat |
| ManifestCache.GoodRereadIsRememberedExactlyWhen | core/stablemate_core/manifest.py:209-241 | a good re-read becomes the last good document if and only if the file was there to stat or nothing changed |
| ManifestCache.UnchangedIsNotReadAgainExactlyWhen | core/stablemate_core/manifest.py:189-221 | a load does not read the file, answers the last good document and changes nothing if and only if the held entry was read or failed under this very stamp more than two seconds after its mtime; any other answers what it reads |
| ManifestThreads.SinceKeeps | core/stablemate_core/manifest.py:189-198 | no step of any thread, and no write whose mtime lags the clock by at most two seconds, changes what a settled stamp says of a file's content |
| ManifestThreads.StepKeepsInv | core/stablemate_core/manifest.py:178-241 | every stat, lookup, comparison, clock, read and assignment of any load, and every write of another process, keeps what the shared entries and the loads under way say of the files |
| ManifestThreads.EveryAnswerIsUncached | core/stablemate_core/manifest.py:209-241 | from an empty cache, for every interleaving of any number of loads with each other and with such writes, each load answers or raises as a loader without a cache that reads the file at some moment of that load |
| ManifestThreads.AnUndisturbedLoadIsUncached | core/stablemate_core/manifest.py:209-241 | of a load during which the file's reading did not change, that is the one answer re-reading gives |
| ManifestThreads.HitsReflectTheContent | core/stablemate_core/manifest.py:186-241 | in every reachable state, of every entry some thread still has: a hit on its stamp means the content now parses to its document, a hit on `failed` that it still fails |
| ManifestThreads.AnUnchangedFileIsNotRead | core/stablemate_core/manifest.py:216-223 | whatever other threads do, a load that fetches such an entry answers its document without reading |
| ManifestThreads.AWriteIsAnsweredNext | core/stablemate_core/manifest.py:209-241 | whatever is held, the next whole load after a write answers what was written, or the last good document if that does not parse |
| ManifestThreads.ALoadByItselfIsLoadSpec | core/stablemate_core/manifest.py:209-241 | the steps of a load with no other between them leave the cache and the answer that `LoadManifest` is proved to |
| ManifestThreads.ASlowLoadBringsBackAnOlderDocument | core/stablemate_core/manifest.py:221-241 | a load overtaken by a whole other one and then finished is what failing re-reads answer from then on |
| ManifestThreads.AWriteBehindTheWindowIsMissed | core/stablemate_core/manifest.py:197-198 | one write a nanosecond further behind the clock is answered with what is no longer there |
| HomeConfigCache.Cache.LoadHomeConfig | core/stablemate_core/config.py:264-291 | one load answers, raises and updates `_held` as specified |
| HomeConfigCache.FailingLoadsAnswerTheLastGood | core/stablemate_core/config.py:251-291 | however many loads in turn fail, a path that loaded before answers its last good document every time, and one that never loaded or was forgotten raises every time |
| HomeConfigCache.UnchangedIsNotReadAgainExactlyWhen | core/stablemate_core/config.py:233-279 | the sources are not read, the last good document answered and nothing changed if and only if the held entry was read or failed under this very stamp more than two seconds after every mtime in it |
| HomeConfigCache.ReadFromExactly | core/stablemate_core/config.py:161-170 | a config that is there is read alone; one that is not is read from the legacy files that are, in order, or from nothing if its path was given |
| HomeConfigCache.AWriteIsAnsweredNext | core/stablemate_core/config.py:264-291 | whatever is held, the next load after a write of the config answers what was written, or the last good document if that does not parse |
| HomeConfigCache.MatchingStampRereadsTheStampedSources | core/stablemate_core/config.py:221-234 | under a matching settled stamp, re-reading now gives what the stamped sources alone gave when read |
| HomeConfigCache.StepKeepsInv | core/stablemate_core/config.py:208-291 | every step, with any source written, created or deleted, keeps what the entry says of the files |
| HomeConfigCache.HitIsRightExactlyWhen | core/stablemate_core/config.py:264-291 | a hit, good or failed, is what re-reading now would give if and only if the entry was read from stamped sources only |
| HomeConfigCache.ReachableHitIsRightExactlyWhen | core/stablemate_core/config.py:264-291 | the same in every state any interleaving of loads with writes can reach |
| HomeConfigCache.NoNewSourceReadsOnlyStamped | core/stablemate_core/config.py:221-230 | a read with no source its stamp lacks is enough for that |
| HomeConfigCache.EveryCleanAnswerIsUncached | core/stablemate_core/config.py:264-291 | for every interleaving in which no load reads a source its stamp lacks, each answer is the re-reading loader's |
| HomeConfigCache.AFileCreatedDuringALoadOutlivesItsDeletion | core/stablemate_core/config.py:221-291 | the interleaving that breaks the law without that hypothesis |
| Churn.Alerts | groom/groom/churn.py:43-64 | the loop over sorted spans finds exactly the replay's alerts |
| Churn.SortByEndSorts | groom/groom/churn.py:43-64 | the spans are replayed in the order they ended, none lost |
| Churn.AlertsAreRepeatedVisits | groom/groom/churn.py:32-64 | every alert is a finished visit of the input, counted at least `limit` times |
| ChurnLaws.ObserveCountsRepeats | groom/groom/churn.py:32-40 | from any tally of earlier visits, a visit's count is how many times in a row its node has now finished on the same workflow-declared attributes, and the work moved on if and only if it is the first |
| ChurnLaws.CountsStartAtOne | groom/groom/churn.py:32-40 | a visit of a node with no count, as after a refuel, is counted as the first |
| ChurnLaws.SortIsStable | groom/groom/churn.py:51 | the spans are replayed by end and then start, ties in the order they came |
| ChurnLaws.AlertsExactlyWhen | groom/groom/churn.py:43-64 | the alerts are exactly the visits that repeat `limit` times or more, each the first to since any node moved on to other work or the run was resumed |
| RunTelemetry.RunTelemetry.AcceptSession | groom/groom/alerts.py:183-218 | older generations and other processes of the same one are turned away with nothing changed, a higher generation starts afresh |
| RunTelemetry.RunTelemetry.IngestSpan | groom/groom/alerts.py:230-305 | one span's effect on every field and its alerts |
| RunTelemetry.RunTelemetry.IngestPoint | groom/groom/alerts.py:308-426 | one metric point's effect on every field and its alerts |
| RunTelemetry.RunTelemetry.CheckTimeRules | groom/groom/alerts.py:463-516 | one tick's alerts and the rules it marks |
| RunTelemetry.HotCache.IngestSpans | groom/groom/alerts.py:230-305 | a batch folds each span into its own run, in order, and leaves the other runs |
| RunTelemetry.HotCache.IngestMetrics | groom/groom/alerts.py:308-426 | the same for a batch of metric points |
| RunTelemetryLaws.StaleRecordsChangeNothing | groom/groom/alerts.py:183-218 | a record of an older session changes no run state and raises nothing |
| RunTelemetryLaws.EventKeeps | groom/groom/alerts.py:111-121 | every span, point and tick keeps: a wait has a kind exactly when it has a series, no series is both open and closed, an inactive turn has no idle or elapsed time, sessions only move forward and closed series are not forgotten within one |
| RunTelemetryLaws.EventsKeep | groom/groom/alerts.py:308-426 | the same over every sequence of records |
| RunTelemetryLaws.AClosedWaitStaysClosed | groom/groom/alerts.py:111-121 | within one session no late point, in any order, reopens a wait groom has closed |
| RunTelemetryLaws.NoRunReopensAClosedWait | groom/groom/alerts.py:308-426 | the same for a run from its first record on: whatever came before and comes after, the invariants hold and a closed wait is not open later in its session |
| RunTelemetryLaws.EndingIsWithdrawnExactlyWhen | groom/groom/alerts.py:83-91 | an ended run is taken to run again if and only if a record that is no ending starts a new session or, naming no generation, speaks of a later time; ticks and all other records leave the ending |
| RunTelemetryLaws.SessionRaisesOnce | groom/groom/alerts.py:94-98 | within one session WATCHDOG, GAVE_UP and ENDED are each raised at most once, whatever records and ticks come, and not at all if raised before |
| RunTelemetryLaws.TicksPageOnce | groom/groom/alerts.py:463-516 | between two records, ticks raise each rule at most once |
| TelemetryRules.RaisedExactlyWhen | groom/groom/alerts.py:230-516 | every rule but a span's CHURN is raised if and only if it is not raised already and what it stands for holds: STALL on silence since the last span, heartbeat and first sight, WAITING on a long operator wait, STUCK on a turn or node that does not progress, ENDED, WATCHDOG and GAVE-UP on their spans, BLOCKED on an accepted point, not late, that opens an operator's wait |
| TelemetryRules.StaysRaisedExactlyWhen | groom/groom/alerts.py:83-124 | which records retire which page: any record STALL, progress STUCK, the end of the wait BLOCKED and WAITING, a refuel CHURN, a new session or an outlived ending all |
| TelemetryRules.AlertsAreOfTheRun | groom/groom/alerts.py:94-98 | every alert names its run |
| TelemetryRules.FieldsHoldTheLatest | groom/groom/alerts.py:230-420 | after any history within a session, the last span and heartbeat times, the gas and whether a turn is active are what its latest record of that kind says |
| TelemetryRules.TurnAndNodeHold | groom/groom/alerts.py:340-420 | the same of how long the turn is idle, which node is active and how long it has been open |
| TelemetryRules.PointSetsFields | groom/groom/alerts.py:308-425 | what a point of the session sets of heartbeat, gas, turn and node |
| TelemetryRules.PointStampsExactly | groom/groom/alerts.py:342-352 | which times an accepted point that is not late moves: a heartbeat's arrival and the latest time named, a timer's arrival |
| TelemetryRules.PointsReachTheirRuns | groom/groom/alerts.py:308-320 | however the points of many runs are mixed in a batch, each run's state and alerts are what its own points make of it, and points that name no run do nothing |
| TelemetryRules.SpansReachTheirRuns | groom/groom/alerts.py:230-242 | the same of spans |
| TelemetryRules.WaitMovesExactly | groom/groom/alerts.py:330-405 | what an accepted point does to the wait: nothing if it is late, else it opens, closes or times it |
| TelemetryRules.RefuelForgetsCounts | groom/groom/alerts.py:354-356 | a refuel forgets how often each node repeated but not on what work, and no other point touches the tally |
| TelemetryRules.ResumeForgets | groom/groom/alerts.py:183-218 | the first record of a session finds a run that knows only when it was first seen, its last span and its tally |
| TelemetryRules.EndsAs | groom/groom/alerts.py:256-263 | the span that ends a run says how, and when |
| RunTelemetryLaws.SpanTracks | groom/groom/alerts.py:230-305 | one accepted span moves the stream and the replay alike, with the same alert |
| RunTelemetryLaws.StreamingRefinesTheReplay | groom/groom/churn.py:32-64 | a run's streamed CHURN alerts, with points and ticks anywhere between, are those of the batch replay: the same visits, the same counts |
| RunTelemetryLaws.AnySplitIntoBatchesRefinesTheReplay | groom/groom/alerts.py:230-305 | the same however the spans are split into batches |
| ArchiveStream.Stream | groom/groom/archive.py:170-180 | the cursor loop yields every row after the origin once, in (ts, rowid) order, whatever the page size |
| ArchiveStream.PageExtendsTheStream | groom/groom/store.py:2187-2208 | one page of rows after the cursor extends what was streamed with no gap and no repeat |
| ArchiveStream.RecordsAreExact | groom/groom/archive.py:183-189 | the three-way merge is in (ts, rowid) order, holds every row once, and gives each kind's stream back |
| ArchiveStream.RecordsAreInTimeOrder | groom/groom/archive.py:183-189 | the records come by time and then rowid |
| ArchiveStream.StreamIsInTimeOrder | groom/groom/archive.py:170-180 | a stream comes by time and then rowid, each row once and none from before time zero |
| Archive.FindDestination | groom/groom/archive.py:371-379 | the loop over candidate names gives the specified destination |
| Archive.DestinationIsExact | groom/groom/archive.py:360-379 | a move goes to a free name; a resume has an archive of the run whose counts and `max_ts` match |
| Archive.DestinationExactlyWhen | groom/groom/archive.py:354-379 | which of the two names a run moves to, when it is there already and when both are taken |
| Archive.WriteTelemetry | groom/groom/archive.py:210-237 | the file is published, with exactly the records written, only if the counts by kind are the manifest's |
| Archive.RecordsAreTheRowsToWrite | groom/groom/archive.py:183-237 | the merged streams are the archivable rows, each once, counted by kind |
| Archive.EqualCountsMeanEqualRows | groom/groom/archive.py:360-368 | an archive whose counts match a superset of its rows holds all of them |
| Archive.CheckPassesExactlyWhen | groom/groom/archive.py:210-237 | a write passes its count check if and only if what it wrote are the measured rows, so one that began after a new archivable row had arrived never does |
| Archive.RecountsExactlyWhen | groom/groom/archive.py:360-368 | the stored rows have the measured counts if and only if no archivable row came since |
| Archive.StepKeepsInv | groom/groom/archive.py:426-481 | every step of an undisturbed run, ingests for a measured run and crashes included, keeps: each row is stored or archived, each archive holds what its manifest says and all stored rows up to its `max_ts` |
| Archive.NoRowIsEverLost | groom/groom/archive.py:426-481 | through any sequence of sweeps, ingests and crashes between any two steps, rows arriving for a run being archived included, every row a run was given is in the live store or under archives/, if the run is undisturbed (resumes and passed writes find the measured counts, and no row comes after the publish) and no row is dated within an archive |
| Archive.NeverDisturbedExactlyWhen | groom/groom/archive.py:426-481 | over every such run with rows so dated: it is undisturbed if and only if at no moment the sweeper is at, or about to be at, a deletion that can lose a row |
| Archive.StepKeepsBooks | groom/groom/archive.py:426-481 | every step, whatever rows arrive when, keeps what is said of bounds, destinations and manifests |
| Archive.EveryManifestIsTrue | groom/groom/archive.py:192-237 | over every run, whatever rows arrive when, every archive's manifest has the counts of its rows and a `max_ts` none of them exceeds |
| Archive.NoArchiveIsRewritten | groom/groom/archive.py:371-441 | over every run, whatever rows arrive when, an archive that is there stays there unchanged |
| Archive.ResumeIsSafeExactlyWhen | groom/groom/archive.py:426-441 | in every sound state, every deletion a resume goes on to leaves each row stored or archived if and only if the stored rows still have the measured counts |
| Archive.MoveIsSafeExactlyWhen | groom/groom/archive.py:426-441 | the same of a move whose count check passed |
| Archive.ARowAfterThePublishCanBeLost | groom/groom/archive.py:435-441 | after an archivable row that arrives behind the publish or during the deletes, the deletion can always lose a row |
| Archive.MovedWorldIsReached | groom/groom/archive.py:426-441 | the archival both failing runs start from is reached from an empty world |
| Archive.IngestDuringASweepCanLoseARow | groom/groom/archive.py:444-481 | from there, a crash and a row between the next measuring and the resume: the row is lost |
| Archive.AnOlderRowCanPassForAnArchivedOne | groom/groom/archive.py:360-379 | from there, a delete, a crash and a row dated before the archive's end: the counts match and the row is lost |
| Archive.Archiver.ArchiveRun | groom/groom/archive.py:426-441 | one archival moves, resumes or fails, and changes store, files and archives, as specified |
| Archive.ArchiveRunIsTheUninterruptedMachine | groom/groom/archive.py:426-441 | that archival is the step machine run with no crash |
| Archive.ArchivalDoesExactly | groom/groom/archive.py:426-441 | one archival moves all archivable rows under the free name with the measured bounds if they still have the measured counts, moves nothing if they are there, deletes the run's rows in both cases, and else changes nothing |
| HomeEntries.HomeDir.RewriteFile | farrier/farrier/home_entries.py:379-403 | one file's write puts what drifted there and drops what is extra there, and touches no other file |
| HomeEntries.HomeDir.InstallEntries | farrier/farrier/home_entries.py:379-403 | the widened ledger, the files one by one and the narrowed ledger end in the specified home |
| HomeEntries.DriftIsExact | farrier/farrier/home_entries.py:326-350 | which keys are reported missing (not there, or null), changed, extra and foreign, the last in their own file or in the one beside it |
| HomeEntries.DiffersExactlyWhen | farrier/farrier/home_entries.py:317-342 | an entry that is there differs from a value if and only if one of the two has an item, empty ones not counted, that the other has not or has differently |
| HomeEntries.InstallSetsEveryItem | farrier/farrier/home_entries.py:379-403 | after an install every intended entry has exactly the items it is intended to have |
| HomeEntries.RefusedExactlyWhen | farrier/farrier/home_entries.py:364-376 | an install is refused if and only if an entry farrier does not own differs, in its file or the one beside it |
| HomeEntries.InstalledAt | farrier/farrier/home_entries.py:379-403 | the whole install key by key: value and ownership |
| HomeEntries.StoppedIsNotRefused | farrier/farrier/home_entries.py:364-403 | after a crash at any write nothing farrier wrote is reported foreign |
| HomeEntries.RestartConverges | farrier/farrier/home_entries.py:379-403 | stopping anywhere and running again ends where an uninterrupted install does, files and ledger |
| HomeEntries.InstallLeavesNoDrift | farrier/farrier/home_entries.py:326-403 | after an install that was not refused, `entry_drift` is empty |
| HomeEntries.CrashThenRestart | farrier/farrier/home_entries.py:326-403 | all three for a crash at any stage |
| HomeEntries.InstallLeavesAloneExactlyWhen | farrier/farrier/home_entries.py:326-403 | an entry that is there and not in the ledger stays as it is and out of the ledger if and only if it is not null or the install is refused or does not intend it |
| HomeEntries.UserEntriesSurviveExactlyWhen | farrier/farrier/home_entries.py:307-403 | over any history of installs with changing selections and of user edits, a user's entry stays as it is and out of the ledger at every point, matching the library or not, if and only if it is not null or no install that intends it goes through |
| HomeEntries.ANullEntryIsTaken | farrier/farrier/home_entries.py:336-403 | a user's null that is selected is overwritten and owned, and deselected again it is dropped |
| HomeEntries.LedgerHoldsOnlyWhatWasPut | farrier/farrier/home_entries.py:307-314 | from an empty ledger, what enters it the files did not hold as it is |
| PlainJson.PlainJson | farrier/farrier/home_entries.py:143-164 | the index loop gives the text of the kept tokens, and fails exactly when the text does not lex |
| PlainJson.NextToken | farrier/farrier/home_entries.py:143-164 | a token as the scan finds it is the text from its index to its end, and a string literal ends in its quote |
| PlainJson.LexIsLossless | farrier/farrier/home_entries.py:143-164 | the tokens are the text, cut |
| PlainJson.BuildIsKept | farrier/farrier/home_entries.py:143-164 | looking back at what was built, as the code does, drops the same commas as looking ahead to the next token |
| PlainJsonKept.KeptExactly | farrier/farrier/home_entries.py:143-164 | of the tokens that are no comments all are kept, in order, but each comma that nothing but space parts from a closing bracket, and that space |
| PlainJson.OutputLexesBack | farrier/farrier/home_entries.py:143-164 | the output, lexed again, is exactly the kept tokens, so nothing dropped glues two of them together, and its string literals (section 7 of RFC 8259, escapes included) are the input's, unchanged and in order |
| PlainJson.RenderingLexesBack | farrier/farrier/home_entries.py:143-164 | tokens with no slash before a slash or star are what their text lexes to |
| PlainJson.IdentityExactlyOnPlainText | farrier/farrier/home_entries.py:143-164 | the text comes back unchanged if and only if it has no comment and no comma before a closing bracket |
| PlainJson.LexIsJsoncExactlyWhen | farrier/farrier/home_entries.py:155-158 | for every text JSONC can be cut from, the scan's tokens are JSONC's if and only if none is a block comment whose first character is a slash |
| PlainJson.ACommentCanBeLeftInPart | farrier/farrier/home_entries.py:157-158 | a text that is one comment, of which the output keeps the end |
| Dispatch.SlotsBoundProcesses | groom/groom/dispatch.py:36-44 | live processes are at most the slots out, and those at most the queue's concurrency |
| Dispatch.StepAccountsExactlyWhen | groom/groom/dispatch.py:77-92 | a step of a drain, a waiter or a stop keeps the slot account if and only if it is not a finish that frees a slot twice |
| Dispatch.StepKeepsInv | groom/groom/dispatch.py:36-162 | every guarded step keeps the account and the wiring of rows, processes and threads |
| Dispatch.ConcurrencyIsRespected | groom/groom/dispatch.py:36-162 | in a lifetime that starts with no running row, under every interleaving in which no start reopens a row a stale thread can still finish: processes ≤ slots out ≤ concurrency, and releases never exceed acquisitions |
| Dispatch.OpenStartsAreGuarded | groom/groom/dispatch_ledger.py:78-97 | a `dispatch_start` that flipped only rows not yet terminal would meet that guard over every run |
| Dispatch.StepKeepsInvExactlyWhen | groom/groom/dispatch_ledger.py:78-97 | of all possible steps exactly the starts outside that guard break the invariant |
| Dispatch.HarmfulStartsCanFreeTwice | groom/groom/dispatch_ledger.py:78-122 | after every start outside the guard some stale waiter or stop is at most one step of its own from freeing a slot twice |
| Dispatch.GuardedExactlyWhen | groom/groom/dispatch.py:77-162 | over every possible run: all starts are within the guard if and only if at no moment a slot can be freed twice within two steps without another start |
| Dispatch.AStopBetweenTwoStartsFreesTwice | groom/groom/dispatch.py:122-162 | a reachable run of two drains and a stop that ends with every slot free and a process running |
| Dispatch.StopKeepsSlotsExactlyWhen | groom/groom/dispatch.py:148-162 | a stop that cancels a running row leaves as many slots, free or running, as the concurrency if and only if the semaphore existed before it |
| Dispatch.StoppingAnOrphanMakesASlot | groom/groom/dispatch.py:36-44 | a stop on an orphan before the semaphore exists ends with one slot more than the concurrency |
| DispatchLoss.QuietQueueIsWholeExactlyWhen | groom/groom/dispatch.py:77-92 | with no drain, stop, live process or waiter left, every slot is free if and only if every process's slot was given back |
| DispatchLoss.LostStaysLost | groom/groom/dispatch.py:77-92 | no step gives back the slot of a process whose waiter lost and whose row runs no more |
| DispatchLoss.SlotsAreLostForGood | groom/groom/dispatch.py:77-162 | whatever guarded run follows a quiet moment, never are more slots free than then |
| DispatchLoss.ADoubleLaunchLosesASlot | groom/groom/dispatch.py:77-140 | a guarded run of two drains and no stop after which a quiet queue is one slot short |
| DispatchQueue.DrainConservesSlots | groom/groom/dispatch.py:122-140 | a drain spends one slot for each row it sets running and stops early only when none is left |
| DispatchQueue.DrainTakesInOrder | groom/groom/dispatch.py:122-140 | the oldest pending rows are launched or failed, the rest stay pending |
| DispatchQueue.NothingPendingIsLeft | groom/groom/dispatch_ledger.py:158-164 | a drain with a slot left over has left no row pending |
| DispatchQueue.Queue.Slot | groom/groom/dispatch.py:36-44 | the semaphore is made once, less the rows already running, and neither makes nor loses a slot |
| DispatchQueue.Queue.DrainQueue | groom/groom/dispatch.py:122-140 | the drain loop's slots and rows are the specified ones, no slot is made or lost, and afterwards none is free or no row is pending |
| DispatchQueue.Queue.ReleaseSlot | groom/groom/dispatch.py:87-90 | a slot given back and a drain: one slot more, and the specified rows |
| DispatchQueue.Queue.Exited | groom/groom/dispatch.py:77-92 | an exit finishes its running row, frees its slot and drains if the queue is still configured; one whose row a stop has cancelled does nothing |
| DispatchQueue.Queue.StopItem | groom/groom/dispatch.py:148-162 | a row that does not run is left alone; one that does is cancelled, and the slots stay right if and only if the queue is configured and its semaphore was there, or neither: otherwise there is one too many or one too few |
| DispatchQueue.Queue.EnqueueItem | groom/groom/dispatch.py:95-104 | the new row is pending behind the others, and the drain that follows leaves the specified slots and rows |
| DispatchAlone.DrainIsDrainSpec | groom/groom/dispatch.py:122-140 | a drain with no other step between its own leaves the slots and rows the loop is proved to leave |
| DispatchAlone.ExitIsExited | groom/groom/dispatch.py:77-92 | an exit by itself finishes its row and gives its slot back, or does neither if the row is finished already |
| DispatchAlone.StopIsStopItem | groom/groom/dispatch.py:148-162 | a stop by itself cancels the row, kills the process and gives a slot back, on a semaphore made then if need be |
| DispatchAlone.SemaphoreIsMadeFor | groom/groom/dispatch.py:36-44 | the semaphore is made with the slots that running rows leave, none if more run than there are |
| Worktree.TipsKeepExactlyWhen | core/stablemate_core/worktree.py:86-98 | a tip keeps the worktree if and only if git saw it neither merged nor pushed, and the verdict "merged" is given only when every tip is |
| Worktree.RetireActsExactlyWhen | core/stablemate_core/worktree.py:68-127 | exactly when a worktree is kept: dirty or unreadable, a tip not seen to land, or git refusing; and exactly when its branch goes too: merged, not just pushed, and on no checkout that stays |
| Worktree.RetireLosesNothingExactlyWhen | core/stablemate_core/worktree.py:101-127 | for every base and whichever git commands fail, exactly the same commits are reachable after a retirement as before if and only if the worktree stays or each tip that goes with it is kept by another ref or checkout |
| Worktree.RetireLosesNoCommit | core/stablemate_core/worktree.py:101-127 | that is so whenever the base is a name the retirement leaves, or a bare commit the main checkout is still at |
| Worktree.RetireTouchesOneWorktree | core/stablemate_core/worktree.py:101-127 | a retirement changes nothing but one worktree and one branch that no checkout is on |
| Worktree.LandedTipsAreCovered | core/stablemate_core/worktree.py:86-98 | a verdict other than keep means every tip is merged or pushed |
| Worktree.LostRootLanded | core/stablemate_core/worktree.py:68-127 | the only names that go are the worktree's HEAD and its branch, both merged or pushed |
| Worktree.RetiringAgainstItselfIsSafeExactlyWhen | core/stablemate_core/worktree.py:101-127 | with the branch as its own base, no commit is lost if and only if another checkout is on the branch or another ref holds its tip |
| Worktree.RetiringAgainstItsOwnTipCanLoseCommits | core/stablemate_core/worktree.py:44-54 | a clone in which commits are lost, with the branch as its own base and with the bare commit a detached main checkout was once at |
| Worktree.PreviewIsWhatApplyDoes | farrier/farrier/worktree_sweep.py:116-149 | when git's commands succeed, the preview's rows are those of `--apply` entry by entry, action and reason: retiring one entry changes no later verdict |
| Worktree.PreviewChangesNothing | farrier/farrier/worktree_sweep.py:116-149 | a preview leaves the repository as it is |
| Worktree.EntriesKeepReach | farrier/farrier/worktree_sweep.py:116-149 | the retirements of a whole sweep lose no commit, whichever git commands fail |
| Worktree.LockedAndBusyStay | farrier/farrier/worktree_sweep.py:102-149 | a sweep never removes or changes a locked worktree, nor one in use or touched lately whose folder is there |
| Worktree.PruneLosesNothingExactlyWhen | farrier/farrier/worktree_sweep.py:147-148 | pruning loses no commit if and only if each pruned detached HEAD is held by some other ref |
| Worktree.SweepLosesNothingExactlyWhen | farrier/farrier/worktree_sweep.py:116-149 | a whole sweep loses no commit if and only if it prunes nothing or that holds of the repository before it began |
| WorktreeRows.AssessExactlyWhen | core/stablemate_core/worktree.py:68-98 | for whatever git answers: kept, gone already, merged or pushed, each exactly when |
| WorktreeRows.SweepRowsAre | farrier/farrier/worktree_sweep.py:102-146 | with git working, a sweep and its preview remove exactly the worktrees nothing holds, that are clean and whose commit has landed; hold the locked and busy; and prune those whose folder is gone with no lock |
| WorktreeRows.SweepLeavesExactly | farrier/farrier/worktree_sweep.py:116-149 | whatever git commands fail, a worktree is gone after an applied sweep if and only if its row says removed, or the prune ran and its folder was gone with no lock; any other is as it was |
| Worktree.ASweepCanLoseCommits | farrier/farrier/worktree_sweep.py:147-148 | a clone whose sweep, with every git command succeeding, loses a commit |
| Worktree.Clone.AssessWorktree | core/stablemate_core/worktree.py:68-98 | the loop over the tips gives the specified verdict |
| Worktree.Clone.RetireWorktree | core/stablemate_core/worktree.py:101-127 | the repository, the outcome and the reason are the specified ones |
| Worktree.Clone.SweepOne | farrier/farrier/worktree_sweep.py:128-146 | one entry's row and effect are the specified ones |
| Worktree.Clone.SweepListed | farrier/farrier/worktree_sweep.py:125-146 | the loop's rows, repository and stale flag are the specified ones |
| Worktree.Clone.SweepRepo | farrier/farrier/worktree_sweep.py:116-149 | the same with the prune at the end |
| OwnedFiles.InstallTouchesOnlyItsOwn | farrier/farrier/outputs.py:237-287 | an install, finished, refused or stopped by the file system, changes or deletes a file only if it was owned before the install began or is assumed owned, and makes files only at its outputs |
| OwnedFiles.Conflicts | farrier/farrier/outputs.py:237-272 | an install is refused if and only if some output's path is held by a file farrier does not own |
| OwnedFiles.SweepDirsExact | farrier/farrier/ownership.py:84-101 | sweeping folder after folder takes only what one of them owned and leaves nothing any of them owns |
| OwnedFiles.RemoveTargetsExact | farrier/farrier/outputs.py:275-287 | the removal takes only what is removable and leaves nothing that is |
| OwnedFiles.CheckAfterInstallExactlyWhen | farrier/farrier/outputs.py:635-707 | after a finished install `check_outputs` finds nothing missing and nothing changed, and nothing extra if and only if no file the removal left sits in the folder of a rendered bundle |
| OwnedFiles.DoneIsOverlay | farrier/farrier/outputs.py:686-695 | a finished install leaves what the removal left with every output laid over it |
| OwnedFilesCheck.OwnedExactlyWhen | farrier/farrier/ownership.py:30-48 | a file is farrier's if and only if it carries the mark or a folder above it, below the root, has a marked SKILL.md or hook.yml |
| OwnedFilesCheck.ExpectedTextExactlyWhen | farrier/farrier/outputs.py:162-166 | a verbatim text installs as it is, any other without its trailing space and with one newline |
| OwnedFilesCheck.ReportsExactly | farrier/farrier/outputs.py:635-683 | on any tree: missing exactly the outputs' paths where nothing stands, changed exactly those where no file with the expected text does, extra exactly the other files of farrier's in the scope |
| OwnedFilesCheck.InStepExactlyWhen | farrier/farrier/outputs.py:635-683 | on any tree the check is content if and only if every output is in place and no other file of farrier's is left |
| OwnedFiles.ExtraIsStray | farrier/farrier/outputs.py:659-676 | which files the check calls extra after an install |
| OwnedFiles.SecondInstallChangesNothing | farrier/farrier/outputs.py:686-695 | after an install the check is content with, installing the same outputs again is not refused and changes nothing |
| OwnedFiles.StrayGoesWithTheNextInstall | farrier/farrier/ownership.py:39-101 | a user's file in a rendered bundle's folder survives the install that puts the bundle there and is deleted by the next |
| OwnedFiles.NotesAreAStray | farrier/farrier/ownership.py:39-101 | a tree, a scope and a selection with such a file |
| OwnedFiles.NotesGoWithTheSecondInstall | farrier/farrier/outputs.py:686-695 | there the file is present after the first install and gone after the second |
| OwnedFiles.OwnershipGoesWithTheHeads | farrier/farrier/ownership.py:51-59 | once the files that carry the mark are gone nothing in the folder is owned, so a sweep must list everything before its first unlink |
| OwnedFiles.SweepTakesAllOwned | farrier/farrier/ownership.py:84-101 | with folders that do not nest, sweeping one never hides what another owns |
| OwnedFiles.Tree.IsOwned | farrier/farrier/ownership.py:39-48 | the walk up the parents finds ownership exactly when a mark or a bundle head strictly below the root gives it |
| OwnedFiles.Tree.Sweep | farrier/farrier/ownership.py:84-101 | the unlink loop removes exactly what was owned when it began |
| OwnedFiles.Tree.Remove | farrier/farrier/outputs.py:275-287 | the folders, the named files and the patterns in turn |
| OwnedFiles.Tree.Install | farrier/farrier/outputs.py:686-695 | refuse, remove and write, as specified |
| OwnedFiles.Tree.Check | farrier/farrier/outputs.py:635-683 | the lists filled loop by loop are the specified drift |
| Fences.SpliceShape | farrier/farrier/hook_managers.py:73-84 | the lines after a splice are the lines before the fence, the block and the lines after it, or the block appended: the user's lines stay |
| Fences.SpliceReadsBackExactlyWhen | farrier/farrier/hook_managers.py:73-105 | `fenced_body` of a splice is the body if and only if the text had neither marker or its first start before its first end; every other text breaks it |
| Fences.SpliceFixesExactlyWhen | farrier/farrier/hook_managers.py:73-105 | a text is a fixed point of splicing if and only if its fence holds the body and it is whole lines up to a last one that is not empty |
| Fences.SpliceTwiceExactlyWhen | farrier/farrier/hook_managers.py:73-84 | splicing is idempotent if and only if the text is well fenced and is fenced already or has newlines as its only line breaks |
| Fences.UnspliceUndoesExactlyWhen | farrier/farrier/hook_managers.py:87-95 | taking the fence out of a text that had none gives it back up to its trailing newlines, if and only if newlines are its only line breaks |
| Fences.UnspliceKeepsTheRest | farrier/farrier/hook_managers.py:87-95 | the lines outside the fence stay, but for empty ones at the end |
| Fences.InstallClearsDriftExactlyWhen | farrier/farrier/hook_managers.py:222-317 | after an install of any manager the fence does not drift if and only if the text it went into was well fenced |
| Fences.SecondRunRewritesNothingExactlyWhen | farrier/farrier/hook_managers.py:222-274 | a second install rewrites nothing, if and only if that text settles: the preamble, the older marker and the `repos:` line included |
| Fences.InstallSettlesExactlyWhen | farrier/farrier/hook_managers.py:222-317 | both, over the repository's files |
| FencesInstall.InstallKeepsTheLines | farrier/farrier/hook_managers.py:245-251 | for any file that is not of the older layout and no blank shell hook, the installed lines are the file's own around the fence, up to empty ones at the end, with the block between, and a `repos:` line on top where a pre-commit config has none |
| FencesInstall.OlderLayoutStartsAfresh | farrier/farrier/hook_managers.py:246-247 | a file with the older marker is replaced by what a repository without the file gets |
| FencesInstall.AFreshFileGetsTheBlock | farrier/farrier/hook_managers.py:245-257 | a missing file gets the block, a missing or blank shell hook its first lines and the block |
| Fences.RemovalClearsDriftExactlyWhen | farrier/farrier/hook_managers.py:222-317 | with no manager, no fence is left if and only if no file had both markers again outside its fence |
| Fences.LoneStartSwallows | farrier/farrier/hook_managers.py:73-84 | with a start and no end, the second install drops every line from that start to the block |
| Fences.TwoInstallsCanDropALine | farrier/farrier/hook_managers.py:73-84 | a user's line that two installs drop |
| Fences.BodiesAreClean | farrier/farrier/hook_managers.py:109-146 | the three bodies farrier fences hold no marker and no line break of another kind, so the laws apply to them |
| Fences.HookRepo.RemoveFences | farrier/farrier/hook_managers.py:226-241 | the loop over the four files takes each fence out once and reports the files it changed |
| Fences.HookRepo.InstallManager | farrier/farrier/hook_managers.py:222-274 | the files and messages of an install, a removal or a dry run are the specified ones |
| Sockets.Connection.ReadMessage | core/stablemate_core/sockets.py:13-35 | the receive loop's answer, and the packets it leaves unread, are the specified ones |
| Sockets.ReadMessageIgnoresPackets | core/stablemate_core/sockets.py:13-35 | for every split of the stream into non-empty packets the answer is the bytes before the first newline, or all of them; an error exactly when some byte came and that length exceeds the limit |
| Sockets.SameStreamSameMessage | core/stablemate_core/sockets.py:13-35 | two splits of one stream are read alike but for the text of an error |
| Sockets.ReadsNoFurther | core/stablemate_core/sockets.py:13-35 | nothing is received past the packet that holds the newline |
| Sockets.ReceivesExactly | core/stablemate_core/sockets.py:13-35 | exactly the packets up to the first empty one, the first newline or the limit are received |
| Sockets.ErrorTextExactlyWhen | core/stablemate_core/sockets.py:27-34 | the error tells of no newline if and only if the packets before the first newline's are already too long |
| Sockets.ErrorTextDependsOnPackets | core/stablemate_core/sockets.py:27-34 | one stream in two splits that raise two texts |

## Left out

Of the repository:

- `scripts/claude_reviewer.py` and `scripts/review_verdict.py`: what answers a batch is any function of the call number, the prompt and the model, giving findings or an error.
- `review_from` (`--base`): it keeps a state file of its own and takes the same steps as the tip review.
- Texts of alerts, block reasons, notices and messages: outcomes carry the facts the texts are made of.
- Telemetry fields that only label or price a run (workflow, repository, branch, activity, backend), and attendants.
- The archive's index and summary files; `groom.store.prune`.
- JSON and TOML layout of the config files, guard groups that hold several commands, and the order of drift items and of file writes, which the results do not depend on.
- Several dispatch queues and a change of a queue's concurrency; a process id used again within one lifetime.
- `is_owned_link`, skill links and foreign symlinked folders; file modes; empty folders.
- `install_runner`, `.gitignore` and Makefile blocks, manager detection, run-time hooks.
- `connected`: a retry loop with no result to state.
- Config migrations and profile lookup; manifest parsing: reading and parsing is a function of the content.

Of what the members state:

- Archive.FindDestination: a directory's derived name is told apart by run and `max_ts`, because the collision of its hash is not modelled, nor that `_matches` never looks at the run id.
- Archive.NoRowIsEverLost: assumes an undisturbed run, which `NeverDisturbedExactlyWhen` shows a sweep needs, and that no archivable row is dated within an archive its run already has, which `AnOlderRowCanPassForAnArchivedOne` shows is needed; a rowid is never used again.
- HomeConfigCache.EveryCleanAnswerIsUncached: one load at a time, whose stats of its sources are one step and its reads another.
- ManifestThreads.EveryAnswerIsUncached: of the writes, only those whose mtime lags the clock by at most the window; the warning about stray keys is left out.
- RunTelemetryLaws.StreamingRefinesTheReplay: for records as a run emits them, with a generation, in end order, one process per generation, no node named `run:` and no refuel metric.
- HomeEntries.UserEntriesSurviveExactlyWhen: the ledger is a set of keys; a crash while the ledger file itself is replaced is before or after that replace. An entry or a container that is neither an object nor null, for which the code raises, is not modelled.
- Dispatch.ConcurrencyIsRespected: the guard on `dispatch_start` is a hypothesis the code does not enforce; `GuardedExactlyWhen` says what it excludes.
- Worktree.PreviewIsWhatApplyDoes: reasons are compared without the note on why a branch was kept.
- OwnedFiles.CheckAfterInstallExactlyWhen: assumes, as both of the repository's install scopes have it, that a named file assumed farrier's is one the removal's patterns find; a folder where a file should be counts as changed where the code would raise.
- OwnedFiles.Tree.Install: without the launcher's context manifest, `.gitignore` rules and hook manager that follow the writes; outputs come in the order they are written, and `is_tagged` and the name patterns are parameters.
- Fences.InstallSettlesExactlyWhen: the files are texts as `read_text` gives them, which turns `\r\n` and `\r` into `\n`; that writing them back makes every line end in `\n` is not stated.
- Fences.HookRepo.InstallManager: without the executable bit and `core.hooksPath`, and their messages.
- Sockets.Connection.ReadMessage: the bytes before they are decoded.
